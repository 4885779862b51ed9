/**
 * One call of getSatelliteData: poll the client socket, receive whatever is
 * queued and decode it, with the outcome of every poll and recv given as a
 * sequence of events rather than performed.
 */
module Fetch {
  import opened Telemetry

  /**
   * recv is asked for sizeof(buf) - 1 bytes, and buf is a char* parameter:
   * sizeof yields the size of a pointer, 8 bytes on an LP64 platform.
   */
  const PointerSize: nat := 8
  const RecvCap: nat := PointerSize - 1

  /** What one recv on the non-blocking socket does. */
  datatype RecvResult =
    | WouldBlock                   // -1 with errno EWOULDBLOCK
    | RecvFailed                   // -1 with any other errno
    | Received(data: seq<char>)    // the bytes queued on the socket; none when the peer has closed

  /** What one poll with a 10 ms timeout reports, and the recv that follows it. */
  datatype PollEvent =
    | PollFailed                   // poll returns -1
    | PollTimeout                  // poll returns 0
    | NotReadable                  // poll returns > 0 without POLLIN in revents
    | Readable(recv: RecvResult)   // POLLIN is set and recv is called

  /** The outcome of a call: its return value, or still inside its loop when the events run out. */
  datatype Outcome = Returned(params: seq<int>) | StillPolling

  /** Whether the loop leaves after this event; otherwise it polls again. */
  predicate Ends(e: PollEvent)
  {
    !(e == NotReadable || e == Readable(WouldBlock))
  }

  /** Index of the event that ends the loop, |events| when none does. */
  function FirstEnd(events: seq<PollEvent>): (i: nat)
    ensures i <= |events|
    ensures forall k :: 0 <= k < i ==> !Ends(events[k])
    ensures i < |events| ==> Ends(events[i])
  {
    if events == [] then 0
    else if Ends(events[0]) then 0
    else 1 + FirstEnd(events[1..])
  }

  /** The bytes recv stores: at most RecvCap of those queued. */
  function Delivered(data: seq<char>): (r: seq<char>)
    ensures |r| <= RecvCap && r <= data
    ensures |data| <= RecvCap ==> r == data
  {
    if |data| <= RecvCap then data else data[..RecvCap]
  }

  /** The value returned after an event that ends the loop. */
  function EndResult(e: PollEvent, defaults: seq<int>): seq<int>
    requires Ends(e)
  {
    match e
    case PollFailed => []
    case PollTimeout => defaults
    case Readable(RecvFailed) => []
    case Readable(Received(data)) => if data == [] then [] else Decode(Delivered(data))
  }

  /** The outcome of getSatelliteData on the given events. */
  function FetchSpec(events: seq<PollEvent>, defaults: seq<int>): Outcome
  {
    var i := FirstEnd(events);
    if i == |events| then StillPolling else Returned(EndResult(events[i], defaults))
  }

  /** Whether the event that ends the loop is a receive of at least one byte. */
  predicate ReadsData(events: seq<PollEvent>)
  {
    var i := FirstEnd(events);
    i < |events| && events[i].Readable? && events[i].recv.Received? && events[i].recv.data != []
  }

  /** The buffer after recv stored the delivered bytes of data and strtok split them. */
  function AfterRead(b: seq<char>, data: seq<char>): seq<char>
    requires RecvCap < |b|
  {
    var n := |Delivered(data)|;
    Strtokked((Delivered(data) + b[n..])[n := '\0'])
  }

  /**
   * The poll loop of getSatelliteData. polls counts the events consumed; the
   * buffer changes only when a receive delivers bytes.
   */
  method Fetch(buf: array<char>, events: seq<PollEvent>, defaults: seq<int>)
    returns (r: Outcome, polls: nat)
    requires RecvCap < buf.Length
    modifies buf
    ensures r == FetchSpec(events, defaults)
    ensures polls == if FirstEnd(events) < |events| then FirstEnd(events) + 1 else |events|
    ensures if ReadsData(events) then buf[..] == AfterRead(old(buf[..]), events[FirstEnd(events)].recv.data)
      else buf[..] == old(buf[..])
  {
    var i := 0;
    while i < |events|
      invariant i <= FirstEnd(events)
      invariant buf[..] == old(buf[..])
    {
      match events[i] {
      case PollFailed =>
        return Returned([]), i + 1;
      case PollTimeout =>
        return Returned(defaults), i + 1;
      case NotReadable =>
        i := i + 1;
      case Readable(rv) =>
        match rv {
        case WouldBlock =>
          i := i + 1;
        case RecvFailed =>
          return Returned([]), i + 1;
        case Received(data) =>
          if data == [] {
            return Returned([]), i + 1;
          }
          var values := Receive(buf, data);
          return Returned(values), i + 1;
        }
      }
    }
    return StillPolling, |events|;
  }

  /**
   * recv of the queued data into buf, buf[bytes_received] = '\0', then the
   * decoding loop.
   */
  method Receive(buf: array<char>, data: seq<char>) returns (values: seq<int>)
    requires RecvCap < buf.Length
    modifies buf
    ensures values == Decode(Delivered(data))
    ensures buf[..] == AfterRead(old(buf[..]), data)
  {
    var n := if |data| <= RecvCap then |data| else RecvCap;
    forall k | 0 <= k < n {
      buf[k] := data[k];
    }
    assert buf[..] == Delivered(data) + old(buf[..])[n..];
    assert buf[..n] == Delivered(data);
    values := DecodeInPlace(buf, n);
  }

  // ---------------------------------------------------------------------
  // Properties of a fetch

  lemma {:induction false} FirstEndAfterWaits(waits: seq<PollEvent>, rest: seq<PollEvent>)
    requires forall k :: 0 <= k < |waits| ==> !Ends(waits[k])
    ensures FirstEnd(waits + rest) == |waits| + FirstEnd(rest)
    decreases |waits|
  {
    if waits == [] {
      assert waits + rest == rest;
    } else {
      assert (waits + rest)[0] == waits[0];
      assert (waits + rest)[1..] == waits[1..] + rest;
      FirstEndAfterWaits(waits[1..], rest);
    }
  }

  /** Polls that report nothing readable, and receives that would block, are retried without effect. */
  lemma FetchAfterWaits(waits: seq<PollEvent>, rest: seq<PollEvent>, defaults: seq<int>)
    requires forall k :: 0 <= k < |waits| ==> !Ends(waits[k])
    ensures FetchSpec(waits + rest, defaults) == FetchSpec(rest, defaults)
  {
    FirstEndAfterWaits(waits, rest);
    assert (waits + rest)[|waits| + FirstEnd(rest)..] == rest[FirstEnd(rest)..];
  }

  /** The loop only leaves through an event that ends it. */
  lemma StillPollingIff(events: seq<PollEvent>, defaults: seq<int>)
    ensures FetchSpec(events, defaults) == StillPolling <==>
      forall k :: 0 <= k < |events| ==> !Ends(events[k])
  {
  }

  /** A poll timeout, and only a poll timeout, returns the default parameters. */
  lemma DefaultsOnlyOnTimeout(events: seq<PollEvent>, defaults: seq<int>, other: seq<int>)
    ensures FirstEnd(events) < |events| && events[FirstEnd(events)] == PollTimeout ==>
      FetchSpec(events, defaults) == Returned(defaults)
    ensures !(FirstEnd(events) < |events| && events[FirstEnd(events)] == PollTimeout) ==>
      FetchSpec(events, defaults) == FetchSpec(events, other)
  {
  }

  /**
   * An empty vector comes back on a poll error, a recv error, a closed peer,
   * or a read whose bytes hold no token; never on a timeout with defaults.
   */
  lemma EmptyResult(events: seq<PollEvent>, defaults: seq<int>)
    requires defaults != [] && FetchSpec(events, defaults) == Returned([])
    ensures var e := events[FirstEnd(events)];
      e == PollFailed || e == Readable(RecvFailed) || e == Readable(Received([])) ||
      (e.Readable? && e.recv.Received? && Decode(Delivered(e.recv.data)) == [])
  {
  }

  /**
   * A single receive yields at most four values, each within seven decimal
   * digits, so atoi cannot overflow an int on what a receive delivers.
   */
  lemma ReadBounds(data: seq<char>)
    ensures |Decode(Delivered(data))| <= (RecvCap + 1) / 2
    ensures forall i :: 0 <= i < |Decode(Delivered(data))| ==>
      -10000000 < Decode(Delivered(data))[i] < 10000000
  {
    var d := Delivered(data);
    TokensCount(CStr(d));
    DecodeBound(d);
    Pow10Monotone(|d|, RecvCap);
    assert Pow10(7) == 10000000;
  }

  /** A single receive of data decides the fetch by itself. */
  lemma SingleRead(data: seq<char>, defaults: seq<int>)
    requires data != []
    ensures FetchSpec([Readable(Received(data))], defaults) == Returned(Decode(Delivered(data)))
  {
    assert FirstEnd([Readable(Received(data))]) == 0;
  }

  /** A producer frame of at most RecvCap bytes comes back whole. */
  lemma ShortFrameRoundTrip(speed: int, altitude: int, defaults: seq<int>)
    requires |Join([speed, altitude], " ")| <= RecvCap
    ensures FetchSpec([Readable(Received(Join([speed, altitude], " ")))], defaults) ==
      Returned([speed, altitude])
  {
    var frame := Join([speed, altitude], " ");
    assert frame != [] by {
      assert |Numeral(speed)| > 0;
    }
    SingleRead(frame, defaults);
    DecodeJoin([speed, altitude], " ");
  }

  lemma TruncatedFrame()
    ensures Delivered(Join([50, 1200], " ")) == Join([50, 120], " ")
  {
    assert DecimalDigits(5) == ['5'];
    assert DecimalDigits(50) == DecimalDigits(5) + ['0'];
    assert DecimalDigits(12) == DecimalDigits(1) + ['2'];
    assert DecimalDigits(120) == DecimalDigits(12) + ['0'];
    assert DecimalDigits(1200) == DecimalDigits(120) + ['0'];
    assert [50, 1200][1..] == [1200];
    assert [50, 120][1..] == [120];
  }

  /** A longer frame is cut after RecvCap bytes: "50, 1200" arrives as 50 and 120. */
  lemma LongFrameTruncated(defaults: seq<int>)
    ensures FetchSpec([Readable(Received(Join([50, 1200], " ")))], defaults) == Returned([50, 120])
  {
    calc {
      FetchSpec([Readable(Received(Join([50, 1200], " ")))], defaults);
      { SingleRead(Join([50, 1200], " "), defaults); }
      Returned(Decode(Delivered(Join([50, 1200], " "))));
      { TruncatedFrame(); }
      Returned(Decode(Join([50, 120], " ")));
      { DecodeJoin([50, 120], " "); }
      Returned([50, 120]);
    }
  }
}
