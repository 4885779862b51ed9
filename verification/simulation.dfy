/**
 * The event loop of main: every frame it resets an empty parameter vector to
 * {2, 10}, fetches new parameters from the socket, reads sat_params[1] for
 * the satellite's position and advances the angle by sat_params[0].
 */
module Simulation {
  import opened Telemetry
  import opened Fetch

  /** Size of main's receive buffer, char buffer[1024]. */
  const BufferSize := 1024

  /** The parameters main falls back to when the vector is empty: speed 2, altitude 10. */
  const StartParams: seq<int> := [2, 10]

  /** Range of a 32-bit int, the type of angle. */
  const IntMin := -0x8000_0000
  const IntMax := 0x7fff_ffff

  predicate InInt(x: int)
  {
    IntMin <= x <= IntMax
  }

  /** The variables the loop carries from frame to frame. */
  datatype SimState = SimState(angle: int, params: seq<int>)

  const Initial := SimState(0, [])

  /** What happens in one frame. */
  datatype Input =
    | QuitRequested                     // SDL_PollEvent yields SDL_QUIT
    | Frame(events: seq<PollEvent>)     // the polls and receives of getSatelliteData

  /**
   * How a frame ends: the loop goes on, the window was closed, the fetch is
   * still polling when the events run out, or the frame reaches undefined
   * behaviour (sat_params[1] on a vector of fewer than two entries, or
   * angle += sat_params[0] overflowing an int).
   */
  datatype Status = Running | Quit | Polling | OutOfBounds | Overflow

  datatype Step = Step(state: SimState, status: Status)

  /** The empty-vector check before the fetch. */
  function Prepare(params: seq<int>): (p: seq<int>)
    ensures p != []
    ensures params == [] ==> p == StartParams
    ensures params != [] ==> p == params
  {
    if params == [] then StartParams else params
  }

  /** One pass of the loop body. */
  function TickSpec(s: SimState, input: Input): Step
  {
    match input
    case QuitRequested => Step(s, Quit)
    case Frame(events) =>
      var p := Prepare(s.params);
      match FetchSpec(events, p)
      case StillPolling => Step(SimState(s.angle, p), Polling)
      case Returned(q) =>
        if |q| < 2 then Step(SimState(s.angle, q), OutOfBounds)
        else if !InInt(s.angle + q[0]) then Step(SimState(s.angle, q), Overflow)
        else Step(SimState(s.angle + q[0], q), Running)
  }

  /** The loop over a sequence of inputs, until one of them stops it. */
  function Run(s: SimState, inputs: seq<Input>): Step
    decreases |inputs|
  {
    if inputs == [] then Step(s, Running)
    else
      var t := TickSpec(s, inputs[0]);
      if t.status != Running then t else Run(t.state, inputs[1..])
  }

  /** main's state: the angle, the parameter vector and the receive buffer. */
  class Simulator {
    var angle: int
    var params: seq<int>
    const buffer: array<char>

    ghost function State(): SimState
      reads this
    {
      SimState(angle, params)
    }

    /** The declarations at the top of main; the buffer's initial bytes never reach a result. */
    constructor ()
      ensures State() == Initial
      ensures buffer.Length == BufferSize && fresh(buffer)
    {
      angle := 0;
      params := [];
      buffer := new char[BufferSize](_ => '\0');
    }

    /** One pass of the loop body on the given input. */
    method Tick(input: Input) returns (status: Status)
      requires buffer.Length == BufferSize
      modifies this, buffer
      ensures Step(State(), status) == TickSpec(old(State()), input)
    {
      if input == QuitRequested {
        return Quit;
      }
      if params == [] {
        params := StartParams;
      }
      var r, _ := Fetch.Fetch(buffer, input.events, params);
      if r == StillPolling {
        return Polling;
      }
      params := r.params;
      if |params| < 2 {
        return OutOfBounds;
      }
      if !InInt(angle + params[0]) {
        return Overflow;
      }
      angle := angle + params[0];
      status := Running;
    }

    /** The loop, over the inputs of successive frames; ticks counts the passes made. */
    method Loop(inputs: seq<Input>) returns (status: Status, ticks: nat)
      requires buffer.Length == BufferSize
      modifies this, buffer
      ensures Step(State(), status) == Run(old(State()), inputs)
      ensures ticks <= |inputs| && (status == Running ==> ticks == |inputs|)
    {
      ticks := 0;
      status := Running;
      while ticks < |inputs|
        invariant ticks <= |inputs|
        invariant Run(old(State()), inputs) == Run(State(), inputs[ticks..])
        invariant buffer.Length == BufferSize && status == Running
      {
        ghost var before := State();
        status := Tick(inputs[ticks]);
        assert inputs[ticks..][1..] == inputs[ticks + 1..];
        ticks := ticks + 1;
        if status != Running {
          assert Run(before, inputs[ticks - 1..]) == Step(State(), status);
          return;
        }
      }
      assert inputs[ticks..] == [];
    }
  }

  // ---------------------------------------------------------------------
  // Properties of the loop

  /** Running two stretches of inputs is running the first, then the second if the loop is still going. */
  lemma {:induction false} RunConcat(s: SimState, a: seq<Input>, b: seq<Input>)
    ensures Run(s, a + b) ==
      if Run(s, a).status == Running then Run(Run(s, a).state, b) else Run(s, a)
    decreases |a|
  {
    if a == [] {
      assert a + b == b;
    } else {
      assert (a + b)[0] == a[0];
      assert (a + b)[1..] == a[1..] + b;
      var t := TickSpec(s, a[0]);
      if t.status == Running {
        RunConcat(t.state, a[1..], b);
      }
    }
  }

  /**
   * What the loop keeps: the angle stays within an int, and whenever the loop
   * is still running after a frame, the vector holds the two entries read.
   */
  lemma {:induction false} RunInvariant(s: SimState, inputs: seq<Input>)
    requires InInt(s.angle)
    ensures InInt(Run(s, inputs).state.angle)
    ensures Run(s, inputs).status == Running && inputs != [] ==> |Run(s, inputs).state.params| >= 2
    decreases |inputs|
  {
    if inputs != [] {
      var t := TickSpec(s, inputs[0]);
      if t.status == Running {
        RunInvariant(t.state, inputs[1..]);
        if inputs[1..] == [] {
          assert Run(t.state, inputs[1..]) == Step(t.state, Running);
        }
      }
    }
  }

  /**
   * On a poll timeout the parameters are kept, an empty vector having been
   * reset to {2, 10} first.
   */
  lemma TimeoutKeepsParams(s: SimState, waits: seq<PollEvent>)
    requires forall k :: 0 <= k < |waits| ==> !Ends(waits[k])
    ensures TickSpec(s, Frame(waits + [PollTimeout])).state.params == Prepare(s.params)
  {
    FetchAfterWaits(waits, [PollTimeout], Prepare(s.params));
    assert FirstEnd([PollTimeout]) == 0;
  }

  /** The first frame of a run, on a timeout: the defaults {2, 10} are used and the angle becomes 2. */
  lemma FirstFrameOnTimeout()
    ensures TickSpec(Initial, Frame([PollTimeout])) == Step(SimState(2, [2, 10]), Running)
  {
    assert FirstEnd([PollTimeout]) == 0;
  }

  /**
   * A poll error, a receive error or a closed peer yields an empty vector,
   * and sat_params[1] is then read out of bounds.
   */
  lemma FailedFetchOutOfBounds(s: SimState, e: PollEvent)
    requires e == PollFailed || e == Readable(RecvFailed) || e == Readable(Received([]))
    ensures TickSpec(s, Frame([e])) == Step(SimState(s.angle, []), OutOfBounds)
  {
    assert FirstEnd([e]) == 0;
  }

  /** A frame carrying a single field, such as "5", is read out of bounds as well. */
  lemma SingleFieldOutOfBounds(s: SimState, n: int)
    requires |Numeral(n)| <= RecvCap
    ensures TickSpec(s, Frame([Readable(Received(Numeral(n)))])) == Step(SimState(s.angle, [n]), OutOfBounds)
  {
    var f := Numeral(n);
    assert FetchSpec([Readable(Received(f))], Prepare(s.params)) == Returned([n]) by {
      SingleRead(f, Prepare(s.params));
      DecodeNumeral([], n);
      assert [] + f == f;
    }
  }

  function Repeat(input: Input, n: nat): (r: seq<Input>)
    ensures |r| == n && forall i :: 0 <= i < n ==> r[i] == input
  {
    if n == 0 then [] else Repeat(input, n - 1) + [input]
  }

  /** One frame of the producer's "speed, altitude" when it arrives whole. */
  lemma SteadyTick(s: SimState, speed: int, altitude: int)
    requires |Join([speed, altitude], " ")| <= RecvCap && InInt(s.angle + speed)
    ensures TickSpec(s, Frame([Readable(Received(Join([speed, altitude], " ")))])) ==
      Step(SimState(s.angle + speed, [speed, altitude]), Running)
  {
    ShortFrameRoundTrip(speed, altitude, Prepare(s.params));
  }

  /**
   * The producer sending "speed, altitude" every frame, with a frame short
   * enough to arrive whole: after n frames the angle has advanced by n * speed.
   * The angle moves monotonically, so staying within an int at both ends keeps
   * every frame in between within an int too.
   */
  lemma {:induction false} SteadyOrbit(s: SimState, speed: int, altitude: int, n: nat)
    requires |Join([speed, altitude], " ")| <= RecvCap
    requires InInt(s.angle) && InInt(s.angle + n * speed)
    ensures Run(s, Repeat(Frame([Readable(Received(Join([speed, altitude], " ")))]), n)) ==
      Step(SimState(s.angle + n * speed, if n == 0 then s.params else [speed, altitude]), Running)
    decreases n
  {
    var input := Frame([Readable(Received(Join([speed, altitude], " ")))]);
    if n > 0 {
      MulStep(n, speed);
      var before := s.angle + (n - 1) * speed;
      assert InInt(before);
      SteadyOrbit(s, speed, altitude, n - 1);
      var mid := Run(s, Repeat(input, n - 1));
      assert mid.state.angle == before;
      assert InInt(before + speed);
      SteadyTick(mid.state, speed, altitude);
      RunConcat(s, Repeat(input, n - 1), [input]);
      assert Run(mid.state, [input]) == TickSpec(mid.state, input);
    }
  }

  /** (n - 1) * v lies between 0 and n * v, and one more v reaches n * v. */
  lemma MulStep(n: nat, v: int)
    requires n > 0
    ensures (n - 1) * v + v == n * v
    ensures if v >= 0 then 0 <= (n - 1) * v <= n * v else n * v <= (n - 1) * v <= 0
    decreases if v < 0 then 1 else 0
  {
    if v < 0 {
      MulStep(n, -v);
    }
  }

  /** 72 frames of the producer's "5, 120" take the satellite once around, from 0 to 360 degrees. */
  lemma FullOrbit()
    ensures Run(Initial, Repeat(Frame([Readable(Received("5, 120"))]), 72)) ==
      Step(SimState(360, [5, 120]), Running)
  {
    ProducerFrame();
    SteadyOrbit(Initial, 5, 120, 72);
  }

  /** A negative speed fits a single receive too: 72 frames of "-5, 120" take the satellite once around backwards. */
  lemma RetrogradeOrbit()
    ensures Run(Initial, Repeat(Frame([Readable(Received("-5, 120"))]), 72)) ==
      Step(SimState(-360, [-5, 120]), Running)
  {
    RetrogradeFrame();
    SteadyOrbit(Initial, -5, 120, 72);
  }
}
