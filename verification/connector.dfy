/**
 * createSocket: open a Unix-domain stream socket, make it non-blocking and
 * connect it to the producer's path, retrying while the server is not there
 * yet. The results of socket, fcntl and every connect are inputs.
 */
module Connector {

  /** The errno values connect's failures are told apart by. */
  datatype Errno = ENOENT | ECONNREFUSED | OtherErrno(code: int)

  datatype SocketResult = SocketFailed | SocketCreated(fd: nat)

  datatype ConnectResult = Connected | ConnectFailed(errno: Errno)

  /** What createSocket returns, and what it did on the way. */
  datatype Connection = Connection(result: int, attempts: nat, delays: nat, closed: bool)

  /** Value returned on a failure to create, configure or connect the socket. */
  const ErrorResult := 1
  /** Value returned once the retries are used up. */
  const GaveUpResult := 0
  /** connect is tried once, then retried while the fallback counter is at most 2. */
  const MaxAttempts := 4
  /** Milliseconds SDL_Delay waits before each retry. */
  const RetryDelayMs := 1000

  /** A failure that means the server is not listening yet: the path is missing or nobody accepts. */
  predicate Retryable(c: ConnectResult)
  {
    c == ConnectFailed(ENOENT) || c == ConnectFailed(ECONNREFUSED)
  }

  /** Index of the first connect that does not ask for a retry, |outs| when all do. */
  function FirstDecisive(outs: seq<ConnectResult>): (k: nat)
    ensures k <= |outs|
    ensures forall i :: 0 <= i < k ==> Retryable(outs[i])
    ensures k < |outs| ==> !Retryable(outs[k])
  {
    if outs == [] || !Retryable(outs[0]) then 0 else 1 + FirstDecisive(outs[1..])
  }

  /**
   * What createSocket does: the outcome of socket(), whether fcntl could set
   * O_NONBLOCK, and the result of each connect in turn.
   */
  function ConnectSpec(sock: SocketResult, fcntlOk: bool, outs: seq<ConnectResult>): Connection
    requires |outs| >= MaxAttempts
  {
    match sock
    case SocketFailed => Connection(ErrorResult, 0, 0, false)
    case SocketCreated(fd) =>
      if !fcntlOk then Connection(ErrorResult, 0, 0, false)
      else
        var k := FirstDecisive(outs[..MaxAttempts]);
        if k == MaxAttempts then Connection(GaveUpResult, MaxAttempts, MaxAttempts - 1, false)
        else if outs[k] == Connected then Connection(fd, k + 1, k, false)
        else Connection(ErrorResult, k + 1, k, true)
  }

  /**
   * The body of createSocket. outs holds the result of each connect call; the
   * loop makes at most MaxAttempts of them.
   */
  method CreateSocket(sock: SocketResult, fcntlOk: bool, outs: seq<ConnectResult>)
    returns (result: int, attempts: nat, delays: nat, closed: bool)
    requires |outs| >= MaxAttempts
    ensures Connection(result, attempts, delays, closed) == ConnectSpec(sock, fcntlOk, outs)
  {
    attempts, delays, closed := 0, 0, false;
    if sock == SocketFailed {
      return ErrorResult, attempts, delays, closed;
    }
    var fd := sock.fd;
    if !fcntlOk {
      return ErrorResult, attempts, delays, closed;
    }
    ghost var k := FirstDecisive(outs[..MaxAttempts]);
    var fallback := 0;
    var connected := false;
    while !connected
      invariant fallback <= MaxAttempts - 1 && delays == fallback
      invariant fallback <= k
      invariant !connected ==> attempts == fallback
      invariant connected ==> attempts == fallback + 1 && fallback == k && outs[k] == Connected
      decreases MaxAttempts - attempts
    {
      var out := outs[attempts];
      attempts := attempts + 1;
      if out.ConnectFailed? {
        if out.errno == ENOENT || out.errno == ECONNREFUSED {
          if fallback > 2 {
            return GaveUpResult, attempts, delays, closed;
          }
          delays := delays + 1;
          fallback := fallback + 1;
        } else {
          closed := true;
          return ErrorResult, attempts, delays, closed;
        }
      } else {
        connected := true;
      }
    }
    result := fd;
  }

  // ---------------------------------------------------------------------
  // Properties of createSocket

  /** Only the first MaxAttempts connect results are ever looked at. */
  lemma {:induction false} FirstDecisivePrefix(outs: seq<ConnectResult>, n: nat)
    requires n <= |outs|
    ensures FirstDecisive(outs[..n]) == if FirstDecisive(outs) < n then FirstDecisive(outs) else n
    decreases n
  {
    if n > 0 && Retryable(outs[0]) {
      assert outs[..n][1..] == outs[1..][..n - 1];
      FirstDecisivePrefix(outs[1..], n - 1);
    }
  }

  /**
   * At most MaxAttempts connects, one delay between consecutive ones, so at
   * most three seconds of waiting.
   */
  lemma RetryBudget(sock: SocketResult, fcntlOk: bool, outs: seq<ConnectResult>)
    requires |outs| >= MaxAttempts
    ensures var c := ConnectSpec(sock, fcntlOk, outs);
      c.attempts <= MaxAttempts &&
      (c.attempts == 0 || c.delays == c.attempts - 1) &&
      c.delays * RetryDelayMs <= 3000
  {
  }

  /** createSocket returns the descriptor exactly when a connect succeeds before the retries run out. */
  lemma ConnectsIff(fd: nat, outs: seq<ConnectResult>)
    requires |outs| >= MaxAttempts
    ensures (exists k :: 0 <= k < MaxAttempts && outs[k] == Connected &&
               forall i :: 0 <= i < k ==> Retryable(outs[i]))
      <==> ConnectSpec(SocketCreated(fd), true, outs) == Connection(fd, FirstDecisive(outs) + 1, FirstDecisive(outs), false)
  {
    FirstDecisivePrefix(outs, MaxAttempts);
    var k := FirstDecisive(outs);
    if exists j :: 0 <= j < MaxAttempts && outs[j] == Connected &&
               forall i :: 0 <= i < j ==> Retryable(outs[i]) {
      var j :| 0 <= j < MaxAttempts && outs[j] == Connected &&
               forall i :: 0 <= i < j ==> Retryable(outs[i]);
      assert k == j by {
        assert !Retryable(outs[j]);
      }
    }
  }

  /** Four retryable failures in a row: three delays, then 0 comes back and the socket stays open. */
  lemma GivesUpAfterFourRefusals(fd: nat, outs: seq<ConnectResult>)
    requires |outs| >= MaxAttempts
    requires forall i :: 0 <= i < MaxAttempts ==> Retryable(outs[i])
    ensures ConnectSpec(SocketCreated(fd), true, outs) == Connection(GaveUpResult, 4, 3, false)
  {
    FirstDecisivePrefix(outs, MaxAttempts);
  }

  /**
   * The socket is closed only after a connect fails with an error other than
   * ENOENT or ECONNREFUSED; on every other failure it is left open.
   */
  lemma ClosedIff(sock: SocketResult, fcntlOk: bool, outs: seq<ConnectResult>)
    requires |outs| >= MaxAttempts
    ensures ConnectSpec(sock, fcntlOk, outs).closed <==>
      sock.SocketCreated? && fcntlOk && FirstDecisive(outs) < MaxAttempts &&
      outs[FirstDecisive(outs)].ConnectFailed?
  {
    FirstDecisivePrefix(outs, MaxAttempts);
  }

  /** Failing to create or configure the socket returns 1 before any connect. */
  lemma SetupFailure(sock: SocketResult, fcntlOk: bool, outs: seq<ConnectResult>)
    requires |outs| >= MaxAttempts
    requires sock == SocketFailed || !fcntlOk
    ensures ConnectSpec(sock, fcntlOk, outs) == Connection(ErrorResult, 0, 0, false)
  {
  }
}
