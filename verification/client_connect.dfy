/** `connect_to_pipe`: try to open the pipe until an attempt succeeds or
    fails with "broken pipe". */
module Connect {
  import opened ClientWire

  /** The result of one pass through the `try` body: `CreateFile` and
      `SetNamedPipeHandleState` both succeeded and gave a handle, or one of
      them raised `pywintypes.error` with a code. */
  datatype OpenAttempt = Opened(handle: nat) | OpenFailed(code: int)

  /** How `connect_to_pipe` ends: with a handle after `used` attempts and
      `sleeps` one-second sleeps, by raising "broken pipe" at attempt
      `used`, or never, when every attempt keeps failing. */
  datatype Connection = Connected(handle: nat, used: nat, sleeps: nat) | ConnectRaised(used: nat) | ConnectStuck

  /** A failure the loop goes round again for: any code but 109. */
  predicate Retryable(a: OpenAttempt)
  {
    a.OpenFailed? && a.code != BROKEN_PIPE
  }

  predicate AllRetryable(attempts: seq<OpenAttempt>)
  {
    forall i :: 0 <= i < |attempts| ==> Retryable(attempts[i])
  }

  /** The failures with code 2, each of which is followed by a sleep. */
  function NoPipeCount(attempts: seq<OpenAttempt>): nat
  {
    if |attempts| == 0 then 0
    else (if attempts[0] == OpenFailed(NO_PIPE) then 1 else 0) + NoPipeCount(attempts[1..])
  }

  /** `connect_to_pipe` over the successive attempts it would make. */
  function ConnectToPipe(attempts: seq<OpenAttempt>): (r: Connection)
    ensures r.Connected? ==>
              && 1 <= r.used <= |attempts| && attempts[r.used - 1] == Opened(r.handle)
              && AllRetryable(attempts[..r.used - 1])
              && r.sleeps == NoPipeCount(attempts[..r.used - 1])
    ensures r.ConnectRaised? ==>
              && 1 <= r.used <= |attempts| && attempts[r.used - 1] == OpenFailed(BROKEN_PIPE)
              && AllRetryable(attempts[..r.used - 1])
    ensures r.ConnectStuck? <==> AllRetryable(attempts)
    decreases |attempts|
  {
    if |attempts| == 0 then ConnectStuck
    else match attempts[0]
      case Opened(handle) => Connected(handle, 1, 0)
      case OpenFailed(code) =>
        if code == BROKEN_PIPE then ConnectRaised(1)
        else
          var later := ConnectToPipe(attempts[1..]);
          assert forall k :: 1 <= k <= |attempts| ==> attempts[1..][..k - 1] == attempts[1..k];
          assert forall k :: 1 <= k <= |attempts| ==> attempts[..k] == [attempts[0]] + attempts[1..k];
          match later
          case Connected(handle, used, sleeps) =>
            Connected(handle, used + 1, sleeps + if code == NO_PIPE then 1 else 0)
          case ConnectRaised(used) => ConnectRaised(used + 1)
          case ConnectStuck => ConnectStuck
  }

  /** The first attempt that opens the pipe or reports a broken pipe
      decides: whatever comes after it is never tried. */
  lemma {:induction false} ConnectIgnoresLater(attempts: seq<OpenAttempt>, later: seq<OpenAttempt>)
    requires !AllRetryable(attempts)
    ensures ConnectToPipe(attempts + later) == ConnectToPipe(attempts)
    decreases |attempts|
  {
    assert (attempts + later)[0] == attempts[0];
    if Retryable(attempts[0]) {
      assert (attempts + later)[1..] == attempts[1..] + later;
      assert !AllRetryable(attempts[1..]) by {
        var i :| 0 <= i < |attempts| && !Retryable(attempts[i]);
        assert i > 0 && attempts[1..][i - 1] == attempts[i];
      }
      ConnectIgnoresLater(attempts[1..], later);
    }
  }
}
