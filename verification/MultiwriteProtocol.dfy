/**
  The completion counting of bdrv_aio_multiwrite: submissions, completions at any moment after
  them, and the dummy request that keeps the count above zero until the submit loop has ended.
 */
module MultiwriteProtocol {

  const EIO: int := 5

  datatype Phase =
    | Submitting(i: nat)  // the submit loop, at request i
    | Closing             // a later submission has failed: the loop is left
    | Ended               // the dummy request is complete; the function has returned 0
    | Refused             // the first submission failed; the function has returned -1

  /**
    `requests` and `error` are fields of the MultiwriteCB; `pending` counts submitted requests that
    have not completed; `seen` are the results passed to multiwrite_cb; `calls` are the user
    callbacks that ran, each with its number and the error it was given.
   */
  datatype State = State(phase: Phase, requests: int, error: int, pending: nat, seen: seq<int>, calls: seq<(nat, int)>)

  /** Every user callback has run once, in turn, and was given `error`. */
  ghost predicate EachOnce(callbacks: nat, calls: seq<(nat, int)>, error: int) {
    |calls| == callbacks && forall k :: 0 <= k < callbacks ==> calls[k].0 == k && calls[k].1 == error
  }

  /** The user callbacks, all with the same error. */
  function UserCalls(callbacks: nat, error: int): (calls: seq<(nat, int)>)
    ensures EachOnce(callbacks, calls, error)
  {
    seq(callbacks, k => (k, error))
  }

  /** multiwrite_cb */
  function Completed(callbacks: nat, x: State, ret: int): State {
    var error := if ret < 0 && x.error == 0 then ret else x.error;
    State(x.phase, x.requests - 1, error, x.pending, x.seen + [ret],
          if x.requests - 1 == 0 then x.calls + UserCalls(callbacks, error) else x.calls)
  }

  // ---- Steps, for n requests after merging and `callbacks` before ---------------------------------------------

  ghost predicate SubmitOk(n: nat, x: State, y: State) {
    && x.phase.Submitting? && x.phase.i < n
    && y == x.(phase := Submitting(x.phase.i + 1), requests := x.requests + 1, pending := x.pending + 1)
  }

  /** bdrv_aio_writev returns NULL. */
  ghost predicate SubmitFails(n: nat, callbacks: nat, x: State, y: State) {
    && x.phase.Submitting? && x.phase.i < n
    && (if x.phase.i == 0 then y == x.(phase := Refused, requests := x.requests + 1)
        else y == Completed(callbacks, x.(requests := x.requests + 1), -EIO).(phase := Closing))
  }

  /** The loop is over: the dummy request completes. */
  ghost predicate EndLoop(n: nat, callbacks: nat, x: State, y: State) {
    && (x.phase == Submitting(n) || x.phase == Closing)
    && y == Completed(callbacks, x, 0).(phase := Ended)
  }

  /** A submitted request completes. */
  ghost predicate Complete(callbacks: nat, x: State, y: State, ret: int) {
    && x.pending > 0
    && y == Completed(callbacks, x.(pending := x.pending - 1), ret)
  }

  ghost predicate Step(n: nat, callbacks: nat, x: State, y: State) {
    || SubmitOk(n, x, y)
    || SubmitFails(n, callbacks, x, y)
    || EndLoop(n, callbacks, x, y)
    || (exists ret :: Complete(callbacks, x, y, ret))
  }

  ghost predicate Run(n: nat, callbacks: nat, run: seq<State>) {
    && |run| > 0
    && forall k :: 0 <= k < |run| - 1 ==> Step(n, callbacks, run[k], run[k + 1])
  }

  /** num_requests is 1 for the dummy request. */
  function Start(): State {
    State(Submitting(0), 1, 0, 0, [], [])
  }

  // ---- The invariant ---------------------------------------------------------------------------------------

  /** The first negative result, or 0. */
  function FirstError(seen: seq<int>): int {
    if seen == [] then 0 else if seen[0] < 0 then seen[0] else FirstError(seen[1..])
  }

  lemma {:induction false} FirstErrorIsFirst(seen: seq<int>)
    ensures FirstError(seen) == 0 <==> forall k :: 0 <= k < |seen| ==> seen[k] >= 0
    ensures FirstError(seen) != 0 ==>
              exists k :: 0 <= k < |seen| && seen[k] == FirstError(seen) < 0 && forall j :: 0 <= j < k ==> seen[j] >= 0
  {
    if seen != [] && seen[0] >= 0 {
      FirstErrorIsFirst(seen[1..]);
      assert forall k :: 0 < k < |seen| ==> seen[k] == seen[1..][k - 1];
      if FirstError(seen) != 0 {
        var k :| 0 <= k < |seen[1..]| && seen[1..][k] == FirstError(seen) &&
                 forall j :: 0 <= j < k ==> seen[1..][j] >= 0;
        assert seen[k + 1] == FirstError(seen);
      }
    }
  }

  lemma {:induction false} FirstErrorAppend(seen: seq<int>, ret: int)
    ensures FirstError(seen + [ret]) ==
            if FirstError(seen) != 0 then FirstError(seen) else if ret < 0 then ret else 0
  {
    if seen != [] {
      assert (seen + [ret])[1..] == seen[1..] + [ret];
      FirstErrorAppend(seen[1..], ret);
    }
  }

  /** The dummy request counts until the loop has ended. */
  function Dummy(phase: Phase): int {
    if phase.Submitting? || phase.Closing? then 1 else 0
  }

  ghost predicate Invariant(n: nat, callbacks: nat, x: State) {
    && x.error == FirstError(x.seen)
    && (x.phase.Submitting? ==> x.phase.i <= n)
    && (x.phase == Submitting(0) ==> x.pending == 0)
    && (x.phase == Refused ==> x.pending == 0 && x.calls == [])
    && (x.phase != Refused ==> x.requests == x.pending + Dummy(x.phase))
    && (x.phase != Refused ==> x.calls == if x.requests == 0 then UserCalls(callbacks, x.error) else [])
  }

  lemma StepKeeps(n: nat, callbacks: nat, x: State, y: State)
    requires Invariant(n, callbacks, x) && Step(n, callbacks, x, y)
    ensures Invariant(n, callbacks, y)
  {
    FirstErrorAppend(x.seen, 0);
    FirstErrorAppend(x.seen, -EIO);
    if ret :| Complete(callbacks, x, y, ret) {
      FirstErrorAppend(x.seen, ret);
    }
  }

  lemma {:induction false} RunKeeps(n: nat, callbacks: nat, run: seq<State>)
    requires Run(n, callbacks, run) && run[0] == Start()
    ensures Invariant(n, callbacks, run[|run| - 1])
    decreases |run|
  {
    hide Step;
    if |run| > 1 {
      var k := |run| - 1;
      RunKeeps(n, callbacks, run[..k]);
      StepKeeps(n, callbacks, run[k - 1], run[k]);
    }
  }

  // ---- Results -----------------------------------------------------------------------------------------------

  /**
    In every interleaving: if the first submission failed no user callback has run, nor will one;
    otherwise they run once each, all together, exactly when the submit loop has ended and every
    submitted request has completed, and all receive the first negative result or 0.
   */
  lemma CallbacksRunOnce(n: nat, callbacks: nat, run: seq<State>)
    requires Run(n, callbacks, run) && run[0] == Start()
    ensures var x := run[|run| - 1];
            && (x.phase == Refused ==> x.calls == [] && x.pending == 0)
            && (x.phase == Ended && x.pending == 0 ==> EachOnce(callbacks, x.calls, FirstError(x.seen)))
            && (!(x.phase == Ended && x.pending == 0) ==> x.calls == [])
  {
    hide Step;
    RunKeeps(n, callbacks, run);
  }

  /** Nothing happens after either outcome. */
  lemma NothingFollows(n: nat, callbacks: nat, run: seq<State>, y: State)
    requires Run(n, callbacks, run) && run[0] == Start()
    requires var x := run[|run| - 1]; x.phase == Refused || (x.phase == Ended && x.pending == 0)
    ensures !Step(n, callbacks, run[|run| - 1], y)
  {
    RunKeeps(n, callbacks, run);
  }

  // ---- The MultiwriteCB ----------------------------------------------------------------------------------------

  class MultiwriteCB {
    const callbacks: nat
    var requests: int
    var error: int
    var calls: seq<(nat, int)>

    /** multiwrite_user_cb */
    method UserCb()
      modifies this`calls
      ensures |calls| == |old(calls)| + callbacks && old(calls) <= calls
      ensures EachOnce(callbacks, calls[|old(calls)|..], error) && calls == old(calls) + UserCalls(callbacks, error)
    {
      var k := 0;
      while k < callbacks
        invariant k <= callbacks && calls == old(calls) + UserCalls(callbacks, error)[..k]
      {
        calls := calls + [(k, error)];
        k := k + 1;
      }
    }

    /** multiwrite_cb */
    method Cb(ret: int, ghost x: State)
      requires x.requests == requests && x.error == error && x.calls == calls
      modifies this
      ensures var y := Completed(callbacks, x, ret); requests == y.requests && error == y.error && calls == y.calls
      ensures requests != 0 ==> calls == old(calls)
      ensures requests == 0 ==>
                && |calls| == |old(calls)| + callbacks && old(calls) <= calls
                && EachOnce(callbacks, calls[|old(calls)|..], error)
    {
      if ret < 0 && error == 0 {
        error := ret;
      }
      requests := requests - 1;
      if requests == 0 {
        UserCb();
      }
    }
  }
}
