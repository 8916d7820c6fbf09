/**
  What the manager's `Close` and `CloseContext` tell their callers about the retry worker. The worker lets go of its
  locks before it stops, and a repeated `Close` does not wait for it at all.
*/
module ManagerClose {
  import opened Common
  import opened TrustManager
  import K = KeysetStore

  /** Once the manager is closed and settled, the worker is quiet or a close is waiting for it to stop. */
  ghost predicate Awaited(s: Sys) {
    s.m.closed && !Pending(s.m) && !s.worker.Quiet() ==> exists i :: 0 <= i < |s.pcs| && s.pcs[i].CloseJoining?
  }

  lemma QuietStepKeepsAwaited(s: Sys, a: Action)
    requires LocalOk(s) && Awaited(s) && Enabled(s, a) && !Transacts(a) && !a.CloseJoin?
    ensures Awaited(Do(s, a))
  {
    var n := Do(s, a);
    if n.m.closed && !Pending(n.m) && !n.worker.Quiet() {
      assert s.m.closed && !Pending(s.m) && !s.worker.Quiet();
      var i :| 0 <= i < |s.pcs| && s.pcs[i].CloseJoining?;
      assert n.pcs[i].CloseJoining?;
    }
  }

  lemma LatchStepsKeepAwaited(s: Sys, a: Action)
    requires LocalOk(s) && Awaited(s) && Enabled(s, a)
    requires a.Latch? || a.WorkerLatch? || a.Other? || a.Submit? || a.CloseJoin?
    ensures Awaited(Do(s, a))
  {
    var n := Do(s, a);
    if n.m.closed && !Pending(n.m) && !n.worker.Quiet() {
      var i :| 0 <= i < |s.pcs| && s.pcs[i].CloseJoining?;
      assert n.pcs[i].CloseJoining?;
    }
  }

  lemma CloseKeepsAwaited(s: Sys, t: nat, commit: K.Commit)
    requires Awaited(s) && t < |s.pcs| && s.pcs[t].CloseTrusted?
    ensures Awaited(DoClose(s, t, commit))
  {
    var n := DoClose(s, t, commit);
    if n.m.closed && !Pending(n.m) && !n.worker.Quiet() {
      if s.m.closed {
        var i :| 0 <= i < |s.pcs| && s.pcs[i].CloseJoining?;
        assert n.pcs[i].CloseJoining?;
      } else {
        assert n.pcs[t].CloseJoining?;
      }
    }
  }

  lemma StepKeepsAwaited(s: Sys, a: Action)
    requires Inv(s) && Awaited(s) && Enabled(s, a)
    ensures Awaited(Do(s, a))
  {
    if a.CloseFinish? {
      CloseKeepsAwaited(s, a.t, a.commit);
    } else if Transacts(a) || a.CloseJoin? {
      LatchStepsKeepAwaited(s, a);
    } else {
      QuietStepKeepsAwaited(s, a);
    }
  }

  lemma {:induction false} RunKeepsAwaited(states: seq<Sys>, actions: seq<Action>, i: nat)
    requires Run(states, actions) && i < |states|
    ensures Awaited(states[i])
  {
    if i > 0 {
      RunKeepsAwaited(states, actions, i - 1);
      RunKeepsInv(states, actions, i - 1);
      assert Follows(states[i - 1], actions[i - 1], states[i]);
      StepKeepsAwaited(states[i - 1], actions[i - 1]);
    }
  }

  /** Some other call of `Close` has shut the manager and still waits for the worker. */
  ghost predicate OtherCloseWaits(s: Sys, t: nat) {
    exists i :: 0 <= i < |s.pcs| && i != t && s.pcs[i].CloseJoining?
  }

  /**
    In every run a repeated `Close` that returns nil finds the secrets erased, the uncertainty durable and, unless
    another `Close` is still in progress, a worker that touches nothing any more.
  */
  lemma RepeatCloseIsSafeAlone(states: seq<Sys>, actions: seq<Action>, i: nat, t: nat, commit: K.Commit)
    requires Run(states, actions) && i < |states| && Enabled(states[i], CloseFinish(t, commit)) && states[i].m.closed
    ensures var s, n := states[i], Do(states[i], CloseFinish(t, commit));
            && |n.closes| == |s.closes| + 1
            && var c := n.closes[|s.closes|];
               && c.caller == RepeatClose && (c.ok ==> c.erased && c.settled)
               && (c.ok && !OtherCloseWaits(s, t) ==> c.quiet)
  {
    var s := states[i];
    RunKeepsInv(states, actions, i);
    RunKeepsAwaited(states, actions, i);
    if !Pending(s.m) && !s.worker.Quiet() {
      var k :| 0 <= k < |s.pcs| && s.pcs[k].CloseJoining?;
      assert k != t;
    }
  }

  lemma QuietStep(s: Sys, a: Action)
    requires Enabled(s, a) && s.worker.Quiet()
    ensures !Works(a) && Do(s, a).worker.Quiet() && (s.worker.Stopped? ==> Do(s, a).worker.Stopped?)
  {
  }

  /** A quiet worker never takes a lock or calls the store again; all it may still do is exit. */
  lemma {:induction false} QuietForGood(states: seq<Sys>, actions: seq<Action>, i: nat, j: nat)
    requires Run(states, actions) && i <= j < |states| && states[i].worker.Quiet()
    ensures states[j].worker.Quiet() && (j < |actions| ==> !Works(actions[j]))
    decreases j
  {
    if i < j {
      QuietForGood(states, actions, i, j - 1);
      assert Follows(states[j - 1], actions[j - 1], states[j]);
      QuietStep(states[j - 1], actions[j - 1]);
    }
    if j < |actions| {
      assert Follows(states[j], actions[j], states[j + 1]);
      QuietStep(states[j], actions[j]);
    }
  }

  // ----- When a caller can know that the worker has stopped

  /** A nil return of a `Close` that did the closing, or of a `CloseContext`. */
  predicate Counts(c: CloseReturn) {
    c.ok && c.caller != RepeatClose
  }

  /** There has been such a return. */
  ghost predicate Joined(closes: seq<CloseReturn>) {
    exists k :: 0 <= k < |closes| && Counts(closes[k])
  }

  lemma MostStepsReturnNothing(s: Sys, a: Action)
    requires Enabled(s, a) && !Joins(a) && !a.CloseFinish?
    ensures Do(s, a).closes == s.closes
  {
  }

  lemma StepReturns(s: Sys, a: Action)
    requires Enabled(s, a)
    ensures s.closes <= Do(s, a).closes
    ensures Joins(a) || Do(s, a).closes == s.closes ||
            (a.CloseFinish? && |Do(s, a).closes| == |s.closes| + 1 && !Counts(Do(s, a).closes[|s.closes|]))
  {
    if !Joins(a) && !a.CloseFinish? {
      MostStepsReturnNothing(s, a);
    }
  }

  lemma JoinedStep(s: Sys, a: Action)
    requires Enabled(s, a)
    ensures Joined(s.closes) ==> Joined(Do(s, a).closes)
    ensures Joined(Do(s, a).closes) ==> Joined(s.closes) || s.worker.Stopped?
  {
    var n := Do(s, a);
    StepReturns(s, a);
    if Joined(s.closes) {
      var k :| 0 <= k < |s.closes| && Counts(s.closes[k]);
      assert n.closes[k] == s.closes[k];
    }
    if Joined(n.closes) && !Joins(a) {
      var k :| 0 <= k < |n.closes| && Counts(n.closes[k]);
      assert k < |s.closes| && n.closes[k] == s.closes[k];
    }
  }

  lemma {:induction false} JoinedMeansStopped(states: seq<Sys>, actions: seq<Action>, i: nat)
    requires Run(states, actions) && i < |states| && Joined(states[i].closes)
    ensures states[i].worker.Stopped?
  {
    if i > 0 {
      assert Follows(states[i - 1], actions[i - 1], states[i]);
      JoinedStep(states[i - 1], actions[i - 1]);
      if Joined(states[i - 1].closes) {
        JoinedMeansStopped(states, actions, i - 1);
      }
      QuietStep(states[i - 1], actions[i - 1]);
    }
  }

  lemma {:induction false} JoinedStays(states: seq<Sys>, actions: seq<Action>, i: nat, j: nat)
    requires Run(states, actions) && i <= j < |states| && Joined(states[i].closes)
    ensures Joined(states[j].closes)
    decreases j
  {
    if i < j {
      JoinedStays(states, actions, i, j - 1);
      assert Follows(states[j - 1], actions[j - 1], states[j]);
      JoinedStep(states[j - 1], actions[j - 1]);
    }
  }

  /** The same returns, as if each had found the worker not stopped. */
  function Unstopped(closes: seq<CloseReturn>): seq<CloseReturn> {
    seq(|closes|, k requires 0 <= k < |closes| => closes[k].(stopped := false))
  }

  /** The same state, but for a worker that has not got round to its exit. */
  function Deferred(s: Sys): Sys {
    s.(worker := if s.worker.Stopped? then Leaving else s.worker, closes := Unstopped(s.closes))
  }

  /** In place of the exit, a step of another replica that changes nothing. */
  function DeferredAction(s: Sys, a: Action): Action {
    if a.WorkerExit? then Other(s.durable) else a
  }

  lemma DeferWorkerStep(s: Sys, a: Action)
    requires Enabled(s, a) && Works(a)
    ensures Follows(Deferred(s), a, Deferred(Do(s, a)))
  {
  }

  lemma SubmitIgnoresWorker(s: Sys, t: nat, c: K.Candidate, now: int, commit: K.Commit)
    requires t < |s.pcs|
    ensures DoSubmit(Deferred(s), t, c, now, commit) == Deferred(DoSubmit(s, t, c, now, commit))
  {
  }

  lemma DeferSubmit(s: Sys, a: Action)
    requires Enabled(s, a) && a.Submit?
    ensures Follows(Deferred(s), a, Deferred(Do(s, a)))
  {
    SubmitIgnoresWorker(s, a.t, a.c, a.now, a.commit);
    assert Enabled(Deferred(s), a);
  }

  lemma DeferTransaction(s: Sys, a: Action)
    requires Enabled(s, a) && (a.Other? || a.Latch?)
    ensures Follows(Deferred(s), a, Deferred(Do(s, a)))
  {
  }

  lemma ReadIgnoresWorker(s: Sys, t: nat)
    requires t < |s.pcs| && s.pcs[t].Reading? && OpTime(s.pcs[t].op).Some?
    ensures DoRead(Deferred(s), t) == Deferred(DoRead(s, t))
  {
    if s.durable.row.Some? {
      var pc := s.pcs[t];
      match Compare(pc.snap.candidate, OpTime(pc.op).value, s.durable.row.value)
      case Shut =>
      case RolledBack =>
      case Behind =>
      case Matches =>
    }
  }

  lemma DeferRead(s: Sys, t: nat)
    requires Enabled(s, Read(t))
    ensures Follows(Deferred(s), Read(t), Deferred(Do(s, Read(t))))
  {
    ReadIgnoresWorker(s, t);
    assert Enabled(Deferred(s), Read(t));
  }

  lemma DeferConfirm(s: Sys, t: nat)
    requires Enabled(s, Confirm(t))
    ensures Follows(Deferred(s), Confirm(t), Deferred(Do(s, Confirm(t))))
  {
    assert DoConfirm(Deferred(s), t) == Deferred(DoConfirm(s, t));
  }

  lemma DeferThreadStep(s: Sys, a: Action)
    requires Enabled(s, a) && ThreadOnly(a)
    ensures Follows(Deferred(s), a, Deferred(Do(s, a)))
  {
    assert Enabled(Deferred(s), a);
    assert Do(s, a) == DoThread(s, a) && Do(Deferred(s), a) == DoThread(Deferred(s), a);
  }

  lemma DeferClose(s: Sys, t: nat, commit: K.Commit)
    requires t < |s.pcs| && s.pcs[t].CloseTrusted?
    ensures DoClose(Deferred(s), t, commit) == Deferred(DoClose(s, t, commit))
  {
    if s.m.closed {
      UnstoppedOneMore(s.closes, Return(s, RepeatClose, !Pending(s.m)));
    } else {
      var m := LatchedLocal(s, commit).(snapshot := None, closed := true, erased := true);
      var shut := s.(durable := LatchedDurable(s, commit), m := m);
      UnstoppedOneMore(s.closes, Return(shut, FirstClose, false));
    }
  }

  lemma UnstoppedOneMore(closes: seq<CloseReturn>, c: CloseReturn)
    ensures Unstopped(closes + [c]) == Unstopped(closes) + [c.(stopped := false)]
  {
  }

  lemma JoinsIsJoined(s: Sys, a: Action)
    requires LocalOk(s) && Enabled(s, a) && Joins(a)
    ensures Joined(Do(s, a).closes)
  {
    assert Counts(Do(s, a).closes[|s.closes|]);
  }

  /** As long as no such return shows it, the exit of the worker can be put off. */
  lemma DeferStep(s: Sys, a: Action)
    requires K.Consistent(s.durable) && Enabled(s, a) && !Joins(a)
    ensures Follows(Deferred(s), DeferredAction(s, a), Deferred(Do(s, a)))
  {
    if a.CloseFinish? {
      DeferClose(s, a.t, a.commit);
    } else if Works(a) {
      DeferWorkerStep(s, a);
    } else if a.Submit? {
      DeferSubmit(s, a);
    } else if Transacts(a) {
      DeferTransaction(s, a);
    } else if a.Read? {
      DeferRead(s, a.t);
    } else if a.Confirm? {
      DeferConfirm(s, a.t);
    } else if !a.WorkerExit? && !a.ContextWake? {
      DeferThreadStep(s, a);
    }
  }

  ghost predicate Reached(s: Sys) {
    exists states, actions :: Run(states, actions) && states[|actions|] == s
  }

  lemma DeferredIsReached(states: seq<Sys>, actions: seq<Action>)
    requires Run(states, actions) && !Joined(states[|actions|].closes)
    ensures Reached(Deferred(states[|actions|]))
  {
    var late := seq(|states|, i requires 0 <= i < |states| => Deferred(states[i]));
    var steps := seq(|actions|, i requires 0 <= i < |actions| => DeferredAction(states[i], actions[i]));
    forall i, j | 0 <= i < |steps| && j == i + 1
      ensures Follows(late[i], steps[i], late[j])
    {
      assert Follows(states[i], actions[i], states[j]);
      RunKeepsInv(states, actions, i);
      if Joins(actions[i]) {
        JoinsIsJoined(states[i], actions[i]);
        JoinedStays(states, actions, j, |actions|);
        assert false;
      }
      DeferStep(states[i], actions[i]);
    }
    assert Init(late[0]);
    assert Run(late, steps);
  }

  /** The two states differ at most in the worker and in what its state was when a close returned. */
  predicate AgreeButWorker(s: Sys, n: Sys) {
    && s.durable == n.durable && s.m == n.m && s.pcs == n.pcs && s.wake == n.wake && s.stop == n.stop
    && s.served == n.served && |s.closes| == |n.closes|
    && forall k :: 0 <= k < |s.closes| ==> s.closes[k].caller == n.closes[k].caller && s.closes[k].ok == n.closes[k].ok
  }

  /** Everything but the worker taken together settles that the worker has stopped. */
  ghost predicate Certain(s: Sys) {
    forall n :: Reached(n) && AgreeButWorker(s, n) ==> n.worker.Stopped?
  }

  lemma JoinedIsVisible(s: Sys, n: Sys)
    requires AgreeButWorker(s, n) && Joined(s.closes)
    ensures Joined(n.closes)
  {
    var k :| 0 <= k < |s.closes| && Counts(s.closes[k]);
    assert Counts(n.closes[k]);
  }

  /**
    In every reachable state, all that can be seen without looking at the worker proves it stopped if and only if a
    `Close` that did the closing, or a `CloseContext`, has returned nil.
  */
  lemma StoppedIsKnownExactly(s: Sys)
    requires Reached(s)
    ensures Certain(s) <==> Joined(s.closes)
  {
    if Joined(s.closes) {
      forall n | Reached(n) && AgreeButWorker(s, n)
        ensures n.worker.Stopped?
      {
        JoinedIsVisible(s, n);
        var states, actions :| Run(states, actions) && states[|actions|] == n;
        JoinedMeansStopped(states, actions, |actions|);
      }
    } else {
      var states, actions :| Run(states, actions) && states[|actions|] == s;
      DeferredIsReached(states, actions);
      assert AgreeButWorker(s, Deferred(s)) && !Deferred(s).worker.Stopped?;
    }
  }

  lemma ReachedByOneMore(s: Sys, a: Action)
    requires Reached(s) && Enabled(s, a)
    ensures Reached(Do(s, a))
  {
    var states, actions :| Run(states, actions) && states[|actions|] == s;
    var more, steps := states + [Do(s, a)], actions + [a];
    forall i, j | 0 <= i < |steps| && j == i + 1
      ensures Follows(more[i], steps[i], more[j])
    {
      if i < |actions| {
        assert Follows(states[i], actions[i], states[j]);
      }
    }
    assert Run(more, steps) && more[|steps|] == Do(s, a);
  }

  /**
    So a repeated `Close` tells nothing about the worker: after it the worker is known to have stopped exactly when
    another kind of close had returned nil before it.
  */
  lemma RepeatCloseTellsNothing(s: Sys, t: nat, commit: K.Commit)
    requires Reached(s) && Enabled(s, CloseFinish(t, commit)) && s.m.closed
    ensures Certain(Do(s, CloseFinish(t, commit))) <==> Joined(s.closes)
  {
    var a := CloseFinish(t, commit);
    ReachedByOneMore(s, a);
    StoppedIsKnownExactly(Do(s, a));
    StepReturns(s, a);
    JoinedStep(s, a);
    if Joined(Do(s, a).closes) {
      var n := Do(s, a);
      var k :| 0 <= k < |n.closes| && Counts(n.closes[k]);
      assert k < |s.closes| && n.closes[k] == s.closes[k];
    }
  }

  // ----- Two runs in which a repeated close returns nil before the worker has stopped

  /** A manager that two threads close, one step after another. */
  function TwoClosers(closed: bool, first: Pc, second: Pc, closes: seq<CloseReturn>): Sys {
    var m := Local(None, None, false, closed, closed);
    Sys(K.Durable(None, []), m, [first, second], Waiting, false, closed, [], closes)
  }

  /** While the first of two calls of `Close` waits, the second returns nil, and the worker may still go to work. */
  lemma RepeatCloseLeavesWorker() returns (states: seq<Sys>, actions: seq<Action>)
    ensures Run(states, actions)
    ensures states[|actions|].closes == [CloseReturn(RepeatClose, true, true, true, false, false)]
    ensures OtherCloseWaits(states[|actions| - 1], 1)
  {
    var left := CloseReturn(RepeatClose, true, true, true, false, false);
    actions := [CloseLock(0), CloseTrust(0), CloseFinish(0, K.Committed),
                CloseLock(1), CloseTrust(1), CloseFinish(1, K.Committed)];
    states := [TwoClosers(false, Idle, Idle, []), TwoClosers(false, CloseWriting, Idle, []),
               TwoClosers(false, CloseTrusted, Idle, []), TwoClosers(true, CloseJoining, Idle, []),
               TwoClosers(true, CloseJoining, CloseWriting, []), TwoClosers(true, CloseJoining, CloseTrusted, []),
               TwoClosers(true, CloseJoining, Idle, [left])];
    ClosersLock();
    ClosersTrust();
    FirstCloserFinishes();
    SecondCloserFinishes(left);
    assert Init(states[0]);
    assert states[5].pcs[0].CloseJoining?;
  }

  lemma ClosersLock()
    ensures Follows(TwoClosers(false, Idle, Idle, []), CloseLock(0), TwoClosers(false, CloseWriting, Idle, []))
    ensures Follows(TwoClosers(true, CloseJoining, Idle, []), CloseLock(1),
                    TwoClosers(true, CloseJoining, CloseWriting, []))
  {
  }

  lemma ClosersTrust()
    ensures Follows(TwoClosers(false, CloseWriting, Idle, []), CloseTrust(0), TwoClosers(false, CloseTrusted, Idle, []))
    ensures Follows(TwoClosers(true, CloseJoining, CloseWriting, []), CloseTrust(1),
                    TwoClosers(true, CloseJoining, CloseTrusted, []))
  {
  }

  lemma FirstCloserFinishes()
    ensures Follows(TwoClosers(false, CloseTrusted, Idle, []), CloseFinish(0, K.Committed),
                    TwoClosers(true, CloseJoining, Idle, []))
  {
  }

  lemma SecondCloserFinishes(left: CloseReturn)
    requires left == CloseReturn(RepeatClose, true, true, true, false, false)
    ensures Follows(TwoClosers(true, CloseJoining, CloseTrusted, []), CloseFinish(1, K.Committed),
                    TwoClosers(true, CloseJoining, Idle, [left]))
  {
  }

  const REPORTED := K.KeyStateReason
  const FAILED := CloseReturn(FirstClose, false, true, false, false, false)
  const EARLY := CloseReturn(RepeatClose, true, true, true, true, false)

  /** A manager with one thread, before it closes and after; the uncertainty it reported is durable or pending. */
  function Solo(pc: Pc, hard: bool, durable: bool, closed: bool, worker: Worker, wake: bool,
                closes: seq<CloseReturn>): Sys
  {
    var row := if durable then Some(K.Row(0, "", 0, Some(REPORTED))) else None;
    var m := Local(None, if hard then Some(REPORTED) else None, durable, closed, closed);
    Sys(K.Durable(row, []), m, [pc], worker, wake, false, [], closes)
  }

  /**
    A thread reports uncertainty that the store does not take, closes and is told so; the worker then latches it and
    lets go of its lock; and the thread, alone all along, closes again and gets nil from a worker that has yet to
    stop.
  */
  lemma SoleCloserLeavesWorker() returns (states: seq<Sys>, actions: seq<Action>)
    ensures Run(states, actions) && |states[0].pcs| == 1
    ensures states[|actions|].closes == [FAILED, EARLY] && states[|actions|].worker.Leaving?
  {
    actions := [Begin(0, Report(REPORTED)), Lock(0), Mark(0), Latch(0, K.Failed),
                CloseLock(0), CloseTrust(0), CloseFinish(0, K.Failed), WorkerWake, WorkerLock, WorkerLatch(K.Committed),
                CloseLock(0), CloseTrust(0), CloseFinish(0, K.Committed)];
    states := [Solo(Idle, false, false, false, Waiting, false, []),
               Solo(Begun(Report(REPORTED)), false, false, false, Waiting, false, []),
               Solo(Trusted(Report(REPORTED)), false, false, false, Waiting, false, []),
               Solo(Latching, true, false, false, Waiting, true, []),
               Solo(Idle, true, false, false, Waiting, true, []),
               Solo(CloseWriting, true, false, false, Waiting, true, []),
               Solo(CloseTrusted, true, false, false, Waiting, true, []),
               Solo(Idle, true, false, true, Waiting, true, [FAILED]),
               Solo(Idle, true, false, true, Trying, false, [FAILED]),
               Solo(Idle, true, false, true, Holding, false, [FAILED]),
               Solo(Idle, true, true, true, Leaving, false, [FAILED]),
               Solo(CloseWriting, true, true, true, Leaving, false, [FAILED]),
               Solo(CloseTrusted, true, true, true, Leaving, false, [FAILED]),
               Solo(Idle, true, true, true, Leaving, false, [FAILED, EARLY])];
    SoleReports();
    SoleMarks();
    SoleLatches();
    SoleLocks(false, false, Waiting, true, []);
    SoleTrusts(false, false, Waiting, true, []);
    SoleCloses();
    WorkerLocks();
    WorkerLatches();
    SoleLocks(true, true, Leaving, false, [FAILED]);
    SoleTrusts(true, true, Leaving, false, [FAILED]);
    SoleClosesAgain();
    assert Init(states[0]);
  }

  lemma SoleReports()
    ensures Follows(Solo(Idle, false, false, false, Waiting, false, []), Begin(0, Report(REPORTED)),
                    Solo(Begun(Report(REPORTED)), false, false, false, Waiting, false, []))
    ensures Follows(Solo(Begun(Report(REPORTED)), false, false, false, Waiting, false, []), Lock(0),
                    Solo(Trusted(Report(REPORTED)), false, false, false, Waiting, false, []))
  {
  }

  lemma SoleMarks()
    ensures Follows(Solo(Trusted(Report(REPORTED)), false, false, false, Waiting, false, []), Mark(0),
                    Solo(Latching, true, false, false, Waiting, true, []))
  {
    var s := Solo(Trusted(Report(REPORTED)), false, false, false, Waiting, false, []);
    assert s.pcs[0] == Trusted(Report(REPORTED)) && s.m == Local(None, None, false, false, false);
    assert Do(s, Mark(0)) == Go(s, 0, Latching).(m := Marked(s.m, REPORTED, false), wake := true);
  }

  lemma SoleLatches()
    ensures Follows(Solo(Latching, true, false, false, Waiting, true, []), Latch(0, K.Failed),
                    Solo(Idle, true, false, false, Waiting, true, []))
  {
  }

  lemma SoleLocks(durable: bool, closed: bool, worker: Worker, wake: bool, closes: seq<CloseReturn>)
    ensures Follows(Solo(Idle, true, durable, closed, worker, wake, closes), CloseLock(0),
                    Solo(CloseWriting, true, durable, closed, worker, wake, closes))
  {
  }

  lemma SoleTrusts(durable: bool, closed: bool, worker: Worker, wake: bool, closes: seq<CloseReturn>)
    requires !worker.Holding?
    ensures Follows(Solo(CloseWriting, true, durable, closed, worker, wake, closes), CloseTrust(0),
                    Solo(CloseTrusted, true, durable, closed, worker, wake, closes))
  {
  }

  lemma SoleCloses()
    ensures Follows(Solo(CloseTrusted, true, false, false, Waiting, true, []), CloseFinish(0, K.Failed),
                    Solo(Idle, true, false, true, Waiting, true, [FAILED]))
  {
  }

  lemma WorkerLocks()
    ensures Follows(Solo(Idle, true, false, true, Waiting, true, [FAILED]), WorkerWake,
                    Solo(Idle, true, false, true, Trying, false, [FAILED]))
    ensures Follows(Solo(Idle, true, false, true, Trying, false, [FAILED]), WorkerLock,
                    Solo(Idle, true, false, true, Holding, false, [FAILED]))
  {
  }

  lemma WorkerLatches()
    ensures Follows(Solo(Idle, true, false, true, Holding, false, [FAILED]), WorkerLatch(K.Committed),
                    Solo(Idle, true, true, true, Leaving, false, [FAILED]))
  {
  }

  lemma SoleClosesAgain()
    ensures Follows(Solo(CloseTrusted, true, true, true, Leaving, false, [FAILED]), CloseFinish(0, K.Committed),
                    Solo(Idle, true, true, true, Leaving, false, [FAILED, EARLY]))
  {
  }
}
