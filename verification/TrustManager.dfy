/**
  One replica's trust manager among others, as a state machine over its lock-protected sections. Any number of threads
  refresh, verify, hold leases, report artifacts and close; a worker retries the durable latch; and between any two
  steps the other replicas may move the durable state forward.

  A thread's control state says which locks it holds: the lifecycle lock for reading from `Begun` on, for writing while
  it closes, and the trust mutex from `Trusted` on.
*/
module TrustManager {
  import opened Common
  import opened KeyRotation
  import opened KeysetStore

  const MAX_REFRESH := 6 * 60 * 60 * SECOND

  datatype Snapshot = Snapshot(candidate: Candidate, nextRefresh: int)

  /** `hard` is the sticky uncertainty with its first reason; `durable` says that the store has confirmed it. */
  datatype Local = Local(
    snapshot: Option<Snapshot>,
    hard: Option<Reason>,
    durable: bool,
    closed: bool,
    erased: bool)

  datatype Op = Refresh | Verify(now: int) | Lease(now: int) | Report(reason: Reason)

  datatype Pc =
    | Idle
    | Begun(op: Op)
    | Trusted(op: Op)
    | Installing(c: Candidate, now: int)
    | Reading(op: Op, snap: Snapshot)
    | Confirming(op: Op, snap: Snapshot, read: Row)
    | Latching
    | Leased(evaluation: int, snap: Snapshot, read: Row, until: int)
    | CloseWriting
    | CloseTrusted
    | CloseJoining

  /** A worker that is `Leaving` has released its locks for good and is about to say that it has stopped. */
  datatype Worker = Waiting | Trying | Holding | Backoff | Leaving | Stopped {
    /** It touches nothing any more. */
    predicate Quiet() {
      Leaving? || Stopped?
    }
  }

  /** A keyset handed out to a verifier or a lease, with the row read in the same call. */
  datatype Served = Served(now: int, snap: Snapshot, read: Row)

  datatype Closer = FirstClose | RepeatClose | ContextClose

  /** A return of `Close` or `CloseContext`, with what held at that moment. */
  datatype CloseReturn =
    CloseReturn(caller: Closer, ok: bool, erased: bool, settled: bool, quiet: bool, stopped: bool)

  datatype Sys = Sys(
    durable: Durable,
    m: Local,
    pcs: seq<Pc>,
    worker: Worker,
    wake: bool,
    stop: bool,
    served: seq<Served>,
    closes: seq<CloseReturn>)

  datatype Action =
    | Other(d: Durable)
    | Begin(t: nat, op: Op)
    | Lock(t: nat)
    | GiveUp(t: nat)
    | UseLease(t: nat, live: int)
    | EndLease(t: nat)
    | Refuse(t: nat)
    | Submit(t: nat, c: Candidate, now: int, commit: Commit)
    | Install(t: nat)
    | Check(t: nat)
    | Read(t: nat)
    | Confirm(t: nat)
    | Mark(t: nat)
    | Resume(t: nat)
    | Latch(t: nat, commit: Commit)
    | CloseLock(t: nat)
    | CloseTrust(t: nat)
    | CloseFinish(t: nat, commit: Commit)
    | CloseJoin(t: nat)
    | ContextWake
    | ContextReturn
    | WorkerWake
    | WorkerStop
    | WorkerLock
    | WorkerLatch(commit: Commit)
    | WorkerRetry
    | WorkerExit

  // ----- Locks

  predicate HoldsRead(pc: Pc) {
    pc.Begun? || pc.Trusted? || pc.Installing? || pc.Reading? || pc.Confirming? || pc.Latching? || pc.Leased?
  }

  predicate HoldsWrite(pc: Pc) {
    pc.CloseWriting? || pc.CloseTrusted?
  }

  predicate HoldsTrust(pc: Pc) {
    (HoldsRead(pc) && !pc.Begun?) || pc.CloseTrusted?
  }

  predicate NoReader(s: Sys) {
    forall i :: 0 <= i < |s.pcs| ==> !HoldsRead(s.pcs[i])
  }

  predicate NoWriter(s: Sys) {
    forall i :: 0 <= i < |s.pcs| ==> !HoldsWrite(s.pcs[i])
  }

  predicate TrustFree(s: Sys) {
    !s.worker.Holding? && forall i :: 0 <= i < |s.pcs| ==> !HoldsTrust(s.pcs[i])
  }

  // ----- Local effects

  /** The first reason is kept. */
  function Marked(m: Local, reason: Reason, durable: bool): Local {
    m.(hard := if m.hard.Some? then m.hard else Some(reason), durable := m.durable || durable)
  }

  predicate Pending(m: Local) {
    m.hard.Some? && !m.durable
  }

  function NextRefresh(c: Candidate, now: int): int {
    var early := c.keyset.expiresAt - 30 * SECOND;
    var next := if early < now + MAX_REFRESH then early else now + MAX_REFRESH;
    if next < now then now else next
  }

  /** The latch transaction: what becomes of the durable state and of the local confirmation. */
  function LatchedDurable(s: Sys, commit: Commit): Durable {
    if Pending(s.m) && Persists(commit) then Latched(s.durable, s.m.hard.value) else s.durable
  }

  function LatchedLocal(s: Sys, commit: Commit): Local {
    if Pending(s.m) && commit.Committed? then s.m.(durable := true) else s.m
  }

  function At(s: Sys, t: nat): Pc {
    if t < |s.pcs| then s.pcs[t] else CloseJoining
  }

  function Go(s: Sys, t: nat, pc: Pc): Sys
    requires t < |s.pcs|
  {
    s.(pcs := s.pcs[t := pc])
  }

  function OpTime(op: Op): Option<int> {
    match op
    case Verify(now) => Some(now)
    case Lease(now) => Some(now)
    case _ => None
  }

  // ----- Steps

  ghost predicate Enabled(s: Sys, a: Action) {
    match a
    case Other(d) => Consistent(d) && Forward(s.durable, d)
    case Begin(t, op) => t < |s.pcs| && s.pcs[t].Idle? && NoWriter(s)
    case Lock(t) => t < |s.pcs| && s.pcs[t].Begun? && TrustFree(s)
    case GiveUp(t) =>
      t < |s.pcs| && (s.pcs[t].Begun? || s.pcs[t].Trusted? || s.pcs[t].Reading? || s.pcs[t].Confirming?)
    case UseLease(t, live) =>
      t < |s.pcs| && s.pcs[t].Leased? && s.pcs[t].evaluation <= live < s.pcs[t].until
    case EndLease(t) => t < |s.pcs| && s.pcs[t].Leased?
    case Refuse(t) => t < |s.pcs| && s.pcs[t] == Trusted(Refresh) && s.m.hard.None?
    case Submit(t, c, now, commit) =>
      && t < |s.pcs| && s.pcs[t] == Trusted(Refresh) && s.m.hard.None?
      && ValidKeyset(c.keyset) && c.keyset.issuedAt <= now < c.keyset.expiresAt
    case Install(t) => t < |s.pcs| && s.pcs[t].Installing?
    case Check(t) =>
      && t < |s.pcs| && s.pcs[t].Trusted? && OpTime(s.pcs[t].op).Some?
      && CheckPasses(s, OpTime(s.pcs[t].op).value)
    case Read(t) => t < |s.pcs| && s.pcs[t].Reading? && OpTime(s.pcs[t].op).Some?
    case Confirm(t) => t < |s.pcs| && s.pcs[t].Confirming? && OpTime(s.pcs[t].op).Some?
    case Mark(t) => t < |s.pcs| && s.pcs[t].Trusted? && s.pcs[t].op.Report?
    case Resume(t) => t < |s.pcs| && s.pcs[t].Trusted? && s.m.hard.Some?
    case Latch(t, commit) => t < |s.pcs| && s.pcs[t].Latching?
    case CloseLock(t) => t < |s.pcs| && s.pcs[t].Idle? && NoReader(s) && NoWriter(s)
    case CloseTrust(t) => t < |s.pcs| && s.pcs[t].CloseWriting? && TrustFree(s)
    case CloseFinish(t, commit) => t < |s.pcs| && s.pcs[t].CloseTrusted?
    case CloseJoin(t) => t < |s.pcs| && s.pcs[t].CloseJoining? && s.worker.Stopped?
    case ContextWake => s.closes != []
    case ContextReturn => s.closes != [] && s.worker.Stopped?
    case WorkerWake => s.worker.Waiting? && s.wake
    case WorkerStop => (s.worker.Waiting? || s.worker.Backoff?) && s.stop
    case WorkerLock => s.worker.Trying? && TrustFree(s)
    case WorkerLatch(commit) => s.worker.Holding?
    case WorkerRetry => s.worker.Backoff?
    case WorkerExit => s.worker.Leaving?
  }

  /** The local part of the currentness check. */
  predicate CheckPasses(s: Sys, now: int) {
    && s.m.hard.None? && !s.m.closed && s.m.snapshot.Some?
    && Timely(s.m.snapshot.value, now)
  }

  predicate Timely(snap: Snapshot, now: int) {
    snap.candidate.keyset.issuedAt <= now < snap.candidate.keyset.expiresAt && now < snap.nextRefresh
  }

  /** What the row read says of the snapshot. */
  datatype Comparison = Shut | RolledBack | Behind | Matches

  function Compare(c: Candidate, now: int, row: Row): Comparison {
    if row.Uncertain() then Shut
    else if row.sequence < c.keyset.sequence ||
            (row.sequence == c.keyset.sequence && (row.hash != c.hash || row.expiresAt != c.keyset.expiresAt)) then
      RolledBack
    else if row.sequence > c.keyset.sequence || now >= row.expiresAt then Behind
    else Matches
  }

  /** Nothing has changed under the snapshot since it was copied. */
  predicate StillCurrent(s: Sys, snap: Snapshot, now: int) {
    && !s.m.closed && s.m.hard.None? && s.m.snapshot.Some?
    && RowOf(s.m.snapshot.value.candidate) == RowOf(snap.candidate)
    && now < s.m.snapshot.value.nextRefresh
  }

  /** One step. The control state of one thread, the local and the durable state change as each part below says. */
  ghost function Do(s: Sys, a: Action): (n: Sys)
    requires Enabled(s, a)
  {
    match a
    case Other(d) => s.(durable := d)
    case Submit(t, c, now, commit) => DoSubmit(s, t, c, now, commit)
    case Read(t) => DoRead(s, t)
    case Confirm(t) => DoConfirm(s, t)
    case Latch(t, commit) => Go(s, t, Idle).(durable := LatchedDurable(s, commit), m := LatchedLocal(s, commit))
    case CloseFinish(t, commit) => DoClose(s, t, commit)
    case CloseJoin(t) => Go(s, t, Idle).(closes := s.closes + [Return(s, FirstClose, true)])
    case ContextWake => s.(wake := true)
    case ContextReturn => s.(closes := s.closes + [Return(s, ContextClose, !Pending(s.m))])
    case WorkerWake => s.(worker := Trying, wake := false)
    case WorkerStop => s.(worker := Leaving)
    case WorkerLock => s.(worker := Holding)
    case WorkerLatch(commit) => DoWorkerLatch(s, commit)
    case WorkerRetry => s.(worker := Trying)
    case WorkerExit => s.(worker := Stopped)
    case _ => DoThread(s, a)
  }

  /** The steps of a thread that touch neither the durable state nor what has been handed out. */
  ghost function DoThread(s: Sys, a: Action): Sys
    requires Enabled(s, a)
  {
    match a
    case Begin(t, op) => if s.m.closed then s else Go(s, t, Begun(op))
    case Lock(t) => Go(s, t, Trusted(s.pcs[t].op))
    case GiveUp(t) => Go(s, t, Idle)
    case EndLease(t) => Go(s, t, Idle)
    case Refuse(t) => Go(s, t, Latching).(m := Marked(s.m, KeyStateReason, false), wake := true)
    case Install(t) =>
      var pc := s.pcs[t];
      Go(s, t, Idle).(m := if s.m.hard.Some? then s.m
                           else s.m.(snapshot := Some(Snapshot(pc.c, NextRefresh(pc.c, pc.now)))))
    case Check(t) => Go(s, t, Reading(s.pcs[t].op, s.m.snapshot.value))
    case Mark(t) => Go(s, t, Latching).(m := Marked(s.m, s.pcs[t].op.reason, false), wake := true)
    case Resume(t) => Go(s, t, Latching)
    case CloseLock(t) => Go(s, t, CloseWriting)
    case CloseTrust(t) => Go(s, t, CloseTrusted)
    case _ => s
  }

  function DoWorkerLatch(s: Sys, commit: Commit): Sys {
    var m := LatchedLocal(s, commit);
    s.(durable := LatchedDurable(s, commit), m := m,
       worker := if Pending(m) then Backoff else if m.closed then Leaving else Waiting)
  }

  ghost function DoSubmit(s: Sys, t: nat, c: Candidate, now: int, commit: Commit): Sys
    requires t < |s.pcs|
  {
    var (d, verdict) := Accept(s.durable, c);
    var moved := if Persists(commit) then s.(durable := d) else s;
    if !commit.Committed? then Go(moved, t, Idle)
    else if verdict.Rejected? then Go(moved, t, Idle).(m := Marked(s.m, RollbackReason, true))
    else Go(moved, t, Installing(c, now))
  }

  function DoRead(s: Sys, t: nat): Sys
    requires t < |s.pcs| && s.pcs[t].Reading? && OpTime(s.pcs[t].op).Some?
  {
    var pc := s.pcs[t];
    if s.durable.row.None? then Go(s, t, Idle)
    else
      var row := s.durable.row.value;
      match Compare(pc.snap.candidate, OpTime(pc.op).value, row)
      case Shut => Go(s, t, Idle).(m := Marked(s.m, KeyStateReason, true))
      case RolledBack => Go(s, t, Latching).(m := Marked(s.m, RollbackReason, false), wake := true)
      case Behind => Go(s, t, Idle)
      case Matches => Go(s, t, Confirming(pc.op, pc.snap, row))
  }

  /** A lease may be used until its keyset expires or the installed one is due for refresh. */
  function ValidUntil(s: Sys, snap: Snapshot): int
    requires s.m.snapshot.Some?
  {
    var next := s.m.snapshot.value.nextRefresh;
    if next < snap.candidate.keyset.expiresAt then next else snap.candidate.keyset.expiresAt
  }

  function DoConfirm(s: Sys, t: nat): Sys
    requires t < |s.pcs| && s.pcs[t].Confirming? && OpTime(s.pcs[t].op).Some?
  {
    var pc := s.pcs[t];
    var now := OpTime(pc.op).value;
    if !StillCurrent(s, pc.snap, now) then Go(s, t, Idle)
    else
      Go(s, t, if pc.op.Lease? then Leased(now, pc.snap, pc.read, ValidUntil(s, pc.snap)) else Idle)
      .(served := s.served + [Served(now, pc.snap, pc.read)])
  }

  function Return(s: Sys, caller: Closer, ok: bool): CloseReturn {
    CloseReturn(caller, ok, s.m.erased, !Pending(s.m), s.worker.Quiet(), s.worker.Stopped?)
  }

  /** The locked part of `Close`, on an open manager and on one already closed. */
  function DoClose(s: Sys, t: nat, commit: Commit): Sys
    requires t < |s.pcs|
  {
    if s.m.closed then
      Go(s, t, Idle).(wake := s.wake || Pending(s.m), closes := s.closes + [Return(s, RepeatClose, !Pending(s.m))])
    else
      var m := LatchedLocal(s, commit).(snapshot := None, closed := true, erased := true);
      var shut := s.(durable := LatchedDurable(s, commit), m := m);
      if Pending(m) then
        Go(shut, t, Idle).(wake := true, closes := s.closes + [Return(shut, FirstClose, false)])
      else Go(shut, t, CloseJoining).(stop := true)
  }

  ghost predicate Init(s: Sys) {
    && Consistent(s.durable)
    && s.m == Local(None, None, false, false, false)
    && (forall i :: 0 <= i < |s.pcs| ==> s.pcs[i].Idle?)
    && s.worker.Waiting? && !s.stop && s.served == [] && s.closes == []
  }

  // ----- The invariant

  /** The candidate is the accepted keyset of its sequence. */
  ghost predicate InHistory(d: Durable, c: Candidate) {
    exists i :: 0 <= i < |d.history| && RowOf(d.history[i]) == RowOf(c)
  }

  /** Locks exclude one another. */
  ghost predicate Exclusive(s: Sys) {
    && (forall i, j :: 0 <= i < j < |s.pcs| ==> !(HoldsTrust(s.pcs[i]) && HoldsTrust(s.pcs[j])))
    && (forall i :: 0 <= i < |s.pcs| && HoldsTrust(s.pcs[i]) ==> !s.worker.Holding?)
    && (forall i, j :: 0 <= i < |s.pcs| && 0 <= j < |s.pcs| && HoldsWrite(s.pcs[i]) ==>
          !HoldsRead(s.pcs[j]) && (HoldsWrite(s.pcs[j]) ==> i == j))
  }

  /** What a control state carries was accepted, and a lease still holds what it was granted on. */
  ghost predicate PcOk(s: Sys, pc: Pc) {
    match pc
    case Installing(c, _) => InHistory(s.durable, c)
    case Reading(op, snap) =>
      InHistory(s.durable, snap.candidate) && OpTime(op).Some? && Timely(snap, OpTime(op).value)
    case Confirming(op, snap, read) =>
      InHistory(s.durable, snap.candidate) && OpTime(op).Some? && ServedOk(Served(OpTime(op).value, snap, read))
    case Leased(now, snap, read, until) =>
      StillCurrent(s, snap, now) && ServedOk(Served(now, snap, read)) && until == ValidUntil(s, snap)
    case CloseJoining => s.stop
    case _ => true
  }

  /**
    A keyset is handed out only if the row read in that call names exactly this keyset and is not uncertain, and only
    before its expiry and before its next refresh is due.
  */
  predicate ServedOk(v: Served) {
    v.read == RowOf(v.snap.candidate) && v.now < v.read.expiresAt && Timely(v.snap, v.now)
  }

  ghost predicate LocalOk(s: Sys) {
    && (s.m.snapshot.Some? ==> InHistory(s.durable, s.m.snapshot.value.candidate))
    && (s.m.durable ==> s.m.hard.Some? && s.durable.row.Some? && s.durable.row.value.Uncertain())
    && (s.m.closed ==> s.m.erased && s.m.snapshot.None? && NoReader(s))
    && (s.stop || s.worker.Quiet() ==> s.m.closed && !Pending(s.m))
  }

  /** What a nil return of `Close` or `CloseContext` means. */
  predicate CloseOk(c: CloseReturn) {
    c.ok ==> c.erased && c.settled && (c.caller != RepeatClose ==> c.stopped)
  }

  ghost predicate Inv(s: Sys) {
    && Consistent(s.durable)
    && Exclusive(s)
    && LocalOk(s)
    && (forall i :: 0 <= i < |s.pcs| ==> PcOk(s, s.pcs[i]))
    && (forall k :: 0 <= k < |s.served| ==> ServedOk(s.served[k]))
    && (forall k :: 0 <= k < |s.closes| ==> CloseOk(s.closes[k]))
    && (s.closes != [] ==> s.m.closed)
  }

  lemma InitInv(s: Sys)
    requires Init(s)
    ensures Inv(s)
  {
  }

  // ----- Durable progress

  lemma HistoryKept(d: Durable, e: Durable, c: Candidate)
    requires InHistory(d, c) && d.history <= e.history
    ensures InHistory(e, c)
  {
    var i :| 0 <= i < |d.history| && RowOf(d.history[i]) == RowOf(c);
    assert e.history[i] == d.history[i];
  }

  /** The other replicas' transactions disturb nothing the manager relies on. */
  lemma OtherKeepsInv(s: Sys, d: Durable)
    requires Inv(s) && Consistent(d) && Forward(s.durable, d)
    ensures Inv(s.(durable := d))
  {
    var n := s.(durable := d);
    forall i | 0 <= i < |n.pcs|
      ensures PcOk(n, n.pcs[i])
    {
      var pc := s.pcs[i];
      assert PcOk(s, pc);
      if pc.Installing? {
        HistoryKept(s.durable, d, pc.c);
      } else if pc.Reading? || pc.Confirming? {
        HistoryKept(s.durable, d, pc.snap.candidate);
      }
    }
    if s.m.snapshot.Some? {
      HistoryKept(s.durable, d, s.m.snapshot.value.candidate);
    }
  }

  // ----- Every step keeps the invariant

  /** A thread may move to a control state whose locks it holds or finds free. */
  ghost predicate MayHold(s: Sys, t: nat, pc: Pc)
    requires t < |s.pcs|
  {
    && (HoldsTrust(pc) ==> HoldsTrust(s.pcs[t]) || TrustFree(s))
    && (HoldsRead(pc) ==> !HoldsWrite(pc) && (HoldsRead(s.pcs[t]) || (s.pcs[t].Idle? && NoWriter(s))))
    && (HoldsWrite(pc) ==> HoldsWrite(s.pcs[t]) || (s.pcs[t].Idle? && NoReader(s) && NoWriter(s)))
  }

  lemma GoKeepsExclusive(s: Sys, t: nat, pc: Pc)
    requires Exclusive(s) && t < |s.pcs| && MayHold(s, t, pc)
    ensures Exclusive(Go(s, t, pc))
  {
  }

  /** The local state changes only under the trust mutex, so no other thread holds a lease. */
  lemma OthersKeepPcOk(s: Sys, t: nat, m: Local)
    requires Exclusive(s) && t < |s.pcs| && (m == s.m || HoldsTrust(s.pcs[t]))
    requires forall i :: 0 <= i < |s.pcs| ==> PcOk(s, s.pcs[i])
    ensures forall i :: 0 <= i < |s.pcs| && i != t ==> PcOk(s.(m := m), s.pcs[i])
  {
    forall i | 0 <= i < |s.pcs| && i != t
      ensures PcOk(s.(m := m), s.pcs[i])
    {
      assert PcOk(s, s.pcs[i]);
      if m != s.m {
        assert !HoldsTrust(s.pcs[i]);
      }
    }
  }

  lemma PcOkFrame(s: Sys, n: Sys, pc: Pc)
    requires PcOk(s, pc) && n.durable == s.durable && n.m == s.m && (s.stop ==> n.stop)
    ensures PcOk(n, pc)
  {
  }

  /** A thread moves on, perhaps with a new local state. */
  lemma GoKeepsInv(s: Sys, t: nat, pc: Pc, m: Local)
    requires Inv(s) && t < |s.pcs| && MayHold(s, t, pc) && (m == s.m || HoldsTrust(s.pcs[t]))
    requires LocalOk(Go(s, t, pc).(m := m)) && PcOk(s.(m := m), pc) && (s.m.closed ==> m.closed)
    ensures Inv(Go(s, t, pc).(m := m))
  {
    var n := Go(s, t, pc).(m := m);
    GoKeepsExclusive(s, t, pc);
    OthersKeepPcOk(s, t, m);
    forall i | 0 <= i < |n.pcs|
      ensures PcOk(n, n.pcs[i])
    {
      PcOkFrame(s.(m := m), n, n.pcs[i]);
    }
  }

  /** A reader proves the manager open, so nothing has asked the worker to stop. */
  lemma ReaderMeansOpen(s: Sys, t: nat)
    requires LocalOk(s) && t < |s.pcs| && HoldsRead(s.pcs[t])
    ensures !s.m.closed && !s.stop && !s.worker.Quiet()
  {
  }

  lemma ThreadStepsKeepInv(s: Sys, a: Action)
    requires Inv(s) && Enabled(s, a) && (a.Begin? || a.Lock? || a.GiveUp? || a.EndLease? || a.Resume? || a.UseLease?)
    ensures Inv(Do(s, a))
  {
    var n := Do(s, a);
    if n != s {
      GoKeepsInv(s, a.t, n.pcs[a.t], s.m);
    }
  }

  lemma LockingStepsKeepInv(s: Sys, a: Action)
    requires Inv(s) && Enabled(s, a) && (a.CloseLock? || a.CloseTrust? || a.Check?)
    ensures Inv(Do(s, a))
  {
    GoKeepsInv(s, a.t, Do(s, a).pcs[a.t], s.m);
  }

  lemma MarkKeepsInv(s: Sys, t: nat, reason: Reason, wake: bool)
    requires Inv(s) && t < |s.pcs| && HoldsRead(s.pcs[t]) && HoldsTrust(s.pcs[t])
    ensures Inv(Go(s, t, Latching).(m := Marked(s.m, reason, false), wake := wake))
  {
    ReaderMeansOpen(s, t);
    GoKeepsInv(s, t, Latching, Marked(s.m, reason, false));
  }

  /** Uncertainty learnt from the store is durable already. */
  lemma ShutKeepsInv(s: Sys, t: nat, reason: Reason)
    requires Inv(s) && t < |s.pcs| && HoldsRead(s.pcs[t]) && HoldsTrust(s.pcs[t])
    requires s.durable.row.Some? && s.durable.row.value.Uncertain()
    ensures Inv(Go(s, t, Idle).(m := Marked(s.m, reason, true)))
  {
    ReaderMeansOpen(s, t);
    GoKeepsInv(s, t, Idle, Marked(s.m, reason, true));
  }

  lemma SubmitKeepsInv(s: Sys, t: nat, c: Candidate, now: int, commit: Commit)
    requires Inv(s) && t < |s.pcs| && s.pcs[t] == Trusted(Refresh) && ValidKeyset(c.keyset)
    ensures Inv(DoSubmit(s, t, c, now, commit))
  {
    var (d, verdict) := Accept(s.durable, c);
    AcceptMovesForward(s.durable, c);
    var moved := if Persists(commit) then s.(durable := d) else s;
    OtherKeepsInv(s, moved.durable);
    if !commit.Committed? {
      GoKeepsInv(moved, t, Idle, s.m);
    } else if verdict.Rejected? {
      ShutKeepsInv(moved, t, RollbackReason);
    } else {
      assert RowOf(d.history[|d.history| - 1]) == RowOf(c);
      GoKeepsInv(moved, t, Installing(c, now), s.m);
    }
  }

  lemma InstallKeepsInv(s: Sys, a: Action)
    requires Inv(s) && Enabled(s, a) && a.Install?
    ensures Inv(Do(s, a))
  {
    ReaderMeansOpen(s, a.t);
    assert PcOk(s, s.pcs[a.t]);
    GoKeepsInv(s, a.t, Idle, Do(s, a).m);
  }

  /** No interleaving makes a durable row look rolled back: whatever was installed stays in the accepted history. */
  lemma NeverRolledBack(d: Durable, c: Candidate, now: int)
    requires Consistent(d) && InHistory(d, c)
    ensures d.row.Some? && Compare(c, now, d.row.value) != RolledBack
  {
    var i :| 0 <= i < |d.history| && RowOf(d.history[i]) == RowOf(c);
    var last := |d.history| - 1;
    if i < last {
      SequencesDiffer(d.history, i, last);
    }
  }

  lemma ReadKeepsInv(s: Sys, a: Action)
    requires Inv(s) && Enabled(s, a) && a.Read?
    ensures Inv(Do(s, a))
  {
    var pc := s.pcs[a.t];
    assert PcOk(s, pc);
    var now := OpTime(pc.op).value;
    NeverRolledBack(s.durable, pc.snap.candidate, now);
    var row := s.durable.row.value;
    match Compare(pc.snap.candidate, now, row)
    case Shut => ShutKeepsInv(s, a.t, KeyStateReason);
    case Behind => GoKeepsInv(s, a.t, Idle, s.m);
    case Matches => GoKeepsInv(s, a.t, Confirming(pc.op, pc.snap, row), s.m);
  }

  lemma ServeKeepsInv(s: Sys, v: Served)
    requires Inv(s) && ServedOk(v)
    ensures Inv(s.(served := s.served + [v]))
  {
    var n := s.(served := s.served + [v]);
    forall i | 0 <= i < |n.pcs|
      ensures PcOk(n, n.pcs[i])
    {
      PcOkFrame(s, n, n.pcs[i]);
    }
  }

  lemma ConfirmKeepsInv(s: Sys, a: Action)
    requires Inv(s) && Enabled(s, a) && a.Confirm?
    ensures Inv(Do(s, a))
  {
    var pc := s.pcs[a.t];
    assert PcOk(s, pc);
    var now := OpTime(pc.op).value;
    if StillCurrent(s, pc.snap, now) {
      var next := if pc.op.Lease? then Leased(now, pc.snap, pc.read, ValidUntil(s, pc.snap)) else Idle;
      GoKeepsInv(s, a.t, next, s.m);
      ServeKeepsInv(Go(s, a.t, next), Served(now, pc.snap, pc.read));
    } else {
      GoKeepsInv(s, a.t, Idle, s.m);
    }
  }

  /** The latch transaction moves the durable state forward, and the local confirmation is never ahead of it. */
  lemma LatchDurably(s: Sys, commit: Commit)
    requires Inv(s)
    ensures Consistent(LatchedDurable(s, commit)) && Forward(s.durable, LatchedDurable(s, commit))
    ensures LatchedLocal(s, commit).durable ==>
              LatchedDurable(s, commit).row.Some? && LatchedDurable(s, commit).row.value.Uncertain()
  {
    if s.m.hard.Some? {
      LatchMovesForward(s.durable, s.m.hard.value);
    }
  }

  lemma LatchKeepsInv(s: Sys, a: Action)
    requires Inv(s) && Enabled(s, a) && a.Latch?
    ensures Inv(Do(s, a))
  {
    LatchDurably(s, a.commit);
    var moved := s.(durable := LatchedDurable(s, a.commit));
    OtherKeepsInv(s, moved.durable);
    ReaderMeansOpen(moved, a.t);
    GoKeepsInv(moved, a.t, Idle, LatchedLocal(s, a.commit));
  }

  lemma ReturnKeepsInv(s: Sys, c: CloseReturn)
    requires Inv(s) && CloseOk(c) && s.m.closed
    ensures Inv(s.(closes := s.closes + [c]))
  {
    var n := s.(closes := s.closes + [c]);
    forall i | 0 <= i < |n.pcs|
      ensures PcOk(n, n.pcs[i])
    {
      PcOkFrame(s, n, n.pcs[i]);
    }
  }

  lemma RepeatCloseKeepsInv(s: Sys, t: nat)
    requires Inv(s) && t < |s.pcs| && s.pcs[t].CloseTrusted? && s.m.closed
    ensures Inv(Go(s, t, Idle).(closes := s.closes + [Return(s, RepeatClose, !Pending(s.m))]))
  {
    GoKeepsInv(s, t, Idle, s.m);
    ReturnKeepsInv(Go(s, t, Idle), Return(s, RepeatClose, !Pending(s.m)));
  }

  lemma StopKeepsInv(s: Sys)
    requires Inv(s) && s.m.closed && !Pending(s.m)
    ensures Inv(s.(stop := true))
  {
    var n := s.(stop := true);
    forall i | 0 <= i < |n.pcs|
      ensures PcOk(n, n.pcs[i])
    {
      PcOkFrame(s, n, n.pcs[i]);
    }
  }

  lemma NoReaderWhileClosing(s: Sys, t: nat)
    requires Exclusive(s) && t < |s.pcs| && s.pcs[t].CloseTrusted?
    ensures NoReader(s)
  {
  }

  /** The state once the manager is shut, before the close returns or waits for the worker. */
  function ShutDown(s: Sys, t: nat, commit: Commit): Sys
    requires t < |s.pcs|
  {
    var m := LatchedLocal(s, commit).(snapshot := None, closed := true, erased := true);
    Go(s, t, Idle).(durable := LatchedDurable(s, commit), m := m)
  }

  lemma ShutDownKeepsInv(s: Sys, t: nat, commit: Commit)
    requires Inv(s) && t < |s.pcs| && s.pcs[t].CloseTrusted?
    ensures Inv(ShutDown(s, t, commit))
  {
    LatchDurably(s, commit);
    var moved := s.(durable := LatchedDurable(s, commit));
    OtherKeepsInv(s, moved.durable);
    NoReaderWhileClosing(moved, t);
    GoKeepsInv(moved, t, Idle, ShutDown(s, t, commit).m);
  }

  lemma JoinKeepsInv(s: Sys, t: nat)
    requires Inv(s) && t < |s.pcs| && s.pcs[t].Idle? && s.m.closed && !Pending(s.m)
    ensures Inv(Go(s, t, CloseJoining).(stop := true))
  {
    StopKeepsInv(s);
    GoKeepsInv(s.(stop := true), t, CloseJoining, s.m);
  }

  lemma CloseFinishKeepsInv(s: Sys, t: nat, commit: Commit)
    requires Inv(s) && t < |s.pcs| && s.pcs[t].CloseTrusted?
    ensures Inv(DoClose(s, t, commit))
  {
    if s.m.closed {
      RepeatCloseKeepsInv(s, t);
    } else {
      var shut := ShutDown(s, t, commit);
      ShutDownKeepsInv(s, t, commit);
      if Pending(shut.m) {
        ReturnKeepsInv(shut, Return(shut, FirstClose, false));
      } else {
        JoinKeepsInv(shut, t);
        assert shut.pcs[t := CloseJoining] == s.pcs[t := CloseJoining];
      }
    }
  }

  lemma WakeKeepsInv(s: Sys)
    requires Inv(s)
    ensures Inv(s.(wake := true))
  {
    var n := s.(wake := true);
    forall i | 0 <= i < |n.pcs|
      ensures PcOk(n, n.pcs[i])
    {
      PcOkFrame(s, n, n.pcs[i]);
    }
  }

  lemma CloseReturnsKeepInv(s: Sys, a: Action)
    requires Inv(s) && Enabled(s, a) && (a.CloseJoin? || a.ContextWake? || a.ContextReturn?)
    ensures Inv(Do(s, a))
  {
    if a.CloseJoin? {
      assert PcOk(s, s.pcs[a.t]);
      GoKeepsInv(s, a.t, Idle, s.m);
      ReturnKeepsInv(Go(s, a.t, Idle), Return(s, FirstClose, true));
    } else if a.ContextReturn? {
      ReturnKeepsInv(s, Return(s, ContextClose, !Pending(s.m)));
    } else {
      WakeKeepsInv(s);
    }
  }

  lemma WorkerKeepsInv(s: Sys, w: Worker, m: Local)
    requires Inv(s) && (m == s.m || s.worker.Holding?)
    requires w.Holding? ==> s.worker.Holding? || TrustFree(s)
    requires w.Quiet() ==> m.closed && !Pending(m)
    requires m == s.m || (Pending(s.m) && m == s.m.(durable := true) && s.durable.row.Some? &&
                          s.durable.row.value.Uncertain())
    ensures Inv(s.(worker := w, m := m))
  {
    var n := s.(worker := w, m := m);
    forall i | 0 <= i < |n.pcs|
      ensures PcOk(n, n.pcs[i])
    {
      assert PcOk(s, s.pcs[i]);
      if m != s.m {
        assert !HoldsTrust(s.pcs[i]);
      }
    }
  }

  lemma WorkerStepsKeepInv(s: Sys, a: Action)
    requires Inv(s) && Enabled(s, a) && (a.WorkerWake? || a.WorkerRetry?)
    ensures Inv(Do(s, a))
  {
    WorkerKeepsInv(s, Trying, s.m);
  }

  lemma WorkerLockKeepsInv(s: Sys, a: Action)
    requires Inv(s) && Enabled(s, a) && a.WorkerLock?
    ensures Inv(Do(s, a))
  {
    WorkerKeepsInv(s, Holding, s.m);
  }

  lemma LastWorkerStepsKeepInv(s: Sys, a: Action)
    requires Inv(s) && Enabled(s, a) && (a.WorkerStop? || a.WorkerExit?)
    ensures Inv(Do(s, a))
  {
    WorkerKeepsInv(s, Do(s, a).worker, s.m);
  }

  lemma WorkerLatchKeepsInv(s: Sys, a: Action)
    requires Inv(s) && Enabled(s, a) && a.WorkerLatch?
    ensures Inv(Do(s, a))
  {
    LatchDurably(s, a.commit);
    var moved := s.(durable := LatchedDurable(s, a.commit));
    OtherKeepsInv(s, moved.durable);
    WorkerKeepsInv(moved, Do(s, a).worker, LatchedLocal(s, a.commit));
  }

  lemma WritingStepsKeepInv(s: Sys, a: Action)
    requires Inv(s) && Enabled(s, a) && (a.Other? || a.Refuse? || a.Mark? || a.Submit?)
    ensures Inv(Do(s, a))
  {
    match a
    case Other(d) => OtherKeepsInv(s, d);
    case Refuse(t) => MarkKeepsInv(s, t, KeyStateReason, true);
    case Mark(t) => MarkKeepsInv(s, t, s.pcs[t].op.reason, true);
    case Submit(t, c, now, commit) => SubmitKeepsInv(s, t, c, now, commit);
  }

  lemma ServingStepsKeepInv(s: Sys, a: Action)
    requires Inv(s) && Enabled(s, a) && (a.Install? || a.Read? || a.Confirm? || a.Latch?)
    ensures Inv(Do(s, a))
  {
    match a
    case Install(_) => InstallKeepsInv(s, a);
    case Read(_) => ReadKeepsInv(s, a);
    case Confirm(_) => ConfirmKeepsInv(s, a);
    case Latch(_, _) => LatchKeepsInv(s, a);
  }

  /** Every step of every thread, of the worker and of the other replicas keeps the invariant. */
  lemma StepKeepsInv(s: Sys, a: Action)
    requires Inv(s) && Enabled(s, a)
    ensures Inv(Do(s, a))
  {
    if a.Other? || a.Refuse? || a.Mark? || a.Submit? {
      WritingStepsKeepInv(s, a);
    } else if a.Install? || a.Read? || a.Confirm? || a.Latch? {
      ServingStepsKeepInv(s, a);
    } else if a.CloseFinish? {
      CloseFinishKeepsInv(s, a.t, a.commit);
    } else if a.CloseJoin? || a.ContextWake? || a.ContextReturn? {
      CloseReturnsKeepInv(s, a);
    } else if a.WorkerLatch? {
      WorkerLatchKeepsInv(s, a);
    } else if a.WorkerWake? || a.WorkerRetry? {
      WorkerStepsKeepInv(s, a);
    } else if a.WorkerLock? {
      WorkerLockKeepsInv(s, a);
    } else if a.WorkerStop? || a.WorkerExit? {
      LastWorkerStepsKeepInv(s, a);
    } else if a.CloseLock? || a.CloseTrust? || a.Check? {
      LockingStepsKeepInv(s, a);
    } else {
      ThreadStepsKeepInv(s, a);
    }
  }

  // ----- What holds of every run

  /** A run: it starts in an initial state and every step is enabled where it is taken. */
  ghost predicate Run(states: seq<Sys>, actions: seq<Action>) {
    && |states| == |actions| + 1 && Init(states[0])
    && forall i, j {:trigger Follows(states[i], actions[i], states[j])} ::
         0 <= i < |actions| && j == i + 1 ==> Follows(states[i], actions[i], states[j])
  }

  ghost predicate Follows(s: Sys, a: Action, n: Sys) {
    Enabled(s, a) && n == Do(s, a)
  }

  lemma FollowsKeepsInv(s: Sys, a: Action, n: Sys)
    requires Inv(s) && Follows(s, a, n)
    ensures Inv(n)
  {
    StepKeepsInv(s, a);
  }

  lemma {:induction false} RunKeepsInv(states: seq<Sys>, actions: seq<Action>, i: nat)
    requires Run(states, actions) && i < |states|
    ensures Inv(states[i])
  {
    if i == 0 {
      InitInv(states[0]);
    } else {
      RunKeepsInv(states, actions, i - 1);
      FollowsKeepsInv(states[i - 1], actions[i - 1], states[i]);
    }
  }

  predicate Transacts(a: Action) {
    a.Other? || a.Submit? || a.Latch? || a.CloseFinish? || a.WorkerLatch?
  }

  /** Is this a step of the worker other than its exit? */
  predicate Works(a: Action) {
    a.WorkerWake? || a.WorkerStop? || a.WorkerLock? || a.WorkerLatch? || a.WorkerRetry?
  }

  /** A step of a thread that neither reads nor hands out anything, and does not end a close. */
  predicate ThreadOnly(a: Action) {
    !Works(a) && !Transacts(a) && !a.Read? && !a.Confirm? && !a.ContextWake? && !a.WorkerExit? && !Joins(a)
  }

  /** The return of a close that waited for the worker. */
  predicate Joins(a: Action) {
    a.CloseJoin? || a.ContextReturn?
  }

  lemma OnlyTransactionsMoveDurable(s: Sys, a: Action)
    requires Enabled(s, a) && !Transacts(a)
    ensures Do(s, a).durable == s.durable
  {
  }

  lemma LatchMovesDurable(s: Sys, commit: Commit)
    requires Consistent(s.durable)
    ensures Forward(s.durable, LatchedDurable(s, commit))
  {
    if s.m.hard.Some? {
      LatchMovesForward(s.durable, s.m.hard.value);
    }
  }

  lemma SubmitMovesDurable(s: Sys, t: nat, c: Candidate, now: int, commit: Commit)
    requires Consistent(s.durable) && t < |s.pcs| && ValidKeyset(c.keyset)
    ensures Forward(s.durable, DoSubmit(s, t, c, now, commit).durable)
  {
    AcceptMovesForward(s.durable, c);
  }

  lemma LatchStepsMoveDurable(s: Sys, a: Action)
    requires Enabled(s, a) && (a.Latch? || a.CloseFinish? || a.WorkerLatch?)
    ensures Do(s, a).durable == s.durable || Do(s, a).durable == LatchedDurable(s, a.commit)
  {
  }

  /** The durable part of any step moves forward. */
  lemma StepMovesForward(s: Sys, a: Action)
    requires Consistent(s.durable) && Enabled(s, a)
    ensures Forward(s.durable, Do(s, a).durable)
  {
    if a.Submit? {
      SubmitMovesDurable(s, a.t, a.c, a.now, a.commit);
    } else if a.Latch? || a.CloseFinish? || a.WorkerLatch? {
      LatchStepsMoveDurable(s, a);
      LatchMovesDurable(s, a.commit);
    } else if !a.Other? {
      OnlyTransactionsMoveDurable(s, a);
    }
  }

  lemma {:induction false} RunMovesDurable(states: seq<Sys>, actions: seq<Action>, i: nat, j: nat)
    requires Run(states, actions) && i <= j < |states|
    ensures Forward(states[i].durable, states[j].durable)
    decreases j
  {
    if i < j {
      RunMovesDurable(states, actions, i, j - 1);
      RunKeepsInv(states, actions, j - 1);
      assert Follows(states[j - 1], actions[j - 1], states[j]);
      StepMovesForward(states[j - 1], actions[j - 1]);
      ForwardTransitive(states[i].durable, states[j - 1].durable, states[j].durable);
    }
  }

  lemma TransactionUnderLease(s: Sys, a: Action, t: nat)
    requires Exclusive(s) && Enabled(s, a) && Transacts(a) && t < |s.pcs| && s.pcs[t].Leased?
    ensures Do(s, a).m == s.m
  {
    assert HoldsTrust(s.pcs[t]);
  }

  /** While a lease is open no step of anyone changes the local state: no swap, no hard flag, no close. */
  lemma LeaseFreezes(s: Sys, a: Action, t: nat)
    requires Exclusive(s) && Enabled(s, a) && t < |s.pcs| && s.pcs[t].Leased?
    ensures Do(s, a).m == s.m
  {
    assert HoldsTrust(s.pcs[t]);
    if Transacts(a) {
      TransactionUnderLease(s, a, t);
    }
  }

  /** From the grant of a lease to its end the local state of the run stands still. */
  lemma {:induction false} LeaseFreezesRun(states: seq<Sys>, actions: seq<Action>, i: nat, j: nat, t: nat)
    requires Run(states, actions) && i <= j < |states|
    requires forall k :: i <= k < j ==> t < |states[k].pcs| && states[k].pcs[t].Leased?
    ensures states[j].m == states[i].m
    decreases j
  {
    if i < j {
      LeaseFreezesRun(states, actions, i, j - 1, t);
      RunKeepsInv(states, actions, j - 1);
      assert Follows(states[j - 1], actions[j - 1], states[j]);
      LeaseFreezes(states[j - 1], actions[j - 1], t);
    }
  }

  lemma TransactionKeepsHard(s: Sys, a: Action)
    requires Enabled(s, a) && s.m.hard.Some? && Transacts(a)
    ensures Do(s, a).m.hard == s.m.hard
  {
  }

  /** Hard uncertainty never clears in process, and its first reason stays. */
  lemma HardIsSticky(s: Sys, a: Action)
    requires Enabled(s, a) && s.m.hard.Some?
    ensures Do(s, a).m.hard == s.m.hard
  {
    if Transacts(a) {
      TransactionKeepsHard(s, a);
    }
  }

  lemma {:induction false} RunKeepsHard(states: seq<Sys>, actions: seq<Action>, i: nat, j: nat)
    requires Run(states, actions) && i <= j < |states| && states[i].m.hard.Some?
    ensures states[j].m.hard == states[i].m.hard
    decreases j
  {
    if i < j {
      RunKeepsHard(states, actions, i, j - 1);
      assert Follows(states[j - 1], actions[j - 1], states[j]);
      HardIsSticky(states[j - 1], actions[j - 1]);
    }
  }

  /** Once the row has turned uncertain, every later read that the store answers closes this replica too. */
  lemma UncertainRowShutsReaders(states: seq<Sys>, actions: seq<Action>, i: nat, j: nat, t: nat)
    requires Run(states, actions) && i <= j < |states|
    requires states[i].durable.row.Some? && states[i].durable.row.value.Uncertain()
    requires Enabled(states[j], Read(t))
    ensures var n := Do(states[j], Read(t));
            n.pcs[t].Idle? && n.m.hard.Some? && n.m.durable && n.served == states[j].served
  {
    RunMovesDurable(states, actions, i, j);
  }

  /** Everything ever handed out matched the row read for it, in time. */
  lemma ServedMatchesDurable(states: seq<Sys>, actions: seq<Action>, i: nat, k: nat)
    requires Run(states, actions) && i < |states| && k < |states[i].served|
    ensures ServedOk(states[i].served[k])
  {
    RunKeepsInv(states, actions, i);
  }

  /** The thread is where it was, unless it is neither about to hand out a keyset nor holds a lease. */
  predicate SameWhileServing(s: Sys, n: Sys, t: nat) {
    |n.pcs| == |s.pcs| && t < |s.pcs| && (n.pcs[t].Confirming? || n.pcs[t].Leased? ==> n.pcs[t] == s.pcs[t])
  }

  lemma ThreadStepServesNothing(s: Sys, a: Action, t: nat)
    requires Enabled(s, a) && t < |s.pcs| && ThreadOnly(a)
    ensures SameWhileServing(s, Do(s, a), t)
  {
    assert Do(s, a) == DoThread(s, a);
  }

  lemma TransactionServesNothing(s: Sys, a: Action, t: nat)
    requires Enabled(s, a) && t < |s.pcs| && Transacts(a)
    ensures SameWhileServing(s, Do(s, a), t)
  {
  }

  lemma OtherStepServesNothing(s: Sys, a: Action, t: nat)
    requires Enabled(s, a) && t < |s.pcs| && !Transacts(a) && !ThreadOnly(a) && !a.Read? && !a.Confirm?
    ensures SameWhileServing(s, Do(s, a), t)
  {
  }

  lemma StepServesNothing(s: Sys, a: Action, t: nat)
    requires Enabled(s, a) && t < |s.pcs| && !a.Read? && !a.Confirm?
    ensures SameWhileServing(s, Do(s, a), t)
  {
    if Transacts(a) {
      TransactionServesNothing(s, a, t);
    } else if ThreadOnly(a) {
      ThreadStepServesNothing(s, a, t);
    } else {
      OtherStepServesNothing(s, a, t);
    }
  }

  /** A call is ready to hand out only after its own read, of the row that is durable at that step. */
  lemma PreparedReadsComeFromRow(s: Sys, a: Action, t: nat)
    requires Enabled(s, a) && t < |s.pcs|
    ensures |Do(s, a).pcs| == |s.pcs|
    ensures Do(s, a).pcs[t].Confirming? ==>
              || Do(s, a).pcs[t] == s.pcs[t]
              || (a == Read(t) && s.durable.row == Some(Do(s, a).pcs[t].read) && !Do(s, a).pcs[t].read.Uncertain())
  {
    if !a.Read? && !a.Confirm? {
      StepServesNothing(s, a, t);
    }
  }

  lemma OnlyConfirmServes(s: Sys, a: Action)
    requires Enabled(s, a) && !a.Confirm?
    ensures Do(s, a).served == s.served
  {
  }

  /** A step hands out at most one keyset, the one its thread prepared. */
  lemma ServedWasPrepared(s: Sys, a: Action)
    requires Enabled(s, a)
    ensures var n := Do(s, a);
            || n.served == s.served
            || (&& a.Confirm? && s.pcs[a.t].Confirming?
                && exists v: Served :: n.served == s.served + [v] && v.read == s.pcs[a.t].read)
  {
    if !a.Confirm? {
      OnlyConfirmServes(s, a);
    }
  }

  /** The thread read this row, certain and durable at that step, and has been about to hand it out ever since. */
  ghost predicate ReadAt(states: seq<Sys>, actions: seq<Action>, i: nat, j: nat, t: nat, read: Row) {
    && i < j < |states| && i < |actions| && actions[i] == Read(t)
    && states[i].durable.row == Some(read) && !read.Uncertain()
    && forall k :: i < k <= j ==> t < |states[k].pcs| && states[k].pcs[t].Confirming? && states[k].pcs[t].read == read
  }

  lemma {:induction false} PreparedWasRead(states: seq<Sys>, actions: seq<Action>, j: nat, t: nat) returns (i: nat)
    requires Run(states, actions) && j < |states| && t < |states[j].pcs| && states[j].pcs[t].Confirming?
    ensures ReadAt(states, actions, i, j, t, states[j].pcs[t].read)
  {
    assert Follows(states[j - 1], actions[j - 1], states[j]);
    SameThreads(states[j - 1], actions[j - 1]);
    PreparedReadsComeFromRow(states[j - 1], actions[j - 1], t);
    if states[j].pcs[t] == states[j - 1].pcs[t] {
      i := PreparedWasRead(states, actions, j - 1, t);
    } else {
      i := j - 1;
    }
  }

  lemma SameThreads(s: Sys, a: Action)
    requires Enabled(s, a)
    ensures |Do(s, a).pcs| == |s.pcs|
  {
    if |s.pcs| > 0 {
      PreparedReadsComeFromRow(s, a, 0);
    }
  }

  /**
    Every step that hands out a keyset in a run ends a call that read, after it began, a row that was durable at that
    very step and not uncertain; what is handed out carries that row.
  */
  lemma ServedWasReadInCall(states: seq<Sys>, actions: seq<Action>, j: nat) returns (i: nat, t: nat)
    requires Run(states, actions) && j < |actions| && states[j + 1].served != states[j].served
    ensures actions[j] == Confirm(t) && t < |states[j].pcs| && states[j].pcs[t].Confirming?
    ensures ReadAt(states, actions, i, j, t, states[j].pcs[t].read)
    ensures |states[j + 1].served| == |states[j].served| + 1
    ensures states[j + 1].served[|states[j].served|].read == states[j].pcs[t].read
  {
    assert Follows(states[j], actions[j], states[j + 1]);
    ServedWasPrepared(states[j], actions[j]);
    t := actions[j].t;
    i := PreparedWasRead(states, actions, j, t);
  }

  /** Hence a call that begins after the row has turned uncertain hands out nothing, however it is interleaved. */
  lemma NothingServedOnceUncertain(states: seq<Sys>, actions: seq<Action>, u: nat, k: nat, j: nat, t: nat)
    requires Run(states, actions) && u <= k <= j < |actions| && actions[j] == Confirm(t)
    requires states[u].durable.row.Some? && states[u].durable.row.value.Uncertain()
    requires t < |states[k].pcs| && states[k].pcs[t].Idle?
    ensures states[j + 1].served == states[j].served
  {
    if states[j + 1].served != states[j].served {
      var i, server := ServedWasReadInCall(states, actions, j);
      assert k <= i;
      RunMovesDurable(states, actions, u, i);
    }
  }

  // ----- What a lease hands out

  /** A thread gets a lease only where it confirms what it has read. */
  lemma GrantIsConfirm(s: Sys, a: Action, t: nat)
    requires Enabled(s, a) && t < |s.pcs|
    ensures |Do(s, a).pcs| == |s.pcs|
    ensures Do(s, a).pcs[t].Leased? && Do(s, a).pcs[t] != s.pcs[t] ==>
              a == Confirm(t) && s.pcs[t].Confirming? && s.pcs[t].read == Do(s, a).pcs[t].read
  {
    if !a.Read? && !a.Confirm? {
      StepServesNothing(s, a, t);
    }
  }

  /** The thread was granted this lease at step `g` and has held it ever since. */
  ghost predicate GrantedAt(states: seq<Sys>, actions: seq<Action>, g: nat, j: nat, t: nat) {
    && g < j < |states| && g < |actions| && actions[g] == Confirm(t)
    && t < |states[j].pcs| && states[j].pcs[t].Leased?
    && forall k :: g < k <= j ==> t < |states[k].pcs| && states[k].pcs[t] == states[j].pcs[t]
  }

  lemma {:induction false} LeaseWasGranted(states: seq<Sys>, actions: seq<Action>, j: nat, t: nat) returns (g: nat)
    requires Run(states, actions) && j < |states| && t < |states[j].pcs| && states[j].pcs[t].Leased?
    ensures GrantedAt(states, actions, g, j, t)
    ensures t < |states[g].pcs| && states[g].pcs[t].Confirming? && states[g].pcs[t].read == states[j].pcs[t].read
  {
    assert Follows(states[j - 1], actions[j - 1], states[j]);
    SameThreads(states[j - 1], actions[j - 1]);
    GrantIsConfirm(states[j - 1], actions[j - 1], t);
    if states[j].pcs[t] == states[j - 1].pcs[t] {
      g := LeaseWasGranted(states, actions, j - 1, t);
    } else {
      g := j - 1;
    }
  }

  /** The manager is open and certain, holds exactly this row's keyset, and the reading is in time for it. */
  predicate CurrentAt(m: Local, read: Row, live: int) {
    && !m.closed && m.hard.None? && m.snapshot.Some? && RowOf(m.snapshot.value.candidate) == read
    && live < read.expiresAt && live < m.snapshot.value.nextRefresh
  }

  lemma UsableIsCurrent(s: Sys, t: nat, live: int)
    requires Inv(s) && Enabled(s, UseLease(t, live))
    ensures s.pcs[t].evaluation <= live && CurrentAt(s.m, s.pcs[t].read, live)
  {
    assert PcOk(s, s.pcs[t]);
  }

  /**
    Whatever is handed out under a lease is handed out at a reading between the lease's evaluation time and the
    earlier of expiry and next refresh, by a manager that is still open and certain and still holds the very keyset
    whose row the granting call read from the store.
  */
  lemma LeasedUseIsCurrent(states: seq<Sys>, actions: seq<Action>, j: nat, t: nat, live: int) returns (i: nat, g: nat)
    requires Run(states, actions) && j < |actions| && actions[j] == UseLease(t, live)
    ensures i < g < j && GrantedAt(states, actions, g, j, t)
    ensures ReadAt(states, actions, i, g, t, states[j].pcs[t].read)
    ensures states[j].pcs[t].evaluation <= live && CurrentAt(states[j].m, states[j].pcs[t].read, live)
  {
    assert Follows(states[j], actions[j], states[j + 1]);
    RunKeepsInv(states, actions, j);
    UsableIsCurrent(states[j], t, live);
    g := LeaseWasGranted(states, actions, j, t);
    i := PreparedWasRead(states, actions, g, t);
  }

  /**
    In every run a nil return of `Close` or `CloseContext` finds the secrets erased and any hard uncertainty durable,
    and one of `CloseContext` or of the `Close` that did the closing finds the worker stopped.
  */
  lemma CloseReturnsSafely(states: seq<Sys>, actions: seq<Action>, i: nat, k: nat)
    requires Run(states, actions) && i < |states| && k < |states[i].closes|
    ensures CloseOk(states[i].closes[k])
  {
    RunKeepsInv(states, actions, i);
  }
}
