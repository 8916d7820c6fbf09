/**
  One-use token identifiers: consumers insert a receipt per identifier while a purge deletes receipts whose retention
  has ended. The steps of any number of both interleave freely, each statement of a transaction being one step.

  An insert waits while another transaction has the same identifier inserted or deleted and has not finished.
*/
module Receipts {
  import opened Common

  datatype Id = Id(environment: nat, jti: string)

  /** A consumer, by the statement it has completed: what it holds is its uncommitted receipt. */
  datatype Pc =
    | Idle
    | Sampled(id: Id, retainUntil: int)
    | Inserted(id: Id, retainUntil: int)
    | Checked(id: Id, retainUntil: int, sample: int)
    | Conflicted(id: Id)

  /** How a commit ends: a commit whose outcome is lost may or may not have taken effect. */
  datatype Commit = Committed | Failed | Ambiguous(persisted: bool)

  /** A receipt that became durable, and whether its consumer was told of success. */
  datatype Entry = Entry(id: Id, retainUntil: int, granted: bool)

  datatype Sys = Sys(
    clock: int,
    table: map<Id, int>,
    consumers: seq<Pc>,
    purges: seq<set<Id>>,
    log: seq<Entry>)

  datatype Action =
    | Advance(to: int)
    | Sample(t: nat, id: Id, retainUntil: int, now: int)
    | Insert(t: nat)
    | Check(t: nat)
    | Finish(t: nat, commit: Commit)
    | Abort(t: nat)
    | Mark(p: nat, id: Id)
    | EndPurge(p: nat, commit: Commit)

  predicate Holds(pc: Pc, id: Id) {
    (pc.Inserted? || pc.Checked?) && pc.id == id
  }

  predicate Held(s: Sys, id: Id) {
    exists t :: 0 <= t < |s.consumers| && Holds(s.consumers[t], id)
  }

  predicate Doomed(s: Sys, id: Id) {
    exists p :: 0 <= p < |s.purges| && id in s.purges[p]
  }

  predicate Persists(commit: Commit) {
    commit.Committed? || (commit.Ambiguous? && commit.persisted)
  }

  predicate Enabled(s: Sys, a: Action) {
    match a
    case Advance(to) => to >= s.clock
    case Sample(t, id, retainUntil, now) => t < |s.consumers| && s.consumers[t].Idle? && now <= retainUntil
    case Insert(t) =>
      t < |s.consumers| && s.consumers[t].Sampled? && !Held(s, s.consumers[t].id) && !Doomed(s, s.consumers[t].id)
    case Check(t) => t < |s.consumers| && s.consumers[t].Inserted?
    case Finish(t, commit) => t < |s.consumers| && (s.consumers[t].Checked? || s.consumers[t].Conflicted?)
    case Abort(t) => t < |s.consumers|
    case Mark(p, id) => p < |s.purges| && id in s.table && s.table[id] < s.clock && !Doomed(s, id)
    case EndPurge(p, commit) => p < |s.purges|
  }

  function Go(s: Sys, t: nat, pc: Pc): Sys
    requires t < |s.consumers|
  {
    s.(consumers := s.consumers[t := pc])
  }

  function Do(s: Sys, a: Action): Sys
    requires Enabled(s, a)
  {
    match a
    case Advance(to) => s.(clock := to)
    case Sample(t, id, retainUntil, now) => if s.clock > retainUntil then s else Go(s, t, Sampled(id, retainUntil))
    case Insert(t) =>
      var pc := s.consumers[t];
      Go(s, t, if pc.id in s.table then Conflicted(pc.id) else Inserted(pc.id, pc.retainUntil))
    case Check(t) =>
      var pc := s.consumers[t];
      Go(s, t, if s.clock > pc.retainUntil then Idle else Checked(pc.id, pc.retainUntil, s.clock))
    case Finish(t, commit) => DoFinish(s, t, commit)
    case Abort(t) => Go(s, t, Idle)
    case Mark(p, id) => s.(purges := s.purges[p := s.purges[p] + {id}])
    case EndPurge(p, commit) =>
      s.(table := if Persists(commit) then s.table - s.purges[p] else s.table, purges := s.purges[p := {}])
  }

  function DoFinish(s: Sys, t: nat, commit: Commit): Sys
    requires t < |s.consumers|
  {
    var pc := s.consumers[t];
    if pc.Checked? && Persists(commit) then
      Go(s, t, Idle).(table := s.table[pc.id := pc.retainUntil],
                      log := s.log + [Entry(pc.id, pc.retainUntil, commit.Committed?)])
    else Go(s, t, Idle)
  }

  predicate Init(s: Sys) {
    && s.table == map[] && s.log == []
    && (forall t :: 0 <= t < |s.consumers| ==> s.consumers[t].Idle?)
    && (forall p :: 0 <= p < |s.purges| ==> s.purges[p] == {})
  }

  // ----- The invariant

  /** A durable receipt is in the table until the clock has passed its retention. */
  predicate Retained(s: Sys, e: Entry) {
    (e.id in s.table && s.table[e.id] == e.retainUntil) || e.retainUntil < s.clock
  }

  /** What a consumer holds has no durable receipt, and one that passed the second check outlives every earlier one. */
  predicate PcOk(s: Sys, pc: Pc) {
    && (pc.Inserted? || pc.Checked? ==> pc.id !in s.table)
    && (pc.Checked? ==> pc.sample <= pc.retainUntil && Outlives(s.log, pc.id, pc.sample))
  }

  predicate Outlives(log: seq<Entry>, id: Id, bound: int) {
    forall i :: 0 <= i < |log| && log[i].id == id ==> log[i].retainUntil < bound
  }

  /** For each identifier, retention strictly grows along the log. */
  predicate Ascends(log: seq<Entry>) {
    forall i, j :: 0 <= i < j < |log| && log[i].id == log[j].id ==> log[i].retainUntil < log[j].retainUntil
  }

  predicate MarksOk(s: Sys, marked: set<Id>) {
    forall id :: id in marked ==> id in s.table && s.table[id] < s.clock
  }

  ghost predicate Inv(s: Sys) {
    && Ascends(s.log)
    && (forall i :: 0 <= i < |s.log| ==> Retained(s, s.log[i]))
    && (forall t :: 0 <= t < |s.consumers| ==> PcOk(s, s.consumers[t]))
    && (forall t, u, id :: 0 <= t < u < |s.consumers| && Holds(s.consumers[t], id) ==> !Holds(s.consumers[u], id))
    && (forall p :: 0 <= p < |s.purges| ==> MarksOk(s, s.purges[p]))
    && (forall p, q, id :: 0 <= p < q < |s.purges| && id in s.purges[p] ==> id !in s.purges[q])
  }

  lemma InitInv(s: Sys)
    requires Init(s)
    ensures Inv(s)
  {
  }

  lemma AdvanceKeepsInv(s: Sys, a: Action)
    requires Inv(s) && Enabled(s, a) && a.Advance?
    ensures Inv(Do(s, a))
  {
    var n := Do(s, a);
    forall t | 0 <= t < |n.consumers|
      ensures PcOk(n, n.consumers[t])
    {
      assert PcOk(s, s.consumers[t]);
    }
    forall p | 0 <= p < |n.purges|
      ensures MarksOk(n, n.purges[p])
    {
      assert MarksOk(s, s.purges[p]);
    }
  }

  /** A consumer moves on, holding nothing new. */
  lemma GoKeepsInv(s: Sys, t: nat, pc: Pc)
    requires Inv(s) && t < |s.consumers| && PcOk(s, pc)
    requires forall id :: Holds(pc, id) ==> Holds(s.consumers[t], id) || !Held(s, id)
    ensures Inv(Go(s, t, pc))
  {
    var n := Go(s, t, pc);
    forall u | 0 <= u < |n.consumers|
      ensures PcOk(n, n.consumers[u])
    {
      assert PcOk(s, n.consumers[u]);
    }
    forall p | 0 <= p < |n.purges|
      ensures MarksOk(n, n.purges[p])
    {
      assert MarksOk(s, s.purges[p]);
    }
    forall i | 0 <= i < |n.log|
      ensures Retained(n, n.log[i])
    {
      assert Retained(s, s.log[i]);
    }
  }

  lemma CheckOutlives(s: Sys, id: Id)
    requires Inv(s) && id !in s.table
    ensures Outlives(s.log, id, s.clock)
  {
    forall i | 0 <= i < |s.log| && s.log[i].id == id
      ensures s.log[i].retainUntil < s.clock
    {
      assert Retained(s, s.log[i]);
    }
  }

  lemma ConsumerStepsKeepInv(s: Sys, a: Action)
    requires Inv(s) && Enabled(s, a) && (a.Sample? || a.Insert? || a.Check? || a.Abort?)
    ensures Inv(Do(s, a))
  {
    var n := Do(s, a);
    if n != s {
      assert PcOk(s, s.consumers[a.t]);
      if a.Check? {
        CheckOutlives(s, s.consumers[a.t].id);
      }
      GoKeepsInv(s, a.t, n.consumers[a.t]);
    }
  }

  lemma FinishKeepsInv(s: Sys, t: nat, commit: Commit)
    requires Inv(s) && t < |s.consumers| && s.consumers[t].Checked? && Persists(commit)
    ensures Inv(DoFinish(s, t, commit))
  {
    var pc := s.consumers[t];
    var n := DoFinish(s, t, commit);
    assert PcOk(s, pc) && Holds(pc, pc.id);
    forall u | 0 <= u < |n.consumers|
      ensures PcOk(n, n.consumers[u])
    {
      OtherPcStaysOk(s, t, u, n);
    }
    forall i | 0 <= i < |n.log|
      ensures Retained(n, n.log[i])
    {
      if i < |s.log| {
        assert Retained(s, s.log[i]);
      }
    }
    forall p | 0 <= p < |n.purges|
      ensures MarksOk(n, n.purges[p])
    {
      assert MarksOk(s, s.purges[p]);
    }
  }

  /** Another consumer holds another identifier, so a new receipt does not concern it. */
  lemma OtherPcStaysOk(s: Sys, t: nat, u: nat, n: Sys)
    requires Inv(s) && t < |s.consumers| && u < |s.consumers| && s.consumers[t].Checked?
    requires var pc := s.consumers[t];
             && n.consumers == s.consumers[t := Idle] && n.table == s.table[pc.id := pc.retainUntil]
             && |n.log| == |s.log| + 1 && n.log[..|s.log|] == s.log && n.log[|s.log|].id == pc.id
    ensures PcOk(n, n.consumers[u])
  {
    var pc := s.consumers[t];
    if u != t {
      var other := s.consumers[u];
      assert PcOk(s, other) && Holds(pc, pc.id);
      if other.Inserted? || other.Checked? {
        assert Holds(other, other.id);
        assert other.id != pc.id;
      }
      if other.Checked? {
        forall i | 0 <= i < |n.log| && n.log[i].id == other.id
          ensures n.log[i].retainUntil < other.sample
        {
          assert n.log[i] == s.log[i];
        }
      }
    }
  }

  lemma MarkKeepsInv(s: Sys, a: Action)
    requires Inv(s) && Enabled(s, a) && a.Mark?
    ensures Inv(Do(s, a))
  {
    var n := Do(s, a);
    forall t | 0 <= t < |n.consumers|
      ensures PcOk(n, n.consumers[t])
    {
      assert PcOk(s, s.consumers[t]);
    }
    forall p | 0 <= p < |n.purges|
      ensures MarksOk(n, n.purges[p])
    {
      assert MarksOk(s, s.purges[p]);
    }
    forall i | 0 <= i < |n.log|
      ensures Retained(n, n.log[i])
    {
      assert Retained(s, s.log[i]);
    }
  }

  /** A purge removes only receipts that were past their retention when it marked them. */
  lemma EndPurgeKeepsInv(s: Sys, a: Action)
    requires Inv(s) && Enabled(s, a) && a.EndPurge?
    ensures Inv(Do(s, a))
  {
    var n := Do(s, a);
    assert MarksOk(s, s.purges[a.p]);
    forall t | 0 <= t < |n.consumers|
      ensures PcOk(n, n.consumers[t])
    {
      assert PcOk(s, s.consumers[t]);
    }
    forall p | 0 <= p < |n.purges|
      ensures MarksOk(n, n.purges[p])
    {
      assert MarksOk(s, s.purges[p]);
    }
    forall i | 0 <= i < |n.log|
      ensures Retained(n, n.log[i])
    {
      assert Retained(s, s.log[i]);
    }
  }

  lemma StepKeepsInv(s: Sys, a: Action)
    requires Inv(s) && Enabled(s, a)
    ensures Inv(Do(s, a))
  {
    match a
    case Advance(_) => AdvanceKeepsInv(s, a);
    case Finish(t, commit) =>
      if s.consumers[t].Checked? && Persists(commit) {
        FinishKeepsInv(s, t, commit);
      } else {
        GoKeepsInv(s, t, Idle);
      }
    case Mark(_, _) => MarkKeepsInv(s, a);
    case EndPurge(_, _) => EndPurgeKeepsInv(s, a);
    case _ => ConsumerStepsKeepInv(s, a);
  }

  // ----- Whole runs

  ghost predicate Run(states: seq<Sys>, actions: seq<Action>) {
    && |states| == |actions| + 1 && Init(states[0])
    && forall i, j {:trigger Follows(states[i], actions[i], states[j])} ::
         0 <= i < |actions| && j == i + 1 ==> Follows(states[i], actions[i], states[j])
  }

  predicate Follows(s: Sys, a: Action, n: Sys) {
    Enabled(s, a) && n == Do(s, a)
  }

  lemma {:induction false} RunKeepsInv(states: seq<Sys>, actions: seq<Action>, i: nat)
    requires Run(states, actions) && i < |states|
    ensures Inv(states[i])
  {
    if i == 0 {
      InitInv(states[0]);
    } else {
      RunKeepsInv(states, actions, i - 1);
      assert Follows(states[i - 1], actions[i - 1], states[i]);
      StepKeepsInv(states[i - 1], actions[i - 1]);
    }
  }

  /**
    In every interleaving each identifier is consumed at most once per retention, and a later consumption of the same
    identifier was asked to be retained strictly longer.
  */
  lemma ConsumedAtMostOnce(states: seq<Sys>, actions: seq<Action>, n: nat, i: nat, j: nat)
    requires Run(states, actions) && n < |states| && i < j < |states[n].log|
    requires states[n].log[i].id == states[n].log[j].id
    ensures states[n].log[i].retainUntil < states[n].log[j].retainUntil
  {
    RunKeepsInv(states, actions, n);
  }

  /** A receipt stays in force through its whole retention: until then every further attempt conflicts. */
  lemma ReplayConflicts(states: seq<Sys>, actions: seq<Action>, n: nat, i: nat, t: nat)
    requires Run(states, actions) && n < |states| && i < |states[n].log|
    requires states[n].clock <= states[n].log[i].retainUntil
    requires Enabled(states[n], Insert(t)) && states[n].consumers[t].id == states[n].log[i].id
    ensures Do(states[n], Insert(t)).consumers[t].Conflicted?
  {
    RunKeepsInv(states, actions, n);
    assert Retained(states[n], states[n].log[i]);
  }

  /** Success is reported only by a commit that wrote the receipt; a conflict never writes one. */
  lemma OnlyCheckedGrants(s: Sys, a: Action)
    requires Enabled(s, a)
    ensures Do(s, a).log == s.log ||
            (a.Finish? && s.consumers[a.t].Checked? &&
             var pc := s.consumers[a.t];
             Do(s, a).log == s.log + [Entry(pc.id, pc.retainUntil, a.commit.Committed?)])
  {
  }
}
