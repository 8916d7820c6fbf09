/**
  The topic keys a bridge holds, and their erasure under two clocks: the wall clock, which may freeze or run backward,
  and the steady clock, which never does. Every operation first erases what is due.
*/
module TopicKeys {
  import opened Common
  import opened Epochs

  datatype Key = Key(bytes: seq<byte>)
  datatype Binding = Binding(bytes: seq<byte>)

  datatype Descriptor = Descriptor(keyId: string, epoch: nat, notBefore: int, notAfter: int)

  /** A key with its two deadlines, unset until retirement is first scheduled. */
  datatype Record = Record(descriptor: Descriptor, key: Key, retireAt: Option<int>, hardRetireAt: Option<int>) {
    function Epoch(): nat {
      descriptor.epoch
    }

    /** The last epoch of the 32-bit range has no successor and never retires. */
    predicate Retires() {
      descriptor.epoch != MAX_EPOCH
    }
  }

  const MAX_DURATION: int := TWO_TO_THE_63 - 1
  const MIN_DURATION: int := -MAX_DURATION - 1
  const MAX_RECHECK := SECOND

  /** The saturating difference of two instants. */
  function Sub(a: int, b: int): int {
    var d := a - b;
    if d > MAX_DURATION then MAX_DURATION else if d < MIN_DURATION then MIN_DURATION else d
  }

  // ----- Deadlines

  function HardDeadline(retireAt: int, now: int, steady: int): int {
    var delay := Sub(retireAt, now);
    steady + if delay < 0 then 0 else delay
  }

  function Settle(r: Record, now: int, steady: int): Record {
    if !r.Retires() then r
    else
      var at := if r.retireAt.None? then Deadline(r.Epoch()) else r.retireAt.value;
      r.(retireAt := Some(at),
         hardRetireAt := if r.hardRetireAt.None? then Some(HardDeadline(at, now, steady)) else r.hardRetireAt)
  }

  function SettleAll(records: seq<Record>, now: int, steady: int): seq<Record> {
    seq(|records|, i requires 0 <= i < |records| => Settle(records[i], now, steady))
  }

  predicate Settled(r: Record) {
    r.Retires() ==> r.retireAt == Some(Deadline(r.Epoch())) && r.hardRetireAt.Some?
  }

  predicate SameOrder(a: Record, b: Record)
    requires Settled(a) && Settled(b)
  {
    a.Retires() && b.Retires() && a.retireAt.value <= b.retireAt.value ==> a.hardRetireAt.value <= b.hardRetireAt.value
  }

  /** A configuration holds one key per epoch. */
  predicate Distinct(records: seq<Record>) {
    forall i, j :: 0 <= i < j < |records| ==> records[i].Epoch() != records[j].Epoch()
  }

  /** Deadlines are set, in the same order on both clocks. */
  predicate Ready(records: seq<Record>) {
    && Distinct(records)
    && (forall r {:trigger Settled(r)} :: r in records ==> Settled(r))
    && (forall r, t {:trigger SameOrder(r, t)} :: r in records && t in records ==> SameOrder(r, t))
  }

  predicate Fresh(records: seq<Record>) {
    Distinct(records) && forall i :: 0 <= i < |records| ==> records[i].retireAt.None? && records[i].hardRetireAt.None?
  }

  lemma SettlingMakesReady(records: seq<Record>, now: int, steady: int)
    requires Fresh(records)
    ensures Ready(SettleAll(records, now, steady))
  {
  }

  /** Deadlines never move once set. */
  lemma SettlingMovesNothing(records: seq<Record>, now: int, steady: int)
    requires Ready(records)
    ensures SettleAll(records, now, steady) == records
  {
    forall i | 0 <= i < |records|
      ensures Settle(records[i], now, steady) == records[i]
    {
      assert Settled(records[i]);
    }
  }

  // ----- Erasure

  predicate Due(r: Record, now: int, steady: int) {
    && r.Retires() && r.retireAt.Some? && r.hardRetireAt.Some?
    && (now >= r.retireAt.value || steady >= r.hardRetireAt.value)
  }

  predicate AnyDue(records: seq<Record>, now: int, steady: int) {
    exists i :: 0 <= i < |records| && Due(records[i], now, steady)
  }

  function Kept(records: seq<Record>, now: int, steady: int): seq<Record> {
    if records == [] then []
    else
      var last := |records| - 1;
      Kept(records[..last], now, steady) + if Due(records[last], now, steady) then [] else [records[last]]
  }

  lemma {:induction false} KeptExactly(records: seq<Record>, now: int, steady: int, r: Record)
    ensures r in Kept(records, now, steady) <==> r in records && !Due(r, now, steady)
  {
    if records != [] {
      var last := |records| - 1;
      KeptExactly(records[..last], now, steady, r);
      assert records == records[..last] + [records[last]];
    }
  }

  lemma {:induction false} KeptAppend(a: seq<Record>, b: seq<Record>, now: int, steady: int)
    ensures Kept(a + b, now, steady) == Kept(a, now, steady) + Kept(b, now, steady)
  {
    if b == [] {
      assert a + b == a;
    } else {
      var last := |b| - 1;
      KeptAppend(a, b[..last], now, steady);
      assert (a + b)[..|a| + last] == a + b[..last];
    }
  }

  lemma {:induction false} KeptWithNoneDue(records: seq<Record>, now: int, steady: int)
    requires !AnyDue(records, now, steady)
    ensures Kept(records, now, steady) == records
  {
    if records != [] {
      var last := |records| - 1;
      KeptWithNoneDue(records[..last], now, steady);
      assert !Due(records[last], now, steady);
    }
  }

  lemma {:induction false} KeptShrinks(records: seq<Record>, now: int, steady: int)
    ensures |Kept(records, now, steady)| <= |records|
    ensures AnyDue(records, now, steady) ==> |Kept(records, now, steady)| < |records|
  {
    if records != [] {
      KeptShrinks(records[..|records| - 1], now, steady);
      if AnyDue(records, now, steady) {
        var i :| 0 <= i < |records| && Due(records[i], now, steady);
        if i < |records| - 1 {
          assert Due(records[..|records| - 1][i], now, steady);
        }
      }
    }
  }

  /** A later reading of the steady clock erases whatever an earlier one would have. */
  lemma {:induction false} KeptTwice(records: seq<Record>, now: int, first: int, last: int)
    requires first <= last
    ensures Kept(Kept(records, now, first), now, last) == Kept(records, now, last)
  {
    if records != [] {
      var end := |records| - 1;
      KeptTwice(records[..end], now, first, last);
      var tail := if Due(records[end], now, first) then [] else [records[end]];
      KeptAppend(Kept(records[..end], now, first), tail, now, last);
    }
  }

  lemma {:induction false} KeptStaysDistinct(records: seq<Record>, now: int, steady: int)
    requires Distinct(records)
    ensures Distinct(Kept(records, now, steady))
  {
    if records != [] {
      var last := |records| - 1;
      KeptStaysDistinct(records[..last], now, steady);
      forall r | r in Kept(records[..last], now, steady)
        ensures r.Epoch() != records[last].Epoch()
      {
        KeptExactly(records[..last], now, steady, r);
      }
    }
  }

  lemma {:induction false} KeptStaysReady(records: seq<Record>, now: int, steady: int)
    requires Ready(records)
    ensures Ready(Kept(records, now, steady))
  {
    var kept := Kept(records, now, steady);
    KeptStaysDistinct(records, now, steady);
    forall r | r in kept
      ensures r in records
    {
      KeptExactly(records, now, steady, r);
    }
    forall i, j | 0 <= i < |kept| && 0 <= j < |kept|
      ensures kept[i] in records && kept[j] in records
    {
    }
  }

  /** Among the retired, the descriptor of the newest epoch is remembered. */
  function Newer(retired: Option<Descriptor>, d: Descriptor): Option<Descriptor> {
    if retired.None? || d.epoch > retired.value.epoch then Some(d) else retired
  }

  /** The remembered descriptor is the old one or that of an erased key, and none of these is newer. */
  ghost predicate Remembers(before: Option<Descriptor>, after: Option<Descriptor>, records: seq<Record>, now: int,
                            steady: int)
  {
    && (after == before || exists r :: r in records && Due(r, now, steady) && Some(r.descriptor) == after)
    && (before.Some? ==> after.Some? && before.value.epoch <= after.value.epoch)
    && (forall r :: r in records && Due(r, now, steady) ==> after.Some? && r.Epoch() <= after.value.epoch)
  }

  lemma RemembersTwice(a: Option<Descriptor>, b: Option<Descriptor>, c: Option<Descriptor>,
                       records: seq<Record>, now: int, first: int, last: int)
    requires first <= last
    requires Remembers(a, b, records, now, first) && Remembers(b, c, Kept(records, now, first), now, last)
    ensures Remembers(a, c, records, now, last)
  {
    forall r
      ensures r in Kept(records, now, first) <==> r in records && !Due(r, now, first)
    {
      KeptExactly(records, now, first, r);
    }
  }

  lemma RemembersNone(a: Option<Descriptor>, records: seq<Record>, now: int, steady: int)
    requires !AnyDue(records, now, steady)
    ensures Remembers(a, a, records, now, steady)
  {
  }

  // ----- Lookup

  datatype Reason = KeyState | TopicKeyEpoch | TopicResolver
  datatype Verdict = Eligible | Invalid(reason: Reason) | Inconclusive(reason: Reason)
  datatype Bound = Bound(binding: Option<Binding>, verdict: Verdict)

  /** Go's zero instant, 1 January of year 1. */
  const ZERO_TIME := -62_135_596_800 * SECOND

  function LookupFrom(records: seq<Record>, i: nat, epoch: nat): Option<Record>
    requires i <= |records|
    decreases |records| - i
  {
    if i == |records| then None
    else if records[i].Epoch() == epoch then Some(records[i])
    else LookupFrom(records, i + 1, epoch)
  }

  function Lookup(records: seq<Record>, epoch: nat): Option<Record> {
    LookupFrom(records, 0, epoch)
  }

  predicate InWindow(d: Descriptor, at: int) {
    d.notBefore <= at < d.notAfter
  }

  type Commit = (Key, seq<byte>) -> Option<Binding>

  /** What verification of an assertion under an epoch yields. */
  function BindingIn(records: seq<Record>, bind: Commit, topic: seq<byte>, epoch: nat, now: int, expiry: int,
                     accepted: bool): Bound
  {
    match Lookup(records, epoch)
    case None => Bound(None, Invalid(TopicKeyEpoch))
    case Some(r) =>
      if !InWindow(r.descriptor, now) then Bound(None, Invalid(KeyState))
      else if epoch != Epochs.Epoch(now) && !PreviousUsable(epoch, now, expiry, accepted) then
        Bound(None, Invalid(TopicKeyEpoch))
      else
        match bind(r.key, topic)
        case None => Bound(None, Invalid(TopicResolver))
        case Some(b) => Bound(Some(b), Eligible)
  }

  lemma {:induction false} LookupFinds(records: seq<Record>, i: nat, epoch: nat)
    requires i <= |records|
    ensures match LookupFrom(records, i, epoch)
            case None => forall k :: i <= k < |records| ==> records[k].Epoch() != epoch
            case Some(r) => r in records && r.Epoch() == epoch
    decreases |records| - i
  {
    if i < |records| && records[i].Epoch() != epoch {
      LookupFinds(records, i + 1, epoch);
    }
  }

  /** A lookup commitment under the key of an epoch. */
  datatype Candidate = Candidate(epoch: nat, binding: Binding)
  datatype Candidates = Candidates(list: seq<Candidate>, verdict: Verdict)
  datatype Search = Absent | Failed(verdict: Verdict) | Found(candidate: Candidate)

  function CandidateFor(records: seq<Record>, bind: Commit, topic: seq<byte>, epoch: nat, at: int): Search {
    match Lookup(records, epoch)
    case None => Absent
    case Some(r) =>
      if !InWindow(r.descriptor, at) then Failed(Inconclusive(KeyState))
      else
        match bind(r.key, topic)
        case None => Failed(Invalid(TopicResolver))
        case Some(b) => Found(Candidate(epoch, b))
  }

  predicate InOverlap(at: int) {
    var current := Epochs.Epoch(at);
    current > 0 && at < Boundary(current) + OVERLAP
  }

  function Searched(at: int): seq<nat> {
    var current := Epochs.Epoch(at);
    if InOverlap(at) then [current, current - 1] else [current]
  }

  /** The candidates under the epochs in order; only the first must be held. */
  function CandidatesIn(records: seq<Record>, bind: Commit, topic: seq<byte>, at: int): Candidates {
    var current := Epochs.Epoch(at);
    match CandidateFor(records, bind, topic, current, at)
    case Absent => Candidates([], Inconclusive(KeyState))
    case Failed(v) => Candidates([], v)
    case Found(c) =>
      if !InOverlap(at) then Candidates([c], Eligible)
      else
        match CandidateFor(records, bind, topic, current - 1, at)
        case Absent => Candidates([c], Eligible)
        case Failed(v) => Candidates([], v)
        case Found(p) => Candidates([c, p], Eligible)
  }

  /**
    Route lookup agrees with assertion verification: it yields the current epoch first, the previous one exactly when it
    is held within the overlap, and under each exactly the binding that verification of an accepted, unexpired assertion
    computes; it fails exactly when one of those verifications does.
  */
  lemma CandidatesAreBindings(records: seq<Record>, bind: Commit, topic: seq<byte>, at: int, expiry: int)
    requires at < expiry
    ensures var current := Epochs.Epoch(at);
            var found := CandidatesIn(records, bind, topic, at);
            var now := BindingIn(records, bind, topic, current, at, expiry, true).binding;
            var both := InOverlap(at) && Lookup(records, current - 1).Some?;
            && (found.verdict.Eligible? <==>
                  now.Some? && (both ==> BindingIn(records, bind, topic, current - 1, at, expiry, true).binding.Some?))
            && (found.verdict.Eligible? ==>
                  found.list == [Candidate(current, now.value)] +
                  if both then
                    var binding := BindingIn(records, bind, topic, current - 1, at, expiry, true).binding.value;
                    [Candidate(current - 1, binding)]
                  else [])
            && (!found.verdict.Eligible? ==> found.list == [])
  {
  }

  // ----- Agreement with the signed schedule

  predicate Agrees(d: Descriptor, signed: CommitmentKey) {
    && signed.epoch == Some(d.epoch) && d.keyId == signed.keyId
    && d.notBefore == signed.notBefore && d.notAfter == signed.notAfter
  }

  predicate HoldsNone(records: seq<Record>, signed: CommitmentKey) {
    forall i :: 0 <= i < |records| ==> Some(records[i].Epoch()) != signed.epoch
  }

  /** The key of the previous epoch, erased after its overlap ended. */
  predicate JustRetired(retired: Option<Descriptor>, signed: CommitmentKey, now: int) {
    var current := Epochs.Epoch(now);
    && current > 0 && signed.epoch == Some(current - 1) && now >= Boundary(current) + OVERLAP
    && retired.Some? && Agrees(retired.value, signed)
  }

  /** The signed key is held under its own identifier, or is the one just retired. */
  predicate Accounted(records: seq<Record>, retired: Option<Descriptor>, keyIdOf: Key -> string,
                      signed: CommitmentKey, now: int)
  {
    || (exists i :: 0 <= i < |records| && Agrees(records[i].descriptor, signed) &&
                    keyIdOf(records[i].key) == signed.keyId)
    || (HoldsNone(records, signed) && JustRetired(retired, signed, now))
  }

  predicate Named(epoch: Option<nat>, topic: seq<CommitmentKey>, k: nat)
    requires k <= |topic|
  {
    exists a :: 0 <= a < k && topic[a].epoch == epoch
  }

  /** The first signed keys are accounted for and name different epochs. */
  predicate MatchedUpTo(records: seq<Record>, retired: Option<Descriptor>, keyIdOf: Key -> string,
                        topic: seq<CommitmentKey>, k: nat, now: int)
    requires k <= |topic|
  {
    forall a :: 0 <= a < k ==> Accounted(records, retired, keyIdOf, topic[a], now) && !Named(topic[a].epoch, topic, a)
  }

  /** Signed keys and held keys are the same, one per epoch, but for the one just retired; the current one is held. */
  predicate Reconciled(records: seq<Record>, retired: Option<Descriptor>, keyIdOf: Key -> string,
                       topic: seq<CommitmentKey>, now: int)
  {
    && MatchedUpTo(records, retired, keyIdOf, topic, |topic|, now)
    && (forall i :: 0 <= i < |records| ==> Named(Some(records[i].Epoch()), topic, |topic|))
    && Named(Some(Epochs.Epoch(now)), topic, |topic|)
  }

  /** What the pass over the signed keys has seen. */
  datatype Progress = Progress(matched: set<nat>, currentHeld: bool, retiredSeen: bool)

  ghost predicate Tracks(p: Progress, records: seq<Record>, topic: seq<CommitmentKey>, k: nat, now: int)
    requires k <= |topic|
  {
    && (forall i :: i in p.matched <==> 0 <= i < |records| && Named(Some(records[i].Epoch()), topic, k))
    && (p.currentHeld <==> Named(Some(Epochs.Epoch(now)), topic, k))
    && (p.retiredSeen <==> exists a :: 0 <= a < k && HoldsNone(records, topic[a]))
  }

  lemma NamedGrows(topic: seq<CommitmentKey>, k: nat, epoch: Option<nat>)
    requires k < |topic|
    ensures Named(epoch, topic, k + 1) <==> Named(epoch, topic, k) || topic[k].epoch == epoch
  {
  }

  lemma TrackHeld(p: Progress, records: seq<Record>, topic: seq<CommitmentKey>, k: nat, i: nat, now: int)
    requires k < |topic| && i < |records| && Distinct(records) && Some(records[i].Epoch()) == topic[k].epoch
    requires Tracks(p, records, topic, k, now)
    ensures var held := p.currentHeld || records[i].Epoch() == Epochs.Epoch(now);
            Tracks(p.(matched := p.matched + {i}, currentHeld := held), records, topic, k + 1, now)
  {
    NamedGrows(topic, k, Some(Epochs.Epoch(now)));
    forall j | 0 <= j < |records|
      ensures Named(Some(records[j].Epoch()), topic, k + 1) <==> Named(Some(records[j].Epoch()), topic, k) || j == i
    {
      NamedGrows(topic, k, Some(records[j].Epoch()));
    }
  }

  lemma TrackRetired(p: Progress, records: seq<Record>, topic: seq<CommitmentKey>, k: nat, now: int)
    requires k < |topic| && HoldsNone(records, topic[k]) && topic[k].epoch != Some(Epochs.Epoch(now))
    requires Tracks(p, records, topic, k, now)
    ensures Tracks(p.(retiredSeen := true), records, topic, k + 1, now)
  {
    NamedGrows(topic, k, Some(Epochs.Epoch(now)));
    forall j | 0 <= j < |records|
      ensures Named(Some(records[j].Epoch()), topic, k + 1) <==> Named(Some(records[j].Epoch()), topic, k)
    {
      NamedGrows(topic, k, Some(records[j].Epoch()));
    }
  }

  lemma HeldIsAccounted(records: seq<Record>, retired: Option<Descriptor>, keyIdOf: Key -> string,
                        signed: CommitmentKey, i: nat, now: int)
    requires Distinct(records) && i < |records| && Some(records[i].Epoch()) == signed.epoch
    ensures !HoldsNone(records, signed)
    ensures Accounted(records, retired, keyIdOf, signed, now) <==>
              Agrees(records[i].descriptor, signed) && keyIdOf(records[i].key) == signed.keyId
  {
  }

  /** A second signed key without a record repeats the epoch just retired, or is not accounted for. */
  lemma RetiredIsAccounted(records: seq<Record>, retired: Option<Descriptor>, keyIdOf: Key -> string,
                           topic: seq<CommitmentKey>, k: nat, now: int)
    requires k < |topic| && HoldsNone(records, topic[k]) && MatchedUpTo(records, retired, keyIdOf, topic, k, now)
    ensures Accounted(records, retired, keyIdOf, topic[k], now) <==> JustRetired(retired, topic[k], now)
    ensures JustRetired(retired, topic[k], now) ==>
              (Named(topic[k].epoch, topic, k) <==> exists a :: 0 <= a < k && HoldsNone(records, topic[a]))
  {
    if JustRetired(retired, topic[k], now) {
      if Named(topic[k].epoch, topic, k) {
        var a :| 0 <= a < k && topic[a].epoch == topic[k].epoch;
        assert HoldsNone(records, topic[a]);
      }
      if a :| 0 <= a < k && HoldsNone(records, topic[a]) {
        assert Accounted(records, retired, keyIdOf, topic[a], now);
        assert JustRetired(retired, topic[a], now);
      }
    }
  }

  // ----- The set of keys

  /** What the steps of a run see: the records, the end of the set, and how far the steady clock has been read. */
  datatype State = State(records: seq<Record>, closed: bool, clock: int)

  /**
    A step: some operation or timer tick observes the wall clock once and the steady clock from `first` on to `last`,
    and computes bindings under the keys of some epochs; or the set is closed.
  */
  datatype Event = Observe(now: int, first: int, last: int, bound: set<nat>) | Shut

  ghost predicate Next(s: State, e: Event, n: State) {
    match e
    case Observe(now, first, last, bound) =>
      && s.clock <= first <= last <= n.clock && n.closed == s.closed
      && n.records == Kept(s.records, now, last)
      && (forall epoch :: epoch in bound ==> Lookup(n.records, epoch).Some?)
    case Shut => n == State([], true, s.clock)
  }

  ghost predicate IsAt(r: Record, records: seq<Record>, at: int, hard: int) {
    r in records && r.Retires() && r.retireAt == Some(at) && r.hardRetireAt == Some(hard)
  }

  /** The earliest deadline among the keys that retire. */
  ghost predicate Earliest(records: seq<Record>, epoch: nat, at: int) {
    && (exists r :: r in records && r.Retires() && r.Epoch() == epoch && r.retireAt == Some(at))
    && (forall r :: r in records && r.Retires() && r.retireAt.Some? ==> at <= r.retireAt.value)
  }

  class TopicKeySet {
    var records: seq<Record>
    var retireEpoch: nat
    var retireAt: Option<int>
    var timer: Option<int>
    var recheck: int
    var retired: Option<Descriptor>
    var closed: bool
    var clock: int

    ghost function View(): State
      reads this
    {
      State(records, closed, clock)
    }

    /** A pending timer fires within a second of the last reading and no later than any key's hard deadline. */
    ghost predicate Timed()
      reads this
    {
      timer.Some? ==>
        && timer.value <= clock + MAX_RECHECK
        && (forall r :: r in records && r.Retires() && r.hardRetireAt.Some? ==> timer.value <= r.hardRetireAt.value)
        && retireAt.Some? && Earliest(records, retireEpoch, retireAt.value)
    }

    /** While any key awaits retirement a timer is pending. */
    ghost predicate Armed()
      reads this
    {
      Timed() && ((exists r :: r in records && r.Retires()) ==> timer.Some?)
    }

    ghost predicate Valid()
      reads this
    {
      Ready(records) && Armed() && (closed ==> records == [] && timer.None? && retired.None?)
    }

    constructor (records: seq<Record>, now: int, clock: int)
      requires Fresh(records)
      ensures Valid() && !closed && this.clock >= clock
      ensures exists first, last :: clock <= first <= last <= this.clock &&
                                    this.records == Kept(SettleAll(records, now, first), now, last)
    {
      this.records := records;
      this.retireEpoch := 0;
      this.retireAt := None;
      this.timer := None;
      this.recheck := MAX_RECHECK;
      this.retired := None;
      this.closed := false;
      this.clock := clock;
      new;
      if records != [] {
        var first, last := ScheduleRetirement(now);
      } else {
        assert Kept(SettleAll(records, now, clock), now, clock) == [];
      }
    }

    /** The steady clock: it never runs backward. */
    method SteadyNow() returns (t: int)
      modifies this`clock
      ensures t == clock >= old(clock)
    {
      t := *;
      if t < clock {
        t := clock;
      }
      clock := t;
    }

    method InitializeRetirementDeadlines(now: int, steady: int)
      requires Fresh(records) || Ready(records)
      modifies this`records
      ensures records == SettleAll(old(records), now, steady) && Ready(records)
      ensures old(Ready(records)) ==> records == old(records)
    {
      var i := 0;
      while i < |records|
        invariant 0 <= i <= |records| == |old(records)|
        invariant forall k :: 0 <= k < i ==> records[k] == Settle(old(records)[k], now, steady)
        invariant forall k :: i <= k < |records| ==> records[k] == old(records)[k]
      {
        var record := records[i];
        if record.Retires() {
          if record.retireAt.None? {
            record := record.(retireAt := Some(Boundary(record.Epoch() + 1) + OVERLAP));
          }
          if record.hardRetireAt.None? {
            var delay := Sub(record.retireAt.value, now);
            if delay < 0 {
              delay := 0;
            }
            record := record.(hardRetireAt := Some(steady + delay));
          }
          records := records[i := record];
        }
        i := i + 1;
      }
      if old(Ready(records)) {
        SettlingMovesNothing(old(records), now, steady);
      } else {
        SettlingMakesReady(old(records), now, steady);
      }
    }

    method FindEarliest() returns (epoch: nat, at: Option<int>, hard: int, ghost best: Record)
      requires Ready(records) && records != []
      ensures at.None? <==> forall r :: r in records ==> !r.Retires()
      ensures at.Some? ==> Earliest(records, epoch, at.value)
      ensures at.Some? ==> IsAt(best, records, at.value, hard)
    {
      epoch, at, hard, best := 0, None, 0, records[0];
      for i := 0 to |records|
        invariant at.None? <==> forall k :: 0 <= k < i ==> !records[k].Retires()
        invariant at.Some? ==> IsAt(best, records, at.value, hard) && best.Epoch() == epoch
        invariant at.Some? ==> forall k :: 0 <= k < i && records[k].Retires() ==>
                                 records[k].retireAt.Some? && at.value <= records[k].retireAt.value
      {
        var record := records[i];
        assert Settled(record);
        if record.Retires() {
          if at.None? || record.retireAt.value < at.value {
            epoch, at, hard := record.Epoch(), record.retireAt, record.hardRetireAt.value;
            best := record;
          }
        }
      }
    }

    method ScheduleRetirement(now: int) returns (ghost first: int, ghost last: int)
      requires !closed && timer.None? && (Fresh(records) || Ready(records))
      modifies this
      ensures Ready(records) && Armed() && !closed
      ensures old(clock) <= first <= last <= clock
      ensures records == Kept(SettleAll(old(records), now, first), now, last)
      ensures old(Ready(records)) ==> records == Kept(old(records), now, last)
      ensures old(Ready(records)) ==> Remembers(old(retired), retired, old(records), now, last)
      decreases |records|, 1, 1
    {
      first := clock;
      last := clock;
      if records == [] {
        return;
      }
      var steady := SteadyNow();
      first := steady;
      InitializeRetirementDeadlines(now, steady);
      last := ScheduleEarliest(now, steady);
    }

    /** With all deadlines set: erase at once if the earliest has come, and otherwise wait for it. */
    method ScheduleEarliest(now: int, steady: int) returns (ghost last: int)
      requires !closed && timer.None? && Ready(records) && steady == clock
      modifies this
      ensures Ready(records) && Armed() && !closed
      ensures steady <= last <= clock
      ensures records == Kept(old(records), now, last)
      ensures Remembers(old(retired), retired, old(records), now, last)
      decreases |records|, 1, 0
    {
      last := steady;
      if records == [] {
        return;
      }
      var epoch, at, hard, best := FindEarliest();
      if at.None? {
        NoneRetires(records, now, steady);
        KeptWithNoneDue(records, now, steady);
        RemembersNone(retired, records, now, steady);
        return;
      }
      retireEpoch, retireAt := epoch, at;
      if now >= at.value || steady >= hard {
        EarliestIsDue(best, records, now, steady, at.value, hard);
        last := EraseRetiredAt(now, steady);
      } else {
        Arm(best, now, steady, at.value, hard);
      }
    }

    /** Sets the timer to the nearest of the two deadlines and the recheck interval. */
    method Arm(ghost best: Record, now: int, steady: int, at: int, hard: int)
      requires Ready(records) && steady == clock && now < at && steady < hard
      requires retireAt == Some(at) && Earliest(records, retireEpoch, at)
      requires IsAt(best, records, at, hard)
      modifies this`timer
      ensures Armed()
      ensures records == Kept(records, now, steady) && Remembers(retired, retired, records, now, steady)
    {
      NoneDueBefore(best, records, now, steady, at, hard);
      KeptWithNoneDue(records, now, steady);
      RemembersNone(retired, records, now, steady);
      var delay := Sub(at, now);
      var hardDelay := Sub(hard, steady);
      if hardDelay < delay {
        delay := hardDelay;
      }
      var limit := if recheck <= 0 || recheck > MAX_RECHECK then MAX_RECHECK else recheck;
      if delay > limit {
        delay := limit;
      }
      timer := Some(steady + delay);
    }

    method EraseRetiredAt(now: int, steady: int) returns (ghost last: int)
      requires !closed && Ready(records) && steady <= clock && Timed()
      modifies this
      ensures Ready(records) && Armed() && !closed
      ensures steady <= last <= clock && old(clock) <= clock
      ensures records == Kept(old(records), now, last)
      ensures Remembers(old(retired), retired, old(records), now, last)
      decreases |records|, if AnyDue(records, now, steady) then 0 else 2, 1
    {
      last := steady;
      if records == [] {
        return;
      }
      var due := HasDue(now, steady);
      if !due {
        KeptWithNoneDue(records, now, steady);
        RemembersNone(retired, records, now, steady);
        if timer.None? {
          ghost var first, later := ScheduleRetirement(now);
          last := later;
        }
        return;
      }
      last := EraseDue(now, steady);
    }

    method EraseDue(now: int, steady: int) returns (ghost last: int)
      requires !closed && Ready(records) && steady <= clock && AnyDue(records, now, steady)
      modifies this
      ensures Ready(records) && Armed() && !closed
      ensures steady <= last <= clock && old(clock) <= clock
      ensures records == Kept(old(records), now, last)
      ensures Remembers(old(retired), retired, old(records), now, last)
      decreases |records|, 0, 0
    {
      ghost var before, known := records, retired;
      KeptShrinks(before, now, steady);
      KeptStaysReady(before, now, steady);
      Drop(now, steady);
      ghost var remembered := retired;
      retireEpoch, retireAt, timer := 0, None, None;
      ghost var first, later := ScheduleRetirement(now);
      last := later;
      KeptTwice(before, now, steady, last);
      RemembersTwice(known, remembered, retired, before, now, steady, last);
    }

    method EraseRetired(now: int) returns (ghost first: int, ghost last: int)
      requires Ready(records) && Timed() && (closed ==> records == [] && timer.None? && retired.None?)
      modifies this
      ensures Valid() && closed == old(closed)
      ensures old(clock) <= first <= last <= clock
      ensures records == Kept(old(records), now, last)
      ensures Remembers(old(retired), retired, old(records), now, last)
    {
      first := clock;
      last := clock;
      if closed || records == [] {
        return;
      }
      var steady := SteadyNow();
      first := steady;
      InitializeRetirementDeadlines(now, steady);
      last := EraseRetiredAt(now, steady);
    }

    /** The timer's callback, which may also come late, after the timer it belongs to was replaced or stopped. */
    method Tick(now: int) returns (ghost e: Event)
      requires Valid()
      modifies this
      ensures Valid() && e.Observe? && e.now == now && Next(old(View()), e, View())
    {
      timer := None;
      ghost var first, last := EraseRetired(now);
      e := Observe(now, first, last, {});
    }

    method BindingForEpoch(bind: Commit, topic: seq<byte>, epoch: nat, now: int, expiry: int, accepted: bool)
      returns (r: Bound, ghost e: Event)
      requires Valid()
      modifies this
      ensures Valid() && e.Observe? && e.now == now && Next(old(View()), e, View())
      ensures r == if closed then Bound(None, Inconclusive(KeyState))
                   else BindingIn(records, bind, topic, epoch, now, expiry, accepted)
      ensures r.binding.Some? ==> e.bound == {epoch}
    {
      ghost var first, last := EraseRetired(now);
      e := Observe(now, first, last, if Lookup(records, epoch).Some? then {epoch} else {});
      if closed {
        r := Bound(None, Inconclusive(KeyState));
      } else {
        r := SearchBinding(bind, topic, epoch, now, expiry, accepted);
      }
    }

    method SearchBinding(bind: Commit, topic: seq<byte>, epoch: nat, now: int, expiry: int, accepted: bool)
      returns (r: Bound)
      ensures r == BindingIn(records, bind, topic, epoch, now, expiry, accepted)
    {
      for i := 0 to |records|
        invariant LookupFrom(records, i, epoch) == Lookup(records, epoch)
      {
        var record := records[i];
        if record.Epoch() != epoch {
          continue;
        }
        if now < record.descriptor.notBefore || now >= record.descriptor.notAfter {
          return Bound(None, Invalid(KeyState));
        }
        var currentEpoch := Epochs.Epoch(now);
        if epoch != currentEpoch && !PreviousUsable(epoch, now, expiry, accepted) {
          return Bound(None, Invalid(TopicKeyEpoch));
        }
        var binding := bind(record.key, topic);
        if binding.None? {
          return Bound(None, Invalid(TopicResolver));
        }
        return Bound(binding, Eligible);
      }
      return Bound(None, Invalid(TopicKeyEpoch));
    }

    method CandidateTopicBindings(bind: Commit, topic: seq<byte>, at: int) returns (r: Candidates, ghost e: Event)
      requires Valid()
      modifies this
      ensures Valid()
      ensures at == ZERO_TIME ==> View() == old(View()) && r == Candidates([], Inconclusive(KeyState))
      ensures at != ZERO_TIME ==> e.Observe? && e.now == at && Next(old(View()), e, View())
      ensures at != ZERO_TIME ==>
                r == if closed then Candidates([], Inconclusive(KeyState)) else CandidatesIn(records, bind, topic, at)
      ensures forall c :: c in r.list ==> at != ZERO_TIME && c.epoch in e.bound
    {
      e := Observe(at, clock, clock, {});
      if at == ZERO_TIME {
        return Candidates([], Inconclusive(KeyState)), e;
      }
      ghost var first, last := EraseRetired(at);
      e := Observe(at, first, last, set epoch | epoch in Searched(at) && Lookup(records, epoch).Some?);
      if closed {
        r := Candidates([], Inconclusive(KeyState));
      } else {
        r := SearchCandidates(bind, topic, at);
        CandidatesAreBindings(records, bind, topic, at, at + 1);
      }
    }

    method SearchCandidates(bind: Commit, topic: seq<byte>, at: int) returns (r: Candidates)
      ensures r == CandidatesIn(records, bind, topic, at)
    {
      var epochs := Searched(at);
      var found := [];
      for k := 0 to |epochs|
        invariant k == 0 ==> found == []
        invariant k == 1 ==> CandidateFor(records, bind, topic, epochs[0], at).Found? &&
                             found == [CandidateFor(records, bind, topic, epochs[0], at).candidate]
        invariant k == 2 ==> CandidatesIn(records, bind, topic, at) == Candidates(found, Eligible)
      {
        var search := FindCandidate(bind, topic, epochs[k], at);
        if search.Failed? {
          return Candidates([], search.verdict);
        }
        if search.Found? {
          found := found + [search.candidate];
        } else if k == 0 {
          return Candidates([], Inconclusive(KeyState));
        }
      }
      r := Candidates(found, Eligible);
    }

    method FindCandidate(bind: Commit, topic: seq<byte>, epoch: nat, at: int) returns (search: Search)
      ensures search == CandidateFor(records, bind, topic, epoch, at)
    {
      for i := 0 to |records|
        invariant LookupFrom(records, i, epoch) == Lookup(records, epoch)
      {
        var record := records[i];
        if record.Epoch() != epoch {
          continue;
        }
        if at < record.descriptor.notBefore || at >= record.descriptor.notAfter {
          return Failed(Inconclusive(KeyState));
        }
        var binding := bind(record.key, topic);
        if binding.None? {
          return Failed(Invalid(TopicResolver));
        }
        return Found(Candidate(epoch, binding.value));
      }
      return Absent;
    }

    /** Accepts exactly the signed schedules that account for every key held, and the current one among them. */
    method Reconcile(keyIdOf: Key -> string, signed: seq<CommitmentKey>, now: int)
      returns (verdict: Verdict, ghost e: Event)
      requires Valid()
      modifies this
      ensures Valid() && e.Observe? && e.now == now && Next(old(View()), e, View())
      ensures verdict == if !closed && Reconciled(records, retired, keyIdOf, TopicKeys(signed), now) then Eligible
                         else Inconclusive(KeyState)
    {
      ghost var first, last := EraseRetired(now);
      e := Observe(now, first, last, {});
      verdict := Inconclusive(KeyState);
      if !closed {
        var topic := SelectTopicKeys(signed);
        var ok := MatchRecords(keyIdOf, topic, now);
        if ok {
          verdict := Eligible;
        }
      }
    }

    method MatchRecords(keyIdOf: Key -> string, topic: seq<CommitmentKey>, now: int) returns (ok: bool)
      requires Distinct(records)
      ensures ok <==> Reconciled(records, retired, keyIdOf, topic, now)
    {
      var p := Progress({}, false, false);
      for k := 0 to |topic|
        invariant MatchedUpTo(records, retired, keyIdOf, topic, k, now) && Tracks(p, records, topic, k, now)
      {
        ok, p := MatchOne(keyIdOf, topic, k, p, now);
        if !ok {
          assert !MatchedUpTo(records, retired, keyIdOf, topic, |topic|, now);
          return false;
        }
      }
      ok := AllMatched(p.matched);
      ok := ok && p.currentHeld;
    }

    method AllMatched(matched: set<nat>) returns (ok: bool)
      ensures ok <==> forall i :: 0 <= i < |records| ==> i in matched
    {
      for i := 0 to |records|
        invariant forall j :: 0 <= j < i ==> j in matched
      {
        if i !in matched {
          return false;
        }
      }
      return true;
    }

    method MatchOne(keyIdOf: Key -> string, topic: seq<CommitmentKey>, k: nat, p: Progress, now: int)
      returns (ok: bool, next: Progress)
      requires Distinct(records) && k < |topic|
      requires MatchedUpTo(records, retired, keyIdOf, topic, k, now) && Tracks(p, records, topic, k, now)
      ensures ok <==> Accounted(records, retired, keyIdOf, topic[k], now) && !Named(topic[k].epoch, topic, k)
      ensures ok ==> Tracks(next, records, topic, k + 1, now)
    {
      var descriptor := topic[k];
      if descriptor.epoch.None? {
        return false, p;
      }
      var i := FindEpoch(descriptor);
      if i < |records| {
        HeldIsAccounted(records, retired, keyIdOf, descriptor, i, now);
        if !Agrees(records[i].descriptor, descriptor) || i in p.matched || keyIdOf(records[i].key) != descriptor.keyId {
          return false, p;
        }
        TrackHeld(p, records, topic, k, i, now);
        var held := p.currentHeld || records[i].Epoch() == Epochs.Epoch(now);
        return true, p.(matched := p.matched + {i}, currentHeld := held);
      }
      RetiredIsAccounted(records, retired, keyIdOf, topic, k, now);
      if !JustRetired(retired, descriptor, now) || p.retiredSeen {
        return false, p;
      }
      TrackRetired(p, records, topic, k, now);
      return true, p.(retiredSeen := true);
    }

    method FindEpoch(signed: CommitmentKey) returns (i: nat)
      ensures i < |records| ==> Some(records[i].Epoch()) == signed.epoch
      ensures i >= |records| ==> HoldsNone(records, signed)
    {
      i := 0;
      while i < |records| && Some(records[i].Epoch()) != signed.epoch
        invariant i <= |records|
        invariant forall j :: 0 <= j < i ==> Some(records[j].Epoch()) != signed.epoch
      {
        i := i + 1;
      }
    }

    method Close() returns (ghost e: Event)
      requires Valid()
      modifies this
      ensures Valid() && closed && records == [] && timer.None?
      ensures e.Shut? && Next(old(View()), e, View())
    {
      e := Shut;
      if closed {
        return;
      }
      records, retireEpoch, retireAt, timer := [], 0, None, None;
      recheck, retired, closed := 0, None, true;
    }

    method HasDue(now: int, steady: int) returns (due: bool)
      ensures due <==> AnyDue(records, now, steady)
    {
      for i := 0 to |records|
        invariant forall k :: 0 <= k < i ==> !Due(records[k], now, steady)
      {
        if Due(records[i], now, steady) {
          return true;
        }
      }
      return false;
    }

    /** One pass over the records: what is due goes, the rest stays in order. */
    method Drop(now: int, steady: int)
      modifies this`records, this`retired
      ensures records == Kept(old(records), now, steady)
      ensures Remembers(old(retired), retired, old(records), now, steady)
    {
      var kept: seq<Record> := [];
      for i := 0 to |records|
        invariant records == old(records)
        invariant kept == Kept(records[..i], now, steady)
        invariant Remembers(old(retired), retired, records[..i], now, steady)
      {
        var record := records[i];
        assert records[..i + 1] == records[..i] + [record];
        if Due(record, now, steady) {
          ghost var known := retired;
          retired := Newer(retired, record.descriptor);
          RemembersOneMore(old(retired), known, records[..i], record, now, steady);
        } else {
          kept := kept + [record];
          RemembersOneMore(old(retired), retired, records[..i], record, now, steady);
        }
      }
      assert records[..|records|] == records;
      records := kept;
    }
  }

  lemma RemembersOneMore(before: Option<Descriptor>, after: Option<Descriptor>, records: seq<Record>, r: Record,
                         now: int, steady: int)
    requires Remembers(before, after, records, now, steady)
    ensures Remembers(before, if Due(r, now, steady) then Newer(after, r.descriptor) else after,
                      records + [r], now, steady)
  {
    var all := records + [r];
    forall x
      ensures x in all <==> x in records || x == r
    {
    }
    if after != before {
      var x :| x in records && Due(x, now, steady) && Some(x.descriptor) == after;
      assert x in all;
    }
    assert r in all;
  }

  lemma EarliestIsDue(r: Record, records: seq<Record>, now: int, steady: int, at: int, hard: int)
    requires (now >= at || steady >= hard) && IsAt(r, records, at, hard)
    ensures AnyDue(records, now, steady)
  {
    var i :| 0 <= i < |records| && records[i] == r;
    assert Due(records[i], now, steady);
  }

  lemma NoneRetires(records: seq<Record>, now: int, steady: int)
    requires forall r :: r in records ==> !r.Retires()
    ensures !AnyDue(records, now, steady)
  {
  }

  /** If the earliest deadline has not come on either clock, none has. */
  lemma NoneDueBefore(first: Record, records: seq<Record>, now: int, steady: int, at: int, hard: int)
    requires Ready(records) && now < at && steady < hard
    requires IsAt(first, records, at, hard)
    requires forall r :: r in records && r.Retires() && r.retireAt.Some? ==> at <= r.retireAt.value
    ensures !AnyDue(records, now, steady)
    ensures forall r :: r in records && r.Retires() && r.hardRetireAt.Some? ==> hard <= r.hardRetireAt.value
  {
    forall r | r in records && r.Retires()
      ensures r.retireAt.Some? && r.hardRetireAt.Some? && at <= r.retireAt.value && hard <= r.hardRetireAt.value
    {
      assert Settled(r) && SameOrder(first, r);
    }
  }

  // ----- Whole runs

  ghost predicate Run(states: seq<State>, events: seq<Event>) {
    && |states| == |events| + 1 && Ready(states[0].records)
    && forall i, j {:trigger Next(states[i], events[i], states[j])} ::
         0 <= i < |events| && j == i + 1 ==> Next(states[i], events[i], states[j])
  }

  /** Whether a step erases the key. */
  predicate Erases(e: Event, r: Record) {
    e.Shut? || Due(r, e.now, e.last)
  }

  lemma StepErasesExactly(s: State, e: Event, n: State, r: Record)
    requires Next(s, e, n)
    ensures r in n.records <==> r in s.records && !Erases(e, r)
  {
    if e.Observe? {
      KeptExactly(s.records, e.now, e.last, r);
    }
  }

  /**
    Between any two moments of a run a key survives, with the very deadlines it had, exactly when no step in between
    closed the set or saw one of its two deadlines; and nothing else ever enters the set.
  */
  lemma {:induction false} SurvivesExactly(states: seq<State>, events: seq<Event>, i: nat, j: nat, r: Record)
    requires Run(states, events) && i <= j < |states|
    ensures r in states[j].records <==> r in states[i].records && forall k :: i <= k < j ==> !Erases(events[k], r)
    decreases j
  {
    if i < j {
      SurvivesExactly(states, events, i, j - 1, r);
      assert Next(states[j - 1], events[j - 1], states[j]);
      StepErasesExactly(states[j - 1], events[j - 1], states[j], r);
    }
  }

  lemma {:induction false} SteadyNeverRunsBack(states: seq<State>, events: seq<Event>, i: nat, j: nat)
    requires Run(states, events) && i <= j < |states|
    ensures states[i].clock <= states[j].clock
    decreases j
  {
    if i < j {
      SteadyNeverRunsBack(states, events, i, j - 1);
      assert Next(states[j - 1], events[j - 1], states[j]);
    }
  }

  lemma {:induction false} RunStaysReady(states: seq<State>, events: seq<Event>, i: nat)
    requires Run(states, events) && i < |states|
    ensures Ready(states[i].records)
  {
    if i > 0 {
      RunStaysReady(states, events, i - 1);
      assert Next(states[i - 1], events[i - 1], states[i]);
      if events[i - 1].Observe? {
        KeptStaysReady(states[i - 1].records, events[i - 1].now, events[i - 1].last);
      }
    }
  }

  /** The step is an operation or a tick that sees a key's deadline on the wall clock or on the steady one. */
  predicate SeesDeadline(e: Event, r: Record) {
    && e.Observe? && r.Retires() && r.hardRetireAt.Some?
    && (e.now >= Deadline(r.Epoch()) || e.first >= r.hardRetireAt.value)
  }

  /**
    Once any operation or tick has seen the key's wall deadline, or has read the steady clock past its hard deadline,
    the key is gone and no operation, then or later, computes a binding under it, whatever the wall clock does next.
  */
  lemma NoBindingPastDeadline(states: seq<State>, events: seq<Event>, i: nat, j: nat, r: Record)
    requires Run(states, events) && i <= j < |events|
    requires r in states[0].records && SeesDeadline(events[i], r)
    ensures r !in states[j + 1].records
    ensures events[j].Observe? ==> r.Epoch() !in events[j].bound
  {
    var k :| 0 <= k < |states[0].records| && states[0].records[k] == r;
    assert Settled(states[0].records[k]);
    assert Next(states[i], events[i], states[i + 1]);
    assert Erases(events[i], r);
    SurvivesExactly(states, events, 0, j + 1, r);
    assert Next(states[j], events[j], states[j + 1]);
    if events[j].Observe? && r.Epoch() in events[j].bound {
      LookupFinds(states[j + 1].records, 0, r.Epoch());
      SurvivesExactly(states, events, 0, j + 1, Lookup(states[j + 1].records, r.Epoch()).value);
    }
  }

  /** Every reading of the steady clock after some moment sees what had passed by then. */
  lemma SteadyDeadlineHolds(states: seq<State>, events: seq<Event>, i: nat, j: nat, r: Record)
    requires Run(states, events) && i <= j < |events| && events[j].Observe?
    requires r in states[0].records
    requires r.Retires() && r.hardRetireAt.Some? && states[i].clock >= r.hardRetireAt.value
    ensures SeesDeadline(events[j], r) && r !in states[j + 1].records
  {
    SteadyNeverRunsBack(states, events, i, j);
    assert Next(states[j], events[j], states[j + 1]);
    NoBindingPastDeadline(states, events, j, j, r);
  }
}
