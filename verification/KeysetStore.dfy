/**
  The durable high-water row for one environment: which keyset the replicas agree on, the append-only history behind it,
  and the uncertainty that closes it for good. Every transaction holds the environment's advisory lock, so transactions
  of all replicas take effect one after another.
*/
module KeysetStore {
  import opened Common
  import opened KeyRotation

  datatype Reason = KeyStateReason | RollbackReason | RotationReason

  /** A keyset as a replica submits it, with the hash of its canonical bytes. */
  datatype Candidate = Candidate(hash: string, keyset: Keyset)

  /** The state row. Sequence 0 stands for a row latched before any keyset was accepted. */
  datatype Row = Row(sequence: nat, hash: string, expiresAt: int, reason: Option<Reason>) {
    predicate Uncertain() {
      reason.Some?
    }
  }

  datatype Durable = Durable(row: Option<Row>, history: seq<Candidate>)

  datatype Verdict = Taken(row: Row) | Rejected(row: Row)

  function RowOf(c: Candidate): Row {
    Row(c.keyset.sequence, c.hash, c.keyset.expiresAt, None)
  }

  // ----- The transactions

  function Latched(d: Durable, reason: Reason): Durable {
    match d.row
    case None => d.(row := Some(Row(0, "", 0, Some(reason))))
    case Some(row) => if row.Uncertain() then d else d.(row := Some(row.(reason := Some(reason))))
  }

  ghost function Accept(d: Durable, c: Candidate): (Durable, Verdict) {
    if d.row.None? then (Durable(Some(RowOf(c)), d.history + [c]), Taken(RowOf(c)))
    else
      var row := d.row.value;
      if row.Uncertain() then (d, Rejected(row))
      else if c.keyset.sequence < row.sequence || (c.keyset.sequence == row.sequence && c.hash != row.hash) ||
              (c.keyset.sequence == row.sequence && c.keyset.expiresAt != row.expiresAt) then
        var shut := Latched(d, RollbackReason);
        (shut, Rejected(shut.row.value))
      else if c.keyset.sequence == row.sequence then (d, Taken(row))
      else if d.history == [] || !Rotates(d.history[|d.history| - 1].keyset, c.keyset) then
        var shut := Latched(d, RotationReason);
        (shut, Rejected(shut.row.value))
      else (Durable(Some(RowOf(c)), d.history + [c]), Taken(RowOf(c)))
  }

  // ----- What every transaction keeps

  ghost predicate ChainOf(history: seq<Candidate>) {
    && (forall i {:trigger ValidKeyset(history[i].keyset)} :: 0 <= i < |history| ==> ValidKeyset(history[i].keyset))
    && (forall i, j {:trigger Rotates(history[i].keyset, history[j].keyset)} ::
          0 <= i < j < |history| && j == i + 1 ==> Rotates(history[i].keyset, history[j].keyset))
  }

  ghost predicate Ascends(history: seq<Candidate>) {
    forall i, j {:trigger history[i].keyset, history[j].keyset} ::
      0 <= i < j < |history| ==> history[i].keyset.sequence < history[j].keyset.sequence
  }

  /** The row names the newest accepted keyset of a history with rising sequences. */
  ghost predicate Shaped(d: Durable) {
    && Ascends(d.history)
    && match d.row
       case None => d.history == []
       case Some(row) =>
         if d.history == [] then row.sequence == 0 && row.Uncertain()
         else row.(reason := None) == RowOf(d.history[|d.history| - 1])
  }

  /** Besides, the history is a chain of valid rotations, as it is when only validated keysets are submitted. */
  ghost predicate Consistent(d: Durable) {
    ChainOf(d.history) && Shaped(d)
  }

  /** How the durable state may move: history only grows, the sequence never falls, and uncertainty stays as it is. */
  ghost predicate Forward(d: Durable, e: Durable) {
    && d.history <= e.history
    && (d.row.Some? ==>
          && e.row.Some? && d.row.value.sequence <= e.row.value.sequence
          && (d.row.value.Uncertain() ==> e.row == d.row))
  }

  lemma ForwardTransitive(a: Durable, b: Durable, c: Durable)
    requires Forward(a, b) && Forward(b, c)
    ensures Forward(a, c)
  {
  }

  lemma LatchMovesForward(d: Durable, reason: Reason)
    requires Shaped(d)
    ensures Shaped(Latched(d, reason)) && Forward(d, Latched(d, reason))
    ensures Latched(d, reason).row.Some? && Latched(d, reason).row.value.Uncertain()
    ensures Latched(d, reason).history == d.history
    ensures d.row.Some? && d.row.value.Uncertain() ==> Latched(d, reason) == d
  {
  }

  lemma AppendKeepsChain(history: seq<Candidate>, c: Candidate)
    requires ChainOf(history) && ValidKeyset(c.keyset)
    requires history != [] ==> Rotates(history[|history| - 1].keyset, c.keyset)
    ensures ChainOf(history + [c])
  {
    var grown := history + [c];
    forall i | 0 <= i < |grown|
      ensures ValidKeyset(grown[i].keyset)
    {
      assert i < |history| ==> grown[i] == history[i];
    }
    forall i, j | 0 <= i < j < |grown| && j == i + 1
      ensures Rotates(grown[i].keyset, grown[j].keyset)
    {
      assert j < |history| ==> grown[i] == history[i] && grown[j] == history[j];
    }
  }

  /** A rejection leaves the row uncertain; an acceptance leaves exactly the submitted keyset current. */
  lemma AcceptMovesForward(d: Durable, c: Candidate)
    requires Shaped(d)
    ensures var (e, v) := Accept(d, c);
            && Shaped(e) && Forward(d, e)
            && (Consistent(d) && ValidKeyset(c.keyset) ==> Consistent(e))
            && e.row == Some(v.row)
            && (v.Rejected? ==> v.row.Uncertain() && e.history == d.history)
            && (v.Taken? ==> v.row == RowOf(c) && e.history != [] &&
                             e.history[|e.history| - 1].keyset.sequence == c.keyset.sequence &&
                             e.history[|e.history| - 1].hash == c.hash)
  {
    var (e, v) := Accept(d, c);
    if e.history != d.history {
      AppendKeepsOrder(d, c);
      if Consistent(d) && ValidKeyset(c.keyset) {
        AppendKeepsChain(d.history, c);
      }
    }
  }

  lemma AppendKeepsOrder(d: Durable, c: Candidate)
    requires Shaped(d) && (d.history != [] ==> d.history[|d.history| - 1].keyset.sequence < c.keyset.sequence)
    ensures Ascends(d.history + [c])
  {
    var grown, last := d.history + [c], |d.history| - 1;
    forall i, j | 0 <= i < j < |grown|
      ensures grown[i].keyset.sequence < grown[j].keyset.sequence
    {
      if j <= last {
        assert grown[i] == d.history[i] && grown[j] == d.history[j];
      } else if i < last {
        assert d.history[i].keyset.sequence < d.history[last].keyset.sequence;
      }
    }
  }

  // ----- Whole runs

  /** A transaction of any replica, and how it ends. */
  datatype Transaction = Submit(c: Candidate, commit: Commit) | Latch(reason: Reason, commit: Commit)

  /** Where a transaction ends: it may fail before its effect, be told to retry, or fail after taking effect. */
  datatype Commit = Committed | Serialization | Failed | Ambiguous

  predicate Persists(commit: Commit) {
    commit.Committed? || commit.Ambiguous?
  }

  ghost predicate Follows(d: Durable, t: Transaction, e: Durable) {
    match t
    case Submit(c, commit) => e == if Persists(commit) then Accept(d, c).0 else d
    case Latch(reason, commit) => e == if Persists(commit) then Latched(d, reason) else d
  }

  /** Successive durable states under any order of transactions of any replicas, from an empty table on. */
  ghost predicate Run(states: seq<Durable>, transactions: seq<Transaction>) {
    && |states| == |transactions| + 1 && states[0] == Durable(None, [])
    && forall i, j {:trigger Follows(states[i], transactions[i], states[j])} ::
         0 <= i < |transactions| && j == i + 1 ==> Follows(states[i], transactions[i], states[j])
  }

  lemma TransactionMovesForward(d: Durable, t: Transaction, e: Durable)
    requires Shaped(d) && Follows(d, t, e)
    ensures Shaped(e) && Forward(d, e)
    ensures Consistent(d) && (t.Submit? ==> ValidKeyset(t.c.keyset)) ==> Consistent(e)
  {
    match t
    case Submit(c, _) => AcceptMovesForward(d, c);
    case Latch(reason, _) => LatchMovesForward(d, reason);
  }

  lemma {:induction false} RunStaysShaped(states: seq<Durable>, transactions: seq<Transaction>, i: nat)
    requires Run(states, transactions) && i < |states|
    ensures Shaped(states[i])
  {
    if i > 0 {
      RunStaysShaped(states, transactions, i - 1);
      TransactionMovesForward(states[i - 1], transactions[i - 1], states[i]);
    }
  }

  /** When every submitted keyset was validated, the history is a chain of rotations throughout. */
  lemma {:induction false} RunStaysConsistent(states: seq<Durable>, transactions: seq<Transaction>, i: nat)
    requires Run(states, transactions) && i < |states|
    requires forall k :: 0 <= k < |transactions| && transactions[k].Submit? ==> ValidKeyset(transactions[k].c.keyset)
    ensures Consistent(states[i])
  {
    if i > 0 {
      RunStaysConsistent(states, transactions, i - 1);
      TransactionMovesForward(states[i - 1], transactions[i - 1], states[i]);
    }
  }

  /** The accepted history only grows, the sequence never falls, and uncertainty stays. */
  lemma {:induction false} RunMovesForward(states: seq<Durable>, transactions: seq<Transaction>, i: nat, j: nat)
    requires Run(states, transactions) && i <= j < |states|
    ensures Forward(states[i], states[j])
    decreases j
  {
    if i < j {
      RunMovesForward(states, transactions, i, j - 1);
      RunStaysShaped(states, transactions, j - 1);
      TransactionMovesForward(states[j - 1], transactions[j - 1], states[j]);
      ForwardTransitive(states[i], states[j - 1], states[j]);
    }
  }

  lemma ChainIsAccepted(history: seq<Candidate>)
    requires ChainOf(history)
    ensures AcceptedChain(seq(|history|, i requires 0 <= i < |history| => history[i].keyset))
  {
    var chain := seq(|history|, i requires 0 <= i < |history| => history[i].keyset);
    forall i | 0 <= i < |chain|
      ensures ValidKeyset(chain[i])
    {
      assert ValidKeyset(history[i].keyset);
    }
    forall i, j | 0 <= i < j < |chain| && j == i + 1
      ensures Rotates(chain[i], chain[j])
    {
      assert Rotates(history[i].keyset, history[j].keyset);
    }
  }

  lemma SequencesDiffer(history: seq<Candidate>, i: nat, j: nat)
    requires ChainOf(history) && i < j < |history|
    ensures history[i].keyset.sequence < history[j].keyset.sequence
  {
    var chain := seq(|history|, k requires 0 <= k < |history| => history[k].keyset);
    ChainIsAccepted(history);
    ChainAscends(chain, i, j);
  }

  /** One sequence number names one hash for the whole run, however far apart the two acceptances are looked at. */
  lemma OneHashPerSequence(states: seq<Durable>, transactions: seq<Transaction>, i: nat, j: nat,
                           a: Candidate, b: Candidate)
    requires Run(states, transactions) && i <= j < |states|
    requires a in states[i].history && b in states[j].history && a.keyset.sequence == b.keyset.sequence
    ensures a == b
  {
    RunMovesForward(states, transactions, i, j);
    RunStaysShaped(states, transactions, j);
    var history := states[j].history;
    var k :| 0 <= k < |states[i].history| && states[i].history[k] == a;
    var l :| 0 <= l < |history| && history[l] == b;
    assert history[k] == a;
    assert k == l;
  }

  /** Once uncertain, the row keeps its sequence, its hash and its first reason through every later transaction. */
  lemma UncertaintyIsAbsorbing(states: seq<Durable>, transactions: seq<Transaction>, i: nat, j: nat)
    requires Run(states, transactions) && i <= j < |states|
    requires states[i].row.Some? && states[i].row.value.Uncertain()
    ensures states[j].row == states[i].row
  {
    RunMovesForward(states, transactions, i, j);
  }

  // ----- The store as the code runs it

  /** `Refused` is a rejection without a row: the submission was not even well formed. */
  datatype Answer = Current(row: Row) | KeysetRejected(row: Row) | Refused | Retry | StoreUnavailable

  class A9KeysetStore {
    var row: Option<Row>
    var history: seq<Candidate>

    ghost function State(): Durable
      reads this
    {
      Durable(row, history)
    }

    constructor ()
      ensures State() == Durable(None, []) && Consistent(State())
    {
      row := None;
      history := [];
    }

    method AcceptKeysetOnce(c: Candidate, commit: Commit) returns (r: Answer)
      requires Shaped(State())
      modifies this
      ensures Shaped(State()) && Forward(old(State()), State())
      ensures old(Consistent(State())) && ValidKeyset(c.keyset) ==> Consistent(State())
      ensures State() == if Persists(commit) then Accept(old(State()), c).0 else old(State())
      ensures commit.Committed? ==>
                var v := Accept(old(State()), c).1;
                r == match v case Taken(row) => Current(row) case Rejected(row) => KeysetRejected(row)
      ensures r.Current? || r.KeysetRejected? <==> commit.Committed?
      ensures r.Retry? <==> commit.Serialization?
      ensures !r.Refused?
      ensures r.Current? ==> row == Some(RowOf(c))
      ensures r.KeysetRejected? ==> row.Some? && row.value.Uncertain()
    {
      AcceptMovesForward(State(), c);
      if !Persists(commit) {
        return if commit.Serialization? then Retry else StoreUnavailable;
      }
      var verdict: Answer;
      if row.None? {
        row, history := Some(RowOf(c)), history + [c];
        verdict := Current(row.value);
      } else if row.value.Uncertain() {
        verdict := KeysetRejected(row.value);
      } else if c.keyset.sequence < row.value.sequence ||
                (c.keyset.sequence == row.value.sequence && c.hash != row.value.hash) {
        row := Some(row.value.(reason := Some(RollbackReason)));
        verdict := KeysetRejected(row.value);
      } else if c.keyset.sequence == row.value.sequence {
        if c.keyset.expiresAt != row.value.expiresAt {
          row := Some(row.value.(reason := Some(RollbackReason)));
          verdict := KeysetRejected(row.value);
        } else {
          verdict := Current(row.value);
        }
      } else {
        var previous := history[|history| - 1];
        var rotates := ValidateOnlineRotation(previous.keyset, c.keyset);
        if !rotates {
          row := Some(row.value.(reason := Some(RotationReason)));
          verdict := KeysetRejected(row.value);
        } else {
          row, history := Some(RowOf(c)), history + [c];
          verdict := Current(row.value);
        }
      }
      return if commit.Ambiguous? then StoreUnavailable else verdict;
    }

    method LatchKeysetUncertaintyOnce(reason: Reason, commit: Commit) returns (ok: bool, retry: bool)
      requires Shaped(State())
      modifies this`row
      ensures Shaped(State()) && Forward(old(State()), State())
      ensures State() == if Persists(commit) then Latched(old(State()), reason) else old(State())
      ensures ok == commit.Committed? && retry == commit.Serialization?
    {
      LatchMovesForward(State(), reason);
      if !Persists(commit) {
        return false, commit.Serialization?;
      }
      if row.None? {
        row := Some(Row(0, "", 0, Some(reason)));
      } else if !row.value.Uncertain() {
        row := Some(row.value.(reason := Some(reason)));
      }
      return commit.Committed?, false;
    }

    /** Up to five attempts while the database asks for a retry; `commits` says how each attempt ends. */
    method LatchKeysetUncertainty(reason: Reason, commits: seq<Commit>) returns (ok: bool)
      requires Shaped(State()) && |commits| == ATTEMPTS
      modifies this`row
      ensures Shaped(State()) && (State() == old(State()) || State() == Latched(old(State()), reason))
      ensures ok ==> State() == Latched(old(State()), reason)
      ensures ok <==> SettlesAt(commits)
    {
      for attempt := 0 to ATTEMPTS
        invariant State() == old(State())
        invariant forall i :: 0 <= i < attempt ==> commits[i].Serialization?
      {
        var latched, retry := LatchKeysetUncertaintyOnce(reason, commits[attempt]);
        if !retry {
          return latched;
        }
      }
      return false;
    }

    /**
      A submission: refused and latched when its document does not bear out its fields, and otherwise up to five
      attempts.
    */
    method AcceptKeyset(c: Candidate, wellFormed: bool, commits: seq<Commit>) returns (r: Answer)
      requires Shaped(State()) && |commits| == ATTEMPTS
      modifies this
      ensures Shaped(State()) && Forward(old(State()), State())
      ensures old(Consistent(State())) && (wellFormed ==> ValidKeyset(c.keyset)) ==> Consistent(State())
      ensures !r.Retry? && (r.Refused? ==> !wellFormed) && (!wellFormed ==> r.Refused? || r.StoreUnavailable?)
      ensures r.Refused? || r.Current? || r.KeysetRejected? <==> SettlesAt(commits)
      ensures r.Current? ==> row == Some(RowOf(c)) && State() == Accept(old(State()), c).0
      ensures r.KeysetRejected? ==> row.Some? && row.value.Uncertain() && State() == Accept(old(State()), c).0
      ensures r.Refused? ==> row.Some? && row.value.Uncertain() && State() == Latched(old(State()), KeyStateReason)
    {
      if !wellFormed {
        LatchMovesForward(State(), KeyStateReason);
        var latched := LatchKeysetUncertainty(KeyStateReason, commits);
        return if latched then Refused else StoreUnavailable;
      }
      for attempt := 0 to ATTEMPTS
        invariant State() == old(State())
        invariant forall i :: 0 <= i < attempt ==> commits[i].Serialization?
      {
        r := AcceptKeysetOnce(c, commits[attempt]);
        if !r.Retry? {
          return;
        }
      }
      return StoreUnavailable;
    }
  }

  const ATTEMPTS := 5

  /** Some attempt commits and the database asked for a retry on every one before it. */
  predicate SettlesAt(commits: seq<Commit>) {
    exists k :: 0 <= k < |commits| && commits[k].Committed? && forall i :: 0 <= i < k ==> commits[i].Serialization?
  }
}
