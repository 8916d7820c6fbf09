/** The in-process counterpart of the receipt table: one map of used token identifiers, purged at every call. */
module JtiCache {
  import opened Common

  datatype Id = Id(environment: string, jti: string)

  datatype Call = Call(id: Id, retainUntil: int, now: int)

  type Used = map<Id, int>

  /** What is left once everything past its deadline is gone. */
  function Purged(used: Used, now: int): Used {
    map id | id in used && now <= used[id] :: used[id]
  }

  predicate Accepts(used: Used, call: Call) {
    call.id !in Purged(used, call.now)
  }

  function After(used: Used, call: Call): Used {
    if Accepts(used, call) then Purged(used, call.now)[call.id := call.retainUntil] else Purged(used, call.now)
  }

  class ReplayStore {
    var used: Used

    constructor ()
      ensures used == map[]
    {
      used := map[];
    }

    method Consume(call: Call) returns (ok: bool)
      modifies this
      ensures ok == Accepts(old(used), call) && used == After(old(used), call)
    {
      var left, rest := used, used.Keys;
      while rest != {}
        invariant rest <= used.Keys && left.Keys <= used.Keys && used == old(used)
        invariant forall id :: id in used ==> (id in left <==> id in rest || call.now <= used[id])
        invariant forall id :: id in left ==> left[id] == used[id]
        decreases rest
      {
        var id :| id in rest;
        rest := rest - {id};
        if call.now > used[id] {
          left := left - {id};
        }
      }
      assert left == Purged(used, call.now);
      used := left;
      if call.id in used && call.now <= used[call.id] {
        return false;
      }
      used := used[call.id := call.retainUntil];
      return true;
    }
  }

  // ----- Sequences of calls

  function State(calls: seq<Call>, n: nat): Used
    requires n <= |calls|
  {
    if n == 0 then map[] else After(State(calls, n - 1), calls[n - 1])
  }

  predicate Accepted(calls: seq<Call>, i: nat)
    requires i < |calls|
  {
    Accepts(State(calls, i), calls[i])
  }

  ghost predicate ClockAdvances(calls: seq<Call>) {
    forall i, j :: 0 <= i < j < |calls| ==> calls[i].now <= calls[j].now
  }

  /** An accepted identifier stays until a call has seen its deadline pass. */
  lemma {:induction false} StaysUntilDeadline(calls: seq<Call>, i: nat, n: nat)
    requires i < n <= |calls| && Accepted(calls, i)
    ensures (calls[i].id in State(calls, n) && State(calls, n)[calls[i].id] == calls[i].retainUntil) ||
            exists k :: i < k < n && calls[k].now > calls[i].retainUntil
    decreases n
  {
    if i + 1 < n {
      StaysUntilDeadline(calls, i, n - 1);
      var id, used := calls[i].id, State(calls, n - 1);
      if k :| i < k < n - 1 && calls[k].now > calls[i].retainUntil {
        assert i < k < n;
      } else if calls[n - 1].now > calls[i].retainUntil {
        assert i < n - 1 < n;
      } else {
        assert id in Purged(used, calls[n - 1].now);
      }
    }
  }

  /** In whatever order readings come, an identifier is accepted again only once one past its deadline has come. */
  lemma AcceptedAgainOnlyPast(calls: seq<Call>, i: nat, j: nat)
    requires i < j < |calls| && Accepted(calls, i) && Accepted(calls, j) && calls[i].id == calls[j].id
    ensures PastBetween(calls, i, j)
  {
    StaysUntilDeadline(calls, i, j);
    if k :| i < k < j && calls[k].now > calls[i].retainUntil {
      assert i < k <= j;
    } else {
      assert i < j <= j && calls[j].now > calls[i].retainUntil;
    }
  }

  /** Some call after `i`, up to `j` itself, came with a reading past the deadline of `i`. */
  ghost predicate PastBetween(calls: seq<Call>, i: nat, j: nat)
    requires i < j < |calls|
  {
    exists k :: i < k <= j && calls[k].now > calls[i].retainUntil
  }

  /** The identifier has not been accepted again in between. */
  ghost predicate LastBefore(calls: seq<Call>, i: nat, n: nat)
    requires i < n <= |calls|
  {
    Accepted(calls, i) && forall k :: i < k < n && calls[k].id == calls[i].id ==> !Accepted(calls, k)
  }

  lemma {:induction false} HeldWithDeadline(calls: seq<Call>, i: nat, n: nat)
    requires i < n <= |calls| && LastBefore(calls, i, n)
    ensures calls[i].id in State(calls, n) ==> State(calls, n)[calls[i].id] == calls[i].retainUntil
    decreases n
  {
    if i + 1 < n {
      HeldWithDeadline(calls, i, n - 1);
    }
  }

  /** Once purged, the identifier stays away until it is accepted again. */
  lemma {:induction false} GoneOncePast(calls: seq<Call>, i: nat, k: nat, n: nat)
    requires i < k < n <= |calls| && LastBefore(calls, i, n) && calls[k].now > calls[i].retainUntil
    ensures calls[i].id !in State(calls, n)
    decreases n
  {
    if k + 1 < n {
      GoneOncePast(calls, i, k, n - 1);
    } else {
      HeldWithDeadline(calls, i, k);
    }
  }

  /**
    Whatever readings the calls come with, in whatever order: the next call with an accepted identifier is accepted if
    and only if it, or some call since, came with a reading past the identifier's deadline.
  */
  lemma NextIsAcceptedExactly(calls: seq<Call>, i: nat, j: nat)
    requires i < j < |calls| && calls[i].id == calls[j].id && LastBefore(calls, i, j)
    ensures Accepted(calls, j) <==> PastBetween(calls, i, j)
  {
    if Accepted(calls, j) {
      AcceptedAgainOnlyPast(calls, i, j);
    } else if PastBetween(calls, i, j) {
      var k :| i < k <= j && calls[k].now > calls[i].retainUntil;
      if k < j {
        GoneOncePast(calls, i, k, j);
      } else {
        HeldWithDeadline(calls, i, j);
      }
      assert false;
    }
  }

  /** With a clock that does not run back this is the reading of that very call. */
  lemma NextIsAcceptedExactlyLate(calls: seq<Call>, i: nat, j: nat)
    requires ClockAdvances(calls) && i < j < |calls| && calls[i].id == calls[j].id && LastBefore(calls, i, j)
    ensures Accepted(calls, j) <==> calls[i].retainUntil < calls[j].now
  {
    NextIsAcceptedExactly(calls, i, j);
  }

  /**
    Hence an identifier presented in time is accepted twice for one deadline only if a call in between came with a
    reading past that deadline; with a clock that does not run back, never.
  */
  lemma AcceptedOncePerDeadline(calls: seq<Call>, i: nat, j: nat)
    requires i < j < |calls| && Accepted(calls, i) && Accepted(calls, j) && calls[i].id == calls[j].id
    requires calls[j].now <= calls[j].retainUntil
    ensures calls[i].retainUntil < calls[j].retainUntil ||
            exists k :: i < k < j && calls[k].now > calls[i].retainUntil >= calls[j].now
    ensures ClockAdvances(calls) ==> calls[i].retainUntil < calls[j].retainUntil
  {
    AcceptedAgainOnlyPast(calls, i, j);
    var k :| i < k <= j && calls[k].now > calls[i].retainUntil;
  }

  /** Presented once in time and once more after its deadline, an identifier is accepted both times. */
  lemma LateCallIsAcceptedAgain(id: Id, deadline: int)
    ensures var calls := [Call(id, deadline, deadline), Call(id, deadline, deadline + 1)];
            ClockAdvances(calls) && Accepted(calls, 0) && Accepted(calls, 1)
  {
    var calls := [Call(id, deadline, deadline), Call(id, deadline, deadline + 1)];
    assert State(calls, 1) == After(map[], calls[0]);
  }

  /** Presented twice in time, it is accepted both times when a call in between reads past its deadline. */
  lemma EarlyReadingIsAcceptedAgain(id: Id, other: Id, deadline: int)
    requires id != other
    ensures var calls := [Call(id, deadline, deadline), Call(other, deadline + 2, deadline + 1),
                          Call(id, deadline, deadline)];
            Accepted(calls, 0) && Accepted(calls, 1) && Accepted(calls, 2)
  {
    var calls := [Call(id, deadline, deadline), Call(other, deadline + 2, deadline + 1), Call(id, deadline, deadline)];
    assert State(calls, 1) == After(map[], calls[0]);
    assert State(calls, 2) == After(State(calls, 1), calls[1]);
    assert id !in State(calls, 2);
  }
}
