/** The monotone replay window: one scope, and a high-water mark that only rises. */
module ReplayWindow {
  import opened Common
  import opened Framing
  import opened Headers

  datatype Scope = Scope(environment: string, aliasDay: string, routeAlias: RouteAlias, routeKeyEpoch: uint32,
                         noncePrefix: NoncePrefix)

  function ScopeOf(h: Header): Scope {
    Scope(h.environment, h.aliasDay, h.routeAlias, h.routeKeyEpoch, h.noncePrefix)
  }

  datatype State = State(scope: Scope, highest: uint64)

  /** A window that is missing, has accepted nothing yet, or holds a state. */
  datatype Window = Missing | Fresh | Holding(state: State)

  predicate Accepts(w: Window, h: Header) {
    match w
    case Missing => false
    case Fresh => true
    case Holding(state) => state.scope == ScopeOf(h) && h.sequence > state.highest
  }

  function Refusal(w: Window, h: Header): Error {
    if w.Holding? && w.state.scope == ScopeOf(h) then Replay else ReplayState
  }

  /** An accepted header becomes the state; a refused one changes nothing. */
  function Advanced(w: Window, h: Header): Window {
    if Accepts(w, h) then Holding(State(ScopeOf(h), h.sequence)) else w
  }

  /** The checks of a restore, which completes the state to a header. */
  predicate Restorable(state: State) {
    Valid(Header(1, state.scope.environment, state.scope.aliasDay, state.scope.routeAlias, state.scope.routeKeyEpoch,
                 state.scope.noncePrefix, state.highest))
  }

  /** Saving a window and restoring what was saved; a window that holds nothing leaves nothing to restore. */
  function Transferred(w: Window): Window {
    if w.Holding? && !Restorable(w.state) then Missing else w
  }

  class ReplayWindow {
    var initialized: bool
    var environment: string
    var aliasDay: string
    var routeAlias: RouteAlias
    var routeEpoch: uint32
    var noncePrefix: NoncePrefix
    var highest: uint64

    ghost function View(): Window
      reads this
    {
      if !initialized then Fresh
      else Holding(State(Scope(environment, aliasDay, routeAlias, routeEpoch, noncePrefix), highest))
    }

    constructor ()
      ensures View() == Fresh
    {
      initialized := false;
      environment, aliasDay := "", "";
      routeAlias, routeEpoch, noncePrefix, highest := seq(16, _ => 0), 0, seq(4, _ => 0), 0;
    }

    constructor At(state: State)
      ensures View() == Holding(state)
    {
      initialized := true;
      environment, aliasDay, routeAlias := state.scope.environment, state.scope.aliasDay, state.scope.routeAlias;
      routeEpoch, noncePrefix, highest := state.scope.routeKeyEpoch, state.scope.noncePrefix, state.highest;
    }

    method Snapshot() returns (r: Option<State>)
      ensures r == if View().Holding? then Some(View().state) else None
    {
      if !initialized {
        return None;
      }
      return Some(State(Scope(environment, aliasDay, routeAlias, routeEpoch, noncePrefix), highest));
    }

    method CompareAndAdvanceAuthenticated(h: Header) returns (e: Option<Error>)
      modifies this
      ensures View() == Advanced(old(View()), h)
      ensures e == if Accepts(old(View()), h) then None else Some(Refusal(old(View()), h))
    {
      if !initialized {
        initialized := true;
        environment, aliasDay, routeAlias := h.environment, h.aliasDay, h.routeAlias;
        routeEpoch, noncePrefix, highest := h.routeKeyEpoch, h.noncePrefix, h.sequence;
        return None;
      }
      if environment != h.environment || aliasDay != h.aliasDay || routeAlias != h.routeAlias ||
         routeEpoch != h.routeKeyEpoch || noncePrefix != h.noncePrefix {
        return Some(ReplayState);
      }
      if h.sequence <= highest {
        return Some(Replay);
      }
      highest := h.sequence;
      return None;
    }
  }

  method RestoreReplayWindow(state: State) returns (w: ReplayWindow?)
    ensures w == null <==> !Restorable(state)
    ensures w != null ==> fresh(w) && w.View() == Holding(state)
  {
    var header := Header(1, state.scope.environment, state.scope.aliasDay, state.scope.routeAlias,
                         state.scope.routeKeyEpoch, state.scope.noncePrefix, state.highest);
    if !Valid(header) {
      return null;
    }
    w := new ReplayWindow.At(state);
  }

  // ----- Any sequence of calls

  /** A call with an authenticated header, or a transfer of the window. */
  datatype Op = Call(h: Header) | Transfer

  function Apply(w: Window, op: Op): Window {
    match op
    case Call(h) => Advanced(w, h)
    case Transfer => Transferred(w)
  }

  function After(w: Window, ops: seq<Op>, n: nat): Window
    requires n <= |ops|
  {
    if n == 0 then w else Apply(After(w, ops, n - 1), ops[n - 1])
  }

  /** The operation is a call that was accepted. */
  predicate AcceptedAt(w: Window, ops: seq<Op>, i: nat)
    requires i < |ops|
  {
    ops[i].Call? && Accepts(After(w, ops, i), ops[i].h)
  }

  predicate Covers(w: Window, state: State) {
    w.Missing? || (w.Holding? && w.state.scope == state.scope && w.state.highest >= state.highest)
  }

  /** A state once held is never lost but to a failed restore, and the mark never falls. */
  lemma {:induction false} MarkNeverFalls(w: Window, ops: seq<Op>, i: nat, n: nat, state: State)
    requires i <= n <= |ops| && Covers(After(w, ops, i), state)
    ensures Covers(After(w, ops, n), state)
    decreases n
  {
    if i < n {
      MarkNeverFalls(w, ops, i, n - 1, state);
    }
  }

  /** All headers ever accepted share one scope and have strictly increasing sequences. */
  lemma AcceptedAscend(w: Window, ops: seq<Op>, i: nat, j: nat)
    requires i < j < |ops| && AcceptedAt(w, ops, i) && AcceptedAt(w, ops, j)
    ensures ScopeOf(ops[i].h) == ScopeOf(ops[j].h) && ops[i].h.sequence < ops[j].h.sequence
  {
    MarkNeverFalls(w, ops, i + 1, j, State(ScopeOf(ops[i].h), ops[i].h.sequence));
  }

  /** Nothing at or below a restored mark, and nothing of another scope, is ever accepted. */
  lemma RestoredBounds(state: State, ops: seq<Op>, i: nat)
    requires i < |ops| && AcceptedAt(Holding(state), ops, i)
    ensures ScopeOf(ops[i].h) == state.scope && state.highest < ops[i].h.sequence
  {
    MarkNeverFalls(Holding(state), ops, 0, i, state);
  }

  // ----- Transfers between the calls

  predicate SafeToTransfer(w: Window) {
    w.Holding? ==> Restorable(w.state)
  }

  /** What a restore checks of the header that made the state; the schema version is not part of the state. */
  predicate Storable(h: Header) {
    Valid(h.(schemaVersion := 1))
  }

  lemma SafeExactly(w: Window, h: Header)
    requires SafeToTransfer(w)
    ensures SafeToTransfer(Advanced(w, h)) <==> (Accepts(w, h) ==> Storable(h))
  {
  }

  /** The window after the first calls of a sequence, with no transfer. */
  function Plainly(w: Window, calls: seq<Header>, n: nat): Window
    requires n <= |calls|
  {
    if n == 0 then w else Advanced(Plainly(w, calls, n - 1), calls[n - 1])
  }

  /** The headers called among the first operations. */
  function Called(ops: seq<Op>, n: nat): seq<Header>
    requires n <= |ops|
  {
    if n == 0 then []
    else match ops[n - 1]
      case Transfer => Called(ops, n - 1)
      case Call(h) => Called(ops, n - 1) + [h]
  }

  lemma {:induction false} CalledIsPrefix(ops: seq<Op>, m: nat, n: nat)
    requires m <= n <= |ops|
    ensures Called(ops, m) <= Called(ops, n)
    decreases n
  {
    if m < n {
      CalledIsPrefix(ops, m, n - 1);
    }
  }

  /** With transfers inserted, the window after any operation is the one that the calls so far produce by themselves. */
  ghost predicate SameAs(w: Window, calls: seq<Header>, ops: seq<Op>) {
    forall n {:trigger After(w, ops, n)} :: 0 <= n <= |ops| && |Called(ops, n)| <= |calls| ==>
      After(w, ops, n) == Plainly(w, calls, |Called(ops, n)|)
  }

  ghost predicate Invisible(w: Window, calls: seq<Header>) {
    forall ops: seq<Op> :: Called(ops, |ops|) == calls ==> SameAs(w, calls, ops)
  }

  /** Every accepted header passes the checks of a restore. */
  ghost predicate AllStorable(w: Window, calls: seq<Header>) {
    forall i :: 0 <= i < |calls| && Accepts(Plainly(w, calls, i), calls[i]) ==> Storable(calls[i])
  }

  lemma {:induction false} StorableIsInvisible(w: Window, calls: seq<Header>, ops: seq<Op>, n: nat)
    requires SafeToTransfer(w) && AllStorable(w, calls) && Called(ops, |ops|) == calls && n <= |ops|
    ensures |Called(ops, n)| <= |calls| && After(w, ops, n) == Plainly(w, calls, |Called(ops, n)|)
    ensures SafeToTransfer(After(w, ops, n))
  {
    CalledIsPrefix(ops, n, |ops|);
    if n > 0 {
      StorableIsInvisible(w, calls, ops, n - 1);
      var k, v := |Called(ops, n - 1)|, After(w, ops, n - 1);
      if ops[n - 1].Call? {
        assert calls[k] == Called(ops, n)[k] == ops[n - 1].h;
      }
      OneOperation(v, ops[n - 1]);
    }
  }

  lemma OneOperation(w: Window, op: Op)
    requires SafeToTransfer(w) && (op.Call? && Accepts(w, op.h) ==> Storable(op.h))
    ensures SafeToTransfer(Apply(w, op)) && (op.Transfer? ==> Apply(w, op) == w)
  {
    if op.Call? {
      SafeExactly(w, op.h);
    }
  }

  /** The calls with one transfer, after call `i`. */
  function WithTransfer(calls: seq<Header>, i: nat): seq<Op>
    requires i < |calls|
  {
    seq(|calls| + 1, k requires 0 <= k <= |calls| =>
      if k <= i then Call(calls[k]) else if k == i + 1 then Transfer else Call(calls[k - 1]))
  }

  lemma {:induction false} WithTransferCalls(calls: seq<Header>, i: nat, n: nat)
    requires i < |calls| && n <= |calls| + 1
    ensures Called(WithTransfer(calls, i), n) == if n <= i + 1 then calls[..n] else calls[..n - 1]
  {
    if n > 0 {
      WithTransferCalls(calls, i, n - 1);
    }
  }

  lemma {:induction false} WithTransferSame(w: Window, calls: seq<Header>, i: nat, n: nat)
    requires i < |calls| && n <= i + 1
    ensures After(w, WithTransfer(calls, i), n) == Plainly(w, calls, n)
  {
    if n > 0 {
      WithTransferSame(w, calls, i, n - 1);
    }
  }

  /** A transfer right after an accepted header that is not storable loses the window. */
  lemma NotStorableIsVisible(w: Window, calls: seq<Header>, i: nat)
    requires SafeToTransfer(w) && i < |calls| && Accepts(Plainly(w, calls, i), calls[i]) && !Storable(calls[i])
    ensures !Invisible(w, calls)
  {
    WithTransferCount(calls, i);
    LostAfterTransfer(w, calls, i);
    VisibleAt(w, calls, WithTransfer(calls, i), i);
  }

  lemma WithTransferCount(calls: seq<Header>, i: nat)
    requires i < |calls|
    ensures var ops := WithTransfer(calls, i);
            |ops| == |calls| + 1 && Called(ops, |ops|) == calls && |Called(ops, i + 2)| == i + 1
  {
    WithTransferCalls(calls, i, |calls| + 1);
    WithTransferCalls(calls, i, i + 2);
  }

  lemma VisibleAt(w: Window, calls: seq<Header>, ops: seq<Op>, i: nat)
    requires i < |calls| && |ops| == |calls| + 1 && Called(ops, |ops|) == calls && |Called(ops, i + 2)| == i + 1
    requires After(w, ops, i + 2) != Plainly(w, calls, i + 1)
    ensures !Invisible(w, calls)
  {
  }

  lemma LostAfterTransfer(w: Window, calls: seq<Header>, i: nat)
    requires i < |calls| && Accepts(Plainly(w, calls, i), calls[i]) && !Storable(calls[i])
    ensures After(w, WithTransfer(calls, i), i + 2) != Plainly(w, calls, i + 1)
  {
    WithTransferSame(w, calls, i, i + 1);
    assert After(w, WithTransfer(calls, i), i + 2) == Transferred(Plainly(w, calls, i + 1));
  }

  lemma AllStorableIsInvisible(w: Window, calls: seq<Header>)
    requires SafeToTransfer(w) && AllStorable(w, calls)
    ensures Invisible(w, calls)
  {
    forall ops: seq<Op> | Called(ops, |ops|) == calls
      ensures SameAs(w, calls, ops)
    {
      forall n | 0 <= n <= |ops| && |Called(ops, n)| <= |calls|
        ensures After(w, ops, n) == Plainly(w, calls, |Called(ops, n)|)
      {
        StorableIsInvisible(w, calls, ops, n);
      }
    }
  }

  /**
    From a window that can be transferred, transfers inserted anywhere between the calls change no window, and so no
    outcome, exactly when every accepted header would pass the checks of a restore.
  */
  lemma InvisibleExactly(w: Window, calls: seq<Header>)
    requires SafeToTransfer(w)
    ensures Invisible(w, calls) <==> AllStorable(w, calls)
  {
    if AllStorable(w, calls) {
      AllStorableIsInvisible(w, calls);
    } else {
      var i :| 0 <= i < |calls| && Accepts(Plainly(w, calls, i), calls[i]) && !Storable(calls[i]);
      NotStorableIsVisible(w, calls, i);
    }
  }

  /** In particular, headers that the wrapper has validated never show a transfer, accepted or refused. */
  lemma ValidCallsHideTransfers(w: Window, calls: seq<Header>)
    requires SafeToTransfer(w) && forall i :: 0 <= i < |calls| ==> Valid(calls[i])
    ensures Invisible(w, calls)
  {
    forall i | 0 <= i < |calls|
      ensures Storable(calls[i])
    {
      assert calls[i].(schemaVersion := 1) == calls[i];
    }
    InvisibleExactly(w, calls);
  }

  /** Without that validation a transfer can lose the window: a header of epoch 0 is accepted and not restorable. */
  lemma InvalidHeaderIsLost(h: Header)
    requires h.routeKeyEpoch == 0
    ensures After(Fresh, [Call(h), Transfer], 2) == Missing && After(Fresh, [Call(h)], 1).Holding?
  {
    var ops := [Call(h), Transfer];
    assert After(Fresh, ops, 1) == Apply(After(Fresh, ops, 0), ops[0]);
  }
}
