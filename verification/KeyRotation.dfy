/**
  Online signing keys and the rule checked between successive keysets: a new signer is staged a day ahead, the old one
  stays published long enough for everything it signed, and no published key changes or disappears early.

  Times are milliseconds. A keyset is what remains of the signed object once its JSON has been parsed and its root
  signature verified.
*/
module KeyRotation {
  import opened Common

  const SECOND := 1000
  const DAY := 24 * 60 * 60 * SECOND

  datatype Use = Control | ServiceAuth
  datatype KeyState = Sign | VerifyOnly

  datatype OnlineKey = OnlineKey(
    keyId: string,
    use: Use,
    publicKey: seq<byte>,
    notBefore: int,
    notAfter: int,
    state: KeyState)

  datatype Keyset = Keyset(sequence: nat, issuedAt: int, expiresAt: int, keys: seq<OnlineKey>)

  predicate SameMaterial(a: OnlineKey, b: OnlineKey) {
    a.keyId == b.keyId && a.publicKey == b.publicKey && a.notBefore == b.notBefore && a.notAfter == b.notAfter
  }

  // ----- Selecting one key

  /** The positions of the keys a selector picks. */
  ghost predicate OnlyAt(keys: seq<OnlineKey>, pick: OnlineKey -> bool, i: nat) {
    i < |keys| && pick(keys[i]) && forall j :: 0 <= j < |keys| && pick(keys[j]) ==> j == i
  }

  /** The one key a selector picks; nothing if it picks none or several. */
  ghost function Sole(keys: seq<OnlineKey>, pick: OnlineKey -> bool): (r: Option<OnlineKey>)
    ensures r.Some? ==> r.value in keys && pick(r.value)
    ensures r.Some? ==> forall j :: 0 <= j < |keys| && pick(keys[j]) ==> keys[j] == r.value
  {
    if i: nat :| OnlyAt(keys, pick, i) then Some(keys[i]) else None
  }

  lemma SoleAt(keys: seq<OnlineKey>, pick: OnlineKey -> bool, i: nat)
    requires OnlyAt(keys, pick, i)
    ensures Sole(keys, pick) == Some(keys[i])
  {
  }

  /** The loop all selectors share. */
  method SelectSole(keys: seq<OnlineKey>, pick: OnlineKey -> bool) returns (r: Option<OnlineKey>)
    ensures r == Sole(keys, pick)
  {
    r := None;
    ghost var at: nat := 0;
    for index := 0 to |keys|
      invariant r.None? ==> forall j :: 0 <= j < index ==> !pick(keys[j])
      invariant r.Some? ==> at < index && r.value == keys[at] && pick(keys[at])
      invariant r.Some? ==> forall j :: 0 <= j < index && pick(keys[j]) ==> j == at
    {
      if !pick(keys[index]) {
        continue;
      }
      if r.Some? {
        assert forall i: nat :: OnlyAt(keys, pick, i) ==> at == i && index == i;
        return None;
      }
      r, at := Some(keys[index]), index;
    }
    if r.Some? {
      SoleAt(keys, pick, at);
    }
  }

  function Signs(use: Use): OnlineKey -> bool {
    (k: OnlineKey) => k.use == use && k.state == Sign
  }

  function Called(use: Use, keyId: string): OnlineKey -> bool {
    (k: OnlineKey) => k.use == use && k.keyId == keyId
  }

  function CalledBut(use: Use, excluded: string, keyId: string): OnlineKey -> bool {
    (k: OnlineKey) => k.use == use && k.keyId != excluded && k.keyId == keyId
  }

  // ----- One keyset

  /** The first `n` keys have identifiers of their own and windows that are not empty. */
  ghost predicate Screened(keys: seq<OnlineKey>, n: nat)
    requires n <= |keys|
  {
    && (forall i, j :: 0 <= i < j < n ==> keys[i].keyId != keys[j].keyId)
    && (forall i :: 0 <= i < n ==> keys[i].notBefore < keys[i].notAfter)
  }

  /** What is required of a keyset by itself, as far as online keys and times are concerned. */
  ghost predicate ValidKeyset(ks: Keyset) {
    && 0 < ks.sequence <= MAX_SAFE_INTEGER
    && ks.issuedAt < ks.expiresAt <= ks.issuedAt + DAY
    && 2 <= |ks.keys| <= 4
    && Screened(ks.keys, |ks.keys|)
    && forall use :: SignsAt(ks, use)
  }

  /** Exactly one key signs for a use, and it is active when the keyset is issued. */
  ghost predicate SignsAt(ks: Keyset, use: Use) {
    var signer := Sole(ks.keys, Signs(use));
    signer.Some? && signer.value.notBefore <= ks.issuedAt < signer.value.notAfter
  }

  function SignersAmong(keys: seq<OnlineKey>, use: Use, n: nat): nat
    requires n <= |keys|
  {
    if n == 0 then 0 else SignersAmong(keys, use, n - 1) + if Signs(use)(keys[n - 1]) then 1 else 0
  }

  lemma {:induction false} NoSigners(keys: seq<OnlineKey>, use: Use, n: nat)
    requires n <= |keys|
    ensures SignersAmong(keys, use, n) == 0 <==> forall i :: 0 <= i < n ==> !Signs(use)(keys[i])
  {
    if n > 0 {
      NoSigners(keys, use, n - 1);
    }
  }

  lemma {:induction false} OneSigner(keys: seq<OnlineKey>, use: Use, n: nat)
    requires n <= |keys|
    ensures SignersAmong(keys, use, n) == 1 <==>
              exists i :: 0 <= i < n && Signs(use)(keys[i]) && forall j :: 0 <= j < n && Signs(use)(keys[j]) ==> j == i
  {
    if n > 0 {
      OneSigner(keys, use, n - 1);
      NoSigners(keys, use, n - 1);
      if SignersAmong(keys, use, n) == 1 && Signs(use)(keys[n - 1]) {
        assert forall j :: 0 <= j < n && Signs(use)(keys[j]) ==> j == n - 1;
      }
    }
  }

  /** Counting the signers and finding an active one amounts to there being one signer, active at the instant. */
  lemma CountedSigner(ks: Keyset, use: Use)
    ensures SignsAt(ks, use) <==>
              SignersAmong(ks.keys, use, |ks.keys|) == 1 && Sole(ks.keys, SignsDuring(use, ks.issuedAt)).Some?
  {
    var keys, n := ks.keys, |ks.keys|;
    OneSigner(keys, use, n);
    if SignersAmong(keys, use, n) == 1 {
      var i :| 0 <= i < n && Signs(use)(keys[i]) && forall j :: 0 <= j < n && Signs(use)(keys[j]) ==> j == i;
      assert OnlyAt(keys, Signs(use), i);
      SoleAt(keys, Signs(use), i);
      if SignsDuring(use, ks.issuedAt)(keys[i]) {
        assert OnlyAt(keys, SignsDuring(use, ks.issuedAt), i);
        SoleAt(keys, SignsDuring(use, ks.issuedAt), i);
      }
    } else {
      assert forall i: nat :: !OnlyAt(keys, Signs(use), i);
    }
  }

  function SignsDuring(use: Use, at: int): OnlineKey -> bool {
    (k: OnlineKey) => k.use == use && k.state == Sign && k.notBefore <= at < k.notAfter
  }

  function IdsAmong(keys: seq<OnlineKey>, n: nat): set<string>
    requires n <= |keys|
  {
    set i | 0 <= i < n :: keys[i].keyId
  }

  lemma ScreenedGrows(keys: seq<OnlineKey>, n: nat)
    requires n < |keys| && Screened(keys, n)
    ensures IdsAmong(keys, n + 1) == IdsAmong(keys, n) + {keys[n].keyId}
    ensures Screened(keys, n + 1) <==> keys[n].keyId !in IdsAmong(keys, n) && keys[n].notBefore < keys[n].notAfter
    ensures Screened(keys, |keys|) ==> Screened(keys, n + 1)
  {
  }

  lemma BothSign(ks: Keyset)
    ensures (forall use :: SignsAt(ks, use)) <==>
              && SignersAmong(ks.keys, Control, |ks.keys|) == 1 && SignersAmong(ks.keys, ServiceAuth, |ks.keys|) == 1
              && Sole(ks.keys, SignsDuring(Control, ks.issuedAt)).Some?
              && Sole(ks.keys, SignsDuring(ServiceAuth, ks.issuedAt)).Some?
  {
    CountedSigner(ks, Control);
    CountedSigner(ks, ServiceAuth);
    assert SignsAt(ks, Control) && SignsAt(ks, ServiceAuth) ==> forall use :: SignsAt(ks, use);
  }

  /** The checks of a keyset's times and online keys, and of the clock when one is given. */
  method ValidateKeyset(ks: Keyset, now: Option<int>) returns (ok: bool)
    ensures ok <==> ValidKeyset(ks) && (now.Some? ==> ks.issuedAt <= now.value < ks.expiresAt)
  {
    if ks.expiresAt <= ks.issuedAt || ks.expiresAt - ks.issuedAt > DAY ||
       (now.Some? && (now.value < ks.issuedAt || now.value >= ks.expiresAt)) {
      return false;
    }
    if ks.sequence == 0 || ks.sequence > MAX_SAFE_INTEGER || |ks.keys| < 2 || |ks.keys| > 4 {
      return false;
    }
    var seen: set<string> := {};
    var control, service := 0, 0;
    for i := 0 to |ks.keys|
      invariant seen == IdsAmong(ks.keys, i) && Screened(ks.keys, i)
      invariant control == SignersAmong(ks.keys, Control, i) && service == SignersAmong(ks.keys, ServiceAuth, i)
    {
      var key := ks.keys[i];
      ScreenedGrows(ks.keys, i);
      if key.keyId in seen || key.notAfter <= key.notBefore {
        return false;
      }
      seen := seen + {key.keyId};
      if key.state == Sign {
        if key.use == Control {
          control := control + 1;
        } else {
          service := service + 1;
        }
      }
    }
    BothSign(ks);
    if control != 1 || service != 1 {
      return false;
    }
    var first := SelectSole(ks.keys, SignsDuring(Control, ks.issuedAt));
    var second := SelectSole(ks.keys, SignsDuring(ServiceAuth, ks.issuedAt));
    ok := first.Some? && second.Some?;
  }

  /** The verification key of an artifact: found by identifier and use, and active at the given instant. */
  ghost function KeyAt(keys: seq<OnlineKey>, keyId: string, use: Use, at: int): Option<seq<byte>> {
    if i: nat :| FirstCalled(keys, keyId, use, i) then
      if keys[i].notBefore <= at < keys[i].notAfter then Some(keys[i].publicKey) else None
    else None
  }

  ghost predicate FirstCalled(keys: seq<OnlineKey>, keyId: string, use: Use, i: nat) {
    && i < |keys| && keys[i].keyId == keyId && keys[i].use == use
    && forall j :: 0 <= j < i ==> keys[j].keyId != keyId || keys[j].use != use
  }

  method OnlineKeyAt(keys: seq<OnlineKey>, keyId: string, use: Use, at: int) returns (r: Option<seq<byte>>)
    ensures r == KeyAt(keys, keyId, use, at)
  {
    for index := 0 to |keys|
      invariant forall j :: 0 <= j < index ==> keys[j].keyId != keyId || keys[j].use != use
    {
      var key := keys[index];
      if key.keyId != keyId || key.use != use {
        continue;
      }
      assert FirstCalled(keys, keyId, use, index);
      assert forall i: nat :: FirstCalled(keys, keyId, use, i) ==> i == index;
      if at < key.notBefore || at >= key.notAfter {
        return None;
      }
      return Some(key.publicKey);
    }
    return None;
  }

  /** In a valid keyset the lookup finds the key itself. */
  lemma KeyAtFinds(ks: Keyset, k: OnlineKey, at: int)
    requires ValidKeyset(ks) && k in ks.keys && k.notBefore <= at < k.notAfter
    ensures KeyAt(ks.keys, k.keyId, k.use, at) == Some(k.publicKey)
  {
    var i: nat :| i < |ks.keys| && ks.keys[i] == k;
    assert FirstCalled(ks.keys, k.keyId, k.use, i);
  }

  // ----- The rotation rule

  /** How long the replaced signer must stay published after the keyset that replaces it. */
  function Retention(use: Use): int {
    match use
    case Control => 90 * SECOND
    case ServiceAuth => 125 * SECOND
  }

  ghost predicate KeyContinues(k: OnlineKey, after: seq<OnlineKey>, transitionIssued: int, cutoverIssued: int) {
    var next := Sole(after, Called(k.use, k.keyId));
    && !(k.notBefore > transitionIssued && cutoverIssued >= k.notBefore)
    && (cutoverIssued < k.notAfter ==> next.Some? && next.value.state == VerifyOnly)
    && (next.Some? ==> SameMaterial(k, next.value))
  }

  ghost predicate Continuity(before: seq<OnlineKey>, after: seq<OnlineKey>, use: Use, transitionIssued: int,
                             cutoverIssued: int, promoted: Option<string>, retired: Option<string>)
  {
    && (forall i :: 0 <= i < |before| && before[i].use == use && before[i].state == VerifyOnly &&
                    promoted != Some(before[i].keyId) ==>
                      KeyContinues(before[i], after, transitionIssued, cutoverIssued))
    && (forall i :: 0 <= i < |after| && after[i].use == use && after[i].state == VerifyOnly &&
                    retired != Some(after[i].keyId) ==>
                      Sole(before, Called(use, after[i].keyId)).Some? || after[i].notBefore - cutoverIssued >= DAY)
  }

  method ValidateVerifyOnlyContinuity(before: seq<OnlineKey>, after: seq<OnlineKey>, use: Use, transitionIssued: int,
                                      cutoverIssued: int, promoted: Option<string>, retired: Option<string>)
    returns (ok: bool)
    ensures ok == Continuity(before, after, use, transitionIssued, cutoverIssued, promoted, retired)
  {
    for index := 0 to |before|
      invariant forall i :: 0 <= i < index && before[i].use == use && before[i].state == VerifyOnly &&
                            promoted != Some(before[i].keyId) ==>
                              KeyContinues(before[i], after, transitionIssued, cutoverIssued)
    {
      var key := before[index];
      if key.use != use || key.state != VerifyOnly || promoted == Some(key.keyId) {
        continue;
      }
      if key.notBefore > transitionIssued && cutoverIssued >= key.notBefore {
        return false;
      }
      var next := SelectSole(after, Called(use, key.keyId));
      if cutoverIssued < key.notAfter {
        if next.None? || next.value.state != VerifyOnly || !SameMaterial(key, next.value) {
          return false;
        }
        continue;
      }
      if next.Some? && !SameMaterial(key, next.value) {
        return false;
      }
    }
    for index := 0 to |after|
      invariant forall i :: 0 <= i < index && after[i].use == use && after[i].state == VerifyOnly &&
                            retired != Some(after[i].keyId) ==>
                              || Sole(before, Called(use, after[i].keyId)).Some?
                              || after[i].notBefore - cutoverIssued >= DAY
    {
      var key := after[index];
      if key.use != use || key.state != VerifyOnly || retired == Some(key.keyId) {
        continue;
      }
      var existed := SelectSole(before, Called(use, key.keyId));
      if existed.Some? {
        continue;
      }
      if key.notBefore - cutoverIssued < DAY {
        return false;
      }
    }
    return true;
  }

  ghost predicate RotatesForUse(before: seq<OnlineKey>, after: seq<OnlineKey>, use: Use, transitionIssued: int,
                                cutoverIssued: int)
  {
    var oldSign, newSign := Sole(before, Signs(use)), Sole(after, Signs(use));
    && oldSign.Some? && newSign.Some?
    && if oldSign.value.keyId == newSign.value.keyId then
         && SameMaterial(oldSign.value, newSign.value)
         && Continuity(before, after, use, transitionIssued, cutoverIssued, None, None)
       else
         var staged := Sole(before, CalledBut(use, oldSign.value.keyId, newSign.value.keyId));
         var oldVerify := Sole(after, CalledBut(use, newSign.value.keyId, oldSign.value.keyId));
         && staged.Some? && staged.value.state == VerifyOnly
         && staged.value.notBefore - transitionIssued >= DAY
         && cutoverIssued >= staged.value.notBefore
         && SameMaterial(staged.value, newSign.value)
         && oldVerify.Some? && oldVerify.value.state == VerifyOnly
         && SameMaterial(oldSign.value, oldVerify.value)
         && oldVerify.value.notAfter >= cutoverIssued + Retention(use)
         && Continuity(before, after, use, transitionIssued, cutoverIssued, Some(staged.value.keyId),
                       Some(oldVerify.value.keyId))
  }

  method ValidateOnlineRotationForUse(before: seq<OnlineKey>, after: seq<OnlineKey>, use: Use, transitionIssued: int,
                                      cutoverIssued: int)
    returns (ok: bool)
    ensures ok == RotatesForUse(before, after, use, transitionIssued, cutoverIssued)
  {
    var oldSign := SelectSole(before, Signs(use));
    if oldSign.None? {
      return false;
    }
    var newSign := SelectSole(after, Signs(use));
    if newSign.None? {
      return false;
    }
    if oldSign.value.keyId == newSign.value.keyId {
      if !SameMaterial(oldSign.value, newSign.value) {
        return false;
      }
      ok := ValidateVerifyOnlyContinuity(before, after, use, transitionIssued, cutoverIssued, None, None);
      return;
    }
    var staged := SelectSole(before, CalledBut(use, oldSign.value.keyId, newSign.value.keyId));
    if staged.None? || staged.value.state != VerifyOnly || staged.value.notBefore - transitionIssued < DAY ||
       cutoverIssued < staged.value.notBefore || !SameMaterial(staged.value, newSign.value) {
      return false;
    }
    var oldVerify := SelectSole(after, CalledBut(use, newSign.value.keyId, oldSign.value.keyId));
    if oldVerify.None? || oldVerify.value.state != VerifyOnly || !SameMaterial(oldSign.value, oldVerify.value) {
      return false;
    }
    var retention := 90 * SECOND;
    if use == ServiceAuth {
      retention := 125 * SECOND;
    }
    if oldVerify.value.notAfter < cutoverIssued + retention {
      return false;
    }
    ok := ValidateVerifyOnlyContinuity(before, after, use, transitionIssued, cutoverIssued, Some(staged.value.keyId),
                                       Some(oldVerify.value.keyId));
  }

  ghost predicate Rotates(transition: Keyset, cutover: Keyset) {
    && 0 < transition.sequence < cutover.sequence
    && transition.issuedAt <= cutover.issuedAt
    && forall use :: RotatesForUse(transition.keys, cutover.keys, use, transition.issuedAt, cutover.issuedAt)
  }

  method ValidateOnlineRotation(transition: Keyset, cutover: Keyset) returns (ok: bool)
    ensures ok == Rotates(transition, cutover)
  {
    if transition.sequence == 0 || cutover.sequence == 0 || cutover.sequence <= transition.sequence ||
       cutover.issuedAt < transition.issuedAt {
      return false;
    }
    ok := ValidateOnlineRotationForUse(transition.keys, cutover.keys, Control, transition.issuedAt, cutover.issuedAt);
    if !ok {
      return;
    }
    ok := ValidateOnlineRotationForUse(transition.keys, cutover.keys, ServiceAuth, transition.issuedAt,
                                       cutover.issuedAt);
    forall use
      ensures ok ==> RotatesForUse(transition.keys, cutover.keys, use, transition.issuedAt, cutover.issuedAt)
    {
      match use
      case Control =>
      case ServiceAuth =>
    }
  }

  // ----- Chains of accepted keysets

  ghost predicate AcceptedChain(chain: seq<Keyset>) {
    && (forall i {:trigger ValidKeyset(chain[i])} :: 0 <= i < |chain| ==> ValidKeyset(chain[i]))
    && (forall i, j {:trigger Rotates(chain[i], chain[j])} :: 0 <= i < j < |chain| && j == i + 1 ==>
          Rotates(chain[i], chain[j]))
  }

  lemma ChainStep(chain: seq<Keyset>, i: nat)
    requires AcceptedChain(chain) && i + 1 < |chain|
    ensures ValidKeyset(chain[i]) && Rotates(chain[i], chain[i + 1])
  {
  }

  lemma RotatesAscends(chain: seq<Keyset>, i: nat)
    requires AcceptedChain(chain) && i + 1 < |chain|
    ensures chain[i].issuedAt <= chain[i + 1].issuedAt && chain[i].sequence < chain[i + 1].sequence
  {
    ChainStep(chain, i);
  }

  lemma {:induction false} ChainAscends(chain: seq<Keyset>, i: nat, j: nat)
    requires AcceptedChain(chain) && i <= j < |chain|
    ensures chain[i].issuedAt <= chain[j].issuedAt
    ensures i < j ==> chain[i].sequence < chain[j].sequence
    decreases j
  {
    if i < j {
      ChainAscends(chain, i, j - 1);
      RotatesAscends(chain, j - 1);
    }
  }

  /** The key is there, for the same use and unchanged. */
  ghost predicate Published(ks: Keyset, k: OnlineKey) {
    exists n :: n in ks.keys && n.use == k.use && SameMaterial(k, n)
  }

  /** One accepted rotation loses no key before its time. */
  lemma RotationPublishes(before: Keyset, after: Keyset, k: OnlineKey)
    requires ValidKeyset(before) && Rotates(before, after) && k in before.keys && after.issuedAt < k.notAfter
    ensures Published(after, k)
  {
    assert RotatesForUse(before.keys, after.keys, k.use, before.issuedAt, after.issuedAt);
    var i :| 0 <= i < |before.keys| && before.keys[i] == k;
    var oldSign, newSign := Sole(before.keys, Signs(k.use)).value, Sole(after.keys, Signs(k.use)).value;
    if k.state == Sign {
      assert Signs(k.use)(before.keys[i]);
      assert k == oldSign;
      if oldSign.keyId == newSign.keyId {
        assert newSign in after.keys;
      } else {
        var oldVerify := Sole(after.keys, CalledBut(k.use, newSign.keyId, oldSign.keyId)).value;
        assert oldVerify in after.keys;
      }
    } else if oldSign.keyId != newSign.keyId && k.keyId == newSign.keyId {
      assert CalledBut(k.use, oldSign.keyId, newSign.keyId)(before.keys[i]);
      assert k == Sole(before.keys, CalledBut(k.use, oldSign.keyId, newSign.keyId)).value;
      assert newSign in after.keys;
    } else {
      assert KeyContinues(before.keys[i], after.keys, before.issuedAt, after.issuedAt);
      var next := Sole(after.keys, Called(k.use, k.keyId)).value;
      assert next in after.keys;
    }
  }

  /**
    Along any chain of accepted keysets a key stays published, for the same use and unchanged, in every later keyset
    issued before the key expires.
  */
  lemma {:induction false} KeysPersist(chain: seq<Keyset>, i: nat, j: nat, k: OnlineKey)
    requires AcceptedChain(chain) && i <= j < |chain|
    requires k in chain[i].keys && chain[j].issuedAt < k.notAfter
    ensures Published(chain[j], k)
    decreases j
  {
    if i == j {
      assert SameMaterial(k, k);
    } else {
      ChainAscends(chain, j - 1, j);
      KeysPersist(chain, i, j - 1, k);
      var n :| n in chain[j - 1].keys && n.use == k.use && SameMaterial(k, n);
      assert ValidKeyset(chain[j - 1]) && Rotates(chain[j - 1], chain[j]);
      RotationPublishes(chain[j - 1], chain[j], n);
      var m :| m in chain[j].keys && m.use == n.use && SameMaterial(n, m);
      assert SameMaterial(k, m);
    }
  }

  ghost predicate IsSigner(ks: Keyset, k: OnlineKey) {
    exists n :: n in ks.keys && n.use == k.use && n.state == Sign && SameMaterial(k, n)
  }

  /** Every key that becomes the signer was staged, unchanged, a day before it may sign. */
  lemma PromotionWasStaged(before: Keyset, after: Keyset, k: OnlineKey)
    requires Rotates(before, after) && IsSigner(after, k)
    ensures IsSigner(before, k) ||
            ((exists s :: s in before.keys && s.use == k.use && s.state == VerifyOnly && SameMaterial(k, s)) &&
             k.notBefore - before.issuedAt >= DAY && k.notBefore <= after.issuedAt)
  {
    assert RotatesForUse(before.keys, after.keys, k.use, before.issuedAt, after.issuedAt);
    var n :| n in after.keys && n.use == k.use && n.state == Sign && SameMaterial(k, n);
    var oldSign, newSign := Sole(before.keys, Signs(k.use)).value, Sole(after.keys, Signs(k.use)).value;
    assert Signs(k.use)(n);
    assert n == newSign;
    if oldSign.keyId == newSign.keyId {
      assert oldSign in before.keys && SameMaterial(k, oldSign);
    } else {
      var staged := Sole(before.keys, CalledBut(k.use, oldSign.keyId, newSign.keyId)).value;
      assert staged in before.keys && SameMaterial(k, staged);
    }
  }

  lemma SignerWasActive(ks: Keyset, k: OnlineKey)
    requires ValidKeyset(ks) && IsSigner(ks, k)
    ensures k.notBefore <= ks.issuedAt < k.notAfter
  {
    var n :| n in ks.keys && n.use == k.use && n.state == Sign && SameMaterial(k, n);
    assert SignsAt(ks, k.use) && Signs(k.use)(n);
  }

  lemma NoLatePromotion(before: Keyset, after: Keyset, k: OnlineKey)
    requires Rotates(before, after) && !IsSigner(before, k) && k.notBefore <= before.issuedAt
    ensures !IsSigner(after, k)
  {
    if IsSigner(after, k) {
      PromotionWasStaged(before, after, k);
    }
  }

  lemma NoLatePromotionAt(chain: seq<Keyset>, j: nat, k: OnlineKey)
    requires AcceptedChain(chain) && 0 < j < |chain|
    requires !IsSigner(chain[j - 1], k) && k.notBefore <= chain[j - 1].issuedAt
    ensures !IsSigner(chain[j], k)
  {
    ChainStep(chain, j - 1);
    NoLatePromotion(chain[j - 1], chain[j], k);
  }

  lemma {:induction false} NeverAgain(chain: seq<Keyset>, r: nat, j: nat, k: OnlineKey)
    requires AcceptedChain(chain) && r <= j < |chain|
    requires !IsSigner(chain[r], k) && k.notBefore <= chain[r].issuedAt
    ensures !IsSigner(chain[j], k)
    decreases j
  {
    if r < j {
      NeverAgain(chain, r, j - 1, k);
      ChainAscends(chain, r, j - 1);
      NoLatePromotionAt(chain, j, k);
    }
  }

  /** Once replaced, a key never signs again in its validity window: its start lies in the past for good. */
  lemma NoResurrection(chain: seq<Keyset>, i: nat, r: nat, j: nat, k: OnlineKey)
    requires AcceptedChain(chain) && i < r <= j < |chain|
    requires IsSigner(chain[i], k) && !IsSigner(chain[r], k)
    ensures !IsSigner(chain[j], k)
  {
    ChainAscends(chain, i, r);
    SignerWasActive(chain[i], k);
    NeverAgain(chain, r, j, k);
  }

  /** The keyset that replaces a signer keeps it published for the whole retention. */
  lemma RetirementRetains(before: Keyset, after: Keyset, k: OnlineKey)
    requires Rotates(before, after) && IsSigner(before, k)
    ensures IsSigner(after, k) || k.notAfter >= after.issuedAt + Retention(k.use)
  {
    assert RotatesForUse(before.keys, after.keys, k.use, before.issuedAt, after.issuedAt);
    var n :| n in before.keys && n.use == k.use && n.state == Sign && SameMaterial(k, n);
    var oldSign, newSign := Sole(before.keys, Signs(k.use)).value, Sole(after.keys, Signs(k.use)).value;
    assert Signs(k.use)(n);
    assert n == oldSign;
    if oldSign.keyId == newSign.keyId {
      assert SameMaterial(k, newSign) && newSign in after.keys;
    }
  }

  /** The first keyset after `i` in which the key no longer signs. */
  ghost predicate RetiredAt(chain: seq<Keyset>, i: nat, r: nat, k: OnlineKey)
    requires i < |chain| && r < |chain|
  {
    i < r && !IsSigner(chain[r], k) && forall m :: i <= m < r ==> IsSigner(chain[m], k)
  }

  lemma {:induction false} SignsUntilRetired(chain: seq<Keyset>, i: nat, j: nat, k: OnlineKey) returns (r: nat)
    requires i <= j < |chain| && IsSigner(chain[i], k) && !IsSigner(chain[j], k)
    ensures r <= j && RetiredAt(chain, i, r, k)
  {
    r := i;
    while IsSigner(chain[r], k)
      invariant i <= r <= j && forall m :: i <= m < r ==> IsSigner(chain[m], k)
      decreases j - r
    {
      r := r + 1;
    }
  }

  /**
    A key that signs in one accepted keyset is still published, unchanged, in every later keyset already issued at
    `now`, as long as `now` lies within the retention of the keyset that replaces it.
  */
  lemma SignerStaysVerifiable(chain: seq<Keyset>, i: nat, j: nat, k: OnlineKey, now: int)
    requires AcceptedChain(chain) && i <= j < |chain|
    requires IsSigner(chain[i], k) && chain[j].issuedAt <= now
    requires forall r :: i < r <= j && RetiredAt(chain, i, r, k) ==> now < chain[r].issuedAt + Retention(k.use)
    ensures Published(chain[j], k)
  {
    if IsSigner(chain[j], k) {
      var n :| n in chain[j].keys && n.use == k.use && n.state == Sign && SameMaterial(k, n);
    } else {
      var r := SignsUntilRetired(chain, i, j, k);
      assert IsSigner(chain[r - 1], k) && Rotates(chain[r - 1], chain[r]);
      RetirementRetains(chain[r - 1], chain[r], k);
      var n :| n in chain[i].keys && n.use == k.use && n.state == Sign && SameMaterial(k, n);
      KeysPersist(chain, i, j, n);
      var m :| m in chain[j].keys && m.use == n.use && SameMaterial(n, m);
      assert SameMaterial(k, m);
    }
  }
}
