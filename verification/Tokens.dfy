/**
  Service tokens and control assertions in flight across key rotations: what one accepted keyset allowed to be signed
  still verifies under every later accepted keyset until it has expired.
*/
module Tokens {
  import opened Common
  import opened KeyRotation

  /** A decoded token; `formed` says that its segments had the exact spelling and fields. Claim times are seconds. */
  datatype Token = Token(
    formed: bool,
    alg: string,
    typ: string,
    kid: string,
    iss: string,
    sub: string,
    aud: string,
    environment: string,
    jti: string,
    verb: string,
    path: string,
    requestHash: string,
    iat: nat,
    nbf: nat,
    exp: nat,
    signingInput: string,
    signature: seq<byte>)

  /** What the request at hand demands of its token; `bodyHash` is the hexadecimal digest of its body. */
  datatype Expected = Expected(environment: string, verb: string, path: string, bodyHash: string)

  datatype Verified = Verified(environment: string, jti: string, keyId: string, issuedAt: int, expiresAt: int,
                               retainUntil: int)

  type Verifier = (seq<byte>, string, seq<byte>) -> bool

  predicate CanonicalUuid(s: string) {
    |s| == 36 && forall i :: 0 <= i < 36 ==>
      if i == 8 || i == 13 || i == 18 || i == 23 then s[i] == '-' else IsLowerHex(s[i])
  }

  predicate UpperCase(s: string) {
    forall i :: 0 <= i < |s| ==> !('a' <= s[i] <= 'z')
  }

  predicate PlainPath(s: string) {
    forall i :: 0 <= i < |s| ==> s[i] != '?' && s[i] != '#'
  }

  /** The token is a service token for exactly this request. */
  predicate Bound(t: Token, e: Expected) {
    && t.formed && t.alg == "EdDSA" && t.typ == "JWT"
    && t.iss == "hytch-modern-api" && t.sub == "xmtp-push-a9-adapter" && t.aud == "hytch.xmtp-push-bridge.a9-control"
    && t.environment == e.environment && CanonicalUuid(t.jti)
    && t.verb != "" && UpperCase(t.verb) && t.verb == e.verb
    && t.path != "" && PlainPath(t.path) && t.path == e.path
    && LowerHex64(t.requestHash) && t.requestHash == e.bodyHash
  }

  /** The order and length of the claim times: at most a minute of life, at most five seconds between nbf and iat. */
  predicate ClaimTimes(t: Token) {
    && t.iat <= MAX_SAFE_INTEGER && t.nbf <= MAX_SAFE_INTEGER && t.exp <= MAX_SAFE_INTEGER
    && t.iat < t.exp <= t.iat + 60
    && t.nbf <= t.iat <= t.nbf + 5
  }

  /** The instants at which a token may be presented, five seconds of skew on either side. */
  predicate InWindow(t: Token, now: int) {
    && t.iat * SECOND - 5 * SECOND <= now
    && t.nbf * SECOND - 5 * SECOND <= now
    && now <= (t.exp + 5) * SECOND
  }

  ghost predicate JwtAccepted(verify: Verifier, t: Token, e: Expected, keyset: Option<Keyset>, now: int) {
    && Bound(t, e) && ClaimTimes(t) && InWindow(t, now)
    && keyset.Some?
    && var key := KeyAt(keyset.value.keys, t.kid, ServiceAuth, t.iat * SECOND);
       key.Some? && verify(key.value, t.signingInput, t.signature)
  }

  /** Accepts exactly those, and reports a replay deadline that has not passed. */
  method ValidateJWT(verify: Verifier, t: Token, e: Expected, keyset: Option<Keyset>, now: int)
    returns (r: Option<Verified>)
    ensures r.Some? <==> JwtAccepted(verify, t, e, keyset, now)
    ensures r.Some? ==> r.value.environment == e.environment && r.value.jti == t.jti && r.value.keyId == t.kid
    ensures r.Some? ==> now <= r.value.retainUntil == r.value.expiresAt + 5 * SECOND <= r.value.issuedAt + 65 * SECOND
  {
    if !t.formed || t.alg != "EdDSA" || t.typ != "JWT" {
      return None;
    }
    if t.iss != "hytch-modern-api" || t.sub != "xmtp-push-a9-adapter" || t.aud != "hytch.xmtp-push-bridge.a9-control" ||
       t.environment != e.environment || !CanonicalUuid(t.jti) {
      return None;
    }
    if t.verb == "" || !UpperCase(t.verb) || t.verb != e.verb || t.path == "" || !PlainPath(t.path) ||
       t.path != e.path || !LowerHex64(t.requestHash) || t.requestHash != e.bodyHash {
      return None;
    }
    if t.iat > MAX_SAFE_INTEGER || t.nbf > MAX_SAFE_INTEGER {
      return None;
    }
    if t.exp > MAX_SAFE_INTEGER || t.exp <= t.iat || t.exp - t.iat > 60 || t.nbf > t.iat || t.nbf + 5 < t.iat {
      return None;
    }
    var issuedAt, notBefore, retainUntil := t.iat * SECOND, t.nbf * SECOND, (t.exp + 5) * SECOND;
    if now < issuedAt - 5 * SECOND || now < notBefore - 5 * SECOND || now > retainUntil || keyset.None? {
      return None;
    }
    var key := OnlineKeyAt(keyset.value.keys, t.kid, ServiceAuth, issuedAt);
    if key.None? || !verify(key.value, t.signingInput, t.signature) {
      return None;
    }
    return Some(Verified(e.environment, t.jti, t.kid, issuedAt, t.exp * SECOND, retainUntil));
  }

  /** An artifact's key is found unchanged wherever that key is still published. */
  lemma PublishedKeyVerifies(ks: Keyset, k: OnlineKey, at: int)
    requires ValidKeyset(ks) && Published(ks, k) && k.notBefore <= at < k.notAfter
    ensures KeyAt(ks.keys, k.keyId, k.use, at) == Some(k.publicKey)
  {
    var n :| n in ks.keys && n.use == k.use && SameMaterial(k, n);
    KeyAtFinds(ks, n, at);
  }

  /**
    A token signed inside its key's window by the signer of one accepted keyset, and issued less than a minute after the
    keyset that replaces that signer (if any), is accepted under every later accepted keyset already issued, from five
    seconds before it was issued until five seconds after it expires.
  */
  lemma RotationSparesTokens(verify: Verifier, chain: seq<Keyset>, i: nat, j: nat, k: OnlineKey, t: Token, e: Expected,
                             now: int)
    requires AcceptedChain(chain) && i <= j < |chain|
    requires IsSigner(chain[i], k) && k.use == ServiceAuth && k.notBefore <= t.iat * SECOND < k.notAfter
    requires Bound(t, e) && t.kid == k.keyId && verify(k.publicKey, t.signingInput, t.signature)
    requires ClaimTimes(t) && InWindow(t, now) && chain[j].issuedAt <= now
    requires forall r :: i < r <= j && RetiredAt(chain, i, r, k) ==> t.iat * SECOND < chain[r].issuedAt + 60 * SECOND
    ensures JwtAccepted(verify, t, e, Some(chain[j]), now)
  {
    forall r | i < r <= j && RetiredAt(chain, i, r, k)
      ensures now < chain[r].issuedAt + Retention(k.use)
    {
    }
    SignerStaysVerifiable(chain, i, j, k, now);
    PublishedKeyVerifies(chain[j], k, t.iat * SECOND);
  }

  /** A signed control assertion, as far as its times, its key and its signature are concerned. */
  datatype Assertion = Assertion(keyId: string, issued: int, expires: int, signingInput: string, signature: seq<byte>)

  /** The longest life of a control assertion. */
  const ASSERTION_LIFE := 30 * SECOND

  /** The time, key and signature checks of an assertion, which is verified only before it expires. */
  ghost predicate AssertionVerifies(verify: Verifier, a: Assertion, ks: Keyset, now: int) {
    && a.issued < a.expires <= a.issued + ASSERTION_LIFE && a.issued <= now < a.expires
    && var key := KeyAt(ks.keys, a.keyId, Control, a.issued);
       key.Some? && verify(key.value, a.signingInput, a.signature)
  }

  /**
    An assertion that verifies under the accepted keyset of its signer, and was issued no more than a minute after the
    keyset that replaces that signer (if any), verifies at every instant of its life under every later accepted keyset
    already issued.
  */
  lemma RotationSparesAssertions(verify: Verifier, chain: seq<Keyset>, i: nat, j: nat, k: OnlineKey, a: Assertion,
                                 now: int, later: int)
    requires AcceptedChain(chain) && i <= j < |chain|
    requires IsSigner(chain[i], k) && k.use == Control && k.keyId == a.keyId && k.notBefore <= a.issued < k.notAfter
    requires AssertionVerifies(verify, a, chain[i], now)
    requires a.issued <= later < a.expires && chain[j].issuedAt <= later
    requires forall r :: i < r <= j && RetiredAt(chain, i, r, k) ==> a.issued <= chain[r].issuedAt + 60 * SECOND
    ensures AssertionVerifies(verify, a, chain[j], later)
  {
    forall r | i < r <= j && RetiredAt(chain, i, r, k)
      ensures later < chain[r].issuedAt + Retention(k.use)
    {
    }
    SignerIsPublished(chain[i], k);
    PublishedKeyVerifies(chain[i], k, a.issued);
    SignerStaysVerifiable(chain, i, j, k, later);
    PublishedKeyVerifies(chain[j], k, a.issued);
  }

  lemma SignerIsPublished(ks: Keyset, k: OnlineKey)
    requires IsSigner(ks, k)
    ensures Published(ks, k)
  {
    var n :| n in ks.keys && n.use == k.use && n.state == Sign && SameMaterial(k, n);
  }
}
