/** Sealing a delivery into a wrapper and opening it again, over an ideal AEAD. */
module Wrapper {
  import opened Common
  import opened Framing
  import opened Headers
  import R = ReplayWindow

  const ROUTE_KEY_SIZE := 32
  const MAX_TOPIC := 4 * 1024
  const MAX_SEALED := FIXED + MAX_CAPABILITY + MAX_MESSAGE + MAX_PADDING + TAG

  /** The route and day-key derivations and the AEAD, as the wrapper uses them. */
  datatype Primitives = Primitives(
    alias: (seq<byte>, seq<byte>, string, string) -> RouteAlias,
    dayKey: (seq<byte>, string, string, RouteAlias, uint32) -> seq<byte>,
    seal: (seq<byte>, seq<byte>, seq<byte>, string) -> seq<byte>,
    open: (seq<byte>, seq<byte>, seq<byte>, string) -> Option<seq<byte>>)

  /** Opening inverts sealing under the same key, nonce and header, and the tag adds its length. */
  ghost predicate Ideal(c: Primitives) {
    forall key, nonce, plaintext, aad {:trigger c.seal(key, nonce, plaintext, aad)} ::
      && |c.seal(key, nonce, plaintext, aad)| == |plaintext| + TAG
      && c.open(key, nonce, c.seal(key, nonce, plaintext, aad), aad) == Some(plaintext)
  }

  datatype Route = Route(routeKey: seq<byte>, topic: seq<byte>, environment: string, aliasDay: string,
                         routeKeyEpoch: uint32)

  datatype Request = Request(
    route: Route,
    noncePrefix: NoncePrefix,
    sequence: uint64,
    capability: seq<byte>,
    message: seq<byte>,
    inlinePadding: seq<byte>,
    foregroundPadding: seq<byte>)

  datatype Envelope = Envelope(header: Header, ciphertext: seq<byte>)

  datatype SizeEstimate =
    SizeEstimate(mode: Mode, headerBytes: nat, innerBytes: nat, sealedBytes: nat, base64Bytes: nat)

  function RouteError(routeKey: seq<byte>, topic: seq<byte>, environment: string, aliasDay: string): Option<Error> {
    if |routeKey| != ROUTE_KEY_SIZE then Some(InvalidRouteKey)
    else if |topic| == 0 || |topic| > MAX_TOPIC then Some(InvalidTopic)
    else if !ValidEnvironment(environment) then Some(InvalidEnvironment)
    else if !ValidDay(aliasDay) then Some(InvalidDay)
    else None
  }

  function Estimate(mode: Mode, aad: nat, capability: nat, message: nat, padding: nat): Result<SizeEstimate> {
    var e := LengthError(mode, capability, message, padding);
    if e.Some? then Err(e.value)
    else
      var inner := FIXED + capability + message + padding;
      var sealed := inner + TAG;
      Ok(SizeEstimate(mode, aad, inner, sealed, (sealed + 2) / 3 * 4))
  }

  // ----- What a request seals to

  function HeaderFor(q: Request, c: Primitives): Header {
    var r := q.route;
    var alias := c.alias(r.routeKey, r.topic, r.environment, r.aliasDay);
    Header(1, r.environment, r.aliasDay, alias, r.routeKeyEpoch, q.noncePrefix, q.sequence)
  }

  function InlinePlaintext(q: Request): Plaintext {
    Plaintext(q.capability, Inline, q.message, q.inlinePadding)
  }

  function ForegroundPlaintext(q: Request): Plaintext {
    Plaintext(q.capability, ForegroundSync, [], q.foregroundPadding)
  }

  /** Everything but the size of the wrapper is in order. */
  predicate Sealable(q: Request) {
    && RouteError(q.route.routeKey, q.route.topic, q.route.environment, q.route.aliasDay).None?
    && q.route.routeKeyEpoch != 0 && q.sequence <= MAX_SAFE_INTEGER
    && Sized(InlinePlaintext(q)) && Sized(ForegroundPlaintext(q))
  }

  function EstimateOf(q: Request, c: Primitives, p: Plaintext): SizeEstimate
    requires Sized(p)
  {
    Estimate(p.mode, |CanonicalText(HeaderFor(q, c))|, |p.capability|, |p.message|, |p.padding|).value
  }

  type Budget = SizeEstimate -> bool

  /** The inline payload if its estimate fits, and otherwise the foreground one if that fits. */
  function Chosen(q: Request, c: Primitives, fits: Budget): Option<Plaintext>
    requires Sealable(q)
  {
    if fits(EstimateOf(q, c, InlinePlaintext(q))) then Some(InlinePlaintext(q))
    else if fits(EstimateOf(q, c, ForegroundPlaintext(q))) then Some(ForegroundPlaintext(q))
    else None
  }

  function KeyFor(route: Route, h: Header, c: Primitives): seq<byte> {
    c.dayKey(route.routeKey, h.environment, h.aliasDay, h.routeAlias, h.routeKeyEpoch)
  }

  function Sealed(q: Request, c: Primitives, p: Plaintext): Envelope
    requires Sized(p)
  {
    var h := HeaderFor(q, c);
    Envelope(h, c.seal(KeyFor(q.route, h, c), Nonce(h.noncePrefix, h.sequence), Frame(p), CanonicalText(h)))
  }

  /** The choice of payload, before anything is encrypted. */
  method Choose(q: Request, c: Primitives, fits: Budget, aad: string) returns (r: Result<Plaintext>)
    requires aad == CanonicalText(HeaderFor(q, c)) && PartsError(InlinePlaintext(q), false).None?
    requires |q.foregroundPadding| <= MAX_PADDING
    ensures Sized(InlinePlaintext(q)) <==> q.message != []
    ensures Sized(ForegroundPlaintext(q))
    ensures q.message == [] ==> r == Err(InvalidPayload)
    ensures q.message != [] ==>
              r == if fits(EstimateOf(q, c, InlinePlaintext(q))) then Ok(InlinePlaintext(q))
                   else if fits(EstimateOf(q, c, ForegroundPlaintext(q))) then Ok(ForegroundPlaintext(q))
                   else Err(PayloadTooLarge)
  {
    var mode, message, padding := Inline, q.message, q.inlinePadding;
    var size := Estimate(mode, |aad|, |q.capability|, |message|, |padding|);
    if size.Err? {
      return Err(size.error);
    }
    if |message| == 0 || !fits(size.value) {
      mode, message, padding := ForegroundSync, [], q.foregroundPadding;
      size := Estimate(mode, |aad|, |q.capability|, 0, |padding|);
      if size.Err? {
        return Err(InvalidPayload);
      }
      if !fits(size.value) {
        return Err(PayloadTooLarge);
      }
    }
    r := Ok(Plaintext(q.capability, mode, message, padding));
  }

  /**
    Succeeds exactly when the request is in order and one of the two payloads fits. The wrapper then holds the chosen
    payload, its length is the one that the budget approved, and the foreground hook ran exactly when it was not inline.
  */
  method Seal(q: Request, c: Primitives, budget: Option<Budget>) returns (r: Result<Envelope>, synced: bool)
    requires Ideal(c)
    ensures r.Ok? <==> budget.Some? && Sealable(q) && Chosen(q, c, budget.value).Some?
    ensures r.Ok? ==> var p := Chosen(q, c, budget.value).value;
                      && r.value == Sealed(q, c, p) && budget.value(EstimateOf(q, c, p))
                      && |r.value.ciphertext| == EstimateOf(q, c, p).sealedBytes
                      && (synced <==> p.mode.ForegroundSync?)
    ensures r.Err? ==> !synced
    ensures budget.Some? && q.message == [] ==> r.Err?
  {
    synced := false;
    if budget.None? {
      return Err(BudgetRequired), false;
    }
    var fits := budget.value;
    var e := RouteError(q.route.routeKey, q.route.topic, q.route.environment, q.route.aliasDay);
    if e.Some? {
      return Err(e.value), false;
    }
    if q.sequence > MAX_SAFE_INTEGER {
      return Err(InvalidSequence), false;
    }
    e := PartsError(InlinePlaintext(q), false);
    if e.Some? {
      return Err(e.value), false;
    }
    if |q.foregroundPadding| > MAX_PADDING {
      return Err(SizeLimit), false;
    }
    var header := HeaderFor(q, c);
    var aad := CanonicalAad(header);
    if aad.Err? {
      return Err(aad.error), false;
    }
    var chosen := Choose(q, c, fits, aad.value);
    if chosen.Err? {
      return Err(chosen.error), false;
    }
    var p := chosen.value;
    var plaintext := EncodePlaintext(p);
    if plaintext.Err? {
      return Err(InvalidPayload), false;
    }
    var nonce := BuildNonce(q.noncePrefix, q.sequence);
    if nonce.Err? {
      return Err(InvalidSequence), false;
    }
    var ciphertext := c.seal(KeyFor(q.route, header, c), nonce.value, plaintext.value, aad.value);
    if |ciphertext| > MAX_SEALED {
      return Err(SizeLimit), false;
    }
    return Ok(Envelope(header, ciphertext)), p.mode.ForegroundSync?;
  }

  // ----- Opening

  /** All of opening that precedes the replay check. */
  function Unwrapped(route: Route, v: Envelope, c: Primitives): Result<seq<byte>> {
    var h := v.header;
    var e := RouteError(route.routeKey, route.topic, h.environment, h.aliasDay);
    if e.Some? then Err(e.value)
    else if !Valid(h) then Err(InvalidHeader)
    else if route.routeKeyEpoch == 0 || h.environment != route.environment || h.aliasDay != route.aliasDay ||
            h.routeKeyEpoch != route.routeKeyEpoch then Err(RouteMismatch)
    else if |v.ciphertext| < TAG || |v.ciphertext| > MAX_SEALED then Err(SizeLimit)
    else if c.alias(route.routeKey, route.topic, h.environment, h.aliasDay) != h.routeAlias then Err(RouteMismatch)
    else
      match c.open(KeyFor(route, h, c), Nonce(h.noncePrefix, h.sequence), v.ciphertext, CanonicalText(h))
      case None => Err(Authentication)
      case Some(inner) => Ok(inner)
  }

  /** Nothing but an authenticated wrapper for this route moves the window. */
  method Open(route: Route, v: Envelope, c: Primitives, replay: R.ReplayWindow?) returns (r: Result<Plaintext>)
    modifies replay
    ensures replay == null ==> r == Err(ReplayState)
    ensures replay != null ==>
              match Unwrapped(route, v, c)
              case Err(e) => r == Err(e) && replay.View() == old(replay.View())
              case Ok(inner) =>
                && replay.View() == R.Advanced(old(replay.View()), v.header)
                && r == if R.Accepts(old(replay.View()), v.header) then DecodePlaintext(inner)
                        else Err(R.Refusal(old(replay.View()), v.header))
  {
    if replay == null {
      return Err(ReplayState);
    }
    var inner := Authenticate(route, v, c);
    if inner.Err? {
      return Err(inner.error);
    }
    var refused := replay.CompareAndAdvanceAuthenticated(v.header);
    if refused.Some? {
      return Err(refused.value);
    }
    r := DecodePlaintext(inner.value);
  }

  method Authenticate(route: Route, v: Envelope, c: Primitives) returns (r: Result<seq<byte>>)
    ensures r == Unwrapped(route, v, c)
  {
    var h := v.header;
    var e := RouteError(route.routeKey, route.topic, h.environment, h.aliasDay);
    if e.Some? {
      return Err(e.value);
    }
    if !Valid(h) {
      return Err(InvalidHeader);
    }
    if route.environment == "" || route.aliasDay == "" || route.routeKeyEpoch == 0 ||
       h.environment != route.environment || h.aliasDay != route.aliasDay || h.routeKeyEpoch != route.routeKeyEpoch {
      return Err(RouteMismatch);
    }
    if |v.ciphertext| < TAG || |v.ciphertext| > MAX_SEALED {
      return Err(SizeLimit);
    }
    if c.alias(route.routeKey, route.topic, h.environment, h.aliasDay) != h.routeAlias {
      return Err(RouteMismatch);
    }
    var aad := CanonicalAad(h);
    var nonce := BuildNonce(h.noncePrefix, h.sequence);
    if aad.Err? || nonce.Err? {
      return Err(InvalidHeader);
    }
    var inner := c.open(KeyFor(route, h, c), nonce.value, v.ciphertext, aad.value);
    if inner.None? {
      return Err(Authentication);
    }
    r := Ok(inner.value);
  }

  lemma HeaderForIsValid(q: Request, c: Primitives)
    requires Sealable(q)
    ensures Valid(HeaderFor(q, c))
  {
  }

  /** What is sealed for a route opens on that route, to exactly the payload that was chosen. */
  lemma OpenUndoesSeal(q: Request, c: Primitives, fits: Budget)
    requires Ideal(c) && Sealable(q) && Chosen(q, c, fits).Some?
    ensures var p := Chosen(q, c, fits).value;
            && Unwrapped(q.route, Sealed(q, c, p), c) == Ok(Frame(p)) && DecodePlaintext(Frame(p)) == Ok(p)
            && p.capability == q.capability
            && (p.mode == Inline <==> fits(EstimateOf(q, c, InlinePlaintext(q))))
            && (p.mode == Inline ==> p.message == q.message && p.padding == q.inlinePadding)
            && (p.mode != Inline ==> p.mode == ForegroundSync && p.message == [] && p.padding == q.foregroundPadding)
  {
    var p := Chosen(q, c, fits).value;
    HeaderForIsValid(q, c);
    DecodeUndoesEncode(p);
  }

  /** A sealed wrapper, opened with a fresh window, yields its payload; opened again, it is a replay. */
  method SealThenOpenTwice(q: Request, c: Primitives, fits: Budget)
    returns (sealed: bool, once: Result<Plaintext>, twice: Result<Plaintext>)
    requires Ideal(c)
    ensures sealed <==> Sealable(q) && Chosen(q, c, fits).Some?
    ensures sealed ==> once == Ok(Chosen(q, c, fits).value) && twice == Err(Replay)
  {
    var r, synced := Seal(q, c, Some(fits));
    once, twice := Err(ReplayState), Err(ReplayState);
    sealed := r.Ok?;
    if sealed {
      OpenUndoesSeal(q, c, fits);
      var window := new R.ReplayWindow();
      once := Open(q.route, r.value, c, window);
      twice := Open(q.route, r.value, c, window);
    }
  }

  // ----- What opens was sealed

  /** A call of `Seal` that succeeded: the request and the payload it chose. */
  datatype Sealing = Sealing(q: Request, p: Plaintext)

  predicate Genuine(s: Sealing) {
    Sealable(s.q) && (s.p == InlinePlaintext(s.q) || s.p == ForegroundPlaintext(s.q))
  }

  /** The call handed exactly these bytes to the AEAD and got this ciphertext. */
  ghost predicate Encrypted(c: Primitives, s: Sealing, key: seq<byte>, nonce: seq<byte>, plaintext: seq<byte>,
                            aad: string, ciphertext: seq<byte>)
    requires Genuine(s)
  {
    var h := HeaderFor(s.q, c);
    && key == KeyFor(s.q.route, h, c) && nonce == Nonce(h.noncePrefix, h.sequence)
    && plaintext == Frame(s.p) && aad == CanonicalText(h)
    && ciphertext == c.seal(key, nonce, plaintext, aad)
  }

  /** An AEAD that nobody forges: it opens only what one of the recorded calls encrypted. */
  ghost predicate OpensOnly(c: Primitives, log: seq<Sealing>) {
    && (forall i :: 0 <= i < |log| ==> Genuine(log[i]))
    && forall key, nonce, ciphertext, aad {:trigger c.open(key, nonce, ciphertext, aad)} ::
         c.open(key, nonce, ciphertext, aad).Some? ==>
           exists i :: 0 <= i < |log| &&
                       Encrypted(c, log[i], key, nonce, c.open(key, nonce, ciphertext, aad).value, aad, ciphertext)
  }

  /** What an unwrapped envelope says about its header. */
  ghost predicate OnRoute(route: Route, h: Header, c: Primitives) {
    && Valid(h) && h.environment == route.environment && h.aliasDay == route.aliasDay
    && h.routeKeyEpoch == route.routeKeyEpoch
    && h.routeAlias == c.alias(route.routeKey, route.topic, route.environment, route.aliasDay)
  }

  lemma UnwrappedOnRoute(route: Route, v: Envelope, c: Primitives)
    requires Unwrapped(route, v, c).Ok?
    ensures OnRoute(route, v.header, c)
    ensures c.open(KeyFor(route, v.header, c), Nonce(v.header.noncePrefix, v.header.sequence), v.ciphertext,
                   CanonicalText(v.header)) == Some(Unwrapped(route, v, c).value)
  {
  }

  /** The authenticated text tells which header the call had, so the call made this very envelope. */
  lemma EncryptedMadeEnvelope(c: Primitives, s: Sealing, key: seq<byte>, plaintext: seq<byte>, v: Envelope)
    requires Genuine(s) && Valid(v.header)
    requires Encrypted(c, s, key, Nonce(v.header.noncePrefix, v.header.sequence), plaintext,
                       CanonicalText(v.header), v.ciphertext)
    ensures v == Sealed(s.q, c, s.p) && plaintext == Frame(s.p)
  {
    HeaderForIsValid(s.q, c);
    CanonicalTextInjective(v.header, HeaderFor(s.q, c));
  }

  /**
    Whatever opens on a route is, header and ciphertext, the very wrapper that some earlier call sealed for that
    environment, day, epoch and alias, and it decodes to the payload that this call chose.
  */
  lemma OpenedWasSealed(route: Route, v: Envelope, c: Primitives, log: seq<Sealing>) returns (i: nat)
    requires OpensOnly(c, log) && Unwrapped(route, v, c).Ok?
    ensures i < |log| && Genuine(log[i]) && v == Sealed(log[i].q, c, log[i].p)
    ensures DecodePlaintext(Unwrapped(route, v, c).value) == Ok(log[i].p)
    ensures OnRoute(route, HeaderFor(log[i].q, c), c)
  {
    UnwrappedOnRoute(route, v, c);
    i := Encryptor(route, v, c, log);
    EncryptedMadeEnvelope(c, log[i], KeyFor(route, v.header, c), Unwrapped(route, v, c).value, v);
    DecodeUndoesEncode(log[i].p);
  }

  lemma Encryptor(route: Route, v: Envelope, c: Primitives, log: seq<Sealing>) returns (i: nat)
    requires OpensOnly(c, log) && Unwrapped(route, v, c).Ok?
    ensures i < |log| && Genuine(log[i])
    ensures Encrypted(c, log[i], KeyFor(route, v.header, c), Nonce(v.header.noncePrefix, v.header.sequence),
                      Unwrapped(route, v, c).value, CanonicalText(v.header), v.ciphertext)
  {
    UnwrappedOnRoute(route, v, c);
    var h := v.header;
    var key, nonce, aad := KeyFor(route, h, c), Nonce(h.noncePrefix, h.sequence), CanonicalText(h);
    var plaintext := c.open(key, nonce, v.ciphertext, aad).value;
    i :| 0 <= i < |log| && Encrypted(c, log[i], key, nonce, plaintext, aad, v.ciphertext);
  }

  /** What a call sealed can be opened again, and the tag adds its length. */
  ghost predicate Reopens(c: Primitives, s: Sealing)
    requires Genuine(s)
  {
    var v, h := Sealed(s.q, c, s.p), HeaderFor(s.q, c);
    && |v.ciphertext| == |Frame(s.p)| + TAG
    && c.open(KeyFor(s.q.route, h, c), Nonce(h.noncePrefix, h.sequence), v.ciphertext, CanonicalText(h))
         == Some(Frame(s.p))
  }

  /** A recorded call made this envelope, under the day key that this route derives for it. */
  ghost predicate MadeFor(route: Route, v: Envelope, c: Primitives, s: Sealing) {
    Genuine(s) && v == Sealed(s.q, c, s.p) && KeyFor(route, v.header, c) == KeyFor(s.q.route, v.header, c)
  }

  lemma MadeForOpens(route: Route, v: Envelope, c: Primitives, s: Sealing)
    requires MadeFor(route, v, c, s) && Reopens(c, s) && OnRoute(route, v.header, c)
    requires RouteError(route.routeKey, route.topic, route.environment, route.aliasDay).None?
    ensures Unwrapped(route, v, c) == Ok(Frame(s.p))
  {
  }

  lemma OpenedIsMadeFor(route: Route, v: Envelope, c: Primitives, log: seq<Sealing>) returns (i: nat)
    requires OpensOnly(c, log) && Unwrapped(route, v, c).Ok?
    ensures OnRoute(route, v.header, c) && i < |log| && MadeFor(route, v, c, log[i])
  {
    UnwrappedOnRoute(route, v, c);
    i := Encryptor(route, v, c, log);
    EncryptedMadeEnvelope(c, log[i], KeyFor(route, v.header, c), Unwrapped(route, v, c).value, v);
  }

  /** Over an AEAD that opens exactly what was encrypted, a route opens exactly the wrappers that were sealed for it. */
  lemma OpensExactlySealed(route: Route, v: Envelope, c: Primitives, log: seq<Sealing>)
    requires OpensOnly(c, log) && forall i :: 0 <= i < |log| ==> Genuine(log[i]) && Reopens(c, log[i])
    requires RouteError(route.routeKey, route.topic, route.environment, route.aliasDay).None?
    ensures Unwrapped(route, v, c).Ok? <==>
              OnRoute(route, v.header, c) && exists i :: 0 <= i < |log| && MadeFor(route, v, c, log[i])
  {
    if Unwrapped(route, v, c).Ok? {
      var i := OpenedIsMadeFor(route, v, c, log);
    } else if OnRoute(route, v.header, c) && exists i :: 0 <= i < |log| && MadeFor(route, v, c, log[i]) {
      var i :| 0 <= i < |log| && MadeFor(route, v, c, log[i]);
      MadeForOpens(route, v, c, log[i]);
    }
  }
}
