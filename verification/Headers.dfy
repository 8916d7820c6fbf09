/** The authenticated header of a wrapper: its validity, its nonce, and its canonical text, which is the AEAD's AAD. */
module Headers {
  import opened Common
  import opened Decimal
  import opened Framing

  type uint32 = n: nat | n < TWO_TO_THE_32
  type uint64 = n: nat | n < TWO_TO_THE_64
  type RouteAlias = a: seq<byte> | |a| == 16 witness seq(16, _ => 0)
  type NoncePrefix = a: seq<byte> | |a| == 4 witness seq(4, _ => 0)

  datatype Header = Header(
    schemaVersion: uint32,
    environment: string,
    aliasDay: string,
    routeAlias: RouteAlias,
    routeKeyEpoch: uint32,
    noncePrefix: NoncePrefix,
    sequence: uint64)

  // ----- Validity

  predicate ValidEnvironment(environment: string) {
    environment == "dev" || environment == "production"
  }

  function Two(s: string, i: nat): nat
    requires i + 2 <= |s| && IsDigit(s[i]) && IsDigit(s[i + 1])
  {
    10 * DigitValue(s[i]) + DigitValue(s[i + 1])
  }

  function DaysIn(year: nat, month: nat): nat {
    if month == 2 then if year % 4 == 0 && (year % 100 != 0 || year % 400 == 0) then 29 else 28
    else if month == 4 || month == 6 || month == 9 || month == 11 then 30
    else 31
  }

  /** A calendar day, spelt YYYY-MM-DD. */
  predicate ValidDay(day: string) {
    && |day| == 10 && day[4] == '-' && day[7] == '-'
    && (forall i :: 0 <= i < 10 && i != 4 && i != 7 ==> IsDigit(day[i]))
    && var year, month, date := 100 * Two(day, 0) + Two(day, 2), Two(day, 5), Two(day, 8);
       1 <= month <= 12 && 1 <= date <= DaysIn(year, month)
  }

  predicate Valid(h: Header) {
    && h.schemaVersion == 1 && h.routeKeyEpoch != 0
    && ValidEnvironment(h.environment) && ValidDay(h.aliasDay)
    && h.sequence <= MAX_SAFE_INTEGER
  }

  // ----- The nonce

  method BuildNonce(prefix: NoncePrefix, sequence: uint64) returns (r: Result<seq<byte>>)
    ensures sequence <= MAX_SAFE_INTEGER ==> r == Ok(Nonce(prefix, sequence))
    ensures sequence > MAX_SAFE_INTEGER ==> r == Err(InvalidSequence)
  {
    if sequence > MAX_SAFE_INTEGER {
      return Err(InvalidSequence);
    }
    var nonce := new byte[12];
    var offset := CopyInto(nonce, 0, prefix);
    assert nonce[..offset] == prefix;
    offset := CopyInto(nonce, offset, BigEndian(sequence, 8));
    assert nonce[..] == nonce[..offset];
    r := Ok(nonce[..]);
  }

  function Nonce(prefix: NoncePrefix, sequence: uint64): seq<byte> {
    prefix + BigEndian(sequence, 8)
  }

  /** No two deliveries under one day key share a nonce unless they share prefix and sequence. */
  lemma NonceInjective(p: NoncePrefix, m: uint64, q: NoncePrefix, n: uint64)
    requires Nonce(p, m) == Nonce(q, n)
    ensures p == q && m == n
  {
    assert p == Nonce(p, m)[..4] && q == Nonce(q, n)[..4];
    assert BigEndian(m, 8) == Nonce(p, m)[4..] && BigEndian(n, 8) == Nonce(q, n)[4..];
    Pow256Of8();
    BigEndianInjective(m, n, 8);
  }

  // ----- The canonical text

  /** The seven members of the header object, as they are spelt. */
  datatype Fields = Fields(day: string, sequence: string, environment: string, prefix: string, alias: string,
                           epoch: string, version: string)

  function FieldsOf(h: Header): Fields {
    Fields(h.aliasDay, Format(h.sequence), h.environment, Hex(h.noncePrefix), Hex(h.routeAlias),
           Format(h.routeKeyEpoch), Format(h.schemaVersion))
  }

  const DAY := "{\"alias_day\":\""
  const SEQUENCE := "\",\"delivery_sequence\":"
  const ENVIRONMENT := ",\"environment\":\""
  const PREFIX := "\",\"nonce_prefix\":\""
  const ALIAS := "\",\"route_alias\":\""
  const EPOCH := "\",\"route_key_epoch\":"
  const VERSION := ",\"schema_version\":"

  function FromVersion(f: Fields): string { VERSION + f.version + "}" }
  function FromEpoch(f: Fields): string { EPOCH + f.epoch + FromVersion(f) }
  function FromAlias(f: Fields): string { ALIAS + f.alias + FromEpoch(f) }
  function FromPrefix(f: Fields): string { PREFIX + f.prefix + FromAlias(f) }
  function FromEnvironment(f: Fields): string { ENVIRONMENT + f.environment + FromPrefix(f) }
  function FromSequence(f: Fields): string { SEQUENCE + f.sequence + FromEnvironment(f) }
  function Render(f: Fields): string { DAY + f.day + FromSequence(f) }

  function CanonicalText(h: Header): string {
    Render(FieldsOf(h))
  }

  lemma Regrouped(r: string, literal: string, field: string, rest: string)
    ensures r + (literal + field + rest) == r + literal + field + rest
  {
  }

  /** The text, appended piece by piece to one buffer. */
  method CanonicalAad(h: Header) returns (r: Result<string>)
    ensures Valid(h) ==> r == Ok(CanonicalText(h))
    ensures !Valid(h) ==> r == Err(InvalidHeader)
  {
    if !Valid(h) {
      return Err(InvalidHeader);
    }
    var f := FieldsOf(h);
    var result := DAY + f.day;
    Regrouped(result, SEQUENCE, f.sequence, FromEnvironment(f));
    result := result + SEQUENCE + f.sequence;
    Regrouped(result, ENVIRONMENT, f.environment, FromPrefix(f));
    result := result + ENVIRONMENT + f.environment;
    Regrouped(result, PREFIX, f.prefix, FromAlias(f));
    result := result + PREFIX + f.prefix;
    Regrouped(result, ALIAS, f.alias, FromEpoch(f));
    result := result + ALIAS + f.alias;
    Regrouped(result, EPOCH, f.epoch, FromVersion(f));
    result := result + EPOCH + f.epoch;
    Regrouped(result, VERSION, f.version, "}");
    result := result + VERSION + f.version + "}";
    r := Ok(result);
  }

  // ----- Reading the text back

  predicate Passes(c: char, digits: bool) {
    if digits then IsDigit(c) else c != '\"'
  }

  function Length(s: string, digits: bool): (n: nat)
    ensures n <= |s|
  {
    if s == "" || !Passes(s[0], digits) then 0 else 1 + Length(s[1..], digits)
  }

  /** A field and what follows it: the literal before it, then its digits or its text up to the next quote. */
  function Read(s: string, literal: string, digits: bool): Option<(string, string)> {
    if !(literal <= s) then None
    else
      var rest := s[|literal|..];
      var n := Length(rest, digits);
      Some((rest[..n], rest[n..]))
  }

  predicate AllPass(field: string, digits: bool) {
    forall i :: 0 <= i < |field| ==> Passes(field[i], digits)
  }

  lemma {:induction false} LengthOf(field: string, rest: string, digits: bool)
    requires AllPass(field, digits) && rest != "" && !Passes(rest[0], digits)
    ensures Length(field + rest, digits) == |field|
  {
    if field == "" {
      assert field + rest == rest;
    } else {
      LengthOf(field[1..], rest, digits);
      assert (field + rest)[1..] == field[1..] + rest;
    }
  }

  lemma ReadBack(literal: string, field: string, rest: string, digits: bool)
    requires AllPass(field, digits) && rest != "" && !Passes(rest[0], digits)
    ensures Read(literal + field + rest, literal, digits) == Some((field, rest))
  {
    var s := literal + field + rest;
    assert s[|literal|..] == field + rest;
    LengthOf(field, rest, digits);
    assert (field + rest)[..|field|] == field && (field + rest)[|field|..] == rest;
  }

  /** The members of a header object in the profile that the printer emits: the first three, and the rest. */
  function Members(s: string): Option<Fields> {
    match Read(s, DAY, false)
    case None => None
    case Some((day, s)) =>
      match Read(s, SEQUENCE, true)
      case None => None
      case Some((sequence, s)) =>
        match Read(s, ENVIRONMENT, false)
        case None => None
        case Some((environment, s)) => LastMembers(s, day, sequence, environment)
  }

  function LastMembers(s: string, day: string, sequence: string, environment: string): Option<Fields> {
    match Read(s, PREFIX, false)
    case None => None
    case Some((prefix, s)) =>
      match Read(s, ALIAS, false)
      case None => None
      case Some((alias, s)) =>
        match Read(s, EPOCH, true)
        case None => None
        case Some((epoch, s)) =>
          match Read(s, VERSION, true)
          case None => None
          case Some((version, s)) =>
            if s != "}" then None else Some(Fields(day, sequence, environment, prefix, alias, epoch, version))
  }

  predicate Readable(f: Fields) {
    && AllPass(f.day, false) && AllPass(f.sequence, true) && AllPass(f.environment, false) && AllPass(f.prefix, false)
    && AllPass(f.alias, false) && AllPass(f.epoch, true) && AllPass(f.version, true)
  }

  lemma MembersOfRender(f: Fields)
    requires Readable(f)
    ensures Members(Render(f)) == Some(f)
  {
    ReadBack(DAY, f.day, FromSequence(f), false);
    ReadBack(SEQUENCE, f.sequence, FromEnvironment(f), true);
    ReadBack(ENVIRONMENT, f.environment, FromPrefix(f), false);
    LastMembersOfRender(f);
  }

  lemma LastMembersOfRender(f: Fields)
    requires Readable(f)
    ensures LastMembers(FromPrefix(f), f.day, f.sequence, f.environment) == Some(f)
  {
    ReadBack(PREFIX, f.prefix, FromAlias(f), false);
    ReadBack(ALIAS, f.alias, FromEpoch(f), false);
    ReadBack(EPOCH, f.epoch, FromVersion(f), true);
    ReadBack(VERSION, f.version, "}", true);
  }

  function Number(s: string, bound: nat): Option<nat> {
    if AllDigits(s) && Plain(s) && Value(s) < bound then Some(Value(s)) else None
  }

  function FixedHex(s: string, length: nat): (r: Option<seq<byte>>)
    ensures r.Some? ==> |r.value| == length
  {
    match Unhex(s)
    case None => None
    case Some(bytes) => if |bytes| == length && Hex(bytes) == s then Some(bytes) else None
  }

  function HeaderOf(f: Fields): Option<Header> {
    var sequence, epoch, version := Number(f.sequence, TWO_TO_THE_64), Number(f.epoch, TWO_TO_THE_32),
                                    Number(f.version, TWO_TO_THE_32);
    var prefix, alias := FixedHex(f.prefix, 4), FixedHex(f.alias, 16);
    if sequence.None? || epoch.None? || version.None? || prefix.None? || alias.None? then None
    else Some(Header(version.value, f.environment, f.day, alias.value, epoch.value, prefix.value, sequence.value))
  }

  lemma HeaderOfFields(h: Header)
    ensures HeaderOf(FieldsOf(h)) == Some(h)
  {
    FormatIsPlain(h.sequence);
    FormatIsPlain(h.routeKeyEpoch);
    FormatIsPlain(h.schemaVersion);
    HexRoundTrip(h.noncePrefix);
    HexRoundTrip(h.routeAlias);
  }

  lemma {:induction false} HexReadable(bytes: seq<byte>)
    ensures AllPass(Hex(bytes), false)
  {
    if bytes != [] {
      HexReadable(bytes[1..]);
    }
  }

  lemma ValidReadable(h: Header)
    requires Valid(h)
    ensures Readable(FieldsOf(h))
  {
    HexReadable(h.noncePrefix);
    HexReadable(h.routeAlias);
    EnvironmentReadable(h.environment);
  }

  lemma EnvironmentReadable(environment: string)
    requires ValidEnvironment(environment)
    ensures AllPass(environment, false)
  {
  }

  /** Accepts a text only if printing what was read gives the text back. */
  function ParseCanonicalAad(s: string): Result<Header> {
    match Members(s)
    case None => Err(InvalidHeader)
    case Some(f) =>
      match HeaderOf(f)
      case None => Err(InvalidHeader)
      case Some(h) => if Valid(h) && CanonicalText(h) == s then Ok(h) else Err(InvalidHeader)
  }

  /** A text parses to a header exactly when the header is valid and prints to that text. */
  lemma ParsesExactly(s: string, h: Header)
    ensures ParseCanonicalAad(s) == Ok(h) <==> Valid(h) && CanonicalText(h) == s
  {
    if Valid(h) {
      ValidReadable(h);
      MembersOfRender(FieldsOf(h));
      HeaderOfFields(h);
    }
  }

  /** Two valid headers authenticate the same bytes only if they are the same header. */
  lemma CanonicalTextInjective(g: Header, h: Header)
    requires Valid(g) && Valid(h) && CanonicalText(g) == CanonicalText(h)
    ensures g == h
  {
    ParsesExactly(CanonicalText(g), g);
    ParsesExactly(CanonicalText(g), h);
  }
}
