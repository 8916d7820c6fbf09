/** The inner frame of a wrapper: a version, a mode and three length-prefixed parts. */
module Framing {
  import opened Common

  // ----- Big-endian integers

  function Pow256(k: nat): (p: nat)
    ensures p > 0
  {
    if k == 0 then 1 else 256 * Pow256(k - 1)
  }

  /** The low `k` bytes of an integer, most significant first. */
  function BigEndian(n: nat, k: nat): (s: seq<byte>)
    ensures |s| == k
  {
    if k == 0 then [] else BigEndian(n / 256, k - 1) + [(n % 256) as byte]
  }

  function Unsigned(s: seq<byte>): nat {
    if s == [] then 0 else 256 * Unsigned(s[..|s| - 1]) + s[|s| - 1]
  }

  lemma {:induction false} UnsignedOfBigEndian(n: nat, k: nat)
    requires n < Pow256(k)
    ensures Unsigned(BigEndian(n, k)) == n
  {
    if k > 0 {
      UnsignedOfBigEndian(n / 256, k - 1);
      assert BigEndian(n, k)[..k - 1] == BigEndian(n / 256, k - 1);
    }
  }

  lemma {:induction false} BigEndianOfUnsigned(s: seq<byte>)
    ensures Unsigned(s) < Pow256(|s|) && BigEndian(Unsigned(s), |s|) == s
  {
    if s != [] {
      var last := |s| - 1;
      BigEndianOfUnsigned(s[..last]);
      var high := Unsigned(s[..last]);
      assert (256 * high + s[last]) / 256 == high && (256 * high + s[last]) % 256 == s[last];
      assert s == s[..last] + [s[last]];
    }
  }

  lemma BigEndianInjective(m: nat, n: nat, k: nat)
    requires m < Pow256(k) && n < Pow256(k) && BigEndian(m, k) == BigEndian(n, k)
    ensures m == n
  {
    UnsignedOfBigEndian(m, k);
    UnsignedOfBigEndian(n, k);
  }

  lemma Pow256Of4()
    ensures Pow256(4) == TWO_TO_THE_32
  {
    assert Pow256(2) == 0x1_0000;
  }

  lemma Pow256Of8()
    ensures Pow256(8) == TWO_TO_THE_64
  {
    Pow256Of4();
    assert Pow256(6) == 0x1_0000_0000_0000;
  }

  // ----- Frames

  const MAX_CAPABILITY := 64 * 1024
  const MAX_MESSAGE := 1024 * 1024
  const MAX_PADDING := 4 * 1024
  const FRAME_VERSION: byte := 1
  const FIXED := 14
  const TAG := 16

  /** The delivery mode; the source's type is an open string. */
  datatype Mode = Inline | ForegroundSync | OtherMode(name: string)

  datatype Plaintext = Plaintext(capability: seq<byte>, mode: Mode, message: seq<byte>, padding: seq<byte>)

  datatype Error =
    | BudgetRequired | InvalidRouteKey | InvalidTopic | InvalidEnvironment | InvalidDay | InvalidSequence
    | InvalidHeader | InvalidCapability | InvalidPayload | SizeLimit | PayloadTooLarge | Authentication
    | RouteMismatch | Replay | ReplayState

  datatype Result<+T> = Ok(value: T) | Err(error: Error)

  function LengthError(mode: Mode, capability: int, message: int, padding: int): Option<Error> {
    if capability <= 0 then Some(InvalidCapability)
    else if capability > MAX_CAPABILITY || !(0 <= message <= MAX_MESSAGE) || !(0 <= padding <= MAX_PADDING) then
      Some(SizeLimit)
    else if (mode.Inline? && message == 0) || (mode.ForegroundSync? && message != 0) || mode.OtherMode? then
      Some(InvalidPayload)
    else None
  }

  function PartsError(p: Plaintext, messageRequired: bool): Option<Error> {
    if |p.capability| == 0 then Some(InvalidCapability)
    else if |p.capability| > MAX_CAPABILITY || |p.message| > MAX_MESSAGE || |p.padding| > MAX_PADDING then
      Some(SizeLimit)
    else if messageRequired && |p.message| == 0 then Some(InvalidPayload)
    else None
  }

  function ModeCode(mode: Mode): Option<byte> {
    match mode
    case Inline => Some(1)
    case ForegroundSync => Some(2)
    case OtherMode(_) => None
  }

  function ModeOf(code: byte): Option<Mode> {
    if code == 1 then Some(Inline) else if code == 2 then Some(ForegroundSync) else None
  }

  /** The two validators agree: the one on parts before encoding, and the one on lengths before sealing. */
  lemma ValidatorsAgree(p: Plaintext)
    ensures LengthError(p.mode, |p.capability|, |p.message|, |p.padding|).None? <==>
              && PartsError(p, p.mode.Inline?).None? && !(p.mode.ForegroundSync? && |p.message| != 0)
              && ModeCode(p.mode).Some?
  {
  }

  predicate Sized(p: Plaintext) {
    LengthError(p.mode, |p.capability|, |p.message|, |p.padding|).None?
  }

  function Prefix(code: byte, capability: nat, message: nat, padding: nat): (s: seq<byte>)
    ensures |s| == FIXED
  {
    [FRAME_VERSION, code] + BigEndian(capability, 4) + BigEndian(message, 4) + BigEndian(padding, 4)
  }

  function Frame(p: Plaintext): (s: seq<byte>)
    requires Sized(p)
    ensures |s| == FIXED + |p.capability| + |p.message| + |p.padding|
  {
    Prefix(ModeCode(p.mode).value, |p.capability|, |p.message|, |p.padding|) + (p.capability + (p.message + p.padding))
  }

  /** Copies a part into a buffer at an offset, and moves the offset past it. */
  method CopyInto(buffer: array<byte>, offset: nat, part: seq<byte>) returns (next: nat)
    requires offset + |part| <= buffer.Length
    modifies buffer
    ensures next == offset + |part| && buffer[..next] == old(buffer[..offset]) + part
  {
    for i := 0 to |part|
      invariant buffer[..offset + i] == old(buffer[..offset]) + part[..i]
    {
      buffer[offset + i] := part[i];
      assert part[..i + 1] == part[..i] + [part[i]];
    }
    assert part[..|part|] == part;
    next := offset + |part|;
  }

  method EncodePlaintext(p: Plaintext) returns (r: Result<seq<byte>>)
    ensures Sized(p) ==> r == Ok(Frame(p))
    ensures !Sized(p) ==> r.Err?
  {
    ValidatorsAgree(p);
    var e := PartsError(p, p.mode.Inline?);
    if e.Some? {
      return Err(e.value);
    }
    if p.mode.ForegroundSync? && |p.message| != 0 {
      return Err(InvalidPayload);
    }
    var code := ModeCode(p.mode);
    if code.None? {
      return Err(InvalidPayload);
    }
    var encoded := WriteFrame(code.value, p.capability, p.message, p.padding);
    r := Ok(encoded);
  }

  method WriteFrame(code: byte, capability: seq<byte>, message: seq<byte>, padding: seq<byte>) returns (s: seq<byte>)
    ensures s == Prefix(code, |capability|, |message|, |padding|) + (capability + (message + padding))
  {
    var encoded := new byte[FIXED + |capability| + |message| + |padding|];
    encoded[0], encoded[1] := FRAME_VERSION, code;
    assert encoded[..2] == [FRAME_VERSION, code];
    var offset := CopyInto(encoded, 2, BigEndian(|capability|, 4));
    offset := CopyInto(encoded, offset, BigEndian(|message|, 4));
    offset := CopyInto(encoded, offset, BigEndian(|padding|, 4));
    ghost var prefix := Prefix(code, |capability|, |message|, |padding|);
    assert encoded[..offset] == prefix;
    offset := CopyInto(encoded, offset, capability);
    offset := CopyInto(encoded, offset, message);
    offset := CopyInto(encoded, offset, padding);
    Regroup(prefix, capability, message, padding);
    s := encoded[..];
    assert s == encoded[..offset];
  }

  lemma Regroup(a: seq<byte>, b: seq<byte>, c: seq<byte>, d: seq<byte>)
    ensures a + b + c + d == a + (b + (c + d))
  {
  }

  function DecodePlaintext(s: seq<byte>): Result<Plaintext> {
    if |s| < FIXED || s[0] != FRAME_VERSION then Err(InvalidPayload)
    else
      match ModeOf(s[1])
      case None => Err(InvalidPayload)
      case Some(mode) =>
        var capability, message, padding := Unsigned(s[2..6]), Unsigned(s[6..10]), Unsigned(s[10..14]);
        var e := LengthError(mode, capability, message, padding);
        if e.Some? then Err(e.value)
        else if FIXED + capability + message + padding != |s| then Err(InvalidPayload)
        else
          var m := FIXED + capability;
          var q := m + message;
          Ok(Plaintext(s[FIXED..m], mode, s[m..q], s[q..]))
  }

  lemma PrefixReads(code: byte, capability: nat, message: nat, padding: nat, rest: seq<byte>)
    requires capability < TWO_TO_THE_32 && message < TWO_TO_THE_32 && padding < TWO_TO_THE_32
    ensures var s := Prefix(code, capability, message, padding) + rest;
            && s[0] == FRAME_VERSION && s[1] == code
            && Unsigned(s[2..6]) == capability && Unsigned(s[6..10]) == message && Unsigned(s[10..14]) == padding
            && s[FIXED..] == rest
  {
    Pow256Of4();
    UnsignedOfBigEndian(capability, 4);
    UnsignedOfBigEndian(message, 4);
    UnsignedOfBigEndian(padding, 4);
    var s := Prefix(code, capability, message, padding) + rest;
    assert s[2..6] == BigEndian(capability, 4);
    assert s[6..10] == BigEndian(message, 4);
    assert s[10..14] == BigEndian(padding, 4);
  }

  lemma DecodeUndoesEncode(p: Plaintext)
    requires Sized(p)
    ensures DecodePlaintext(Frame(p)) == Ok(p)
  {
    var rest := p.capability + (p.message + p.padding);
    PrefixReads(ModeCode(p.mode).value, |p.capability|, |p.message|, |p.padding|, rest);
    var s := Frame(p);
    var m := FIXED + |p.capability|;
    var q := m + |p.message|;
    assert s[FIXED..m] == p.capability;
    assert s[m..q] == p.message;
    assert s[q..] == p.padding;
  }

  lemma PrefixOf(s: seq<byte>)
    requires |s| >= FIXED && s[0] == FRAME_VERSION
    ensures s[..FIXED] == Prefix(s[1], Unsigned(s[2..6]), Unsigned(s[6..10]), Unsigned(s[10..14]))
  {
    BigEndianOfUnsigned(s[2..6]);
    BigEndianOfUnsigned(s[6..10]);
    BigEndianOfUnsigned(s[10..14]);
    assert s[..FIXED] == [s[0], s[1]] + s[2..6] + s[6..10] + s[10..14];
  }

  lemma ThreeParts(s: seq<byte>, m: nat, q: nat)
    requires FIXED <= m <= q <= |s|
    ensures s == s[..FIXED] + (s[FIXED..m] + (s[m..q] + s[q..]))
  {
  }

  lemma DecodedParts(s: seq<byte>, p: Plaintext)
    requires DecodePlaintext(s) == Ok(p)
    ensures Sized(p) && |s| == FIXED + |p.capability| + |p.message| + |p.padding|
    ensures s[0] == FRAME_VERSION && ModeCode(p.mode) == Some(s[1])
    ensures |p.capability| == Unsigned(s[2..6]) && |p.message| == Unsigned(s[6..10])
    ensures |p.padding| == Unsigned(s[10..14])
    ensures var m := FIXED + |p.capability|;
            var q := m + |p.message|;
            p.capability == s[FIXED..m] && p.message == s[m..q] && p.padding == s[q..]
  {
  }

  lemma FrameOf(s: seq<byte>, p: Plaintext, m: nat, q: nat)
    requires Sized(p) && FIXED <= m <= q <= |s| && s[0] == FRAME_VERSION && ModeCode(p.mode) == Some(s[1])
    requires |p.capability| == Unsigned(s[2..6]) && |p.message| == Unsigned(s[6..10])
    requires |p.padding| == Unsigned(s[10..14])
    requires p.capability == s[FIXED..m] && p.message == s[m..q] && p.padding == s[q..]
    ensures Frame(p) == s
  {
    PrefixOf(s);
    ThreeParts(s, m, q);
  }

  lemma EncodeUndoesDecode(s: seq<byte>, p: Plaintext)
    requires DecodePlaintext(s) == Ok(p)
    ensures Sized(p) && Frame(p) == s
  {
    DecodedParts(s, p);
    FrameOf(s, p, FIXED + |p.capability|, FIXED + |p.capability| + |p.message|);
  }

  /** Decoding and encoding are each other's inverse: a byte string has one reading, and a plaintext one encoding. */
  lemma DecodesExactly(s: seq<byte>, p: Plaintext)
    ensures DecodePlaintext(s) == Ok(p) <==> Sized(p) && Frame(p) == s
  {
    if DecodePlaintext(s) == Ok(p) {
      EncodeUndoesDecode(s, p);
    }
    if Sized(p) {
      DecodeUndoesEncode(p);
    }
  }
}
