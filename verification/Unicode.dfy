/** UTF-8 as the strict JSON reader needs it: which byte strings are valid, and what an escape decodes to. */
module Unicode {

  const REPLACEMENT := 0xFFFD

  predicate Within(s: string, i: nat, low: int, high: int) {
    i < |s| && low <= s[i] as int <= high
  }

  predicate Continues(s: string, from: nat, to: nat) {
    to <= |s| && forall i :: from <= i < to ==> Within(s, i, 0x80, 0xBF)
  }

  /** How many bytes the first character takes (section 4 of RFC 3629); zero if it is malformed. */
  function Width(s: string): (n: nat)
    ensures n <= |s|
  {
    if Within(s, 0, 0, 0x7F) then 1
    else if Within(s, 0, 0xC2, 0xDF) && Continues(s, 1, 2) then 2
    else if Within(s, 0, 0xE0, 0xE0) && Within(s, 1, 0xA0, 0xBF) && Continues(s, 2, 3) then 3
    else if Within(s, 0, 0xED, 0xED) && Within(s, 1, 0x80, 0x9F) && Continues(s, 2, 3) then 3
    else if Within(s, 0, 0xE1, 0xEF) && !Within(s, 0, 0xED, 0xED) && Continues(s, 1, 3) then 3
    else if Within(s, 0, 0xF0, 0xF0) && Within(s, 1, 0x90, 0xBF) && Continues(s, 2, 4) then 4
    else if Within(s, 0, 0xF1, 0xF3) && Continues(s, 1, 4) then 4
    else if Within(s, 0, 0xF4, 0xF4) && Within(s, 1, 0x80, 0x8F) && Continues(s, 2, 4) then 4
    else 0
  }

  predicate Utf8(s: string)
    decreases |s|
  {
    s == "" || (Width(s) > 0 && Utf8(s[Width(s)..]))
  }

  predicate Scalar(code: int) {
    0 <= code < 0xD800 || 0xE000 <= code <= 0x10FFFF
  }

  function Byte(n: int): char
    requires 0 <= n < 256
  {
    n as char
  }

  function Encode(code: int): string
    requires Scalar(code)
  {
    if code < 0x80 then [Byte(code)]
    else if code < 0x800 then [Byte(0xC0 + code / 64), Byte(0x80 + code % 64)]
    else if code < 0x10000 then [Byte(0xE0 + code / 4096), Byte(0x80 + code / 64 % 64), Byte(0x80 + code % 64)]
    else
      [Byte(0xF0 + code / 262144), Byte(0x80 + code / 4096 % 64), Byte(0x80 + code / 64 % 64), Byte(0x80 + code % 64)]
  }

  lemma EncodeShort(code: int, rest: string)
    requires Scalar(code) && code < 0x800
    ensures Width(Encode(code) + rest) == |Encode(code)|
  {
  }

  lemma EncodeThree(code: int, rest: string)
    requires Scalar(code) && 0x800 <= code < 0x10000
    ensures Width(Encode(code) + rest) == 3
  {
    var s := Encode(code) + rest;
    assert Within(s, 0, 0xE0, 0xEF) && Continues(s, 1, 3);
  }

  lemma EncodeFour(code: int, rest: string)
    requires Scalar(code) && 0x10000 <= code
    ensures Width(Encode(code) + rest) == 4
  {
    var s := Encode(code) + rest;
    assert Within(s, 0, 0xF0, 0xF4) && Continues(s, 1, 4);
  }

  /** An encoded scalar is one well-formed character, whatever follows. */
  lemma EncodeIsWellFormed(code: int, rest: string)
    requires Scalar(code)
    ensures Utf8(Encode(code) + rest) <==> Utf8(rest)
  {
    assert (Encode(code) + rest)[|Encode(code)|..] == rest;
    if code < 0x800 {
      EncodeShort(code, rest);
    } else if code < 0x10000 {
      EncodeThree(code, rest);
    } else {
      EncodeFour(code, rest);
    }
  }

  /** The width of a character does not depend on what follows it. */
  lemma WidthOfPrefix(s: string, t: string)
    requires Width(s) > 0
    ensures Width(s[..Width(s)] + t) == Width(s)
  {
    var n := Width(s);
    var u := s[..n] + t;
    assert forall i: nat, low, high :: i < n ==> (Within(u, i, low, high) <==> Within(s, i, low, high));
    assert forall from: nat, to: nat :: from <= to <= n ==> (Continues(u, from, to) <==> Continues(s, from, to));
  }

  /** Every byte of a character but an ASCII one is above the ASCII range. */
  lemma WideIsHigh(s: string, i: nat)
    requires Width(s) > 1 && i < Width(s)
    ensures s[i] as int >= 0x80
  {
    assert i > 0 ==> Within(s, i, 0x80, 0xBF);
  }

  lemma {:induction false} DropAscii(s: string, k: nat)
    requires Utf8(s) && k <= |s| && forall i :: 0 <= i < k ==> s[i] < 128 as char
    ensures Utf8(s[k..])
  {
    if k > 0 {
      DropAscii(s[1..], k - 1);
      assert s[1..][k - 1..] == s[k..];
    } else {
      assert s[0..] == s;
    }
  }

  lemma {:induction false} AsciiIsUtf8(s: string)
    requires forall i :: 0 <= i < |s| ==> s[i] < 128 as char
    ensures Utf8(s)
  {
    if s != "" {
      assert Width(s) == 1;
      AsciiIsUtf8(s[1..]);
    }
  }

  predicate HighSurrogate(unit: int) {
    0xD800 <= unit < 0xDC00
  }

  predicate LowSurrogate(unit: int) {
    0xDC00 <= unit < 0xE000
  }

  function Paired(high: int, low: int): (code: int)
    requires HighSurrogate(high) && LowSurrogate(low)
    ensures Scalar(code) && code >= 0x10000
  {
    (high - 0xD800) * 1024 + (low - 0xDC00) + 0x10000
  }
}
