/** Unsigned decimal and lower-case hexadecimal spellings. Strings stand for byte strings, one character a byte. */
module Decimal {
  import opened Common

  predicate IsDigit(c: char) {
    '0' <= c <= '9'
  }

  predicate AllDigits(s: string) {
    forall i :: 0 <= i < |s| ==> IsDigit(s[i])
  }

  function DigitValue(c: char): (d: nat)
    requires IsDigit(c)
    ensures d <= 9
  {
    c as int - '0' as int
  }

  function DigitChar(d: nat): (c: char)
    requires d <= 9
    ensures IsDigit(c) && DigitValue(c) == d
  {
    (d + '0' as int) as char
  }

  /** The number a run of digits spells. */
  function Value(s: string): nat
    requires AllDigits(s)
  {
    if s == "" then 0 else 10 * Value(s[..|s| - 1]) + DigitValue(s[|s| - 1])
  }

  /** The spelling without leading zeros. */
  function Format(n: nat): (s: string)
    ensures s != "" && AllDigits(s)
  {
    if n < 10 then [DigitChar(n)] else Format(n / 10) + [DigitChar(n % 10)]
  }

  /** One spelling per number: digits only, no sign, no leading zero. */
  predicate Plain(s: string) {
    s != "" && AllDigits(s) && (s[0] == '0' ==> s == "0")
  }

  lemma {:induction false} FormatIsPlain(n: nat)
    ensures Plain(Format(n)) && Value(Format(n)) == n
    ensures n > 0 ==> Format(n)[0] != '0'
  {
    if n < 10 {
      assert Format(n)[..0] == "";
    } else {
      FormatIsPlain(n / 10);
      var head := Format(n / 10);
      assert Format(n)[..|head|] == head;
      assert Format(n)[0] == head[0];
    }
  }

  lemma {:induction false} PlainIsFormat(s: string)
    requires Plain(s)
    ensures s == Format(Value(s))
    ensures s[0] != '0' ==> Value(s) > 0
  {
    var head := s[..|s| - 1];
    if head == "" {
      assert s == [s[0]];
    } else {
      assert head[0] == s[0];
      PlainIsFormat(head);
      assert s == head + [s[|s| - 1]];
      assert Value(s) == 10 * Value(head) + DigitValue(s[|s| - 1]);
    }
  }

  lemma FormatInjective(m: nat, n: nat)
    requires Format(m) == Format(n)
    ensures m == n
  {
    FormatIsPlain(m);
    FormatIsPlain(n);
  }

  // ----- Hexadecimal

  function HexDigit(d: nat): (c: char)
    requires d < 16
    ensures c < 128 as char && c >= ' '
  {
    if d < 10 then (d + '0' as int) as char else (d - 10 + 'a' as int) as char
  }

  function HexValue(c: char): (v: Option<nat>)
    ensures v.Some? ==> v.value < 16
  {
    if '0' <= c <= '9' then Some(c as int - '0' as int)
    else if 'a' <= c <= 'f' then Some(c as int - 'a' as int + 10)
    else if 'A' <= c <= 'F' then Some(c as int - 'A' as int + 10)
    else None
  }

  /** Lower-case hexadecimal, two characters a byte. */
  function Hex(bytes: seq<byte>): (s: string)
    ensures |s| == 2 * |bytes|
  {
    if bytes == [] then "" else [HexDigit(bytes[0] / 16), HexDigit(bytes[0] % 16)] + Hex(bytes[1..])
  }

  function Unhex(s: string): (r: Option<seq<byte>>)
  {
    if s == "" then Some([])
    else if |s| == 1 then None
    else
      var high, low, rest := HexValue(s[0]), HexValue(s[1]), Unhex(s[2..]);
      if high.None? || low.None? || rest.None? then None
      else Some([16 * high.value + low.value] + rest.value)
  }

  lemma {:induction false} HexRoundTrip(bytes: seq<byte>)
    ensures Unhex(Hex(bytes)) == Some(bytes)
  {
    if bytes != [] {
      HexRoundTrip(bytes[1..]);
      assert bytes == [bytes[0]] + bytes[1..];
      assert Hex(bytes)[2..] == Hex(bytes[1..]);
    }
  }
}
