/**
  The canonical JSON profile every signature and hash rests on (section 3.2 of RFC 8785, restricted to ASCII strings,
  booleans, null, arrays, objects and non-negative integers up to 2^53 - 1): a printer, a strict parser, and the
  proof that parsing undoes printing.

  A Go byte string is a Dafny `string` here, one character a byte.
*/
module CanonicalJson {
  import opened Common
  import opened Decimal
  import opened Unicode

  datatype Json =
    | Null
    | Bool(b: bool)
    | Str(text: string)
    | Num(spelling: string)
    | Arr(items: seq<Json>)
    | Obj(members: map<string, Json>)

  // ----- The profile

  predicate Ascii(s: string) {
    forall i :: 0 <= i < |s| ==> s[i] < 128 as char
  }

  predicate CanonicalNumber(raw: string) {
    Plain(raw) && Value(raw) <= MAX_SAFE_INTEGER
  }

  predicate InProfile(v: Json) {
    match v
    case Null => true
    case Bool(_) => true
    case Str(s) => Ascii(s)
    case Num(raw) => CanonicalNumber(raw)
    case Arr(items) => forall i :: 0 <= i < |items| ==> InProfile(items[i])
    case Obj(m) => forall name :: name in m ==> Ascii(name) && InProfile(m[name])
  }

  // ----- Byte order of names

  predicate Before(a: string, b: string) {
    if b == "" then false
    else if a == "" then true
    else if a[0] != b[0] then a[0] < b[0]
    else Before(a[1..], b[1..])
  }

  lemma {:induction false} BeforeTotal(a: string, b: string)
    ensures a == b || Before(a, b) || Before(b, a)
    ensures !(Before(a, b) && Before(b, a)) && !Before(a, a)
  {
    if a != "" && b != "" {
      BeforeTotal(a[1..], b[1..]);
      assert a == [a[0]] + a[1..] && b == [b[0]] + b[1..];
    }
    if a != "" {
      BeforeTotal(a[1..], a[1..]);
    }
  }

  lemma {:induction false} BeforeTransitive(a: string, b: string, c: string)
    requires Before(a, b) && Before(b, c)
    ensures Before(a, c)
  {
    if a != "" && a[0] == b[0] && b[0] == c[0] {
      BeforeTransitive(a[1..], b[1..], c[1..]);
    }
  }

  ghost predicate IsFirst(first: string, names: set<string>) {
    first in names && forall n :: n in names && n != first ==> Before(first, n)
  }

  lemma FirstOfMore(x: string, y: string, rest: set<string>)
    requires IsFirst(y, rest) && Before(x, y)
    ensures IsFirst(x, rest + {x})
  {
    forall n | n in rest && n != x
      ensures Before(x, n)
    {
      if n != y {
        BeforeTransitive(x, y, n);
      }
    }
  }

  lemma {:induction false} FirstExists(names: set<string>)
    requires names != {}
    ensures exists first :: IsFirst(first, names)
  {
    var x :| x in names;
    var rest := names - {x};
    assert names == rest + {x};
    if rest == {} {
      assert IsFirst(x, names);
    } else {
      FirstExists(rest);
      var y :| IsFirst(y, rest);
      BeforeTotal(x, y);
      if Before(x, y) {
        FirstOfMore(x, y, rest);
      } else {
        assert IsFirst(y, names);
      }
    }
  }

  ghost function First(names: set<string>): (first: string)
    requires names != {}
    ensures first in names && forall n :: n in names && n != first ==> Before(first, n)
  {
    FirstExists(names);
    var first :| IsFirst(first, names);
    first
  }

  /** The names of an object in ascending byte order. */
  ghost function Sorted(names: set<string>): (s: seq<string>)
    ensures |s| == |names|
    ensures forall n :: n in s <==> n in names
  {
    if names == {} then [] else [First(names)] + Sorted(names - {First(names)})
  }

  lemma {:induction false} SortedAscends(names: set<string>)
    ensures forall i, j :: 0 <= i < j < |Sorted(names)| ==> Before(Sorted(names)[i], Sorted(names)[j])
  {
    if names != {} {
      var first := First(names);
      var rest := Sorted(names - {first});
      SortedAscends(names - {first});
      forall i, j | 0 <= i < j < |Sorted(names)|
        ensures Before(Sorted(names)[i], Sorted(names)[j])
      {
        if i == 0 {
          assert rest[j - 1] in rest;
        }
      }
    }
  }

  // ----- The printer

  function Escape(c: char): string {
    if c == '"' then "\\\""
    else if c == '\\' then "\\\\"
    else if c == 8 as char then "\\b"
    else if c == 12 as char then "\\f"
    else if c == '\n' then "\\n"
    else if c == '\r' then "\\r"
    else if c == '\t' then "\\t"
    else if c < ' ' then "\\u00" + [HexDigit(c as int / 16), HexDigit(c as int % 16)]
    else [c]
  }

  function EscapeAll(s: string): string {
    if s == "" then "" else Escape(s[0]) + EscapeAll(s[1..])
  }

  function Quote(s: string): string {
    "\"" + EscapeAll(s) + "\""
  }

  /** The canonical text of a profile value. */
  ghost function Print(v: Json): (t: string)
    requires InProfile(v)
    ensures t != ""
    decreases v
  {
    match v
    case Null => "null"
    case Bool(b) => if b then "true" else "false"
    case Str(s) => Quote(s)
    case Num(raw) => raw
    case Arr(items) => "[" + PrintItems(v, 0) + "]"
    case Obj(m) => "{" + PrintMembers(v, Sorted(m.Keys), 0) + "}"
  }

  ghost function PrintItems(v: Json, from: nat): string
    requires v.Arr? && InProfile(v) && from <= |v.items|
    decreases v, |v.items| - from
  {
    if from == |v.items| then ""
    else if from + 1 == |v.items| then Print(v.items[from])
    else Print(v.items[from]) + "," + PrintItems(v, from + 1)
  }

  ghost function PrintMember(v: Json, name: string): string
    requires v.Obj? && InProfile(v) && name in v.members
    decreases v, 0
  {
    Quote(name) + (":" + Print(v.members[name]))
  }

  ghost function PrintMembers(v: Json, names: seq<string>, from: nat): string
    requires v.Obj? && InProfile(v) && from <= |names| && forall n :: n in names ==> n in v.members
    decreases v, |names| - from + 1
  {
    if from == |names| then ""
    else if from + 1 == |names| then PrintMember(v, names[from])
    else PrintMember(v, names[from]) + "," + PrintMembers(v, names, from + 1)
  }

  // ----- The strict parser

  datatype Parsed<+T> = Rejected | Parsed(value: T, rest: string)

  predicate IsSpace(c: char) {
    c == ' ' || c == '\t' || c == '\n' || c == '\r'
  }

  function SkipSpace(s: string): (r: string)
    ensures |r| <= |s|
    ensures s != "" && !IsSpace(s[0]) ==> r == s
  {
    if s != "" && IsSpace(s[0]) then SkipSpace(s[1..]) else s
  }

  /** The code unit of an escape of the form backslash, u and four hexadecimal digits at this place. */
  function ParseUnit(s: string): (r: Option<nat>)
    ensures r.Some? ==> r.value < 0x10000 && |s| >= 6
  {
    if |s| < 6 || s[0] != '\\' || s[1] != 'u' then None
    else
      var a, b, c, d := HexValue(s[2]), HexValue(s[3]), HexValue(s[4]), HexValue(s[5]);
      if a.None? || b.None? || c.None? || d.None? then None
      else Some(4096 * a.value + 256 * b.value + 16 * c.value + d.value)
  }

  /** A pair of surrogates makes one character; a surrogate without its partner becomes the replacement character. */
  function ParseEscaped(s: string): (r: Parsed<string>)
    ensures r.Parsed? ==> |r.rest| < |s|
  {
    match ParseUnit(s)
    case None => Rejected
    case Some(unit) =>
      if Scalar(unit) then Parsed(Encode(unit), s[6..])
      else
        match ParseUnit(s[6..])
        case Some(low) =>
          if HighSurrogate(unit) && LowSurrogate(low) then Parsed(Encode(Paired(unit, low)), s[12..])
          else Parsed(Encode(REPLACEMENT), s[6..])
        case None => Parsed(Encode(REPLACEMENT), s[6..])
  }

  /** The bytes of one character of a string body, after any escape is undone. */
  function ParseChar(s: string): (r: Parsed<string>)
    ensures r.Parsed? ==> |r.rest| < |s|
  {
    if s == "" || s[0] < ' ' || s[0] == '"' then Rejected
    else if s[0] != '\\' then Parsed([s[0]], s[1..])
    else if |s| < 2 then Rejected
    else
      match s[1]
      case '"' => Parsed("\"", s[2..])
      case '\\' => Parsed("\\", s[2..])
      case '/' => Parsed("/", s[2..])
      case 'b' => Parsed([8 as char], s[2..])
      case 'f' => Parsed([12 as char], s[2..])
      case 'n' => Parsed("\n", s[2..])
      case 'r' => Parsed("\r", s[2..])
      case 't' => Parsed("\t", s[2..])
      case 'u' => ParseEscaped(s)
      case _ => Rejected
  }

  /** The body of a string, from behind its opening quote to behind its closing one. */
  function ParseBody(s: string): (r: Parsed<string>)
    ensures r.Parsed? ==> |r.rest| < |s|
    decreases |s|
  {
    if s == "" then Rejected
    else if s[0] == '"' then Parsed("", s[1..])
    else
      var c := ParseChar(s);
      if c.Rejected? then Rejected
      else
        var tail := ParseBody(c.rest);
        if tail.Rejected? then Rejected else Parsed(c.value + tail.value, tail.rest)
  }

  function DigitRun(s: string): (n: nat)
    ensures n <= |s|
    ensures AllDigits(s[..n])
    ensures n < |s| ==> !IsDigit(s[n])
  {
    if s != "" && IsDigit(s[0]) then
      var n := DigitRun(s[1..]);
      assert s[..n + 1] == [s[0]] + s[1..][..n];
      n + 1
    else 0
  }

  function SkipDigits(s: string): (rest: string)
    ensures |rest| <= |s|
  {
    s[DigitRun(s)..]
  }

  /** What is behind a fraction, if there is one; a point needs digits behind it. */
  function SkipFraction(s: string): (rest: Option<string>)
    ensures rest.Some? ==> |rest.value| <= |s|
  {
    if s == "" || s[0] != '.' then Some(s)
    else if DigitRun(s[1..]) == 0 then None
    else Some(SkipDigits(s[1..]))
  }

  function SkipSign(s: string): (rest: string)
    ensures |rest| <= |s|
  {
    if s != "" && (s[0] == '+' || s[0] == '-') then s[1..] else s
  }

  /** The same for an exponent. */
  function SkipExponent(s: string): (rest: Option<string>)
    ensures rest.Some? ==> |rest.value| <= |s|
  {
    if s == "" || (s[0] != 'e' && s[0] != 'E') then Some(s)
    else if DigitRun(SkipSign(s[1..])) == 0 then None
    else Some(SkipDigits(SkipSign(s[1..])))
  }

  function SkipMinus(s: string): (rest: string)
    ensures |rest| <= |s|
  {
    if s != "" && s[0] == '-' then s[1..] else s
  }

  /** Any number of the JSON grammar, kept as it is spelt. */
  function ParseNumber(s: string): (r: Parsed<Json>)
    ensures r.Parsed? ==> r.value.Num? && |r.rest| < |s|
  {
    var whole := SkipMinus(s);
    if !Plain(whole[..DigitRun(whole)]) then Rejected
    else
      match SkipFraction(SkipDigits(whole))
      case None => Rejected
      case Some(behind) =>
        match SkipExponent(behind)
        case None => Rejected
        case Some(rest) => Parsed(Num(s[..|s| - |rest|]), rest)
  }

  function ParseWord(s: string, word: string, v: Json): (r: Parsed<Json>)
    requires word != ""
    ensures r.Parsed? ==> |r.rest| < |s|
  {
    if word <= s then Parsed(v, s[|word|..]) else Rejected
  }

  function ParseValue(s: string): (r: Parsed<Json>)
    ensures r.Parsed? ==> |r.rest| < |s|
    decreases |s|, 0
  {
    var t := SkipSpace(s);
    if t == "" then Rejected
    else
      match t[0]
      case 'n' => ParseWord(t, "null", Null)
      case 't' => ParseWord(t, "true", Bool(true))
      case 'f' => ParseWord(t, "false", Bool(false))
      case '"' =>
        var body := ParseBody(t[1..]);
        if body.Rejected? then Rejected else Parsed(Str(body.value), body.rest)
      case '[' => ParseArray(t[1..])
      case '{' => ParseObject(t[1..])
      case _ => ParseNumber(t)
  }

  /** An array from behind its opening bracket. */
  function ParseArray(s: string): (r: Parsed<Json>)
    ensures r.Parsed? ==> |r.rest| < |s|
    decreases |s|, 3
  {
    var t := SkipSpace(s);
    if t != "" && t[0] == ']' then Parsed(Arr([]), t[1..])
    else
      var items := ParseItems(s, []);
      if items.Rejected? then Rejected else Parsed(Arr(items.value), items.rest)
  }

  /** An object from behind its opening brace. */
  function ParseObject(s: string): (r: Parsed<Json>)
    ensures r.Parsed? ==> |r.rest| < |s|
    decreases |s|, 3
  {
    var t := SkipSpace(s);
    if t != "" && t[0] == '}' then Parsed(Obj(map[]), t[1..])
    else
      var members := ParseMembers(s, map[]);
      if members.Rejected? then Rejected else Parsed(Obj(members.value), members.rest)
  }

  /** The items of an array, at least one more than those already `read`, up to its closing bracket. */
  function ParseItems(s: string, read: seq<Json>): (r: Parsed<seq<Json>>)
    ensures r.Parsed? ==> |r.rest| < |s|
    decreases |s|, 1
  {
    var item := ParseValue(s);
    if item.Rejected? then Rejected
    else
      var t := SkipSpace(item.rest);
      if t == "" then Rejected
      else if t[0] == ']' then Parsed(read + [item.value], t[1..])
      else if t[0] != ',' then Rejected
      else ParseItems(t[1..], read + [item.value])
  }

  /** A name and its value; a name already seen in this object is refused. */
  function ParseMember(s: string, seen: map<string, Json>): (r: Parsed<(string, Json)>)
    ensures r.Parsed? ==> |r.rest| < |s|
    decreases |s|, 1
  {
    var t := SkipSpace(s);
    if t == "" || t[0] != '"' then Rejected
    else
      var name := ParseBody(t[1..]);
      if name.Rejected? || name.value in seen then Rejected
      else
        var u := SkipSpace(name.rest);
        if u == "" || u[0] != ':' then Rejected
        else
          var child := ParseValue(u[1..]);
          if child.Rejected? then Rejected else Parsed((name.value, child.value), child.rest)
  }

  function ParseMembers(s: string, seen: map<string, Json>): (r: Parsed<map<string, Json>>)
    ensures r.Parsed? ==> |r.rest| < |s|
    decreases |s|, 2
  {
    var member := ParseMember(s, seen);
    if member.Rejected? then Rejected
    else
      var grown := seen[member.value.0 := member.value.1];
      var t := SkipSpace(member.rest);
      if t == "" then Rejected
      else if t[0] == '}' then Parsed(grown, t[1..])
      else if t[0] != ',' then Rejected
      else ParseMembers(t[1..], grown)
  }

  /** Valid UTF-8 with exactly one value and nothing but space behind it. */
  function ParseStrict(s: string): Option<Json> {
    if !Utf8(s) then None
    else
      var v := ParseValue(s);
      if v.Parsed? && SkipSpace(v.rest) == "" then Some(v.value) else None
  }

  // ----- Parsing undoes printing

  lemma UnitRoundTrip(n: nat, rest: string)
    requires n < 128
    ensures ParseEscaped("\\u00" + [HexDigit(n / 16), HexDigit(n % 16)] + rest) == Parsed([n as char], rest)
  {
    var s := "\\u00" + [HexDigit(n / 16), HexDigit(n % 16)] + rest;
    assert s[0] == '\\' && s[1] == 'u' && s[2] == '0' && s[3] == '0' && s[6..] == rest;
    assert s[4] == HexDigit(n / 16) && s[5] == HexDigit(n % 16);
    assert ParseUnit(s) == Some(n);
  }

  lemma EscapeRoundTrip(c: char, rest: string)
    requires c < 128 as char
    ensures ParseChar(Escape(c) + rest) == Parsed([c], rest)
    ensures Escape(c) != "" && Escape(c)[0] != '"'
  {
    var s := Escape(c) + rest;
    assert s[|Escape(c)|..] == rest;
    if |Escape(c)| == 6 {
      UnitRoundTrip(c as int, rest);
    }
  }

  lemma {:induction false} BodyRoundTrip(s: string, rest: string)
    requires Ascii(s)
    ensures ParseBody(EscapeAll(s) + "\"" + rest) == Parsed(s, rest)
  {
    if s == "" {
      assert EscapeAll(s) + "\"" + rest == "\"" + rest;
    } else {
      var tail := EscapeAll(s[1..]) + "\"" + rest;
      assert EscapeAll(s) + "\"" + rest == Escape(s[0]) + tail;
      EscapeRoundTrip(s[0], tail);
      BodyRoundTrip(s[1..], rest);
      assert [s[0]] + s[1..] == s;
    }
  }

  lemma {:induction false} DigitRunOf(digits: string, rest: string)
    requires AllDigits(digits) && (rest == "" || !IsDigit(rest[0]))
    ensures DigitRun(digits + rest) == |digits|
  {
    if digits == "" {
      assert digits + rest == rest;
    } else {
      DigitRunOf(digits[1..], rest);
      assert (digits + rest)[1..] == digits[1..] + rest;
    }
  }

  /** What may follow a value: nothing, or a character no value continues with. */
  predicate Delimited(rest: string) {
    rest == "" || !(IsDigit(rest[0]) || rest[0] == '.' || rest[0] == 'e' || rest[0] == 'E')
  }

  lemma PrintStart(v: Json)
    requires InProfile(v)
    ensures var c := Print(v)[0];
            !IsSpace(c) && c != ']' && c != '}' &&
            match v
            case Null => c == 'n'
            case Bool(b) => c == if b then 't' else 'f'
            case Str(_) => c == '"'
            case Num(_) => IsDigit(c)
            case Arr(_) => c == '['
            case Obj(_) => c == '{'
  {
  }

  lemma TextRoundTrip(text: string, rest: string)
    requires Ascii(text)
    ensures ParseValue(Quote(text) + rest) == Parsed(Str(text), rest)
  {
    var s := Quote(text) + rest;
    assert s[1..] == EscapeAll(text) + "\"" + rest;
    BodyRoundTrip(text, rest);
  }

  lemma NumberRoundTrip(raw: string, rest: string)
    requires Plain(raw) && Delimited(rest)
    ensures ParseValue(raw + rest) == Parsed(Num(raw), rest)
  {
    var s := raw + rest;
    DigitRunOf(raw, rest);
    assert IsDigit(s[0]) && s[..|raw|] == raw && SkipDigits(s) == rest;
    assert ParseValue(s) == ParseNumber(s);
  }

  lemma WordRoundTrip(v: Json, rest: string)
    requires v.Null? || v.Bool?
    ensures ParseValue(Print(v) + rest) == Parsed(v, rest)
  {
    var s := Print(v) + rest;
    assert s[0] == Print(v)[0] && s[|Print(v)|..] == rest;
  }

  // One step of the parser each, over arbitrary text.

  lemma StepOpenArray(inner: string)
    ensures ParseValue("[" + inner) == ParseArray(inner)
  {
    assert ("[" + inner)[1..] == inner;
  }

  lemma StepEmptyArray(rest: string)
    ensures ParseArray("]" + rest) == Parsed(Arr([]), rest)
  {
    assert ("]" + rest)[1..] == rest;
  }

  lemma StepArray(inner: string, items: seq<Json>, rest: string)
    requires inner != "" && !IsSpace(inner[0]) && inner[0] != ']'
    requires ParseItems(inner, []) == Parsed(items, rest)
    ensures ParseArray(inner) == Parsed(Arr(items), rest)
  {
  }

  lemma StepLastItem(s: string, item: Json, read: seq<Json>, rest: string)
    requires ParseValue(s) == Parsed(item, "]" + rest)
    ensures ParseItems(s, read) == Parsed(read + [item], rest)
  {
    assert ("]" + rest)[1..] == rest;
  }

  lemma StepItem(s: string, item: Json, read: seq<Json>, tail: string)
    requires ParseValue(s) == Parsed(item, "," + tail)
    ensures ParseItems(s, read) == ParseItems(tail, read + [item])
  {
    assert ("," + tail)[1..] == tail;
  }

  lemma StepOpenObject(inner: string)
    ensures ParseValue("{" + inner) == ParseObject(inner)
  {
    assert ("{" + inner)[1..] == inner;
  }

  lemma StepEmptyObject(rest: string)
    ensures ParseObject("}" + rest) == Parsed(Obj(map[]), rest)
  {
    assert ("}" + rest)[1..] == rest;
  }

  lemma StepObject(inner: string, m: map<string, Json>, rest: string)
    requires inner != "" && !IsSpace(inner[0]) && inner[0] != '}'
    requires ParseMembers(inner, map[]) == Parsed(m, rest)
    ensures ParseObject(inner) == Parsed(Obj(m), rest)
  {
  }

  lemma StepMember(name: string, s: string, child: Json, seen: map<string, Json>, rest: string)
    requires Ascii(name) && name !in seen && ParseValue(s) == Parsed(child, rest)
    ensures ParseMember(Quote(name) + ":" + s, seen) == Parsed((name, child), rest)
  {
    var t := Quote(name) + ":" + s;
    QuotedTail(name, s);
    BodyRoundTrip(name, ":" + s);
    StepNamed(t, name, s, child, seen, rest);
  }

  lemma QuotedTail(name: string, s: string)
    ensures var t := Quote(name) + ":" + s;
            t[0] == '"' && t[1..] == EscapeAll(name) + "\"" + (":" + s)
  {
  }

  lemma StepNamed(t: string, name: string, s: string, child: Json, seen: map<string, Json>, rest: string)
    requires t != "" && t[0] == '"' && ParseBody(t[1..]) == Parsed(name, ":" + s)
    requires name !in seen && ParseValue(s) == Parsed(child, rest)
    ensures ParseMember(t, seen) == Parsed((name, child), rest)
  {
    assert (":" + s)[1..] == s;
  }

  lemma StepLastMember(s: string, name: string, child: Json, seen: map<string, Json>, rest: string)
    requires ParseMember(s, seen) == Parsed((name, child), "}" + rest)
    ensures ParseMembers(s, seen) == Parsed(seen[name := child], rest)
  {
    assert ("}" + rest)[1..] == rest;
  }

  lemma StepMembers(s: string, name: string, child: Json, seen: map<string, Json>, tail: string)
    requires ParseMember(s, seen) == Parsed((name, child), "," + tail)
    ensures ParseMembers(s, seen) == ParseMembers(tail, seen[name := child])
  {
    assert ("," + tail)[1..] == tail;
  }

  lemma {:induction false} ValueRoundTrip(v: Json, rest: string)
    requires InProfile(v) && Delimited(rest)
    ensures ParseValue(Print(v) + rest) == Parsed(v, rest)
    decreases v
  {
    if v.Arr? {
      ArrayRoundTrip(v, rest);
    } else if v.Obj? {
      ObjectRoundTrip(v, rest);
    } else if v.Str? {
      TextRoundTrip(v.text, rest);
    } else if v.Num? {
      NumberRoundTrip(v.spelling, rest);
    } else {
      WordRoundTrip(v, rest);
    }
  }

  lemma {:induction false} ArrayRoundTrip(v: Json, rest: string)
    requires v.Arr? && InProfile(v)
    ensures ParseValue(Print(v) + rest) == Parsed(v, rest)
    decreases v, |v.items| + 1
  {
    var inner := PrintItems(v, 0) + "]" + rest;
    assert Print(v) + rest == "[" + inner;
    StepOpenArray(inner);
    if v.items == [] {
      assert inner == "]" + rest;
      StepEmptyArray(rest);
    } else {
      PrintStart(v.items[0]);
      assert inner[0] == Print(v.items[0])[0];
      ItemsRoundTrip(v, 0, rest);
      StepArray(inner, v.items, rest);
    }
  }

  lemma PrintItemsSplit(v: Json, from: nat, rest: string)
    requires v.Arr? && InProfile(v) && from < |v.items|
    ensures PrintItems(v, from) + "]" + rest ==
            Print(v.items[from]) +
            if from + 1 == |v.items| then "]" + rest else "," + (PrintItems(v, from + 1) + "]" + rest)
  {
  }

  lemma {:induction false} ItemsRoundTrip(v: Json, from: nat, rest: string)
    requires v.Arr? && InProfile(v) && from < |v.items|
    ensures ParseItems(PrintItems(v, from) + "]" + rest, v.items[..from]) == Parsed(v.items, rest)
    decreases v, |v.items| - from
  {
    var item := v.items[from];
    var s := PrintItems(v, from) + "]" + rest;
    PrintItemsSplit(v, from, rest);
    assert v.items[..from] + [item] == v.items[..from + 1];
    if from + 1 == |v.items| {
      ValueRoundTrip(item, "]" + rest);
      StepLastItem(s, item, v.items[..from], rest);
      assert v.items[..from + 1] == v.items;
    } else {
      var tail := PrintItems(v, from + 1) + "]" + rest;
      ValueRoundTrip(item, "," + tail);
      StepItem(s, item, v.items[..from], tail);
      ItemsRoundTrip(v, from + 1, rest);
    }
  }

  /** The object a run of members builds up. */
  function Grow(seen: map<string, Json>, m: map<string, Json>, names: seq<string>, from: nat): map<string, Json>
    requires from <= |names| && forall n :: n in names ==> n in m
    decreases |names| - from
  {
    if from == |names| then seen else Grow(seen[names[from] := m[names[from]]], m, names, from + 1)
  }

  lemma {:induction false} GrowCovers(seen: map<string, Json>, m: map<string, Json>, names: seq<string>, from: nat)
    requires from <= |names| && forall n :: n in names ==> n in m
    requires forall n :: n in seen ==> n in m && seen[n] == m[n]
    requires forall i :: 0 <= i < from ==> names[i] in seen
    ensures Grow(seen, m, names, from) == map n | n in m && (n in seen || n in names) :: m[n]
    decreases |names| - from
  {
    if from < |names| {
      GrowCovers(seen[names[from] := m[names[from]]], m, names, from + 1);
    }
  }

  lemma GrowAll(m: map<string, Json>)
    ensures Grow(map[], m, Sorted(m.Keys), 0) == m
  {
    GrowCovers(map[], m, Sorted(m.Keys), 0);
  }

  ghost predicate Distinct(names: seq<string>) {
    forall i, j :: 0 <= i < j < |names| ==> names[i] != names[j]
  }

  lemma SortedDistinct(names: set<string>)
    ensures Distinct(Sorted(names))
  {
    SortedAscends(names);
    forall i, j | 0 <= i < j < |Sorted(names)|
      ensures Sorted(names)[i] != Sorted(names)[j]
    {
      BeforeTotal(Sorted(names)[i], Sorted(names)[j]);
    }
  }

  lemma PrintObjectSplit(v: Json, rest: string)
    requires v.Obj? && InProfile(v)
    ensures var inner := PrintMembers(v, Sorted(v.members.Keys), 0) + "}" + rest;
            Print(v) + rest == "{" + inner && inner[0] == if |v.members| == 0 then '}' else '"'
  {
  }

  lemma {:induction false} ObjectRoundTrip(v: Json, rest: string)
    requires v.Obj? && InProfile(v)
    ensures ParseValue(Print(v) + rest) == Parsed(v, rest)
    decreases v, |v.members| + 3
  {
    var names := Sorted(v.members.Keys);
    SortedDistinct(v.members.Keys);
    GrowAll(v.members);
    PrintObjectSplit(v, rest);
    StepOpenObject(PrintMembers(v, names, 0) + "}" + rest);
    ObjectBodyRoundTrip(v, names, rest);
  }

  lemma {:induction false} ObjectBodyRoundTrip(v: Json, names: seq<string>, rest: string)
    requires v.Obj? && InProfile(v) && forall n :: n in names ==> n in v.members
    requires Distinct(names) && Grow(map[], v.members, names, 0) == v.members
    requires (PrintMembers(v, names, 0) + "}" + rest)[0] == if |names| == 0 then '}' else '"'
    ensures ParseObject(PrintMembers(v, names, 0) + "}" + rest) == Parsed(v, rest)
    decreases v, |names| + 2
  {
    var inner := PrintMembers(v, names, 0) + "}" + rest;
    if |names| == 0 {
      assert inner == "}" + rest;
      StepEmptyObject(rest);
    } else {
      MembersRoundTrip(v, names, 0, map[], rest);
      StepObject(inner, v.members, rest);
    }
  }

  lemma LastRegrouped(name: string, text: string, rest: string)
    ensures name + (":" + text) + "}" + rest == name + ":" + (text + ("}" + rest))
  {
  }

  lemma MoreRegrouped(name: string, text: string, more: string, rest: string)
    ensures name + (":" + text) + "," + more + "}" + rest == name + ":" + (text + ("," + (more + "}" + rest)))
  {
  }

  lemma PrintMembersSplit(v: Json, names: seq<string>, from: nat, rest: string)
    requires v.Obj? && InProfile(v) && from < |names| && forall n :: n in names ==> n in v.members
    ensures PrintMembers(v, names, from) + "}" + rest ==
            Quote(names[from]) + ":" +
            (Print(v.members[names[from]]) +
             if from + 1 == |names| then "}" + rest else "," + (PrintMembers(v, names, from + 1) + "}" + rest))
  {
    var name, text := Quote(names[from]), Print(v.members[names[from]]);
    if from + 1 == |names| {
      LastRegrouped(name, text, rest);
    } else {
      MoreRegrouped(name, text, PrintMembers(v, names, from + 1), rest);
    }
  }

  lemma {:induction false} MembersRoundTrip(v: Json, names: seq<string>, from: nat, seen: map<string, Json>,
                                            rest: string)
    requires v.Obj? && InProfile(v) && from < |names| && forall n :: n in names ==> n in v.members
    requires Distinct(names) && forall i :: from <= i < |names| ==> names[i] !in seen
    ensures ParseMembers(PrintMembers(v, names, from) + "}" + rest, seen) ==
            Parsed(Grow(seen, v.members, names, from), rest)
    decreases v, |names| - from + 1
  {
    var name := names[from];
    var child := v.members[name];
    var s := PrintMembers(v, names, from) + "}" + rest;
    PrintMembersSplit(v, names, from, rest);
    if from + 1 == |names| {
      var t := Print(child) + ("}" + rest);
      ValueRoundTrip(child, "}" + rest);
      StepMember(name, t, child, seen, "}" + rest);
      StepLastMember(s, name, child, seen, rest);
    } else {
      var tail := PrintMembers(v, names, from + 1) + "}" + rest;
      var t := Print(child) + ("," + tail);
      ValueRoundTrip(child, "," + tail);
      StepMember(name, t, child, seen, "," + tail);
      StepMembers(s, name, child, seen, tail);
      MembersRoundTrip(v, names, from + 1, seen[name := child], rest);
    }
  }

  lemma {:induction false} EscapeIsAscii(s: string)
    requires Ascii(s)
    ensures Ascii(EscapeAll(s))
  {
    if s != "" {
      EscapeIsAscii(s[1..]);
    }
  }

  lemma {:induction false} PrintIsAscii(v: Json)
    requires InProfile(v)
    ensures Ascii(Print(v))
    decreases v
  {
    match v
    case Str(s) => EscapeIsAscii(s);
    case Arr(_) => ItemsAreAscii(v, 0);
    case Obj(m) => MembersAreAscii(v, Sorted(m.Keys), 0);
    case _ =>
  }

  lemma {:induction false} ItemsAreAscii(v: Json, from: nat)
    requires v.Arr? && InProfile(v) && from <= |v.items|
    ensures Ascii(PrintItems(v, from))
    decreases v, |v.items| - from
  {
    if from < |v.items| {
      PrintIsAscii(v.items[from]);
      ItemsAreAscii(v, from + 1);
    }
  }

  lemma {:induction false} MembersAreAscii(v: Json, names: seq<string>, from: nat)
    requires v.Obj? && InProfile(v) && from <= |names| && forall n :: n in names ==> n in v.members
    ensures Ascii(PrintMembers(v, names, from))
    decreases v, |names| - from + 1
  {
    if from < |names| {
      PrintIsAscii(v.members[names[from]]);
      EscapeIsAscii(names[from]);
      MembersAreAscii(v, names, from + 1);
    }
  }

  /** Strictly parsing the canonical text of any profile value returns that value and leaves nothing over. */
  lemma ParseUndoesPrint(v: Json)
    requires InProfile(v)
    ensures ParseStrict(Print(v)) == Some(v)
  {
    ValueRoundTrip(v, "");
    assert Print(v) + "" == Print(v);
    PrintIsAscii(v);
    AsciiIsUtf8(Print(v));
  }

  /** One text, one value. */
  lemma PrintInjective(v: Json, w: Json)
    requires InProfile(v) && InProfile(w) && Print(v) == Print(w)
    ensures v == w
  {
    ParseUndoesPrint(v);
    ParseUndoesPrint(w);
  }

  // ----- What the strict parser lets in is valid UTF-8 throughout

  predicate AllUtf8(v: Json) {
    match v
    case Str(text) => Utf8(text)
    case Arr(items) => forall i :: 0 <= i < |items| ==> AllUtf8(items[i])
    case Obj(m) => forall name :: name in m ==> Utf8(name) && AllUtf8(m[name])
    case _ => true
  }

  lemma RawByteIsCopied(s: string)
    requires s != "" && s[0] as int >= 0x80 && ParseBody(s).Parsed?
    ensures ParseBody(s[1..]).Parsed?
    ensures ParseBody(s) == Parsed([s[0]] + ParseBody(s[1..]).value, ParseBody(s[1..]).rest)
  {
    assert ParseChar(s) == Parsed([s[0]], s[1..]);
  }

  lemma Rejoined(s: string, n: nat, tail: string)
    requires 0 < n <= |s|
    ensures s[1..][n - 1..] == s[n..] && [s[0]] + (s[1..][..n - 1] + tail) == s[..n] + tail
  {
  }

  /** A character beyond ASCII is copied byte by byte. */
  lemma {:induction false} RawCharIsCopied(s: string, n: nat)
    requires n <= |s| && forall i :: 0 <= i < n ==> s[i] as int >= 0x80
    requires ParseBody(s).Parsed?
    ensures ParseBody(s[n..]).Parsed?
    ensures ParseBody(s) == Parsed(s[..n] + ParseBody(s[n..]).value, ParseBody(s[n..]).rest)
  {
    if n == 0 {
      assert s[0..] == s && s[..0] + ParseBody(s).value == ParseBody(s).value;
    } else {
      RawByteIsCopied(s);
      RawCharIsCopied(s[1..], n - 1);
      Rejoined(s, n, ParseBody(s[n..]).value);
    }
  }

  lemma UnitUtf8(s: string)
    requires Utf8(s) && ParseUnit(s).Some?
    ensures Utf8(s[6..])
  {
    DropAscii(s, 6);
  }

  lemma PairUtf8(s: string, tail: string)
    requires |s| >= 6 && Utf8(s[6..]) && ParseEscaped(s).Parsed? && Utf8(tail) && !Scalar(ParseUnit(s).value)
    ensures Utf8(ParseEscaped(s).rest) && Utf8(ParseEscaped(s).value + tail)
  {
    var unit, low := ParseUnit(s).value, ParseUnit(s[6..]);
    if low.Some? && HighSurrogate(unit) && LowSurrogate(low.value) {
      UnitUtf8(s[6..]);
      assert s[6..][6..] == s[12..];
      EncodeIsWellFormed(Paired(unit, low.value), tail);
    } else {
      EncodeIsWellFormed(REPLACEMENT, tail);
    }
  }

  lemma EscapedUtf8(s: string, tail: string)
    requires Utf8(s) && ParseEscaped(s).Parsed? && Utf8(tail)
    ensures Utf8(ParseEscaped(s).rest) && Utf8(ParseEscaped(s).value + tail)
  {
    UnitUtf8(s);
    if Scalar(ParseUnit(s).value) {
      EncodeIsWellFormed(ParseUnit(s).value, tail);
    } else {
      PairUtf8(s, tail);
    }
  }

  lemma CharUtf8(s: string, tail: string)
    requires Utf8(s) && s != "" && s[0] < 128 as char && ParseChar(s).Parsed? && Utf8(tail)
    ensures Utf8(ParseChar(s).rest) && Utf8(ParseChar(s).value + tail)
  {
    if s[0] != '\\' {
      RawChar(s);
      DropAscii(s, 1);
      OneMoreUtf8(s[0], tail);
    } else if s[1] == 'u' {
      EscapedUtf8(s, tail);
    } else {
      ShortEscape(s);
      DropAscii(s, 2);
      OneMoreUtf8(ParseChar(s).value[0], tail);
    }
  }

  lemma ShortEscape(s: string)
    requires |s| >= 2 && s[0] == '\\' && s[1] != 'u' && ParseChar(s).Parsed?
    ensures ParseChar(s).rest == s[2..] && s[1] < 128 as char
    ensures |ParseChar(s).value| == 1 && ParseChar(s).value[0] < 128 as char
  {
  }

  lemma RawChar(s: string)
    requires s != "" && s[0] != '\\' && ParseChar(s).Parsed?
    ensures ParseChar(s) == Parsed([s[0]], s[1..])
  {
  }

  lemma OneMoreUtf8(c: char, tail: string)
    requires c < 128 as char && Utf8(tail)
    ensures Utf8([c] + tail)
  {
    assert ([c] + tail)[1..] == tail;
  }

  lemma {:induction false} BodyUtf8(s: string)
    requires Utf8(s) && ParseBody(s).Parsed?
    ensures Utf8(ParseBody(s).value) && Utf8(ParseBody(s).rest)
    decreases |s|
  {
    if s[0] == '"' {
      DropAscii(s, 1);
    } else if s[0] < 128 as char {
      var c := ParseChar(s);
      CharUtf8(s, "");
      BodyUtf8(c.rest);
      CharUtf8(s, ParseBody(c.rest).value);
    } else {
      var n := Width(s);
      forall i | 0 <= i < n
        ensures s[i] as int >= 0x80
      {
        WideIsHigh(s, i);
      }
      RawCharIsCopied(s, n);
      BodyUtf8(s[n..]);
      WidthOfPrefix(s, ParseBody(s[n..]).value);
      assert (s[..n] + ParseBody(s[n..]).value)[n..] == ParseBody(s[n..]).value;
    }
  }

  lemma {:induction false} SpaceUtf8(s: string)
    requires Utf8(s)
    ensures Utf8(SkipSpace(s))
  {
    if s != "" && IsSpace(s[0]) {
      SpaceUtf8(s[1..]);
    }
  }

  lemma DigitsUtf8(s: string)
    requires Utf8(s)
    ensures Utf8(SkipDigits(s))
  {
    var n := DigitRun(s);
    forall i | 0 <= i < n
      ensures s[i] < 128 as char
    {
      assert IsDigit(s[..n][i]);
    }
    DropAscii(s, n);
  }

  lemma FractionUtf8(s: string)
    requires Utf8(s) && SkipFraction(s).Some?
    ensures Utf8(SkipFraction(s).value)
  {
    if s != "" && s[0] == '.' {
      DropAscii(s, 1);
      DigitsUtf8(s[1..]);
    }
  }

  lemma ExponentUtf8(s: string)
    requires Utf8(s) && SkipExponent(s).Some?
    ensures Utf8(SkipExponent(s).value)
  {
    if s != "" && (s[0] == 'e' || s[0] == 'E') {
      DropAscii(s, 1);
      SignUtf8(s[1..]);
      DigitsUtf8(SkipSign(s[1..]));
    }
  }

  lemma SignUtf8(s: string)
    requires Utf8(s)
    ensures Utf8(SkipSign(s)) && Utf8(SkipMinus(s))
  {
    if SkipSign(s) != s {
      DropAscii(s, 1);
    }
  }

  lemma NumberUtf8(s: string)
    requires Utf8(s) && ParseNumber(s).Parsed?
    ensures Utf8(ParseNumber(s).rest)
  {
    var whole := SkipMinus(s);
    SignUtf8(s);
    DigitsUtf8(whole);
    FractionUtf8(SkipDigits(whole));
    ExponentUtf8(SkipFraction(SkipDigits(whole)).value);
  }

  lemma {:induction false} ValueUtf8(s: string)
    requires Utf8(s) && ParseValue(s).Parsed?
    ensures AllUtf8(ParseValue(s).value) && Utf8(ParseValue(s).rest)
    decreases |s|, 0
  {
    var t := SkipSpace(s);
    SpaceUtf8(s);
    match t[0]
    case 'n' => DropAscii(t, 4);
    case 't' => DropAscii(t, 4);
    case 'f' => DropAscii(t, 5);
    case '"' =>
      DropAscii(t, 1);
      BodyUtf8(t[1..]);
    case '[' =>
      DropAscii(t, 1);
      ArrayUtf8(t[1..]);
    case '{' =>
      DropAscii(t, 1);
      ObjectUtf8(t[1..]);
    case _ =>
      NumberUtf8(t);
  }

  lemma {:induction false} ArrayUtf8(s: string)
    requires Utf8(s) && ParseArray(s).Parsed?
    ensures AllUtf8(ParseArray(s).value) && Utf8(ParseArray(s).rest)
    decreases |s|, 3
  {
    var t := SkipSpace(s);
    SpaceUtf8(s);
    if t != "" && t[0] == ']' {
      DropAscii(t, 1);
    } else {
      ItemsUtf8(s, []);
    }
  }

  lemma {:induction false} ItemsUtf8(s: string, read: seq<Json>)
    requires Utf8(s) && ParseItems(s, read).Parsed? && forall i :: 0 <= i < |read| ==> AllUtf8(read[i])
    ensures var r := ParseItems(s, read);
            Utf8(r.rest) && forall i :: 0 <= i < |r.value| ==> AllUtf8(r.value[i])
    decreases |s|, 1
  {
    var item := ParseValue(s);
    var t := SkipSpace(item.rest);
    ValueUtf8(s);
    SpaceUtf8(item.rest);
    DropAscii(t, 1);
    if t[0] != ']' {
      ItemsUtf8(t[1..], read + [item.value]);
    }
  }

  lemma {:induction false} ObjectUtf8(s: string)
    requires Utf8(s) && ParseObject(s).Parsed?
    ensures AllUtf8(ParseObject(s).value) && Utf8(ParseObject(s).rest)
    decreases |s|, 3
  {
    var t := SkipSpace(s);
    SpaceUtf8(s);
    if t != "" && t[0] == '}' {
      DropAscii(t, 1);
    } else {
      MembersUtf8(s, map[]);
    }
  }

  lemma {:induction false} MemberUtf8(s: string, seen: map<string, Json>)
    requires Utf8(s) && ParseMember(s, seen).Parsed?
    ensures var r := ParseMember(s, seen); Utf8(r.rest) && Utf8(r.value.0) && AllUtf8(r.value.1)
    decreases |s|, 1
  {
    var t := SkipSpace(s);
    SpaceUtf8(s);
    DropAscii(t, 1);
    BodyUtf8(t[1..]);
    var name := ParseBody(t[1..]);
    SpaceUtf8(name.rest);
    DropAscii(SkipSpace(name.rest), 1);
    ValueUtf8(SkipSpace(name.rest)[1..]);
  }

  lemma {:induction false} MembersUtf8(s: string, seen: map<string, Json>)
    requires Utf8(s) && ParseMembers(s, seen).Parsed? && AllUtf8(Obj(seen))
    ensures Utf8(ParseMembers(s, seen).rest) && AllUtf8(Obj(ParseMembers(s, seen).value))
    decreases |s|, 2
  {
    var member := ParseMember(s, seen);
    var grown := seen[member.value.0 := member.value.1];
    var t := SkipSpace(member.rest);
    MemberUtf8(s, seen);
    SpaceUtf8(member.rest);
    DropAscii(t, 1);
    if t[0] != '}' {
      MembersUtf8(t[1..], grown);
    }
  }

  /** Names and strings of whatever is accepted are valid UTF-8, escapes and lone surrogates included. */
  lemma StrictIsUtf8(s: string)
    requires ParseStrict(s).Some?
    ensures AllUtf8(ParseStrict(s).value)
  {
    ValueUtf8(s);
  }

  // ----- The printer as the code runs it, appending to a buffer

  method IsAscii(value: string) returns (ok: bool)
    ensures ok == Ascii(value)
  {
    for i := 0 to |value|
      invariant forall k :: 0 <= k < i ==> value[k] < 128 as char
    {
      if value[i] >= 128 as char {
        return false;
      }
    }
    return true;
  }

  lemma EscapeStep(before: string, value: string, i: nat)
    requires i < |value|
    ensures before + EscapeAll(value[i..]) == before + Escape(value[i]) + EscapeAll(value[i + 1..])
  {
    var tail := value[i..];
    assert tail[0] == value[i] && tail[1..] == value[i + 1..];
  }

  method AppendAsciiString(out: string, value: string) returns (ok: bool, grown: string)
    ensures ok == Ascii(value)
    ensures ok ==> grown == out + Quote(value)
  {
    ok := IsAscii(value);
    grown := out;
    if !ok {
      return;
    }
    grown := grown + "\"";
    assert value[0..] == value;
    for i := 0 to |value|
      invariant grown + EscapeAll(value[i..]) == out + "\"" + EscapeAll(value)
    {
      EscapeStep(grown, value, i);
      grown := grown + Escape(value[i]);
    }
    assert grown + EscapeAll(value[|value|..]) == grown;
    grown := grown + "\"";
    assert out + "\"" + EscapeAll(value) + "\"" == out + Quote(value);
  }

  method CanonicalInteger(raw: string) returns (r: Option<string>)
    ensures r == if CanonicalNumber(raw) then Some(raw) else None
  {
    if raw == "" || raw == "-0" || exists i :: 0 <= i < |raw| && raw[i] in ".eE+-" {
      return None;
    }
    if raw != "0" && raw[0] == '0' {
      return None;
    }
    for i := 0 to |raw|
      invariant forall k :: 0 <= k < i ==> IsDigit(raw[k])
    {
      if raw[i] < '0' || raw[i] > '9' {
        return None;
      }
    }
    var n := Value(raw);
    if n >= TWO_TO_THE_64 || n > MAX_SAFE_INTEGER {
      return None;
    }
    PlainIsFormat(raw);
    return Some(Format(n));
  }

  lemma SortedStep(names: set<string>, first: string)
    requires IsFirst(first, names)
    ensures Sorted(names) == [first] + Sorted(names - {first})
  {
    BeforeTotal(first, First(names));
  }

  /** The least of the names that are left. */
  method PickFirst(names: set<string>) returns (first: string)
    requires names != {}
    ensures IsFirst(first, names)
  {
    FirstExists(names);
    first :| first in names && forall n :: n in names && n != first ==> Before(first, n);
  }

  lemma SortedMoves(sorted: seq<string>, left: set<string>, first: string)
    requires IsFirst(first, left)
    ensures sorted + [first] + Sorted(left - {first}) == sorted + Sorted(left)
  {
    SortedStep(left, first);
    Associates(sorted, [first], Sorted(left - {first}));
  }

  lemma Associates(a: seq<string>, b: seq<string>, c: seq<string>)
    ensures a + b + c == a + (b + c)
  {
  }

  method SortNames(names: set<string>) returns (sorted: seq<string>)
    ensures sorted == Sorted(names)
  {
    sorted := [];
    var left := names;
    while left != {}
      invariant sorted + Sorted(left) == Sorted(names)
      decreases left
    {
      var first := PickFirst(left);
      SortedMoves(sorted, left, first);
      sorted, left := sorted + [first], left - {first};
    }
  }

  /** What the loop over the items still has to write in front of item `from`. */
  ghost function ItemsLeft(v: Json, from: nat): string
    requires v.Arr? && InProfile(v) && from <= |v.items|
  {
    (if 0 < from < |v.items| then "," else "") + PrintItems(v, from) + "]"
  }

  /** The same for members. */
  ghost function MembersLeft(v: Json, names: seq<string>, from: nat): string
    requires v.Obj? && InProfile(v) && from <= |names| && forall n :: n in names ==> n in v.members
  {
    (if 0 < from < |names| then "," else "") + PrintMembers(v, names, from)
  }

  lemma ItemsLeftStep(v: Json, i: nat, before: string)
    requires v.Arr? && InProfile(v) && i < |v.items|
    ensures before + ItemsLeft(v, i) ==
            before + (if i != 0 then "," else "") + Print(v.items[i]) + ItemsLeft(v, i + 1)
  {
  }

  lemma MembersLeftStep(v: Json, names: seq<string>, i: nat, before: string)
    requires v.Obj? && InProfile(v) && i < |names| && forall n :: n in names ==> n in v.members
    ensures before + MembersLeft(v, names, i) ==
            (if i != 0 then before + "," else before) + Quote(names[i]) + ":" + Print(v.members[names[i]]) +
            MembersLeft(v, names, i + 1)
  {
    var member, left := PrintMember(v, names[i]), MembersLeft(v, names, i + 1);
    assert PrintMembers(v, names, i) == member + left;
    assert before + MembersLeft(v, names, i) == (if i != 0 then before + "," else before) + (member + left);
  }

  /** Appends the canonical text of `v` to the buffer, and succeeds exactly on profile values. */
  method AppendCanonical(out: string, v: Json) returns (ok: bool, grown: string)
    ensures ok == InProfile(v)
    ensures ok ==> grown == out + Print(v)
    decreases v, 0
  {
    grown := out;
    match v
    case Null =>
      return true, out + "null";
    case Bool(b) =>
      return true, out + if b then "true" else "false";
    case Str(text) =>
      ok, grown := AppendAsciiString(out, text);
    case Num(raw) =>
      var canonical := CanonicalInteger(raw);
      if canonical.None? {
        return false, out;
      }
      return true, out + canonical.value;
    case Arr(items) =>
      ok, grown := AppendItems(out, v);
    case Obj(m) =>
      ok, grown := AppendMembers(out, v);
  }

  method AppendItems(out: string, v: Json) returns (ok: bool, grown: string)
    requires v.Arr?
    ensures ok == InProfile(v)
    ensures ok ==> grown == out + Print(v)
    decreases v, 0, 0
  {
    grown := out + "[";
    assert InProfile(v) ==> grown + ItemsLeft(v, 0) == out + Print(v);
    for i := 0 to |v.items|
      invariant forall k :: 0 <= k < i ==> InProfile(v.items[k])
      invariant InProfile(v) ==> grown + ItemsLeft(v, i) == out + Print(v)
    {
      ghost var before := grown;
      if i != 0 {
        grown := grown + ",";
      }
      ok, grown := AppendCanonical(grown, v.items[i]);
      if !ok {
        return;
      }
      if InProfile(v) {
        ItemsLeftStep(v, i, before);
      }
    }
    ok, grown := true, grown + "]";
  }

  /** Writes the separator, the name and the value of member `i`. */
  method AppendMember(out: string, v: Json, names: seq<string>, i: nat) returns (ok: bool, grown: string)
    requires v.Obj? && i < |names| && (forall n :: n in names ==> n in v.members)
    ensures ok == (Ascii(names[i]) && InProfile(v.members[names[i]]))
    ensures ok && InProfile(v) ==> grown + MembersLeft(v, names, i + 1) == out + MembersLeft(v, names, i)
    decreases v, 0, 0
  {
    var name := names[i];
    grown := if i != 0 then out + "," else out;
    ok, grown := AppendAsciiString(grown, name);
    if ok {
      ok, grown := AppendCanonical(grown + ":", v.members[name]);
      if ok && InProfile(v) {
        MembersLeftStep(v, names, i, out);
      }
    }
  }

  method AppendMembers(out: string, v: Json) returns (ok: bool, grown: string)
    requires v.Obj?
    ensures ok == InProfile(v)
    ensures ok ==> grown == out + Print(v)
    decreases v, 0, 2
  {
    if exists name :: name in v.members && !Ascii(name) {
      return false, out;
    }
    var names := SortNames(v.members.Keys);
    ok, grown := AppendSorted(out + "{", v, names);
    if ok {
      grown := grown + "}";
    }
  }

  method AppendSorted(out: string, v: Json, names: seq<string>) returns (ok: bool, grown: string)
    requires v.Obj? && (forall n :: n in names <==> n in v.members) && forall n :: n in names ==> Ascii(n)
    ensures ok == InProfile(v)
    ensures ok ==> grown == out + PrintMembers(v, names, 0)
    decreases v, 0, 1
  {
    grown := out;
    for i := 0 to |names|
      invariant forall k {:trigger names[k]} :: 0 <= k < i ==> InProfile(v.members[names[k]])
      invariant Written(v, names, i, out, grown)
    {
      ok, grown := AppendMember(grown, v, names, i);
      if !ok {
        return;
      }
    }
    ok := true;
    AllWritten(v, names, out, grown);
  }

  /** What has been written and what is left make up the text of all members. */
  ghost predicate Written(v: Json, names: seq<string>, i: nat, out: string, grown: string)
    requires v.Obj? && i <= |names| && forall n :: n in names ==> n in v.members
  {
    InProfile(v) ==> grown + MembersLeft(v, names, i) == out + MembersLeft(v, names, 0)
  }

  lemma AllWritten(v: Json, names: seq<string>, out: string, grown: string)
    requires v.Obj? && (forall n :: n in names <==> n in v.members) && forall n :: n in names ==> Ascii(n)
    requires forall k {:trigger names[k]} :: 0 <= k < |names| ==> InProfile(v.members[names[k]])
    requires Written(v, names, |names|, out, grown)
    ensures InProfile(v) && grown == out + PrintMembers(v, names, 0)
  {
    AllMembersInProfile(v, names);
    MembersLeftEnds(v, names);
    assert grown + "" == grown;
  }

  lemma MembersLeftEnds(v: Json, names: seq<string>)
    requires v.Obj? && InProfile(v) && forall n :: n in names ==> n in v.members
    ensures MembersLeft(v, names, |names|) == "" && MembersLeft(v, names, 0) == PrintMembers(v, names, 0)
  {
    assert "" + PrintMembers(v, names, 0) == PrintMembers(v, names, 0);
    assert PrintMembers(v, names, |names|) == "";
  }

  lemma AllMembersInProfile(v: Json, names: seq<string>)
    requires v.Obj? && (forall n :: n in names <==> n in v.members) && forall n :: n in names ==> Ascii(n)
    requires forall k {:trigger names[k]} :: 0 <= k < |names| ==> InProfile(v.members[names[k]])
    ensures InProfile(v)
  {
    forall name | name in v.members
      ensures InProfile(v.members[name])
    {
      assert name in names;
    }
  }

  method Canonicalize(v: Json) returns (r: Option<string>)
    ensures r.Some? <==> InProfile(v)
    ensures r.Some? ==> r.value == Print(v) && ParseStrict(r.value) == Some(v)
  {
    var ok, out := AppendCanonical("", v);
    if !ok {
      return None;
    }
    assert "" + Print(v) == Print(v);
    ParseUndoesPrint(v);
    return Some(out);
  }

  // ----- The parser as the code runs it, filling arrays and objects in loops

  method ReadValue(s: string) returns (r: Parsed<Json>)
    ensures r == ParseValue(s)
    decreases |s|, 0
  {
    var t := SkipSpace(s);
    if t == "" {
      return Rejected;
    }
    if t[0] == '[' {
      r := ReadArray(t[1..]);
    } else if t[0] == '{' {
      r := ReadObject(t[1..]);
    } else {
      r := ParseValue(s);
    }
  }

  /** One value of valid UTF-8 and nothing behind it; every string it holds is valid UTF-8 too. */
  method ParseStrictJSON(s: string) returns (r: Option<Json>)
    ensures r == ParseStrict(s)
    ensures r.Some? ==> AllUtf8(r.value)
  {
    if !Utf8(s) {
      return None;
    }
    var v := ReadValue(s);
    if v.Rejected? || SkipSpace(v.rest) != "" {
      return None;
    }
    StrictIsUtf8(s);
    return Some(v.value);
  }

  method ReadArray(s: string) returns (r: Parsed<Json>)
    ensures r == ParseArray(s)
    decreases |s|, 1
  {
    var t := SkipSpace(s);
    if t != "" && t[0] == ']' {
      return Parsed(Arr([]), t[1..]);
    }
    var items, left := [], s;
    while true
      invariant |left| <= |s|
      invariant ParseItems(s, []) == ParseItems(left, items)
      decreases |left|
    {
      var item := ReadValue(left);
      if item.Rejected? {
        return Rejected;
      }
      t := SkipSpace(item.rest);
      if t == "" || (t[0] != ']' && t[0] != ',') {
        return Rejected;
      }
      if t[0] == ']' {
        return Parsed(Arr(items + [item.value]), t[1..]);
      }
      items, left := items + [item.value], t[1..];
    }
  }

  method ReadObject(s: string) returns (r: Parsed<Json>)
    ensures r == ParseObject(s)
    decreases |s|, 1
  {
    var t := SkipSpace(s);
    if t != "" && t[0] == '}' {
      return Parsed(Obj(map[]), t[1..]);
    }
    var seen: map<string, Json>, left := map[], s;
    while true
      invariant |left| <= |s|
      invariant ParseMembers(s, map[]) == ParseMembers(left, seen)
      decreases |left|
    {
      t := SkipSpace(left);
      if t == "" || t[0] != '"' {
        return Rejected;
      }
      var name := ParseBody(t[1..]);
      if name.Rejected? || name.value in seen {
        return Rejected;
      }
      t := SkipSpace(name.rest);
      if t == "" || t[0] != ':' {
        return Rejected;
      }
      var child := ReadValue(t[1..]);
      if child.Rejected? {
        return Rejected;
      }
      seen := seen[name.value := child.value];
      t := SkipSpace(child.rest);
      if t == "" || (t[0] != '}' && t[0] != ',') {
        return Rejected;
      }
      if t[0] == '}' {
        return Parsed(Obj(seen), t[1..]);
      }
      left := t[1..];
    }
  }
}
