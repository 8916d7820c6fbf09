/**
  The lexer that takes the topic secrets out of a configuration buffer before any general parser sees it: every value of
  the secret field is decoded and overwritten in place, and any other string that decodes to a secret is refused.
*/
module Redaction {
  import opened Common

  const QUOTE: byte := 34
  const BACKSLASH: byte := 92
  const COLON: byte := 58
  const LETTER_A: byte := 65

  /** The unpadded base64url length of 32 bytes. */
  const SECRET_LENGTH := 43

  predicate IsSpace(b: byte) {
    b == 32 || b == 9 || b == 13 || b == 10
  }

  /** A string literal, by the positions of its quotes. */
  datatype Span = Span(start: nat, end: nat)

  function Text(s: seq<byte>, span: Span): seq<byte>
    requires span.start < span.end <= |s|
  {
    s[span.start + 1..span.end]
  }

  /**
    The name of the secret field, and the decoding of a candidate secret to 32 bytes, of 43 characters without padding
    or 44 with it.
  */
  datatype Rules = Rules(field: seq<byte>, decode: seq<byte> -> Option<seq<byte>>)

  // ----- The two scanners

  datatype End = Unterminated | End(at: nat, escaped: bool)

  function StringEnd(s: seq<byte>, i: nat): (e: End)
    ensures e.End? ==> i <= e.at < |s| && s[e.at] == QUOTE
    decreases |s| - i
  {
    if i >= |s| then Unterminated
    else if s[i] == QUOTE then End(i, false)
    else if s[i] != BACKSLASH then StringEnd(s, i + 1)
    else if i + 1 >= |s| then Unterminated
    else match StringEnd(s, i + 2)
      case Unterminated => Unterminated
      case End(at, _) => End(at, true)
  }

  function SkipSpace(s: seq<byte>, i: nat): (n: nat)
    ensures n >= i && (n == i || n <= |s|)
    decreases |s| - i
  {
    if i < |s| && IsSpace(s[i]) then SkipSpace(s, i + 1) else i
  }

  lemma {:induction false} SkipsSpaces(s: seq<byte>, i: nat)
    ensures forall p :: i <= p < SkipSpace(s, i) && p < |s| ==> s[p] != QUOTE
    decreases |s| - i
  {
    if i < |s| && IsSpace(s[i]) {
      SkipsSpaces(s, i + 1);
    }
  }

  /** An unescaped end is the first quote, with no backslash before it. */
  lemma {:induction false} PlainEnd(s: seq<byte>, i: nat, at: nat)
    ensures StringEnd(s, i) == End(at, false) <==>
              i <= at < |s| && s[at] == QUOTE && forall p :: i <= p < at ==> s[p] != QUOTE && s[p] != BACKSLASH
    decreases |s| - i
  {
    if i < |s| && s[i] != QUOTE && s[i] != BACKSLASH {
      PlainEnd(s, i + 1, at);
    }
  }

  // ----- The pass over the buffer

  /** The values of the secret field from some position on, or a refusal. */
  datatype Pass = Refused | Done(secrets: seq<Span>)

  function Prepend(span: Span, rest: Pass): Pass {
    match rest
    case Refused => Refused
    case Done(secrets) => Done([span] + secrets)
  }

  function Scan(s: seq<byte>, i: nat, rules: Rules): Pass
    decreases |s| - i
  {
    if i >= |s| then Done([])
    else if s[i] != QUOTE then Scan(s, i + 1, rules)
    else match StringEnd(s, i + 1)
      case End(end, false) =>
        var text := s[i + 1..end];
        if rules.decode(text).Some? then Refused else AfterString(s, end, text == rules.field, rules)
      case _ => Refused
  }

  /** What follows a string: no colon, a colon and a string value, or a colon and another value. */
  datatype Follow = Alone | Named(value: nat) | NamedOther

  function Following(s: seq<byte>, end: nat): (f: Follow)
    ensures f.Named? ==> end < f.value < |s| && s[f.value] == QUOTE
  {
    var next := SkipSpace(s, end + 1);
    if next >= |s| || s[next] != COLON then Alone
    else
      var value := SkipSpace(s, next + 1);
      if value < |s| && s[value] == QUOTE then Named(value) else NamedOther
  }

  function AfterString(s: seq<byte>, end: nat, secret: bool, rules: Rules): Pass
    requires end < |s|
    decreases |s| - end, 1
  {
    match Following(s, end)
    case Alone => Scan(s, end + 1, rules)
    case Named(value) => OnValue(s, secret, value, rules)
    case NamedOther => if secret then Refused else Scan(s, end + 1, rules)
  }

  /** A named string value, of the secret field or of another. */
  function OnValue(s: seq<byte>, secret: bool, value: nat, rules: Rules): Pass
    requires value < |s|
    decreases |s| - value
  {
    match StringEnd(s, value + 1)
    case End(at, false) =>
      var decoded := rules.decode(s[value + 1..at]).Some?;
      if secret && decoded && at - value - 1 == SECRET_LENGTH then Prepend(Span(value, at), Scan(s, at + 1, rules))
      else if secret || decoded then Refused
      else Scan(s, at + 1, rules)
    case _ => Refused
  }

  predicate Inside(s: seq<byte>, i: nat, span: Span) {
    i <= span.start && span.end < |s| && span.end == span.start + 1 + SECRET_LENGTH && s[span.start] == QUOTE
  }

  predicate AllInside(s: seq<byte>, i: nat, pass: Pass) {
    pass.Done? ==> forall k :: 0 <= k < |pass.secrets| ==> Inside(s, i, pass.secrets[k])
  }

  lemma {:induction false} SecretsLieAhead(s: seq<byte>, i: nat, rules: Rules)
    ensures AllInside(s, i, Scan(s, i, rules))
    decreases |s| - i, 1
  {
    if i < |s| {
      if s[i] != QUOTE {
        SecretsLieAhead(s, i + 1, rules);
      } else {
        match StringEnd(s, i + 1)
        case End(end, false) => SecretsLieAfterString(s, end, s[i + 1..end] == rules.field, rules);
        case _ =>
      }
    }
  }

  lemma {:induction false} SecretsLieAfterString(s: seq<byte>, end: nat, secret: bool, rules: Rules)
    requires end < |s|
    ensures AllInside(s, end + 1, AfterString(s, end, secret, rules))
    decreases |s| - end, 0
  {
    match Following(s, end)
    case Named(value) => SecretsLieOnValue(s, secret, value, rules);
    case _ => SecretsLieAhead(s, end + 1, rules);
  }

  lemma {:induction false} SecretsLieOnValue(s: seq<byte>, secret: bool, value: nat, rules: Rules)
    requires value < |s| && s[value] == QUOTE
    ensures AllInside(s, value, OnValue(s, secret, value, rules))
    decreases |s| - value, 0
  {
    match StringEnd(s, value + 1)
    case End(at, false) => SecretsLieAhead(s, at + 1, rules);
    case _ =>
  }

  // ----- Redaction in place

  predicate InSecret(secrets: seq<Span>, p: int) {
    exists k :: 0 <= k < |secrets| && secrets[k].start < p < secrets[k].end
  }

  /** The buffer with every secret value overwritten. */
  function Redacted(s: seq<byte>, secrets: seq<Span>): (t: seq<byte>)
    ensures |t| == |s|
  {
    seq(|s|, p requires 0 <= p < |s| => if InSecret(secrets, p) then LETTER_A else s[p])
  }

  method JsonStringEnd(raw: array<byte>, start: nat, ghost was: seq<byte>) returns (e: End)
    requires start < raw.Length == |was| && forall p :: start <= p < |was| ==> raw[p] == was[p]
    ensures e == if was[start] == QUOTE then StringEnd(was, start + 1) else Unterminated
  {
    if raw[start] != QUOTE {
      return Unterminated;
    }
    var escaped := false;
    var index := start + 1;
    while index < raw.Length
      invariant start < index <= |was|
      invariant match StringEnd(was, index)
                case Unterminated => StringEnd(was, start + 1).Unterminated?
                case End(at, more) => StringEnd(was, start + 1) == End(at, escaped || more)
    {
      if raw[index] == BACKSLASH {
        escaped := true;
        index := index + 1;
        if index >= raw.Length {
          return Unterminated;
        }
      } else if raw[index] == QUOTE {
        return End(index, escaped);
      }
      index := index + 1;
    }
    return Unterminated;
  }

  method SkipJsonSpace(raw: array<byte>, start: nat, ghost was: seq<byte>) returns (n: nat)
    requires raw.Length == |was| && forall p :: start <= p < |was| ==> raw[p] == was[p]
    ensures n == SkipSpace(was, start)
  {
    n := start;
    while n < raw.Length && IsSpace(raw[n])
      invariant n >= start && SkipSpace(was, n) == SkipSpace(was, start)
    {
      n := n + 1;
    }
  }

  /** One string, with its value when it names one: refused, passed over, or a secret to take. */
  datatype Step = Stop | PassOver(next: nat) | Take(span: Span, key: seq<byte>)

  ghost predicate Steps(s: seq<byte>, i: nat, pass: Pass, rules: Rules, step: Step) {
    match step
    case Stop => pass.Refused?
    case PassOver(next) => i < next <= |s| && pass == Scan(s, next, rules)
    case Take(span, key) =>
      && i <= span.start < span.end < |s| && rules.decode(Text(s, span)) == Some(key)
      && pass == Prepend(span, Scan(s, span.end + 1, rules))
  }

  method ReadString(raw: array<byte>, index: nat, rules: Rules, ghost was: seq<byte>) returns (step: Step)
    requires index < raw.Length == |was| && was[index] == QUOTE && forall p :: index <= p < |was| ==> raw[p] == was[p]
    ensures Steps(was, index, Scan(was, index, rules), rules, step)
  {
    var e := JsonStringEnd(raw, index, was);
    if e.Unterminated? || e.escaped {
      return Stop;
    }
    var end := e.at;
    var token := raw[index + 1..end];
    assert token == was[index + 1..end];
    if rules.decode(token).Some? {
      return Stop;
    }
    step := ReadNext(raw, index, end, token == rules.field, rules, was);
  }

  method ReadNext(raw: array<byte>, start: nat, end: nat, secret: bool, rules: Rules, ghost was: seq<byte>)
    returns (step: Step)
    requires start < end < raw.Length == |was| && forall p :: start <= p < |was| ==> raw[p] == was[p]
    ensures Steps(was, start, AfterString(was, end, secret, rules), rules, step)
  {
    var next := SkipJsonSpace(raw, end + 1, was);
    if next >= raw.Length || raw[next] != COLON {
      return PassOver(end + 1);
    }
    var value := SkipJsonSpace(raw, next + 1, was);
    if value >= raw.Length || raw[value] != QUOTE {
      return if secret then Stop else PassOver(end + 1);
    }
    step := ReadValue(raw, secret, value, rules, was);
  }

  method ReadValue(raw: array<byte>, secret: bool, value: nat, rules: Rules, ghost was: seq<byte>) returns (step: Step)
    requires value < raw.Length == |was| && was[value] == QUOTE && forall p :: value <= p < |was| ==> raw[p] == was[p]
    ensures Steps(was, value, OnValue(was, secret, value, rules), rules, step)
  {
    var e := JsonStringEnd(raw, value, was);
    if e.Unterminated? || e.escaped {
      return Stop;
    }
    var text := raw[value + 1..e.at];
    assert text == was[value + 1..e.at];
    var key := rules.decode(text);
    if secret && key.Some? && |text| == SECRET_LENGTH {
      return Take(Span(value, e.at), key.value);
    } else if secret || key.Some? {
      return Stop;
    }
    return PassOver(e.at + 1);
  }

  function Joined(found: seq<Span>, pass: Pass): Pass {
    match pass
    case Refused => Refused
    case Done(secrets) => Done(found + secrets)
  }

  ghost predicate Taken(s: seq<byte>, found: seq<Span>, keys: seq<seq<byte>>, rules: Rules) {
    && |keys| == |found|
    && forall k :: 0 <= k < |found| ==>
         found[k].start < found[k].end < |s| && rules.decode(Text(s, found[k])) == Some(keys[k])
  }

  predicate Succeeds(pass: Pass) {
    pass.Done? && 1 <= |pass.secrets| <= 2
  }

  ghost predicate Overwritten(raw: array<byte>, s: seq<byte>, found: seq<Span>)
    reads raw
  {
    raw.Length == |s| && forall p :: 0 <= p < |s| ==> raw[p] == if InSecret(found, p) then LETTER_A else s[p]
  }

  method Overwrite(raw: array<byte>, span: Span, ghost was: seq<byte>, ghost found: seq<Span>)
    requires Overwritten(raw, was, found) && span.end <= raw.Length
    modifies raw
    ensures Overwritten(raw, was, found + [span])
  {
    forall p | span.start < p < span.end {
      raw[p] := LETTER_A;
    }
    OneMoreSecret(found, span);
  }

  /**
    Succeeds exactly when the pass is not refused and finds one or two values of the secret field. It then returns their
    decodings in order, and has overwritten those values and nothing else. A refusal returns no key and may leave the
    first values of the secret field overwritten.
  */
  method ExtractAndRedact(raw: array<byte>, rules: Rules)
    returns (keys: seq<seq<byte>>, ok: bool, ghost found: seq<Span>)
    modifies raw
    ensures raw[..] == Redacted(old(raw[..]), found)
    ensures ok <==> Succeeds(Scan(old(raw[..]), 0, rules))
    ensures ok ==> Scan(old(raw[..]), 0, rules) == Done(found) && Taken(old(raw[..]), found, keys, rules)
    ensures !ok ==> keys == []
  {
    ghost var was := raw[..];
    keys, found, ok := [], [], false;
    var index := 0;
    while index < raw.Length
      invariant index <= raw.Length && |found| <= 2
      invariant Midway(was, index, rules, found, keys) && Overwritten(raw, was, found)
    {
      Untouched(raw, was, index, rules, found, keys);
      if raw[index] != QUOTE {
        index := index + 1;
        continue;
      }
      var step := ReadString(raw, index, rules, was);
      match step
      case Stop =>
        OverwrittenIsRedacted(raw, was, found);
        keys := [];
        return;
      case PassOver(next) =>
        index := next;
      case Take(span, key) =>
        TakeKeepsMidway(was, index, rules, found, keys, span, key);
        Overwrite(raw, span, was, found);
        keys, found := keys + [key], found + [span];
        index := span.end + 1;
        if |keys| > 2 {
          OverwrittenIsRedacted(raw, was, found);
          keys := [];
          return;
        }
    }
    OverwrittenIsRedacted(raw, was, found);
    ok := keys != [];
  }

  /** The pass has reached a position, with these secrets found before it. */
  ghost predicate Midway(s: seq<byte>, i: nat, rules: Rules, found: seq<Span>, keys: seq<seq<byte>>) {
    && Scan(s, 0, rules) == Joined(found, Scan(s, i, rules))
    && Taken(s, found, keys, rules)
    && forall k :: 0 <= k < |found| ==> found[k].end < i
  }

  lemma Untouched(raw: array<byte>, s: seq<byte>, i: nat, rules: Rules, found: seq<Span>, keys: seq<seq<byte>>)
    requires Overwritten(raw, s, found) && Midway(s, i, rules, found, keys)
    ensures forall p :: i <= p < |s| ==> raw[p] == s[p]
  {
  }

  lemma TakeKeepsMidway(s: seq<byte>, i: nat, rules: Rules, found: seq<Span>, keys: seq<seq<byte>>, span: Span,
                        key: seq<byte>)
    requires Midway(s, i, rules, found, keys) && Steps(s, i, Scan(s, i, rules), rules, Take(span, key))
    ensures Midway(s, span.end + 1, rules, found + [span], keys + [key])
  {
    var rest := Scan(s, span.end + 1, rules);
    if rest.Done? {
      assert found + ([span] + rest.secrets) == found + [span] + rest.secrets;
    }
  }

  lemma OverwrittenIsRedacted(raw: array<byte>, s: seq<byte>, found: seq<Span>)
    requires Overwritten(raw, s, found)
    ensures raw[..] == Redacted(s, found)
  {
  }

  lemma OneMoreSecret(found: seq<Span>, span: Span)
    ensures forall p :: InSecret(found + [span], p) <==> InSecret(found, p) || span.start < p < span.end
  {
    var all := found + [span];
    forall p
      ensures InSecret(all, p) <==> InSecret(found, p) || span.start < p < span.end
    {
      if InSecret(found, p) {
        var k :| 0 <= k < |found| && found[k].start < p < found[k].end;
        assert all[k] == found[k];
      }
      assert all[|found|] == span;
    }
  }

  // ----- Every string of the buffer

  function NextQuote(s: seq<byte>, i: nat): (e: Option<nat>)
    ensures e.Some? ==> i <= e.value < |s| && s[e.value] == QUOTE
    ensures forall p :: i <= p < (if e.Some? then e.value else |s|) ==> s[p] != QUOTE
    decreases |s| - i
  {
    if i >= |s| then None else if s[i] == QUOTE then Some(i) else NextQuote(s, i + 1)
  }

  /** The string literals of the text, by pairing its quotes. */
  function Strings(s: seq<byte>, i: nat): seq<Span>
    decreases |s| - i
  {
    if i >= |s| then []
    else if s[i] != QUOTE then Strings(s, i + 1)
    else match NextQuote(s, i + 1)
      case None => []
      case Some(end) => [Span(i, end)] + Strings(s, end + 1)
  }

  lemma {:induction false} StringsSkip(s: seq<byte>, a: nat, b: nat)
    requires a <= b <= |s| && forall p :: a <= p < b ==> s[p] != QUOTE
    ensures Strings(s, a) == Strings(s, b)
    decreases b - a
  {
    if a < b {
      StringsSkip(s, a + 1, b);
    }
  }

  predicate Plain(s: seq<byte>, span: Span) {
    span.start < span.end < |s| && forall p :: span.start < p < span.end ==> s[p] != QUOTE && s[p] != BACKSLASH
  }

  /** The spans hold no escape, and those that decode to a secret are exactly the secrets. */
  ghost predicate Sees(s: seq<byte>, spans: seq<Span>, secrets: seq<Span>, rules: Rules) {
    && (forall x :: x in spans ==> Plain(s, x) && (rules.decode(Text(s, x)).Some? <==> x in secrets))
    && (forall x :: x in secrets ==> x in spans)
  }

  lemma SeesJoin(s: seq<byte>, a: seq<Span>, p: seq<Span>, b: seq<Span>, q: seq<Span>, rules: Rules)
    requires Sees(s, a, p, rules) && Sees(s, b, q, rules)
    ensures Sees(s, a + b, p + q, rules)
  {
  }

  lemma StringAt(s: seq<byte>, i: nat, end: nat, rules: Rules)
    requires i < |s| && s[i] == QUOTE && StringEnd(s, i + 1) == End(end, false)
    ensures Plain(s, Span(i, end)) && Strings(s, i) == [Span(i, end)] + Strings(s, end + 1)
    ensures Sees(s, [Span(i, end)], if rules.decode(Text(s, Span(i, end))).Some? then [Span(i, end)] else [], rules)
  {
    PlainEnd(s, i + 1, end);
  }

  lemma ColonSkip(s: seq<byte>, end: nat)
    requires end < |s| && Following(s, end).Named?
    ensures Strings(s, end + 1) == Strings(s, Following(s, end).value)
  {
    var next := SkipSpace(s, end + 1);
    SkipsSpaces(s, end + 1);
    StringsSkip(s, end + 1, next);
    StringsSkip(s, next, next + 1);
    SkipsSpaces(s, next + 1);
    StringsSkip(s, next + 1, SkipSpace(s, next + 1));
  }

  ghost predicate SeesAll(s: seq<byte>, spans: seq<Span>, pass: Pass, rules: Rules) {
    pass.Done? ==> Sees(s, spans, pass.secrets, rules)
  }

  /** A pass that is not refused accounts for every string of the text. */
  lemma {:induction false} ScanSeesAll(s: seq<byte>, i: nat, rules: Rules)
    ensures SeesAll(s, Strings(s, i), Scan(s, i, rules), rules)
    decreases |s| - i, 1
  {
    if i < |s| {
      if s[i] != QUOTE {
        ScanSeesAll(s, i + 1, rules);
      } else {
        match StringEnd(s, i + 1)
        case End(end, false) =>
          if rules.decode(s[i + 1..end]).None? {
            AfterStringSeesAll(s, end, s[i + 1..end] == rules.field, rules);
            if Scan(s, i, rules).Done? {
              StringThenRest(s, i, end, Scan(s, i, rules).secrets, rules);
            }
          }
        case _ =>
      }
    }
  }

  lemma {:induction false} AfterStringSeesAll(s: seq<byte>, end: nat, secret: bool, rules: Rules)
    requires end < |s|
    ensures SeesAll(s, Strings(s, end + 1), AfterString(s, end, secret, rules), rules)
    decreases |s| - end, 0
  {
    match Following(s, end)
    case Named(value) =>
      ColonSkip(s, end);
      ValueSeesAll(s, secret, value, rules);
    case _ => ScanSeesAll(s, end + 1, rules);
  }

  lemma {:induction false} ValueSeesAll(s: seq<byte>, secret: bool, value: nat, rules: Rules)
    requires value < |s| && s[value] == QUOTE
    ensures SeesAll(s, Strings(s, value), OnValue(s, secret, value, rules), rules)
    decreases |s| - value, 0
  {
    match StringEnd(s, value + 1)
    case End(at, false) =>
      ScanSeesAll(s, at + 1, rules);
      if Scan(s, at + 1, rules).Done? {
        StringThenRest(s, value, at, Scan(s, at + 1, rules).secrets, rules);
      }
    case _ =>
  }

  /** One more string in front of those already seen. */
  lemma StringThenRest(s: seq<byte>, i: nat, end: nat, rest: seq<Span>, rules: Rules)
    requires i < |s| && s[i] == QUOTE && StringEnd(s, i + 1) == End(end, false)
    requires Sees(s, Strings(s, end + 1), rest, rules)
    ensures var span := Span(i, end);
            Sees(s, Strings(s, i), if rules.decode(Text(s, span)).Some? then [span] + rest else rest, rules)
  {
    var span := Span(i, end);
    StringAt(s, i, end, rules);
    var own := if rules.decode(Text(s, span)).Some? then [span] else [];
    SeesJoin(s, [span], own, Strings(s, end + 1), rest, rules);
    assert [] + rest == rest;
  }

  /** A value of the secret field starts here: after a string with the field's name and a colon. */
  ghost predicate FieldValueAt(s: seq<byte>, value: nat, rules: Rules) {
    exists name: Span {:trigger Names(s, name, value, rules)} :: Names(s, name, value, rules)
  }

  ghost predicate Names(s: seq<byte>, name: Span, value: nat, rules: Rules) {
    Plain(s, name) && s[name.start] == QUOTE && Text(s, name) == rules.field && Following(s, name.end) == Named(value)
  }

  ghost predicate AllFieldValues(s: seq<byte>, pass: Pass, rules: Rules) {
    pass.Done? ==> forall x :: x in pass.secrets ==> FieldValueAt(s, x.start, rules)
  }

  lemma {:induction false} SecretsAreFieldValues(s: seq<byte>, i: nat, rules: Rules)
    ensures AllFieldValues(s, Scan(s, i, rules), rules)
    decreases |s| - i, 1
  {
    if i < |s| {
      if s[i] != QUOTE {
        SecretsAreFieldValues(s, i + 1, rules);
      } else {
        match StringEnd(s, i + 1)
        case End(end, false) =>
          PlainEnd(s, i + 1, end);
          FieldValuesAfterString(s, i, end, rules, s[i + 1..end] == rules.field);
        case _ =>
      }
    }
  }

  lemma {:induction false} FieldValuesAfterString(s: seq<byte>, start: nat, end: nat, rules: Rules, secret: bool)
    requires Plain(s, Span(start, end)) && s[start] == QUOTE && secret == (Text(s, Span(start, end)) == rules.field)
    ensures AllFieldValues(s, AfterString(s, end, secret, rules), rules)
    decreases |s| - end, 0
  {
    match Following(s, end)
    case Named(value) =>
      if secret {
        assert Names(s, Span(start, end), value, rules);
      }
      FieldValuesOnValue(s, secret, value, rules);
    case _ => SecretsAreFieldValues(s, end + 1, rules);
  }

  lemma {:induction false} FieldValuesOnValue(s: seq<byte>, secret: bool, value: nat, rules: Rules)
    requires value < |s| && s[value] == QUOTE && (secret ==> FieldValueAt(s, value, rules))
    ensures AllFieldValues(s, OnValue(s, secret, value, rules), rules)
    decreases |s| - value, 0
  {
    match StringEnd(s, value + 1)
    case End(at, false) => SecretsAreFieldValues(s, at + 1, rules);
    case _ =>
  }

  // ----- The redacted buffer

  function RedactedText(): seq<byte> {
    seq(SECRET_LENGTH, _ => LETTER_A)
  }

  /** From a position on, the second text is the first with the secrets overwritten. */
  ghost predicate Matches(s: seq<byte>, t: seq<byte>, i: nat, secrets: seq<Span>) {
    && |t| == |s|
    && (forall p :: i <= p < |s| ==> t[p] == if InSecret(secrets, p) then LETTER_A else s[p])
    && (forall k :: 0 <= k < |secrets| ==> Inside(s, i, secrets[k]))
  }

  /** Up to the next quote nothing differs. */
  lemma SameToQuote(s: seq<byte>, t: seq<byte>, i: nat, b: nat, secrets: seq<Span>)
    requires Matches(s, t, i, secrets) && i <= b && forall p :: i <= p < b && p < |s| ==> s[p] != QUOTE
    ensures forall p :: i <= p <= b && p < |s| ==> t[p] == s[p]
  {
  }

  lemma {:induction false} SameSkip(s: seq<byte>, t: seq<byte>, a: nat)
    requires |t| == |s| && forall p :: a <= p <= SkipSpace(s, a) && p < |s| ==> t[p] == s[p]
    ensures SkipSpace(t, a) == SkipSpace(s, a)
    decreases |s| - a
  {
    if a < |s| && IsSpace(s[a]) {
      SameSkip(s, t, a + 1);
    }
  }

  lemma SameString(s: seq<byte>, t: seq<byte>, i: nat, end: nat)
    requires i < |s| == |t| && StringEnd(s, i + 1) == End(end, false)
    requires forall p :: i <= p <= end ==> t[p] == s[p]
    ensures StringEnd(t, i + 1) == End(end, false) && t[i + 1..end] == s[i + 1..end]
  {
    PlainEnd(s, i + 1, end);
    forall p | i + 1 <= p < end
      ensures t[p] != QUOTE && t[p] != BACKSLASH
    {
      assert t[p] == s[p];
    }
    PlainEnd(t, i + 1, end);
  }

  lemma FirstSecret(span: Span, rest: seq<Span>, p: int)
    ensures InSecret([span] + rest, p) <==> InSecret(rest, p) || span.start < p < span.end
  {
    var all := [span] + rest;
    assert all[0] == span;
    if InSecret(rest, p) {
      var k :| 0 <= k < |rest| && rest[k].start < p < rest[k].end;
      assert all[k + 1] == rest[k];
    }
    if InSecret(all, p) {
      var k :| 0 <= k < |all| && all[k].start < p < all[k].end;
      assert k > 0 ==> all[k] == rest[k - 1];
    }
  }

  /** A secret value reads back as the fixed text. */
  lemma RedactedString(s: seq<byte>, t: seq<byte>, i: nat, span: Span, rest: seq<Span>)
    requires Matches(s, t, i, [span] + rest) && span.start < span.end < |s| && s[span.end] == QUOTE
    requires forall k :: 0 <= k < |rest| ==> Inside(s, span.end + 1, rest[k])
    ensures StringEnd(t, span.start + 1) == End(span.end, false)
    ensures Matches(s, t, span.end + 1, rest) && forall p :: span.start < p < span.end ==> t[p] == LETTER_A
  {
    assert ([span] + rest)[0] == span;
    forall p | i <= p < |s|
      ensures t[p] == if InSecret(rest, p) || span.start < p < span.end then LETTER_A else s[p]
    {
      FirstSecret(span, rest, p);
    }
    PlainEnd(t, span.start + 1, span.end);
  }

  /** A pass over the redacted buffer finds the same values, so redaction leaves the structure of the text alone. */
  lemma {:induction false} RescanFindsSame(s: seq<byte>, t: seq<byte>, i: nat, rules: Rules)
    requires Scan(s, i, rules).Done? && Matches(s, t, i, Scan(s, i, rules).secrets)
    requires rules.decode(RedactedText()).Some?
    ensures Scan(t, i, rules) == Scan(s, i, rules)
    decreases |s| - i, 1
  {
    if i < |s| {
      var secrets := Scan(s, i, rules).secrets;
      SameToQuote(s, t, i, i, secrets);
      if s[i] != QUOTE {
        SecretsLieAhead(s, i + 1, rules);
        RescanFindsSame(s, t, i + 1, rules);
      } else {
        match StringEnd(s, i + 1)
        case End(end, false) =>
          SecretsLieAfterString(s, end, s[i + 1..end] == rules.field, rules);
          Ahead(s, t, i, end + 1, secrets);
          SameString(s, t, i, end);
          RescanAfterString(s, t, end, s[i + 1..end] == rules.field, rules);
      }
    }
  }

  lemma Ahead(s: seq<byte>, t: seq<byte>, i: nat, j: nat, secrets: seq<Span>)
    requires i <= j <= |s| && Matches(s, t, i, secrets) && AllInside(s, j, Done(secrets))
    ensures Matches(s, t, j, secrets) && forall p :: i <= p < j ==> t[p] == s[p]
  {
  }

  /** What follows a string, up to the next quote, reads the same. */
  lemma SkipMatches(s: seq<byte>, t: seq<byte>, i: nat, a: nat, secrets: seq<Span>)
    requires Matches(s, t, i, secrets) && i <= a && forall p :: i <= p < a && p < |s| ==> s[p] != QUOTE
    ensures var n := SkipSpace(s, a);
            n == SkipSpace(t, a) && (n < |s| ==> t[n] == s[n]) && forall p :: i <= p < n && p < |s| ==> s[p] != QUOTE
  {
    var n := SkipSpace(s, a);
    SkipsSpaces(s, a);
    SameToQuote(s, t, i, n, secrets);
    SameSkip(s, t, a);
  }

  lemma SameFollowing(s: seq<byte>, t: seq<byte>, end: nat, secrets: seq<Span>)
    requires Matches(s, t, end + 1, secrets)
    ensures Following(t, end) == Following(s, end)
  {
    SkipMatches(s, t, end + 1, end + 1, secrets);
    var next := SkipSpace(s, end + 1);
    if next < |s| && s[next] == COLON {
      SkipMatches(s, t, end + 1, next + 1, secrets);
    }
  }

  lemma {:induction false} RescanAfterString(s: seq<byte>, t: seq<byte>, end: nat, secret: bool, rules: Rules)
    requires end < |s| && AfterString(s, end, secret, rules).Done?
    requires Matches(s, t, end + 1, AfterString(s, end, secret, rules).secrets)
    requires rules.decode(RedactedText()).Some?
    ensures AfterString(t, end, secret, rules) == AfterString(s, end, secret, rules)
    decreases |s| - end, 0
  {
    SameFollowing(s, t, end, AfterString(s, end, secret, rules).secrets);
    match Following(s, end)
    case Named(value) => RescanNamed(s, t, end, secret, value, rules);
    case _ => RescanFindsSame(s, t, end + 1, rules);
  }

  lemma {:induction false} RescanNamed(s: seq<byte>, t: seq<byte>, end: nat, secret: bool, value: nat, rules: Rules)
    requires end < value < |s| && s[value] == QUOTE && OnValue(s, secret, value, rules).Done?
    requires Matches(s, t, end + 1, OnValue(s, secret, value, rules).secrets) && rules.decode(RedactedText()).Some?
    ensures OnValue(t, secret, value, rules) == OnValue(s, secret, value, rules)
    decreases |s| - value, 1
  {
    SecretsLieOnValue(s, secret, value, rules);
    Ahead(s, t, end + 1, value, OnValue(s, secret, value, rules).secrets);
    RescanValue(s, t, secret, value, rules);
  }

  lemma {:induction false} RescanValue(s: seq<byte>, t: seq<byte>, secret: bool, value: nat, rules: Rules)
    requires value < |s| && s[value] == QUOTE && OnValue(s, secret, value, rules).Done?
    requires Matches(s, t, value, OnValue(s, secret, value, rules).secrets) && rules.decode(RedactedText()).Some?
    ensures OnValue(t, secret, value, rules) == OnValue(s, secret, value, rules)
    decreases |s| - value, 0
  {
    var at := StringEnd(s, value + 1).at;
    SecretsLieAhead(s, at + 1, rules);
    if secret {
      SecretReadsBack(s, t, value, at, rules);
    } else {
      OtherReadsBack(s, t, value, at, rules);
    }
    RescanFindsSame(s, t, at + 1, rules);
  }

  lemma SecretReadsBack(s: seq<byte>, t: seq<byte>, value: nat, at: nat, rules: Rules)
    requires value < |s| && s[value] == QUOTE && StringEnd(s, value + 1) == End(at, false)
    requires Scan(s, at + 1, rules).Done? && AllInside(s, at + 1, Scan(s, at + 1, rules))
    requires at == value + 1 + SECRET_LENGTH
    requires Matches(s, t, value, [Span(value, at)] + Scan(s, at + 1, rules).secrets)
    ensures StringEnd(t, value + 1) == End(at, false) && t[value + 1..at] == RedactedText()
    ensures Matches(s, t, at + 1, Scan(s, at + 1, rules).secrets)
  {
    RedactedString(s, t, value, Span(value, at), Scan(s, at + 1, rules).secrets);
  }

  lemma OtherReadsBack(s: seq<byte>, t: seq<byte>, value: nat, at: nat, rules: Rules)
    requires value < |s| && s[value] == QUOTE && StringEnd(s, value + 1) == End(at, false)
    requires Scan(s, at + 1, rules).Done? && AllInside(s, at + 1, Scan(s, at + 1, rules))
    requires Matches(s, t, value, Scan(s, at + 1, rules).secrets)
    ensures StringEnd(t, value + 1) == End(at, false) && t[value + 1..at] == s[value + 1..at]
    ensures Matches(s, t, at + 1, Scan(s, at + 1, rules).secrets)
  {
    var rest := Scan(s, at + 1, rules).secrets;
    Ahead(s, t, value, at + 1, rest);
    SameString(s, t, value, at);
  }

  /**
    After success no secret is left in the buffer: of all its strings, exactly the values of the secret field decode
    to a secret, and each of these is the fixed text.
  */
  lemma RedactedHoldsNoSecret(s: seq<byte>, rules: Rules, x: Span)
    requires Scan(s, 0, rules).Done? && rules.decode(RedactedText()).Some?
    ensures var secrets := Scan(s, 0, rules).secrets;
            var t := Redacted(s, secrets);
            && Scan(t, 0, rules) == Scan(s, 0, rules)
            && (x in Strings(t, 0) ==>
                  && Plain(t, x)
                  && (rules.decode(Text(t, x)).Some? <==> x in secrets)
                  && (x in secrets ==> Text(t, x) == RedactedText()))
  {
    var secrets := Scan(s, 0, rules).secrets;
    var t := Redacted(s, secrets);
    SecretsLieAhead(s, 0, rules);
    assert Matches(s, t, 0, secrets);
    RescanFindsSame(s, t, 0, rules);
    ScanSeesAll(t, 0, rules);
    if x in secrets {
      assert Inside(s, 0, x);
      forall p | x.start < p < x.end
        ensures t[p] == LETTER_A
      {
        assert InSecret(secrets, p);
      }
    }
  }
}
