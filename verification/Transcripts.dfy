/** Domain-separated signing inputs over canonical objects. */
module Transcripts {
  import opened Common
  import opened CanonicalJson

  const ASSERTION_DOMAIN := "Hytch A9 bridge assertion v1\0"
  const CONTROL_DOMAIN := "Hytch A9 bridge control v1\0"
  const WATERMARK_DOMAIN := "Hytch A9 bridge control watermark v1\0"
  const KEYSET_DOMAIN := "Hytch A9 bridge keyset v1\0"

  predicate IsDomain(d: string) {
    d == ASSERTION_DOMAIN || d == CONTROL_DOMAIN || d == WATERMARK_DOMAIN || d == KEYSET_DOMAIN
  }

  type JsonObject = map<string, Json>

  function Unsigned(signed: JsonObject, field: string): Json {
    Obj(signed - {field})
  }

  ghost function SigningInput(signed: JsonObject, field: string, domain: string): string
    requires InProfile(Unsigned(signed, field))
  {
    domain + Print(Unsigned(signed, field))
  }

  method SignedTranscript(signed: JsonObject, field: string, domain: string)
    returns (r: Option<(string, string)>)
    ensures r.Some? <==> field in signed && InProfile(Unsigned(signed, field))
    ensures r.Some? ==> r.value == (Print(Unsigned(signed, field)), SigningInput(signed, field, domain))
  {
    if field !in signed {
      return None;
    }
    var canonical := Canonicalize(Obj(signed - {field}));
    if canonical.None? {
      return None;
    }
    return Some((canonical.value, domain + canonical.value));
  }

  /** Two signature domains part ways before either of them ends. */
  lemma DomainsDiverge(d: string, e: string)
    requires IsDomain(d) && IsDomain(e) && d != e
    ensures exists i :: 0 <= i < |d| && i < |e| && d[i] != e[i]
  {
    if KEYSET_DOMAIN in {d, e} || ASSERTION_DOMAIN in {d, e} {
      assert d[16] != e[16];
    } else {
      assert d[24] != e[24];
    }
  }

  lemma InputSplits(d: string, x: string, e: string, y: string)
    requires IsDomain(d) && IsDomain(e) && d + x == e + y
    ensures d == e && x == y
  {
    forall i | 0 <= i < |d| && i < |e|
      ensures d[i] == e[i]
    {
      assert d[i] == (d + x)[i] && e[i] == (e + y)[i];
    }
    if d != e {
      DomainsDiverge(d, e);
    }
    assert (d + x)[|d|..] == x && (e + y)[|d|..] == y;
  }

  /**
    A signing input determines its domain and every field but the signature: under one domain two inputs agree only
    on the same unsigned object, and inputs of different domains never coincide.
  */
  lemma TranscriptBinds(a: JsonObject, aField: string, d: string, b: JsonObject, bField: string, e: string)
    requires IsDomain(d) && IsDomain(e)
    requires InProfile(Unsigned(a, aField)) && InProfile(Unsigned(b, bField))
    requires SigningInput(a, aField, d) == SigningInput(b, bField, e)
    ensures d == e && a - {aField} == b - {bField}
  {
    var x, y := Print(Unsigned(a, aField)), Print(Unsigned(b, bField));
    InputSplits(d, x, e, y);
    PrintInjective(Unsigned(a, aField), Unsigned(b, bField));
  }
}
