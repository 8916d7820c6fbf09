/** Directory tree heads: their bounds, the bytes that are signed, and the check of one extension. */
module TreeHeads {
  import opened Common
  import opened Decimal
  import opened CanonicalJson
  import opened Merkle

  const TREE_HEAD_DOMAIN := "hytch.directory.tree-head/v1"
  const TREE_HEAD_CONTEXT := "hytch-directory-tree-head-v1\0"

  datatype TreeHead = TreeHead(
    domain: string,
    environment: string,
    priorRootHash: string,
    priorTreeSize: nat,
    protocol: nat,
    rootHash: string,
    timestampMs: nat,
    treeSize: nat)

  predicate ValidTreeHead(head: TreeHead) {
    && head.domain == TREE_HEAD_DOMAIN
    && head.protocol == 1
    && (head.environment == "dev" || head.environment == "production")
    && 0 < head.treeSize <= MAX_SAFE_INTEGER
    && head.priorTreeSize < head.treeSize
    && head.timestampMs <= MAX_SAFE_INTEGER
    && LowerHex64(head.rootHash)
    && LowerHex64(head.priorRootHash)
  }

  // ----- The signed bytes

  const HEAD_FIELDS := {
    "domain", "environment", "prior_root_hash", "prior_tree_size",
    "protocol_version", "root_hash", "timestamp_ms", "tree_size"
  }

  function HeadField(head: TreeHead, name: string): Json
    requires name in HEAD_FIELDS
  {
    if name == "domain" then Str(head.domain)
    else if name == "environment" then Str(head.environment)
    else if name == "prior_root_hash" then Str(head.priorRootHash)
    else if name == "prior_tree_size" then Num(Format(head.priorTreeSize))
    else if name == "protocol_version" then Num(Format(head.protocol))
    else if name == "root_hash" then Str(head.rootHash)
    else if name == "timestamp_ms" then Num(Format(head.timestampMs))
    else Num(Format(head.treeSize))
  }

  function HeadObject(head: TreeHead): Json {
    Obj(map name | name in HEAD_FIELDS :: HeadField(head, name))
  }

  lemma HeadFieldsAscii(name: string)
    requires name in HEAD_FIELDS
    ensures Ascii(name)
  {
  }

  lemma IntegerInProfile(n: nat)
    requires n <= MAX_SAFE_INTEGER
    ensures InProfile(Num(Format(n)))
  {
    FormatIsPlain(n);
  }

  lemma HeadTextAscii(head: TreeHead)
    requires ValidTreeHead(head)
    ensures Ascii(head.domain) && Ascii(head.environment) && Ascii(head.rootHash) && Ascii(head.priorRootHash)
  {
  }

  lemma HeadFieldInProfile(head: TreeHead, name: string)
    requires ValidTreeHead(head) && name in HEAD_FIELDS
    ensures InProfile(HeadField(head, name))
  {
    HeadTextAscii(head);
    IntegerInProfile(head.priorTreeSize);
    IntegerInProfile(head.protocol);
    IntegerInProfile(head.timestampMs);
    IntegerInProfile(head.treeSize);
  }

  lemma HeadInProfile(head: TreeHead)
    requires ValidTreeHead(head)
    ensures InProfile(HeadObject(head))
  {
    var m := HeadObject(head).members;
    forall name | name in m
      ensures Ascii(name) && InProfile(m[name])
    {
      HeadFieldsAscii(name);
      HeadFieldInProfile(head, name);
    }
  }

  lemma HeadFieldAgrees(a: TreeHead, b: TreeHead, name: string)
    requires HeadObject(a) == HeadObject(b) && name in HEAD_FIELDS
    ensures HeadField(a, name) == HeadField(b, name)
  {
    assert HeadObject(a).members[name] == HeadObject(b).members[name];
  }

  lemma HeadObjectInjective(a: TreeHead, b: TreeHead)
    requires HeadObject(a) == HeadObject(b)
    ensures a == b
  {
    HeadFieldAgrees(a, b, "domain");
    HeadFieldAgrees(a, b, "environment");
    HeadFieldAgrees(a, b, "prior_root_hash");
    HeadFieldAgrees(a, b, "prior_tree_size");
    HeadFieldAgrees(a, b, "protocol_version");
    HeadFieldAgrees(a, b, "root_hash");
    HeadFieldAgrees(a, b, "timestamp_ms");
    HeadFieldAgrees(a, b, "tree_size");
    FormatInjective(a.priorTreeSize, b.priorTreeSize);
    FormatInjective(a.protocol, b.protocol);
    FormatInjective(a.timestampMs, b.timestampMs);
    FormatInjective(a.treeSize, b.treeSize);
  }

  /** Four bytes, most significant first. */
  function BigEndian32(n: nat): (s: string)
    requires n < TWO_TO_THE_32
    ensures |s| == 4
  {
    [(n / 0x100_0000) as char, (n / 0x1_0000 % 256) as char, (n / 0x100 % 256) as char, (n % 256) as char]
  }

  ghost function CanonicalBytes(head: TreeHead): Option<string> {
    if !ValidTreeHead(head) then None
    else
      HeadInProfile(head);
      var canonical := Print(HeadObject(head));
      if |canonical| >= TWO_TO_THE_32 then None
      else Some(TREE_HEAD_CONTEXT + BigEndian32(|canonical|) + canonical)
  }

  method CanonicalTreeHead(head: TreeHead) returns (r: Option<string>)
    ensures r == CanonicalBytes(head)
  {
    if !ValidTreeHead(head) {
      return None;
    }
    HeadInProfile(head);
    var canonical := Canonicalize(HeadObject(head));
    if canonical.None? || |canonical.value| > TWO_TO_THE_32 - 1 {
      return None;
    }
    return Some(TREE_HEAD_CONTEXT + BigEndian32(|canonical.value|) + canonical.value);
  }

  /** The signed bytes name one head. */
  lemma CanonicalBytesInjective(a: TreeHead, b: TreeHead)
    requires CanonicalBytes(a).Some? && CanonicalBytes(a) == CanonicalBytes(b)
    ensures a == b
  {
    HeadInProfile(a);
    HeadInProfile(b);
    var x, y := Print(HeadObject(a)), Print(HeadObject(b));
    FramedInjective(x, y);
    PrintInjective(HeadObject(a), HeadObject(b));
    HeadObjectInjective(a, b);
  }

  lemma FramedInjective(x: string, y: string)
    requires |x| < TWO_TO_THE_32 && |y| < TWO_TO_THE_32
    requires TREE_HEAD_CONTEXT + BigEndian32(|x|) + x == TREE_HEAD_CONTEXT + BigEndian32(|y|) + y
    ensures x == y
  {
    var n := |TREE_HEAD_CONTEXT| + 4;
    assert (TREE_HEAD_CONTEXT + BigEndian32(|x|) + x)[n..] == x;
    assert (TREE_HEAD_CONTEXT + BigEndian32(|y|) + y)[n..] == y;
  }

  // ----- One extension

  function DecodeHash(value: string): (r: Option<Digest>)
    ensures r.Some? ==> Hex(r.value.bytes) == value
  {
    var decoded := Unhex(value);
    if decoded.Some? && |decoded.value| == 32 && Hex(decoded.value) == value then Some(RawDigest(decoded.value))
    else None
  }

  lemma DecodeHashOf(d: Digest)
    ensures DecodeHash(Hex(d.bytes)) == Some(d)
  {
    HexRoundTrip(d.bytes);
  }

  ghost predicate ValidExtension(hash: Preimage -> Digest, head: TreeHead, proof: seq<Digest>) {
    var oldRoot, newRoot := DecodeHash(head.priorRootHash), DecodeHash(head.rootHash);
    && oldRoot.Some? && newRoot.Some?
    && if head.priorTreeSize == 0 then proof == [] && oldRoot.value == hash(Nothing)
       else Consistent(hash, head.priorTreeSize, head.treeSize, oldRoot.value, newRoot.value, proof)
  }

  method VerifyWitnessExtension(hash: Preimage -> Digest, head: TreeHead, proof: seq<Digest>) returns (ok: bool)
    requires head.treeSize <= TWO_TO_THE_63
    ensures ok == ValidExtension(hash, head, proof)
  {
    var oldRoot, newRoot := DecodeHash(head.priorRootHash), DecodeHash(head.rootHash);
    if oldRoot.None? || newRoot.None? {
      return false;
    }
    if head.priorTreeSize == 0 {
      return |proof| == 0 && oldRoot.value == hash(Nothing);
    }
    ok := VerifyConsistency(hash, head.priorTreeSize, head.treeSize, oldRoot.value, newRoot.value, proof);
  }

  /** No head the witness verifies carries more than 54 proof elements. */
  lemma ExtensionProofIsShort(hash: Preimage -> Digest, head: TreeHead, proof: seq<Digest>)
    requires ValidTreeHead(head) && ValidExtension(hash, head, proof)
    ensures |proof| <= 54
  {
    if head.priorTreeSize > 0 {
      AcceptedProofIsShort(hash, head.priorTreeSize, head.treeSize, DecodeHash(head.priorRootHash).value,
                           DecodeHash(head.rootHash).value, proof);
    }
  }
}
