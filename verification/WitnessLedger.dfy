/**
  The append-only ledger of co-signed tree heads. A class stands for the database table behind the witness: one chain
  of rows per environment, read and extended inside a transaction that holds the environment's advisory lock.

  Signing, key identifiers and the digest are parameters; what is assumed of signing is that a signature verifies.
  Clock readings and the fate of each database call are arguments, so a run may fail or commit ambiguously anywhere.
*/
module WitnessLedger {
  import opened Common
  import opened Decimal
  import opened Merkle
  import opened TreeHeads

  datatype Key = Key(bytes: seq<byte>)
  datatype Signature = Signature(bytes: seq<byte>)

  datatype Crypto = Crypto(
    hash: Preimage -> Digest,
    publicOf: Key -> Key,
    keyId: Key -> string,
    sign: (Key, string) -> Signature,
    verify: (Key, string, Signature) -> bool)
  {
    ghost predicate Sound() {
      forall k: Key, m: string :: verify(publicOf(k), m, sign(k, m))
    }
  }

  /** The signed bytes of a head. The ledger's own proofs use only that bytes exist for bounded heads alone. */
  type Canonical = TreeHead -> Option<string>

  predicate Bounded(head: TreeHead) {
    && head.domain == TREE_HEAD_DOMAIN && head.protocol == 1
    && 0 < head.treeSize <= MAX_SAFE_INTEGER && head.priorTreeSize < head.treeSize
  }

  ghost predicate Faithful(canonical: Canonical) {
    forall h {:trigger CanonicalBytes(h)} :: canonical(h) == CanonicalBytes(h)
  }

  lemma FaithfulBounds(canonical: Canonical, head: TreeHead)
    requires Faithful(canonical) && canonical(head).Some?
    ensures Bounded(head) && ValidTreeHead(head) && canonical(head).value != ""
  {
    assert canonical(head) == CanonicalBytes(head);
  }

  /** Times are nanoseconds since the zero time of the clock, so 0 is the unset time. */
  datatype Proposal = Proposal(
    head: TreeHead,
    canonicalHead: string,
    proof: seq<Digest>,
    notBefore: int,
    notAfter: int)

  datatype Row = Row(
    treeSize: nat,
    rootHash: Digest,
    priorTreeSize: nat,
    priorRootHash: Digest,
    timestampMs: nat,
    canonical: string,
    proof: seq<byte>,
    keyId: string,
    signature: Signature)

  datatype Outcome = Accepted(keyId: string, signature: Signature, replay: bool) | Fork | Unavailable

  /** A commit may be reported as failed although it took effect. */
  datatype Commit = Committed | Aborted | Ambiguous

  datatype Io = Io(loads: bool, replayCommits: bool, inserts: bool, commit: Commit)

  function EnvironmentId(environment: string): Option<int> {
    if environment == "dev" then Some(1) else if environment == "production" then Some(2) else None
  }

  predicate TimeValid(p: Proposal, now: int) {
    p.notBefore != 0 && p.notAfter != 0 && p.notBefore <= now <= p.notAfter
  }

  // ----- Proofs as stored bytes

  function EncodeProof(proof: seq<Digest>): (bytes: seq<byte>)
    ensures |bytes| == 32 * |proof|
  {
    if proof == [] then [] else EncodeProof(proof[..|proof| - 1]) + proof[|proof| - 1].bytes
  }

  function DecodeProof(bytes: seq<byte>): (proof: seq<Digest>)
    requires |bytes| % 32 == 0
    ensures |proof| == |bytes| / 32
  {
    seq(|bytes| / 32, i requires 0 <= i < |bytes| / 32 => RawDigest(bytes[32 * i..32 * i + 32]))
  }

  lemma {:induction false} EncodedElement(proof: seq<Digest>, i: nat)
    requires i < |proof|
    ensures EncodeProof(proof)[32 * i..32 * i + 32] == proof[i].bytes
  {
    var n := |proof| - 1;
    var init := EncodeProof(proof[..n]);
    if i < n {
      EncodedElement(proof[..n], i);
      assert EncodeProof(proof)[32 * i..32 * i + 32] == init[32 * i..32 * i + 32];
    }
  }

  lemma DecodeUndoesEncode(proof: seq<Digest>)
    ensures DecodeProof(EncodeProof(proof)) == proof
  {
    forall i | 0 <= i < |proof|
      ensures DecodeProof(EncodeProof(proof))[i] == proof[i]
    {
      EncodedElement(proof, i);
    }
  }

  method EncodeWitnessProof(proof: seq<Digest>) returns (encoded: seq<byte>)
    ensures encoded == EncodeProof(proof)
    ensures |encoded| == 32 * |proof| && DecodeProof(encoded) == proof
  {
    encoded := [];
    for i := 0 to |proof|
      invariant encoded == EncodeProof(proof[..i])
    {
      assert proof[..i + 1][..i] == proof[..i];
      encoded := encoded + proof[i].bytes;
    }
    assert proof[..|proof|] == proof;
    DecodeUndoesEncode(proof);
  }

  // ----- Stored rows

  function HeadOf(row: Row, environment: string): TreeHead {
    TreeHead(TREE_HEAD_DOMAIN, environment, Hex(row.priorRootHash.bytes), row.priorTreeSize, 1,
             Hex(row.rootHash.bytes), row.timestampMs, row.treeSize)
  }

  ghost predicate ValidStored(crypto: Crypto, canonical: Canonical, row: Row, environment: string, publicKey: Key) {
    && row.keyId == crypto.keyId(publicKey)
    && |row.canonical| != 0
    && |row.proof| % 32 == 0
    && |row.proof| / 32 <= 64
    && canonical(HeadOf(row, environment)) == Some(row.canonical)
    && ValidExtension(crypto.hash, HeadOf(row, environment), DecodeProof(row.proof))
    && crypto.verify(publicKey, row.canonical, row.signature)
  }

  method ValidStoredWitness(crypto: Crypto, ghost canonical: Canonical, row: Row, environment: string, publicKey: Key)
    returns (ok: bool)
    requires Faithful(canonical)
    ensures ok == ValidStored(crypto, canonical, row, environment, publicKey)
  {
    if row.keyId != crypto.keyId(publicKey) || |row.canonical| == 0 || |row.proof| % 32 != 0 ||
       |row.proof| / 32 > 64 {
      return false;
    }
    var proof: seq<Digest> := [];
    for i := 0 to |row.proof| / 32
      invariant proof == DecodeProof(row.proof)[..i]
    {
      proof := proof + [RawDigest(row.proof[i * 32..(i + 1) * 32])];
    }
    assert proof == DecodeProof(row.proof);
    var head := HeadOf(row, environment);
    var bytes := CanonicalTreeHead(head);
    if bytes != Some(row.canonical) {
      return false;
    }
    FaithfulBounds(canonical, head);
    ok := VerifyWitnessExtension(crypto.hash, head, proof);
    ok := ok && crypto.verify(publicKey, row.canonical, row.signature);
  }

  // ----- The chain

  /** The shape of a chain: it starts at the empty tree and each row names its predecessor. */
  ghost predicate Linked(rows: seq<Row>) {
    && (forall i :: 0 <= i < |rows| ==> rows[i].priorTreeSize < rows[i].treeSize && |rows[i].proof| % 32 == 0)
    && (forall i :: 0 <= i < |rows| ==> rows[i].keyId == rows[0].keyId)
    && (|rows| > 0 ==> rows[0].priorTreeSize == 0)
    && (forall i, j :: 0 <= i < j < |rows| && j == i + 1 ==>
          && rows[j].priorTreeSize == rows[i].treeSize
          && rows[j].priorRootHash == rows[i].rootHash
          && rows[j].timestampMs >= rows[i].timestampMs)
  }

  /** Every row still passes the check made of stored rows, under the key it was signed with. */
  ghost predicate Verifiable(crypto: Crypto, canonical: Canonical, environment: string, rows: seq<Row>,
                             signers: seq<Key>)
  {
    && |rows| == |signers|
    && forall i :: 0 <= i < |rows| ==> ValidStored(crypto, canonical, rows[i], environment, signers[i])
  }

  lemma {:induction false} SizesGrow(rows: seq<Row>, i: nat, j: nat)
    requires Linked(rows) && i < j < |rows|
    ensures rows[i].treeSize < rows[j].treeSize
    ensures rows[i].timestampMs <= rows[j].timestampMs
    decreases j
  {
    if i < j - 1 {
      SizesGrow(rows, i, j - 1);
    }
  }

  /** The head a row keeps is the one that was proposed. */
  lemma RowKeepsHead(p: Proposal, row: Row)
    requires Bounded(p.head)
    requires DecodeHash(p.head.rootHash) == Some(row.rootHash)
    requires DecodeHash(p.head.priorRootHash) == Some(row.priorRootHash)
    requires row.treeSize == p.head.treeSize && row.priorTreeSize == p.head.priorTreeSize
    requires row.timestampMs == p.head.timestampMs
    ensures HeadOf(row, p.head.environment) == p.head
  {
  }

  /** Whether a proposal is on record, word for word. */
  ghost predicate Recorded(rows: seq<Row>, p: Proposal) {
    exists i :: 0 <= i < |rows| && rows[i].treeSize == p.head.treeSize && rows[i].canonical == p.canonicalHead &&
                rows[i].proof == EncodeProof(p.proof)
  }

  /** Whether a proposal continues the chain from its latest row, or starts it. */
  ghost predicate Continues(rows: seq<Row>, p: Proposal) {
    if rows == [] then p.head.priorTreeSize == 0
    else
      var latest := rows[|rows| - 1];
      && p.head.treeSize > latest.treeSize
      && p.head.priorTreeSize == latest.treeSize
      && p.head.priorRootHash == Hex(latest.rootHash.bytes)
      && p.head.timestampMs >= latest.timestampMs
  }

  /** The checks made before the database is touched. */
  ghost predicate WellFormed(crypto: Crypto, canonical: Canonical, p: Proposal, privateKey: Key, keyId: string) {
    && EnvironmentId(p.head.environment).Some?
    && keyId == crypto.keyId(crypto.publicOf(privateKey))
    && canonical(p.head) == Some(p.canonicalHead)
    && ValidExtension(crypto.hash, p.head, p.proof)
  }

  method ReadLatest(rows: seq<Row>) returns (latest: Option<Row>)
    ensures latest.None? <==> rows == []
    ensures latest.Some? ==>
              && latest.value in rows
              && forall i :: 0 <= i < |rows| ==> rows[i].treeSize <= latest.value.treeSize
  {
    latest := None;
    for i := 0 to |rows|
      invariant latest.None? <==> i == 0
      invariant latest.Some? ==> latest.value in rows
      invariant latest.Some? ==> forall k :: 0 <= k < i ==> rows[k].treeSize <= latest.value.treeSize
    {
      if latest.None? || rows[i].treeSize > latest.value.treeSize {
        latest := Some(rows[i]);
      }
    }
  }

  method ReadAt(rows: seq<Row>, treeSize: nat) returns (found: Option<Row>)
    ensures found.Some? ==> found.value in rows && found.value.treeSize == treeSize
    ensures found.None? ==> forall i :: 0 <= i < |rows| ==> rows[i].treeSize != treeSize
  {
    for i := 0 to |rows|
      invariant forall k :: 0 <= k < i ==> rows[k].treeSize != treeSize
    {
      if rows[i].treeSize == treeSize {
        return Some(rows[i]);
      }
    }
    return None;
  }

  lemma LatestIsLast(rows: seq<Row>, row: Row)
    requires Linked(rows) && row in rows
    requires forall i :: 0 <= i < |rows| ==> rows[i].treeSize <= row.treeSize
    ensures row == rows[|rows| - 1]
  {
    var k :| 0 <= k < |rows| && rows[k] == row;
    if k < |rows| - 1 {
      SizesGrow(rows, k, |rows| - 1);
    }
  }

  lemma LatestIsLargest(rows: seq<Row>)
    requires Linked(rows)
    ensures forall i :: 0 <= i < |rows| ==> rows[i].treeSize <= rows[|rows| - 1].treeSize
  {
    forall i | 0 <= i < |rows|
      ensures rows[i].treeSize <= rows[|rows| - 1].treeSize
    {
      if i < |rows| - 1 {
        SizesGrow(rows, i, |rows| - 1);
      }
    }
  }

  /** A tree size names at most one row. */
  lemma SizeIsKey(rows: seq<Row>, i: nat, j: nat)
    requires Linked(rows) && i < |rows| && j < |rows| && rows[i].treeSize == rows[j].treeSize
    ensures i == j
  {
    if i < j {
      SizesGrow(rows, i, j);
    } else if j < i {
      SizesGrow(rows, j, i);
    }
  }

  /** The row written for a proposal. */
  function RowFor(crypto: Crypto, p: Proposal, root: Digest, priorRoot: Digest, privateKey: Key, keyId: string): Row {
    Row(p.head.treeSize, root, p.head.priorTreeSize, priorRoot, p.head.timestampMs, p.canonicalHead,
        EncodeProof(p.proof), keyId, crypto.sign(privateKey, p.canonicalHead))
  }

  /** Every row that is written passes the check later calls make of it; its proof is never too long. */
  lemma WrittenRowIsValid(crypto: Crypto, canonical: Canonical, p: Proposal, privateKey: Key, keyId: string,
                          root: Digest, priorRoot: Digest)
    requires crypto.Sound() && Faithful(canonical) && WellFormed(crypto, canonical, p, privateKey, keyId)
    requires DecodeHash(p.head.rootHash) == Some(root) && DecodeHash(p.head.priorRootHash) == Some(priorRoot)
    ensures ValidStored(crypto, canonical, RowFor(crypto, p, root, priorRoot, privateKey, keyId), p.head.environment,
                        crypto.publicOf(privateKey))
  {
    FaithfulBounds(canonical, p.head);
    RowKeepsHead(p, RowFor(crypto, p, root, priorRoot, privateKey, keyId));
    DecodeUndoesEncode(p.proof);
    ExtensionProofIsShort(crypto.hash, p.head, p.proof);
    assert crypto.verify(crypto.publicOf(privateKey), p.canonicalHead, crypto.sign(privateKey, p.canonicalHead));
  }

  lemma AppendKeepsLinks(rows: seq<Row>, row: Row)
    requires Linked(rows)
    requires row.priorTreeSize < row.treeSize && |row.proof| % 32 == 0
    requires rows == [] ==> row.priorTreeSize == 0
    requires rows != [] ==>
               var latest := rows[|rows| - 1];
               && row.priorTreeSize == latest.treeSize && row.priorRootHash == latest.rootHash
               && row.timestampMs >= latest.timestampMs && row.keyId == latest.keyId
    ensures Linked(rows + [row])
  {
  }

  // ----- Every signed head is a prefix of the latest tree

  /** The collision that a broken chain would give away, looking back from the latest row to row `j`. */
  ghost function ChainCollision(hash: Preimage -> Digest, rows: seq<Row>, leaves: seq<Leaf>, j: nat): Collision
    requires Linked(rows) && j < |rows| && |leaves| == rows[|rows| - 1].treeSize
    decreases |rows|
  {
    var last := |rows| - 1;
    if j == last then Collision(Nothing, Nothing)
    else
      var row := rows[last];
      assert row.priorTreeSize == rows[last - 1].treeSize;
      var here := WalkCollision(hash, row.priorRootHash, true, DecodeProof(row.proof), 0, leaves, 0,
                                row.priorTreeSize, row.treeSize);
      if Genuine(hash, here) then here
      else ChainCollision(hash, rows[..last], leaves[..row.priorTreeSize], j)
  }

  /** What a stored row proves about the leaves behind its root. */
  ghost predicate ExtensionHolds(hash: Preimage -> Digest, row: Row)
    requires |row.proof| % 32 == 0
  {
    Consistent(hash, row.priorTreeSize, row.treeSize, row.priorRootHash, row.rootHash, DecodeProof(row.proof))
  }

  lemma StoredRowExtends(crypto: Crypto, canonical: Canonical, environment: string, row: Row, signer: Key)
    requires ValidStored(crypto, canonical, row, environment, signer) && row.priorTreeSize > 0
    ensures ExtensionHolds(crypto.hash, row)
  {
    DecodeHashOf(row.priorRootHash);
    DecodeHashOf(row.rootHash);
  }

  lemma {:induction false} RootsArePrefixes(hash: Preimage -> Digest, rows: seq<Row>, leaves: seq<Leaf>, j: nat)
    requires Linked(rows) && j < |rows|
    requires forall i :: 0 < i < |rows| ==> ExtensionHolds(hash, rows[i])
    requires |leaves| == rows[|rows| - 1].treeSize && Root(hash, leaves) == rows[|rows| - 1].rootHash
    ensures rows[j].treeSize <= |leaves|
    ensures rows[j].rootHash == Root(hash, leaves[..rows[j].treeSize]) ||
            Genuine(hash, ChainCollision(hash, rows, leaves, j))
    decreases |rows|
  {
    var last := |rows| - 1;
    var row := rows[last];
    if j == last {
      assert leaves[..row.treeSize] == leaves;
    } else {
      SizesGrow(rows, j, last);
      assert ExtensionHolds(hash, row);
      var shorter := leaves[..row.priorTreeSize];
      assert row.priorTreeSize == rows[last - 1].treeSize;
      ConsistencySound(hash, row.priorTreeSize, row.priorRootHash, row.rootHash, DecodeProof(row.proof), leaves);
      if row.priorRootHash == Root(hash, shorter) {
        RootsArePrefixes(hash, rows[..last], shorter, j);
        assert shorter[..rows[j].treeSize] == leaves[..rows[j].treeSize];
      }
    }
  }

  /**
    Whatever leaves stand behind the latest signed root, every head signed before is the root of a prefix of them, or a
    digest collision has been computed from the stored proofs.
  */
  lemma SignedHeadsArePrefixes(crypto: Crypto, canonical: Canonical, environment: string, rows: seq<Row>,
                               signers: seq<Key>, leaves: seq<Leaf>, j: nat)
    requires Linked(rows) && Verifiable(crypto, canonical, environment, rows, signers) && j < |rows|
    requires |leaves| == rows[|rows| - 1].treeSize && Root(crypto.hash, leaves) == rows[|rows| - 1].rootHash
    ensures rows[j].treeSize <= |leaves|
    ensures rows[j].rootHash == Root(crypto.hash, leaves[..rows[j].treeSize]) ||
            Genuine(crypto.hash, ChainCollision(crypto.hash, rows, leaves, j))
  {
    forall i | 0 < i < |rows|
      ensures ExtensionHolds(crypto.hash, rows[i])
    {
      assert rows[i].priorTreeSize == rows[i - 1].treeSize;
      StoredRowExtends(crypto, canonical, environment, rows[i], signers[i]);
    }
    RootsArePrefixes(crypto.hash, rows, leaves, j);
  }

  // ----- The store

  datatype Release = Release(canonical: string, signature: Signature)

  ghost predicate Backed(rows: seq<Row>, release: Release) {
    exists i :: 0 <= i < |rows| && rows[i].canonical == release.canonical && rows[i].signature == release.signature
  }

  ghost predicate AllBacked(rows: seq<Row>, released: seq<Release>) {
    forall k :: 0 <= k < |released| ==> Backed(rows, released[k])
  }

  lemma BackedByMore(rows: seq<Row>, row: Row, released: seq<Release>)
    requires AllBacked(rows, released)
    ensures AllBacked(rows + [row], released)
    ensures Backed(rows + [row], Release(row.canonical, row.signature))
  {
    var more := rows + [row];
    assert more[|rows|] == row;
    forall k | 0 <= k < |released|
      ensures Backed(more, released[k])
    {
      assert Backed(rows, released[k]);
      var i :| 0 <= i < |rows| && released[k] == Release(rows[i].canonical, rows[i].signature);
      assert more[i] == rows[i];
    }
  }

  lemma AppendKeepsVerifiable(crypto: Crypto, canonical: Canonical, environment: string, rows: seq<Row>,
                              signers: seq<Key>, row: Row, signer: Key)
    requires Verifiable(crypto, canonical, environment, rows, signers)
    requires ValidStored(crypto, canonical, row, environment, signer)
    ensures Verifiable(crypto, canonical, environment, rows + [row], signers + [signer])
  {
  }

  lemma ContinuationLinks(rows: seq<Row>, p: Proposal, row: Row)
    requires Linked(rows) && Continues(rows, p) && (rows != [] ==> rows[|rows| - 1].keyId == row.keyId)
    requires DecodeHash(p.head.priorRootHash) == Some(row.priorRootHash)
    requires row.treeSize == p.head.treeSize && row.priorTreeSize == p.head.priorTreeSize < p.head.treeSize
    requires row.timestampMs == p.head.timestampMs && row.proof == EncodeProof(p.proof)
    requires row.canonical == p.canonicalHead
    ensures Linked(rows + [row]) && Recorded(rows + [row], p)
  {
    if rows != [] {
      DecodeHashOf(rows[|rows| - 1].rootHash);
    }
    AppendKeepsLinks(rows, row);
    assert (rows + [row])[|rows|] == row;
  }

  /** The new row keeps the chain in shape and every row verifiable. */
  lemma InsertKeepsLedger(crypto: Crypto, canonical: Canonical, p: Proposal, privateKey: Key, keyId: string,
                          rows: seq<Row>, signers: seq<Key>, row: Row)
    requires crypto.Sound() && Faithful(canonical) && WellFormed(crypto, canonical, p, privateKey, keyId)
    requires Linked(rows) && Verifiable(crypto, canonical, p.head.environment, rows, signers)
    requires Continues(rows, p) && (rows != [] ==> rows[|rows| - 1].keyId == keyId)
    requires row == RowFor(crypto, p, DecodeHash(p.head.rootHash).value, DecodeHash(p.head.priorRootHash).value,
                           privateKey, keyId)
    ensures Linked(rows + [row]) && Recorded(rows + [row], p)
    ensures Verifiable(crypto, canonical, p.head.environment, rows + [row], signers + [crypto.publicOf(privateKey)])
  {
    FaithfulBounds(canonical, p.head);
    WrittenRowIsValid(crypto, canonical, p, privateKey, keyId, row.rootHash, row.priorRootHash);
    ContinuationLinks(rows, p, row);
    AppendKeepsVerifiable(crypto, canonical, p.head.environment, rows, signers, row, crypto.publicOf(privateKey));
  }

  method CheckProposal(crypto: Crypto, ghost canonical: Canonical, p: Proposal, privateKey: Key, keyId: string)
    returns (ok: bool)
    requires Faithful(canonical)
    ensures ok == WellFormed(crypto, canonical, p, privateKey, keyId)
  {
    var bytes := CanonicalTreeHead(p.head);
    if EnvironmentId(p.head.environment).None? || keyId != crypto.keyId(crypto.publicOf(privateKey)) ||
       bytes != Some(p.canonicalHead) {
      return false;
    }
    FaithfulBounds(canonical, p.head);
    ok := VerifyWitnessExtension(crypto.hash, p.head, p.proof);
  }

  /** What the chain says of a well-formed proposal. */
  datatype Verdict = Refuse(outcome: Outcome) | Reuse(row: Row) | Write

  /** There is no row yet, or the latest one is in order and under this key. */
  ghost predicate Trusts(crypto: Crypto, canonical: Canonical, rows: seq<Row>, environment: string, publicKey: Key,
                         keyId: string)
  {
    rows != [] ==>
      var latest := rows[|rows| - 1];
      latest.keyId == keyId && ValidStored(crypto, canonical, latest, environment, publicKey)
  }

  /** Only a replay is answered whatever the time. */
  ghost predicate Timely(rows: seq<Row>, p: Proposal, now: int) {
    (rows == [] || p.head.treeSize > rows[|rows| - 1].treeSize) ==> TimeValid(p, now)
  }

  /** Writes exactly a timely continuation, calls a fork exactly what is neither on record nor a continuation. */
  method Decide(crypto: Crypto, ghost canonical: Canonical, rows: seq<Row>, p: Proposal, publicKey: Key, keyId: string,
                proof: seq<byte>, now: int)
    returns (d: Verdict)
    requires Linked(rows) && Faithful(canonical)
    requires proof == EncodeProof(p.proof) && ValidExtension(crypto.hash, p.head, p.proof)
    ensures d.Refuse? ==> d.outcome.Fork? || d.outcome.Unavailable?
    ensures d == Refuse(Fork) <==>
              && Trusts(crypto, canonical, rows, p.head.environment, publicKey, keyId) && Timely(rows, p, now)
              && !Recorded(rows, p) && !Continues(rows, p)
    ensures d.Write? <==>
              && Trusts(crypto, canonical, rows, p.head.environment, publicKey, keyId) && Timely(rows, p, now)
              && Continues(rows, p)
    ensures d.Reuse? ==> Recorded(rows, p) && d.row in rows && d.row.canonical == p.canonicalHead
    ensures d.Reuse? ==> d.row.keyId == keyId && crypto.verify(publicKey, d.row.canonical, d.row.signature)
  {
    LatestIsLargest(rows);
    var current := ReadLatest(rows);
    if current.None? {
      if !TimeValid(p, now) {
        return Refuse(Unavailable);
      }
      var priorRoot := Unhex(p.head.priorRootHash);
      if priorRoot.None? || p.head.priorTreeSize != 0 || |proof| != 0 || priorRoot.value != crypto.hash(Nothing).bytes {
        return Refuse(Fork);
      }
      return Write;
    }
    var latest := current.value;
    LatestIsLast(rows, latest);
    var valid := ValidStoredWitness(crypto, canonical, latest, p.head.environment, publicKey);
    if latest.keyId != keyId || !valid {
      return Refuse(Unavailable);
    }
    if p.head.treeSize <= latest.treeSize {
      d := Replay(crypto, rows, p, publicKey, keyId, proof);
      return;
    }
    if !TimeValid(p, now) {
      return Refuse(Unavailable);
    }
    if p.head.priorTreeSize != latest.treeSize || p.head.priorRootHash != Hex(latest.rootHash.bytes) ||
       p.head.timestampMs < latest.timestampMs {
      return Refuse(Fork);
    }
    return Write;
  }

  /** A proposal no larger than the latest head: the stored row must be the very same. */
  method Replay(crypto: Crypto, rows: seq<Row>, p: Proposal, publicKey: Key, keyId: string, proof: seq<byte>)
    returns (d: Verdict)
    requires Linked(rows) && proof == EncodeProof(p.proof)
    ensures !d.Write?
    ensures d.Refuse? ==> d.outcome.Fork? || d.outcome.Unavailable?
    ensures d == Refuse(Fork) <==> !Recorded(rows, p)
    ensures d.Reuse? ==> d.row in rows && d.row.canonical == p.canonicalHead && d.row.keyId == keyId
    ensures d.Reuse? ==> crypto.verify(publicKey, d.row.canonical, d.row.signature)
  {
    var found := ReadAt(rows, p.head.treeSize);
    if found.None? {
      return Refuse(Fork);
    }
    var stored := found.value;
    ghost var at :| 0 <= at < |rows| && rows[at] == stored;
    forall i | 0 <= i < |rows| && rows[i].treeSize == p.head.treeSize
      ensures i == at
    {
      SizeIsKey(rows, i, at);
    }
    if stored.canonical != p.canonicalHead || stored.proof != proof {
      return Refuse(Fork);
    }
    assert Recorded(rows, p);
    if stored.keyId != keyId || !crypto.verify(publicKey, stored.canonical, stored.signature) {
      return Refuse(Unavailable);
    }
    return Reuse(stored);
  }

  /** The rows a call leaves behind. */
  function After(rows: seq<Row>, written: Option<Row>): seq<Row> {
    if written.Some? then rows + [written.value] else rows
  }

  /** What may be written, what may be signed and what a fork means. */
  ghost predicate Judged(crypto: Crypto, canonical: Canonical, rows: seq<Row>, p: Proposal, privateKey: Key,
                         keyId: string, r: Outcome, written: Option<Row>)
  {
    // A row is written only for a well-formed continuation under the key of the chain.
    && (written.Some? ==>
          && WellFormed(crypto, canonical, p, privateKey, keyId) && Continues(rows, p)
          && (rows != [] ==> rows[|rows| - 1].keyId == keyId)
          && DecodeHash(p.head.rootHash).Some? && DecodeHash(p.head.priorRootHash).Some?
          && var root, priorRoot := DecodeHash(p.head.rootHash).value, DecodeHash(p.head.priorRootHash).value;
             written.value == RowFor(crypto, p, root, priorRoot, privateKey, keyId))
    // A signature is handed out for a row just written, or for the very row on record.
    && (r.Accepted? ==>
          && WellFormed(crypto, canonical, p, privateKey, keyId) && r.keyId == keyId
          && if r.replay then
               && written.None? && Recorded(rows, p) && Backed(rows, Release(p.canonicalHead, r.signature))
               && crypto.verify(crypto.publicOf(privateKey), p.canonicalHead, r.signature)
             else written.Some? && r.signature == crypto.sign(privateKey, p.canonicalHead))
    // A fork verdict means that the proposal is neither on record nor a continuation.
    && (r.Fork? ==>
          && WellFormed(crypto, canonical, p, privateKey, keyId)
          && written.None? && !Recorded(rows, p) && !Continues(rows, p))
  }

  /**
    One call on the rows of one environment: the answer to the caller, and the row left in the table, which an ambiguous
    commit leaves there although the caller is told otherwise. `first` and `second` are the two clock readings of the
    extension path.
  */
  method Judge(crypto: Crypto, ghost canonical: Canonical, rows: seq<Row>, p: Proposal, privateKey: Key, keyId: string,
               first: int, second: int, io: Io)
    returns (r: Outcome, written: Option<Row>)
    requires Faithful(canonical) && Linked(rows)
    ensures Judged(crypto, canonical, rows, p, privateKey, keyId, r, written)
    // Without a fault, a well-formed and timely continuation under the key of the chain is always signed.
    ensures && WellFormed(crypto, canonical, p, privateKey, keyId) && io == Io(true, true, true, Committed)
            && TimeValid(p, first) && TimeValid(p, second) && Continues(rows, p)
            && (rows == [] || ValidStored(crypto, canonical, rows[|rows| - 1], p.head.environment,
                                          crypto.publicOf(privateKey)))
            ==> r.Accepted? && !r.replay
  {
    written := None;
    var publicKey := crypto.publicOf(privateKey);
    var ok := CheckProposal(crypto, canonical, p, privateKey, keyId);
    if !ok || !io.loads {
      return Unavailable, None;
    }
    var proof := EncodeWitnessProof(p.proof);
    var verdict := Decide(crypto, canonical, rows, p, publicKey, keyId, proof, first);
    match verdict
    case Refuse(outcome) =>
      return outcome, None;
    case Reuse(stored) =>
      if !io.replayCommits {
        return Unavailable, None;
      }
      return Accepted(stored.keyId, stored.signature, true), None;
    case Write =>
      if !TimeValid(p, second) || !io.inserts || io.commit.Aborted? {
        return Unavailable, None;
      }
      var root, priorRoot := DecodeHash(p.head.rootHash).value, DecodeHash(p.head.priorRootHash).value;
      var row := RowFor(crypto, p, root, priorRoot, privateKey, keyId);
      return if io.commit.Ambiguous? then Unavailable else Accepted(keyId, row.signature, false), Some(row);
  }

  /** What every call keeps: the chain, its verifiability, and a row behind every signature handed out. */
  ghost predicate Sound(crypto: Crypto, canonical: Canonical, environment: string, rows: seq<Row>, signers: seq<Key>,
                        released: seq<Release>)
  {
    && crypto.Sound() && Faithful(canonical)
    && Linked(rows)
    && Verifiable(crypto, canonical, environment, rows, signers)
    && AllBacked(rows, released)
  }

  lemma ReleaseKeepsBacked(rows: seq<Row>, released: seq<Release>, release: Release)
    requires AllBacked(rows, released) && Backed(rows, release)
    ensures AllBacked(rows, released + [release])
  {
  }

  /** What a call's answer and row leave behind is sound again, and holds the proposal if either is there. */
  lemma JudgedKeepsSound(crypto: Crypto, canonical: Canonical, p: Proposal, privateKey: Key, keyId: string,
                         rows: seq<Row>, signers: seq<Key>, released: seq<Release>, r: Outcome, written: Option<Row>)
    requires Sound(crypto, canonical, p.head.environment, rows, signers, released)
    requires Judged(crypto, canonical, rows, p, privateKey, keyId, r, written)
    ensures Sound(crypto, canonical, p.head.environment, After(rows, written),
                  if written.Some? then signers + [crypto.publicOf(privateKey)] else signers,
                  if r.Accepted? then released + [Release(p.canonicalHead, r.signature)] else released)
    ensures written.Some? || r.Accepted? ==>
              Recorded(After(rows, written), p) && canonical(p.head) == Some(p.canonicalHead)
    ensures written.Some? ==> Continues(rows, p)
    ensures r.Fork? ==> written.None? && !Recorded(rows, p) && !Continues(rows, p)
  {
    if written.Some? {
      InsertKeepsLedger(crypto, canonical, p, privateKey, keyId, rows, signers, written.value);
      BackedByMore(rows, written.value, released);
    }
    if r.Accepted? {
      ReleaseKeepsBacked(After(rows, written), released, Release(p.canonicalHead, r.signature));
    }
  }

  /** One call, with the row it leaves and the signature it releases put on record. */
  method Settle(crypto: Crypto, ghost canonical: Canonical, rows: seq<Row>, ghost signers: seq<Key>,
                ghost released: seq<Release>, p: Proposal, privateKey: Key, keyId: string,
                first: int, second: int, io: Io)
    returns (r: Outcome, next: seq<Row>, ghost nextSigners: seq<Key>, ghost nextReleased: seq<Release>)
    requires Sound(crypto, canonical, p.head.environment, rows, signers, released)
    ensures Sound(crypto, canonical, p.head.environment, next, nextSigners, nextReleased)
    ensures rows <= next && (next == rows || (|next| == |rows| + 1 && Continues(rows, p)))
    ensures next != rows || r.Accepted? ==> Recorded(next, p) && canonical(p.head) == Some(p.canonicalHead)
    ensures nextReleased == if r.Accepted? then released + [Release(p.canonicalHead, r.signature)] else released
    ensures r.Fork? ==> next == rows && !Recorded(rows, p) && !Continues(rows, p)
  {
    var row: Option<Row>;
    r, row := Judge(crypto, canonical, rows, p, privateKey, keyId, first, second, io);
    JudgedKeepsSound(crypto, canonical, p, privateKey, keyId, rows, signers, released, r, row);
    next := After(rows, row);
    nextSigners := if row.Some? then signers + [crypto.publicOf(privateKey)] else signers;
    nextReleased := if r.Accepted? then released + [Release(p.canonicalHead, r.signature)] else released;
  }

  // ----- What holds of every signature ever handed out

  /** The head behind a released signature is the head of a row. */
  lemma ReleasedRow(crypto: Crypto, canonical: Canonical, environment: string, rows: seq<Row>, signers: seq<Key>,
                    released: seq<Release>, k: nat, head: TreeHead) returns (i: nat)
    requires Sound(crypto, canonical, environment, rows, signers, released) && k < |released|
    requires canonical(head) == Some(released[k].canonical)
    ensures i < |rows| && head == HeadOf(rows[i], environment)
  {
    assert Backed(rows, released[k]);
    i :| 0 <= i < |rows| && rows[i].canonical == released[k].canonical && rows[i].signature == released[k].signature;
    var stored := HeadOf(rows[i], environment);
    assert ValidStored(crypto, canonical, rows[i], environment, signers[i]);
    assert canonical(head) == CanonicalBytes(head) && canonical(stored) == CanonicalBytes(stored);
    CanonicalBytesInjective(head, stored);
  }

  /** No two different heads of one size ever get a signature. */
  lemma OneHeadPerSize(crypto: Crypto, canonical: Canonical, environment: string, rows: seq<Row>, signers: seq<Key>,
                       released: seq<Release>, a: nat, b: nat, x: TreeHead, y: TreeHead)
    requires Sound(crypto, canonical, environment, rows, signers, released) && a < |released| && b < |released|
    requires canonical(x) == Some(released[a].canonical) && canonical(y) == Some(released[b].canonical)
    requires x.treeSize == y.treeSize
    ensures x == y
  {
    var i := ReleasedRow(crypto, canonical, environment, rows, signers, released, a, x);
    var j := ReleasedRow(crypto, canonical, environment, rows, signers, released, b, y);
    SizeIsKey(rows, i, j);
  }

  lemma LinkedPrefix(crypto: Crypto, canonical: Canonical, environment: string, rows: seq<Row>, signers: seq<Key>,
                     n: nat)
    requires Linked(rows) && Verifiable(crypto, canonical, environment, rows, signers) && n <= |rows|
    ensures Linked(rows[..n]) && Verifiable(crypto, canonical, environment, rows[..n], signers[..n])
  {
  }

  /**
    Of any two heads ever signed, the smaller one is the root of a prefix of whatever leaves stand behind the larger
    one, or a digest collision has been computed from the stored proofs.
  */
  lemma SignedHeadsAgree(crypto: Crypto, canonical: Canonical, environment: string, rows: seq<Row>, signers: seq<Key>,
                         released: seq<Release>, a: nat, b: nat, x: TreeHead, y: TreeHead, leaves: seq<Leaf>)
    returns (evidence: Collision)
    requires Sound(crypto, canonical, environment, rows, signers, released) && a < |released| && b < |released|
    requires canonical(x) == Some(released[a].canonical) && canonical(y) == Some(released[b].canonical)
    requires x.treeSize <= y.treeSize == |leaves| && DecodeHash(y.rootHash) == Some(Root(crypto.hash, leaves))
    ensures DecodeHash(x.rootHash) == Some(Root(crypto.hash, leaves[..x.treeSize])) || Genuine(crypto.hash, evidence)
  {
    var i := ReleasedRow(crypto, canonical, environment, rows, signers, released, a, x);
    var j := ReleasedRow(crypto, canonical, environment, rows, signers, released, b, y);
    if j < i {
      SizesGrow(rows, j, i);
    }
    DecodeHashOf(rows[i].rootHash);
    DecodeHashOf(rows[j].rootHash);
    LinkedPrefix(crypto, canonical, environment, rows, signers, j + 1);
    SignedHeadsArePrefixes(crypto, canonical, environment, rows[..j + 1], signers[..j + 1], leaves, i);
    evidence := ChainCollision(crypto.hash, rows[..j + 1], leaves, i);
  }

  datatype Request = Request(p: Proposal, privateKey: Key, keyId: string, first: int, second: int, io: Io)

  /** The rows of one environment; the environment column and its advisory lock keep environments apart. */
  class EnvironmentLedger {
    const crypto: Crypto
    const environment: string
    var rows: seq<Row>
    ghost const canonical: Canonical
    /** The public key each row was signed under. */
    ghost var signers: seq<Key>
    /** Every signature handed out so far. */
    ghost var released: seq<Release>

    ghost predicate Valid()
      reads this
    {
      Sound(crypto, canonical, environment, rows, signers, released)
    }

    constructor (crypto: Crypto, environment: string)
      requires crypto.Sound()
      ensures Valid() && this.crypto == crypto && this.environment == environment
      ensures rows == [] && released == []
    {
      this.crypto := crypto;
      this.environment := environment;
      rows := [];
      canonical := h => CanonicalBytes(h);
      signers := [];
      released := [];
    }

    /** Serves one proposal; `Judge` decides it, and every call keeps the ledger sound. */
    method AcceptDirectoryTreeHead(p: Proposal, privateKey: Key, keyId: string, first: int, second: int, io: Io)
      returns (r: Outcome)
      requires Valid() && p.head.environment == environment
      modifies this`rows, this`signers, this`released
      ensures Valid()
      ensures old(rows) <= rows && old(released) <= released
      ensures rows == old(rows) || (|rows| == |old(rows)| + 1 && Continues(old(rows), p))
      ensures rows != old(rows) || r.Accepted? ==> Recorded(rows, p) && canonical(p.head) == Some(p.canonicalHead)
      ensures released == if r.Accepted? then old(released) + [Release(p.canonicalHead, r.signature)] else old(released)
      ensures r.Fork? ==> rows == old(rows) && !Recorded(rows, p) && !Continues(rows, p)
    {
      r, rows, signers, released :=
        Settle(crypto, canonical, rows, signers, released, p, privateKey, keyId, first, second, io);
    }

    /**
      Any run of first heads, extensions, replays, forks, rejections, faults and ambiguous commits keeps the ledger
      sound, never changes a row and never forgets a signature.
    */
    method Serve(requests: seq<Request>) returns (answers: seq<Outcome>)
      requires Valid() && forall k :: 0 <= k < |requests| ==> requests[k].p.head.environment == environment
      modifies this`rows, this`signers, this`released
      ensures Valid()
      ensures |answers| == |requests|
      ensures old(rows) <= rows && old(released) <= released
    {
      answers := [];
      for k := 0 to |requests|
        invariant Valid() && |answers| == k
        invariant old(rows) <= rows && old(released) <= released
      {
        var q := requests[k];
        ghost var before, given := rows, released;
        var r := AcceptDirectoryTreeHead(q.p, q.privateKey, q.keyId, q.first, q.second, q.io);
        assert before <= rows && given <= released;
        answers := answers + [r];
      }
    }
  }
}
