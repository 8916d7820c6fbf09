/**
  Consistency proofs between two sizes of one append-only Merkle tree, as the directory witness checks them
  (sections 2.1 and 2.1.2 of RFC 6962).

  The digest function is a parameter. No function from byte strings to 32 bytes is injective, so soundness is not
  stated under an injectivity assumption: it says that either the old root is the root of a prefix of the new
  leaves, or two different inputs with the same digest have been computed from the proof and the leaves.
*/
module Merkle {
  import opened Common

  datatype RawDigest = RawDigest(bytes: seq<byte>)
  type Digest = d: RawDigest | |d.bytes| == 32 witness RawDigest(seq(32, _ => 0))
  datatype Leaf = Leaf(data: seq<byte>)

  /** Everything the tree ever hashes. */
  datatype Preimage = Nothing | OneLeaf(leaf: Leaf) | Node(left: Digest, right: Digest)

  /** The bytes that are hashed; the first byte separates leaves from nodes. */
  function Encode(p: Preimage): seq<byte> {
    match p
    case Nothing => []
    case OneLeaf(leaf) => [0] + leaf.data
    case Node(left, right) => [1] + left.bytes + right.bytes
  }

  /** Different things to hash are different byte strings, so a collision below is a collision of the byte digest. */
  lemma EncodeInjective(p: Preimage, q: Preimage)
    requires Encode(p) == Encode(q)
    ensures p == q
  {
    match p
    case Nothing =>
    case OneLeaf(leaf) =>
      assert Encode(p)[0] == 0 && Encode(p)[1..] == leaf.data;
      assert q.OneLeaf? ==> Encode(q)[1..] == q.leaf.data;
    case Node(left, right) =>
      assert Encode(p)[0] == 1 && Encode(p)[1..33] == left.bytes && Encode(p)[33..] == right.bytes;
      assert q.Node? ==> Encode(q)[1..33] == q.left.bytes && Encode(q)[33..] == q.right.bytes;
  }

  // ----- The split point of a tree

  function Pow2(e: nat): (p: nat)
    ensures p >= 1
  {
    if e == 0 then 1 else 2 * Pow2(e - 1)
  }

  ghost predicate IsPow2(p: nat) {
    exists e: nat :: p == Pow2(e)
  }

  lemma {:induction false} SplitExists(n: nat)
    requires n >= 2
    ensures exists k: nat :: IsPow2(k) && k < n <= 2 * k
  {
    if n == 2 {
      assert Pow2(0) == 1 && IsPow2(1);
    } else {
      SplitExists((n + 1) / 2);
      var k: nat :| IsPow2(k) && k < (n + 1) / 2 <= 2 * k;
      var e: nat :| k == Pow2(e);
      assert Pow2(e + 1) == 2 * k && IsPow2(2 * k);
    }
  }

  /** The largest power of two strictly below `n`. */
  ghost function Split(n: nat): (k: nat)
    requires n >= 2
    ensures 0 < k < n <= 2 * k
  {
    SplitExists(n);
    var k: nat :| IsPow2(k) && k < n <= 2 * k;
    k
  }

  lemma SplitIsPow2(n: nat)
    requires n >= 2
    ensures IsPow2(Split(n))
  {
    SplitExists(n);
  }

  lemma {:induction false} Pow2Monotone(a: nat, b: nat)
    requires a < b
    ensures 2 * Pow2(a) <= Pow2(b)
    decreases b
  {
    if a + 1 < b {
      Pow2Monotone(a, b - 1);
    }
  }

  /** Only one power of two lies in the half-open gap that defines the split. */
  lemma SplitUnique(n: nat, k: nat)
    requires n >= 2 && IsPow2(k) && k < n <= 2 * k
    ensures k == Split(n)
  {
    var s := Split(n);
    SplitIsPow2(n);
    var a: nat, b: nat :| k == Pow2(a) && s == Pow2(b);
    if a < b {
      Pow2Monotone(a, b);
    } else if b < a {
      Pow2Monotone(b, a);
    }
  }

  /** A size between the split of `n` and `n` itself splits at the same point. */
  lemma SplitShared(m: nat, n: nat)
    requires n >= 2 && Split(n) < m <= n
    ensures m >= 2 && Split(m) == Split(n)
  {
    SplitIsPow2(n);
    SplitUnique(m, Split(n));
  }

  lemma Pow2Step(e: nat)
    ensures Pow2(e + 3) == 8 * Pow2(e)
  {
    assert Pow2(e + 1) == 2 * Pow2(e) && Pow2(e + 2) == 2 * Pow2(e + 1);
  }

  lemma {:induction false} Pow2Leap(e: nat)
    ensures Pow2(e + 10) == 1024 * Pow2(e)
  {
    Pow2Step(e);
    Pow2Step(e + 3);
    Pow2Step(e + 6);
    assert Pow2(e + 10) == 2 * Pow2(e + 9);
  }

  lemma Pow2Values()
    ensures Pow2(53) == MAX_SAFE_INTEGER + 1
    ensures Pow2(63) == TWO_TO_THE_63
  {
    Pow2Step(0);
    Pow2Leap(3);
    Pow2Leap(13);
    Pow2Leap(23);
    Pow2Leap(33);
    Pow2Leap(43);
    Pow2Leap(53);
  }

  type uint64 = x: nat | x < TWO_TO_THE_64

  /** Multiplication by two on 64-bit words, which drops the carry. */
  function Twice(x: uint64): uint64 {
    if x < TWO_TO_THE_63 then 2 * x else 2 * x - TWO_TO_THE_64
  }

  /** The doubling loop after some number of rounds. */
  function Doubled(rounds: nat): uint64 {
    if rounds == 0 then 1 else Twice(Doubled(rounds - 1))
  }

  ghost predicate LoopExits(value: uint64, rounds: nat) {
    Twice(Doubled(rounds)) >= value
  }

  lemma {:induction false} DoubledIsPow2(rounds: nat)
    ensures rounds <= 63 ==> Doubled(rounds) == Pow2(rounds) <= TWO_TO_THE_63
    ensures rounds > 63 ==> Doubled(rounds) == 0
  {
    if rounds > 0 {
      DoubledIsPow2(rounds - 1);
      Pow2Values();
      if rounds < 63 {
        Pow2Monotone(rounds, 63);
      }
    }
  }

  /** On 64-bit words the doubling loop stops exactly for the values up to 2^63; above that it spins on zero. */
  lemma LoopStopsExactly(value: uint64)
    ensures (exists rounds: nat :: LoopExits(value, rounds)) <==> value <= TWO_TO_THE_63
  {
    if value <= TWO_TO_THE_63 {
      DoubledIsPow2(62);
      DoubledIsPow2(63);
      Pow2Values();
      assert LoopExits(value, 62);
    } else {
      forall rounds: nat
        ensures !LoopExits(value, rounds)
      {
        DoubledIsPow2(rounds);
        DoubledIsPow2(rounds + 1);
      }
    }
  }

  method LargestPowerOfTwoLessThan(value: uint64) returns (result: uint64)
    requires value <= TWO_TO_THE_63
    ensures value <= 1 ==> result == 0
    ensures value > 1 ==> result == Split(value)
    ensures result < TWO_TO_THE_63
  {
    if value <= 1 {
      return 0;
    }
    result := 1;
    assert Pow2(0) == 1;
    while Twice(result) < value
      invariant IsPow2(result)
      invariant result < value
      decreases value - result
    {
      var e: nat :| result == Pow2(e);
      assert Pow2(e + 1) == result * 2;
      result := Twice(result);
    }
    SplitUnique(value, result);
  }

  // ----- The tree hash

  /** The root over `leaves[lo..hi]`. */
  ghost function TreeHash(hash: Preimage -> Digest, leaves: seq<Leaf>, lo: nat, hi: nat): Digest
    requires lo <= hi <= |leaves|
    decreases hi - lo
  {
    if lo == hi then hash(Nothing)
    else if lo + 1 == hi then hash(OneLeaf(leaves[lo]))
    else
      var mid := lo + Split(hi - lo);
      hash(Node(TreeHash(hash, leaves, lo, mid), TreeHash(hash, leaves, mid, hi)))
  }

  ghost function Root(hash: Preimage -> Digest, leaves: seq<Leaf>): Digest {
    TreeHash(hash, leaves, 0, |leaves|)
  }

  /** The root over a range depends on the leaves in it and on nothing else. */
  lemma {:induction false} TreeHashLocal(hash: Preimage -> Digest, a: seq<Leaf>, b: seq<Leaf>, lo: nat, hi: nat)
    requires lo <= hi <= |a| && hi <= |b|
    requires forall i :: lo <= i < hi ==> a[i] == b[i]
    ensures TreeHash(hash, a, lo, hi) == TreeHash(hash, b, lo, hi)
    decreases hi - lo
  {
    if hi - lo >= 2 {
      var mid := lo + Split(hi - lo);
      TreeHashLocal(hash, a, b, lo, mid);
      TreeHashLocal(hash, a, b, mid, hi);
    }
  }

  lemma PrefixRoot(hash: Preimage -> Digest, leaves: seq<Leaf>, m: nat)
    requires m <= |leaves|
    ensures Root(hash, leaves[..m]) == TreeHash(hash, leaves, 0, m)
  {
    TreeHashLocal(hash, leaves[..m], leaves, 0, m);
  }

  /** A range that reaches past the split point of a longer one is hashed from the same left subtree. */
  lemma TreeHashPastSplit(hash: Preimage -> Digest, leaves: seq<Leaf>, lo: nat, mid: nat, end: nat, hi: nat)
    requires lo + 2 <= hi <= |leaves| && mid == lo + Split(hi - lo) && mid < end <= hi
    ensures TreeHash(hash, leaves, lo, end) ==
            hash(Node(TreeHash(hash, leaves, lo, mid), TreeHash(hash, leaves, mid, end)))
  {
    SplitShared(end - lo, hi - lo);
  }

  // ----- Collisions

  datatype Collision = Collision(x: Preimage, y: Preimage)

  /** Two different inputs with the same digest. */
  predicate Genuine(hash: Preimage -> Digest, c: Collision) {
    c.x != c.y && hash(c.x) == hash(c.y)
  }

  ghost predicate Agree(a: seq<Leaf>, b: seq<Leaf>, lo: nat, hi: nat)
    requires lo <= hi <= |a| && hi <= |b|
  {
    forall i :: lo <= i < hi ==> a[i] == b[i]
  }

  /** Where two leaf sequences disagree in a range, the pair of inputs at which their hashes meet. */
  ghost function TreeCollision(hash: Preimage -> Digest, a: seq<Leaf>, b: seq<Leaf>, lo: nat, hi: nat): Collision
    requires lo <= hi <= |a| && hi <= |b|
    decreases hi - lo
  {
    if lo == hi then Collision(Nothing, Nothing)
    else if lo + 1 == hi then Collision(OneLeaf(a[lo]), OneLeaf(b[lo]))
    else
      var mid := lo + Split(hi - lo);
      var x := Node(TreeHash(hash, a, lo, mid), TreeHash(hash, a, mid, hi));
      var y := Node(TreeHash(hash, b, lo, mid), TreeHash(hash, b, mid, hi));
      if x != y then Collision(x, y)
      else if !Agree(a, b, lo, mid) then TreeCollision(hash, a, b, lo, mid)
      else TreeCollision(hash, a, b, mid, hi)
  }

  /** A root together with its size commits to the leaves. */
  lemma {:induction false} RootBindsLeaves(hash: Preimage -> Digest, a: seq<Leaf>, b: seq<Leaf>, lo: nat, hi: nat)
    requires lo <= hi <= |a| && hi <= |b|
    requires TreeHash(hash, a, lo, hi) == TreeHash(hash, b, lo, hi)
    ensures Agree(a, b, lo, hi) || Genuine(hash, TreeCollision(hash, a, b, lo, hi))
    decreases hi - lo
  {
    if hi - lo >= 2 {
      var mid := lo + Split(hi - lo);
      var x := Node(TreeHash(hash, a, lo, mid), TreeHash(hash, a, mid, hi));
      var y := Node(TreeHash(hash, b, lo, mid), TreeHash(hash, b, mid, hi));
      assert hash(x) == hash(y);
      if x == y {
        if Agree(a, b, lo, mid) {
          RootBindsLeaves(hash, a, b, mid, hi);
        } else {
          RootBindsLeaves(hash, a, b, lo, mid);
        }
      }
    }
  }

  // ----- The verifier

  /** What walking one subtree yields: both recomputed roots and the cursor behind the last element taken. */
  datatype Walk = Walk(oldHash: Digest, newHash: Digest, next: nat)

  /** One level up: the next proof element is the sibling of the subtree just walked. */
  function Climb(hash: Preimage -> Digest, inner: Option<Walk>, fromLeft: bool, proof: seq<Digest>): (r: Option<Walk>)
    ensures r.Some? <==> inner.Some? && inner.value.next < |proof|
    ensures r.Some? ==> r.value.next == inner.value.next + 1
  {
    if inner.None? || inner.value.next >= |proof| then None
    else
      var w, sibling := inner.value, proof[inner.value.next];
      if fromLeft then Some(Walk(w.oldHash, hash(Node(w.newHash, sibling)), w.next + 1))
      else Some(Walk(hash(Node(sibling, w.oldHash)), hash(Node(sibling, w.newHash)), w.next + 1))
  }

  ghost function WalkProof(hash: Preimage -> Digest, oldRoot: Digest, m: nat, n: nat, leftmost: bool,
                           proof: seq<Digest>, index: nat): (r: Option<Walk>)
    requires 0 < m <= n
    decreases n
  {
    if m == n then
      if leftmost then Some(Walk(oldRoot, oldRoot, index))
      else if index >= |proof| then None
      else Some(Walk(proof[index], proof[index], index + 1))
    else
      var k := Split(n);
      if m <= k then Climb(hash, WalkProof(hash, oldRoot, m, k, leftmost, proof, index), true, proof)
      else Climb(hash, WalkProof(hash, oldRoot, m - k, n - k, false, proof, index), false, proof)
  }

  ghost predicate Consistent(hash: Preimage -> Digest, oldSize: nat, newSize: nat, oldRoot: Digest, newRoot: Digest,
                             proof: seq<Digest>)
  {
    if oldSize == newSize then proof == [] && oldRoot == newRoot
    else if oldSize == 0 then true
    else if oldSize > newSize || proof == [] then false
    else WalkProof(hash, oldRoot, oldSize, newSize, true, proof, 0) == Some(Walk(oldRoot, newRoot, |proof|))
  }

  /** The recursive closure of the verifier; `index` is the cursor it shares with its caller. */
  method VerifySubtree(hash: Preimage -> Digest, oldRoot: Digest, proof: seq<Digest>, oldCount: nat, newCount: nat,
                       leftmost: bool, index: nat)
    returns (oldHash: Digest, newHash: Digest, ok: bool, next: nat)
    requires 0 < oldCount <= newCount <= TWO_TO_THE_63
    ensures WalkProof(hash, oldRoot, oldCount, newCount, leftmost, proof, index) ==
            if ok then Some(Walk(oldHash, newHash, next)) else None
    decreases newCount
  {
    oldHash, newHash, ok, next := oldRoot, oldRoot, false, index;
    if oldCount == newCount {
      if leftmost {
        return oldRoot, oldRoot, true, index;
      }
      if index >= |proof| {
        return;
      }
      return proof[index], proof[index], true, index + 1;
    }
    var k := LargestPowerOfTwoLessThan(newCount);
    if oldCount <= k {
      oldHash, newHash, ok, next := VerifySubtree(hash, oldRoot, proof, oldCount, k, leftmost, index);
      if !ok || next >= |proof| {
        ok := false;
        return;
      }
      newHash, next := hash(Node(newHash, proof[next])), next + 1;
      return;
    }
    oldHash, newHash, ok, next := VerifySubtree(hash, oldRoot, proof, oldCount - k, newCount - k, false, index);
    if !ok || next >= |proof| {
      ok := false;
      return;
    }
    oldHash, newHash, next := hash(Node(proof[next], oldHash)), hash(Node(proof[next], newHash)), next + 1;
  }

  method VerifyConsistency(hash: Preimage -> Digest, oldSize: nat, newSize: nat, oldRoot: Digest, newRoot: Digest,
                           proof: seq<Digest>)
    returns (ok: bool)
    requires newSize <= TWO_TO_THE_63
    ensures ok == Consistent(hash, oldSize, newSize, oldRoot, newRoot, proof)
  {
    if oldSize == newSize {
      return |proof| == 0 && oldRoot == newRoot;
    }
    if oldSize == 0 {
      return true;
    }
    if oldSize > newSize || |proof| == 0 {
      return false;
    }
    var computedOld, computedNew, walked, index := VerifySubtree(hash, oldRoot, proof, oldSize, newSize, true, 0);
    ok := walked && index == |proof| && computedOld == oldRoot && computedNew == newRoot;
  }

  // ----- Soundness

  /** The first node at which an accepted proof and the real tree disagree while hashing alike. */
  ghost function WalkCollision(hash: Preimage -> Digest, oldRoot: Digest, leftmost: bool, proof: seq<Digest>,
                               index: nat, leaves: seq<Leaf>, lo: nat, end: nat, hi: nat): Collision
    requires lo < end <= hi <= |leaves|
    decreases hi - lo
  {
    if end == hi then Collision(Nothing, Nothing)
    else
      var mid := lo + Split(hi - lo);
      var fromLeft := end <= mid;
      var inner := if fromLeft then WalkProof(hash, oldRoot, end - lo, mid - lo, leftmost, proof, index)
                   else WalkProof(hash, oldRoot, end - mid, hi - mid, false, proof, index);
      if inner.None? || inner.value.next >= |proof| then Collision(Nothing, Nothing)
      else
        var w, sibling := inner.value, proof[inner.value.next];
        var actual := Node(TreeHash(hash, leaves, lo, mid), TreeHash(hash, leaves, mid, hi));
        var claimed := if fromLeft then Node(w.newHash, sibling) else Node(sibling, w.newHash);
        if claimed != actual then Collision(claimed, actual)
        else if fromLeft then WalkCollision(hash, oldRoot, leftmost, proof, index, leaves, lo, end, mid)
        else WalkCollision(hash, oldRoot, false, proof, index, leaves, mid, end, hi)
  }

  /**
    If walking a proof reproduces the root of a subtree, its other result is the root of that subtree's prefix, or
    a collision has been met on the way.
  */
  ghost predicate WalkIsSound(hash: Preimage -> Digest, oldRoot: Digest, leftmost: bool, proof: seq<Digest>,
                              index: nat, leaves: seq<Leaf>, lo: nat, end: nat, hi: nat)
    requires lo < end <= hi <= |leaves|
  {
    var w := WalkProof(hash, oldRoot, end - lo, hi - lo, leftmost, proof, index);
    w.Some? && w.value.newHash == TreeHash(hash, leaves, lo, hi) ==>
      w.value.oldHash == TreeHash(hash, leaves, lo, end) ||
      Genuine(hash, WalkCollision(hash, oldRoot, leftmost, proof, index, leaves, lo, end, hi))
  }

  lemma WalkSoundLeft(hash: Preimage -> Digest, oldRoot: Digest, leftmost: bool, proof: seq<Digest>,
                      index: nat, leaves: seq<Leaf>, lo: nat, end: nat, mid: nat, hi: nat)
    requires lo < end <= mid < hi <= |leaves| && mid == lo + Split(hi - lo)
    requires WalkIsSound(hash, oldRoot, leftmost, proof, index, leaves, lo, end, mid)
    ensures WalkIsSound(hash, oldRoot, leftmost, proof, index, leaves, lo, end, hi)
  {
  }

  lemma WalkSoundRight(hash: Preimage -> Digest, oldRoot: Digest, leftmost: bool, proof: seq<Digest>,
                       index: nat, leaves: seq<Leaf>, lo: nat, mid: nat, end: nat, hi: nat)
    requires lo < mid < end < hi <= |leaves| && mid == lo + Split(hi - lo)
    requires WalkIsSound(hash, oldRoot, false, proof, index, leaves, mid, end, hi)
    ensures WalkIsSound(hash, oldRoot, leftmost, proof, index, leaves, lo, end, hi)
  {
    var inner := WalkProof(hash, oldRoot, end - mid, hi - mid, false, proof, index);
    var w := WalkProof(hash, oldRoot, end - lo, hi - lo, leftmost, proof, index);
    assert w == Climb(hash, inner, false, proof);
    if w.Some? && w.value.newHash == TreeHash(hash, leaves, lo, hi) {
      var claimed := Node(proof[inner.value.next], inner.value.newHash);
      var actual := Node(TreeHash(hash, leaves, lo, mid), TreeHash(hash, leaves, mid, hi));
      assert hash(claimed) == hash(actual);
      if claimed == actual {
        TreeHashPastSplit(hash, leaves, lo, mid, end, hi);
      }
    }
  }

  lemma {:induction false} WalkSound(hash: Preimage -> Digest, oldRoot: Digest, leftmost: bool, proof: seq<Digest>,
                                     index: nat, leaves: seq<Leaf>, lo: nat, end: nat, hi: nat)
    requires lo < end <= hi <= |leaves|
    ensures WalkIsSound(hash, oldRoot, leftmost, proof, index, leaves, lo, end, hi)
    decreases hi - lo
  {
    if end < hi {
      var mid := lo + Split(hi - lo);
      if end <= mid {
        WalkSound(hash, oldRoot, leftmost, proof, index, leaves, lo, end, mid);
        WalkSoundLeft(hash, oldRoot, leftmost, proof, index, leaves, lo, end, mid, hi);
      } else {
        WalkSound(hash, oldRoot, false, proof, index, leaves, mid, end, hi);
        WalkSoundRight(hash, oldRoot, leftmost, proof, index, leaves, lo, mid, end, hi);
      }
    }
  }

  /**
    Soundness: if the verifier accepts, then the old root is the root of the first `oldSize` leaves of every leaf
    sequence behind the new root, or a digest collision has been computed.
  */
  lemma ConsistencySound(hash: Preimage -> Digest, oldSize: nat, oldRoot: Digest, newRoot: Digest,
                         proof: seq<Digest>, leaves: seq<Leaf>)
    requires 0 < oldSize <= |leaves|
    requires Root(hash, leaves) == newRoot
    requires Consistent(hash, oldSize, |leaves|, oldRoot, newRoot, proof)
    ensures oldRoot == Root(hash, leaves[..oldSize]) ||
            Genuine(hash, WalkCollision(hash, oldRoot, true, proof, 0, leaves, 0, oldSize, |leaves|))
  {
    PrefixRoot(hash, leaves, oldSize);
    if oldSize < |leaves| {
      WalkSound(hash, oldRoot, true, proof, 0, leaves, 0, oldSize, |leaves|);
    }
  }

  // ----- Completeness and proof length

  /** SUBPROOF of section 2.1.2 of RFC 6962, for the prefix `lo..end` of `leaves[lo..hi]`. */
  ghost function SubProof(hash: Preimage -> Digest, leaves: seq<Leaf>, lo: nat, end: nat, hi: nat, complete: bool):
    (p: seq<Digest>)
    requires lo < end <= hi <= |leaves|
    decreases hi - lo
  {
    if end == hi then if complete then [] else [TreeHash(hash, leaves, lo, hi)]
    else
      var mid := lo + Split(hi - lo);
      if end <= mid then SubProof(hash, leaves, lo, end, mid, complete) + [TreeHash(hash, leaves, mid, hi)]
      else SubProof(hash, leaves, mid, end, hi, false) + [TreeHash(hash, leaves, lo, mid)]
  }

  ghost function ProofLength(m: nat, n: nat, complete: bool): nat
    requires 0 < m <= n
    decreases n
  {
    if m == n then if complete then 0 else 1
    else
      var k := Split(n);
      1 + if m <= k then ProofLength(m, k, complete) else ProofLength(m - k, n - k, false)
  }

  /** `proof[from..to]` is that SUBPROOF, read in place. */
  ghost predicate Stands(hash: Preimage -> Digest, leaves: seq<Leaf>, lo: nat, end: nat, hi: nat, complete: bool,
                         proof: seq<Digest>, from: nat, to: nat)
    requires lo < end <= hi <= |leaves|
    decreases hi - lo
  {
    if end == hi then
      if complete then from == to else to == from + 1 <= |proof| && proof[from] == TreeHash(hash, leaves, lo, hi)
    else
      var mid := lo + Split(hi - lo);
      from < to <= |proof| &&
      if end <= mid then
        proof[to - 1] == TreeHash(hash, leaves, mid, hi) &&
        Stands(hash, leaves, lo, end, mid, complete, proof, from, to - 1)
      else
        proof[to - 1] == TreeHash(hash, leaves, lo, mid) &&
        Stands(hash, leaves, mid, end, hi, false, proof, from, to - 1)
  }

  lemma {:induction false} StandsFrame(hash: Preimage -> Digest, leaves: seq<Leaf>, lo: nat, end: nat, hi: nat,
                                       complete: bool, a: seq<Digest>, b: seq<Digest>, from: nat, to: nat)
    requires lo < end <= hi <= |leaves|
    requires to <= |a| && to <= |b| && forall i :: 0 <= i < to ==> a[i] == b[i]
    requires Stands(hash, leaves, lo, end, hi, complete, a, from, to)
    ensures Stands(hash, leaves, lo, end, hi, complete, b, from, to)
    decreases hi - lo
  {
    if end < hi {
      var mid := lo + Split(hi - lo);
      if end <= mid {
        StandsFrame(hash, leaves, lo, end, mid, complete, a, b, from, to - 1);
      } else {
        StandsFrame(hash, leaves, mid, end, hi, false, a, b, from, to - 1);
      }
    }
  }

  lemma {:induction false} SubProofStands(hash: Preimage -> Digest, leaves: seq<Leaf>, lo: nat, end: nat, hi: nat,
                                          complete: bool)
    requires lo < end <= hi <= |leaves|
    ensures var p := SubProof(hash, leaves, lo, end, hi, complete);
            Stands(hash, leaves, lo, end, hi, complete, p, 0, |p|)
    decreases hi - lo
  {
    if end < hi {
      var mid := lo + Split(hi - lo);
      var p := SubProof(hash, leaves, lo, end, hi, complete);
      if end <= mid {
        var q := SubProof(hash, leaves, lo, end, mid, complete);
        SubProofStands(hash, leaves, lo, end, mid, complete);
        StandsFrame(hash, leaves, lo, end, mid, complete, q, p, 0, |q|);
      } else {
        var q := SubProof(hash, leaves, mid, end, hi, false);
        SubProofStands(hash, leaves, mid, end, hi, false);
        StandsFrame(hash, leaves, mid, end, hi, false, q, p, 0, |q|);
      }
    }
  }

  /** One level of the walk, with the sibling on the right, which only the newer tree has. */
  lemma WalkUpLeft(hash: Preimage -> Digest, oldRoot: Digest, m: nat, n: nat, leftmost: bool, proof: seq<Digest>,
                   index: nat, w: Walk)
    requires 2 <= n && 0 < m <= Split(n) && w.next < |proof|
    requires WalkProof(hash, oldRoot, m, Split(n), leftmost, proof, index) == Some(w)
    ensures WalkProof(hash, oldRoot, m, n, leftmost, proof, index) ==
            Some(Walk(w.oldHash, hash(Node(w.newHash, proof[w.next])), w.next + 1))
  {
  }

  /** One level of the walk, with the sibling on the left, which both trees have. */
  lemma WalkUpRight(hash: Preimage -> Digest, oldRoot: Digest, m: nat, n: nat, leftmost: bool, proof: seq<Digest>,
                    index: nat, w: Walk)
    requires 2 <= n && Split(n) < m < n && w.next < |proof|
    requires WalkProof(hash, oldRoot, m - Split(n), n - Split(n), false, proof, index) == Some(w)
    ensures WalkProof(hash, oldRoot, m, n, leftmost, proof, index) ==
            Some(Walk(hash(Node(proof[w.next], w.oldHash)), hash(Node(proof[w.next], w.newHash)), w.next + 1))
  {
  }

  /** What walking the honest proof for a range must yield. */
  ghost predicate Walks(hash: Preimage -> Digest, oldRoot: Digest, leftmost: bool, proof: seq<Digest>,
                        from: nat, to: nat, leaves: seq<Leaf>, lo: nat, end: nat, hi: nat)
    requires lo < end <= hi <= |leaves|
  {
    WalkProof(hash, oldRoot, end - lo, hi - lo, leftmost, proof, from) ==
    Some(Walk(TreeHash(hash, leaves, lo, end), TreeHash(hash, leaves, lo, hi), to))
  }

  lemma WalksLeft(hash: Preimage -> Digest, oldRoot: Digest, leftmost: bool, proof: seq<Digest>, from: nat, to: nat,
                  leaves: seq<Leaf>, lo: nat, mid: nat, end: nat, hi: nat)
    requires lo < end <= mid < hi <= |leaves| && mid == lo + Split(hi - lo) && 0 < to <= |proof|
    requires proof[to - 1] == TreeHash(hash, leaves, mid, hi)
    requires Walks(hash, oldRoot, leftmost, proof, from, to - 1, leaves, lo, end, mid)
    ensures Walks(hash, oldRoot, leftmost, proof, from, to, leaves, lo, end, hi)
  {
    var w := Walk(TreeHash(hash, leaves, lo, end), TreeHash(hash, leaves, lo, mid), to - 1);
    WalkUpLeft(hash, oldRoot, end - lo, hi - lo, leftmost, proof, from, w);
    TreeHashPastSplit(hash, leaves, lo, mid, hi, hi);
  }

  lemma WalksRight(hash: Preimage -> Digest, oldRoot: Digest, leftmost: bool, proof: seq<Digest>, from: nat, to: nat,
                   leaves: seq<Leaf>, lo: nat, mid: nat, end: nat, hi: nat)
    requires lo < mid < end < hi <= |leaves| && mid == lo + Split(hi - lo) && 0 < to <= |proof|
    requires proof[to - 1] == TreeHash(hash, leaves, lo, mid)
    requires Walks(hash, oldRoot, false, proof, from, to - 1, leaves, mid, end, hi)
    ensures Walks(hash, oldRoot, leftmost, proof, from, to, leaves, lo, end, hi)
  {
    var sibling := TreeHash(hash, leaves, lo, mid);
    var a, b := TreeHash(hash, leaves, mid, end), TreeHash(hash, leaves, mid, hi);
    assert TreeHash(hash, leaves, lo, end) == hash(Node(sibling, a)) by {
      TreeHashPastSplit(hash, leaves, lo, mid, end, hi);
    }
    assert TreeHash(hash, leaves, lo, hi) == hash(Node(sibling, b)) by {
      TreeHashPastSplit(hash, leaves, lo, mid, hi, hi);
    }
    assert WalkProof(hash, oldRoot, end - lo, hi - lo, leftmost, proof, from) ==
           Some(Walk(hash(Node(sibling, a)), hash(Node(sibling, b)), to)) by {
      assert end - lo - Split(hi - lo) == end - mid && hi - lo - Split(hi - lo) == hi - mid;
      WalkUpRight(hash, oldRoot, end - lo, hi - lo, leftmost, proof, from, Walk(a, b, to - 1));
    }
  }

  /** Walking the honest proof recomputes both roots and takes exactly that proof. */
  lemma {:induction false} WalkComplete(hash: Preimage -> Digest, oldRoot: Digest, leftmost: bool, proof: seq<Digest>,
                                        from: nat, to: nat, leaves: seq<Leaf>, lo: nat, end: nat, hi: nat)
    requires lo < end <= hi <= |leaves|
    requires leftmost ==> oldRoot == TreeHash(hash, leaves, lo, end)
    requires Stands(hash, leaves, lo, end, hi, leftmost, proof, from, to)
    ensures Walks(hash, oldRoot, leftmost, proof, from, to, leaves, lo, end, hi)
    decreases hi - lo
  {
    if end < hi {
      var mid := lo + Split(hi - lo);
      if end <= mid {
        WalkComplete(hash, oldRoot, leftmost, proof, from, to - 1, leaves, lo, end, mid);
        WalksLeft(hash, oldRoot, leftmost, proof, from, to, leaves, lo, mid, end, hi);
      } else {
        WalkComplete(hash, oldRoot, false, proof, from, to - 1, leaves, mid, end, hi);
        WalksRight(hash, oldRoot, leftmost, proof, from, to, leaves, lo, mid, end, hi);
      }
    }
  }

  /** Completeness: the proof RFC 6962 prescribes is accepted, all of it consumed. */
  lemma ConsistencyComplete(hash: Preimage -> Digest, m: nat, leaves: seq<Leaf>)
    requires 0 < m < |leaves|
    ensures Consistent(hash, m, |leaves|, Root(hash, leaves[..m]), Root(hash, leaves),
                       SubProof(hash, leaves, 0, m, |leaves|, true))
  {
    var p := SubProof(hash, leaves, 0, m, |leaves|, true);
    PrefixRoot(hash, leaves, m);
    SubProofStands(hash, leaves, 0, m, |leaves|, true);
    WalkComplete(hash, Root(hash, leaves[..m]), true, p, 0, |p|, leaves, 0, m, |leaves|);
  }

  /** A walk that succeeds takes a number of elements fixed by the two sizes alone. */
  lemma {:induction false} WalkUses(hash: Preimage -> Digest, oldRoot: Digest, m: nat, n: nat, leftmost: bool,
                                    proof: seq<Digest>, index: nat)
    requires 0 < m <= n && index <= |proof|
    ensures var w := WalkProof(hash, oldRoot, m, n, leftmost, proof, index);
            var end := index + ProofLength(m, n, leftmost);
            if end <= |proof| then w.Some? && w.value.next == end else w.None?
    decreases n
  {
    if m < n {
      var k := Split(n);
      if m <= k {
        WalkUses(hash, oldRoot, m, k, leftmost, proof, index);
      } else {
        WalkUses(hash, oldRoot, m - k, n - k, false, proof, index);
      }
    }
  }

  lemma {:induction false} ProofLengthBound(m: nat, n: nat, complete: bool, e: nat)
    requires 0 < m <= n <= Pow2(e)
    ensures ProofLength(m, n, complete) <= e + 1
    decreases n
  {
    if m < n {
      var k := Split(n);
      SplitIsPow2(n);
      var a: nat :| k == Pow2(a);
      if a >= e {
        if e < a { Pow2Monotone(e, a); }
        assert false;
      }
      if a < e - 1 { Pow2Monotone(a, e - 1); }
      if m <= k {
        ProofLengthBound(m, k, complete, e - 1);
      } else {
        ProofLengthBound(m - k, n - k, false, e - 1);
      }
    }
  }

  /**
    Every proof the verifier accepts for tree sizes a head may carry has at most 54 elements, whoever built it, so
    the limit of 64 elements never turns an acceptable proof away.
  */
  lemma AcceptedProofIsShort(hash: Preimage -> Digest, oldSize: nat, newSize: nat, oldRoot: Digest, newRoot: Digest,
                             proof: seq<Digest>)
    requires 0 < oldSize <= newSize <= MAX_SAFE_INTEGER
    requires Consistent(hash, oldSize, newSize, oldRoot, newRoot, proof)
    ensures |proof| <= 54
    ensures oldSize < newSize ==> |proof| == ProofLength(oldSize, newSize, true)
  {
    if oldSize < newSize {
      WalkUses(hash, oldRoot, oldSize, newSize, true, proof, 0);
      Pow2Values();
      ProofLengthBound(oldSize, newSize, true, 53);
    }
  }
}
