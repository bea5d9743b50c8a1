/** Merkle inclusion as the checker recomputes it and as the fixture producer
    builds it (sections 2.1 and 2.1.1 of RFC 6962). */
module Merkle {
  import opened Basics

  // ----- The split point -----

  /** Doubling from `p` until the next doubling would reach `n`. */
  function DoubleUpTo(p: int, n: int): (r: int)
    requires 0 < p < n
    ensures p <= r < n <= 2 * r
    decreases n - p
  {
    if 2 * p < n then DoubleUpTo(2 * p, n) else p
  }

  function Split(n: int): (s: int)
    requires 2 <= n
    ensures 0 < s < n <= 2 * s
  {
    DoubleUpTo(1, n)
  }

  function Pow2(k: nat): (r: int)
    ensures r > 0
  {
    if k == 0 then 1 else 2 * Pow2(k - 1)
  }

  lemma {:induction false} DoubleUpToIsPow2(k: nat, n: int) returns (j: nat)
    requires Pow2(k) < n
    ensures DoubleUpTo(Pow2(k), n) == Pow2(j)
    decreases n - Pow2(k)
  {
    if Pow2(k + 1) < n {
      j := DoubleUpToIsPow2(k + 1, n);
    } else {
      j := k;
    }
  }

  lemma {:induction false} Pow2Monotone(i: nat, j: nat)
    requires i <= j
    ensures Pow2(i) <= Pow2(j)
    ensures i < j ==> 2 * Pow2(i) <= Pow2(j)
  {
    if i < j {
      Pow2Monotone(i, j - 1);
    }
  }

  /** The split is the only power of two `s` with s < n <= 2s. */
  lemma SplitIsLargestPowerOfTwoBelow(n: int, k: nat)
    requires 2 <= n
    ensures Split(n) == Pow2(k) <==> Pow2(k) < n <= 2 * Pow2(k)
  {
    assert Pow2(0) == 1;
    var j := DoubleUpToIsPow2(0, n);
    if Pow2(k) < n <= 2 * Pow2(k) {
      if j < k {
        Pow2Monotone(j, k);
      } else if k < j {
        Pow2Monotone(k, j);
      }
    }
  }

  /** The checker's loop on 64-bit integers. The shift in the guard is a wrapping
      doubling; 2^62 is the exact bound below which it never wraps. */
  method LargestPowerOfTwoLessThan(n: int) returns (p: int)
    requires 2 <= n <= TWO_62
    ensures p == Split(n)
  {
    p := 1;
    while Wrap64(2 * p) < n
      invariant 0 < p < n
      invariant DoubleUpTo(p, n) == Split(n)
      decreases n - p
    {
      p := Wrap64(2 * p);
    }
  }

  /** The value of `p` after `k` iterations of that loop, with no guard. */
  function DoublingIterate(k: nat): int {
    if k == 0 then 1 else Wrap64(2 * DoublingIterate(k - 1))
  }

  lemma WrapDouble(x: int)
    ensures Wrap64(2 * Wrap64(x)) == Wrap64(2 * x)
  {
    var q := (x + TWO_63) / TWO_64;
    assert Wrap64(x) == x - q * TWO_64;
    assert 2 * Wrap64(x) + TWO_63 == 2 * x + TWO_63 - 2 * q * TWO_64;
  }

  lemma {:induction false} IterateIsWrappedPower(k: nat)
    ensures DoublingIterate(k) == Wrap64(Pow2(k))
  {
    if k > 0 {
      IterateIsWrappedPower(k - 1);
      WrapDouble(Pow2(k - 1));
    }
  }

  lemma {:induction false} Pow2Sum(i: nat, j: nat)
    ensures Pow2(i + j) == Pow2(i) * Pow2(j)
  {
    if j > 0 {
      Pow2Sum(i, j - 1);
      assert Pow2(i + j) == 2 * Pow2(i + (j - 1));
    }
  }

  const TWO_62: int := 0x4000_0000_0000_0000

  lemma ExponentOfTwo62() returns (c: nat)
    ensures c > 0 && Pow2(c) == TWO_62
  {
    var b: nat :| b == 31;
    assert Pow2(10) == 0x400;
    assert Pow2(20) == 0x10_0000;
    assert Pow2(31) == 0x8000_0000;
    Pow2Sum(b, b);
    c := b + b;
  }

  /** A multiple of 2^63 truncates to zero or to the least 64-bit integer. */
  lemma WrapOfTopBit(m: int)
    ensures Wrap64(TWO_63 * m) == 0 || Wrap64(TWO_63 * m) == -TWO_63
  {
    var q := m / 2;
    assert m == 2 * q || m == 2 * q + 1;
    assert TWO_63 * m == q * TWO_64 || TWO_63 * m == q * TWO_64 + TWO_63;
  }

  /** The loop guard at iteration `k`. */
  predicate GuardHolds(k: nat, n: int) {
    Wrap64(2 * DoublingIterate(k)) < n
  }

  lemma GuardByPower(k: nat, n: int)
    ensures GuardHolds(k, n) <==> Wrap64(Pow2(k + 1)) < n
  {
    IterateIsWrappedPower(k + 1);
  }

  /** Exactly when the checker's loop stops: some iterate fails the guard iff the
      tree size is at most 2^62. Beyond that the doubling wraps to zero and the
      guard holds for ever. */
  lemma DoublingLoopStopsIff(n: int)
    requires 2 <= n <= MAX_INT64
    ensures (exists k: nat :: !GuardHolds(k, n)) <==> n <= 0x4000_0000_0000_0000
  {
    var c := ExponentOfTwo62();
    if n <= TWO_62 {
      GuardByPower(c - 1, n);
      assert !GuardHolds(c - 1, n);
    } else {
      forall k: nat
        ensures GuardHolds(k, n)
      {
        GuardByPower(k, n);
        if k < c {
          Pow2Monotone(k + 1, c);
        } else {
          Pow2Sum(c, k - c);
          assert Pow2(k + 1) == TWO_63 * Pow2(k - c);
          WrapOfTopBit(Pow2(k - c));
        }
      }
    }
  }

  // ----- Hashing -----

  function LeafPreimage(raw: Bytes): Bytes {
    [0x00] + raw
  }

  function NodePreimage(left: Digest, right: Digest): Bytes {
    [0x01] + left + right
  }

  function LeafHash(sha: HashFn, raw: Bytes): Digest {
    sha(LeafPreimage(raw))
  }

  function NodeHash(sha: HashFn, left: Digest, right: Digest): Digest {
    sha(NodePreimage(left, right))
  }

  lemma NodePreimageInjective(l: Digest, r: Digest, l': Digest, r': Digest)
    requires NodePreimage(l, r) == NodePreimage(l', r')
    ensures l == l' && r == r'
  {
    var x, y := NodePreimage(l, r), NodePreimage(l', r');
    assert l == x[1..33] && l' == y[1..33];
    assert r == x[33..] && r' == y[33..];
  }

  // ----- The producer -----

  function MerkleRoot(sha: HashFn, leaves: seq<Digest>): Digest
    decreases |leaves|
  {
    if leaves == [] then sha([])
    else if |leaves| == 1 then leaves[0]
    else
      var s := Split(|leaves|);
      NodeHash(sha, MerkleRoot(sha, leaves[..s]), MerkleRoot(sha, leaves[s..]))
  }

  function MerkleProof(sha: HashFn, leaves: seq<Digest>, index: int): seq<Digest>
    requires 0 <= index < |leaves|
    decreases |leaves|
  {
    if |leaves| <= 1 then []
    else
      var s := Split(|leaves|);
      if index < s then
        MerkleProof(sha, leaves[..s], index) + [MerkleRoot(sha, leaves[s..])]
      else
        MerkleProof(sha, leaves[s..], index - s) + [MerkleRoot(sha, leaves[..s])]
  }

  // ----- The verifier -----

  datatype Recomputed = Recomputed(root: Digest, used: nat)

  function RootFromProofAt(sha: HashFn, leaf: Digest, index: int, size: int, proof: seq<Digest>): (r: Option<Recomputed>)
    requires 0 <= index < size
    decreases size
  {
    if size == 1 then Some(Recomputed(leaf, 0))
    else
      var s := Split(size);
      if index < s then
        match RootFromProofAt(sha, leaf, index, s, proof)
        case None => None
        case Some(Recomputed(left, used)) =>
          if used >= |proof| then None
          else Some(Recomputed(NodeHash(sha, left, proof[used]), used + 1))
      else
        match RootFromProofAt(sha, leaf, index - s, size - s, proof)
        case None => None
        case Some(Recomputed(right, used)) =>
          if used >= |proof| then None
          else Some(Recomputed(NodeHash(sha, proof[used], right), used + 1))
  }

  /** None is any of the verifier's errors: bad size, bad index, a missing
      sibling, or left-over nodes. */
  function RootFromProof(sha: HashFn, leaf: Digest, index: int, size: int, proof: seq<Digest>): (r: Option<Digest>) {
    if size <= 0 || index < 0 || index >= size then None
    else
      match RootFromProofAt(sha, leaf, index, size, proof)
      case None => None
      case Some(Recomputed(root, used)) => if used != |proof| then None else Some(root)
  }

  /** How many siblings lie on the path: a function of index and size only. */
  function PathLength(index: int, size: int): (d: nat)
    requires 0 <= index < size
    decreases size
  {
    if size == 1 then 0
    else if index < Split(size) then PathLength(index, Split(size)) + 1
    else PathLength(index - Split(size), size - Split(size)) + 1
  }

  /** Every byte string the verifier feeds to the hash while recomputing. */
  function PathPreimages(sha: HashFn, leaf: Digest, index: int, size: int, proof: seq<Digest>): (ps: set<Bytes>)
    requires 0 <= index < size
    decreases size
  {
    if size == 1 then {}
    else
      var s := Split(size);
      if index < s then
        PathPreimages(sha, leaf, index, s, proof) +
        match RootFromProofAt(sha, leaf, index, s, proof)
        case Some(Recomputed(left, used)) => if used < |proof| then {NodePreimage(left, proof[used])} else {}
        case None => {}
      else
        PathPreimages(sha, leaf, index - s, size - s, proof) +
        match RootFromProofAt(sha, leaf, index - s, size - s, proof)
        case Some(Recomputed(right, used)) => if used < |proof| then {NodePreimage(proof[used], right)} else {}
        case None => {}
  }

  // ----- Exactness -----

  /** Success depends only on having enough nodes, and consumes exactly the path. */
  lemma {:induction false} NodesUsed(sha: HashFn, leaf: Digest, index: int, size: int, proof: seq<Digest>)
    requires 0 <= index < size
    ensures RootFromProofAt(sha, leaf, index, size, proof).Some? <==> PathLength(index, size) <= |proof|
    ensures RootFromProofAt(sha, leaf, index, size, proof).Some? ==>
              RootFromProofAt(sha, leaf, index, size, proof).value.used == PathLength(index, size)
    decreases size
  {
    if size > 1 {
      var s := Split(size);
      if index < s {
        NodesUsed(sha, leaf, index, s, proof);
      } else {
        NodesUsed(sha, leaf, index - s, size - s, proof);
      }
    }
  }

  /** At most ceil(log2 size) nodes are ever consumed. */
  lemma {:induction false} PathLengthLogarithmic(index: int, size: int, k: nat)
    requires 0 <= index < size <= Pow2(k)
    ensures PathLength(index, size) <= k
    decreases size
  {
    if size > 1 {
      var s := Split(size);
      var j := DoubleUpToIsPow2(0, size);
      assert s == Pow2(j) && k > 0;
      if k <= j {
        Pow2Monotone(k, j);
      }
      Pow2Monotone(j, k - 1);
      if index < s {
        PathLengthLogarithmic(index, s, k - 1);
      } else {
        PathLengthLogarithmic(index - s, size - s, k - 1);
      }
    }
  }

  /** The hashed bytes at the top of a path, from the recomputed child. */
  function TopPreimage(index: int, size: int, child: Digest, sibling: Digest): Bytes
    requires 0 <= index < size && 1 < size
  {
    if index < Split(size) then NodePreimage(child, sibling) else NodePreimage(sibling, child)
  }

  /** One step of the recursion, with both branches in one form. */
  lemma UnfoldPath(sha: HashFn, leaf: Digest, index: int, size: int, proof: seq<Digest>) returns (i: int, n: int)
    requires 0 <= index < size && 1 < size
    requires RootFromProofAt(sha, leaf, index, size, proof).Some?
    ensures (i, n) == if index < Split(size) then (index, Split(size)) else (index - Split(size), size - Split(size))
    ensures 0 <= i < n < size && PathLength(index, size) == PathLength(i, n) + 1 <= |proof|
    ensures RootFromProofAt(sha, leaf, i, n, proof).Some?
    ensures var child := RootFromProofAt(sha, leaf, i, n, proof).value.root;
            var top := TopPreimage(index, size, child, proof[PathLength(i, n)]);
            && RootFromProofAt(sha, leaf, index, size, proof).value.root == sha(top)
            && PathPreimages(sha, leaf, index, size, proof) == PathPreimages(sha, leaf, i, n, proof) + {top}
  {
    NodesUsed(sha, leaf, index, size, proof);
    var s := Split(size);
    i, n := if index < s then index else index - s, if index < s then s else size - s;
    NodesUsed(sha, leaf, i, n, proof);
  }

  lemma TopPreimageInjective(index: int, size: int, c: Digest, s: Digest, c': Digest, s': Digest)
    requires 0 <= index < size && 1 < size
    requires TopPreimage(index, size, c, s) == TopPreimage(index, size, c', s')
    ensures c == c' && s == s'
  {
    if index < Split(size) {
      NodePreimageInjective(c, s, c', s');
    } else {
      NodePreimageInjective(s, c, s', c');
    }
  }

  /** Binding without an honest tree: under one index and size, two proofs that
      recompute to one root agree on the leaf and on every consumed node, or two
      of the byte strings they hashed collide. */
  lemma {:induction false} SameRootSameLeaf(sha: HashFn, index: int, size: int,
                         leaf: Digest, proof: seq<Digest>, leaf': Digest, proof': seq<Digest>)
    requires 0 <= index < size
    requires RootFromProofAt(sha, leaf, index, size, proof).Some?
    requires RootFromProofAt(sha, leaf', index, size, proof').Some?
    requires RootFromProofAt(sha, leaf, index, size, proof).value.root == RootFromProofAt(sha, leaf', index, size, proof').value.root
    ensures PathLength(index, size) <= |proof| && PathLength(index, size) <= |proof'|
    ensures || (leaf == leaf' && proof[..PathLength(index, size)] == proof'[..PathLength(index, size)])
            || CollisionBetween(sha, PathPreimages(sha, leaf, index, size, proof), PathPreimages(sha, leaf', index, size, proof'))
    decreases size
  {
    if size == 1 {
      return;
    }
    var i, n := UnfoldPath(sha, leaf, index, size, proof);
    var _, _ := UnfoldPath(sha, leaf', index, size, proof');
    var d := PathLength(i, n);
    var child, child' := RootFromProofAt(sha, leaf, i, n, proof).value.root, RootFromProofAt(sha, leaf', i, n, proof').value.root;
    var x, y := TopPreimage(index, size, child, proof[d]), TopPreimage(index, size, child', proof'[d]);
    var xs, ys := PathPreimages(sha, leaf, index, size, proof), PathPreimages(sha, leaf', index, size, proof');
    if x != y {
      assert x in xs && y in ys && sha(x) == sha(y);
    } else {
      TopPreimageInjective(index, size, child, proof[d], child', proof'[d]);
      SameRootSameLeaf(sha, i, n, leaf, proof, leaf', proof');
      if CollisionBetween(sha, PathPreimages(sha, leaf, i, n, proof), PathPreimages(sha, leaf', i, n, proof')) {
        CollisionMonotone(sha, PathPreimages(sha, leaf, i, n, proof), PathPreimages(sha, leaf', i, n, proof'), xs, ys);
      } else {
        ExtendPrefix(proof, proof', d);
      }
    }
  }

  lemma ExtendPrefix(p: seq<Digest>, q: seq<Digest>, d: nat)
    requires d < |p| && d < |q| && p[..d] == q[..d] && p[d] == q[d]
    ensures p[..d + 1] == q[..d + 1]
  {
    assert p[..d + 1] == p[..d] + [p[d]] && q[..d + 1] == q[..d] + [q[d]];
  }

  /** The verifier reads only the nodes it consumes. */
  lemma {:induction false} ExtraNodesIgnored(sha: HashFn, leaf: Digest, index: int, size: int, proof: seq<Digest>, extra: seq<Digest>)
    requires 0 <= index < size
    requires RootFromProofAt(sha, leaf, index, size, proof).Some?
    ensures RootFromProofAt(sha, leaf, index, size, proof + extra) == RootFromProofAt(sha, leaf, index, size, proof)
    decreases size
  {
    if size > 1 {
      var s := Split(size);
      if index < s {
        ExtraNodesIgnored(sha, leaf, index, s, proof, extra);
      } else {
        ExtraNodesIgnored(sha, leaf, index - s, size - s, proof, extra);
      }
    }
  }

  /** One level up: a proof accepted in a half, extended by the other half's
      root, is accepted in the whole. */
  lemma ExtendAccepted(sha: HashFn, leaf: Digest, index: int, size: int, proof: seq<Digest>, sibling: Digest)
    requires 0 <= index < size && 1 < size
    requires var (i, n) := if index < Split(size) then (index, Split(size)) else (index - Split(size), size - Split(size));
             RootFromProofAt(sha, leaf, i, n, proof).Some? && RootFromProofAt(sha, leaf, i, n, proof).value.used == |proof|
    ensures var (i, n) := if index < Split(size) then (index, Split(size)) else (index - Split(size), size - Split(size));
            var child := RootFromProofAt(sha, leaf, i, n, proof).value.root;
            RootFromProofAt(sha, leaf, index, size, proof + [sibling])
            == Some(Recomputed(sha(TopPreimage(index, size, child, sibling)), |proof| + 1))
  {
    var s := Split(size);
    if index < s {
      ExtraNodesIgnored(sha, leaf, index, s, proof, [sibling]);
    } else {
      ExtraNodesIgnored(sha, leaf, index - s, size - s, proof, [sibling]);
    }
  }

  /** The half of the tree that holds `index`, and the root of the other half. */
  lemma UnfoldHonest(sha: HashFn, leaves: seq<Digest>, index: int) returns (half: seq<Digest>, i: int, sibling: Digest)
    requires 0 <= index < |leaves| && 1 < |leaves|
    ensures (i, |half|) == if index < Split(|leaves|) then (index, Split(|leaves|)) else (index - Split(|leaves|), |leaves| - Split(|leaves|))
    ensures 0 <= i < |half| < |leaves| && half[i] == leaves[index]
    ensures MerkleProof(sha, leaves, index) == MerkleProof(sha, half, i) + [sibling]
    ensures MerkleRoot(sha, leaves) == sha(TopPreimage(index, |leaves|, MerkleRoot(sha, half), sibling))
  {
    var s := Split(|leaves|);
    var left, right := leaves[..s], leaves[s..];
    if index < s {
      half, i, sibling := left, index, MerkleRoot(sha, right);
    } else {
      half, i, sibling := right, index - s, MerkleRoot(sha, left);
    }
  }

  /** The honest proof is accepted, consumed entirely. */
  lemma {:induction false} HonestProofAccepted(sha: HashFn, leaves: seq<Digest>, index: int)
    requires 0 <= index < |leaves|
    ensures RootFromProofAt(sha, leaves[index], index, |leaves|, MerkleProof(sha, leaves, index))
         == Some(Recomputed(MerkleRoot(sha, leaves), |MerkleProof(sha, leaves, index)|))
    decreases |leaves|
  {
    if |leaves| > 1 {
      var half, i, sibling := UnfoldHonest(sha, leaves, index);
      HonestProofAccepted(sha, half, i);
      ExtendAccepted(sha, leaves[index], index, |leaves|, MerkleProof(sha, half, i), sibling);
    }
  }

  /** The verifier is exact: a leaf and proof recompute to the honest root iff
      they are the honest ones, unless they exhibit a node collision against the
      honest path. */
  lemma VerifierExact(sha: HashFn, leaves: seq<Digest>, index: int, leaf: Digest, proof: seq<Digest>)
    requires 0 <= index < |leaves|
    ensures leaf == leaves[index] && proof == MerkleProof(sha, leaves, index)
        ==> RootFromProof(sha, leaf, index, |leaves|, proof) == Some(MerkleRoot(sha, leaves))
    ensures RootFromProof(sha, leaf, index, |leaves|, proof) == Some(MerkleRoot(sha, leaves))
        ==> || (leaf == leaves[index] && proof == MerkleProof(sha, leaves, index))
            || CollisionBetween(sha, PathPreimages(sha, leaf, index, |leaves|, proof),
                                PathPreimages(sha, leaves[index], index, |leaves|, MerkleProof(sha, leaves, index)))
  {
    HonestProofAccepted(sha, leaves, index);
    if RootFromProof(sha, leaf, index, |leaves|, proof) == Some(MerkleRoot(sha, leaves)) {
      var honest := MerkleProof(sha, leaves, index);
      SameRootSameLeaf(sha, index, |leaves|, leaf, proof, leaves[index], honest);
      NodesUsed(sha, leaf, index, |leaves|, proof);
      NodesUsed(sha, leaves[index], index, |leaves|, honest);
      assert proof[..|proof|] == proof && honest[..|honest|] == honest;
    }
  }
}
