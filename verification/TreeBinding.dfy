/** What a Merkle root says of the records under it (section 2.1 of RFC 6962). */
module TreeBinding {
  import opened Basics
  import opened Merkle

  /** A leaf is hashed after a zero byte and a node after a one byte, its left child
      first; so no byte string is hashed both as a leaf and as a node. */
  lemma LeavesAndNodesApart(raw: Bytes, l: Digest, r: Digest)
    ensures LeafPreimage(raw)[0] == 0x00 && LeafPreimage(raw)[1..] == raw
    ensures NodePreimage(l, r)[0] == 0x01 && NodePreimage(l, r)[1..33] == l && NodePreimage(l, r)[33..] == r
    ensures LeafPreimage(raw) != NodePreimage(l, r)
  {
  }

  function LeafHashes(sha: HashFn, raws: seq<Bytes>): (s: seq<Digest>)
    ensures |s| == |raws| && forall i :: 0 <= i < |raws| ==> s[i] == LeafHash(sha, raws[i])
  {
    seq(|raws|, i requires 0 <= i < |raws| => LeafHash(sha, raws[i]))
  }

  function RecordRoot(sha: HashFn, raws: seq<Bytes>): Digest {
    MerkleRoot(sha, LeafHashes(sha, raws))
  }

  /** The tree hash as the standard defines it: of nothing, of one record, and of
      more, cut at the greatest power of two below their number. */
  lemma RecordRootIs(sha: HashFn, raws: seq<Bytes>, e: nat)
    ensures raws == [] ==> RecordRoot(sha, raws) == sha([])
    ensures |raws| == 1 ==> RecordRoot(sha, raws) == sha([0x00] + raws[0])
    ensures Pow2(e) < |raws| <= 2 * Pow2(e) ==>
              RecordRoot(sha, raws) == sha([0x01] + RecordRoot(sha, raws[..Pow2(e)]) + RecordRoot(sha, raws[Pow2(e)..]))
  {
    if Pow2(e) < |raws| <= 2 * Pow2(e) {
      SplitAtPower(|raws|, e);
      var s := Split(|raws|);
      var leaves := LeafHashes(sha, raws);
      assert leaves[..s] == LeafHashes(sha, raws[..s]) && leaves[s..] == LeafHashes(sha, raws[s..]);
    }
  }

  lemma SplitAtPower(n: int, e: nat)
    requires Pow2(e) < n <= 2 * Pow2(e)
    ensures 2 <= n && Split(n) == Pow2(e)
  {
    SplitIsLargestPowerOfTwoBelow(n, e);
  }

  /** Every byte string hashed for the root of these records. */
  function Hashed(sha: HashFn, raws: seq<Bytes>): set<Bytes>
    decreases |raws|
  {
    if raws == [] then {[]}
    else if |raws| == 1 then {LeafPreimage(raws[0])}
    else
      var s := Split(|raws|);
      Hashed(sha, raws[..s]) + Hashed(sha, raws[s..]) + {TopNode(sha, raws)}
  }

  function TopNode(sha: HashFn, raws: seq<Bytes>): Bytes
    requires |raws| >= 2
  {
    NodePreimage(RecordRoot(sha, raws[..Split(|raws|)]), RecordRoot(sha, raws[Split(|raws|)..]))
  }

  /** What is hashed last. */
  function TopPreimage(sha: HashFn, raws: seq<Bytes>): Bytes {
    if raws == [] then [] else if |raws| == 1 then LeafPreimage(raws[0]) else TopNode(sha, raws)
  }

  lemma RootIsTop(sha: HashFn, raws: seq<Bytes>)
    ensures RecordRoot(sha, raws) == sha(TopPreimage(sha, raws)) && TopPreimage(sha, raws) in Hashed(sha, raws)
  {
    if |raws| >= 2 {
      var s := Split(|raws|);
      var leaves := LeafHashes(sha, raws);
      assert leaves[..s] == LeafHashes(sha, raws[..s]) && leaves[s..] == LeafHashes(sha, raws[s..]);
    }
  }

  /** A root binds the records: two lists of any lengths with one root are the same
      list, or two of the byte strings hashed for them collide. */
  lemma {:induction false} RootBindsRecords(sha: HashFn, xs: seq<Bytes>, ys: seq<Bytes>)
    requires RecordRoot(sha, xs) == RecordRoot(sha, ys)
    ensures xs == ys || CollisionBetween(sha, Hashed(sha, xs), Hashed(sha, ys))
    decreases |xs|
  {
    RootIsTop(sha, xs);
    RootIsTop(sha, ys);
    var x, y := TopPreimage(sha, xs), TopPreimage(sha, ys);
    if x == y {
      SameTopSameShape(sha, xs, ys);
      if |xs| >= 2 {
        HalvesBind(sha, xs, ys);
        var s, t := Split(|xs|), Split(|ys|);
        RootBindsRecords(sha, xs[..s], ys[..t]);
        RootBindsRecords(sha, xs[s..], ys[t..]);
        JoinHalves(sha, xs, s, ys, t);
      }
    }
  }

  lemma SameTopSameShape(sha: HashFn, xs: seq<Bytes>, ys: seq<Bytes>)
    requires TopPreimage(sha, xs) == TopPreimage(sha, ys)
    ensures (|xs| >= 2 <==> |ys| >= 2) && (|xs| < 2 ==> xs == ys)
  {
    var x, y := TopPreimage(sha, xs), TopPreimage(sha, ys);
    assert |xs| >= 1 <==> x != [];
    assert |ys| >= 1 <==> y != [];
    assert |xs| >= 2 ==> x[0] == 0x01;
    assert |ys| >= 2 ==> y[0] == 0x01;
    assert |xs| == 1 ==> x[0] == 0x00;
    assert |ys| == 1 ==> y[0] == 0x00;
    if |xs| == 1 && |ys| == 1 {
      assert xs[0] == x[1..] && ys[0] == y[1..];
      assert xs == [xs[0]] && ys == [ys[0]];
    }
  }

  lemma HalvesBind(sha: HashFn, xs: seq<Bytes>, ys: seq<Bytes>)
    requires |xs| >= 2 && |ys| >= 2 && TopNode(sha, xs) == TopNode(sha, ys)
    ensures RecordRoot(sha, xs[..Split(|xs|)]) == RecordRoot(sha, ys[..Split(|ys|)])
    ensures RecordRoot(sha, xs[Split(|xs|)..]) == RecordRoot(sha, ys[Split(|ys|)..])
  {
    var s, t := Split(|xs|), Split(|ys|);
    NodePreimageInjective(RecordRoot(sha, xs[..s]), RecordRoot(sha, xs[s..]), RecordRoot(sha, ys[..t]), RecordRoot(sha, ys[t..]));
  }

  lemma JoinHalves(sha: HashFn, xs: seq<Bytes>, s: int, ys: seq<Bytes>, t: int)
    requires |xs| >= 2 && |ys| >= 2 && s == Split(|xs|) && t == Split(|ys|)
    requires xs[..s] == ys[..t] || CollisionBetween(sha, Hashed(sha, xs[..s]), Hashed(sha, ys[..t]))
    requires xs[s..] == ys[t..] || CollisionBetween(sha, Hashed(sha, xs[s..]), Hashed(sha, ys[t..]))
    ensures xs == ys || CollisionBetween(sha, Hashed(sha, xs), Hashed(sha, ys))
  {
    if CollisionBetween(sha, Hashed(sha, xs[..s]), Hashed(sha, ys[..t])) {
      CollisionMonotone(sha, Hashed(sha, xs[..s]), Hashed(sha, ys[..t]), Hashed(sha, xs), Hashed(sha, ys));
    } else if CollisionBetween(sha, Hashed(sha, xs[s..]), Hashed(sha, ys[t..])) {
      CollisionMonotone(sha, Hashed(sha, xs[s..]), Hashed(sha, ys[t..]), Hashed(sha, xs), Hashed(sha, ys));
    } else {
      assert xs == xs[..s] + xs[s..] && ys == ys[..t] + ys[t..];
    }
  }
}
