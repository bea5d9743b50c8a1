/** Rung three: what an anchored record pins. Checks d, e, g, i, l, o, p and q
    work together here; no one of them is enough. */
module Anchoring {
  import opened Basics
  import opened Merkle
  import opened Records
  import opened Evidence
  import opened Chain

  // ----- Recorder identities are distinct -----

  ghost predicate IdsDistinct(logs: seq<Log>) {
    forall i, j :: 0 <= i < j < |logs| ==> logs[i].id != logs[j].id
  }

  /** The key comparison reads a map keyed by recorder id, so two logs with one
      id compare a key with itself and fail: passing it makes ids distinct. */
  lemma KeysDifferMakesIdsDistinct(logs: seq<Log>)
    requires KeysDifferOK(logs)
    ensures IdsDistinct(logs)
  {
    forall i, j | 0 <= i < j < |logs|
      ensures logs[i].id != logs[j].id
    {
      assert FirstKey(LastWithId(logs, logs[i].id).value) != FirstKey(LastWithId(logs, logs[j].id).value);
    }
  }

  /** Among these logs an id determines the log. */
  ghost predicate OneLogPerId(logs: seq<Log>) {
    forall l, m :: l in logs && m in logs && l.id == m.id ==> l == m
  }

  lemma DistinctIdsDetermineLogs(logs: seq<Log>)
    requires IdsDistinct(logs)
    ensures OneLogPerId(logs)
  {
    forall l, m | l in logs && m in logs && l.id == m.id
      ensures l == m
    {
      var i :| 0 <= i < |logs| && logs[i] == l;
      var j :| 0 <= j < |logs| && logs[j] == m;
      assert i == j;
    }
  }

  // ----- What the third rung establishes -----

  /** A view that earned the third rung, over loaded records. */
  ghost predicate Anchored(w: World, art: Artifact, run: string) {
    IsView(art, run) && LoadedLogs(w, art) && EarnsThrough(w, art, 3)
  }

  /** One log, as rungs zero and one leave it. */
  ghost predicate SoundLog(w: World, l: Log) {
    OrderOK(l) && LinksOK(l.records) && ContiguousOK(l.records) && CloseOK(l.records) && AllDerived(w, l.records)
  }

  /** The entry names a position of that log, and its leaf is the record there. */
  ghost predicate NamesPosition(w: World, l: Log, e: AnchorEntry) {
    && l.id == e.recorder
    && 0 <= e.seqno < |l.records|
    && Hex(LeafHash(w.sha, l.records[e.seqno].raw)) == ToLower(e.leaf)
  }

  ghost predicate Placed(w: World, logs: seq<Log>, e: AnchorEntry) {
    exists l :: l in logs && NamesPosition(w, l, e)
  }

  /** The part of the third rung the theorems below use. */
  ghost predicate Grounded(w: World, art: Artifact) {
    && (forall l :: l in art.logs ==> SoundLog(w, l))
    && OneLogPerId(art.logs)
    && InclusionOK(w, art)
    && forall e :: e in art.anchors.value.entries ==> Placed(w, art.logs, e)
  }

  lemma Earned(w: World, art: Artifact, n: nat, m: nat, id: CheckId)
    requires EarnsThrough(w, art, n) && m <= n && id in RungChecks(m)
    ensures Passes(w, art, id)
  {
    assert RungOK(w, art, m);
  }

  lemma LogIsSound(w: World, art: Artifact, run: string, l: Log)
    requires Anchored(w, art, run) && l in art.logs
    ensures SoundLog(w, l)
  {
    Earned(w, art, 3, 0, D);
    Earned(w, art, 3, 0, E);
    Earned(w, art, 3, 1, G);
    Earned(w, art, 3, 1, I);
    forall r | r in l.records
      ensures Derived(w, r)
    {
      assert Loaded(w, art.keys, r);
    }
  }

  lemma AnchoredIsGrounded(w: World, art: Artifact, run: string)
    requires Anchored(w, art, run)
    ensures Grounded(w, art)
  {
    ViewLogs(art, run);
    forall l | l in art.logs
      ensures SoundLog(w, l)
    {
      LogIsSound(w, art, run, l);
    }
    assert OneLogPerId(art.logs) by {
      Earned(w, art, 3, 2, L);
      KeysDifferMakesIdsDistinct(art.logs);
      DistinctIdsDetermineLogs(art.logs);
    }
    assert InclusionOK(w, art) by { Earned(w, art, 3, 3, O); }
    assert LeavesOK(w, art) by { Earned(w, art, 3, 3, P); }
    forall e | e in art.anchors.value.entries
      ensures Placed(w, art.logs, e)
    {
      MatchingLeafPlaces(w, art.logs, e);
    }
  }

  // ----- From an anchor entry to a position in a log -----

  lemma MatchingLeafPlaces(w: World, logs: seq<Log>, e: AnchorEntry)
    requires LeafMatches(w, logs, e)
    requires forall l :: l in logs ==> SoundLog(w, l)
    ensures Placed(w, logs, e)
  {
    var rec := FindRecord(logs, e.recorder, e.run, e.seqno).value;
    var l :| l in logs && l.id == e.recorder && l.run == e.run && rec in l.records;
    assert SoundLog(w, l);
    var k :| 0 <= k < |l.records| && l.records[k] == rec;
    assert l.records[k].payload.seqno == k;
    assert NamesPosition(w, l, e);
  }

  lemma PlacedInLog(w: World, logs: seq<Log>, l: Log, e: AnchorEntry)
    requires OneLogPerId(logs) && Placed(w, logs, e) && l in logs && l.id == e.recorder
    ensures NamesPosition(w, l, e)
  {
    var m :| m in logs && NamesPosition(w, m, e);
    assert l == m;
  }

  lemma LastIsClose(w: World, l: Log)
    requires SoundLog(w, l)
    ensures |l.records| >= 2 && l.records[|l.records| - 1].payload.typ == Close
    ensures l.records[|l.records| - 1].payload.seqno == |l.records| - 1
  {
  }

  lemma HeadReached(w: World, art: Artifact, run: string, l: Log) returns (e: AnchorEntry)
    requires Anchored(w, art, run) && l in art.logs
    ensures art.anchors.Some? && e in art.anchors.value.entries
    ensures e.recorder == l.id && e.seqno >= |l.records| - 1
  {
    LogIsSound(w, art, run, l);
    LastIsClose(w, l);
    assert WindowOK(art) by { Earned(w, art, 3, 3, Q); }
    ViewLogs(art, run);
    var last := l.records[|l.records| - 1];
    assert AnchoredAtLeast(art.anchors.value.entries, l.id, last.payload.seqno);
    e :| e in art.anchors.value.entries && e.recorder == l.id && last.payload.seqno <= e.seqno;
  }

  /** The entries of a recorder reach exactly its last record, which is the close. */
  lemma HeadIsAnchored(w: World, art: Artifact, run: string, l: Log) returns (e: AnchorEntry)
    requires Anchored(w, art, run) && l in art.logs
    ensures art.anchors.Some? && e in art.anchors.value.entries && e.recorder == l.id
    ensures l.records != [] && e.seqno == |l.records| - 1 && l.records[e.seqno].payload.typ == Close
    ensures NamesPosition(w, l, e)
  {
    e := HeadReached(w, art, run, l);
    assert OneLogPerId(art.logs) && Placed(w, art.logs, e) by { AnchoredIsGrounded(w, art, run); }
    PlacedInLog(w, art.logs, l, e);
    LogIsSound(w, art, run, l);
    LastIsClose(w, l);
  }

  // ----- From a shared index to a shared record -----

  /** The path bytes hashed while checking an included entry. */
  function EntryPath(w: World, size: int, e: AnchorEntry): set<Bytes> {
    match (DecodeHex32(e.leaf), DecodeProof(e.proof))
    case (Some(leaf), Some(proof)) =>
      if 0 <= e.index < size then PathPreimages(w.sha, leaf, e.index, size, proof) else {}
    case _ => {}
  }

  /** Every byte string the checker hashes for one entry and its log: the path,
      the records, and the records as leaves. */
  function HashedFor(w: World, size: int, e: AnchorEntry, l: Log): set<Bytes> {
    EntryPath(w, size, e) + Raws(l.records) + (set r | r in l.records :: LeafPreimage(r.raw))
  }

  lemma SameIndexSameLeaf(w: World, root: Digest, size: int, e: AnchorEntry, f: AnchorEntry)
    requires EntryIncluded(w, root, size, e) && EntryIncluded(w, root, size, f) && e.index == f.index
    ensures DecodeHex32(e.leaf).Some? && DecodeHex32(f.leaf).Some?
    ensures || DecodeHex32(e.leaf) == DecodeHex32(f.leaf)
            || CollisionBetween(w.sha, EntryPath(w, size, e), EntryPath(w, size, f))
  {
    SameRootSameLeaf(w.sha, e.index, size,
                     DecodeHex32(e.leaf).value, DecodeProof(e.proof).value,
                     DecodeHex32(f.leaf).value, DecodeProof(f.proof).value);
  }

  lemma LeafTextIsLeaf(leaf: Digest, text: string)
    requires Hex(leaf) == ToLower(text) && DecodeHex32(text).Some?
    ensures DecodeHex32(text) == Some(leaf)
  {
    UnhexInvertsHex(leaf);
  }

  /** Two views with one decoded root and one tree size. */
  ghost predicate SameTree(a: Artifact, b: Artifact) {
    && a.anchors.Some? && b.anchors.Some?
    && DecodedRoot(a) == DecodedRoot(b)
    && a.anchors.value.head.size == b.anchors.value.head.size
  }

  /** Two included entries with one index anchor records with the same bytes. */
  lemma SameIndexSameRecord(w: World, root: Digest, size: int, e: AnchorEntry, l: Log, f: AnchorEntry, m: Log)
    requires EntryIncluded(w, root, size, e) && EntryIncluded(w, root, size, f) && e.index == f.index
    requires NamesPosition(w, l, e) && NamesPosition(w, m, f)
    ensures || l.records[e.seqno].raw == m.records[f.seqno].raw
            || CollisionBetween(w.sha, HashedFor(w, size, e, l), HashedFor(w, size, f, m))
  {
    var r, s := l.records[e.seqno], m.records[f.seqno];
    SameIndexSameLeaf(w, root, size, e, f);
    if DecodeHex32(e.leaf) == DecodeHex32(f.leaf) {
      LeafTextIsLeaf(LeafHash(w.sha, r.raw), e.leaf);
      LeafTextIsLeaf(LeafHash(w.sha, s.raw), f.leaf);
      LeafCollision(w, size, e, l, r, f, m, s);
    } else {
      CollisionMonotone(w.sha, EntryPath(w, size, e), EntryPath(w, size, f), HashedFor(w, size, e, l), HashedFor(w, size, f, m));
    }
  }

  lemma LeafCollision(w: World, size: int, e: AnchorEntry, l: Log, r: Record, f: AnchorEntry, m: Log, s: Record)
    requires r in l.records && s in m.records
    requires LeafHash(w.sha, r.raw) == LeafHash(w.sha, s.raw)
    ensures r.raw == s.raw || CollisionBetween(w.sha, HashedFor(w, size, e, l), HashedFor(w, size, f, m))
  {
    var x, y := LeafPreimage(r.raw), LeafPreimage(s.raw);
    assert r.raw == x[1..] && s.raw == y[1..];
    assert x in HashedFor(w, size, e, l) && y in HashedFor(w, size, f, m);
  }

  // ----- The theorem -----

  /** Equal bytes at one position of each of two sound logs: the positions, the
      recorders and the runs are the same, and so is the history before. */
  lemma SameRecordSameHistory(w: World, l: Log, i: nat, m: Log, j: nat)
    requires SoundLog(w, l) && SoundLog(w, m)
    requires i < |l.records| && j < |m.records| && l.records[i].raw == m.records[j].raw
    ensures i == j && l.id == m.id && l.run == m.run
    ensures l.records[i].payload == m.records[j].payload
    ensures || SameBytes(l.records, m.records, i + 1)
            || CollisionBetween(w.sha, Raws(l.records), Raws(m.records))
  {
    assert OrderedAt(l, i) && OrderedAt(m, j);
    assert Derived(w, l.records[i]) && Derived(w, m.records[j]);
    SameHistory(w, l.records, m.records, i);
  }

  /** Logs `l` and `m` are one recorder's log of one run, and agree byte for byte
      through position `i`. */
  ghost predicate AgreeThrough(l: Log, m: Log, i: nat) {
    && l.id == m.id && l.run == m.run
    && i < |l.records| && i < |m.records|
    && l.records[i].payload == m.records[i].payload
    && SameBytes(l.records, m.records, i + 1)
  }

  /** Included entries at one index, placed in sound logs, make the logs agree. */
  lemma EntriesAgree(w: World, root: Digest, size: int, e: AnchorEntry, l: Log, f: AnchorEntry, m: Log)
    requires EntryIncluded(w, root, size, e) && EntryIncluded(w, root, size, f) && e.index == f.index
    requires NamesPosition(w, l, e) && NamesPosition(w, m, f)
    requires SoundLog(w, l) && SoundLog(w, m)
    ensures || (e.seqno == f.seqno && AgreeThrough(l, m, e.seqno))
            || CollisionBetween(w.sha, HashedFor(w, size, e, l), HashedFor(w, size, f, m))
  {
    SameIndexSameRecord(w, root, size, e, l, f, m);
    if l.records[e.seqno].raw == m.records[f.seqno].raw {
      SameRecordAgrees(w, size, e, l, f, m);
    }
  }

  lemma RecordsAreHashed(w: World, size: int, e: AnchorEntry, l: Log)
    ensures Raws(l.records) <= HashedFor(w, size, e, l)
  {
  }

  lemma SameRecordAgrees(w: World, size: int, e: AnchorEntry, l: Log, f: AnchorEntry, m: Log)
    requires SoundLog(w, l) && SoundLog(w, m)
    requires 0 <= e.seqno < |l.records| && 0 <= f.seqno < |m.records| && l.records[e.seqno].raw == m.records[f.seqno].raw
    ensures || (e.seqno == f.seqno && AgreeThrough(l, m, e.seqno))
            || CollisionBetween(w.sha, HashedFor(w, size, e, l), HashedFor(w, size, f, m))
  {
    SameRecordSameHistory(w, l, e.seqno, m, f.seqno);
    if CollisionBetween(w.sha, Raws(l.records), Raws(m.records)) {
      RecordCollision(w, size, e, l, f, m);
    } else {
      assert AgreeThrough(l, m, e.seqno);
    }
  }

  lemma RecordCollision(w: World, size: int, e: AnchorEntry, l: Log, f: AnchorEntry, m: Log)
    requires CollisionBetween(w.sha, Raws(l.records), Raws(m.records))
    ensures CollisionBetween(w.sha, HashedFor(w, size, e, l), HashedFor(w, size, f, m))
  {
    RecordsAreHashed(w, size, e, l);
    RecordsAreHashed(w, size, f, m);
    CollisionMonotone(w.sha, Raws(l.records), Raws(m.records), HashedFor(w, size, e, l), HashedFor(w, size, f, m));
  }

  /** What an anchored view gives for one of its entries. */
  lemma EntryFacts(w: World, art: Artifact, run: string, e: AnchorEntry) returns (l: Log)
    requires Anchored(w, art, run) && art.anchors.Some? && e in art.anchors.value.entries
    ensures l in art.logs && l.run == run && NamesPosition(w, l, e) && SoundLog(w, l)
    ensures DecodedRoot(art).Some? && EntryIncluded(w, DecodedRoot(art).value, art.anchors.value.head.size, e)
  {
    AnchoredIsGrounded(w, art, run);
    assert Placed(w, art.logs, e);
    l :| l in art.logs && NamesPosition(w, l, e);
  }

  /** Anchoring pins history. Take two views that both earned rung three under
      one decoded root and size. Whenever each has an entry at one index, the two
      entries name the same recorder, run and sequence number, and the recorder's
      stored bytes up to that record are the same in both views; or two of the
      byte strings hashed for those entries collide. */
  lemma SameIndexPinsHistory(w: World, a: Artifact, runA: string, b: Artifact, runB: string, e: AnchorEntry, f: AnchorEntry)
    returns (l: Log, m: Log)
    requires Anchored(w, a, runA) && Anchored(w, b, runB) && SameTree(a, b)
    requires e in a.anchors.value.entries && f in b.anchors.value.entries && e.index == f.index
    ensures l in a.logs && l.id == e.recorder && 0 <= e.seqno < |l.records|
    ensures m in b.logs && m.id == f.recorder && 0 <= f.seqno < |m.records|
    ensures || (runA == runB && e.seqno == f.seqno && AgreeThrough(l, m, e.seqno))
            || CollisionBetween(w.sha, HashedFor(w, a.anchors.value.head.size, e, l), HashedFor(w, a.anchors.value.head.size, f, m))
  {
    l := EntryFacts(w, a, runA, e);
    m := EntryFacts(w, b, runB, f);
    EntriesAgree(w, DecodedRoot(a).value, a.anchors.value.head.size, e, l, f, m);
  }

  /** The two views' logs are one log, or their hashed bytes collide. */
  ghost predicate PinnedTo(w: World, size: int, e: AnchorEntry, l: Log, f: AnchorEntry, m: Log) {
    || (m.id == l.id && m.run == l.run && SameLog(l.records, m.records))
    || CollisionBetween(w.sha, HashedFor(w, size, e, l), HashedFor(w, size, f, m))
  }

  /** The anchored close pins the whole log. Every log of an anchored view has an
      entry for its last record; if the other view has any entry at that index,
      both views hold that recorder's log byte for byte, or there is a collision. */
  lemma AnchoredClosePinsLog(w: World, a: Artifact, runA: string, b: Artifact, runB: string, l: Log) returns (e: AnchorEntry)
    requires Anchored(w, a, runA) && Anchored(w, b, runB) && SameTree(a, b)
    requires l in a.logs
    ensures e in a.anchors.value.entries && e.recorder == l.id && e.seqno == |l.records| - 1
    ensures forall f :: f in b.anchors.value.entries && f.index == e.index ==>
              exists m :: m in b.logs && m.id == f.recorder && PinnedTo(w, a.anchors.value.head.size, e, l, f, m)
  {
    e := HeadIsAnchored(w, a, runA, l);
    forall f | f in b.anchors.value.entries && f.index == e.index
      ensures exists m :: m in b.logs && m.id == f.recorder && PinnedTo(w, a.anchors.value.head.size, e, l, f, m)
    {
      var m := CloseEntriesPin(w, a, runA, b, runB, l, e, f);
    }
  }

  lemma CloseEntriesPin(w: World, a: Artifact, runA: string, b: Artifact, runB: string, l: Log, e: AnchorEntry, f: AnchorEntry)
    returns (m: Log)
    requires Anchored(w, a, runA) && Anchored(w, b, runB) && SameTree(a, b)
    requires l in a.logs && e in a.anchors.value.entries && f in b.anchors.value.entries && e.index == f.index
    requires NamesPosition(w, l, e) && e.seqno == |l.records| - 1
    ensures m in b.logs && m.id == f.recorder && PinnedTo(w, a.anchors.value.head.size, e, l, f, m)
  {
    var _ := EntryFacts(w, a, runA, e);
    LogIsSound(w, a, runA, l);
    m := EntryFacts(w, b, runB, f);
    CloseEntriesAgree(w, DecodedRoot(a).value, a.anchors.value.head.size, e, l, f, m);
  }

  lemma CloseEntriesAgree(w: World, root: Digest, size: int, e: AnchorEntry, l: Log, f: AnchorEntry, m: Log)
    requires EntryIncluded(w, root, size, e) && EntryIncluded(w, root, size, f) && e.index == f.index
    requires NamesPosition(w, l, e) && NamesPosition(w, m, f) && e.seqno == |l.records| - 1
    requires SoundLog(w, l) && SoundLog(w, m)
    ensures PinnedTo(w, size, e, l, f, m)
  {
    EntriesAgree(w, root, size, e, l, f, m);
    if e.seqno == f.seqno && AgreeThrough(l, m, e.seqno) {
      AgreementPins(w, size, e, l, f, m);
    } else {
      assert CollisionBetween(w.sha, HashedFor(w, size, e, l), HashedFor(w, size, f, m));
    }
  }

  lemma AgreementPins(w: World, size: int, e: AnchorEntry, l: Log, f: AnchorEntry, m: Log)
    requires SoundLog(w, l) && SoundLog(w, m) && l.records != [] && AgreeThrough(l, m, |l.records| - 1)
    ensures PinnedTo(w, size, e, l, f, m)
  {
    CloseAgreementIsTotal(w, l, m);
  }

  lemma CloseAgreementIsTotal(w: World, l: Log, m: Log)
    requires SoundLog(w, l) && SoundLog(w, m) && l.records != []
    requires AgreeThrough(l, m, |l.records| - 1)
    ensures SameLog(l.records, m.records)
  {
    LastIsClose(w, l);
    assert m.records[|l.records| - 1].payload.typ == Close;
    assert |m.records| == |l.records|;
  }
}
