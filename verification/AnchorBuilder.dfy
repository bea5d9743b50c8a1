/** The honest producer's anchor builder, and why the checker accepts its anchors. */
module AnchorBuilder {
  import opened Basics
  import opened KeyOrder
  import opened StringSort
  import opened Json
  import opened Wire
  import opened Merkle
  import opened Records
  import opened Evidence
  import opened Anchoring

  /** A recorder's built payloads. */
  datatype Built = Built(id: string, raws: seq<Bytes>)

  datatype Item = Item(id: string, seqno: nat, raw: Bytes)

  function ItemsOf(b: Built): (s: seq<Item>)
    ensures |s| == |b.raws| && forall i :: 0 <= i < |s| ==> s[i] == Item(b.id, i, b.raws[i])
  {
    seq(|b.raws|, i requires 0 <= i < |b.raws| => Item(b.id, i, b.raws[i]))
  }

  /** All records of all recorders, in recorder order. */
  function Flat(logs: seq<Built>): seq<Item> {
    if logs == [] then [] else Flat(logs[..|logs| - 1]) + ItemsOf(logs[|logs| - 1])
  }

  function LeavesOf(sha: HashFn, items: seq<Item>): (s: seq<Digest>)
    ensures |s| == |items| && forall i :: 0 <= i < |s| ==> s[i] == LeafHash(sha, items[i].raw)
  {
    seq(|items|, i requires 0 <= i < |items| => LeafHash(sha, items[i].raw))
  }

  function HexAll(ds: seq<Digest>): (s: seq<string>)
    ensures |s| == |ds| && forall i :: 0 <= i < |s| ==> s[i] == Hex(ds[i])
  {
    seq(|ds|, i requires 0 <= i < |ds| => Hex(ds[i]))
  }

  function EntryAt(w: World, items: seq<Item>, i: nat): AnchorEntry
    requires i < |items|
  {
    AnchorEntry(items[i].id, w.decode(items[i].raw).payload.run, items[i].seqno,
                Hex(LeafHash(w.sha, items[i].raw)), i, HexAll(MerkleProof(w.sha, LeavesOf(w.sha, items), i)))
  }

  /** An entry before its proof is attached. */
  function BareEntry(w: World, items: seq<Item>, i: nat): AnchorEntry
    requires i < |items|
  {
    AnchorEntry(items[i].id, w.decode(items[i].raw).payload.run, items[i].seqno, Hex(LeafHash(w.sha, items[i].raw)), i, [])
  }

  ghost predicate EntriesBuilt(w: World, entries: seq<AnchorEntry>, items: seq<Item>) {
    |entries| == |items| && forall i :: 0 <= i < |entries| ==> entries[i] == EntryAt(w, items, i)
  }

  /** The logs in the order of these recorder ids. */
  function InIdOrder(logs: map<string, seq<Bytes>>, ids: seq<string>): (built: seq<Built>)
    requires Elements(ids) <= logs.Keys
    ensures |built| == |ids| && forall k :: 0 <= k < |ids| ==> ids[k] in logs && built[k] == Built(ids[k], logs[ids[k]])
  {
    assert forall k :: 0 <= k < |ids| ==> ids[k] in Elements(ids);
    seq(|ids|, k requires 0 <= k < |ids| => Built(ids[k], logs[ids[k]]))
  }

  /** All records, recorder by recorder in sorted id order. */
  ghost function AllItems(logs: map<string, seq<Bytes>>): seq<Item> {
    Flat(InIdOrder(logs, SortedIds(logs.Keys)))
  }

  /** The signer of tree heads and the base64 encoder, uninterpreted. */
  datatype Publisher = Publisher(sign: Bytes -> Bytes, base64: Bytes -> string)

  /** The values the builder publishes. */
  datatype AnchorFile = AnchorFile(log: string, head: TreeHead, entries: seq<AnchorEntry>)

  /** The tree head the builder signs. */
  ghost function HeadOver(w: World, logId: string, logs: map<string, seq<Bytes>>): SignedHead {
    var items := AllItems(logs);
    SignedHead(logId, Hex(MerkleRoot(w.sha, LeavesOf(w.sha, items))), |items|)
  }

  ghost predicate FileBuilt(w: World, pub: Publisher, logId: string, logs: map<string, seq<Bytes>>, file: AnchorFile) {
    var h := HeadOver(w, logId, logs);
    var msg := Encoded(HeadValue(h));
    && InRange(HeadValue(h))
    && file.log == logId
    && file.head == TreeHead(h.size, h.root, pub.base64(pub.sign(msg)), pub.base64(msg))
    && EntriesBuilt(w, file.entries, AllItems(logs))
  }

  function StrValue(s: string): Value {
    Str(TextOf(s))
  }

  function EntryValue(e: AnchorEntry): Value {
    Obj(map[TextOf("recorder") := StrValue(e.recorder), TextOf("run") := StrValue(e.run), TextOf("seq") := Int(e.seqno),
            TextOf("leaf") := StrValue(e.leaf), TextOf("index") := Int(e.index),
            TextOf("proof") := Arr(seq(|e.proof|, i requires 0 <= i < |e.proof| => StrValue(e.proof[i])))])
  }

  /** The file as a value. */
  function FileValue(file: AnchorFile): Value {
    Obj(map[TextOf("log") := StrValue(file.log),
            TextOf("tree_head") := Obj(map[TextOf("size") := Int(file.head.size), TextOf("root") := StrValue(file.head.root),
                                           TextOf("signed") := StrValue(file.head.signed), TextOf("sig") := StrValue(file.head.sig)]),
            TextOf("entries") := Arr(seq(|file.entries|, i requires 0 <= i < |file.entries| => EntryValue(file.entries[i])))])
  }

  /** Ids are sorted, leaves and entries collected recorder by recorder, each entry
      gets its proof, the head is encoded and signed, and the file is encoded. */
  method BuildAnchors(w: World, pub: Publisher, logId: string, logs: map<string, seq<Bytes>>)
    returns (file: AnchorFile, raw: Option<Bytes>)
    ensures raw.Some? ==> FileBuilt(w, pub, logId, logs, file) && raw.value == Encoded(FileValue(file))
    ensures raw.None? ==> !InRange(HeadValue(HeadOver(w, logId, logs))) || (FileBuilt(w, pub, logId, logs, file) && !InRange(FileValue(file)))
  {
    var ids := SortIds(logs.Keys);
    var root, size, entries := BuildEntries(w, InIdOrder(logs, ids));
    file := AnchorFile(logId, TreeHead(size, Hex(root), "", ""), entries);
    var msg := EncodeValue(HeadValue(SignedHead(logId, Hex(root), size)));
    if msg.None? {
      return file, None;
    }
    file := AnchorFile(logId, TreeHead(size, Hex(root), pub.base64(pub.sign(msg.value)), pub.base64(msg.value)), entries);
    raw := EncodeValue(FileValue(file));
  }

  // ----- When building fails -----

  lemma {:induction false} SeqnoBelowSize(built: seq<Built>, j: nat)
    requires j < |Flat(built)|
    ensures Flat(built)[j].seqno < |Flat(built)|
    decreases |built|
  {
    var init := built[..|built| - 1];
    if j < |Flat(init)| {
      SeqnoBelowSize(init, j);
    }
  }

  lemma EntryInRange(e: AnchorEntry)
    requires 0 <= e.seqno <= MAX_SAFE_INTEGER && 0 <= e.index <= MAX_SAFE_INTEGER
    ensures InRange(EntryValue(e))
  {
    var proof := Arr(seq(|e.proof|, i requires 0 <= i < |e.proof| => StrValue(e.proof[i])));
    assert InRange(proof);
  }

  lemma FileInRange(file: AnchorFile)
    requires 0 <= file.head.size <= MAX_SAFE_INTEGER
    requires forall i :: 0 <= i < |file.entries| ==> InRange(EntryValue(file.entries[i]))
    ensures InRange(FileValue(file))
  {
    var entries := Arr(seq(|file.entries|, i requires 0 <= i < |file.entries| => EntryValue(file.entries[i])));
    var head := Obj(map[TextOf("size") := Int(file.head.size), TextOf("root") := StrValue(file.head.root),
                        TextOf("signed") := StrValue(file.head.signed), TextOf("sig") := StrValue(file.head.sig)]);
    assert InRange(entries);
    assert InRange(head);
  }

  lemma HeadInRange(h: SignedHead)
    requires h.size >= 0
    ensures InRange(HeadValue(h)) <==> h.size <= MAX_SAFE_INTEGER
  {
    var size := TextOf("size");
    assert HeadValue(h).members[size] == Int(h.size);
  }

  /** Building fails exactly when there are more records than the largest safe
      integer: once the head can be encoded, so can the file. */
  lemma BuildingFailsIff(w: World, pub: Publisher, logId: string, logs: map<string, seq<Bytes>>)
    ensures InRange(HeadValue(HeadOver(w, logId, logs))) <==> |AllItems(logs)| <= MAX_SAFE_INTEGER
    ensures forall file :: FileBuilt(w, pub, logId, logs, file) ==> InRange(FileValue(file))
  {
    HeadInRange(HeadOver(w, logId, logs));
    forall file | FileBuilt(w, pub, logId, logs, file)
      ensures InRange(FileValue(file))
    {
      BuiltFileInRange(w, logs, file);
    }
  }

  lemma BuiltFileInRange(w: World, logs: map<string, seq<Bytes>>, file: AnchorFile)
    requires |AllItems(logs)| <= MAX_SAFE_INTEGER && file.head.size == |AllItems(logs)| && EntriesBuilt(w, file.entries, AllItems(logs))
    ensures InRange(FileValue(file))
  {
    forall i | 0 <= i < |file.entries|
      ensures InRange(EntryValue(file.entries[i]))
    {
      SeqnoBelowSize(InIdOrder(logs, SortedIds(logs.Keys)), i);
      EntryInRange(file.entries[i]);
    }
    FileInRange(file);
  }

  // ----- The loops -----

  method BuildEntries(w: World, logs: seq<Built>) returns (root: Digest, size: nat, entries: seq<AnchorEntry>)
    ensures size == |Flat(logs)| && root == MerkleRoot(w.sha, LeavesOf(w.sha, Flat(logs)))
    ensures EntriesBuilt(w, entries, Flat(logs))
  {
    var leaves: seq<Digest> := [];
    entries := [];
    var index := 0;
    for k := 0 to |logs|
      invariant index == |entries| == |leaves| == |Flat(logs[..k])|
      invariant leaves == LeavesOf(w.sha, Flat(logs[..k]))
      invariant forall i :: 0 <= i < index ==> entries[i] == BareEntry(w, Flat(logs[..k]), i)
    {
      ghost var done := Flat(logs[..k]);
      assert logs[..k + 1][..k] == logs[..k];
      assert Flat(logs[..k + 1]) == done + ItemsOf(logs[k]);
      for n := 0 to |logs[k].raws|
        invariant index == |entries| == |leaves| == |done| + n
        invariant leaves == LeavesOf(w.sha, done + ItemsOf(logs[k])[..n])
        invariant forall i :: 0 <= i < index ==> entries[i] == BareEntry(w, done + ItemsOf(logs[k])[..n], i)
      {
        var raw := logs[k].raws[n];
        var leaf := LeafHash(w.sha, raw);
        leaves := leaves + [leaf];
        entries := entries + [AnchorEntry(logs[k].id, w.decode(raw).payload.run, n, Hex(leaf), index, [])];
        index := index + 1;
      }
      assert ItemsOf(logs[k])[..|logs[k].raws|] == ItemsOf(logs[k]);
    }
    assert logs[..|logs|] == logs;
    root, size := MerkleRoot(w.sha, leaves), |leaves|;
    ghost var items := Flat(logs);
    for i := 0 to |entries|
      invariant |entries| == |items| == |leaves|
      invariant forall j :: 0 <= j < i ==> entries[j] == EntryAt(w, items, j)
      invariant forall j :: i <= j < |entries| ==> entries[j] == BareEntry(w, items, j)
    {
      entries := entries[i := entries[i].(proof := HexAll(MerkleProof(w.sha, leaves, i)))];
    }
  }

  // ----- The built anchors pass -----

  lemma {:induction false} HexIsLower(d: Bytes)
    ensures ToLower(Hex(d)) == Hex(d)
  {
    HexHasNoUpper(d);
  }

  lemma {:induction false} HexHasNoUpper(d: Bytes)
    ensures forall i :: 0 <= i < |Hex(d)| ==> LowerChar(Hex(d)[i]) == Hex(d)[i]
  {
    if d != [] {
      HexHasNoUpper(d[1..]);
      var hi, lo := HexDigit(d[0] as int / 16), HexDigit(d[0] as int % 16);
      HexDigitIsLower(d[0] as int / 16);
      HexDigitIsLower(d[0] as int % 16);
      assert Hex(d) == [hi, lo] + Hex(d[1..]);
    }
  }

  lemma HexDigitIsLower(n: int)
    requires 0 <= n < 16
    ensures LowerChar(HexDigit(n)) == HexDigit(n)
  {
    assert '0' <= HexDigit(n) <= '9' || 'a' <= HexDigit(n) <= 'f';
  }

  lemma DecodeOfHex(d: Digest)
    ensures DecodeHex32(Hex(d)) == Some(d)
  {
    HexIsLower(d);
    UnhexInvertsHex(d);
  }

  lemma DecodeOfHexAll(ds: seq<Digest>)
    ensures DecodeProof(HexAll(ds)) == Some(ds)
  {
    var items := HexAll(ds);
    forall i | 0 <= i < |items|
      ensures DecodeHex32(items[i]) == Some(ds[i])
    {
      DecodeOfHex(ds[i]);
    }
    assert DecodeProof(items).value == ds;
  }

  lemma EntryIsIncluded(w: World, items: seq<Item>, i: nat)
    requires i < |items|
    ensures EntryIncluded(w, MerkleRoot(w.sha, LeavesOf(w.sha, items)), |items|, EntryAt(w, items, i))
  {
    var leaves := LeavesOf(w.sha, items);
    DecodeOfHex(leaves[i]);
    DecodeOfHexAll(MerkleProof(w.sha, leaves, i));
    VerifierExact(w.sha, leaves, i, leaves[i], MerkleProof(w.sha, leaves, i));
  }

  // ----- The artifact that stores the logs -----

  /** The artifact log of a recorder stores what the producer built for it. */
  ghost predicate Stores(w: World, l: Log, raws: seq<Bytes>) {
    && |l.records| == |raws| && l.records != []
    && forall i :: 0 <= i < |raws| ==>
         && l.records[i].raw == raws[i]
         && l.records[i].payload.seqno == i
         && w.decode(raws[i]).payload.run == l.run
  }

  /** The artifact has one log for each recorder, in any order. */
  ghost predicate StoresAll(w: World, stored: seq<Log>, logs: map<string, seq<Bytes>>) {
    && stored != [] && IdsDistinct(stored)
    && (forall l :: l in stored ==> l.id in logs && Stores(w, l, logs[l.id]))
    && forall id :: id in logs ==> HasLog(stored, id)
  }

  ghost predicate HasLog(stored: seq<Log>, id: string) {
    exists l :: l in stored && l.id == id
  }

  lemma {:induction false} ItemIsPlaced(built: seq<Built>, k: nat, i: nat) returns (j: nat)
    requires k < |built| && i < |built[k].raws|
    ensures j < |Flat(built)| && Flat(built)[j] == Item(built[k].id, i, built[k].raws[i])
    decreases |built|
  {
    var init, last := built[..|built| - 1], built[|built| - 1];
    if k == |built| - 1 {
      j := |Flat(init)| + i;
    } else {
      assert init[k] == built[k];
      j := ItemIsPlaced(init, k, i);
    }
  }

  lemma {:induction false} PlacedItemComesFrom(built: seq<Built>, j: nat) returns (k: nat, i: nat)
    requires j < |Flat(built)|
    ensures k < |built| && i < |built[k].raws| && Flat(built)[j] == Item(built[k].id, i, built[k].raws[i])
    decreases |built|
  {
    var init := built[..|built| - 1];
    if j < |Flat(init)| {
      k, i := PlacedItemComesFrom(init, j);
      assert init[k] == built[k];
    } else {
      k, i := |built| - 1, j - |Flat(init)|;
    }
  }

  /** Record `i` of a recorder has its place among all items. */
  lemma RecordHasItem(logs: map<string, seq<Bytes>>, id: string, i: nat) returns (j: nat)
    requires id in logs && i < |logs[id]|
    ensures j < |AllItems(logs)| && AllItems(logs)[j] == Item(id, i, logs[id][i])
  {
    var ids := SortedIds(logs.Keys);
    assert id in Elements(ids);
    var k :| 0 <= k < |ids| && ids[k] == id;
    j := ItemIsPlaced(InIdOrder(logs, ids), k, i);
  }

  lemma ItemHasRecord(logs: map<string, seq<Bytes>>, j: nat) returns (id: string, i: nat)
    requires j < |AllItems(logs)|
    ensures id in logs && i < |logs[id]| && AllItems(logs)[j] == Item(id, i, logs[id][i])
  {
    var ids := SortedIds(logs.Keys);
    var k;
    k, i := PlacedItemComesFrom(InIdOrder(logs, ids), j);
    id := ids[k];
  }

  lemma BuiltLeafMatches(w: World, stored: seq<Log>, logs: map<string, seq<Bytes>>, j: nat)
    requires StoresAll(w, stored, logs) && j < |AllItems(logs)|
    ensures LeafMatches(w, stored, EntryAt(w, AllItems(logs), j))
  {
    var id, i := ItemHasRecord(logs, j);
    assert HasLog(stored, id);
    var l :| l in stored && l.id == id;
    assert Stores(w, l, logs[id]);
    DistinctIdsDetermineLogs(stored);
    FindsStored(stored, l, i);
    HexIsLower(LeafHash(w.sha, l.records[i].raw));
  }

  /** Looking up a contiguous log by position finds the record there. */
  lemma FindsStored(stored: seq<Log>, l: Log, i: nat)
    requires OneLogPerId(stored) && l in stored && i < |l.records|
    requires forall k :: 0 <= k < |l.records| ==> l.records[k].payload.seqno == k
    ensures FindRecord(stored, l.id, l.run, i) == Some(l.records[i])
  {
    var found := FindRecord(stored, l.id, l.run, i);
    assert l.records[i] in l.records;
    assert found.Some?;
    var m :| m in stored && m.id == l.id && m.run == l.run && found.value in m.records;
    assert m == l;
    var k :| 0 <= k < |l.records| && l.records[k] == found.value;
  }

  /** The view carries the built anchors. */
  ghost predicate Carries(art: Artifact, file: AnchorFile) {
    && AnchorsUsable(art)
    && art.anchors.value.log == file.log && art.anchors.value.head == file.head && art.anchors.value.entries == file.entries
  }

  lemma BuiltEntriesPass(w: World, pub: Publisher, logId: string, art: Artifact, logs: map<string, seq<Bytes>>, file: AnchorFile)
    requires FileBuilt(w, pub, logId, logs, file) && Carries(art, file) && StoresAll(w, art.logs, logs)
    ensures InclusionOK(w, art) && LeavesOK(w, art)
  {
    var items, entries := AllItems(logs), file.entries;
    var root := MerkleRoot(w.sha, LeavesOf(w.sha, items));
    DecodeOfHex(root);
    forall e | e in entries
      ensures EntryIncluded(w, root, |items|, e) && LeafMatches(w, art.logs, e)
    {
      var j :| 0 <= j < |entries| && entries[j] == e;
      EntryIsIncluded(w, items, j);
      BuiltLeafMatches(w, art.logs, logs, j);
    }
    var l := art.logs[0];
    assert l in art.logs && Stores(w, l, logs[l.id]);
    var _ := RecordHasItem(logs, l.id, 0);
  }

  lemma BuiltWindowPasses(w: World, art: Artifact, run: string, logs: map<string, seq<Bytes>>, entries: seq<AnchorEntry>)
    requires IsView(art, run) && AnchorsUsable(art) && art.anchors.value.entries == entries
    requires EntriesBuilt(w, entries, AllItems(logs)) && StoresAll(w, art.logs, logs)
    ensures WindowOK(art)
  {
    ViewLogs(art, run);
    forall l | l in art.logs
      ensures FullyAnchored(entries, l)
    {
      forall r | r in l.records
        ensures AnchoredAtLeast(entries, l.id, r.payload.seqno)
      {
        RecordIsAnchored(w, logs, entries, l, r);
      }
      assert Stores(w, l, logs[l.id]);
      assert AnchoredAtLeast(entries, l.id, l.records[0].payload.seqno);
    }
  }

  lemma RecordIsAnchored(w: World, logs: map<string, seq<Bytes>>, entries: seq<AnchorEntry>, l: Log, r: Record)
    requires l.id in logs && Stores(w, l, logs[l.id]) && r in l.records
    requires EntriesBuilt(w, entries, AllItems(logs))
    ensures AnchoredAtLeast(entries, l.id, r.payload.seqno)
  {
    var i :| 0 <= i < |l.records| && l.records[i] == r;
    var j := RecordHasItem(logs, l.id, i);
    assert entries[j] in entries;
  }

  /** Anchors built over stored logs pass checks o, p and q of any view that
      stores those logs, in any order, and carries those anchors. */
  lemma BuiltAnchorsPass(w: World, pub: Publisher, logId: string, art: Artifact, run: string,
                         logs: map<string, seq<Bytes>>, file: AnchorFile)
    requires FileBuilt(w, pub, logId, logs, file) && Carries(art, file)
    requires IsView(art, run) && StoresAll(w, art.logs, logs)
    ensures Passes(w, art, O) && Passes(w, art, P) && Passes(w, art, Q)
  {
    assert Passes(w, art, O) && Passes(w, art, P) by { BuiltEntriesPass(w, pub, logId, art, logs, file); }
    assert Passes(w, art, Q) by { BuiltWindowPasses(w, art, run, logs, file.entries); }
  }

  /** Base64 decodes, and signing yields what verification accepts. */
  ghost predicate Publishable(w: World, pub: Publisher, public: Bytes) {
    && (forall b :: w.stdBase64(pub.base64(b)) == Some(b))
    && (forall m :: |pub.sign(m)| == SIGNATURE_SIZE && w.verify(public, m, pub.sign(m)))
  }

  /** The built tree head passes check n under the published log key. */
  lemma BuiltHeadPasses(w: World, pub: Publisher, logId: string, public: Bytes, art: Artifact,
                        logs: map<string, seq<Bytes>>, file: AnchorFile)
    requires FileBuilt(w, pub, logId, logs, file) && Carries(art, file) && Publishable(w, pub, public) && ReadsJson(w)
    requires var key := ToLower(art.manifest.anchor.value.logKey); key in art.keys && art.keys[key] == public
    ensures Passes(w, art, N)
  {
    var h := HeadOver(w, logId, logs);
    var msg := Encoded(HeadValue(h));
    EncodedIsCanonical(w, HeadValue(h));
    assert w.signedHead(msg) == Some(h) && w.canonical(msg);
    assert w.stdBase64(pub.base64(msg)) == Some(msg) && w.stdBase64(pub.base64(pub.sign(msg))) == Some(pub.sign(msg));
  }
}
