/** What each rung says, in the fields of the artifact and nothing else. */
module RungMeanings {
  import opened Basics
  import opened Merkle
  import opened Records
  import opened Evidence
  import opened Chain
  import opened Anchoring
  import opened Rungs
  import opened Completeness
  import Grading

  // ----- Rung zero -----

  /** Record `i` of a log: readable, signed by its published key, canonical, valid,
      attributed to the log, in order and chained to the record before. */
  ghost predicate RecordStands(w: World, keys: map<string, Bytes>, l: Log, i: nat)
    requires i < |l.records|
  {
    var r := l.records[i];
    var p := r.payload;
    && !r.lineErr && !r.parseErr
    && ToLower(p.key) in keys && |r.signature| == 64 && w.verify(keys[ToLower(p.key)], r.raw, r.signature)
    && w.canonical(r.raw) && w.schema(r.raw, p.typ)
    && p.v == 1 && p.recorder == l.id && p.run == l.run
    && if i == 0 then p.seqno == 0 && |p.prev| == 64 && forall k :: 0 <= k < 64 ==> p.prev[k] == '0'
       else p.seqno > l.records[i - 1].payload.seqno && p.prev == Hex(w.sha(l.records[i - 1].raw))
  }

  ghost predicate LogStands(w: World, keys: map<string, Bytes>, l: Log) {
    l.records != [] && forall i :: 0 <= i < |l.records| ==> RecordStands(w, keys, l, i)
  }

  ghost predicate FilesValid(art: Artifact) {
    && (art.anchors.Some? ==> art.anchors.value.schemaOK)
    && forall s :: s in art.statements ==> !s.signatureUV && s.signatureOK && s.canonicalOK && s.schemaOK
  }

  /** Rung zero, exactly. */
  lemma RungZeroExactly(w: World, art: Artifact)
    requires LoadedLogs(w, art)
    ensures RungOK(w, art, 0) <==>
              art.logs != [] && (forall l :: l in art.logs ==> LogStands(w, art.keys, l)) && FilesValid(art)
  {
    if RungOK(w, art, 0) {
      assert Passes(w, art, D) && Passes(w, art, E) && Passes(w, art, W);
      forall l | l in art.logs
        ensures LogStands(w, art.keys, l)
      {
        RungZeroLog(w, art, l);
      }
    }
    if art.logs != [] && (forall l :: l in art.logs ==> LogStands(w, art.keys, l)) && FilesValid(art) {
      StandingLogsPass(w, art);
    }
  }

  lemma RungZeroLog(w: World, art: Artifact, l: Log)
    requires LoadedLogs(w, art) && l in art.logs && AllOrdered(art.logs) && AllLinked(art.logs) && ClosedSchemasOK(art)
    ensures LogStands(w, art.keys, l)
  {
    forall i | 0 <= i < |l.records|
      ensures RecordStands(w, art.keys, l, i)
    {
      var r := l.records[i];
      InAllRecords(art.logs, r);
      assert Loaded(w, art.keys, r) && OrderedAt(l, i) && LinkedAt(l.records, i);
      if i > 0 {
        assert l.records[i - 1] in l.records && Loaded(w, art.keys, l.records[i - 1]) && OrderedAt(l, i - 1);
      }
    }
  }

  lemma StandingRecord(w: World, keys: map<string, Bytes>, l: Log, i: nat)
    requires LogStands(w, keys, l) && i < |l.records| && forall r :: r in l.records ==> Loaded(w, keys, r)
    ensures AuthenticOK(l.records[i]) && l.records[i].schemaOK && OrderedAt(l, i) && LinkedAt(l.records, i)
  {
    assert RecordStands(w, keys, l, i) && l.records[i] in l.records;
    if i > 0 {
      assert RecordStands(w, keys, l, i - 1) && l.records[i - 1] in l.records;
    } else {
      assert l.records[0].payload.prev == ZeroPrev();
    }
  }

  lemma StandingLogsPass(w: World, art: Artifact)
    requires LoadedLogs(w, art) && art.logs != [] && (forall l :: l in art.logs ==> LogStands(w, art.keys, l)) && FilesValid(art)
    ensures RungOK(w, art, 0)
  {
    forall l | l in art.logs
      ensures OrderOK(l) && LinksOK(l.records)
      ensures forall r :: r in l.records ==> AuthenticOK(r) && r.schemaOK
    {
      StandingLog(w, art.keys, l);
    }
    forall r | r in AllRecords(art.logs)
      ensures AuthenticOK(r) && r.schemaOK
    {
      InAllRecords(art.logs, r);
    }
    var l := art.logs[0];
    assert l in art.logs && LogStands(w, art.keys, l) && l.records[0] in l.records;
    InAllRecords(art.logs, l.records[0]);
    RungZeroFrom(w, art);
  }

  lemma StandingLog(w: World, keys: map<string, Bytes>, l: Log)
    requires LogStands(w, keys, l) && forall r :: r in l.records ==> Loaded(w, keys, r)
    ensures OrderOK(l) && LinksOK(l.records)
    ensures forall r :: r in l.records ==> AuthenticOK(r) && r.schemaOK
  {
    forall i | 0 <= i < |l.records|
      ensures AuthenticOK(l.records[i]) && l.records[i].schemaOK && OrderedAt(l, i) && LinkedAt(l.records, i)
    {
      StandingRecord(w, keys, l, i);
    }
  }

  // ----- Rung one -----

  /** A log that opens with an interval, counts without a gap, ends in its only
      close, which commits to the count and to the record before, beats, and keeps
      the interval and tolerance it declares. */
  ghost predicate LogCloses(w: World, rs: seq<Record>) {
    && |rs| >= 2
    && rs[0].payload.typ == Open && rs[0].payload.hmax > 0
    && (forall i :: 0 <= i < |rs| ==> !rs[i].lineErr && !rs[i].parseErr && rs[i].payload.seqno == i)
    && (forall i :: 0 <= i < |rs| ==> (rs[i].payload.typ == Close <==> i == |rs| - 1))
    && rs[|rs| - 1].payload.count == |rs| && rs[|rs| - 1].payload.head == rs[|rs| - 2].hash
    && (exists i :: 0 <= i < |rs| && rs[i].payload.typ == Heartbeat)
    && forall i :: 1 <= i < |rs| ==> GapKept(w, rs, i)
  }

  /** The gap before record `i` is at most the declared seconds. */
  ghost predicate GapKept(w: World, rs: seq<Record>, i: int)
    requires 1 <= i < |rs|
  {
    var before, after := w.time(rs[i - 1].payload.ts), w.time(rs[i].payload.ts);
    && before.Some? && after.Some?
    && 0 <= after.value - before.value <= (rs[0].payload.hmax + rs[0].payload.htol) * 1_000_000_000
  }

  ghost predicate SpacingInBound(rs: seq<Record>) {
    rs != [] ==> -9_223_372_036 <= rs[0].payload.hmax + rs[0].payload.htol <= 9_223_372_036
  }

  lemma LogClosesExactly(w: World, rs: seq<Record>)
    requires SpacingInBound(rs)
    ensures LogCloses(w, rs) <==> OpenOK(rs) && ContiguousOK(rs) && HeartbeatOK(w, rs) && CloseOK(rs)
  {
    HeartbeatExactWithinBound(w, rs);
    if rs != [] {
      var seconds := rs[0].payload.hmax + rs[0].payload.htol;
      forall i | 1 <= i < |rs|
        ensures GapKept(w, rs, i) <==> WithinSeconds(w, rs, i, seconds)
      {
      }
    }
  }

  /** Rung one, exactly, where the declared spacing is in bound. */
  lemma RungOneExactly(w: World, art: Artifact)
    requires forall l :: l in art.logs ==> SpacingInBound(l.records)
    ensures RungOK(w, art, 1) <==> forall l :: l in art.logs ==> LogCloses(w, l.records)
  {
    forall l | l in art.logs
      ensures LogCloses(w, l.records) <==> OpenOK(l.records) && ContiguousOK(l.records) && HeartbeatOK(w, l.records) && CloseOK(l.records)
    {
      LogClosesExactly(w, l.records);
    }
    if RungOK(w, art, 1) {
      RungOneLogs(w, art);
    }
    if forall l :: l in art.logs ==> LogCloses(w, l.records) {
      RungOneFrom(w, art);
    }
  }

  lemma RungOneFrom(w: World, art: Artifact)
    requires AllOpen(art.logs) && AllContiguous(art.logs) && AllHeartbeat(w, art.logs) && AllClose(art.logs)
    ensures RungOK(w, art, 1)
  {
    assert Passes(w, art, F) && Passes(w, art, G) && Passes(w, art, H) && Passes(w, art, I);
    forall id | id in RungChecks(1)
      ensures Passes(w, art, id)
    {
      assert id == F || id == G || id == H || id == I;
    }
  }

  /** A run is reported open exactly when some log that opened with an interval
      does not end in a close record. */
  lemma OpenExactly(w: World, art: Artifact, rep: Grading.RunReport)
    requires Grading.ReportMeans(w, art, rep)
    ensures rep.open <==> exists l :: l in art.logs && l.records != [] && l.records[0].payload.hmax > 0
                                    && l.records[|l.records| - 1].payload.typ != Close
  {
    if rep.open {
      var l :| l in art.logs && EndsOpen(l.records);
    }
    if l :| l in art.logs && l.records != [] && l.records[0].payload.hmax > 0 && l.records[|l.records| - 1].payload.typ != Close {
      assert EndsOpen(l.records);
    }
  }

  // ----- Rung two -----

  /** Every record of the log verified under this one non-empty fingerprint, and the
      manifest does not name another. */
  ghost predicate SignedThroughout(l: Log, key: string) {
    && l.records != [] && key != "" && (l.key == "" || ToLower(l.key) == key)
    && forall r :: r in l.records ==> !r.signatureUV && r.signatureOK && ToLower(r.payload.key) == key
  }

  ghost predicate HasOneKey(l: Log) {
    exists key :: SignedThroughout(l, key)
  }

  lemma KeyExactly(l: Log, key: string)
    ensures SignedThroughout(l, key) <==> HasKey(l) && FirstKey(l) == key
  {
    if SignedThroughout(l, key) {
      assert l.records[0] in l.records;
      assert forall i :: 0 <= i < |l.records| ==> l.records[i] in l.records;
    }
  }

  /** Some activity of a declared class has this event id. */
  ghost predicate Covers(rs: seq<Record>, classes: seq<string>, id: string) {
    exists r :: r in rs && r.payload.typ == Activity && r.payload.event.Some?
                && r.payload.event.value.cls in classes && r.payload.event.value.id == id
  }

  lemma CoversExactly(rs: seq<Record>, classes: seq<string>, id: string)
    ensures Covers(rs, classes, id) <==> id in CoveredEvents(rs, StringSet(classes))
  {
    if Covers(rs, classes, id) {
      var r :| r in rs && r.payload.typ == Activity && r.payload.event.Some?
               && r.payload.event.value.cls in classes && r.payload.event.value.id == id;
      assert IsActivity(r);
    }
  }

  /** Two logs or more with different ids, one key each and no key shared, that
      cover the same events of the declared classes, matched by id. */
  ghost predicate LogsCorrespond(art: Artifact) {
    && |art.logs| >= 2
    && (forall i, j :: 0 <= i < j < |art.logs| ==> art.logs[i].id != art.logs[j].id)
    && (forall i :: 0 <= i < |art.logs| ==> HasOneKey(art.logs[i]))
    && (forall i, j, key :: 0 <= i < j < |art.logs| ==> !(SignedThroughout(art.logs[i], key) && SignedThroughout(art.logs[j], key)))
    && art.manifest.correspondence.Some?
    && var c := art.manifest.correspondence.value;
       && c.classes != [] && c.matching == "id"
       && forall l, m, id :: l in art.logs && m in art.logs && Covers(l.records, c.classes, id) ==> Covers(m.records, c.classes, id)
  }

  /** Rung two, exactly, on top of the rungs below. */
  lemma RungTwoExactly(w: World, art: Artifact, run: string)
    requires IsView(art, run) && RungOK(w, art, 0) && RungOK(w, art, 1)
    ensures RungOK(w, art, 2) <==> LogsCorrespond(art)
  {
    if RungOK(w, art, 2) {
      forall m: nat | m <= 2
        ensures RungOK(w, art, m)
      {
        assert m == 0 || m == 1 || m == 2;
      }
      SecondRungMeaning(w, art, run);
      RungTwoAudited(w, art);
      CorrespondingLogs(art);
    }
    if LogsCorrespond(art) {
      LogsEarnRungTwo(w, art, run);
    }
  }

  lemma RungTwoAudited(w: World, art: Artifact)
    requires RungOK(w, art, 2)
    ensures CrossAuditOK(art)
  {
    assert M in RungChecks(2);
    assert Passes(w, art, M);
  }

  lemma CorrespondingLogs(art: Artifact)
    requires |art.logs| >= 2 && IdsDistinct(art.logs) && KeysPairwiseDistinct(art.logs) && CrossAuditOK(art)
    requires forall l :: l in art.logs ==> HasKey(l)
    requires SameCoverage(art.logs, StringSet(art.manifest.correspondence.value.classes))
    ensures LogsCorrespond(art)
  {
    var logs, classes := art.logs, art.manifest.correspondence.value.classes;
    forall i | 0 <= i < |logs|
      ensures HasOneKey(logs[i])
    {
      assert logs[i] in logs;
      KeyExactly(logs[i], FirstKey(logs[i]));
    }
    forall i, j, key | 0 <= i < j < |logs|
      ensures !(SignedThroughout(logs[i], key) && SignedThroughout(logs[j], key))
    {
      KeyExactly(logs[i], key);
      KeyExactly(logs[j], key);
    }
    forall l, m, id | l in logs && m in logs && Covers(l.records, classes, id)
      ensures Covers(m.records, classes, id)
    {
      CoversExactly(l.records, classes, id);
      CoversExactly(m.records, classes, id);
    }
  }

  lemma LogsEarnRungTwo(w: World, art: Artifact, run: string)
    requires IsView(art, run) && RungOK(w, art, 0) && RungOK(w, art, 1) && LogsCorrespond(art)
    ensures RungOK(w, art, 2)
  {
    var logs := art.logs;
    forall l | l in logs
      ensures RecorderOK(w, l.records) && HasKey(l)
    {
      FirstRungMakesRecordersOK(w, art, l);
      var i :| 0 <= i < |logs| && logs[i] == l;
      assert HasOneKey(logs[i]);
      var key :| SignedThroughout(l, key);
      KeyExactly(l, key);
    }
    CorrespondenceGivesKeys(art);
    CorrespondenceGivesCoverage(art);
    DistinctLogsEarnRungTwo(w, art, run);
  }

  lemma CorrespondenceGivesKeys(art: Artifact)
    requires LogsCorrespond(art) && forall l :: l in art.logs ==> HasKey(l)
    ensures KeysPairwiseDistinct(art.logs)
  {
    var logs := art.logs;
    forall i, j | 0 <= i < j < |logs| && logs[i].records != [] && logs[j].records != []
      ensures FirstKey(logs[i]) != FirstKey(logs[j])
    {
      assert logs[i] in logs && logs[j] in logs;
      KeyExactly(logs[i], FirstKey(logs[i]));
      KeyExactly(logs[j], FirstKey(logs[j]));
    }
  }

  lemma CorrespondenceGivesCoverage(art: Artifact)
    requires LogsCorrespond(art)
    ensures SameCoverage(art.logs, StringSet(art.manifest.correspondence.value.classes))
  {
    var logs, classes := art.logs, art.manifest.correspondence.value.classes;
    forall l, m, id | l in logs && m in logs && id in CoveredEvents(l.records, StringSet(classes))
      ensures id in CoveredEvents(m.records, StringSet(classes))
    {
      CoversExactly(l.records, classes, id);
      CoversExactly(m.records, classes, id);
    }
    forall l, m | l in logs && m in logs
      ensures CoveredEvents(l.records, StringSet(classes)) == CoveredEvents(m.records, StringSet(classes))
    {
      assert CoveredEvents(l.records, StringSet(classes)) <= CoveredEvents(m.records, StringSet(classes));
      assert CoveredEvents(m.records, StringSet(classes)) <= CoveredEvents(l.records, StringSet(classes));
    }
  }

  // ----- Rung three -----

  /** The tree head is signed: the log key is published, and a 64-byte signature
      under it verifies over canonical bytes that state the file's log, root and size. */
  ghost predicate HeadSigned(w: World, art: Artifact)
    requires art.manifest.anchor.Some? && art.anchors.Some?
  {
    var key, a := ToLower(art.manifest.anchor.value.logKey), art.anchors.value;
    && key in art.keys
    && exists signed, sig ::
         && w.stdBase64(a.head.signed) == Some(signed) && w.stdBase64(a.head.sig) == Some(sig)
         && |sig| == 64 && w.verify(art.keys[key], signed, sig)
         && w.canonical(signed) && w.signedHead(signed) == Some(SignedHead(a.log, a.head.root, a.head.size))
  }

  /** The text is this digest in hexadecimal, in any letter case. */
  ghost predicate Spells(text: string, d: Digest) {
    ToLower(text) == Hex(d)
  }

  /** The entry's record is in the tree: it is the record of that number in that
      recorder's log, its leaf hash is the entry's, and the proof leads to the root. */
  ghost predicate EntryStands(w: World, art: Artifact, root: Digest, e: AnchorEntry)
    requires art.anchors.Some?
  {
    exists l, proof: seq<Digest> :: StandsBy(w, art, root, e, l, proof)
  }

  ghost predicate StandsBy(w: World, art: Artifact, root: Digest, e: AnchorEntry, l: Log, proof: seq<Digest>)
    requires art.anchors.Some?
  {
    && l in art.logs && l.id == e.recorder && 0 <= e.seqno < |l.records|
    && Spells(e.leaf, w.sha([0x00] + l.records[e.seqno].raw))
    && |proof| == |e.proof| && (forall i :: 0 <= i < |proof| ==> Spells(e.proof[i], proof[i]))
    && RootFromProof(w.sha, w.sha([0x00] + l.records[e.seqno].raw), e.index, art.anchors.value.head.size, proof) == Some(root)
  }

  lemma DecodedSpells(text: string)
    requires DecodeHex32(text).Some?
    ensures Spells(text, DecodeHex32(text).value)
  {
    HexOfUnhex(ToLower(text));
  }

  lemma EntryStandsFrom(w: World, art: Artifact, root: Digest, e: AnchorEntry, l: Log)
    requires art.anchors.Some? && l in art.logs && NamesPosition(w, l, e)
    requires EntryIncluded(w, root, art.anchors.value.head.size, e)
    ensures EntryStands(w, art, root, e)
  {
    var leaf, proof := DecodeHex32(e.leaf).value, DecodeProof(e.proof).value;
    var raw := l.records[e.seqno].raw;
    assert LeafHash(w.sha, raw) == w.sha([0x00] + raw);
    LeafTextIsLeaf(LeafHash(w.sha, raw), e.leaf);
    forall i | 0 <= i < |proof|
      ensures Spells(e.proof[i], proof[i])
    {
      DecodedSpells(e.proof[i]);
    }
    assert StandsBy(w, art, root, e, l, proof);
  }

  /** Rung three means: the head is signed under a published key that is no
      recorder's; there are entries, all in the tree of that root and size and each
      for a stored record; and every log's last record, its close, is among them. */
  lemma ThirdRungMeaning(w: World, art: Artifact, run: string) returns (root: Digest)
    requires IsView(art, run) && LoadedLogs(w, art) && EarnsThrough(w, art, 3)
    ensures art.manifest.anchor.Some? && art.anchors.Some? && HeadSigned(w, art)
    ensures var key := ToLower(art.manifest.anchor.value.logKey);
            key != "" && forall l :: l in art.logs ==> exists k :: SignedThroughout(l, k) && k != key
    ensures art.anchors.value.entries != [] && Spells(art.anchors.value.head.root, root)
    ensures forall e :: e in art.anchors.value.entries ==> EntryStands(w, art, root, e)
    ensures forall l :: l in art.logs ==> l.records != [] && l.records[|l.records| - 1].payload.typ == Close
    ensures forall l :: l in art.logs ==> exists e :: e in art.anchors.value.entries && e.recorder == l.id && e.seqno == |l.records| - 1
  {
    assert Anchored(w, art, run);
    AnchoredIsGrounded(w, art, run);
    assert RungOK(w, art, 3);
    RungThreeHead(w, art);
    RungThreeKey(w, art, run);
    root := DecodedRoot(art).value;
    DecodedSpells(art.anchors.value.head.root);
    forall e | e in art.anchors.value.entries
      ensures EntryStands(w, art, root, e)
    {
      var l := EntryFacts(w, art, run, e);
      EntryStandsFrom(w, art, root, e, l);
    }
    forall l | l in art.logs
      ensures l.records != [] && l.records[|l.records| - 1].payload.typ == Close
      ensures exists e :: e in art.anchors.value.entries && e.recorder == l.id && e.seqno == |l.records| - 1
    {
      var e := HeadIsAnchored(w, art, run, l);
    }
  }

  lemma RungThreeHead(w: World, art: Artifact)
    requires RungOK(w, art, 3)
    ensures art.manifest.anchor.Some? && art.anchors.Some? && HeadSigned(w, art)
  {
    assert Passes(w, art, N);
    assert TreeHeadOK(w, art);
  }

  lemma RungThreeKey(w: World, art: Artifact, run: string)
    requires RungOK(w, art, 3) && IsView(art, run)
    ensures art.manifest.anchor.Some?
    ensures var key := ToLower(art.manifest.anchor.value.logKey);
            key != "" && forall l :: l in art.logs ==> exists k :: SignedThroughout(l, k) && k != key
  {
    assert Passes(w, art, U);
    ViewLogs(art, run);
    KeysAreOthers(art.logs, ToLower(art.manifest.anchor.value.logKey));
  }

  // ----- Rung four -----

  /** A statement of the run about a declared flow that confirms this event id. */
  ghost predicate Confirmed(art: Artifact, run: string, s: Statement, id: string)
    requires art.manifest.counterparty.Some?
  {
    && s in art.statements && s.payload.run == run && s.payload.flow in art.manifest.counterparty.value.flows
    && !s.payload.none && "event_id" in s.payload.received && s.payload.received["event_id"] == id && id != ""
  }

  /** A record of an event of this id leaving through a declared flow. */
  ghost predicate SentOut(art: Artifact, r: Record, id: string)
    requires art.manifest.counterparty.Some?
  {
    && (exists l :: l in art.logs && r in l.records)
    && r.payload.typ == Activity && r.payload.event.Some?
    && r.payload.event.value.dir == "out" && r.payload.event.value.cls in art.manifest.counterparty.value.flows
    && r.payload.event.value.id == id
  }

  /** A verified statement of the run under its nonce, with exactly one of an event
      id and an explicit nothing. */
  ghost predicate StatementStands(s: Statement, run: string, nonce: string) {
    && !s.lineErr && !s.parseErr && !s.signatureUV && s.signatureOK && s.canonicalOK && s.schemaOK
    && s.payload.v == 1 && s.payload.typ == "received" && s.payload.run == run && s.payload.nonce == nonce
    && s.receipt.Some?
    && ((s.receipt.value.none.None? && exists id :: id != "" && s.receipt.value.received == Some(Some(id)))
        || (s.receipt.value.received.None? && s.receipt.value.none == Some(Some(true))))
  }

  /** Rung four means: some statement of the run stands, and all readable ones do;
      every opening record carries their nonce; an event was sent out through a
      declared flow exactly when a statement confirms it; and the counterparty's
      key is no recorder's. */
  lemma FourthRungInFull(w: World, art: Artifact, run: string) returns (nonce: string)
    requires IsView(art, run) && EarnsThrough(w, art, 4)
    ensures art.manifest.counterparty.Some? && nonce != ""
    ensures exists s :: s in art.statements && StatementStands(s, run, nonce)
    ensures forall s :: s in art.statements && (s.lineErr || s.parseErr || s.payload.run == run) ==> StatementStands(s, run, nonce)
    ensures forall l :: l in art.logs && l.records != [] ==> l.records[0].payload.typ == Open && l.records[0].payload.cpNonce == nonce
    ensures forall id :: IsConfirmed(art, run, id) <==> IsSentOut(art, id)
    ensures forall l :: l in art.logs ==> exists k :: SignedThroughout(l, k) && k != ToLower(art.manifest.counterparty.value.key)
  {
    nonce := FourthRungMeaning(w, art, run);
    StatementsStand(art.statements, run, nonce);
    NonceOfRun(art, run, nonce);
    KeysAreOthers(art.logs, ToLower(art.manifest.counterparty.value.key));
    forall id
      ensures IsConfirmed(art, run, id) <==> IsSentOut(art, id)
    {
      SentExactly(art, id);
      ConfirmedExactly(art, run, StatementsForRun(art.statements, run), nonce, id);
    }
  }

  ghost predicate IsConfirmed(art: Artifact, run: string, id: string)
    requires art.manifest.counterparty.Some?
  {
    exists s :: Confirmed(art, run, s, id)
  }

  ghost predicate IsSentOut(art: Artifact, id: string)
    requires art.manifest.counterparty.Some?
  {
    exists r :: SentOut(art, r, id)
  }

  lemma StatementsStand(statements: seq<Statement>, run: string, nonce: string)
    requires StatementsForRun(statements, run) != []
    requires forall s :: s in StatementsForRun(statements, run) ==> StatementVerified(s) && Bound(s, run, nonce)
    ensures exists s :: s in statements && StatementStands(s, run, nonce)
    ensures forall s :: s in statements && (s.lineErr || s.parseErr || s.payload.run == run) ==> StatementStands(s, run, nonce)
  {
    var chosen := StatementsForRun(statements, run);
    forall s | s in chosen
      ensures StatementStands(s, run, nonce)
    {
      BoundStands(s, run, nonce);
    }
    assert chosen[0] in chosen;
  }

  lemma NonceOfRun(art: Artifact, run: string, nonce: string)
    requires IsView(art, run) && RunNonce(art.logs, run, nonce)
    ensures nonce != ""
    ensures forall l :: l in art.logs && l.records != [] ==> l.records[0].payload.typ == Open && l.records[0].payload.cpNonce == nonce
  {
  }

  lemma KeysAreOthers(logs: seq<Log>, key: string)
    requires forall l :: l in logs ==> HasKey(l) && FirstKey(l) != key
    ensures forall l :: l in logs ==> exists k :: SignedThroughout(l, k) && k != key
  {
    forall l | l in logs
      ensures exists k :: SignedThroughout(l, k) && k != key
    {
      KeyExactly(l, FirstKey(l));
    }
  }

  lemma BoundStands(s: Statement, run: string, nonce: string)
    requires StatementVerified(s) && Bound(s, run, nonce)
    ensures StatementStands(s, run, nonce)
  {
    match s.receipt.value.received {
      case Some(body) => assert s.receipt.value.received == Some(Some(body.value));
      case None =>
    }
  }

  lemma SentExactly(art: Artifact, id: string)
    requires art.manifest.counterparty.Some?
    ensures IsSentOut(art, id) <==> id in RecordedOut(AllRecords(art.logs), Flows(art))
  {
    if r :| SentOut(art, r, id) {
      InAllRecords(art.logs, r);
      assert IsActivity(r);
    }
    if id in RecordedOut(AllRecords(art.logs), Flows(art)) {
      var r :| r in AllRecords(art.logs) && IsActivity(r) && r.payload.event.value.dir == "out"
               && r.payload.event.value.cls in Flows(art) && r.payload.event.value.id == id;
      InAllRecords(art.logs, r);
      assert SentOut(art, r, id);
    }
  }

  lemma ConfirmedExactly(art: Artifact, run: string, statements: seq<Statement>, nonce: string, id: string)
    requires art.manifest.counterparty.Some? && statements == StatementsForRun(art.statements, run)
    requires forall s :: s in statements ==> Bound(s, run, nonce)
    ensures IsConfirmed(art, run, id) <==> id in ConfirmedIn(statements, Flows(art))
  {
    if s :| Confirmed(art, run, s, id) {
      assert s in statements && Confirms(s, Flows(art));
    }
    if id in ConfirmedIn(statements, Flows(art)) {
      var s :| s in statements && Confirms(s, Flows(art)) && s.payload.received[EVENT_ID] == id;
      assert Confirmed(art, run, s, id);
    }
  }
}
