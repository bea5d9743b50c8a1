/** Producer and checker together: an honestly produced run earns its rungs. */
module Completeness {
  import opened Basics
  import opened Records
  import opened Evidence
  import opened Anchoring
  import opened Rungs
  import opened Wire
  import opened Producer
  import opened AnchorBuilder
  import opened Chain

  /** One recorder of a run: who it is, how it signs, what it records. */
  datatype Recorder = Recorder(who: Identity, public: Bytes, sign: Signer, plans: seq<Plan>)

  function Raws(out: seq<SignedRecord>): (raws: seq<Bytes>)
    ensures |raws| == |out| && forall i :: 0 <= i < |out| ==> raws[i] == out[i].payload
  {
    seq(|out|, i requires 0 <= i < |out| => out[i].payload)
  }

  /** The built logs by recorder id. */
  function LogMap(recorders: seq<Recorder>, outs: seq<seq<SignedRecord>>): map<string, seq<Bytes>>
    requires |recorders| == |outs|
  {
    if recorders == [] then map[]
    else
      var n := |recorders| - 1;
      LogMap(recorders[..n], outs[..n])[recorders[n].who.recorder := Raws(outs[n])]
  }

  /** Every plan of every recorder is built, and the anchors over all of them. */
  ghost predicate RunBuilt(w: World, recorders: seq<Recorder>, pub: Publisher, logId: string,
                           outs: seq<seq<SignedRecord>>, file: AnchorFile) {
    && |outs| == |recorders|
    && (forall k :: 0 <= k < |recorders| ==> LogBuilt(w, recorders[k], outs[k]))
    && FileBuilt(w, pub, logId, LogMap(recorders, outs), file)
  }

  ghost predicate LogBuilt(w: World, r: Recorder, out: seq<SignedRecord>) {
    BuiltFrom(w.sha, r.sign, r.who, r.plans, out) && |out| == |r.plans|
  }

  /** Build each recorder's log, then the anchors over the logs. */
  method ProduceRun(w: World, recorders: seq<Recorder>, pub: Publisher, logId: string)
    returns (outs: seq<seq<SignedRecord>>, file: AnchorFile, raw: Option<Bytes>)
    ensures raw.Some? ==> RunBuilt(w, recorders, pub, logId, outs, file) && raw.value == Encoded(FileValue(file))
  {
    file := AnchorFile(logId, TreeHead(0, "", "", ""), []);
    outs := [];
    for k := 0 to |recorders|
      invariant |outs| == k
      invariant forall i :: 0 <= i < k ==> LogBuilt(w, recorders[i], outs[i])
    {
      var r := recorders[k];
      var out, ok := BuildRecords(w.sha, r.sign, r.who, r.plans);
      if !ok {
        return outs, file, None;
      }
      outs := outs + [out];
    }
    file, raw := BuildAnchors(w, pub, logId, LogMap(recorders, outs));
  }

  // ----- Honest runs -----

  ghost predicate HonestRecorder(w: World, keys: map<string, Bytes>, run: string, r: Recorder) {
    && Signs(w, r.sign, r.public) && HonestPlans(w, StandardNames(), r.plans)
    && Publishes(keys, r.who, r.public) && r.who.run == run
  }

  /** Honest recorders of one run with pairwise different ids. */
  ghost predicate HonestRun(w: World, keys: map<string, Bytes>, run: string, recorders: seq<Recorder>) {
    && ReadsJson(w) && recorders != []
    && (forall k :: 0 <= k < |recorders| ==> HonestRecorder(w, keys, run, recorders[k]))
    && forall j, k :: 0 <= j < k < |recorders| ==> recorders[j].who.recorder != recorders[k].who.recorder
  }

  /** The view is what loading the published run yields. */
  ghost predicate LoadsRun(w: World, art: Artifact, run: string, recorders: seq<Recorder>,
                           outs: seq<seq<SignedRecord>>, file: AnchorFile) {
    && IsView(art, run) && Carries(art, file)
    && |art.logs| == |recorders| == |outs|
    && forall k :: 0 <= k < |recorders| ==> LoadsLog(w, art, recorders[k], outs[k], art.logs[k])
  }

  ghost predicate LoadsLog(w: World, art: Artifact, r: Recorder, out: seq<SignedRecord>, l: Log) {
    && l.id == r.who.recorder && l.run == r.who.run && l.key == r.who.fingerprint
    && LoadsAs(w, art.keys, out, l.records)
  }

  /** A log that passes everything it can pass on its own. */
  ghost predicate GoodLog(w: World, l: Log) {
    && RecorderOK(w, l.records) && OrderOK(l) && LinksOK(l.records) && OpenOK(l.records)
    && ContiguousOK(l.records) && CloseOK(l.records)
  }

  lemma HonestLog(w: World, art: Artifact, run: string, r: Recorder, out: seq<SignedRecord>, l: Log)
    requires ReadsJson(w) && HonestRecorder(w, art.keys, run, r) && LogBuilt(w, r, out) && LoadsLog(w, art, r, out, l)
    ensures GoodLog(w, l) && Stores(w, l, Raws(out)) && AllPlannedAs(w, StandardNames(), r.who, r.plans, out, l.records)
  {
    HonestLogPasses(w, r.sign, r.public, art.keys, r.who, r.plans, out, l.records);
    assert Log(r.who.recorder, r.who.run, r.who.fingerprint, l.records) == l;
    OrderedLogStores(w, art.keys, out, l);
  }

  lemma OrderedLogStores(w: World, keys: map<string, Bytes>, out: seq<SignedRecord>, l: Log)
    requires LoadsAs(w, keys, out, l.records) && OrderOK(l) && ContiguousOK(l.records)
    ensures Stores(w, l, Raws(out))
  {
    forall i | 0 <= i < |out|
      ensures l.records[i].payload.seqno == i && w.decode(out[i].payload).payload.run == l.run
    {
      assert OrderedAt(l, i) && Loaded(w, keys, l.records[i]);
    }
  }

  lemma {:induction false} LogMapHolds(recorders: seq<Recorder>, outs: seq<seq<SignedRecord>>, k: nat)
    requires |recorders| == |outs| && k < |recorders|
    requires forall i, j :: 0 <= i < j < |recorders| ==> recorders[i].who.recorder != recorders[j].who.recorder
    ensures recorders[k].who.recorder in LogMap(recorders, outs)
    ensures LogMap(recorders, outs)[recorders[k].who.recorder] == Raws(outs[k])
    decreases |recorders|
  {
    var n := |recorders| - 1;
    if k < n {
      LogMapHolds(recorders[..n], outs[..n], k);
    }
  }

  lemma {:induction false} LogMapKeys(recorders: seq<Recorder>, outs: seq<seq<SignedRecord>>, id: string) returns (k: nat)
    requires |recorders| == |outs| && id in LogMap(recorders, outs)
    ensures k < |recorders| && recorders[k].who.recorder == id
    decreases |recorders|
  {
    var n := |recorders| - 1;
    if recorders[n].who.recorder == id {
      k := n;
    } else {
      k := LogMapKeys(recorders[..n], outs[..n], id);
    }
  }

  /** The view stores exactly the logs the anchors were built over. */
  lemma HonestRunIsStored(w: World, art: Artifact, run: string, recorders: seq<Recorder>, pub: Publisher, logId: string,
                          outs: seq<seq<SignedRecord>>, file: AnchorFile)
    requires HonestRun(w, art.keys, run, recorders) && RunBuilt(w, recorders, pub, logId, outs, file)
    requires LoadsRun(w, art, run, recorders, outs, file)
    ensures StoresAll(w, art.logs, LogMap(recorders, outs))
    ensures forall l :: l in art.logs ==> GoodLog(w, l)
  {
    var logs := LogMap(recorders, outs);
    forall k | 0 <= k < |art.logs|
      ensures GoodLog(w, art.logs[k]) && art.logs[k].id == recorders[k].who.recorder
      ensures art.logs[k].id in logs && Stores(w, art.logs[k], logs[art.logs[k].id])
    {
      assert HonestRecorder(w, art.keys, run, recorders[k]) && LogBuilt(w, recorders[k], outs[k]);
      assert LoadsLog(w, art, recorders[k], outs[k], art.logs[k]);
      HonestLog(w, art, run, recorders[k], outs[k], art.logs[k]);
      LogMapHolds(recorders, outs, k);
    }
    forall id | id in logs
      ensures HasLog(art.logs, id)
    {
      var k := LogMapKeys(recorders, outs, id);
      assert art.logs[k] in art.logs;
    }
  }

  /** Producer completeness, end to end: honest plans for recorders with distinct
      ids, built, anchored, published and loaded, pass checks o, p and q, and every
      log meets rung one on its own. */
  lemma HonestRunPasses(w: World, art: Artifact, run: string, recorders: seq<Recorder>, pub: Publisher, logId: string,
                        outs: seq<seq<SignedRecord>>, file: AnchorFile)
    requires HonestRun(w, art.keys, run, recorders) && RunBuilt(w, recorders, pub, logId, outs, file)
    requires LoadsRun(w, art, run, recorders, outs, file)
    ensures Passes(w, art, O) && Passes(w, art, P) && Passes(w, art, Q)
    ensures forall l :: l in art.logs ==> RecorderOK(w, l.records)
  {
    HonestRunIsStored(w, art, run, recorders, pub, logId, outs, file);
    BuiltAnchorsPass(w, pub, logId, art, run, LogMap(recorders, outs), file);
  }

  // ----- Up to rung three -----

  /** The covered event ids a recorder plans to record. */
  function PlannedEvents(plans: seq<Plan>, classes: set<string>): set<string> {
    set p | p in PlannedActivities(plans) && p.cls in classes :: p.id
  }

  function PlannedEvent(p: Plan): Option<Event> {
    PayloadIn(StandardNames(), p.extra).event
  }

  function PlannedActivities(plans: seq<Plan>): set<Event> {
    set i | 0 <= i < |plans| && plans[i].typ == "activity" && PlannedEvent(plans[i]).Some? :: PlannedEvent(plans[i]).value
  }

  /** What the manifest and the recorders must provide for the second rung. */
  ghost predicate Corresponds(art: Artifact, recorders: seq<Recorder>) {
    && |recorders| >= 2
    && (forall k :: 0 <= k < |recorders| ==> recorders[k].who.fingerprint != "")
    && (forall j, k :: 0 <= j < k < |recorders| ==>
          ToLower(recorders[j].who.fingerprint) != ToLower(recorders[k].who.fingerprint))
    && art.manifest.correspondence.Some?
    && var c := art.manifest.correspondence.value;
       && c.classes != [] && c.matching == "id"
       && forall j, k :: 0 <= j < |recorders| && 0 <= k < |recorders| ==>
            PlannedEvents(recorders[j].plans, StringSet(c.classes)) == PlannedEvents(recorders[k].plans, StringSet(c.classes))
  }

  /** The published log key is its own and verifies the built heads. */
  ghost predicate Independent(w: World, art: Artifact, recorders: seq<Recorder>, pub: Publisher)
    requires art.manifest.anchor.Some?
  {
    var key := ToLower(art.manifest.anchor.value.logKey);
    && key != "" && key in art.keys && Publishable(w, pub, art.keys[key])
    && forall k :: 0 <= k < |recorders| ==> ToLower(recorders[k].who.fingerprint) != key
  }

  /** Every file satisfies its schema. */
  ghost predicate SchemasHold(w: World, art: Artifact) {
    && (forall l, r :: l in art.logs && r in l.records ==> w.schema(r.raw, r.payload.typ))
    && (art.anchors.Some? ==> art.anchors.value.schemaOK)
    && forall s :: s in art.statements ==> StatementVerified(s)
  }

  lemma RecordsAreVerified(w: World, art: Artifact, r: Record)
    requires LoadedLogs(w, art) && SchemasHold(w, art) && (forall l :: l in art.logs ==> RecorderOK(w, l.records))
    requires r in AllRecords(art.logs)
    ensures AuthenticOK(r) && r.schemaOK
  {
    InAllRecords(art.logs, r);
    var l :| l in art.logs && r in l.records;
    RecorderIsAuthentic(w, l.records, r);
    assert Loaded(w, art.keys, r);
  }

  lemma RecorderIsAuthentic(w: World, rs: seq<Record>, r: Record)
    requires RecorderOK(w, rs) && r in rs
    ensures AuthenticOK(r)
  {
    var i :| 0 <= i < |rs| && rs[i] == r;
    assert ChainedAt(rs, i);
  }

  lemma GoodLogsEarnRungZero(w: World, art: Artifact)
    requires art.logs != [] && (forall l :: l in art.logs ==> GoodLog(w, l)) && LoadedLogs(w, art) && SchemasHold(w, art)
    ensures RungOK(w, art, 0)
  {
    forall r | r in AllRecords(art.logs)
      ensures AuthenticOK(r) && r.schemaOK
    {
      RecordsAreVerified(w, art, r);
    }
    var l := art.logs[0];
    assert l in art.logs && GoodLog(w, l) && l.records[0] in l.records;
    InAllRecords(art.logs, l.records[0]);
    assert AllOrdered(art.logs) && AllLinked(art.logs);
    RungZeroFrom(w, art);
  }

  lemma RungZeroFrom(w: World, art: Artifact)
    requires SignaturesOK(art) && CanonicalPayloadsOK(art) && AllOrdered(art.logs) && AllLinked(art.logs) && ClosedSchemasOK(art)
    ensures RungOK(w, art, 0)
  {
  }

  lemma GoodLogsEarnRungOne(w: World, art: Artifact)
    requires forall l :: l in art.logs ==> GoodLog(w, l)
    ensures RungOK(w, art, 1)
  {
    assert AllOpen(art.logs) && AllContiguous(art.logs) && AllHeartbeat(w, art.logs) && AllClose(art.logs);
  }

  /** A log's one verified key is its recorder's fingerprint. */
  lemma HonestKey(w: World, sp: Spellings, who: Identity, plans: seq<Plan>, out: seq<SignedRecord>, l: Log)
    requires plans != [] && AllPlannedAs(w, sp, who, plans, out, l.records)
    requires l.key == who.fingerprint != ""
    ensures HasKey(l) && FirstKey(l) == ToLower(who.fingerprint)
  {
    forall i | 0 <= i < |l.records|
      ensures AuthenticOK(l.records[i]) && l.records[i].payload.key == who.fingerprint
    {
      assert PlannedAs(w, sp, who, plans, out, l.records, i);
    }
  }

  /** A log covers exactly the planned events. */
  lemma HonestCoverage(w: World, who: Identity, plans: seq<Plan>, out: seq<SignedRecord>, rs: seq<Record>, classes: set<string>)
    requires AllPlannedAs(w, StandardNames(), who, plans, out, rs)
    ensures CoveredEvents(rs, classes) == PlannedEvents(plans, classes)
  {
    forall i | 0 <= i < |rs|
      ensures KeepsEvent(plans, rs, i)
    {
      assert PlannedAs(w, StandardNames(), who, plans, out, rs, i);
    }
    KeptEventsCovered(plans, rs, classes);
  }

  /** The loaded record has the planned event, and is an activity iff planned as one. */
  ghost predicate KeepsEvent(plans: seq<Plan>, rs: seq<Record>, i: int)
    requires 0 <= i < |rs| == |plans|
  {
    (rs[i].payload.typ == Activity <==> plans[i].typ == "activity") && rs[i].payload.event == PlannedEvent(plans[i])
  }

  lemma KeptEventsCovered(plans: seq<Plan>, rs: seq<Record>, classes: set<string>)
    requires |rs| == |plans| && forall i :: 0 <= i < |rs| ==> KeepsEvent(plans, rs, i)
    ensures CoveredEvents(rs, classes) == PlannedEvents(plans, classes)
  {
    forall id | id in CoveredEvents(rs, classes)
      ensures id in PlannedEvents(plans, classes)
    {
      var r :| r in rs && IsActivity(r) && r.payload.event.value.cls in classes && r.payload.event.value.id == id;
      var i :| 0 <= i < |rs| && rs[i] == r;
      assert KeepsEvent(plans, rs, i);
      assert PlannedEvent(plans[i]).value in PlannedActivities(plans);
    }
    forall id | id in PlannedEvents(plans, classes)
      ensures id in CoveredEvents(rs, classes)
    {
      var e :| e in PlannedActivities(plans) && e.cls in classes && e.id == id;
      var i :| 0 <= i < |plans| && plans[i].typ == "activity" && PlannedEvent(plans[i]).Some? && PlannedEvent(plans[i]).value == e;
      assert KeepsEvent(plans, rs, i);
      assert rs[i] in rs && IsActivity(rs[i]);
    }
  }

  ghost predicate SameCoverage(logs: seq<Log>, classes: set<string>) {
    forall l, m :: l in logs && m in logs ==> CoveredEvents(l.records, classes) == CoveredEvents(m.records, classes)
  }

  lemma MapHoldsEachLog(logs: seq<Log>, l: Log)
    requires OneLogPerId(logs) && l in logs
    ensures LastWithId(logs, l.id) == Some(l)
  {
  }

  lemma DistinctKeysDiffer(logs: seq<Log>)
    requires |logs| >= 2 && OneLogPerId(logs) && KeysPairwiseDistinct(logs) && forall l :: l in logs ==> HasKey(l)
    ensures KeysDifferOK(logs)
  {
    forall i, j | 0 <= i < j < |logs|
      ensures FirstKey(LastWithId(logs, logs[i].id).value) != FirstKey(LastWithId(logs, logs[j].id).value)
    {
      assert logs[i] in logs && logs[j] in logs;
      MapHoldsEachLog(logs, logs[i]);
      MapHoldsEachLog(logs, logs[j]);
    }
  }

  lemma SameCoverageIsAudited(logs: seq<Log>, classes: set<string>)
    requires OneLogPerId(logs) && SameCoverage(logs, classes)
    ensures CrossAudited(logs, classes)
  {
    forall l, m, id | l in logs && m in logs && id in CoveredEvents(l.records, classes)
      ensures id in CoveredEvents(LastWithId(logs, m.id).value.records, classes)
    {
      MapHoldsEachLog(logs, m);
    }
  }

  /** Logs with distinct ids, distinct keys and one covered event set earn rung two. */
  lemma DistinctLogsEarnRungTwo(w: World, art: Artifact, run: string)
    requires IsView(art, run) && |art.logs| >= 2 && IdsDistinct(art.logs) && KeysPairwiseDistinct(art.logs)
    requires forall l :: l in art.logs ==> RecorderOK(w, l.records) && HasKey(l)
    requires art.manifest.correspondence.Some?
    requires var c := art.manifest.correspondence.value;
             c.classes != [] && c.matching == "id" && SameCoverage(art.logs, StringSet(c.classes))
    ensures RungOK(w, art, 2)
  {
    ViewLogs(art, run);
    DistinctIdsDetermineLogs(art.logs);
    DistinctKeysDiffer(art.logs);
    SameCoverageIsAudited(art.logs, StringSet(art.manifest.correspondence.value.classes));
    assert Passes(w, art, K) by { assert TwoRecordersOK(w, art.logs); }
    assert Passes(w, art, M) by { assert CrossAuditOK(art); }
    RungTwoFrom(w, art);
  }

  lemma RungTwoFrom(w: World, art: Artifact)
    requires Passes(w, art, K) && Passes(w, art, L) && Passes(w, art, M)
    ensures RungOK(w, art, 2)
  {
    forall id | id in RungChecks(2)
      ensures Passes(w, art, id)
    {
      assert id == K || id == L || id == M;
    }
  }

  lemma RungThreeFrom(w: World, art: Artifact)
    requires Passes(w, art, N) && Passes(w, art, O) && Passes(w, art, P) && Passes(w, art, Q) && Passes(w, art, U)
    ensures RungOK(w, art, 3)
  {
    forall id | id in RungChecks(3)
      ensures Passes(w, art, id)
    {
      assert id == N || id == O || id == U || id == P || id == Q;
    }
  }

  /** An honestly produced run earns the third rung: with a signed head under an
      independent log key, a declared scope in which the recorders plan the same
      events, and files that satisfy their schemas, every check of the table through
      rung three passes. */
  lemma HonestRunEarnsRungThree(w: World, art: Artifact, run: string, recorders: seq<Recorder>, pub: Publisher, logId: string,
                                outs: seq<seq<SignedRecord>>, file: AnchorFile)
    requires HonestRun(w, art.keys, run, recorders) && RunBuilt(w, recorders, pub, logId, outs, file)
    requires LoadsRun(w, art, run, recorders, outs, file)
    requires SchemasHold(w, art) && Corresponds(art, recorders) && Independent(w, art, recorders, pub)
    ensures Anchored(w, art, run)
  {
    HonestRunIsStored(w, art, run, recorders, pub, logId, outs, file);
    HonestLogsLoaded(w, art, recorders, outs);
    GoodLogsEarnRungZero(w, art);
    GoodLogsEarnRungOne(w, art);
    HonestLogsDiffer(w, art, run, recorders, outs);
    DistinctLogsEarnRungTwo(w, art, run);
    HonestAnchorsEarnRungThree(w, art, run, recorders, pub, logId, LogMap(recorders, outs), file);
    FourRungs(w, art);
  }

  lemma FourRungs(w: World, art: Artifact)
    requires RungOK(w, art, 0) && RungOK(w, art, 1) && RungOK(w, art, 2) && RungOK(w, art, 3)
    ensures EarnsThrough(w, art, 3)
  {
    forall m: nat | m <= 3
      ensures RungOK(w, art, m)
    {
      assert m == 0 || m == 1 || m == 2 || m == 3;
    }
  }

  lemma HonestLogsLoaded(w: World, art: Artifact, recorders: seq<Recorder>, outs: seq<seq<SignedRecord>>)
    requires |art.logs| == |recorders| == |outs|
    requires forall k :: 0 <= k < |recorders| ==> LoadsLog(w, art, recorders[k], outs[k], art.logs[k])
    ensures LoadedLogs(w, art)
  {
    forall l, r | l in art.logs && r in l.records
      ensures Loaded(w, art.keys, r)
    {
      var k :| 0 <= k < |art.logs| && art.logs[k] == l;
      assert LoadsLog(w, art, recorders[k], outs[k], l);
      var i :| 0 <= i < |l.records| && l.records[i] == r;
    }
  }

  /** One recorder's key and coverage, read off its loaded log. */
  lemma HonestLogFacts(w: World, art: Artifact, run: string, r: Recorder, out: seq<SignedRecord>, l: Log, classes: set<string>)
    requires ReadsJson(w) && HonestRecorder(w, art.keys, run, r) && LogBuilt(w, r, out) && LoadsLog(w, art, r, out, l)
    requires r.who.fingerprint != ""
    ensures HasKey(l) && FirstKey(l) == ToLower(r.who.fingerprint)
    ensures CoveredEvents(l.records, classes) == PlannedEvents(r.plans, classes)
  {
    HonestLog(w, art, run, r, out, l);
    HonestKey(w, StandardNames(), r.who, r.plans, out, l);
    HonestCoverage(w, r.who, r.plans, out, l.records, classes);
  }

  ghost predicate KeyedBy(l: Log, r: Recorder) {
    HasKey(l) && FirstKey(l) == ToLower(r.who.fingerprint)
  }

  lemma HonestLogsDiffer(w: World, art: Artifact, run: string, recorders: seq<Recorder>, outs: seq<seq<SignedRecord>>)
    requires HonestRun(w, art.keys, run, recorders) && Corresponds(art, recorders)
    requires |art.logs| == |recorders| == |outs|
    requires forall k :: 0 <= k < |recorders| ==> LogBuilt(w, recorders[k], outs[k]) && LoadsLog(w, art, recorders[k], outs[k], art.logs[k])
    ensures IdsDistinct(art.logs) && KeysPairwiseDistinct(art.logs)
    ensures forall k :: 0 <= k < |art.logs| ==> KeyedBy(art.logs[k], recorders[k])
    ensures forall l :: l in art.logs ==> HasKey(l)
    ensures SameCoverage(art.logs, StringSet(art.manifest.correspondence.value.classes))
  {
    var classes := StringSet(art.manifest.correspondence.value.classes);
    forall k | 0 <= k < |art.logs|
      ensures KeyedBy(art.logs[k], recorders[k])
      ensures CoveredEvents(art.logs[k].records, classes) == PlannedEvents(recorders[k].plans, classes)
      ensures art.logs[k].id == recorders[k].who.recorder
    {
      HonestLogFacts(w, art, run, recorders[k], outs[k], art.logs[k], classes);
    }
  }

  lemma HonestAnchorsEarnRungThree(w: World, art: Artifact, run: string, recorders: seq<Recorder>, pub: Publisher, logId: string,
                                   logs: map<string, seq<Bytes>>, file: AnchorFile)
    requires ReadsJson(w) && FileBuilt(w, pub, logId, logs, file) && Carries(art, file) && IsView(art, run)
    requires StoresAll(w, art.logs, logs) && Independent(w, art, recorders, pub)
    requires |art.logs| == |recorders| && forall k :: 0 <= k < |art.logs| ==> KeyedBy(art.logs[k], recorders[k])
    ensures RungOK(w, art, 3)
  {
    var key := ToLower(art.manifest.anchor.value.logKey);
    BuiltAnchorsPass(w, pub, logId, art, run, logs, file);
    BuiltHeadPasses(w, pub, logId, art.keys[key], art, logs, file);
    OtherKeysPass(w, art, run, recorders);
    RungThreeFrom(w, art);
  }

  lemma OtherKeysPass(w: World, art: Artifact, run: string, recorders: seq<Recorder>)
    requires IsView(art, run) && art.manifest.anchor.Some? && |art.logs| == |recorders|
    requires forall k :: 0 <= k < |art.logs| ==> KeyedBy(art.logs[k], recorders[k])
    requires var key := ToLower(art.manifest.anchor.value.logKey);
             key != "" && forall k :: 0 <= k < |recorders| ==> ToLower(recorders[k].who.fingerprint) != key
    ensures Passes(w, art, U)
  {
    var key := ToLower(art.manifest.anchor.value.logKey);
    ViewLogs(art, run);
    forall l | l in art.logs
      ensures HasKey(l) && FirstKey(l) != key
    {
      var k :| 0 <= k < |art.logs| && art.logs[k] == l;
      assert KeyedBy(art.logs[k], recorders[k]);
    }
  }
}
