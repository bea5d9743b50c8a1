/** The artifact as the checker sees it, and what each check of the rung table
    means. Every predicate here is the declarative side; the loops that decide
    them are in modules Checker and UpperChecks, and the theorems about them in
    modules Chain, Anchoring and Rungs. */
module Evidence {
  import opened Basics
  import opened Merkle
  import opened Records

  /** The predecessor of a first record: sixty-four zeros. */
  function ZeroPrev(): string {
    seq(64, _ => '0')
  }

  datatype Log = Log(id: string, run: string, key: string, records: seq<Record>)

  datatype Correspondence = Correspondence(classes: seq<string>, matching: string)

  datatype AnchorDecl = AnchorDecl(logKey: string)

  datatype CounterpartyDecl = CounterpartyDecl(flows: seq<string>, key: string)

  datatype Manifest = Manifest(
    runs: seq<string>,
    correspondence: Option<Correspondence>,
    anchor: Option<AnchorDecl>,
    counterparty: Option<CounterpartyDecl>)

  datatype TreeHead = TreeHead(size: int, root: string, sig: string, signed: string)

  datatype AnchorEntry = AnchorEntry(recorder: string, run: string, seqno: int, leaf: string, index: int, proof: seq<string>)

  datatype Anchors = Anchors(log: string, head: TreeHead, entries: seq<AnchorEntry>, schemaOK: bool)

  datatype StatementPayload = StatementPayload(
    v: int, typ: string, run: string, flow: string, nonce: string,
    received: map<string, string>, none: bool)

  /** The raw members `received` and `none` of a statement: absent, present but
      undecodable (inner None), or present with a value. */
  datatype Receipt = Receipt(received: Option<Option<string>>, none: Option<Option<bool>>)

  datatype Statement = Statement(
    payload: StatementPayload, receipt: Option<Receipt>,
    lineErr: bool, parseErr: bool,
    canonicalOK: bool, schemaOK: bool, signatureOK: bool, signatureUV: bool)

  datatype Artifact = Artifact(
    manifest: Manifest,
    keys: map<string, Bytes>,
    logs: seq<Log>,
    anchors: Option<Anchors>, anchorsErr: bool,
    statements: seq<Statement>, statementsMissing: bool, statementsErr: bool)

  // ----- Views of one run -----

  function AllRecords(logs: seq<Log>): seq<Record> {
    if logs == [] then [] else AllRecords(logs[..|logs| - 1]) + logs[|logs| - 1].records
  }

  function ArtifactRun(art: Artifact): string {
    if |art.manifest.runs| > 0 then art.manifest.runs[0]
    else if |art.logs| > 0 then art.logs[0].run
    else ""
  }

  /** The logs whose run is `run`, in order. */
  function LogsOf(logs: seq<Log>, run: string): (r: seq<Log>)
    ensures forall l :: l in r <==> l in logs && l.run == run
  {
    if logs == [] then []
    else
      var last := logs[|logs| - 1];
      assert logs == logs[..|logs| - 1] + [last];
      LogsOf(logs[..|logs| - 1], run) + if last.run == run then [last] else []
  }

  function EntriesOf(entries: seq<AnchorEntry>, run: string): (r: seq<AnchorEntry>)
    ensures forall e :: e in r <==> e in entries && e.run == run
  {
    if entries == [] then []
    else
      var last := entries[|entries| - 1];
      assert entries == entries[..|entries| - 1] + [last];
      EntriesOf(entries[..|entries| - 1], run) + if last.run == run then [last] else []
  }

  function LogsForRun(art: Artifact): seq<Log> {
    if ArtifactRun(art) == "" then art.logs else LogsOf(art.logs, ArtifactRun(art))
  }

  function ForRun(art: Artifact, run: string): Artifact {
    art.(manifest := art.manifest.(runs := [run]),
         logs := LogsOf(art.logs, run),
         anchors := match art.anchors
                    case None => None
                    case Some(a) => Some(a.(entries := EntriesOf(a.entries, run))))
  }

  /** What the per-run evaluation is given: one run, and only its logs and entries. */
  ghost predicate IsView(art: Artifact, run: string) {
    && art.manifest.runs == [run]
    && (forall l :: l in art.logs ==> l.run == run)
    && (art.anchors.Some? ==> forall e :: e in art.anchors.value.entries ==> e.run == run)
  }

  lemma {:induction false} LogsOfAll(logs: seq<Log>, run: string)
    requires forall l :: l in logs ==> l.run == run
    ensures LogsOf(logs, run) == logs
  {
    if logs != [] {
      var init, last := logs[..|logs| - 1], logs[|logs| - 1];
      assert logs == init + [last];
      LogsOfAll(init, run);
      assert LogsOf(logs, run) == LogsOf(init, run) + [last];
    }
  }

  lemma ViewLogs(art: Artifact, run: string)
    requires IsView(art, run)
    ensures ArtifactRun(art) == run && LogsForRun(art) == art.logs
  {
    LogsOfAll(art.logs, run);
  }

  lemma ForRunIsView(art: Artifact, run: string)
    ensures IsView(ForRun(art, run), run)
  {
  }

  /** The view loses nothing of the run and changes nothing else. */
  lemma ForRunKeeps(art: Artifact, run: string)
    ensures forall l :: multiset(ForRun(art, run).logs)[l] == if l.run == run then multiset(art.logs)[l] else 0
    ensures ForRun(art, run).anchors.Some? <==> art.anchors.Some?
    ensures art.anchors.Some? ==>
              && ForRun(art, run).anchors.value.(entries := art.anchors.value.entries) == art.anchors.value
              && forall e :: multiset(ForRun(art, run).anchors.value.entries)[e] ==
                             if e.run == run then multiset(art.anchors.value.entries)[e] else 0
    ensures ForRun(art, run).(manifest := art.manifest, logs := art.logs, anchors := art.anchors) == art
    ensures ForRun(art, run).manifest.(runs := art.manifest.runs) == art.manifest
  {
    forall l
      ensures multiset(LogsOf(art.logs, run))[l] == if l.run == run then multiset(art.logs)[l] else 0
    {
      LogsOfCounts(art.logs, run, l);
    }
    if art.anchors.Some? {
      forall e
        ensures multiset(EntriesOf(art.anchors.value.entries, run))[e] == if e.run == run then multiset(art.anchors.value.entries)[e] else 0
      {
        EntriesOfCounts(art.anchors.value.entries, run, e);
      }
    }
  }

  lemma {:induction false} LogsOfCounts(logs: seq<Log>, run: string, l: Log)
    ensures multiset(LogsOf(logs, run))[l] == if l.run == run then multiset(logs)[l] else 0
  {
    if logs != [] {
      var init, last := logs[..|logs| - 1], logs[|logs| - 1];
      assert logs == init + [last];
      LogsOfCounts(init, run, l);
    }
  }

  lemma {:induction false} EntriesOfCounts(entries: seq<AnchorEntry>, run: string, e: AnchorEntry)
    ensures multiset(EntriesOf(entries, run))[e] == if e.run == run then multiset(entries)[e] else 0
  {
    if entries != [] {
      var init, last := entries[..|entries| - 1], entries[|entries| - 1];
      assert entries == init + [last];
      EntriesOfCounts(init, run, e);
    }
  }

  /** All records of a loaded artifact went through parsing and verification. */
  ghost predicate LoadedLogs(w: World, art: Artifact) {
    forall l, r :: l in art.logs && r in l.records ==> Loaded(w, art.keys, r)
  }

  // ----- Check d, e, f, g, h, i: one log at a time -----

  predicate Readable(r: Record) {
    !r.lineErr && !r.parseErr
  }

  predicate OrderedAt(log: Log, i: nat)
    requires i < |log.records|
  {
    && Readable(log.records[i])
    && log.records[i].payload.v == 1
    && log.records[i].payload.recorder == log.id
    && log.records[i].payload.run == log.run
    && if i == 0 then log.records[i].payload.seqno == 0
       else log.records[i].payload.seqno > log.records[i - 1].payload.seqno
  }

  predicate OrderOK(log: Log) {
    log.records != [] && forall i :: 0 <= i < |log.records| ==> OrderedAt(log, i)
  }

  function PredecessorHash(rs: seq<Record>, i: nat): string
    requires i < |rs|
  {
    if i == 0 then ZeroPrev() else rs[i - 1].hash
  }

  predicate LinkedAt(rs: seq<Record>, i: nat)
    requires i < |rs|
  {
    Readable(rs[i]) && rs[i].payload.prev == PredecessorHash(rs, i)
  }

  predicate LinksOK(rs: seq<Record>) {
    rs != [] && forall i :: 0 <= i < |rs| ==> LinkedAt(rs, i)
  }

  predicate OpenOK(rs: seq<Record>) {
    rs != [] && rs[0].payload.typ == Open && rs[0].payload.seqno == 0 && rs[0].payload.hmax > 0
  }

  predicate ContiguousOK(rs: seq<Record>) {
    forall i :: 0 <= i < |rs| ==> Readable(rs[i]) && rs[i].payload.seqno == i
  }

  /** The last record commits to the count and to the hash before it. */
  predicate CommitsTo(rs: seq<Record>) {
    && |rs| >= 2
    && rs[|rs| - 1].payload.typ == Close
    && rs[|rs| - 1].payload.count == |rs|
    && rs[|rs| - 1].payload.head == rs[|rs| - 2].hash
  }

  predicate CloseOK(rs: seq<Record>) {
    && CommitsTo(rs)
    && forall i :: 0 <= i < |rs| - 1 ==> rs[i].payload.typ != Close
  }

  predicate EndsOpen(rs: seq<Record>) {
    rs != [] && rs[0].payload.hmax > 0 && rs[|rs| - 1].payload.typ != Close
  }

  const NANOS_PER_SECOND: int := 1_000_000_000

  /** The limit as computed: a 64-bit sum times a 64-bit second count. */
  function HeartbeatLimit(hmax: int, htol: int): int {
    Wrap64(Wrap64(hmax + htol) * NANOS_PER_SECOND)
  }

  /** The difference of two instants, saturated to 64 bits as the time library does. */
  function TimeSub(t: int, u: int): int {
    if t - u > MAX_INT64 then MAX_INT64 else if t - u < -TWO_63 then -TWO_63 else t - u
  }

  /** Records `i - 1` and `i` are in order and close enough, as the code decides it. */
  predicate SpacingOK(w: World, rs: seq<Record>, i: int, limit: int)
    requires 1 <= i < |rs|
  {
    match (w.time(rs[i - 1].payload.ts), w.time(rs[i].payload.ts))
    case (Some(t), Some(u)) => t <= u && TimeSub(u, t) <= limit
    case _ => false
  }

  predicate AllSpaced(w: World, rs: seq<Record>, limit: int) {
    forall i :: 1 <= i < |rs| ==> SpacingOK(w, rs, i, limit)
  }

  predicate BeatsOnce(rs: seq<Record>) {
    exists i :: 1 <= i < |rs| && rs[i].payload.typ == Heartbeat
  }

  predicate HeartbeatOK(w: World, rs: seq<Record>) {
    && rs != []
    && (rs[0].payload.hmax > 0 ==>
          && AllSpaced(w, rs, HeartbeatLimit(rs[0].payload.hmax, rs[0].payload.htol))
          && BeatsOnce(rs))
  }

  // ----- Check k, l, m: across the logs of the run -----

  predicate AuthenticOK(r: Record) {
    !r.signatureUV && r.signatureOK && r.canonicalOK
  }

  predicate ChainedAt(rs: seq<Record>, i: nat)
    requires i < |rs|
  {
    AuthenticOK(rs[i]) && rs[i].payload.seqno == i && rs[i].payload.prev == PredecessorHash(rs, i)
  }

  /** One recorder on its own satisfies the first rung. */
  predicate RecorderOK(w: World, rs: seq<Record>) {
    && rs != []
    && (forall i :: 0 <= i < |rs| ==> ChainedAt(rs, i))
    && rs[0].payload.typ == Open && rs[0].payload.hmax > 0
    && HeartbeatOK(w, rs)
    && CommitsTo(rs)
  }

  /** `key` is the one non-empty fingerprint under which every record of the log
      verified, and the manifest does not contradict it. */
  predicate SignedBy(log: Log, key: string) {
    && log.records != [] && key != ""
    && (forall i :: 0 <= i < |log.records| ==>
          && !log.records[i].signatureUV && log.records[i].signatureOK
          && ToLower(log.records[i].payload.key) == key)
    && (log.key == "" || ToLower(log.key) == key)
  }

  function FirstKey(log: Log): string
    requires log.records != []
  {
    ToLower(log.records[0].payload.key)
  }

  predicate HasKey(log: Log) {
    log.records != [] && SignedBy(log, FirstKey(log))
  }

  /** The last log carrying `id`: what a map filled in log order holds for it. */
  function LastWithId(logs: seq<Log>, id: string): (r: Option<Log>)
    ensures r.Some? ==> r.value in logs && r.value.id == id
    ensures r.None? ==> forall l :: l in logs ==> l.id != id
  {
    if logs == [] then None
    else if logs[|logs| - 1].id == id then Some(logs[|logs| - 1])
    else
      assert logs == logs[..|logs| - 1] + [logs[|logs| - 1]];
      LastWithId(logs[..|logs| - 1], id)
  }

  ghost predicate KeysDifferOK(logs: seq<Log>) {
    && |logs| >= 2
    && (forall l :: l in logs ==> HasKey(l))
    && forall i, j :: 0 <= i < j < |logs| ==>
         FirstKey(LastWithId(logs, logs[i].id).value) != FirstKey(LastWithId(logs, logs[j].id).value)
  }

  predicate IsActivity(r: Record) {
    r.payload.typ == Activity && r.payload.event.Some?
  }

  function CoveredEvents(rs: seq<Record>, classes: set<string>): set<string> {
    set r | r in rs && IsActivity(r) && r.payload.event.value.cls in classes :: r.payload.event.value.id
  }

  function StringSet(items: seq<string>): set<string> {
    set s | s in items
  }

  ghost predicate CrossAudited(logs: seq<Log>, classes: set<string>) {
    forall l, m, id :: l in logs && m in logs && id in CoveredEvents(l.records, classes) ==>
      id in CoveredEvents(LastWithId(logs, m.id).value.records, classes)
  }

  ghost predicate CrossAuditOK(art: Artifact) {
    && art.manifest.correspondence.Some?
    && art.manifest.correspondence.value.classes != []
    && art.manifest.correspondence.value.matching == "id"
    && |LogsForRun(art)| >= 2
    && CrossAudited(LogsForRun(art), StringSet(art.manifest.correspondence.value.classes))
  }

  // ----- Check n, o, p, q, u: anchoring -----

  function DecodeHex32(s: string): Option<Digest> {
    match Unhex(ToLower(s))
    case Some(d) => if |d| == DIGEST_SIZE then Some(d) else None
    case None => None
  }

  function DecodeProof(items: seq<string>): (r: Option<seq<Digest>>)
    ensures r.Some? <==> forall i :: 0 <= i < |items| ==> DecodeHex32(items[i]).Some?
    ensures r.Some? ==> |r.value| == |items| && forall i :: 0 <= i < |items| ==> Some(r.value[i]) == DecodeHex32(items[i])
  {
    if items == [] then Some([])
    else
      match (DecodeProof(items[..|items| - 1]), DecodeHex32(items[|items| - 1]))
      case (Some(init), Some(last)) => Some(init + [last])
      case _ => None
  }

  predicate AnchorsUsable(art: Artifact) {
    art.manifest.anchor.Some? && !art.anchorsErr && art.anchors.Some?
  }

  predicate TreeHeadOK(w: World, art: Artifact) {
    && AnchorsUsable(art)
    && var a := art.anchors.value;
       var key := ToLower(art.manifest.anchor.value.logKey);
       && key in art.keys
       && w.stdBase64(a.head.signed).Some? && w.stdBase64(a.head.sig).Some?
       && var signed, sig := w.stdBase64(a.head.signed).value, w.stdBase64(a.head.sig).value;
          && w.canonical(signed)
          && w.signedHead(signed) == Some(SignedHead(a.log, a.head.root, a.head.size))
          && |sig| == SIGNATURE_SIZE
          && w.verify(art.keys[key], signed, sig)
  }

  predicate EntryIncluded(w: World, root: Digest, size: int, e: AnchorEntry) {
    match (DecodeHex32(e.leaf), DecodeProof(e.proof))
    case (Some(leaf), Some(proof)) => RootFromProof(w.sha, leaf, e.index, size, proof) == Some(root)
    case _ => false
  }

  ghost predicate AllIncluded(w: World, root: Digest, size: int, entries: seq<AnchorEntry>) {
    forall e :: e in entries ==> EntryIncluded(w, root, size, e)
  }

  function DecodedRoot(art: Artifact): Option<Digest>
    requires art.anchors.Some?
  {
    DecodeHex32(art.anchors.value.head.root)
  }

  ghost predicate InclusionOK(w: World, art: Artifact) {
    && AnchorsUsable(art)
    && art.anchors.value.entries != []
    && DecodedRoot(art).Some?
    && AllIncluded(w, DecodedRoot(art).value, art.anchors.value.head.size, art.anchors.value.entries)
  }

  /** The first record with this sequence number in the first matching log that has one. */
  function FindInLog(rs: seq<Record>, seqNo: int): (r: Option<Record>)
    ensures r.Some? ==> r.value in rs && r.value.payload.seqno == seqNo
    ensures r.None? ==> forall x :: x in rs ==> x.payload.seqno != seqNo
  {
    if rs == [] then None
    else if rs[0].payload.seqno == seqNo then Some(rs[0])
    else
      assert rs == [rs[0]] + rs[1..];
      FindInLog(rs[1..], seqNo)
  }

  function FindRecord(logs: seq<Log>, recorder: string, run: string, seqNo: int): (r: Option<Record>)
    ensures r.Some? ==> r.value.payload.seqno == seqNo
    ensures r.Some? ==> exists l :: l in logs && l.id == recorder && l.run == run && r.value in l.records
    ensures r.None? ==> forall l, x :: l in logs && l.id == recorder && l.run == run && x in l.records ==> x.payload.seqno != seqNo
  {
    if logs == [] then None
    else
      assert logs == [logs[0]] + logs[1..];
      if logs[0].id == recorder && logs[0].run == run && FindInLog(logs[0].records, seqNo).Some? then
        FindInLog(logs[0].records, seqNo)
      else FindRecord(logs[1..], recorder, run, seqNo)
  }

  predicate LeafMatches(w: World, logs: seq<Log>, e: AnchorEntry) {
    match FindRecord(logs, e.recorder, e.run, e.seqno)
    case Some(rec) => Hex(LeafHash(w.sha, rec.raw)) == ToLower(e.leaf)
    case None => false
  }

  ghost predicate LeavesOK(w: World, art: Artifact) {
    && AnchorsUsable(art)
    && forall e :: e in art.anchors.value.entries ==> LeafMatches(w, art.logs, e)
  }

  /** Some entry of this recorder reaches sequence number `n`. */
  ghost predicate AnchoredAtLeast(entries: seq<AnchorEntry>, id: string, n: int) {
    exists e :: e in entries && e.recorder == id && n <= e.seqno
  }

  /** The recorder has an entry, and none of its records is past all of them. */
  ghost predicate FullyAnchored(entries: seq<AnchorEntry>, l: Log) {
    && (exists e :: e in entries && e.recorder == l.id)
    && forall r :: r in l.records ==> AnchoredAtLeast(entries, l.id, r.payload.seqno)
  }

  ghost predicate WindowOK(art: Artifact) {
    && AnchorsUsable(art)
    && forall l :: l in LogsForRun(art) ==> FullyAnchored(art.anchors.value.entries, l)
  }

  ghost predicate KeyIndependent(logs: seq<Log>, key: string) {
    && key != ""
    && forall l :: l in logs ==> HasKey(l) && FirstKey(l) != key
  }

  // ----- Check r, s, t, v: the counterparty -----

  function StatementsForRun(statements: seq<Statement>, run: string): (r: seq<Statement>)
    ensures forall s :: s in r <==> s in statements && (s.lineErr || s.parseErr || s.payload.run == run)
  {
    if statements == [] then []
    else
      var last := statements[|statements| - 1];
      assert statements == statements[..|statements| - 1] + [last];
      StatementsForRun(statements[..|statements| - 1], run) +
      if last.lineErr || last.parseErr || last.payload.run == run then [last] else []
  }

  predicate CounterpartyUsable(art: Artifact) {
    art.manifest.counterparty.Some? && !art.statementsMissing
  }

  predicate StatementAuthentic(s: Statement) {
    !s.signatureUV && s.signatureOK && s.canonicalOK
  }

  predicate StatementVerified(s: Statement) {
    StatementAuthentic(s) && s.schemaOK
  }

  ghost predicate CounterpartySignaturesOK(art: Artifact) {
    && CounterpartyUsable(art)
    && !art.statementsErr
    && ToLower(art.manifest.counterparty.value.key) in art.keys
    && art.statements != []
    && forall s :: s in RunStatements(art) ==> StatementVerified(s)
  }

  /** Every opening record of the run carries this one non-empty nonce, and there is one. */
  ghost predicate RunNonce(logs: seq<Log>, run: string, nonce: string) {
    && nonce != ""
    && (exists l :: l in logs && l.run == run && l.records != [])
    && forall l :: l in logs && l.run == run && l.records != [] ==>
         l.records[0].payload.typ == Open && l.records[0].payload.cpNonce == nonce
  }

  /** A run has at most one nonce. */
  lemma RunNonceUnique(logs: seq<Log>, run: string, n: string, m: string)
    requires RunNonce(logs, run, n) && RunNonce(logs, run, m)
    ensures n == m
  {
    var l :| l in logs && l.run == run && l.records != [];
  }

  /** Exactly one of a received event id and an explicit nothing. */
  predicate ReceiptOK(receipt: Option<Receipt>) {
    && receipt.Some?
    && match (receipt.value.received, receipt.value.none)
       case (Some(body), None) => body.Some? && body.value != ""
       case (None, Some(none)) => none == Some(true)
       case _ => false
  }

  const EVENT_ID: string := "event_id"

  /** The member `received` of a statement as stored. */
  datatype ReceivedMember = NoMember | NullMember | ObjectMember(members: map<string, string>)

  /** The two receipt members of a statement as stored; a null `none` reads as false. */
  datatype StatementBody = StatementBody(received: ReceivedMember, none: Option<bool>)

  /** What the receipt check reads as the event id: the member of that exact name,
      which sorts last, or else one whose name differs in letter case only. */
  ghost predicate ReceiptId(members: map<string, string>, id: string) {
    if EVENT_ID in members then id == members[EVENT_ID]
    else id == "" || exists k :: k in members && ToLower(k) == EVENT_ID && members[k] == id
  }

  /** The decoded payload and the receipt come from one stored body. */
  ghost predicate ReadsBody(s: Statement, body: StatementBody) {
    && s.payload.received == (match body.received case ObjectMember(m) => m case _ => map[])
    && s.payload.none == (body.none == Some(true))
    && s.receipt.Some?
    && s.receipt.value.none == (match body.none case None => None case Some(b) => Some(Some(b)))
    && match body.received
       case NoMember => s.receipt.value.received == None
       case NullMember => s.receipt.value.received == Some(Some(""))
       case ObjectMember(m) => exists id :: ReceiptId(m, id) && s.receipt.value.received == Some(Some(id))
  }

  /** Everything a readable statement of valid schema can look like once loaded. */
  ghost predicate LoadedStatement(s: Statement) {
    !s.lineErr && !s.parseErr && s.schemaOK ==> exists body :: ReadsBody(s, body)
  }

  ghost predicate Bound(s: Statement, run: string, nonce: string) {
    && !s.lineErr && !s.parseErr && !s.signatureUV && s.signatureOK
    && s.payload.v == 1 && s.payload.typ == "received"
    && s.payload.run == run && s.payload.nonce == nonce
    && ReceiptOK(s.receipt)
  }

  ghost predicate AllBound(statements: seq<Statement>, run: string, nonce: string) {
    forall s :: s in statements ==> Bound(s, run, nonce)
  }

  function RunStatements(art: Artifact): seq<Statement> {
    StatementsForRun(art.statements, ArtifactRun(art))
  }

  ghost predicate CounterpartyBindingOK(art: Artifact) {
    && CounterpartyUsable(art)
    && (art.statements != [] ==> RunStatements(art) != [])
    && exists nonce :: RunNonce(LogsForRun(art), ArtifactRun(art), nonce) && AllBound(RunStatements(art), ArtifactRun(art), nonce)
  }

  /** Event ids recorded as leaving through a declared flow. */
  function RecordedOut(rs: seq<Record>, flows: set<string>): set<string> {
    set r | r in rs && IsActivity(r) && r.payload.event.value.dir == "out" && r.payload.event.value.cls in flows
          :: r.payload.event.value.id
  }

  predicate Confirms(s: Statement, flows: set<string>) {
    && s.payload.flow in flows && !s.payload.none
    && EVENT_ID in s.payload.received && s.payload.received[EVENT_ID] != ""
  }

  function ConfirmedIn(statements: seq<Statement>, flows: set<string>): set<string> {
    set s | s in statements && Confirms(s, flows) :: s.payload.received[EVENT_ID]
  }

  ghost predicate AllAuditable(statements: seq<Statement>, run: string, nonce: string) {
    forall s :: s in statements ==>
      && !s.lineErr && !s.parseErr && !s.signatureUV && s.signatureOK
      && s.payload.run == run && s.payload.nonce == nonce
  }

  function Flows(art: Artifact): set<string>
    requires art.manifest.counterparty.Some?
  {
    StringSet(art.manifest.counterparty.value.flows)
  }

  ghost predicate CounterpartyAuditOK(art: Artifact) {
    && CounterpartyUsable(art)
    && art.manifest.counterparty.value.flows != []
    && (exists nonce :: RunNonce(LogsForRun(art), ArtifactRun(art), nonce) && AllAuditable(RunStatements(art), ArtifactRun(art), nonce))
    && RecordedOut(AllRecords(art.logs), Flows(art)) == ConfirmedIn(RunStatements(art), Flows(art))
  }

  // ----- The table -----

  datatype Status = Pass | Fail | UV

  datatype CheckId = A | B | C | D | E | W | F | G | H | I | J | K | L | M | N | O | P | Q | U | R | S | T | V

  ghost predicate ClosedSchemasOK(art: Artifact) {
    && (forall r :: r in AllRecords(art.logs) ==> AuthenticOK(r) && r.schemaOK)
    && (art.anchors.Some? ==> art.anchors.value.schemaOK)
    && forall s :: s in art.statements ==> StatementVerified(s)
  }

  ghost predicate SignaturesOK(art: Artifact) {
    AllRecords(art.logs) != [] && forall r :: r in AllRecords(art.logs) ==> !r.signatureUV && r.signatureOK
  }

  ghost predicate CanonicalPayloadsOK(art: Artifact) {
    forall r :: r in AllRecords(art.logs) ==> AuthenticOK(r)
  }

  ghost predicate AllOrdered(logs: seq<Log>) {
    logs != [] && forall l :: l in logs ==> OrderOK(l)
  }

  ghost predicate AllLinked(logs: seq<Log>) {
    logs != [] && forall l :: l in logs ==> LinksOK(l.records)
  }

  ghost predicate TwoRecordersOK(w: World, logs: seq<Log>) {
    |logs| >= 2 && forall l :: l in logs ==> RecorderOK(w, l.records)
  }

  ghost predicate AllOpen(logs: seq<Log>) {
    forall l :: l in logs ==> OpenOK(l.records)
  }

  ghost predicate AllContiguous(logs: seq<Log>) {
    forall l :: l in logs ==> ContiguousOK(l.records)
  }

  ghost predicate AllHeartbeat(w: World, logs: seq<Log>) {
    forall l :: l in logs ==> HeartbeatOK(w, l.records)
  }

  ghost predicate AllClose(logs: seq<Log>) {
    forall l :: l in logs ==> CloseOK(l.records)
  }

  ghost predicate NoneEndsOpen(logs: seq<Log>) {
    forall l :: l in logs ==> !EndsOpen(l.records)
  }

  /** When a check passes. Check c never does: no byte is flipped in an ordinary run. */
  ghost predicate Passes(w: World, art: Artifact, id: CheckId) {
    match id
    case A => SignaturesOK(art)
    case B => CanonicalPayloadsOK(art)
    case C => false
    case D => AllOrdered(art.logs)
    case E => AllLinked(art.logs)
    case W => ClosedSchemasOK(art)
    case F => AllOpen(art.logs)
    case G => AllContiguous(art.logs)
    case H => AllHeartbeat(w, art.logs)
    case I => AllClose(art.logs)
    case J => NoneEndsOpen(art.logs)
    case K => TwoRecordersOK(w, LogsForRun(art))
    case L => KeysDifferOK(LogsForRun(art))
    case M => CrossAuditOK(art)
    case N => TreeHeadOK(w, art)
    case O => InclusionOK(w, art)
    case P => LeavesOK(w, art)
    case Q => WindowOK(art)
    case U => art.manifest.anchor.Some? && KeyIndependent(LogsForRun(art), ToLower(art.manifest.anchor.value.logKey))
    case R => CounterpartySignaturesOK(art)
    case S => CounterpartyBindingOK(art)
    case T => CounterpartyAuditOK(art)
    case V => art.manifest.counterparty.Some? && KeyIndependent(LogsForRun(art), ToLower(art.manifest.counterparty.value.key))
  }

  /** The checks that rung `n` adds. */
  function RungChecks(n: nat): set<CheckId> {
    match n
    case 0 => {A, B, D, E, W}
    case 1 => {F, G, H, I}
    case 2 => {K, L, M}
    case 3 => {N, O, U, P, Q}
    case 4 => {R, S, T, V}
    case _ => {}
  }

  ghost predicate RungOK(w: World, art: Artifact, n: nat) {
    forall id :: id in RungChecks(n) ==> Passes(w, art, id)
  }

  /** Every check of the table from rung zero through rung `n` passes. */
  ghost predicate EarnsThrough(w: World, art: Artifact, n: nat) {
    forall m: nat :: m <= n ==> RungOK(w, art, m)
  }
}
