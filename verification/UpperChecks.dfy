/** The loops behind rungs three and four. */
module UpperChecks {
  import opened Basics
  import opened Merkle
  import opened Records
  import opened Evidence
  import opened Checker

  // ----- Rung three -----

  function AnchorStatus(art: Artifact, ok: bool): (s: Status)
    ensures s == Pass <==> AnchorsUsable(art) && ok
  {
    if art.manifest.anchor.None? then UV
    else if art.anchorsErr then Fail
    else if art.anchors.None? then UV
    else if ok then Pass else Fail
  }

  method CheckTreeHead(w: World, art: Artifact) returns (s: Status)
    ensures s == Pass <==> TreeHeadOK(w, art)
  {
    if !AnchorsUsable(art) {
      return AnchorStatus(art, false);
    }
    var a := art.anchors.value;
    var key := ToLower(art.manifest.anchor.value.logKey);
    if key !in art.keys {
      return UV;
    }
    var signed := w.stdBase64(a.head.signed);
    if signed.None? || !w.canonical(signed.value) {
      return Fail;
    }
    if w.signedHead(signed.value) != Some(SignedHead(a.log, a.head.root, a.head.size)) {
      return Fail;
    }
    var sig := w.stdBase64(a.head.sig);
    if sig.None? || |sig.value| != SIGNATURE_SIZE || !w.verify(art.keys[key], signed.value, sig.value) {
      return Fail;
    }
    return Pass;
  }

  method DecodeProofNodes(items: seq<string>) returns (r: Option<seq<Digest>>)
    ensures r == DecodeProof(items)
  {
    var nodes: seq<Digest> := [];
    for i := 0 to |items|
      invariant DecodeProof(items[..i]) == Some(nodes)
    {
      assert items[..i + 1][..i] == items[..i];
      var node := DecodeHex32(items[i]);
      if node.None? {
        return None;
      }
      nodes := nodes + [node.value];
    }
    assert items[..|items|] == items;
    return Some(nodes);
  }

  method CheckInclusion(w: World, art: Artifact) returns (s: Status)
    ensures s == Pass <==> InclusionOK(w, art)
    ensures s == UV <==> art.manifest.anchor.None? || (!art.anchorsErr && art.anchors.None?)
  {
    if !AnchorsUsable(art) {
      return AnchorStatus(art, false);
    }
    var a := art.anchors.value;
    if |a.entries| == 0 {
      return Fail;
    }
    var root := DecodeHex32(a.head.root);
    if root.None? {
      return Fail;
    }
    var included := CheckEntries(w, root.value, a.head.size, a.entries);
    return if included then Pass else Fail;
  }

  method CheckEntries(w: World, root: Digest, size: int, entries: seq<AnchorEntry>) returns (included: bool)
    ensures included <==> AllIncluded(w, root, size, entries)
  {
    for i := 0 to |entries|
      invariant AllIncluded(w, root, size, entries[..i])
    {
      included := CheckEntry(w, root, size, entries[i]);
      if !included {
        assert entries[i] in entries;
        return;
      }
      assert entries[..i + 1] == entries[..i] + [entries[i]];
    }
    assert entries[..|entries|] == entries;
    return true;
  }

  method CheckEntry(w: World, root: Digest, size: int, e: AnchorEntry) returns (included: bool)
    ensures included <==> EntryIncluded(w, root, size, e)
  {
    var leaf := DecodeHex32(e.leaf);
    var proof := DecodeProofNodes(e.proof);
    if leaf.None? || proof.None? {
      return false;
    }
    var got := RootFromProof(w.sha, leaf.value, e.index, size, proof.value);
    return got == Some(root);
  }

  method FindRecordIn(logs: seq<Log>, recorder: string, run: string, seqno: int) returns (r: Option<Record>)
    ensures r == FindRecord(logs, recorder, run, seqno)
  {
    for i := 0 to |logs|
      invariant FindRecord(logs[i..], recorder, run, seqno) == FindRecord(logs, recorder, run, seqno)
    {
      var log := logs[i];
      assert logs[i..][0] == log && logs[i..][1..] == logs[i + 1..];
      if log.id == recorder && log.run == run {
        var found := FindInRecords(log.records, seqno);
        if found.Some? {
          return found;
        }
      }
    }
    return None;
  }

  method FindInRecords(rs: seq<Record>, seqno: int) returns (r: Option<Record>)
    ensures r == FindInLog(rs, seqno)
  {
    for i := 0 to |rs|
      invariant FindInLog(rs[i..], seqno) == FindInLog(rs, seqno)
    {
      assert rs[i..][0] == rs[i] && rs[i..][1..] == rs[i + 1..];
      if rs[i].payload.seqno == seqno {
        return Some(rs[i]);
      }
    }
    return None;
  }

  method CheckAnchorLeaves(w: World, art: Artifact) returns (s: Status)
    ensures s == Pass <==> LeavesOK(w, art)
    ensures s == UV <==> art.manifest.anchor.None? || (!art.anchorsErr && art.anchors.None?)
  {
    if !AnchorsUsable(art) {
      return AnchorStatus(art, false);
    }
    var entries := art.anchors.value.entries;
    for i := 0 to |entries|
      invariant forall k :: 0 <= k < i ==> LeafMatches(w, art.logs, entries[k])
    {
      var e := entries[i];
      assert e in entries;
      var rec := FindRecordIn(art.logs, e.recorder, e.run, e.seqno);
      if rec.None? || Hex(LeafHash(w.sha, rec.value.raw)) != ToLower(e.leaf) {
        return Fail;
      }
    }
    return Pass;
  }

  /** `latest` holds the greatest anchored sequence number of every anchored recorder. */
  ghost predicate Latest(latest: map<string, int>, entries: seq<AnchorEntry>) {
    && (forall e :: e in entries ==> e.recorder in latest && e.seqno <= latest[e.recorder])
    && forall id :: id in latest ==> exists e :: e in entries && e.recorder == id && e.seqno == latest[id]
  }

  method LatestAnchored(entries: seq<AnchorEntry>) returns (latest: map<string, int>)
    ensures Latest(latest, entries)
  {
    latest := map[];
    for i := 0 to |entries|
      invariant Latest(latest, entries[..i])
    {
      var e := entries[i];
      assert entries[..i + 1] == entries[..i] + [e];
      if e.recorder !in latest || e.seqno > latest[e.recorder] {
        latest := latest[e.recorder := e.seqno];
      }
    }
    assert entries[..|entries|] == entries;
  }

  lemma LatestDecides(latest: map<string, int>, entries: seq<AnchorEntry>, id: string, n: int)
    requires Latest(latest, entries)
    ensures id in latest <==> exists e :: e in entries && e.recorder == id
    ensures id in latest ==> (n <= latest[id] <==> AnchoredAtLeast(entries, id, n))
  {
  }

  /** Some record of the log lies past `head`. */
  method HasRecordPast(rs: seq<Record>, head: int) returns (past: bool)
    ensures past <==> exists r :: r in rs && r.payload.seqno > head
  {
    for i := 0 to |rs|
      invariant forall k :: 0 <= k < i ==> rs[k].payload.seqno <= head
    {
      if rs[i].payload.seqno > head {
        return true;
      }
    }
    return false;
  }

  method CheckUnanchoredWindow(art: Artifact) returns (s: Status)
    ensures s == Pass <==> WindowOK(art)
    ensures s == UV <==> art.manifest.anchor.None? || (!art.anchorsErr && art.anchors.None?)
  {
    if !AnchorsUsable(art) {
      return AnchorStatus(art, false);
    }
    var entries := art.anchors.value.entries;
    var latest := LatestAnchored(entries);
    var logs := SelectLogs(art);
    var windows := false;
    for i := 0 to |logs|
      invariant windows <==> exists k :: 0 <= k < i && !FullyAnchored(entries, logs[k])
    {
      var log := logs[i];
      LatestDecides(latest, entries, log.id, 0);
      if log.id !in latest {
        windows := true;
      } else {
        forall r | r in log.records
          ensures r.payload.seqno <= latest[log.id] <==> AnchoredAtLeast(entries, log.id, r.payload.seqno)
        {
          LatestDecides(latest, entries, log.id, r.payload.seqno);
        }
        var past := HasRecordPast(log.records, latest[log.id]);
        if past {
          windows := true;
        }
      }
    }
    assert forall k :: 0 <= k < |logs| ==> logs[k] in logs;
    return if windows then Fail else Pass;
  }

  /** Shared by the log-key and counterparty-key checks. */
  method CheckKeyIndependent(art: Artifact, key: string) returns (s: Status)
    ensures s == Pass <==> KeyIndependent(LogsForRun(art), key)
  {
    if key == "" {
      return UV;
    }
    var logs := SelectLogs(art);
    for i := 0 to |logs|
      invariant forall k :: 0 <= k < i ==> HasKey(logs[k]) && FirstKey(logs[k]) != key
    {
      assert logs[i] in logs;
      var recorderKey, out := VerifiedRecorderKey(logs[i]);
      if out != Pass {
        return out;
      }
      if recorderKey == key {
        return Fail;
      }
    }
    return Pass;
  }

  method CheckLogKeyIndependent(art: Artifact) returns (s: Status)
    ensures s == Pass <==>
      art.manifest.anchor.Some? && KeyIndependent(LogsForRun(art), ToLower(art.manifest.anchor.value.logKey))
  {
    if art.manifest.anchor.None? {
      return UV;
    }
    s := CheckKeyIndependent(art, ToLower(art.manifest.anchor.value.logKey));
  }

  method CheckCounterpartyKeyIndependent(art: Artifact) returns (s: Status)
    ensures s == Pass <==>
      art.manifest.counterparty.Some? && KeyIndependent(LogsForRun(art), ToLower(art.manifest.counterparty.value.key))
  {
    if art.manifest.counterparty.None? {
      return UV;
    }
    s := CheckKeyIndependent(art, ToLower(art.manifest.counterparty.value.key));
  }

  // ----- Rung four -----

  method SelectStatements(art: Artifact) returns (out: seq<Statement>)
    ensures out == RunStatements(art)
  {
    var run, all := ArtifactRun(art), art.statements;
    out := [];
    for i := 0 to |all|
      invariant out == StatementsForRun(all[..i], run)
    {
      assert all[..i + 1][..i] == all[..i];
      if all[i].lineErr || all[i].parseErr || all[i].payload.run == run {
        out := out + [all[i]];
      }
    }
    assert all[..|all|] == all;
  }

  method CheckCounterpartySignatures(art: Artifact) returns (s: Status)
    ensures s == Pass <==> CounterpartySignaturesOK(art)
  {
    if art.manifest.counterparty.None? || art.statementsMissing {
      return UV;
    }
    if art.statementsErr {
      return Fail;
    }
    if ToLower(art.manifest.counterparty.value.key) !in art.keys {
      return UV;
    }
    if |art.statements| == 0 {
      return Fail;
    }
    var statements := SelectStatements(art);
    for i := 0 to |statements|
      invariant forall k :: 0 <= k < i ==> StatementVerified(statements[k])
    {
      var stmt := statements[i];
      assert stmt in statements;
      if stmt.signatureUV {
        return UV;
      }
      if !stmt.signatureOK || !stmt.canonicalOK || !stmt.schemaOK {
        return Fail;
      }
    }
    return Pass;
  }

  /** The nonce all opening records of the run agree on. */
  method FindRunNonce(art: Artifact, run: string) returns (nonce: string, ok: bool)
    ensures ok ==> RunNonce(LogsForRun(art), run, nonce)
    ensures !ok ==> forall n :: !RunNonce(LogsForRun(art), run, n)
  {
    var logs := SelectLogs(art);
    nonce := "";
    for i := 0 to |logs|
      invariant nonce == "" <==> forall k :: 0 <= k < i ==> logs[k].run != run || logs[k].records == []
      invariant forall k :: 0 <= k < i && logs[k].run == run && logs[k].records != [] ==>
                  logs[k].records[0].payload.typ == Open && logs[k].records[0].payload.cpNonce == nonce
    {
      var log := logs[i];
      assert log in logs;
      if log.run == run && |log.records| > 0 {
        var open := log.records[0].payload;
        if open.typ != Open || open.cpNonce == "" {
          return "", false;
        }
        if nonce == "" {
          nonce := open.cpNonce;
        } else if open.cpNonce != nonce {
          ghost var k :| 0 <= k < i && logs[k].run == run && logs[k].records != [];
          assert logs[k] in logs;
          return "", false;
        }
      }
    }
    if nonce == "" {
      return "", false;
    }
    ghost var k :| 0 <= k < |logs| && logs[k].run == run && logs[k].records != [];
    assert logs[k] in logs;
    return nonce, true;
  }

  method ReceiptChoice(receipt: Option<Receipt>) returns (ok: bool)
    ensures ok <==> ReceiptOK(receipt)
  {
    if receipt.None? {
      return false;
    }
    var received, none := receipt.value.received, receipt.value.none;
    if received.Some? && none.Some? {
      return false;
    }
    if received.Some? {
      return received.value.Some? && received.value.value != "";
    }
    if none.Some? {
      return none.value.Some? && none.value.value;
    }
    return false;
  }

  method CheckCounterpartyBinding(art: Artifact) returns (s: Status)
    ensures s == Pass <==> CounterpartyBindingOK(art)
  {
    if art.manifest.counterparty.None? || art.statementsMissing {
      return UV;
    }
    var run := ArtifactRun(art);
    var nonce, ok := FindRunNonce(art, run);
    if !ok {
      return Fail;
    }
    forall n | RunNonce(LogsForRun(art), run, n)
      ensures n == nonce
    {
      RunNonceUnique(LogsForRun(art), run, n, nonce);
    }
    var statements := SelectStatements(art);
    if |statements| == 0 && |art.statements| > 0 {
      return Fail;
    }
    for i := 0 to |statements|
      invariant forall k :: 0 <= k < i ==> Bound(statements[k], run, nonce)
    {
      var stmt := statements[i];
      assert stmt in statements;
      if stmt.lineErr || stmt.parseErr || stmt.signatureUV || !stmt.signatureOK {
        return UV;
      }
      if stmt.payload.v != 1 || stmt.payload.typ != "received" || stmt.payload.run != run || stmt.payload.nonce != nonce {
        return Fail;
      }
      var choice := ReceiptChoice(stmt.receipt);
      if !choice {
        return Fail;
      }
    }
    assert AllBound(statements, run, nonce);
    return Pass;
  }

  method RecordedOutOf(art: Artifact, flows: set<string>) returns (recorded: set<string>)
    ensures recorded == RecordedOut(AllRecords(art.logs), flows)
  {
    var rs := CollectRecords(art.logs);
    recorded := {};
    for i := 0 to |rs|
      invariant recorded == RecordedOut(rs[..i], flows)
    {
      assert rs[..i + 1] == rs[..i] + [rs[i]];
      if rs[i].payload.typ == Activity && rs[i].payload.event.Some? && rs[i].payload.event.value.dir == "out"
         && rs[i].payload.event.value.cls in flows {
        recorded := recorded + {rs[i].payload.event.value.id};
      }
    }
    assert rs[..|rs|] == rs;
  }

  /** None when some statement cannot be audited. */
  method ConfirmedOf(statements: seq<Statement>, flows: set<string>, run: string, nonce: string) returns (r: Option<set<string>>)
    ensures r.Some? <==> AllAuditable(statements, run, nonce)
    ensures r.Some? ==> r.value == ConfirmedIn(statements, flows)
  {
    var confirmed: set<string> := {};
    for i := 0 to |statements|
      invariant AllAuditable(statements[..i], run, nonce)
      invariant confirmed == ConfirmedIn(statements[..i], flows)
    {
      var stmt := statements[i];
      assert statements[..i + 1] == statements[..i] + [stmt];
      if stmt.lineErr || stmt.parseErr || stmt.signatureUV || !stmt.signatureOK
         || stmt.payload.run != run || stmt.payload.nonce != nonce {
        assert stmt in statements;
        return None;
      }
      if stmt.payload.flow in flows && !stmt.payload.none && EVENT_ID in stmt.payload.received
         && stmt.payload.received[EVENT_ID] != "" {
        confirmed := confirmed + {stmt.payload.received[EVENT_ID]};
      }
    }
    assert statements[..|statements|] == statements;
    return Some(confirmed);
  }

  method CheckCounterpartyAudit(art: Artifact) returns (s: Status)
    ensures s == Pass <==> CounterpartyAuditOK(art)
  {
    if art.manifest.counterparty.None? || art.statementsMissing {
      return UV;
    }
    if |art.manifest.counterparty.value.flows| == 0 {
      return UV;
    }
    var run := ArtifactRun(art);
    var nonce, ok := FindRunNonce(art, run);
    if !ok {
      return UV;
    }
    forall n | RunNonce(LogsForRun(art), run, n)
      ensures n == nonce
    {
      RunNonceUnique(LogsForRun(art), run, n, nonce);
    }
    var flows := Flows(art);
    var recorded := RecordedOutOf(art, flows);
    var statements := SelectStatements(art);
    var confirmed := ConfirmedOf(statements, flows, run, nonce);
    if confirmed.None? {
      return UV;
    }
    // First every recorded id must be confirmed, then every confirmed id recorded.
    if !(recorded <= confirmed.value) || !(confirmed.value <= recorded) {
      return Fail;
    }
    return Pass;
  }
}
