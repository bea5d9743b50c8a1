/** The checks of rungs zero to two as loops with early returns and maps filled in
    place. Each is proved to pass exactly when its predicate holds. */
module Checker {
  import opened Basics
  import opened Records
  import opened Evidence

  method CollectRecords(logs: seq<Log>) returns (rs: seq<Record>)
    ensures rs == AllRecords(logs)
  {
    rs := [];
    for i := 0 to |logs|
      invariant rs == AllRecords(logs[..i])
    {
      assert logs[..i + 1][..i] == logs[..i];
      rs := rs + logs[i].records;
    }
    assert logs[..|logs|] == logs;
  }

  // ----- Rung zero -----

  method CheckSignatures(art: Artifact) returns (s: Status)
    ensures s == UV <==> && AllRecords(art.logs) != []
                         && (forall r :: r in AllRecords(art.logs) ==> r.signatureUV || r.signatureOK)
                         && exists r :: r in AllRecords(art.logs) && r.signatureUV
    ensures s == Pass <==> AllRecords(art.logs) != [] && forall r :: r in AllRecords(art.logs) ==> !r.signatureUV && r.signatureOK
  {
    var records := CollectRecords(art.logs);
    if |records| == 0 {
      return Fail;
    }
    var sawUV := false;
    for i := 0 to |records|
      invariant forall k :: 0 <= k < i ==> records[k].signatureUV || records[k].signatureOK
      invariant sawUV <==> exists k :: 0 <= k < i && records[k].signatureUV
    {
      if records[i].signatureUV {
        sawUV := true;
      } else if !records[i].signatureOK {
        assert records[i] in records;
        return Fail;
      }
    }
    if sawUV {
      return UV;
    }
    assert records[0] in records;
    return Pass;
  }

  method CheckCanonicalPayloads(art: Artifact) returns (s: Status)
    ensures s == Pass <==> forall r :: r in AllRecords(art.logs) ==> !r.signatureUV && r.signatureOK && r.canonicalOK
    ensures s == Fail <==> exists r :: r in AllRecords(art.logs) && !r.signatureUV && r.signatureOK && !r.canonicalOK
  {
    var records := CollectRecords(art.logs);
    var sawUV := false;
    for i := 0 to |records|
      invariant forall k :: 0 <= k < i ==> records[k].signatureUV || !records[k].signatureOK || records[k].canonicalOK
      invariant sawUV <==> exists k :: 0 <= k < i && (records[k].signatureUV || !records[k].signatureOK)
    {
      if records[i].signatureUV || !records[i].signatureOK {
        sawUV := true;
      } else if !records[i].canonicalOK {
        return Fail;
      }
    }
    return if sawUV then UV else Pass;
  }

  method CheckClosedSchemas(art: Artifact) returns (s: Status)
    ensures s == Pass <==> ClosedSchemasOK(art)
  {
    var records := CollectRecords(art.logs);
    var sawUV := false;
    for i := 0 to |records|
      invariant forall k :: 0 <= k < i ==> AuthenticOK(records[k]) ==> records[k].schemaOK
      invariant sawUV <==> exists k :: 0 <= k < i && !AuthenticOK(records[k])
    {
      if records[i].signatureUV || !records[i].signatureOK || !records[i].canonicalOK {
        sawUV := true;
      } else if !records[i].schemaOK {
        return Fail;
      }
    }
    if art.anchors.Some? && !art.anchors.value.schemaOK {
      return Fail;
    }
    var ss := art.statements;
    ghost var sawBefore := sawUV;
    for i := 0 to |ss|
      invariant forall k :: 0 <= k < i ==> StatementAuthentic(ss[k]) ==> ss[k].schemaOK
      invariant sawUV <==> sawBefore || exists k :: 0 <= k < i && !StatementAuthentic(ss[k])
    {
      assert ss[i] in ss;
      if ss[i].signatureUV || !ss[i].signatureOK || !ss[i].canonicalOK {
        sawUV := true;
      } else if !ss[i].schemaOK {
        return Fail;
      }
    }
    assert forall k :: 0 <= k < |ss| ==> ss[k] in ss;
    return if sawUV then UV else Pass;
  }

  method CheckSequenceOrder(art: Artifact) returns (s: Status)
    ensures s == UV <==> art.logs == []
    ensures s == Pass <==> art.logs != [] && forall l :: l in art.logs ==> OrderOK(l)
  {
    if |art.logs| == 0 {
      return UV;
    }
    for j := 0 to |art.logs|
      invariant forall k :: 0 <= k < j ==> OrderOK(art.logs[k])
    {
      var log := art.logs[j];
      assert log in art.logs;
      if |log.records| == 0 {
        return Fail;
      }
      for i := 0 to |log.records|
        invariant forall k :: 0 <= k < i ==> OrderedAt(log, k)
      {
        var rec := log.records[i];
        if rec.parseErr || rec.lineErr || rec.payload.v != 1 || rec.payload.recorder != log.id || rec.payload.run != log.run {
          assert !OrderedAt(log, i);
          return Fail;
        }
        if i == 0 {
          if rec.payload.seqno != 0 {
            assert !OrderedAt(log, i);
            return Fail;
          }
        } else if rec.payload.seqno <= log.records[i - 1].payload.seqno {
          assert !OrderedAt(log, i);
          return Fail;
        }
      }
    }
    return Pass;
  }

  method CheckPredecessorLinks(art: Artifact) returns (s: Status)
    ensures s == UV <==> art.logs == []
    ensures s == Pass <==> art.logs != [] && forall l :: l in art.logs ==> LinksOK(l.records)
  {
    if |art.logs| == 0 {
      return UV;
    }
    for j := 0 to |art.logs|
      invariant forall k :: 0 <= k < j ==> LinksOK(art.logs[k].records)
    {
      var rs := art.logs[j].records;
      if |rs| == 0 {
        return Fail;
      }
      for i := 0 to |rs|
        invariant forall k :: 0 <= k < i ==> LinkedAt(rs, k)
      {
        var rec := rs[i];
        if rec.parseErr || rec.lineErr {
          assert !LinkedAt(rs, i);
          return Fail;
        }
        if i == 0 {
          if rec.payload.prev != ZeroPrev() {
            assert !LinkedAt(rs, i);
            return Fail;
          }
        } else if rec.payload.prev != rs[i - 1].hash {
          assert !LinkedAt(rs, i);
          return Fail;
        }
      }
    }
    return Pass;
  }

  // ----- Rung one -----

  method CheckOpen(art: Artifact) returns (s: Status)
    ensures s == if AllOpen(art.logs) then Pass else Fail
  {
    for j := 0 to |art.logs|
      invariant forall k :: 0 <= k < j ==> OpenOK(art.logs[k].records)
    {
      var rs := art.logs[j].records;
      if |rs| == 0 || rs[0].payload.typ != Open || rs[0].payload.seqno != 0 || rs[0].payload.hmax <= 0 {
        return Fail;
      }
    }
    return Pass;
  }

  method CheckContiguous(art: Artifact) returns (s: Status)
    ensures s == if AllContiguous(art.logs) then Pass else Fail
  {
    for j := 0 to |art.logs|
      invariant forall k :: 0 <= k < j ==> ContiguousOK(art.logs[k].records)
    {
      var rs := art.logs[j].records;
      for i := 0 to |rs|
        invariant forall k :: 0 <= k < i ==> Readable(rs[k]) && rs[k].payload.seqno == k
      {
        if rs[i].parseErr || rs[i].lineErr || rs[i].payload.seqno != i {
          return Fail;
        }
      }
    }
    return Pass;
  }

  method CheckHeartbeatLog(w: World, rs: seq<Record>) returns (s: Status)
    ensures s == if HeartbeatOK(w, rs) then Pass else Fail
  {
    if |rs| == 0 {
      return Fail;
    }
    var hmax, htol := rs[0].payload.hmax, rs[0].payload.htol;
    if hmax <= 0 {
      return Pass;
    }
    var limit := Wrap64(Wrap64(hmax + htol) * NANOS_PER_SECOND);
    var sawHeartbeat := false;
    for i := 1 to |rs|
      invariant sawHeartbeat <==> exists k :: 1 <= k < i && rs[k].payload.typ == Heartbeat
      invariant forall k :: 1 <= k < i ==> SpacingOK(w, rs, k, limit)
    {
      if rs[i].payload.typ == Heartbeat {
        sawHeartbeat := true;
      }
      var prevTS, curTS := w.time(rs[i - 1].payload.ts), w.time(rs[i].payload.ts);
      if prevTS.None? || curTS.None? || curTS.value < prevTS.value || TimeSub(curTS.value, prevTS.value) > limit {
        assert !SpacingOK(w, rs, i, limit);
        return Fail;
      }
    }
    return if sawHeartbeat then Pass else Fail;
  }

  method CheckHeartbeat(w: World, art: Artifact) returns (s: Status)
    ensures s == if AllHeartbeat(w, art.logs) then Pass else Fail
  {
    for j := 0 to |art.logs|
      invariant forall k :: 0 <= k < j ==> HeartbeatOK(w, art.logs[k].records)
    {
      var out := CheckHeartbeatLog(w, art.logs[j].records);
      if out != Pass {
        return out;
      }
    }
    return Pass;
  }

  method CheckCloseCount(art: Artifact) returns (s: Status)
    ensures s == if AllClose(art.logs) then Pass else Fail
  {
    for j := 0 to |art.logs|
      invariant forall k :: 0 <= k < j ==> CloseOK(art.logs[k].records)
    {
      var rs := art.logs[j].records;
      var n := |rs|;
      if n == 0 || rs[n - 1].payload.typ != Close {
        return Fail;
      }
      for i := 0 to n - 1
        invariant forall k :: 0 <= k < i ==> rs[k].payload.typ != Close
      {
        if rs[i].payload.typ == Close {
          return Fail;
        }
      }
      var count := rs[n - 1].payload.count;
      if count != n || count < 2 {
        return Fail;
      }
      if rs[n - 1].payload.head != rs[count - 2].hash {
        return Fail;
      }
    }
    return Pass;
  }

  method CheckOpenEnd(art: Artifact) returns (s: Status)
    ensures s == if NoneEndsOpen(art.logs) then Pass else Fail
  {
    for j := 0 to |art.logs|
      invariant forall k :: 0 <= k < j ==> !EndsOpen(art.logs[k].records)
    {
      var rs := art.logs[j].records;
      if |rs| > 0 && rs[0].payload.hmax > 0 && rs[|rs| - 1].payload.typ != Close {
        return Fail;
      }
    }
    return Pass;
  }

  // ----- Rung two -----

  method SelectLogs(art: Artifact) returns (logs: seq<Log>)
    ensures logs == LogsForRun(art)
  {
    var run := ArtifactRun(art);
    logs := [];
    for i := 0 to |art.logs|
      invariant logs == if run == "" then art.logs[..i] else LogsOf(art.logs[..i], run)
    {
      assert art.logs[..i + 1][..i] == art.logs[..i];
      if run == "" || art.logs[i].run == run {
        logs := logs + [art.logs[i]];
      }
    }
    assert art.logs[..|art.logs|] == art.logs;
  }

  method CheckRecorder(w: World, rs: seq<Record>) returns (s: Status)
    ensures s == Pass <==> RecorderOK(w, rs)
  {
    if |rs| == 0 {
      return Fail;
    }
    for i := 0 to |rs|
      invariant forall k :: 0 <= k < i ==> ChainedAt(rs, k)
      invariant 0 < i ==> rs[0].payload.typ == Open && rs[0].payload.hmax > 0
    {
      var rec := rs[i];
      if rec.signatureUV {
        assert !ChainedAt(rs, i);
        return UV;
      }
      if !rec.signatureOK || !rec.canonicalOK || rec.payload.seqno != i {
        assert !ChainedAt(rs, i);
        return Fail;
      }
      if i == 0 {
        if rec.payload.typ != Open || rec.payload.prev != ZeroPrev() || rec.payload.hmax <= 0 {
          assert rec.payload.prev != ZeroPrev() ==> !ChainedAt(rs, i);
          return Fail;
        }
      } else if rec.payload.prev != rs[i - 1].hash {
        assert !ChainedAt(rs, i);
        return Fail;
      }
    }
    var out := CheckHeartbeatLog(w, rs);
    if out != Pass {
      return out;
    }
    var close := rs[|rs| - 1].payload;
    if close.typ != Close || close.count != |rs| {
      return Fail;
    }
    if close.count < 2 || close.head != rs[close.count - 2].hash {
      return Fail;
    }
    return Pass;
  }

  method CheckTwoRecorders(w: World, art: Artifact) returns (s: Status)
    ensures s == Pass <==> |LogsForRun(art)| >= 2 && forall l :: l in LogsForRun(art) ==> RecorderOK(w, l.records)
  {
    var logs := SelectLogs(art);
    if |logs| < 2 {
      return Fail;
    }
    for j := 0 to |logs|
      invariant forall k :: 0 <= k < j ==> RecorderOK(w, logs[k].records)
    {
      var out := CheckRecorder(w, logs[j].records);
      if out != Pass {
        assert logs[j] in logs;
        return out;
      }
    }
    return Pass;
  }

  /** The verified signing key of a log; a passing result is a common non-empty
      fingerprint of all its records that the manifest does not contradict. */
  method VerifiedRecorderKey(log: Log) returns (key: string, s: Status)
    ensures s == Pass <==> HasKey(log)
    ensures s == Pass ==> key == FirstKey(log)
    ensures s == UV ==> exists i :: 0 <= i < |log.records| && log.records[i].signatureUV
  {
    var rs := log.records;
    if |rs| == 0 {
      return "", Fail;
    }
    key := "";
    for i := 0 to |rs|
      invariant forall k :: 0 <= k < i ==> !rs[k].signatureUV && rs[k].signatureOK && ToLower(rs[k].payload.key) == FirstKey(log)
      invariant key == if i == 0 then "" else FirstKey(log)
      invariant 0 < i ==> FirstKey(log) != ""
    {
      if rs[i].signatureUV {
        return "", UV;
      }
      if !rs[i].signatureOK {
        return "", Fail;
      }
      var recKey := ToLower(rs[i].payload.key);
      if recKey == "" {
        return "", Fail;
      }
      if key == "" {
        key := recKey;
      } else if recKey != key {
        return "", Fail;
      }
    }
    if log.key != "" && ToLower(log.key) != key {
      return "", Fail;
    }
    return key, Pass;
  }

  lemma LastWithIdAppend(logs: seq<Log>, l: Log)
    ensures forall id :: LastWithId(logs + [l], id) == if l.id == id then Some(l) else LastWithId(logs, id)
  {
    assert (logs + [l])[..|logs|] == logs;
  }

  /** The map of keys after `logs` were entered in order. */
  ghost predicate KeysFilled(keys: map<string, string>, logs: seq<Log>) {
    && (forall l :: l in logs ==> HasKey(l))
    && forall id :: LastWithId(logs, id).Some? ==> id in keys && keys[id] == FirstKey(LastWithId(logs, id).value)
  }

  method CollectKeys(logs: seq<Log>) returns (keys: map<string, string>, s: Status)
    ensures s == Pass <==> forall l :: l in logs ==> HasKey(l)
    ensures s == Pass ==> KeysFilled(keys, logs)
  {
    keys := map[];
    for i := 0 to |logs|
      invariant KeysFilled(keys, logs[..i])
    {
      var key, out := VerifiedRecorderKey(logs[i]);
      if out != Pass {
        assert logs[i] in logs;
        return keys, out;
      }
      LastWithIdAppend(logs[..i], logs[i]);
      assert logs[..i + 1] == logs[..i] + [logs[i]];
      keys := keys[logs[i].id := key];
    }
    assert logs[..|logs|] == logs;
    return keys, Pass;
  }

  method AllKeysDiffer(logs: seq<Log>, keys: map<string, string>) returns (ok: bool)
    requires forall k :: 0 <= k < |logs| ==> logs[k].id in keys
    ensures ok <==> forall p, q :: 0 <= p < q < |logs| ==> keys[logs[p].id] != keys[logs[q].id]
  {
    for i := 0 to |logs|
      invariant forall p, q :: 0 <= p < q < |logs| && p < i ==> keys[logs[p].id] != keys[logs[q].id]
    {
      for j := i + 1 to |logs|
        invariant forall q :: i < q < j ==> keys[logs[i].id] != keys[logs[q].id]
      {
        if keys[logs[i].id] == keys[logs[j].id] {
          return false;
        }
      }
    }
    return true;
  }

  lemma KeysDecide(logs: seq<Log>, keys: map<string, string>)
    requires KeysFilled(keys, logs) && |logs| >= 2
    ensures forall k :: 0 <= k < |logs| ==> logs[k].id in keys
    ensures KeysDifferOK(logs) <==> forall p, q :: 0 <= p < q < |logs| ==> keys[logs[p].id] != keys[logs[q].id]
  {
    forall k | 0 <= k < |logs|
      ensures logs[k].id in keys && keys[logs[k].id] == FirstKey(LastWithId(logs, logs[k].id).value)
    {
      assert logs[k] in logs;
    }
  }

  method CheckKeysDiffer(art: Artifact) returns (s: Status)
    ensures s == Pass <==> KeysDifferOK(LogsForRun(art))
  {
    var logs := SelectLogs(art);
    if |logs| < 2 {
      return UV;
    }
    var keys, out := CollectKeys(logs);
    if out != Pass {
      return out;
    }
    KeysDecide(logs, keys);
    var ok := AllKeysDiffer(logs, keys);
    return if ok then Pass else Fail;
  }

  method CoveredEventsOf(rs: seq<Record>, classes: set<string>) returns (out: set<string>)
    ensures out == CoveredEvents(rs, classes)
  {
    out := {};
    for i := 0 to |rs|
      invariant out == CoveredEvents(rs[..i], classes)
    {
      assert rs[..i + 1] == rs[..i] + [rs[i]];
      if rs[i].payload.typ == Activity && rs[i].payload.event.Some? && rs[i].payload.event.value.cls in classes {
        out := out + {rs[i].payload.event.value.id};
      }
    }
    assert rs[..|rs|] == rs;
  }

  /** The map of covered events after `logs` were entered in order, and their union. */
  ghost predicate CoverageFilled(covered: map<string, set<string>>, events: set<string>, logs: seq<Log>, classes: set<string>) {
    && (forall id :: LastWithId(logs, id).Some? ==>
          id in covered && covered[id] == CoveredEvents(LastWithId(logs, id).value.records, classes))
    && forall e :: e in events <==> exists l :: l in logs && e in CoveredEvents(l.records, classes)
  }

  method CollectCoverage(logs: seq<Log>, classes: set<string>) returns (covered: map<string, set<string>>, events: set<string>)
    ensures CoverageFilled(covered, events, logs, classes)
  {
    covered, events := map[], {};
    for i := 0 to |logs|
      invariant CoverageFilled(covered, events, logs[..i], classes)
    {
      var out := CoveredEventsOf(logs[i].records, classes);
      LastWithIdAppend(logs[..i], logs[i]);
      assert logs[..i + 1] == logs[..i] + [logs[i]];
      UnionGrows(logs, i, classes, events, out);
      covered := covered[logs[i].id := out];
      events := events + out;
    }
    assert logs[..|logs|] == logs;
  }

  lemma UnionGrows(logs: seq<Log>, i: nat, classes: set<string>, events: set<string>, out: set<string>)
    requires i < |logs| && out == CoveredEvents(logs[i].records, classes)
    requires forall e :: e in events <==> exists l :: l in logs[..i] && e in CoveredEvents(l.records, classes)
    ensures forall e :: e in events + out <==> exists l :: l in logs[..i + 1] && e in CoveredEvents(l.records, classes)
  {
    assert logs[..i + 1] == logs[..i] + [logs[i]];
  }

  method CheckCrossAudit(art: Artifact) returns (s: Status)
    ensures s == Pass <==> CrossAuditOK(art)
    ensures s == UV <==> || art.manifest.correspondence.None? || art.manifest.correspondence.value.classes == []
                         || art.manifest.correspondence.value.matching != "id" || |LogsForRun(art)| < 2
  {
    if art.manifest.correspondence.None? || |art.manifest.correspondence.value.classes| == 0
       || art.manifest.correspondence.value.matching != "id" {
      return UV;
    }
    var logs := SelectLogs(art);
    if |logs| < 2 {
      return UV;
    }
    var ok := AuditCoverage(logs, StringSet(art.manifest.correspondence.value.classes));
    return if ok then Pass else Fail;
  }

  /** Whether every log's entry in the map holds `id`. */
  method PresentEverywhere(logs: seq<Log>, covered: map<string, set<string>>, id: string) returns (ok: bool)
    requires forall m :: m in logs ==> m.id in covered
    ensures ok <==> forall m :: m in logs ==> id in covered[m.id]
  {
    for j := 0 to |logs|
      invariant forall k :: 0 <= k < j ==> id in covered[logs[k].id]
    {
      assert logs[j] in logs;
      if id !in covered[logs[j].id] {
        return false;
      }
    }
    return true;
  }

  lemma CoverageDecides(covered: map<string, set<string>>, events: set<string>, logs: seq<Log>, classes: set<string>)
    requires CoverageFilled(covered, events, logs, classes)
    ensures forall m :: m in logs ==> m.id in covered
    ensures CrossAudited(logs, classes) <==> forall id, m :: id in events && m in logs ==> id in covered[m.id]
  {
    assert forall m :: m in logs ==>
        LastWithId(logs, m.id).Some? && covered[m.id] == CoveredEvents(LastWithId(logs, m.id).value.records, classes);
    if forall id, m :: id in events && m in logs ==> id in covered[m.id] {
      forall l, m, id | l in logs && m in logs && id in CoveredEvents(l.records, classes)
        ensures id in CoveredEvents(LastWithId(logs, m.id).value.records, classes)
      {
        assert id in events;
      }
    }
  }

  method ScanEvents(logs: seq<Log>, covered: map<string, set<string>>, events: set<string>) returns (ok: bool)
    requires forall m :: m in logs ==> m.id in covered
    ensures ok <==> forall id, m :: id in events && m in logs ==> id in covered[m.id]
  {
    var pending := events;
    while pending != {}
      invariant pending <= events
      invariant forall id, m :: id in events && id !in pending && m in logs ==> id in covered[m.id]
      decreases |pending|
    {
      var id :| id in pending;
      var everywhere := PresentEverywhere(logs, covered, id);
      if !everywhere {
        return false;
      }
      pending := pending - {id};
    }
    return true;
  }

  method AuditCoverage(logs: seq<Log>, classes: set<string>) returns (ok: bool)
    ensures ok <==> CrossAudited(logs, classes)
  {
    var covered, events := CollectCoverage(logs, classes);
    CoverageDecides(covered, events, logs, classes);
    ok := ScanEvents(logs, covered, events);
  }
}
