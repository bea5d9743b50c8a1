/** The governability fold as the checker runs it: one accumulator object per
    event id, kept in a map and updated record by record, and the coverage loops
    over that map. Each is proved against the merge of module Gov. */
module GovReport {
  import opened Records
  import opened Gov
  import opened Evidence

  type Table = map<string, Accumulator>

  /** The contents of a table: one merge per id. */
  type Summary = map<string, Merged>

  function AbsorbInto(sum: Summary, f: Finding): Summary {
    sum[f.id := Absorb(if f.id in sum then sum[f.id] else NOTHING, f)]
  }

  ghost predicate WellFormed(sum: Summary, order: seq<string>) {
    && (forall id :: id in sum ==> sum[id].primary.Some?)
    && forall id :: id in order <==> id in sum
  }

  /** Each id has its own accumulator, and the accumulators hold the summary. */
  ghost predicate Tracks(byId: Table, sum: Summary)
    reads byId.Values
  {
    && byId.Keys == sum.Keys
    && (forall i, j :: i in byId && j in byId && i != j ==> byId[i] != byId[j])
    && forall id :: id in byId ==> byId[id].View() == sum[id]
  }

  /** Fold one finding into the table. */
  method Enter(byId: Table, order: seq<string>, f: Finding, ghost sum: Summary) returns (byId': Table, order': seq<string>)
    requires Tracks(byId, sum)
    modifies byId.Values
    ensures Tracks(byId', AbsorbInto(sum, f))
    ensures order' == if f.id in sum then order else order + [f.id]
    ensures forall a :: a in byId'.Values ==> a in byId.Values || fresh(a)
  {
    byId', order' := byId, order;
    if f.id !in byId {
      var acc := new Accumulator();
      byId' := byId[f.id := acc];
      order' := order + [f.id];
    }
    var acc := byId'[f.id];
    acc.Accumulate(f);
  }

  // ----- The coverage decision over a filled table -----

  predicate SummaryGap(m: Merged, corr: set<string>)
    requires m.primary.Some?
  {
    !Escapes(Finalize(m)) && !(m.eventClasses <= corr)
  }

  ghost function SummaryCoverage(sum: Summary, corr: set<string>): Coverage
    requires forall id :: id in sum ==> sum[id].primary.Some?
  {
    var anomalies := set id | id in sum && sum[id].classConflict;
    var gaps := set id | id in sum && SummaryGap(sum[id], corr);
    if exists id :: id in sum && Unrecoverable(Finalize(sum[id])) then Coverage(Undecidable, {}, anomalies)
    else if corr == {} then Coverage(NotApplicable, {}, anomalies)
    else if gaps == {} then Coverage(Covered, {}, anomalies)
    else Coverage(Gap, gaps, anomalies)
  }

  method DecideCoverage(byId: Table, order: seq<string>, classes: seq<string>, ghost sum: Summary) returns (cov: Coverage)
    requires Tracks(byId, sum) && WellFormed(sum, order)
    ensures cov == SummaryCoverage(sum, StringSet(classes))
  {
    var anomalies: set<string> := {};
    for i := 0 to |order|
      invariant anomalies == set id | id in order[..i] && id in sum && sum[id].classConflict
    {
      assert order[i] in order;
      if byId[order[i]].classConflict {
        anomalies := anomalies + {order[i]};
      }
    }
    assert anomalies == set id | id in sum && sum[id].classConflict;
    for i := 0 to |order|
      invariant forall k :: 0 <= k < i ==> !Unrecoverable(Finalize(sum[order[k]]))
    {
      assert order[i] in order;
      var ev := Finalize(byId[order[i]].View());
      if ev.status == Unassessable && !(ev.id != "" && ev.eventClass != "") {
        return Coverage(Undecidable, {}, anomalies);
      }
    }
    if |classes| == 0 {
      return Coverage(NotApplicable, {}, anomalies);
    }
    assert classes[0] in StringSet(classes);
    var gaps := CollectGaps(byId, order, StringSet(classes), sum);
    if gaps == {} {
      return Coverage(Covered, {}, anomalies);
    }
    return Coverage(Gap, gaps, anomalies);
  }

  method CollectGaps(byId: Table, order: seq<string>, corr: set<string>, ghost sum: Summary) returns (gaps: set<string>)
    requires Tracks(byId, sum) && WellFormed(sum, order)
    ensures gaps == set id | id in sum && SummaryGap(sum[id], corr)
  {
    gaps := {};
    for i := 0 to |order|
      invariant gaps == set id | id in order[..i] && id in sum && SummaryGap(sum[id], corr)
    {
      assert order[i] in order;
      var acc := byId[order[i]];
      var ev := Finalize(acc.View());
      if ev.status == PolicyBound && ev.cls != Irreversible {
        continue;
      }
      if exists c :: c in acc.eventClasses && c !in corr {
        gaps := gaps + {order[i]};
      }
    }
  }

  // ----- Summaries of findings -----

  function Summarize(fs: seq<Finding>): Summary {
    map id | id in Ids(fs) :: Fold(Of(fs, id))
  }

  lemma MergeAppend(fs: seq<Finding>, f: Finding, id: string)
    ensures id != f.id ==> Fold(Of(fs + [f], id)) == Fold(Of(fs, id))
    ensures id == f.id ==> Fold(Of(fs + [f], id)) == Absorb(if id in Ids(fs) then Fold(Of(fs, id)) else NOTHING, f)
  {
    OfAppend(fs, f, id);
    if id !in Ids(fs) {
      assert Of(fs, id) == [];
    }
  }

  lemma SummarizeAppend(fs: seq<Finding>, f: Finding)
    ensures Summarize(fs + [f]) == AbsorbInto(Summarize(fs), f)
  {
    var sum, sum' := Summarize(fs), Summarize(fs + [f]);
    assert sum'.Keys == sum.Keys + {f.id} by {
      OrderAppend(fs, f);
    }
    forall id | id in sum'.Keys
      ensures sum'[id] == if id == f.id then Absorb(if id in sum then sum[id] else NOTHING, f) else sum[id]
    {
      MergeAppend(fs, f, id);
    }
    AbsorbedPointwise(sum, f, sum');
  }

  lemma AbsorbedPointwise(sum: Summary, f: Finding, sum': Summary)
    requires sum'.Keys == sum.Keys + {f.id}
    requires forall id :: id in sum' ==>
               sum'[id] == if id == f.id then Absorb(if id in sum then sum[id] else NOTHING, f) else sum[id]
    ensures sum' == AbsorbInto(sum, f)
  {
  }

  lemma SummaryWellFormed(fs: seq<Finding>)
    ensures WellFormed(Summarize(fs), Order(fs))
    ensures forall id :: id in Ids(fs) ==> Finalize(Summarize(fs)[id]) == Reported(fs, id)
  {
    forall id | id in Ids(fs)
      ensures Summarize(fs)[id].primary.Some?
    {
      ReportedId(fs, id);
    }
  }

  lemma SummaryCoverageIsCoverage(fs: seq<Finding>, corr: set<string>)
    ensures forall id :: id in Summarize(fs) ==> Summarize(fs)[id].primary.Some?
    ensures SummaryCoverage(Summarize(fs), corr) == CoverageOf(fs, corr)
  {
    SummaryWellFormed(fs);
    var sum := Summarize(fs);
    assert (set id | id in sum && sum[id].classConflict) == Anomalies(fs);
    assert (set id | id in sum && SummaryGap(sum[id], corr)) == Gaps(fs, corr);
    SameUnrecoverable(fs);
  }

  lemma SameUnrecoverable(fs: seq<Finding>)
    requires forall id :: id in Ids(fs) ==> Summarize(fs)[id].primary.Some? && Finalize(Summarize(fs)[id]) == Reported(fs, id)
    ensures HasUnrecoverable(fs) <==> exists id :: id in Summarize(fs) && Unrecoverable(Finalize(Summarize(fs)[id]))
  {
    if HasUnrecoverable(fs) {
      var id :| id in Ids(fs) && Unrecoverable(Reported(fs, id));
      assert id in Summarize(fs) && Unrecoverable(Finalize(Summarize(fs)[id]));
    }
  }

  // ----- The run -----

  /** The findings absorbed one after the other, and the ids as they first appear. */
  ghost function AbsorbAll(fs: seq<Finding>): (Summary, seq<string>) {
    if fs == [] then (map[], [])
    else
      var (sum, order) := AbsorbAll(fs[..|fs| - 1]);
      var f := fs[|fs| - 1];
      (AbsorbInto(sum, f), if f.id in sum then order else order + [f.id])
  }

  lemma {:induction false} AbsorbAllIsSummary(fs: seq<Finding>)
    ensures AbsorbAll(fs) == (Summarize(fs), Order(fs))
  {
    if fs != [] {
      var init, f := fs[..|fs| - 1], fs[|fs| - 1];
      AbsorbAllIsSummary(init);
      assert fs == init + [f];
      SummarizeAppend(init, f);
      OrderAppend(init, f);
    }
  }

  /** The table and the id list hold exactly these findings. */
  ghost predicate Holds(byId: Table, order: seq<string>, fs: seq<Finding>)
    reads byId.Values
  {
    Tracks(byId, AbsorbAll(fs).0) && order == AbsorbAll(fs).1
  }

  method EnterFinding(byId: Table, order: seq<string>, f: Finding, ghost fs: seq<Finding>) returns (byId': Table, order': seq<string>)
    requires Holds(byId, order, fs)
    modifies byId.Values
    ensures Holds(byId', order', fs + [f])
    ensures forall a :: a in byId'.Values ==> a in byId.Values || fresh(a)
  {
    assert (fs + [f])[..|fs|] == fs;
    byId', order' := Enter(byId, order, f, AbsorbAll(fs).0);
  }

  /** The inner loop: one log's records, after `before`. */
  method CollectLog(s: Setting, ghost before: seq<Record>, rs: seq<Record>, byId: Table, order: seq<string>)
    returns (byId': Table, order': seq<string>)
    requires AllAssessable(before) && AllAssessable(before + rs)
    requires Holds(byId, order, Findings(s, before))
    modifies byId.Values
    ensures Holds(byId', order', Findings(s, before + rs))
    ensures forall a :: a in byId'.Values ==> a in byId.Values || fresh(a)
  {
    byId', order' := byId, order;
    ghost var fs := Findings(s, before);
    assert before + rs[..0] == before;
    for j := 0 to |rs|
      invariant AllAssessable(before + rs[..j]) && fs == Findings(s, before + rs[..j])
      invariant forall a :: a in byId'.Values ==> a in byId.Values || fresh(a)
      invariant Holds(byId', order', fs)
    {
      var r := rs[j];
      NextRecord(s, before, rs, j);
      if r.payload.typ == Activity && r.signatureOK && r.canonicalOK {
        byId', order' := EnterFinding(byId', order', ClassifyEvent(s, r), fs);
        fs := fs + [ClassifyEvent(s, r)];
      }
    }
    assert rs[..|rs|] == rs;
  }

  /** Every record of the logs, in the order the loops visit them. */
  method CollectFindings(s: Setting, logs: seq<Log>) returns (byId: Table, order: seq<string>)
    requires AllAssessable(AllRecords(logs))
    ensures Holds(byId, order, Findings(s, AllRecords(logs)))
  {
    byId, order := map[], [];
    for i := 0 to |logs|
      invariant AllAssessable(AllRecords(logs[..i]))
      invariant forall a :: a in byId.Values ==> fresh(a)
      invariant Holds(byId, order, Findings(s, AllRecords(logs[..i])))
    {
      PrefixRecords(logs, i + 1);
      NextLog(logs, i);
      byId, order := CollectLog(s, AllRecords(logs[..i]), logs[i].records, byId, order);
    }
    assert logs[..|logs|] == logs;
  }

  lemma NextLog(logs: seq<Log>, i: nat)
    requires i < |logs|
    ensures AllRecords(logs[..i + 1]) == AllRecords(logs[..i]) + logs[i].records
  {
    assert logs[..i + 1][..i] == logs[..i];
  }

  lemma NextRecord(s: Setting, before: seq<Record>, rs: seq<Record>, j: nat)
    requires j < |rs| && AllAssessable(before + rs)
    ensures AllAssessable(before + rs[..j]) && AllAssessable(before + rs[..j] + [rs[j]])
    ensures before + rs[..j] + [rs[j]] == before + rs[..j + 1]
    ensures Findings(s, before + rs[..j] + [rs[j]]) ==
              Findings(s, before + rs[..j]) + if Kept(rs[j]) then [ClassifyEvent(s, rs[j])] else []
  {
    assert forall r :: r in before + rs[..j + 1] ==> r in before + rs;
    assert before + rs[..j] + [rs[j]] == before + rs[..j + 1];
    FindingsAppend(s, before + rs[..j], rs[j]);
  }

  lemma {:induction false} PrefixRecords(logs: seq<Log>, n: nat)
    requires n <= |logs| && AllAssessable(AllRecords(logs))
    ensures forall r :: r in AllRecords(logs[..n]) ==> r in AllRecords(logs)
    ensures AllAssessable(AllRecords(logs[..n]))
    decreases |logs| - n
  {
    if n < |logs| {
      PrefixRecords(logs, n + 1);
      assert logs[..n + 1][..n] == logs[..n];
    } else {
      assert logs[..n] == logs;
    }
  }

  /** One reported event per id, in order of first appearance. */
  ghost predicate EventsMean(fs: seq<Finding>, events: seq<Finding>) {
    && |events| == |Order(fs)|
    && forall i :: 0 <= i < |events| ==> Order(fs)[i] in Ids(fs) && events[i] == Reported(fs, Order(fs)[i])
  }

  method FinalizeAll(byId: Table, order: seq<string>, ghost sum: Summary) returns (events: seq<Finding>)
    requires Tracks(byId, sum) && WellFormed(sum, order)
    ensures |events| == |order| && forall i :: 0 <= i < |order| ==> order[i] in sum && events[i] == Finalize(sum[order[i]])
  {
    events := [];
    for i := 0 to |order|
      invariant |events| == i
      invariant forall k :: 0 <= k < i ==> order[k] in sum && events[k] == Finalize(sum[order[k]])
    {
      assert order[i] in order;
      events := events + [Finalize(byId[order[i]].View())];
    }
  }

  /** The per-run report is the merge of the run's findings, id by id. */
  method GovernRun(s: Setting, logs: seq<Log>, classes: seq<string>) returns (events: seq<Finding>, cov: Coverage)
    requires AllAssessable(AllRecords(logs))
    ensures EventsMean(Findings(s, AllRecords(logs)), events)
    ensures cov == CoverageOf(Findings(s, AllRecords(logs)), StringSet(classes))
  {
    var byId, order := CollectFindings(s, logs);
    ghost var fs := Findings(s, AllRecords(logs));
    AbsorbAllIsSummary(fs);
    SummaryWellFormed(fs);
    SummaryCoverageIsCoverage(fs, StringSet(classes));
    events := FinalizeAll(byId, order, Summarize(fs));
    cov := DecideCoverage(byId, order, classes, Summarize(fs));
  }
}
