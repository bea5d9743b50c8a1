/** When the coverage report depends on the order in which findings arrive. */
module GovOrder {
  import opened Basics
  import opened Records
  import opened Gov

  ghost predicate SameElements(fs: seq<Finding>, gs: seq<Finding>) {
    forall f :: f in fs <==> f in gs
  }

  lemma PermutationsShareElements(fs: seq<Finding>, gs: seq<Finding>)
    requires multiset(fs) == multiset(gs)
    ensures SameElements(fs, gs)
  {
    forall f
      ensures f in fs <==> f in gs
    {
      assert f in fs <==> f in multiset(fs);
      assert f in gs <==> f in multiset(gs);
    }
  }

  // ----- What the order cannot change -----

  lemma SameIds(fs: seq<Finding>, gs: seq<Finding>)
    requires SameElements(fs, gs)
    ensures Ids(fs) == Ids(gs)
    ensures forall id :: SameElements(Of(fs, id), Of(gs, id))
  {
  }

  /** Classes, conflicts and the gate depend only on which findings there are. */
  lemma SameMerge(fs: seq<Finding>, gs: seq<Finding>)
    requires SameElements(fs, gs)
    ensures Fold(fs).eventClasses == Fold(gs).eventClasses
    ensures Fold(fs).classConflict == Fold(gs).classConflict
    ensures Fold(fs).unassessable == Fold(gs).unassessable
  {
    FoldMeans(fs);
    FoldMeans(gs);
    assert EventClasses(fs) == EventClasses(gs);
  }

  lemma SameGate(fs: seq<Finding>, gs: seq<Finding>)
    requires SameElements(fs, gs) && fs != [] && gs != []
    ensures Fold(fs).primary.Some? && Fold(gs).primary.Some?
    ensures Escapes(Finalize(Fold(fs))) == Escapes(Finalize(Fold(gs)))
  {
    GateExact(fs);
    GateExact(gs);
    assert forall f :: MostSevere(fs, f) <==> MostSevere(gs, f);
  }

  lemma SameClass(fs: seq<Finding>, gs: seq<Finding>)
    requires SameElements(fs, gs) && fs != [] && gs != []
    ensures Fold(fs).primary.Some? && Fold(gs).primary.Some? && Finalize(Fold(fs)).cls == Finalize(Fold(gs)).cls
  {
    FoldMeans(fs);
    FoldMeans(gs);
    if !Fold(fs).unassessable {
      MergedClassIsMaximum(fs);
      MergedClassIsMaximum(gs);
      var f :| f in fs && f.cls == Finalize(Fold(fs)).cls;
      var g :| g in gs && g.cls == Finalize(Fold(gs)).cls;
      assert f in gs && g in fs;
    }
  }

  lemma SameGapsAndAnomalies(fs: seq<Finding>, gs: seq<Finding>, corr: set<string>)
    requires SameElements(fs, gs)
    ensures Gaps(fs, corr) == Gaps(gs, corr) && Anomalies(fs) == Anomalies(gs)
  {
    SameIds(fs, gs);
    forall id | id in Ids(fs)
      ensures IsGap(fs, corr, id) == IsGap(gs, corr, id) && IsConflict(fs, id) == IsConflict(gs, id)
    {
      SameMerge(Of(fs, id), Of(gs, id));
      ReportedId(fs, id);
      ReportedId(gs, id);
      SameGate(Of(fs, id), Of(gs, id));
    }
  }

  // ----- What it can -----

  /** A finding that can survive the merge of its id, in some order. */
  ghost predicate Top(fs: seq<Finding>, f: Finding) {
    f in fs && forall g :: g in fs && g.id == f.id ==> Score(g) <= Score(f)
  }

  ghost predicate IsUnassessable(fs: seq<Finding>, id: string) {
    exists f :: f in fs && f.id == id && f.status == Unassessable
  }

  /** Unrecoverable in every order. */
  ghost predicate Stuck(fs: seq<Finding>, id: string) {
    IsUnassessable(fs, id) && (id == "" || forall f :: Top(fs, f) && f.id == id ==> f.eventClass == "")
  }

  /** Unrecoverable in some order. */
  ghost predicate AtRisk(fs: seq<Finding>, id: string) {
    IsUnassessable(fs, id) && (id == "" || exists f :: Top(fs, f) && f.id == id && f.eventClass == "")
  }

  /** The condition on the findings under which their order is irrelevant. */
  ghost predicate Settled(fs: seq<Finding>) {
    (exists id :: Stuck(fs, id)) || !exists id :: AtRisk(fs, id)
  }

  /** The finding that survives, and that it alone decides recoverability. */
  lemma UnrecoverableMeans(fs: seq<Finding>, id: string) returns (k: int)
    requires id in Ids(fs)
    ensures SurvivesAt(Of(fs, id), k) && Top(fs, Of(fs, id)[k]) && Of(fs, id)[k].id == id
    ensures Unrecoverable(Reported(fs, id)) <==> IsUnassessable(fs, id) && (id == "" || Of(fs, id)[k].eventClass == "")
  {
    var part := Of(fs, id);
    ReportedId(fs, id);
    k := Survivor(part);
    FoldMeans(part);
    assert part[k] in part;
    forall g | g in fs && g.id == part[k].id
      ensures Score(g) <= Score(part[k])
    {
      assert g in part;
    }
    if IsUnassessable(fs, id) {
      var f :| f in fs && f.id == id && f.status == Unassessable;
      assert f in part;
    }
    assert Reported(fs, id) == Finalize(Fold(part));
  }

  lemma StuckIsUnrecoverable(fs: seq<Finding>, id: string)
    requires Stuck(fs, id)
    ensures id in Ids(fs) && Unrecoverable(Reported(fs, id)) && HasUnrecoverable(fs)
  {
    var f :| f in fs && f.id == id && f.status == Unassessable;
    assert id in Ids(fs);
    var k := UnrecoverableMeans(fs, id);
  }

  lemma UnrecoverableIsAtRisk(fs: seq<Finding>, id: string)
    requires id in Ids(fs) && Unrecoverable(Reported(fs, id))
    ensures AtRisk(fs, id)
  {
    var k := UnrecoverableMeans(fs, id);
  }

  lemma SameRisk(fs: seq<Finding>, gs: seq<Finding>, id: string)
    requires SameElements(fs, gs)
    ensures Stuck(fs, id) <==> Stuck(gs, id)
    ensures AtRisk(fs, id) <==> AtRisk(gs, id)
  {
    assert forall f :: Top(fs, f) <==> Top(gs, f);
  }

  /** Settled findings get one report however they are ordered or repeated. */
  lemma SettledReportIgnoresOrder(fs: seq<Finding>, gs: seq<Finding>, corr: set<string>)
    requires SameElements(fs, gs) && Settled(fs)
    ensures CoverageOf(fs, corr) == CoverageOf(gs, corr)
  {
    SameGapsAndAnomalies(fs, gs, corr);
    if id :| Stuck(fs, id) {
      SameRisk(fs, gs, id);
      StuckIsUnrecoverable(fs, id);
      StuckIsUnrecoverable(gs, id);
    } else {
      forall id | id in Ids(fs) && Unrecoverable(Reported(fs, id))
        ensures false
      {
        UnrecoverableIsAtRisk(fs, id);
      }
      forall id | id in Ids(gs) && Unrecoverable(Reported(gs, id))
        ensures false
      {
        UnrecoverableIsAtRisk(gs, id);
        SameRisk(fs, gs, id);
      }
    }
  }

  /** The documented case: when every finding has an event class, order is irrelevant. */
  lemma NonEmptyClassesSettle(fs: seq<Finding>)
    requires forall f :: f in fs ==> f.eventClass != ""
    ensures Settled(fs)
  {
    if id :| AtRisk(fs, id) {
      assert id == "";
      assert Stuck(fs, id);
    }
  }

  // ----- Unsettled findings have two reports -----

  function Selected(fs: seq<Finding>, pick: Finding -> bool): (r: seq<Finding>)
    ensures forall f :: f in r <==> f in fs && pick(f)
  {
    if fs == [] then []
    else
      assert fs == [fs[0]] + fs[1..];
      (if pick(fs[0]) then [fs[0]] else []) + Selected(fs[1..], pick)
  }

  /** The picked findings first, each part in its old order. */
  function Promoted(fs: seq<Finding>, pick: Finding -> bool): seq<Finding> {
    Selected(fs, pick) + Selected(fs, f => !pick(f))
  }

  lemma {:induction false} PromotedIsPermutation(fs: seq<Finding>, pick: Finding -> bool)
    ensures multiset(Promoted(fs, pick)) == multiset(fs)
  {
    if fs != [] {
      PromotedIsPermutation(fs[1..], pick);
      assert fs == [fs[0]] + fs[1..];
    }
  }

  lemma {:induction false} OfConcat(a: seq<Finding>, b: seq<Finding>, id: string)
    ensures Of(a + b, id) == Of(a, id) + Of(b, id)
    decreases |b|
  {
    if b == [] {
      assert a + b == a;
    } else {
      var init, last := b[..|b| - 1], b[|b| - 1];
      assert a + b == (a + init) + [last] && b == init + [last];
      OfAppend(a + init, last, id);
      OfAppend(init, last, id);
      OfConcat(a, init, id);
      Associate(Of(a, id), Of(init, id), if last.id == id then [last] else []);
    }
  }

  /** After promotion, an id with a top finding among the picked is survived by a
      picked finding. */
  lemma PromotedSurvives(fs: seq<Finding>, pick: Finding -> bool, id: string, f: Finding) returns (k: int)
    requires Top(fs, f) && f.id == id && pick(f)
    ensures SurvivesAt(Of(Promoted(fs, pick), id), k) && pick(Of(Promoted(fs, pick), id)[k])
  {
    var first, second := Selected(fs, pick), Selected(fs, g => !pick(g));
    var part := Of(Promoted(fs, pick), id);
    OfConcat(first, second, id);
    assert f in Of(first, id);
    k := Survivor(part);
    assert part[k] in part;
    var j :| 0 <= j < |Of(first, id)| && Of(first, id)[j] == f;
    assert part[j] == f && Score(part[k]) <= Score(f);
    assert part[k] == Of(first, id)[k];
  }

  /** Some order of unsettled findings makes the run undecidable. */
  lemma RiskCanMaterialize(fs: seq<Finding>, id: string) returns (gs: seq<Finding>)
    requires AtRisk(fs, id)
    ensures multiset(gs) == multiset(fs) && HasUnrecoverable(gs)
  {
    var pick := (f: Finding) => f.eventClass == "";
    gs := Promoted(fs, pick);
    PromotedIsPermutation(fs, pick);
    PermutationsShareElements(gs, fs);
    SameRisk(fs, gs, id);
    var u :| u in gs && u.id == id && u.status == Unassessable;
    assert id in Ids(gs);
    var k := UnrecoverableMeans(gs, id);
    if id != "" {
      var f :| Top(fs, f) && f.id == id && f.eventClass == "";
      var j := PromotedSurvives(fs, pick, id, f);
      assert Of(gs, id)[j] == Of(gs, id)[k];
    }
  }

  /** Some order of findings without a stuck id makes the run decidable. */
  lemma RiskCanBeAvoided(fs: seq<Finding>) returns (gs: seq<Finding>)
    requires !exists id :: Stuck(fs, id)
    ensures multiset(gs) == multiset(fs) && !HasUnrecoverable(gs)
  {
    var pick := (f: Finding) => f.eventClass != "";
    gs := Promoted(fs, pick);
    PromotedIsPermutation(fs, pick);
    PermutationsShareElements(gs, fs);
    forall id | id in Ids(gs)
      ensures !Unrecoverable(Reported(gs, id))
    {
      SameRisk(fs, gs, id);
      var k := UnrecoverableMeans(gs, id);
      if IsUnassessable(gs, id) {
        assert !Stuck(fs, id);
        var f :| Top(fs, f) && f.id == id && f.eventClass != "";
        var j := PromotedSurvives(fs, pick, id, f);
        assert Of(gs, id)[j] == Of(gs, id)[k];
      }
    }
  }

  /** Some two permutations of unsettled findings have different reports. */
  lemma UnsettledFindings(fs: seq<Finding>) returns (bad: seq<Finding>, good: seq<Finding>)
    requires !Settled(fs)
    ensures multiset(bad) == multiset(fs) && multiset(good) == multiset(fs)
    ensures HasUnrecoverable(bad) && !HasUnrecoverable(good)
  {
    var id :| AtRisk(fs, id);
    bad := RiskCanMaterialize(fs, id);
    good := RiskCanBeAvoided(fs);
  }

  /** The report of two findings for one id. */
  lemma PairReport(pair: seq<Finding>, id: string)
    requires |pair| == 2 && pair[0].id == id && pair[1].id == id
    ensures Ids(pair) == {id}
    ensures Fold(Of(pair, id)) == Absorb(Absorb(NOTHING, pair[0]), pair[1])
    ensures Reported(pair, id) == Finalize(Absorb(Absorb(NOTHING, pair[0]), pair[1]))
  {
    var none := pair[..0];
    var one := none + [pair[0]];
    assert pair == one + [pair[1]];
    OfAppend(none, pair[0], id);
    OfAppend(one, pair[1], id);
    OrderAppend(none, pair[0]);
    OrderAppend(one, pair[1]);
  }

  /** The order does matter: a schema-invalid record without an event class and an
      irreversible unclassified one with a covered class, for one id. Whichever
      comes first decides whether the run is undecidable or covered. */
  lemma FirstComerDecides(fs: seq<Finding>, gs: seq<Finding>)
    requires |fs| == |gs| == 2 && gs[0] == fs[1] && gs[1] == fs[0]
    requires fs[0].id == fs[1].id != "" && fs[0].cls == fs[1].cls == Irreversible
    requires fs[0].status == Unassessable && fs[0].eventClass == ""
    requires fs[1].status == Unclassified && fs[1].eventClass != ""
    ensures CoverageOf(fs, {fs[1].eventClass}).status == Undecidable
    ensures CoverageOf(gs, {fs[1].eventClass}).status == Covered
  {
    UnassessableFirst(fs, {fs[1].eventClass});
    UnclassifiedFirstCovers(gs, {gs[0].eventClass});
  }

  lemma UnassessableFirst(fs: seq<Finding>, corr: set<string>)
    requires |fs| == 2 && corr != {}
    requires fs[0].id == fs[1].id && fs[0].cls == fs[1].cls == Irreversible
    requires fs[0].status == Unassessable && fs[0].eventClass == "" && fs[1].status == Unclassified
    ensures CoverageOf(fs, corr).status == Undecidable
  {
    PairReport(fs, fs[0].id);
    OneIdCoverage(fs, fs[0].id, corr);
  }

  lemma UnclassifiedFirstCovers(gs: seq<Finding>, corr: set<string>)
    requires |gs| == 2 && gs[0].id == gs[1].id != "" && gs[0].cls == gs[1].cls == Irreversible
    requires gs[0].status == Unclassified && gs[0].eventClass != "" && gs[0].eventClass in corr
    requires gs[1].status == Unassessable && gs[1].eventClass == ""
    ensures CoverageOf(gs, corr).status == Covered
  {
    PairReport(gs, gs[0].id);
    OneIdCoverage(gs, gs[0].id, corr);
    UnclassifiedFirst(gs[0], gs[1]);
  }

  lemma UnclassifiedFirst(b: Finding, a: Finding)
    requires a.cls == b.cls == Irreversible && b.id != ""
    requires a.status == Unassessable && a.eventClass == "" && b.status == Unclassified && b.eventClass != ""
    ensures var m := Absorb(Absorb(NOTHING, b), a);
            m.primary == Some(b) && m.unassessable && m.eventClasses == {b.eventClass}
  {
  }

  /** The report of a run with one id. */
  lemma OneIdCoverage(fs: seq<Finding>, id: string, corr: set<string>)
    requires Ids(fs) == {id} && corr != {}
    ensures CoverageOf(fs, corr).status ==
              if Unrecoverable(Reported(fs, id)) then Undecidable
              else if Escapes(Reported(fs, id)) || Fold(Of(fs, id)).eventClasses <= corr then Covered
              else Gap
  {
    assert HasUnrecoverable(fs) <==> Unrecoverable(Reported(fs, id));
    assert Gaps(fs, corr) == if IsGap(fs, corr, id) then {id} else {};
  }

  // ----- Permuting the records of a run -----

  lemma SameRecords(rs: seq<Record>, qs: seq<Record>)
    requires multiset(rs) == multiset(qs)
    ensures forall r :: r in rs <==> r in qs
    ensures AllAssessable(rs) <==> AllAssessable(qs)
  {
    forall r
      ensures r in rs <==> r in qs
    {
      assert r in rs <==> r in multiset(rs);
      assert r in qs <==> r in multiset(qs);
    }
  }

  lemma FindingsOfPermutation(s: Setting, rs: seq<Record>, qs: seq<Record>)
    requires AllAssessable(rs) && AllAssessable(qs) && multiset(rs) == multiset(qs)
    ensures SameElements(Findings(s, rs), Findings(s, qs))
  {
    SameRecords(rs, qs);
    forall f
      ensures f in Findings(s, rs) <==> f in Findings(s, qs)
    {
      InFindings(s, rs, f);
      InFindings(s, qs, f);
    }
  }

  lemma {:induction false} FindingsConcat(s: Setting, a: seq<Record>, b: seq<Record>)
    requires AllAssessable(a) && AllAssessable(b) && AllAssessable(a + b)
    ensures Findings(s, a + b) == Findings(s, a) + Findings(s, b)
    decreases |b|
  {
    if b == [] {
      assert a + b == a;
    } else {
      var init, last := b[..|b| - 1], b[|b| - 1];
      assert b == init + [last] && a + b == a + init + [last];
      assert AllAssessable(a + init);
      FindingsConcat(s, a, init);
      FindingsAppend(s, a + init, last);
      FindingsAppend(s, init, last);
      Associate(Findings(s, a), Findings(s, init), if Kept(last) then [ClassifyEvent(s, last)] else []);
    }
  }

  /** Every order of the findings is the order of the findings of some permutation
      of the records. */
  lemma {:induction false} OrderIsReachable(s: Setting, rs: seq<Record>, gs: seq<Finding>) returns (qs: seq<Record>)
    requires AllAssessable(rs) && multiset(gs) == multiset(Findings(s, rs))
    ensures multiset(qs) == multiset(rs) && AllAssessable(qs) && Findings(s, qs) == gs
    decreases |gs|
  {
    if gs == [] {
      qs := rs;
      assert |Findings(s, rs)| == |multiset(Findings(s, rs))| == 0;
    } else {
      var init, g := gs[..|gs| - 1], gs[|gs| - 1];
      assert gs == init + [g];
      assert g in multiset(gs);
      InFindings(s, rs, g);
      var r :| r in rs && Kept(r) && ClassifyEvent(s, r) == g;
      var i :| 0 <= i < |rs| && rs[i] == r;
      var others := WithoutRecord(s, rs, i);
      assert multiset(init) == multiset(gs) - multiset{g};
      var before := OrderIsReachable(s, others, init);
      qs := before + [r];
      SameRecords(qs, rs);
      FindingsAppend(s, before, r);
    }
  }

  /** Leaving one kept record out leaves its finding out. */
  lemma WithoutRecord(s: Setting, rs: seq<Record>, i: nat) returns (others: seq<Record>)
    requires AllAssessable(rs) && i < |rs| && Kept(rs[i])
    ensures AllAssessable(others) && multiset(others) + multiset{rs[i]} == multiset(rs)
    ensures multiset(Findings(s, others)) == multiset(Findings(s, rs)) - multiset{ClassifyEvent(s, rs[i])}
  {
    var a, r, b := rs[..i], rs[i], rs[i + 1..];
    others := a + b;
    assert rs == a + ([r] + b);
    assert AllAssessable(a) && AllAssessable(b) && AllAssessable([r]) && AllAssessable([r] + b) && AllAssessable(a + b);
    FindingsConcat(s, a, [r] + b);
    FindingsConcat(s, [r], b);
    FindingsConcat(s, a, b);
    OneFinding(s, r);
  }

  lemma OneFinding(s: Setting, r: Record)
    requires Kept(r) && AllAssessable([r])
    ensures Findings(s, [r]) == [ClassifyEvent(s, r)]
  {
    assert [r][..0] == [];
  }

  /** Every permutation of the records reports the same class for an id. */
  lemma ReportedClassIgnoresOrder(s: Setting, rs: seq<Record>, qs: seq<Record>, id: string)
    requires AllAssessable(rs) && AllAssessable(qs) && multiset(rs) == multiset(qs)
    requires id in Ids(Findings(s, rs))
    ensures id in Ids(Findings(s, qs)) && Reported(Findings(s, rs), id).cls == Reported(Findings(s, qs), id).cls
  {
    var fs, gs := Findings(s, rs), Findings(s, qs);
    FindingsOfPermutation(s, rs, qs);
    SameIds(fs, gs);
    ReportedId(fs, id);
    ReportedId(gs, id);
    SameClass(Of(fs, id), Of(gs, id));
  }

  ghost predicate OrderIrrelevant(s: Setting, rs: seq<Record>, corr: set<string>)
    requires AllAssessable(rs)
  {
    forall qs :: multiset(qs) == multiset(rs) && AllAssessable(qs) ==>
      CoverageOf(Findings(s, qs), corr) == CoverageOf(Findings(s, rs), corr)
  }

  /** Status, gaps and anomalies are the same for every permutation of the records,
      across recorders and within them, iff the findings of the records are settled. */
  lemma OrderIrrelevantIff(s: Setting, rs: seq<Record>, corr: set<string>)
    requires AllAssessable(rs)
    ensures OrderIrrelevant(s, rs, corr) <==> Settled(Findings(s, rs))
  {
    var fs := Findings(s, rs);
    if Settled(fs) {
      forall qs | multiset(qs) == multiset(rs) && AllAssessable(qs)
        ensures CoverageOf(Findings(s, qs), corr) == CoverageOf(fs, corr)
      {
        FindingsOfPermutation(s, rs, qs);
        SettledReportIgnoresOrder(fs, Findings(s, qs), corr);
      }
    } else {
      var bad, good := UnsettledFindings(fs);
      var badOrder := OrderIsReachable(s, rs, bad);
      var goodOrder := OrderIsReachable(s, rs, good);
      assert CoverageOf(Findings(s, badOrder), corr).status == Undecidable != CoverageOf(Findings(s, goodOrder), corr).status;
    }
  }

  /** The documented case: records that all name an event class may be permuted
      without changing the coverage report. */
  lemma RecordOrderIrrelevant(s: Setting, rs: seq<Record>, corr: set<string>)
    requires AllAssessable(rs)
    requires forall r :: r in rs && Kept(r) ==> r.payload.event.Some? && r.payload.event.value.cls != ""
    ensures OrderIrrelevant(s, rs, corr)
  {
    forall f | f in Findings(s, rs)
      ensures f.eventClass != ""
    {
      InFindings(s, rs, f);
    }
    NonEmptyClassesSettle(Findings(s, rs));
    OrderIrrelevantIff(s, rs, corr);
  }

  /** A verified canonical activity of an event id and class. */
  ghost predicate ActivityOf(w: World, keys: map<string, Bytes>, r: Record, id: string, cls: string) {
    && Loaded(w, keys, r) && Kept(r)
    && r.payload.event.Some? && r.payload.event.value.id == id && r.payload.event.value.cls == cls
  }

  /** The order does matter, for any two loaded records of this kind: a
      schema-invalid activity without an event class and a valid one of a covered
      class that is neither decided nor declared, for one event id. Read in one
      order the run is undecidable, in the other it is covered. */
  lemma OrderCanMatter(w: World, keys: map<string, Bytes>, s: Setting, a: Record, b: Record, id: string, cls: string)
    requires ActivityOf(w, keys, a, id, "") && !a.schemaOK
    requires ActivityOf(w, keys, b, id, cls) && b.schemaOK && b.payload.decision.None? && s.declaration(b.raw) == ""
    requires id != "" && cls != ""
    ensures multiset([a, b]) == multiset([b, a]) && AllAssessable([a, b]) && AllAssessable([b, a])
    ensures CoverageOf(Findings(s, [a, b]), {cls}).status == Undecidable
    ensures CoverageOf(Findings(s, [b, a]), {cls}).status == Covered
  {
    TwoFindings(s, a, b);
    TwoFindings(s, b, a);
    var f, g := ClassifyEvent(s, a), ClassifyEvent(s, b);
    assert f == Finding(id, Irreversible, "", Unassessable) && g == Finding(id, Irreversible, cls, Unclassified);
    FirstComerDecides([f, g], [g, f]);
  }

  lemma TwoFindings(s: Setting, a: Record, b: Record)
    requires Kept(a) && Kept(b) && Assessable(a) && Assessable(b)
    ensures AllAssessable([a, b]) && Findings(s, [a, b]) == [ClassifyEvent(s, a), ClassifyEvent(s, b)]
  {
    assert AllAssessable([a]) && AllAssessable([b]);
    assert [a, b] == [a] + [b];
    FindingsConcat(s, [a], [b]);
    OneFinding(s, a);
    OneFinding(s, b);
  }
}
