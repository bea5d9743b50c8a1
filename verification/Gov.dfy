/** The governability report: what each recorded activity says about its own
    reversibility, and the coverage gate only a hash-verified policy may open. */
module Gov {
  import opened Basics
  import opened Records

  // ----- One record -----

  datatype Class = ReadOnly | Reversible | ExternalReversible | Irreversible

  function Severity(c: Class): nat {
    match c
    case ReadOnly => 0
    case Reversible => 1
    case ExternalReversible => 2
    case Irreversible => 3
  }

  datatype Provenance = PolicyBound | PolicySilent | PolicyInvalid | Declared | Unclassified | Unassessable

  /** The finding for one activity record. */
  datatype Finding = Finding(id: string, cls: Class, eventClass: string, status: Provenance)

  /** Library code and policy bytes: the reversibility map a policy decodes to, and
      the class a payload declares for itself (empty when absent or undecodable). */
  datatype Setting = Setting(
    sha: HashFn,
    reversibility: Bytes -> Option<map<string, string>>,
    declaration: Bytes -> string,
    policies: map<string, Bytes>)

  function Vocabulary(c: string): Option<Class> {
    if c == "read-only" then Some(ReadOnly)
    else if c == "reversible" then Some(Reversible)
    else if c == "external-reversible" then Some(ExternalReversible)
    else if c == "irreversible" then Some(Irreversible)
    else None
  }

  /** Anything outside the vocabulary fails closed. */
  function NormalizeClass(c: string): Class {
    match Vocabulary(c)
    case Some(cls) => cls
    case None => Irreversible
  }

  datatype PolicyState = NoPolicy | ReferencedBad | Silent | BoundTo(value: string)

  predicate Assessable(r: Record) {
    r.schemaOK ==> r.payload.event.Some?
  }

  function PolicyBoundClass(s: Setting, r: Record): PolicyState
    requires r.payload.event.Some?
  {
    if r.payload.decision.None? || r.payload.decision.value.policy == "" then NoPolicy
    else
      var want := r.payload.decision.value.policy;
      if want !in s.policies || Hex(s.sha(s.policies[want])) != want then ReferencedBad
      else
        match s.reversibility(s.policies[want])
        case None => ReferencedBad
        case Some(classes) =>
          var c := r.payload.event.value.cls;
          if c in classes then BoundTo(classes[c]) else Silent
  }

  function ClassifyEvent(s: Setting, r: Record): Finding
    requires Assessable(r)
  {
    if !r.schemaOK then
      match r.payload.event
      case None => Finding("", Irreversible, "", Unassessable)
      case Some(e) => Finding(e.id, Irreversible, e.cls, Unassessable)
    else
      var e := r.payload.event.value;
      match PolicyBoundClass(s, r)
      case BoundTo(c) =>
        if Vocabulary(c).None? then Finding(e.id, Irreversible, e.cls, PolicyInvalid)
        else Finding(e.id, NormalizeClass(c), e.cls, PolicyBound)
      case ReferencedBad => Finding(e.id, Irreversible, e.cls, PolicyInvalid)
      case Silent => Finding(e.id, Irreversible, e.cls, PolicySilent)
      case NoPolicy =>
        if s.declaration(r.raw) != "" then Finding(e.id, NormalizeClass(s.declaration(r.raw)), e.cls, Declared)
        else Finding(e.id, Irreversible, e.cls, Unclassified)
  }

  /** The policy named by the record's decision is present, its bytes hash to that
      name, and it gives the record's event class a class of the vocabulary. */
  ghost predicate BoundByPolicy(s: Setting, r: Record, cls: Class) {
    && r.schemaOK && r.payload.event.Some? && r.payload.decision.Some?
    && var want := r.payload.decision.value.policy;
       && want != "" && want in s.policies
       && Hex(s.sha(s.policies[want])) == want
       && s.reversibility(s.policies[want]).Some?
       && var classes := s.reversibility(s.policies[want]).value;
          var c := r.payload.event.value.cls;
          c in classes && Vocabulary(classes[c]) == Some(cls)
  }

  /** A finding is policy-bound exactly when the committed policy says so, and only
      a policy or a declaration gives anything milder than irreversible. */
  lemma PolicyBoundExactly(s: Setting, r: Record)
    requires Assessable(r)
    ensures forall cls :: ClassifyEvent(s, r).status == PolicyBound && ClassifyEvent(s, r).cls == cls <==> BoundByPolicy(s, r, cls)
    ensures ClassifyEvent(s, r).cls != Irreversible ==> ClassifyEvent(s, r).status in {PolicyBound, Declared}
    ensures ClassifyEvent(s, r).status == Unassessable <==> !r.schemaOK
  {
  }

  // ----- Merging the findings of one id -----

  function StatusRank(s: Provenance): nat {
    match s
    case PolicyBound => 2
    case Declared => 1
    case _ => 0
  }

  /** Severity first, then provenance. */
  function Score(f: Finding): nat {
    3 * Severity(f.cls) + StatusRank(f.status)
  }

  function MergeEvent(a: Finding, b: Finding): (r: Finding)
    ensures r == if Score(b) > Score(a) then b else a
  {
    if Severity(b.cls) > Severity(a.cls) then b
    else if Severity(b.cls) == Severity(a.cls) && StatusRank(b.status) > StatusRank(a.status) then b
    else a
  }

  datatype Merged = Merged(primary: Option<Finding>, eventClasses: set<string>, classConflict: bool, unassessable: bool)

  const NOTHING := Merged(None, {}, false, false)

  function Absorb(m: Merged, f: Finding): Merged {
    Merged(
      Some(if m.primary.None? then f else MergeEvent(m.primary.value, f)),
      m.eventClasses + if f.eventClass != "" then {f.eventClass} else {},
      m.classConflict || (f.eventClass != "" && m.eventClasses != {} && f.eventClass !in m.eventClasses),
      m.unassessable || f.status == Unassessable)
  }

  /** The accumulator of one id, updated in place as findings arrive. */
  class Accumulator {
    var primary: Option<Finding>
    var eventClasses: set<string>
    var classConflict: bool
    var unassessable: bool

    function View(): Merged
      reads this
    {
      Merged(primary, eventClasses, classConflict, unassessable)
    }

    constructor ()
      ensures View() == NOTHING
    {
      primary, eventClasses, classConflict, unassessable := None, {}, false, false;
    }

    method Accumulate(f: Finding)
      modifies this
      ensures View() == Absorb(old(View()), f)
    {
      if f.eventClass != "" {
        if |eventClasses| > 0 && f.eventClass !in eventClasses {
          classConflict := true;
        }
        eventClasses := eventClasses + {f.eventClass};
      }
      if f.status == Unassessable {
        unassessable := true;
      }
      if primary.None? {
        primary := Some(f);
        return;
      }
      primary := Some(MergeEvent(primary.value, f));
    }
  }

  function Fold(fs: seq<Finding>): Merged {
    if fs == [] then NOTHING else Absorb(Fold(fs[..|fs| - 1]), fs[|fs| - 1])
  }

  /** The finding at `k` is the first of the highest score, and it survives. */
  ghost predicate SurvivesAt(fs: seq<Finding>, k: int) {
    && 0 <= k < |fs|
    && (forall f :: f in fs ==> Score(f) <= Score(fs[k]))
    && (forall j :: 0 <= j < k ==> Score(fs[j]) < Score(fs[k]))
    && Fold(fs).primary == Some(fs[k])
  }

  function EventClasses(fs: seq<Finding>): set<string> {
    set f | f in fs && f.eventClass != "" :: f.eventClass
  }

  lemma FoldAppend(fs: seq<Finding>, f: Finding)
    ensures Fold(fs + [f]) == Absorb(Fold(fs), f)
  {
    assert (fs + [f])[..|fs|] == fs;
  }

  lemma {:induction false} Survivor(fs: seq<Finding>) returns (k: int)
    requires fs != []
    ensures SurvivesAt(fs, k)
  {
    var init, last := fs[..|fs| - 1], fs[|fs| - 1];
    assert fs == init + [last];
    if init == [] {
      k := 0;
    } else {
      k := Survivor(init);
      if Score(last) > Score(init[k]) {
        forall j | 0 <= j < |init|
          ensures Score(init[j]) < Score(last)
        {
          assert init[j] in init;
        }
        k := |init|;
      }
    }
  }

  ghost predicate Disagree(fs: seq<Finding>) {
    exists c, d :: c in EventClasses(fs) && d in EventClasses(fs) && c != d
  }

  /** What the accumulator holds besides the surviving finding. */
  lemma {:induction false} FoldMeans(fs: seq<Finding>)
    ensures Fold(fs).primary.Some? <==> fs != []
    ensures Fold(fs).eventClasses == EventClasses(fs)
    ensures Fold(fs).classConflict <==> Disagree(fs)
    ensures Fold(fs).unassessable <==> exists f :: f in fs && f.status == Unassessable
  {
    if fs != [] {
      var init, last := fs[..|fs| - 1], fs[|fs| - 1];
      FoldMeans(init);
      assert fs == init + [last];
      assert EventClasses(fs) == EventClasses(init) + if last.eventClass != "" then {last.eventClass} else {};
      DisagreeAppend(init, last);
      assert Fold(fs) == Absorb(Fold(init), last);
    }
  }

  lemma DisagreeAppend(init: seq<Finding>, last: Finding)
    requires EventClasses(init + [last]) == EventClasses(init) + if last.eventClass != "" then {last.eventClass} else {}
    ensures Disagree(init + [last]) <==>
              Disagree(init) || (last.eventClass != "" && EventClasses(init) != {} && last.eventClass !in EventClasses(init))
  {
    if last.eventClass != "" && EventClasses(init) != {} {
      var c :| c in EventClasses(init);
      assert c in EventClasses(init + [last]) && last.eventClass in EventClasses(init + [last]);
    }
  }

  function Finalize(m: Merged): Finding
    requires m.primary.Some?
  {
    if m.unassessable then m.primary.value.(status := Unassessable, cls := Irreversible) else m.primary.value
  }

  /** The only reported finding that lowers the gate. */
  predicate Escapes(f: Finding) {
    f.status == PolicyBound && f.cls != Irreversible
  }

  ghost predicate MostSevere(fs: seq<Finding>, f: Finding) {
    f in fs && forall g :: g in fs ==> Severity(g.cls) <= Severity(f.cls)
  }

  lemma ScoreOrdersSeverity(f: Finding, g: Finding)
    ensures Score(f) <= Score(g) ==> Severity(f.cls) <= Severity(g.cls)
    ensures Severity(f.cls) == Severity(g.cls) ==> (Score(f) <= Score(g) <==> StatusRank(f.status) <= StatusRank(g.status))
  {
  }

  /** The gate, exactly: merged findings escape iff none is irreversible or
      unassessable and one of the most severe is policy-bound. */
  lemma GateExact(fs: seq<Finding>)
    requires fs != []
    ensures Fold(fs).primary.Some?
    ensures Escapes(Finalize(Fold(fs))) <==>
              && (forall f :: f in fs ==> f.cls != Irreversible && f.status != Unassessable)
              && exists f :: MostSevere(fs, f) && f.status == PolicyBound
  {
    FoldMeans(fs);
    var k := Survivor(fs);
    var p := fs[k];
    forall f | f in fs
      ensures Severity(f.cls) <= Severity(p.cls)
    {
      ScoreOrdersSeverity(f, p);
    }
    assert MostSevere(fs, p);
    forall f | MostSevere(fs, f) && f.status == PolicyBound
      ensures p.status == PolicyBound
    {
      ScoreOrdersSeverity(f, p);
    }
  }

  /** An unassessable finding is irreversible; classification never does otherwise. */
  ghost predicate FailClosed(fs: seq<Finding>) {
    forall f :: f in fs && f.status == Unassessable ==> f.cls == Irreversible
  }

  lemma MergedClassIsMaximum(fs: seq<Finding>)
    requires fs != [] && FailClosed(fs)
    ensures Fold(fs).primary.Some?
    ensures forall f :: f in fs ==> Severity(f.cls) <= Severity(Finalize(Fold(fs)).cls)
    ensures exists f :: f in fs && f.cls == Finalize(Fold(fs)).cls
  {
    FoldMeans(fs);
    var k := Survivor(fs);
    forall f | f in fs
      ensures Severity(f.cls) <= Severity(fs[k].cls)
    {
      ScoreOrdersSeverity(f, fs[k]);
    }
  }

  // ----- The findings of a run -----

  predicate Kept(r: Record) {
    r.payload.typ == Activity && r.signatureOK && r.canonicalOK
  }

  predicate AllAssessable(rs: seq<Record>) {
    forall r :: r in rs && Kept(r) ==> Assessable(r)
  }

  function Findings(s: Setting, rs: seq<Record>): seq<Finding>
    requires AllAssessable(rs)
  {
    if rs == [] then []
    else
      var last := rs[|rs| - 1];
      assert rs == rs[..|rs| - 1] + [last];
      Findings(s, rs[..|rs| - 1]) + if Kept(last) then [ClassifyEvent(s, last)] else []
  }

  lemma {:induction false} InFindings(s: Setting, rs: seq<Record>, f: Finding)
    requires AllAssessable(rs)
    ensures f in Findings(s, rs) <==> exists r :: r in rs && Kept(r) && ClassifyEvent(s, r) == f
  {
    if rs != [] {
      var last := rs[|rs| - 1];
      assert rs == rs[..|rs| - 1] + [last];
      InFindings(s, rs[..|rs| - 1], f);
    }
  }

  lemma FindingsAppend(s: Setting, rs: seq<Record>, r: Record)
    requires AllAssessable(rs) && AllAssessable(rs + [r])
    ensures Findings(s, rs + [r]) == Findings(s, rs) + if Kept(r) then [ClassifyEvent(s, r)] else []
  {
    assert (rs + [r])[..|rs|] == rs;
  }

  /** The findings with one id, in order. */
  function Of(fs: seq<Finding>, id: string): (r: seq<Finding>)
    ensures forall f :: f in r <==> f in fs && f.id == id
  {
    if fs == [] then []
    else
      var last := fs[|fs| - 1];
      assert fs == fs[..|fs| - 1] + [last];
      Of(fs[..|fs| - 1], id) + if last.id == id then [last] else []
  }

  lemma OfAppend(fs: seq<Finding>, f: Finding, id: string)
    ensures Of(fs + [f], id) == Of(fs, id) + if f.id == id then [f] else []
    ensures Fold(Of(fs + [f], id)) == if f.id == id then Absorb(Fold(Of(fs, id)), f) else Fold(Of(fs, id))
  {
    assert (fs + [f])[..|fs|] == fs;
    FoldAppend(Of(fs, id), f);
    assert Of(fs, id) + [] == Of(fs, id);
  }

  function Ids(fs: seq<Finding>): set<string> {
    set f | f in fs :: f.id
  }

  /** The ids in order of first appearance. */
  function Order(fs: seq<Finding>): (ids: seq<string>)
    ensures forall id :: id in ids <==> id in Ids(fs)
    ensures forall i, j :: 0 <= i < j < |ids| ==> ids[i] != ids[j]
  {
    if fs == [] then []
    else
      var init, last := Order(fs[..|fs| - 1]), fs[|fs| - 1];
      assert fs == fs[..|fs| - 1] + [last];
      assert Ids(fs) == Ids(fs[..|fs| - 1]) + {last.id};
      if last.id in init then init else init + [last.id]
  }

  lemma OrderAppend(fs: seq<Finding>, f: Finding)
    ensures Order(fs + [f]) == if f.id in Ids(fs) then Order(fs) else Order(fs) + [f.id]
    ensures Ids(fs + [f]) == Ids(fs) + {f.id}
  {
    assert (fs + [f])[..|fs|] == fs;
  }

  lemma ReportedId(fs: seq<Finding>, id: string)
    requires id in Ids(fs)
    ensures Of(fs, id) != [] && Fold(Of(fs, id)).primary.Some? && Finalize(Fold(Of(fs, id))).id == id
  {
    var f :| f in fs && f.id == id;
    assert f in Of(fs, id);
    var k := Survivor(Of(fs, id));
    assert Of(fs, id)[k] in Of(fs, id);
  }

  function Reported(fs: seq<Finding>, id: string): (r: Finding)
    requires id in Ids(fs)
    ensures r.id == id
  {
    ReportedId(fs, id);
    Finalize(Fold(Of(fs, id)))
  }

  // ----- Coverage -----

  datatype CoverageStatus = Covered | Gap | NotApplicable | Undecidable

  datatype Coverage = Coverage(status: CoverageStatus, gaps: set<string>, anomalies: set<string>)

  predicate Unrecoverable(f: Finding) {
    f.status == Unassessable && (f.id == "" || f.eventClass == "")
  }

  ghost predicate HasUnrecoverable(fs: seq<Finding>) {
    exists id :: id in Ids(fs) && Unrecoverable(Reported(fs, id))
  }

  predicate IsConflict(fs: seq<Finding>, id: string) {
    Fold(Of(fs, id)).classConflict
  }

  function Anomalies(fs: seq<Finding>): set<string> {
    set id | id in Ids(fs) && IsConflict(fs, id)
  }

  predicate IsGap(fs: seq<Finding>, corr: set<string>, id: string)
    requires id in Ids(fs)
  {
    !Escapes(Reported(fs, id)) && !(Fold(Of(fs, id)).eventClasses <= corr)
  }

  function Gaps(fs: seq<Finding>, corr: set<string>): set<string> {
    set id | id in Ids(fs) && IsGap(fs, corr, id)
  }

  /** The report the merged findings must get. */
  ghost function CoverageOf(fs: seq<Finding>, corr: set<string>): Coverage {
    if HasUnrecoverable(fs) then Coverage(Undecidable, {}, Anomalies(fs))
    else if corr == {} then Coverage(NotApplicable, {}, Anomalies(fs))
    else if Gaps(fs, corr) == {} then Coverage(Covered, {}, Anomalies(fs))
    else Coverage(Gap, Gaps(fs, corr), Anomalies(fs))
  }

  // ----- What a covered run guarantees -----

  /** A record contributes to an event id. */
  ghost predicate Contributes(s: Setting, rs: seq<Record>, r: Record, id: string)
    requires AllAssessable(rs)
  {
    r in rs && Kept(r) && ClassifyEvent(s, r).id == id
  }

  /** Some contributing record is bound by a policy to the greatest contributed severity. */
  ghost predicate PolicyBindsWorst(s: Setting, rs: seq<Record>, id: string)
    requires AllAssessable(rs)
  {
    exists r, cls :: && Contributes(s, rs, r, id) && BoundByPolicy(s, r, cls)
                     && forall q :: Contributes(s, rs, q, id) ==> Severity(ClassifyEvent(s, q).cls) <= Severity(cls)
  }

  /** The gate in terms of signed records: an id escapes iff no contributing record
      is irreversible or unassessable, and some contributing record of the greatest
      severity is bound by a policy whose bytes hash to the decision's reference. */
  lemma CoverageGateExact(s: Setting, rs: seq<Record>, id: string)
    requires AllAssessable(rs) && id in Ids(Findings(s, rs))
    ensures Escapes(Reported(Findings(s, rs), id)) <==>
              && (forall r :: Contributes(s, rs, r, id) ==> ClassifyEvent(s, r).cls != Irreversible && r.schemaOK)
              && PolicyBindsWorst(s, rs, id)
  {
    var fs := Findings(s, rs);
    var part := Of(fs, id);
    ReportedId(fs, id);
    GateExact(part);
    forall f
      ensures f in part <==> IsFindingOf(s, rs, id, f)
    {
      InFindings(s, rs, f);
    }
    MildContributors(s, rs, id, part);
    BoundContributors(s, rs, id, part);
  }

  ghost predicate IsFindingOf(s: Setting, rs: seq<Record>, id: string, f: Finding)
    requires AllAssessable(rs)
  {
    exists r :: Contributes(s, rs, r, id) && ClassifyEvent(s, r) == f
  }

  lemma MildContributors(s: Setting, rs: seq<Record>, id: string, part: seq<Finding>)
    requires AllAssessable(rs)
    requires forall f :: f in part <==> IsFindingOf(s, rs, id, f)
    ensures (forall f :: f in part ==> f.cls != Irreversible && f.status != Unassessable) <==>
            (forall r :: Contributes(s, rs, r, id) ==> ClassifyEvent(s, r).cls != Irreversible && r.schemaOK)
  {
    forall r | Contributes(s, rs, r, id)
      ensures ClassifyEvent(s, r) in part && (ClassifyEvent(s, r).status == Unassessable <==> !r.schemaOK)
    {
      assert IsFindingOf(s, rs, id, ClassifyEvent(s, r));
    }
  }

  lemma BoundContributors(s: Setting, rs: seq<Record>, id: string, part: seq<Finding>)
    requires AllAssessable(rs)
    requires forall f :: f in part <==> IsFindingOf(s, rs, id, f)
    ensures (exists f :: MostSevere(part, f) && f.status == PolicyBound) <==> PolicyBindsWorst(s, rs, id)
  {
    if f :| MostSevere(part, f) && f.status == PolicyBound {
      var r :| Contributes(s, rs, r, id) && ClassifyEvent(s, r) == f;
      PolicyBoundExactly(s, r);
      forall q | Contributes(s, rs, q, id)
        ensures Severity(ClassifyEvent(s, q).cls) <= Severity(f.cls)
      {
        assert IsFindingOf(s, rs, id, ClassifyEvent(s, q));
      }
      assert BoundByPolicy(s, r, f.cls);
    }
    if PolicyBindsWorst(s, rs, id) {
      var r, cls :| && Contributes(s, rs, r, id) && BoundByPolicy(s, r, cls)
                    && forall q :: Contributes(s, rs, q, id) ==> Severity(ClassifyEvent(s, q).cls) <= Severity(cls);
      PolicyBoundExactly(s, r);
      assert IsFindingOf(s, rs, id, ClassifyEvent(s, r));
      assert MostSevere(part, ClassifyEvent(s, r));
    }
  }

  /** Whatever the records, their findings fail closed. */
  lemma FindingsFailClosed(s: Setting, rs: seq<Record>)
    requires AllAssessable(rs)
    ensures FailClosed(Findings(s, rs))
  {
    forall f | f in Findings(s, rs) && f.status == Unassessable
      ensures f.cls == Irreversible
    {
      InFindings(s, rs, f);
    }
  }

  /** The reported class of an id is the greatest severity among the records that
      contribute to it: none is more severe, and one has it. */
  lemma ReportedClassIsMaximum(s: Setting, rs: seq<Record>, id: string)
    requires AllAssessable(rs) && id in Ids(Findings(s, rs))
    ensures forall r :: Contributes(s, rs, r, id) ==>
              Severity(ClassifyEvent(s, r).cls) <= Severity(Reported(Findings(s, rs), id).cls)
    ensures exists r :: Contributes(s, rs, r, id) && ClassifyEvent(s, r).cls == Reported(Findings(s, rs), id).cls
  {
    var fs := Findings(s, rs);
    FindingsFailClosed(s, rs);
    ReportedId(fs, id);
    var part := Of(fs, id);
    MergedClassIsMaximum(part);
    forall r | Contributes(s, rs, r, id)
      ensures ClassifyEvent(s, r) in part
    {
      InFindings(s, rs, ClassifyEvent(s, r));
    }
    var f :| f in part && f.cls == Finalize(Fold(part)).cls;
    InFindings(s, rs, f);
    var r :| r in rs && Kept(r) && ClassifyEvent(s, r) == f;
    assert Contributes(s, rs, r, id);
  }

  /** A covered run, exactly: a scope is declared, nothing is unrecoverable, and
      every verified canonical activity with an event class is in the scope or has
      an escaping id. */
  lemma CoveredExactly(s: Setting, rs: seq<Record>, corr: set<string>)
    requires AllAssessable(rs)
    ensures CoverageOf(Findings(s, rs), corr).status == Covered <==>
              && corr != {}
              && !HasUnrecoverable(Findings(s, rs))
              && forall r :: r in rs && Kept(r) ==> RecordCovered(s, rs, r, corr)
  {
    var fs := Findings(s, rs);
    forall r | r in rs && Kept(r)
      ensures ClassifyEvent(s, r) in fs
    {
      InFindings(s, rs, ClassifyEvent(s, r));
    }
    if forall r :: r in rs && Kept(r) ==> RecordCovered(s, rs, r, corr) {
      forall id | id in Ids(fs)
        ensures !IsGap(fs, corr, id)
      {
        NoGap(s, rs, corr, id);
      }
    }
    if Gaps(fs, corr) == {} {
      forall r | r in rs && Kept(r)
        ensures RecordCovered(s, rs, r, corr)
      {
        var f := ClassifyEvent(s, r);
        assert f.id in Ids(fs) && f.id !in Gaps(fs, corr);
        FoldMeans(Of(fs, f.id));
        assert f in Of(fs, f.id);
      }
    }
  }

  ghost predicate RecordCovered(s: Setting, rs: seq<Record>, r: Record, corr: set<string>)
    requires AllAssessable(rs) && r in rs && Kept(r)
  {
    var f := ClassifyEvent(s, r);
    f.eventClass == "" || f.eventClass in corr || (f.id in Ids(Findings(s, rs)) && Escapes(Reported(Findings(s, rs), f.id)))
  }

  lemma NoGap(s: Setting, rs: seq<Record>, corr: set<string>, id: string)
    requires AllAssessable(rs) && id in Ids(Findings(s, rs))
    requires forall r :: r in rs && Kept(r) ==> RecordCovered(s, rs, r, corr)
    ensures !IsGap(Findings(s, rs), corr, id)
  {
    var fs := Findings(s, rs);
    FoldMeans(Of(fs, id));
    forall c | c in EventClasses(Of(fs, id)) && !Escapes(Reported(fs, id))
      ensures c in corr
    {
      var f :| f in Of(fs, id) && f.eventClass == c;
      InFindings(s, rs, f);
      var r :| r in rs && Kept(r) && ClassifyEvent(s, r) == f;
      assert RecordCovered(s, rs, r, corr);
    }
  }

  lemma DeclarationKeepsPolicy(s: Setting, r: Record, cls: Class, declaration: Bytes -> string)
    requires Assessable(r)
    ensures BoundByPolicy(s.(declaration := declaration), r, cls) <==> BoundByPolicy(s, r, cls)
    ensures ClassifyEvent(s.(declaration := declaration), r).id == ClassifyEvent(s, r).id
  {
  }

  /** Declarations cannot open the gate: when no contributor of an id is bound by a
      policy, the id does not escape whatever the payloads declare. */
  lemma DeclarationsNeverOpenTheGate(s: Setting, rs: seq<Record>, id: string, declaration: Bytes -> string)
    requires AllAssessable(rs)
    requires forall r, cls :: Contributes(s, rs, r, id) ==> !BoundByPolicy(s, r, cls)
    ensures var s' := s.(declaration := declaration);
            id in Ids(Findings(s', rs)) ==> !Escapes(Reported(Findings(s', rs), id))
  {
    var s' := s.(declaration := declaration);
    if id in Ids(Findings(s', rs)) {
      CoverageGateExact(s', rs, id);
      forall r, cls | Contributes(s', rs, r, id)
        ensures !BoundByPolicy(s', r, cls)
      {
        DeclarationKeepsPolicy(s, r, cls, declaration);
        assert Contributes(s, rs, r, id);
      }
    }
  }
}
