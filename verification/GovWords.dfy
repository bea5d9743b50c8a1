/** The governability report in the words of policies, payloads and reports. */
module GovWords {
  import opened Basics
  import opened Records
  import opened Gov

  // ----- Words and severities -----

  /** The word a report prints for a class. */
  function Word(c: Class): string {
    match c
    case ReadOnly => "read-only"
    case Reversible => "reversible"
    case ExternalReversible => "external-reversible"
    case Irreversible => "irreversible"
  }

  const WORDS: seq<string> := ["read-only", "reversible", "external-reversible", "irreversible"]

  /** A word of the vocabulary keeps its own word; any other prints as irreversible. */
  lemma WordsKept(word: string)
    ensures Word(NormalizeClass(word)) == if word in WORDS then word else "irreversible"
    ensures Vocabulary(word).Some? <==> word in WORDS
    ensures Vocabulary(word).Some? ==> Word(Vocabulary(word).value) == word
  {
    assert WORDS[0] == "read-only" && WORDS[1] == "reversible" && WORDS[2] == "external-reversible" && WORDS[3] == "irreversible";
  }

  /** Severity follows the order of the words. */
  lemma SeverityFollowsWords(i: nat, j: nat)
    requires i < j < 4
    ensures Severity(NormalizeClass(WORDS[i])) < Severity(NormalizeClass(WORDS[j]))
  {
    assert WORDS[0] == "read-only" && WORDS[1] == "reversible" && WORDS[2] == "external-reversible" && WORDS[3] == "irreversible";
    assert |WORDS[0]| == 9 && |WORDS[1]| == 10 && |WORDS[2]| == 19 && |WORDS[3]| == 12;
    assert (i == 0 || i == 1 || i == 2) && (j == 1 || j == 2 || j == 3);
  }

  // ----- One record -----

  /** The decision names a policy that is present, and whose bytes hash to its name. */
  ghost predicate PolicyHolds(s: Setting, r: Record) {
    && r.payload.decision.Some?
    && var name := r.payload.decision.value.policy;
       name != "" && name in s.policies && Hex(s.sha(s.policies[name])) == name
       && s.reversibility(s.policies[name]).Some?
  }

  ghost predicate PolicyNamed(r: Record) {
    r.payload.decision.Some? && r.payload.decision.value.policy != ""
  }

  /** The committed policy gives the record's event class this word. */
  ghost predicate PolicySays(s: Setting, r: Record, word: string) {
    && PolicyHolds(s, r) && r.payload.event.Some?
    && var classes := s.reversibility(s.policies[r.payload.decision.value.policy]).value;
       r.payload.event.value.cls in classes && classes[r.payload.event.value.cls] == word
  }

  ghost predicate PolicyIsSilent(s: Setting, r: Record) {
    && PolicyHolds(s, r) && r.payload.event.Some?
    && r.payload.event.value.cls !in s.reversibility(s.policies[r.payload.decision.value.policy]).value
  }

  /** Where a finding comes from and what it prints, case by case. */
  lemma ClassifiedExactly(s: Setting, r: Record)
    requires Assessable(r)
    ensures var f := ClassifyEvent(s, r);
            && (f.status == Unassessable <==> !r.schemaOK)
            && (r.payload.event.Some? ==> f.id == r.payload.event.value.id && f.eventClass == r.payload.event.value.cls)
            && (r.payload.event.None? ==> f.id == "" && f.eventClass == "")
            && (f.status == PolicyBound <==> r.schemaOK && exists word :: word in WORDS && PolicySays(s, r, word))
            && (f.status == PolicySilent <==> r.schemaOK && PolicyIsSilent(s, r))
            && (f.status == PolicyInvalid <==>
                  r.schemaOK && PolicyNamed(r) && (!PolicyHolds(s, r) || exists word :: word !in WORDS && PolicySays(s, r, word)))
            && (f.status == Declared <==> r.schemaOK && !PolicyNamed(r) && s.declaration(r.raw) != "")
            && (f.status == Unclassified <==> r.schemaOK && !PolicyNamed(r) && s.declaration(r.raw) == "")
  {
    if PolicyHolds(s, r) && r.payload.event.Some? && !PolicyIsSilent(s, r) {
      var classes := s.reversibility(s.policies[r.payload.decision.value.policy]).value;
      var word := classes[r.payload.event.value.cls];
      WordsKept(word);
      assert PolicySays(s, r, word);
    }
  }

  /** A policy-bound finding prints the policy's own word, a declared one the
      payload's if it is in the vocabulary, and all others print irreversible. */
  lemma FindingPrints(s: Setting, r: Record)
    requires Assessable(r)
    ensures var f := ClassifyEvent(s, r);
            && (f.status == PolicyBound ==> PolicySays(s, r, Word(f.cls)))
            && (f.status == Declared ==>
                  Word(f.cls) == if s.declaration(r.raw) in WORDS then s.declaration(r.raw) else "irreversible")
            && (f.status != PolicyBound && f.status != Declared ==> Word(f.cls) == "irreversible")
  {
    WordsKept(s.declaration(r.raw));
    var f := ClassifyEvent(s, r);
    if f.status == PolicyBound {
      var classes := s.reversibility(s.policies[r.payload.decision.value.policy]).value;
      WordsKept(classes[r.payload.event.value.cls]);
    }
  }

  // ----- One event id -----

  /** A verified canonical activity with this event id; a payload without an event
      counts under the empty id. */
  ghost predicate RecordOf(rs: seq<Record>, r: Record, id: string) {
    && r in rs && r.payload.typ == Activity && r.signatureOK && r.canonicalOK
    && id == if r.payload.event.Some? then r.payload.event.value.id else ""
  }

  lemma ContributesExactly(s: Setting, rs: seq<Record>, r: Record, id: string)
    requires AllAssessable(rs)
    ensures Contributes(s, rs, r, id) <==> RecordOf(rs, r, id)
  {
    if RecordOf(rs, r, id) {
      ClassifiedExactly(s, r);
    }
  }

  /** The policy's word is the gravest one or none of the vocabulary. */
  ghost predicate PolicyForbids(s: Setting, r: Record) {
    exists word :: PolicySays(s, r, word) && (word == "irreversible" || word !in WORDS)
  }

  /** An id with a record whose policy calls it irreversible, or anything outside
      the vocabulary, never escapes: unless its event class is in scope, the run is
      not covered. */
  lemma ForbiddenNeverEscapes(s: Setting, rs: seq<Record>, r: Record, id: string)
    requires AllAssessable(rs) && RecordOf(rs, r, id) && PolicyForbids(s, r)
    ensures id in Ids(Findings(s, rs)) && !Escapes(Reported(Findings(s, rs), id))
    ensures forall corr: set<string> :: r.payload.event.value.cls != "" && r.payload.event.value.cls !in corr ==>
              CoverageOf(Findings(s, rs), corr).status != Covered
  {
    ContributesExactly(s, rs, r, id);
    InFindings(s, rs, ClassifyEvent(s, r));
    CoverageGateExact(s, rs, id);
    ForbiddenIsIrreversible(s, r);
    forall corr: set<string> | r.payload.event.value.cls != "" && r.payload.event.value.cls !in corr
      ensures CoverageOf(Findings(s, rs), corr).status != Covered
    {
      CoveredExactly(s, rs, corr);
      ClassifiedExactly(s, r);
      assert !RecordCovered(s, rs, r, corr);
    }
  }

  lemma ForbiddenIsIrreversible(s: Setting, r: Record)
    requires Assessable(r) && PolicyForbids(s, r)
    ensures ClassifyEvent(s, r).cls == Irreversible
  {
    var word :| PolicySays(s, r, word) && (word == "irreversible" || word !in WORDS);
    WordsKept(word);
  }

  /** The reported class prints the gravest word any record of the id prints. */
  lemma ReportPrintsGravest(s: Setting, rs: seq<Record>, id: string)
    requires AllAssessable(rs) && id in Ids(Findings(s, rs))
    ensures exists r :: RecordOf(rs, r, id) && Word(ClassifyEvent(s, r).cls) == Word(Reported(Findings(s, rs), id).cls)
    ensures forall r, i, j ::
              (&& RecordOf(rs, r, id) && 0 <= i < 4 && 0 <= j < 4
               && WORDS[i] == Word(ClassifyEvent(s, r).cls) && WORDS[j] == Word(Reported(Findings(s, rs), id).cls))
              ==> i <= j
  {
    ReportedClassIsMaximum(s, rs, id);
    var r :| Contributes(s, rs, r, id) && ClassifyEvent(s, r).cls == Reported(Findings(s, rs), id).cls;
    ContributesExactly(s, rs, r, id);
    forall r, i, j | RecordOf(rs, r, id) && 0 <= i < 4 && 0 <= j < 4
        && WORDS[i] == Word(ClassifyEvent(s, r).cls) && WORDS[j] == Word(Reported(Findings(s, rs), id).cls)
      ensures i <= j
    {
      ContributesExactly(s, rs, r, id);
      if j < i {
        GraverWord(j, i, ClassifyEvent(s, r).cls, Reported(Findings(s, rs), id).cls);
      }
    }
  }

  lemma GraverWord(j: nat, i: nat, c: Class, d: Class)
    requires j < i < 4 && WORDS[i] == Word(c) && WORDS[j] == Word(d)
    ensures Severity(d) < Severity(c)
  {
    SeverityFollowsWords(j, i);
    ClassOfWord(c);
    ClassOfWord(d);
  }

  lemma ClassOfWord(c: Class)
    ensures NormalizeClass(Word(c)) == c
  {
  }

  // ----- The run -----

  ghost predicate Decidable(s: Setting, rs: seq<Record>)
    requires AllAssessable(rs)
  {
    !HasUnrecoverable(Findings(s, rs))
  }

  /** Two records of the id name different event classes. */
  ghost predicate ClassesConflict(rs: seq<Record>, id: string) {
    exists r, q :: RecordOf(rs, r, id) && RecordOf(rs, q, id) && ClassNamed(r) != "" && ClassNamed(q) != "" && ClassNamed(r) != ClassNamed(q)
  }

  function ClassNamed(r: Record): string {
    if r.payload.event.Some? then r.payload.event.value.cls else ""
  }

  /** A record of the id names an event class outside the scope. */
  ghost predicate OutOfScope(rs: seq<Record>, corr: set<string>, id: string) {
    exists r :: RecordOf(rs, r, id) && ClassNamed(r) != "" && ClassNamed(r) !in corr
  }

  ghost predicate NamedBy(rs: seq<Record>, id: string, c: string) {
    c != "" && exists r :: RecordOf(rs, r, id) && ClassNamed(r) == c
  }

  lemma ScopeOfClasses(rs: seq<Record>, id: string, classes: set<string>, corr: set<string>)
    requires forall c :: c in classes <==> NamedBy(rs, id, c)
    ensures !(classes <= corr) <==> OutOfScope(rs, corr, id)
  {
    if !(classes <= corr) {
      var c :| c in classes && c !in corr;
      assert NamedBy(rs, id, c);
    }
    if OutOfScope(rs, corr, id) {
      var r :| RecordOf(rs, r, id) && ClassNamed(r) != "" && ClassNamed(r) !in corr;
      assert NamedBy(rs, id, ClassNamed(r));
    }
  }

  ghost predicate Differ(classes: set<string>) {
    exists c, d :: c in classes && d in classes && c != d
  }

  lemma ConflictOfClasses(rs: seq<Record>, id: string, classes: set<string>)
    requires forall c :: c in classes <==> NamedBy(rs, id, c)
    ensures Differ(classes) <==> ClassesConflict(rs, id)
  {
    if c, d :| c in classes && d in classes && c != d {
      assert NamedBy(rs, id, c) && NamedBy(rs, id, d);
    }
    if ClassesConflict(rs, id) {
      var r, q :| RecordOf(rs, r, id) && RecordOf(rs, q, id) && ClassNamed(r) != "" && ClassNamed(q) != "" && ClassNamed(r) != ClassNamed(q);
      assert NamedBy(rs, id, ClassNamed(r)) && NamedBy(rs, id, ClassNamed(q));
    }
  }

  lemma ClassesOfId(s: Setting, rs: seq<Record>, id: string, c: string)
    requires AllAssessable(rs)
    ensures c in Fold(Of(Findings(s, rs), id)).eventClasses <==> NamedBy(rs, id, c)
  {
    var fs := Findings(s, rs);
    FoldMeans(Of(fs, id));
    if c in EventClasses(Of(fs, id)) {
      var f :| f in Of(fs, id) && f.eventClass == c;
      InFindings(s, rs, f);
      var r :| r in rs && Kept(r) && ClassifyEvent(s, r) == f;
      ContributesExactly(s, rs, r, id);
      ClassifiedExactly(s, r);
      assert RecordOf(rs, r, id) && ClassNamed(r) == c;
    }
    if NamedBy(rs, id, c) {
      var r :| RecordOf(rs, r, id) && ClassNamed(r) == c;
      ContributesExactly(s, rs, r, id);
      ClassifiedExactly(s, r);
      InFindings(s, rs, ClassifyEvent(s, r));
      assert ClassifyEvent(s, r) in Of(fs, id);
    }
  }

  lemma IdsOfRecords(s: Setting, rs: seq<Record>, id: string)
    requires AllAssessable(rs)
    ensures id in Ids(Findings(s, rs)) <==> exists r :: RecordOf(rs, r, id)
  {
    if id in Ids(Findings(s, rs)) {
      var f :| f in Findings(s, rs) && f.id == id;
      InFindings(s, rs, f);
      var r :| r in rs && Kept(r) && ClassifyEvent(s, r) == f;
      ContributesExactly(s, rs, r, id);
    }
    if r :| RecordOf(rs, r, id) {
      ContributesExactly(s, rs, r, id);
      InFindings(s, rs, ClassifyEvent(s, r));
    }
  }

  lemma ClassesAreNamed(s: Setting, rs: seq<Record>, id: string)
    requires AllAssessable(rs)
    ensures forall c :: c in Fold(Of(Findings(s, rs), id)).eventClasses <==> NamedBy(rs, id, c)
  {
    forall c
      ensures c in Fold(Of(Findings(s, rs), id)).eventClasses <==> NamedBy(rs, id, c)
    {
      ClassesOfId(s, rs, id, c);
    }
  }

  lemma GapExactly(s: Setting, rs: seq<Record>, corr: set<string>, id: string)
    requires AllAssessable(rs)
    ensures id in Gaps(Findings(s, rs), corr) <==>
              OutOfScope(rs, corr, id) && id in Ids(Findings(s, rs)) && !Escapes(Reported(Findings(s, rs), id))
  {
    ClassesAreNamed(s, rs, id);
    ScopeOfClasses(rs, id, Fold(Of(Findings(s, rs), id)).eventClasses, corr);
  }

  lemma AnomalyExactly(s: Setting, rs: seq<Record>, id: string)
    requires AllAssessable(rs)
    ensures id in Anomalies(Findings(s, rs)) <==> ClassesConflict(rs, id)
  {
    ClassesAreNamed(s, rs, id);
    IdsOfRecords(s, rs, id);
    ConflictOfClasses(rs, id, Fold(Of(Findings(s, rs), id)).eventClasses);
    ConflictIs(Findings(s, rs), id);
  }

  lemma ConflictIs(fs: seq<Finding>, id: string)
    ensures IsConflict(fs, id) <==> Differ(Fold(Of(fs, id)).eventClasses)
  {
    FoldMeans(Of(fs, id));
    assert Disagree(Of(fs, id)) <==> Differ(EventClasses(Of(fs, id)));
  }

  /** The coverage report, exactly: what its status means, and which ids it lists as
      gaps and as anomalies. */
  lemma ReportExactly(s: Setting, rs: seq<Record>, corr: set<string>)
    requires AllAssessable(rs)
    ensures var cov := CoverageOf(Findings(s, rs), corr);
            && (cov.status == Undecidable <==> !Decidable(s, rs))
            && (cov.status == NotApplicable <==> Decidable(s, rs) && corr == {})
            && (cov.status == Gap <==> cov.gaps != {})
            && (forall id :: id in cov.anomalies <==> ClassesConflict(rs, id))
            && forall id :: id in cov.gaps <==>
                 Decidable(s, rs) && corr != {} && OutOfScope(rs, corr, id)
                 && id in Ids(Findings(s, rs)) && !Escapes(Reported(Findings(s, rs), id))
  {
    forall id
      ensures id in Gaps(Findings(s, rs), corr) <==>
                OutOfScope(rs, corr, id) && id in Ids(Findings(s, rs)) && !Escapes(Reported(Findings(s, rs), id))
      ensures id in Anomalies(Findings(s, rs)) <==> ClassesConflict(rs, id)
    {
      GapExactly(s, rs, corr, id);
      AnomalyExactly(s, rs, id);
    }
  }
}
