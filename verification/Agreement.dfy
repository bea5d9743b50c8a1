/** A verification record must agree with what was evaluated: the same runs, and
    for each run the grade, annotations and outcomes of the machine output. */
module Agreement {
  import opened Basics
  import opened StringSort

  // ----- Comparing run lists by sorting -----

  /** Sort copies and compare: the lists hold the same strings equally often. */
  method SameStringSet(left: seq<string>, right: seq<string>) returns (same: bool)
    ensures same <==> multiset(left) == multiset(right)
  {
    SortForgetsOrder(left, right);
    SortForgetsOrder(right, left);
    if |left| != |right| {
      return false;
    }
    same := SameList(SortStrings(left), SortStrings(right));
  }

  method SameList(a: seq<string>, b: seq<string>) returns (same: bool)
    requires |a| == |b|
    ensures same <==> a == b
  {
    for i := 0 to |a|
      invariant a[..i] == b[..i]
    {
      if a[i] != b[i] {
        return false;
      }
    }
    assert a == a[..|a|] && b == b[..|a|];
    return true;
  }

  // ----- Outcome maps -----

  type Outcomes = map<string, string>

  const STATUSES: set<string> := {"PASS", "FAIL", "UV"}

  /** What a missing outcome reads as. */
  function OutcomeAt(m: Outcomes, id: string): string {
    if id in m then m[id] else ""
  }

  ghost predicate SameOutcomes(grades: Outcomes, checks: Outcomes) {
    |grades| == |checks| && forall id :: id in checks ==> OutcomeAt(grades, id) == checks[id]
  }

  method SamePackageOutcomes(grades: Outcomes, checks: Outcomes) returns (same: bool)
    ensures same <==> SameOutcomes(grades, checks)
  {
    if |grades| != |checks| {
      return false;
    }
    var rest := checks.Keys;
    while rest != {}
      invariant rest <= checks.Keys
      invariant forall id :: id in checks && id !in rest ==> OutcomeAt(grades, id) == checks[id]
      decreases |rest|
    {
      var id :| id in rest;
      if OutcomeAt(grades, id) != checks[id] {
        return false;
      }
      rest := rest - {id};
    }
    return true;
  }

  lemma SubsetOfSameSize(a: set<string>, b: set<string>)
    requires a <= b && |a| == |b|
    ensures a == b
  {
    if x :| x in b && x !in a {
      assert a <= b - {x};
      SubsetSize(a, b - {x});
    }
  }

  lemma {:induction false} SubsetSize(a: set<string>, b: set<string>)
    requires a <= b
    ensures |a| <= |b|
  {
    if a != {} {
      var x :| x in a;
      SubsetSize(a - {x}, b - {x});
    }
  }

  /** For grades whose outcomes are all set, the comparison accepts an outcome map
      equal to the machine's, and accepts a different one exactly when some machine
      status is the empty string, which a missing grade outcome also reads as. */
  lemma SameOutcomesExact(grades: Outcomes, checks: Outcomes)
    requires forall id :: id in grades ==> grades[id] != ""
    ensures grades == checks ==> SameOutcomes(grades, checks)
    ensures SameOutcomes(grades, checks) ==> (grades == checks <==> forall id :: id in checks ==> checks[id] != "")
  {
    if SameOutcomes(grades, checks) && forall id :: id in checks ==> checks[id] != "" {
      assert checks.Keys <= grades.Keys;
      assert |checks.Keys| == |checks| && |grades.Keys| == |grades|;
      SubsetOfSameSize(checks.Keys, grades.Keys);
    }
  }

  // ----- Grades -----

  datatype Annotations = Annotations(coverage: string, custody: string, anchor: string, retention: string)

  datatype Grade = Grade(run: string, line: string, annotations: Annotations, outcomes: Outcomes)

  /** Text is present when it is not all white space. */
  type Presence = string -> bool

  predicate OutcomesShaped(present: Presence, outcomes: Outcomes) {
    outcomes != map[] && forall id :: id in outcomes ==> present(id) && outcomes[id] in STATUSES
  }

  predicate GradeShaped(present: Presence, g: Grade) {
    && present(g.run) && present(g.line)
    && present(g.annotations.coverage) && present(g.annotations.custody)
    && present(g.annotations.anchor) && present(g.annotations.retention)
    && OutcomesShaped(present, g.outcomes)
  }

  ghost predicate DistinctRuns(grades: seq<Grade>) {
    forall i, j :: 0 <= i < j < |grades| ==> grades[i].run != grades[j].run
  }

  ghost predicate GradesOK(present: Presence, grades: seq<Grade>) {
    DistinctRuns(grades) && forall i :: 0 <= i < |grades| ==> GradeShaped(present, grades[i])
  }

  method ValidateOutcomes(present: Presence, outcomes: Outcomes) returns (ok: bool)
    ensures ok <==> OutcomesShaped(present, outcomes)
  {
    if |outcomes| == 0 {
      return false;
    }
    var rest := outcomes.Keys;
    while rest != {}
      invariant rest <= outcomes.Keys
      invariant forall id :: id in outcomes && id !in rest ==> present(id) && outcomes[id] in STATUSES
      decreases |rest|
    {
      var id :| id in rest;
      if !present(id) || (outcomes[id] != "PASS" && outcomes[id] != "FAIL" && outcomes[id] != "UV") {
        return false;
      }
      rest := rest - {id};
    }
    return true;
  }

  method ValidateGrades(present: Presence, grades: seq<Grade>) returns (ok: bool)
    ensures ok <==> GradesOK(present, grades)
  {
    var seen: set<string> := {};
    for i := 0 to |grades|
      invariant forall run :: run in seen <==> exists k :: 0 <= k < i && grades[k].run == run
      invariant forall k :: 0 <= k < i ==> GradeShaped(present, grades[k])
      invariant forall j, k :: 0 <= j < k < i ==> grades[j].run != grades[k].run
    {
      var g := grades[i];
      if !present(g.run) || !present(g.line) || g.run in seen {
        return false;
      }
      seen := seen + {g.run};
      if !(present(g.annotations.coverage) && present(g.annotations.custody)
           && present(g.annotations.anchor) && present(g.annotations.retention)) {
        return false;
      }
      var shaped := ValidateOutcomes(present, g.outcomes);
      if !shaped {
        return false;
      }
    }
    return true;
  }

  // ----- The run sets -----

  function GradeRuns(grades: seq<Grade>): (runs: seq<string>)
    ensures |runs| == |grades| && forall i :: 0 <= i < |grades| ==> runs[i] == grades[i].run
  {
    seq(|grades|, i requires 0 <= i < |grades| => grades[i].run)
  }

  /** The runs evaluated from the bound artifact against those the record declares
      and those it grades. */
  method CheckRuns(evaluated: seq<string>, declared: seq<string>, run: string, grades: seq<Grade>) returns (ok: bool)
    ensures ok <==> && multiset(evaluated) == multiset(declared)
                    && run in evaluated
                    && multiset(evaluated) == multiset(GradeRuns(grades))
  {
    ok := SameStringSet(evaluated, declared);
    if !ok || run !in evaluated {
      return false;
    }
    ok := SameStringSet(evaluated, GradeRuns(grades));
  }

  // ----- Against the machine output -----

  /** The grade member of a machine run, decoded. */
  datatype MachineGrade = Number(n: int) | Text(s: string) | OtherGrade

  datatype MachineRun = MachineRun(run: string, grade: MachineGrade, annotations: Annotations, checks: Outcomes, line: string)

  predicate UsableGrade(g: MachineGrade) {
    match g
    case Number(n) => 0 <= n <= 4
    case Text(s) => s == "ungraded"
    case OtherGrade => false
  }

  ghost predicate Agrees(g: Grade, r: MachineRun) {
    g.run == r.run && g.line == r.line && g.annotations == r.annotations && SameOutcomes(g.outcomes, r.checks)
  }

  ghost predicate MachineRunsOK(present: Presence, machine: seq<MachineRun>) {
    && (forall i :: 0 <= i < |machine| ==> UsableGrade(machine[i].grade) && present(machine[i].run))
    && forall i, j :: 0 <= i < j < |machine| ==> machine[i].run != machine[j].run
  }

  ghost predicate MatchesMachine(present: Presence, machine: seq<MachineRun>, grades: seq<Grade>) {
    && |machine| == |grades|
    && MachineRunsOK(present, machine)
    && forall i :: 0 <= i < |grades| ==> HasMatch(machine, grades[i])
  }

  ghost predicate HasMatch(machine: seq<MachineRun>, g: Grade) {
    exists r :: r in machine && Agrees(g, r)
  }

  method CollectMachineRuns(present: Presence, machine: seq<MachineRun>) returns (results: Option<map<string, MachineRun>>)
    ensures results.Some? <==> MachineRunsOK(present, machine)
    ensures results.Some? ==> Tabulates(results.value, machine)
  {
    var table: map<string, MachineRun> := map[];
    for i := 0 to |machine|
      invariant MachineRunsOK(present, machine[..i]) && Tabulates(table, machine[..i])
    {
      var r := machine[i];
      if !UsableGrade(r.grade) {
        return None;
      }
      if r.run in table {
        var k :| 0 <= k < i && machine[k] == table[r.run];
        return None;
      }
      if !present(r.run) {
        return None;
      }
      assert machine[..i + 1] == machine[..i] + [r];
      TabulatesMore(present, table, machine[..i], r);
      table := table[r.run := r];
    }
    assert machine[..|machine|] == machine;
    results := Some(table);
  }

  /** The table holds exactly these runs, by name. */
  ghost predicate Tabulates(table: map<string, MachineRun>, machine: seq<MachineRun>) {
    && (forall run :: run in table ==> table[run] in machine && table[run].run == run)
    && forall r :: r in machine ==> r.run in table && table[r.run] == r
  }

  lemma TabulatesMore(present: Presence, table: map<string, MachineRun>, machine: seq<MachineRun>, r: MachineRun)
    requires MachineRunsOK(present, machine) && Tabulates(table, machine)
    requires r.run !in table && UsableGrade(r.grade) && present(r.run)
    ensures MachineRunsOK(present, machine + [r]) && Tabulates(table[r.run := r], machine + [r])
  {
    assert forall i :: 0 <= i < |machine| ==> machine[i] in machine;
  }

  method CompareWithMachine(present: Presence, machine: seq<MachineRun>, grades: seq<Grade>) returns (ok: bool)
    ensures ok <==> MatchesMachine(present, machine, grades)
  {
    if |machine| != |grades| {
      return false;
    }
    var results := CollectMachineRuns(present, machine);
    if results.None? {
      return false;
    }
    ok := AllAgree(results.value, machine, grades);
  }

  method AllAgree(table: map<string, MachineRun>, ghost machine: seq<MachineRun>, grades: seq<Grade>) returns (ok: bool)
    requires Tabulates(table, machine)
    ensures ok <==> forall i :: 0 <= i < |grades| ==> HasMatch(machine, grades[i])
  {
    for i := 0 to |grades|
      invariant forall k :: 0 <= k < i ==> HasMatch(machine, grades[k])
    {
      var agrees := GradeAgrees(table, machine, grades[i]);
      if !agrees {
        return false;
      }
    }
    return true;
  }

  /** One grade against the table of machine runs. */
  method GradeAgrees(table: map<string, MachineRun>, ghost machine: seq<MachineRun>, g: Grade) returns (ok: bool)
    requires Tabulates(table, machine)
    ensures ok <==> HasMatch(machine, g)
  {
    if g.run !in table {
      return false;
    }
    var r := table[g.run];
    var same := SamePackageOutcomes(g.outcomes, r.checks);
    ok := g.line == r.line && g.annotations == r.annotations && same;
    assert ok <==> Agrees(g, r);
  }

  /** The record checks in order; the machine output is compared when the recorded
      evaluation completed, with every run closed (0) or some run open (4). */
  method AcceptRecord(present: Presence, evaluated: seq<string>, declared: seq<string>, run: string,
                      grades: seq<Grade>, exitStatus: int, machine: seq<MachineRun>) returns (ok: bool)
    ensures ok <==> RecordAccepted(present, evaluated, declared, run, grades, exitStatus, machine)
  {
    ok := ValidateGrades(present, grades);
    if !ok {
      return;
    }
    ok := CheckRuns(evaluated, declared, run, grades);
    if !ok {
      return;
    }
    if exitStatus == 0 || exitStatus == 4 {
      ok := CompareWithMachine(present, machine, grades);
    }
  }

  ghost predicate RecordAccepted(present: Presence, evaluated: seq<string>, declared: seq<string>, run: string,
                                 grades: seq<Grade>, exitStatus: int, machine: seq<MachineRun>) {
    && GradesOK(present, grades)
    && multiset(evaluated) == multiset(declared)
    && run in evaluated
    && multiset(evaluated) == multiset(GradeRuns(grades))
    && (exitStatus == 0 || exitStatus == 4 ==> MatchesMachine(present, machine, grades))
  }

  /** The unset status does slip through, whatever the run, the grade line, the
      annotations and the check ids: a record that is accepted although its one
      grade and the one machine run have different outcome maps. */
  lemma UnsetStatusSlipsThrough(present: Presence, run: string, line: string, notes: Annotations, graded: string, unset: string)
    requires present(run) && present(line) && present(graded) && graded != unset
    requires present(notes.coverage) && present(notes.custody) && present(notes.anchor) && present(notes.retention)
    ensures var grade := Grade(run, line, notes, map[graded := "PASS"]);
            var machine := MachineRun(run, Number(0), notes, map[unset := ""], line);
            && RecordAccepted(present, [run], [run], run, [grade], 0, [machine])
            && grade.outcomes != machine.checks
  {
    var grades: Outcomes, checks: Outcomes := map[graded := "PASS"], map[unset := ""];
    assert graded in grades && graded !in checks && |grades| == |checks| == 1;
    var grade, machine := Grade(run, line, notes, grades), MachineRun(run, Number(0), notes, checks, line);
    assert SameOutcomes(grades, checks);
    assert Agrees(grade, machine) && machine in [machine];
    assert HasMatch([machine], grade);
    assert "PASS" in STATUSES;
    assert GradeRuns([grade]) == [run];
  }

  // ----- What acceptance means -----

  function MachineRuns(machine: seq<MachineRun>): (runs: seq<string>)
    ensures |runs| == |machine| && forall i :: 0 <= i < |machine| ==> runs[i] == machine[i].run
  {
    seq(|machine|, i requires 0 <= i < |machine| => machine[i].run)
  }

  /** Evaluated runs, declared runs and graded runs of an accepted record are one
      duplicate-free set that holds the packaged run. */
  lemma AcceptedRunsAgree(present: Presence, evaluated: seq<string>, declared: seq<string>, run: string,
                          grades: seq<Grade>, exitStatus: int, machine: seq<MachineRun>)
    requires RecordAccepted(present, evaluated, declared, run, grades, exitStatus, machine)
    ensures Distinct(evaluated) && Distinct(declared) && Distinct(GradeRuns(grades))
    ensures Elements(evaluated) == Elements(declared) == Elements(GradeRuns(grades))
    ensures run in Elements(evaluated)
  {
    assert Distinct(GradeRuns(grades));
    SameCounts(GradeRuns(grades), evaluated);
    SameCounts(evaluated, declared);
  }

  /** Grades and machine results correspond one to one: every machine run has one
      grade, which agrees with it, and the run sets are equal. */
  lemma GradesMatchMachineRuns(present: Presence, machine: seq<MachineRun>, grades: seq<Grade>)
    requires GradesOK(present, grades) && MatchesMachine(present, machine, grades)
    ensures Distinct(MachineRuns(machine)) && Elements(MachineRuns(machine)) == Elements(GradeRuns(grades))
    ensures forall j :: 0 <= j < |machine| ==> exists i :: 0 <= i < |grades| && Agrees(grades[i], machine[j])
    ensures forall i, j :: 0 <= i < |grades| && 0 <= j < |machine| && grades[i].run == machine[j].run ==> Agrees(grades[i], machine[j])
  {
    var gr, mr := GradeRuns(grades), MachineRuns(machine);
    forall x | x in Elements(gr)
      ensures x in Elements(mr)
    {
      var i :| 0 <= i < |gr| && gr[i] == x;
      MatchedBy(present, machine, grades, i);
    }
    assert Distinct(gr) && Distinct(mr);
    DistinctIffCounts(gr);
    DistinctIffCounts(mr);
    SubsetOfSameSize(Elements(gr), Elements(mr));
    forall i, j | 0 <= i < |grades| && 0 <= j < |machine| && grades[i].run == machine[j].run
      ensures Agrees(grades[i], machine[j])
    {
      MatchedBy(present, machine, grades, i);
    }
    forall j | 0 <= j < |machine|
      ensures exists i :: 0 <= i < |grades| && Agrees(grades[i], machine[j])
    {
      assert mr[j] in Elements(gr);
      var i :| 0 <= i < |gr| && gr[i] == mr[j];
      assert grades[i].run == machine[j].run;
    }
  }

  lemma MatchedBy(present: Presence, machine: seq<MachineRun>, grades: seq<Grade>, i: nat)
    requires MatchesMachine(present, machine, grades) && i < |grades|
    ensures grades[i].run in MachineRuns(machine)
    ensures forall j :: 0 <= j < |machine| && grades[i].run == machine[j].run ==> Agrees(grades[i], machine[j])
  {
    assert HasMatch(machine, grades[i]);
    var r :| r in machine && Agrees(grades[i], r);
    var k :| 0 <= k < |machine| && machine[k] == r;
    assert MachineRuns(machine)[k] == r.run;
    forall j | 0 <= j < |machine| && grades[i].run == machine[j].run
      ensures machine[j] == r
    {
      assert j == k;
    }
  }

  /** When every machine status is one of the three defined ones, matching grades
      carry exactly the machine's outcome maps. */
  lemma GradesCarryMachineOutcomes(present: Presence, machine: seq<MachineRun>, grades: seq<Grade>, i: nat, j: nat)
    requires GradesOK(present, grades) && MatchesMachine(present, machine, grades)
    requires i < |grades| && j < |machine| && grades[i].run == machine[j].run
    requires forall id :: id in machine[j].checks ==> machine[j].checks[id] in STATUSES
    ensures grades[i].outcomes == machine[j].checks
  {
    MatchedBy(present, machine, grades, i);
    assert GradeShaped(present, grades[i]);
    assert "" !in STATUSES;
    SameOutcomesExact(grades[i].outcomes, machine[j].checks);
  }
}
