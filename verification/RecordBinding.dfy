/** A verification record against the artifact it is bound to. */
module RecordBinding {
  import opened Basics
  import opened StringSort
  import opened Records
  import opened Evidence
  import opened Grading
  import opened Agreement

  /** The runs an artifact mentions, in the manifest or on a log. */
  function MentionedRuns(art: Artifact): (runs: set<string>)
    ensures forall run :: run in runs <==> Mentioned(art, run)
  {
    (set run | run in art.manifest.runs && run != "") + (set l | l in art.logs && l.run != "" :: l.run)
  }

  /** Evaluate the artifact, keep the named runs and sort them. */
  method DiscoveredRuns(w: World, art: Artifact) returns (runs: seq<string>)
    ensures runs == SortedIds(MentionedRuns(art))
  {
    var all := ArtifactRuns(art);
    var reports := EvaluateRuns(w, art, all);
    var named := NamedRuns(reports, all);
    NamedRunsAreMentioned(art, all);
    SortedListIsUnique(named, MentionedRuns(art));
    runs := SortStrings(named);
  }

  /** The non-empty run names of the reports, in order. */
  method NamedRuns(reports: seq<RunReport>, ghost all: seq<string>) returns (named: seq<string>)
    requires |reports| == |all| && Distinct(all) && forall k :: 0 <= k < |all| ==> reports[k].run == all[k]
    ensures Distinct(named) && Elements(named) == set run | run in all && run != ""
  {
    named := [];
    for i := 0 to |reports|
      invariant Distinct(named) && forall run :: run in named <==> run != "" && run in all[..i]
    {
      assert all[..i + 1] == all[..i] + [all[i]] && all[i] !in all[..i];
      if reports[i].run != "" {
        DistinctAppend(named, all[i]);
        named := named + [reports[i].run];
      }
    }
    assert all[..|all|] == all;
  }

  lemma NamedRunsAreMentioned(art: Artifact, all: seq<string>)
    requires (exists run :: Mentioned(art, run)) ==> forall run :: run in all <==> Mentioned(art, run)
    requires !(exists run :: Mentioned(art, run)) ==> all == [""]
    ensures (set run | run in all && run != "") == MentionedRuns(art)
  {
  }

  /** The record checks on the artifact's own runs. */
  method ValidateRecord(w: World, art: Artifact, present: Presence, declared: seq<string>, run: string,
                        grades: seq<Grade>, exitStatus: int, machine: seq<MachineRun>) returns (ok: bool)
    ensures ok <==> RecordAccepted(present, SortedIds(MentionedRuns(art)), declared, run, grades, exitStatus, machine)
  {
    var evaluated := DiscoveredRuns(w, art);
    ok := AcceptRecord(present, evaluated, declared, run, grades, exitStatus, machine);
  }

  /** The list names each of these runs once. */
  ghost predicate NamesEach(list: seq<string>, runs: set<string>) {
    Distinct(list) && Elements(list) == runs
  }

  /** The machine run has exactly one grade, which agrees with it; and where its
      statuses are defined ones, the grade carries its outcome map. */
  ghost predicate GradedOnce(grades: seq<Grade>, r: MachineRun) {
    && (exists g :: g in grades && Agrees(g, r))
    && (forall i, j :: 0 <= i < j < |grades| ==> !(Agrees(grades[i], r) && Agrees(grades[j], r)))
    && forall g :: g in grades && Agrees(g, r) && DefinedStatuses(r) ==> g.outcomes == r.checks
  }

  ghost predicate DefinedStatuses(r: MachineRun) {
    forall id :: id in r.checks ==> r.checks[id] in STATUSES
  }

  /** Record agreement: for a record accepted with a completed evaluation, the
      declared runs, the graded runs and the runs of the machine output each name
      every run the artifact mentions exactly once, and grades and machine runs
      correspond one to one. */
  lemma RecordAgreement(art: Artifact, present: Presence, declared: seq<string>, run: string,
                        grades: seq<Grade>, exitStatus: int, machine: seq<MachineRun>)
    requires RecordAccepted(present, SortedIds(MentionedRuns(art)), declared, run, grades, exitStatus, machine)
    requires exitStatus == 0 || exitStatus == 4
    ensures Mentioned(art, run)
    ensures NamesEach(declared, MentionedRuns(art))
    ensures NamesEach(GradeRuns(grades), MentionedRuns(art))
    ensures NamesEach(MachineRuns(machine), MentionedRuns(art))
    ensures |grades| == |machine| && forall r :: r in machine ==> GradedOnce(grades, r)
  {
    var runs := MentionedRuns(art);
    RunListsAgree(runs, present, declared, run, grades, exitStatus, machine);
    assert run in runs;
    forall r | r in machine
      ensures GradedOnce(grades, r)
    {
      MachineRunGradedOnce(present, machine, grades, r);
    }
  }

  lemma RunListsAgree(runs: set<string>, present: Presence, declared: seq<string>, run: string,
                      grades: seq<Grade>, exitStatus: int, machine: seq<MachineRun>)
    requires RecordAccepted(present, SortedIds(runs), declared, run, grades, exitStatus, machine)
    requires exitStatus == 0 || exitStatus == 4
    ensures run in runs && NamesEach(declared, runs) && NamesEach(GradeRuns(grades), runs) && NamesEach(MachineRuns(machine), runs)
  {
    AcceptedRunsAgree(present, SortedIds(runs), declared, run, grades, exitStatus, machine);
    GradesMatchMachineRuns(present, machine, grades);
  }

  lemma OneGradePerRun(grades: seq<Grade>, r: MachineRun)
    requires DistinctRuns(grades)
    ensures forall i, j :: 0 <= i < j < |grades| ==> !(Agrees(grades[i], r) && Agrees(grades[j], r))
  {
  }

  lemma MachineRunGradedOnce(present: Presence, machine: seq<MachineRun>, grades: seq<Grade>, r: MachineRun)
    requires GradesOK(present, grades) && MatchesMachine(present, machine, grades) && r in machine
    ensures GradedOnce(grades, r)
  {
    var j :| 0 <= j < |machine| && machine[j] == r;
    assert exists g :: g in grades && Agrees(g, r) by {
      GradesMatchMachineRuns(present, machine, grades);
      var i :| 0 <= i < |grades| && Agrees(grades[i], machine[j]);
      assert grades[i] in grades;
    }
    OneGradePerRun(grades, r);
    forall g | g in grades && Agrees(g, r) && DefinedStatuses(r)
      ensures g.outcomes == r.checks
    {
      GradeCarriesOutcomes(present, machine, grades, g, j);
    }
  }

  lemma GradeCarriesOutcomes(present: Presence, machine: seq<MachineRun>, grades: seq<Grade>, g: Grade, j: nat)
    requires GradesOK(present, grades) && MatchesMachine(present, machine, grades) && g in grades
    requires j < |machine| && g.run == machine[j].run && DefinedStatuses(machine[j])
    ensures g.outcomes == machine[j].checks
  {
    var k :| 0 <= k < |grades| && grades[k] == g;
    GradesCarryMachineOutcomes(present, machine, grades, k, j);
  }

  /** The grade is the machine run's: same run, line and annotations, and the same
      status for every check the machine lists, no more and no fewer. */
  ghost predicate SameGrade(g: Grade, r: MachineRun) {
    && g.run == r.run && g.line == r.line
    && g.annotations.coverage == r.annotations.coverage && g.annotations.custody == r.annotations.custody
    && g.annotations.anchor == r.annotations.anchor && g.annotations.retention == r.annotations.retention
    && |g.outcomes| == |r.checks|
    && forall id :: id in r.checks ==> r.checks[id] == if id in g.outcomes then g.outcomes[id] else ""
  }

  /** A grade whose texts are all there and whose outcomes are all defined. */
  ghost predicate CompleteGrade(present: Presence, g: Grade) {
    && present(g.run) && present(g.line)
    && present(g.annotations.coverage) && present(g.annotations.custody)
    && present(g.annotations.anchor) && present(g.annotations.retention)
    && |g.outcomes| > 0
    && forall id :: id in g.outcomes ==> present(id) && (g.outcomes[id] == "PASS" || g.outcomes[id] == "FAIL" || g.outcomes[id] == "UV")
  }

  /** A machine run with a name and a grade of zero to four or none. */
  ghost predicate CompleteRun(present: Presence, r: MachineRun) {
    present(r.run) && ((r.grade.Number? && 0 <= r.grade.n <= 4) || r.grade == MachineGrade.Text("ungraded"))
  }

  /** Acceptance of a completed evaluation, exactly: complete grades for exactly the
      mentioned runs, which are the declared ones and hold the packaged one, and a
      complete machine run of the same grade for each. */
  lemma AcceptedExactly(art: Artifact, present: Presence, declared: seq<string>, run: string,
                        grades: seq<Grade>, exitStatus: int, machine: seq<MachineRun>)
    requires exitStatus == 0 || exitStatus == 4
    ensures RecordAccepted(present, SortedIds(MentionedRuns(art)), declared, run, grades, exitStatus, machine) <==>
              && (forall g :: g in grades ==> CompleteGrade(present, g))
              && NamesEach(GradeRuns(grades), MentionedRuns(art)) && NamesEach(declared, MentionedRuns(art))
              && Mentioned(art, run)
              && |machine| == |grades| && Distinct(MachineRuns(machine))
              && (forall r :: r in machine ==> CompleteRun(present, r))
              && forall g :: g in grades ==> exists r :: r in machine && SameGrade(g, r)
  {
    GradesExactly(present, grades);
    MachineExactly(present, machine, grades);
    var runs := MentionedRuns(art);
    ListExactly(declared, runs);
    ListExactly(GradeRuns(grades), runs);
    assert run in SortedIds(runs) <==> run in Elements(SortedIds(runs));
  }

  /** A list is a rearrangement of the sorted runs iff it names each of them once. */
  lemma ListExactly(list: seq<string>, runs: set<string>)
    ensures multiset(SortedIds(runs)) == multiset(list) <==> NamesEach(list, runs)
  {
    if multiset(SortedIds(runs)) == multiset(list) {
      SameCounts(SortedIds(runs), list);
    }
    if NamesEach(list, runs) {
      SameElementsSameCounts(SortedIds(runs), list);
    }
  }

  lemma GradesExactly(present: Presence, grades: seq<Grade>)
    ensures GradesOK(present, grades) <==> (forall g :: g in grades ==> CompleteGrade(present, g)) && Distinct(GradeRuns(grades))
  {
    forall g | g in grades
      ensures GradeShaped(present, g) <==> CompleteGrade(present, g)
    {
    }
    assert DistinctRuns(grades) <==> Distinct(GradeRuns(grades));
    assert forall i :: 0 <= i < |grades| ==> grades[i] in grades;
  }

  lemma MachineExactly(present: Presence, machine: seq<MachineRun>, grades: seq<Grade>)
    ensures MatchesMachine(present, machine, grades) <==>
              && |machine| == |grades| && Distinct(MachineRuns(machine))
              && (forall r :: r in machine ==> CompleteRun(present, r))
              && forall g :: g in grades ==> exists r :: r in machine && SameGrade(g, r)
  {
    RunsExactly(present, machine);
    forall g
      ensures HasMatch(machine, g) <==> exists r :: r in machine && SameGrade(g, r)
    {
      MatchExactly(machine, g);
    }
    assert forall i :: 0 <= i < |grades| ==> grades[i] in grades;
  }

  lemma MatchExactly(machine: seq<MachineRun>, g: Grade)
    ensures HasMatch(machine, g) <==> exists r :: r in machine && SameGrade(g, r)
  {
    forall r
      ensures Agrees(g, r) <==> SameGrade(g, r)
    {
    }
    if r :| r in machine && SameGrade(g, r) {
      assert Agrees(g, r);
    }
    if r :| r in machine && Agrees(g, r) {
      assert SameGrade(g, r);
    }
  }

  lemma RunsExactly(present: Presence, machine: seq<MachineRun>)
    ensures MachineRunsOK(present, machine) <==> (forall r :: r in machine ==> CompleteRun(present, r)) && Distinct(MachineRuns(machine))
  {
    assert forall i :: 0 <= i < |machine| ==> machine[i] in machine;
    assert forall r :: UsableGrade(r) <==> (r.Number? && 0 <= r.n <= 4) || r == MachineGrade.Text("ungraded");
  }
}
