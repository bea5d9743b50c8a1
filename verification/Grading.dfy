/** From check outcomes to a grade, and from grades to the exit status. */
module Grading {
  import opened Basics
  import opened Records
  import opened Evidence
  import opened Checker
  import opened UpperChecks
  import Rungs

  type Checks = map<CheckId, Status>

  predicate AllPass(checks: Checks, ids: set<CheckId>) {
    forall id :: id in ids ==> id in checks && checks[id] == Pass
  }

  /** What rung `n` asks of the outcomes; an open run stops below rung one. */
  predicate RungEarned(checks: Checks, open: bool, n: nat) {
    AllPass(checks, RungChecks(n)) && (n == 1 ==> !open)
  }

  class Result {
    const checks: Checks
    const open: bool
    var grade: int
    var ungraded: bool
    var notes: seq<string>

    constructor (checks: Checks, open: bool)
      ensures this.checks == checks && this.open == open
      ensures grade == 0 && !ungraded && notes == []
    {
      this.checks, this.open := checks, open;
      grade, ungraded, notes := 0, false, [];
    }

    /** The grade is the greatest `n` such that every rung through `n` is earned;
        there is none when rung zero is not. */
    method ComputeGrade()
      requires grade == 0 && !ungraded
      modifies this`grade, this`ungraded, this`notes
      ensures ungraded <==> !RungEarned(checks, open, 0)
      ensures ungraded ==> grade == 0
      ensures !ungraded ==>
                && 0 <= grade <= 4
                && (forall n: nat :: n <= grade ==> RungEarned(checks, open, n))
                && (grade < 4 ==> !RungEarned(checks, open, grade + 1))
    {
      if A in checks && checks[A] == UV {
        ungraded, notes := true, notes + ["AEL-0 capped"];
        return;
      }
      if !AllPass(checks, {A, B, D, E, W}) {
        ungraded, notes := true, notes + ["AEL-0 capped"];
        return;
      }
      grade := 0;
      if open {
        notes := notes + ["AEL-1 capped"];
        return;
      }
      if !AllPass(checks, {F, G, H, I}) {
        notes := notes + ["AEL-1 capped"];
        return;
      }
      grade := 1;
      if !AllPass(checks, {K, L, M}) {
        notes := notes + ["AEL-2 capped"];
        return;
      }
      grade := 2;
      if !AllPass(checks, {N, O, U}) {
        notes := notes + ["AEL-3 capped"];
        return;
      }
      if !AllPass(checks, {P, Q}) {
        notes := notes + ["AEL-3 capped"];
        return;
      }
      grade := 3;
      if !AllPass(checks, {R, S, T, V}) {
        notes := notes + ["AEL-4 capped"];
        return;
      }
      grade := 4;
    }
  }

  /** The outcome of one check is entered and faithful. */
  ghost predicate Settles(w: World, art: Artifact, checks: Checks, id: CheckId) {
    id in checks && (checks[id] == Pass <==> Passes(w, art, id)) && (id == J ==> checks[id] != UV)
  }

  /** Every outcome says pass exactly when its check passes. */
  ghost predicate Faithful(w: World, art: Artifact, checks: Checks) {
    forall id: CheckId :: Settles(w, art, checks, id)
  }

  lemma FaithfulRungs(w: World, art: Artifact, checks: Checks, n: nat)
    requires Faithful(w, art, checks)
    ensures AllPass(checks, RungChecks(n)) <==> RungOK(w, art, n)
  {
    assert forall id :: id in RungChecks(n) ==> Settles(w, art, checks, id);
  }

  predicate InRungZero(id: CheckId) {
    id.A? || id.B? || id.C? || id.D? || id.E? || id.W?
  }

  predicate InRungOne(id: CheckId) {
    id.F? || id.G? || id.H? || id.I? || id.J?
  }

  method RunRungZeroCheck(w: World, art: Artifact, id: CheckId) returns (s: Status)
    requires InRungZero(id)
    ensures s == Pass <==> Passes(w, art, id)
  {
    match id {
      case A => s := CheckSignatures(art);
      case B => s := CheckCanonicalPayloads(art);
      case C =>
        var sig := CheckSignatures(art);
        s := if sig == Pass then UV else sig;
      case D => s := CheckSequenceOrder(art);
      case E => s := CheckPredecessorLinks(art);
      case W => s := CheckClosedSchemas(art);
    }
  }

  method RunRungOneCheck(w: World, art: Artifact, id: CheckId) returns (s: Status)
    requires InRungOne(id)
    ensures s == if Passes(w, art, id) then Pass else Fail
  {
    match id {
      case F => s := CheckOpen(art);
      case G => s := CheckContiguous(art);
      case H => s := CheckHeartbeat(w, art);
      case I => s := CheckCloseCount(art);
      case J => s := CheckOpenEnd(art);
    }
  }

  method RunUpperCheck(w: World, art: Artifact, id: CheckId) returns (s: Status)
    requires !InRungZero(id) && !InRungOne(id)
    ensures s == Pass <==> Passes(w, art, id)
  {
    match id {
      case K => s := CheckTwoRecorders(w, art);
      case L => s := CheckKeysDiffer(art);
      case M => s := CheckCrossAudit(art);
      case N => s := CheckTreeHead(w, art);
      case O => s := CheckInclusion(w, art);
      case P => s := CheckAnchorLeaves(w, art);
      case Q => s := CheckUnanchoredWindow(art);
      case U => s := CheckLogKeyIndependent(art);
      case R => s := CheckCounterpartySignatures(art);
      case S => s := CheckCounterpartyBinding(art);
      case T => s := CheckCounterpartyAudit(art);
      case V => s := CheckCounterpartyKeyIndependent(art);
    }
  }

  const ALL_CHECKS: seq<CheckId> := [A, B, C, D, E, W, F, G, H, I, J, K, L, M, N, O, P, Q, U, R, S, T, V]

  lemma EveryCheckListed(id: CheckId)
    ensures id in ALL_CHECKS
  {
    match id {
      case A => assert ALL_CHECKS[0] == A;
      case B => assert ALL_CHECKS[1] == B;
      case C => assert ALL_CHECKS[2] == C;
      case D => assert ALL_CHECKS[3] == D;
      case E => assert ALL_CHECKS[4] == E;
      case W => assert ALL_CHECKS[5] == W;
      case F => assert ALL_CHECKS[6] == F;
      case G => assert ALL_CHECKS[7] == G;
      case H => assert ALL_CHECKS[8] == H;
      case I => assert ALL_CHECKS[9] == I;
      case J => assert ALL_CHECKS[10] == J;
      case K => assert ALL_CHECKS[11] == K;
      case L => assert ALL_CHECKS[12] == L;
      case M => assert ALL_CHECKS[13] == M;
      case N => assert ALL_CHECKS[14] == N;
      case O => assert ALL_CHECKS[15] == O;
      case P => assert ALL_CHECKS[16] == P;
      case Q => assert ALL_CHECKS[17] == Q;
      case U => assert ALL_CHECKS[18] == U;
      case R => assert ALL_CHECKS[19] == R;
      case S => assert ALL_CHECKS[20] == S;
      case T => assert ALL_CHECKS[21] == T;
      case V => assert ALL_CHECKS[22] == V;
    }
  }

  /** Fill the outcome map check by check. */
  method RunListed(w: World, art: Artifact, ids: seq<CheckId>) returns (checks: Checks)
    ensures forall id :: id in ids ==> Settles(w, art, checks, id)
  {
    checks := map[];
    for i := 0 to |ids|
      invariant forall k :: 0 <= k < i ==> Settles(w, art, checks, ids[k])
    {
      var s;
      if InRungZero(ids[i]) {
        s := RunRungZeroCheck(w, art, ids[i]);
      } else if InRungOne(ids[i]) {
        s := RunRungOneCheck(w, art, ids[i]);
      } else {
        s := RunUpperCheck(w, art, ids[i]);
      }
      checks := checks[ids[i] := s];
    }
  }

  method RunChecks(w: World, art: Artifact) returns (checks: Checks)
    ensures Faithful(w, art, checks)
  {
    checks := RunListed(w, art, ALL_CHECKS);
    forall id: CheckId
      ensures Settles(w, art, checks, id)
    {
      EveryCheckListed(id);
    }
  }

  /** A run's part of the report. */
  datatype RunReport = RunReport(run: string, open: bool, ungraded: bool, grade: int)

  /** The report a view must get: the grade is the greatest rung through which
      every required check passes, the open flag is check j, and nothing else
      about the outcomes matters. */
  ghost predicate ReportMeans(w: World, art: Artifact, rep: RunReport) {
    && rep.run == ArtifactRun(art)
    && (rep.open <==> !Passes(w, art, J))
    && (rep.ungraded <==> !RungOK(w, art, 0))
    && (!rep.ungraded ==>
          && 0 <= rep.grade <= 4
          && EarnsThrough(w, art, rep.grade)
          && (rep.grade < 4 ==> !RungOK(w, art, rep.grade + 1)))
  }

  /** Evaluate one run. Although an open run is capped before checks f to i are
      looked at, the grade is the cumulative one: an open end fails check i. */
  method EvaluateRun(w: World, art: Artifact) returns (rep: RunReport)
    ensures ReportMeans(w, art, rep)
  {
    var checks := RunChecks(w, art);
    assert Settles(w, art, checks, J);
    var open := checks[J] == Fail;
    var res := new Result(checks, open);
    res.ComputeGrade();
    rep := RunReport(ArtifactRun(art), open, res.ungraded, res.grade);
    GradeIsCumulative(w, art, checks, open, res.ungraded, res.grade);
  }

  /** The computed grade, read back through faithful outcomes. */
  lemma GradeIsCumulative(w: World, art: Artifact, checks: Checks, open: bool, ungraded: bool, grade: int)
    requires Faithful(w, art, checks) && (open <==> !Passes(w, art, J))
    requires ungraded <==> !RungEarned(checks, open, 0)
    requires !ungraded ==> 0 <= grade <= 4 && forall n: nat :: n <= grade ==> RungEarned(checks, open, n)
    requires !ungraded && grade < 4 ==> !RungEarned(checks, open, grade + 1)
    ensures ungraded <==> !RungOK(w, art, 0)
    ensures !ungraded ==> EarnsThrough(w, art, grade)
    ensures !ungraded && grade < 4 ==> !RungOK(w, art, grade + 1)
  {
    FaithfulRungs(w, art, checks, 0);
    if !ungraded {
      forall n: nat | n <= grade
        ensures RungOK(w, art, n)
      {
        assert RungEarned(checks, open, n);
        FaithfulRungs(w, art, checks, n);
      }
      if grade < 4 {
        FaithfulRungs(w, art, checks, grade + 1);
        if open && grade == 0 {
          Rungs.OpenEndFailsClose(w, art);
          assert I in RungChecks(1);
        }
      }
    }
  }

  /** A view has one grade: the meaning of the report determines it. */
  lemma ReportIsDetermined(w: World, art: Artifact, r: RunReport, s: RunReport)
    requires ReportMeans(w, art, r) && ReportMeans(w, art, s)
    ensures r.open == s.open && r.ungraded == s.ungraded
    ensures !r.ungraded ==> r.grade == s.grade
  {
  }

  // ----- Runs of an artifact, and the exit status -----

  /** The runs an artifact mentions: declared in the manifest or on a log. */
  ghost predicate Mentioned(art: Artifact, run: string) {
    run != "" && (run in art.manifest.runs || exists l :: l in art.logs && l.run == run)
  }

  /** Every mentioned run once, or one nameless run when none is mentioned. */
  method ArtifactRuns(art: Artifact) returns (runs: seq<string>)
    ensures Distinct(runs) && runs != []
    ensures (exists run :: Mentioned(art, run)) ==> forall run :: run in runs <==> Mentioned(art, run)
    ensures !(exists run :: Mentioned(art, run)) ==> runs == [""]
    ensures forall run :: run != "" && run in art.manifest.runs ==> run in runs
    ensures forall l :: l in art.logs && l.run != "" ==> l.run in runs
    ensures forall run :: run in runs && run != "" ==> run in art.manifest.runs || exists l :: l in art.logs && l.run == run
  {
    runs := [];
    var seen: set<string> := {};
    var declared := art.manifest.runs;
    for i := 0 to |declared|
      invariant Distinct(runs) && forall run :: run in seen <==> run in runs
      invariant forall run :: run in runs <==> run != "" && run in declared[..i]
    {
      assert declared[..i + 1] == declared[..i] + [declared[i]];
      if declared[i] != "" && declared[i] !in seen {
        seen := seen + {declared[i]};
        runs := runs + [declared[i]];
      }
    }
    assert declared[..|declared|] == declared;
    for i := 0 to |art.logs|
      invariant Distinct(runs) && forall run :: run in seen <==> run in runs
      invariant forall run :: run in runs <==> run != "" && (run in declared || exists k :: 0 <= k < i && art.logs[k].run == run)
    {
      var run := art.logs[i].run;
      if run != "" && run !in seen {
        seen := seen + {run};
        runs := runs + [run];
      }
    }
    assert forall run :: run in runs <==> Mentioned(art, run) by {
      forall run
        ensures run in runs <==> Mentioned(art, run)
      {
        if l :| l in art.logs && l.run == run {
          var k :| 0 <= k < |art.logs| && art.logs[k] == l;
        }
      }
    }
    if |runs| == 0 {
      assert forall run :: run !in runs;
      runs := [""];
    } else {
      assert runs[0] in runs && Mentioned(art, runs[0]);
    }
  }

  const EXIT_NONCONFORMING: int := 3
  const EXIT_OPEN: int := 4

  method ConformanceExit(reports: seq<RunReport>, minGrade: int) returns (exit: int)
    ensures exit == 0 <==> && reports != []
                           && forall r :: r in reports ==> !r.open && !r.ungraded && r.grade >= minGrade
    ensures exit == 4 <==> exists r :: r in reports && r.open
    ensures exit == 0 || exit == 3 || exit == 4
  {
    if |reports| == 0 {
      return EXIT_NONCONFORMING;
    }
    for i := 0 to |reports|
      invariant forall k :: 0 <= k < i ==> !reports[k].open
    {
      if reports[i].open {
        return EXIT_OPEN;
      }
    }
    for i := 0 to |reports|
      invariant forall k :: 0 <= k < i ==> !reports[k].ungraded && reports[k].grade >= minGrade
    {
      if reports[i].ungraded || reports[i].grade < minGrade {
        return EXIT_NONCONFORMING;
      }
    }
    return 0;
  }

  /** The runs an evaluation covers. */
  ghost predicate Evaluated(art: Artifact, run: string) {
    Mentioned(art, run) || (run == "" && !exists r :: Mentioned(art, r))
  }

  /** Exit zero at a minimum grade means every evaluated run is closed and passes
      the whole table through that rung. */
  method Evaluate(w: World, art: Artifact, minGrade: int) returns (reports: seq<RunReport>, exit: int)
    ensures exit == 0 <==> minGrade <= 4 && forall run :: Evaluated(art, run) ==>
              Passes(w, ForRun(art, run), J) && EarnsThrough(w, ForRun(art, run), if minGrade < 0 then 0 else minGrade)
  {
    var runs := ArtifactRuns(art);
    reports := EvaluateRuns(w, art, runs);
    exit := ConformanceExit(reports, minGrade);
    assert forall run :: run in runs <==> Evaluated(art, run);
    ReportsAreGood(w, art, runs, reports, minGrade);
  }

  method EvaluateRuns(w: World, art: Artifact, runs: seq<string>) returns (reports: seq<RunReport>)
    ensures |reports| == |runs|
    ensures forall k :: 0 <= k < |runs| ==> ReportMeans(w, ForRun(art, runs[k]), reports[k])
    ensures forall k :: 0 <= k < |runs| ==> reports[k].run == runs[k]
  {
    reports := [];
    for i := 0 to |runs|
      invariant |reports| == i
      invariant forall k :: 0 <= k < i ==> ReportMeans(w, ForRun(art, runs[k]), reports[k])
      invariant forall k :: 0 <= k < i ==> reports[k].run == runs[k]
    {
      var rep := EvaluateRun(w, ForRun(art, runs[i]));
      reports := reports + [rep];
    }
  }

  lemma ReportsAreGood(w: World, art: Artifact, runs: seq<string>, reports: seq<RunReport>, minGrade: int)
    requires |reports| == |runs| && runs != []
    requires forall k :: 0 <= k < |runs| ==> ReportMeans(w, ForRun(art, runs[k]), reports[k])
    requires forall run :: run in runs <==> Evaluated(art, run)
    ensures (forall r :: r in reports ==> !r.open && !r.ungraded && r.grade >= minGrade) <==>
            (minGrade <= 4 && forall run :: Evaluated(art, run) ==>
               Passes(w, ForRun(art, run), J) && EarnsThrough(w, ForRun(art, run), if minGrade < 0 then 0 else minGrade))
  {
    var floor := if minGrade < 0 then 0 else minGrade;
    forall k | 0 <= k < |runs|
      ensures (!reports[k].open && !reports[k].ungraded && reports[k].grade >= minGrade) <==>
              (minGrade <= 4 && Passes(w, ForRun(art, runs[k]), J) && EarnsThrough(w, ForRun(art, runs[k]), floor))
    {
      GoodReport(w, ForRun(art, runs[k]), reports[k], minGrade);
    }
    AllGood(w, art, runs, reports, minGrade, floor);
  }

  lemma GoodReport(w: World, art: Artifact, rep: RunReport, minGrade: int)
    requires ReportMeans(w, art, rep)
    ensures (!rep.open && !rep.ungraded && rep.grade >= minGrade) <==>
            (minGrade <= 4 && Passes(w, art, J) && EarnsThrough(w, art, if minGrade < 0 then 0 else minGrade))
  {
    var floor := if minGrade < 0 then 0 else minGrade;
    if EarnsThrough(w, art, floor) {
      assert RungOK(w, art, 0);
    }
  }

  lemma AllGood(w: World, art: Artifact, runs: seq<string>, reports: seq<RunReport>, minGrade: int, floor: nat)
    requires |reports| == |runs| && runs != []
    requires forall run :: run in runs <==> Evaluated(art, run)
    requires forall k :: 0 <= k < |runs| ==>
               ((!reports[k].open && !reports[k].ungraded && reports[k].grade >= minGrade) <==>
                (minGrade <= 4 && Passes(w, ForRun(art, runs[k]), J) && EarnsThrough(w, ForRun(art, runs[k]), floor)))
    ensures (forall r :: r in reports ==> !r.open && !r.ungraded && r.grade >= minGrade) <==>
            (minGrade <= 4 && forall run :: Evaluated(art, run) ==>
               Passes(w, ForRun(art, run), J) && EarnsThrough(w, ForRun(art, run), floor))
  {
    if forall r :: r in reports ==> !r.open && !r.ungraded && r.grade >= minGrade {
      assert reports[0] in reports;
      forall run | Evaluated(art, run)
        ensures minGrade <= 4 && Passes(w, ForRun(art, run), J) && EarnsThrough(w, ForRun(art, run), floor)
      {
        var k :| 0 <= k < |runs| && runs[k] == run;
        assert reports[k] in reports;
      }
    } else {
      var r :| r in reports && !(!r.open && !r.ungraded && r.grade >= minGrade);
      var k :| 0 <= k < |reports| && reports[k] == r;
      assert runs[k] in runs;
    }
  }
}
