/** Rungs three and four, exactly, in the fields of the artifact. */
module UpperRungs {
  import opened Basics
  import opened Merkle
  import opened Records
  import opened Evidence
  import opened Chain
  import opened Anchoring
  import opened Rungs
  import opened Completeness
  import opened RungMeanings
  import Grading

  // ----- Rung three -----

  /** Under this root every entry stands, and every log's last record has one. */
  ghost predicate AnchoredUnder(w: World, art: Artifact, root: Digest)
    requires art.anchors.Some?
  {
    && Spells(art.anchors.value.head.root, root)
    && (forall e :: e in art.anchors.value.entries ==> EntryStands(w, art, root, e))
    && forall l :: l in art.logs ==> LastAnchored(art.anchors.value.entries, l)
  }

  ghost predicate LastAnchored(entries: seq<AnchorEntry>, l: Log) {
    exists e :: e in entries && e.recorder == l.id && e.seqno == |l.records| - 1
  }

  ghost predicate OtherKeys(logs: seq<Log>, key: string) {
    key != "" && forall l :: l in logs ==> exists k :: SignedThroughout(l, k) && k != key
  }

  /** The anchors are readable, signed under a key of their own, and hold the run. */
  ghost predicate RunAnchored(w: World, art: Artifact) {
    && art.manifest.anchor.Some? && !art.anchorsErr && art.anchors.Some? && HeadSigned(w, art)
    && OtherKeys(art.logs, ToLower(art.manifest.anchor.value.logKey))
    && art.anchors.value.entries != []
    && exists root :: AnchoredUnder(w, art, root)
  }

  /** Rung three, exactly, on top of the rungs below. */
  lemma RungThreeExactly(w: World, art: Artifact, run: string)
    requires IsView(art, run) && LoadedLogs(w, art) && EarnsThrough(w, art, 2)
    ensures RungOK(w, art, 3) <==> RunAnchored(w, art)
  {
    if RungOK(w, art, 3) {
      ThreeIsAnchored(w, art, run);
    }
    if RunAnchored(w, art) {
      AnchoredEarnsThree(w, art, run);
    }
  }

  lemma ThreeIsAnchored(w: World, art: Artifact, run: string)
    requires IsView(art, run) && LoadedLogs(w, art) && EarnsThrough(w, art, 2) && RungOK(w, art, 3)
    ensures RunAnchored(w, art)
  {
    var root := ThreeHasRoot(w, art, run);
    RungThreeReadable(w, art);
  }

  lemma ThreeHasRoot(w: World, art: Artifact, run: string) returns (root: Digest)
    requires IsView(art, run) && LoadedLogs(w, art) && EarnsThrough(w, art, 2) && RungOK(w, art, 3)
    ensures art.manifest.anchor.Some? && art.anchors.Some? && HeadSigned(w, art) && art.anchors.value.entries != []
    ensures OtherKeys(art.logs, ToLower(art.manifest.anchor.value.logKey)) && AnchoredUnder(w, art, root)
  {
    assert EarnsThrough(w, art, 3);
    root := ThirdRungMeaning(w, art, run);
  }

  lemma RungThreeReadable(w: World, art: Artifact)
    requires RungOK(w, art, 3)
    ensures AnchorsUsable(art)
  {
    assert Passes(w, art, N);
  }

  lemma AnchoredEarnsThree(w: World, art: Artifact, run: string)
    requires IsView(art, run) && LoadedLogs(w, art) && EarnsThrough(w, art, 2) && RunAnchored(w, art)
    ensures RungOK(w, art, 3)
  {
    var root :| AnchoredUnder(w, art, root);
    RungsBelow(w, art, run);
    ViewLogs(art, run);
    StandingEntriesIncluded(w, art, root);
    StandingEntriesMatch(w, art, run, root);
    LastAnchoredLeavesNothing(art);
    OtherKeysIndependent(art.logs, ToLower(art.manifest.anchor.value.logKey));
    ChecksEarnThree(w, art);
  }

  lemma ChecksEarnThree(w: World, art: Artifact)
    requires TreeHeadOK(w, art) && InclusionOK(w, art) && LeavesOK(w, art) && WindowOK(art)
    requires KeyIndependent(LogsForRun(art), ToLower(art.manifest.anchor.value.logKey))
    ensures RungOK(w, art, 3)
  {
    RungThreeFrom(w, art);
  }

  /** What rungs one and two leave for the third. */
  lemma RungsBelow(w: World, art: Artifact, run: string)
    requires IsView(art, run) && EarnsThrough(w, art, 2)
    ensures IdsDistinct(art.logs) && AllContiguous(art.logs)
  {
    SecondRungMeaning(w, art, run);
    assert RungOK(w, art, 1);
    assert Passes(w, art, G);
  }

  lemma SpelledDecodes(text: string, d: Digest)
    requires Spells(text, d)
    ensures DecodeHex32(text) == Some(d)
  {
    UnhexInvertsHex(d);
  }

  lemma StandingEntriesIncluded(w: World, art: Artifact, root: Digest)
    requires AnchorsUsable(art) && AnchoredUnder(w, art, root) && art.anchors.value.entries != []
    ensures InclusionOK(w, art)
  {
    SpelledDecodes(art.anchors.value.head.root, root);
    forall e | e in art.anchors.value.entries
      ensures EntryIncluded(w, root, art.anchors.value.head.size, e)
    {
      StandingEntryIncluded(w, art, root, e);
    }
  }

  lemma StandingEntryIncluded(w: World, art: Artifact, root: Digest, e: AnchorEntry)
    requires art.anchors.Some? && EntryStands(w, art, root, e)
    ensures EntryIncluded(w, root, art.anchors.value.head.size, e)
  {
    var l, proof: seq<Digest> :| StandsBy(w, art, root, e, l, proof);
    SpelledDecodes(e.leaf, w.sha([0x00] + l.records[e.seqno].raw));
    forall i | 0 <= i < |proof|
      ensures DecodeHex32(e.proof[i]) == Some(proof[i])
    {
      SpelledDecodes(e.proof[i], proof[i]);
    }
    assert DecodeProof(e.proof).value == proof;
  }

  lemma StandingEntriesMatch(w: World, art: Artifact, run: string, root: Digest)
    requires IsView(art, run) && AnchorsUsable(art) && IdsDistinct(art.logs) && AllContiguous(art.logs)
    requires AnchoredUnder(w, art, root)
    ensures LeavesOK(w, art)
  {
    forall e | e in art.anchors.value.entries
      ensures LeafMatches(w, art.logs, e)
    {
      StandingEntryMatches(w, art, run, root, e);
    }
  }

  lemma StandingEntryMatches(w: World, art: Artifact, run: string, root: Digest, e: AnchorEntry)
    requires IsView(art, run) && AnchorsUsable(art) && IdsDistinct(art.logs) && AllContiguous(art.logs)
    requires e in art.anchors.value.entries && EntryStands(w, art, root, e)
    ensures LeafMatches(w, art.logs, e)
  {
    var l, proof: seq<Digest> :| StandsBy(w, art, root, e, l, proof);
    var rec := l.records[e.seqno];
    assert rec in l.records && rec.payload.seqno == e.seqno;
    var found := FindRecord(art.logs, e.recorder, e.run, e.seqno);
    var m :| m in art.logs && m.id == e.recorder && m.run == e.run && found.value in m.records;
    DistinctIdsDetermineLogs(art.logs);
    assert m == l;
    var k :| 0 <= k < |m.records| && m.records[k] == found.value;
    assert m.records[k].payload.seqno == k;
    assert LeafHash(w.sha, rec.raw) == w.sha([0x00] + rec.raw);
  }

  lemma LastAnchoredLeavesNothing(art: Artifact)
    requires AnchorsUsable(art) && AllContiguous(art.logs) && LogsForRun(art) == art.logs
    requires forall l :: l in art.logs ==> LastAnchored(art.anchors.value.entries, l)
    ensures WindowOK(art)
  {
    forall l | l in art.logs
      ensures FullyAnchored(art.anchors.value.entries, l)
    {
      var e :| e in art.anchors.value.entries && e.recorder == l.id && e.seqno == |l.records| - 1;
      forall r | r in l.records
        ensures AnchoredAtLeast(art.anchors.value.entries, l.id, r.payload.seqno)
      {
        var k :| 0 <= k < |l.records| && l.records[k] == r;
        assert l.records[k].payload.seqno == k;
      }
    }
  }

  lemma OtherKeysIndependent(logs: seq<Log>, key: string)
    requires OtherKeys(logs, key)
    ensures KeyIndependent(logs, key)
  {
    forall l | l in logs
      ensures HasKey(l) && FirstKey(l) != key
    {
      var k :| SignedThroughout(l, k) && k != key;
      KeyExactly(l, k);
    }
  }

  // ----- Rung four -----

  /** All statements of the run stand under this nonce, which every opening record
      carries, and confirm exactly the events sent out. */
  ghost predicate ConfirmedUnder(art: Artifact, run: string, nonce: string)
    requires art.manifest.counterparty.Some?
  {
    && nonce != ""
    && (exists s :: s in art.statements && StatementStands(s, run, nonce))
    && (forall s :: s in art.statements && (s.lineErr || s.parseErr || s.payload.run == run) ==> StatementStands(s, run, nonce))
    && (forall l :: l in art.logs && l.records != [] ==> l.records[0].payload.typ == Open && l.records[0].payload.cpNonce == nonce)
    && forall id :: IsConfirmed(art, run, id) <==> IsSentOut(art, id)
  }

  /** The counterparty declares flows, has a published key of its own, and its
      readable statements confirm the run. */
  ghost predicate RunConfirmed(art: Artifact, run: string) {
    && art.manifest.counterparty.Some? && !art.statementsMissing && !art.statementsErr
    && art.manifest.counterparty.value.flows != []
    && ToLower(art.manifest.counterparty.value.key) in art.keys
    && OtherKeys(art.logs, ToLower(art.manifest.counterparty.value.key))
    && exists nonce :: ConfirmedUnder(art, run, nonce)
  }

  /** Rung four, exactly, on top of the rungs below. */
  lemma RungFourExactly(w: World, art: Artifact, run: string)
    requires IsView(art, run) && EarnsThrough(w, art, 3)
    ensures RungOK(w, art, 4) <==> RunConfirmed(art, run)
  {
    if RungOK(w, art, 4) {
      assert EarnsThrough(w, art, 4);
      var nonce := FourthRungInFull(w, art, run);
      assert ConfirmedUnder(art, run, nonce);
      RungFourReadable(w, art);
    }
    if RunConfirmed(art, run) {
      LogsHaveRecords(w, art);
      ConfirmedEarnsFour(w, art, run);
    }
  }

  lemma RungFourReadable(w: World, art: Artifact)
    requires RungOK(w, art, 4)
    ensures CounterpartyUsable(art) && !art.statementsErr && art.manifest.counterparty.value.flows != []
    ensures ToLower(art.manifest.counterparty.value.key) in art.keys && ToLower(art.manifest.counterparty.value.key) != ""
  {
    RungFourStatements(w, art);
    RungFourAudit(w, art);
  }

  lemma LogsHaveRecords(w: World, art: Artifact)
    requires EarnsThrough(w, art, 3)
    ensures exists l :: l in art.logs && l.records != []
  {
    assert RungOK(w, art, 0);
    assert Passes(w, art, A);
    var r := AllRecords(art.logs)[0];
    assert r in AllRecords(art.logs);
    InAllRecords(art.logs, r);
  }

  lemma ConfirmedEarnsFour(w: World, art: Artifact, run: string)
    requires IsView(art, run) && RunConfirmed(art, run) && exists l :: l in art.logs && l.records != []
    ensures RungOK(w, art, 4)
  {
    var nonce :| ConfirmedUnder(art, run, nonce);
    ViewLogs(art, run);
    NonceShared(art, run, nonce);
    StandingStatements(art, run, nonce);
    StandingSignatures(art, run, nonce);
    StandingBinding(art, run, nonce);
    ConfirmedIdsAgree(art, run, nonce);
    StandingAudit(art, run, nonce);
    OtherKeysIndependent(art.logs, ToLower(art.manifest.counterparty.value.key));
    RungFourFrom(w, art);
  }

  lemma NonceShared(art: Artifact, run: string, nonce: string)
    requires art.manifest.counterparty.Some? && IsView(art, run) && ConfirmedUnder(art, run, nonce)
    requires exists l :: l in art.logs && l.records != []
    ensures RunNonce(art.logs, run, nonce)
  {
  }

  /** Every statement of the run is verified and bound to it. */
  ghost predicate AllStand(art: Artifact, run: string, nonce: string) {
    forall s :: s in RunStatements(art) ==> StatementVerified(s) && Bound(s, run, nonce)
  }

  lemma StandingSignatures(art: Artifact, run: string, nonce: string)
    requires AllStand(art, run, nonce) && CounterpartyUsable(art) && !art.statementsErr && art.statements != []
    requires ToLower(art.manifest.counterparty.value.key) in art.keys
    ensures CounterpartySignaturesOK(art)
  {
  }

  lemma StandingBinding(art: Artifact, run: string, nonce: string)
    requires AllStand(art, run, nonce) && CounterpartyUsable(art) && RunStatements(art) != []
    requires RunNonce(LogsForRun(art), ArtifactRun(art), nonce) && ArtifactRun(art) == run
    ensures CounterpartyBindingOK(art)
  {
    assert AllBound(RunStatements(art), run, nonce);
  }

  lemma StandingAudit(art: Artifact, run: string, nonce: string)
    requires AllStand(art, run, nonce) && CounterpartyUsable(art) && art.manifest.counterparty.value.flows != []
    requires RunNonce(LogsForRun(art), ArtifactRun(art), nonce) && ArtifactRun(art) == run
    requires RecordedOut(AllRecords(art.logs), Flows(art)) == ConfirmedIn(RunStatements(art), Flows(art))
    ensures CounterpartyAuditOK(art)
  {
    assert AllAuditable(RunStatements(art), run, nonce);
  }

  lemma StandingStatements(art: Artifact, run: string, nonce: string)
    requires art.manifest.counterparty.Some? && ArtifactRun(art) == run && ConfirmedUnder(art, run, nonce)
    ensures RunStatements(art) != [] && art.statements != [] && AllStand(art, run, nonce)
  {
    var s :| s in art.statements && StatementStands(s, run, nonce);
    assert s in RunStatements(art);
  }

  lemma ConfirmedIdsAgree(art: Artifact, run: string, nonce: string)
    requires art.manifest.counterparty.Some? && ArtifactRun(art) == run
    requires AllStand(art, run, nonce)
    requires forall id :: IsConfirmed(art, run, id) <==> IsSentOut(art, id)
    ensures RecordedOut(AllRecords(art.logs), Flows(art)) == ConfirmedIn(RunStatements(art), Flows(art))
  {
    forall id
      ensures id in RecordedOut(AllRecords(art.logs), Flows(art)) <==> id in ConfirmedIn(RunStatements(art), Flows(art))
    {
      SentExactly(art, id);
      ConfirmedExactly(art, run, RunStatements(art), nonce, id);
    }
  }

  lemma SignaturesPass(w: World, art: Artifact)
    requires CounterpartySignaturesOK(art)
    ensures Passes(w, art, R)
  {
  }

  lemma BindingPasses(w: World, art: Artifact)
    requires CounterpartyBindingOK(art)
    ensures Passes(w, art, S)
  {
  }

  lemma AuditPasses(w: World, art: Artifact)
    requires CounterpartyAuditOK(art)
    ensures Passes(w, art, T)
  {
  }

  lemma RungFourFrom(w: World, art: Artifact)
    requires CounterpartySignaturesOK(art) && CounterpartyBindingOK(art) && CounterpartyAuditOK(art)
    requires KeyIndependent(LogsForRun(art), ToLower(art.manifest.counterparty.value.key))
    ensures RungOK(w, art, 4)
  {
    forall id | id in RungChecks(4)
      ensures Passes(w, art, id)
    {
      if id == R {
        SignaturesPass(w, art);
      } else if id == S {
        BindingPasses(w, art);
      } else if id == T {
        AuditPasses(w, art);
      } else {
        assert id == V;
      }
    }
  }

  // ----- The grade -----

  /** What rung `n` adds, in the fields of the artifact. */
  ghost predicate Says(w: World, art: Artifact, run: string, n: nat) {
    match n
    case 0 => art.logs != [] && (forall l :: l in art.logs ==> LogStands(w, art.keys, l)) && FilesValid(art)
    case 1 => forall l :: l in art.logs ==> LogCloses(w, l.records)
    case 2 => LogsCorrespond(art)
    case 3 => RunAnchored(w, art)
    case 4 => RunConfirmed(art, run)
    case _ => true
  }

  ghost predicate SaysThrough(w: World, art: Artifact, run: string, n: nat) {
    forall m: nat :: m <= n ==> Says(w, art, run, m)
  }

  ghost predicate LoadedView(w: World, art: Artifact, run: string) {
    IsView(art, run) && LoadedLogs(w, art) && forall l :: l in art.logs ==> SpacingInBound(l.records)
  }

  lemma RungSays(w: World, art: Artifact, run: string, n: nat)
    requires LoadedView(w, art, run) && n <= 4 && (n > 0 ==> EarnsThrough(w, art, n - 1))
    ensures RungOK(w, art, n) <==> Says(w, art, run, n)
  {
    match n {
      case 0 => RungZeroExactly(w, art);
      case 1 => RungOneExactly(w, art);
      case 2 =>
        assert RungOK(w, art, 0) && RungOK(w, art, 1);
        RungTwoExactly(w, art, run);
      case 3 => RungThreeExactly(w, art, run);
      case 4 => RungFourExactly(w, art, run);
    }
  }

  lemma {:induction false} ThroughSays(w: World, art: Artifact, run: string, n: nat)
    requires LoadedView(w, art, run) && n <= 4
    ensures EarnsThrough(w, art, n) <==> SaysThrough(w, art, run, n)
  {
    if n > 0 {
      ThroughSays(w, art, run, n - 1);
    }
    if EarnsThrough(w, art, n) || SaysThrough(w, art, run, n) {
      StepSays(w, art, run, n);
    }
  }

  lemma StepSays(w: World, art: Artifact, run: string, n: nat)
    requires LoadedView(w, art, run) && n <= 4
    requires n > 0 ==> (EarnsThrough(w, art, n - 1) <==> SaysThrough(w, art, run, n - 1))
    requires EarnsThrough(w, art, n) || SaysThrough(w, art, run, n)
    ensures EarnsThrough(w, art, n) && SaysThrough(w, art, run, n)
  {
    assert n > 0 ==> EarnsThrough(w, art, n - 1) && SaysThrough(w, art, run, n - 1);
    RungSays(w, art, run, n);
    ThroughStep(w, art, run, n);
  }

  lemma ThroughStep(w: World, art: Artifact, run: string, n: nat)
    requires n > 0 ==> EarnsThrough(w, art, n - 1) && SaysThrough(w, art, run, n - 1)
    ensures EarnsThrough(w, art, n) <==> RungOK(w, art, n)
    ensures SaysThrough(w, art, run, n) <==> Says(w, art, run, n)
  {
    forall m: nat | m < n
      ensures RungOK(w, art, m) && Says(w, art, run, m)
    {
      assert m <= n - 1;
    }
  }

  /** What a grade says: a report of at least grade `n` is given exactly to the
      views of which rungs zero to `n` say what they say. */
  lemma GradeExactly(w: World, art: Artifact, run: string, rep: Grading.RunReport, n: nat)
    requires LoadedView(w, art, run) && Grading.ReportMeans(w, art, rep) && n <= 4
    ensures !rep.ungraded && rep.grade >= n <==> SaysThrough(w, art, run, n)
  {
    ThroughSays(w, art, run, n);
    assert EarnsThrough(w, art, n) ==> RungOK(w, art, 0);
  }

  /** The interval and the tolerance are numbers the format admits. */
  ghost predicate SafelyDeclared(rs: seq<Record>) {
    rs != [] ==> rs[0].payload.hmax <= 9_007_199_254_740_991 && 0 <= rs[0].payload.htol <= 9_007_199_254_740_991
  }

  lemma PassingLogCloses(w: World, rs: seq<Record>)
    requires SafelyDeclared(rs) && OpenOK(rs) && ContiguousOK(rs) && HeartbeatOK(w, rs) && CloseOK(rs)
    ensures LogCloses(w, rs)
  {
    HeartbeatNeverLenient(w, rs);
    var seconds := rs[0].payload.hmax + rs[0].payload.htol;
    forall i | 1 <= i < |rs|
      ensures GapKept(w, rs, i)
    {
      assert WithinSeconds(w, rs, i, seconds);
    }
  }

  lemma EarnedSays(w: World, art: Artifact, run: string, n: nat)
    requires IsView(art, run) && LoadedLogs(w, art) && (forall l :: l in art.logs ==> SafelyDeclared(l.records))
    requires EarnsThrough(w, art, n) && n <= 4
    ensures Says(w, art, run, n)
  {
    assert RungOK(w, art, n);
    match n {
      case 0 => RungZeroExactly(w, art);
      case 1 =>
        RungOneLogs(w, art);
        forall l | l in art.logs
          ensures LogCloses(w, l.records)
        {
          PassingLogCloses(w, l.records);
        }
      case 2 =>
        assert RungOK(w, art, 0) && RungOK(w, art, 1);
        RungTwoExactly(w, art, run);
      case 3 => RungThreeExactly(w, art, run);
      case 4 => RungFourExactly(w, art, run);
    }
  }

  /** No grade says too much: whatever spacing the logs declare, each rung through
      the reported grade says what it says. */
  lemma GradeSound(w: World, art: Artifact, run: string, rep: Grading.RunReport, n: nat)
    requires IsView(art, run) && LoadedLogs(w, art) && (forall l :: l in art.logs ==> SafelyDeclared(l.records))
    requires Grading.ReportMeans(w, art, rep) && !rep.ungraded && n <= rep.grade
    ensures Says(w, art, run, n)
  {
    assert EarnsThrough(w, art, n);
    EarnedSays(w, art, run, n);
  }
}
