/** What each higher rung means, and which parts of the table are redundant. */
module Rungs {
  import opened Basics
  import opened Records
  import opened Evidence
  import opened Chain
  import opened Anchoring

  // ----- Heartbeat arithmetic -----

  /** Two time stamps in order and at most `seconds` apart. */
  predicate StampsWithin(w: World, before: string, after: string, seconds: int) {
    match (w.time(before), w.time(after))
    case (Some(t), Some(u)) => t <= u <= t + seconds * NANOS_PER_SECOND
    case _ => false
  }

  /** The documented rule: consecutive instants in order, at most `seconds` apart. */
  predicate WithinSeconds(w: World, rs: seq<Record>, i: int, seconds: int)
    requires 1 <= i < |rs|
  {
    StampsWithin(w, rs[i - 1].payload.ts, rs[i].payload.ts, seconds)
  }

  predicate AllWithinSeconds(w: World, rs: seq<Record>, seconds: int) {
    forall i :: 1 <= i < |rs| ==> WithinSeconds(w, rs, i, seconds)
  }

  predicate HeartbeatRule(w: World, rs: seq<Record>) {
    && rs != []
    && (rs[0].payload.hmax > 0 ==>
          && AllWithinSeconds(w, rs, rs[0].payload.hmax + rs[0].payload.htol)
          && BeatsOnce(rs))
  }

  /** The largest sum of interval and tolerance, in seconds, whose nanosecond
      product fits in 64 bits. */
  const MAX_SECONDS: int := 9_223_372_036

  lemma LimitInRange(hmax: int, htol: int)
    requires -MAX_SECONDS <= hmax + htol <= MAX_SECONDS
    ensures HeartbeatLimit(hmax, htol) == (hmax + htol) * NANOS_PER_SECOND < MAX_INT64
  {
  }

  /** Up to that bound the check decides exactly the documented rule. */
  lemma HeartbeatExactWithinBound(w: World, rs: seq<Record>)
    requires rs != [] ==> -MAX_SECONDS <= rs[0].payload.hmax + rs[0].payload.htol <= MAX_SECONDS
    ensures HeartbeatOK(w, rs) <==> HeartbeatRule(w, rs)
  {
    if rs != [] && rs[0].payload.hmax > 0 {
      var s := rs[0].payload.hmax + rs[0].payload.htol;
      LimitInRange(rs[0].payload.hmax, rs[0].payload.htol);
      forall i | 1 <= i < |rs|
        ensures SpacingOK(w, rs, i, s * NANOS_PER_SECOND) <==> WithinSeconds(w, rs, i, s)
      {
      }
    }
  }

  /** Two stamps exactly as far apart as a 64-bit nanosecond count can tell. */
  ghost predicate LongestGap(w: World, before: string, after: string) {
    && w.time(before).Some? && w.time(after).Some?
    && w.time(after).value == w.time(before).value + MAX_INT64
  }

  /** Two records at least as far apart as a 64-bit nanosecond count can tell. */
  ghost predicate HasLongGap(w: World, rs: seq<Record>, i: int) {
    && 1 <= i < |rs|
    && w.time(rs[i - 1].payload.ts).Some? && w.time(rs[i].payload.ts).Some?
    && w.time(rs[i].payload.ts).value - w.time(rs[i - 1].payload.ts).value >= MAX_INT64
  }

  /** No interval and tolerance let a log with such a gap pass: the difference
      saturates above every limit the wrapped product can give. */
  lemma LongGapRejected(w: World, rs: seq<Record>, i: int)
    requires HasLongGap(w, rs, i) && rs[0].payload.hmax > 0
    ensures !HeartbeatOK(w, rs)
  {
    LimitBelowMax(rs[0].payload.hmax, rs[0].payload.htol);
    assert !SpacingOK(w, rs, i, HeartbeatLimit(rs[0].payload.hmax, rs[0].payload.htol));
  }

  /** Past the bound the product wraps: any opening record of such an interval and
      tolerance, followed by a heartbeat the longest gap later, obeys the rule and
      is rejected. */
  lemma HeartbeatWrapsPastBound(w: World, open: Record, beat: Record)
    requires open.payload.hmax > 0 && open.payload.hmax + open.payload.htol > MAX_SECONDS
    requires beat.payload.typ == Heartbeat && LongestGap(w, open.payload.ts, beat.payload.ts)
    ensures HeartbeatRule(w, [open, beat]) && !HeartbeatOK(w, [open, beat])
  {
    var rs := [open, beat];
    assert WithinSeconds(w, rs, 1, open.payload.hmax + open.payload.htol);
    assert rs[1].payload.typ == Heartbeat;
    LongGapRejected(w, rs, 1);
  }

  lemma WrapOfEven(y: int)
    ensures Wrap64(2 * y) % 2 == 0
  {
    var q := (2 * y + TWO_63) / TWO_64;
    assert Wrap64(2 * y) == 2 * (y - q * TWO_63);
  }

  /** The wrapped limit is even, so it never reaches the saturated difference. */
  lemma LimitBelowMax(hmax: int, htol: int)
    ensures HeartbeatLimit(hmax, htol) < MAX_INT64
  {
    var y := Wrap64(hmax + htol) * 500_000_000;
    assert Wrap64(hmax + htol) * NANOS_PER_SECOND == 2 * y;
    WrapOfEven(y);
  }

  /** The check agrees with the rule on every loaded log of an interval and tolerance. */
  ghost predicate ChecksRule(w: World, keys: map<string, Bytes>, hmax: int, htol: int) {
    forall rs: seq<Record> ::
      && rs != [] && rs[0].payload.hmax == hmax && rs[0].payload.htol == htol
      && (forall r :: r in rs ==> Loaded(w, keys, r))
      ==> (HeartbeatOK(w, rs) <==> HeartbeatRule(w, rs))
  }

  /** Exactly when the check means what it says on the logs that can be loaded:
      `open` and `beat` are any two loaded records that express the longest gap. */
  lemma HeartbeatExactIff(w: World, keys: map<string, Bytes>, open: Record, beat: Record)
    requires Loaded(w, keys, open) && Loaded(w, keys, beat)
    requires open.payload.hmax > 0 && open.payload.htol >= 0
    requires beat.payload.typ == Heartbeat && LongestGap(w, open.payload.ts, beat.payload.ts)
    ensures ChecksRule(w, keys, open.payload.hmax, open.payload.htol) <==> open.payload.hmax + open.payload.htol <= 9_223_372_036
  {
    var hmax, htol := open.payload.hmax, open.payload.htol;
    if hmax + htol <= MAX_SECONDS {
      forall rs: seq<Record> | rs != [] && rs[0].payload.hmax == hmax && rs[0].payload.htol == htol
        ensures HeartbeatOK(w, rs) <==> HeartbeatRule(w, rs)
      {
        HeartbeatExactWithinBound(w, rs);
      }
    } else {
      HeartbeatWrapsPastBound(w, open, beat);
      assert [open, beat][0] == open;
    }
  }

  /** The wrap only rejects: whatever the interval and tolerance, a log that
      passes the check obeys the rule. */
  lemma HeartbeatNeverLenient(w: World, rs: seq<Record>)
    requires HeartbeatOK(w, rs)
    requires rs[0].payload.hmax <= MAX_SAFE_INTEGER && 0 <= rs[0].payload.htol <= MAX_SAFE_INTEGER
    ensures HeartbeatRule(w, rs)
  {
    var hmax, htol := rs[0].payload.hmax, rs[0].payload.htol;
    if hmax > 0 {
      if hmax + htol <= MAX_SECONDS {
        HeartbeatExactWithinBound(w, rs);
      } else {
        LimitBelowMax(hmax, htol);
        var seconds, limit := hmax + htol, HeartbeatLimit(hmax, htol);
        forall i | 1 <= i < |rs|
          ensures WithinSeconds(w, rs, i, seconds)
        {
          assert SpacingOK(w, rs, i, limit);
        }
      }
    }
  }

  /** Passing within the bound limits the whole run: no more than the interval
      times the number of steps passes between the first and the last record. */
  lemma {:induction false} HeartbeatBoundsDuration(w: World, rs: seq<Record>, seconds: int, n: nat)
    requires n < |rs| && 2 <= |rs|
    requires AllWithinSeconds(w, rs, seconds)
    ensures w.time(rs[0].payload.ts).Some? && w.time(rs[n].payload.ts).Some?
    ensures w.time(rs[0].payload.ts).value <= w.time(rs[n].payload.ts).value
    ensures w.time(rs[n].payload.ts).value - w.time(rs[0].payload.ts).value <= n * (seconds * NANOS_PER_SECOND)
  {
    if n == 0 {
      assert WithinSeconds(w, rs, 1, seconds);
    } else {
      HeartbeatBoundsDuration(w, rs, seconds, n - 1);
      assert WithinSeconds(w, rs, n, seconds);
      assert n * (seconds * NANOS_PER_SECOND) == (n - 1) * (seconds * NANOS_PER_SECOND) + seconds * NANOS_PER_SECOND;
    }
  }

  /** So a log that passes the check within the bound spans at most the permitted
      spacing times the number of its steps. */
  lemma HeartbeatLimitsRun(w: World, rs: seq<Record>)
    requires HeartbeatOK(w, rs) && rs[0].payload.hmax > 0
    requires -MAX_SECONDS <= rs[0].payload.hmax + rs[0].payload.htol <= MAX_SECONDS
    ensures w.time(rs[0].payload.ts).Some? && w.time(rs[|rs| - 1].payload.ts).Some?
    ensures var seconds := rs[0].payload.hmax + rs[0].payload.htol;
            0 <= w.time(rs[|rs| - 1].payload.ts).value - w.time(rs[0].payload.ts).value <= (|rs| - 1) * (seconds * NANOS_PER_SECOND)
  {
    HeartbeatExactWithinBound(w, rs);
    HeartbeatBoundsDuration(w, rs, rs[0].payload.hmax + rs[0].payload.htol, |rs| - 1);
  }

  // ----- Redundancies of the table -----

  /** Checks a, b, e, f, g, h and i already make every log satisfy the first rung
      on its own. */
  lemma FirstRungMakesRecordersOK(w: World, art: Artifact, l: Log)
    requires RungOK(w, art, 0) && RungOK(w, art, 1) && l in art.logs
    ensures RecorderOK(w, l.records)
  {
    var rs := l.records;
    RungZeroRecords(w, art, l);
    RungOneLogs(w, art);
    RecorderFromChecks(w, rs);
  }

  lemma RungZeroRecords(w: World, art: Artifact, l: Log)
    requires RungOK(w, art, 0) && l in art.logs
    ensures LinksOK(l.records) && forall i :: 0 <= i < |l.records| ==> AuthenticOK(l.records[i])
  {
    assert Passes(w, art, E) && Passes(w, art, B);
    forall i | 0 <= i < |l.records|
      ensures AuthenticOK(l.records[i])
    {
      InAllRecords(art.logs, l.records[i]);
    }
  }

  lemma RungOneLogs(w: World, art: Artifact)
    requires RungOK(w, art, 1)
    ensures AllOpen(art.logs) && AllContiguous(art.logs) && AllHeartbeat(w, art.logs) && AllClose(art.logs)
  {
    assert Passes(w, art, F) && Passes(w, art, G) && Passes(w, art, H) && Passes(w, art, I);
  }

  lemma RecorderFromChecks(w: World, rs: seq<Record>)
    requires LinksOK(rs) && OpenOK(rs) && ContiguousOK(rs) && HeartbeatOK(w, rs) && CloseOK(rs)
    requires forall i :: 0 <= i < |rs| ==> AuthenticOK(rs[i])
    ensures RecorderOK(w, rs)
  {
    forall i | 0 <= i < |rs|
      ensures ChainedAt(rs, i)
    {
      assert LinkedAt(rs, i);
    }
  }

  /** So, given the first rung, check k is only a head count. */
  lemma TwoRecordersIsAHeadCount(w: World, art: Artifact, run: string)
    requires IsView(art, run) && RungOK(w, art, 0) && RungOK(w, art, 1)
    ensures Passes(w, art, K) <==> |art.logs| >= 2
  {
    ViewLogs(art, run);
    forall l | l in art.logs
      ensures RecorderOK(w, l.records)
    {
      FirstRungMakesRecordersOK(w, art, l);
    }
  }

  /** The open-run cap never lowers a grade: an open end already fails check i. */
  lemma OpenEndFailsClose(w: World, art: Artifact)
    requires !Passes(w, art, J)
    ensures !Passes(w, art, I)
  {
    var l :| l in art.logs && EndsOpen(l.records);
    assert !CloseOK(l.records);
  }

  // ----- Rung two -----

  ghost predicate KeysPairwiseDistinct(logs: seq<Log>) {
    forall i, j :: 0 <= i < j < |logs| && logs[i].records != [] && logs[j].records != [] ==>
      FirstKey(logs[i]) != FirstKey(logs[j])
  }

  /** Rung two means: recorder ids are pairwise distinct, each log has one
      verified signing key, those keys are pairwise distinct, and every two logs
      cover the same event ids. */
  lemma SecondRungMeaning(w: World, art: Artifact, run: string)
    requires IsView(art, run) && EarnsThrough(w, art, 2)
    ensures |art.logs| >= 2 && IdsDistinct(art.logs)
    ensures forall l :: l in art.logs ==> HasKey(l)
    ensures KeysPairwiseDistinct(art.logs)
    ensures art.manifest.correspondence.Some?
    ensures var classes := StringSet(art.manifest.correspondence.value.classes);
            forall l, m :: l in art.logs && m in art.logs ==> CoveredEvents(l.records, classes) == CoveredEvents(m.records, classes)
  {
    ViewLogs(art, run);
    assert KeysDifferOK(art.logs) by { Earned(w, art, 2, 2, L); }
    assert CrossAuditOK(art) by { Earned(w, art, 2, 2, M); }
    KeysDifferMakesIdsDistinct(art.logs);
    DistinctIdsDetermineLogs(art.logs);
    KeysDifferPairwise(art.logs);
    var classes := StringSet(art.manifest.correspondence.value.classes);
    forall l, m | l in art.logs && m in art.logs
      ensures CoveredEvents(l.records, classes) == CoveredEvents(m.records, classes)
    {
      CrossAuditBothWays(art.logs, classes, l, m);
    }
  }

  lemma KeysDifferPairwise(logs: seq<Log>)
    requires KeysDifferOK(logs) && OneLogPerId(logs)
    ensures KeysPairwiseDistinct(logs)
  {
    forall i, j | 0 <= i < j < |logs| && logs[i].records != [] && logs[j].records != []
      ensures FirstKey(logs[i]) != FirstKey(logs[j])
    {
      assert LastWithId(logs, logs[i].id).value == logs[i];
      assert LastWithId(logs, logs[j].id).value == logs[j];
    }
  }

  lemma CrossAuditBothWays(logs: seq<Log>, classes: set<string>, l: Log, m: Log)
    requires CrossAudited(logs, classes) && OneLogPerId(logs) && l in logs && m in logs
    ensures CoveredEvents(l.records, classes) == CoveredEvents(m.records, classes)
  {
    assert LastWithId(logs, l.id).value == l && LastWithId(logs, m.id).value == m;
    forall id
      ensures id in CoveredEvents(l.records, classes) <==> id in CoveredEvents(m.records, classes)
    {
    }
  }

  // ----- Rung four -----

  /** Rung four means: the run has a statement; every statement of the run is
      verified, carries the one nonce all opening records agree on, and holds
      exactly one of a received event id and an explicit nothing; the event ids
      recorded as leaving through the declared flows are exactly the confirmed
      ones; and the counterparty's key is no recorder's. */
  lemma FourthRungMeaning(w: World, art: Artifact, run: string) returns (nonce: string)
    requires IsView(art, run) && EarnsThrough(w, art, 4)
    ensures RunNonce(art.logs, run, nonce)
    ensures StatementsForRun(art.statements, run) != []
    ensures forall s :: s in StatementsForRun(art.statements, run) ==> StatementVerified(s) && Bound(s, run, nonce)
    ensures art.manifest.counterparty.Some?
    ensures RecordedOut(AllRecords(art.logs), Flows(art)) == ConfirmedIn(StatementsForRun(art.statements, run), Flows(art))
    ensures forall l :: l in art.logs ==> HasKey(l) && FirstKey(l) != ToLower(art.manifest.counterparty.value.key)
  {
    ViewLogs(art, run);
    assert RungOK(w, art, 4);
    RungFourStatements(w, art);
    RungFourAudit(w, art);
    nonce := CounterpartyMeaning(art);
  }

  lemma RungFourStatements(w: World, art: Artifact)
    requires RungOK(w, art, 4)
    ensures CounterpartySignaturesOK(art) && CounterpartyBindingOK(art)
  {
    assert Passes(w, art, R) && Passes(w, art, S);
  }

  lemma RungFourAudit(w: World, art: Artifact)
    requires RungOK(w, art, 4)
    ensures CounterpartyAuditOK(art) && KeyIndependent(LogsForRun(art), ToLower(art.manifest.counterparty.value.key))
  {
    assert Passes(w, art, T) && Passes(w, art, V);
  }

  lemma CounterpartyMeaning(art: Artifact) returns (nonce: string)
    requires CounterpartySignaturesOK(art) && CounterpartyBindingOK(art) && CounterpartyAuditOK(art)
    ensures RunNonce(LogsForRun(art), ArtifactRun(art), nonce)
    ensures RunStatements(art) != []
    ensures forall s :: s in RunStatements(art) ==> StatementVerified(s) && Bound(s, ArtifactRun(art), nonce)
    ensures RecordedOut(AllRecords(art.logs), Flows(art)) == ConfirmedIn(RunStatements(art), Flows(art))
  {
    nonce :| RunNonce(LogsForRun(art), ArtifactRun(art), nonce) && AllBound(RunStatements(art), ArtifactRun(art), nonce);
  }

  // ----- The id a receipt carries and the id that is counted -----

  /** The statement's receipt carries this event id. */
  predicate Receives(s: Statement, id: string) {
    s.receipt.Some? && s.receipt.value.received == Some(Some(id))
  }

  /** A valid receipt's id is the one counted as confirmed exactly when the stored
      member is spelled `event_id`; under another letter case it is not counted. */
  lemma ReceiptCountedIff(s: Statement, flows: set<string>, id: string)
    requires LoadedStatement(s) && !s.lineErr && !s.parseErr && s.schemaOK
    requires ReceiptOK(s.receipt) && Receives(s, id)
    ensures Confirms(s, flows) <==> s.payload.flow in flows && EVENT_ID in s.payload.received
    ensures Confirms(s, flows) ==> s.payload.received[EVENT_ID] == id
  {
    var body :| ReadsBody(s, body);
  }

  /** A confirmation is a receipt of that id. */
  lemma ConfirmedIsReceived(s: Statement, flows: set<string>)
    requires LoadedStatement(s) && !s.lineErr && !s.parseErr && s.schemaOK && Confirms(s, flows)
    ensures Receives(s, s.payload.received[EVENT_ID])
  {
    var body :| ReadsBody(s, body);
  }

  /** Rung four in terms of receipts: every event recorded as leaving through a
      declared flow is in the receipt of a statement of such a flow, and every
      receipt of such a flow that spells the member exactly is for a recorded
      event. */
  lemma FourthRungReceipts(w: World, art: Artifact, run: string)
    requires IsView(art, run) && EarnsThrough(w, art, 4)
    requires forall s :: s in art.statements ==> LoadedStatement(s)
    ensures art.manifest.counterparty.Some?
    ensures var flows, statements := Flows(art), StatementsForRun(art.statements, run);
            && (forall id :: id in RecordedOut(AllRecords(art.logs), flows) ==>
                  exists s :: s in statements && s.payload.flow in flows && Receives(s, id))
            && forall s, id :: s in statements && s.payload.flow in flows && EVENT_ID in s.payload.received && Receives(s, id) ==>
                 id in RecordedOut(AllRecords(art.logs), flows)
  {
    var nonce := FourthRungMeaning(w, art, run);
    ReceiptsCorrespond(StatementsForRun(art.statements, run), Flows(art), run, nonce);
  }

  lemma ReceiptsCorrespond(statements: seq<Statement>, flows: set<string>, run: string, nonce: string)
    requires forall s :: s in statements ==> LoadedStatement(s) && s.schemaOK && Bound(s, run, nonce)
    ensures forall id :: id in ConfirmedIn(statements, flows) ==>
              exists s :: s in statements && s.payload.flow in flows && Receives(s, id)
    ensures forall s, id :: s in statements && s.payload.flow in flows && EVENT_ID in s.payload.received && Receives(s, id) ==>
              id in ConfirmedIn(statements, flows)
  {
    forall id | id in ConfirmedIn(statements, flows)
      ensures exists s :: s in statements && s.payload.flow in flows && Receives(s, id)
    {
      var s :| s in statements && Confirms(s, flows) && s.payload.received[EVENT_ID] == id;
      ConfirmedIsReceived(s, flows);
    }
    forall s, id | s in statements && s.payload.flow in flows && EVENT_ID in s.payload.received && Receives(s, id)
      ensures id in ConfirmedIn(statements, flows)
    {
      ReceiptCountedIff(s, flows, id);
    }
  }

  /** The spelling does matter: a loaded, valid receipt that is not counted. */
  lemma MisspelledReceiptNotCounted(s: Statement, id: string, flows: set<string>)
    requires id != ""
    ensures var odd := s.(payload := s.payload.(received := map["EVENT_ID" := id], none := false),
                          receipt := Some(Receipt(Some(Some(id)), None)));
            LoadedStatement(odd) && ReceiptOK(odd.receipt) && Receives(odd, id) && !Confirms(odd, flows)
  {
    var members := map["EVENT_ID" := id];
    var odd := s.(payload := s.payload.(received := members, none := false), receipt := Some(Receipt(Some(Some(id)), None)));
    assert "EVENT_ID"[0] != EVENT_ID[0];
    assert ToLower("EVENT_ID") == EVENT_ID;
    assert "EVENT_ID" in members && ReceiptId(members, id);
    assert ReadsBody(odd, StatementBody(ObjectMember(members), None));
  }
}
