/** What the hash chain and the close record pin down: the boundary of the two
    lowest rungs. */
module Chain {
  import opened Basics
  import opened Records
  import opened Evidence

  /** A readable record's hash and payload are functions of its stored bytes. */
  ghost predicate Derived(w: World, r: Record) {
    !r.lineErr ==> r.hash == Hex(w.sha(r.raw)) && r.payload == w.decode(r.raw).payload
  }

  ghost predicate AllDerived(w: World, rs: seq<Record>) {
    forall r :: r in rs ==> Derived(w, r)
  }

  function Raws(rs: seq<Record>): set<Bytes> {
    set r | r in rs :: r.raw
  }

  /** The first `n` records of both logs store the same bytes. */
  ghost predicate SameBytes(rs: seq<Record>, rs': seq<Record>, n: nat) {
    n <= |rs| && n <= |rs'| && forall i :: 0 <= i < n ==> rs[i].raw == rs'[i].raw
  }

  /** The two logs are the same byte for byte. */
  ghost predicate SameLog(rs: seq<Record>, rs': seq<Record>) {
    |rs| == |rs'| && SameBytes(rs, rs', |rs|)
  }

  lemma {:induction false} InAllRecords(logs: seq<Log>, r: Record)
    ensures r in AllRecords(logs) <==> exists l :: l in logs && r in l.records
  {
    if logs != [] {
      var init, last := logs[..|logs| - 1], logs[|logs| - 1];
      InAllRecords(init, r);
      assert logs == init + [last];
      if l :| l in logs && r in l.records {
        assert l in init || l == last;
      }
    }
  }

  // ----- The chain backwards -----

  lemma SameHashSameRaw(w: World, rs: seq<Record>, rs': seq<Record>, i: nat, j: nat)
    requires AllDerived(w, rs) && AllDerived(w, rs')
    requires i < |rs| && j < |rs'| && Readable(rs[i]) && Readable(rs'[j])
    requires rs[i].hash == rs'[j].hash
    ensures rs[i].raw == rs'[j].raw || CollisionBetween(w.sha, Raws(rs), Raws(rs'))
  {
    var r, r' := rs[i], rs'[j];
    assert Derived(w, r) && Derived(w, r');
    HexInjective(w.sha(r.raw), w.sha(r'.raw));
    assert r.raw in Raws(rs) && r'.raw in Raws(rs');
  }

  /** Two linked logs that store the same bytes at position `k` store the same
      bytes at every earlier position, or exhibit a collision. */
  lemma {:induction false} SameHistory(w: World, rs: seq<Record>, rs': seq<Record>, k: nat)
    requires LinksOK(rs) && LinksOK(rs') && AllDerived(w, rs) && AllDerived(w, rs')
    requires k < |rs| && k < |rs'| && rs[k].raw == rs'[k].raw
    ensures || SameBytes(rs, rs', k + 1)
            || CollisionBetween(w.sha, Raws(rs), Raws(rs'))
  {
    if k > 0 {
      assert Derived(w, rs[k]) && Derived(w, rs'[k]);
      assert LinkedAt(rs, k) && LinkedAt(rs', k) && LinkedAt(rs, k - 1) && LinkedAt(rs', k - 1);
      SameHashSameRaw(w, rs, rs', k - 1, k - 1);
      if rs[k - 1].raw == rs'[k - 1].raw {
        SameHistory(w, rs, rs', k - 1);
      }
    }
  }

  // ----- Rung one: the close record is rigid -----

  /** The only sequence drawn from a closed, contiguous log's own records, in any
      order and with any repeats or omissions, that is again closed and
      contiguous, is the log itself. */
  lemma ClosedLogIsRigid(rs: seq<Record>, drawn: seq<Record>)
    requires ContiguousOK(rs) && CloseOK(rs)
    requires forall r :: r in drawn ==> r in rs
    requires ContiguousOK(drawn) && CloseOK(drawn)
    ensures drawn == rs
  {
    var last := drawn[|drawn| - 1];
    assert last in rs;
    var k :| 0 <= k < |rs| && rs[k] == last;
    assert k == |rs| - 1;
    forall i | 0 <= i < |drawn|
      ensures drawn[i] == rs[i]
    {
      assert drawn[i] in rs;
      var j :| 0 <= j < |rs| && rs[j] == drawn[i];
      assert j == i;
    }
  }

  /** Two linked, closed logs with one close payload are the same log byte for
      byte, or exhibit a collision. */
  lemma CloseCommitsToHistory(w: World, rs: seq<Record>, rs': seq<Record>)
    requires LinksOK(rs) && LinksOK(rs') && AllDerived(w, rs) && AllDerived(w, rs')
    requires CloseOK(rs) && CloseOK(rs')
    requires rs[|rs| - 1].raw == rs'[|rs'| - 1].raw
    ensures SameLog(rs, rs') || CollisionBetween(w.sha, Raws(rs), Raws(rs'))
  {
    var n := |rs|;
    assert Derived(w, rs[n - 1]) && Derived(w, rs'[|rs'| - 1]);
    assert LinkedAt(rs, n - 1) && LinkedAt(rs', |rs'| - 1);
    assert |rs'| == n;
    SameHistory(w, rs, rs', n - 1);
  }

  // ----- Rung zero: exactly the prefixes survive -----

  lemma {:induction false} SequenceNumbersIncrease(log: Log, i: nat, j: nat)
    requires OrderOK(log) && i < j < |log.records|
    ensures log.records[i].payload.seqno < log.records[j].payload.seqno
    decreases j
  {
    assert OrderedAt(log, j);
    if i < j - 1 {
      SequenceNumbersIncrease(log, i, j - 1);
    }
  }

  /** Some record of the log hashes to the all-zero predecessor. */
  ghost predicate ZeroPreimage(w: World, rs: seq<Record>) {
    exists r :: r in rs && Hex(w.sha(r.raw)) == ZeroPrev()
  }

  /** In an ordered, linked log two positions with one hash are one position, or
      exhibit a collision. */
  lemma HashPinsPosition(w: World, log: Log, i: nat, j: nat)
    requires OrderOK(log) && LinksOK(log.records) && AllDerived(w, log.records)
    requires i < |log.records| && j < |log.records| && log.records[i].hash == log.records[j].hash
    ensures i == j || CollisionBetween(w.sha, Raws(log.records), Raws(log.records))
  {
    var rs := log.records;
    assert LinkedAt(rs, i) && LinkedAt(rs, j);
    SameHashSameRaw(w, rs, rs, i, j);
    if i != j && rs[i].raw == rs[j].raw {
      assert Derived(w, rs[i]) && Derived(w, rs[j]);
      if i < j {
        SequenceNumbersIncrease(log, i, j);
      } else {
        SequenceNumbersIncrease(log, j, i);
      }
    }
  }

  /** One step of a relinked selection: after the record at `j - 1` only the
      record at `j` can follow. */
  lemma OnlySuccessorRelinks(w: World, log: Log, j: nat, next: Record)
    requires OrderOK(log) && LinksOK(log.records) && AllDerived(w, log.records)
    requires j <= |log.records| && next in log.records
    requires next.payload.prev == if j == 0 then ZeroPrev() else log.records[j - 1].hash
    ensures || (j < |log.records| && next == log.records[j])
            || CollisionBetween(w.sha, Raws(log.records), Raws(log.records))
            || ZeroPreimage(w, log.records)
  {
    var rs := log.records;
    var i :| 0 <= i < |rs| && rs[i] == next;
    assert LinkedAt(rs, i);
    if i > 0 && j > 0 {
      HashPinsPosition(w, log, i - 1, j - 1);
    } else if i > 0 {
      assert LinkedAt(rs, i - 1) && Derived(w, rs[i - 1]) && rs[i - 1] in rs;
    } else if j > 0 {
      assert LinkedAt(rs, j - 1) && Derived(w, rs[j - 1]) && rs[j - 1] in rs;
    }
  }

  /** Of all non-empty sequences drawn from an ordered, linked log's records, in
      any order and with any repeats, exactly the prefixes pass the link check,
      unless the log exhibits a collision or a preimage of the zero hash. This
      covers interior deletion, transposition and replay at once. */
  lemma {:induction false} ExactlyPrefixesRelink(w: World, log: Log, drawn: seq<Record>)
    requires OrderOK(log) && LinksOK(log.records) && AllDerived(w, log.records)
    requires drawn != [] && forall r :: r in drawn ==> r in log.records
    ensures drawn <= log.records ==> LinksOK(drawn)
    ensures LinksOK(drawn) ==>
              || drawn <= log.records
              || CollisionBetween(w.sha, Raws(log.records), Raws(log.records))
              || ZeroPreimage(w, log.records)
    decreases |drawn|
  {
    if drawn <= log.records {
      forall i | 0 <= i < |drawn|
        ensures LinkedAt(drawn, i)
      {
        assert LinkedAt(log.records, i) && drawn[i] == log.records[i];
        assert i > 0 ==> drawn[i - 1] == log.records[i - 1];
      }
    } else if LinksOK(drawn) {
      var j := |drawn| - 1;
      var init, last := drawn[..j], drawn[j];
      assert drawn == init + [last];
      assert LinkedAt(drawn, j);
      if j > 0 {
        forall i | 0 <= i < |init|
          ensures LinkedAt(init, i)
        {
          assert LinkedAt(drawn, i);
        }
        ExactlyPrefixesRelink(w, log, init);
      }
      if init <= log.records {
        OnlySuccessorRelinks(w, log, j, last);
      }
    }
  }

  // ----- Truncation, artifact-wide -----

  /** The artifact with the tail of one log cut off. */
  function Truncate(art: Artifact, k: nat, n: nat): Artifact
    requires k < |art.logs| && n <= |art.logs[k].records|
  {
    art.(logs := art.logs[k := art.logs[k].(records := art.logs[k].records[..n])])
  }

  lemma TruncationDrawsRecords(art: Artifact, k: nat, n: nat, r: Record)
    requires k < |art.logs| && n <= |art.logs[k].records|
    requires r in AllRecords(Truncate(art, k, n).logs)
    ensures r in AllRecords(art.logs)
  {
    var cut := Truncate(art, k, n);
    InAllRecords(cut.logs, r);
    InAllRecords(art.logs, r);
    var l :| l in cut.logs && r in l.records;
    var i :| 0 <= i < |cut.logs| && cut.logs[i] == l;
    assert art.logs[i] in art.logs && r in art.logs[i].records;
  }

  lemma TruncationKeepsLogs(art: Artifact, k: nat, n: nat, l: Log)
    requires k < |art.logs| && 0 < n <= |art.logs[k].records|
    requires forall m :: m in art.logs ==> OrderOK(m) && LinksOK(m.records)
    requires l in Truncate(art, k, n).logs
    ensures OrderOK(l) && LinksOK(l.records)
  {
    var cut := Truncate(art, k, n);
    var i :| 0 <= i < |cut.logs| && cut.logs[i] == l;
    assert art.logs[i] in art.logs;
    if i == k {
      TruncationKeepsLog(art.logs[k], n);
    }
  }

  /** Tail truncation is silent at rung zero: cut any log at any non-empty point
      and every rung-zero check still passes. */
  lemma TruncationSilentAtRungZero(w: World, art: Artifact, k: nat, n: nat)
    requires k < |art.logs| && 0 < n <= |art.logs[k].records|
    requires RungOK(w, art, 0)
    ensures RungOK(w, Truncate(art, k, n), 0)
  {
    assert Passes(w, art, A) && Passes(w, art, B) && Passes(w, art, D) && Passes(w, art, E) && Passes(w, art, W);
    TruncationKeepsRecordChecks(w, art, k, n);
    TruncationKeepsLogChecks(w, art, k, n);
  }

  lemma TruncationKeepsRecordChecks(w: World, art: Artifact, k: nat, n: nat)
    requires k < |art.logs| && 0 < n <= |art.logs[k].records|
    requires Passes(w, art, A) && Passes(w, art, B) && Passes(w, art, W)
    ensures var cut := Truncate(art, k, n); Passes(w, cut, A) && Passes(w, cut, B) && Passes(w, cut, W)
  {
    var cut := Truncate(art, k, n);
    forall r | r in AllRecords(cut.logs)
      ensures r in AllRecords(art.logs)
    {
      TruncationDrawsRecords(art, k, n, r);
    }
    assert AllRecords(cut.logs) != [] by {
      assert cut.logs[k] in cut.logs && cut.logs[k].records[0] in cut.logs[k].records;
      InAllRecords(cut.logs, cut.logs[k].records[0]);
    }
  }

  lemma TruncationKeepsLogChecks(w: World, art: Artifact, k: nat, n: nat)
    requires k < |art.logs| && 0 < n <= |art.logs[k].records|
    requires Passes(w, art, D) && Passes(w, art, E)
    ensures var cut := Truncate(art, k, n); Passes(w, cut, D) && Passes(w, cut, E)
  {
    var cut := Truncate(art, k, n);
    forall l | l in cut.logs
      ensures OrderOK(l) && LinksOK(l.records)
    {
      TruncationKeepsLogs(art, k, n, l);
    }
  }

  lemma TruncationKeepsLog(log: Log, n: nat)
    requires OrderOK(log) && LinksOK(log.records) && 0 < n <= |log.records|
    ensures OrderOK(log.(records := log.records[..n])) && LinksOK(log.records[..n])
  {
    var rs, cut := log.records, log.records[..n];
    forall i | 0 <= i < n
      ensures LinkedAt(cut, i) && OrderedAt(log.(records := cut), i)
    {
      assert LinkedAt(rs, i) && OrderedAt(log, i);
    }
  }

  /** The same cut is visible at rung one: any proper truncation of a closed log
      loses its close record. */
  lemma TruncationEvidentAtRungOne(w: World, art: Artifact, k: nat, n: nat)
    requires k < |art.logs| && n < |art.logs[k].records|
    requires Passes(w, art, I)
    ensures !Passes(w, Truncate(art, k, n), I)
  {
    var cut := Truncate(art, k, n);
    var rs := art.logs[k].records;
    assert CloseOK(rs);
    assert cut.logs[k] in cut.logs;
    if n >= 1 {
      assert cut.logs[k].records[n - 1] == rs[n - 1];
    }
  }
}
