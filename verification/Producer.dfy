/** The honest producer's record builder, and why the checker accepts its logs. */
module Producer {
  import opened Basics
  import opened Records
  import opened Evidence
  import opened Rungs
  import opened KeyOrder
  import opened Json
  import opened Wire

  /** One planned record. The extra members override what the builder writes. */
  datatype Plan = Plan(typ: string, ts: string, seqno: Option<int>, extra: Members, patch: Option<Bytes -> Bytes>)

  datatype SignedRecord = SignedRecord(payload: Bytes, sig: Bytes)

  /** The signer, uninterpreted. */
  type Signer = Bytes -> Bytes

  datatype Identity = Identity(run: string, recorder: string, fingerprint: string)

  function Or<T>(o: Option<T>, d: T): T {
    if o.Some? then o.value else d
  }

  /** The members the builder writes into every payload. */
  predicate IsBase(n: Name) {
    n.NameV? || n.NameType? || n.NameRun? || n.NameRecorder? || n.NameKey? || n.NameSeq? || n.NamePrev? || n.NameTs?
  }

  /** What the builder writes for a member. */
  function BaseValue(n: Name, who: Identity, plan: Plan, i: nat, prev: string): Value {
    match n
    case NameV => Int(1)
    case NameType => Str(TextOf(plan.typ))
    case NameRun => Str(TextOf(who.run))
    case NameRecorder => Str(TextOf(who.recorder))
    case NameKey => Str(TextOf(who.fingerprint))
    case NameSeq => Int(Or(plan.seqno, i))
    case NamePrev => Str(TextOf(prev))
    case NameTs => Str(TextOf(plan.ts))
    case _ => Null
  }

  function BaseMembers(sp: Spellings, who: Identity, plan: Plan, i: nat, prev: string): Members
    requires DistinctNames(sp)
  {
    map n | n in {NameV, NameType, NameRun, NameRecorder, NameKey, NameSeq, NamePrev, NameTs} :: sp(n) := BaseValue(n, who, plan, i, prev)
  }

  lemma BaseMembersAre(sp: Spellings, who: Identity, plan: Plan, i: nat, prev: string, n: Name)
    requires DistinctNames(sp)
    ensures var ms := BaseMembers(sp, who, plan, i, prev);
            if IsBase(n) then sp(n) in ms && ms[sp(n)] == BaseValue(n, who, plan, i, prev) else sp(n) !in ms
  {
  }

  lemma BaseKeysAreNames(sp: Spellings, who: Identity, plan: Plan, i: nat, prev: string, k: Text)
    requires DistinctNames(sp) && k in BaseMembers(sp, who, plan, i, prev)
    ensures exists n: Name :: IsBase(n) && sp(n) == k
  {
  }

  /** Add a member unless it is there. */
  function Default(ms: Members, key: Text, v: Value): Members {
    if key in ms then ms else ms[key := v]
  }

  /** The members planned at position `i` of `n`, after a record hashing to `prev`. */
  function PlannedMembers(sp: Spellings, who: Identity, plan: Plan, i: nat, n: nat, prev: string): Members
    requires DistinctNames(sp)
  {
    var ms := BaseMembers(sp, who, plan, i, prev) + plan.extra;
    if plan.typ == "close" then Default(Default(ms, sp(NameCount), Int(n)), sp(NameHead), Str(TextOf(prev))) else ms
  }

  function PrevOf(sha: HashFn, out: seq<SignedRecord>, i: nat): string
    requires i <= |out|
  {
    if i == 0 then ZeroPrev() else Hex(sha(out[i - 1].payload))
  }

  /** The payload built for a plan. */
  function PlanValue(who: Identity, plan: Plan, i: nat, n: nat, prev: string): Value {
    StandardNamesDiffer();
    Obj(PlannedMembers(StandardNames(), who, plan, i, n, prev))
  }

  function ValueAt(sha: HashFn, who: Identity, plans: seq<Plan>, out: seq<SignedRecord>, i: nat): Value
    requires i <= |out| && i < |plans|
  {
    PlanValue(who, plans[i], i, |plans|, PrevOf(sha, out, i))
  }

  /** Record `i` of the output: encoded after its predecessor, patched, signed. */
  ghost predicate BuiltAt(sha: HashFn, sign: Signer, who: Identity, plans: seq<Plan>, out: seq<SignedRecord>, i: nat)
    requires i < |out| && i < |plans|
  {
    var v := ValueAt(sha, who, plans, out, i);
    var stored := if plans[i].patch.Some? then plans[i].patch.value(Encoded(v)) else Encoded(v);
    InRange(v) && out[i] == SignedRecord(stored, sign(stored))
  }

  /** The output is a record for each of the first plans. */
  ghost predicate BuiltFrom(sha: HashFn, sign: Signer, who: Identity, plans: seq<Plan>, out: seq<SignedRecord>) {
    |out| <= |plans| && forall i :: 0 <= i < |out| ==> BuiltAt(sha, sign, who, plans, out, i)
  }

  /** All plans are built, or the first that cannot be encoded stops the builder. */
  method BuildRecords(sha: HashFn, sign: Signer, who: Identity, plans: seq<Plan>) returns (out: seq<SignedRecord>, ok: bool)
    ensures BuiltFrom(sha, sign, who, plans, out)
    ensures ok ==> |out| == |plans|
    ensures !ok ==> |out| < |plans| && !InRange(ValueAt(sha, who, plans, out, |out|))
  {
    out := [];
    var prev := ZeroPrev();
    for i := 0 to |plans|
      invariant |out| == i && prev == PrevOf(sha, out, i)
      invariant BuiltFrom(sha, sign, who, plans, out)
    {
      var encoded := EncodeValue(PlanValue(who, plans[i], i, |plans|, prev));
      if encoded.None? {
        return out, false;
      }
      var raw := encoded.value;
      if plans[i].patch.Some? {
        raw := plans[i].patch.value(raw);
      }
      BuiltFromAppend(sha, sign, who, plans, out, SignedRecord(raw, sign(raw)));
      out := out + [SignedRecord(raw, sign(raw))];
      prev := Hex(sha(raw));
    }
    return out, true;
  }

  lemma BuiltAtExtends(sha: HashFn, sign: Signer, who: Identity, plans: seq<Plan>, out: seq<SignedRecord>, next: SignedRecord, k: nat)
    requires k < |out| && k < |plans| && BuiltAt(sha, sign, who, plans, out, k)
    ensures BuiltAt(sha, sign, who, plans, out + [next], k)
  {
    assert PrevOf(sha, out + [next], k) == PrevOf(sha, out, k);
  }

  lemma BuiltFromAppend(sha: HashFn, sign: Signer, who: Identity, plans: seq<Plan>, out: seq<SignedRecord>, next: SignedRecord)
    requires BuiltFrom(sha, sign, who, plans, out) && |out| < |plans|
    requires BuiltAt(sha, sign, who, plans, out + [next], |out|)
    ensures BuiltFrom(sha, sign, who, plans, out + [next])
  {
    forall k | 0 <= k < |out|
      ensures BuiltAt(sha, sign, who, plans, out + [next], k)
    {
      BuiltAtExtends(sha, sign, who, plans, out, next, k);
    }
  }

  // ----- The built log passes -----

  /** Signing yields what verification accepts. */
  ghost predicate Signs(w: World, sign: Signer, public: Bytes) {
    forall m :: |sign(m)| == SIGNATURE_SIZE && w.verify(public, m, sign(m))
  }

  /** The plan sets nothing the builder writes, is not patched, and its extra
      members have the types they are decoded as. */
  ghost predicate NoOverrides(sp: Spellings, p: Plan) {
    && p.seqno.None? && p.patch.None? && LeavesBase(sp, p.extra)
    && UnambiguousPayload(sp, p.extra) && WellTyped(sp, p.extra)
  }

  ghost predicate LeavesBase(sp: Spellings, extra: Members) {
    (forall n :: IsBase(n) ==> sp(n) !in extra) && sp(NameCount) !in extra && sp(NameHead) !in extra
  }

  /** The payload an honest plan stands for. */
  function PlannedPayload(sp: Spellings, who: Identity, p: Plan, i: nat, n: nat, prev: string): Payload {
    var x := PayloadIn(sp, p.extra);
    Payload(1, TypeNamed(p.typ), who.run, who.recorder, who.fingerprint, i, prev, p.ts,
            x.hmax, x.htol, x.cpNonce, x.event, x.decision,
            if p.typ == "close" then n else 0, if p.typ == "close" then prev else "")
  }

  /** What an honest plan puts under each name. */
  function PlannedValue(sp: Spellings, who: Identity, p: Plan, i: nat, n: nat, prev: string, name: Name): Value {
    if IsBase(name) then BaseValue(name, who, p, i, prev)
    else if name == NameCount then (if p.typ == "close" then Int(n) else Null)
    else if name == NameHead then (if p.typ == "close" then Str(TextOf(prev)) else Null)
    else At(p.extra, sp(name))
  }

  /** Two members added to two disjoint layers. */
  lemma LayeredAt(base: Members, extra: Members, k: Text, v: Value, l: Text, u: Value, key: Text)
    requires k != l && k !in base && k !in extra && l !in base && l !in extra
    requires forall m :: m in base ==> m !in extra
    ensures At(base + extra, key) == if key in base then base[key] else At(extra, key)
    ensures At(Default(Default(base + extra, k, v), l, u), key) ==
              if key == k then v else if key == l then u else if key in base then base[key] else At(extra, key)
  {
  }

  lemma BaseIsApart(sp: Spellings, who: Identity, p: Plan, i: nat, prev: string)
    requires DistinctNames(sp) && LeavesBase(sp, p.extra)
    ensures forall k :: k in BaseMembers(sp, who, p, i, prev) ==> k !in p.extra
  {
    forall k | k in BaseMembers(sp, who, p, i, prev)
      ensures k !in p.extra
    {
      BaseKeysAreNames(sp, who, p, i, prev, k);
    }
  }

  lemma PlannedAt(sp: Spellings, who: Identity, p: Plan, i: nat, n: nat, prev: string, name: Name)
    requires DistinctNames(sp) && LeavesBase(sp, p.extra)
    ensures At(PlannedMembers(sp, who, p, i, n, prev), sp(name)) == PlannedValue(sp, who, p, i, n, prev, name)
  {
    var base := BaseMembers(sp, who, p, i, prev);
    BaseIsApart(sp, who, p, i, prev);
    BaseMembersAre(sp, who, p, i, prev, NameCount);
    BaseMembersAre(sp, who, p, i, prev, NameHead);
    BaseMembersAre(sp, who, p, i, prev, name);
    LayeredAt(base, p.extra, sp(NameCount), Int(n), sp(NameHead), Str(TextOf(prev)), sp(name));
    assert sp(name) == sp(NameCount) <==> name == NameCount;
    assert sp(name) == sp(NameHead) <==> name == NameHead;
  }

  lemma PlannedIsUnambiguous(sp: Spellings, who: Identity, p: Plan, i: nat, n: nat, prev: string)
    requires DistinctNames(sp) && LeavesBase(sp, p.extra) && UnambiguousPayload(sp, p.extra)
    ensures UnambiguousPayload(sp, PlannedMembers(sp, who, p, i, n, prev))
  {
    PlannedKeys(sp, who, p, i, n, prev);
    PlannedAt(sp, who, p, i, n, prev, NameEvent);
    PlannedAt(sp, who, p, i, n, prev, NameDecision);
  }

  lemma PlannedKeys(sp: Spellings, who: Identity, p: Plan, i: nat, n: nat, prev: string)
    requires DistinctNames(sp)
    ensures forall k :: k in PlannedMembers(sp, who, p, i, n, prev) ==> k in p.extra || k in AllSpellings(sp)
  {
    assert sp(NameCount) in AllSpellings(sp) && sp(NameHead) in AllSpellings(sp);
    forall k | k in BaseMembers(sp, who, p, i, prev)
      ensures k in AllSpellings(sp)
    {
      BaseKeysAreNames(sp, who, p, i, prev, k);
    }
  }

  lemma PlannedIsWellTyped(sp: Spellings, who: Identity, p: Plan, i: nat, n: nat, prev: string)
    requires DistinctNames(sp) && LeavesBase(sp, p.extra) && WellTyped(sp, p.extra)
    ensures WellTyped(sp, PlannedMembers(sp, who, p, i, n, prev))
  {
    var ms := PlannedMembers(sp, who, p, i, n, prev);
    forall name: Name
      ensures TypedAs(name, At(ms, sp(name)))
    {
      PlannedAt(sp, who, p, i, n, prev, name);
      assert TypedAs(name, At(p.extra, sp(name)));
      ValueIsTyped(sp, who, p, i, n, prev, name);
    }
  }

  lemma ValueIsTyped(sp: Spellings, who: Identity, p: Plan, i: nat, n: nat, prev: string, name: Name)
    requires TypedAs(name, At(p.extra, sp(name)))
    ensures TypedAs(name, PlannedValue(sp, who, p, i, n, prev, name))
  {
  }

  /** Planned members decode to the planned payload. */
  lemma PlannedDecodes(sp: Spellings, who: Identity, p: Plan, i: nat, n: nat, prev: string)
    requires DistinctNames(sp) && LeavesBase(sp, p.extra) && p.seqno.None?
    ensures PayloadIn(sp, PlannedMembers(sp, who, p, i, n, prev)) == PlannedPayload(sp, who, p, i, n, prev)
  {
    var ms := PlannedMembers(sp, who, p, i, n, prev);
    forall name: Name
      ensures At(ms, sp(name)) == PlannedValue(sp, who, p, i, n, prev, name)
    {
      PlannedAt(sp, who, p, i, n, prev, name);
    }
    MembersDecode(sp, who, p, i, n, prev, ms);
  }

  ghost predicate HoldsPlan(sp: Spellings, who: Identity, p: Plan, i: nat, n: nat, prev: string, ms: Members) {
    forall name: Name :: At(ms, sp(name)) == PlannedValue(sp, who, p, i, n, prev, name)
  }

  lemma MembersDecode(sp: Spellings, who: Identity, p: Plan, i: nat, n: nat, prev: string, ms: Members)
    requires p.seqno.None? && HoldsPlan(sp, who, p, i, n, prev, ms)
    ensures PayloadIn(sp, ms) == PlannedPayload(sp, who, p, i, n, prev)
  {
    BaseDecodes(sp, who, p, i, n, prev, ms);
    CloseDecodes(sp, who, p, i, n, prev, ms);
    ExtraDecodes(sp, who, p, i, n, prev, ms);
  }

  lemma BaseDecodes(sp: Spellings, who: Identity, p: Plan, i: nat, n: nat, prev: string, ms: Members)
    requires p.seqno.None? && HoldsPlan(sp, who, p, i, n, prev, ms)
    ensures IntIn(At(ms, sp(NameV))) == 1 && StrIn(At(ms, sp(NameType))) == p.typ
    ensures StrIn(At(ms, sp(NameRun))) == who.run && StrIn(At(ms, sp(NameRecorder))) == who.recorder
    ensures StrIn(At(ms, sp(NameKey))) == who.fingerprint && IntIn(At(ms, sp(NameSeq))) == i
    ensures StrIn(At(ms, sp(NamePrev))) == prev && StrIn(At(ms, sp(NameTs))) == p.ts
  {
    StrReads(p.typ);
    StrReads(who.run);
    StrReads(who.recorder);
    StrReads(who.fingerprint);
    StrReads(prev);
    StrReads(p.ts);
  }

  lemma CloseDecodes(sp: Spellings, who: Identity, p: Plan, i: nat, n: nat, prev: string, ms: Members)
    requires HoldsPlan(sp, who, p, i, n, prev, ms)
    ensures IntIn(At(ms, sp(NameCount))) == if p.typ == "close" then n else 0
    ensures StrIn(At(ms, sp(NameHead))) == if p.typ == "close" then prev else ""
  {
    StrReads(prev);
  }

  lemma ExtraDecodes(sp: Spellings, who: Identity, p: Plan, i: nat, n: nat, prev: string, ms: Members)
    requires HoldsPlan(sp, who, p, i, n, prev, ms)
    ensures At(ms, sp(NameHmax)) == At(p.extra, sp(NameHmax)) && At(ms, sp(NameHtol)) == At(p.extra, sp(NameHtol))
    ensures At(ms, sp(NameNonce)) == At(p.extra, sp(NameNonce))
    ensures At(ms, sp(NameEvent)) == At(p.extra, sp(NameEvent)) && At(ms, sp(NameDecision)) == At(p.extra, sp(NameDecision))
  {
  }

  lemma StrReads(s: string)
    ensures StrIn(Str(TextOf(s))) == s
  {
    StringRoundTrip(s);
  }

  predicate PlansWithin(w: World, plans: seq<Plan>, seconds: int) {
    forall i :: 1 <= i < |plans| ==> StampsWithin(w, plans[i - 1].ts, plans[i].ts, seconds)
  }

  /** The spacing an opening plan permits, in seconds. */
  function Spacing(sp: Spellings, p: Plan): int {
    PayloadIn(sp, p.extra).hmax + PayloadIn(sp, p.extra).htol
  }

  /** Opens with a positive interval, ends in its only close, beats at least once
      and keeps its declared spacing. */
  ghost predicate HonestPlans(w: World, sp: Spellings, plans: seq<Plan>) {
    && |plans| >= 2
    && (forall i :: 0 <= i < |plans| ==> NoOverrides(sp, plans[i]))
    && plans[0].typ == "open" && PayloadIn(sp, plans[0].extra).hmax > 0
    && -MAX_SECONDS <= Spacing(sp, plans[0]) <= MAX_SECONDS
    && plans[|plans| - 1].typ == "close"
    && (forall i :: 0 <= i < |plans| - 1 ==> plans[i].typ != "close")
    && (exists i :: 1 <= i < |plans| && plans[i].typ == "heartbeat")
    && PlansWithin(w, plans, Spacing(sp, plans[0]))
  }

  /** `rs` is what loading the built lines yields. */
  ghost predicate LoadsAs(w: World, keys: map<string, Bytes>, out: seq<SignedRecord>, rs: seq<Record>) {
    && |rs| == |out|
    && forall i :: 0 <= i < |rs| ==>
         && Loaded(w, keys, rs[i]) && !rs[i].lineErr
         && rs[i].raw == out[i].payload && rs[i].signature == out[i].sig
  }

  ghost predicate Publishes(keys: map<string, Bytes>, who: Identity, public: Bytes) {
    ToLower(who.fingerprint) in keys && keys[ToLower(who.fingerprint)] == public
  }

  /** Record `i` as loaded: authentic, canonical, and exactly the planned payload. */
  ghost predicate PlannedAs(w: World, sp: Spellings, who: Identity, plans: seq<Plan>, out: seq<SignedRecord>, rs: seq<Record>, i: nat)
    requires i < |rs| == |out| == |plans|
  {
    && rs[i].payload == PlannedPayload(sp, who, plans[i], i, |plans|, PrevOf(w.sha, out, i))
    && AuthenticOK(rs[i]) && Readable(rs[i]) && rs[i].hash == Hex(w.sha(out[i].payload))
  }

  ghost predicate AllPlannedAs(w: World, sp: Spellings, who: Identity, plans: seq<Plan>, out: seq<SignedRecord>, rs: seq<Record>) {
    && |rs| == |out| == |plans|
    && forall i :: 0 <= i < |rs| ==> PlannedAs(w, sp, who, plans, out, rs, i)
  }

  lemma BuiltRecordLoads(w: World, sign: Signer, public: Bytes, keys: map<string, Bytes>, who: Identity,
                         plans: seq<Plan>, out: seq<SignedRecord>, rs: seq<Record>, i: nat)
    requires ReadsJson(w) && Signs(w, sign, public) && Publishes(keys, who, public) && LoadsAs(w, keys, out, rs)
    requires |out| == |plans| && i < |plans| && NoOverrides(StandardNames(), plans[i]) && BuiltAt(w.sha, sign, who, plans, out, i)
    ensures PlannedAs(w, StandardNames(), who, plans, out, rs, i)
  {
    var sp, prev := StandardNames(), PrevOf(w.sha, out, i);
    StandardNamesDiffer();
    var ms := PlannedMembers(sp, who, plans[i], i, |plans|, prev);
    PlannedReads(w, sp, who, plans[i], i, |plans|, prev);
    assert rs[i].raw == Encoded(Obj(ms));
    assert rs[i].payload.key == who.fingerprint;
  }

  /** The encoding of an honest plan is canonical and decodes to its payload. */
  lemma PlannedReads(w: World, sp: Spellings, who: Identity, p: Plan, i: nat, n: nat, prev: string)
    requires ReadsJson(w) && sp == StandardNames() && DistinctNames(sp) && NoOverrides(sp, p)
    requires InRange(Obj(PlannedMembers(sp, who, p, i, n, prev)))
    ensures var raw := Encoded(Obj(PlannedMembers(sp, who, p, i, n, prev)));
            w.canonical(raw) && w.decode(raw) == Decoded(PlannedPayload(sp, who, p, i, n, prev), true)
  {
    PlannedIsUnambiguous(sp, who, p, i, n, prev);
    PlannedIsWellTyped(sp, who, p, i, n, prev);
    PlannedDecodes(sp, who, p, i, n, prev);
    EncodedDecodes(w, PlannedMembers(sp, who, p, i, n, prev));
  }

  /** Producer completeness: the log of honest plans satisfies the first rung on
      its own, and every single-log check of rungs zero and one. */
  lemma HonestLogPasses(w: World, sign: Signer, public: Bytes, keys: map<string, Bytes>, who: Identity,
                        plans: seq<Plan>, out: seq<SignedRecord>, rs: seq<Record>)
    requires ReadsJson(w) && Signs(w, sign, public) && Publishes(keys, who, public)
    requires HonestPlans(w, StandardNames(), plans)
    requires BuiltFrom(w.sha, sign, who, plans, out) && |out| == |plans| && LoadsAs(w, keys, out, rs)
    ensures RecorderOK(w, rs)
    ensures OrderOK(Log(who.recorder, who.run, who.fingerprint, rs))
    ensures LinksOK(rs) && OpenOK(rs) && ContiguousOK(rs) && CloseOK(rs)
    ensures AllPlannedAs(w, StandardNames(), who, plans, out, rs)
  {
    var sp := StandardNames();
    forall i | 0 <= i < |rs|
      ensures PlannedAs(w, sp, who, plans, out, rs, i)
    {
      BuiltRecordLoads(w, sign, public, keys, who, plans, out, rs, i);
    }
    PlannedLogPasses(w, sp, who, plans, out, rs);
  }

  lemma PlannedLogPasses(w: World, sp: Spellings, who: Identity, plans: seq<Plan>, out: seq<SignedRecord>, rs: seq<Record>)
    requires HonestPlans(w, sp, plans) && AllPlannedAs(w, sp, who, plans, out, rs)
    ensures RecorderOK(w, rs)
    ensures OrderOK(Log(who.recorder, who.run, who.fingerprint, rs))
    ensures LinksOK(rs) && OpenOK(rs) && ContiguousOK(rs) && CloseOK(rs)
  {
    PlannedLogChained(w, sp, who, plans, out, rs);
    PlannedLogBeats(w, sp, who, plans, out, rs);
    PlannedLogCloses(w, sp, who, plans, out, rs);
  }

  lemma PlannedLogChained(w: World, sp: Spellings, who: Identity, plans: seq<Plan>, out: seq<SignedRecord>, rs: seq<Record>)
    requires AllPlannedAs(w, sp, who, plans, out, rs) && plans != []
    requires plans[0].typ == "open" && PayloadIn(sp, plans[0].extra).hmax > 0
    ensures forall i :: 0 <= i < |rs| ==> ChainedAt(rs, i)
    ensures OrderOK(Log(who.recorder, who.run, who.fingerprint, rs))
    ensures LinksOK(rs) && OpenOK(rs) && ContiguousOK(rs)
  {
    var log := Log(who.recorder, who.run, who.fingerprint, rs);
    forall i | 0 <= i < |rs|
      ensures ChainedAt(rs, i) && LinkedAt(rs, i) && OrderedAt(log, i) && Readable(rs[i]) && rs[i].payload.seqno == i
    {
      PlannedRecordChained(w, sp, who, plans, out, rs, i);
    }
    assert PlannedAs(w, sp, who, plans, out, rs, 0);
  }

  lemma PlannedRecordChained(w: World, sp: Spellings, who: Identity, plans: seq<Plan>, out: seq<SignedRecord>, rs: seq<Record>, i: nat)
    requires AllPlannedAs(w, sp, who, plans, out, rs) && i < |rs|
    ensures ChainedAt(rs, i) && LinkedAt(rs, i) && OrderedAt(Log(who.recorder, who.run, who.fingerprint, rs), i)
    ensures Readable(rs[i]) && rs[i].payload.seqno == i
  {
    PlannedKeepsChain(w, sp, who, plans, out, rs, i);
    if i > 0 {
      PlannedKeepsChain(w, sp, who, plans, out, rs, i - 1);
    }
  }

  /** The attribution and the chain members of a loaded record are the built ones. */
  ghost predicate KeepsChain(w: World, who: Identity, out: seq<SignedRecord>, rs: seq<Record>, i: nat)
    requires i < |rs| == |out|
  {
    var p := rs[i].payload;
    && p.v == 1 && p.recorder == who.recorder && p.run == who.run && p.seqno == i && p.prev == PrevOf(w.sha, out, i)
    && AuthenticOK(rs[i]) && Readable(rs[i]) && rs[i].hash == Hex(w.sha(out[i].payload))
  }

  lemma PlannedKeepsChain(w: World, sp: Spellings, who: Identity, plans: seq<Plan>, out: seq<SignedRecord>, rs: seq<Record>, i: nat)
    requires AllPlannedAs(w, sp, who, plans, out, rs) && i < |rs|
    ensures KeepsChain(w, who, out, rs, i)
  {
    assert PlannedAs(w, sp, who, plans, out, rs, i);
  }

  /** The type and the time stamp of a loaded record are the planned ones. */
  ghost predicate KeepsPlan(plans: seq<Plan>, rs: seq<Record>, i: int)
    requires 0 <= i < |rs| == |plans|
  {
    rs[i].payload.typ == TypeNamed(plans[i].typ) && rs[i].payload.ts == plans[i].ts
  }

  lemma PlannedLogKeepsPlans(w: World, sp: Spellings, who: Identity, plans: seq<Plan>, out: seq<SignedRecord>, rs: seq<Record>)
    requires AllPlannedAs(w, sp, who, plans, out, rs)
    ensures forall i :: 0 <= i < |rs| ==> KeepsPlan(plans, rs, i)
  {
    forall i | 0 <= i < |rs|
      ensures KeepsPlan(plans, rs, i)
    {
      assert PlannedAs(w, sp, who, plans, out, rs, i);
    }
  }

  lemma PlannedLogBeats(w: World, sp: Spellings, who: Identity, plans: seq<Plan>, out: seq<SignedRecord>, rs: seq<Record>)
    requires HonestPlans(w, sp, plans) && AllPlannedAs(w, sp, who, plans, out, rs)
    ensures HeartbeatOK(w, rs)
  {
    var seconds := Spacing(sp, plans[0]);
    assert rs[0].payload.hmax + rs[0].payload.htol == seconds by {
      assert PlannedAs(w, sp, who, plans, out, rs, 0);
    }
    PlannedLogKeepsPlans(w, sp, who, plans, out, rs);
    KeptPlansBeat(w, plans, rs, seconds);
  }

  lemma KeptPlansBeat(w: World, plans: seq<Plan>, rs: seq<Record>, seconds: int)
    requires 0 < |rs| == |plans| && forall i :: 0 <= i < |rs| ==> KeepsPlan(plans, rs, i)
    requires PlansWithin(w, plans, seconds) && rs[0].payload.hmax + rs[0].payload.htol == seconds
    requires -MAX_SECONDS <= seconds <= MAX_SECONDS
    requires exists i :: 1 <= i < |plans| && plans[i].typ == "heartbeat"
    ensures HeartbeatOK(w, rs)
  {
    forall i | 1 <= i < |rs|
      ensures WithinSeconds(w, rs, i, seconds)
    {
      assert StampsWithin(w, plans[i - 1].ts, plans[i].ts, seconds);
      assert KeepsPlan(plans, rs, i) && KeepsPlan(plans, rs, i - 1);
    }
    var b :| 1 <= b < |plans| && plans[b].typ == "heartbeat";
    assert KeepsPlan(plans, rs, b);
    HeartbeatExactWithinBound(w, rs);
  }

  lemma PlannedLogCloses(w: World, sp: Spellings, who: Identity, plans: seq<Plan>, out: seq<SignedRecord>, rs: seq<Record>)
    requires AllPlannedAs(w, sp, who, plans, out, rs) && |plans| >= 2 && plans[|plans| - 1].typ == "close"
    requires forall i :: 0 <= i < |plans| - 1 ==> plans[i].typ != "close"
    ensures CloseOK(rs)
  {
    PlannedCloseCommits(w, sp, who, plans, out, rs);
    PlannedLogKeepsPlans(w, sp, who, plans, out, rs);
    forall i | 0 <= i < |rs| - 1
      ensures rs[i].payload.typ != Close
    {
      assert KeepsPlan(plans, rs, i);
    }
  }

  lemma PlannedCloseCommits(w: World, sp: Spellings, who: Identity, plans: seq<Plan>, out: seq<SignedRecord>, rs: seq<Record>)
    requires AllPlannedAs(w, sp, who, plans, out, rs) && |plans| >= 2 && plans[|plans| - 1].typ == "close"
    ensures CommitsTo(rs)
  {
    var n := |rs|;
    assert PlannedAs(w, sp, who, plans, out, rs, n - 1);
    assert rs[n - 2].hash == Hex(w.sha(out[n - 2].payload)) by {
      assert PlannedAs(w, sp, who, plans, out, rs, n - 2);
    }
  }
}
