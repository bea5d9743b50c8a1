/** What a payload looks like on the wire, member by member and byte by byte. */
module WireWords {
  import opened KeyOrder
  import opened Json
  import opened Wire
  import opened Producer

  // ----- UTF-8 -----

  /** One to four bytes: the first tells how many follow, each of those carries
      six bits, and together they give the scalar value (section 3 of RFC 3629). */
  lemma RuneBytesAre(r: Rune)
    ensures var b := Utf8Rune(r);
            && |b| == (if r <= 0x7F then 1 else if r <= 0x7FF then 2 else if r <= 0xFFFF then 3 else 4)
            && (forall i :: 1 <= i < |b| ==> 0x80 <= b[i] as int <= 0xBF)
            && (|b| == 1 ==> b[0] as int == r)
            && (|b| == 2 ==> 0xC2 <= b[0] as int <= 0xDF && r == (b[0] as int - 0xC0) * 64 + (b[1] as int - 0x80))
            && (|b| == 3 ==> 0xE0 <= b[0] as int <= 0xEF
                             && r == (b[0] as int - 0xE0) * 4096 + (b[1] as int - 0x80) * 64 + (b[2] as int - 0x80))
            && (|b| == 4 ==> 0xF0 <= b[0] as int <= 0xF4
                             && r == (b[0] as int - 0xF0) * 262144 + (b[1] as int - 0x80) * 4096
                                     + (b[2] as int - 0x80) * 64 + (b[3] as int - 0x80))
  {
    Digits64(r);
  }

  lemma {:induction false} BytesAppend(t: Text, r: Rune)
    ensures Utf8([]) == [] && Utf8(t + [r]) == Utf8(t) + Utf8Rune(r)
  {
    if t == [] {
      var one := [r];
      assert t + [r] == one && one[1..] == [];
    } else {
      assert (t + [r])[1..] == t[1..] + [r];
      BytesAppend(t[1..], r);
    }
  }

  // ----- Decoding -----

  ghost predicate Holds(ms: Members, key: string, v: Value) {
    At(ms, TextOf(key)) == v
  }

  /** The member is this string, or is absent and the string is empty. */
  ghost predicate HoldsString(ms: Members, key: string, s: string) {
    var v := At(ms, TextOf(key));
    (v.Str? && s == StringOf(v.s)) || (v.Null? && s == "")
  }

  ghost predicate HoldsInt(ms: Members, key: string, n: int) {
    var v := At(ms, TextOf(key));
    v == Int(n) || (v.Null? && n == 0)
  }

  lemma TypedMembers(ms: Members, n: Name)
    requires WellTyped(StandardNames(), ms)
    ensures StandardNames()(n) == TextOf(NameString(n)) && TypedAs(n, At(ms, TextOf(NameString(n))))
  {
    assert StandardNames()(n) == Spelling(n);
  }

  /** Where the attribution and the chain of a payload are read from. */
  lemma ChainIsRead(ms: Members)
    requires WellTyped(StandardNames(), ms)
    ensures var p := PayloadIn(StandardNames(), ms);
            && HoldsInt(ms, "v", p.v) && HoldsInt(ms, "seq", p.seqno) && HoldsString(ms, "prev", p.prev)
            && HoldsString(ms, "run", p.run) && HoldsString(ms, "recorder", p.recorder) && HoldsString(ms, "key", p.key)
            && HoldsString(ms, "ts", p.ts)
  {
    TypedMembers(ms, NameV);
    TypedMembers(ms, NameSeq);
    TypedMembers(ms, NamePrev);
    TypedMembers(ms, NameRun);
    TypedMembers(ms, NameRecorder);
    TypedMembers(ms, NameKey);
    TypedMembers(ms, NameTs);
  }

  /** Where the members of an opening and a closing record are read from. */
  lemma EndsAreRead(ms: Members)
    requires WellTyped(StandardNames(), ms)
    ensures var p := PayloadIn(StandardNames(), ms);
            && HoldsInt(ms, "hmax", p.hmax) && HoldsInt(ms, "htol", p.htol) && HoldsString(ms, "cp_nonce", p.cpNonce)
            && HoldsInt(ms, "count", p.count) && HoldsString(ms, "head", p.head)
  {
    TypedMembers(ms, NameHmax);
    TypedMembers(ms, NameHtol);
    TypedMembers(ms, NameNonce);
    TypedMembers(ms, NameCount);
    TypedMembers(ms, NameHead);
  }

  /** The record type is the one the type member names. */
  lemma TypeIsRead(ms: Members)
    requires WellTyped(StandardNames(), ms)
    ensures var p := PayloadIn(StandardNames(), ms);
            && (p.typ.Open? <==> Holds(ms, "type", Str(TextOf("open"))))
            && (p.typ.Activity? <==> Holds(ms, "type", Str(TextOf("activity"))))
            && (p.typ.Heartbeat? <==> Holds(ms, "type", Str(TextOf("heartbeat"))))
            && (p.typ.Close? <==> Holds(ms, "type", Str(TextOf("close"))))
            && (p.typ.Other? ==> HoldsString(ms, "type", p.typ.name))
  {
    TypedMembers(ms, NameType);
    var v := At(ms, TextOf("type"));
    if v.Str? {
      NamedIff(v.s, "open");
      NamedIff(v.s, "activity");
      NamedIff(v.s, "heartbeat");
      NamedIff(v.s, "close");
    }
  }

  lemma NamedIff(t: Text, s: string)
    ensures StringOf(t) == s <==> t == TextOf(s)
  {
    StringRoundTrip(s);
    if StringOf(t) == s {
      assert forall i :: 0 <= i < |t| ==> t[i] == s[i] as int;
      assert t == TextOf(s);
    }
  }

  /** Where an event and a decision are read from. */
  lemma ActivityIsRead(ms: Members)
    requires WellTyped(StandardNames(), ms)
    ensures var p, v := PayloadIn(StandardNames(), ms), At(ms, TextOf("event"));
            && (p.event.Some? <==> v.Obj?)
            && (v.Obj? ==>
                  && HoldsString(v.members, "class", p.event.value.cls)
                  && HoldsString(v.members, "id", p.event.value.id)
                  && HoldsString(v.members, "dir", p.event.value.dir))
    ensures var p, v := PayloadIn(StandardNames(), ms), At(ms, TextOf("decision"));
            && (p.decision.Some? <==> v.Obj?)
            && (v.Obj? ==> HoldsString(v.members, "policy", p.decision.value.policy))
  {
    TypedMembers(ms, NameEvent);
    TypedMembers(ms, NameDecision);
  }

  // ----- Building -----

  /** Extra members win over everything the builder writes. */
  lemma ExtraWins(who: Identity, plan: Plan, i: nat, n: nat, prev: string, key: Text)
    requires key in plan.extra
    ensures key in PlanValue(who, plan, i, n, prev).members
    ensures PlanValue(who, plan, i, n, prev).members[key] == plan.extra[key]
  {
  }

  /** What the builder itself writes under a name. */
  function Written(who: Identity, plan: Plan, i: nat, n: nat, prev: string, name: Name): Value {
    if IsBase(name) then BaseValue(name, who, plan, i, prev)
    else if plan.typ == "close" && name == NameCount then Int(n)
    else if plan.typ == "close" && name == NameHead then Str(TextOf(prev))
    else Null
  }

  lemma DefaultsAt(base: Members, extra: Members, k: Text, v: Value, l: Text, u: Value, key: Text)
    requires k != l && k !in base && l !in base && key !in extra
    ensures At(base + extra, key) == At(base, key)
    ensures At(Default(Default(base + extra, k, v), l, u), key) ==
              if key == k then v else if key == l then u else At(base, key)
  {
  }

  lemma WrittenAt(sp: Spellings, who: Identity, plan: Plan, i: nat, n: nat, prev: string, name: Name)
    requires DistinctNames(sp) && sp(name) !in plan.extra
    ensures At(PlannedMembers(sp, who, plan, i, n, prev), sp(name)) == Written(who, plan, i, n, prev, name)
  {
    var base := BaseMembers(sp, who, plan, i, prev);
    BaseAt(sp, who, plan, i, prev, name);
    BaseAt(sp, who, plan, i, prev, NameCount);
    BaseAt(sp, who, plan, i, prev, NameHead);
    NamesApart(sp, name);
    DefaultsAt(base, plan.extra, sp(NameCount), Int(n), sp(NameHead), Str(TextOf(prev)), sp(name));
  }

  lemma NamesApart(sp: Spellings, name: Name)
    requires DistinctNames(sp)
    ensures sp(NameCount) != sp(NameHead)
    ensures (sp(name) == sp(NameCount) <==> name == NameCount) && (sp(name) == sp(NameHead) <==> name == NameHead)
  {
  }

  lemma BaseAt(sp: Spellings, who: Identity, plan: Plan, i: nat, prev: string, name: Name)
    requires DistinctNames(sp)
    ensures sp(name) in BaseMembers(sp, who, plan, i, prev) <==> IsBase(name)
    ensures At(BaseMembers(sp, who, plan, i, prev), sp(name)) ==
              if IsBase(name) then BaseValue(name, who, plan, i, prev) else Null
  {
    BaseMembersAre(sp, who, plan, i, prev, name);
  }

  /** The member is this value unless an extra member has the key. */
  ghost predicate Writes(ms: Members, extra: Members, key: string, v: Value) {
    TextOf(key) !in extra ==> Holds(ms, key, v)
  }

  ghost predicate WritesAll(ms: Members, who: Identity, plan: Plan, i: nat, n: nat, prev: string) {
    forall name :: Writes(ms, plan.extra, NameString(name), Written(who, plan, i, n, prev, name))
  }

  lemma StandardMembers(who: Identity, plan: Plan, i: nat, n: nat, prev: string)
    ensures WritesAll(PlanValue(who, plan, i, n, prev).members, who, plan, i, n, prev)
  {
    var ms := PlanValue(who, plan, i, n, prev).members;
    forall name
      ensures Writes(ms, plan.extra, NameString(name), Written(who, plan, i, n, prev, name))
    {
      StandardAt(who, plan, i, n, prev, name);
    }
  }

  lemma StandardAt(who: Identity, plan: Plan, i: nat, n: nat, prev: string, name: Name)
    ensures Writes(PlanValue(who, plan, i, n, prev).members, plan.extra, NameString(name), Written(who, plan, i, n, prev, name))
  {
    var sp := StandardNames();
    StandardNamesDiffer();
    assert sp(name) == TextOf(NameString(name));
    if sp(name) !in plan.extra {
      WrittenAt(sp, who, plan, i, n, prev, name);
    }
  }

  /** Record `i` holds, unless its plan overrides them: version, type, attribution,
      sequence number, predecessor and time stamp; a close also the number of
      plans and its predecessor, which no other record holds. */
  ghost predicate HoldsPlanned(ms: Members, who: Identity, plan: Plan, i: nat, n: nat, prev: string) {
    && Writes(ms, plan.extra, "v", Int(1))
    && Writes(ms, plan.extra, "type", Str(TextOf(plan.typ)))
    && Writes(ms, plan.extra, "run", Str(TextOf(who.run)))
    && Writes(ms, plan.extra, "recorder", Str(TextOf(who.recorder)))
    && Writes(ms, plan.extra, "key", Str(TextOf(who.fingerprint)))
    && Writes(ms, plan.extra, "seq", Int(if plan.seqno.Some? then plan.seqno.value else i))
    && Writes(ms, plan.extra, "prev", Str(TextOf(prev)))
    && Writes(ms, plan.extra, "ts", Str(TextOf(plan.ts)))
    && Writes(ms, plan.extra, "count", if plan.typ == "close" then Int(n) else Null)
    && Writes(ms, plan.extra, "head", if plan.typ == "close" then Str(TextOf(prev)) else Null)
  }

  lemma WritesPlanned(ms: Members, who: Identity, plan: Plan, i: nat, n: nat, prev: string)
    requires WritesAll(ms, who, plan, i, n, prev)
    ensures HoldsPlanned(ms, who, plan, i, n, prev)
  {
    assert forall name :: Writes(ms, plan.extra, NameString(name), Written(who, plan, i, n, prev, name));
    assert NameString(NameV) == "v" && NameString(NameType) == "type" && NameString(NameRun) == "run";
    assert NameString(NameRecorder) == "recorder" && NameString(NameKey) == "key" && NameString(NameSeq) == "seq";
    assert NameString(NamePrev) == "prev" && NameString(NameTs) == "ts";
    assert NameString(NameCount) == "count" && NameString(NameHead) == "head";
  }

  /** What the builder writes into record `i` of `n`, and that extra members win. */
  lemma PlanIsWritten(who: Identity, plan: Plan, i: nat, n: nat, prev: string)
    ensures HoldsPlanned(PlanValue(who, plan, i, n, prev).members, who, plan, i, n, prev)
    ensures forall key :: key in plan.extra ==> At(PlanValue(who, plan, i, n, prev).members, key) == plan.extra[key]
  {
    StandardMembers(who, plan, i, n, prev);
    WritesPlanned(PlanValue(who, plan, i, n, prev).members, who, plan, i, n, prev);
    forall key | key in plan.extra
      ensures At(PlanValue(who, plan, i, n, prev).members, key) == plan.extra[key]
    {
      ExtraWins(who, plan, i, n, prev, key);
    }
  }
}
