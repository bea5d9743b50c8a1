/** The canonical form is one: reading inverts printing, printing is injective,
    and canonicalizing twice is canonicalizing once. */
module JsonTheorems {
  import opened Basics
  import opened KeyOrder
  import opened JsonText
  import opened Json

  /** What follows a value does not continue a number. */
  predicate Ends(rest: Text) {
    rest == [] || !IsNumberRune(rest[0])
  }

  lemma NoSpaceToSkip(t: Text)
    requires t == [] || !IsSpace(t[0])
    ensures SkipSpace(t) == t
  {
  }

  // ----- Numbers -----

  lemma {:induction false} NumberRunStops(t: Text, rest: Text)
    requires (forall i :: 0 <= i < |t| ==> IsNumberRune(t[i])) && Ends(rest)
    ensures NumberRun(t + rest) == |t|
  {
    if t == [] {
      assert t + rest == rest;
    } else {
      NumberRunStops(t[1..], rest);
      assert (t + rest)[1..] == t[1..] + rest;
    }
  }

  lemma PrintIntShape(n: int)
    ensures PrintInt(n) != [] && forall i :: 0 <= i < |PrintInt(n)| ==> IsNumberRune(PrintInt(n)[i])
  {
    var m := if n < 0 then -n else n;
    PrintNatDigits(m);
    var t := PrintInt(n);
    forall i | 0 <= i < |t|
      ensures IsNumberRune(t[i])
    {
      if n < 0 && i > 0 {
        assert t[i] == PrintNat(m)[i - 1];
      }
    }
  }

  lemma ReadPrintedInt(n: int, rest: Text)
    requires -MAX_SAFE_INTEGER <= n <= MAX_SAFE_INTEGER && Ends(rest)
    ensures ReadValue(PrintInt(n) + rest) == Good(Int(n), rest)
  {
    var t := PrintInt(n);
    PrintIntShape(n);
    NumberRunStops(t, rest);
    NoSpaceToSkip(t + rest);
    PrintedIntegerAccepted(n);
    assert (t + rest)[..|t|] == t && (t + rest)[|t|..] == rest;
  }

  // ----- Literals and strings -----

  lemma ReadPrintedLiteral(v: Value, rest: Text)
    requires v.Null? || v.Bool?
    ensures ReadValue(Print(v) + rest) == Good(v, rest)
  {
    var t := Print(v) + rest;
    NoSpaceToSkip(t);
    if v.Null? {
      assert NULL_TEXT <= t && t[4..] == rest;
    } else if v.b {
      assert t[0] == TRUE_TEXT[0] && TRUE_TEXT <= t && t[4..] == rest;
    } else {
      assert t[0] == FALSE_TEXT[0] && FALSE_TEXT <= t && t[5..] == rest;
    }
  }

  lemma ReadPrintedStr(s: Text, rest: Text)
    ensures ReadValue(PrintString(s) + rest) == Good(Str(s), rest)
  {
    var t := PrintString(s) + rest;
    NoSpaceToSkip(t);
    assert t[1..] == Escape(s) + [QUOTE] + rest;
    ReadPrintedString(s, rest);
  }

  lemma ReadPrintedKey(k: Text, rest: Text)
    ensures ReadKey(PrintString(k) + [COLON] + rest) == Good(k, rest)
  {
    var t := PrintString(k) + [COLON] + rest;
    NoSpaceToSkip(t);
    assert t[1..] == Escape(k) + [QUOTE] + ([COLON] + rest);
    ReadPrintedString(k, [COLON] + rest);
    NoSpaceToSkip([COLON] + rest);
    assert ([COLON] + rest)[1..] == rest;
  }

  // ----- Arrays, one step at a time -----

  lemma ReadArrayEnd(items: seq<Value>, rest: Text, first: bool)
    ensures ReadArray([RBRACKET] + rest, items, first) == Good(Arr(items), rest)
  {
    NoSpaceToSkip([RBRACKET] + rest);
    assert ([RBRACKET] + rest)[1..] == rest;
  }

  lemma ReadArrayFirst(text: Text, v: Value, tail: Text)
    requires text != [] && !IsSpace(text[0]) && text[0] != RBRACKET
    requires ReadValue(text + tail) == Good(v, tail)
    ensures ReadArray(text + tail, [], true) == ReadArray(tail, [v], false)
  {
    NoSpaceToSkip(text + tail);
    assert [] + [v] == [v];
  }

  lemma ReadArrayNext(text: Text, v: Value, tail: Text, items: seq<Value>)
    requires ReadValue(text + tail) == Good(v, tail)
    ensures ReadArray([COMMA] + text + tail, items, false) == ReadArray(tail, items + [v], false)
  {
    var t := [COMMA] + text + tail;
    NoSpaceToSkip(t);
    assert t[1..] == text + tail;
  }

  // ----- Objects, one step at a time -----

  lemma ReadObjectEnd(members: map<Text, Value>, rest: Text, first: bool)
    ensures ReadObject([RBRACE] + rest, members, first) == Good(Obj(members), rest)
  {
    NoSpaceToSkip([RBRACE] + rest);
    assert ([RBRACE] + rest)[1..] == rest;
  }

  lemma ReadObjectFirst(text: Text, k: Text, v: Value, tail: Text)
    requires ReadValue(text + tail) == Good(v, tail)
    ensures ReadObject(PrintString(k) + [COLON] + text + tail, map[], true) == ReadObject(tail, map[k := v], false)
  {
    var t := PrintString(k) + [COLON] + text + tail;
    NoSpaceToSkip(t);
    assert t == PrintString(k) + [COLON] + (text + tail);
    ReadPrintedKey(k, text + tail);
    var none: map<Text, Value> := map[];
    assert none[k := v] == map[k := v];
  }

  lemma ReadObjectNext(text: Text, k: Text, v: Value, tail: Text, members: map<Text, Value>)
    requires ReadValue(text + tail) == Good(v, tail) && k !in members
    ensures ReadObject([COMMA] + PrintString(k) + [COLON] + text + tail, members, false)
         == ReadObject(tail, members[k := v], false)
  {
    var t := [COMMA] + PrintString(k) + [COLON] + text + tail;
    NoSpaceToSkip(t);
    assert t[1..] == PrintString(k) + [COLON] + (text + tail);
    ReadPrintedKey(k, text + tail);
  }

  // ----- Reading inverts printing -----

  /** Printing starts with neither space nor a closing delimiter. */
  lemma PrintStart(v: Value)
    ensures Print(v) != [] && !IsSpace(Print(v)[0]) && Print(v)[0] != RBRACKET && Print(v)[0] != RBRACE
  {
    if v.Int? {
      PrintIntShape(v.n);
    }
  }

  lemma Unbracket(open: Rune, body: Text, close: Rune, rest: Text)
    ensures [open] + body + [close] + rest == [open] + (body + ([close] + rest))
  {
  }

  lemma ReadOpens(body: Text)
    ensures ReadValue([LBRACKET] + body) == ReadArray(body, [], true)
    ensures ReadValue([LBRACE] + body) == ReadObject(body, map[], true)
  {
    NoSpaceToSkip([LBRACKET] + body);
    NoSpaceToSkip([LBRACE] + body);
    assert ([LBRACKET] + body)[1..] == body && ([LBRACE] + body)[1..] == body;
  }

  /** In-range values read back from their printed form. */
  lemma {:induction false} ReadPrinted(v: Value, rest: Text)
    requires InRange(v) && Ends(rest)
    ensures ReadValue(Print(v) + rest) == Good(v, rest)
    decreases v, 2
  {
    match v {
      case Null => ReadPrintedLiteral(v, rest);
      case Bool(_) => ReadPrintedLiteral(v, rest);
      case Str(s) => ReadPrintedStr(s, rest);
      case Int(n) => ReadPrintedInt(n, rest);
      case Arr(items) =>
        ReadPrintedArray(v, rest);
        Unbracket(LBRACKET, PrintItems(items), RBRACKET, rest);
        ReadOpens(PrintItems(items) + ([RBRACKET] + rest));
      case Obj(members) =>
        ReadPrintedObject(v, rest);
        Unbracket(LBRACE, PrintMembers(v, SortedKeys(members.Keys)), RBRACE, rest);
        ReadOpens(PrintMembers(v, SortedKeys(members.Keys)) + ([RBRACE] + rest));
    }
  }

  lemma {:induction false} ReadPrintedArray(v: Value, rest: Text)
    requires v.Arr? && InRange(v)
    ensures ReadArray(PrintItems(v.items) + ([RBRACKET] + rest), [], true) == Good(v, rest)
    decreases v, 1
  {
    var items := v.items;
    if items == [] {
      assert PrintItems(items) + ([RBRACKET] + rest) == [RBRACKET] + rest;
      ReadArrayEnd([], rest, true);
    } else {
      var tail := PrintMoreItems(items[1..]) + ([RBRACKET] + rest);
      assert PrintItems(items) + ([RBRACKET] + rest) == Print(items[0]) + tail;
      ReadPrinted(items[0], tail);
      PrintStart(items[0]);
      ReadArrayFirst(Print(items[0]), items[0], tail);
      assert items[..1] == [items[0]];
      ReadPrintedMoreItems(v, 1, rest);
    }
  }

  lemma MoreItemsText(items: seq<Value>, i: nat, end: Text)
    requires i < |items|
    ensures PrintMoreItems(items[i..]) + end == [COMMA] + Print(items[i]) + (PrintMoreItems(items[i + 1..]) + end)
  {
    assert items[i..][0] == items[i] && items[i..][1..] == items[i + 1..];
  }

  lemma MoreItemsEnd(items: seq<Value>, rest: Text)
    ensures Ends(PrintMoreItems(items) + ([RBRACKET] + rest))
  {
  }

  lemma {:induction false} ReadPrintedMoreItems(v: Value, i: nat, rest: Text)
    requires v.Arr? && InRange(v) && i <= |v.items|
    ensures ReadArray(PrintMoreItems(v.items[i..]) + ([RBRACKET] + rest), v.items[..i], false) == Good(v, rest)
    decreases v, 0, |v.items| - i
  {
    var items := v.items;
    if i == |items| {
      assert PrintMoreItems(items[i..]) + ([RBRACKET] + rest) == [RBRACKET] + rest;
      assert items[..i] == items;
      ReadArrayEnd(items, rest, false);
    } else {
      var tail := PrintMoreItems(items[i + 1..]) + ([RBRACKET] + rest);
      MoreItemsText(items, i, [RBRACKET] + rest);
      assert Ends(tail) by { MoreItemsEnd(items[i + 1..], rest); }
      ReadPrinted(items[i], tail);
      ReadArrayNext(Print(items[i]), items[i], tail, items[..i]);
      assert items[..i + 1] == items[..i] + [items[i]];
      ReadPrintedMoreItems(v, i + 1, rest);
    }
  }

  /** The part of an object read so far. */
  ghost function Restrict(v: Value, keys: seq<Text>): (m: map<Text, Value>)
    requires v.Obj? && Keys(keys) <= v.members.Keys
  {
    map k | k in Keys(keys) :: v.members[k]
  }

  lemma KeysOfParts(ks: seq<Text>, i: nat)
    requires Increasing(ks) && i < |ks|
    ensures Keys(ks[..i + 1]) == Keys(ks[..i]) + {ks[i]} && ks[i] !in Keys(ks[..i])
    ensures Keys(ks[..i]) <= Keys(ks) && Keys(ks[i..]) <= Keys(ks) && ks[i] in Keys(ks)
  {
    LessIsStrictTotalOrder(ks[i], ks[i], ks[i]);
    assert ks[..i + 1] == ks[..i] + [ks[i]];
  }

  lemma FirstMemberText(v: Value, ks: seq<Text>, end: Text)
    requires v.Obj? && Increasing(ks) && Keys(ks) == v.members.Keys && ks != []
    ensures ks[0] in v.members && Keys(ks[1..]) <= Keys(ks) && Keys(ks[..1]) <= Keys(ks)
    ensures PrintMembers(v, ks) + end
         == PrintString(ks[0]) + [COLON] + Print(v.members[ks[0]]) + (PrintMoreMembers(v, ks[1..]) + end)
    ensures Restrict(v, ks[..1]) == map[ks[0] := v.members[ks[0]]]
  {
    KeysOfParts(ks, 0);
    assert Keys(ks[1..]) <= Keys(ks);
    assert Keys(ks[..1]) == {ks[0]};
  }

  lemma {:induction false} ReadPrintedObject(v: Value, rest: Text)
    requires v.Obj? && InRange(v)
    ensures ReadObject(PrintMembers(v, SortedKeys(v.members.Keys)) + ([RBRACE] + rest), map[], true) == Good(v, rest)
    decreases v, 1
  {
    var ks := SortedKeys(v.members.Keys);
    if ks == [] {
      assert PrintMembers(v, ks) + ([RBRACE] + rest) == [RBRACE] + rest;
      assert v.members == map[];
      ReadObjectEnd(map[], rest, true);
    } else {
      FirstMemberText(v, ks, [RBRACE] + rest);
      var k := ks[0];
      var tail := PrintMoreMembers(v, ks[1..]) + ([RBRACE] + rest);
      assert Ends(tail) by { TailEnds(v, ks[1..], rest); }
      ReadPrinted(v.members[k], tail);
      ReadObjectFirst(Print(v.members[k]), k, v.members[k], tail);
      ReadPrintedMoreMembers(v, ks, 1, rest);
    }
  }

  lemma MoreMembersText(v: Value, ks: seq<Text>, i: nat, end: Text)
    requires v.Obj? && Increasing(ks) && Keys(ks) == v.members.Keys && i < |ks|
    ensures ks[i] in v.members && Keys(ks[i..]) <= Keys(ks) && Keys(ks[i + 1..]) <= Keys(ks)
    ensures PrintMoreMembers(v, ks[i..]) + end
         == [COMMA] + PrintString(ks[i]) + [COLON] + Print(v.members[ks[i]]) + (PrintMoreMembers(v, ks[i + 1..]) + end)
  {
    KeysOfParts(ks, i);
    var more := ks[i..];
    assert more[0] == ks[i] && more[1..] == ks[i + 1..] && Keys(more[1..]) <= Keys(more);
    assert PrintMoreMembers(v, more) == [COMMA] + PrintMember(v, ks[i]) + PrintMoreMembers(v, ks[i + 1..]);
    MemberConcat(PrintString(ks[i]), Print(v.members[ks[i]]), PrintMoreMembers(v, ks[i + 1..]), end);
  }

  lemma MemberConcat(key: Text, value: Text, more: Text, end: Text)
    ensures [COMMA] + (key + [COLON] + value) + more + end == [COMMA] + key + [COLON] + value + (more + end)
  {
  }

  lemma RestrictGrows(v: Value, ks: seq<Text>, i: nat)
    requires v.Obj? && Increasing(ks) && Keys(ks) == v.members.Keys && i < |ks|
    ensures Keys(ks[..i]) <= Keys(ks) && Keys(ks[..i + 1]) <= Keys(ks) && ks[i] in v.members
    ensures ks[i] !in Restrict(v, ks[..i])
    ensures Restrict(v, ks[..i + 1]) == Restrict(v, ks[..i])[ks[i] := v.members[ks[i]]]
  {
    KeysOfParts(ks, i);
  }

  lemma {:induction false} ReadPrintedMoreMembers(v: Value, ks: seq<Text>, i: nat, rest: Text)
    requires v.Obj? && InRange(v) && Increasing(ks) && Keys(ks) == v.members.Keys && i <= |ks|
    ensures Keys(ks[i..]) <= Keys(ks) && Keys(ks[..i]) <= Keys(ks)
    ensures ReadObject(PrintMoreMembers(v, ks[i..]) + ([RBRACE] + rest), Restrict(v, ks[..i]), false) == Good(v, rest)
    decreases v, 0, |ks| - i
  {
    if i == |ks| {
      assert PrintMoreMembers(v, ks[i..]) + ([RBRACE] + rest) == [RBRACE] + rest;
      assert ks[..i] == ks && Restrict(v, ks) == v.members;
      ReadObjectEnd(v.members, rest, false);
    } else {
      MoreMembersText(v, ks, i, [RBRACE] + rest);
      RestrictGrows(v, ks, i);
      ReadPrintedMoreMembers(v, ks, i + 1, rest);
      var k, text := ks[i], Print(v.members[ks[i]]);
      var tail := PrintMoreMembers(v, ks[i + 1..]) + ([RBRACE] + rest);
      assert Ends(tail) by { TailEnds(v, ks[i + 1..], rest); }
      ReadPrinted(v.members[k], tail);
      ReadObjectNext(text, k, v.members[k], tail, Restrict(v, ks[..i]));
    }
  }

  lemma TailEnds(v: Value, keys: seq<Text>, rest: Text)
    requires v.Obj? && Keys(keys) <= v.members.Keys
    ensures Ends(PrintMoreMembers(v, keys) + ([RBRACE] + rest))
  {
  }

  // ----- The canonical form -----

  /** Everything the parser yields is in range. */
  lemma {:induction false} ReadInRange(t: Text)
    ensures ReadValue(t).Good? ==> InRange(ReadValue(t).value)
    decreases |t|, 0
  {
    var u := SkipSpace(t);
    if u != [] {
      if u[0] == LBRACE {
        ReadObjectInRange(u[1..], map[], true);
      } else if u[0] == LBRACKET {
        ReadArrayInRange(u[1..], [], true);
      }
    }
  }

  lemma {:induction false} ReadArrayInRange(t: Text, items: seq<Value>, first: bool)
    requires forall i :: 0 <= i < |items| ==> InRange(items[i])
    ensures ReadArray(t, items, first).Good? ==> InRange(ReadArray(t, items, first).value)
    decreases |t|, 1
  {
    var u := SkipSpace(t);
    if u != [] && u[0] != RBRACKET && (first || u[0] == COMMA) {
      var from := if first then u else u[1..];
      ReadInRange(from);
      var r := ReadValue(from);
      if r.Good? {
        ReadArrayInRange(r.rest, items + [r.value], false);
      }
    }
  }

  lemma {:induction false} ReadObjectInRange(t: Text, members: map<Text, Value>, first: bool)
    requires forall k :: k in members ==> InRange(members[k])
    ensures ReadObject(t, members, first).Good? ==> InRange(ReadObject(t, members, first).value)
    decreases |t|, 1
  {
    var u := SkipSpace(t);
    if u != [] && u[0] != RBRACE && (first || u[0] == COMMA) {
      var key := ReadKey(if first then u else u[1..]);
      if key.Good? && key.value !in members {
        ReadInRange(key.rest);
        var r := ReadValue(key.rest);
        if r.Good? {
          ReadObjectInRange(r.rest, members[key.value := r.value], false);
        }
      }
    }
  }

  /** Round trip: parsing the printed form of an in-range value gives that value
      and nothing is left over. */
  lemma PrintParses(v: Value)
    requires InRange(v)
    ensures ReadValue(Print(v)) == Good(v, []) && Canonicalize(Print(v)) == Some(Print(v))
  {
    ReadPrinted(v, []);
    assert Print(v) + [] == Print(v);
  }

  /** Different in-range values print differently. */
  lemma PrintInjective(v: Value, w: Value)
    requires InRange(v) && InRange(w) && Print(v) == Print(w)
    ensures v == w
  {
    PrintParses(v);
    PrintParses(w);
  }

  /** Canonicalizing twice is canonicalizing once. */
  lemma CanonicalizeIdempotent(raw: Text)
    requires Canonicalize(raw).Some?
    ensures Canonicalize(Canonicalize(raw).value) == Canonicalize(raw)
    ensures IsCanonical(Canonicalize(raw).value)
  {
    ReadInRange(raw);
    PrintParses(ReadValue(raw).value);
  }

  /** The canonical texts are exactly the printed in-range values, so two
      canonical texts with one meaning are one text. */
  lemma CanonicalIffPrinted(raw: Text)
    ensures IsCanonical(raw) <==> exists v :: InRange(v) && Print(v) == raw
  {
    if IsCanonical(raw) {
      ReadInRange(raw);
      assert Print(ReadValue(raw).value) == raw;
    }
    if v :| InRange(v) && Print(v) == raw {
      PrintParses(v);
    }
  }
}
