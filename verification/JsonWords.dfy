/** What the canonical form looks like, character by character. */
module JsonWords {
  import opened Basics
  import opened KeyOrder
  import opened JsonText
  import opened Json
  import opened JsonTheorems

  // ----- Strings -----

  /** Inside quotes only the quote, the backslash and the control characters are
      changed: seven have a letter or themselves, the others four digits. */
  lemma EscapesAre(c: Rune)
    ensures c == 0x22 ==> EscapeRune(c) == TextOf("\\\"")
    ensures c == 0x5C ==> EscapeRune(c) == TextOf("\\\\")
    ensures c == 0x08 ==> EscapeRune(c) == TextOf("\\b")
    ensures c == 0x09 ==> EscapeRune(c) == TextOf("\\t")
    ensures c == 0x0A ==> EscapeRune(c) == TextOf("\\n")
    ensures c == 0x0C ==> EscapeRune(c) == TextOf("\\f")
    ensures c == 0x0D ==> EscapeRune(c) == TextOf("\\r")
    ensures c < 0x20 && c !in {0x08, 0x09, 0x0A, 0x0C, 0x0D} ==>
              EscapeRune(c) == TextOf(if c < 0x10 then "\\u000" else "\\u001") + TextOf([HexDigit(c % 16)])
    ensures c >= 0x20 && c != 0x22 && c != 0x5C ==> EscapeRune(c) == [c]
  {
    assert c < 0x20 ==> HexRune(c % 16) == HexDigit(c % 16) as int;
  }

  /** A string is its characters, each escaped on its own, between two quotes. */
  lemma {:induction false} StringsAre(s: Text, c: Rune)
    ensures PrintString([]) == TextOf("\"\"")
    ensures PrintString(s + [c]) == PrintString(s)[..|PrintString(s)| - 1] + EscapeRune(c) + TextOf("\"")
  {
    EscapeAppends(s, c);
    var t := PrintString(s);
    assert t[..|t| - 1] == [QUOTE] + Escape(s);
  }

  lemma {:induction false} EscapeAppends(s: Text, c: Rune)
    ensures Escape(s + [c]) == Escape(s) + EscapeRune(c)
  {
    if s == [] {
      var one := [c];
      assert s + [c] == one && one[1..] == [];
      assert EscapeRune(c) + [] == EscapeRune(c);
    } else {
      assert (s + [c])[1..] == s[1..] + [c];
      EscapeAppends(s[1..], c);
    }
  }

  // ----- Numbers -----

  function Power(k: nat): (p: nat)
    ensures p > 0
  {
    if k == 0 then 1 else 10 * Power(k - 1)
  }

  /** Position `i` of a text holds the digit of that place of `n`. */
  ghost predicate HoldsDigit(t: Text, n: nat, i: nat)
    requires i < |t|
  {
    t[i] == 0x30 + n / Power(|t| - 1 - i) % 10
  }

  ghost predicate HoldsDigits(t: Text, n: nat) {
    forall i :: 0 <= i < |t| ==> HoldsDigit(t, n, i)
  }

  /** A number is written with the digits of its decimal expansion and no more. */
  lemma {:induction false} DecimalsAre(n: nat)
    ensures HoldsDigits(PrintNat(n), n)
    ensures n < Power(|PrintNat(n)|) && (n > 0 ==> Power(|PrintNat(n)| - 1) <= n)
  {
    if n < 10 {
      OneDigit(n);
    } else {
      DecimalsAre(n / 10);
      MoreDigits(PrintNat(n), PrintNat(n / 10), n);
      PowersGrow(n, |PrintNat(n / 10)|);
    }
  }

  lemma OneDigit(n: nat)
    requires n < 10
    ensures HoldsDigits([0x30 + n], n) && n < Power(1) && (n > 0 ==> Power(0) <= n)
  {
    assert Power(0) == 1 && Power(1) == 10;
  }

  lemma MoreDigits(t: Text, u: Text, n: nat)
    requires t == u + [0x30 + n % 10] && HoldsDigits(u, n / 10)
    ensures HoldsDigits(t, n)
  {
    forall i | 0 <= i < |t|
      ensures HoldsDigit(t, n, i)
    {
      if i < |u| {
        assert HoldsDigit(u, n / 10, i);
        DigitStep(t, u, n, i);
      } else {
        LastDigit(t, n);
      }
    }
  }

  lemma LastDigit(t: Text, n: nat)
    requires t != [] && t[|t| - 1] == 0x30 + n % 10
    ensures HoldsDigit(t, n, |t| - 1)
  {
    assert Power(0) == 1;
  }

  lemma PowersGrow(n: nat, k: nat)
    requires 0 < k && n >= 10 && n / 10 < Power(k) && Power(k - 1) <= n / 10
    ensures n < Power(k + 1) && Power(k) <= n && Power(0) == 1
  {
  }

  lemma DigitStep(t: Text, u: Text, n: nat, i: nat)
    requires |t| == |u| + 1 && i < |u| && t[i] == u[i] && HoldsDigit(u, n / 10, i)
    ensures HoldsDigit(t, n, i)
  {
    DivideTwice(n, Power(|u| - 1 - i));
  }

  lemma DivideTwice(n: nat, p: nat)
    requires p > 0
    ensures n / (10 * p) == n / 10 / p
  {
    var q, r := n / 10, n % 10;
    var a, b := q / p, q % p;
    assert n == 10 * (p * a + b) + r;
    assert n == (10 * p) * a + (10 * b + r) && 0 <= 10 * b + r < 10 * p;
    QuotientIs(n, 10 * p, a, 10 * b + r);
  }

  lemma QuotientIs(n: nat, d: nat, q: nat, r: nat)
    requires d > 0 && n == d * q + r && r < d
    ensures n / d == q
  {
    var k := n / d;
    assert n == d * k + n % d;
    assert k < q ==> d * (k + 1) <= d * q;
    assert k > q ==> d * (q + 1) <= d * k;
  }

  lemma NumbersAre(n: nat)
    ensures Print(Int(n)) == PrintNat(n)
    ensures n > 0 ==> Print(Int(0 - n)) == TextOf("-") + PrintNat(n)
    ensures Print(Int(0)) == TextOf("0")
  {
  }

  // ----- Arrays and objects -----

  /** Texts separated by commas. */
  ghost function Joined(parts: seq<Text>): Text {
    if parts == [] then []
    else if |parts| == 1 then parts[0]
    else parts[0] + TextOf(",") + Joined(parts[1..])
  }

  lemma MarksAre()
    ensures TextOf(",") == [COMMA] && TextOf(":") == [COLON]
    ensures TextOf("[") == [LBRACKET] && TextOf("]") == [RBRACKET]
    ensures TextOf("{") == [LBRACE] && TextOf("}") == [RBRACE]
  {
  }

  lemma JoinedFrom(parts: seq<Text>)
    requires parts != []
    ensures Joined(parts) == parts[0] + (if |parts| == 1 then [] else [COMMA] + Joined(parts[1..]))
  {
    MarksAre();
    if |parts| > 1 {
      Associate(parts[0], [COMMA], Joined(parts[1..]));
    } else {
      assert parts[0] + [] == parts[0];
    }
  }

  ghost function PrintedItems(items: seq<Value>): (parts: seq<Text>)
    ensures |parts| == |items| && forall i :: 0 <= i < |items| ==> parts[i] == Print(items[i])
  {
    seq(|items|, i requires 0 <= i < |items| => Print(items[i]))
  }

  lemma {:induction false} ItemsJoin(items: seq<Value>)
    ensures PrintItems(items) == Joined(PrintedItems(items))
    ensures items != [] ==> PrintMoreItems(items) == [COMMA] + Joined(PrintedItems(items))
  {
    if items != [] {
      ItemsJoin(items[1..]);
      ItemsJoinFrom(items[0], items[1..]);
      assert items == [items[0]] + items[1..];
    }
  }

  lemma ItemsJoinFrom(v: Value, rest: seq<Value>)
    requires rest != [] ==> PrintMoreItems(rest) == [COMMA] + Joined(PrintedItems(rest))
    ensures PrintItems([v] + rest) == Joined(PrintedItems([v] + rest))
    ensures PrintMoreItems([v] + rest) == [COMMA] + Joined(PrintedItems([v] + rest))
  {
    var items := [v] + rest;
    assert items[1..] == rest;
    var parts, more := PrintedItems(items), PrintedItems(rest);
    assert parts[1..] == more;
    JoinedFrom(parts);
    assert Joined(parts) == Print(v) + PrintMoreItems(rest);
    Associate([COMMA], Print(v), PrintMoreItems(rest));
  }

  /** The three literals. */
  lemma LiteralsAre()
    ensures Print(Null) == TextOf("null")
    ensures Print(Bool(true)) == TextOf("true") && Print(Bool(false)) == TextOf("false")
  {
  }

  /** An array is its items between brackets, separated by commas. */
  lemma ArraysAre(items: seq<Value>)
    ensures Print(Arr(items)) == TextOf("[") + Joined(PrintedItems(items)) + TextOf("]")
  {
    ItemsJoin(items);
    MarksAre();
  }

  datatype Pair = Pair(key: Text, value: Value)

  function PairKeys(pairs: seq<Pair>): (ks: seq<Text>)
    ensures |ks| == |pairs| && forall i :: 0 <= i < |pairs| ==> ks[i] == pairs[i].key
  {
    seq(|pairs|, i requires 0 <= i < |pairs| => pairs[i].key)
  }

  ghost predicate DistinctKeys(pairs: seq<Pair>) {
    forall i, j :: 0 <= i < j < |pairs| ==> pairs[i].key != pairs[j].key
  }

  ghost function PrintedPairs(pairs: seq<Pair>): (parts: seq<Text>)
    ensures |parts| == |pairs|
    ensures forall i :: 0 <= i < |pairs| ==> parts[i] == PrintString(pairs[i].key) + TextOf(":") + Print(pairs[i].value)
  {
    seq(|pairs|, i requires 0 <= i < |pairs| => PrintString(pairs[i].key) + TextOf(":") + Print(pairs[i].value))
  }

  /** An object text with the members in any order, possibly repeated. */
  ghost function Listing(pairs: seq<Pair>): Text {
    TextOf("{") + Joined(PrintedPairs(pairs)) + TextOf("}")
  }

  /** The members listed so far. */
  function Listed(pairs: seq<Pair>): (m: map<Text, Value>)
    ensures forall k :: k in m <==> exists i :: 0 <= i < |pairs| && pairs[i].key == k
  {
    if pairs == [] then map[]
    else
      var last := pairs[|pairs| - 1];
      Listed(pairs[..|pairs| - 1])[last.key := last.value]
  }

  lemma {:induction false} ListedAt(pairs: seq<Pair>, i: nat)
    requires DistinctKeys(pairs) && i < |pairs|
    ensures pairs[i].key in Listed(pairs) && Listed(pairs)[pairs[i].key] == pairs[i].value
  {
    if i < |pairs| - 1 {
      var init := pairs[..|pairs| - 1];
      ListedAt(init, i);
      assert init[i] == pairs[i] && pairs[i].key != pairs[|pairs| - 1].key;
    }
  }

  ghost predicate PairsInRange(pairs: seq<Pair>) {
    forall i :: 0 <= i < |pairs| ==> InRange(pairs[i].value)
  }

  /** The tail of a listing after `i` members. */
  ghost function Rest(pairs: seq<Pair>, i: nat): Text
    requires i <= |pairs|
  {
    (if i == 0 || i == |pairs| then [] else [COMMA]) + Joined(PrintedPairs(pairs[i..])) + [RBRACE]
  }

  lemma RestStep(pairs: seq<Pair>, i: nat)
    requires i < |pairs|
    ensures Rest(pairs, i)
         == (if i == 0 then [] else [COMMA]) + (PrintString(pairs[i].key) + [COLON] + Print(pairs[i].value)) + Rest(pairs, i + 1)
  {
    var parts, more := PrintedPairs(pairs[i..]), PrintedPairs(pairs[i + 1..]);
    assert parts[1..] == more;
    PartIs(pairs[i..]);
    JoinedFrom(parts);
    RestConcat(if i == 0 then [] else [COMMA], parts[0], Joined(parts), Joined(more), i + 1 == |pairs|);
  }

  lemma PartIs(pairs: seq<Pair>)
    requires pairs != []
    ensures PrintedPairs(pairs)[0] == PrintString(pairs[0].key) + [COLON] + Print(pairs[0].value)
  {
    MarksAre();
  }

  lemma RestConcat(lead: Text, part: Text, all: Text, more: Text, last: bool)
    requires all == part + (if last then [] else [COMMA] + more) && (last ==> more == [])
    ensures lead + all + [RBRACE] == lead + part + ((if last then [] else [COMMA]) + more + [RBRACE])
  {
  }

  lemma RestEnds(pairs: seq<Pair>, i: nat)
    requires 0 < i <= |pairs|
    ensures Ends(Rest(pairs, i))
  {
  }

  lemma ListedGrows(pairs: seq<Pair>, i: nat)
    requires i < |pairs|
    ensures Listed(pairs[..i + 1]) == Listed(pairs[..i])[pairs[i].key := pairs[i].value]
  {
    var init := pairs[..i + 1];
    assert init[..i] == pairs[..i] && init[i] == pairs[i];
  }

  /** A key among the first `i`. */
  ghost predicate Seen(pairs: seq<Pair>, i: nat)
    requires i < |pairs|
  {
    exists j :: 0 <= j < i && pairs[j].key == pairs[i].key
  }

  lemma SeenIsListed(pairs: seq<Pair>, i: nat)
    requires i < |pairs|
    ensures Seen(pairs, i) <==> pairs[i].key in Listed(pairs[..i])
  {
    var init := pairs[..i];
    if Seen(pairs, i) {
      var j :| 0 <= j < i && pairs[j].key == pairs[i].key;
      assert init[j].key == pairs[i].key;
    }
  }

  /** One more member is read, unless its key was seen. */
  lemma ReadMember(text: Text, k: Text, v: Value, tail: Text, members: map<Text, Value>, first: bool)
    requires ReadValue(text + tail) == Good(v, tail) && (first ==> members == map[])
    ensures ReadObject((if first then [] else [COMMA]) + (PrintString(k) + [COLON] + text) + tail, members, first)
         == if k in members then Bad else ReadObject(tail, members[k := v], false)
  {
    var t := PrintString(k) + [COLON] + text + tail;
    if first {
      assert [] + (PrintString(k) + [COLON] + text) + tail == t;
      ReadObjectFirst(text, k, v, tail);
      assert members[k := v] == map[k := v];
    } else {
      assert [COMMA] + (PrintString(k) + [COLON] + text) + tail == [COMMA] + t;
      assert [COMMA] + t == [COMMA] + PrintString(k) + [COLON] + text + tail;
      if k in members {
        ReadObjectAgain(text, k, tail, members);
      } else {
        ReadObjectNext(text, k, v, tail, members);
      }
    }
  }

  lemma ReadObjectAgain(text: Text, k: Text, tail: Text, members: map<Text, Value>)
    requires k in members
    ensures ReadObject([COMMA] + PrintString(k) + [COLON] + text + tail, members, false) == Bad
  {
    var t := [COMMA] + PrintString(k) + [COLON] + text + tail;
    NoSpaceToSkip(t);
    assert t[1..] == PrintString(k) + [COLON] + (text + tail);
    ReadPrintedKey(k, text + tail);
  }

  ghost predicate Repeats(pairs: seq<Pair>) {
    exists j :: 0 <= j < |pairs| && Seen(pairs, j)
  }

  /** What is read from a listing once `i` members are. */
  ghost function ReadFrom(pairs: seq<Pair>, i: nat): Parse<Value>
    requires i <= |pairs|
  {
    ReadObject(Rest(pairs, i), Listed(pairs[..i]), i == 0)
  }

  /** Results each of which is the next one unless it is marked as bad. */
  lemma {:induction false} Cascade(results: seq<Parse<Value>>, marked: seq<bool>, i: nat)
    requires |results| == |marked| + 1 && i <= |marked|
    requires forall k :: 0 <= k < |marked| ==> results[k] == if marked[k] then Bad else results[k + 1]
    ensures results[i] == if exists k :: i <= k < |marked| && marked[k] then Bad else results[|marked|]
    decreases |marked| - i
  {
    if i < |marked| {
      Cascade(results, marked, i + 1);
    }
  }

  lemma ReadRest(pairs: seq<Pair>)
    requires PairsInRange(pairs)
    ensures ReadFrom(pairs, 0) == if Repeats(pairs) then Bad else ReadFrom(pairs, |pairs|)
  {
    var results: seq<Parse<Value>> := seq(|pairs| + 1, k requires 0 <= k <= |pairs| => ReadFrom(pairs, k));
    var marked := seq(|pairs|, k requires 0 <= k < |pairs| => Seen(pairs, k));
    forall k | 0 <= k < |marked|
      ensures results[k] == if marked[k] then Bad else results[k + 1]
    {
      ReadRestStep(pairs, k);
    }
    Cascade(results, marked, 0);
    assert Repeats(pairs) <==> exists k :: 0 <= k < |marked| && marked[k] by {
      if k :| 0 <= k < |marked| && marked[k] {
        assert Seen(pairs, k);
      }
      if k :| 0 <= k < |pairs| && Seen(pairs, k) {
        assert marked[k];
      }
    }
  }

  lemma ReadRestEnd(pairs: seq<Pair>)
    ensures ReadFrom(pairs, |pairs|) == Good(Obj(Listed(pairs)), [])
  {
    assert Rest(pairs, |pairs|) == [RBRACE] + [];
    assert pairs[..|pairs|] == pairs;
    ReadObjectEnd(Listed(pairs), [], |pairs| == 0);
  }

  lemma ReadRestStep(pairs: seq<Pair>, i: nat)
    requires i < |pairs| && InRange(pairs[i].value)
    ensures ReadFrom(pairs, i) == if Seen(pairs, i) then Bad else ReadFrom(pairs, i + 1)
  {
    var tail, members, v := Rest(pairs, i + 1), Listed(pairs[..i]), pairs[i].value;
    RestStep(pairs, i);
    assert ReadValue(Print(v) + tail) == Good(v, tail) by {
      RestEnds(pairs, i + 1);
      ReadPrinted(v, tail);
    }
    ReadMember(Print(v), pairs[i].key, v, tail, members, i == 0);
    SeenIsListed(pairs, i);
    ListedGrows(pairs, i);
  }

  lemma RepeatsIff(pairs: seq<Pair>)
    ensures Repeats(pairs) <==> !DistinctKeys(pairs)
  {
    if !DistinctKeys(pairs) {
      var i, j :| 0 <= i < j < |pairs| && pairs[i].key == pairs[j].key;
      assert Seen(pairs, j);
    }
  }

  lemma ListingOpens(pairs: seq<Pair>)
    ensures Listing(pairs) == [LBRACE] + Rest(pairs, 0)
  {
    assert pairs[0..] == pairs;
    MarksAre();
  }

  /** A listing of members in any order reads as their object when no key is
      repeated, and is rejected when one is. */
  lemma ReadListing(pairs: seq<Pair>)
    requires PairsInRange(pairs)
    ensures ReadValue(Listing(pairs)) == if DistinctKeys(pairs) then Good(Obj(Listed(pairs)), []) else Bad
  {
    RepeatsIff(pairs);
    ListingOpens(pairs);
    ReadOpens(Rest(pairs, 0));
    ReadRest(pairs);
    ReadRestEnd(pairs);
    assert pairs[..0] == [];
  }

  // ----- Members are printed in key order -----

  ghost predicate InKeyOrder(pairs: seq<Pair>) {
    forall i, j :: 0 <= i < j < |pairs| ==> Less(pairs[i].key, pairs[j].key)
  }

  lemma OrderedKeysDiffer(pairs: seq<Pair>)
    requires InKeyOrder(pairs)
    ensures DistinctKeys(pairs)
  {
    forall i, j | 0 <= i < j < |pairs|
      ensures pairs[i].key != pairs[j].key
    {
      LessIsStrictTotalOrder(pairs[i].key, pairs[j].key, pairs[j].key);
    }
  }

  /** The value is an object with the listed members. */
  ghost predicate Holds(v: Value, pairs: seq<Pair>) {
    v.Obj? && forall i :: 0 <= i < |pairs| ==> pairs[i].key in v.members && v.members[pairs[i].key] == pairs[i].value
  }

  lemma HeldKeys(v: Value, pairs: seq<Pair>)
    requires Holds(v, pairs)
    ensures Keys(PairKeys(pairs)) <= v.members.Keys
  {
  }

  lemma {:induction false} MembersJoin(v: Value, pairs: seq<Pair>)
    requires Holds(v, pairs) && Keys(PairKeys(pairs)) <= v.members.Keys
    ensures PrintMembers(v, PairKeys(pairs)) == Joined(PrintedPairs(pairs))
    ensures pairs != [] ==> PrintMoreMembers(v, PairKeys(pairs)) == [COMMA] + Joined(PrintedPairs(pairs))
  {
    if pairs != [] {
      var rest := pairs[1..];
      assert PairKeys(pairs)[1..] == PairKeys(rest);
      HeldKeys(v, rest);
      MembersJoin(v, rest);
      MembersJoinFrom(v, pairs);
    }
  }

  lemma MembersJoinFrom(v: Value, pairs: seq<Pair>)
    requires pairs != [] && Holds(v, pairs) && Keys(PairKeys(pairs)) <= v.members.Keys && Keys(PairKeys(pairs[1..])) <= v.members.Keys
    requires pairs[1..] != [] ==> PrintMoreMembers(v, PairKeys(pairs[1..])) == [COMMA] + Joined(PrintedPairs(pairs[1..]))
    ensures PrintMembers(v, PairKeys(pairs)) == Joined(PrintedPairs(pairs))
    ensures PrintMoreMembers(v, PairKeys(pairs)) == [COMMA] + Joined(PrintedPairs(pairs))
  {
    var rest, ks := pairs[1..], PairKeys(pairs);
    assert ks[1..] == PairKeys(rest);
    var parts, more := PrintedPairs(pairs), PrintedPairs(rest);
    assert parts[1..] == more;
    PartIs(pairs);
    JoinedFrom(parts);
    assert parts[0] == PrintMember(v, ks[0]);
    assert Joined(parts) == PrintMember(v, ks[0]) + PrintMoreMembers(v, PairKeys(rest));
    Associate([COMMA], PrintMember(v, ks[0]), PrintMoreMembers(v, PairKeys(rest)));
  }

  /** An object is printed as the listing of its members in key order. */
  lemma ObjectsAre(pairs: seq<Pair>)
    requires InKeyOrder(pairs)
    ensures Print(Obj(Listed(pairs))) == Listing(pairs)
  {
    var v := Obj(Listed(pairs));
    ListedHolds(pairs);
    KeysAreSorted(pairs);
    HeldKeys(v, pairs);
    MembersJoin(v, pairs);
    PrintObject(v, PairKeys(pairs));
  }

  /** The same, for an object given by its members. */
  lemma ObjectPrints(v: Value, pairs: seq<Pair>)
    requires Holds(v, pairs) && InKeyOrder(pairs) && v.members.Keys <= Keys(PairKeys(pairs))
    ensures Print(v) == Listing(pairs)
  {
    ObjectsAre(pairs);
    ListedHolds(pairs);
    var all := Listed(pairs);
    forall k | k in v.members
      ensures k in all && all[k] == v.members[k]
    {
      var i :| 0 <= i < |pairs| && PairKeys(pairs)[i] == k;
    }
    AllKeys(pairs);
    assert v.members == all;
  }

  /** Neighbours in key order put the whole list in key order. */
  lemma {:induction false} NeighboursSuffice(pairs: seq<Pair>)
    requires forall i :: 0 < i < |pairs| ==> Less(pairs[i - 1].key, pairs[i].key)
    ensures InKeyOrder(pairs)
  {
    forall i, j | 0 <= i < j < |pairs|
      ensures Less(pairs[i].key, pairs[j].key)
    {
      NeighboursReach(pairs, i, j);
    }
  }

  lemma {:induction false} NeighboursReach(pairs: seq<Pair>, i: nat, j: nat)
    requires forall k :: 0 < k < |pairs| ==> Less(pairs[k - 1].key, pairs[k].key)
    requires i < j < |pairs|
    ensures Less(pairs[i].key, pairs[j].key)
    decreases j
  {
    assert Less(pairs[j - 1].key, pairs[j].key);
    if i < j - 1 {
      NeighboursReach(pairs, i, j - 1);
      LessIsStrictTotalOrder(pairs[i].key, pairs[j - 1].key, pairs[j].key);
    }
  }

  lemma PrintObject(v: Value, ks: seq<Text>)
    requires v.Obj? && ks == SortedKeys(v.members.Keys)
    ensures Print(v) == TextOf("{") + PrintMembers(v, ks) + TextOf("}")
  {
    MarksAre();
  }

  lemma ListedHolds(pairs: seq<Pair>)
    requires InKeyOrder(pairs)
    ensures Holds(Obj(Listed(pairs)), pairs)
  {
    OrderedKeysDiffer(pairs);
    forall i | 0 <= i < |pairs|
      ensures pairs[i].key in Listed(pairs) && Listed(pairs)[pairs[i].key] == pairs[i].value
    {
      ListedAt(pairs, i);
    }
  }

  lemma KeysAreSorted(pairs: seq<Pair>)
    requires InKeyOrder(pairs)
    ensures PairKeys(pairs) == SortedKeys(Listed(pairs).Keys)
  {
    AllKeys(pairs);
    IncreasingListUnique(PairKeys(pairs), SortedKeys(Listed(pairs).Keys));
  }

  lemma AllKeys(pairs: seq<Pair>)
    ensures Keys(PairKeys(pairs)) == Listed(pairs).Keys
  {
    forall k | k in Listed(pairs)
      ensures k in Keys(PairKeys(pairs))
    {
      var i :| 0 <= i < |pairs| && pairs[i].key == k;
      assert PairKeys(pairs)[i] == k;
    }
  }

  ghost predicate SamePairs(pairs: seq<Pair>, other: seq<Pair>) {
    forall p :: p in pairs <==> p in other
  }

  lemma SameListed(pairs: seq<Pair>, other: seq<Pair>)
    requires DistinctKeys(pairs) && DistinctKeys(other) && SamePairs(pairs, other)
    ensures Listed(pairs) == Listed(other)
  {
    ListedIn(pairs, other);
    ListedIn(other, pairs);
  }

  lemma ListedIn(pairs: seq<Pair>, other: seq<Pair>)
    requires DistinctKeys(pairs) && DistinctKeys(other) && SamePairs(pairs, other)
    ensures forall k :: k in Listed(pairs) ==> k in Listed(other) && Listed(other)[k] == Listed(pairs)[k]
  {
    forall k | k in Listed(pairs)
      ensures k in Listed(other) && Listed(other)[k] == Listed(pairs)[k]
    {
      var i :| 0 <= i < |pairs| && pairs[i].key == k;
      assert pairs[i] in other;
      var j :| 0 <= j < |other| && other[j] == pairs[i];
      ListedAt(pairs, i);
      ListedAt(other, j);
    }
  }

  /** Canonicalizing sorts: any listing of an object's members becomes the listing
      of the same members in key order. */
  lemma CanonicalizeSorts(pairs: seq<Pair>, sorted: seq<Pair>)
    requires PairsInRange(pairs) && DistinctKeys(pairs) && InKeyOrder(sorted) && SamePairs(pairs, sorted)
    ensures Canonicalize(Listing(pairs)) == Some(Listing(sorted))
  {
    OrderedKeysDiffer(sorted);
    SameListed(pairs, sorted);
    ReadListing(pairs);
    ObjectsAre(sorted);
  }

  /** A listing that repeats a key has no canonical form. */
  lemma RepeatedKeyRejected(pairs: seq<Pair>)
    requires PairsInRange(pairs) && !DistinctKeys(pairs)
    ensures Canonicalize(Listing(pairs)) == None
  {
    ReadListing(pairs);
  }

  // ----- Around a value -----

  const SPACES: Text := TextOf(" \t\n\r")

  const STARTS: Text := TextOf("{[\"-0123456789tfn")

  ghost predicate Blank(t: Text) {
    forall i :: 0 <= i < |t| ==> t[i] in SPACES
  }

  lemma {:induction false} BlankSkipped(blank: Text, t: Text)
    requires Blank(blank)
    ensures SkipSpace(blank + t) == SkipSpace(t)
  {
    if blank == [] {
      assert blank + t == t;
    } else {
      assert blank[0] in SPACES;
      assert (blank + t)[1..] == blank[1..] + t;
      BlankSkipped(blank[1..], t);
    }
  }

  lemma BlankRead(blank: Text, t: Text)
    requires Blank(blank)
    ensures ReadValue(blank + t) == ReadValue(t)
  {
    BlankSkipped(blank, t);
  }

  lemma BlankEnds(blank: Text)
    requires Blank(blank)
    ensures Ends(blank) && SkipSpace(blank) == []
  {
    assert blank != [] ==> blank[0] in SPACES;
    BlankSkipped(blank, []);
    assert blank + [] == blank;
  }

  /** Spaces, tabs and line ends around a text change nothing. */
  lemma BlanksAround(before: Text, v: Value, after: Text)
    requires Blank(before) && Blank(after) && InRange(v)
    ensures Canonicalize(before + Print(v) + after) == Some(Print(v))
  {
    BlankEnds(after);
    ReadPrinted(v, after);
    BlankRead(before, Print(v) + after);
    Associate(before, Print(v), after);
  }

  /** Anything else after a value is rejected. */
  lemma MoreRejected(v: Value, rest: Text)
    requires InRange(v) && rest != [] && rest[0] !in SPACES && !IsNumberRune(rest[0])
    ensures Canonicalize(Print(v) + rest) == None
  {
    ReadPrinted(v, rest);
    SpacesAre(rest[0]);
    NoSpaceToSkip(rest);
  }

  lemma SpacesAre(c: Rune)
    ensures IsSpace(c) <==> c in SPACES
  {
    assert SPACES[0] == 0x20 && SPACES[1] == 0x09 && SPACES[2] == 0x0A && SPACES[3] == 0x0D;
  }

  /** After the space, a text that has a canonical form starts as one of the value
      kinds does. */
  lemma StartsAre(t: Text)
    requires ReadValue(t).Good?
    ensures SkipSpace(t) != [] && SkipSpace(t)[0] in STARTS
  {
    var c := SkipSpace(t)[0];
    assert STARTS[0] == 0x7B && STARTS[1] == 0x5B && STARTS[2] == 0x22 && STARTS[3] == 0x2D;
    assert STARTS[14] == 0x74 && STARTS[15] == 0x66 && STARTS[16] == 0x6E;
    if IsDigit(c) {
      assert STARTS[4 + (c - 0x30)] == c;
    } else if IsNumberRune(c) {
      var u := SkipSpace(t);
      assert u[..NumberRun(u)][0] == c;
    }
  }
}
