/** String orders. Object keys are ordered by their UTF-16 code units (section
    3.2.3 of RFC 8785), plain strings by code point; both are strict total orders.
    A text is a sequence of Unicode scalar values. */
module KeyOrder {

  /** A Unicode scalar value. */
  type Rune = r: int | 0 <= r < 0xD800 || 0xE000 <= r <= 0x10FFFF

  type Text = seq<Rune>

  function Units(r: Rune): (u: seq<int>)
    ensures |u| == 1 || |u| == 2
  {
    if r < 0x10000 then [r]
    else [0xD800 + (r - 0x10000) / 0x400, 0xDC00 + (r - 0x10000) % 0x400]
  }

  function Utf16(t: Text): seq<int> {
    if t == [] then [] else Units(t[0]) + Utf16(t[1..])
  }

  /** The scalar value whose units start a well-formed unit sequence. */
  function FirstRune(u: seq<int>): int
    requires u != []
  {
    if 0xD800 <= u[0] < 0xDC00 && |u| >= 2 then 0x10000 + (u[0] - 0xD800) * 0x400 + (u[1] - 0xDC00) else u[0]
  }

  lemma UnitsDecode(r: Rune, rest: seq<int>)
    ensures FirstRune(Units(r) + rest) == r
  {
    if r >= 0x10000 {
      var x := r - 0x10000;
      assert x == (x / 0x400) * 0x400 + x % 0x400;
    }
  }

  /** No two scalar-value strings share their UTF-16 form. */
  lemma {:induction false} Utf16Injective(a: Text, b: Text)
    requires Utf16(a) == Utf16(b)
    ensures a == b
  {
    if a != [] && b != [] {
      UnitsDecode(a[0], Utf16(a[1..]));
      UnitsDecode(b[0], Utf16(b[1..]));
      assert a[0] == b[0];
      var n := |Units(a[0])|;
      assert Utf16(a)[n..] == Utf16(a[1..]) && Utf16(b)[n..] == Utf16(b[1..]);
      Utf16Injective(a[1..], b[1..]);
      assert a == [a[0]] + a[1..] && b == [b[0]] + b[1..];
    }
  }

  /** Lexicographic order of code units: `u` comes strictly before `v`. */
  predicate Before(u: seq<int>, v: seq<int>) {
    v != [] && (u == [] || u[0] < v[0] || (u[0] == v[0] && Before(u[1..], v[1..])))
  }

  /** The sequences agree up to `i`, where `u` ends first or has the smaller unit. */
  ghost predicate DecidedAt(u: seq<int>, v: seq<int>, i: int) {
    && 0 <= i <= |u| && i < |v| && u[..i] == v[..i]
    && (i == |u| || u[i] < v[i])
  }

  /** The order is the lexicographic one: the first difference decides. */
  lemma {:induction false} BeforeMeans(u: seq<int>, v: seq<int>)
    ensures Before(u, v) <==> exists i :: DecidedAt(u, v, i)
  {
    if Before(u, v) {
      var i := FirstDifference(u, v);
    }
    if i :| DecidedAt(u, v, i) {
      DifferenceDecides(u, v, i);
    }
  }

  lemma {:induction false} FirstDifference(u: seq<int>, v: seq<int>) returns (i: int)
    requires Before(u, v)
    ensures DecidedAt(u, v, i)
  {
    if u == [] || u[0] < v[0] {
      i := 0;
    } else {
      var j := FirstDifference(u[1..], v[1..]);
      i := j + 1;
      assert u[..i] == [u[0]] + u[1..][..j] && v[..i] == [v[0]] + v[1..][..j];
    }
  }

  lemma {:induction false} DifferenceDecides(u: seq<int>, v: seq<int>, i: int)
    requires DecidedAt(u, v, i)
    ensures Before(u, v)
  {
    if i > 0 {
      assert u[0] == u[..i][0] == v[..i][0] == v[0];
      assert u[1..][..i - 1] == u[..i][1..] && v[1..][..i - 1] == v[..i][1..];
      DifferenceDecides(u[1..], v[1..], i - 1);
    }
  }

  lemma {:induction false} BeforeTrichotomy(u: seq<int>, v: seq<int>)
    ensures u == v || Before(u, v) || Before(v, u)
    ensures !(Before(u, v) && Before(v, u)) && !Before(u, u)
  {
    if u != [] {
      BeforeTrichotomy(u[1..], if v == [] then [] else v[1..]);
      if v != [] && u[0] == v[0] && u[1..] == v[1..] {
        assert u == [u[0]] + u[1..] && v == [v[0]] + v[1..];
      }
    }
  }

  lemma {:induction false} BeforeTransitive(u: seq<int>, v: seq<int>, x: seq<int>)
    requires Before(u, v) && Before(v, x)
    ensures Before(u, x)
  {
    if u != [] && u[0] == v[0] == x[0] {
      BeforeTransitive(u[1..], v[1..], x[1..]);
    }
  }

  // ----- Plain strings, ordered by code point -----

  function TextOf(s: string): (t: Text)
    ensures |t| == |s| && forall i :: 0 <= i < |s| ==> t[i] == s[i] as int
  {
    seq(|s|, i requires 0 <= i < |s| => s[i] as int)
  }

  predicate StringBefore(a: string, b: string) {
    Before(TextOf(a), TextOf(b))
  }

  lemma TextOfInjective(a: string, b: string)
    requires TextOf(a) == TextOf(b)
    ensures a == b
  {
    forall i | 0 <= i < |a|
      ensures i < |b| && a[i] == b[i]
    {
      assert TextOf(a)[i] == TextOf(b)[i];
    }
  }

  /** Plain strings are ordered by the first code point in which they differ. */
  lemma StringBeforeMeans(a: string, b: string)
    ensures StringBefore(a, b) <==>
              exists i :: 0 <= i <= |a| && i < |b| && a[..i] == b[..i] && (i == |a| || a[i] < b[i])
  {
    BeforeMeans(TextOf(a), TextOf(b));
    if i :| DecidedAt(TextOf(a), TextOf(b), i) {
      forall k | 0 <= k < i
        ensures a[k] == b[k]
      {
        assert TextOf(a)[..i][k] == TextOf(b)[..i][k];
      }
      assert a[..i] == b[..i];
    }
    if i :| 0 <= i <= |a| && i < |b| && a[..i] == b[..i] && (i == |a| || a[i] < b[i]) {
      forall k | 0 <= k < i
        ensures TextOf(a)[k] == TextOf(b)[k]
      {
        assert a[..i][k] == b[..i][k];
      }
      assert DecidedAt(TextOf(a), TextOf(b), i);
    }
  }

  /** The order of plain strings is strict and total. */
  lemma StringOrderTotal(a: string, b: string, c: string)
    ensures !StringBefore(a, a)
    ensures !(StringBefore(a, b) && StringBefore(b, a))
    ensures a != b ==> StringBefore(a, b) || StringBefore(b, a)
    ensures StringBefore(a, b) && StringBefore(b, c) ==> StringBefore(a, c)
  {
    BeforeTrichotomy(TextOf(a), TextOf(a));
    BeforeTrichotomy(TextOf(a), TextOf(b));
    if TextOf(a) == TextOf(b) {
      TextOfInjective(a, b);
    }
    if StringBefore(a, b) && StringBefore(b, c) {
      BeforeTransitive(TextOf(a), TextOf(b), TextOf(c));
    }
  }

  // ----- Keys, ordered by UTF-16 code unit -----

  predicate Less(a: Text, b: Text) {
    Before(Utf16(a), Utf16(b))
  }

  /** The UTF-16 forms agree up to unit `i`, where `a` ends first or has the smaller one. */
  ghost predicate DecidedIn(a: Text, b: Text, i: int) {
    DecidedAt(Utf16(a), Utf16(b), i)
  }

  /** Keys are ordered by the first UTF-16 unit in which they differ, a key before
      its extensions. */
  lemma LessMeans(a: Text, b: Text)
    ensures Less(a, b) <==> exists i :: DecidedIn(a, b, i)
  {
    if Less(a, b) {
      var i := FirstDifference(Utf16(a), Utf16(b));
      assert DecidedIn(a, b, i);
    }
    if i :| DecidedIn(a, b, i) {
      DifferenceDecides(Utf16(a), Utf16(b), i);
    }
  }

  /** A scalar value of the basic plane is its own unit; any other is a high and a
      low surrogate that give its offset, ten bits each. */
  lemma UnitsMean(r: Rune)
    ensures r <= 0xFFFF ==> Utf16([r]) == [r]
    ensures r > 0xFFFF ==>
              && |Utf16([r])| == 2
              && 0xD800 <= Utf16([r])[0] <= 0xDBFF && 0xDC00 <= Utf16([r])[1] <= 0xDFFF
              && r == 0x10000 + (Utf16([r])[0] - 0xD800) * 1024 + (Utf16([r])[1] - 0xDC00)
  {
    var one := [r];
    assert one[1..] == [] && Units(r) + [] == Units(r);
    assert Utf16(one) == Units(r);
    if r > 0xFFFF {
      var x := r - 0x10000;
      assert x == (x / 0x400) * 0x400 + x % 0x400 && x / 0x400 < 0x400;
    }
  }

  lemma {:induction false} Utf16Concat(a: Text, b: Text)
    ensures Utf16(a + b) == Utf16(a) + Utf16(b)
  {
    if a == [] {
      assert a + b == b;
    } else {
      assert (a + b)[1..] == a[1..] + b;
      Utf16Concat(a[1..], b);
    }
  }

  /** Where unit order and scalar order part: after any common prefix, a key that
      goes on outside the basic plane comes before one that goes on above the
      surrogates, although its scalar value is greater. */
  lemma SurrogatesComeFirst(prefix: Text, r: Rune, q: Rune, a: Text, b: Text)
    requires r > 0xFFFF && 0xE000 <= q <= 0xFFFF
    ensures Less(prefix + [r] + a, prefix + [q] + b)
  {
    var u, v := Utf16(prefix + [r] + a), Utf16(prefix + [q] + b);
    UnitsMean(r);
    UnitsMean(q);
    Utf16Concat(prefix + [r], a);
    Utf16Concat(prefix, [r]);
    Utf16Concat(prefix + [q], b);
    Utf16Concat(prefix, [q]);
    var i := |Utf16(prefix)|;
    assert u[..i] == Utf16(prefix) == v[..i];
    assert u[i] == Utf16([r])[0] && v[i] == q;
    assert DecidedIn(prefix + [r] + a, prefix + [q] + b, i);
    LessMeans(prefix + [r] + a, prefix + [q] + b);
  }

  /** The key order is a strict total order on scalar-value strings. */
  lemma LessIsStrictTotalOrder(a: Text, b: Text, c: Text)
    ensures !Less(a, a)
    ensures !(Less(a, b) && Less(b, a))
    ensures a != b ==> Less(a, b) || Less(b, a)
    ensures Less(a, b) && Less(b, c) ==> Less(a, c)
  {
    BeforeTrichotomy(Utf16(a), Utf16(a));
    BeforeTrichotomy(Utf16(a), Utf16(b));
    if Utf16(a) == Utf16(b) {
      Utf16Injective(a, b);
    }
    if Less(a, b) && Less(b, c) {
      BeforeTransitive(Utf16(a), Utf16(b), Utf16(c));
    }
  }

  lemma {:induction false} BeforeAfterPrefix(u: seq<int>, v: seq<int>, i: nat)
    requires i <= |u| && i <= |v| && u[..i] == v[..i]
    ensures Before(u, v) <==> Before(u[i..], v[i..])
  {
    if i > 0 {
      assert u[0] == u[..i][0] == v[..i][0] == v[0];
      assert u[1..][..i - 1] == u[..i][1..] == v[..i][1..] == v[1..][..i - 1];
      BeforeAfterPrefix(u[1..], v[1..], i - 1);
      assert u[1..][i - 1..] == u[i..] && v[1..][i - 1..] == v[i..];
    } else {
      assert u[0..] == u && v[0..] == v;
    }
  }

  /** The comparison loop: negative, zero or positive as the first differing unit,
      then the lengths, decide. */
  method CompareUtf16(a: Text, b: Text) returns (r: int)
    ensures r < 0 <==> Less(a, b)
    ensures r > 0 <==> Less(b, a)
    ensures r == 0 <==> a == b
  {
    var ar, br := Utf16(a), Utf16(b);
    BeforeTrichotomy(ar, br);
    LessIsStrictTotalOrder(a, b, a);
    var i := 0;
    while i < |ar| && i < |br|
      invariant 0 <= i <= |ar| && i <= |br|
      invariant ar[..i] == br[..i]
    {
      BeforeAfterPrefix(ar, br, i);
      BeforeAfterPrefix(br, ar, i);
      if ar[i] < br[i] {
        return -1;
      }
      if ar[i] > br[i] {
        return 1;
      }
      i := i + 1;
    }
    BeforeAfterPrefix(ar, br, i);
    BeforeAfterPrefix(br, ar, i);
    if |ar| < |br| {
      return -1;
    }
    if |ar| > |br| {
      return 1;
    }
    assert ar == ar[..i] && br == br[..i];
    return 0;
  }

  // ----- Sorted key lists -----

  /** Strictly increasing, hence without duplicates. */
  predicate Increasing(ks: seq<Text>) {
    forall i, j :: 0 <= i < j < |ks| ==> Less(ks[i], ks[j])
  }

  function Keys(ks: seq<Text>): set<Text> {
    set k | k in ks
  }

  /** A set of keys has one increasing list. */
  lemma {:induction false} IncreasingListUnique(ks: seq<Text>, ls: seq<Text>)
    requires Increasing(ks) && Increasing(ls) && Keys(ks) == Keys(ls)
    ensures ks == ls
  {
    assert ks == [] || ks[0] in Keys(ls);
    assert ls == [] || ls[0] in Keys(ks);
    if ks != [] {
      SameLeast(ks, ls);
      TailKeys(ks);
      TailKeys(ls);
      IncreasingListUnique(ks[1..], ls[1..]);
      assert ks == [ks[0]] + ks[1..] && ls == [ls[0]] + ls[1..];
    }
  }

  lemma SameLeast(ks: seq<Text>, ls: seq<Text>)
    requires Increasing(ks) && Increasing(ls) && Keys(ks) == Keys(ls) && ks != [] && ls != []
    ensures ks[0] == ls[0]
  {
    assert ks[0] in Keys(ls) && ls[0] in Keys(ks);
    var i :| 0 <= i < |ls| && ls[i] == ks[0];
    var j :| 0 <= j < |ks| && ks[j] == ls[0];
    LessIsStrictTotalOrder(ks[0], ls[0], ks[0]);
  }

  lemma TailKeys(ks: seq<Text>)
    requires Increasing(ks) && ks != []
    ensures Increasing(ks[1..]) && Keys(ks[1..]) == Keys(ks) - {ks[0]}
  {
    LessIsStrictTotalOrder(ks[0], ks[0], ks[0]);
    assert ks == [ks[0]] + ks[1..];
  }

  /** Where `k` goes in an increasing list that does not hold it. */
  function Insert(ks: seq<Text>, k: Text): (r: seq<Text>)
    ensures |r| == |ks| + 1
  {
    if ks == [] || Less(k, ks[0]) then [k] + ks else [ks[0]] + Insert(ks[1..], k)
  }

  lemma {:induction false} InsertKeepsIncreasing(ks: seq<Text>, k: Text)
    requires Increasing(ks) && k !in ks
    ensures Increasing(Insert(ks, k)) && Keys(Insert(ks, k)) == Keys(ks) + {k}
  {
    if ks == [] {
      assert Insert(ks, k) == [k];
    } else {
      assert ks == [ks[0]] + ks[1..];
      if Less(k, ks[0]) {
        var r := Insert(ks, k);
        forall i, j | 0 <= i < j < |r|
          ensures Less(r[i], r[j])
        {
          if i == 0 && j > 1 {
            LessIsStrictTotalOrder(k, ks[0], ks[j - 1]);
          }
        }
      } else {
        TailKeys(ks);
        InsertKeepsIncreasing(ks[1..], k);
        LessIsStrictTotalOrder(k, ks[0], k);
        var rest := Insert(ks[1..], k);
        HeadBeforeAll(ks, k, rest);
      }
    }
  }

  lemma HeadBeforeAll(ks: seq<Text>, k: Text, rest: seq<Text>)
    requires Increasing(ks) && ks != [] && Less(ks[0], k) && Increasing(rest) && Keys(rest) == Keys(ks[1..]) + {k}
    ensures Increasing([ks[0]] + rest) && Keys([ks[0]] + rest) == Keys(rest) + {ks[0]}
  {
    var r := [ks[0]] + rest;
    forall i, j | 0 <= i < j < |r|
      ensures Less(r[i], r[j])
    {
      if i == 0 {
        assert rest[j - 1] in Keys(rest);
        if rest[j - 1] != k {
          var m :| 0 <= m < |ks[1..]| && ks[1..][m] == rest[j - 1];
          assert Less(ks[0], ks[m + 1]);
        }
      }
    }
  }

  /** The one increasing list of a finite set of keys. */
  ghost function SortedKeys(s: set<Text>): (ks: seq<Text>)
    ensures Increasing(ks) && Keys(ks) == s
  {
    if s == {} then []
    else
      var k :| k in s;
      var rest := SortedKeys(s - {k});
      assert k !in Keys(rest);
      InsertKeepsIncreasing(rest, k);
      Insert(rest, k)
  }

  /** Collect the keys of a map in whatever order iteration gives, then sort them
      by the comparison: the result does not depend on that order. */
  method SortKeys(s: set<Text>) returns (ks: seq<Text>)
    ensures ks == SortedKeys(s)
  {
    ks := [];
    var pending := s;
    while pending != {}
      invariant pending <= s
      invariant Increasing(ks) && Keys(ks) == s - pending
      decreases |pending|
    {
      var k :| k in pending;
      assert k !in Keys(ks);
      InsertKeepsIncreasing(ks, k);
      ks := InsertSorted(ks, k);
      pending := pending - {k};
    }
    IncreasingListUnique(ks, SortedKeys(s));
  }

  method InsertSorted(ks: seq<Text>, k: Text) returns (r: seq<Text>)
    ensures r == Insert(ks, k)
  {
    var i := 0;
    while i < |ks|
      invariant 0 <= i <= |ks|
      invariant Insert(ks, k) == ks[..i] + Insert(ks[i..], k)
    {
      var c := CompareUtf16(k, ks[i]);
      if c < 0 {
        break;
      }
      assert ks[i..][1..] == ks[i + 1..];
      i := i + 1;
    }
    r := ks[..i] + [k] + ks[i..];
  }
}
