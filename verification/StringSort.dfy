/** Sorting plain strings by code point, as the library sort does. The result
    depends on which strings are listed, and how often, and on nothing else; so a
    map's keys have one sorted list whatever order they are collected in. */
module StringSort {
  import opened Basics
  import opened KeyOrder

  predicate AtMost(a: string, b: string) {
    a == b || StringBefore(a, b)
  }

  ghost predicate InOrder(s: seq<string>) {
    forall i, j :: 0 <= i < j < |s| ==> AtMost(s[i], s[j])
  }

  function InsertString(s: seq<string>, x: string): (r: seq<string>)
    ensures multiset(r) == multiset(s) + multiset{x}
  {
    if s == [] then [x]
    else if AtMost(x, s[0]) then
      assert [x] + s == [x] + s[..];
      [x] + s
    else
      assert s == [s[0]] + s[1..];
      [s[0]] + InsertString(s[1..], x)
  }

  /** The library sort, as insertion into a sorted list. */
  function SortStrings(s: seq<string>): (r: seq<string>)
    ensures multiset(r) == multiset(s)
  {
    if s == [] then []
    else
      assert s == s[..|s| - 1] + [s[|s| - 1]];
      InsertString(SortStrings(s[..|s| - 1]), s[|s| - 1])
  }

  lemma InMultiset(s: seq<string>, x: string)
    ensures x in s <==> x in multiset(s)
  {
  }

  lemma ConsInOrder(x: string, s: seq<string>)
    requires InOrder(s) && forall y :: y in s ==> AtMost(x, y)
    ensures InOrder([x] + s)
  {
  }

  lemma {:induction false} InsertInOrder(s: seq<string>, x: string)
    requires InOrder(s)
    ensures InOrder(InsertString(s, x))
  {
    if s != [] {
      if AtMost(x, s[0]) {
        forall y | y in s
          ensures AtMost(x, y)
        {
          StringOrderTotal(x, s[0], y);
        }
        ConsInOrder(x, s);
      } else {
        StringOrderTotal(x, s[0], x);
        var rest := InsertString(s[1..], x);
        InsertInOrder(s[1..], x);
        forall y | y in rest
          ensures AtMost(s[0], y)
        {
          InMultiset(rest, y);
          InMultiset(s[1..], y);
        }
        ConsInOrder(s[0], rest);
      }
    }
  }

  lemma {:induction false} SortedInOrder(s: seq<string>)
    ensures InOrder(SortStrings(s))
  {
    if s != [] {
      SortedInOrder(s[..|s| - 1]);
      InsertInOrder(SortStrings(s[..|s| - 1]), s[|s| - 1]);
    }
  }

  /** A multiset of strings has one sorted list. */
  lemma {:induction false} SortedUnique(s: seq<string>, t: seq<string>)
    requires InOrder(s) && InOrder(t) && multiset(s) == multiset(t)
    ensures s == t
  {
    assert |s| == |multiset(s)| == |multiset(t)| == |t|;
    if s != [] {
      InMultiset(s, t[0]);
      InMultiset(t, s[0]);
      assert s[0] in multiset(s) && t[0] in multiset(t);
      StringOrderTotal(s[0], t[0], s[0]);
      assert s[0] == t[0];
      assert s == [s[0]] + s[1..] && t == [t[0]] + t[1..];
      assert multiset(s[1..]) == multiset(s) - multiset{s[0]};
      assert multiset(t[1..]) == multiset(t) - multiset{t[0]};
      SortedUnique(s[1..], t[1..]);
    }
  }

  /** Sorting forgets the order and nothing else. */
  lemma SortForgetsOrder(left: seq<string>, right: seq<string>)
    ensures SortStrings(left) == SortStrings(right) <==> multiset(left) == multiset(right)
    ensures |SortStrings(left)| == |left|
  {
    SortedInOrder(left);
    SortedInOrder(right);
    if multiset(left) == multiset(right) {
      SortedUnique(SortStrings(left), SortStrings(right));
    }
    assert |SortStrings(left)| == |multiset(SortStrings(left))| == |multiset(left)| == |left|;
  }

  function Elements(s: seq<string>): set<string> {
    set x | x in s
  }

  lemma {:induction false} DistinctIffCounts(s: seq<string>)
    ensures Distinct(s) <==> forall x :: multiset(s)[x] <= 1
    ensures Distinct(s) ==> |Elements(s)| == |s|
  {
    if s != [] {
      var init, last := s[..|s| - 1], s[|s| - 1];
      assert s == init + [last];
      DistinctIffCounts(init);
      InMultiset(init, last);
      assert Elements(s) == Elements(init) + {last};
      DistinctAppend(init, last);
      assert forall x :: multiset(s)[x] == multiset(init)[x] + if x == last then 1 else 0;
    }
  }

  lemma DistinctAppend(init: seq<string>, last: string)
    ensures Distinct(init + [last]) <==> Distinct(init) && last !in init
  {
    var s := init + [last];
    if Distinct(s) {
      forall i, j | 0 <= i < j < |init|
        ensures init[i] != init[j]
      {
        assert s[i] != s[j];
      }
      forall k | 0 <= k < |init|
        ensures init[k] != last
      {
        assert s[k] != s[|init|];
      }
    }
  }

  lemma SameCounts(s: seq<string>, t: seq<string>)
    requires multiset(s) == multiset(t) && Distinct(s)
    ensures Distinct(t) && Elements(s) == Elements(t)
  {
    DistinctIffCounts(s);
    DistinctIffCounts(t);
    forall x
      ensures x in s <==> x in t
    {
      InMultiset(s, x);
      InMultiset(t, x);
    }
  }

  /** The one sorted list of a set of strings. */
  ghost function SortedIds(ids: set<string>): (s: seq<string>)
    ensures InOrder(s) && Distinct(s) && Elements(s) == ids
  {
    if ids == {} then []
    else
      var id :| id in ids;
      var rest := SortedIds(ids - {id});
      AddSorted(rest, id);
      InsertString(rest, id)
  }

  /** Ids ascend: the first code point in which two differ is smaller in the earlier
      one, which may also be a prefix of the later. */
  lemma SortedIdsAscend(ids: set<string>, i: nat, j: nat)
    requires i < j < |SortedIds(ids)|
    ensures var a, b := SortedIds(ids)[i], SortedIds(ids)[j];
            exists k :: 0 <= k <= |a| && k < |b| && a[..k] == b[..k] && (k == |a| || a[k] < b[k])
  {
    var a, b := SortedIds(ids)[i], SortedIds(ids)[j];
    assert AtMost(a, b) && a != b;
    StringBeforeMeans(a, b);
  }

  lemma AddSorted(s: seq<string>, id: string)
    requires InOrder(s) && Distinct(s) && id !in s
    ensures InOrder(InsertString(s, id)) && Distinct(InsertString(s, id))
    ensures Elements(InsertString(s, id)) == Elements(s) + {id}
  {
    InsertInOrder(s, id);
    assert multiset(InsertString(s, id)) == multiset(s + [id]);
    DistinctAppend(s, id);
    SameCounts(s + [id], InsertString(s, id));
  }

  /** Collect the ids in whatever order iteration gives, then sort them. */
  method SortIds(ids: set<string>) returns (s: seq<string>)
    ensures s == SortedIds(ids)
  {
    var listed: seq<string> := [];
    var rest := ids;
    while rest != {}
      invariant rest <= ids && Distinct(listed) && Elements(listed) == ids - rest
      decreases |rest|
    {
      var id :| id in rest;
      DistinctAppend(listed, id);
      assert Elements(listed + [id]) == Elements(listed) + {id};
      listed := listed + [id];
      rest := rest - {id};
    }
    s := SortStrings(listed);
    SortedListIsUnique(listed, ids);
  }

  /** Sorting any listing of the set gives its one sorted list. */
  lemma SortedListIsUnique(listed: seq<string>, ids: set<string>)
    requires Distinct(listed) && Elements(listed) == ids
    ensures SortStrings(listed) == SortedIds(ids)
  {
    SortedInOrder(listed);
    SameElementsSameCounts(listed, SortedIds(ids));
    SortedUnique(SortStrings(listed), SortedIds(ids));
  }

  lemma {:induction false} SameElementsSameCounts(s: seq<string>, t: seq<string>)
    requires Distinct(s) && Distinct(t) && Elements(s) == Elements(t)
    ensures multiset(s) == multiset(t)
  {
    DistinctIffCounts(s);
    DistinctIffCounts(t);
    forall x
      ensures multiset(s)[x] == multiset(t)[x]
    {
      InMultiset(s, x);
      InMultiset(t, x);
      assert x in Elements(s) <==> x in Elements(t);
    }
  }
}
