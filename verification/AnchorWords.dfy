/** What the anchor file and the signed tree head look like as texts. */
module AnchorWords {
  import opened KeyOrder
  import opened Json
  import opened Records
  import opened Evidence
  import opened Wire
  import opened JsonWords
  import opened AnchorBuilder

  /** Members by name. */
  function Member(key: string, v: Value): Pair {
    Pair(TextOf(key), v)
  }

  predicate Basic(s: string) {
    forall i :: 0 <= i < |s| ==> s[i] as int < 0xD800
  }

  lemma {:induction false} BasicUnits(t: Text)
    requires forall i :: 0 <= i < |t| ==> t[i] < 0x10000
    ensures Utf16(t) == t
  {
    if t != [] {
      BasicUnits(t[1..]);
      assert t == [t[0]] + t[1..];
    }
  }

  lemma BasicLess(a: string, b: string, i: nat)
    requires Basic(a) && Basic(b) && i <= |a| && i < |b| && a[..i] == b[..i] && (i == |a| || a[i] < b[i])
    ensures Less(TextOf(a), TextOf(b))
  {
    var t, u := TextOf(a), TextOf(b);
    BasicUnits(t);
    BasicUnits(u);
    forall k | 0 <= k < i
      ensures t[k] == u[k]
    {
      assert a[..i][k] == b[..i][k];
    }
    assert t[..i] == u[..i];
    DifferenceDecides(t, u, i);
  }

  lemma NamedKeys(v: Value, pairs: seq<Pair>)
    requires v.Obj? && v.members.Keys == set p | p in pairs :: p.key
    ensures v.members.Keys <= Keys(PairKeys(pairs))
  {
    forall k | k in v.members
      ensures k in Keys(PairKeys(pairs))
    {
      var i :| 0 <= i < |pairs| && pairs[i].key == k;
      assert PairKeys(pairs)[i] == k;
    }
  }

  lemma PrintsAs(v: Value, pairs: seq<Pair>)
    requires Holds(v, pairs) && v.members.Keys == set p | p in pairs :: p.key
    requires forall i :: 0 < i < |pairs| ==> Less(pairs[i - 1].key, pairs[i].key)
    ensures Print(v) == Listing(pairs)
  {
    NeighboursSuffice(pairs);
    NamedKeys(v, pairs);
    ObjectPrints(v, pairs);
  }

  /** The bytes a log signs: log, root and size, in this order. */
  lemma HeadIsPrinted(h: SignedHead)
    ensures Print(HeadValue(h)) ==
              Listing([Member("log", Str(TextOf(h.log))), Member("root", Str(TextOf(h.root))), Member("size", Int(h.size))])
  {
    var pairs := [Member("log", Str(TextOf(h.log))), Member("root", Str(TextOf(h.root))), Member("size", Int(h.size))];
    BasicLess("log", "root", 0);
    BasicLess("root", "size", 0);
    PrintsAs(HeadValue(h), pairs);
  }

  function Proof(e: AnchorEntry): Value {
    Arr(seq(|e.proof|, i requires 0 <= i < |e.proof| => Str(TextOf(e.proof[i]))))
  }

  lemma ProofIs(e: AnchorEntry)
    ensures Proof(e) == Arr(seq(|e.proof|, i requires 0 <= i < |e.proof| => StrValue(e.proof[i])))
  {
  }

  lemma ThreePrint(a: Text, b: Text, c: Text, x: Value, y: Value, z: Value)
    requires Less(a, b) && Less(b, c)
    ensures Print(Obj(map[b := y, c := z, a := x])) == Listing([Pair(a, x), Pair(b, y), Pair(c, z)])
  {
    var v, pairs := Obj(map[b := y, c := z, a := x]), [Pair(a, x), Pair(b, y), Pair(c, z)];
    NeighboursSuffice(pairs);
    OrderedKeysDiffer(pairs);
    assert pairs[0].key != pairs[1].key && pairs[0].key != pairs[2].key && pairs[1].key != pairs[2].key;
    PrintsAs(v, pairs);
  }

  lemma FourPrint(a: Text, b: Text, c: Text, d: Text, x: Value, y: Value, z: Value, u: Value)
    requires Less(a, b) && Less(b, c) && Less(c, d)
    ensures Print(Obj(map[d := u, a := x, c := z, b := y])) == Listing([Pair(a, x), Pair(b, y), Pair(c, z), Pair(d, u)])
  {
    var v, pairs := Obj(map[d := u, a := x, c := z, b := y]), [Pair(a, x), Pair(b, y), Pair(c, z), Pair(d, u)];
    NeighboursSuffice(pairs);
    OrderedKeysDiffer(pairs);
    assert pairs[0].key != pairs[1].key && pairs[0].key != pairs[2].key && pairs[1].key != pairs[2].key;
    assert pairs[0].key != pairs[3].key && pairs[1].key != pairs[3].key && pairs[2].key != pairs[3].key;
    PrintsAs(v, pairs);
  }

  /** Six different keys. */
  ghost predicate Ordered(a: Text, b: Text, c: Text, d: Text, e: Text, f: Text) {
    Less(a, b) && Less(b, c) && Less(c, d) && Less(d, e) && Less(e, f)
  }

  lemma SixDiffer(a: Text, b: Text, c: Text, d: Text, e: Text, f: Text)
    requires Ordered(a, b, c, d, e, f)
    ensures a != b && a != c && a != d && a != e && a != f && b != c && b != d && b != e && b != f
    ensures c != d && c != e && c != f && d != e && d != f && e != f
  {
    var n := Null;
    var pairs := [Pair(a, n), Pair(b, n), Pair(c, n), Pair(d, n), Pair(e, n), Pair(f, n)];
    NeighboursSuffice(pairs);
    OrderedKeysDiffer(pairs);
    assert forall i, j :: 0 <= i < j < 6 ==> pairs[i].key != pairs[j].key;
    assert pairs[0].key == a && pairs[1].key == b && pairs[2].key == c && pairs[3].key == d && pairs[4].key == e && pairs[5].key == f;
  }

  function Six(a: Text, b: Text, c: Text, d: Text, e: Text, f: Text, p: Value, q: Value, r: Value, s: Value, t: Value, u: Value): seq<Pair> {
    [Pair(a, p), Pair(b, q), Pair(c, r), Pair(d, s), Pair(e, t), Pair(f, u)]
  }

  lemma SixKeys(m: Members, pairs: seq<Pair>)
    requires |pairs| == 6
    requires m.Keys == {pairs[0].key, pairs[1].key, pairs[2].key, pairs[3].key, pairs[4].key, pairs[5].key}
    ensures m.Keys == set p | p in pairs :: p.key
  {
    assert forall i :: 0 <= i < 6 ==> pairs[i] in pairs;
  }

  lemma SixHold(a: Text, b: Text, c: Text, d: Text, e: Text, f: Text, p: Value, q: Value, r: Value, s: Value, t: Value, u: Value)
    requires a != b && a != c && a != d && a != e && a != f && b != c && b != d && b != e && b != f
    requires c != d && c != e && c != f && d != e && d != f && e != f
    ensures Holds(Obj(map[d := s, e := t, f := u, b := q, a := p, c := r]), Six(a, b, c, d, e, f, p, q, r, s, t, u))
  {
    var m := map[d := s, e := t, f := u, b := q, a := p, c := r];
    assert m[a] == p && m[b] == q && m[c] == r && m[d] == s && m[e] == t && m[f] == u;
  }

  lemma SixPrint(a: Text, b: Text, c: Text, d: Text, e: Text, f: Text, p: Value, q: Value, r: Value, s: Value, t: Value, u: Value)
    requires Ordered(a, b, c, d, e, f)
    ensures Print(Obj(map[d := s, e := t, f := u, b := q, a := p, c := r])) == Listing(Six(a, b, c, d, e, f, p, q, r, s, t, u))
  {
    var m, pairs := map[d := s, e := t, f := u, b := q, a := p, c := r], Six(a, b, c, d, e, f, p, q, r, s, t, u);
    SixDiffer(a, b, c, d, e, f);
    SixHold(a, b, c, d, e, f, p, q, r, s, t, u);
    SixKeys(m, pairs);
    PrintsAs(Obj(m), pairs);
  }

  lemma EntryKeysOrdered()
    ensures Ordered(TextOf("index"), TextOf("leaf"), TextOf("proof"), TextOf("recorder"), TextOf("run"), TextOf("seq"))
  {
    BasicLess("index", "leaf", 0);
    BasicLess("leaf", "proof", 0);
    BasicLess("proof", "recorder", 0);
    BasicLess("recorder", "run", 1);
    BasicLess("run", "seq", 0);
  }

  /** An entry as printed. */
  lemma EntryIsPrinted(e: AnchorEntry)
    ensures Print(EntryValue(e)) ==
              Listing([Member("index", Int(e.index)), Member("leaf", Str(TextOf(e.leaf))), Member("proof", Proof(e)),
                       Member("recorder", Str(TextOf(e.recorder))), Member("run", Str(TextOf(e.run))), Member("seq", Int(e.seqno))])
  {
    EntryKeysOrdered();
    ProofIs(e);
    SixPrint(TextOf("index"), TextOf("leaf"), TextOf("proof"), TextOf("recorder"), TextOf("run"), TextOf("seq"),
             Int(e.index), Str(TextOf(e.leaf)), Proof(e), Str(TextOf(e.recorder)), Str(TextOf(e.run)), Int(e.seqno));
  }

  function HeadMember(head: TreeHead): Value {
    Obj(map[TextOf("size") := Int(head.size), TextOf("root") := Str(TextOf(head.root)),
            TextOf("signed") := Str(TextOf(head.signed)), TextOf("sig") := Str(TextOf(head.sig))])
  }

  function EntryValues(entries: seq<AnchorEntry>): (vs: seq<Value>)
    ensures |vs| == |entries| && forall i :: 0 <= i < |entries| ==> vs[i] == EntryValue(entries[i])
  {
    seq(|entries|, i requires 0 <= i < |entries| => EntryValue(entries[i]))
  }

  /** The file as printed: the entries, the log's name and the signed head. */
  lemma FileIsPrinted(file: AnchorFile)
    ensures Print(FileValue(file)) ==
              Listing([Member("entries", Arr(EntryValues(file.entries))), Member("log", Str(TextOf(file.log))), Member("tree_head", HeadMember(file.head))])
    ensures Print(HeadMember(file.head)) ==
              Listing([Member("root", Str(TextOf(file.head.root))), Member("sig", Str(TextOf(file.head.sig))),
                       Member("signed", Str(TextOf(file.head.signed))), Member("size", Int(file.head.size))])
  {
    FileKeysOrdered();
    assert EntryValues(file.entries) == seq(|file.entries|, i requires 0 <= i < |file.entries| => EntryValue(file.entries[i]));
    ThreePrint(TextOf("entries"), TextOf("log"), TextOf("tree_head"),
               Arr(EntryValues(file.entries)), Str(TextOf(file.log)), HeadMember(file.head));
    FourPrint(TextOf("root"), TextOf("sig"), TextOf("signed"), TextOf("size"),
              Str(TextOf(file.head.root)), Str(TextOf(file.head.sig)), Str(TextOf(file.head.signed)), Int(file.head.size));
  }

  lemma FileKeysOrdered()
    ensures Less(TextOf("entries"), TextOf("log")) && Less(TextOf("log"), TextOf("tree_head"))
    ensures Less(TextOf("root"), TextOf("sig")) && Less(TextOf("sig"), TextOf("signed")) && Less(TextOf("signed"), TextOf("size"))
  {
    BasicLess("entries", "log", 0);
    BasicLess("log", "tree_head", 0);
    BasicLess("root", "sig", 0);
    BasicLess("sig", "signed", 3);
    BasicLess("signed", "size", 2);
  }
}
