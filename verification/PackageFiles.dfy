/** File lists of an evaluation package: indexes, comparisons, and the validator. */
module PackageFiles {
  import opened Basics
  import KeyOrder

  /** A directory: the regular files it holds, by slash-separated relative path. */
  type Tree = map<string, Bytes>

  datatype Blob = Blob(path: string, size: int, digest: string)

  function BlobOf(sha: HashFn, path: string, data: Bytes): Blob {
    Blob(path, |data|, Hex(sha(data)))
  }

  const MANIFEST_NAME := "manifest.json"
  const SIGNATURE_NAME := "manifest.sig"

  /** A package cannot list its own manifest or signature. */
  predicate Listable(path: string) {
    path != MANIFEST_NAME && path != SIGNATURE_NAME
  }

  function Listed(t: Tree): Tree {
    map p | p in t && Listable(p) :: t[p]
  }

  function Contents(t: Tree): set<Bytes> {
    set p | p in t :: t[p]
  }

  // ----- Sorted lists -----

  /** Paths are sorted as strings. */
  predicate PathBefore(a: string, b: string) {
    KeyOrder.StringBefore(a, b)
  }

  lemma PathBeforeAsymmetric(a: string, b: string)
    ensures !(PathBefore(a, b) && PathBefore(b, a))
  {
    KeyOrder.StringOrderTotal(a, b, a);
  }

  ghost predicate Ascending(names: seq<string>) {
    forall i, j :: 0 <= i < j < |names| ==> PathBefore(names[i], names[j])
  }

  ghost predicate Sorted(bs: seq<Blob>) {
    forall i, j :: 0 <= i < j < |bs| ==> PathBefore(bs[i].path, bs[j].path)
  }

  /** Paths ascend by the first code point in which they differ. */
  lemma SortedAscends(bs: seq<Blob>, i: nat, j: nat)
    requires Sorted(bs) && i < j < |bs|
    ensures var a, b := bs[i].path, bs[j].path;
            exists k :: 0 <= k <= |a| && k < |b| && a[..k] == b[..k] && (k == |a| || a[k] < b[k])
  {
    KeyOrder.StringBeforeMeans(bs[i].path, bs[j].path);
  }

  lemma SortedPathsUnique(bs: seq<Blob>, i: nat, j: nat)
    requires Sorted(bs) && i < |bs| && j < |bs| && bs[i].path == bs[j].path
    ensures i == j
  {
    PathBeforeAsymmetric(bs[i].path, bs[j].path);
  }

  lemma SortedTail(bs: seq<Blob>, b: Blob)
    requires Sorted(bs) && bs != []
    ensures Sorted(bs[1..])
    ensures b in bs[1..] <==> b in bs && b != bs[0]
  {
    assert bs == [bs[0]] + bs[1..];
    if bs[0] in bs[1..] {
      var j :| 0 <= j < |bs[1..]| && bs[1..][j] == bs[0];
      SortedPathsUnique(bs, 0, j + 1);
    }
  }

  /** Two sorted lists with the same entries are the same list. */
  lemma {:induction false} SortedListUnique(bs: seq<Blob>, cs: seq<Blob>)
    requires Sorted(bs) && Sorted(cs) && forall b :: b in bs <==> b in cs
    ensures bs == cs
  {
    assert |bs| > 0 ==> bs[0] in cs;
    assert |cs| > 0 ==> cs[0] in bs;
    if bs != [] {
      SameFirst(bs, cs);
      forall b
        ensures b in bs[1..] <==> b in cs[1..]
      {
        SortedTail(bs, b);
        SortedTail(cs, b);
      }
      SortedTail(bs, bs[0]);
      SortedTail(cs, cs[0]);
      SortedListUnique(bs[1..], cs[1..]);
      assert bs == [bs[0]] + bs[1..] && cs == [cs[0]] + cs[1..];
    }
  }

  lemma SameFirst(bs: seq<Blob>, cs: seq<Blob>)
    requires Sorted(bs) && Sorted(cs) && bs != [] && cs != [] && bs[0] in cs && cs[0] in bs
    ensures bs[0] == cs[0]
  {
    var i :| 0 <= i < |cs| && cs[i] == bs[0];
    var j :| 0 <= j < |bs| && bs[j] == cs[0];
    PathBeforeAsymmetric(bs[0].path, cs[0].path);
  }

  /** The list is exactly the index of the tree. */
  ghost predicate IsIndex(sha: HashFn, bs: seq<Blob>, t: Tree) {
    Sorted(bs) && forall b :: b in bs <==> b.path in t && Listable(b.path) && b == BlobOf(sha, b.path, t[b.path])
  }

  /** The entries whose path is selected, in order. */
  function Keep(bs: seq<Blob>, select: string -> bool): (r: seq<Blob>)
    ensures forall b :: b in r <==> b in bs && select(b.path)
  {
    if bs == [] then []
    else
      var last := bs[|bs| - 1];
      assert bs == bs[..|bs| - 1] + [last];
      Keep(bs[..|bs| - 1], select) + if select(last.path) then [last] else []
  }

  lemma KeepAppend(bs: seq<Blob>, i: nat, select: string -> bool)
    requires i < |bs|
    ensures Keep(bs[..i + 1], select) == Keep(bs[..i], select) + if select(bs[i].path) then [bs[i]] else []
  {
    assert bs[..i + 1][..i] == bs[..i];
  }

  lemma {:induction false} KeepSorted(bs: seq<Blob>, select: string -> bool)
    requires Sorted(bs)
    ensures Sorted(Keep(bs, select))
  {
    if bs != [] {
      var init, last := bs[..|bs| - 1], bs[|bs| - 1];
      KeepSorted(init, select);
      var kept := Keep(init, select);
      forall i | 0 <= i < |kept|
        ensures PathBefore(kept[i].path, last.path)
      {
        assert kept[i] in kept;
        var k :| 0 <= k < |init| && init[k] == kept[i];
        assert bs[k] == init[k];
      }
    }
  }

  // ----- The comparisons before signing -----

  function Outside(paths: seq<string>): string -> bool {
    p => p !in paths
  }

  predicate HasPrefix(s: string, prefix: string) {
    prefix <= s
  }

  predicate Within(root: string, path: string) {
    path == root || HasPrefix(path, root + "/")
  }

  predicate WithinAny(roots: seq<string>, path: string) {
    exists i :: 0 <= i < |roots| && Within(roots[i], path)
  }

  function Inside(roots: seq<string>): string -> bool {
    p => WithinAny(roots, p)
  }

  /** Index-by-index comparison of two lists, as both comparisons end. */
  method SameEntries(expected: seq<Blob>, actual: seq<Blob>) returns (ok: bool)
    ensures ok <==> expected == actual
  {
    var index := 0;
    while index < |expected| || index < |actual|
      invariant 0 <= index <= |expected| && index <= |actual|
      invariant expected[..index] == actual[..index]
      decreases |expected| + |actual| - index
    {
      if index == |expected| {
        return false;
      }
      if index == |actual| {
        return false;
      }
      if expected[index] != actual[index] {
        return false;
      }
      index := index + 1;
    }
    assert expected == expected[..index] && actual == actual[..index];
    return true;
  }

  /** The final list agrees with the snapshot outside the paths the emitter wrote. */
  method AssertInputsMatch(actual: seq<Blob>, expected: seq<Blob>, expectedNew: seq<string>) returns (ok: bool)
    ensures ok <==> Keep(actual, Outside(expectedNew)) == expected
  {
    var permitted: set<string> := {};
    for i := 0 to |expectedNew|
      invariant forall p :: p in permitted <==> p in expectedNew[..i]
    {
      permitted := permitted + {expectedNew[i]};
    }
    assert expectedNew[..|expectedNew|] == expectedNew;
    var filtered: seq<Blob> := [];
    for i := 0 to |actual|
      invariant filtered == Keep(actual[..i], Outside(expectedNew))
    {
      KeepAppend(actual, i, Outside(expectedNew));
      if actual[i].path !in permitted {
        filtered := filtered + [actual[i]];
      }
    }
    assert actual[..|actual|] == actual;
    ok := SameEntries(expected, filtered);
  }

  /** The first entry with a path. */
  function Find(files: seq<Blob>, path: string): (r: Option<Blob>)
    ensures r.Some? ==> r.value in files && r.value.path == path
    ensures r.None? ==> forall b :: b in files ==> b.path != path
  {
    if files == [] then None
    else if files[0].path == path then Some(files[0])
    else
      assert files == [files[0]] + files[1..];
      Find(files[1..], path)
  }

  method AssertCaptured(sha: HashFn, files: seq<Blob>, path: string, captured: Bytes) returns (ok: bool)
    ensures ok <==> Find(files, path) == Some(BlobOf(sha, path, captured))
  {
    var expected := BlobOf(sha, path, captured);
    for i := 0 to |files|
      invariant Find(files, path) == Find(files[i..], path)
    {
      assert files[i..][0] == files[i] && files[i..][1..] == files[i + 1..];
      if files[i].path == path {
        return files[i] == expected;
      }
    }
    return false;
  }

  /** The final list agrees with the evaluated replica on the evaluated roots. */
  method AssertEvaluated(files: seq<Blob>, evaluated: seq<Blob>, roots: seq<string>) returns (ok: bool)
    ensures ok <==> Keep(files, Inside(roots)) == evaluated
  {
    var actual: seq<Blob> := [];
    for i := 0 to |files|
      invariant actual == Keep(files[..i], Inside(roots))
    {
      KeepAppend(files, i, Inside(roots));
      if WithinAny(roots, files[i].path) {
        actual := actual + [files[i]];
      }
    }
    assert files[..|files|] == files;
    ok := SameEntries(evaluated, actual);
  }

  // ----- The validator -----

  /** The file lists of a package manifest: all files, the verification inputs, and
      the entries other parts of the manifest refer to. */
  datatype FileManifest = FileManifest(files: seq<Blob>, verificationInputs: seq<Blob>, references: seq<Blob>)

  ghost predicate UniquePaths(bs: seq<Blob>) {
    forall i, j :: 0 <= i < j < |bs| ==> bs[i].path != bs[j].path
  }

  ghost predicate AllShaped(shape: Blob -> bool, bs: seq<Blob>) {
    forall b :: b in bs ==> shape(b)
  }

  /** The directory holds exactly the listed files, by path, size and digest. */
  ghost predicate HoldsExactly(sha: HashFn, dir: Tree, files: seq<Blob>) {
    && (forall b :: b in files ==> b.path in Listed(dir) && b == BlobOf(sha, b.path, dir[b.path]))
    && forall p :: p in Listed(dir) ==> exists b :: b in files && b.path == p
  }

  /** The lists are well formed on their own, and references are listed. */
  ghost predicate ListsOK(shape: Blob -> bool, m: FileManifest) {
    && AllShaped(shape, m.files) && UniquePaths(m.files)
    && AllShaped(shape, m.verificationInputs) && UniquePaths(m.verificationInputs)
    && AllShaped(shape, m.references)
    && (forall b :: b in m.references || b in m.verificationInputs ==> b in m.files)
  }

  ghost predicate Accepts(sha: HashFn, shape: Blob -> bool, dir: Tree, m: FileManifest) {
    ListsOK(shape, m) && HoldsExactly(sha, dir, m.files)
  }

  /** Declare each entry once. */
  method DeclareFiles(shape: Blob -> bool, files: seq<Blob>) returns (declared: Option<map<string, Blob>>)
    ensures declared.Some? <==> AllShaped(shape, files) && UniquePaths(files)
    ensures declared.Some? ==> forall p :: p in declared.value ==> declared.value[p].path == p
    ensures declared.Some? ==> forall b :: b in files <==> b.path in declared.value && declared.value[b.path] == b
  {
    var table: map<string, Blob> := map[];
    for i := 0 to |files|
      invariant AllShaped(shape, files[..i]) && UniquePaths(files[..i])
      invariant forall p :: p in table ==> table[p] in files[..i] && table[p].path == p
      invariant forall k :: 0 <= k < i ==> files[k].path in table && table[files[k].path] == files[k]
    {
      assert files[i] in files;
      if !shape(files[i]) {
        return None;
      }
      if files[i].path in table {
        var b := table[files[i].path];
        assert exists k :: 0 <= k < i && files[k] == b;
        return None;
      }
      table := table[files[i].path := files[i]];
      assert files[..i + 1] == files[..i] + [files[i]];
    }
    assert files[..|files|] == files;
    declared := Some(table);
  }

  method CheckReferences(shape: Blob -> bool, declared: map<string, Blob>, refs: seq<Blob>) returns (ok: bool)
    requires forall p :: p in declared ==> declared[p].path == p
    ensures ok <==> AllShaped(shape, refs) && forall b :: b in refs ==> b.path in declared && declared[b.path] == b
  {
    for i := 0 to |refs|
      invariant forall k :: 0 <= k < i ==> shape(refs[k]) && refs[k].path in declared && declared[refs[k].path] == refs[k]
    {
      assert refs[i] in refs;
      if !shape(refs[i]) {
        return false;
      }
      if refs[i].path !in declared {
        return false;
      }
      var file := declared[refs[i].path];
      if file.size != refs[i].size || file.digest != refs[i].digest {
        return false;
      }
    }
    return true;
  }

  /** Walk the directory in any order, then look for declared files not seen. */
  method WalkFiles(sha: HashFn, dir: Tree, declared: map<string, Blob>) returns (ok: bool)
    ensures ok <==> && (forall p :: p in Listed(dir) ==> p in declared && declared[p].size == |dir[p]| && declared[p].digest == Hex(sha(dir[p])))
                    && forall p :: p in declared ==> p in Listed(dir)
  {
    var actual: set<string> := {};
    var rest := dir.Keys;
    while rest != {}
      invariant rest <= dir.Keys
      invariant forall p :: p in actual <==> p in Listed(dir) && p !in rest
      invariant forall p :: p in actual ==> p in declared && declared[p].size == |dir[p]| && declared[p].digest == Hex(sha(dir[p]))
      decreases |rest|
    {
      var name :| name in rest;
      rest := rest - {name};
      if name == MANIFEST_NAME || name == SIGNATURE_NAME {
        continue;
      }
      actual := actual + {name};
      assert name in Listed(dir);
      if name !in declared {
        return false;
      }
      if |dir[name]| != declared[name].size || Hex(sha(dir[name])) != declared[name].digest {
        return false;
      }
    }
    ok := declared.Keys <= actual;
  }

  /** The whole check: a directory is accepted exactly when the lists are well
      formed, references are listed, and the files are exactly the list. */
  method ValidateBlobs(sha: HashFn, shape: Blob -> bool, dir: Tree, m: FileManifest) returns (ok: bool)
    ensures ok <==> Accepts(sha, shape, dir, m)
  {
    var files := DeclareFiles(shape, m.files);
    if files.None? {
      return false;
    }
    var declared := files.value;
    var inputs := DeclareFiles(shape, m.verificationInputs);
    if inputs.None? {
      return false;
    }
    var refs := CheckReferences(shape, declared, m.references + m.verificationInputs);
    assert forall b :: b in m.references + m.verificationInputs <==> b in m.references || b in m.verificationInputs;
    if !refs {
      return false;
    }
    ok := WalkFiles(sha, dir, declared);
    WalkMeansExact(sha, dir, declared, m.files);
  }

  lemma WalkMeansExact(sha: HashFn, dir: Tree, declared: map<string, Blob>, files: seq<Blob>)
    requires forall b :: b in files <==> b.path in declared && declared[b.path] == b
    requires forall p :: p in declared ==> declared[p].path == p
    ensures HoldsExactly(sha, dir, files) <==>
              && (forall p :: p in Listed(dir) ==> p in declared && declared[p].size == |dir[p]| && declared[p].digest == Hex(sha(dir[p])))
              && forall p :: p in declared ==> p in Listed(dir)
  {
    assert forall p :: p in declared ==> declared[p] in files;
  }

  // ----- What an accepted list pins -----

  lemma SameBlobSameBytes(sha: HashFn, path: string, x: Bytes, y: Bytes)
    requires BlobOf(sha, path, x) == BlobOf(sha, path, y)
    ensures x == y || CollisionBetween(sha, {x}, {y})
  {
    HexInjective(sha(x), sha(y));
  }

  /** Two directories accepted under one list hold the same files, or exhibit a
      collision: any later change to a package is rejected. */
  lemma AcceptedDirectoriesAgree(sha: HashFn, d: Tree, e: Tree, files: seq<Blob>)
    requires HoldsExactly(sha, d, files) && HoldsExactly(sha, e, files)
    ensures Listed(d) == Listed(e) || CollisionBetween(sha, Contents(d), Contents(e))
  {
    if !CollisionBetween(sha, Contents(d), Contents(e)) {
      forall p | p in Listed(d)
        ensures p in Listed(e) && Listed(d)[p] == Listed(e)[p]
      {
        ListedFileIsPinned(sha, d, e, files, p);
      }
      forall p | p in Listed(e)
        ensures p in Listed(d)
      {
        ListedFileIsPinned(sha, e, d, files, p);
      }
    }
  }

  lemma ListedFileIsPinned(sha: HashFn, d: Tree, e: Tree, files: seq<Blob>, p: string)
    requires HoldsExactly(sha, d, files) && HoldsExactly(sha, e, files) && p in Listed(d)
    ensures p in Listed(e)
    ensures d[p] == e[p] || CollisionBetween(sha, Contents(d), Contents(e))
  {
    var b :| b in files && b.path == p;
    SameBlobSameBytes(sha, p, d[p], e[p]);
    assert d[p] in Contents(d) && e[p] in Contents(e);
  }

  /** The index of a tree is a list that tree satisfies, and it is the only one. */
  lemma IndexIsHeld(sha: HashFn, bs: seq<Blob>, t: Tree)
    requires IsIndex(sha, bs, t)
    ensures HoldsExactly(sha, t, bs) && UniquePaths(bs)
  {
    forall p | p in Listed(t)
      ensures exists b :: b in bs && b.path == p
    {
      assert BlobOf(sha, p, t[p]) in bs;
    }
    forall i, j | 0 <= i < j < |bs|
      ensures bs[i].path != bs[j].path
    {
      PathBeforeAsymmetric(bs[i].path, bs[j].path);
    }
  }

  lemma IndexUnique(sha: HashFn, bs: seq<Blob>, cs: seq<Blob>, t: Tree)
    requires IsIndex(sha, bs, t) && IsIndex(sha, cs, t)
    ensures bs == cs
  {
    SortedListUnique(bs, cs);
  }

  /** The part of an index on selected paths is the index of that part. */
  lemma KeepIsIndex(sha: HashFn, bs: seq<Blob>, t: Tree, select: string -> bool)
    requires IsIndex(sha, bs, t)
    ensures IsIndex(sha, Keep(bs, select), map p | p in t && select(p) :: t[p])
  {
    KeepSorted(bs, select);
  }

  /** The validator, exactly: entries are well shaped and no path is listed twice,
      everything referred to is listed, and apart from its manifest and signature
      the directory holds the listed files and no others, each of the listed size
      and digest. */
  lemma AcceptsExactly(sha: HashFn, shape: Blob -> bool, dir: Tree, m: FileManifest)
    ensures Accepts(sha, shape, dir, m) <==>
              && (forall b :: b in m.files || b in m.verificationInputs || b in m.references ==> shape(b))
              && (forall i, j :: 0 <= i < j < |m.files| ==> m.files[i].path != m.files[j].path)
              && (forall i, j :: 0 <= i < j < |m.verificationInputs| ==> m.verificationInputs[i].path != m.verificationInputs[j].path)
              && (forall b :: b in m.verificationInputs || b in m.references ==> b in m.files)
              && (forall b :: b in m.files ==>
                    && b.path != "manifest.json" && b.path != "manifest.sig" && b.path in dir
                    && b.size == |dir[b.path]| && b.digest == Hex(sha(dir[b.path])))
              && forall p :: p in dir && p != "manifest.json" && p != "manifest.sig" ==> exists b :: b in m.files && b.path == p
  {
    assert forall b :: b in m.files && b.path in dir ==>
             (b == BlobOf(sha, b.path, dir[b.path]) <==> b.size == |dir[b.path]| && b.digest == Hex(sha(dir[b.path])));
    assert forall p :: p in Listed(dir) <==> p in dir && p != "manifest.json" && p != "manifest.sig";
  }
}
