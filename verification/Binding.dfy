/** End to end: what a reader learns from a package directory that the validator
    accepts under a signed list, however disturbed its emission was. */
module Binding {
  import opened Basics
  import opened PackageFiles
  import opened Emit
  import opened Emission

  /** A signed list is accepted for exactly the directories that hold it. */
  lemma SignedListAcceptedIff(sha: HashFn, shape: Blob -> bool, m: FileManifest, paths: seq<string>, dir: Tree)
    requires ListsFrom(m, paths) && AllShaped(shape, m.files)
    ensures Accepts(sha, shape, dir, m) <==> HoldsExactly(sha, dir, m.files)
  {
    SortedIsUnique(m.files);
    KeepSorted(m.files, KeyFile());
    SortedIsUnique(m.verificationInputs);
    forall b | b in m.references
      ensures b in m.files
    {
      var i :| 0 <= i < |m.references| && m.references[i] == b;
      assert Find(m.files, paths[i]) == Some(b);
    }
    assert ListsOK(shape, m);
  }

  lemma SortedIsUnique(bs: seq<Blob>)
    requires Sorted(bs)
    ensures UniquePaths(bs)
  {
    forall i, j | 0 <= i < j < |bs|
      ensures bs[i].path != bs[j].path
    {
      PathBeforeAsymmetric(bs[i].path, bs[j].path);
    }
  }

  // ----- The evaluated part -----

  lemma PublishedFileWasEvaluated(sha: HashFn, dir: Tree, files: seq<Blob>, select: string -> bool, replica: Tree, p: string)
    requires HoldsExactly(sha, dir, files) && IsIndex(sha, Keep(files, select), replica)
    requires p in Listed(dir) && select(p)
    ensures p in Listed(replica) && (dir[p] == replica[p] || CollisionBetween(sha, Contents(dir), Contents(replica)))
  {
    var b :| b in files && b.path == p;
    assert b in Keep(files, select);
    SameBlobSameBytes(sha, p, dir[p], replica[p]);
    assert dir[p] in Contents(dir) && replica[p] in Contents(replica);
  }

  lemma EvaluatedFileIsPublished(sha: HashFn, dir: Tree, files: seq<Blob>, select: string -> bool, replica: Tree, p: string)
    requires HoldsExactly(sha, dir, files) && IsIndex(sha, Keep(files, select), replica)
    requires p in Listed(replica)
    ensures p in Listed(dir) && select(p)
  {
    assert BlobOf(sha, p, replica[p]) in Keep(files, select);
  }

  /** The artifact, the keys and the checker of an accepted package are, file for
      file and byte for byte, the replica that was evaluated, or a collision is
      exhibited. */
  lemma PublishedIsEvaluated(sha: HashFn, roots: seq<string>, replica: Tree, files: seq<Blob>, dir: Tree)
    requires IsIndex(sha, Keep(files, Inside(roots)), replica) && HoldsExactly(sha, dir, files)
    ensures || PartOf(Listed(dir), Inside(roots)) == Listed(replica)
            || CollisionBetween(sha, Contents(dir), Contents(replica))
  {
    if !CollisionBetween(sha, Contents(dir), Contents(replica)) {
      forall p | p in Listed(dir) && WithinAny(roots, p)
        ensures p in Listed(replica) && dir[p] == replica[p]
      {
        PublishedFileWasEvaluated(sha, dir, files, Inside(roots), replica, p);
      }
      forall p | p in Listed(replica)
        ensures p in Listed(dir) && WithinAny(roots, p)
      {
        EvaluatedFileIsPublished(sha, dir, files, Inside(roots), replica, p);
      }
      SameTree(PartOf(Listed(dir), Inside(roots)), Listed(replica));
    }
  }

  // ----- The results -----

  lemma FoundFileIsHeld(sha: HashFn, dir: Tree, files: seq<Blob>, p: string, data: Bytes)
    requires HoldsExactly(sha, dir, files) && Find(files, p) == Some(BlobOf(sha, p, data))
    ensures p in dir && (dir[p] == data || CollisionBetween(sha, Contents(dir), {data}))
  {
    SameBlobSameBytes(sha, p, dir[p], data);
    assert dir[p] in Contents(dir);
  }

  /** The three result files of an accepted package are the captured bytes, or a
      collision is exhibited. */
  lemma PublishedResultsAreCaptured(sha: HashFn, cap: Captured, files: seq<Blob>, dir: Tree)
    requires BindsResults(sha, cap, files) && HoldsExactly(sha, dir, files)
    ensures CONFORMANCE_PATH in dir && MACHINE_OUTPUT_PATH in dir && STDERR_PATH in dir
    ensures || (dir[CONFORMANCE_PATH] == cap.conformance && dir[MACHINE_OUTPUT_PATH] == cap.machine && dir[STDERR_PATH] == cap.stderr)
            || CollisionBetween(sha, Contents(dir), {cap.conformance, cap.machine, cap.stderr})
  {
    FoundFileIsHeld(sha, dir, files, CONFORMANCE_PATH, cap.conformance);
    FoundFileIsHeld(sha, dir, files, MACHINE_OUTPUT_PATH, cap.machine);
    FoundFileIsHeld(sha, dir, files, STDERR_PATH, cap.stderr);
  }

  // ----- Everything else -----

  function AllContents(history: seq<Tree>): set<Bytes> {
    set i, p | 0 <= i < |history| && p in history[i] :: history[i][p]
  }

  /** Every other file of an accepted package was in the staging tree, at its path,
      before the first subprocess began, or a collision is exhibited; and no file
      of the snapshot is missing. */
  lemma PublishedWasStaged(sha: HashFn, results: seq<string>, snapshot: seq<Blob>, files: seq<Blob>,
                           before: seq<Tree>, dir: Tree, p: string)
    requires Keep(files, Outside(results)) == snapshot && HoldsExactly(sha, dir, files)
    requires AllRead(sha, snapshot, before)
    requires p !in results
    ensures p in Listed(dir) <==> exists b :: b in snapshot && b.path == p
    ensures p in Listed(dir) ==> WasThere(p, dir[p], before) || CollisionBetween(sha, Contents(dir), AllContents(before))
  {
    if p in Listed(dir) {
      var b :| b in files && b.path == p;
      assert b in Keep(files, Outside(results));
      ReadFileWasThere(sha, b, before, dir[p], Contents(dir));
    }
    if b :| b in snapshot && b.path == p {
      assert b in Keep(files, Outside(results));
    }
  }

  lemma ReadFileWasThere(sha: HashFn, b: Blob, history: seq<Tree>, data: Bytes, contents: set<Bytes>)
    requires WasRead(sha, b, history) && b == BlobOf(sha, b.path, data) && data in contents
    ensures WasThere(b.path, data, history) || CollisionBetween(sha, contents, AllContents(history))
  {
    var j :| 0 <= j < |history| && b.path in history[j] && b.digest == Hex(sha(history[j][b.path]));
    var staged := history[j][b.path];
    HexInjective(sha(data), sha(staged));
    assert staged in AllContents(history);
  }

  /** The evaluated bytes themselves were staged before the first subprocess began:
      no write after the snapshot can reach the evaluation unnoticed. */
  lemma EvaluatedWasStaged(sha: HashFn, cfg: Config, snapshot: seq<Blob>, replica: Tree, files: seq<Blob>, before: seq<Tree>, p: string)
    requires Keep(files, Outside(RESULTS)) == snapshot && IsIndex(sha, Keep(files, Inside(Roots(cfg))), replica)
    requires AllRead(sha, snapshot, before) && p in Listed(replica)
    ensures WasThere(p, replica[p], before) || CollisionBetween(sha, Contents(replica), AllContents(before))
  {
    var b := BlobOf(sha, p, replica[p]);
    assert b in Keep(files, Inside(Roots(cfg)));
    if p in RESULTS {
      ResultsAreNotEvaluated(cfg, p);
    }
    assert b in Keep(files, Outside(RESULTS));
    assert replica[p] in Contents(replica);
    ReadFileWasThere(sha, b, before, replica[p], Contents(replica));
  }

  /** All of it at once, for a package that emission signed and the validator
      accepts: the directory is the evaluated replica, the captured results and
      files staged before the first subprocess, or a collision is exhibited. */
  lemma AcceptedPackageIsBound(sha: HashFn, shape: Blob -> bool, cfg: Config, cap: Captured, snapshot: seq<Blob>, replica: Tree,
                               m: FileManifest, history: seq<Tree>, start: nat, dir: Tree)
    requires Binds(sha, cfg, cap, snapshot, replica, m) && Sourced(sha, snapshot, replica, m.files, history, start)
    requires Accepts(sha, shape, dir, m)
    ensures || CollisionBetween(sha, Contents(dir), Contents(replica) + {cap.conformance, cap.machine, cap.stderr} + AllContents(history[..start]))
            || (&& PartOf(Listed(dir), Inside(Roots(cfg))) == Listed(replica)
                && CONFORMANCE_PATH in dir && MACHINE_OUTPUT_PATH in dir && STDERR_PATH in dir
                && dir[CONFORMANCE_PATH] == cap.conformance && dir[MACHINE_OUTPUT_PATH] == cap.machine && dir[STDERR_PATH] == cap.stderr
                && forall p :: p in Listed(dir) && p !in RESULTS ==> WasThere(p, dir[p], history[..start]))
  {
    var before := history[..start];
    var others := Contents(replica) + {cap.conformance, cap.machine, cap.stderr} + AllContents(before);
    PublishedIsEvaluated(sha, Roots(cfg), replica, m.files, dir);
    PublishedResultsAreCaptured(sha, cap, m.files, dir);
    if !CollisionBetween(sha, Contents(dir), others) {
      NoSmallerCollision(sha, Contents(dir), Contents(replica), others);
      NoSmallerCollision(sha, Contents(dir), {cap.conformance, cap.machine, cap.stderr}, others);
      NoSmallerCollision(sha, Contents(dir), AllContents(before), others);
      forall p | p in Listed(dir) && p !in RESULTS
        ensures WasThere(p, dir[p], before)
      {
        PublishedWasStaged(sha, RESULTS, snapshot, m.files, before, dir, p);
      }
    }
  }

  lemma NoSmallerCollision(sha: HashFn, xs: set<Bytes>, ys: set<Bytes>, zs: set<Bytes>)
    requires ys <= zs && !CollisionBetween(sha, xs, zs)
    ensures !CollisionBetween(sha, xs, ys)
  {
  }

  // ----- In the package's own paths -----

  /** The package path belongs to what was evaluated. */
  predicate EvaluatedPath(cfg: Config, p: string) {
    || "artifact/" <= p || "inputs/keys/" <= p
    || p == "checker/" + cfg.checkerName
  }

  lemma EvaluatedPathIsInside(cfg: Config, p: string)
    requires EvaluatedPath(cfg, p)
    ensures WithinAny(Roots(cfg), p) && p != "manifest.json" && p != "manifest.sig" && p !in RESULTS
  {
    ThreeRoots(cfg, p);
    assert p[0] == 'a' || p[0] == 'i' || p[0] == 'c';
    assert ARTIFACT_DIR + "/" == "artifact/" && KEYS_DIR + "/" == "inputs/keys/";
    forall q | q in RESULTS
      ensures q[0] == 'r'
    {
    }
  }

  /** The accepted package path by path: under `artifact/` and `inputs/keys/` and at
      the checker's path it holds what was evaluated, in `results/` what was
      captured, and anywhere else what was staged before the first subprocess; or a
      collision is exhibited. */
  lemma AcceptedPackagePaths(sha: HashFn, shape: Blob -> bool, cfg: Config, cap: Captured, snapshot: seq<Blob>, replica: Tree,
                             m: FileManifest, history: seq<Tree>, start: nat, dir: Tree)
    requires Binds(sha, cfg, cap, snapshot, replica, m) && Sourced(sha, snapshot, replica, m.files, history, start)
    requires Accepts(sha, shape, dir, m)
    ensures || CollisionBetween(sha, Contents(dir), Contents(replica) + {cap.conformance, cap.machine, cap.stderr} + AllContents(history[..start]))
            || (&& (forall p :: EvaluatedPath(cfg, p) ==> (p in dir <==> p in replica) && (p in dir ==> dir[p] == replica[p]))
                && "results/conformance.json" in dir && dir["results/conformance.json"] == cap.conformance
                && "results/artifact.json" in dir && dir["results/artifact.json"] == cap.machine
                && "results/stderr.txt" in dir && dir["results/stderr.txt"] == cap.stderr
                && forall p :: p in dir && p != "manifest.json" && p != "manifest.sig" && !("results/" <= p) ==>
                     exists i :: 0 <= i < start && p in history[i] && history[i][p] == dir[p])
  {
    AcceptedPackageIsBound(sha, shape, cfg, cap, snapshot, replica, m, history, start, dir);
    if PartOf(Listed(dir), Inside(Roots(cfg))) == Listed(replica) {
      EvaluatedPathsAgree(cfg, dir, replica);
    }
    if forall p :: p in Listed(dir) && p !in RESULTS ==> WasThere(p, dir[p], history[..start]) {
      OtherPathsStaged(dir, history, start);
    }
  }

  lemma EvaluatedPathsAgree(cfg: Config, dir: Tree, replica: Tree)
    requires PartOf(Listed(dir), Inside(Roots(cfg))) == Listed(replica)
    ensures forall p :: EvaluatedPath(cfg, p) ==> (p in dir <==> p in replica) && (p in dir ==> dir[p] == replica[p])
  {
    forall p | EvaluatedPath(cfg, p)
      ensures (p in dir <==> p in replica) && (p in dir ==> dir[p] == replica[p])
    {
      EvaluatedPathIsInside(cfg, p);
      SamePart(Listed(dir), Inside(Roots(cfg)), Listed(replica), p);
    }
  }

  lemma OtherPathsStaged(dir: Tree, history: seq<Tree>, start: nat)
    requires start <= |history| && forall p :: p in Listed(dir) && p !in RESULTS ==> WasThere(p, dir[p], history[..start])
    ensures forall p :: p in dir && p != "manifest.json" && p != "manifest.sig" && !("results/" <= p) ==>
              exists i :: 0 <= i < start && p in history[i] && history[i][p] == dir[p]
  {
    forall p | p in dir && p != "manifest.json" && p != "manifest.sig" && !("results/" <= p)
      ensures exists i :: 0 <= i < start && p in history[i] && history[i][p] == dir[p]
    {
      OtherPath(p);
      assert p in Listed(dir);
      var i :| 0 <= i < |history[..start]| && p in history[..start][i] && history[..start][i][p] == dir[p];
      assert history[..start][i] == history[i];
    }
  }

  lemma SamePart(t: Tree, select: string -> bool, u: Tree, p: string)
    requires PartOf(t, select) == u && select(p)
    ensures (p in t <==> p in u) && (p in t ==> t[p] == u[p])
  {
    assert p in PartOf(t, select) <==> p in t;
  }

  lemma OtherPath(p: string)
    requires !("results/" <= p)
    ensures p !in RESULTS
  {
    assert "results/" <= "results/conformance.json" && "results/" <= "results/artifact.json" && "results/" <= "results/stderr.txt";
  }

  lemma ReferencesFollow(m: FileManifest, paths: seq<string>)
    requires ListsFrom(m, paths)
    ensures |m.references| == |paths|
    ensures forall i :: 0 <= i < |paths| ==> m.references[i] in m.files && m.references[i].path == paths[i]
    ensures forall i, j :: 0 <= i < |paths| && 0 <= j < |paths| && paths[i] == paths[j] ==> m.references[i] == m.references[j]
  {
    forall i | 0 <= i < |m.references|
      ensures m.references[i] in m.files && m.references[i].path == paths[i]
    {
      assert Find(m.files, paths[i]) == Some(m.references[i]);
    }
  }

  /** What the signed manifest refers to, by path. */
  lemma SignedReferences(cfg: Config, m: FileManifest)
    requires ListsFrom(m, ReferencePaths(cfg))
    ensures |m.references| == 6 && (forall b :: b in m.references ==> b in m.files)
    ensures m.references[0].path == "artifact/manifest.json" && m.references[1].path == "checker/" + cfg.checkerName
    ensures m.references[2].path == "results/artifact.json" && m.references[3] == m.references[2]
    ensures m.references[4].path == "results/stderr.txt" && m.references[5].path == "results/conformance.json"
  {
    var paths := ReferencePathsAre(cfg);
    ReferencesFollow(m, paths);
  }

  lemma ReferencePathsAre(cfg: Config) returns (paths: seq<string>)
    ensures paths == ReferencePaths(cfg) && |paths| == 6
    ensures paths[0] == "artifact/manifest.json" && paths[1] == "checker/" + cfg.checkerName
    ensures paths[2] == "results/artifact.json" && paths[3] == "results/artifact.json"
    ensures paths[4] == "results/stderr.txt" && paths[5] == "results/conformance.json"
  {
    paths := ReferencePaths(cfg);
  }

  /** The verification inputs of the signed manifest are the listed key files. */
  lemma SignedInputs(m: FileManifest, paths: seq<string>)
    requires ListsFrom(m, paths)
    ensures forall b :: b in m.verificationInputs <==> b in m.files && ("inputs/keys/" <= b.path || "inputs/package-keys/" <= b.path)
  {
    assert KEYS_DIR + "/" == "inputs/keys/" && PACKAGE_KEYS_DIR + "/" == "inputs/package-keys/";
  }
}
