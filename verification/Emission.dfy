/** The emitter's sequence of steps from the input snapshot to the signature: what
    each step does to the shared staging tree, and what a signed list is bound to
    whatever other processes did to that tree in between. */
module Emission {
  import opened Basics
  import opened PackageFiles
  import opened Emit

  /** `discovered` reads the run names out of a machine report, if it is usable;
      an empty `run` asks for the first one. */
  datatype Config = Config(checkerName: string, run: string, discovered: Bytes -> Option<seq<string>>)

  /** The bytes captured from the conformance command and from the checker. */
  datatype Captured = Captured(conformance: Bytes, machine: Bytes, stderr: Bytes)

  datatype Outcome = Refused | Signed(manifest: FileManifest, run: string, runs: seq<string>)

  function CheckerPath(cfg: Config): string {
    "checker/" + cfg.checkerName
  }

  function Roots(cfg: Config): seq<string> {
    [ARTIFACT_DIR, KEYS_DIR, CheckerPath(cfg)]
  }

  function KeyFile(): string -> bool {
    p => HasPrefix(p, KEYS_DIR + "/") || HasPrefix(p, PACKAGE_KEYS_DIR + "/")
  }

  /** The paths the rest of the manifest refers to, in its order. */
  function ReferencePaths(cfg: Config): seq<string> {
    [ARTIFACT_MANIFEST, CheckerPath(cfg), MACHINE_OUTPUT_PATH, MACHINE_OUTPUT_PATH, STDERR_PATH, CONFORMANCE_PATH]
  }

  lemma ResultsAreNotEvaluated(cfg: Config, p: string)
    requires p in RESULTS
    ensures !WithinAny(Roots(cfg), p)
  {
    assert p[0] == 'r';
    forall i | 0 <= i < |Roots(cfg)|
      ensures !Within(Roots(cfg)[i], p)
    {
      NotWithin(Roots(cfg)[i], p);
    }
  }

  lemma NotWithin(root: string, p: string)
    requires root != "" && p != "" && root[0] != p[0]
    ensures !Within(root, p)
  {
    assert (root + "/")[0] == root[0];
  }

  /** What the signed lists are bound to: the snapshot taken before any subprocess,
      the captured bytes, and the replica the checker was given. */
  ghost predicate Binds(sha: HashFn, cfg: Config, cap: Captured, snapshot: seq<Blob>, replica: Tree, m: FileManifest) {
    && Keep(m.files, Outside(RESULTS)) == snapshot
    && BindsResults(sha, cap, m.files)
    && IsIndex(sha, Keep(m.files, Inside(Roots(cfg))), replica)
    && ListsFrom(m, ReferencePaths(cfg))
  }

  /** The three result paths carry the captured bytes. */
  ghost predicate BindsResults(sha: HashFn, cap: Captured, files: seq<Blob>) {
    && Find(files, CONFORMANCE_PATH) == Some(BlobOf(sha, CONFORMANCE_PATH, cap.conformance))
    && Find(files, MACHINE_OUTPUT_PATH) == Some(BlobOf(sha, MACHINE_OUTPUT_PATH, cap.machine))
    && Find(files, STDERR_PATH) == Some(BlobOf(sha, STDERR_PATH, cap.stderr))
  }

  /** The other lists of the manifest are drawn from its file list. */
  ghost predicate ListsFrom(m: FileManifest, paths: seq<string>) {
    && Sorted(m.files)
    && m.verificationInputs == Keep(m.files, KeyFile())
    && |m.references| == |paths|
    && forall i :: 0 <= i < |m.references| ==> Find(m.files, paths[i]) == Some(m.references[i])
  }

  // ----- The steps -----

  method IndexReplica(sha: HashFn, fs: FileSystem, t: Tree) returns (bs: seq<Blob>)
    requires Orderly(fs)
    ensures IsIndex(sha, bs, t)
  {
    var names := fs.list(t);
    bs := [];
    for i := 0 to |names|
      invariant Sorted(bs)
      invariant forall b :: b in bs <==> b.path in names[..i] && b.path in t && Listable(b.path) && b == BlobOf(sha, b.path, t[b.path])
    {
      assert names[..i + 1] == names[..i] + [names[i]];
      if !Listable(names[i]) {
        continue;
      }
      assert names[i] in names;
      AscendingAppend(names, i, bs, BlobOf(sha, names[i], t[names[i]]));
      bs := bs + [BlobOf(sha, names[i], t[names[i]])];
    }
    assert names[..|names|] == names;
  }

  ghost function PartOf(t: Tree, select: string -> bool): Tree {
    map p | p in t && select(p) :: t[p]
  }

  /** Nothing lies below the checker, because it is a file. */
  ghost predicate CheckerIsFile(cfg: Config, t: Tree) {
    CheckerPath(cfg) in t && forall p :: p in t ==> !HasPrefix(p, CheckerPath(cfg) + "/")
  }

  method Replicate(stage: Stage, cfg: Config, ghost start: nat) returns (replica: Option<Tree>)
    requires stage.Valid() && Orderly(stage.fs) && start <= |stage.history|
    modifies stage
    ensures stage.Valid() && old(stage.history) <= stage.history
    ensures replica.Some? ==> AllThere(replica.value, stage.Since(start))
    ensures Quiet(stage.fs) ==> stage.files == old(stage.files)
    ensures Quiet(stage.fs) && CheckerIsFile(cfg, stage.files) ==> replica == Some(PartOf(stage.files, Inside(Roots(cfg))))
  {
    replica := stage.CopyRoot(ARTIFACT_DIR, map[], start);
    if replica.None? {
      return;
    }
    ghost var one := replica.value;
    replica := stage.CopyRoot(KEYS_DIR, replica.value, start);
    if replica.None? {
      return;
    }
    ghost var two := replica.value;
    replica := stage.CopyFile(CheckerPath(cfg), replica.value, start);
    if Quiet(stage.fs) && CheckerIsFile(cfg, stage.files) {
      ReplicaIsPart(stage.files, cfg, one, two, stage.fs.list(stage.files));
    }
  }

  lemma ReplicaIsPart(files: Tree, cfg: Config, one: Tree, two: Tree, names: seq<string>)
    requires CheckerIsFile(cfg, files) && forall p :: p in names <==> p in files
    requires Copied(one, map[], files, ARTIFACT_DIR, names) && Copied(two, one, files, KEYS_DIR, names)
    ensures two[CheckerPath(cfg) := files[CheckerPath(cfg)]] == PartOf(files, Inside(Roots(cfg)))
  {
    var all := two[CheckerPath(cfg) := files[CheckerPath(cfg)]];
    forall p
      ensures p in all <==> p in files && WithinAny(Roots(cfg), p)
      ensures p in all ==> all[p] == files[p]
    {
      ReplicaFile(files, cfg, one, two, names, p);
    }
    SameTree(all, PartOf(files, Inside(Roots(cfg))));
  }

  lemma SameTree(a: Tree, b: Tree)
    requires forall p :: p in a <==> p in b
    requires forall p :: p in a ==> a[p] == b[p]
    ensures a == b
  {
  }

  lemma ReplicaFile(files: Tree, cfg: Config, one: Tree, two: Tree, names: seq<string>, p: string)
    requires CheckerIsFile(cfg, files) && (p in names <==> p in files)
    requires Copied(one, map[], files, ARTIFACT_DIR, names) && Copied(two, one, files, KEYS_DIR, names)
    ensures var all := two[CheckerPath(cfg) := files[CheckerPath(cfg)]];
            (p in all <==> p in files && WithinAny(Roots(cfg), p)) && (p in all ==> all[p] == files[p])
  {
    ThreeRoots(cfg, p);
  }

  lemma ThreeRoots(cfg: Config, p: string)
    ensures WithinAny(Roots(cfg), p) <==> Within(ARTIFACT_DIR, p) || Within(KEYS_DIR, p) || Within(CheckerPath(cfg), p)
  {
    var roots := Roots(cfg);
    assert roots[0] == ARTIFACT_DIR && roots[1] == KEYS_DIR && roots[2] == CheckerPath(cfg);
  }

  /** Choose the run to package. */
  predicate RunChosen(cfg: Config, runs: seq<string>) {
    runs != [] && (cfg.run == "" || cfg.run in runs)
  }

  /** The four comparisons made on the final list, in order. */
  method CheckFinalList(sha: HashFn, cfg: Config, cap: Captured, files: seq<Blob>, snapshot: seq<Blob>, evaluated: seq<Blob>) returns (ok: bool)
    ensures ok <==> && Keep(files, Outside(RESULTS)) == snapshot
                    && BindsResults(sha, cap, files)
                    && Keep(files, Inside(Roots(cfg))) == evaluated
  {
    ok := AssertInputsMatch(files, snapshot, RESULTS);
    if !ok {
      return;
    }
    ok := AssertCaptured(sha, files, CONFORMANCE_PATH, cap.conformance);
    if !ok {
      return;
    }
    ok := AssertCaptured(sha, files, MACHINE_OUTPUT_PATH, cap.machine);
    if !ok {
      return;
    }
    ok := AssertCaptured(sha, files, STDERR_PATH, cap.stderr);
    if !ok {
      return;
    }
    ok := AssertEvaluated(files, evaluated, Roots(cfg));
  }

  /** Look up every file the manifest refers to. */
  method LookUp(files: seq<Blob>, paths: seq<string>) returns (refs: Option<seq<Blob>>)
    ensures refs.Some? <==> forall i :: 0 <= i < |paths| ==> Find(files, paths[i]).Some?
    ensures refs.Some? ==> |refs.value| == |paths| && forall i :: 0 <= i < |paths| ==> Find(files, paths[i]) == Some(refs.value[i])
  {
    var found: seq<Blob> := [];
    for i := 0 to |paths|
      invariant |found| == i
      invariant forall k :: 0 <= k < i ==> Find(files, paths[k]) == Some(found[k])
    {
      var b := Find(files, paths[i]);
      if b.None? {
        return None;
      }
      found := found + [b.value];
    }
    refs := Some(found);
  }

  /** The inputs an undisturbed emission needs. */
  ghost predicate Emittable(cfg: Config, cap: Captured, t: Tree) {
    && cap.conformance != []
    && cfg.discovered(cap.machine).Some? && cfg.discovered(cap.machine).value != []
    && (cfg.run == "" || cfg.run in cfg.discovered(cap.machine).value)
    && CheckerIsFile(cfg, t) && ARTIFACT_MANIFEST in t
    && forall p :: p in RESULTS ==> p !in t
  }

  ghost function WithResults(t: Tree, cap: Captured): Tree {
    t[CONFORMANCE_PATH := cap.conformance][MACHINE_OUTPUT_PATH := cap.machine][STDERR_PATH := cap.stderr]
  }

  /** The middle steps: record the conformance result, evaluate a replica, record
      the checker's streams. `start` is when the first subprocess began. */
  method RunSubprocesses(stage: Stage, cfg: Config, cap: Captured) returns (copy: Option<Tree>, evaluated: seq<Blob>)
    requires stage.Valid() && Orderly(stage.fs)
    modifies stage
    ensures stage.Valid() && old(stage.history) <= stage.history
    ensures cap.conformance == [] ==> copy.None?
    ensures copy.Some? ==> IsIndex(stage.sha, evaluated, copy.value) && AllThere(copy.value, stage.Since(|old(stage.history)|))
    ensures Quiet(stage.fs) && Emittable(cfg, cap, old(stage.files)) ==>
              && stage.files == WithResults(old(stage.files), cap)
              && copy == Some(PartOf(old(stage.files)[CONFORMANCE_PATH := cap.conformance], Inside(Roots(cfg))))
  {
    evaluated := [];
    ghost var start := |stage.history|;
    ghost var initial := stage.files;
    if cap.conformance == [] {
      return None, [];
    }
    stage.Write(CONFORMANCE_PATH, cap.conformance);
    copy := Replicate(stage, cfg, start);
    if Quiet(stage.fs) && Emittable(cfg, cap, initial) {
      CheckerStaysFile(cfg, initial, cap);
    }
    if copy.None? {
      return;
    }
    evaluated := IndexReplica(stage.sha, stage.fs, copy.value);
    ghost var before := stage.history;
    stage.Write(MACHINE_OUTPUT_PATH, cap.machine);
    stage.Write(STDERR_PATH, cap.stderr);
    TreePersists(copy.value, before, stage.history, start);
  }

  /** The last steps: index the tree again, compare, and look up the references. */
  method BindFinalList(stage: Stage, cfg: Config, cap: Captured, snapshot: seq<Blob>, evaluated: seq<Blob>, ghost replica: Tree, ghost t: Tree)
    returns (m: Option<FileManifest>)
    requires stage.Valid() && Orderly(stage.fs) && IsIndex(stage.sha, evaluated, replica)
    modifies stage
    ensures stage.Valid() && old(stage.history) <= stage.history
    ensures m.Some? ==> Binds(stage.sha, cfg, cap, snapshot, replica, m.value)
    ensures m.Some? ==> AllRead(stage.sha, m.value.files, stage.Since(|old(stage.history)|))
    ensures Quiet(stage.fs) && Prepared(stage.sha, cfg, cap, t, snapshot, replica, old(stage.files)) ==>
              m.Some? && HoldsExactly(stage.sha, stage.files, m.value.files)
  {
    var files := stage.IndexFiles();
    if files.None? {
      return None;
    }
    if Quiet(stage.fs) && Prepared(stage.sha, cfg, cap, t, snapshot, replica, stage.files) {
      QuietListMatches(stage.sha, cfg, cap, t, snapshot, replica, evaluated, files.value);
      IndexIsHeld(stage.sha, files.value, stage.files);
    }
    var ok := CheckFinalList(stage.sha, cfg, cap, files.value, snapshot, evaluated);
    if !ok {
      return None;
    }
    var refs := LookUp(files.value, ReferencePaths(cfg));
    if refs.None? {
      return None;
    }
    m := Some(FileManifest(files.value, Keep(files.value, KeyFile()), refs.value));
  }

  /** All that a signature guarantees about the past of the staging tree: the
      snapshot was read before `start`, when the first subprocess began; the
      replica and the signed list were read since. */
  ghost predicate Sourced(sha: HashFn, snapshot: seq<Blob>, replica: Tree, files: seq<Blob>, history: seq<Tree>, start: nat) {
    && start <= |history|
    && AllRead(sha, snapshot, history[..start])
    && AllThere(replica, history[start..])
    && AllRead(sha, files, history[start..])
  }

  /** From the input snapshot to the signature. Whatever the file system does, a
      signed list is bound to a snapshot read before the first subprocess, to the
      captured bytes and to a replica of files staged since; and in a quiet file
      system emission does sign, over the final tree. */
  method EmitPackage(stage: Stage, cfg: Config, cap: Captured)
    returns (out: Outcome, ghost start: nat, ghost snapshot: seq<Blob>, ghost replica: Tree)
    requires stage.Valid() && Orderly(stage.fs)
    modifies stage
    ensures stage.Valid() && old(stage.history) <= stage.history
    ensures out.Signed? ==> Binds(stage.sha, cfg, cap, snapshot, replica, out.manifest)
    ensures out.Signed? ==> Sourced(stage.sha, snapshot, replica, out.manifest.files, stage.history, start)
    ensures out.Signed? ==> cfg.discovered(cap.machine) == Some(out.runs) && out.runs != []
    ensures out.Signed? ==> out.run == (if cfg.run == "" then out.runs[0] else cfg.run) && out.run in out.runs
    ensures cap.conformance == [] || cfg.discovered(cap.machine).None? || cfg.discovered(cap.machine) == Some([]) ==> out == Refused
    ensures cfg.discovered(cap.machine).Some? && cfg.run != "" && cfg.run !in cfg.discovered(cap.machine).value ==> out == Refused
    ensures Quiet(stage.fs) && Emittable(cfg, cap, old(stage.files)) ==>
              out.Signed? && HoldsExactly(stage.sha, stage.files, out.manifest.files)
  {
    out, start, snapshot, replica := Refused, 0, [], map[];
    ghost var initial := stage.files;
    var inputs := stage.IndexFiles();
    if inputs.None? {
      return;
    }
    ghost var before := stage.history;
    var copy, evaluated := RunSubprocesses(stage, cfg, cap);
    if Quiet(stage.fs) && Emittable(cfg, cap, initial) {
      Prepare(stage.sha, cfg, cap, initial, inputs.value, copy, stage.files);
    }
    if copy.None? {
      return;
    }
    var runs := cfg.discovered(cap.machine);
    if runs.None? || !RunChosen(cfg, runs.value) {
      return;
    }
    ghost var filled := stage.history;
    var m := BindFinalList(stage, cfg, cap, inputs.value, evaluated, copy.value, initial);
    if m.None? {
      return;
    }
    start, snapshot, replica := |before|, inputs.value, copy.value;
    SourcesOf(stage.sha, snapshot, replica, m.value.files, |old(stage.history)|, before, filled, stage.history);
    out := Signed(m.value, if cfg.run == "" then runs.value[0] else cfg.run, runs.value);
  }

  lemma Prepare(sha: HashFn, cfg: Config, cap: Captured, t: Tree, snapshot: seq<Blob>, copy: Option<Tree>, files: Tree)
    requires Emittable(cfg, cap, t) && IsIndex(sha, snapshot, t) && files == WithResults(t, cap)
    requires copy == Some(PartOf(t[CONFORMANCE_PATH := cap.conformance], Inside(Roots(cfg))))
    ensures Prepared(sha, cfg, cap, t, snapshot, copy.value, files)
    ensures cfg.discovered(cap.machine).Some? && RunChosen(cfg, cfg.discovered(cap.machine).value)
  {
  }

  lemma SourcesOf(sha: HashFn, snapshot: seq<Blob>, replica: Tree, files: seq<Blob>,
                  begin: nat, before: seq<Tree>, filled: seq<Tree>, history: seq<Tree>)
    requires begin <= |before| && before <= filled <= history
    requires AllRead(sha, snapshot, before[begin..])
    requires AllThere(replica, filled[|before|..])
    requires AllRead(sha, files, history[|filled|..])
    ensures Sourced(sha, snapshot, replica, files, history, |before|)
  {
    AllReadIn(sha, snapshot, before, begin);
    assert history[..|before|] == before;
    TreePersists(replica, filled, history, |before|);
    AllReadSince(sha, files, filled, history, |before|);
  }

  lemma AllReadIn(sha: HashFn, bs: seq<Blob>, history: seq<Tree>, from: nat)
    requires from <= |history| && AllRead(sha, bs, history[from..])
    ensures AllRead(sha, bs, history)
  {
    forall b | b in bs
      ensures WasRead(sha, b, history)
    {
      WasReadEarlier(sha, b, history, from);
    }
  }

  lemma WasReadEarlier(sha: HashFn, b: Blob, history: seq<Tree>, from: nat)
    requires from <= |history| && WasRead(sha, b, history[from..])
    ensures WasRead(sha, b, history)
  {
    var i :| 0 <= i < |history[from..]| && b.path in history[from..][i] && b.size == |history[from..][i][b.path]|;
    var j :| 0 <= j < |history[from..]| && b.path in history[from..][j] && b.digest == Hex(sha(history[from..][j][b.path]));
    assert history[from + i] == history[from..][i] && history[from + j] == history[from..][j];
  }

  lemma AllReadSince(sha: HashFn, bs: seq<Blob>, before: seq<Tree>, after: seq<Tree>, start: nat)
    requires start <= |before| && before <= after && AllRead(sha, bs, after[|before|..])
    ensures AllRead(sha, bs, after[start..])
  {
    assert after[start..][|before| - start..] == after[|before|..];
    AllReadIn(sha, bs, after[start..], |before| - start);
  }

  // ----- An undisturbed emission -----

  lemma CheckerStaysFile(cfg: Config, t: Tree, cap: Captured)
    requires Emittable(cfg, cap, t)
    ensures CheckerIsFile(cfg, t[CONFORMANCE_PATH := cap.conformance])
  {
    NotWithin(CheckerPath(cfg), CONFORMANCE_PATH);
  }

  lemma FindIndexed(sha: HashFn, bs: seq<Blob>, t: Tree, p: string)
    requires IsIndex(sha, bs, t) && p in t && Listable(p)
    ensures Find(bs, p) == Some(BlobOf(sha, p, t[p]))
  {
    assert BlobOf(sha, p, t[p]) in bs;
  }

  /** An undisturbed emission, just before the final index: `t` was staged. */
  ghost predicate Prepared(sha: HashFn, cfg: Config, cap: Captured, t: Tree, snapshot: seq<Blob>, replica: Tree, files: Tree) {
    && Emittable(cfg, cap, t)
    && IsIndex(sha, snapshot, t)
    && replica == PartOf(t[CONFORMANCE_PATH := cap.conformance], Inside(Roots(cfg)))
    && files == WithResults(t, cap)
  }

  /** Every comparison and every look-up succeeds on the final list. */
  ghost predicate ListMatches(sha: HashFn, cfg: Config, cap: Captured, files: seq<Blob>, snapshot: seq<Blob>, evaluated: seq<Blob>) {
    && Keep(files, Outside(RESULTS)) == snapshot && Keep(files, Inside(Roots(cfg))) == evaluated
    && BindsResults(sha, cap, files)
    && forall i :: 0 <= i < |ReferencePaths(cfg)| ==> Find(files, ReferencePaths(cfg)[i]).Some?
  }

  lemma QuietListMatches(sha: HashFn, cfg: Config, cap: Captured, t: Tree,
                         snapshot: seq<Blob>, replica: Tree, evaluated: seq<Blob>, files: seq<Blob>)
    requires Emittable(cfg, cap, t) && IsIndex(sha, snapshot, t) && IsIndex(sha, evaluated, replica)
    requires replica == PartOf(t[CONFORMANCE_PATH := cap.conformance], Inside(Roots(cfg)))
    requires IsIndex(sha, files, WithResults(t, cap))
    ensures ListMatches(sha, cfg, cap, files, snapshot, evaluated)
  {
    PartsOfResults(cfg, cap, t);
    QuietPart(sha, files, WithResults(t, cap), Outside(RESULTS), snapshot, t);
    QuietPart(sha, files, WithResults(t, cap), Inside(Roots(cfg)), evaluated, replica);
    QuietLookUps(sha, cfg, cap, t, files);
  }

  lemma QuietPart(sha: HashFn, files: seq<Blob>, all: Tree, select: string -> bool, part: seq<Blob>, t: Tree)
    requires IsIndex(sha, files, all) && IsIndex(sha, part, t)
    requires (map p | p in all && select(p) :: all[p]) == t
    ensures Keep(files, select) == part
  {
    KeepIsIndex(sha, files, all, select);
    IndexUnique(sha, Keep(files, select), part, t);
  }

  lemma QuietLookUps(sha: HashFn, cfg: Config, cap: Captured, t: Tree, files: seq<Blob>)
    requires Emittable(cfg, cap, t) && IsIndex(sha, files, WithResults(t, cap))
    ensures BindsResults(sha, cap, files)
    ensures forall i :: 0 <= i < |ReferencePaths(cfg)| ==> Find(files, ReferencePaths(cfg)[i]).Some?
  {
    var all := WithResults(t, cap);
    ResultsDiffer(t, cap);
    ReferencesPresent(cfg, cap, t);
    AllFound(sha, files, all, ReferencePaths(cfg));
    AllFound(sha, files, all, RESULTS);
    assert RESULTS[0] == CONFORMANCE_PATH && RESULTS[1] == MACHINE_OUTPUT_PATH && RESULTS[2] == STDERR_PATH;
  }

  lemma AllFound(sha: HashFn, files: seq<Blob>, all: Tree, paths: seq<string>)
    requires IsIndex(sha, files, all)
    requires forall i :: 0 <= i < |paths| ==> paths[i] in all && Listable(paths[i])
    ensures forall i :: 0 <= i < |paths| ==> Find(files, paths[i]) == Some(BlobOf(sha, paths[i], all[paths[i]]))
  {
    forall i | 0 <= i < |paths|
      ensures Find(files, paths[i]) == Some(BlobOf(sha, paths[i], all[paths[i]]))
    {
      FindIndexed(sha, files, all, paths[i]);
    }
  }

  lemma ReferencesPresent(cfg: Config, cap: Captured, t: Tree)
    requires Emittable(cfg, cap, t)
    ensures forall i :: 0 <= i < |ReferencePaths(cfg)| ==> ReferencePaths(cfg)[i] in WithResults(t, cap) && Listable(ReferencePaths(cfg)[i])
    ensures forall i :: 0 <= i < |RESULTS| ==> RESULTS[i] in WithResults(t, cap) && Listable(RESULTS[i])
  {
    ResultsDiffer(t, cap);
    assert CheckerPath(cfg)[0] == 'c';
  }

  lemma ResultsDiffer(t: Tree, cap: Captured)
    ensures var all := WithResults(t, cap);
            && all[CONFORMANCE_PATH] == cap.conformance && all[MACHINE_OUTPUT_PATH] == cap.machine && all[STDERR_PATH] == cap.stderr
            && forall p :: p in t ==> p in all
  {
    assert CONFORMANCE_PATH[8] != MACHINE_OUTPUT_PATH[8] && STDERR_PATH[8] != CONFORMANCE_PATH[8] && STDERR_PATH[8] != MACHINE_OUTPUT_PATH[8];
  }

  lemma PartsOfResults(cfg: Config, cap: Captured, t: Tree)
    requires forall p :: p in RESULTS ==> p !in t
    ensures (map p | p in WithResults(t, cap) && Outside(RESULTS)(p) :: WithResults(t, cap)[p]) == t
    ensures (map p | p in WithResults(t, cap) && Inside(Roots(cfg))(p) :: WithResults(t, cap)[p]) ==
            PartOf(t[CONFORMANCE_PATH := cap.conformance], Inside(Roots(cfg)))
  {
    assert RESULTS[0] == CONFORMANCE_PATH && RESULTS[1] == MACHINE_OUTPUT_PATH && RESULTS[2] == STDERR_PATH;
    forall p | p in RESULTS
      ensures !WithinAny(Roots(cfg), p)
    {
      ResultsAreNotEvaluated(cfg, p);
    }
  }
}
