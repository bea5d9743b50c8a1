/** Emission of a signed evaluation package: the staging tree and how it is read.
    The tree is shared. Between any two accesses of the emitter, other processes
    may write, add or delete files. Subprocesses appear as the bytes captured
    from them. */
module Emit {
  import opened Basics
  import opened PackageFiles

  /** What the emitter cannot control: `write` is what others do to the staging
      tree in a numbered gap, `walk` the sorted names a directory walk of the
      staging tree returns while others write, and `list` the sorted names of a
      tree nobody else touches. */
  datatype FileSystem = FileSystem(
    write: (nat, Tree) -> Tree,
    walk: (nat, Tree) -> seq<string>,
    list: Tree -> seq<string>)

  ghost predicate Orderly(fs: FileSystem) {
    && (forall k, t :: Ascending(fs.walk(k, t)))
    && forall t :: Ascending(fs.list(t)) && forall p :: p in fs.list(t) <==> p in t
  }

  /** Nobody else touches the staging tree. */
  ghost predicate Quiet(fs: FileSystem) {
    forall k, t :: fs.write(k, t) == t && fs.walk(k, t) == fs.list(t)
  }

  const ARTIFACT_DIR := "artifact"
  const KEYS_DIR := "inputs/keys"
  const PACKAGE_KEYS_DIR := "inputs/package-keys"
  const CONFORMANCE_PATH := "results/conformance.json"
  const MACHINE_OUTPUT_PATH := "results/artifact.json"
  const STDERR_PATH := "results/stderr.txt"
  const ARTIFACT_MANIFEST := "artifact/manifest.json"

  const RESULTS: seq<string> := [CONFORMANCE_PATH, MACHINE_OUTPUT_PATH, STDERR_PATH]

  // ----- Reading a tree that others write -----

  /** The size and the digest of an entry were each read from some tree of the history. */
  ghost predicate WasRead(sha: HashFn, b: Blob, history: seq<Tree>) {
    && (exists i :: 0 <= i < |history| && b.path in history[i] && b.size == |history[i][b.path]|)
    && exists j :: 0 <= j < |history| && b.path in history[j] && b.digest == Hex(sha(history[j][b.path]))
  }

  ghost predicate AllRead(sha: HashFn, bs: seq<Blob>, history: seq<Tree>) {
    forall b :: b in bs ==> WasRead(sha, b, history)
  }

  /** The bytes at this path were there in some tree of the history. */
  ghost predicate WasThere(path: string, data: Bytes, history: seq<Tree>) {
    exists i :: 0 <= i < |history| && path in history[i] && history[i][path] == data
  }

  ghost predicate AllThere(t: Tree, history: seq<Tree>) {
    forall p :: p in t ==> WasThere(p, t[p], history)
  }

  lemma WasReadLater(sha: HashFn, b: Blob, history: seq<Tree>, later: seq<Tree>)
    requires WasRead(sha, b, history) && history <= later
    ensures WasRead(sha, b, later)
  {
    var i :| 0 <= i < |history| && b.path in history[i] && b.size == |history[i][b.path]|;
    var j :| 0 <= j < |history| && b.path in history[j] && b.digest == Hex(sha(history[j][b.path]));
    assert history[i] == later[i] && history[j] == later[j];
  }

  lemma WasThereLater(path: string, data: Bytes, history: seq<Tree>, later: seq<Tree>)
    requires WasThere(path, data, history) && history <= later
    ensures WasThere(path, data, later)
  {
    var i :| 0 <= i < |history| && path in history[i] && history[i][path] == data;
    assert history[i] == later[i];
  }

  /** The staging tree, and every state it has been in. */
  class Stage {
    const sha: HashFn
    const fs: FileSystem
    var files: Tree
    var gap: nat
    ghost var history: seq<Tree>

    constructor (sha: HashFn, fs: FileSystem, files: Tree)
      ensures this.sha == sha && this.fs == fs && this.files == files && history == [files] && Valid()
    {
      this.sha, this.fs, this.files, gap, history := sha, fs, files, 0, [files];
    }

    ghost predicate Valid()
      reads this
    {
      history != [] && history[|history| - 1] == files
    }

    /** The states since the history had length `from`. */
    ghost function Since(from: nat): seq<Tree>
      reads this
      requires from <= |history|
    {
      history[from..]
    }

    method Interfere()
      requires Valid()
      modifies this
      ensures Valid() && history == old(history) + [files]
      ensures files == fs.write(old(gap), old(files))
    {
      files := fs.write(gap, files);
      gap := gap + 1;
      history := history + [files];
    }

    /** Write one file, after whatever others do first. */
    method Write(path: string, data: Bytes)
      requires Valid()
      modifies this
      ensures Valid() && old(history) <= history
      ensures Quiet(fs) ==> files == old(files)[path := data]
    {
      Interfere();
      files := files[path := data];
      history := history + [files];
    }

    /** Size, then bytes, of one name, with others writing in between. */
    method IndexOne(name: string) returns (b: Option<Blob>)
      requires Valid()
      modifies this
      ensures Valid() && old(history) <= history
      ensures b.Some? ==> b.value.path == name && WasRead(sha, b.value, Since(|old(history)|))
      ensures Quiet(fs) ==> files == old(files)
      ensures Quiet(fs) ==> b == if name in files then Some(BlobOf(sha, name, files[name])) else None
    {
      Interfere();
      if name !in files {
        return None;
      }
      var size := |files[name]|;
      ghost var first := files;
      Interfere();
      if name !in files {
        return None;
      }
      b := Some(Blob(name, size, Hex(sha(files[name]))));
      assert Since(|old(history)|) == [first, files];
      assert [first, files][0] == first && [first, files][1] == files;
    }

    /** Index the tree by a walk that others may disturb. */
    method IndexFiles() returns (blobs: Option<seq<Blob>>)
      requires Valid() && Orderly(fs)
      modifies this
      ensures Valid() && old(history) <= history
      ensures blobs.Some? ==> Sorted(blobs.value) && AllRead(sha, blobs.value, Since(|old(history)|))
      ensures Quiet(fs) ==> files == old(files) && blobs.Some? && IsIndex(sha, blobs.value, files)
    {
      Interfere();
      var names := fs.walk(gap, files);
      ghost var start := |old(history)|;
      var bs: seq<Blob> := [];
      for i := 0 to |names|
        invariant Valid() && old(history) <= history
        invariant forall b :: b in bs ==> b.path in names[..i] && Listable(b.path)
        invariant Sorted(bs) && AllRead(sha, bs, Since(start))
        invariant Quiet(fs) ==> files == old(files) && names == fs.list(files)
        invariant Quiet(fs) ==> forall b :: b in bs <==> b.path in names[..i] && Listable(b.path) && b.path in files && b == BlobOf(sha, b.path, files[b.path])
      {
        var name := names[i];
        assert names[..i + 1] == names[..i] + [name];
        if name == MANIFEST_NAME || name == SIGNATURE_NAME {
          continue;
        }
        ghost var before := history;
        var b := IndexOne(name);
        if b.None? {
          assert name in names;
          return None;
        }
        ReadsPersist(sha, bs, before, history, start, b.value);
        AscendingAppend(names, i, bs, b.value);
        bs := bs + [b.value];
      }
      assert names[..|names|] == names;
      blobs := Some(bs);
    }

    /** Copy one file. */
    method CopyFile(path: string, replica: Tree, ghost start: nat) returns (copy: Option<Tree>)
      requires Valid() && start <= |history| && AllThere(replica, Since(start))
      modifies this
      ensures Valid() && old(history) <= history
      ensures copy.Some? ==> AllThere(copy.value, Since(start))
      ensures Quiet(fs) ==> files == old(files)
      ensures Quiet(fs) ==> copy == if path in files then Some(replica[path := files[path]]) else None
    {
      ghost var before := history;
      Interfere();
      if path !in files {
        return None;
      }
      TreePersists(replica, before, history, start);
      assert Since(start)[|Since(start)| - 1] == files;
      assert WasThere(path, files[path], Since(start));
      copy := Some(replica[path := files[path]]);
    }

    /** Copy every file inside a root; others may write between the reads. */
    method CopyRoot(root: string, replica: Tree, ghost start: nat) returns (copy: Option<Tree>)
      requires Valid() && Orderly(fs) && start <= |history| && AllThere(replica, Since(start))
      modifies this
      ensures Valid() && old(history) <= history
      ensures copy.Some? ==> AllThere(copy.value, Since(start))
      ensures Quiet(fs) ==> files == old(files) && copy.Some? && Copied(copy.value, replica, files, root, fs.list(files))
    {
      Interfere();
      var names := fs.walk(gap, files);
      var t := replica;
      TreePersists(t, old(history), history, start);
      for i := 0 to |names|
        invariant Valid() && old(history) <= history && AllThere(t, Since(start))
        invariant Quiet(fs) ==> files == old(files) && names == fs.list(files)
        invariant Quiet(fs) ==> Copied(t, replica, files, root, names[..i])
      {
        assert names[..i + 1] == names[..i] + [names[i]];
        if Within(root, names[i]) {
          assert names[i] in names;
          var next := CopyFile(names[i], t, start);
          if next.None? {
            return None;
          }
          if Quiet(fs) {
            CopiedStep(t, replica, files, root, names[..i], names[i]);
          }
          t := next.value;
        } else if Quiet(fs) {
          SkippedStep(t, replica, files, root, names[..i], names[i]);
        }
      }
      assert names[..|names|] == names;
      copy := Some(t);
    }
  }

  /** The seen files inside the root have been added to the replica. */
  ghost predicate Copied(t: Tree, replica: Tree, files: Tree, root: string, seen: seq<string>) {
    && (forall p :: p in t <==> p in replica || (p in files && p in seen && Within(root, p)))
    && forall p :: p in t ==> t[p] == if p in files && p in seen && Within(root, p) then files[p] else if p in replica then replica[p] else []
  }

  lemma CopiedStep(t: Tree, replica: Tree, files: Tree, root: string, seen: seq<string>, name: string)
    requires Copied(t, replica, files, root, seen) && Within(root, name) && name in files
    ensures Copied(t[name := files[name]], replica, files, root, seen + [name])
  {
  }

  lemma SkippedStep(t: Tree, replica: Tree, files: Tree, root: string, seen: seq<string>, name: string)
    requires Copied(t, replica, files, root, seen) && !Within(root, name)
    ensures Copied(t, replica, files, root, seen + [name])
  {
  }

  lemma ReadsPersist(sha: HashFn, bs: seq<Blob>, before: seq<Tree>, after: seq<Tree>, start: nat, b: Blob)
    requires start <= |before| && before <= after && AllRead(sha, bs, before[start..]) && WasRead(sha, b, after[|before|..])
    ensures AllRead(sha, bs + [b], after[start..])
  {
    forall c | c in bs
      ensures WasRead(sha, c, after[start..])
    {
      WasReadLater(sha, c, before[start..], after[start..]);
    }
    var i :| 0 <= i < |after[|before|..]| && b.path in after[|before|..][i] && b.size == |after[|before|..][i][b.path]|;
    var j :| 0 <= j < |after[|before|..]| && b.path in after[|before|..][j] && b.digest == Hex(sha(after[|before|..][j][b.path]));
    var shift := |before| - start;
    assert after[start..][i + shift] == after[|before|..][i] && after[start..][j + shift] == after[|before|..][j];
  }

  lemma TreePersists(t: Tree, before: seq<Tree>, after: seq<Tree>, start: nat)
    requires start <= |before| && before <= after && AllThere(t, before[start..])
    ensures AllThere(t, after[start..])
  {
    forall p | p in t
      ensures WasThere(p, t[p], after[start..])
    {
      WasThereLater(p, t[p], before[start..], after[start..]);
    }
  }

  lemma AscendingAppend(names: seq<string>, i: nat, bs: seq<Blob>, b: Blob)
    requires Ascending(names) && i < |names| && b.path == names[i] && Sorted(bs)
    requires forall c :: c in bs ==> c.path in names[..i]
    ensures Sorted(bs + [b])
  {
    forall j | 0 <= j < |bs|
      ensures PathBefore(bs[j].path, b.path)
    {
      assert bs[j] in bs;
      var k :| 0 <= k < i && names[k] == bs[j].path;
    }
  }
}
