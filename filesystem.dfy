/**
 * The directory tree under the catalog root, as far as the catalog touches it:
 * files are unlinked by the quota sweep, thumbnails are written by ingestion,
 * and empty directories are pruned by `Database.remove_empty_dirs`.
 *
 * A path is the list of its components relative to the root; the root itself
 * is the empty path. Symbolic links are not modelled.
 */
module FileSystem {
  import opened Wrappers

  type Path = seq<string>

  /** `a` is `b` or one of its ancestors. */
  predicate IsPrefix(a: Path, b: Path)
  {
    |a| <= |b| && b[..|a|] == a
  }

  /** `a` is a proper ancestor of `b`. */
  predicate StrictPrefix(a: Path, b: Path)
  {
    |a| < |b| && b[..|a|] == a
  }

  /** `b` is an entry directly inside `a`. */
  predicate IsChild(a: Path, b: Path)
  {
    |b| == |a| + 1 && b[..|a|] == a
  }

  function Parent(p: Path): Path
    requires p != []
  {
    p[..|p| - 1]
  }

  /**
   * A tree: the root is a directory, nothing is both a file and a directory,
   * and every entry but the root sits in a directory.
   */
  predicate WellFormed(dirs: set<Path>, files: map<Path, nat>)
  {
    && [] in dirs
    && (forall p :: p in files ==> p !in dirs)
    && (forall p :: p in dirs && p != [] ==> Parent(p) in dirs)
    && (forall p :: p in files ==> p != [] && Parent(p) in dirs)
  }

  /** No file lies inside `d` (at any depth). */
  predicate NoFileUnder(files: map<Path, nat>, d: Path)
  {
    forall f :: f in files ==> !IsPrefix(d, f)
  }

  /** Every proper ancestor of an entry is a directory. */
  lemma {:induction false} AncestorIsDir(dirs: set<Path>, files: map<Path, nat>, p: Path, k: nat)
    requires WellFormed(dirs, files)
    requires p in dirs || p in files
    requires k < |p|
    ensures p[..k] in dirs
  {
    var q := Parent(p);
    assert q in dirs;
    if k < |q| {
      AncestorIsDir(dirs, files, q, k);
      assert q[..k] == p[..k];
    } else {
      assert q == p[..k];
    }
  }

  // ---------------------------------------------------------------------------
  // remove_empty_dirs

  /**
   * The directories `remove_empty_dirs(path, dry_run)` removes, as written: the
   * recursive call drops `dry_run`, so every directory strictly inside `path`
   * that holds no file goes, dry run or not; `path` itself goes when it is not
   * the root, holds no file, and this is not a dry run.
   */
  function Pruned(dirs: set<Path>, files: map<Path, nat>, path: Path, dryRun: bool): set<Path>
  {
    (set d | d in dirs && StrictPrefix(path, d) && NoFileUnder(files, d))
      + (if path != [] && !dryRun && NoFileUnder(files, path) then {path} else {})
  }

  /** Removing the pruned directories leaves a tree. */
  lemma PrunedKeepsTree(dirs: set<Path>, files: map<Path, nat>, path: Path, dryRun: bool)
    requires WellFormed(dirs, files) && path in dirs
    ensures WellFormed(dirs - Pruned(dirs, files, path, dryRun), files)
  {
    var gone := Pruned(dirs, files, path, dryRun);
    var left := dirs - gone;
    forall p | p in left && p != [] ensures Parent(p) in left {
      var q := Parent(p);
      if q in gone {
        assert NoFileUnder(files, p) by {
          forall f | f in files ensures !IsPrefix(p, f) {
            if IsPrefix(p, f) { assert f[..|q|] == q; assert IsPrefix(q, f); }
          }
        }
      }
    }
    forall f | f in files ensures Parent(f) in left {
      var q := Parent(f);
      if q in gone { assert IsPrefix(q, f); }
    }
  }

  /** The root is never removed, and nothing outside `path` is. */
  lemma PrunedStaysInside(dirs: set<Path>, files: map<Path, nat>, path: Path, dryRun: bool)
    requires path in dirs
    ensures [] !in Pruned(dirs, files, path, dryRun)
    ensures forall d :: d in Pruned(dirs, files, path, dryRun) ==> d in dirs && IsPrefix(path, d)
  {
  }

  /**
   * Pruning from the root ignores `dry_run`: the root is never removed, and
   * below it the recursion never passes the flag on.
   */
  lemma DryRunPruneAtRootRemovesAsMuch(dirs: set<Path>, files: map<Path, nat>)
    ensures Pruned(dirs, files, [], true) == Pruned(dirs, files, [], false)
  {
  }

  /** A concrete case: a dry run from the root still deletes the empty directory `a`. */
  lemma DryRunPruneDeletesEmptyDirectory()
    ensures Pruned({[], ["a"]}, map[], [], true) == {["a"]}
  {
    var gone := Pruned({[], ["a"]}, map[], [], true);
    assert StrictPrefix([], ["a"]);
    assert ["a"] in gone;
  }

  /**
   * The directories pruning is meant to remove: the same as `Pruned` without a
   * dry run, and none at all with one.
   */
  function PrunedIntended(dirs: set<Path>, files: map<Path, nat>, path: Path, dryRun: bool): set<Path>
  {
    if dryRun then {} else Pruned(dirs, files, path, false)
  }

  /** The entries directly inside `path` (what `path.iterdir()` lists). */
  function ChildrenOf(dirs: set<Path>, files: map<Path, nat>, path: Path): set<Path>
  {
    (set d | d in dirs && IsChild(path, d)) + (set f | f in files && IsChild(path, f))
  }

  /**
   * Loop state of `remove_empty_dirs(path)`: the subdirectories of `path` not
   * in `todo` have been pruned, the others not yet.
   */
  ghost predicate PrunedExcept(orig: set<Path>, cur: set<Path>, files: map<Path, nat>, path: Path, todo: set<Path>)
  {
    forall d :: d in cur <==>
      d in orig && !(StrictPrefix(path, d) && d[..|path| + 1] !in todo && NoFileUnder(files, d))
  }

  lemma RouteIsSubdirectory(dirs: set<Path>, files: map<Path, nat>, path: Path, d: Path)
    requires WellFormed(dirs, files) && d in dirs && StrictPrefix(path, d)
    ensures d[..|path| + 1] in dirs && IsChild(path, d[..|path| + 1])
  {
    if |d| > |path| + 1 { AncestorIsDir(dirs, files, d, |path| + 1); } else { assert d[..|path| + 1] == d; }
    assert d[..|path| + 1][..|path|] == path;
  }

  lemma PrunedMember(dirs: set<Path>, files: map<Path, nat>, c: Path, d: Path)
    requires c != [] && c in dirs
    ensures d in Pruned(dirs, files, c, false) <==> d in dirs && IsPrefix(c, d) && NoFileUnder(files, d)
  {
    if d != c && IsPrefix(c, d) { assert StrictPrefix(c, d); }
  }

  lemma PruneStep(orig: set<Path>, before: set<Path>, after: set<Path>, files: map<Path, nat>,
                  path: Path, c: Path, todo: set<Path>)
    requires PrunedExcept(orig, before, files, path, todo)
    requires c in todo && c in before && IsChild(path, c)
    requires after == before - Pruned(before, files, c, false)
    ensures PrunedExcept(orig, after, files, path, todo - {c})
  {
    forall d ensures d in after <==>
      d in orig && !(StrictPrefix(path, d) && d[..|path| + 1] !in todo - {c} && NoFileUnder(files, d))
    {
      PrunedMember(before, files, c, d);
      if StrictPrefix(path, d) && d[..|path| + 1] == c {
        assert IsPrefix(c, d);
      }
    }
  }

  lemma PruneRecursionShrinks(orig: set<Path>, cur: set<Path>, path: Path, c: Path)
    requires cur <= orig && c in cur && IsChild(path, c)
    ensures (set d | d in cur && StrictPrefix(c, d)) < (set d | d in orig && StrictPrefix(path, d))
  {
    var inner := set d | d in cur && StrictPrefix(c, d);
    var outer := set d | d in orig && StrictPrefix(path, d);
    forall d | d in inner ensures d in outer {
      assert d[..|path|] == d[..|c|][..|path|];
    }
    assert c in outer && c !in inner;
  }

  /** After the children are pruned, removing `path` itself when it is empty completes the pruning. */
  lemma PruneFinish(orig: set<Path>, cur: set<Path>, after: set<Path>, files: map<Path, nat>, path: Path, dryRun: bool)
    requires PrunedExcept(orig, cur, files, path, {})
    requires after == if path != [] && NoFileUnder(files, path) && !dryRun then cur - {path} else cur
    ensures after == orig - Pruned(orig, files, path, dryRun)
  {
    forall d ensures d in after <==> d in orig - Pruned(orig, files, path, dryRun) {
      if d == path { assert !StrictPrefix(path, d); }
    }
  }

  lemma EmptyAfterPruning(orig: set<Path>, cur: set<Path>, files: map<Path, nat>, path: Path)
    requires WellFormed(orig, files) && path in orig
    requires PrunedExcept(orig, cur, files, path, {})
    ensures ChildrenOf(cur, files, path) == {} <==> NoFileUnder(files, path)
  {
    if NoFileUnder(files, path) {
      forall q | q in cur + files.Keys ensures !IsChild(path, q) {
        if q in files { assert !IsPrefix(path, q); }
      }
      assert ChildrenOf(cur, files, path) == {};
    } else {
      var f :| f in files && IsPrefix(path, f);
      assert f != path;
      var c := f[..|path| + 1];
      assert IsChild(path, c);
      if c == f {
        assert c in ChildrenOf(cur, files, path);
      } else {
        AncestorIsDir(orig, files, f, |path| + 1);
        assert IsPrefix(c, f);
        assert c in cur;
        assert c in ChildrenOf(cur, files, path);
      }
    }
  }

  class FileTree {
    var dirs: set<Path>
    var files: map<Path, nat>

    ghost predicate Valid()
      reads this
    {
      WellFormed(dirs, files)
    }

    constructor (dirs: set<Path>, files: map<Path, nat>)
      requires WellFormed(dirs, files)
      ensures Valid() && this.dirs == dirs && this.files == files
    {
      this.dirs := dirs;
      this.files := files;
    }

    /**
     * `remove_empty_dirs(path, dry_run)` as written: recurse into every
     * subdirectory (without passing `dry_run` on), then remove `path` if it is
     * now empty, is not the root, and this is not a dry run.
     */
    method RemoveEmptyDirs(path: Path, dryRun: bool)
      requires Valid() && path in dirs
      modifies this
      ensures Valid()
      ensures files == old(files)
      ensures dirs == old(dirs) - Pruned(old(dirs), old(files), path, dryRun)
      decreases set d | d in dirs && StrictPrefix(path, d)
    {
      var subs := set d | d in dirs && IsChild(path, d);
      forall d | d in dirs && StrictPrefix(path, d) ensures d[..|path| + 1] in subs {
        RouteIsSubdirectory(dirs, files, path, d);
      }
      var todo := subs;
      while todo != {}
        invariant Valid()
        invariant files == old(files)
        invariant todo <= subs && todo <= dirs
        invariant dirs <= old(dirs)
        invariant PrunedExcept(old(dirs), dirs, files, path, todo)
        decreases todo
      {
        var c :| c in todo;
        ghost var before := dirs;
        PruneRecursionShrinks(old(dirs), dirs, path, c);
        RemoveEmptyDirs(c, false);
        PruneStep(old(dirs), before, dirs, files, path, c, todo);
        todo := todo - {c};
      }
      var empty := ChildrenOf(dirs, files, path) == {};
      EmptyAfterPruning(old(dirs), dirs, files, path);
      ghost var children := dirs;
      if path != [] && empty && !dryRun {
        dirs := dirs - {path};
      }
      PruneFinish(old(dirs), children, dirs, files, path, dryRun);
      PrunedKeepsTree(old(dirs), old(files), path, dryRun);
    }

    /**
     * Pruning with the flag handed down the recursion: a dry run removes
     * nothing, a real run removes what `RemoveEmptyDirs` does.
     */
    method RemoveEmptyDirsIntended(path: Path, dryRun: bool)
      requires Valid() && path in dirs
      modifies this
      ensures Valid()
      ensures files == old(files)
      ensures dirs == old(dirs) - PrunedIntended(old(dirs), old(files), path, dryRun)
    {
      if !dryRun {
        RemoveEmptyDirs(path, false);
      }
    }

    /**
     * `path.unlink()`: a file is removed; a missing path raises
     * `FileNotFoundError` and a directory `IsADirectoryError`, both left for
     * the caller to handle.
     */
    method Unlink(p: Path) returns (r: UnlinkOutcome)
      requires Valid()
      modifies this
      ensures Valid() && dirs == old(dirs)
      ensures r == Unlinked <==> p in old(files)
      ensures r == IsADirectory <==> p in old(dirs)
      ensures files == old(files) - {p}
    {
      if p in files {
        files := files - {p};
        r := Unlinked;
      } else if p in dirs {
        r := IsADirectory;
      } else {
        r := NoSuchFile;
      }
    }

    /** Writing `size` bytes to `p` (a thumbnail): creates or replaces the file. */
    method Save(p: Path, size: nat) returns (ok: bool)
      requires Valid()
      modifies this
      ensures Valid() && dirs == old(dirs)
      ensures ok <==> p != [] && Parent(p) in dirs && p !in dirs
      ensures files == if ok then old(files)[p := size] else old(files)
    {
      ok := p != [] && Parent(p) in dirs && p !in dirs;
      if ok {
        files := files[p := size];
      }
    }
  }

  datatype UnlinkOutcome = Unlinked | NoSuchFile | IsADirectory
}
