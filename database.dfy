/**
 * `Database`: the catalog session (rows as the session sees them, pending ones
 * included, and the rows last committed), the directory tree under the root,
 * and the operations that change them: `update_file`, `update`, `clean`,
 * `find_or_insert` and the `get_above_quota` selection.
 *
 * The session flushes pending rows before every query, so a query sees what
 * was added or deleted earlier in the same run; `commit` makes the session's
 * rows the committed ones. JSON decoding, path resolution, image decoding and
 * thumbnail sizes come from the environment `Env`.
 */
module Database {
  import opened Wrappers
  import opened Text
  import opened Timestamps
  import opened Documents
  import opened Projections
  import opened FileSystem
  import opened Catalog
  import opened Ingest
  import opened Quota

  /** What `update_file` learns from libraries and the operating system. */
  datatype Env = Env(
    load: Path -> Option<Json>,             // json.load of the file; None when it is not JSON
    resolve: string -> Option<Path>,        // (root / Path(p)).resolve().relative_to(root); None outside the root
    imageSize: Path -> Option<(nat, nat)>,  // PIL.Image.open(p).size; None when PIL cannot open it
    thumbSize: Path -> nat,                 // the size of the thumbnail PIL saves at p
    dirSize: Path -> nat)                   // stat().st_size of a directory

  datatype CleanError = IsADirectoryError(path: Path)

  // ---------------------------------------------------------------------------
  // The catalog's integrity

  function PathSet(f: File): set<string>
  {
    set p | p in f.products :: p.path
  }

  /** Every product path in the catalog. */
  function Paths(files: seq<File>): set<string>
  {
    set f, p | f in files && p in f.products :: p.path
  }

  predicate DistinctPaths(ps: seq<Product>)
  {
    forall i, j :: 0 <= i < j < |ps| ==> ps[i].path != ps[j].path
  }

  /**
   * Ids are unique and below the next id, product paths are unique (the
   * column's `unique=True`), projection references point into the table,
   * and the table has no duplicate row.
   */
  predicate CatalogValid(files: seq<File>, projections: seq<Projection>, nextId: nat)
  {
    && (forall f :: f in files ==> f.id < nextId && DistinctPaths(f.products))
    && (forall f :: f in files && f.projection.Some? ==> f.projection.value < |projections|)
    && (forall f, g :: f in files && g in files && f.id == g.id ==> f == g)
    && (forall f, g :: f in files && g in files && f != g ==> PathSet(f) !! PathSet(g))
    && NoDuplicates(projections)
  }

  lemma PathsGrow(a: seq<File>, b: seq<File>)
    requires |a| <= |b| && b[..|a|] == a
    ensures Paths(a) <= Paths(b)
  {
    forall s | s in Paths(a) ensures s in Paths(b) {
      var f, p :| f in a && p in f.products && p.path == s;
      assert f in b;
    }
  }

  // ---------------------------------------------------------------------------
  // Deleting rows

  /** The ids of the files. */
  function Ids(fs: seq<File>): set<nat>
  {
    if fs == [] then {} else Ids(fs[..|fs| - 1]) + {fs[|fs| - 1].id}
  }

  /** The catalog without the files whose ids are listed, in the same order. */
  function Without(fs: seq<File>, ids: set<nat>): seq<File>
  {
    if fs == [] then []
    else (if fs[0].id in ids then [] else [fs[0]]) + Without(fs[1..], ids)
  }

  /** Exactly the files whose ids are not listed are kept. */
  lemma {:induction false} WithoutMembers(fs: seq<File>, ids: set<nat>)
    ensures forall f :: f in Without(fs, ids) <==> f in fs && f.id !in ids
  {
    if fs != [] {
      WithoutMembers(fs[1..], ids);
      assert fs == [fs[0]] + fs[1..];
    }
  }

  /** Deleting no id keeps every row. */
  lemma {:induction false} WithoutNone(fs: seq<File>)
    ensures Without(fs, {}) == fs
  {
    if fs != [] {
      WithoutNone(fs[1..]);
      assert fs == [fs[0]] + fs[1..];
    }
  }

  /** Deleting in two rounds deletes what one round with both lists does. */
  lemma {:induction false} WithoutTwice(fs: seq<File>, a: set<nat>, b: set<nat>)
    ensures Without(Without(fs, a), b) == Without(fs, a + b)
  {
    if fs != [] {
      var x, rest := fs[0], fs[1..];
      WithoutTwice(rest, a, b);
      assert Without(fs, a + b) == (if x.id in a + b then [] else [x]) + Without(rest, a + b);
      if x.id !in a {
        var w := Without(fs, a);
        assert w == [x] + Without(rest, a);
        assert w[0] == x && w[1..] == Without(rest, a);
        assert Without(w, b) == (if x.id in b then [] else [x]) + Without(w[1..], b);
      } else {
        assert Without(fs, a) == Without(rest, a);
      }
    }
  }

  lemma CatalogValidWithout(files: seq<File>, projections: seq<Projection>, nextId: nat, ids: set<nat>)
    requires CatalogValid(files, projections, nextId)
    ensures CatalogValid(Without(files, ids), projections, nextId)
  {
    WithoutMembers(files, ids);
  }

  lemma ProductLocationsStep(ps: seq<Product>, j: nat)
    requires j < |ps|
    ensures ProductLocations(ps[..j + 1]) == ProductLocations(ps[..j]) + {Locate(ps[j].path)}
  {
    assert ps[..j + 1][..j] == ps[..j];
  }

  /** The product paths of the sidecars `update` is given. */
  function SidecarKeys(sidecars: seq<Path>): set<string>
  {
    set k | 0 <= k < |sidecars| :: PathString(sidecars[k])
  }

  lemma SidecarKeysStep(sidecars: seq<Path>, i: nat)
    requires i < |sidecars|
    ensures SidecarKeys(sidecars[..i + 1]) == SidecarKeys(sidecars[..i]) + {PathString(sidecars[i])}
    ensures PathString(sidecars[i]) in SidecarKeys(sidecars)
  {
    assert sidecars[..i + 1][i] == sidecars[i];
    forall x | x in SidecarKeys(sidecars[..i + 1]) ensures x in SidecarKeys(sidecars[..i]) + {PathString(sidecars[i])} {
      var k :| 0 <= k < i + 1 && PathString(sidecars[..i + 1][k]) == x;
      if k < i { assert sidecars[..i + 1][k] == sidecars[..i][k]; }
    }
    forall x | x in SidecarKeys(sidecars[..i]) ensures x in SidecarKeys(sidecars[..i + 1]) {
      var k :| 0 <= k < i && PathString(sidecars[..i][k]) == x;
      assert sidecars[..i][k] == sidecars[..i + 1][k];
    }
  }

  /** One more step of the deleting loop of `clean`: the rows and locations of `sel[k]` go too. */
  lemma DeletedOneMore(fs: seq<File>, disk: map<Path, nat>, sel: seq<File>, k: nat)
    requires k < |sel|
    ensures Without(Without(fs, Ids(sel[..k])), {sel[k].id}) == Without(fs, Ids(sel[..k + 1]))
    ensures disk - FileLocations(sel[..k]) - ProductLocations(sel[k].products) == disk - FileLocations(sel[..k + 1])
  {
    assert sel[..k + 1][..k] == sel[..k];
    assert FileLocations(sel[..k + 1]) == FileLocations(sel[..k]) + ProductLocations(sel[k].products);
    WithoutTwice(fs, Ids(sel[..k]), {sel[k].id});
  }

  /** Where the products of the files lie in the tree. */
  function ProductLocations(ps: seq<Product>): set<Path>
  {
    if ps == [] then {} else ProductLocations(ps[..|ps| - 1]) + {Locate(ps[|ps| - 1].path)}
  }

  function FileLocations(fs: seq<File>): set<Path>
  {
    if fs == [] then {} else FileLocations(fs[..|fs| - 1]) + ProductLocations(fs[|fs| - 1].products)
  }

  /** The thumbnail of `p`: `p.with_suffix('.thumbnail.' + ext)`. */
  function ThumbnailPath(p: Path, ext: string): (r: Path)
    requires p != []
    ensures |r| == |p| && r[..|p| - 1] == p[..|p| - 1]
    ensures r[|p| - 1] == Stem(p[|p| - 1]) + ".thumbnail." + ext
  {
    p[..|p| - 1] + [Stem(p[|p| - 1]) + ".thumbnail." + ext]
  }

  /**
   * The thumbnail of a data file `stem.e` is `stem.thumbnail.e` beside it: it
   * keeps the data file's extension and its stem grows by `.thumbnail`.
   */
  lemma ThumbnailOfDataFile(dirs: Path, stem: string, e: string)
    requires Free(dirs, '/') && '/' !in stem && stem != []
    requires e != [] && '.' !in e && '/' !in e
    ensures ThumbnailPath(dirs + [stem + "." + e], e) == dirs + [stem + ".thumbnail." + e]
    ensures Ext(PathString(ThumbnailPath(dirs + [stem + "." + e], e))) == Lower(e)
    ensures Stem(stem + ".thumbnail." + e) == stem + ".thumbnail"
  {
    var p := dirs + [stem + "." + e];
    var t := stem + ".thumbnail." + e;
    assert ThumbnailPath(p, e) == dirs + [t] by {
      ExtOfNamedFile(dirs, stem, e);
      assert p[..|dirs|] == dirs;
    }
    assert Ext(PathString(dirs + [t])) == Lower(e) && Stem(t) == stem + ".thumbnail" by {
      assert stem + ".thumbnail" + "." + e == t;
      ExtOfNamedFile(dirs, stem + ".thumbnail", e);
    }
  }

  /**
   * The projection `update_file` builds for a JPEG of the given size: from
   * the sidecar's `ImageNavigation` block, none when the block is missing.
   */
  function ProjectionOf(data: Json, size: (nat, nat)): Result<Option<Projection>, NavError>
  {
    match Get(data, "ImageNavigation")
    case Ok(nav) => FromNav(JNum(size.0 as real), JNum(size.1 as real), nav)
    case Err(_) => Ok(None)
  }

  /** What `update_file` reads before it writes anything. */
  datatype Sidecar = Sidecar(data: Json, dataRel: Path, dataSize: nat, jsonSize: nat, ext: string, desc: Description)

  /**
   * The reading half of `update_file` for the sidecar at `rel`, on a disk
   * holding the files `disk` and the directories `dirs`: decode it, follow its
   * `Path` to the data file (which must lie under the root and exist; `stat`
   * accepts a directory, the root included, as well as a file), take both
   * sizes and the data file's extension, and describe the row from the
   * sidecar's stem and contents.
   */
  function ReadSidecar(rel: Path, env: Env, disk: map<Path, nat>, dirs: set<Path>): (r: Result<Sidecar, IngestError>)
    requires rel != []
    ensures rel !in disk ==> r == Err(NotFound)
    ensures rel in disk && env.load(rel).None? ==> r == Err(Undecodable)
    ensures r.Ok? ==> rel in disk && (r.value.dataRel in disk || r.value.dataRel in dirs)
    ensures r.Ok? && r.value.dataRel == [] ==> r.value.ext == ""
  {
    if rel !in disk then Err(NotFound)
    else if env.load(rel).None? then Err(Undecodable)
    else
      var data := env.load(rel).value;
      match Get(data, "Path")
      case Err(KeyError(_)) => Err(MissingKey("Path"))
      case Err(TypeError) => Err(WrongType)
      case Ok(named) =>
        if !named.JStr? then Err(WrongType)
        else if env.resolve(named.s).None? then Err(OutsideRoot)
        else
          var dataRel := env.resolve(named.s).value;
          if dataRel !in disk && dataRel !in dirs then Err(NotFound)
          else
            var dataSize := if dataRel in disk then disk[dataRel] else env.dirSize(dataRel);
            var desc :- Describe(Stem(rel[|rel| - 1]), rel[0], data);
            Ok(Sidecar(data, dataRel, dataSize, disk[rel], Ext(PathString(dataRel)), desc))
  }

  /**
   * A sidecar that reads names, inside the root, a data file on disk; the
   * row's sizes are the two files' sizes, its type the data file's extension,
   * and its name the one the file-name heuristic finds in the sidecar's stem.
   */
  lemma ReadSidecarReads(rel: Path, env: Env, disk: map<Path, nat>, dirs: set<Path>)
    requires rel != []
    ensures var r := ReadSidecar(rel, env, disk, dirs);
      r.Ok? ==>
        && r.value.jsonSize == disk[rel]
        && r.value.dataSize == (if r.value.dataRel in disk then disk[r.value.dataRel] else env.dirSize(r.value.dataRel))
        && env.load(rel) == Some(r.value.data)
        && Get(r.value.data, "Path").Ok? && Get(r.value.data, "Path").value.JStr?
        && env.resolve(Get(r.value.data, "Path").value.s) == Some(r.value.dataRel)
        && r.value.ext == Ext(PathString(r.value.dataRel))
        && SplitFileName(Stem(rel[|rel| - 1])).Ok?
        && r.value.desc.name == SplitFileName(Stem(rel[|rel| - 1])).value.name
  {
  }

  /**
   * A sidecar whose `Path` names a directory, the root included, still reads:
   * the directory's own size stands for the data file's, and the root gets the
   * path `.` and no extension.
   */
  lemma ReadSidecarAcceptsDirectory(rel: Path, env: Env, disk: map<Path, nat>, dirs: set<Path>, dataRel: Path)
    requires rel != [] && rel in disk && env.load(rel).Some?
    requires Get(env.load(rel).value, "Path").Ok? && Get(env.load(rel).value, "Path").value.JStr?
    requires env.resolve(Get(env.load(rel).value, "Path").value.s) == Some(dataRel)
    requires dataRel in dirs && dataRel !in disk
    requires Describe(Stem(rel[|rel| - 1]), rel[0], env.load(rel).value).Ok?
    ensures var r := ReadSidecar(rel, env, disk, dirs);
      && r.Ok? && r.value.dataRel == dataRel && r.value.dataSize == env.dirSize(dataRel)
      && (dataRel == [] ==> r.value.ext == "" && PathString(r.value.dataRel) == ".")
  {
  }

  /**
   * The products of the new row: the data file as `MAIN`, the sidecar as
   * `META`, and the thumbnail as `THUMBNAIL` exactly when thumbnails are on
   * and the data file is a JPEG.
   */
  function ProductsFor(rel: Path, sc: Sidecar, env: Env, thumbnail: nat): (r: seq<Product>)
    requires sc.ext == "jpg" ==> sc.dataRel != []
    ensures |r| == (if thumbnail != 0 && sc.ext == "jpg" then 3 else 2)
    ensures r[0].ptype == Main && r[0].path == PathString(sc.dataRel) && r[0].size == sc.dataSize
    ensures r[1].ptype == Meta && r[1].path == PathString(rel) && r[1].size == sc.jsonSize
    ensures |r| == 3 ==> r[2].ptype == Thumbnail && r[2].path == PathString(ThumbnailPath(sc.dataRel, sc.ext))
  {
    var both := [Product(PathString(sc.dataRel), sc.dataSize, Main), Product(PathString(rel), sc.jsonSize, Meta)];
    if thumbnail != 0 && sc.ext == "jpg" then
      var t := ThumbnailPath(sc.dataRel, sc.ext);
      both + [Product(PathString(t), env.thumbSize(t), Thumbnail)]
    else both
  }

  /**
   * `f` is the row `update_file` writes for the sidecar at `rel`, given the
   * disk before the call and the projection table after it: the data file as
   * `MAIN`, the sidecar as `META`, and a `THUMBNAIL` exactly when thumbnails
   * are on and the data file is a JPEG, whose projection is the table row
   * equal to the one its navigation block describes.
   */
  ghost predicate IngestedRow(f: File, id: nat, rel: Path, env: Env, disk: map<Path, nat>, dirs: set<Path>,
                              thumbnail: nat, projections: seq<Projection>)
    requires rel != []
  {
    && ReadSidecar(rel, env, disk, dirs).Ok?
    && var s := ReadSidecar(rel, env, disk, dirs).value;
    && RowFrom(f, id, rel, s, env, thumbnail, projections)
  }

  /**
   * The files on disk once the sidecar `sc` is ingested: the thumbnail is
   * written beside its data file exactly when thumbnails are on and the data
   * file is a JPEG.
   */
  function ThumbnailWritten(disk: map<Path, nat>, sc: Sidecar, env: Env, thumbnail: nat): (r: map<Path, nat>)
    requires sc.ext == "jpg" ==> sc.dataRel != []
    ensures thumbnail == 0 || sc.ext != "jpg" ==> r == disk
    ensures thumbnail != 0 && sc.ext == "jpg" ==>
      r.Keys == disk.Keys + {ThumbnailPath(sc.dataRel, sc.ext)} && r[ThumbnailPath(sc.dataRel, sc.ext)] == env.thumbSize(ThumbnailPath(sc.dataRel, sc.ext))
  {
    if thumbnail != 0 && sc.ext == "jpg" then
      var t := ThumbnailPath(sc.dataRel, sc.ext);
      disk[t := env.thumbSize(t)]
    else disk
  }

  /** The files on disk once the sidecar at `rel`, which reads, is ingested. */
  ghost function IngestedDisk(rel: Path, env: Env, disk: map<Path, nat>, dirs: set<Path>, thumbnail: nat): map<Path, nat>
    requires rel != [] && ReadSidecar(rel, env, disk, dirs).Ok?
  {
    ThumbnailWritten(disk, ReadSidecar(rel, env, disk, dirs).value, env, thumbnail)
  }

  /**
   * One turn of `update`'s loop, for the sidecar at `rel`: the rows before it
   * are `files[..m]` and after it `files[..m']`, the disk goes from `disk` to
   * `disk'`. A sidecar already listed as a product adds nothing; any other
   * adds exactly its `IngestedRow`, with id `id`, and writes its thumbnail.
   */
  ghost predicate UpdateStep(files: seq<File>, m: nat, m': nat, rel: Path, env: Env,
                             disk: map<Path, nat>, disk': map<Path, nat>, dirs: set<Path>,
                             thumbnail: nat, projections: seq<Projection>, id: nat)
    requires rel != []
  {
    && m <= m' <= m + 1 && m' <= |files|
    && (m' == m <==> PathString(rel) in Paths(files[..m]))
    && (m' == m ==> disk' == disk)
    && (m' == m + 1 ==>
          && IngestedRow(files[m], id, rel, env, disk, dirs, thumbnail, projections)
          && disk' == IngestedDisk(rel, env, disk, dirs, thumbnail))
  }

  /**
   * The turns of `update` over `sidecars`, in order: before the sidecar
   * `sidecars[k]` is taken there are `marks[k]` rows and the files on disk are
   * `disks[k]`, and each turn is an `UpdateStep` whose new row, if any, has
   * the id that follows the `n0` rows and next id `nextId0` of the start.
   */
  ghost predicate Turns(files: seq<File>, sidecars: seq<Path>, env: Env, dirs: set<Path>, thumbnail: nat,
                        projections: seq<Projection>, n0: nat, nextId0: nat, marks: seq<nat>, disks: seq<map<Path, nat>>)
    requires |marks| == |disks| == |sidecars| + 1
    requires forall k :: 0 <= k < |sidecars| ==> sidecars[k] != []
    decreases |sidecars|
  {
    sidecars == [] ||
      var n := |sidecars| - 1;
      && Turns(files, sidecars[..n], env, dirs, thumbnail, projections, n0, nextId0, marks[..n + 1], disks[..n + 1])
      && n0 <= marks[n]
      && UpdateStep(files, marks[n], marks[n + 1], sidecars[n], env, disks[n], disks[n + 1], dirs,
                    thumbnail, projections, nextId0 + (marks[n] - n0))
  }

  /**
   * The whole of a successful `update(sidecars)`: its turns lead from the rows
   * `files0` and disk `disk0` at the start to `files` and `disk` at the end.
   * The rows added are thus exactly one `IngestedRow` per sidecar not yet
   * listed, in the order of `sidecars`.
   */
  ghost predicate UpdateTrace(files0: seq<File>, files: seq<File>, disk0: map<Path, nat>, disk: map<Path, nat>,
                              sidecars: seq<Path>, env: Env, dirs: set<Path>, thumbnail: nat,
                              projections: seq<Projection>, nextId0: nat, marks: seq<nat>, disks: seq<map<Path, nat>>)
    requires forall i :: 0 <= i < |sidecars| ==> sidecars[i] != []
  {
    && |marks| == |disks| == |sidecars| + 1
    && marks[0] == |files0| && disks[0] == disk0
    && marks[|sidecars|] == |files| && disks[|sidecars|] == disk
    && Turns(files, sidecars, env, dirs, thumbnail, projections, |files0|, nextId0, marks, disks)
  }

  /** The turns already taken stay as they were when later turns add rows and projections. */
  lemma {:induction false} TurnsGrow(files: seq<File>, files': seq<File>, sidecars: seq<Path>, env: Env, dirs: set<Path>,
                                     thumbnail: nat, projections: seq<Projection>, projections': seq<Projection>,
                                     n0: nat, nextId0: nat, marks: seq<nat>, disks: seq<map<Path, nat>>)
    requires |marks| == |disks| == |sidecars| + 1
    requires forall k :: 0 <= k < |sidecars| ==> sidecars[k] != []
    requires Turns(files, sidecars, env, dirs, thumbnail, projections, n0, nextId0, marks, disks)
    requires |files| <= |files'| && files'[..|files|] == files
    requires |projections| <= |projections'| && projections'[..|projections|] == projections
    ensures Turns(files', sidecars, env, dirs, thumbnail, projections', n0, nextId0, marks, disks)
    decreases |sidecars|
  {
    if sidecars != [] {
      var n := |sidecars| - 1;
      TurnsGrow(files, files', sidecars[..n], env, dirs, thumbnail, projections, projections', n0, nextId0,
                marks[..n + 1], disks[..n + 1]);
      UpdateStepGrows(files, files', marks[n], marks[n + 1], sidecars[n], env, disks[n], disks[n + 1], dirs,
                      thumbnail, projections, projections', nextId0 + (marks[n] - n0));
    }
  }

  /** Every sidecar is listed as a product once its turn of `update` is over. */
  lemma {:induction false} TurnsListAll(files: seq<File>, sidecars: seq<Path>, env: Env, dirs: set<Path>,
                                        thumbnail: nat, projections: seq<Projection>, n0: nat, nextId0: nat,
                                        marks: seq<nat>, disks: seq<map<Path, nat>>)
    requires |marks| == |disks| == |sidecars| + 1
    requires forall k :: 0 <= k < |sidecars| ==> sidecars[k] != []
    requires Turns(files, sidecars, env, dirs, thumbnail, projections, n0, nextId0, marks, disks)
    ensures SidecarKeys(sidecars) <= Paths(files)
    decreases |sidecars|
  {
    if sidecars != [] {
      var n := |sidecars| - 1;
      TurnsListAll(files, sidecars[..n], env, dirs, thumbnail, projections, n0, nextId0, marks[..n + 1], disks[..n + 1]);
      assert sidecars[..n + 1] == sidecars;
      SidecarKeysStep(sidecars, n);
      var m := marks[n];
      assert PathString(sidecars[n]) in Paths(files) by {
        if marks[n + 1] == m {
          PathsGrow(files[..m], files);
        } else {
          var sc := ReadSidecar(sidecars[n], env, disks[n], dirs).value;
          assert files[m].products[1] in files[m].products;
        }
      }
    }
  }

  /** The turns add one row each or none, and every added row is some turn's. */
  lemma {:induction false} TurnsCover(files: seq<File>, sidecars: seq<Path>, env: Env, dirs: set<Path>,
                                      thumbnail: nat, projections: seq<Projection>, n0: nat, nextId0: nat,
                                      marks: seq<nat>, disks: seq<map<Path, nat>>)
    requires |marks| == |disks| == |sidecars| + 1
    requires forall k :: 0 <= k < |sidecars| ==> sidecars[k] != []
    requires Turns(files, sidecars, env, dirs, thumbnail, projections, n0, nextId0, marks, disks)
    ensures marks[0] <= marks[|sidecars|] <= marks[0] + |sidecars|
    ensures forall j :: marks[0] <= j < marks[|sidecars|] ==> RowAdded(marks, j)
    decreases |sidecars|
  {
    if sidecars != [] {
      var n := |sidecars| - 1;
      var pm := marks[..n + 1];
      TurnsCover(files, sidecars[..n], env, dirs, thumbnail, projections, n0, nextId0, pm, disks[..n + 1]);
      TurnAt(files, sidecars, env, dirs, thumbnail, projections, n0, nextId0, marks, disks, n);
      forall j | marks[0] <= j < marks[n + 1]
        ensures RowAdded(marks, j)
      {
        if j == marks[n] {
          assert AddsRow(marks, n, j);
        } else {
          assert RowAdded(pm, j);
          var k :| 0 <= k < n && AddsRow(pm, k, j);
          assert AddsRow(marks, k, j);
        }
      }
    }
  }

  /** Some turn adds the row at index `j`. */
  predicate RowAdded(marks: seq<nat>, j: nat)
  {
    exists k :: 0 <= k < |marks| - 1 && AddsRow(marks, k, j)
  }

  /** The turn `k` whose marks are `marks` adds the row at index `j`. */
  predicate AddsRow(marks: seq<nat>, k: nat, j: nat)
    requires k + 1 < |marks|
  {
    marks[k] == j && marks[k + 1] == j + 1
  }

  /**
   * A successful `update` appends at most one row per sidecar, and each row
   * it appends is the `IngestedRow` of one of them, read off the disk as it
   * was at that sidecar's turn, with the ids following on from `nextId0`.
   */
  lemma UpdateAddsIngestedRows(files0: seq<File>, files: seq<File>, disk0: map<Path, nat>, disk: map<Path, nat>,
                               sidecars: seq<Path>, env: Env, dirs: set<Path>, thumbnail: nat,
                               projections: seq<Projection>, nextId0: nat, marks: seq<nat>, disks: seq<map<Path, nat>>)
    requires forall i :: 0 <= i < |sidecars| ==> sidecars[i] != []
    requires UpdateTrace(files0, files, disk0, disk, sidecars, env, dirs, thumbnail, projections, nextId0, marks, disks)
    ensures |files0| <= |files| <= |files0| + |sidecars|
    ensures forall j :: |files0| <= j < |files| ==>
      (exists k :: 0 <= k < |sidecars| &&
         IngestedRow(files[j], nextId0 + (j - |files0|), sidecars[k], env, disks[k], dirs, thumbnail, projections))
  {
    TurnsCover(files, sidecars, env, dirs, thumbnail, projections, |files0|, nextId0, marks, disks);
    forall j | |files0| <= j < |files|
      ensures (exists k :: 0 <= k < |sidecars| &&
                 IngestedRow(files[j], nextId0 + (j - |files0|), sidecars[k], env, disks[k], dirs, thumbnail, projections))
    {
      assert RowAdded(marks, j);
      var k :| 0 <= k < |marks| - 1 && AddsRow(marks, k, j);
      TurnAt(files, sidecars, env, dirs, thumbnail, projections, |files0|, nextId0, marks, disks, k);
    }
  }

  /** Each turn of the trace is an `UpdateStep`. */
  lemma {:induction false} TurnAt(files: seq<File>, sidecars: seq<Path>, env: Env, dirs: set<Path>,
                                  thumbnail: nat, projections: seq<Projection>, n0: nat, nextId0: nat,
                                  marks: seq<nat>, disks: seq<map<Path, nat>>, k: nat)
    requires |marks| == |disks| == |sidecars| + 1
    requires forall i :: 0 <= i < |sidecars| ==> sidecars[i] != []
    requires Turns(files, sidecars, env, dirs, thumbnail, projections, n0, nextId0, marks, disks)
    requires k < |sidecars|
    ensures n0 <= marks[k]
    ensures UpdateStep(files, marks[k], marks[k + 1], sidecars[k], env, disks[k], disks[k + 1], dirs,
                       thumbnail, projections, nextId0 + (marks[k] - n0))
    decreases |sidecars|
  {
    if k == |sidecars| - 1 {
      LastTurn(files, sidecars, env, dirs, thumbnail, projections, n0, nextId0, marks, disks);
    } else {
      var n := |sidecars| - 1;
      assert sidecars[..n][k] == sidecars[k] && marks[..n + 1][k] == marks[k] && marks[..n + 1][k + 1] == marks[k + 1];
      assert disks[..n + 1][k] == disks[k] && disks[..n + 1][k + 1] == disks[k + 1];
      TurnAt(files, sidecars[..n], env, dirs, thumbnail, projections, n0, nextId0, marks[..n + 1], disks[..n + 1], k);
    }
  }

  /** The last turn of the trace is an `UpdateStep`. */
  lemma LastTurn(files: seq<File>, sidecars: seq<Path>, env: Env, dirs: set<Path>,
                 thumbnail: nat, projections: seq<Projection>, n0: nat, nextId0: nat,
                 marks: seq<nat>, disks: seq<map<Path, nat>>)
    requires |marks| == |disks| == |sidecars| + 1 && sidecars != []
    requires forall i :: 0 <= i < |sidecars| ==> sidecars[i] != []
    requires Turns(files, sidecars, env, dirs, thumbnail, projections, n0, nextId0, marks, disks)
    ensures n0 <= marks[|sidecars| - 1]
    ensures UpdateStep(files, marks[|sidecars| - 1], marks[|sidecars|], sidecars[|sidecars| - 1], env,
                       disks[|sidecars| - 1], disks[|sidecars|], dirs, thumbnail, projections,
                       nextId0 + (marks[|sidecars| - 1] - n0))
  {
  }

  /** A prefix of a prefix of the rows is a prefix of the rows. */
  lemma RowsPrefixTransitive(files0: seq<File>, before: seq<File>, files: seq<File>)
    requires |files0| <= |before| && before[..|files0|] == files0
    requires |before| <= |files| && files[..|before|] == before
    ensures files[..|files0|] == files0
  {
    assert files[..|before|][..|files0|] == files[..|files0|];
  }

  /** One more turn of `update` extends its trace. */
  lemma TraceExtend(files0: seq<File>, before: seq<File>, files: seq<File>,
                    disk0: map<Path, nat>, disk: map<Path, nat>, disk': map<Path, nat>,
                    sidecars: seq<Path>, i: nat, env: Env, dirs: set<Path>, thumbnail: nat,
                    table: seq<Projection>, projections: seq<Projection>, nextId0: nat, id: nat,
                    marks: seq<nat>, disks: seq<map<Path, nat>>)
    requires i < |sidecars| && forall k :: 0 <= k < |sidecars| ==> sidecars[k] != []
    requires UpdateTrace(files0, before, disk0, disk, sidecars[..i], env, dirs, thumbnail, table, nextId0, marks, disks)
    requires |files0| <= |before| <= |files| && files[..|before|] == before
    requires |table| <= |projections| && projections[..|table|] == table
    requires id == nextId0 + (|before| - |files0|)
    requires UpdateStep(files, |before|, |files|, sidecars[i], env, disk, disk', dirs, thumbnail, projections, id)
    ensures UpdateTrace(files0, files, disk0, disk', sidecars[..i + 1], env, dirs, thumbnail, projections, nextId0,
                        marks + [|files|], disks + [disk'])
  {
    var marks', disks' := marks + [|files|], disks + [disk'];
    TurnsGrow(before, files, sidecars[..i], env, dirs, thumbnail, table, projections, |files0|, nextId0, marks, disks);
    assert sidecars[..i + 1][..i] == sidecars[..i] && sidecars[..i + 1][i] == sidecars[i];
    assert marks'[..i + 1] == marks && disks'[..i + 1] == disks;
  }

  /** A row stays ingested when the projection table only grows. */
  lemma IngestedRowGrows(f: File, id: nat, rel: Path, env: Env, disk: map<Path, nat>, dirs: set<Path>,
                         thumbnail: nat, projections: seq<Projection>, projections': seq<Projection>)
    requires rel != [] && IngestedRow(f, id, rel, env, disk, dirs, thumbnail, projections)
    requires |projections| <= |projections'| && projections'[..|projections|] == projections
    ensures IngestedRow(f, id, rel, env, disk, dirs, thumbnail, projections')
  {
    if f.projection.Some? {
      assert projections'[f.projection.value] == projections[f.projection.value];
    }
  }

  /** A turn of `update` stays as it was when later turns add rows and projections. */
  lemma UpdateStepGrows(files: seq<File>, files': seq<File>, m: nat, m': nat, rel: Path, env: Env,
                        disk: map<Path, nat>, disk': map<Path, nat>, dirs: set<Path>, thumbnail: nat,
                        projections: seq<Projection>, projections': seq<Projection>, id: nat)
    requires rel != []
    requires UpdateStep(files, m, m', rel, env, disk, disk', dirs, thumbnail, projections, id)
    requires |files| <= |files'| && files'[..|files|] == files
    requires |projections| <= |projections'| && projections'[..|projections|] == projections
    ensures UpdateStep(files', m, m', rel, env, disk, disk', dirs, thumbnail, projections', id)
  {
    assert files'[..m] == files[..m];
    if m' == m + 1 {
      assert files'[m] == files[m];
      IngestedRowGrows(files[m], id, rel, env, disk, dirs, thumbnail, projections, projections');
    }
  }

  /** `f` is the row built from the sidecar `sc` read at `rel`. */
  ghost predicate RowFrom(f: File, id: nat, rel: Path, sc: Sidecar, env: Env, thumbnail: nat, projections: seq<Projection>)
    requires sc.ext == "jpg" ==> sc.dataRel != []
  {
    && f == File(id, sc.data, sc.desc.date, sc.ext, sc.desc.name,
                 sc.desc.labels.source, sc.desc.labels.region, sc.desc.labels.channel,
                 f.projection, ProductsFor(rel, sc, env, thumbnail))
    && ProjectionAttached(sc, env, f.projection, projections)
  }

  /**
   * `proj` is the projection a file read from `sc` gets: none unless it is a
   * JPEG, otherwise the table row equal to the projection its navigation
   * block describes, or none when the block describes none.
   */
  ghost predicate ProjectionAttached(sc: Sidecar, env: Env, proj: Option<nat>, projections: seq<Projection>)
  {
    if sc.ext != "jpg" then proj == None
    else
      && env.imageSize(sc.dataRel).Some?
      && var pr := ProjectionOf(sc.data, env.imageSize(sc.dataRel).value);
      && pr.Ok?
      && (proj.Some? <==> pr.value.Some?)
      && (proj.Some? ==> proj.value < |projections| && projections[proj.value] == pr.value.value)
  }

  /**
   * A row is only ever written for a sidecar whose stem one of the file-name
   * heuristics splits, and it carries the name that heuristic finds.
   */
  lemma IngestedRowNeedsName(f: File, id: nat, rel: Path, env: Env, disk: map<Path, nat>, dirs: set<Path>,
                             thumbnail: nat, projections: seq<Projection>)
    requires rel != [] && IngestedRow(f, id, rel, env, disk, dirs, thumbnail, projections)
    ensures SplitFileName(Stem(rel[|rel| - 1])).Ok?
    ensures f.name == SplitFileName(Stem(rel[|rel| - 1])).value.name
  {
    ReadSidecarReads(rel, env, disk, dirs);
  }

  /** Adding a row with a fresh id and fresh product paths keeps the catalog valid. */
  lemma AppendKeepsCatalogValid(files: seq<File>, projections: seq<Projection>, nextId: nat, row: File)
    requires CatalogValid(files, projections, nextId)
    requires row.id == nextId && DistinctPaths(row.products)
    requires row.projection.Some? ==> row.projection.value < |projections|
    requires PathSet(row) !! Paths(files)
    ensures CatalogValid(files + [row], projections, nextId + 1)
    ensures Paths(files + [row]) == Paths(files) + PathSet(row)
  {
    var fs := files + [row];
    forall f | f in fs ensures f == row || f in files { }
    forall f | f in files ensures PathSet(f) <= Paths(files) {
      forall x | x in PathSet(f) ensures x in Paths(files) {
        var p :| p in f.products && p.path == x;
      }
    }
    forall x | x in Paths(fs) ensures x in Paths(files) + PathSet(row) {
      var f, p :| f in fs && p in f.products && p.path == x;
      if f != row { assert f in files; }
    }
    forall x | x in PathSet(row) ensures x in Paths(fs) {
      var p :| p in row.products && p.path == x;
      assert row in fs;
    }
    PathsGrow(files, fs);
  }

  class Database {
    const quota: int
    const thumbnail: nat
    const tree: FileTree
    var files: seq<File>
    var projections: seq<Projection>
    var nextId: nat
    var savedFiles: seq<File>
    var savedProjections: seq<Projection>

    ghost predicate Valid()
      reads this, tree
    {
      && tree.Valid()
      && CatalogValid(files, projections, nextId)
    }

    /** A database over an existing tree whose catalog is empty. */
    constructor (quota: int, thumbnail: nat, tree: FileTree)
      requires tree.Valid()
      ensures Valid()
      ensures this.quota == quota && this.thumbnail == thumbnail && this.tree == tree
      ensures files == [] && projections == [] && savedFiles == [] && savedProjections == []
    {
      this.quota := quota;
      this.thumbnail := thumbnail;
      this.tree := tree;
      files := [];
      projections := [];
      nextId := 0;
      savedFiles := [];
      savedProjections := [];
    }

    /**
     * `Projection.find_or_insert`: look for an equal row, add `p` when there
     * is none, and return the row's index.
     */
    method FindOrInsert(p: Projection) returns (i: nat)
      requires Valid()
      modifies this
      ensures Valid()
      ensures (projections, i) == Projections.FindOrInsert(old(projections), p)
      ensures files == old(files) && nextId == old(nextId)
      ensures savedFiles == old(savedFiles) && savedProjections == old(savedProjections)
    {
      i := 0;
      while i < |projections| && projections[i] != p
        invariant i <= |projections|
        invariant p !in projections[..i]
      {
        assert projections[..i + 1] == projections[..i] + [projections[i]];
        i := i + 1;
      }
      if i == |projections| {
        assert projections[..i] == projections;
        FindOrInsertKeepsTableUnique(projections, p);
        projections := projections + [p];
      }
    }

    /**
     * `get_above_quota`: nothing when the quota is 0 or not exceeded;
     * otherwise the files in date order, each one's product sizes taken off
     * the excess, stopping after the file that covers it.
     */
    method GetAboveQuota() returns (r: seq<File>)
      ensures AboveQuota(files, quota, r)
    {
      r := [];
      if quota == 0 {
        return;
      }
      var excess := TotalSize(files) - quota;
      if excess <= 0 {
        return;
      }
      r := TakeUntilCovered(SortByDate(files), excess);
    }

    /**
     * The JPEG step of `update_file`: open the image for its size, build the
     * projection from the sidecar's navigation block and share an equal row
     * of the table, or add it. Other files get no projection.
     */
    method AttachProjection(sc: Sidecar, env: Env) returns (r: Result<Option<nat>, IngestError>)
      requires Valid()
      modifies this
      ensures Valid()
      ensures files == old(files) && nextId == old(nextId)
      ensures savedFiles == old(savedFiles) && savedProjections == old(savedProjections)
      ensures |old(projections)| <= |projections| && projections[..|old(projections)|] == old(projections)
      ensures sc.ext != "jpg" ==> r == Ok(None) && projections == old(projections)
      ensures r.Ok? ==> ProjectionAttached(sc, env, r.value, projections)
      ensures sc.ext == "jpg" && env.imageSize(sc.dataRel).None? ==> r == Err(BadImage)
      ensures sc.ext == "jpg" && env.imageSize(sc.dataRel).Some? ==>
        var pr := ProjectionOf(sc.data, env.imageSize(sc.dataRel).value);
        pr.Err? ==> r == Err(BadNavigation(pr.error))
    {
      if sc.ext != "jpg" {
        return Ok(None);
      }
      var size := env.imageSize(sc.dataRel);
      if size.None? {
        return Err(BadImage);
      }
      var nav := ProjectionOf(sc.data, size.value);
      if nav.Err? {
        return Err(BadNavigation(nav.error));
      }
      if nav.value.None? {
        return Ok(None);
      }
      FindOrInsertKeepsTableUnique(projections, nav.value.value);
      var i := FindOrInsert(nav.value.value);
      r := Ok(Some(i));
    }

    /**
     * The thumbnail step of `update_file`: when thumbnails are on and the data
     * file is a JPEG, save its thumbnail beside it; the products of the row
     * either way.
     */
    method SaveThumbnail(rel: Path, sc: Sidecar, env: Env) returns (r: Result<seq<Product>, IngestError>)
      requires tree.Valid() && (sc.ext == "jpg" ==> sc.dataRel != [])
      modifies tree
      ensures tree.Valid() && tree.dirs == old(tree.dirs)
      ensures r.Ok? ==> r.value == ProductsFor(rel, sc, env, thumbnail)
      ensures r.Err? ==> r.error == WriteFailed
      ensures !(thumbnail != 0 && sc.ext == "jpg") ==> r.Ok? && tree.files == old(tree.files)
      ensures thumbnail != 0 && sc.ext == "jpg" ==>
        var t := ThumbnailPath(sc.dataRel, sc.ext);
        && (r.Ok? <==> Parent(t) in old(tree.dirs) && t !in old(tree.dirs))
        && tree.files == if r.Ok? then old(tree.files)[t := env.thumbSize(t)] else old(tree.files)
    {
      var products := [Product(PathString(sc.dataRel), sc.dataSize, Main), Product(PathString(rel), sc.jsonSize, Meta)];
      if thumbnail != 0 && sc.ext == "jpg" {
        var t := ThumbnailPath(sc.dataRel, sc.ext);
        var size := env.thumbSize(t);
        var saved := tree.Save(t, size);
        if !saved {
          return Err(WriteFailed);
        }
        products := products + [Product(PathString(t), size, Thumbnail)];
      }
      r := Ok(products);
    }

    /**
     * `update(sidecars)`: `update_file` for every sidecar `rglob('*.json')`
     * lists, in that order, then commit. The first error ends the run with
     * nothing committed.
     */
    method Update(sidecars: seq<Path>, env: Env)
      returns (r: Result<(), IngestError>, ghost marks: seq<nat>, ghost disks: seq<map<Path, nat>>)
      requires Valid() && forall i :: 0 <= i < |sidecars| ==> sidecars[i] != []
      modifies this, tree
      ensures Valid()
      ensures tree.dirs == old(tree.dirs)
      ensures |old(files)| <= |files| && files[..|old(files)|] == old(files)
      ensures r.Ok? ==> savedFiles == files && savedProjections == projections
      ensures r.Ok? ==> forall i :: 0 <= i < |sidecars| ==> PathString(sidecars[i]) in Paths(files)
      ensures r.Err? ==> savedFiles == old(savedFiles) && savedProjections == old(savedProjections)
      ensures (forall i :: 0 <= i < |sidecars| ==> PathString(sidecars[i]) in Paths(old(files))) ==>
        && r.Ok? && files == old(files) && projections == old(projections)
        && nextId == old(nextId) && tree.files == old(tree.files)
      ensures r.Ok? ==>
        UpdateTrace(old(files), files, old(tree.files), tree.files, sidecars, env, tree.dirs,
                    thumbnail, projections, old(nextId), marks, disks)
    {
      ghost var known := SidecarKeys(sidecars) <= Paths(files);
      marks, disks := [|files|], [tree.files];
      var i := 0;
      while i < |sidecars|
        invariant i <= |sidecars|
        invariant Valid() && tree.dirs == old(tree.dirs)
        invariant savedFiles == old(savedFiles) && savedProjections == old(savedProjections)
        invariant |old(files)| <= |files| && files[..|old(files)|] == old(files)
        invariant known ==>
          && files == old(files) && projections == old(projections)
          && nextId == old(nextId) && tree.files == old(tree.files)
        invariant nextId == old(nextId) + (|files| - |old(files)|)
        invariant UpdateTrace(old(files), files, old(tree.files), tree.files, sidecars[..i], env, tree.dirs,
                              thumbnail, projections, old(nextId), marks, disks)
      {
        r, marks, disks := UpdateTurn(sidecars, i, env, old(files), old(tree.files), old(projections), old(nextId),
                                      marks, disks);
        if r.Err? {
          return;
        }
        i := i + 1;
      }
      assert sidecars[..i] == sidecars;
      TurnsListAll(files, sidecars, env, tree.dirs, thumbnail, projections, |old(files)|, old(nextId), marks, disks);
      savedFiles := files;
      savedProjections := projections;
      r := Ok(());
    }

    /**
     * One turn of `update`'s loop: `update_file` for the sidecar
     * `sidecars[i]`, with the loop's invariant, over the rows `files0`, disk
     * `disk0`, projection table `table0` and next id `nextId0` of the start,
     * carried from `i` sidecars to `i + 1`.
     */
    method UpdateTurn(sidecars: seq<Path>, i: nat, env: Env, ghost files0: seq<File>, ghost disk0: map<Path, nat>,
                      ghost table0: seq<Projection>, ghost nextId0: nat,
                      ghost marks: seq<nat>, ghost disks: seq<map<Path, nat>>)
      returns (r: Result<(), IngestError>, ghost marks': seq<nat>, ghost disks': seq<map<Path, nat>>)
      requires i < |sidecars| && forall k :: 0 <= k < |sidecars| ==> sidecars[k] != []
      requires Valid()
      requires |files0| <= |files| && files[..|files0|] == files0
      requires SidecarKeys(sidecars) <= Paths(files0) ==>
        && files == files0 && projections == table0 && nextId == nextId0 && tree.files == disk0
      requires nextId == nextId0 + (|files| - |files0|)
      requires UpdateTrace(files0, files, disk0, tree.files, sidecars[..i], env, tree.dirs,
                           thumbnail, projections, nextId0, marks, disks)
      modifies this, tree
      ensures Valid() && tree.dirs == old(tree.dirs)
      ensures savedFiles == old(savedFiles) && savedProjections == old(savedProjections)
      ensures |files0| <= |files| && files[..|files0|] == files0
      ensures SidecarKeys(sidecars) <= Paths(files0) ==> r.Ok?
      ensures r.Ok? ==>
        && (SidecarKeys(sidecars) <= Paths(files0) ==>
              && files == files0 && projections == table0 && nextId == nextId0 && tree.files == disk0)
        && nextId == nextId0 + (|files| - |files0|)
        && UpdateTrace(files0, files, disk0, tree.files, sidecars[..i + 1], env, tree.dirs,
                       thumbnail, projections, nextId0, marks', disks')
    {
      ghost var before, disk, table, id := files, tree.files, projections, nextId;
      SidecarKeysStep(sidecars, i);
      marks', disks' := marks, disks;
      r := UpdateFile(sidecars[i], env);
      RowsPrefixTransitive(files0, before, files);
      if r.Err? {
        return;
      }
      TraceExtend(files0, before, files, disk0, disk, tree.files, sidecars, i, env, tree.dirs,
                  thumbnail, table, projections, nextId0, id, marks, disks);
      marks', disks' := marks + [|files|], disks + [tree.files];
    }

    /**
     * `clean(dry_run)` as written, except that the selection uses the
     * corrected size of an empty catalog (see Findings): select the files
     * above the quota; unless this is a dry run, delete them and commit; then
     * prune the empty directories. The prune's recursion drops `dry_run`, so a dry run still
     * removes the empty sub-directories of the root.
     */
    method Clean(dryRun: bool) returns (r: Result<(), CleanError>, ghost selected: seq<File>)
      requires Valid()
      modifies this, tree
      ensures Valid()
      ensures AboveQuota(old(files), quota, selected)
      ensures projections == old(projections) && nextId == old(nextId)
      ensures dryRun ==>
        && r.Ok? && files == old(files) && tree.files == old(tree.files)
        && savedFiles == old(savedFiles) && savedProjections == old(savedProjections)
      ensures r.Err? ==> savedFiles == old(savedFiles) && savedProjections == old(savedProjections)
      ensures r.Err? ==> tree.dirs == old(tree.dirs) && r.error.path in old(tree.dirs)
      ensures r.Ok? && !dryRun ==>
        && files == Without(old(files), Ids(selected))
        && savedFiles == files && savedProjections == projections
        && tree.files == old(tree.files) - FileLocations(selected)
      ensures r.Ok? ==> tree.dirs == old(tree.dirs) - Pruned(old(tree.dirs), tree.files, [], dryRun)
    {
      r, selected := DeleteAboveQuota(dryRun);
      if r.Err? {
        return;
      }
      tree.RemoveEmptyDirs([], dryRun);
    }

    /** `clean` with `dry_run` passed down the prune: a dry run changes nothing at all. */
    method CleanIntended(dryRun: bool) returns (r: Result<(), CleanError>, ghost selected: seq<File>)
      requires Valid()
      modifies this, tree
      ensures Valid()
      ensures AboveQuota(old(files), quota, selected)
      ensures projections == old(projections) && nextId == old(nextId)
      ensures dryRun ==>
        && r.Ok? && files == old(files) && tree.files == old(tree.files) && tree.dirs == old(tree.dirs)
        && savedFiles == old(savedFiles) && savedProjections == old(savedProjections)
      ensures r.Err? ==> savedFiles == old(savedFiles) && savedProjections == old(savedProjections)
      ensures r.Err? ==> tree.dirs == old(tree.dirs) && r.error.path in old(tree.dirs)
      ensures r.Ok? && !dryRun ==>
        && files == Without(old(files), Ids(selected))
        && savedFiles == files && savedProjections == projections
        && tree.files == old(tree.files) - FileLocations(selected)
        && tree.dirs == old(tree.dirs) - Pruned(old(tree.dirs), tree.files, [], false)
    {
      r, selected := DeleteAboveQuota(dryRun);
      if r.Err? {
        return;
      }
      tree.RemoveEmptyDirsIntended([], dryRun);
    }

    /**
     * The part of `clean` before the prune: select the files above the quota
     * and, unless this is a dry run, delete them and commit. No directory is
     * touched.
     */
    method DeleteAboveQuota(dryRun: bool) returns (r: Result<(), CleanError>, ghost selected: seq<File>)
      requires Valid()
      modifies this, tree
      ensures Valid() && tree.dirs == old(tree.dirs)
      ensures AboveQuota(old(files), quota, selected)
      ensures projections == old(projections) && nextId == old(nextId)
      ensures dryRun ==>
        && r.Ok? && files == old(files) && tree.files == old(tree.files)
        && savedFiles == old(savedFiles) && savedProjections == old(savedProjections)
      ensures r.Err? ==> savedFiles == old(savedFiles) && savedProjections == old(savedProjections)
      ensures r.Err? ==> r.error.path in old(tree.dirs)
      ensures r.Ok? && !dryRun ==>
        && files == Without(old(files), Ids(selected))
        && savedFiles == files && savedProjections == projections
        && tree.files == old(tree.files) - FileLocations(selected)
    {
      var sel := GetAboveQuota();
      selected := sel;
      r := Ok(());
      if !dryRun {
        r := DeleteFiles(sel);
        if r.Err? {
          return;
        }
        savedFiles := files;
        savedProjections := projections;
      }
    }

    /**
     * The deleting loop of `clean`: unlink each product of each file (a
     * missing file is skipped, a directory raises `IsADirectoryError`) and
     * delete the file's row from the session.
     */
    method DeleteFiles(sel: seq<File>) returns (r: Result<(), CleanError>)
      requires Valid()
      modifies this, tree
      ensures Valid() && tree.dirs == old(tree.dirs)
      ensures projections == old(projections) && nextId == old(nextId)
      ensures savedFiles == old(savedFiles) && savedProjections == old(savedProjections)
      ensures r.Err? ==> r.error.path in old(tree.dirs)
      ensures r.Ok? ==>
        && files == Without(old(files), Ids(sel))
        && tree.files == old(tree.files) - FileLocations(sel)
    {
      WithoutNone(files);
      var k := 0;
      while k < |sel|
        invariant k <= |sel|
        invariant Valid() && tree.dirs == old(tree.dirs)
        invariant projections == old(projections) && nextId == old(nextId)
        invariant savedFiles == old(savedFiles) && savedProjections == old(savedProjections)
        invariant files == Without(old(files), Ids(sel[..k]))
        invariant tree.files == old(tree.files) - FileLocations(sel[..k])
      {
        var f := sel[k];
        r := UnlinkProducts(f);
        if r.Err? {
          return;
        }
        DeleteRow(f.id);
        DeletedOneMore(old(files), old(tree.files), sel, k);
        k := k + 1;
      }
      assert sel[..k] == sel;
      r := Ok(());
    }

    /** `session.delete(file)`: the row with this id leaves the catalog. */
    method DeleteRow(id: nat)
      requires Valid()
      modifies this
      ensures Valid()
      ensures files == Without(old(files), {id})
      ensures projections == old(projections) && nextId == old(nextId)
      ensures savedFiles == old(savedFiles) && savedProjections == old(savedProjections)
    {
      CatalogValidWithout(files, projections, nextId, {id});
      files := Without(files, {id});
    }

    /** The inner loop of `clean`: unlink every product of one file. */
    method UnlinkProducts(f: File) returns (r: Result<(), CleanError>)
      requires tree.Valid()
      modifies tree
      ensures tree.Valid() && tree.dirs == old(tree.dirs)
      ensures r.Err? ==> r.error.path in old(tree.dirs)
      ensures r.Ok? ==> tree.files == old(tree.files) - ProductLocations(f.products)
    {
      var j := 0;
      while j < |f.products|
        invariant j <= |f.products|
        invariant tree.Valid() && tree.dirs == old(tree.dirs)
        invariant tree.files == old(tree.files) - ProductLocations(f.products[..j])
      {
        var target := Locate(f.products[j].path);
        var outcome := tree.Unlink(target);
        if outcome == IsADirectory {
          return Err(IsADirectoryError(target));
        }
        ProductLocationsStep(f.products, j);
        j := j + 1;
      }
      assert f.products[..j] == f.products;
      r := Ok(());
    }

    /**
     * `update_file(jsonpath)` for the sidecar at `rel`: skip it when its path
     * is already a product; otherwise read it, find the data file it names,
     * describe both, attach a projection to a JPEG, write a thumbnail when
     * thumbnails are on, and add the new row with its products. Any error
     * leaves the rows alone (the projection table and the thumbnail may
     * already have been written).
     */
    method UpdateFile(rel: Path, env: Env) returns (r: Result<(), IngestError>)
      requires Valid() && rel != []
      modifies this, tree
      ensures Valid()
      ensures thumbnail == 0 ==> tree.files == old(tree.files)
      ensures tree.dirs == old(tree.dirs)
      ensures savedFiles == old(savedFiles) && savedProjections == old(savedProjections)
      ensures |old(projections)| <= |projections| && projections[..|old(projections)|] == old(projections)
      ensures PathString(rel) in old(Paths(files)) ==>
        && r.Ok? && files == old(files) && nextId == old(nextId)
        && projections == old(projections) && tree.files == old(tree.files)
      ensures r.Ok? ==> PathString(rel) in Paths(files)
      ensures r.Err? ==> files == old(files) && nextId == old(nextId)
      ensures r.Ok? && PathString(rel) !in old(Paths(files)) ==>
        && |files| == |old(files)| + 1 && files[..|old(files)|] == old(files)
        && nextId == old(nextId) + 1
      ensures r.Ok? ==>
        UpdateStep(files, |old(files)|, |files|, rel, env, old(tree.files), tree.files, tree.dirs,
                   thumbnail, projections, old(nextId))
    {
      if PathString(rel) in Paths(files) {
        return Ok(());
      }
      r := AddFile(rel, env);
    }

    /** `update_file` past the check for an existing product. */
    method AddFile(rel: Path, env: Env) returns (r: Result<(), IngestError>)
      requires Valid() && rel != [] && PathString(rel) !in Paths(files)
      modifies this, tree
      ensures Valid()
      ensures thumbnail == 0 ==> tree.files == old(tree.files)
      ensures tree.dirs == old(tree.dirs)
      ensures savedFiles == old(savedFiles) && savedProjections == old(savedProjections)
      ensures |old(projections)| <= |projections| && projections[..|old(projections)|] == old(projections)
      ensures r.Err? ==> files == old(files) && nextId == old(nextId)
      ensures r.Ok? ==>
        && |files| == |old(files)| + 1 && files[..|old(files)|] == old(files)
        && nextId == old(nextId) + 1
        && PathString(rel) in Paths(files)
        && IngestedRow(files[|files| - 1], old(nextId), rel, env, old(tree.files), tree.dirs, thumbnail, projections)
        && tree.files == IngestedDisk(rel, env, old(tree.files), tree.dirs, thumbnail)
    {
      var read := ReadSidecar(rel, env, tree.files, tree.dirs);
      if read.Err? {
        return Err(read.error);
      }
      r := AddRead(rel, read.value, env);
    }

    /** `update_file` once the sidecar `sc` at `rel` has been read. */
    method AddRead(rel: Path, sc: Sidecar, env: Env) returns (r: Result<(), IngestError>)
      requires Valid() && rel != [] && (sc.ext == "jpg" ==> sc.dataRel != [])
      modifies this, tree
      ensures Valid()
      ensures thumbnail == 0 ==> tree.files == old(tree.files)
      ensures tree.dirs == old(tree.dirs)
      ensures savedFiles == old(savedFiles) && savedProjections == old(savedProjections)
      ensures |old(projections)| <= |projections| && projections[..|old(projections)|] == old(projections)
      ensures r.Err? ==> files == old(files) && nextId == old(nextId)
      ensures r.Ok? ==>
        && |files| == |old(files)| + 1 && files[..|old(files)|] == old(files)
        && nextId == old(nextId) + 1
        && PathString(rel) in Paths(files)
        && RowFrom(files[|files| - 1], old(nextId), rel, sc, env, thumbnail, projections)
        && tree.files == ThumbnailWritten(old(tree.files), sc, env, thumbnail)
    {
      var attached := AttachProjection(sc, env);
      if attached.Err? {
        return Err(attached.error);
      }
      var proj := attached.value;
      var made := SaveThumbnail(rel, sc, env);
      if made.Err? {
        return Err(made.error);
      }
      var products := made.value;
      var d := sc.desc;
      var row := File(nextId, sc.data, d.date, sc.ext, d.name, d.labels.source, d.labels.region, d.labels.channel,
                      proj, products);
      if !DistinctPaths(products) || !(PathSet(row) !! Paths(files)) {
        return Err(IntegrityError);
      }
      assert RowFrom(row, nextId, rel, sc, env, thumbnail, projections);
      assert PathString(rel) in PathSet(row) by { assert products[1] in products; }
      AppendRow(row);
      r := Ok(());
    }

    /** `session.add(file)`: the new row goes at the end and takes the next id. */
    method AppendRow(row: File)
      requires Valid()
      requires row.id == nextId && DistinctPaths(row.products)
      requires row.projection.Some? ==> row.projection.value < |projections|
      requires PathSet(row) !! Paths(files)
      modifies this
      ensures Valid()
      ensures files == old(files) + [row] && nextId == old(nextId) + 1
      ensures Paths(files) == old(Paths(files)) + PathSet(row)
      ensures projections == old(projections)
      ensures savedFiles == old(savedFiles) && savedProjections == old(savedProjections)
    {
      AppendKeepsCatalogValid(files, projections, nextId, row);
      files := files + [row];
      nextId := nextId + 1;
    }
  }

  /**
   * The loop of `get_above_quota` over the files in date order: each file's
   * product sizes are taken off the excess, and the loop stops after the
   * file that brings it to zero or below.
   */
  method TakeUntilCovered(s: seq<File>, excess0: int) returns (r: seq<File>)
    requires excess0 > 0
    ensures ShortestCover(s, excess0, r)
  {
    var excess := excess0;
    r := [];
    var i := 0;
    while i < |s|
      invariant i <= |s| && r == s[..i]
      invariant excess == excess0 - PrefixSize(s, i)
      invariant forall k :: 0 <= k < i ==> PrefixSize(s, k) < excess0
      invariant excess > 0
    {
      var f := s[i];
      var j := 0;
      while j < |f.products|
        invariant j <= |f.products|
        invariant excess == excess0 - PrefixSize(s, i) - ProductsSize(f.products[..j])
      {
        assert f.products[..j + 1][..j] == f.products[..j];
        excess := excess - f.products[j].size;
        j := j + 1;
      }
      assert f.products[..j] == f.products;
      assert s[..i + 1][..i] == s[..i];
      assert PrefixSize(s, i + 1) == PrefixSize(s, i) + FileSize(f);
      r := r + [f];
      i := i + 1;
      if excess <= 0 {
        break;
      }
    }
  }
}
