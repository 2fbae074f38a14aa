/**
 * The rows of the catalog: a `File` (one captured image or text product and
 * its metadata) owns several `Product`s (the data file, its JSON sidecar, a
 * thumbnail), each a file under the catalog root with a size.
 *
 * Paths are stored as text, the components of the path relative to the root
 * joined with `/`, as `str()` of a relative `pathlib.Path` writes them.
 */
module Catalog {
  import opened Wrappers
  import opened Text
  import opened Timestamps
  import opened Documents
  import opened FileSystem

  /** `ProductType`, an `IntEnum`: a member compares equal to its value. */
  datatype ProductType = Main | Meta | Thumbnail | Timelapse
  {
    function Value(): int
    {
      match this
      case Main => 1
      case Meta => 2
      case Thumbnail => 3
      case Timelapse => 4
    }

    function Name(): string
    {
      match this
      case Main => "MAIN"
      case Meta => "META"
      case Thumbnail => "THUMBNAIL"
      case Timelapse => "TIMELAPSE"
    }
  }

  datatype Product = Product(path: string, size: nat, ptype: ProductType)

  /**
   * A `File` row. `projection` is the index of its row in the projection
   * table, if it has one.
   */
  datatype File = File(
    id: nat,
    meta: Json,
    date: DateTime,
    ftype: string,
    name: string,
    source: Option<string>,
    region: Option<string>,
    channel: Option<string>,
    projection: Option<nat>,
    products: seq<Product>)

  /** `str()` of a relative path: `.` for the root itself. */
  function PathString(p: Path): string
  {
    if p == [] then "." else Join(p, '/')
  }

  /**
   * `root / path` for a stored path: the components between the `/`s, none
   * for `.` (or the empty string), which names the root.
   */
  function Locate(path: string): Path
  {
    if path == "" || path == "." then [] else SplitAll(path, '/')
  }

  /**
   * A stored path leads back to the file it was made from (pathlib never
   * keeps a `.` component, so the path `["."]` does not arise).
   */
  lemma LocateOfPathString(p: Path)
    requires Free(p, '/') && forall i :: 0 <= i < |p| ==> p[i] != ""
    requires p != ["."]
    ensures Locate(PathString(p)) == p
  {
    if p != [] {
      SplitAllJoin(p, '/');
      if |p| > 1 { assert PathString(p) == p[0] + ['/'] + Join(p[1..], '/'); }
      assert PathString(p) != "";
    }
  }

  // ---------------------------------------------------------------------------
  // File.get_product

  /**
   * What `get_product` may be asked for: a member, a member's name, or a plain
   * integer (which an `IntEnum` member equals when it is its value; `True`
   * is the integer 1).
   */
  datatype TypeQuery = ByMember(member: ProductType) | ByName(name: string) | ByValue(value: int)

  /** `prod.type == type or prod.type.name == type`. */
  predicate Selects(q: TypeQuery, t: ProductType)
  {
    match q
    case ByMember(m) => t.Value() == m.Value()
    case ByName(n) => t.Name() == n
    case ByValue(v) => t.Value() == v
  }

  /** Product `i` is the first one the query selects. */
  predicate FirstSelected(products: seq<Product>, q: TypeQuery, i: int)
  {
    && 0 <= i < |products|
    && Selects(q, products[i].ptype)
    && forall j :: 0 <= j < i ==> !Selects(q, products[j].ptype)
  }

  /** `File.get_product(type)`: the first product the query selects, or `None`. */
  function GetProduct(products: seq<Product>, q: TypeQuery): (r: Option<Product>)
    ensures r.None? <==> forall i :: 0 <= i < |products| ==> !Selects(q, products[i].ptype)
    ensures r.Some? ==> exists i :: FirstSelected(products, q, i) && products[i] == r.value
  {
    if products == [] then None
    else if Selects(q, products[0].ptype) then
      assert FirstSelected(products, q, 0);
      Some(products[0])
    else
      var r := GetProduct(products[1..], q);
      assert r.Some? ==> exists i :: FirstSelected(products, q, i) && products[i] == r.value by {
        if r.Some? {
          var i :| FirstSelected(products[1..], q, i) && products[1..][i] == r.value;
          assert FirstSelected(products, q, i + 1) by {
            forall j | 0 <= j < i + 1 ensures !Selects(q, products[j].ptype) {
              if j > 0 { assert products[j] == products[1..][j - 1]; }
            }
          }
        }
      }
      r
  }

  /**
   * Asking by member, by the member's name or by its value finds the same
   * product.
   */
  lemma {:induction false} GetProductQueriesAgree(products: seq<Product>, t: ProductType)
    ensures GetProduct(products, ByName(t.Name())) == GetProduct(products, ByMember(t))
    ensures GetProduct(products, ByValue(t.Value())) == GetProduct(products, ByMember(t))
  {
    if products != [] {
      var u := products[0].ptype;
      assert Selects(ByName(t.Name()), u) == Selects(ByMember(t), u) == Selects(ByValue(t.Value()), u) by {
        match u
        case Main =>
        case Meta =>
        case Thumbnail =>
        case Timelapse =>
      }
      GetProductQueriesAgree(products[1..], t);
    }
  }

  /** Names are matched exactly: a lower-case name finds nothing. */
  lemma LowerCaseNameFindsNothing(products: seq<Product>)
    ensures GetProduct(products, ByName("main")) == None
  {
    forall i | 0 <= i < |products| ensures !Selects(ByName("main"), products[i].ptype) {
      var t := products[i].ptype;
      assert t.Name()[0] != 'm';
    }
  }

  // ---------------------------------------------------------------------------
  // Product.ext and pathlib's name, stem and suffix

  /** The last `/`-separated component. */
  function BaseName(path: string): (r: string)
    ensures '/' !in r
  {
    if '/' in path then path[LastIndexOf(path, '/') + 1..] else path
  }

  /** pathlib puts a suffix on a name whose last dot neither opens nor ends it. */
  predicate HasSuffix(name: string)
  {
    '.' in name && 0 < LastIndexOf(name, '.') < |name| - 1
  }

  /** `PurePath.stem` of a name: the name without its suffix. */
  function Stem(name: string): string
  {
    if HasSuffix(name) then name[..LastIndexOf(name, '.')] else name
  }

  /**
   * `Path(path).suffix.lstrip('.').lower()`: the extension in lower case, or
   * the empty string when the name has no suffix.
   */
  function Ext(path: string): (r: string)
    ensures '.' !in r && '/' !in r
    ensures Lower(r) == r
  {
    var name := BaseName(path);
    if HasSuffix(name) then Lower(name[LastIndexOf(name, '.') + 1..]) else ""
  }

  lemma BaseNameOfJoin(dirs: Path, name: string)
    requires Free(dirs, '/') && '/' !in name
    ensures BaseName(PathString(dirs + [name])) == name
  {
    if dirs == [] {
      assert dirs + [name] == [name];
    } else {
      JoinAppend(dirs, name, '/');
      var s := PathString(dirs + [name]);
      var k := |Join(dirs, '/')|;
      assert s[k] == '/' && s[k + 1..] == name;
      assert LastIndexOf(s, '/') == k;
    }
  }

  /**
   * A data file `stem.e` anywhere under the root has extension `e` in lower
   * case, and `stem` as its stem, however many dots `stem` holds.
   */
  lemma ExtOfNamedFile(dirs: Path, stem: string, e: string)
    requires Free(dirs, '/') && '/' !in stem && stem != []
    requires e != [] && '.' !in e && '/' !in e
    ensures Ext(PathString(dirs + [stem + "." + e])) == Lower(e)
    ensures Stem(stem + "." + e) == stem
  {
    var name := stem + "." + e;
    BaseNameOfJoin(dirs, name);
    assert name[|stem|] == '.' && name[|stem| + 1..] == e;
    assert LastIndexOf(name, '.') == |stem|;
  }

  /** A name that starts with its only dot has no suffix, as with `.json`. */
  lemma HiddenFileHasNoExt()
    ensures Ext(".json") == ""
  {
    assert LastIndexOf(".json", '.') == 0;
  }

  // ---------------------------------------------------------------------------
  // Sizes (Database.get_size)

  function ProductsSize(ps: seq<Product>): nat
  {
    if ps == [] then 0 else ProductsSize(ps[..|ps| - 1]) + ps[|ps| - 1].size
  }

  function FileSize(f: File): nat
  {
    ProductsSize(f.products)
  }

  /** The sum of the sizes of every product of every file. */
  function TotalSize(files: seq<File>): nat
  {
    if files == [] then 0 else TotalSize(files[..|files| - 1]) + FileSize(files[|files| - 1])
  }

  lemma {:induction false} TotalSizeAppend(a: seq<File>, b: seq<File>)
    ensures TotalSize(a + b) == TotalSize(a) + TotalSize(b)
  {
    if b == [] {
      assert a + b == a;
    } else {
      var c := b[..|b| - 1];
      assert (a + b)[..|a + b| - 1] == a + c;
      TotalSizeAppend(a, c);
    }
  }

  // ---------------------------------------------------------------------------
  // File.query.order_by(File.date)

  predicate SortedByDate(s: seq<File>)
  {
    forall i, j :: 0 <= i < j < |s| ==> Ord(s[i].date) <= Ord(s[j].date)
  }

  function InsertByDate(f: File, s: seq<File>): (r: seq<File>)
    requires SortedByDate(s)
    ensures SortedByDate(r)
    ensures multiset(r) == multiset(s) + multiset{f}
  {
    if s == [] || Ord(f.date) <= Ord(s[0].date) then
      InsertFront(f, s);
      [f] + s
    else
      var rest := InsertByDate(f, s[1..]);
      InsertBehind(f, s, rest);
      [s[0]] + rest
  }

  lemma InsertFront(f: File, s: seq<File>)
    requires SortedByDate(s) && (s == [] || Ord(f.date) <= Ord(s[0].date))
    ensures SortedByDate([f] + s)
  {
    var r := [f] + s;
    forall i, j | 0 <= i < j < |r| ensures Ord(r[i].date) <= Ord(r[j].date) {
      if i == 0 && j > 1 {
        assert r[j] == s[j - 1];
        assert Ord(s[0].date) <= Ord(s[j - 1].date);
      }
    }
  }

  lemma InsertBehind(f: File, s: seq<File>, rest: seq<File>)
    requires SortedByDate(s) && s != [] && Ord(s[0].date) < Ord(f.date)
    requires SortedByDate(rest) && multiset(rest) == multiset(s[1..]) + multiset{f}
    ensures SortedByDate([s[0]] + rest)
    ensures multiset([s[0]] + rest) == multiset(s) + multiset{f}
  {
    assert s == [s[0]] + s[1..];
    forall k | 0 <= k < |rest| ensures Ord(s[0].date) <= Ord(rest[k].date) {
      assert rest[k] in multiset(rest);
      if rest[k] != f {
        assert rest[k] in multiset(s[1..]);
        var m :| 0 <= m < |s[1..]| && s[1..][m] == rest[k];
        assert s[m + 1] == rest[k];
      }
    }
    var r := [s[0]] + rest;
    forall i, j | 0 <= i < j < |r| ensures Ord(r[i].date) <= Ord(r[j].date) {
      if i == 0 {
        assert r[j] == rest[j - 1];
      } else {
        assert r[i] == rest[i - 1] && r[j] == rest[j - 1];
      }
    }
  }

  /** The catalog's files in ascending date order. */
  function SortByDate(files: seq<File>): (r: seq<File>)
    ensures SortedByDate(r)
    ensures multiset(r) == multiset(files)
  {
    if files == [] then []
    else
      assert files == [files[0]] + files[1..];
      InsertByDate(files[0], SortByDate(files[1..]))
  }

  lemma TotalSizeOne(f: File)
    ensures TotalSize([f]) == FileSize(f)
  {
    assert [f][..0] == [];
  }

  lemma {:induction false} InsertByDateSize(f: File, s: seq<File>)
    requires SortedByDate(s)
    ensures TotalSize(InsertByDate(f, s)) == TotalSize(s) + FileSize(f)
  {
    if s == [] || Ord(f.date) <= Ord(s[0].date) {
      TotalSizeAppend([f], s);
      TotalSizeOne(f);
    } else {
      InsertByDateSize(f, s[1..]);
      TotalSizeAppend([s[0]], InsertByDate(f, s[1..]));
      TotalSizeAppend([s[0]], s[1..]);
      assert s == [s[0]] + s[1..];
    }
  }

  /** Ordering the files by date leaves the total size alone. */
  lemma {:induction false} SortByDateKeepsSize(files: seq<File>)
    ensures TotalSize(SortByDate(files)) == TotalSize(files)
  {
    if files != [] {
      var f, rest := files[0], files[1..];
      var sorted := SortByDate(rest);
      SortByDateKeepsSize(rest);
      InsertByDateSize(f, sorted);
      assert SortByDate(files) == InsertByDate(f, sorted);
      TotalSizeAppend([f], rest);
      assert files == [f] + rest;
      TotalSizeOne(f);
    }
  }
}
