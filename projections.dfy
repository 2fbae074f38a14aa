/**
 * The `Projection` table of the catalog: how a row is read out of a sidecar's
 * `ImageNavigation` block (`from_nav`, `from_meta`) and how rows are shared
 * between files (`find_or_insert`).
 *
 * The six integer columns keep the JSON values found in the sidecar (the
 * source stores them unchecked). `lon_0` is the exact decimal value of the
 * number written in the projection name; the rounding of `float()` to a
 * double is not modelled.
 */
module Projections {
  import opened Wrappers
  import opened Text
  import opened Documents

  datatype Projection = Projection(
    width: Json, height: Json,
    xOffset: Json, yOffset: Json,
    xScale: Json, yScale: Json,
    lon0: real)

  /** The exceptions `from_nav` and `from_meta` let escape. */
  datatype NavError = NavTypeError | NavValueError

  // ---------------------------------------------------------------------------
  // The projection name `geos(<number>)`

  predicate SignOrDigit(c: char) { c == '-' || c == '+' || IsDigit(c) }

  predicate AllSignOrDigit(s: string) { forall i :: 0 <= i < |s| ==> SignOrDigit(s[i]) }

  /**
   * The texts the capture group `([-+0-9]+\.?[0-9]*)` matches in full: a
   * non-empty run of signs and digits, then optionally a dot followed by
   * digits only.
   */
  predicate IsLonLexeme(s: string)
  {
    if '.' in s then
      var i := IndexOf(s, '.');
      i >= 1 && AllSignOrDigit(s[..i]) && AllDigits(s[i + 1..])
    else
      |s| >= 1 && AllSignOrDigit(s)
  }

  /**
   * `re.match('^geos\(([-+0-9]+\.?[0-9]*)\)$', name, re.IGNORECASE)`: the
   * captured number, or `None` when the name does not match. `$` also
   * matches just before a final newline.
   */
  function MatchProjectionName(name: string): (r: Option<string>)
    ensures r.Some? ==> IsLonLexeme(r.value)
  {
    var t := if |name| > 0 && name[|name| - 1] == '\n' then name[..|name| - 1] else name;
    if |t| >= 6 && Lower(t[..4]) == "geos" && t[4] == '(' && t[|t| - 1] == ')'
       && IsLonLexeme(t[5..|t| - 1])
    then Some(t[5..|t| - 1])
    else None
  }

  /** The digits before the dot of a lexeme, and those after it. */
  function IntegerPart(lex: string): string
  {
    if '.' in lex then lex[..IndexOf(lex, '.')] else lex
  }

  function FractionPart(lex: string): (r: string)
    requires IsLonLexeme(lex)
    ensures AllDigits(r)
  {
    if '.' in lex then lex[IndexOf(lex, '.') + 1..] else ""
  }

  /**
   * `float(lex)` for a lexeme of the capture group: at most one sign, and only
   * in front; at least one digit. Anything else raises `ValueError` (`None`).
   */
  function FloatOf(lex: string): (r: Option<real>)
    requires IsLonLexeme(lex)
    ensures r.Some? <==>
      var ip := IntegerPart(lex);
      var digits := if |ip| > 0 && (ip[0] == '-' || ip[0] == '+') then ip[1..] else ip;
      AllDigits(digits) && |digits| + |FractionPart(lex)| >= 1
  {
    var ip := IntegerPart(lex);
    var frac := FractionPart(lex);
    var negative := |ip| > 0 && ip[0] == '-';
    var digits := if |ip| > 0 && (ip[0] == '-' || ip[0] == '+') then ip[1..] else ip;
    if AllDigits(digits) && |digits| + |frac| >= 1 then
      var magnitude := DigitsValue(digits) as real + DigitsValue(frac) as real / Pow10(|frac|) as real;
      Some(if negative then -magnitude else magnitude)
    else None
  }

  // ---------------------------------------------------------------------------
  // from_nav, from_meta

  /** The five keys `from_nav` reads are all there. */
  predicate HasNavKeys(fields: map<string, Json>)
  {
    && "ColumnOffset" in fields && "LineOffset" in fields
    && "ColumnScaling" in fields && "LineScaling" in fields
    && "ProjectionName" in fields
  }

  /**
   * `Projection.from_nav(width, height, nav)`: `None` when a key is missing or
   * the name does not match; `TypeError` when `nav` is not a dictionary or the
   * name is not a string; `ValueError` when the matched number is not one
   * `float()` accepts.
   */
  function FromNav(width: Json, height: Json, nav: Json): (r: Result<Option<Projection>, NavError>)
    ensures nav.JObj? && !HasNavKeys(nav.fields) ==> r == Ok(None)
    ensures !nav.JObj? ==> r == Err(NavTypeError)
    ensures nav.JObj? && HasNavKeys(nav.fields) ==>
      var name := nav.fields["ProjectionName"];
      && (!name.JStr? ==> r == Err(NavTypeError))
      && (name.JStr? && MatchProjectionName(name.s).None? ==> r == Ok(None))
      && (name.JStr? && MatchProjectionName(name.s).Some? ==>
            var lex := MatchProjectionName(name.s).value;
            && (FloatOf(lex).None? ==> r == Err(NavValueError))
            && (FloatOf(lex).Some? ==> r.Ok? && r.value.Some? && r.value.value.lon0 == FloatOf(lex).value))
    ensures r.Ok? && r.value.Some? ==>
      && nav.JObj?
      && HasNavKeys(nav.fields)
      && var p := r.value.value;
      && p.width == width && p.height == height
      && p.xOffset == nav.fields["ColumnOffset"] && p.yOffset == nav.fields["LineOffset"]
      && p.xScale == nav.fields["ColumnScaling"] && p.yScale == nav.fields["LineScaling"]
      && nav.fields["ProjectionName"].JStr?
      && var m := MatchProjectionName(nav.fields["ProjectionName"].s);
      && m.Some? && FloatOf(m.value) == Some(p.lon0)
  {
    if !nav.JObj? then Err(NavTypeError)
    else if !HasNavKeys(nav.fields) then Ok(None)
    else
      var name := nav.fields["ProjectionName"];
      if !name.JStr? then Err(NavTypeError)
      else match MatchProjectionName(name.s)
        case None => Ok(None)
        case Some(lex) =>
          match FloatOf(lex)
          case None => Err(NavValueError)
          case Some(lon0) =>
            Ok(Some(Projection(width, height,
                               nav.fields["ColumnOffset"], nav.fields["LineOffset"],
                               nav.fields["ColumnScaling"], nav.fields["LineScaling"],
                               lon0)))
  }

  /**
   * `Projection.from_meta(meta)`: the image size from
   * `SegmentIdentification.MaxColumn/MaxLine`, falling back to
   * `ImageStructure.Columns/Lines` on a `KeyError`; `None` when neither pair
   * or the `ImageNavigation` block is there.
   */
  function FromMeta(meta: Json): (r: Result<Option<Projection>, NavError>)
    ensures !meta.JObj? ==> r == Err(NavTypeError)
    ensures meta.JObj? && "ImageNavigation" !in meta.fields && r.Ok? ==> r.value == None
    ensures meta.JObj? && "ImageNavigation" in meta.fields
            && PairPresent(meta, "SegmentIdentification", "MaxColumn", "MaxLine")
            ==> r == FromNav(meta.fields["SegmentIdentification"].fields["MaxColumn"],
                             meta.fields["SegmentIdentification"].fields["MaxLine"],
                             meta.fields["ImageNavigation"])
    // the fallback, taken only on a KeyError from the first pair
    ensures meta.JObj? && "ImageNavigation" in meta.fields
            && PairMissing(meta, "SegmentIdentification", "MaxColumn", "MaxLine")
            && PairPresent(meta, "ImageStructure", "Columns", "Lines")
            ==> r == FromNav(meta.fields["ImageStructure"].fields["Columns"],
                             meta.fields["ImageStructure"].fields["Lines"],
                             meta.fields["ImageNavigation"])
    ensures meta.JObj? && PairMissing(meta, "SegmentIdentification", "MaxColumn", "MaxLine")
            && PairMissing(meta, "ImageStructure", "Columns", "Lines")
            ==> r == Ok(None)
    // a block that is there but is no dictionary raises TypeError
    ensures meta.JObj? && !PairPresent(meta, "SegmentIdentification", "MaxColumn", "MaxLine")
            && !PairMissing(meta, "SegmentIdentification", "MaxColumn", "MaxLine")
            ==> r == Err(NavTypeError)
    ensures meta.JObj? && PairMissing(meta, "SegmentIdentification", "MaxColumn", "MaxLine")
            && !PairPresent(meta, "ImageStructure", "Columns", "Lines")
            && !PairMissing(meta, "ImageStructure", "Columns", "Lines")
            ==> r == Err(NavTypeError)
  {
    var size := ImageSize(meta);
    match size
    case Err(KeyError(_)) => Ok(None)
    case Err(TypeError) => Err(NavTypeError)
    case Ok((w, h)) =>
      match Get(meta, "ImageNavigation")
      case Err(KeyError(_)) => Ok(None)
      case Err(TypeError) => Err(NavTypeError)
      case Ok(nav) => FromNav(w, h, nav)
  }

  /** The width and height `from_meta` settles on, or the error that ended the search. */
  function ImageSize(meta: Json): Result<(Json, Json), LookupError>
  {
    match SizePair(meta, "SegmentIdentification", "MaxColumn", "MaxLine")
    case Err(KeyError(_)) => SizePair(meta, "ImageStructure", "Columns", "Lines")
    case other => other
  }

  /** `meta[block][wKey]` and `meta[block][hKey]` are both there. */
  predicate PairPresent(meta: Json, block: string, wKey: string, hKey: string)
  {
    Get2(meta, block, wKey).Ok? && Get2(meta, block, hKey).Ok?
  }

  /** Reading `meta[block][wKey]`, then `meta[block][hKey]`, stops at a `KeyError`. */
  predicate PairMissing(meta: Json, block: string, wKey: string, hKey: string)
  {
    KeyMissing2(meta, block, wKey) || (Get2(meta, block, wKey).Ok? && KeyMissing2(meta, block, hKey))
  }

  function SizePair(meta: Json, block: string, wKey: string, hKey: string): (r: Result<(Json, Json), LookupError>)
    ensures r.Ok? <==> PairPresent(meta, block, wKey, hKey)
    ensures r.Ok? ==> r.value == (Get2(meta, block, wKey).value, Get2(meta, block, hKey).value)
    ensures r.Err? ==> (r.error.KeyError? <==> PairMissing(meta, block, wKey, hKey))
  {
    match Get2(meta, block, wKey)
    case Err(e) => Err(e)
    case Ok(w) =>
      match Get2(meta, block, hKey)
      case Err(e) => Err(e)
      case Ok(h) => Ok((w, h))
  }

  // ---------------------------------------------------------------------------
  // Properties of the name grammar and of from_nav

  /** A navigation block as the satellite ground station writes it. */
  function NavBlock(xo: Json, yo: Json, xs: Json, ys: Json, name: string): Json
  {
    JObj(map["ColumnOffset" := xo, "LineOffset" := yo, "ColumnScaling" := xs,
             "LineScaling" := ys, "ProjectionName" := JStr(name)])
  }

  lemma DigitsAreSignOrDigit(s: string)
    requires AllDigits(s)
    ensures AllSignOrDigit(s) && '.' !in s
  {
    forall i | 0 <= i < |s| ensures SignOrDigit(s[i]) && s[i] != '.' { assert IsDigit(s[i]); }
  }

  /**
   * A block naming `geos(<digits>)`, in any letter case, always yields a
   * projection whose `lon_0` is the number written.
   */
  lemma FromNavReadsLongitude(w: Json, h: Json, xo: Json, yo: Json, xs: Json, ys: Json, g: string, n: nat)
    requires |g| == 4 && Lower(g) == "geos"
    ensures FromNav(w, h, NavBlock(xo, yo, xs, ys, g + "(" + NatToString(n) + ")"))
            == Ok(Some(Projection(w, h, xo, yo, xs, ys, n as real)))
  {
    var digits := NatToString(n);
    var name := g + "(" + digits + ")";
    var nav := NavBlock(xo, yo, xs, ys, name);
    assert name[..4] == g;
    assert name[5..|name| - 1] == digits;
    DigitsAreSignOrDigit(digits);
    assert IsLonLexeme(digits);
    assert MatchProjectionName(name) == Some(digits);
    assert IntegerPart(digits) == digits;
    assert FractionPart(digits) == "";
    assert digits[0] != '-' && digits[0] != '+' by { assert IsDigit(digits[0]); }
    assert FloatOf(digits) == Some(n as real);
  }

  /**
   * The name pattern admits numbers `float()` rejects: `geos(1-2)` matches it,
   * and `from_nav` then raises `ValueError`.
   */
  lemma FromNavCanRaiseOnMatchedName(w: Json, h: Json, xo: Json, yo: Json, xs: Json, ys: Json)
    ensures FromNav(w, h, NavBlock(xo, yo, xs, ys, "geos(1-2)")) == Err(NavValueError)
  {
    OneMinusTwoMatches();
    OneMinusTwoIsNoFloat();
  }

  lemma OneMinusTwoMatches()
    ensures MatchProjectionName("geos(1-2)") == Some("1-2")
  {
    var name := "geos(1-2)";
    assert name[..4] == "geos" && name[5..8] == "1-2";
    assert IsLonLexeme("1-2");
  }

  lemma OneMinusTwoIsNoFloat()
    ensures FloatOf("1-2") == None
  {
    assert IntegerPart("1-2") == "1-2";
    assert !AllDigits("1-2") by { assert !IsDigit("1-2"[1]); }
  }

  /** `$` lets one trailing newline through: `geos(5)\n` still names longitude 5. */
  lemma TrailingNewlineAccepted()
    ensures MatchProjectionName("geos(5)\n") == Some("5")
  {
    var t := "geos(5)\n"[..7];
    assert t == "geos(5)";
    assert t[..4] == "geos" && t[5..6] == "5";
    DigitsAreSignOrDigit("5");
  }

  // ---------------------------------------------------------------------------
  // find_or_insert on the table of rows

  /** No two rows of the table agree on all seven columns. */
  predicate NoDuplicates(rows: seq<Projection>)
  {
    forall i, j :: 0 <= i < j < |rows| ==> rows[i] != rows[j]
  }

  /** Index of the first row equal to `p`. */
  function FirstIndex(rows: seq<Projection>, p: Projection): (i: nat)
    requires p in rows
    ensures i < |rows| && rows[i] == p && p !in rows[..i]
  {
    if rows[0] == p then 0 else 1 + FirstIndex(rows[1..], p)
  }

  /**
   * `find_or_insert`: the table after the call and the index of the row the
   * call returns. An equal row already there is returned and the table is left
   * alone; otherwise `p` is appended.
   */
  function FindOrInsert(rows: seq<Projection>, p: Projection): (seq<Projection>, nat)
  {
    if p in rows then (rows, FirstIndex(rows, p)) else (rows + [p], |rows|)
  }

  /**
   * The table grows by at most one row, the returned row carries `p`'s seven
   * values, and no duplicate is ever created.
   */
  lemma FindOrInsertKeepsTableUnique(rows: seq<Projection>, p: Projection)
    requires NoDuplicates(rows)
    ensures var (rows', i) := FindOrInsert(rows, p);
      && NoDuplicates(rows')
      && i < |rows'| && rows'[i] == p
      && rows'[..|rows|] == rows
      && |rows| <= |rows'| <= |rows| + 1
      && (p in rows <==> rows' == rows)
      && (p in rows ==> p !in rows[..i])
      && (p !in rows ==> rows' == rows + [p])
  {
  }

  /**
   * Two navigation blocks with the same seven values share a row; blocks that
   * differ in any value get different rows.
   */
  lemma FindOrInsertSharesEqualRows(rows: seq<Projection>, p: Projection, q: Projection)
    requires NoDuplicates(rows)
    ensures var (rows1, i) := FindOrInsert(rows, p);
            var (rows2, j) := FindOrInsert(rows1, q);
            && (p == q ==> rows2 == rows1 && j == i)
            && (p != q ==> j != i)
  {
    var (rows1, i) := FindOrInsert(rows, p);
    FindOrInsertKeepsTableUnique(rows, p);
    var (rows2, j) := FindOrInsert(rows1, q);
    FindOrInsertKeepsTableUnique(rows1, q);
    if p == q {
      assert p in rows1;
    } else {
      assert rows2[..|rows1|] == rows1;
      if j < |rows1| { assert rows2[j] == rows1[j]; }
    }
  }
}
