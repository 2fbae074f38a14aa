/**
 * The two URL converters of the web front end. `ProductConverter` writes a
 * catalog file as `id/date/time/name` and reads back only the id;
 * `FilterConverter` writes a filter dictionary as `k:v/k:v` in key order and
 * reads it back into a dictionary.
 *
 * Dictionaries are Dafny maps: `dict` equality ignores insertion order, and
 * so does map equality.
 */
module Converters {
  import opened Wrappers
  import opened Text
  import opened Timestamps

  // ---------------------------------------------------------------------------
  // ProductConverter

  /** What `to_url` reads of a catalog file: its id, date and name. */
  datatype FileRef = FileRef(id: nat, date: DateTime, name: string)

  /** `date.strftime('%Y-%m-%d')`: the year is not padded, month and day are. */
  function DateField(t: DateTime): string
    requires Valid(t)
  {
    NatToString(t.year) + "-" + Pad2(t.month) + "-" + Pad2(t.day)
  }

  /** `date.strftime('%H.%M.%S')`. */
  function TimeField(t: DateTime): string
    requires Valid(t)
  {
    Pad2(t.hour) + "." + Pad2(t.minute) + "." + Pad2(t.second)
  }

  /** `ProductConverter.to_url`: `"{}/{}/{}/{}".format(id, date, time, name)`. */
  function ProductToUrl(f: FileRef): string
    requires Valid(f.date)
  {
    NatToString(f.id) + "/" + DateField(f.date) + "/" + TimeField(f.date) + "/" + f.name
  }

  /**
   * `ProductConverter.to_python`: `int(value.split('/', 2)[0])`; `None` is
   * the `ValueError` of `int`.
   */
  function ProductToPython(value: string): (r: Option<int>)
    ensures '/' !in value ==> r == ParseInt(value)
  {
    ParseInt(SplitN(value, '/', 2)[0])
  }

  /** The converter's pattern `\d+/[^/]+/[^/]+/[^/]+`. */
  predicate ProductPattern(s: string)
  {
    var parts := SplitAll(s, '/');
    && |parts| == 4
    && |parts[0]| >= 1 && AllDigits(parts[0])
    && parts[1] != [] && parts[2] != [] && parts[3] != []
  }

  lemma DigitsHaveNoSlash(s: string)
    requires AllDigits(s)
    ensures '/' !in s
  {
    forall i | 0 <= i < |s| ensures s[i] != '/' {
      assert IsDigit(s[i]);
    }
  }

  lemma FieldsHaveNoSlash(t: DateTime)
    requires Valid(t)
    ensures '/' !in DateField(t) && '/' !in TimeField(t)
  {
    DigitsHaveNoSlash(NatToString(t.year));
    DigitsHaveNoSlash(Pad2(t.month));
    DigitsHaveNoSlash(Pad2(t.day));
    DigitsHaveNoSlash(Pad2(t.hour));
    DigitsHaveNoSlash(Pad2(t.minute));
    DigitsHaveNoSlash(Pad2(t.second));
  }

  /**
   * A file whose name holds no `/` is written as exactly four fields: the id,
   * the date, the time and the name; with a non-empty name the URL matches
   * the converter's own pattern.
   */
  lemma ProductUrlFields(f: FileRef)
    requires Valid(f.date) && '/' !in f.name
    ensures SplitAll(ProductToUrl(f), '/') == [NatToString(f.id), DateField(f.date), TimeField(f.date), f.name]
    ensures f.name != [] ==> ProductPattern(ProductToUrl(f))
  {
    var parts := [NatToString(f.id), DateField(f.date), TimeField(f.date), f.name];
    DigitsHaveNoSlash(parts[0]);
    FieldsHaveNoSlash(f.date);
    JoinFour(parts[0], parts[1], parts[2], parts[3]);
    SplitAllJoin(parts, '/');
  }

  lemma JoinFour(a: string, b: string, c: string, d: string)
    ensures Join([a, b, c, d], '/') == a + "/" + b + "/" + c + "/" + d
  {
    assert [c, d][1..] == [d];
    assert Join([c, d], '/') == c + "/" + d;
    assert [b, c, d][1..] == [c, d];
    assert Join([b, c, d], '/') == b + "/" + (c + "/" + d);
    assert [a, b, c, d][1..] == [b, c, d];
    assert Join([a, b, c, d], '/') == a + "/" + (b + "/" + (c + "/" + d));
  }

  lemma FourFields(a: string, b: string, c: string, d: string)
    ensures a + "/" + b + "/" + c + "/" + d == a + "/" + (b + "/" + c + "/" + d)
  {
  }

  /** `to_python` reads only the text before the first `/`. */
  lemma ProductReadsFirstField(head: string, rest: string)
    requires '/' !in head
    ensures ProductToPython(head + "/" + rest) == ParseInt(head)
  {
    var s := head + "/" + rest;
    assert s[|head|] == '/' && s[..|head|] == head;
    assert IndexOf(s, '/') == |head|;
  }

  /** `to_python(to_url(f)) == f.id`, whatever the name holds. */
  lemma ProductRoundTrip(f: FileRef)
    requires Valid(f.date)
    ensures ProductToPython(ProductToUrl(f)) == Some(f.id)
  {
    var id := NatToString(f.id);
    var rest := DateField(f.date) + "/" + TimeField(f.date) + "/" + f.name;
    DigitsHaveNoSlash(id);
    FourFields(id, DateField(f.date), TimeField(f.date), f.name);
    ProductReadsFirstField(id, rest);
    ParseIntOfNatToString(f.id);
  }

  // ---------------------------------------------------------------------------
  // Key order of `sorted(value.items())`

  /** Python's `<` on strings: code point by code point, a proper prefix first. */
  predicate LexLess(a: string, b: string)
    decreases |a|
  {
    if a == [] then b != []
    else if b == [] then false
    else if a[0] != b[0] then a[0] < b[0]
    else LexLess(a[1..], b[1..])
  }

  lemma LexLessIrreflexive(a: string)
    ensures !LexLess(a, a)
  {
  }

  lemma LexLessTotal(a: string, b: string)
    ensures a == b || LexLess(a, b) || LexLess(b, a)
    ensures !(LexLess(a, b) && LexLess(b, a))
  {
    if a != [] && b != [] && a[0] == b[0] {
      LexLessTotal(a[1..], b[1..]);
      if a[1..] == b[1..] {
        assert a == [a[0]] + a[1..] && b == [b[0]] + b[1..];
      }
    }
  }

  lemma LexLessTransitive(a: string, b: string, c: string)
    requires LexLess(a, b) && LexLess(b, c)
    ensures LexLess(a, c)
  {
    if a != [] && b != [] && c != [] && a[0] == b[0] && b[0] == c[0] {
      LexLessTransitive(a[1..], b[1..], c[1..]);
    }
  }

  predicate IsLeast(k: string, keys: set<string>)
  {
    k in keys && forall j :: j in keys && j != k ==> LexLess(k, j)
  }

  lemma {:induction false} LeastExists(keys: set<string>)
    requires keys != {}
    ensures exists k :: IsLeast(k, keys)
    decreases |keys|
  {
    var x :| x in keys;
    var rest := keys - {x};
    if rest == {} {
      assert keys == {x};
      assert IsLeast(x, keys);
    } else {
      LeastExists(rest);
      var m :| IsLeast(m, rest);
      LexLessTotal(x, m);
      if LexLess(x, m) {
        forall j | j in keys && j != x ensures LexLess(x, j) {
          if j != m { LexLessTransitive(x, m, j); }
        }
        assert IsLeast(x, keys);
      } else {
        assert IsLeast(m, keys);
      }
    }
  }

  lemma LeastUnique(a: string, b: string, keys: set<string>)
    requires IsLeast(a, keys) && IsLeast(b, keys)
    ensures a == b
  {
    if a != b {
      LexLessTotal(a, b);
    }
  }

  lemma LeastUniqueAll(keys: set<string>)
    ensures forall a, b :: IsLeast(a, keys) && IsLeast(b, keys) ==> a == b
  {
    forall a, b | IsLeast(a, keys) && IsLeast(b, keys) ensures a == b {
      LeastUnique(a, b, keys);
    }
  }

  /** The least key. */
  function Least(keys: set<string>): (r: string)
    requires keys != {}
    ensures IsLeast(r, keys)
  {
    LeastExists(keys);
    LeastUniqueAll(keys);
    var k :| IsLeast(k, keys);
    k
  }

  predicate StrictlySorted(ks: seq<string>)
  {
    forall i, j :: 0 <= i < j < |ks| ==> LexLess(ks[i], ks[j])
  }

  /** The keys in ascending order, as `sorted` yields them. */
  function SortedKeys(keys: set<string>): (r: seq<string>)
    ensures |r| == |keys|
    ensures forall k :: k in r <==> k in keys
    ensures StrictlySorted(r)
    decreases |keys|
  {
    if keys == {} then []
    else
      var k := Least(keys);
      var rest := SortedKeys(keys - {k});
      assert forall j :: j in rest ==> LexLess(k, j);
      [k] + rest
  }

  // ---------------------------------------------------------------------------
  // FilterConverter

  /** `str(k) + ':' + str(v)` for each key in order. */
  function Pieces(m: map<string, string>, ks: seq<string>): (r: seq<string>)
    requires forall k :: k in ks ==> k in m
    ensures |r| == |ks|
    ensures forall i :: 0 <= i < |ks| ==> r[i] == ks[i] + ":" + m[ks[i]]
  {
    seq(|ks|, i requires 0 <= i < |ks| => ks[i] + ":" + m[ks[i]])
  }

  /**
   * `FilterConverter.to_url` before URL quoting:
   * `'/'.join(str(k) + ':' + str(v) for k, v in sorted(value.items()))`.
   */
  function FilterToUrl(m: map<string, string>): string
  {
    Join(Pieces(m, SortedKeys(m.Keys)), '/')
  }

  /** `dict(parts)` raises on an element whose length is not 2. */
  datatype FilterError = ElementLength(index: nat, length: nat)

  /**
   * `dict(items)` for a sequence of lists: later pairs overwrite earlier ones,
   * and the first element that is not a pair raises `ValueError`.
   */
  function DictOf(items: seq<seq<string>>): (r: Result<map<string, string>, FilterError>)
    ensures r.Err? <==> exists i :: 0 <= i < |items| && |items[i]| != 2
    ensures r.Err? ==> (r.error.index < |items| && |items[r.error.index]| == r.error.length != 2
      && forall i :: 0 <= i < r.error.index ==> |items[i]| == 2)
    ensures r.Ok? ==> r.value.Keys == set i | 0 <= i < |items| :: items[i][0]
  {
    if items == [] then Ok(map[])
    else
      var front := items[..|items| - 1];
      var last := items[|items| - 1];
      assert forall i :: 0 <= i < |front| ==> front[i] == items[i];
      match DictOf(front)
      case Err(e) => Err(e)
      case Ok(d) =>
        if |last| != 2 then Err(ElementLength(|items| - 1, |last|))
        else
          var r := d[last[0] := last[1]];
          assert r.Keys == d.Keys + {last[0]};
          assert (set i | 0 <= i < |items| :: items[i][0]) == (set i | 0 <= i < |front| :: front[i][0]) + {last[0]};
          Ok(r)
  }

  /** In the dictionary `dict(items)` builds, each key holds the value of its last pair. */
  lemma {:induction false} DictOfLastPairWins(items: seq<seq<string>>)
    ensures DictOf(items).Ok? ==>
      forall i :: 0 <= i < |items| && LastWithKey(items, i) ==> DictOf(items).value[items[i][0]] == items[i][1]
  {
    if items != [] && DictOf(items).Ok? {
      var front := items[..|items| - 1];
      var last := items[|items| - 1];
      assert forall i :: 0 <= i < |front| ==> front[i] == items[i];
      assert DictOf(front).Ok? && |last| == 2;
      var d := DictOf(front).value;
      DictOfLastPairWins(front);
      LastPairStep(items, front, last, d, DictOf(items).value);
    }
  }

  /** The step of `DictOfLastPairWins`: adding the last pair keeps the earlier last pairs. */
  lemma LastPairStep(items: seq<seq<string>>, front: seq<seq<string>>, last: seq<string>,
                     d: map<string, string>, m: map<string, string>)
    requires items == front + [last] && |last| == 2 && m == d[last[0] := last[1]]
    requires forall i :: 0 <= i < |front| ==> |front[i]| == 2
    requires forall i :: 0 <= i < |front| ==> front[i][0] in d
    requires forall i :: 0 <= i < |front| && LastWithKey(front, i) ==> d[front[i][0]] == front[i][1]
    ensures forall i :: 0 <= i < |items| && LastWithKey(items, i) ==> items[i][0] in m && m[items[i][0]] == items[i][1]
  {
    forall i | 0 <= i < |items| && LastWithKey(items, i) ensures items[i][0] in m && m[items[i][0]] == items[i][1] {
      if i < |front| {
        assert items[i] == front[i];
        assert items[|items| - 1] == last;
        assert LastWithKey(front, i) by {
          forall j | i < j < |front| && |front[j]| > 0 ensures front[j][0] != front[i][0] {
            assert items[j] == front[j];
          }
        }
      }
    }
  }

  /** No later element of `items` has the key of element `i`. */
  predicate LastWithKey(items: seq<seq<string>>, i: int)
    requires 0 <= i < |items| && |items[i]| > 0
  {
    forall j :: i < j < |items| && |items[j]| > 0 ==> items[j][0] != items[i][0]
  }

  /** Each `/`-separated piece of the URL part, split at its first `n` colons. */
  function Items(value: string, n: nat): (r: seq<seq<string>>)
    ensures |r| == |SplitAll(value, '/')|
    ensures forall i :: 0 <= i < |r| ==> r[i] == SplitN(SplitAll(value, '/')[i], ':', n)
  {
    var parts := SplitAll(value, '/');
    seq(|parts|, i requires 0 <= i < |parts| => SplitN(parts[i], ':', n))
  }

  /**
   * `FilterConverter.to_python` as written: each piece is split with
   * `split(':', 2)`, so a value holding a colon gives three pieces.
   */
  function FilterToPython(value: string): Result<map<string, string>, FilterError>
  {
    DictOf(Items(value, 2))
  }

  /** `to_python` with `split(':', 1)`: a piece is cut at its first colon only. */
  function FilterToPythonIntended(value: string): Result<map<string, string>, FilterError>
  {
    DictOf(Items(value, 1))
  }

  /** The converter's pattern `[^/:]+:[^/]+(?:/[^/:]+:[^/]+)*`. */
  predicate FilterPattern(s: string)
  {
    var parts := SplitAll(s, '/');
    forall i :: 0 <= i < |parts| ==> FilterPiece(parts[i])
  }

  /** `[^/:]+:[^/]+`: a non-empty key without colon, a colon, a non-empty value. */
  predicate FilterPiece(p: string)
  {
    ':' in p && 0 < IndexOf(p, ':') < |p| - 1 && '/' !in p
  }

  /** The first split of `k:v` with a colon-free key is made after `k`. */
  lemma SplitAtKey(k: string, v: string, n: nat)
    requires 1 <= n && ':' !in k
    ensures SplitN(k + ":" + v, ':', n) == [k] + SplitN(v, ':', n - 1)
  {
    var s := k + ":" + v;
    assert s[|k|] == ':' && s[..|k|] == k && s[|k| + 1..] == v;
    assert IndexOf(s, ':') == |k|;
  }

  /** A piece `k:v` with a colon-free key splits into the key and the value. */
  lemma SplitPiece(k: string, v: string, n: nat)
    requires 1 <= n && ':' !in k && (n == 1 || ':' !in v)
    ensures SplitN(k + ":" + v, ':', n) == [k, v]
  {
    SplitAtKey(k, v, n);
  }

  /** A filter dictionary whose keys and values hold neither `/` nor `:`. */
  predicate PlainFilters(m: map<string, string>)
  {
    forall k :: k in m ==> '/' !in k && ':' !in k && '/' !in m[k] && ':' !in m[k]
  }

  /** The `[key, value]` lists of `m` for the keys `ks`, in that order. */
  function Pairs(m: map<string, string>, ks: seq<string>): (r: seq<seq<string>>)
    requires forall k :: k in ks ==> k in m
    ensures |r| == |ks|
    ensures forall i :: 0 <= i < |ks| ==> r[i] == [ks[i], m[ks[i]]]
  {
    seq(|ks|, i requires 0 <= i < |ks| => [ks[i], m[ks[i]]])
  }

  lemma {:induction false} DictOfPairs(m: map<string, string>, ks: seq<string>)
    requires forall k :: k in ks ==> k in m
    ensures DictOf(Pairs(m, ks)) == Ok(map k | k in ks :: m[k])
    decreases |ks|
  {
    var items := Pairs(m, ks);
    if ks != [] {
      var front := ks[..|ks| - 1];
      DictOfPairs(m, front);
      assert items[..|items| - 1] == Pairs(m, front);
      MapOfOneMoreKey(m, ks);
    }
  }

  lemma MapOfOneMoreKey(m: map<string, string>, ks: seq<string>)
    requires ks != [] && forall k :: k in ks ==> k in m
    ensures (map k | k in ks[..|ks| - 1] :: m[k])[ks[|ks| - 1] := m[ks[|ks| - 1]]] == map k | k in ks :: m[k]
  {
    assert ks == ks[..|ks| - 1] + [ks[|ks| - 1]];
  }

  lemma MapOfAllKeys(m: map<string, string>, ks: seq<string>)
    requires forall k :: k in ks <==> k in m
    ensures (map k | k in ks :: m[k]) == m
  {
  }

  /** The URL pieces of a dictionary, split at the colons. */
  lemma ItemsOfUrl(m: map<string, string>, n: nat)
    requires m != map[] && 1 <= n
    requires forall k :: k in m ==> '/' !in k && ':' !in k && '/' !in m[k] && (n == 1 || ':' !in m[k])
    ensures Items(FilterToUrl(m), n) == Pairs(m, SortedKeys(m.Keys))
  {
    var ks := SortedKeys(m.Keys);
    assert |ks| >= 1 by { var k :| k in m.Keys; }
    ItemsOfPieces(m, ks, n);
  }

  /** Joining the pieces of `ks` and splitting them again gives the pairs back. */
  lemma ItemsOfPieces(m: map<string, string>, ks: seq<string>, n: nat)
    requires |ks| >= 1 && 1 <= n
    requires forall k :: k in ks ==> k in m && '/' !in k && ':' !in k && '/' !in m[k] && (n == 1 || ':' !in m[k])
    ensures Items(Join(Pieces(m, ks), '/'), n) == Pairs(m, ks)
  {
    var ps := Pieces(m, ks);
    forall i | 0 <= i < |ps| ensures '/' !in ps[i] {
      assert ks[i] in ks;
      assert ps[i] == ks[i] + ":" + m[ks[i]];
    }
    SplitAllJoin(ps, '/');
    var items := Items(Join(ps, '/'), n);
    var want := Pairs(m, ks);
    forall i | 0 <= i < |ks| ensures items[i] == want[i] {
      assert ks[i] in ks;
      assert items[i] == SplitN(ps[i], ':', n);
      SplitPiece(ks[i], m[ks[i]], n);
    }
  }

  /**
   * `to_python(to_url(m)) == m` for a non-empty dictionary whose keys and
   * values hold neither `/` nor `:`.
   */
  lemma FilterRoundTrip(m: map<string, string>)
    requires m != map[] && PlainFilters(m)
    ensures FilterToPython(FilterToUrl(m)) == Ok(m)
  {
    var ks := SortedKeys(m.Keys);
    ItemsOfUrl(m, 2);
    DictOfPairs(m, ks);
    MapOfAllKeys(m, ks);
  }

  /**
   * With `split(':', 1)` the round trip holds for values holding colons too;
   * only keys must be free of `:`.
   */
  lemma FilterRoundTripIntended(m: map<string, string>)
    requires m != map[]
    requires forall k :: k in m ==> '/' !in k && ':' !in k && '/' !in m[k]
    ensures FilterToPythonIntended(FilterToUrl(m)) == Ok(m)
  {
    var ks := SortedKeys(m.Keys);
    ItemsOfUrl(m, 1);
    DictOfPairs(m, ks);
    MapOfAllKeys(m, ks);
  }

  lemma ItemsOfOnePiece(s: string, n: nat)
    requires '/' !in s
    ensures Items(s, n) == [SplitN(s, ':', n)]
  {
    assert SplitAll(s, '/') == [s];
  }

  lemma DictOfOne(item: seq<string>)
    ensures |item| == 2 ==> DictOf([item]) == Ok(map[item[0] := item[1]])
    ensures |item| != 2 ==> DictOf([item]) == Err(ElementLength(0, |item|))
  {
    assert [item][..0] == [];
  }

  /** A value holding a colon makes the piece split in three and `dict` raise. */
  lemma ColonValueRejected()
    ensures FilterPattern("a:b:c")
    ensures FilterToPython("a:b:c") == Err(ElementLength(0, 3))
  {
    var s := "a:b:c";
    ColonValueSplitsInThree();
    ItemsOfOnePiece(s, 2);
    DictOfOne(["a", "b", "c"]);
    ColonValueMatchesPattern();
  }

  lemma ColonValueSplitsInThree()
    ensures SplitN("a:b:c", ':', 2) == ["a", "b", "c"]
  {
    SplitAtKey("a", "b:c", 2);
    SplitAtKey("b", "c", 1);
    assert "a" + ":" + "b:c" == "a:b:c";
    assert "b" + ":" + "c" == "b:c";
  }

  lemma ColonValueMatchesPattern()
    ensures FilterPattern("a:b:c")
  {
    var s := "a:b:c";
    assert '/' !in s;
    assert SplitAll(s, '/') == [s];
    assert s[0] != ':' && s[1] == ':';
    assert IndexOf(s, ':') == 1;
  }

  /** With `split(':', 1)` the same URL part reads back as `{"a": "b:c"}`. */
  lemma ColonValueAcceptedIntended()
    ensures FilterToPythonIntended("a:b:c") == Ok(map["a" := "b:c"])
  {
    var s := "a:b:c";
    assert s == "a" + ":" + "b:c";
    SplitPiece("a", "b:c", 1);
    ItemsOfOnePiece(s, 1);
    DictOfOne(["a", "b:c"]);
  }

  /** Every URL part the pattern admits is read by the corrected `to_python`. */
  lemma PatternParsesIntended(s: string)
    requires FilterPattern(s)
    ensures FilterToPythonIntended(s).Ok?
  {
    var parts := SplitAll(s, '/');
    forall i | 0 <= i < |parts| ensures |SplitN(parts[i], ':', 1)| == 2 {
      var p := parts[i];
      assert ':' in p;
    }
  }
}
