/**
 * What `Database.update_file` reads out of a sidecar before it writes any
 * row: the name and capture date from the sidecar's file name, the source,
 * region and channel labels, and the date from the sidecar's own
 * `TimeStamp.ISO8601` field when it has one.
 */
module Ingest {
  import opened Wrappers
  import opened Text
  import opened Timestamps
  import opened Documents
  import opened Projections

  /** The exceptions that leave `update_file` (and with it `update`). */
  datatype IngestError =
    | NotFound            // open() or stat() of a missing file
    | Undecodable         // json.load failed
    | MissingKey(key: string)
    | WrongType           // a TypeError: a value of the wrong JSON type
    | OutsideRoot         // relative_to(root) of a path outside the root
    | BadFileName         // no file-name heuristic applies (ValueError)
    | BadTimeStamp        // TimeStamp.ISO8601 is not a date (ValueError)
    | BadImage            // PIL could not open the data file
    | BadNavigation(e: NavError)
    | WriteFailed         // the thumbnail could not be saved
    | IntegrityError      // a product path already in the catalog

  // ---------------------------------------------------------------------------
  // The file-name heuristic

  /** What the heuristic reads from a sidecar's stem. */
  datatype NameParts = NameParts(name: string, date: DateTime, metaFromName: bool, swapRegionChannel: bool)

  /**
   * The three guesses, in order: `name_TS`; then `name_TS_region` (the
   * region is moved back behind the name and the swap flag set); then
   * `TS_name`, whose name carries no labels. When none applies the
   * `ValueError` of the last guess escapes.
   */
  function SplitFileName(stem: string): (r: Result<NameParts, IngestError>)
    ensures r.Ok? ==> Valid(r.value.date) && '_' in stem
    ensures r.Err? ==> r.error == BadFileName
  {
    var a := RSplitN(stem, '_', 1);
    if |a| == 2 && ParseFileDate(a[1]).Some? then
      Ok(NameParts(a[0], ParseFileDate(a[1]).value, true, false))
    else
      var b := RSplitN(stem, '_', 2);
      if |b| == 3 && ParseFileDate(b[1]).Some? then
        Ok(NameParts(b[0] + "_" + b[2], ParseFileDate(b[1]).value, true, true))
      else
        var c := SplitN(stem, '_', 1);
        if |c| == 2 && ParseFileDate(c[0]).Some? then
          Ok(NameParts(c[1], ParseFileDate(c[0]).value, false, false))
        else
          Err(BadFileName)
  }

  lemma FileDateHasNoUnderscore(t: DateTime)
    requires Valid(t)
    ensures '_' !in FormatFileDate(t)
  {
    var s := FormatFileDate(t);
    forall i | 0 <= i < |s| ensures s[i] != '_' {
      var y, mo, d := PadTo(t.year, 4), PadTo(t.month, 2), PadTo(t.day, 2);
      var h, mi, sec := PadTo(t.hour, 2), PadTo(t.minute, 2), PadTo(t.second, 2);
      assert s == y + mo + d + "T" + h + mi + sec + "Z";
      if i < 4 { assert s[i] == y[i]; }
      else if i < 6 { assert s[i] == mo[i - 4]; }
      else if i < 8 { assert s[i] == d[i - 6]; }
      else if i == 8 { }
      else if i < 11 { assert s[i] == h[i - 9]; }
      else if i < 13 { assert s[i] == mi[i - 11]; }
      else if i < 15 { assert s[i] == sec[i - 13]; }
    }
  }

  /** `a + "_" + b` split once from the right, when `b` holds no `_`. */
  lemma RSplitOnceAtLast(a: string, b: string)
    requires '_' !in b
    ensures RSplitN(a + "_" + b, '_', 1) == [a, b]
  {
    var s := a + "_" + b;
    assert s[|a|] == '_' && s[|a| + 1..] == b && s[..|a|] == a;
    assert LastIndexOf(s, '_') == |a|;
  }

  /** `a + "_" + b` split once from the left, when `a` holds no `_`. */
  lemma SplitOnceAtFirst(a: string, b: string)
    requires '_' !in a
    ensures SplitN(a + "_" + b, '_', 1) == [a, b]
  {
    var s := a + "_" + b;
    assert s[|a|] == '_' && s[|a| + 1..] == b && s[..|a|] == a;
    assert IndexOf(s, '_') == |a|;
  }

  /** The common form `name_YYYYMMDDTHHMMSSZ` is read by the first guess. */
  lemma NameThenDateRecognised(name: string, t: DateTime)
    requires Valid(t)
    ensures SplitFileName(name + "_" + FormatFileDate(t)) == Ok(NameParts(name, t, true, false))
  {
    FileDateHasNoUnderscore(t);
    RSplitOnceAtLast(name, FormatFileDate(t));
    FileDateRoundTrip(t);
  }

  /**
   * `name_TS_region` is read by the second guess, when the region is not
   * itself a date: the region goes back behind the name.
   */
  lemma NameDateRegionRecognised(name: string, t: DateTime, region: string)
    requires Valid(t) && '_' !in region && ParseFileDate(region).None?
    ensures SplitFileName(name + "_" + FormatFileDate(t) + "_" + region)
         == Ok(NameParts(name + "_" + region, t, true, true))
  {
    var ts := FormatFileDate(t);
    var stem := name + "_" + ts + "_" + region;
    FileDateHasNoUnderscore(t);
    RSplitOnceAtLast(name + "_" + ts, region);
    assert RSplitN(stem, '_', 1) == [name + "_" + ts, region];
    var i := LastIndexOf(stem, '_');
    assert i == |name| + 1 + |ts|;
    assert stem[..i] == name + "_" + ts;
    RSplitOnceAtLast(name, ts);
    assert stem[i + 1..] == region;
    FileDateRoundTrip(t);
  }

  /**
   * `YYYYMMDDTHHMMSSZ_name` is read by the third guess when neither of the
   * last two `_`-pieces of the name is a date; such a name carries no labels.
   */
  lemma DateThenNameRecognised(t: DateTime, name: string)
    requires Valid(t)
    requires var r := RSplitN(name, '_', 2);
      && ParseFileDate(r[|r| - 1]).None?
      && (|r| >= 2 ==> ParseFileDate(r[|r| - 2]).None?)
    ensures SplitFileName(FormatFileDate(t) + "_" + name) == Ok(NameParts(name, t, false, false))
  {
    var ts := FormatFileDate(t);
    var stem := ts + "_" + name;
    FileDateHasNoUnderscore(t);
    SplitOnceAtFirst(ts, name);
    FileDateRoundTrip(t);
    FirstGuessFails(ts, name);
    SecondGuessFails(ts, name);
  }

  /** The first guess on `ts_name` sees the last `_`-piece of the name. */
  lemma FirstGuessFails(ts: string, name: string)
    requires '_' !in ts
    requires var r := RSplitN(name, '_', 2); ParseFileDate(r[|r| - 1]).None?
    ensures var a := RSplitN(ts + "_" + name, '_', 1); !(|a| == 2 && ParseFileDate(a[1]).Some?)
  {
    var r := RSplitN(name, '_', 2);
    if '_' !in name {
      RSplitOnceAtLast(ts, name);
    } else {
      var l := LastIndexOf(name, '_');
      var x, y := name[..l], name[l + 1..];
      assert r[|r| - 1] == y by {
        RSplitNStepAt(name, '_', 2, l, x, y);
      }
      assert RSplitN(name, '_', 1) == [x, y] by {
        RSplitNStepAt(name, '_', 1, l, x, y);
      }
      RSplitNAppendMany(ts, name, '_', 1);
    }
  }

  /** The second guess on `ts_name` sees the last two `_`-pieces of the name. */
  lemma SecondGuessFails(ts: string, name: string)
    requires '_' !in ts
    requires var r := RSplitN(name, '_', 2); |r| >= 2 ==> ParseFileDate(r[|r| - 2]).None?
    ensures var b := RSplitN(ts + "_" + name, '_', 2); !(|b| == 3 && ParseFileDate(b[1]).Some?)
  {
    var stem := ts + "_" + name;
    var r := RSplitN(name, '_', 2);
    if '_' !in name {
      assert Count(stem, '_') == 1 by {
        CountAppend(ts + "_", name, '_');
        CountAppend(ts, "_", '_');
      }
    } else {
      var l := LastIndexOf(name, '_');
      var x, y := name[..l], name[l + 1..];
      if '_' !in x {
        assert r == [x, y] by {
          RSplitNStepAt(name, '_', 2, l, x, y);
        }
        assert RSplitN(stem, '_', 2) == [ts, x, y] by {
          RSplitNAppendStep(ts, name, '_', 2, l, x, y);
          assert ts + "_" + x == ts + ['_'] + x;
          RSplitOnceAtLast(ts, x);
        }
      } else {
        assert Count(name, '_') >= 2 by {
          CountSplitAt(name, l, '_');
        }
        RSplitNAppendMany(ts, name, '_', 2);
      }
    }
  }

  /** A stem without `_` fits no guess: the run's `ValueError`. */
  lemma NoUnderscoreRejected(stem: string)
    requires '_' !in stem
    ensures SplitFileName(stem) == Err(BadFileName)
  {
  }

  // ---------------------------------------------------------------------------
  // Source, region and channel

  datatype Labels = Labels(source: Option<string>, region: Option<string>, channel: Option<string>)

  /**
   * With labels in the name, `name.split('_', 2)` must give exactly three
   * parts (the channel keeps any further `_`), swapped back when the second
   * guess read the name; otherwise no label is set. Without labels in the
   * name the source is the first directory below the root.
   */
  function DeriveLabels(parts: NameParts, firstComponent: string): (r: Labels)
    ensures !parts.metaFromName ==> r == Labels(Some(firstComponent), None, None)
    ensures parts.metaFromName ==> (r.source.Some? <==> Count(parts.name, '_') >= 2)
    ensures r.region.Some? <==> r.channel.Some?
  {
    if parts.metaFromName then
      var p := SplitN(parts.name, '_', 2);
      if |p| == 3 then
        if parts.swapRegionChannel then Labels(Some(p[0]), Some(p[2]), Some(p[1]))
        else Labels(Some(p[0]), Some(p[1]), Some(p[2]))
      else Labels(None, None, None)
    else Labels(Some(firstComponent), None, None)
  }

  /** Splitting from the left at a first `_` that ends `a`. */
  lemma SplitNCons(a: string, b: string, n: nat)
    requires '_' !in a && n >= 1
    ensures SplitN(a + "_" + b, '_', n) == [a] + SplitN(b, '_', n - 1)
  {
    var s := a + "_" + b;
    assert s[|a|] == '_' && s[..|a|] == a && s[|a| + 1..] == b;
    assert IndexOf(s, '_') == |a|;
  }

  lemma SplitTwiceAtFirst(s: string, r: string, c: string)
    requires '_' !in s && '_' !in r
    ensures SplitN(s + "_" + r + "_" + c, '_', 2) == [s, r, c]
  {
    var rc := r + "_" + c;
    assert s + "_" + r + "_" + c == s + "_" + rc;
    SplitNCons(s, rc, 2);
    SplitNCons(r, c, 1);
    assert SplitN(c, '_', 0) == [c];
  }

  /**
   * A sidecar named `source_region_channel_TS` gets its three labels from
   * the name; the channel may itself contain `_`.
   */
  lemma LabelsFromPlainName(s: string, r: string, c: string, t: DateTime, first: string)
    requires Valid(t) && '_' !in s && '_' !in r
    ensures var stem := s + "_" + r + "_" + c + "_" + FormatFileDate(t);
      && SplitFileName(stem).Ok?
      && DeriveLabels(SplitFileName(stem).value, first) == Labels(Some(s), Some(r), Some(c))
  {
    NameThenDateRecognised(s + "_" + r + "_" + c, t);
    SplitTwiceAtFirst(s, r, c);
  }

  /**
   * A sidecar named `source_channel_TS_region` gets the same labels as
   * `source_region_channel_TS`: the swap puts region and channel back.
   */
  lemma LabelsFromSwappedName(s: string, c: string, r: string, t: DateTime, first: string)
    requires Valid(t) && '_' !in s && '_' !in c && '_' !in r && ParseFileDate(r).None?
    ensures var stem := s + "_" + c + "_" + FormatFileDate(t) + "_" + r;
      && SplitFileName(stem).Ok?
      && DeriveLabels(SplitFileName(stem).value, first) == Labels(Some(s), Some(r), Some(c))
  {
    NameDateRegionRecognised(s + "_" + c, t, r);
    SplitTwiceAtFirst(s, c, r);
  }

  // ---------------------------------------------------------------------------
  // The sidecar's own time stamp

  /**
   * `data['TimeStamp']['ISO8601']`, read with the ISO format, replaces the
   * date from the file name. Only a `KeyError` keeps the file-name date; a
   * value of the wrong type or a malformed date ends the run.
   */
  function OverrideDate(data: Json, fileDate: DateTime): (r: Result<DateTime, IngestError>)
    ensures (data.JObj? && "TimeStamp" !in data.fields) ==> r == Ok(fileDate)
    ensures !data.JObj? ==> r == Err(WrongType)
    ensures r.Ok? && Get2(data, "TimeStamp", "ISO8601").Ok? ==>
      var v := Get2(data, "TimeStamp", "ISO8601").value;
      v.JStr? && ParseIsoDate(v.s) == Some(r.value)
    ensures r.Ok? && !Get2(data, "TimeStamp", "ISO8601").Ok? ==> r.value == fileDate
    // the KeyError from either lookup is the only one caught
    ensures KeyMissing2(data, "TimeStamp", "ISO8601") ==> r == Ok(fileDate)
    ensures !Get2(data, "TimeStamp", "ISO8601").Ok? && !KeyMissing2(data, "TimeStamp", "ISO8601")
            ==> r == Err(WrongType)
    ensures Get2(data, "TimeStamp", "ISO8601").Ok? ==>
      var v := Get2(data, "TimeStamp", "ISO8601").value;
      && (!v.JStr? ==> r == Err(WrongType))
      && (v.JStr? && ParseIsoDate(v.s).None? ==> r == Err(BadTimeStamp))
      && (v.JStr? && ParseIsoDate(v.s).Some? ==> r == Ok(ParseIsoDate(v.s).value))
  {
    match Get2(data, "TimeStamp", "ISO8601")
    case Err(KeyError(_)) => Ok(fileDate)
    case Err(TypeError) => Err(WrongType)
    case Ok(v) =>
      if !v.JStr? then Err(WrongType)
      else match ParseIsoDate(v.s)
        case None => Err(BadTimeStamp)
        case Some(d) => Ok(d)
  }

  /** A well-formed time stamp always wins over the file-name date. */
  lemma TimeStampOverrides(fields: map<string, Json>, ts: map<string, Json>, t: DateTime, fileDate: DateTime)
    requires Valid(t)
    requires "TimeStamp" in fields && fields["TimeStamp"] == JObj(ts)
    requires "ISO8601" in ts && ts["ISO8601"] == JStr(FormatIsoDate(t))
    ensures OverrideDate(JObj(fields), fileDate) == Ok(t)
  {
    IsoDateRoundTrip(t);
  }

  /** A time stamp block without the date keeps the file-name date. */
  lemma EmptyTimeStampKeepsFileDate(fields: map<string, Json>, fileDate: DateTime)
    requires "TimeStamp" in fields && fields["TimeStamp"] == JObj(map[])
    ensures OverrideDate(JObj(fields), fileDate) == Ok(fileDate)
  {
  }

  // ---------------------------------------------------------------------------
  // Everything read from the sidecar's name and contents

  datatype Description = Description(name: string, date: DateTime, labels: Labels)

  /** The name, date and labels `update_file` gives the new `File` row. */
  function Describe(stem: string, firstComponent: string, data: Json): (r: Result<Description, IngestError>)
    ensures r.Ok? ==> SplitFileName(stem).Ok?
    ensures r.Ok? ==> r.value.name == SplitFileName(stem).value.name
    ensures r.Ok? <==> SplitFileName(stem).Ok? && OverrideDate(data, SplitFileName(stem).value.date).Ok?
    ensures r.Ok? ==>
      var parts := SplitFileName(stem).value;
      && r.value.date == OverrideDate(data, parts.date).value
      && r.value.labels == DeriveLabels(parts, firstComponent)
    ensures r.Err? && SplitFileName(stem).Ok? ==>
      r == Err(OverrideDate(data, SplitFileName(stem).value.date).error)
    ensures SplitFileName(stem).Err? ==> r == Err(BadFileName)
  {
    var parts :- SplitFileName(stem);
    var date :- OverrideDate(data, parts.date);
    Ok(Description(parts.name, date, DeriveLabels(parts, firstComponent)))
  }
}
