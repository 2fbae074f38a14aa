/**
 * Naive date-times and the two fixed formats the catalog reads them in:
 * `%Y%m%dT%H%M%SZ` in sidecar file names and `%Y-%m-%dT%H:%M:%SZ` in a
 * sidecar's `TimeStamp.ISO8601` field.
 *
 * The recognisers take every field at its full width (four-digit year, two
 * digits for the rest). Python's `strptime` also accepts one-digit months,
 * days, hours, minutes and seconds; inputs that use them are not recognised
 * here. As in `strptime`, the literal letters `T` and `Z` match in either case
 * and an impossible calendar date (month 13, 30 February, second 60) is
 * refused.
 */
module Timestamps {
  import opened Wrappers
  import opened Text

  datatype DateTime = DateTime(year: int, month: int, day: int, hour: int, minute: int, second: int)

  predicate IsLeap(y: int)
  {
    (y % 4 == 0 && y % 100 != 0) || y % 400 == 0
  }

  function DaysIn(y: int, m: int): int
  {
    if m == 2 then (if IsLeap(y) then 29 else 28)
    else if m == 4 || m == 6 || m == 9 || m == 11 then 30
    else 31
  }

  /** The values Python's `datetime` constructor accepts. */
  predicate Valid(t: DateTime)
  {
    && 1 <= t.year <= 9999
    && 1 <= t.month <= 12
    && 1 <= t.day <= DaysIn(t.year, t.month)
    && 0 <= t.hour <= 23
    && 0 <= t.minute <= 59
    && 0 <= t.second <= 59
  }

  /**
   * Position of `t` on a time line; for valid date-times it orders them as
   * `datetime` comparison does (year first, then month, ..., then second).
   */
  function Ord(t: DateTime): int
  {
    ((((t.year * 13 + t.month) * 32 + t.day) * 24 + t.hour) * 60 + t.minute) * 60 + t.second
  }

  /** Digits `s[i..i+n]` as a number, or `None` if one of them is not a digit. */
  function FieldAt(s: string, i: nat, n: nat): Option<nat>
    requires i + n <= |s|
  {
    if AllDigits(s[i..i + n]) then Some(DigitsValue(s[i..i + n])) else None
  }

  predicate IsLetter(c: char, upper: char)
  {
    c == upper || c == LowerChar(upper)
  }

  function Build(y: Option<nat>, mo: Option<nat>, d: Option<nat>, h: Option<nat>, mi: Option<nat>, sec: Option<nat>): (r: Option<DateTime>)
    ensures r.Some? ==> Valid(r.value)
  {
    if y.None? || mo.None? || d.None? || h.None? || mi.None? || sec.None? then None
    else
      var t := DateTime(y.value, mo.value, d.value, h.value, mi.value, sec.value);
      if Valid(t) then Some(t) else None
  }

  /** `datetime.strptime(s, '%Y%m%dT%H%M%SZ')`, at full field width. */
  function ParseFileDate(s: string): (r: Option<DateTime>)
    ensures r.Some? ==> Valid(r.value) && |s| == 16
  {
    if |s| != 16 || !IsLetter(s[8], 'T') || !IsLetter(s[15], 'Z') then None
    else Build(FieldAt(s, 0, 4), FieldAt(s, 4, 2), FieldAt(s, 6, 2),
               FieldAt(s, 9, 2), FieldAt(s, 11, 2), FieldAt(s, 13, 2))
  }

  /** `datetime.strptime(s, '%Y-%m-%dT%H:%M:%SZ')`, at full field width. */
  function ParseIsoDate(s: string): (r: Option<DateTime>)
    ensures r.Some? ==> Valid(r.value) && |s| == 20
  {
    if |s| != 20 || s[4] != '-' || s[7] != '-' || !IsLetter(s[10], 'T')
       || s[13] != ':' || s[16] != ':' || !IsLetter(s[19], 'Z') then None
    else Build(FieldAt(s, 0, 4), FieldAt(s, 5, 2), FieldAt(s, 8, 2),
               FieldAt(s, 11, 2), FieldAt(s, 14, 2), FieldAt(s, 17, 2))
  }

  // ---------------------------------------------------------------------------
  // Rendering, the partner of the recognisers

  /** `n` left-padded with zeros to `width` digits. */
  function PadTo(n: nat, width: nat): (s: string)
    requires n < Pow10(width)
    ensures |s| == width && AllDigits(s) && DigitsValue(s) == n
  {
    if width == 0 then ""
    else
      var front := PadTo(n / 10, width - 1);
      var s := front + ['0' + (n % 10) as char];
      assert s[..|s| - 1] == front;
      s
  }

  /** The file-name form `YYYYMMDDTHHMMSSZ` of `t`. */
  function FormatFileDate(t: DateTime): (s: string)
    requires Valid(t)
    ensures |s| == 16
  {
    PadTo(t.year, 4) + PadTo(t.month, 2) + PadTo(t.day, 2) + "T"
      + PadTo(t.hour, 2) + PadTo(t.minute, 2) + PadTo(t.second, 2) + "Z"
  }

  /** The ISO form `YYYY-MM-DDTHH:MM:SSZ` of `t`. */
  function FormatIsoDate(t: DateTime): (s: string)
    requires Valid(t)
    ensures |s| == 20
  {
    PadTo(t.year, 4) + "-" + PadTo(t.month, 2) + "-" + PadTo(t.day, 2) + "T"
      + PadTo(t.hour, 2) + ":" + PadTo(t.minute, 2) + ":" + PadTo(t.second, 2) + "Z"
  }

  /** The file-name recogniser reads back every valid date-time it is shown. */
  lemma FileDateRoundTrip(t: DateTime)
    requires Valid(t)
    ensures ParseFileDate(FormatFileDate(t)) == Some(t)
  {
    var s := FormatFileDate(t);
    assert s[0..4] == PadTo(t.year, 4);
    assert s[4..6] == PadTo(t.month, 2);
    assert s[6..8] == PadTo(t.day, 2);
    assert s[9..11] == PadTo(t.hour, 2);
    assert s[11..13] == PadTo(t.minute, 2);
    assert s[13..15] == PadTo(t.second, 2);
  }

  /** The ISO recogniser reads back every valid date-time it is shown. */
  lemma IsoDateRoundTrip(t: DateTime)
    requires Valid(t)
    ensures ParseIsoDate(FormatIsoDate(t)) == Some(t)
  {
    var s := FormatIsoDate(t);
    assert s[0..4] == PadTo(t.year, 4);
    assert s[5..7] == PadTo(t.month, 2);
    assert s[8..10] == PadTo(t.day, 2);
    assert s[11..13] == PadTo(t.hour, 2);
    assert s[14..16] == PadTo(t.minute, 2);
    assert s[17..19] == PadTo(t.second, 2);
  }

  /** Lower-case separators are accepted, as `strptime` matches case-blind. */
  lemma FileDateIgnoresCase()
    ensures ParseFileDate("20200101t000000z") == Some(DateTime(2020, 1, 1, 0, 0, 0))
  {
    var s := "20200101t000000z";
    FieldOf(s, 0, 4, 2020);
    FieldOf(s, 4, 2, 1);
    FieldOf(s, 6, 2, 1);
    FieldOf(s, 9, 2, 0);
    FieldOf(s, 11, 2, 0);
    FieldOf(s, 13, 2, 0);
  }

  /** The field of the lower-case example at `i` reads as `v`. */
  lemma FieldOf(s: string, i: nat, n: nat, v: nat)
    requires s == "20200101t000000z"
    requires (i, n, v) in {(0, 4, 2020), (4, 2, 1), (6, 2, 1), (9, 2, 0), (11, 2, 0), (13, 2, 0)}
    ensures i + n <= |s| && FieldAt(s, i, n) == Some(v)
  {
    if i == 0 {
      assert s[0..4] == "2020";
      assert DigitsValue("2020") == 2020 by {
        assert "2020"[..3] == "202" && "202"[..2] == "20" && "20"[..1] == "2";
      }
    } else if i == 4 || i == 6 {
      assert s[i..i + 2] == "01";
      assert DigitsValue("01") == 1 by { assert "01"[..1] == "0"; }
    } else {
      assert s[i..i + 2] == "00";
      assert DigitsValue("00") == 0 by { assert "00"[..1] == "0"; }
    }
  }
}
