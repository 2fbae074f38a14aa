/**
 * The quota rule of `Database.get_above_quota`: when the catalog holds more
 * bytes than the quota, the oldest files are given up, in date order, until
 * the excess is covered.
 */
module Quota {
  import opened Wrappers
  import opened Catalog

  /** The size of the first `k` files. */
  function PrefixSize(s: seq<File>, k: nat): nat
    requires k <= |s|
  {
    TotalSize(s[..k])
  }

  /**
   * `r` is the shortest prefix of `s` whose sizes add up to `excess` or more;
   * when no prefix does, `r` is all of `s`. Every file of `r` was taken while
   * the excess was still positive.
   */
  predicate ShortestCover(s: seq<File>, excess: int, r: seq<File>)
  {
    && |r| <= |s| && r == s[..|r|]
    && (forall k :: 0 <= k < |r| ==> PrefixSize(s, k) < excess)
    && (|r| == |s| || TotalSize(r) >= excess)
  }

  /**
   * What `get_above_quota` yields for a catalog holding `files`: nothing when
   * the quota is 0 or not exceeded, otherwise the shortest cover of the
   * excess by the files in date order.
   */
  predicate AboveQuota(files: seq<File>, quota: int, r: seq<File>)
  {
    if quota == 0 || TotalSize(files) - quota <= 0 then r == []
    else ShortestCover(SortByDate(files), TotalSize(files) - quota, r)
  }

  /** The rule leaves no choice: at most one selection satisfies it. */
  lemma ShortestCoverUnique(s: seq<File>, excess: int, r1: seq<File>, r2: seq<File>)
    requires ShortestCover(s, excess, r1) && ShortestCover(s, excess, r2)
    ensures r1 == r2
  {
    if |r1| < |r2| {
      assert PrefixSize(s, |r1|) == TotalSize(r1);
      assert false;
    } else if |r2| < |r1| {
      assert PrefixSize(s, |r2|) == TotalSize(r2);
      assert false;
    }
  }

  /**
   * With a positive quota, deleting the selection brings the catalog within
   * the quota, and deleting one file fewer would not have.
   */
  lemma CleanRemovesJustEnough(s: seq<File>, quota: int, r: seq<File>)
    requires quota > 0 && TotalSize(s) > quota
    requires ShortestCover(s, TotalSize(s) - quota, r)
    ensures TotalSize(s[|r|..]) <= quota
    ensures |r| > 0 && TotalSize(s[|r| - 1..]) > quota
  {
    assert s == r + s[|r|..];
    TotalSizeAppend(r, s[|r|..]);
    assert |r| > 0;
    var k := |r| - 1;
    assert PrefixSize(s, k) < TotalSize(s) - quota;
    assert s == s[..k] + s[k..];
    TotalSizeAppend(s[..k], s[k..]);
  }

  /** A negative quota can never be met: every file is selected. */
  lemma NegativeQuotaSelectsAll(files: seq<File>, quota: int, r: seq<File>)
    requires quota < 0 && AboveQuota(files, quota, r)
    ensures r == SortByDate(files)
  {
    var s := SortByDate(files);
    SortByDateKeepsSize(files);
    PrefixAtMostTotal(s, r);
    assert |r| == |s|;
    assert r == s[..|s|] == s;
  }

  /** A prefix of `s` holds no more bytes than `s`. */
  lemma PrefixAtMostTotal(s: seq<File>, r: seq<File>)
    requires |r| <= |s| && r == s[..|r|]
    ensures TotalSize(r) <= TotalSize(s)
  {
    assert s == r + s[|r|..];
    TotalSizeAppend(r, s[|r|..]);
  }

  // ---------------------------------------------------------------------------
  // get_size as written

  predicate NoProducts(files: seq<File>)
  {
    forall i :: 0 <= i < |files| ==> files[i].products == []
  }

  lemma {:induction false} NoProductsNoSize(files: seq<File>)
    requires NoProducts(files)
    ensures TotalSize(files) == 0
  {
    if files != [] {
      NoProductsNoSize(files[..|files| - 1]);
    }
  }

  /**
   * `get_size()` as written: the SQL `SUM` over the files joined with their
   * products, which is `NULL` (Python `None`) when the join has no row. The
   * aggregate query always returns one row, so the `return 0` branch is never
   * taken.
   */
  function SizeAsWritten(files: seq<File>): (r: Option<nat>)
    ensures r.Some? ==> r.value == TotalSize(files)
    ensures r.None? <==> NoProducts(files)
    ensures r.None? ==> TotalSize(files) == 0
  {
    if NoProducts(files) then NoProductsNoSize(files); None else Some(TotalSize(files))
  }

  datatype QuotaError = SizeIsNone

  /** `excess = self.size - self.quota`: subtracting from `None` raises `TypeError`. */
  function ExcessAsWritten(files: seq<File>, quota: int): (r: Result<int, QuotaError>)
    ensures r.Ok? ==> r.value == TotalSize(files) - quota
    ensures r.Err? <==> NoProducts(files)
  {
    match SizeAsWritten(files)
    case None => Err(SizeIsNone)
    case Some(n) => Ok(n - quota)
  }

  /**
   * With a quota set, `clean` on an empty catalog raises instead of selecting
   * nothing; the intended excess, `0 - quota`, is never positive.
   */
  lemma EmptyCatalogRaises(quota: int)
    requires quota > 0
    ensures ExcessAsWritten([], quota) == Err(SizeIsNone)
    ensures AboveQuota([], quota, [])
  {
  }
}
