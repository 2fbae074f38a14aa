/**
 * The `human_*` template helpers of the web front end: display forms of
 * file types, sources, regions, channels, AWIPS product codes and map
 * styles. Case mapping is ASCII; the channel and product-code tables are
 * inputs (they are read from data files).
 */
module Humanize {
  import opened Text

  /** `s.startswith(p)`. */
  predicate StartsWith(s: string, p: string)
  {
    |p| <= |s| && s[..|p|] == p
  }

  /** `s[:-1]`: everything but the last character; `""` stays `""`. */
  function DropLast(s: string): (r: string)
    ensures s != [] ==> r == s[..|s| - 1]
    ensures s == [] ==> r == []
  {
    if s == [] then [] else s[..|s| - 1]
  }

  // ---------------------------------------------------------------------------
  // Case facts

  lemma CaseOfChar(c: char)
    ensures UpperChar(LowerChar(c)) == UpperChar(c)
    ensures LowerChar(UpperChar(c)) == LowerChar(c)
    ensures LowerChar(LowerChar(c)) == LowerChar(c)
  {
  }

  /** Upper-casing and capitalising look only at the lower-cased text. */
  lemma CaseThroughLower(s: string)
    ensures Upper(Lower(s)) == Upper(s)
    ensures Capitalize(Lower(s)) == Capitalize(s)
    ensures Lower(Lower(s)) == Lower(s)
    ensures Lower(Upper(s)) == Lower(s)
    ensures Lower(Capitalize(s)) == Lower(s)
  {
    forall i | 0 <= i < |s| ensures UpperChar(LowerChar(s[i])) == UpperChar(s[i])
      && LowerChar(UpperChar(s[i])) == LowerChar(s[i]) && LowerChar(LowerChar(s[i])) == LowerChar(s[i])
    {
      CaseOfChar(s[i]);
    }
    if s != [] {
      var c := Capitalize(s);
      assert Lower(s)[1..] == Lower(s[1..]);
      assert Lower(c)[0] == LowerChar(UpperChar(s[0]));
      assert forall i :: 1 <= i < |s| ==> Lower(c)[i] == LowerChar(c[1..][i - 1]);
    }
  }

  /** Two texts that agree but for case have the same upper-cased and capitalised forms. */
  lemma SameLower(s: string, t: string)
    requires Lower(s) == Lower(t)
    ensures Upper(s) == Upper(t)
    ensures Capitalize(s) == Capitalize(t)
  {
    CaseThroughLower(s);
    CaseThroughLower(t);
  }

  // ---------------------------------------------------------------------------
  // The helpers

  /** `human_type`: `s.capitalize()`. */
  function HumanType(s: string): (r: string)
    ensures |r| == |s| && Lower(r) == Lower(s)
    ensures s != [] ==> r[0] == UpperChar(s[0]) && r[1..] == Lower(s[1..])
  {
    CaseThroughLower(s);
    Capitalize(s)
  }

  /** `human_type` ignores the case of its input and changes nothing on its own output. */
  lemma HumanTypeIdempotent(s: string, t: string)
    requires Lower(s) == Lower(t)
    ensures HumanType(s) == HumanType(t)
    ensures HumanType(HumanType(s)) == HumanType(s)
  {
    SameLower(s, t);
    SameLower(HumanType(s), s);
  }

  /** The sources written in capitals: any `goes...` and `nws`, in any case. */
  predicate Acronym(s: string)
  {
    StartsWith(Lower(s), "goes") || Lower(s) == "nws"
  }

  /**
   * `human_source`: upper case when the lower-cased name starts with `goes`
   * or is `nws`, otherwise capitalised.
   */
  function HumanSource(s: string): (r: string)
    ensures Acronym(s) ==> r == Upper(s)
    ensures !Acronym(s) ==> r == Capitalize(s)
  {
    if StartsWith(Lower(s), "goes") then Upper(s)
    else if Lower(s) == "nws" then Upper(s)
    else Capitalize(s)
  }

  /** `human_source` keeps the letters and changes only their case. */
  lemma HumanSourceKeepsLetters(s: string)
    ensures Lower(HumanSource(s)) == Lower(s)
  {
    CaseThroughLower(s);
  }

  /** `human_source` ignores the case of its input. */
  lemma HumanSourceIgnoresCase(s: string, t: string)
    requires Lower(s) == Lower(t)
    ensures HumanSource(s) == HumanSource(t)
  {
    SameLower(s, t);
  }

  /** Applying `human_source` to its own output changes nothing. */
  lemma HumanSourceIdempotent(s: string)
    ensures HumanSource(HumanSource(s)) == HumanSource(s)
  {
    HumanSourceKeepsLetters(s);
    HumanSourceIgnoresCase(HumanSource(s), s);
  }

  /** `human_region`: `s.upper()`. */
  function HumanRegion(s: string): (r: string)
    ensures |r| == |s| && Lower(r) == Lower(s)
    ensures Upper(r) == r
  {
    CaseThroughLower(s);
    assert forall i :: 0 <= i < |s| ==> UpperChar(UpperChar(s[i])) == UpperChar(s[i]);
    Upper(s)
  }

  /**
   * `human_channel`: the table entry of the lower-cased name, else the entry
   * of that name without its last character, else the name upper-cased.
   */
  function HumanChannel(s: string, channels: map<string, string>): (r: string)
    ensures Lower(s) in channels ==> r == channels[Lower(s)]
    ensures Lower(s) !in channels && DropLast(Lower(s)) in channels ==> r == channels[DropLast(Lower(s))]
    ensures Lower(s) !in channels && DropLast(Lower(s)) !in channels ==> r == Upper(s)
  {
    var l := Lower(s);
    CaseThroughLower(s);
    if l in channels then channels[l]
    else if DropLast(l) in channels then channels[DropLast(l)]
    else Upper(l)
  }

  /** `human_channel` ignores the case of its input. */
  lemma HumanChannelIgnoresCase(s: string, t: string, channels: map<string, string>)
    requires Lower(s) == Lower(t)
    ensures HumanChannel(s, channels) == HumanChannel(t, channels)
  {
    SameLower(s, t);
  }

  /**
   * A band suffix is dropped only when the full name is not in the table:
   * the full name always wins.
   */
  lemma HumanChannelPrefersFullName(s: string, channels: map<string, string>)
    requires s != [] && Lower(s) in channels && DropLast(Lower(s)) in channels
    ensures HumanChannel(s, channels) == channels[Lower(s)]
  {
  }

  /** `human_nnn`: the table entry of the lower-cased code, else the code upper-cased. */
  function HumanNnn(s: string, nnns: map<string, string>): (r: string)
    ensures Lower(s) in nnns ==> r == nnns[Lower(s)]
    ensures Lower(s) !in nnns ==> r == Upper(s)
  {
    var l := Lower(s);
    CaseThroughLower(s);
    if l in nnns then nnns[l] else Upper(l)
  }

  /** `human_style`: `False Color` for `falsecolor` in any case, else capitalised. */
  function HumanStyle(s: string): (r: string)
    ensures Lower(s) == "falsecolor" ==> r == "False Color"
    ensures Lower(s) != "falsecolor" ==> r == Capitalize(s)
  {
    var l := Lower(s);
    CaseThroughLower(s);
    if l == "falsecolor" then "False Color" else Capitalize(l)
  }

  /** Every spelling of `falsecolor` is shown as `False Color`. */
  lemma FalseColorAnyCase()
    ensures HumanStyle("FalseColor") == "False Color"
    ensures HumanStyle("FALSECOLOR") == "False Color"
  {
    assert Lower("FalseColor") == "falsecolor";
    assert Lower("FALSECOLOR") == "falsecolor";
  }

  /** `human_style` ignores the case of its input. */
  lemma HumanStyleIgnoresCase(s: string, t: string)
    requires Lower(s) == Lower(t)
    ensures HumanStyle(s) == HumanStyle(t)
  {
    SameLower(s, t);
  }
}
