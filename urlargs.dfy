/**
 * The argument maps that `url_for_args` and `url_for_filters` hand to
 * `flask.url_for`: a copy of the current request's view arguments, edited by
 * the keyword arguments of the template call. The final `url_for` call is
 * not part of this model; each method returns the map it would be given.
 */
module UrlArgs {
  import opened Wrappers

  /** The values that occur in view arguments, query arguments and keywords. */
  datatype Value = VNone | VBool(b: bool) | VInt(i: int) | VStr(s: string) | VFilters(filters: map<string, string>)

  /** Python's `v == 1`: true for the integer 1 and for `True`. */
  predicate EqualsOne(v: Value)
  {
    v == VInt(1) || v == VBool(true)
  }

  /** A keyword that `url_for_args` removes instead of setting. */
  predicate Dropped(k: string, v: Value)
  {
    v == VNone || (k == "page" && EqualsOne(v))
  }

  /** Keyword arguments: their names are distinct, as Python guarantees. */
  predicate DistinctNames<V>(kwargs: seq<(string, V)>)
  {
    forall i, j :: 0 <= i < j < |kwargs| ==> kwargs[i].0 != kwargs[j].0
  }

  function Names<V>(kwargs: seq<(string, V)>): set<string>
  {
    set i | 0 <= i < |kwargs| :: kwargs[i].0
  }

  /**
   * `url_for_args(**kwargs)`: copy the view arguments, let every query
   * argument override them, then for each keyword either remove it (its
   * value is `None`, or it is `page` equal to 1) or set it.
   */
  method UrlForArgs(viewArgs: map<string, Value>, requestArgs: map<string, string>, kwargs: seq<(string, Value)>)
    returns (args: map<string, Value>)
    requires DistinctNames(kwargs)
    ensures forall j :: 0 <= j < |kwargs| && Dropped(kwargs[j].0, kwargs[j].1) ==> kwargs[j].0 !in args
    ensures forall j :: 0 <= j < |kwargs| && !Dropped(kwargs[j].0, kwargs[j].1) ==>
      kwargs[j].0 in args && args[kwargs[j].0] == kwargs[j].1
    ensures forall k :: k !in Names(kwargs) ==> (k in args <==> k in viewArgs || k in requestArgs)
    ensures forall k :: k !in Names(kwargs) && k in requestArgs ==> args[k] == VStr(requestArgs[k])
    ensures forall k :: k !in Names(kwargs) && k in viewArgs && k !in requestArgs ==> args[k] == viewArgs[k]
  {
    args := OverlayRequest(viewArgs, requestArgs);
    args := ApplyKeywords(args, kwargs);
  }

  /** The first loop of `url_for_args`: every query argument overrides the view argument. */
  method OverlayRequest(viewArgs: map<string, Value>, requestArgs: map<string, string>) returns (args: map<string, Value>)
    ensures args.Keys == viewArgs.Keys + requestArgs.Keys
    ensures forall k :: k in requestArgs ==> args[k] == VStr(requestArgs[k])
    ensures forall k :: k in viewArgs && k !in requestArgs ==> args[k] == viewArgs[k]
  {
    args := viewArgs;
    var pending := requestArgs.Keys;
    while pending != {}
      invariant pending <= requestArgs.Keys
      invariant args.Keys == viewArgs.Keys + (requestArgs.Keys - pending)
      invariant forall k :: k in requestArgs && k !in pending ==> args[k] == VStr(requestArgs[k])
      invariant forall k :: k in viewArgs && (k !in requestArgs || k in pending) ==> args[k] == viewArgs[k]
      decreases pending
    {
      var k :| k in pending;
      args := args[k := VStr(requestArgs[k])];
      pending := pending - {k};
    }
  }

  /** The keyword loop of `url_for_args` over the merged arguments `base`. */
  method ApplyKeywords(base: map<string, Value>, kwargs: seq<(string, Value)>) returns (args: map<string, Value>)
    requires DistinctNames(kwargs)
    ensures forall j :: 0 <= j < |kwargs| && Dropped(kwargs[j].0, kwargs[j].1) ==> kwargs[j].0 !in args
    ensures forall j :: 0 <= j < |kwargs| && !Dropped(kwargs[j].0, kwargs[j].1) ==>
      kwargs[j].0 in args && args[kwargs[j].0] == kwargs[j].1
    ensures forall k :: k !in Names(kwargs) ==> (k in args <==> k in base) && (k in args ==> args[k] == base[k])
  {
    args := base;
    for i := 0 to |kwargs|
      invariant KeywordsApplied(base, kwargs, i, args)
    {
      ghost var before := args;
      var (k, v) := kwargs[i];
      if Dropped(k, v) {
        if k in args {
          args := args - {k};
        }
      } else {
        args := args[k := v];
      }
      KeywordApplied(base, kwargs, i, before, args);
    }
    assert kwargs[..|kwargs|] == kwargs;
  }

  /** `args` is `base` after the first `n` keywords of `kwargs`. */
  ghost predicate KeywordsApplied(base: map<string, Value>, kwargs: seq<(string, Value)>, n: nat, args: map<string, Value>)
    requires n <= |kwargs|
  {
    && (forall j :: 0 <= j < n && Dropped(kwargs[j].0, kwargs[j].1) ==> kwargs[j].0 !in args)
    && (forall j :: 0 <= j < n && !Dropped(kwargs[j].0, kwargs[j].1) ==>
          kwargs[j].0 in args && args[kwargs[j].0] == kwargs[j].1)
    && (forall k :: k !in Names(kwargs[..n]) ==> (k in args <==> k in base) && (k in args ==> args[k] == base[k]))
  }

  lemma KeywordApplied(base: map<string, Value>, kwargs: seq<(string, Value)>, i: nat,
                       before: map<string, Value>, after: map<string, Value>)
    requires DistinctNames(kwargs) && i < |kwargs|
    requires KeywordsApplied(base, kwargs, i, before)
    requires after == if Dropped(kwargs[i].0, kwargs[i].1) then before - {kwargs[i].0} else before[kwargs[i].0 := kwargs[i].1]
    ensures KeywordsApplied(base, kwargs, i + 1, after)
  {
    NamesStep(kwargs, i);
  }

  lemma NamesStep<V>(kwargs: seq<(string, V)>, i: nat)
    requires i < |kwargs|
    ensures Names(kwargs[..i + 1]) == Names(kwargs[..i]) + {kwargs[i].0}
  {
    assert kwargs[..i + 1] == kwargs[..i] + [kwargs[i]];
  }

  // ---------------------------------------------------------------------------
  // url_for_filters

  /** `.copy()` of a view argument that is not a dictionary raises `AttributeError`. */
  datatype ArgsError = FiltersNotADict

  /**
   * `url_for_filters(**kwargs)`: copy the view arguments and their `filters`
   * dictionary (empty when absent), then for each keyword remove that filter
   * (value `None`) or set it; the result carries the edited copy.
   */
  method UrlForFilters(viewArgs: map<string, Value>, kwargs: seq<(string, Option<string>)>)
    returns (r: Result<map<string, Value>, ArgsError>)
    requires DistinctNames(kwargs)
    ensures r.Err? <==> "filters" in viewArgs && !viewArgs["filters"].VFilters?
    ensures r.Ok? ==> r.value.Keys == viewArgs.Keys + {"filters"}
    ensures r.Ok? ==> forall k :: k in viewArgs && k != "filters" ==> r.value[k] == viewArgs[k]
    ensures r.Ok? ==> r.value["filters"].VFilters?
    ensures r.Ok? ==> EditedFilters(if "filters" in viewArgs then viewArgs["filters"].filters else map[],
                                    kwargs, r.value["filters"].filters)
  {
    var before: map<string, string> := map[];
    if "filters" in viewArgs {
      if !viewArgs["filters"].VFilters? {
        return Err(FiltersNotADict);
      }
      before := viewArgs["filters"].filters;
    }
    var filters := before;
    for i := 0 to |kwargs|
      invariant FiltersEdited(before, kwargs, i, filters)
    {
      ghost var previous := filters;
      var (k, v) := kwargs[i];
      if v.None? {
        if k in filters {
          filters := filters - {k};
        }
      } else {
        filters := filters[k := v.value];
      }
      FilterEdited(before, kwargs, i, previous, filters);
    }
    assert kwargs[..|kwargs|] == kwargs;
    r := Ok(viewArgs["filters" := VFilters(filters)]);
  }

  /** `after` is `before` edited by the first `n` keywords. */
  ghost predicate FiltersEdited(before: map<string, string>, kwargs: seq<(string, Option<string>)>, n: nat, after: map<string, string>)
    requires n <= |kwargs|
  {
    && (forall j :: 0 <= j < n && kwargs[j].1.None? ==> kwargs[j].0 !in after)
    && (forall j :: 0 <= j < n && kwargs[j].1.Some? ==> kwargs[j].0 in after && after[kwargs[j].0] == kwargs[j].1.value)
    && (forall k :: k !in Names(kwargs[..n]) ==> (k in after <==> k in before) && (k in after ==> after[k] == before[k]))
  }

  lemma FilterEdited(before: map<string, string>, kwargs: seq<(string, Option<string>)>, i: nat,
                     previous: map<string, string>, after: map<string, string>)
    requires DistinctNames(kwargs) && i < |kwargs|
    requires FiltersEdited(before, kwargs, i, previous)
    requires after == if kwargs[i].1.None? then previous - {kwargs[i].0} else previous[kwargs[i].0 := kwargs[i].1.value]
    ensures FiltersEdited(before, kwargs, i + 1, after)
  {
    NamesStep(kwargs, i);
  }

  /**
   * `after` is `before` edited by the keywords: a `None` keyword removes its
   * filter, any other sets it, and every other filter is as it was.
   */
  ghost predicate EditedFilters(before: map<string, string>, kwargs: seq<(string, Option<string>)>, after: map<string, string>)
  {
    && (forall j :: 0 <= j < |kwargs| && kwargs[j].1.None? ==> kwargs[j].0 !in after)
    && (forall j :: 0 <= j < |kwargs| && kwargs[j].1.Some? ==> kwargs[j].0 in after && after[kwargs[j].0] == kwargs[j].1.value)
    && (forall k :: k !in Names(kwargs) ==> (k in after <==> k in before) && (k in after ==> after[k] == before[k]))
  }

  /**
   * Editing filters whose names are all new only adds them: the filters of
   * the current page stay as they are.
   */
  lemma AddingFiltersKeepsCurrent(before: map<string, string>, kwargs: seq<(string, Option<string>)>, after: map<string, string>)
    requires EditedFilters(before, kwargs, after)
    requires forall j :: 0 <= j < |kwargs| ==> kwargs[j].1.Some? && kwargs[j].0 !in before
    ensures forall k :: k in before ==> k in after && after[k] == before[k]
    ensures |after| == |before| + |Names(kwargs)|
  {
    assert after.Keys == before.Keys + Names(kwargs) by {
      forall k | k in after ensures k in before.Keys + Names(kwargs) { }
      forall k | k in Names(kwargs) ensures k in after {
        var j :| 0 <= j < |kwargs| && kwargs[j].0 == k;
      }
    }
    assert before.Keys !! Names(kwargs);
  }
}
