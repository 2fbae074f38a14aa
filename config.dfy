/**
 * The layered configuration of the program: TOML files that may `inherit`
 * other TOML files, merged in order into one `Config` object.
 *
 * The file system, the TOML parser, `pathlib` and `humanfriendly.parse_size`
 * are inputs, collected in `Env`. Python's recursion limit, which ends a
 * cycle of inheriting files, is a `fuel` bound on the depth of inheritance.
 */
module Configuration {
  import opened Wrappers

  /** A parsed TOML value. `TOther` stands for floats, date-times and tables. */
  datatype Toml = TStr(s: string) | TInt(i: int) | TBool(b: bool) | TList(items: seq<Toml>) | TOther

  /** What the program gets from its surroundings. */
  datatype Env = Env(
    /** Every readable, well-formed TOML file, by path, as the table `toml.load` returns. */
    files: map<string, map<string, Toml>>,
    /** `path.parent`. */
    parent: string -> string,
    /** `root / p`. */
    join: (string, string) -> string,
    /** `(root / pathlib.Path(x).expanduser()).resolve()`. */
    resolve: (string, string) -> string,
    /** `pathlib.Path(p).expanduser()`. */
    expand: string -> string,
    /** The paths for which `exists()` is true. */
    existing: set<string>,
    /** `humanfriendly.parse_size`, `None` where it raises. */
    parseSize: string -> Option<int>)

  /** The exceptions loading can raise. */
  datatype ConfigError =
    | Unreadable(path: string)           // `open` or `toml.load` fails
    | TooDeep(path: string)              // recursion limit, e.g. a file that inherits itself
    | BadInherit                         // `inherit` is not iterable, or an entry is not a string
    | BadPath(key: string)               // `database` / `files` is not a string
    | BadSize(quota: Toml)               // `parse_size` refuses the quota
    | UnknownKeys(keys: set<string>)     // keys no one consumed
    | NoConfig                           // `discover` found no file

  /** The four keys `merge` consumes. */
  const Known: set<string> := {"database", "files", "quota", "use_x_accel_redirect"}

  /** The fields of a `Config`, as a value. */
  datatype Settings = Settings(database: Option<string>, files: Option<string>, quota: Toml, useXAccelRedirect: Option<Toml>)

  /** A fresh `Config()`. */
  const Default := Settings(None, None, TInt(0), None)

  /** Python's `isinstance(q, int)`: `bool` is a subclass of `int`. */
  predicate IsInt(q: Toml)
  {
    q.TInt? || q.TBool?
  }

  // ---------------------------------------------------------------------------
  // Specification of merging one table

  /**
   * The field `k` set from the raw value `v`: `database` and `files` go
   * through path resolution against `root`, which needs a string; the other
   * two are stored as they are.
   */
  function Set(s: Settings, k: string, v: Toml, root: string, env: Env): (r: Result<Settings, ConfigError>)
    requires k in Known
    ensures r.Err? <==> (k == "database" || k == "files") && !v.TStr?
    ensures r.Ok? && k == "database" ==> r.value == s.(database := Some(env.resolve(root, v.s)))
    ensures r.Ok? && k == "files" ==> r.value == s.(files := Some(env.resolve(root, v.s)))
    ensures r.Ok? && k == "quota" ==> r.value == s.(quota := v)
    ensures r.Ok? && k == "use_x_accel_redirect" ==> r.value == s.(useXAccelRedirect := Some(v))
  {
    if k == "database" then
      if v.TStr? then Ok(s.(database := Some(env.resolve(root, v.s)))) else Err(BadPath(k))
    else if k == "files" then
      if v.TStr? then Ok(s.(files := Some(env.resolve(root, v.s)))) else Err(BadPath(k))
    else if k == "quota" then Ok(s.(quota := v))
    else Ok(s.(useXAccelRedirect := Some(v)))
  }

  /**
   * `set_if_present`: an absent key changes neither the settings nor the
   * table; a present key is set and removed from the table.
   */
  function AfterSetIfPresent(s: Settings, data: map<string, Toml>, k: string, root: string, env: Env): (r: Result<(Settings, map<string, Toml>), ConfigError>)
    requires k in Known
    ensures k !in data ==> r == Ok((s, data))
    ensures k in data ==> (r.Ok? <==> Set(s, k, data[k], root, env).Ok?)
    ensures k in data && r.Ok? ==> r.value == (Set(s, k, data[k], root, env).value, data - {k})
  {
    if k !in data then Ok((s, data))
    else
      var t := Set(s, k, data[k], root, env);
      if t.Err? then Err(t.error) else Ok((t.value, data - {k}))
  }

  /** `if not isinstance(quota, int): quota = parse_size(quota)`. */
  function ParseQuota(s: Settings, env: Env): (r: Result<Settings, ConfigError>)
    ensures r.Ok? ==> IsInt(r.value.quota) && r.value == s.(quota := r.value.quota)
    ensures IsInt(s.quota) ==> r == Ok(s)
    ensures r.Err? <==> !IsInt(s.quota) && !(s.quota.TStr? && env.parseSize(s.quota.s).Some?)
  {
    if IsInt(s.quota) then Ok(s)
    else if s.quota.TStr? && env.parseSize(s.quota.s).Some? then Ok(s.(quota := TInt(env.parseSize(s.quota.s).value)))
    else Err(BadSize(s.quota))
  }

  /**
   * `merge`: `database`, `files` and `quota` in that order, the quota
   * parsed, then `use_x_accel_redirect`; the result carries the keys that
   * were left over.
   */
  function AfterMerge(s: Settings, data: map<string, Toml>, root: string, env: Env): (r: Result<(Settings, map<string, Toml>), ConfigError>)
    ensures r.Ok? ==> r.value.1 == data - Known
    ensures r.Ok? ==> IsInt(r.value.0.quota)
  {
    var a :- AfterSetIfPresent(s, data, "database", root, env);
    var b :- AfterSetIfPresent(a.0, a.1, "files", root, env);
    var q :- AfterSetIfPresent(b.0, b.1, "quota", root, env);
    var p :- ParseQuota(q.0, env);
    AfterSetIfPresent(p, q.1, "use_x_accel_redirect", root, env)
  }

  /** A key the table sets wins over what the settings held before. */
  lemma MergeTakesKeys(s: Settings, data: map<string, Toml>, root: string, env: Env)
    requires AfterMerge(s, data, root, env).Ok?
    ensures var m := AfterMerge(s, data, root, env).value.0;
      && ("database" in data ==> data["database"].TStr? && m.database == Some(env.resolve(root, data["database"].s)))
      && ("database" !in data ==> m.database == s.database)
      && ("files" in data ==> data["files"].TStr? && m.files == Some(env.resolve(root, data["files"].s)))
      && ("files" !in data ==> m.files == s.files)
      && ("use_x_accel_redirect" in data ==> m.useXAccelRedirect == Some(data["use_x_accel_redirect"]))
      && ("use_x_accel_redirect" !in data ==> m.useXAccelRedirect == s.useXAccelRedirect)
      && ("quota" in data && IsInt(data["quota"]) ==> m.quota == data["quota"])
      && ("quota" !in data && IsInt(s.quota) ==> m.quota == s.quota)
  {
    var a := AfterSetIfPresent(s, data, "database", root, env).value;
    var b := AfterSetIfPresent(a.0, a.1, "files", root, env).value;
    var q := AfterSetIfPresent(b.0, b.1, "quota", root, env).value;
    assert a.1.Keys == data.Keys - {"database"};
    assert b.1.Keys == data.Keys - {"database", "files"};
  }

  // ---------------------------------------------------------------------------
  // Specification of loading a file

  /**
   * The entries `for path in data.pop('inherit', [])` iterates over: the
   * elements of a list, or the characters of a string.
   */
  function InheritItems(v: Toml): (r: Result<seq<Toml>, ConfigError>)
    ensures v.TList? ==> r == Ok(v.items)
    ensures v.TStr? ==> r.Ok? && |r.value| == |v.s| && forall i :: 0 <= i < |v.s| ==> r.value[i] == TStr([v.s[i]])
    ensures r.Err? <==> !v.TList? && !v.TStr?
  {
    match v
    case TList(items) => Ok(items)
    case TStr(s) => Ok(seq(|s|, i requires 0 <= i < |s| => TStr([s[i]])))
    case _ => Err(BadInherit)
  }

  /** `load_file(path, merge)` with `merge` holding `s`: the settings it leaves, or the exception. */
  function Load(env: Env, path: string, s: Settings, fuel: nat): (r: Result<Settings, ConfigError>)
    ensures r.Ok? ==> IsInt(r.value.quota)
    decreases fuel, 0
  {
    if fuel == 0 then Err(TooDeep(path))
    else if path !in env.files then Err(Unreadable(path))
    else
      var data := env.files[path];
      var root := env.parent(path);
      var items :- if "inherit" in data then InheritItems(data["inherit"]) else Ok([]);
      var inherited :- LoadAll(env, root, items, s, fuel - 1);
      var merged :- AfterMerge(inherited, data - {"inherit"}, root, env);
      if merged.1 != map[] then Err(UnknownKeys(merged.1.Keys)) else Ok(merged.0)
  }

  /** The inherit loop: each entry loaded, in order, into the same settings. */
  function LoadAll(env: Env, root: string, items: seq<Toml>, s: Settings, fuel: nat): Result<Settings, ConfigError>
    decreases fuel, 1, |items|
  {
    if items == [] then Ok(s)
    else
      var before :- LoadAll(env, root, items[..|items| - 1], s, fuel);
      var last := items[|items| - 1];
      if !last.TStr? then Err(BadInherit) else Load(env, env.join(root, last.s), before, fuel)
  }

  /** An error part-way through the inherit loop is the loop's error. */
  lemma {:induction false} LoadAllKeepsError(env: Env, root: string, items: seq<Toml>, i: nat, s: Settings, fuel: nat)
    requires i <= |items|
    requires LoadAll(env, root, items[..i], s, fuel).Err?
    ensures LoadAll(env, root, items, s, fuel) == LoadAll(env, root, items[..i], s, fuel)
    decreases |items|
  {
    if i < |items| {
      var front := items[..|items| - 1];
      assert front[..i] == items[..i];
      LoadAllKeepsError(env, root, front, i, s, fuel);
    } else {
      assert items[..i] == items;
    }
  }

  /** The keys of a file that loads are all ones the loader knows. */
  lemma LoadAcceptsOnlyKnownKeys(env: Env, path: string, s: Settings, fuel: nat)
    requires Load(env, path, s, fuel).Ok?
    ensures path in env.files && env.files[path].Keys <= Known + {"inherit"}
  {
    var data := env.files[path];
    var root := env.parent(path);
    var items := if "inherit" in data then InheritItems(data["inherit"]).value else [];
    var inherited := LoadAll(env, root, items, s, fuel - 1).value;
    var rest := AfterMerge(inherited, data - {"inherit"}, root, env).value.1;
    assert rest == map[];
    forall k | k in data ensures k in Known + {"inherit"} {
      assert k !in rest;
    }
  }

  /** A file with a `thumbnail` key is refused, whatever else it holds. */
  lemma ThumbnailKeyRejected(env: Env, path: string, s: Settings, fuel: nat)
    requires path in env.files && "thumbnail" in env.files[path]
    ensures Load(env, path, s, fuel).Err?
  {
    if Load(env, path, s, fuel).Ok? {
      LoadAcceptsOnlyKnownKeys(env, path, s, fuel);
    }
  }

  /**
   * A file's own keys override everything it inherits: the database path of
   * a file that sets one is that path, resolved against the file's folder.
   */
  lemma OwnKeysOverrideInherited(env: Env, path: string, s: Settings, fuel: nat)
    requires Load(env, path, s, fuel).Ok?
    requires "database" in env.files[path]
    ensures env.files[path]["database"].TStr?
    ensures Load(env, path, s, fuel).value.database == Some(env.resolve(env.parent(path), env.files[path]["database"].s))
  {
    var data := env.files[path];
    var root := env.parent(path);
    var items := if "inherit" in data then InheritItems(data["inherit"]).value else [];
    var inherited := LoadAll(env, root, items, s, fuel - 1).value;
    MergeTakesKeys(inherited, data - {"inherit"}, root, env);
  }

  /**
   * Later inherits override earlier ones: when the last inherited file sets
   * a database path, that is the path the loop ends with.
   */
  lemma LaterInheritOverrides(env: Env, root: string, items: seq<Toml>, s: Settings, fuel: nat)
    requires LoadAll(env, root, items, s, fuel).Ok?
    requires items != [] && items[|items| - 1].TStr?
    requires var p := env.join(root, items[|items| - 1].s); p in env.files && "database" in env.files[p]
    ensures var p := env.join(root, items[|items| - 1].s);
      env.files[p]["database"].TStr? &&
      LoadAll(env, root, items, s, fuel).value.database == Some(env.resolve(env.parent(p), env.files[p]["database"].s))
  {
    var before := LoadAll(env, root, items[..|items| - 1], s, fuel).value;
    OwnKeysOverrideInherited(env, env.join(root, items[|items| - 1].s), before, fuel);
  }

  // ---------------------------------------------------------------------------
  // The mutable configuration object

  class Config {
    var database: Option<string>
    var files: Option<string>
    var quota: Toml
    var useXAccelRedirect: Option<Toml>

    function Snapshot(): Settings
      reads this
    {
      Settings(database, files, quota, useXAccelRedirect)
    }

    /** `Config()`: every field at its default. */
    constructor()
      ensures Snapshot() == Default
    {
      database := None;
      files := None;
      quota := TInt(0);
      useXAccelRedirect := None;
    }

    /** `set_if_present(data, k, trans)`: the remaining table, or the exception `trans` raised. */
    method SetIfPresent(data: map<string, Toml>, k: string, root: string, env: Env) returns (r: Result<map<string, Toml>, ConfigError>)
      requires k in Known
      modifies this
      ensures var spec := AfterSetIfPresent(old(Snapshot()), data, k, root, env);
        && (r.Ok? <==> spec.Ok?)
        && (r.Ok? ==> spec.value == (Snapshot(), r.value))
        && (r.Err? ==> r.error == spec.error && Snapshot() == old(Snapshot()))
    {
      if k !in data {
        return Ok(data);
      }
      var v := data[k];
      if k == "database" || k == "files" {
        if !v.TStr? {
          return Err(BadPath(k));
        }
        if k == "database" {
          database := Some(env.resolve(root, v.s));
        } else {
          files := Some(env.resolve(root, v.s));
        }
      } else if k == "quota" {
        quota := v;
      } else {
        useXAccelRedirect := Some(v);
      }
      r := Ok(data - {k});
    }

    /** `merge(data, root)`: the keys left over, or the exception. */
    method Merge(data: map<string, Toml>, root: string, env: Env) returns (r: Result<map<string, Toml>, ConfigError>)
      modifies this
      ensures var spec := AfterMerge(old(Snapshot()), data, root, env);
        && (r.Ok? <==> spec.Ok?)
        && (r.Ok? ==> spec.value == (Snapshot(), r.value))
        && (r.Err? ==> r.error == spec.error)
    {
      var rest := SetIfPresent(data, "database", root, env);
      if rest.Err? {
        return rest;
      }
      rest := SetIfPresent(rest.value, "files", root, env);
      if rest.Err? {
        return rest;
      }
      rest := SetIfPresent(rest.value, "quota", root, env);
      if rest.Err? {
        return rest;
      }
      if !IsInt(quota) {
        if quota.TStr? && env.parseSize(quota.s).Some? {
          quota := TInt(env.parseSize(quota.s).value);
        } else {
          return Err(BadSize(quota));
        }
      }
      r := SetIfPresent(rest.value, "use_x_accel_redirect", root, env);
    }

    /**
     * `load_file(path, merge=self)`: inherited files are loaded into this
     * object first, in order, then the file's own keys are merged; keys left
     * over are an error. `None` when it succeeds, else the exception.
     */
    method LoadFile(path: string, env: Env, fuel: nat) returns (err: Option<ConfigError>)
      modifies this
      decreases fuel, 0
      ensures var spec := Load(env, path, old(Snapshot()), fuel);
        && (err.None? <==> spec.Ok?)
        && (spec.Ok? ==> Snapshot() == spec.value)
        && (spec.Err? ==> err == Some(spec.error))
    {
      if fuel == 0 {
        return Some(TooDeep(path));
      }
      if path !in env.files {
        return Some(Unreadable(path));
      }
      var data := env.files[path];
      var root := env.parent(path);
      var items: seq<Toml> := [];
      if "inherit" in data {
        var popped := InheritItems(data["inherit"]);
        if popped.Err? {
          return Some(popped.error);
        }
        items := popped.value;
      }
      ghost var start := old(Snapshot());
      err := LoadInherited(root, items, env, fuel - 1);
      if err.Some? {
        return;
      }
      var rest := Merge(data - {"inherit"}, root, env);
      if rest.Err? {
        return Some(rest.error);
      }
      if rest.value != map[] {
        return Some(UnknownKeys(rest.value.Keys));
      }
    }

    /** The inherit loop of `load_file`: each entry loaded into this object in turn. */
    method LoadInherited(root: string, items: seq<Toml>, env: Env, fuel: nat) returns (err: Option<ConfigError>)
      modifies this
      decreases fuel, 1
      ensures var spec := LoadAll(env, root, items, old(Snapshot()), fuel);
        && (err.None? <==> spec.Ok?)
        && (spec.Ok? ==> Snapshot() == spec.value)
        && (spec.Err? ==> err == Some(spec.error))
    {
      ghost var start := Snapshot();
      for i := 0 to |items|
        invariant LoadAll(env, root, items[..i], start, fuel) == Ok(Snapshot())
      {
        assert items[..i + 1][..i] == items[..i];
        if !items[i].TStr? {
          LoadAllKeepsError(env, root, items, i + 1, start, fuel);
          return Some(BadInherit);
        }
        err := LoadFile(env.join(root, items[i].s), env, fuel);
        if err.Some? {
          LoadAllKeepsError(env, root, items, i + 1, start, fuel);
          return;
        }
      }
      assert items[..|items|] == items;
      err := None;
    }
  }

  // ---------------------------------------------------------------------------
  // discover

  /** `extras + [os.environ.get('GOESBROWSE'), '~/.goesbrowse.toml']`. */
  function Candidates(extras: seq<string>, envVar: Option<string>): (r: seq<Option<string>>)
    ensures |r| == |extras| + 2
    ensures forall i :: 0 <= i < |extras| ==> r[i] == Some(extras[i])
    ensures r[|extras|] == envVar && r[|extras| + 1] == Some("~/.goesbrowse.toml")
  {
    seq(|extras|, i requires 0 <= i < |extras| => Some(extras[i])) + [envVar, Some("~/.goesbrowse.toml")]
  }

  /** A candidate `discover` keeps: truthy, and existing once expanded. */
  predicate Usable(env: Env, p: Option<string>)
  {
    p.Some? && p.value != "" && env.expand(p.value) in env.existing
  }

  /** The two comprehensions of `discover`: usable candidates, expanded, in order. */
  function Survivors(env: Env, raw: seq<Option<string>>): (r: seq<string>)
    ensures forall i :: 0 <= i < |r| ==> r[i] in env.existing
    ensures r == [] <==> forall j :: 0 <= j < |raw| ==> !Usable(env, raw[j])
    ensures forall j :: (0 <= j < |raw| && Usable(env, raw[j]) && forall i :: 0 <= i < j ==> !Usable(env, raw[i])) ==>
      r[0] == env.expand(raw[j].value)
  {
    if raw == [] then []
    else
      var rest := Survivors(env, raw[1..]);
      assert forall j :: 1 <= j < |raw| ==> raw[1..][j - 1] == raw[j];
      if Usable(env, raw[0]) then [env.expand(raw[0].value)] + rest else rest
  }

  /**
   * `discover(extras)`: a new `Config` loaded from the first usable
   * candidate, or `NoConfig` when there is none.
   */
  method Discover(env: Env, extras: seq<string>, envVar: Option<string>, fuel: nat) returns (r: Result<Config, ConfigError>)
    ensures var paths := Survivors(env, Candidates(extras, envVar));
      && (paths == [] ==> r == Err(NoConfig))
      && (paths != [] ==> var spec := Load(env, paths[0], Default, fuel);
           && (r.Ok? <==> spec.Ok?)
           && (r.Ok? ==> r.value.Snapshot() == spec.value)
           && (r.Err? ==> r.error == spec.error))
  {
    var paths := Survivors(env, Candidates(extras, envVar));
    if paths == [] {
      return Err(NoConfig);
    }
    var c := new Config();
    var err := c.LoadFile(paths[0], env, fuel);
    if err.Some? {
      return Err(err.value);
    }
    r := Ok(c);
  }

  /**
   * The environment variable is consulted only when no extra path is
   * usable, and the home file only when neither is.
   */
  lemma DiscoverOrder(env: Env, extras: seq<string>, envVar: Option<string>)
    requires forall i :: 0 <= i < |extras| ==> !Usable(env, Some(extras[i]))
    ensures Usable(env, envVar) ==> Survivors(env, Candidates(extras, envVar))[0] == env.expand(envVar.value)
    ensures !Usable(env, envVar) && Usable(env, Some("~/.goesbrowse.toml")) ==>
      Survivors(env, Candidates(extras, envVar))[0] == env.expand("~/.goesbrowse.toml")
    ensures !Usable(env, envVar) && !Usable(env, Some("~/.goesbrowse.toml")) ==>
      Survivors(env, Candidates(extras, envVar)) == []
  {
    var raw := Candidates(extras, envVar);
    assert forall i :: 0 <= i < |extras| ==> !Usable(env, raw[i]);
  }
}
