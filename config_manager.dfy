/** The project configuration: a JSON document whose `data`, `plotting` and
    `plots` sections are exposed with every "./"-relative path string
    rebased onto the project root (the parent of the configuration
    directory). */
module Configs {
  import opened Wrappers
  import opened PyStr

  /** A value produced by `json.load`. Objects are maps (the insertion order
      of Python dicts is not modelled); numbers are reals. */
  datatype Json =
    | JString(s: string)
    | JDict(entries: map<string, Json>)
    | JList(items: seq<Json>)
    | JNumber(n: real)
    | JBool(b: bool)
    | JNull

  /** The three sections the manager exposes, in the order it loads them. */
  const SectionKeys: seq<string> := ["data", "plotting", "plots"]

  /** What `_load_data_configs` raises: indexing a document that is not an
      object (`TypeError`), a missing section (`KeyError`), or a section that
      is not an object and so has no `.items()` (`AttributeError`). */
  datatype ConfigError =
    | NotSubscriptable
    | MissingSection(key: string)
    | SectionNotADict(key: string)

  /** Length of the part of `p` up to and including its last '/'
      (0 when `p` has none), as `p.rfind('/') + 1`. */
  function AfterLastSlash(p: string): (i: nat)
    ensures i <= |p|
    ensures '/' !in p[i..]
    ensures i > 0 ==> p[i - 1] == '/'
  {
    if |p| == 0 then 0
    else if p[|p| - 1] == '/' then |p|
    else
      var i := AfterLastSlash(p[..|p| - 1]);
      assert p[i..] == p[..|p| - 1][i..] + [p[|p| - 1]];
      i
  }

  /** `s.rstrip('/')`. */
  function RStripSlash(s: string): (r: string)
    ensures StartsWith(s, r)
    ensures r == [] || r[|r| - 1] != '/'
    ensures forall k :: |r| <= k < |s| ==> s[k] == '/'
  {
    if |s| > 0 && s[|s| - 1] == '/' then RStripSlash(s[..|s| - 1]) else s
  }

  predicate AllSlashes(s: string)
  {
    forall k :: 0 <= k < |s| ==> s[k] == '/'
  }

  /** `os.path.dirname(p)` on POSIX: everything before the last '/', with
      trailing slashes removed unless the head consists of slashes only. */
  function Dirname(p: string): (d: string)
    ensures StartsWith(p, d)
    ensures '/' !in p ==> d == ""
    ensures d != [] && !AllSlashes(d) ==> d[|d| - 1] != '/'
    ensures var head := p[..AfterLastSlash(p)];
            && (AllSlashes(head) ==> d == head)
            && (!AllSlashes(head) ==>
                  d != [] && d[|d| - 1] != '/' && StartsWith(head, d) && AllSlashes(head[|d|..]))
  {
    var head := p[..AfterLastSlash(p)];
    if head != [] && !AllSlashes(head) then RStripSlash(head) else head
  }

  /** `os.path.join(a, b)` on POSIX: an absolute `b` replaces `a`; otherwise
      `b` is appended, after a '/' unless `a` is empty or already ends in one. */
  function PathJoin(a: string, b: string): (r: string)
    ensures StartsWith(b, "/") ==> r == b
    ensures !StartsWith(b, "/") ==> StartsWith(r, a) && EndsWith(r, b)
    ensures !StartsWith(b, "/") && a != [] && a[|a| - 1] != '/' ==> r == a + "/" + b
    ensures !StartsWith(b, "/") && (a == [] || a[|a| - 1] == '/') ==> r == a + b
  {
    if StartsWith(b, "/") then b
    else if a == [] || a[|a| - 1] == '/' then a + b
    else a + "/" + b
  }

  /** The string case of `_to_absolute_path`. */
  function ResolveString(basePath: string, s: string): (r: string)
    ensures !StartsWith(s, "./") ==> r == s
    ensures StartsWith(s, "./") ==> r == PathJoin(Dirname(basePath), s[2..])
  {
    if StartsWith(s, "./") then PathJoin(Dirname(basePath), s[2..]) else s
  }

  /** `_to_absolute_path`: objects are rewritten entry by entry, strings that
      begin with "./" are rebased, everything else (lists included) is
      returned as it is. */
  function Resolve(basePath: string, item: Json): (r: Json)
    ensures r.JDict? <==> item.JDict?
    ensures r.JString? <==> item.JString?
    ensures item.JDict? ==> r.entries.Keys == item.entries.Keys
    ensures !item.JDict? && !item.JString? ==> r == item
  {
    match item
    case JDict(m) => JDict(map k | k in m :: Resolve(basePath, m[k]))
    case JString(s) => JString(ResolveString(basePath, s))
    case _ => item
  }

  /** An object keeps exactly its keys, each value resolved in turn. */
  lemma ResolveDict(basePath: string, m: map<string, Json>)
    ensures Resolve(basePath, JDict(m)).entries.Keys == m.Keys
    ensures forall k :: k in m ==> Resolve(basePath, JDict(m)).entries[k] == Resolve(basePath, m[k])
  {
  }

  /** A "./"-prefixed string is joined onto the parent of the base path. */
  lemma ResolveRelative(basePath: string, rest: string)
    ensures Resolve(basePath, JString("./" + rest)) == JString(PathJoin(Dirname(basePath), rest))
  {
    assert ("./" + rest)[..2] == "./";
    assert ("./" + rest)[2..] == rest;
  }

  /** The tree with every string blanked out: what resolution must preserve. */
  function Shape(item: Json): Json
  {
    match item
    case JDict(m) => JDict(map k | k in m :: Shape(m[k]))
    case JString(_) => JString("")
    case _ => item
  }

  /** Resolution preserves the nesting structure of the document. */
  lemma {:induction false} ResolvePreservesShape(basePath: string, item: Json)
    ensures Shape(Resolve(basePath, item)) == Shape(item)
  {
    match item
    case JDict(m) =>
      forall k | k in m
        ensures Shape(Resolve(basePath, m[k])) == Shape(m[k])
      {
        ResolvePreservesShape(basePath, m[k]);
      }
      assert Shape(Resolve(basePath, item)).entries == Shape(item).entries;
    case JString(_) =>
    case _ =>
  }

  /** No string anywhere in the tree (outside lists) starts with "./". */
  predicate NoRelative(item: Json)
  {
    match item
    case JDict(m) => forall k :: k in m ==> NoRelative(m[k])
    case JString(s) => !StartsWith(s, "./")
    case _ => true
  }

  /** A tree without "./" strings is left exactly as it is. */
  lemma {:induction false} ResolveNoRelative(basePath: string, item: Json)
    requires NoRelative(item)
    ensures Resolve(basePath, item) == item
  {
    match item
    case JDict(m) =>
      forall k | k in m
        ensures Resolve(basePath, m[k]) == m[k]
      {
        ResolveNoRelative(basePath, m[k]);
      }
      assert Resolve(basePath, item).entries == m;
    case JString(_) =>
    case _ =>
  }

  /** Rebasing one string, then rebasing the result again, changes nothing
      further as long as the project root is non-empty and not itself
      "./"-relative: a root of "." reproduces the same "./" string, any
      other root yields a string that no longer starts with "./". */
  lemma ResolveStringIdempotent(basePath: string, s: string)
    requires Dirname(basePath) != "" && !StartsWith(Dirname(basePath), "./")
    ensures ResolveString(basePath, ResolveString(basePath, s)) == ResolveString(basePath, s)
  {
    var d := Dirname(basePath);
    if StartsWith(s, "./") {
      var rest := s[2..];
      var t := PathJoin(d, rest);
      if StartsWith(rest, "/") {
        assert t == rest && t[0] == '/';
      } else if d[|d| - 1] == '/' {
        assert AllSlashes(d);
        assert t == d + rest && t[0] == d[0];
      } else {
        JoinedOntoRoot(d, rest);
      }
    }
  }

  /** `d + "/" + rest` for a root `d` that is not "./"-relative starts with
      "./" only when `d` is ".", and then rebasing it again reproduces it. */
  lemma JoinedOntoRoot(d: string, rest: string)
    requires d != "" && !StartsWith(d, "./") && d[|d| - 1] != '/' && !StartsWith(rest, "/")
    ensures var t := d + "/" + rest;
            StartsWith(t, "./") ==> PathJoin(d, t[2..]) == t
  {
    var t := d + "/" + rest;
    if StartsWith(t, "./") {
      assert t[0] == d[0] == '.';
      assert d == ".";
      assert t[2..] == rest;
    }
  }

  /** With an empty project root the rewrite is not idempotent:
      "././x" becomes "./x" and then "x". */
  lemma ResolveStringEmptyRootNotIdempotent()
    ensures Dirname("config.json") == ""
    ensures ResolveString("config.json", "././x") == "./x"
    ensures ResolveString("config.json", "./x") == "x"
  {
    assert '/' !in "config.json";
    assert "././x"[..2] == "./";
    assert "././x"[2..] == "./x";
    assert "./x"[..2] == "./";
    assert "./x"[2..] == "x";
  }

  /** Re-resolving an already resolved tree is a no-op under the same
      condition on the project root. */
  lemma {:induction false} ResolveIdempotent(basePath: string, item: Json)
    requires Dirname(basePath) != "" && !StartsWith(Dirname(basePath), "./")
    ensures Resolve(basePath, Resolve(basePath, item)) == Resolve(basePath, item)
  {
    match item
    case JDict(m) =>
      forall k | k in m
        ensures Resolve(basePath, Resolve(basePath, m[k])) == Resolve(basePath, m[k])
      {
        ResolveIdempotent(basePath, m[k]);
      }
      assert Resolve(basePath, Resolve(basePath, item)).entries == Resolve(basePath, item).entries;
    case JString(s) =>
      ResolveStringIdempotent(basePath, s);
    case _ =>
  }

  /** `_load_data_configs(key)`: the section `key` of the document, each of
      its entries resolved. */
  function LoadDataConfigs(basePath: string, config: Json, key: string): (r: Result<map<string, Json>, ConfigError>)
    ensures !config.JDict? <==> r == Err(NotSubscriptable)
    ensures config.JDict? && key !in config.entries <==> r == Err(MissingSection(key))
    ensures (config.JDict? && key in config.entries && !config.entries[key].JDict?)
            <==> r == Err(SectionNotADict(key))
    ensures r.Ok? ==> r.value.Keys == config.entries[key].entries.Keys
    ensures r.Ok? ==> forall k :: k in r.value ==> r.value[k] == Resolve(basePath, config.entries[key].entries[k])
  {
    if !config.JDict? then Err(NotSubscriptable)
    else if key !in config.entries then Err(MissingSection(key))
    else if !config.entries[key].JDict? then Err(SectionNotADict(key))
    else
      var section := config.entries[key].entries;
      Ok(map k | k in section :: Resolve(basePath, section[k]))
  }

  /** A loaded section is the resolved section object. */
  lemma LoadDataConfigsIsResolve(basePath: string, config: Json, key: string)
    requires LoadDataConfigs(basePath, config, key).Ok?
    ensures JDict(LoadDataConfigs(basePath, config, key).value) == Resolve(basePath, config.entries[key])
  {
  }

  /** The sections `keys`, loaded in order; the first failure wins. */
  function LoadAll(basePath: string, config: Json, keys: seq<string>): (r: Result<map<string, map<string, Json>>, ConfigError>)
    ensures r.Ok? ==> forall k :: k in r.value <==> k in keys
    decreases |keys|
  {
    if keys == [] then Ok(map[])
    else
      match LoadAll(basePath, config, keys[..|keys| - 1])
      case Err(e) => Err(e)
      case Ok(prev) =>
        match LoadDataConfigs(basePath, config, keys[|keys| - 1])
        case Err(e) => Err(e)
        case Ok(v) => Ok(prev[keys[|keys| - 1] := v])
  }

  /** Once a prefix of the keys fails, loading all of them fails the same way. */
  lemma {:induction false} LoadAllPrefixErr(basePath: string, config: Json, keys: seq<string>, j: nat)
    requires j <= |keys|
    requires LoadAll(basePath, config, keys[..j]).Err?
    ensures LoadAll(basePath, config, keys) == LoadAll(basePath, config, keys[..j])
    decreases |keys| - j
  {
    if j < |keys| {
      assert keys[..j + 1][..j] == keys[..j];
      LoadAllPrefixErr(basePath, config, keys, j + 1);
    } else {
      assert keys[..j] == keys;
    }
  }

  /** Loading succeeds exactly when every section loads, and then exposes
      exactly those sections, each as `_load_data_configs` gives it. */
  lemma {:induction false} LoadAllSpec(basePath: string, config: Json, keys: seq<string>)
    ensures LoadAll(basePath, config, keys).Ok? <==>
              forall i :: 0 <= i < |keys| ==> LoadDataConfigs(basePath, config, keys[i]).Ok?
    ensures LoadAll(basePath, config, keys).Ok? ==>
              && LoadAll(basePath, config, keys).value.Keys == (set k | k in keys)
              && forall i :: 0 <= i < |keys| ==>
                   LoadAll(basePath, config, keys).value[keys[i]] == LoadDataConfigs(basePath, config, keys[i]).value
    decreases |keys|
  {
    if keys != [] {
      var init := keys[..|keys| - 1];
      var last := keys[|keys| - 1];
      LoadAllSpec(basePath, config, init);
      assert keys == init + [last];
      assert forall i :: 0 <= i < |init| ==> init[i] == keys[i];
      assert (set k | k in keys) == (set k | k in init) + {last};
      if !LoadAll(basePath, config, keys).Ok? {
        if LoadAll(basePath, config, init).Ok? {
          assert !LoadDataConfigs(basePath, config, keys[|keys| - 1]).Ok?;
        } else {
          var i :| 0 <= i < |init| && !LoadDataConfigs(basePath, config, init[i]).Ok?;
          assert !LoadDataConfigs(basePath, config, keys[i]).Ok?;
        }
      }
    }
  }

  /** The configuration manager: a base path, the parsed document, and the
      sections set as attributes by the constructor. Reading `config.json`
      from disk is outside the model: the parsed document is the input. */
  class ConfigManager {
    const basePath: string
    const config: Json
    var sections: map<string, map<string, Json>>

    constructor Init(basePath: string, config: Json)
      ensures this.basePath == basePath && this.config == config
      ensures sections == map[]
    {
      this.basePath := basePath;
      this.config := config;
      sections := map[];
    }

    /** `ConfigManager(base_path, ...)`: builds the manager and sets the
        three sections in order, one `setattr` per key; any failing section
        aborts construction. */
    static method Create(basePath: string, config: Json) returns (r: Result<ConfigManager, ConfigError>)
      ensures LoadAll(basePath, config, SectionKeys).Err? ==>
                r == Err(LoadAll(basePath, config, SectionKeys).error)
      ensures LoadAll(basePath, config, SectionKeys).Ok? ==>
                && r.Ok? && fresh(r.value)
                && r.value.basePath == basePath && r.value.config == config
                && r.value.sections == LoadAll(basePath, config, SectionKeys).value
    {
      var m := new ConfigManager.Init(basePath, config);
      var i := 0;
      while i < |SectionKeys|
        invariant 0 <= i <= |SectionKeys|
        invariant LoadAll(basePath, config, SectionKeys[..i]) == Ok(m.sections)
      {
        var key := SectionKeys[i];
        var loaded := LoadDataConfigs(basePath, config, key);
        assert SectionKeys[..i + 1][..i] == SectionKeys[..i];
        if loaded.Err? {
          LoadAllPrefixErr(basePath, config, SectionKeys, i + 1);
          return Err(loaded.error);
        }
        m.sections := m.sections[key := loaded.value];
        i := i + 1;
      }
      assert SectionKeys[..i] == SectionKeys;
      r := Ok(m);
    }
  }

  /** The three sections are exposed exactly when the document has all of
      them as objects, and each is the resolved section. */
  lemma CreateSections(basePath: string, config: Json)
    ensures LoadAll(basePath, config, SectionKeys).Ok? <==>
              config.JDict? && forall k :: k in SectionKeys ==> k in config.entries && config.entries[k].JDict?
    ensures LoadAll(basePath, config, SectionKeys).Ok? ==>
              && LoadAll(basePath, config, SectionKeys).value.Keys == {"data", "plotting", "plots"}
              && forall k :: k in SectionKeys ==>
                   JDict(LoadAll(basePath, config, SectionKeys).value[k]) == Resolve(basePath, config.entries[k])
  {
    LoadAllSpec(basePath, config, SectionKeys);
    if LoadAll(basePath, config, SectionKeys).Ok? {
      assert (set k | k in SectionKeys) == {"data", "plotting", "plots"} by {
        assert SectionKeys[0] == "data" && SectionKeys[1] == "plotting" && SectionKeys[2] == "plots";
      }
    } else {
      var i :| 0 <= i < |SectionKeys| && !LoadDataConfigs(basePath, config, SectionKeys[i]).Ok?;
    }
  }
}
