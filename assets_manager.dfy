/** Gene-set assets: every `.txt` file under the assets directory becomes a
    named list of gene symbols, one per non-blank line. */
module Assets {
  import opened Wrappers
  import opened PyStr

  /** A file met by the directory walk: its name, and its text split into
      lines as `for line in f` yields them (line ends included), or `None`
      when reading it raises `UnicodeDecodeError`. */
  datatype AssetFile = AssetFile(name: string, lines: Option<seq<string>>)

  /** One `(root, dirs, files)` triple of `os.walk`; the sub-directory names
      play no part in what is loaded. */
  datatype WalkStep = WalkStep(root: string, files: seq<AssetFile>)

  /** Why `setattr(self, name, lines)` fails; nothing catches either. */
  datatype AssetError =
    | ReadOnlyAttribute(name: string)   // AttributeError: the property `all_assets`, the slot `__weakref__`
    | WrongAttributeType(name: string)  // TypeError: `__dict__` needs a dict, `__class__` a class

  /** The attribute names `setattr` refuses a list for. */
  const Unsettable: set<string> := {"all_assets", "__weakref__", "__dict__", "__class__"}

  /** The error `setattr` raises when a list is stored under `n`, if any. */
  function SetAttrError(n: string): (e: Option<AssetError>)
    ensures e.Some? <==> n in Unsettable
    ensures e.Some? ==> e.value.name == n
    ensures e.Some? ==> (e.value.ReadOnlyAttribute? <==> n == "all_assets" || n == "__weakref__")
  {
    if n == "all_assets" || n == "__weakref__" then Some(ReadOnlyAttribute(n))
    else if n == "__dict__" || n == "__class__" then Some(WrongAttributeType(n))
    else None
  }

  /** Only files ending in ".txt" whose names do not start with "._" (the
      resource-fork files some systems leave beside copies) are assets. */
  function IsAssetFile(name: string): (b: bool)
    ensures b <==> |name| >= 4 && name[|name| - 4..] == ".txt" && !(|name| >= 2 && name[..2] == "._")
  {
    EndsWith(name, ".txt") && !StartsWith(name, "._")
  }

  /** The attribute name of an asset file: the name minus its last four
      characters, with every '-' turned into '_'. */
  function AttrName(name: string): (r: string)
    requires EndsWith(name, ".txt")
    ensures |r| == |name| - 4
    ensures '-' !in r
    ensures forall k :: 0 <= k < |r| ==> r[k] == (if name[k] == '-' then '_' else name[k])
  {
    ReplaceChar(name[..|name| - 4], '-', '_')
  }

  /** A stem without hyphens is its own attribute name. */
  lemma AttrNameOfStem(stem: string)
    requires '-' !in stem
    ensures EndsWith(stem + ".txt", ".txt")
    ensures AttrName(stem + ".txt") == stem
  {
    var name := stem + ".txt";
    assert name[|name| - 4..] == ".txt";
    assert name[..|name| - 4] == stem;
  }

  /** What one line contributes: its stripped text, unless it is blank. */
  function Cleaned(line: string): (r: seq<string>)
    ensures |r| <= 1
  {
    if Strip(line) != "" then [Strip(line)] else []
  }

  /** A blank line contributes nothing; any other line its stripped text,
      which is non-empty and stripped already. */
  lemma CleanedSpec(line: string)
    ensures Cleaned(line) == [] <==> AllSpace(line)
    ensures Cleaned(line) != [] ==> Cleaned(line) == [Strip(line)] && Strip(line) != "" && Strip(Strip(line)) == Strip(line)
  {
    StripSpec(line);
    StripIdempotent(line);
  }

  /** The list stored for a file: each line stripped, blank lines dropped. */
  function LineList(lines: seq<string>): (r: seq<string>)
    ensures |r| <= |lines|
  {
    if lines == [] then [] else Cleaned(lines[0]) + LineList(lines[1..])
  }

  /** Every stored entry is non-empty and already stripped. */
  lemma {:induction false} LineListClean(lines: seq<string>)
    ensures forall k :: 0 <= k < |LineList(lines)| ==> LineList(lines)[k] != "" && Strip(LineList(lines)[k]) == LineList(lines)[k]
  {
    if lines != [] {
      LineListClean(lines[1..]);
      var h, r := Cleaned(lines[0]), LineList(lines[1..]);
      CleanedSpec(lines[0]);
      assert LineList(lines) == h + r;
      forall k | 0 <= k < |h + r|
        ensures (h + r)[k] != "" && Strip((h + r)[k]) == (h + r)[k]
      {
        if k >= |h| {
          assert (h + r)[k] == r[k - |h|];
        }
      }
    }
  }

  /** A single line contributes its stripped text, unless it is blank. */
  lemma LineListSingle(line: string)
    ensures LineList([line]) == if AllSpace(line) then [] else [Strip(line)]
  {
    assert [line][1..] == [];
    assert LineList([line]) == Cleaned(line) + LineList([]);
    CleanedSpec(line);
  }

  /** Lines are processed independently and in order. */
  lemma {:induction false} LineListConcat(a: seq<string>, b: seq<string>)
    ensures LineList(a + b) == LineList(a) + LineList(b)
  {
    if a == [] {
      assert a + b == b;
    } else {
      var h := Cleaned(a[0]);
      var ab := a + b;
      assert ab[0] == a[0];
      assert ab[1..] == a[1..] + b;
      LineListConcat(a[1..], b);
      calc {
        LineList(ab);
        h + LineList(a[1..] + b);
        h + (LineList(a[1..]) + LineList(b));
        (h + LineList(a[1..])) + LineList(b);
        LineList(a) + LineList(b);
      }
    }
  }

  /** All files of the walk, in the order they are visited. */
  function Files(walk: seq<WalkStep>): seq<AssetFile>
  {
    if walk == [] then [] else Files(walk[..|walk| - 1]) + walk[|walk| - 1].files
  }

  /** Every file of every directory of the walk is visited, and nothing else. */
  lemma {:induction false} FilesEach(walk: seq<WalkStep>)
    ensures forall i, j :: 0 <= i < |walk| && 0 <= j < |walk[i].files| ==> walk[i].files[j] in Files(walk)
    ensures forall f :: f in Files(walk) ==> exists i :: 0 <= i < |walk| && f in walk[i].files
  {
    if walk != [] {
      var n := |walk| - 1;
      FilesEach(walk[..n]);
      assert forall i :: 0 <= i < n ==> walk[..n][i] == walk[i];
    }
  }

  lemma {:induction false} FilesConcat(a: seq<WalkStep>, b: seq<WalkStep>)
    ensures Files(a + b) == Files(a) + Files(b)
    decreases |b|
  {
    if b == [] {
      assert a + b == a;
    } else {
      assert (a + b)[..|a + b| - 1] == a + b[..|b| - 1];
      FilesConcat(a, b[..|b| - 1]);
    }
  }

  /** The effect of visiting one file on the loaded attributes. */
  function Visit(attrs: map<string, seq<string>>, f: AssetFile): (r: Result<map<string, seq<string>>, AssetError>)
    ensures r.Err? ==> r.error.name in Unsettable
    ensures r.Ok? ==> attrs.Keys <= r.value.Keys
  {
    if !IsAssetFile(f.name) then Ok(attrs)
    else
      match f.lines
      case None => Ok(attrs)
      case Some(ls) =>
        var n := AttrName(f.name);
        match SetAttrError(n)
        case Some(e) => Err(e)
        case None => Ok(attrs[n := LineList(ls)])
  }

  /** A file that is not an asset or cannot be decoded changes nothing; an
      asset file stores its line list under its attribute name and leaves
      every other name as it was, unless `setattr` refuses that name. */
  lemma VisitSpec(attrs: map<string, seq<string>>, f: AssetFile)
    ensures !IsAssetFile(f.name) || f.lines.None? ==> Visit(attrs, f) == Ok(attrs)
    ensures IsAssetFile(f.name) && f.lines.Some? ==>
              var n := AttrName(f.name);
              var r := Visit(attrs, f);
              && (r.Err? <==> n in Unsettable)
              && (r.Err? ==> r.error == SetAttrError(n).value)
              && (r.Ok? ==>
                    && r.value.Keys == attrs.Keys + {n}
                    && r.value[n] == LineList(f.lines.value)
                    && forall k :: k in attrs && k != n ==> r.value[k] == attrs[k])
  {
  }

  /** Line 24's hyphen replacement can reach a refused name: `--dict--.txt`
      maps to `__dict__`, and storing a list there raises `TypeError`. */
  lemma HyphenatedDunderFails(attrs: map<string, seq<string>>, ls: seq<string>)
    ensures Visit(attrs, AssetFile("--dict--.txt", Some(ls))) == Err(WrongAttributeType("__dict__"))
  {
    var name := "--dict--.txt";
    assert name[|name| - 4..] == ".txt";
    assert name[..2][0] == '-';
    var n := AttrName(name);
    assert forall k :: 0 <= k < |n| ==> n[k] == "__dict__"[k];
    assert n == "__dict__";
  }

  /** Visiting `files` in order, starting from `attrs`; the first error stops. */
  function VisitAll(attrs: map<string, seq<string>>, files: seq<AssetFile>): (r: Result<map<string, seq<string>>, AssetError>)
    ensures r.Err? ==> r.error.name in Unsettable
    ensures r.Ok? ==> attrs.Keys <= r.value.Keys
    decreases |files|
  {
    if files == [] then Ok(attrs)
    else
      match VisitAll(attrs, files[..|files| - 1])
      case Err(e) => Err(e)
      case Ok(m) => Visit(m, files[|files| - 1])
  }

  lemma {:induction false} VisitAllErrExtends(attrs: map<string, seq<string>>, a: seq<AssetFile>, b: seq<AssetFile>)
    requires VisitAll(attrs, a).Err?
    ensures VisitAll(attrs, a + b) == VisitAll(attrs, a)
    decreases |b|
  {
    if b == [] {
      assert a + b == a;
    } else {
      assert (a + b)[..|a + b| - 1] == a + b[..|b| - 1];
      VisitAllErrExtends(attrs, a, b[..|b| - 1]);
    }
  }

  lemma VisitAllSnoc(attrs: map<string, seq<string>>, xs: seq<AssetFile>, f: AssetFile)
    ensures VisitAll(attrs, xs + [f]) ==
              if VisitAll(attrs, xs).Err? then VisitAll(attrs, xs) else Visit(VisitAll(attrs, xs).value, f)
  {
    assert (xs + [f])[..|xs + [f]| - 1] == xs;
  }

  /** One more file visited without error. */
  lemma StepOk(attrs: map<string, seq<string>>, done: seq<AssetFile>, files: seq<AssetFile>, j: nat,
               m: map<string, seq<string>>)
    requires j < |files|
    requires VisitAll(attrs, done + files[..j]) == Ok(m)
    requires Visit(m, files[j]).Ok?
    ensures VisitAll(attrs, done + files[..j + 1]) == Visit(m, files[j])
  {
    VisitAllSnoc(attrs, done + files[..j], files[j]);
    assert done + files[..j + 1] == done + files[..j] + [files[j]];
  }

  /** The files of the first `i + 1` directories. */
  lemma NextDir(walk: seq<WalkStep>, i: nat)
    requires i < |walk|
    ensures Files(walk[..i + 1]) == Files(walk[..i]) + walk[i].files
  {
    assert walk[..i + 1][..i] == walk[..i];
  }

  lemma FilesSingle(w: WalkStep)
    ensures Files([w]) == w.files
  {
    assert [w][..0] == [];
  }

  /** The walk's files, cut just after file `j` of directory `i`. */
  lemma FilesSplitAt(walk: seq<WalkStep>, i: nat, j: nat)
    requires i < |walk| && j < |walk[i].files|
    ensures Files(walk) == (Files(walk[..i]) + walk[i].files[..j + 1]) + (walk[i].files[j + 1..] + Files(walk[i + 1..]))
  {
    var files := walk[i].files;
    var before, after := walk[..i], walk[i + 1..];
    assert walk == before + ([walk[i]] + after);
    FilesConcat(before, [walk[i]] + after);
    FilesConcat([walk[i]], after);
    FilesSingle(walk[i]);
    assert Files(walk) == Files(before) + (files + Files(after));
    assert files == files[..j + 1] + files[j + 1..];
  }

  /** When file `j` of directory `i` is the first to fail, loading the whole
      walk fails with its error, and the attributes are those loaded before it. */
  lemma StopsAt(attrs: map<string, seq<string>>, walk: seq<WalkStep>, i: nat, j: nat, m: map<string, seq<string>>)
    requires i < |walk| && j < |walk[i].files|
    requires VisitAll(attrs, Files(walk[..i]) + walk[i].files[..j]) == Ok(m)
    requires Visit(m, walk[i].files[j]).Err?
    ensures VisitAll(attrs, Files(walk)) == Visit(m, walk[i].files[j])
    ensures exists k :: 0 <= k < |Files(walk)| && VisitAll(attrs, Files(walk)[..k]) == Ok(m) &&
                        Visit(m, Files(walk)[k]).Err?
  {
    var done, files := Files(walk[..i]), walk[i].files;
    VisitAllSnoc(attrs, done + files[..j], files[j]);
    assert done + files[..j + 1] == done + files[..j] + [files[j]];
    FilesSplitAt(walk, i, j);
    VisitAllErrExtends(attrs, done + files[..j + 1], files[j + 1..] + Files(walk[i + 1..]));
    var k := |done| + j;
    assert Files(walk)[..k] == done + files[..j] && Files(walk)[k] == files[j];
  }

  /** A file whose contents end up under attribute `n`. */
  predicate LoadsInto(f: AssetFile, n: string)
  {
    IsAssetFile(f.name) && f.lines.Some? && AttrName(f.name) == n
  }

  /** A readable asset file whose attribute name `setattr` refuses. */
  predicate Unloadable(f: AssetFile)
  {
    IsAssetFile(f.name) && f.lines.Some? && AttrName(f.name) in Unsettable
  }

  /** Loading fails exactly when some readable asset file maps to a name
      `setattr` refuses. */
  lemma {:induction false} VisitAllFails(attrs: map<string, seq<string>>, files: seq<AssetFile>)
    ensures VisitAll(attrs, files).Err? <==>
              exists k :: 0 <= k < |files| && Unloadable(files[k])
    decreases |files|
  {
    if files != [] {
      var init, last := files[..|files| - 1], files[|files| - 1];
      VisitAllFails(attrs, init);
      assert files == init + [last];
      VisitAllSnoc(attrs, init, last);
      if VisitAll(attrs, init).Ok? {
        assert Visit(VisitAll(attrs, init).value, last).Err? <==> Unloadable(last);
      }
      if exists k :: 0 <= k < |files| && Unloadable(files[k]) {
        var k :| 0 <= k < |files| && Unloadable(files[k]);
        if k < |init| {
          assert Unloadable(init[k]);
        }
      }
      if exists k :: 0 <= k < |init| && Unloadable(init[k]) {
        var k :| 0 <= k < |init| && Unloadable(init[k]);
        assert files[k] == init[k];
      }
    }
  }

  /** The lines of the last file of `files` that loads into `n`, if any. */
  function LastLoaded(files: seq<AssetFile>, n: string): Option<seq<string>>
    decreases |files|
  {
    if files == [] then None
    else
      var f := files[|files| - 1];
      if LoadsInto(f, n) then Some(LineList(f.lines.value)) else LastLoaded(files[..|files| - 1], n)
  }

  /** Files that map to the same attribute overwrite one another; the last one
      visited wins, and attributes no file maps to keep their old values. */
  lemma {:induction false} VisitAllLastWins(attrs: map<string, seq<string>>, files: seq<AssetFile>, n: string)
    requires VisitAll(attrs, files).Ok?
    ensures LastLoaded(files, n).Some? ==>
              n in VisitAll(attrs, files).value && VisitAll(attrs, files).value[n] == LastLoaded(files, n).value
    ensures LastLoaded(files, n).None? ==>
              (n in VisitAll(attrs, files).value <==> n in attrs) &&
              (n in attrs ==> VisitAll(attrs, files).value[n] == attrs[n])
    decreases |files|
  {
    if files != [] {
      VisitAllLastWins(attrs, files[..|files| - 1], n);
    }
  }

  /** Names that `all_assets` reports: no leading underscore, and neither the
      directory attribute nor the listing property itself. */
  predicate Listed(n: string)
  {
    !StartsWith(n, "_") && n != "assets_dir" && n != "_load_assets" && n != "all_assets"
  }

  /** The asset manager. `assets` holds the attributes `_load_assets` sets on
      the object; the walk of the directory is given as an input. */
  class AssetsManager {
    const assetsDir: string
    var assets: map<string, seq<string>>

    constructor Init(assetsDir: string)
      ensures this.assetsDir == assetsDir && assets == map[]
    {
      this.assetsDir := assetsDir;
      assets := map[];
    }

    /** `all_assets`: the loaded attribute names that are listed, in the
        sorted order `dir` returns them. */
    function AllAssets(): (r: seq<string>)
      reads this
      ensures StrictlyIncreasing(r)
      ensures forall n :: n in r <==> n in assets && Listed(n)
      ensures forall k :: 0 <= k < |r| ==> !StartsWith(r[k], "_") && r[k] != "assets_dir" && r[k] != "all_assets"
    {
      var s := set n | n in assets && Listed(n);
      var r := Sorted(s);
      assert forall k :: 0 <= k < |r| ==> Listed(r[k]) by {
        forall k | 0 <= k < |r| ensures Listed(r[k]) {
          assert r[k] in r;
          assert r[k] in s;
        }
      }
      r
    }

    /** One file of the walk: an asset file that can be decoded is stored
        under its attribute name, unless `setattr` refuses that name. */
    method VisitFile(f: AssetFile) returns (res: Outcome<AssetError>)
      modifies this
      ensures Visit(old(assets), f).Ok? ==> res == Pass && assets == Visit(old(assets), f).value
      ensures Visit(old(assets), f).Err? ==> res == Fail(Visit(old(assets), f).error) && assets == old(assets)
    {
      res := Pass;
      if IsAssetFile(f.name) {
        match f.lines {
          case None =>
          case Some(ls) =>
            var n := AttrName(f.name);
            var e := SetAttrError(n);
            if e.Some? {
              return Fail(e.value);
            }
            assets := assets[n := LineList(ls)];
        }
      }
    }

    /** `_load_assets`: visits every file of every directory of the walk and
        stores the cleaned lines of each asset file under its attribute name. */
    method LoadAssets(walk: seq<WalkStep>) returns (res: Outcome<AssetError>)
      modifies this
      ensures VisitAll(old(assets), Files(walk)).Ok? ==>
                res == Pass && assets == VisitAll(old(assets), Files(walk)).value
      ensures VisitAll(old(assets), Files(walk)).Err? ==>
                && res == Fail(VisitAll(old(assets), Files(walk)).error)
                && exists k :: 0 <= k < |Files(walk)| && VisitAll(old(assets), Files(walk)[..k]) == Ok(assets) &&
                                Visit(assets, Files(walk)[k]).Err?
    {
      var i := 0;
      while i < |walk|
        invariant 0 <= i <= |walk|
        invariant VisitAll(old(assets), Files(walk[..i])) == Ok(assets)
      {
        var files := walk[i].files;
        var done := Files(walk[..i]);
        var j := 0;
        assert done + files[..j] == done;
        while j < |files|
          invariant 0 <= j <= |files|
          invariant VisitAll(old(assets), done + files[..j]) == Ok(assets)
        {
          ghost var before := assets;
          var r := VisitFile(files[j]);
          if r.Fail? {
            StopsAt(old(assets), walk, i, j, before);
            return r;
          }
          StepOk(old(assets), done, files, j, before);
          j := j + 1;
        }
        NextDir(walk, i);
        assert files[..j] == files;
        i := i + 1;
      }
      assert walk[..i] == walk;
      res := Pass;
    }

    /** `AssetsManager(assets_dir)`: records the directory, then loads. */
    static method Create(assetsDir: string, walk: seq<WalkStep>) returns (r: Result<AssetsManager, AssetError>)
      ensures VisitAll(map[], Files(walk)).Ok? ==>
                r.Ok? && fresh(r.value) && r.value.assetsDir == assetsDir &&
                r.value.assets == VisitAll(map[], Files(walk)).value
      ensures VisitAll(map[], Files(walk)).Err? ==> r == Err(VisitAll(map[], Files(walk)).error)
    {
      var m := new AssetsManager.Init(assetsDir);
      var res := m.LoadAssets(walk);
      if res.Fail? {
        return Err(res.error);
      }
      r := Ok(m);
    }
  }
}
