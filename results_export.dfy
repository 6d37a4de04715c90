/** Writing a PAGA-path table to CSV, shared by the accessor's
    `pagapath_hmap` and the free function `plot_pagapath`: where the file
    goes, and the rule that an existing file is never overwritten. The file
    system is abstract: the set of paths that exist. */
module ResultsExport {
  import opened Wrappers
  import opened PyStr

  /** A `pathlib.Path` after parsing: whether it is absolute, and its parts
      (never empty, never ".", never containing '/'). */
  datatype FsPath = FsPath(absolute: bool, parts: seq<string>)

  /** What the save step raises. */
  datatype SaveError = FileExists(path: FsPath)

  /** The parts of a split path that `pathlib` keeps: empty parts (from
      repeated or trailing slashes) and "." parts are dropped. */
  function CleanParts(parts: seq<string>): (r: seq<string>)
    ensures |r| <= |parts|
    ensures forall k :: 0 <= k < |r| ==> r[k] != "" && r[k] != "." && r[k] in parts
  {
    if parts == [] then []
    else
      var rest := CleanParts(parts[1..]);
      if parts[0] == "" || parts[0] == "." then rest else [parts[0]] + rest
  }

  /** `Path(s)` for a POSIX path string. */
  function ParsePath(s: string): (p: FsPath)
    ensures p.absolute <==> StartsWith(s, "/")
    ensures forall k :: 0 <= k < |p.parts| ==> p.parts[k] != "" && p.parts[k] != "." && '/' !in p.parts[k]
  {
    var pieces := Split(s, '/');
    var r := CleanParts(pieces);
    assert forall k :: 0 <= k < |r| ==> '/' !in r[k] by {
      forall k | 0 <= k < |r| ensures '/' !in r[k] {
        var i :| 0 <= i < |pieces| && pieces[i] == r[k];
      }
    }
    FsPath(StartsWith(s, "/"), r)
  }

  /** `p.parent`: the path without its last part; "." and "/" are their own parents. */
  function Parent(p: FsPath): (q: FsPath)
    ensures q.absolute == p.absolute
    ensures |p.parts| > 0 ==> q.parts == p.parts[..|p.parts| - 1]
    ensures |p.parts| == 0 ==> q == p
  {
    if |p.parts| == 0 then p else FsPath(p.absolute, p.parts[..|p.parts| - 1])
  }

  /** The directories `mkdir(parents=True)` may have to create for `p`: `p`
      and each of its ancestors below the root or the working directory. */
  function Lineage(p: FsPath): (r: set<FsPath>)
    ensures forall q :: q in r <==> q.absolute == p.absolute && 1 <= |q.parts| <= |p.parts| && q.parts == p.parts[..|q.parts|]
  {
    set k | 1 <= k <= |p.parts| :: FsPath(p.absolute, p.parts[..k])
  }

  /** The file system, as the set of paths that exist. */
  class FileSystem {
    var paths: set<FsPath>

    constructor Init(paths: set<FsPath>)
      ensures this.paths == paths
    {
      this.paths := paths;
    }

    /** `p.exists()`; the working directory and the root always exist. */
    predicate Exists(p: FsPath)
      reads this
      ensures |p.parts| == 0 ==> Exists(p)
      ensures |p.parts| > 0 ==> (Exists(p) <==> p in paths)
    {
      |p.parts| == 0 || p in paths
    }

    /** `p.mkdir(parents=True)`. */
    method MakeDirs(p: FsPath)
      modifies this
      ensures paths == old(paths) + Lineage(p)
    {
      paths := paths + Lineage(p);
    }

    /** `df.to_csv(p)`: the file now exists. */
    method WriteFile(p: FsPath)
      modifies this
      ensures paths == old(paths) + {p}
    {
      paths := paths + {p};
    }
  }

  /** The directory results go to by default. */
  const ResultsDir: string := "./reports/results/"

  /** Where the table is saved: an explicit `save_path` first, else
      `./reports/results/pagapath_<name>.csv` with `name` defaulting to the
      path's node names joined by '_'. */
  function SavePathFor(nodes: seq<string>, name: Option<string>, savePath: Option<string>): (r: string)
    ensures savePath.Some? ==> r == savePath.value
    ensures savePath.None? ==>
              var stem := if name.Some? then name.value else Join(nodes, "_");
              r == ResultsDir + "pagapath_" + stem + ".csv"
  {
    match savePath
    case Some(p) => p
    case None =>
      var stem := match name { case Some(n) => n case None => Join(nodes, "_") };
      ResultsDir + "pagapath_" + stem + ".csv"
  }

  lemma JoinFour(p0: string, p1: string, p2: string, p3: string, sep: string)
    ensures Join([p0, p1, p2, p3], sep) == p0 + sep + p1 + sep + p2 + sep + p3
  {
    var ps := [p0, p1, p2, p3];
    assert ps[1..] == [p1, p2, p3] && ps[1..][1..] == [p2, p3] && ps[1..][1..][1..] == [p3];
    assert Join(ps[1..][1..][1..], sep) == p3;
    assert Join(ps[1..][1..], sep) == p2 + sep + p3;
    assert Join(ps[1..], sep) == p1 + sep + (p2 + sep + p3);
  }

  /** Four separator-free fields joined by the separator split back apart. */
  lemma SplitFour(p0: string, p1: string, p2: string, p3: string, c: char)
    requires c !in p0 && c !in p1 && c !in p2 && c !in p3
    ensures Split(p0 + [c] + p1 + [c] + p2 + [c] + p3, c) == [p0, p1, p2, p3]
  {
    var pieces := [p0, p1, p2, p3];
    JoinFour(p0, p1, p2, p3, [c]);
    SplitJoin(pieces, c);
  }

  lemma CleanPlainParts(a: string, b: string, file: string)
    requires a != "" && a != "." && b != "" && b != "." && file != "" && file != "."
    ensures CleanParts([".", a, b, file]) == [a, b, file]
  {
    assert [file][1..] == [];
    assert CleanParts([file]) == [file];
    assert [b, file][1..] == [file];
    assert CleanParts([b, file]) == [b, file];
    assert [a, b, file][1..] == [b, file];
    assert CleanParts([a, b, file]) == [a, b, file];
    assert [".", a, b, file][1..] == [a, b, file];
  }

  lemma ParsePathUnfold(s: string)
    requires |s| > 0 && s[0] != '/'
    ensures ParsePath(s) == FsPath(false, CleanParts(Split(s, '/')))
  {
  }

  /** Parts that `pathlib` keeps as they are: non-empty, not ".", no '/'. */
  predicate PlainParts(ps: seq<string>)
  {
    forall k :: 0 <= k < |ps| ==> ps[k] != "" && ps[k] != "." && '/' !in ps[k]
  }

  /** Plain parts survive cleaning unchanged. */
  lemma {:induction false} CleanPlain(ps: seq<string>)
    requires PlainParts(ps)
    ensures CleanParts(ps) == ps
  {
    if ps != [] {
      CleanPlain(ps[1..]);
      assert [ps[0]] + ps[1..] == ps;
    }
  }

  /** Plain parts joined by '/' parse back to those parts, as a relative path. */
  lemma ParseJoined(ps: seq<string>)
    requires PlainParts(ps)
    ensures ParsePath(Join(ps, "/")) == FsPath(false, ps)
  {
    if ps == [] {
      assert Split("", '/') == [""];
    } else {
      SplitJoin(ps, '/');
      CleanPlain(ps);
      assert Join(ps, "/")[0] == ps[0][0] by {
      }
    }
  }

  /** A '/' followed by plain parts joined by '/' parses to those parts, as an
      absolute path. */
  lemma ParseJoinedAbsolute(ps: seq<string>)
    requires PlainParts(ps)
    ensures ParsePath("/" + Join(ps, "/")) == FsPath(true, ps)
  {
    var s := "/" + Join(ps, "/");
    if ps == [] {
      assert s == "" + ['/'] + "";
      SplitCons("", '/', "");
      assert Split("", '/') == [""];
      assert CleanParts(["", ""]) == [];
    } else {
      var qs := [""] + ps;
      assert qs[1..] == ps;
      assert Join(qs, "/") == s;
      SplitJoin(qs, '/');
      CleanPlain(ps);
      assert CleanParts(qs) == CleanParts(ps);
    }
  }

  /** A "./"-relative path with three plain parts. */
  lemma ParseRelative(a: string, b: string, file: string)
    requires '/' !in a && '/' !in b && '/' !in file
    requires a != "" && a != "." && b != "" && b != "." && file != "" && file != "."
    ensures ParsePath("." + "/" + a + "/" + b + "/" + file) == FsPath(false, [a, b, file])
  {
    var s := "." + "/" + a + "/" + b + "/" + file;
    SplitFour(".", a, b, file, '/');
    CleanPlainParts(a, b, file);
    assert s[0] == '.';
    ParsePathUnfold(s);
  }

  lemma ResultsDirSpelledOut()
    ensures ResultsDir == "." + "/" + "reports" + "/" + "results" + "/"
  {
  }

  /** A file name with no '/' in it, in the results directory. */
  lemma ParseInResultsDir(file: string)
    requires '/' !in file && file != "" && file != "."
    ensures ParsePath(ResultsDir + file) == FsPath(false, ["reports", "results", file])
  {
    ParseRelative("reports", "results", file);
    ResultsDirSpelledOut();
  }

  lemma NoSlashInFileName(stem: string)
    requires '/' !in stem
    ensures '/' !in "pagapath_" + stem + ".csv"
  {
    var file := "pagapath_" + stem + ".csv";
    forall k | 0 <= k < |file| ensures file[k] != '/' {
      if k < 9 {
        assert file[k] == "pagapath_"[k];
      } else if k < 9 + |stem| {
        assert file[k] == stem[k - 9];
      } else {
        assert file[k] == ".csv"[k - 9 - |stem|];
      }
    }
  }

  /** The default file for a given stem lies directly in reports/results. */
  lemma DefaultFileTarget(stem: string)
    requires '/' !in stem
    ensures ParsePath(ResultsDir + "pagapath_" + stem + ".csv") == FsPath(false, ["reports", "results", "pagapath_" + stem + ".csv"])
  {
    var file := "pagapath_" + stem + ".csv";
    NoSlashInFileName(stem);
    assert |file| == 13 + |stem|;
    ParseInResultsDir(file);
    assert ResultsDir + "pagapath_" + stem + ".csv" == ResultsDir + file;
  }

  /** A default save path lies directly in reports/results, relative to the
      working directory, as long as the name has no '/' in it. */
  lemma DefaultTarget(nodes: seq<string>, name: Option<string>)
    requires name.Some? ==> '/' !in name.value
    requires name.None? ==> forall k :: 0 <= k < |nodes| ==> '/' !in nodes[k]
    ensures ParsePath(SavePathFor(nodes, name, None)) ==
              var stem := if name.Some? then name.value else Join(nodes, "_");
              FsPath(false, ["reports", "results", "pagapath_" + stem + ".csv"])
  {
    var stem := if name.Some? then name.value else Join(nodes, "_");
    if name.None? {
      JoinNoChar(nodes, "_", '/');
    }
    DefaultFileTarget(stem);
  }

  /** Joining parts that avoid a character, with a separator that avoids it,
      gives a string that avoids it. */
  lemma {:induction false} JoinNoChar(parts: seq<string>, sep: string, c: char)
    requires c !in sep
    requires forall k :: 0 <= k < |parts| ==> c !in parts[k]
    ensures c !in Join(parts, sep)
  {
    if |parts| > 1 {
      JoinNoChar(parts[1..], sep, c);
    }
  }

  /** `save_path` handling: refuse an existing target before writing
      anything, create the parent directory when it is missing, then write. */
  method SaveCsv(fs: FileSystem, savePath: string) returns (res: Outcome<SaveError>)
    modifies fs
    ensures var target := ParsePath(savePath);
            old(fs.Exists(target)) ==> res == Fail(FileExists(target)) && fs.paths == old(fs.paths)
    ensures var target := ParsePath(savePath);
            !old(fs.Exists(target)) ==>
              && res == Pass
              && fs.paths == old(fs.paths) + {target} + (if old(fs.Exists(Parent(target))) then {} else Lineage(Parent(target)))
    ensures res == Pass ==> fs.Exists(ParsePath(savePath)) && fs.Exists(Parent(ParsePath(savePath)))
  {
    var target := ParsePath(savePath);
    if fs.Exists(target) {
      return Fail(FileExists(target));
    }
    var parent := Parent(target);
    if !fs.Exists(parent) {
      fs.MakeDirs(parent);
      assert |parent.parts| > 0 ==> parent in Lineage(parent);
    }
    fs.WriteFile(target);
    res := Pass;
  }
}
