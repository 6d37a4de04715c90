/** The R half of `TLSEnvBuilder.setup_r`: turning `package,source`
    requirement lines into the install script `install_r_packages.R`. The
    file is modelled as the sequence of lines written to it (each followed
    by a newline in the file). */
module VenvSetup {
  import opened Wrappers
  import opened PyStr

  /** The first line of every script: selects a CRAN mirror. */
  const MirrorLine: string := "options(repos = c(CRAN = \"https://cloud.r-project.org\"))"

  /** Installs BiocManager first when it is not available. */
  const BiocGuard: string := "if (!require(\"BiocManager\", quietly = TRUE)) install.packages(\"BiocManager\")"

  /** `package, source = line.strip().split(',')` raises `ValueError` unless
      there are exactly two fields; `fields` is how many there were. */
  datatype RequirementError = Unpack(line: string, fields: nat)

  function CranInstall(pkg: string): string
  {
    "install.packages(\"" + pkg + "\")"
  }

  function BiocInstall(pkg: string): string
  {
    "BiocManager::install(\"" + pkg + "\")"
  }

  /** The script lines one requirement line produces: one for a CRAN
      package, two for a Bioconductor package, none for any other source. */
  function LinesFor(line: string): (r: Result<seq<string>, RequirementError>)
    ensures r.Ok? ==> |r.value| <= 2
    ensures r.Err? ==> r.error.line == line
  {
    var fields := Split(Strip(line), ',');
    if |fields| != 2 then Err(Unpack(line, |fields|))
    else
      var pkg, source := fields[0], fields[1];
      if source == "CRAN" then Ok([CranInstall(pkg)])
      else if source == "Bioconductor" then Ok([BiocGuard, BiocInstall(pkg)])
      else Ok([])
  }

  /** A requirement line fails exactly when its stripped text does not
      hold exactly one comma; otherwise it yields at most two lines. */
  lemma LinesForFails(line: string)
    ensures LinesFor(line).Err? <==> Count(Strip(line), ',') != 1
    ensures LinesFor(line).Err? ==> LinesFor(line).error == Unpack(line, Count(Strip(line), ',') + 1)
    ensures LinesFor(line).Ok? ==> |LinesFor(line).value| <= 2
  {
    SplitLength(Strip(line), ',');
  }

  /** What the script file holds after the requirement lines have been
      processed, and the error that stopped the processing, if any. */
  datatype Script = Script(lines: seq<string>, error: Option<RequirementError>)

  type LineResult = Result<seq<string>, RequirementError>

  /** The per-line results, in file order. */
  function Results(reqs: seq<string>): (r: seq<LineResult>)
    ensures |r| == |reqs|
  {
    if reqs == [] then [] else Results(reqs[..|reqs| - 1]) + [LinesFor(reqs[|reqs| - 1])]
  }

  /** The result at position `i` is that of line `i`. */
  lemma {:induction false} ResultsAt(reqs: seq<string>, i: nat)
    requires i < |reqs|
    ensures Results(reqs)[i] == LinesFor(reqs[i])
    decreases |reqs|
  {
    if i < |reqs| - 1 {
      var init := reqs[..|reqs| - 1];
      ResultsAt(init, i);
      assert init[i] == reqs[i];
    }
  }

  /** Results of consecutive stretches of lines concatenate. */
  lemma {:induction false} ResultsConcat(a: seq<string>, b: seq<string>)
    ensures Results(a + b) == Results(a) + Results(b)
    decreases |b|
  {
    if b == [] {
      assert a + b == a;
    } else {
      var b0, x := b[..|b| - 1], b[|b| - 1];
      assert (a + b)[..|a + b| - 1] == a + b0;
      assert (a + b)[|a + b| - 1] == x;
      calc {
        Results(a + b);
        Results(a + b0) + [LinesFor(x)];
        { ResultsConcat(a, b0); }
        Results(a) + Results(b0) + [LinesFor(x)];
        Results(a) + (Results(b0) + [LinesFor(x)]);
        Results(a) + Results(b);
      }
    }
  }

  /** Writing the per-line results after the mirror line; the first error
      stops the writing, and what was written stays in the file. */
  function Assemble(results: seq<LineResult>): (s: Script)
    ensures |s.lines| >= 1 && s.lines[0] == MirrorLine
  {
    if results == [] then Script([MirrorLine], None)
    else
      var prev := Assemble(results[..|results| - 1]);
      if prev.error.Some? then prev
      else
        match results[|results| - 1]
        case Err(e) => Script(prev.lines, Some(e))
        case Ok(out) => Script(prev.lines + out, None)
  }

  /** The script for `reqs`. */
  function Generate(reqs: seq<string>): (s: Script)
    ensures |s.lines| >= 1 && s.lines[0] == MirrorLine
  {
    Assemble(Results(reqs))
  }

  lemma ResultsSnoc(reqs: seq<string>, i: nat)
    requires i < |reqs|
    ensures Results(reqs[..i + 1]) == Results(reqs[..i]) + [LinesFor(reqs[i])]
  {
    assert reqs[..i + 1][..i] == reqs[..i];
  }

  /** One more result: an error is recorded, an output block appended. */
  lemma AssembleSnoc(results: seq<LineResult>, r: LineResult)
    requires Assemble(results).error.None?
    ensures r.Err? ==> Assemble(results + [r]) == Script(Assemble(results).lines, Some(r.error))
    ensures r.Ok? ==> Assemble(results + [r]) == Script(Assemble(results).lines + r.value, None)
  {
    assert (results + [r])[..|results|] == results;
  }

  /** Once the first `i + 1` lines have failed, the rest of the file adds nothing. */
  lemma StopsAt(reqs: seq<string>, i: nat)
    requires i < |reqs| && Assemble(Results(reqs[..i + 1])).error.Some?
    ensures Generate(reqs) == Assemble(Results(reqs[..i + 1]))
  {
    ResultsConcat(reqs[..i + 1], reqs[i + 1..]);
    assert reqs[..i + 1] + reqs[i + 1..] == reqs;
    AssembleErrorStays(Results(reqs[..i + 1]), Results(reqs[i + 1..]));
  }

  /** The loop of `setup_r`, writing into the script as it goes. */
  method WriteInstallScript(reqs: seq<string>) returns (lines: seq<string>, err: Option<RequirementError>)
    ensures Script(lines, err) == Generate(reqs)
  {
    lines := [MirrorLine];
    err := None;
    var i := 0;
    while i < |reqs|
      invariant 0 <= i <= |reqs|
      invariant Assemble(Results(reqs[..i])) == Script(lines, None)
    {
      var r := LinesFor(reqs[i]);
      ResultsSnoc(reqs, i);
      AssembleSnoc(Results(reqs[..i]), r);
      if r.Err? {
        err := Some(r.error);
        StopsAt(reqs, i);
        return;
      }
      lines := lines + r.value;
      i := i + 1;
    }
    assert reqs[..i] == reqs;
  }

  // ---------------------------------------------------------- properties

  /** Later results only ever append to the script, and once one has
      failed the script stays as it is. */
  lemma {:induction false} AssembleErrorStays(a: seq<LineResult>, b: seq<LineResult>)
    ensures Assemble(a).error.Some? ==> Assemble(a + b) == Assemble(a)
    ensures PrefixOf(Assemble(a).lines, Assemble(a + b).lines)
    decreases |b|
  {
    if b == [] {
      assert a + b == a;
    } else {
      var b0 := b[..|b| - 1];
      AssembleErrorStays(a, b0);
      assert (a + b)[..|a + b| - 1] == a + b0;
    }
  }

  /** Output blocks appear in the order of the requirement lines: the script
      for the first lines of a file is the beginning of the script for the
      whole file, and a failed line ends the script. */
  lemma GenerateInOrder(a: seq<string>, b: seq<string>)
    ensures Generate(a).error.Some? ==> Generate(a + b) == Generate(a)
    ensures PrefixOf(Generate(a).lines, Generate(a + b).lines)
  {
    ResultsConcat(a, b);
    AssembleErrorStays(Results(a), Results(b));
  }

  /** `p` is a prefix of `s`. */
  predicate PrefixOf(p: seq<string>, s: seq<string>)
  {
    |p| <= |s| && s[..|p|] == p
  }

  lemma SplitTwo(pkg: string, source: string)
    requires ',' !in pkg && ',' !in source
    ensures Split(pkg + "," + source, ',') == [pkg, source]
  {
    assert pkg + "," + source == pkg + [','] + source;
    SplitCons(pkg, ',', source);
    assert IndexOf(source, ',') == |source|;
  }

  /** A line `<pkg>,CRAN` (surrounding whitespace aside) installs `pkg` from CRAN. */
  lemma CranLine(line: string, pkg: string)
    requires ',' !in pkg && Strip(line) == pkg + ",CRAN"
    ensures LinesFor(line) == Ok([CranInstall(pkg)])
  {
    assert pkg + ",CRAN" == pkg + "," + "CRAN";
    SplitTwo(pkg, "CRAN");
  }

  /** A line `<pkg>,Bioconductor` installs BiocManager if needed, then `pkg`. */
  lemma BiocLine(line: string, pkg: string)
    requires ',' !in pkg && Strip(line) == pkg + ",Bioconductor"
    ensures LinesFor(line) == Ok([BiocGuard, BiocInstall(pkg)])
  {
    assert pkg + ",Bioconductor" == pkg + "," + "Bioconductor";
    SplitTwo(pkg, "Bioconductor");
  }

  /** Any other source, compared as written, produces nothing. */
  lemma OtherSourceLine(line: string, pkg: string, source: string)
    requires ',' !in pkg && ',' !in source && Strip(line) == pkg + "," + source
    requires source != "CRAN" && source != "Bioconductor"
    ensures LinesFor(line) == Ok([])
  {
    SplitTwo(pkg, source);
  }

  /** Only the whole line is stripped, so "ggplot2, CRAN" names the source
      " CRAN" and installs nothing. */
  lemma PaddedSourceIgnored()
    ensures LinesFor("ggplot2, CRAN") == Ok([])
  {
    var line := "ggplot2, CRAN";
    StripUnchanged(line);
    assert line == "ggplot2" + "," + " CRAN";
    assert ',' !in "ggplot2" && ',' !in " CRAN";
    OtherSourceLine(line, "ggplot2", " CRAN");
  }

  /** A blank line has one field, so it stops the script. */
  lemma BlankLineFails(line: string)
    requires AllSpace(line)
    ensures LinesFor(line) == Err(Unpack(line, 1))
  {
    StripSpec(line);
    assert Split("", ',') == [""];
  }

  /** The script fails exactly when some result is an error. */
  lemma {:induction false} AssembleFails(results: seq<LineResult>)
    ensures Assemble(results).error.Some? <==> exists i :: 0 <= i < |results| && results[i].Err?
    decreases |results|
  {
    if results != [] {
      var init := results[..|results| - 1];
      AssembleFails(init);
      if exists i :: 0 <= i < |results| && results[i].Err? {
        var i :| 0 <= i < |results| && results[i].Err?;
        if i < |init| {
          assert init[i].Err?;
        }
      }
      if exists i :: 0 <= i < |init| && init[i].Err? {
        var i :| 0 <= i < |init| && init[i].Err?;
        assert results[i] == init[i];
      }
    }
  }

  /** The script fails exactly when some requirement line does. */
  lemma GenerateFails(reqs: seq<string>)
    ensures Generate(reqs).error.Some? <==> exists i :: 0 <= i < |reqs| && LinesFor(reqs[i]).Err?
  {
    AssembleFails(Results(reqs));
    if exists i :: 0 <= i < |reqs| && LinesFor(reqs[i]).Err? {
      var i :| 0 <= i < |reqs| && LinesFor(reqs[i]).Err?;
      ResultsAt(reqs, i);
    }
    if exists i :: 0 <= i < |reqs| && Results(reqs)[i].Err? {
      var i :| 0 <= i < |reqs| && Results(reqs)[i].Err?;
      ResultsAt(reqs, i);
    }
  }

  /** When no line fails, the script is the mirror line followed by each
      line's output, in order. */
  lemma {:induction false} AssembleAllOk(results: seq<LineResult>)
    requires forall i :: 0 <= i < |results| ==> results[i].Ok?
    ensures Assemble(results) == Script([MirrorLine] + Flatten(results), None)
    decreases |results|
  {
    if results != [] {
      var init := results[..|results| - 1];
      AssembleAllOk(init);
      assert Flatten(results) == Flatten(init) + results[|results| - 1].value;
    }
  }

  /** All lines' outputs, in order. */
  function Flatten(results: seq<LineResult>): seq<string>
    requires forall i :: 0 <= i < |results| ==> results[i].Ok?
  {
    if results == [] then [] else Flatten(results[..|results| - 1]) + results[|results| - 1].value
  }
}
