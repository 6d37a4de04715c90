/** `plot_pagapath`: the PAGA-path heatmap as a free function. Around the
    scanpy call it fills in five keyword defaults, one at a time and only
    where the caller gave none, and optionally exports the path's table. */
module Plotting {
  import opened Wrappers
  import opened PyStr
  import opened PlotKwargs
  import opened ResultsExport

  /** One defaulting step on `defaults + given`: setting `k` when it is
      absent adds `k` to the defaults underneath. */
  lemma SetIfAbsent(defaults: Kwargs, given: Kwargs, k: string, v: KwValue)
    requires k !in defaults
    ensures (if k in defaults + given then defaults + given else (defaults + given)[k := v]) == defaults[k := v] + given
  {
    var r := if k in defaults + given then defaults + given else (defaults + given)[k := v];
    assert r.Keys == (defaults[k := v] + given).Keys;
    forall x | x in r ensures r[x] == (defaults[k := v] + given)[x] {
    }
  }

  /** The five `if key not in kwargs: kwargs[key] = ...` steps. */
  method SetDefaults(given: Kwargs) returns (kwargs: Kwargs)
    ensures kwargs == Update(PagaPathDefaults, given)
  {
    var d0: Kwargs := map[];
    kwargs := given;
    assert kwargs == d0 + given;
    SetIfAbsent(d0, given, "show_node_names", KBool(false));
    if "show_node_names" !in kwargs {
      kwargs := kwargs["show_node_names" := KBool(false)];
    }
    var d1 := d0["show_node_names" := KBool(false)];
    SetIfAbsent(d1, given, "ytick_fontsize", KInt(12));
    if "ytick_fontsize" !in kwargs {
      kwargs := kwargs["ytick_fontsize" := KInt(12)];
    }
    var d2 := d1["ytick_fontsize" := KInt(12)];
    SetIfAbsent(d2, given, "left_margin", KReal(0.5));
    if "left_margin" !in kwargs {
      kwargs := kwargs["left_margin" := KReal(0.5)];
    }
    var d3 := d2["left_margin" := KReal(0.5)];
    SetIfAbsent(d3, given, "show_colorbar", KBool(true));
    if "show_colorbar" !in kwargs {
      kwargs := kwargs["show_colorbar" := KBool(true)];
    }
    var d4 := d3["show_colorbar" := KBool(true)];
    SetIfAbsent(d4, given, "normalize_to_zero_one", KBool(true));
    if "normalize_to_zero_one" !in kwargs {
      kwargs := kwargs["normalize_to_zero_one" := KBool(true)];
    }
    assert d4["normalize_to_zero_one" := KBool(true)] == PagaPathDefaults;
  }

  /** The keywords `plot_pagapath` passes to `paga_path` by name besides
      `annotations` and `ax`, which are its own parameters and so can never
      arrive in `**kwargs`. */
  const PlotCallKeys: set<string> := {"return_data", "show"}

  /** Why `plot_pagapath` fails: a keyword given twice to `paga_path`
      (Python's `TypeError`), or the export refusing to overwrite. */
  datatype PlotError =
    | KeywordClash(keys: set<string>)
    | SaveFailed(e: SaveError)

  /** `plot_pagapath(...)`: returns the keyword arguments handed to
      `paga_path`. A caller's `return_data` or `show` makes that call fail
      before anything is saved; otherwise, with `save_results` the table is
      written unless the target exists, and without it the file system is
      left alone. */
  method PlotPagapath(nodes: seq<string>, given: Kwargs, name: Option<string>, saveResults: bool,
                      savePath: Option<string>, fs: FileSystem) returns (kwargs: Kwargs, res: Outcome<PlotError>)
    modifies fs
    ensures kwargs == Update(PagaPathDefaults, given)
    ensures given.Keys * PlotCallKeys != {} ==>
              res == Fail(KeywordClash(given.Keys * PlotCallKeys)) && fs.paths == old(fs.paths)
    ensures given.Keys * PlotCallKeys == {} && !saveResults ==> res == Pass && fs.paths == old(fs.paths)
    ensures var target := ParsePath(SavePathFor(nodes, name, savePath));
            var called := given.Keys * PlotCallKeys == {} && saveResults;
            && (called && old(fs.Exists(target)) ==>
                  res == Fail(SaveFailed(FileExists(target))) && fs.paths == old(fs.paths))
            && (called && !old(fs.Exists(target)) ==>
                  && res == Pass
                  && fs.paths == old(fs.paths) + {target} +
                       (if old(fs.Exists(Parent(target))) then {} else Lineage(Parent(target))))
  {
    kwargs := SetDefaults(given);
    var clash := kwargs.Keys * PlotCallKeys;
    DefaultsNeverClash(given, PlotCallKeys);
    if clash != {} {
      return kwargs, Fail(KeywordClash(clash));
    }
    res := Pass;
    if saveResults {
      var path := SavePathFor(nodes, name, savePath);
      var saved := SaveCsv(fs, path);
      if saved.Fail? {
        res := Fail(SaveFailed(saved.error));
      }
    }
  }
}
