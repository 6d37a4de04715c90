/** Keyword arguments for `scanpy.pl.paga_path`, and the five defaults that
    both PAGA-path helpers supply when the caller does not. */
module PlotKwargs {

  /** A keyword-argument value; only its identity matters here. */
  datatype KwValue =
    | KBool(b: bool)
    | KInt(i: int)
    | KReal(x: real)
    | KStr(s: string)

  type Kwargs = map<string, KwValue>

  /** The defaults: node names hidden, tick labels at size 12, a left margin of
      0.5, a colour bar shown, and expression scaled to [0, 1]. */
  const PagaPathDefaults: Kwargs := map[
    "show_node_names" := KBool(false),
    "ytick_fontsize" := KInt(12),
    "left_margin" := KReal(0.5),
    "show_colorbar" := KBool(true),
    "normalize_to_zero_one" := KBool(true)
  ]

  /** `d.update(other)`: every key of either, the value from `other` where it
      has one and from `d` otherwise. */
  function Update(d: Kwargs, other: Kwargs): (r: Kwargs)
    ensures r.Keys == d.Keys + other.Keys
    ensures forall k :: k in other ==> r[k] == other[k]
    ensures forall k :: k in d && k !in other ==> r[k] == d[k]
  {
    d + other
  }

  /** With the defaults underneath, all five default keys are present, the
      caller's own values are kept, and a default shows through exactly
      where the caller gave none. */
  lemma DefaultsUnderneath(kwargs: Kwargs)
    ensures PagaPathDefaults.Keys <= Update(PagaPathDefaults, kwargs).Keys
    ensures forall k :: k in kwargs ==> Update(PagaPathDefaults, kwargs)[k] == kwargs[k]
    ensures "show_node_names" !in kwargs ==> Update(PagaPathDefaults, kwargs)["show_node_names"] == KBool(false)
    ensures "ytick_fontsize" !in kwargs ==> Update(PagaPathDefaults, kwargs)["ytick_fontsize"] == KInt(12)
    ensures "left_margin" !in kwargs ==> Update(PagaPathDefaults, kwargs)["left_margin"] == KReal(0.5)
    ensures "show_colorbar" !in kwargs ==> Update(PagaPathDefaults, kwargs)["show_colorbar"] == KBool(true)
    ensures "normalize_to_zero_one" !in kwargs ==> Update(PagaPathDefaults, kwargs)["normalize_to_zero_one"] == KBool(true)
    ensures Update(PagaPathDefaults, kwargs).Keys - kwargs.Keys <=
              {"show_node_names", "ytick_fontsize", "left_margin", "show_colorbar", "normalize_to_zero_one"}
  {
  }

  /** The defaults name none of the keywords a helper passes to `paga_path`
      itself, so the merged arguments repeat one of those keywords exactly
      where the caller's own arguments do. */
  lemma DefaultsNeverClash(kwargs: Kwargs, fixed: set<string>)
    requires fixed !! PagaPathDefaults.Keys
    ensures Update(PagaPathDefaults, kwargs).Keys * fixed == kwargs.Keys * fixed
  {
  }
}
