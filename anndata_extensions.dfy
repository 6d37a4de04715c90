/** The `tls` accessor on an AnnData object: querying and excluding cells by
    a metadata column, assigning metadata, copying, reading the timepoints
    off the `donor` categories, and the bookkeeping around the PAGA-path
    heatmap (the `distance` column, the plot keyword arguments and the CSV
    export). The AnnData object is a class, so that a query, which replaces
    the accessor's object by a fresh subset, can be told apart from an
    assignment, which writes into the object the caller also holds. */
module AnnDataExtensions {
  import opened Wrappers
  import opened PyStr
  import opened PlotKwargs
  import opened ResultsExport

  /** One cell of a metadata column. */
  datatype Cell = Str(s: string) | Num(x: real) | NA

  /** What `value_func` may produce: a single value (broadcast over the rows
      when stored in `obs`) or one value per row. */
  datatype Value = Scalar(c: Cell) | Column(items: seq<Cell>)

  /** The `obs` table, column by column: `cols` maps each column name to its
      values, `cats` gives the categories of the categorical columns. */
  datatype Frame = Frame(nrows: nat, cols: map<string, seq<Cell>>, cats: map<string, seq<Cell>>)

  /** No value occurs twice. */
  predicate Distinct(s: seq<Cell>)
  {
    forall a, b :: 0 <= a < b < |s| ==> s[a] != s[b]
  }

  /** Every column has one value per row; only columns can be categorical,
      and no category is listed twice. */
  predicate WellFormed(f: Frame)
  {
    && (forall k :: k in f.cols ==> |f.cols[k]| == f.nrows)
    && f.cats.Keys <= f.cols.Keys
    && (forall k :: k in f.cats ==> Distinct(f.cats[k]))
  }

  /** The part of an AnnData object the accessor sees: `obs` and `uns`. */
  datatype AnnData = AnnData(obs: Frame, uns: map<string, Value>)

  /** What the accessor raises. */
  datatype AccessorError =
    | InvalidKey(key: string)                   // ValueError from `_query`
    | InvalidValue(key: string, value: Cell)    // ValueError from `_query`
    | MissingColumn(key: string)                // KeyError indexing `obs`
    | NotListLike                               // TypeError from `isin(None)`
    | NotCategorical(key: string)               // AttributeError on `.cat`
    | NoTimepoints                              // no label to split
    | BadTimepoint(tp: Cell)                 // a label with no hours in it
    | LengthMismatch(key: string, rows: nat, given: nat) // ValueError on `obs[key] = v`
    | KeywordClash(keys: set<string>)           // TypeError: keyword given twice
    | SaveFailed(e: SaveError)                  // FileExistsError from the export

  // ---------------------------------------------------------------- rows

  predicate Increasing(idx: seq<nat>)
  {
    forall a, b :: 0 <= a < b < |idx| ==> idx[a] < idx[b]
  }

  /** The row positions whose value in `col` is (`inside`) or is not
      (`!inside`) one of `vs`, in increasing order: the mask
      `np.in1d(col, vs)` and its negation, as positions. */
  function Positions(col: seq<Cell>, vs: seq<Cell>, inside: bool): (r: seq<nat>)
    ensures forall j :: 0 <= j < |r| ==> r[j] < |col|
    ensures Increasing(r)
    ensures forall i :: 0 <= i < |col| ==> (i in r <==> ((col[i] in vs) == inside))
  {
    if col == [] then []
    else
      var n := |col| - 1;
      var p := Positions(col[..n], vs, inside);
      assert forall i :: 0 <= i < n ==> col[..n][i] == col[i];
      if (col[n] in vs) == inside then p + [n] else p
  }

  /** The values at positions `idx`, in that order. */
  function Take(col: seq<Cell>, idx: seq<nat>): (r: seq<Cell>)
    requires forall j :: 0 <= j < |idx| ==> idx[j] < |col|
    ensures |r| == |idx|
    ensures forall j :: 0 <= j < |idx| ==> r[j] == col[idx[j]]
  {
    seq(|idx|, j requires 0 <= j < |idx| => col[idx[j]])
  }

  /** The categories still in use after subsetting, in their original order. */
  function UsedCategories(cats: seq<Cell>, vals: seq<Cell>): (r: seq<Cell>)
    ensures forall c :: c in r <==> c in cats && c in vals
    ensures |r| <= |cats|
    ensures Distinct(cats) ==> Distinct(r)
  {
    if cats == [] then []
    else
      var n := |cats| - 1;
      UsedCategories(cats[..n], vals) + (if cats[n] in vals then [cats[n]] else [])
  }

  /** `adata[mask]` for the rows at `idx`: every column keeps the same rows;
      categorical columns drop the categories no kept row uses. */
  function SelectRows(f: Frame, idx: seq<nat>): (g: Frame)
    requires WellFormed(f)
    requires forall j :: 0 <= j < |idx| ==> idx[j] < f.nrows
    ensures WellFormed(g)
    ensures g.nrows == |idx| && g.cols.Keys == f.cols.Keys && g.cats.Keys == f.cats.Keys
  {
    var cols := map k | k in f.cols :: Take(f.cols[k], idx);
    var cats := map k | k in f.cats :: UsedCategories(f.cats[k], cols[k]);
    Frame(|idx|, cols, cats)
  }

  // --------------------------------------------------------------- query

  /** `values is None or values == [None] or len(values) == 0`: such a query
      leaves the accessor as it is. */
  function NoFilter(values: Option<seq<Cell>>): (b: bool)
    ensures !b ==> values.Some? && |values.value| >= 1 && values.value != [NA]
    ensures values.Some? && |values.value| >= 2 ==> !b
  {
    values.None? || values.value == [NA] || values.value == []
  }

  /** The position of the first requested value that never occurs in
      `col`, or `|vs|` when every one does. */
  function FirstMissingIndex(col: seq<Cell>, vs: seq<Cell>): (i: nat)
    ensures i <= |vs|
    ensures forall j :: 0 <= j < i ==> vs[j] in col
    ensures i < |vs| ==> vs[i] !in col
  {
    if vs == [] || vs[0] !in col then 0
    else
      var i := FirstMissingIndex(col, vs[1..]);
      assert forall j :: 0 < j < 1 + i ==> vs[j] == vs[1..][j - 1];
      1 + i
  }

  /** The first requested value that never occurs in `col`, if any. */
  function FirstMissing(col: seq<Cell>, vs: seq<Cell>): (r: Option<Cell>)
    ensures r.None? <==> forall v :: v in vs ==> v in col
  {
    var i := FirstMissingIndex(col, vs);
    if i < |vs| then Some(vs[i]) else None
  }

  /** `FirstMissing` is the value at the first position whose value is absent. */
  lemma FirstMissingAt(col: seq<Cell>, vs: seq<Cell>, i: nat)
    requires i < |vs| && vs[i] !in col
    requires forall j :: 0 <= j < i ==> vs[j] in col
    ensures FirstMissing(col, vs) == Some(vs[i])
  {
    var k := FirstMissingIndex(col, vs);
    assert !(k < i) && !(k > i);
  }

  /** The checks `_query` makes once it filters at all: the key must name a
      column, and every requested value must occur in it, the first that
      does not being reported. */
  function Validate(f: Frame, vs: seq<Cell>, key: string): (r: Outcome<AccessorError>)
    ensures r.Pass? <==> key in f.cols && forall v :: v in vs ==> v in f.cols[key]
    ensures key !in f.cols ==> r == Fail(InvalidKey(key))
    ensures key in f.cols && r.Fail? ==> r == Fail(InvalidValue(key, FirstMissing(f.cols[key], vs).value))
  {
    if key !in f.cols then Fail(InvalidKey(key))
    else
      match FirstMissing(f.cols[key], vs)
      case None => Pass
      case Some(v) => Fail(InvalidValue(key, v))
  }

  /** The rows a successful query keeps: those whose `key` value is requested. */
  function Filtered(f: Frame, vs: seq<Cell>, key: string): (g: Frame)
    requires WellFormed(f) && key in f.cols
    ensures WellFormed(g)
  {
    SelectRows(f, Positions(f.cols[key], vs, true))
  }

  /** The checks `exclude_clusters` makes: `obs[key]` must exist (a
      `KeyError` otherwise), and `isin` needs a list (a `TypeError` for `None`). */
  function ExcludeCheck(f: Frame, key: string, ids: Option<seq<Cell>>): (r: Outcome<AccessorError>)
    ensures r.Pass? <==> key in f.cols && ids.Some?
    ensures key !in f.cols ==> r == Fail(MissingColumn(key))
    ensures key in f.cols && ids.None? ==> r == Fail(NotListLike)
  {
    if key !in f.cols then Fail(MissingColumn(key))
    else if ids.None? then Fail(NotListLike)
    else Pass
  }

  /** The rows `exclude_clusters` keeps: those whose `key` value is not listed. */
  function Excluded(f: Frame, key: string, ids: seq<Cell>): (g: Frame)
    requires WellFormed(f) && key in f.cols
    ensures WellFormed(g)
  {
    SelectRows(f, Positions(f.cols[key], ids, false))
  }

  // ---------------------------------------------------- rows, properties

  /** A successful query keeps exactly the rows whose `key` value is
      requested, in their original order, and every column the same rows. */
  lemma QueryKeepsMatchingRows(f: Frame, vs: seq<Cell>, key: string)
    requires WellFormed(f) && key in f.cols
    ensures var idx := Positions(f.cols[key], vs, true);
            var g := Filtered(f, vs, key);
            && Increasing(idx)
            && (forall i :: 0 <= i < f.nrows ==> (i in idx <==> f.cols[key][i] in vs))
            && g.nrows == |idx|
            && (forall c, j :: c in g.cols && 0 <= j < |idx| ==> g.cols[c][j] == f.cols[c][idx[j]])
            && (forall j :: 0 <= j < g.nrows ==> g.cols[key][j] in vs)
  {
  }

  /** Exclusion keeps exactly the rows whose `key` value is not listed, in
      their original order, and every column the same rows. */
  lemma ExcludeKeepsOtherRows(f: Frame, key: string, ids: seq<Cell>)
    requires WellFormed(f) && key in f.cols
    ensures var idx := Positions(f.cols[key], ids, false);
            var g := Excluded(f, key, ids);
            && Increasing(idx)
            && (forall i :: 0 <= i < f.nrows ==> (i in idx <==> f.cols[key][i] !in ids))
            && g.nrows == |idx|
            && (forall c, j :: c in g.cols && 0 <= j < |idx| ==> g.cols[c][j] == f.cols[c][idx[j]])
            && (forall j :: 0 <= j < g.nrows ==> g.cols[key][j] !in ids)
  {
  }

  /** Growing the column by one value adds its position to one of the two
      position lists. */
  lemma PositionsSnoc(col: seq<Cell>, vs: seq<Cell>, inside: bool)
    requires col != []
    ensures var n := |col| - 1;
            Positions(col, vs, inside) ==
              Positions(col[..n], vs, inside) + (if (col[n] in vs) == inside then [n] else [])
  {
  }

  /** Taking positions that all lie in the first `n` values, then one more. */
  lemma TakeSnoc(col: seq<Cell>, idx: seq<nat>, n: nat)
    requires n < |col|
    requires forall j :: 0 <= j < |idx| ==> idx[j] < n
    ensures Take(col, idx) == Take(col[..n], idx)
    ensures Take(col, idx + [n]) == Take(col[..n], idx) + [col[n]]
  {
    assert Take(col, idx + [n])[|idx|] == col[n];
  }

  /** The rows kept by `query_clusters(key, ids)` and by
      `exclude_clusters(key, ids)` together number all the rows. */
  lemma {:induction false} QueryExcludeSizes(col: seq<Cell>, vs: seq<Cell>)
    ensures |Positions(col, vs, true)| + |Positions(col, vs, false)| == |col|
  {
    if col != [] {
      QueryExcludeSizes(col[..|col| - 1], vs);
      PositionsSnoc(col, vs, true);
      PositionsSnoc(col, vs, false);
    }
  }

  /** ... and together they hold exactly the values of the column, each as
      often as it occurs. */
  lemma {:induction false} QueryExcludePartition(col: seq<Cell>, vs: seq<Cell>)
    ensures multiset(Take(col, Positions(col, vs, true))) + multiset(Take(col, Positions(col, vs, false))) == multiset(col)
  {
    if col != [] {
      var n := |col| - 1;
      var init := col[..n];
      QueryExcludePartition(init, vs);
      var pin, pout := Positions(init, vs, true), Positions(init, vs, false);
      PositionsSnoc(col, vs, true);
      PositionsSnoc(col, vs, false);
      TakeSnoc(col, pin, n);
      TakeSnoc(col, pout, n);
      assert col == init + [col[n]];
      assert multiset(col) == multiset(init) + multiset{col[n]};
    }
  }

  /** The positions 0, 1, ..., n - 1. */
  function Range(n: nat): (r: seq<nat>)
    ensures |r| == n && forall j :: 0 <= j < n ==> r[j] == j
  {
    seq(n, j requires 0 <= j => j as nat)
  }

  /** When every value is requested, every position is kept. */
  lemma {:induction false} PositionsAll(col: seq<Cell>, vs: seq<Cell>)
    requires forall i :: 0 <= i < |col| ==> col[i] in vs
    ensures Positions(col, vs, true) == Range(|col|)
  {
    if col != [] {
      var n := |col| - 1;
      PositionsAll(col[..n], vs);
      assert Range(|col|) == Range(n) + [n];
    }
  }

  /** Selecting all rows changes nothing. */
  lemma SelectAll(f: Frame)
    requires WellFormed(f)
    requires forall k :: k in f.cats ==> forall c :: c in f.cats[k] ==> c in f.cols[k]
    ensures SelectRows(f, Range(f.nrows)) == f
  {
    var g := SelectRows(f, Range(f.nrows));
    forall k | k in f.cols ensures g.cols[k] == f.cols[k] {
      assert Take(f.cols[k], Range(f.nrows)) == f.cols[k];
    }
    assert g.cols == f.cols;
    forall k | k in f.cats ensures g.cats[k] == f.cats[k] {
      UsedAll(f.cats[k], f.cols[k]);
    }
    assert g.cats == f.cats;
  }

  lemma UsedAll(cats: seq<Cell>, vals: seq<Cell>)
    requires forall c :: c in cats ==> c in vals
    ensures UsedCategories(cats, vals) == cats
  {
    UsedCategoriesInOrder(cats, vals);
    assert forall i :: 0 <= i < |cats| ==> cats[i] in vals;
    PositionsAll(cats, vals);
    assert Take(cats, Range(|cats|)) == cats;
  }

  /** The categories kept are exactly those of `cats` at the increasing
      positions whose category is used: a subsequence of `cats`, in order. */
  lemma {:induction false} UsedCategoriesInOrder(cats: seq<Cell>, vals: seq<Cell>)
    ensures UsedCategories(cats, vals) == Take(cats, Positions(cats, vals, true))
  {
    if cats != [] {
      var n := |cats| - 1;
      UsedCategoriesInOrder(cats[..n], vals);
      PositionsSnoc(cats, vals, true);
      TakeSnoc(cats, Positions(cats[..n], vals, true), n);
    }
  }

  lemma SelectedColumn(f: Frame, idx: seq<nat>, k: string)
    requires WellFormed(f) && k in f.cols
    requires forall j :: 0 <= j < |idx| ==> idx[j] < f.nrows
    ensures SelectRows(f, idx).cols[k] == Take(f.cols[k], idx)
  {
  }

  /** The values kept by the mask `np.in1d(col, vs)` are all requested, and
      every requested value that occurs is kept. */
  lemma KeptValues(col: seq<Cell>, vs: seq<Cell>)
    ensures var kept := Take(col, Positions(col, vs, true));
            && (forall i :: 0 <= i < |kept| ==> kept[i] in vs)
            && (forall v :: v in vs && v in col ==> v in kept)
  {
    var idx := Positions(col, vs, true);
    var kept := Take(col, idx);
    forall v | v in vs && v in col ensures v in kept {
      var i :| 0 <= i < |col| && col[i] == v;
      var j :| 0 <= j < |idx| && idx[j] == i;
      assert kept[j] == v;
    }
  }

  /** After a successful query, the `key` column holds only requested
      values, and still holds each of them. */
  lemma FilteredColumn(f: Frame, vs: seq<Cell>, key: string)
    requires WellFormed(f) && Validate(f, vs, key).Pass?
    ensures var gcol := Filtered(f, vs, key).cols[key];
            && (forall i :: 0 <= i < |gcol| ==> gcol[i] in vs)
            && (forall v :: v in vs ==> v in gcol)
  {
    SelectedColumn(f, Positions(f.cols[key], vs, true), key);
    KeptValues(f.cols[key], vs);
  }

  /** After subsetting, every category still listed is used by some row. */
  lemma SelectedCategoriesUsed(f: Frame, idx: seq<nat>)
    requires WellFormed(f)
    requires forall j :: 0 <= j < |idx| ==> idx[j] < f.nrows
    ensures var g := SelectRows(f, idx);
            forall k :: k in g.cats ==> forall c :: c in g.cats[k] ==> c in g.cols[k]
  {
  }

  /** Querying again with the same values is a no-op: the validation passes
      again and no further row is dropped. */
  lemma QueryIdempotent(f: Frame, vs: seq<Cell>, key: string)
    requires WellFormed(f) && Validate(f, vs, key).Pass?
    ensures Validate(Filtered(f, vs, key), vs, key).Pass?
    ensures Filtered(Filtered(f, vs, key), vs, key) == Filtered(f, vs, key)
  {
    var g := Filtered(f, vs, key);
    FilteredColumn(f, vs, key);
    PositionsAll(g.cols[key], vs);
    SelectedCategoriesUsed(f, Positions(f.cols[key], vs, true));
    SelectAll(g);
  }

  // -------------------------------------------------------------- assign

  /** Which attribute `_assign` writes into. */
  datatype Slot = ObsSlot | UnsSlot

  /** `obs[key] = v`: a scalar is broadcast, a column must have one value per
      row; the new column is not categorical. */
  function SetObs(f: Frame, key: string, v: Value): (r: Result<Frame, AccessorError>)
    requires WellFormed(f)
    ensures r.Ok? ==> WellFormed(r.value)
  {
    match v
    case Scalar(c) => Ok(Frame(f.nrows, f.cols[key := seq(f.nrows, _ => c)], f.cats - {key}))
    case Column(items) =>
      if |items| != f.nrows then Err(LengthMismatch(key, f.nrows, |items|))
      else Ok(Frame(f.nrows, f.cols[key := items], f.cats - {key}))
  }

  /** `getattr(adata, slot)[key] = value_func(adata)`. */
  function Assigned(d: AnnData, slot: Slot, key: string, valueFunc: AnnData -> Result<Value, AccessorError>): (r: Result<AnnData, AccessorError>)
    requires WellFormed(d.obs)
    ensures r.Ok? ==> WellFormed(r.value.obs)
  {
    match valueFunc(d)
    case Err(e) => Err(e)
    case Ok(v) =>
      match slot
      case UnsSlot => Ok(AnnData(d.obs, d.uns[key := v]))
      case ObsSlot =>
        match SetObs(d.obs, key, v)
        case Err(e) => Err(e)
        case Ok(f) => Ok(AnnData(f, d.uns))
  }

  /** Assigning into `obs` sets exactly the column `key` (to the value, or to
      the scalar repeated), leaves every other column, the row count and
      `uns` as they were, and fails only when `value_func` does or the
      column has the wrong length. */
  lemma AssignObsOnlyKey(d: AnnData, key: string, valueFunc: AnnData -> Result<Value, AccessorError>)
    requires WellFormed(d.obs)
    ensures var r := Assigned(d, ObsSlot, key, valueFunc);
            var v := valueFunc(d);
            && (r.Err? <==> v.Err? || (v.value.Column? && |v.value.items| != d.obs.nrows))
            && (r.Ok? ==>
                  && r.value.uns == d.uns
                  && r.value.obs.nrows == d.obs.nrows
                  && r.value.obs.cols.Keys == d.obs.cols.Keys + {key}
                  && (forall k :: k in d.obs.cols && k != key ==> r.value.obs.cols[k] == d.obs.cols[k])
                  && (v.value.Column? ==> r.value.obs.cols[key] == v.value.items)
                  && (v.value.Scalar? ==> forall i :: 0 <= i < d.obs.nrows ==> r.value.obs.cols[key][i] == v.value.c)
                  && key !in r.value.obs.cats
                  && (forall k :: k in d.obs.cats && k != key ==> r.value.obs.cats[k] == d.obs.cats[k]))
  {
  }

  /** Assigning into `uns` sets exactly the entry `key`; `obs` and every other
      entry are unchanged. */
  lemma AssignUnsOnlyKey(d: AnnData, key: string, valueFunc: AnnData -> Result<Value, AccessorError>)
    requires WellFormed(d.obs)
    ensures var r := Assigned(d, UnsSlot, key, valueFunc);
            && (r.Err? <==> valueFunc(d).Err?)
            && (r.Ok? ==>
                  && r.value.obs == d.obs
                  && r.value.uns.Keys == d.uns.Keys + {key}
                  && r.value.uns[key] == valueFunc(d).value
                  && forall k :: k in d.uns && k != key ==> r.value.uns[k] == d.uns[k])
  {
  }

  // ---------------------------------------------------------- timepoints

  predicate IsDigit(c: char)
  {
    '0' <= c <= '9'
  }

  function DigitValue(c: char): nat
    requires IsDigit(c)
  {
    c as int - '0' as int
  }

  /** The value of a string of decimal digits, read left to right. */
  function DecimalValue(s: string): nat
    requires forall k :: 0 <= k < |s| ==> IsDigit(s[k])
  {
    if s == [] then 0
    else DecimalValue(s[..|s| - 1]) * 10 + DigitValue(s[|s| - 1])
  }

  /** `float(x)` on a label's hour field, for the plain decimal numerals the
      labels use. */
  function ParseHours(s: string): (r: Option<nat>)
    ensures r.Some? <==> s != [] && forall k :: 0 <= k < |s| ==> IsDigit(s[k])
  {
    if s != [] && forall k :: 0 <= k < |s| ==> IsDigit(s[k]) then Some(DecimalValue(s)) else None
  }

  /** The digit for `d < 10`. */
  function DigitChar(d: nat): (c: char)
    requires d < 10
    ensures IsDigit(c) && DigitValue(c) == d
  {
    ('0' as int + d) as char
  }

  /** `str(n)` for a natural number. */
  function Decimal(n: nat): (s: string)
    ensures s != [] && forall k :: 0 <= k < |s| ==> IsDigit(s[k])
  {
    if n < 10 then [DigitChar(n)] else Decimal(n / 10) + [DigitChar(n % 10)]
  }

  /** Reading back the decimal numeral of `n` gives `n`. */
  lemma {:induction false} DecimalRoundTrip(n: nat)
    ensures ParseHours(Decimal(n)) == Some(n)
  {
    var s := Decimal(n);
    if n < 10 {
      assert s[..0] == [];
    } else {
      DecimalRoundTrip(n / 10);
      assert s[..|s| - 1] == Decimal(n / 10);
      assert DecimalValue(s) == DecimalValue(Decimal(n / 10)) * 10 + n % 10;
    }
  }

  /** The hours of one timepoint label: its second '_'-separated field, up
      to the first 'h', read as a number. A label that is not a string, has
      no second field, or whose hours are not a numeral is rejected. */
  function ParseTimepoint(tp: Cell): (r: Result<nat, AccessorError>)
    ensures r.Err? ==> r.error == BadTimepoint(tp)
  {
    match tp
    case Str(s) =>
      var fields := Split(s, '_');
      if |fields| < 2 then Err(BadTimepoint(tp))
      else
        (match ParseHours(Split(fields[1], 'h')[0])
         case None => Err(BadTimepoint(tp))
         case Some(n) => Ok(n))
    case _ => Err(BadTimepoint(tp))
  }

  /** The second '_'-field of `prefix + "_" + x` is the first field of `x`. */
  lemma SecondField(prefix: string, x: string)
    requires '_' !in prefix
    ensures |Split(prefix + "_" + x, '_')| >= 2
    ensures Split(prefix + "_" + x, '_')[1] == Split(x, '_')[0]
  {
    assert prefix + "_" + x == prefix + ['_'] + x;
    SplitCons(prefix, '_', x);
  }

  /** The part before the first 'h' of the first '_'-field of
      `digits + "h" + rest` is the digits. */
  lemma HourField(d: string, rest: string)
    requires forall k :: 0 <= k < |d| ==> IsDigit(d[k])
    ensures Split(Split(d + "h" + rest, '_')[0], 'h')[0] == d
  {
    var dh := d + "h";
    assert forall k :: 0 <= k < |dh| ==> dh[k] != '_' by {
      forall k | 0 <= k < |dh| ensures dh[k] != '_' {
        if k < |d| {
          assert dh[k] == d[k];
        }
      }
    }
    SplitFirstExtends(dh, rest, '_');
    var tail := Split(rest, '_')[0];
    assert dh + tail == d + ['h'] + tail;
    assert forall k :: 0 <= k < |d| ==> d[k] != 'h';
    SplitCons(d, 'h', tail);
  }

  /** A label `<anything without '_'>_<n>h<anything>` parses to `n` hours;
      for instance "Organoid_120h" gives 120. */
  lemma ParseTimepointOf(prefix: string, n: nat, rest: string)
    requires '_' !in prefix
    ensures ParseTimepoint(Str(prefix + "_" + Decimal(n) + "h" + rest)) == Ok(n)
  {
    var d := Decimal(n);
    var x := d + "h" + rest;
    assert prefix + "_" + d + "h" + rest == prefix + "_" + x;
    SecondField(prefix, x);
    HourField(d, rest);
    DecimalRoundTrip(n);
  }

  lemma Decimal120()
    ensures Decimal(120) == "120"
  {
    assert Decimal(1) == "1";
    assert Decimal(12) == "12";
  }

  lemma OrganoidLabel()
    ensures ParseTimepoint(Str("Organoid_120h")) == Ok(120)
  {
    Decimal120();
    ParseTimepointOf("Organoid", 120, "");
    assert "Organoid" + "_" + "120" + "h" + "" == "Organoid_120h";
  }

  /** A string label without '_' has no hours. */
  lemma NoUnderscoreNoTimepoint(s: string)
    requires '_' !in s
    ensures ParseTimepoint(Str(s)).Err?
  {
    assert IndexOf(s, '_') == |s|;
  }

  /** Each label in turn; the first that cannot be parsed is reported. */
  function ParseEach(labels: seq<Cell>): (r: Result<seq<nat>, AccessorError>)
    ensures r.Ok? <==> forall i :: 0 <= i < |labels| ==> ParseTimepoint(labels[i]).Ok?
    ensures r.Ok? ==> |r.value| == |labels| && forall i :: 0 <= i < |labels| ==> ParseTimepoint(labels[i]) == Ok(r.value[i])
  {
    if labels == [] then Ok([])
    else
      match ParseTimepoint(labels[0])
      case Err(e) => Err(e)
      case Ok(h) =>
        match ParseEach(labels[1..])
        case Err(e) => Err(e)
        case Ok(hs) =>
          assert forall i :: 0 < i < |labels| ==> labels[i] == labels[1..][i - 1];
          Ok([h] + hs)
  }

  /** `_get_timepoints`: the categories of `obs['donor']` and their hours. */
  function ReadTimepoints(f: Frame): (r: Result<(seq<Cell>, seq<nat>), AccessorError>)
    ensures "donor" !in f.cols ==> r == Err(MissingColumn("donor"))
    ensures "donor" in f.cols && "donor" !in f.cats ==> r == Err(NotCategorical("donor"))
    ensures "donor" in f.cols && "donor" in f.cats && f.cats["donor"] == [] ==> r == Err(NoTimepoints)
    ensures r.Ok? ==> "donor" in f.cats && r.value.0 == f.cats["donor"] && r.value.0 != [] &&
                      ParseEach(r.value.0) == Ok(r.value.1)
    ensures "donor" in f.cols && "donor" in f.cats && f.cats["donor"] != [] ==>
              (r.Err? <==> ParseEach(f.cats["donor"]).Err?)
  {
    if "donor" !in f.cols then Err(MissingColumn("donor"))
    else if "donor" !in f.cats then Err(NotCategorical("donor"))
    else
      var labels := f.cats["donor"];
      if labels == [] then Err(NoTimepoints)
      else
        match ParseEach(labels)
        case Err(e) => Err(e)
        case Ok(hours) => Ok((labels, hours))
  }

  // ------------------------------------------------------ pagapath_hmap

  /** The `value_func` of the heatmap: `ad.obs['dpt_pseudotime']`. */
  function Pseudotime(d: AnnData): (r: Result<Value, AccessorError>)
    ensures "dpt_pseudotime" !in d.obs.cols ==> r == Err(MissingColumn("dpt_pseudotime"))
    ensures "dpt_pseudotime" in d.obs.cols ==> r == Ok(Column(d.obs.cols["dpt_pseudotime"]))
  {
    if "dpt_pseudotime" in d.obs.cols then Ok(Column(d.obs.cols["dpt_pseudotime"]))
    else Err(MissingColumn("dpt_pseudotime"))
  }

  /** The heatmap's `distance` column is a copy of the pseudotime, which
      always has one value per row. */
  lemma DistanceIsPseudotime(d: AnnData)
    requires WellFormed(d.obs)
    ensures var r := Assigned(d, ObsSlot, "distance", Pseudotime);
            && (r.Err? <==> "dpt_pseudotime" !in d.obs.cols)
            && (r.Ok? ==> r.value.obs.cols["distance"] == d.obs.cols["dpt_pseudotime"] && r.value.uns == d.uns)
  {
  }

  /** `default_plot_kwargs.update(plot_kwargs)`. */
  /** The keywords `pagapath_hmap` itself passes to `paga_path`; a plot
      keyword argument with one of these names is given twice. */
  const PagaPathCallKeys: set<string> := {"nodes", "keys", "annotations", "return_data", "ax", "show"}

  function MergedPlotKwargs(plotKwargs: Kwargs): (r: Kwargs)
    ensures r.Keys == PagaPathDefaults.Keys + plotKwargs.Keys
    ensures forall k :: k in plotKwargs ==> r[k] == plotKwargs[k]
    ensures forall k :: k in PagaPathDefaults && k !in plotKwargs ==> r[k] == PagaPathDefaults[k]
  {
    Update(PagaPathDefaults, plotKwargs)
  }

  /** What `pagapath_hmap` does once `distance` is in place: merge the plot
      keyword arguments over the defaults, call `paga_path` (which refuses a
      keyword given twice), and with `save_df` export the table without
      overwriting. */
  method PlotPath(nodes: seq<string>, plotKwargs: Kwargs, saveDf: bool, name: Option<string>,
                  savePath: Option<string>, fs: FileSystem) returns (res: Result<Kwargs, AccessorError>)
    modifies fs
    ensures !saveDf ==> fs.paths == old(fs.paths)
    ensures var clash := plotKwargs.Keys * PagaPathCallKeys;
            clash != {} ==> res == Err(KeywordClash(clash)) && fs.paths == old(fs.paths)
    ensures var target := ParsePath(SavePathFor(nodes, name, savePath));
            var called := plotKwargs.Keys * PagaPathCallKeys == {};
            && (called && !saveDf ==> res == Ok(MergedPlotKwargs(plotKwargs)))
            && (called && saveDf && old(fs.Exists(target)) ==>
                  res == Err(SaveFailed(FileExists(target))) && fs.paths == old(fs.paths))
            && (called && saveDf && !old(fs.Exists(target)) ==>
                  && res == Ok(MergedPlotKwargs(plotKwargs))
                  && fs.paths == old(fs.paths) + {target} +
                       (if old(fs.Exists(Parent(target))) then {} else Lineage(Parent(target))))
  {
    var merged := MergedPlotKwargs(plotKwargs);
    var clash := merged.Keys * PagaPathCallKeys;
    DefaultsNeverClash(plotKwargs, PagaPathCallKeys);
    if clash != {} {
      return Err(KeywordClash(clash));
    }
    if saveDf {
      var path := SavePathFor(nodes, name, savePath);
      var saved := SaveCsv(fs, path);
      if saved.Fail? {
        return Err(SaveFailed(saved.error));
      }
    }
    res := Ok(merged);
  }

  // ------------------------------------------------------------ classes

  /** An AnnData object; `obs` and `uns` are updated in place by assignment. */
  class AnnDataObj {
    var obs: Frame
    var uns: map<string, Value>

    constructor Init(obs: Frame, uns: map<string, Value>)
      ensures this.obs == obs && this.uns == uns
    {
      this.obs := obs;
      this.uns := uns;
    }

    predicate Valid()
      reads this
    {
      WellFormed(obs)
    }

    function Snapshot(): AnnData
      reads this
    {
      AnnData(obs, uns)
    }

    /** `adata[mask].copy()`: a new object holding the selected rows. */
    method Subset(idx: seq<nat>) returns (c: AnnDataObj)
      requires Valid()
      requires forall j :: 0 <= j < |idx| ==> idx[j] < obs.nrows
      ensures fresh(c) && c.Valid()
      ensures c.obs == SelectRows(obs, idx) && c.uns == uns
    {
      c := new AnnDataObj.Init(SelectRows(obs, idx), uns);
    }

    /** `adata.copy()`. */
    method Copy() returns (c: AnnDataObj)
      ensures fresh(c)
      ensures c.obs == obs && c.uns == uns
    {
      c := new AnnDataObj.Init(obs, uns);
    }
  }

  /** `TLSAnnDataAccessor`: the object it wraps, and the timepoint labels and
      hours read when it was made. */
  class Accessor {
    var obj: AnnDataObj
    var timepointsCat: seq<Cell>
    var timepointsHours: seq<nat>

    constructor Init(obj: AnnDataObj, cat: seq<Cell>, hours: seq<nat>)
      ensures this.obj == obj && timepointsCat == cat && timepointsHours == hours
    {
      this.obj := obj;
      timepointsCat := cat;
      timepointsHours := hours;
    }

    predicate Valid()
      reads this, obj
    {
      obj.Valid()
    }

    /** `TLSAnnDataAccessor(adata)`: wraps `adata` itself (no copy) and reads
        its timepoints, which can fail. */
    static method Wrap(o: AnnDataObj) returns (r: Result<Accessor, AccessorError>)
      requires o.Valid()
      ensures ReadTimepoints(o.obs).Err? ==> r == Err(ReadTimepoints(o.obs).error)
      ensures ReadTimepoints(o.obs).Ok? ==>
                && r.Ok? && fresh(r.value) && r.value.obj == o && r.value.Valid()
                && r.value.timepointsCat == ReadTimepoints(o.obs).value.0
                && r.value.timepointsHours == ReadTimepoints(o.obs).value.1
    {
      var t := ReadTimepoints(o.obs);
      if t.Err? {
        return Err(t.error);
      }
      var a := new Accessor.Init(o, t.value.0, t.value.1);
      return Ok(a);
    }

    /** The `timepoints` property: the current categories of `obs['donor']`. */
    function Timepoints(): (r: Result<seq<Cell>, AccessorError>)
      reads this, obj
      ensures "donor" in obj.obs.cols && "donor" in obj.obs.cats ==> r == Ok(obj.obs.cats["donor"])
      ensures "donor" in obj.obs.cols && "donor" !in obj.obs.cats ==> r == Err(NotCategorical("donor"))
      ensures "donor" !in obj.obs.cols ==> r == Err(MissingColumn("donor"))
    {
      if "donor" !in obj.obs.cols then Err(MissingColumn("donor"))
      else if "donor" !in obj.obs.cats then Err(NotCategorical("donor"))
      else Ok(obj.obs.cats["donor"])
    }

    /** `_query(values, key)`. */
    method Query(values: Option<seq<Cell>>, key: string) returns (res: Outcome<AccessorError>)
      requires Valid()
      modifies this
      ensures Valid()
      ensures timepointsCat == old(timepointsCat) && timepointsHours == old(timepointsHours)
      ensures NoFilter(values) ==> res == Pass && obj == old(obj)
      ensures !NoFilter(values) ==> res == Validate(old(obj.obs), values.value, key)
      ensures !NoFilter(values) && res.Fail? ==> obj == old(obj)
      ensures !NoFilter(values) && res.Pass? ==>
                && fresh(obj)
                && key in old(obj.obs).cols
                && obj.obs == Filtered(old(obj.obs), values.value, key)
                && obj.uns == old(obj.uns)
    {
      if values.None? || values.value == [NA] || |values.value| == 0 {
        return Pass;
      }
      var vs := values.value;
      if key !in obj.obs.cols {
        return Fail(InvalidKey(key));
      }
      var col := obj.obs.cols[key];
      var i := 0;
      while i < |vs|
        invariant 0 <= i <= |vs|
        invariant forall j :: 0 <= j < i ==> vs[j] in col
      {
        if vs[i] !in col {
          FirstMissingAt(col, vs, i);
          return Fail(InvalidValue(key, vs[i]));
        }
        i := i + 1;
      }
      assert forall v :: v in vs ==> v in col;
      obj := obj.Subset(Positions(col, vs, true));
      res := Pass;
    }

    /** `query_clusters(method, cluster_ids)`. */
    method QueryClusters(clustering: string, clusterIds: Option<seq<Cell>>) returns (res: Outcome<AccessorError>)
      requires Valid()
      modifies this
      ensures Valid()
      ensures timepointsCat == old(timepointsCat) && timepointsHours == old(timepointsHours)
      ensures NoFilter(clusterIds) ==> res == Pass && obj == old(obj)
      ensures !NoFilter(clusterIds) ==> res == Validate(old(obj.obs), clusterIds.value, clustering)
      ensures !NoFilter(clusterIds) && res.Fail? ==> obj == old(obj)
      ensures !NoFilter(clusterIds) && res.Pass? ==>
                && fresh(obj)
                && clustering in old(obj.obs).cols
                && obj.obs == Filtered(old(obj.obs), clusterIds.value, clustering)
                && obj.uns == old(obj.uns)
    {
      res := Query(clusterIds, clustering);
    }

    /** `query_timepoints(timepoints)`: a query on the `donor` column. */
    method QueryTimepoints(timepoints: Option<seq<Cell>>) returns (res: Outcome<AccessorError>)
      requires Valid()
      modifies this
      ensures Valid()
      ensures timepointsCat == old(timepointsCat) && timepointsHours == old(timepointsHours)
      ensures NoFilter(timepoints) ==> res == Pass && obj == old(obj)
      ensures !NoFilter(timepoints) ==> res == Validate(old(obj.obs), timepoints.value, "donor")
      ensures !NoFilter(timepoints) && res.Fail? ==> obj == old(obj)
      ensures !NoFilter(timepoints) && res.Pass? ==>
                && fresh(obj)
                && "donor" in old(obj.obs).cols
                && obj.obs == Filtered(old(obj.obs), timepoints.value, "donor")
                && obj.uns == old(obj.uns)
    {
      res := Query(timepoints, "donor");
    }

    /** `exclude_clusters(method, cluster_ids)`: no validation of the ids. */
    method ExcludeClusters(clustering: string, clusterIds: Option<seq<Cell>>) returns (res: Outcome<AccessorError>)
      requires Valid()
      modifies this
      ensures Valid()
      ensures timepointsCat == old(timepointsCat) && timepointsHours == old(timepointsHours)
      ensures res == ExcludeCheck(old(obj.obs), clustering, clusterIds)
      ensures res.Fail? ==> obj == old(obj)
      ensures res.Pass? ==>
                && fresh(obj)
                && clustering in old(obj.obs).cols && clusterIds.Some?
                && obj.obs == Excluded(old(obj.obs), clustering, clusterIds.value)
                && obj.uns == old(obj.uns)
    {
      res := ExcludeCheck(obj.obs, clustering, clusterIds);
      if res.Pass? {
        obj := obj.Subset(Positions(obj.obs.cols[clustering], clusterIds.value, false));
      }
    }

    /** `_assign(slot, key, value_func)`: writes into the wrapped object. */
    method Assign(slot: Slot, key: string, valueFunc: AnnData -> Result<Value, AccessorError>) returns (res: Outcome<AccessorError>)
      requires Valid()
      modifies obj
      ensures Valid()
      ensures var r := Assigned(old(obj.Snapshot()), slot, key, valueFunc);
              && (r.Err? ==> res == Fail(r.error) && obj.Snapshot() == old(obj.Snapshot()))
              && (r.Ok? ==> res == Pass && obj.Snapshot() == r.value)
    {
      var r := Assigned(obj.Snapshot(), slot, key, valueFunc);
      match r
      case Err(e) =>
        return Fail(e);
      case Ok(d) =>
        obj.obs := d.obs;
        obj.uns := d.uns;
        return Pass;
    }

    /** `assign_obs(key=..., value_func=...)`. */
    method AssignObs(key: string, valueFunc: AnnData -> Result<Value, AccessorError>) returns (res: Outcome<AccessorError>)
      requires Valid()
      modifies obj
      ensures Valid()
      ensures var r := Assigned(old(obj.Snapshot()), ObsSlot, key, valueFunc);
              && (r.Err? ==> res == Fail(r.error) && obj.Snapshot() == old(obj.Snapshot()))
              && (r.Ok? ==> res == Pass && obj.Snapshot() == r.value)
    {
      res := Assign(ObsSlot, key, valueFunc);
    }

    /** `assign_uns(key=..., value_func=...)`. */
    method AssignUns(key: string, valueFunc: AnnData -> Result<Value, AccessorError>) returns (res: Outcome<AccessorError>)
      requires Valid()
      modifies obj
      ensures Valid()
      ensures var r := Assigned(old(obj.Snapshot()), UnsSlot, key, valueFunc);
              && (r.Err? ==> res == Fail(r.error) && obj.Snapshot() == old(obj.Snapshot()))
              && (r.Ok? ==> res == Pass && obj.Snapshot() == r.value)
    {
      res := Assign(UnsSlot, key, valueFunc);
    }

    /** `copy()`: a new accessor over a copy of the object, so that neither
        sees what is later done to the other. */
    method Copy() returns (r: Result<Accessor, AccessorError>)
      requires Valid()
      ensures ReadTimepoints(obj.obs).Err? ==> r == Err(ReadTimepoints(obj.obs).error)
      ensures ReadTimepoints(obj.obs).Ok? ==>
                && r.Ok? && fresh(r.value) && fresh(r.value.obj) && r.value.Valid()
                && r.value.obj.obs == obj.obs && r.value.obj.uns == obj.uns
                && r.value.timepointsCat == ReadTimepoints(obj.obs).value.0
                && r.value.timepointsHours == ReadTimepoints(obj.obs).value.1
    {
      var c := obj.Copy();
      r := Wrap(c);
    }

    /** The data side of `pagapath_hmap`: the `distance` column is assigned
        into the wrapped object, the plot keyword arguments are merged over
        the defaults, the `paga_path` call refuses a plot keyword argument
        that repeats one of its own, and with `save_df` the table is exported
        without overwriting. Returns the merged keyword arguments. */
    method PagapathHmap(nodes: seq<string>, plotKwargs: Kwargs, saveDf: bool, name: Option<string>,
                        savePath: Option<string>, fs: FileSystem) returns (res: Result<Kwargs, AccessorError>)
      requires Valid()
      modifies obj, fs
      ensures Valid()
      ensures var a := Assigned(old(obj.Snapshot()), ObsSlot, "distance", Pseudotime);
              && (a.Err? ==> res == Err(a.error) && obj.Snapshot() == old(obj.Snapshot()) && fs.paths == old(fs.paths))
              && (a.Ok? ==> obj.Snapshot() == a.value)
      ensures !saveDf ==> fs.paths == old(fs.paths)
      ensures var a := Assigned(old(obj.Snapshot()), ObsSlot, "distance", Pseudotime);
              var clash := plotKwargs.Keys * PagaPathCallKeys;
              a.Ok? && clash != {} ==> res == Err(KeywordClash(clash)) && fs.paths == old(fs.paths)
      ensures var a := Assigned(old(obj.Snapshot()), ObsSlot, "distance", Pseudotime);
              var target := ParsePath(SavePathFor(nodes, name, savePath));
              var called := a.Ok? && plotKwargs.Keys * PagaPathCallKeys == {};
              && (called && !saveDf ==> res == Ok(MergedPlotKwargs(plotKwargs)))
              && (called && saveDf && old(fs.Exists(target)) ==>
                    res == Err(SaveFailed(FileExists(target))) && fs.paths == old(fs.paths))
              && (called && saveDf && !old(fs.Exists(target)) ==>
                    && res == Ok(MergedPlotKwargs(plotKwargs))
                    && fs.paths == old(fs.paths) + {target} +
                         (if old(fs.Exists(Parent(target))) then {} else Lineage(Parent(target))))
    {
      var distance := AssignObs("distance", Pseudotime);
      if distance.Fail? {
        return Err(distance.error);
      }
      res := PlotPath(nodes, plotKwargs, saveDf, name, savePath, fs);
    }
  }
}
