/** The histogram helpers: a one-hot table with one column per group, coloured
    either by cycling a palette or by a supplied colour key, and a render hook
    that stacks the bars of successive groups on top of each other. */
module Hists {
  import opened Tables
  import opened Colors

  /** The x range of the bins: errors that are small in metres get (0, 0.5). */
  function BinRange(z: string): (r: (real, real))
    ensures r.0 == 0.0
    ensures r.1 == 0.5 <==> z in ["rmse", "rms", "bias"]
    ensures r.1 != 0.5 ==> r.1 == 1.0
  {
    if z in ["rmse", "rms", "bias"] then (0.0, 0.5) else (0.0, 1.0)
  }

  /** The number of bins `hist_` always asks for. */
  const BINS: nat := 25

  /** The numeric values of a column, skipping missing ones as pandas does:
      each number as often as the column holds it. */
  function Numbers(col: seq<Cell>): (xs: seq<real>)
    ensures |xs| <= |col|
    ensures forall x :: x in xs <==> Num(x) in col
    ensures forall x :: multiset(xs)[x] == multiset(col)[Num(x)]
  {
    if col == [] then []
    else
      assert col == [col[0]] + col[1..];
      (if col[0].Num? then [col[0].x] else []) + Numbers(col[1..])
  }

  /** The numbers of stacked columns are those of the first, then those of the second. */
  lemma {:induction false} NumbersAppend(a: seq<Cell>, b: seq<Cell>)
    ensures Numbers(a + b) == Numbers(a) + Numbers(b)
  {
    if a == [] {
      assert a + b == b;
    } else {
      assert (a + b)[1..] == a[1..] + b;
      NumbersAppend(a[1..], b);
    }
  }

  function Sum(xs: seq<real>): real {
    if xs == [] then 0.0 else xs[0] + Sum(xs[1..])
  }

  /** `Series.mean()`: None where pandas gives NaN (no numeric value). The
      mean is taken over exact reals, without float64 rounding. */
  function Mean(col: seq<Cell>): (m: Option<real>)
    ensures m.None? <==> Numbers(col) == []
  {
    var xs := Numbers(col);
    if xs == [] then None else Some(Sum(xs) / (|xs| as real))
  }

  /** `s` lies between `n` copies of `lo` and `n` copies of `hi`. */
  predicate ScaledBetween(s: real, n: real, lo: real, hi: real) {
    lo * n <= s <= hi * n
  }

  lemma {:induction false} SumBounds(xs: seq<real>, lo: real, hi: real)
    requires forall k :: 0 <= k < |xs| ==> lo <= xs[k] <= hi
    ensures ScaledBetween(Sum(xs), |xs| as real, lo, hi)
  {
    if xs != [] {
      SumBounds(xs[1..], lo, hi);
      assert lo <= xs[0] <= hi;
    }
  }

  /** A column of cells holding at least one number has a mean between their
      extremes. */
  lemma MeanBounds(col: seq<Cell>, lo: real, hi: real)
    requires forall k :: 0 <= k < |Numbers(col)| ==> lo <= Numbers(col)[k] <= hi
    requires Numbers(col) != []
    ensures lo <= Mean(col).value <= hi
  {
    var xs := Numbers(col);
    SumBounds(xs, lo, hi);
    ScaleBounds(Sum(xs), |xs| as real, lo, hi);
  }

  /** Dividing by `n` undoes the scaling of the bounds. */
  lemma ScaleBounds(s: real, n: real, lo: real, hi: real)
    requires n > 0.0 && ScaledBetween(s, n, lo, hi)
    ensures lo <= s / n <= hi
  {
    var q := s / n;
    assert q * n == s;
    assert (q - lo) * n >= 0.0 && (hi - q) * n >= 0.0;
  }

  /** The plot `hist_` hands to hvplot: one histogram column per group, with
      its colour, over the bin range, titled with the mean. */
  datatype HistSpec = HistSpec(
    groups: seq<Cell>,
    rows: seq<map<Cell, Cell>>,
    colors: seq<Color>,
    binRange: (real, real),
    bins: nat,
    mean: Option<real>)

  /** One row of the one-hot table: every group missing except the row's own,
      which holds the row's value. */
  predicate OneHot(row: map<Cell, Cell>, groups: seq<Cell>, group: Cell, value: Cell) {
    && row.Keys == (set k | 0 <= k < |groups| :: groups[k])
    && group in row && row[group] == value
    && forall k :: 0 <= k < |groups| && groups[k] != group ==> row[groups[k]] == Missing
  }

  /** The one-hot encoding loop: one row per source row, in order. */
  method OneHotRows(src: Frame, z: string, g: string, groups: seq<Cell>) returns (rows: seq<map<Cell, Cell>>)
    requires forall k :: 0 <= k < |src.rows| ==> Get(src.rows[k], g) in groups
    ensures |rows| == |src.rows|
    ensures forall k :: 0 <= k < |src.rows| ==> OneHot(rows[k], groups, Get(src.rows[k], g), Get(src.rows[k], z))
  {
    rows := [];
    for k := 0 to |src.rows|
      invariant |rows| == k
      invariant forall j :: 0 <= j < k ==> OneHot(rows[j], groups, Get(src.rows[j], g), Get(src.rows[j], z))
    {
      var row := src.rows[k];
      var newRow := map o | o in groups :: Missing;
      newRow := newRow[Get(row, g) := Get(row, z)];
      assert newRow.Keys == (set i | 0 <= i < |groups| :: groups[i]) by {
        forall o | o in newRow ensures o in (set i | 0 <= i < |groups| :: groups[i]) {
          var i :| 0 <= i < |groups| && groups[i] == o;
        }
      }
      rows := rows + [newRow];
    }
  }

  /** Whether every group has a colour in the supplied key. */
  predicate Covered(groups: seq<Cell>, key: Dict<Cell, Color>) {
    forall k :: 0 <= k < |groups| ==> groups[k] in Keys(key)
  }

  /** `[map[ocean] for ocean in unique_oceans]`, one colour per group. */
  method GroupColors(groups: seq<Cell>, key: Option<Dict<Cell, Color>>, palette: seq<Color>) returns (r: Result<seq<Color>>)
    requires (key.None? ==> |palette| > 0) && NoDups(groups)
    ensures r.Err? <==> key.Some? && !Covered(groups, key.value)
    ensures r.Err? ==> r.error == KeyError
    ensures r.Ok? ==> |r.value| == |groups|
    ensures r.Ok? && key.None? ==> forall k :: 0 <= k < |groups| ==> r.value[k] == palette[k % |palette|]
    ensures r.Ok? && key.Some? ==> forall k :: 0 <= k < |groups| ==> Lookup(key.value, groups[k]) == Some(r.value[k])
  {
    var mapping := if key.Some? then key.value else CycleMap(groups, palette);
    var colors: seq<Color> := [];
    for k := 0 to |groups|
      invariant |colors| == k
      invariant forall j :: 0 <= j < k ==> groups[j] in Keys(mapping) && Lookup(mapping, groups[j]) == Some(colors[j])
    {
      var c := Lookup(mapping, groups[k]);
      if c.None? {
        return Err(KeyError);
      }
      colors := colors + [c.value];
    }
    if key.None? {
      forall k | 0 <= k < |groups| ensures colors[k] == palette[k % |palette|] {
        CycleMapLookup(groups, palette, k);
      }
    }
    return Ok(colors);
  }

  /** In a cycled key, a group's colour is that of its first position. */
  lemma CycleMapLookup(groups: seq<Cell>, palette: seq<Color>, k: nat)
    requires |palette| > 0 && k < |groups| && NoDups(groups)
    ensures Lookup(CycleMap(groups, palette), groups[k]) == Some(palette[k % |palette|])
  {
    var m := CycleMap(groups, palette);
    assert Keys(m) == groups;
    assert Find(Keys(m), groups[k]) == Some(k);
  }

  /** Some cell is a string: `Series.mean()` then raises TypeError. */
  predicate HasText(col: seq<Cell>) {
    exists k :: 0 <= k < |col| && col[k].Str?
  }

  /** What `hist_` yields for these arguments: an error exactly when a column
      is absent (KeyError), both columns are the same (AttributeError), the
      value column holds text (TypeError, from the mean) or the supplied key
      lacks a group (KeyError); otherwise the distinct groups in order of first
      appearance, one one-hot row per source row, a colour per group, the bin
      range for `z` and the mean of `z`. */
  ghost predicate HistOutcome(src: Frame, z: string, g: string, key: Option<Dict<Cell, Color>>, palette: seq<Color>, r: Result<HistSpec>)
    requires key.None? ==> |palette| > 0
  {
    && (r.Err? <==> z !in src.columns || g !in src.columns || z == g || HasText(Column(src, z)) ||
                    (key.Some? && !Covered(Unique(Column(src, g)), key.value)))
    && (r.Err? && (z !in src.columns || g !in src.columns) ==> r.error == KeyError)
    && (r.Err? && z in src.columns && g in src.columns && z == g ==> r.error == AttributeError)
    && (r.Err? && z in src.columns && g in src.columns && z != g && HasText(Column(src, z)) ==> r.error == TypeError)
    && (r.Err? && z in src.columns && g in src.columns && z != g && !HasText(Column(src, z)) ==> r.error == KeyError)
    && (r.Ok? ==> r.value.groups == Unique(Column(src, g)))
    && (r.Ok? ==> |r.value.rows| == |src.rows|)
    && (r.Ok? ==> forall k :: 0 <= k < |src.rows| ==> OneHot(r.value.rows[k], r.value.groups, Get(src.rows[k], g), Get(src.rows[k], z)))
    && (r.Ok? ==> |r.value.colors| == |r.value.groups|)
    && (r.Ok? && key.None? ==> forall k :: 0 <= k < |r.value.groups| ==> r.value.colors[k] == palette[k % |palette|])
    && (r.Ok? && key.Some? ==> forall k :: 0 <= k < |r.value.groups| ==> Lookup(key.value, r.value.groups[k]) == Some(r.value.colors[k]))
    && (r.Ok? ==> r.value.binRange == BinRange(z) && r.value.bins == BINS && r.value.mean == Mean(Column(src, z)))
  }

  /** `hist_(src, z, g, map)`: selects the value and group columns, one-hot
      encodes the rows by the group's distinct values, colours the groups
      (cycling `palette` when no key is supplied) and picks the bin range. */
  method Hist(src: Frame, z: string, g: string, key: Option<Dict<Cell, Color>>, palette: seq<Color>)
    returns (r: Result<HistSpec>)
    requires key.None? ==> |palette| > 0
    ensures HistOutcome(src, z, g, key, palette, r)
  {
    if z !in src.columns || g !in src.columns {
      return Err(KeyError);
    }
    if z == g {
      return Err(AttributeError);
    }
    var groups := Unique(Column(src, g));
    assert forall k :: 0 <= k < |src.rows| ==> Get(src.rows[k], g) in groups by {
      forall k | 0 <= k < |src.rows| ensures Get(src.rows[k], g) in groups {
        assert Column(src, g)[k] == Get(src.rows[k], g);
      }
    }
    var rows := OneHotRows(src, z, g, groups);
    if HasText(Column(src, z)) {
      return Err(TypeError);
    }
    var colors := GroupColors(groups, key, palette);
    if colors.Err? {
      return Err(colors.error);
    }
    return Ok(HistSpec(groups, rows, colors.value, BinRange(z), BINS, Mean(Column(src, z))));
  }

  /** The parameters of `hist_`, in order; the first two have no default. */
  const HIST_PARAMETERS: seq<string> := ["src", "z", "g", "map"]
  const HIST_REQUIRED: nat := 2

  /** How Python binds a call with `positional` positional arguments and the
      named `keywords` to `params`, whose first `required` have no default:
      the positional arguments fill the leading parameters, then each keyword
      in turn must name a parameter not yet bound; finally every required
      parameter must be bound. Any failure is a TypeError. The result lists
      the bound parameters. */
  function BindCall(params: seq<string>, required: nat, positional: nat, keywords: seq<string>): (r: Result<seq<string>>)
    requires NoDups(params) && required <= |params|
    ensures r.Err? <==> positional > |params| || (exists k :: k in keywords && k !in params) ||
                        !NoDups(params[..positional] + keywords) ||
                        exists i :: 0 <= i < required && params[i] !in params[..positional] + keywords
    ensures r.Err? ==> r.error == TypeError
    ensures r.Ok? ==> NoDups(r.value) && forall p :: p in r.value <==> p in params[..positional] || p in keywords
    ensures r.Ok? ==> forall i :: 0 <= i < required ==> params[i] in r.value
  {
    if positional > |params| then Err(TypeError)
    else
      BindKeywordsSpec(params, params[..positional], keywords);
      match BindKeywords(params, params[..positional], keywords)
      case Err(e) => Err(e)
      case Ok(bound) =>
        if exists i :: 0 <= i < required && params[i] !in bound then Err(TypeError) else Ok(bound)
  }

  /** Binds the keywords one at a time onto the parameters already `bound`. */
  function BindKeywords(params: seq<string>, bound: seq<string>, keywords: seq<string>): Result<seq<string>>
    decreases |keywords|
  {
    if keywords == [] then Ok(bound)
    else if keywords[0] !in params || keywords[0] in bound then Err(TypeError)
    else BindKeywords(params, bound + [keywords[0]], keywords[1..])
  }

  /** Binding keywords succeeds exactly when each names a parameter and no
      name is bound twice, and then appends them. */
  lemma {:induction false} BindKeywordsSpec(params: seq<string>, bound: seq<string>, keywords: seq<string>)
    requires NoDups(bound)
    ensures var r := BindKeywords(params, bound, keywords);
      && (r.Err? <==> (exists k :: k in keywords && k !in params) || !NoDups(bound + keywords))
      && (r.Err? ==> r.error == TypeError)
      && (r.Ok? ==> r.value == bound + keywords)
    decreases |keywords|
  {
    if keywords == [] {
      assert bound + keywords == bound;
    } else {
      var k0 := keywords[0];
      assert bound + keywords == (bound + [k0]) + keywords[1..];
      if k0 !in params {
      } else if k0 in bound {
        var i :| 0 <= i < |bound| && bound[i] == k0;
        assert (bound + keywords)[i] == (bound + keywords)[|bound|];
      } else {
        assert NoDups(bound + [k0]);
        BindKeywordsSpec(params, bound + [k0], keywords[1..]);
        assert forall k :: k in keywords <==> k == k0 || k in keywords[1..];
      }
    }
  }

  /** The dashboards call `hist_(stats, metric, label, g=..., map=...)`: the
      third positional argument already fills `g`, so the call always fails. */
  lemma HistCallAsWritten()
    ensures BindCall(HIST_PARAMETERS, HIST_REQUIRED, 3, ["g", "map"]) == Err(TypeError)
  {
    var both := HIST_PARAMETERS[..3] + ["g", "map"];
    assert both[2] == both[3];
  }

  /** Passing only the frame and the metric by position binds every parameter once. */
  lemma HistCallCorrected()
    ensures BindCall(HIST_PARAMETERS, HIST_REQUIRED, 2, ["g", "map"]).Ok?
    ensures forall p :: p in BindCall(HIST_PARAMETERS, HIST_REQUIRED, 2, ["g", "map"]).value <==> p in HIST_PARAMETERS
  {
    assert HIST_PARAMETERS[..2] + ["g", "map"] == HIST_PARAMETERS;
  }

  /** `hist_(stats)` leaves `z` unbound. */
  lemma HistCallMissingMetric()
    ensures BindCall(HIST_PARAMETERS, HIST_REQUIRED, 1, []) == Err(TypeError)
  {
    assert HIST_PARAMETERS[1] !in HIST_PARAMETERS[..1] + [];
  }

  /** A bar glyph of the rendered histogram with its data source. */
  class Renderer {
    var glyphBottom: string
    var top: seq<real>
    var bottom: seq<real>

    constructor (top: seq<real>)
      ensures this.top == top && bottom == [] && glyphBottom == ""
    {
      this.top := top;
      bottom := [];
      glyphBottom := "";
    }
  }

  /** The rendered histogram: its bar glyphs and the end of its y range. */
  class Plot {
    const renderers: seq<Renderer>
    var yEnd: real
    var yResetEnd: real

    constructor (renderers: seq<Renderer>)
      ensures this.renderers == renderers && yEnd == 0.0 && yResetEnd == 0.0
    {
      this.renderers := renderers;
      yEnd := 0.0;
      yResetEnd := 0.0;
    }
  }

  function Zeros(n: nat): (z: seq<real>)
    ensures |z| == n && forall b :: 0 <= b < n ==> z[b] == 0.0
  {
    seq(n, b => 0.0)
  }

  /** Element-wise sum, as numpy adds two arrays of one shape. */
  function AddV(a: seq<real>, b: seq<real>): (c: seq<real>)
    requires |a| == |b|
    ensures |c| == |a| && forall i :: 0 <= i < |a| ==> c[i] == a[i] + b[i]
  {
    seq(|a|, i requires 0 <= i < |a| => a[i] + b[i])
  }

  /** The running offset after the first `k` layers: their tops summed bin by bin. */
  function Offset(tops: seq<seq<real>>, k: nat, n: nat): (o: seq<real>)
    requires k <= |tops| && forall i :: 0 <= i < |tops| ==> |tops[i]| == n
    ensures |o| == n
  {
    if k == 0 then Zeros(n) else AddV(tops[k - 1], Offset(tops, k - 1, n))
  }

  /** With non-negative counts, the stack after `k` layers is at least every
      one of those layers, and never negative. */
  lemma {:induction false} OffsetCovers(tops: seq<seq<real>>, k: nat, n: nat, i: nat, b: nat)
    requires k <= |tops| && forall j :: 0 <= j < |tops| ==> |tops[j]| == n
    requires forall j, c :: 0 <= j < |tops| && 0 <= c < n ==> tops[j][c] >= 0.0
    requires b < n
    ensures Offset(tops, k, n)[b] >= 0.0
    ensures i < k ==> Offset(tops, k, n)[b] >= tops[i][b]
  {
    if k > 0 {
      OffsetCovers(tops, k - 1, n, i, b);
      assert Offset(tops, k, n)[b] == tops[k - 1][b] + Offset(tops, k - 1, n)[b];
    }
  }

  /** The largest element. */
  function Max(xs: seq<real>): (m: real)
    requires xs != []
    ensures m in xs && forall i :: 0 <= i < |xs| ==> xs[i] <= m
  {
    if |xs| == 1 then xs[0]
    else
      var rest := Max(xs[1..]);
      assert forall i :: 1 <= i < |xs| ==> xs[i] == xs[1..][i - 1];
      if xs[0] >= rest then xs[0] else rest
  }

  /** One iteration of `stacked_hist`: the glyph draws from its `bottom`
      field, which becomes the running offset, and its top moves up by it. */
  method Raise(r: Renderer, offset: seq<real>) returns (newOffset: seq<real>)
    requires |r.top| == |offset|
    modifies r
    ensures r.glyphBottom == "bottom"
    ensures r.top == newOffset == AddV(old(r.top), offset)
    ensures r.bottom == offset
  {
    r.glyphBottom := "bottom";
    newOffset := AddV(r.top, offset);
    r.top := newOffset;
    r.bottom := offset;
  }

  ghost function Tops(rs: seq<Renderer>): (ts: seq<seq<real>>)
    reads set i | 0 <= i < |rs| :: rs[i]
    ensures |ts| == |rs| && forall i :: 0 <= i < |rs| ==> ts[i] == rs[i].top
  {
    seq(|rs|, i reads set i | 0 <= i < |rs| :: rs[i] requires 0 <= i < |rs| => rs[i].top)
  }

  /** Glyph `i` after stacking: drawn from its bottom, which is the sum of the
      counts below it, up to that sum plus its own counts. */
  ghost predicate Layered(r: Renderer, tops: seq<seq<real>>, i: nat, n: nat)
    reads r
    requires i < |tops| && forall j :: 0 <= j < |tops| ==> |tops[j]| == n
  {
    r.glyphBottom == "bottom" && r.top == Offset(tops, i + 1, n) && r.bottom == Offset(tops, i, n)
  }

  /** Every glyph of `rs` is layered over the counts `tops`. */
  ghost predicate Stacked(rs: seq<Renderer>, tops: seq<seq<real>>, n: nat)
    reads set i | 0 <= i < |rs| :: rs[i]
    requires |tops| == |rs| && forall j :: 0 <= j < |tops| ==> |tops[j]| == n
  {
    forall i :: 0 <= i < |rs| ==> Layered(rs[i], tops, i, n)
  }

  /** The loop of `stacked_hist` over glyphs whose counts were `tops`; the
      final offset is the sum of all counts. */
  method StackLayers(rs: seq<Renderer>, n: nat, ghost tops: seq<seq<real>>) returns (offset: seq<real>)
    requires forall i, j :: 0 <= i < j < |rs| ==> rs[i] != rs[j]
    requires |tops| == |rs| && forall i :: 0 <= i < |rs| ==> |tops[i]| == n && rs[i].top == tops[i]
    modifies set i | 0 <= i < |rs| :: rs[i]
    ensures offset == Offset(tops, |rs|, n)
    ensures Stacked(rs, tops, n)
  {
    offset := Zeros(n);
    for k := 0 to |rs|
      invariant offset == Offset(tops, k, n)
      invariant forall i :: k <= i < |rs| ==> rs[i].top == tops[i]
      invariant forall i :: 0 <= i < k ==> Layered(rs[i], tops, i, n)
    {
      offset := Raise(rs[k], offset);
    }
  }

  /** `y_range.end` and `y_range.reset_end` both become `top`. */
  method SetYRange(plot: Plot, top: real)
    modifies plot
    ensures plot.yEnd == top && plot.yResetEnd == top
  {
    plot.yEnd, plot.yResetEnd := top, top;
  }

  /** `stacked_hist`: walks the bar glyphs in order, moving each one's bars up
      by the running offset (its bottom becomes the offset, its top the offset
      plus its counts); then the y range ends 10% above the highest stack.
      `max(offset)` fails with TypeError when there is no glyph (the offset is
      still the integer 0) and with ValueError when there are no bins. Every
      glyph has the same number `n` of bins. */
  method StackedHist(plot: Plot, n: nat) returns (err: Option<PyError>)
    requires forall i, j :: 0 <= i < j < |plot.renderers| ==> plot.renderers[i] != plot.renderers[j]
    requires forall i :: 0 <= i < |plot.renderers| ==> |plot.renderers[i].top| == n
    modifies plot, set i | 0 <= i < |plot.renderers| :: plot.renderers[i]
    ensures Stacked(plot.renderers, old(Tops(plot.renderers)), n)
    ensures err == (if |plot.renderers| == 0 then Some(TypeError) else if n == 0 then Some(ValueError) else None)
    ensures err.None? ==> plot.yEnd == plot.yResetEnd == Max(Offset(old(Tops(plot.renderers)), |plot.renderers|, n)) * 1.1
    ensures err.Some? ==> plot.yEnd == old(plot.yEnd) && plot.yResetEnd == old(plot.yResetEnd)
  {
    var rs := plot.renderers;
    ghost var tops := Tops(rs);
    var offset := StackLayers(rs, n, tops);
    if |rs| == 0 {
      return Some(TypeError);
    }
    if n == 0 {
      return Some(ValueError);
    }
    SetYRange(plot, Max(offset) * 1.1);
    return None;
  }
}
