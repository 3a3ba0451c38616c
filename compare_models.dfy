/** The model comparison dashboard: the combined statistics table cut down to
    the selected versions and metrics, then a box plot and a summary table per
    metric, both sized by the number of versions shown. */
module CompareModels {
  import opened Tables
  import opened Settings

  /** An empty widget selection stands for every value of the catalogue, in
      catalogue order. */
  function Defaulted(selection: seq<string>, catalogue: Dict<string, string>): (r: seq<string>)
    ensures selection != [] ==> r == selection
    ensures selection == [] ==> |r| == |catalogue| && forall i :: 0 <= i < |catalogue| ==> r[i] == catalogue[i].1
  {
    if selection == [] then Values(catalogue) else selection
  }

  /** `stats.version.isin(versions)` for one row: a missing version is never selected. */
  predicate VersionIn(r: Row, versions: seq<string>) {
    Get(r, "version").Str? && Get(r, "version").s in versions
  }

  /** One row restricted to the columns `cols`. */
  function Project(r: Row, cols: seq<string>): (p: Row)
    ensures p.index == r.index
    ensures forall c :: c in cols ==> Get(p, c) == Get(r, c)
    ensures forall c :: c !in cols ==> c !in p.cells
  {
    Row(r.index, map c | c in r.cells && c in cols :: r.cells[c])
  }

  /** The boolean mask `stats.version.isin(versions)`, row by row. */
  function VersionSelected(versions: seq<string>): Row -> bool {
    (r: Row) => VersionIn(r, versions)
  }

  /** `_get_stats`: the rows whose version is selected, restricted to the
      selected metrics followed by `version`. AttributeError from
      `stats.version` when the table has no `version` column, otherwise
      KeyError when a selected metric does not exist. The loaded table is a
      parameter. */
  function GetStats(stats: Frame, versions: seq<string>, metrics: seq<string>): (r: Result<Frame>)
    ensures r.Err? <==> exists c :: c in metrics + ["version"] && c !in stats.columns
    ensures r.Err? && "version" !in stats.columns ==> r.error == AttributeError
    ensures r.Err? && "version" in stats.columns ==> r.error == KeyError
    ensures r.Ok? ==> r.value.columns == metrics + ["version"]
    ensures r.Ok? ==> forall row :: row in r.value.rows ==> VersionIn(row, versions)
    ensures r.Ok? ==> forall row :: row in r.value.rows <==>
                        exists src :: src in stats.rows && VersionIn(src, versions) && row == Project(src, metrics + ["version"])
    ensures r.Ok? ==> var idx := KeptPositions(stats.rows, VersionSelected(versions));
      |r.value.rows| == |idx| &&
      forall k :: 0 <= k < |idx| ==> r.value.rows[k] == Project(stats.rows[idx[k]], metrics + ["version"])
  {
    var cols := metrics + ["version"];
    if "version" !in stats.columns then Err(AttributeError)
    else if exists c :: c in cols && c !in stats.columns then Err(KeyError)
    else
      var kept := Filter(stats.rows, VersionSelected(versions));
      ProjectedRows(stats.rows, versions, cols);
      Ok(Frame(cols, ProjectAll(kept, cols)))
  }

  function ProjectAll(rows: seq<Row>, cols: seq<string>): (p: seq<Row>)
    ensures |p| == |rows| && forall k :: 0 <= k < |rows| ==> p[k] == Project(rows[k], cols)
  {
    seq(|rows|, k requires 0 <= k < |rows| => Project(rows[k], cols))
  }

  lemma ProjectedRows(rows: seq<Row>, versions: seq<string>, cols: seq<string>)
    requires "version" in cols
    ensures var kept := Filter(rows, VersionSelected(versions));
      forall row :: row in ProjectAll(kept, cols) <==>
        exists src :: src in rows && VersionIn(src, versions) && row == Project(src, cols)
  {
    var kept := Filter(rows, VersionSelected(versions));
    var projected := ProjectAll(kept, cols);
    forall row | row in projected
      ensures exists src :: src in rows && VersionIn(src, versions) && row == Project(src, cols)
    {
      var k :| 0 <= k < |kept| && projected[k] == row;
      assert kept[k] in kept;
    }
    forall src | src in rows && VersionIn(src, versions) ensures Project(src, cols) in projected {
      var j :| 0 <= j < |rows| && rows[j] == src;
      assert src in kept;
      var k :| 0 <= k < |kept| && kept[k] == src;
      assert projected[k] == Project(src, cols);
    }
  }

  /** The versions named by the rows, in row order, skipping missing ones. */
  function VersionList(rows: seq<Row>): (vs: seq<string>)
    ensures forall v :: v in vs <==> exists r :: r in rows && Get(r, "version") == Str(v)
  {
    if rows == [] then []
    else
      var rest := VersionList(rows[1..]);
      assert forall r :: r in rows <==> r == rows[0] || r in rows[1..];
      match Get(rows[0], "version")
      case Str(v) => [v] + rest
      case _ => rest
  }

  /** The distinct versions present, as `stats.version.unique()` without NaN. */
  function Versions(stats: Frame): (vs: seq<string>)
    ensures NoDups(vs)
    ensures forall v :: v in vs <==> exists r :: r in stats.rows && Get(r, "version") == Str(v)
  {
    Unique(VersionList(stats.rows))
  }

  /** `100 + 20 * stats.version.nunique()`, shared by the box plot and the table. */
  function PlotHeight(stats: Frame): nat {
    100 + 20 * |Versions(stats)|
  }

  /** Every version the height counts is one of the selected versions. */
  lemma PlotHeightCountsSelected(stats: Frame, versions: seq<string>, metrics: seq<string>)
    requires GetStats(stats, versions, metrics).Ok?
    ensures forall v :: v in Versions(GetStats(stats, versions, metrics).value) ==> v in versions
  {
    var f := GetStats(stats, versions, metrics).value;
    forall v | v in Versions(f) ensures v in versions {
      assert v in VersionList(f.rows);
      var r :| r in f.rows && Get(r, "version") == Str(v);
      assert VersionIn(r, versions);
    }
  }

  /** A version is sorted by its own text. */
  function VersionText(v: string): string {
    v
  }

  /** The row labels of `groupby("version").describe(...)`: the versions
      present, ascending. */
  function TableRows(stats: Frame): seq<string> {
    SortBy(Versions(stats), VersionText, false)
  }

  /** The summary table is sorted by version and has exactly one row per
      version present. */
  lemma TableRowsSpec(stats: Frame)
    ensures SortedBy(TableRows(stats), VersionText, false)
    ensures forall v :: multiset(TableRows(stats))[v] == if v in Versions(stats) then 1 else 0
    ensures |TableRows(stats)| == |Versions(stats)|
  {
    NoDupsCount(Versions(stats));
  }

  lemma {:induction false} NoDupsCount<T>(s: seq<T>)
    requires NoDups(s)
    ensures forall v :: multiset(s)[v] == if v in s then 1 else 0
  {
    if s != [] {
      assert s == [s[0]] + s[1..];
      NoDupsCount(s[1..]);
      assert s[0] !in s[1..];
    }
  }

  /** A panel of the comparison: a box plot of a metric by version, or its
      summary table with one row per version. */
  datatype Chart = Box(metric: string, height: nat) | Table(metric: string, versions: seq<string>, height: nat)

  /** The loop of `show_metrics`: a box plot then a table for each metric, in order. */
  method Layout(metrics: seq<string>, rows: seq<string>, height: nat) returns (plots: seq<Chart>)
    ensures |plots| == 2 * |metrics|
    ensures forall i :: 0 <= i < |metrics| ==>
              plots[2 * i] == Box(metrics[i], height) && plots[2 * i + 1] == Table(metrics[i], rows, height)
  {
    plots := [];
    for i := 0 to |metrics|
      invariant |plots| == 2 * i
      invariant forall j :: 0 <= j < i ==>
                  plots[2 * j] == Box(metrics[j], height) && plots[2 * j + 1] == Table(metrics[j], rows, height)
    {
      plots := plots + [Box(metrics[i], height), Table(metrics[i], rows, height)];
    }
  }

  /** `show_metrics`: defaults empty selections to the whole catalogue, cuts
      the table down, then appends a box plot and a table for every metric in
      selection order. */
  method ShowMetrics(stats: Frame, versionsVal: seq<string>, metricsVal: seq<string>) returns (r: Result<seq<Chart>>)
    ensures var metrics := Defaulted(metricsVal, METRICS);
      var selected := GetStats(stats, Defaulted(versionsVal, VERSIONS), metrics);
      && (r.Err? <==> selected.Err?)
      && (r.Err? ==> r.error == selected.error)
      && (r.Ok? ==> |r.value| == 2 * |metrics|)
      && (r.Ok? ==> forall i :: 0 <= i < |metrics| ==>
            r.value[2 * i] == Box(metrics[i], PlotHeight(selected.value)) &&
            r.value[2 * i + 1] == Table(metrics[i], TableRows(selected.value), PlotHeight(selected.value)))
  {
    var versions := Defaulted(versionsVal, VERSIONS);
    var metrics := Defaulted(metricsVal, METRICS);
    var selected := GetStats(stats, versions, metrics);
    if selected.Err? {
      return Err(selected.error);
    }
    var plots := Layout(metrics, TableRows(selected.value), PlotHeight(selected.value));
    return Ok(plots);
  }
}
