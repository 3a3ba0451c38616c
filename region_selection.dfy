/** What the two regional dashboards share: the stations of one model version
    labelled by region, the row filter and panel height for the selected
    oceans or sectors, the selector shown in the sidebar, the metric's label
    and the histogram panel built from them. */
module RegionSelection {
  import opened Tables
  import opened Colors
  import opened Settings
  import opened SeareportSkill
  import opened Hists

  /** `assign_oceans(load_model_stats(version))`: the version's stations in
      index order, with the `name` and `ocean` of their region, or the error
      `assign_oceans` raises. */
  function Stations<G>(raw: Frame, regions: seq<Region<G>>, within: (Point, G) -> bool): Result<Frame> {
    AssignedRegions(LoadModelStats(raw), regions, within)
  }

  /** The value of the regions table's `ocean` or `name` column, per region;
      KeyError for any other column. */
  function RegionColumn<G>(regions: seq<Region<G>>, column: string): (r: Result<seq<Cell>>)
    ensures r.Err? <==> column != "ocean" && column != "name"
    ensures r.Err? ==> r.error == KeyError
    ensures r.Ok? ==> |r.value| == |regions|
    ensures r.Ok? && column == "ocean" ==> forall k :: 0 <= k < |regions| ==> r.value[k] == Str(regions[k].ocean)
    ensures r.Ok? && column == "name" ==> forall k :: 0 <= k < |regions| ==> r.value[k] == Str(regions[k].name)
  {
    if column == "ocean" then Ok(seq(|regions|, k requires 0 <= k < |regions| => Str(regions[k].ocean)))
    else if column == "name" then Ok(seq(|regions|, k requires 0 <= k < |regions| => Str(regions[k].name)))
    else Err(KeyError)
  }

  /** Every station's region label is missing, or one of the regions table's
      labels in that column: missing exactly when no region contains it. */
  lemma StationLabel<G>(raw: Frame, regions: seq<Region<G>>, within: (Point, G) -> bool, column: string, row: Row)
    requires column == "ocean" || column == "name"
    requires Stations(raw, regions, within).Ok? && row in Stations(raw, regions, within).value.rows
    ensures Get(row, column) == Missing || Get(row, column) in RegionColumn(regions, column).value
  {
    var f := LoadModelStats(raw);
    var rows := Stations(raw, regions, within).value.rows;
    var k :| 0 <= k < |rows| && rows[k] == row;
    WithRegionsSpec(f, regions, within, k, column);
    var i := FirstContaining(regions, StationPoint(f.rows[k], "obs_lon", "obs_lat"), within);
    if i.Some? {
      assert RegionColumn(regions, column).value[i.value] == Get(row, column);
    }
  }

  /** The labelled stations have `name` and `ocean` columns. */
  lemma StationsColumns<G>(raw: Frame, regions: seq<Region<G>>, within: (Point, G) -> bool)
    ensures var s := Stations(raw, regions, within);
      s.Ok? ==> "ocean" in s.value.columns && "name" in s.value.columns
  {
    if Stations(raw, regions, within).Ok? {
      WithRegionsColumns(LoadModelStats(raw), regions, within);
    }
  }

  /** The sidebar widget `display_selector` shows. */
  datatype Selector = OceansSelector | SectorSelector

  /** `display_selector`: the oceans list for "ocean", the sector list for anything else. */
  function DisplaySelector(typeSelect: string): (s: Selector)
    ensures s == OceansSelector <==> typeSelect == "ocean"
    ensures s == SectorSelector <==> typeSelect != "ocean"
  {
    if typeSelect == "ocean" then OceansSelector else SectorSelector
  }

  /** `stats[column].isin(selection)` for one row: a missing label is never selected. */
  predicate Selected(r: Row, column: string, selection: seq<string>) {
    Get(r, column).Str? && Get(r, column).s in selection
  }

  /** The boolean mask `stats[column].isin(selection)`, row by row. */
  function SelectedBy(column: string, selection: seq<string>): Row -> bool {
    (r: Row) => Selected(r, column, selection)
  }

  /** The column a grouping filters on and the selection that applies to it. */
  function Grouping(typeSelect: string, oceansVal: seq<string>, sectorVal: seq<string>): (g: (string, seq<string>))
    ensures typeSelect == "ocean" ==> g == ("ocean", oceansVal)
    ensures typeSelect != "ocean" ==> g == ("name", sectorVal)
  {
    if typeSelect == "ocean" then ("ocean", oceansVal) else ("name", sectorVal)
  }

  /** The filter and height rule of `update_plots`: with a selection, only the
      stations whose ocean (or sector name) is selected remain and the panel is
      30 pixels per selected entry plus 90; without one, every station remains
      and the height is 300 for oceans, 500 for sectors. */
  function SelectStations(stats: Frame, typeSelect: string, oceansVal: seq<string>, sectorVal: seq<string>): (r: (Frame, nat))
    ensures r.0.columns == stats.columns
    ensures var (column, selection) := Grouping(typeSelect, oceansVal, sectorVal);
      forall row :: row in r.0.rows <==> row in stats.rows && (selection == [] || Selected(row, column, selection))
    ensures var (column, selection) := Grouping(typeSelect, oceansVal, sectorVal);
      && (selection == [] ==> r.0 == stats)
      && (selection != [] ==> KeptAt(r.0.rows, stats.rows, SelectedBy(column, selection),
                                     KeptPositions(stats.rows, SelectedBy(column, selection))))
    ensures var selection := Grouping(typeSelect, oceansVal, sectorVal).1;
      r.1 == if selection != [] then 30 * |selection| + 90 else if typeSelect == "ocean" then 300 else 500
  {
    var (column, selection) := Grouping(typeSelect, oceansVal, sectorVal);
    var height := if selection != [] then |selection| * 30 + 90 else if typeSelect == "ocean" then 300 else 500;
    if selection == [] then (stats, height)
    else
      var kept := Filter(stats.rows, SelectedBy(column, selection));
      KeptRows(stats.rows, column, selection);
      (Frame(stats.columns, kept), height)
  }

  lemma KeptRows(rows: seq<Row>, column: string, selection: seq<string>)
    ensures forall row :: row in Filter(rows, SelectedBy(column, selection)) <==> row in rows && Selected(row, column, selection)
  {
    var kept := Filter(rows, SelectedBy(column, selection));
    forall row | row in kept ensures row in rows && Selected(row, column, selection) {
      var k :| 0 <= k < |kept| && kept[k] == row;
    }
    forall row | row in rows && Selected(row, column, selection) ensures row in kept {
      var k :| 0 <= k < |rows| && rows[k] == row;
    }
  }

  /** The filter of `map_plot`, which repeats that of `update_plots` without the height. */
  function MapPlotStations(stats: Frame, typeSelect: string, oceansVal: seq<string>, sectorVal: seq<string>): Frame {
    if typeSelect == "ocean" then
      if oceansVal != [] then Frame(stats.columns, Filter(stats.rows, SelectedBy("ocean", oceansVal))) else stats
    else
      if sectorVal != [] then Frame(stats.columns, Filter(stats.rows, SelectedBy("name", sectorVal))) else stats
  }

  /** `map_plot` draws exactly the stations the histogram counts. */
  lemma MapPlotSameStations(stats: Frame, typeSelect: string, oceansVal: seq<string>, sectorVal: seq<string>)
    ensures MapPlotStations(stats, typeSelect, oceansVal, sectorVal).columns == SelectStations(stats, typeSelect, oceansVal, sectorVal).0.columns
    ensures forall row :: row in MapPlotStations(stats, typeSelect, oceansVal, sectorVal).rows <==>
                          row in SelectStations(stats, typeSelect, oceansVal, sectorVal).0.rows
    ensures MapPlotStations(stats, typeSelect, oceansVal, sectorVal) == SelectStations(stats, typeSelect, oceansVal, sectorVal).0
  {
    var (column, selection) := Grouping(typeSelect, oceansVal, sectorVal);
    KeptRows(stats.rows, column, selection);
  }

  /** When every label of a frame is missing or one of `labels`, and none of
      `labels` is missing, its distinct labels all lie in `labels` exactly when
      no row's label is missing. */
  lemma LabelsCovered(f: Frame, column: string, labels: seq<Cell>)
    requires forall row :: row in f.rows ==> Get(row, column) == Missing || Get(row, column) in labels
    requires Missing !in labels
    ensures var groups := Unique(Column(f, column));
      (forall k :: 0 <= k < |groups| ==> groups[k] in labels) <==> (forall row :: row in f.rows ==> Get(row, column) != Missing)
  {
    var col := Column(f, column);
    var groups := Unique(col);
    if forall row :: row in f.rows ==> Get(row, column) != Missing {
      forall k | 0 <= k < |groups| ensures groups[k] in labels {
        var j :| 0 <= j < |col| && col[j] == groups[k];
        assert f.rows[j] in f.rows;
      }
    } else {
      var row :| row in f.rows && Get(row, column) == Missing;
      var j :| 0 <= j < |f.rows| && f.rows[j] == row;
      assert col[j] == Missing;
      var k :| 0 <= k < |groups| && groups[k] == Missing;
      assert groups[k] !in labels;
      assert !(forall k :: 0 <= k < |groups| ==> groups[k] in labels);
      assert !(forall row :: row in f.rows ==> Get(row, column) != Missing);
      assert groups == Unique(Column(f, column));
      assert (forall k :: 0 <= k < |groups| ==> groups[k] in labels) <==> (forall row :: row in f.rows ==> Get(row, column) != Missing);
    }
  }

  /** The group labels of the selected stations all occur in the regions
      table exactly when no selected station is unclassified; a non-empty
      selection never keeps an unclassified station. */
  lemma SelectedLabels<G>(raw: Frame, regions: seq<Region<G>>, within: (Point, G) -> bool,
                          typeSelect: string, oceansVal: seq<string>, sectorVal: seq<string>)
    requires typeSelect == "ocean" || typeSelect == "name"
    requires Stations(raw, regions, within).Ok?
    ensures var selected := SelectStations(Stations(raw, regions, within).value, typeSelect, oceansVal, sectorVal).0;
      var groups := Unique(Column(selected, typeSelect));
      && ((forall k :: 0 <= k < |groups| ==> groups[k] in RegionColumn(regions, typeSelect).value) <==>
          (forall row :: row in selected.rows ==> Get(row, typeSelect) != Missing))
      && (Grouping(typeSelect, oceansVal, sectorVal).1 != [] ==> forall row :: row in selected.rows ==> Get(row, typeSelect) != Missing)
  {
    var stats := Stations(raw, regions, within).value;
    var selected := SelectStations(stats, typeSelect, oceansVal, sectorVal).0;
    var labels := RegionColumn(regions, typeSelect).value;
    forall row | row in selected.rows ensures Get(row, typeSelect) == Missing || Get(row, typeSelect) in labels {
      StationLabel(raw, regions, within, typeSelect, row);
    }
    LabelsCovered(selected, typeSelect, labels);
  }

  /** `list(METRICS.keys())[list(METRICS.values()).index(metric)]`: the label
      of the first metric entry with that column; ValueError when none has it. */
  function MetricLabel(metric: string): (r: Result<string>)
    ensures r.Err? <==> forall i :: 0 <= i < |METRICS| ==> METRICS[i].1 != metric
    ensures r.Err? ==> r.error == ValueError
    ensures r.Ok? ==> exists i :: 0 <= i < |METRICS| && METRICS[i] == (r.value, metric)
                               && forall j :: 0 <= j < i ==> METRICS[j].1 != metric
  {
    match KeyOf(METRICS, metric)
    case None => Err(ValueError)
    case Some(key) => Ok(key)
  }

  /** The histogram panel of a regional dashboard: the histogram, its height
      and the metric's label. */
  datatype Panel = Panel(hist: HistSpec, height: nat, title: string)

  function HistOf(r: Result<Panel>): Result<HistSpec> {
    if r.Err? then Err(r.error) else Ok(r.value.hist)
  }

  /** What a regional dashboard's panel is once its stations are labelled:
      the colour key's error, else ValueError for an unknown metric, else the
      histogram outcome over the selection, with its height and the label. */
  ghost predicate PanelOutcome(stats: Frame, key: Result<Dict<Cell, Color>>, typeSelect: string, metric: string,
                               oceansVal: seq<string>, sectorVal: seq<string>, r: Result<Panel>) {
    var selected := SelectStations(stats, typeSelect, oceansVal, sectorVal);
    && (key.Err? ==> r == Err(key.error))
    && (key.Ok? && MetricLabel(metric).Err? ==> r == Err(ValueError))
    && (key.Ok? && MetricLabel(metric).Ok? ==> HistOutcome(selected.0, metric, typeSelect, Some(key.value), [], HistOf(r)))
    && (r.Ok? ==> r.value.height == selected.1 && r.value.title == MetricLabel(metric).value)
  }

  /** From the labelled stations and a colour key on: the selection and height,
      the metric label (ValueError when unknown), then the histogram of the
      metric grouped by the chosen column and coloured by the key. */
  method HistPanel(stats: Frame, typeSelect: string, metric: string, oceansVal: seq<string>, sectorVal: seq<string>,
                   cmap: Dict<Cell, Color>)
    returns (r: Result<Panel>)
    ensures var selected := SelectStations(stats, typeSelect, oceansVal, sectorVal);
      && (MetricLabel(metric).Err? ==> r == Err(ValueError))
      && (MetricLabel(metric).Ok? ==> HistOutcome(selected.0, metric, typeSelect, Some(cmap), [], HistOf(r)))
      && (r.Ok? ==> r.value.height == selected.1 && r.value.title == MetricLabel(metric).value)
  {
    var (selected, height) := SelectStations(stats, typeSelect, oceansVal, sectorVal);
    var title := MetricLabel(metric);
    if title.Err? {
      return Err(title.error);
    }
    var hist := Hist(selected, metric, typeSelect, Some(cmap), []);
    if hist.Err? {
      return Err(hist.error);
    }
    return Ok(Panel(hist.value, height, title.value));
  }
}
