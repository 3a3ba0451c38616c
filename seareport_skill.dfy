/** The seareport_skill package: classifying stations into ocean regions by
    first containing polygon, tagging a frame with the result in place, and
    building the combined statistics table of all model versions. */
module SeareportSkill {
  import opened Tables

  /** A shapely point built from two cells of a station row. */
  datatype Point = Point(x: Cell, y: Cell)

  /** One row of the regions table: its `name`, its `ocean` and its `geometry`.
      Geometries are opaque; containment is decided by a `within` predicate. */
  datatype Region<G> = Region(name: string, ocean: string, geometry: G)

  function StationPoint(station: Row, xstr: string, ystr: string): Point
    requires xstr in station.cells && ystr in station.cells
  {
    Point(station.cells[xstr], station.cells[ystr])
  }

  /** Position of the first region, in table order, whose geometry contains `p`. */
  function FirstContaining<G>(regions: seq<Region<G>>, p: Point, within: (Point, G) -> bool): (r: Option<nat>)
    ensures r.Some? ==> r.value < |regions| && within(p, regions[r.value].geometry)
    ensures r.Some? ==> forall k :: 0 <= k < r.value ==> !within(p, regions[k].geometry)
    ensures r.None? <==> forall k :: 0 <= k < |regions| ==> !within(p, regions[k].geometry)
  {
    if regions == [] then None
    else if within(p, regions[0].geometry) then Some(0)
    else match FirstContaining(regions[1..], p, within)
      case None => None
      case Some(i) => Some(i + 1)
  }

  /** The `(name, ocean)` pair of the first containing region, or `(None, None)`. */
  function Classify<G>(regions: seq<Region<G>>, p: Point, within: (Point, G) -> bool): (Option<string>, Option<string>)
  {
    match FirstContaining(regions, p, within)
    case None => (None, None)
    case Some(i) => (Some(regions[i].name), Some(regions[i].ocean))
  }

  /** The earliest containing region wins, whatever later regions contain. */
  lemma ClassifyFirstWins<G>(regions: seq<Region<G>>, p: Point, within: (Point, G) -> bool, i: nat)
    requires i < |regions| && within(p, regions[i].geometry)
    requires forall k :: 0 <= k < i ==> !within(p, regions[k].geometry)
    ensures Classify(regions, p, within) == (Some(regions[i].name), Some(regions[i].ocean))
  {
    var r := FirstContaining(regions, p, within);
    assert r.Some?;
    assert !(r.value < i) && !(i < r.value);
  }

  /** The result is `(None, None)` exactly when no region contains the point,
      and its two components are set or unset together. */
  lemma ClassifyNone<G>(regions: seq<Region<G>>, p: Point, within: (Point, G) -> bool)
    ensures Classify(regions, p, within) == (None, None) <==>
            forall k :: 0 <= k < |regions| ==> !within(p, regions[k].geometry)
    ensures Classify(regions, p, within).0.None? <==> Classify(regions, p, within).1.None?
  {
  }

  /** A point inside exactly one region gets that region, so the table order
      does not matter for it. */
  lemma ClassifyUnique<G>(regions: seq<Region<G>>, p: Point, within: (Point, G) -> bool, i: nat)
    requires i < |regions| && within(p, regions[i].geometry)
    requires forall k :: 0 <= k < |regions| && k != i ==> !within(p, regions[k].geometry)
    ensures Classify(regions, p, within) == (Some(regions[i].name), Some(regions[i].ocean))
  {
    ClassifyFirstWins(regions, p, within, i);
  }

  /** `find_ocean_for_station`: scans the regions in order and returns the
      `(name, ocean)` of the first one whose geometry contains the station point. */
  method FindOceanForStation<G>(station: Row, oceansDf: seq<Region<G>>, within: (Point, G) -> bool,
                                xstr: string, ystr: string)
    returns (name: Option<string>, ocean: Option<string>)
    requires xstr in station.cells && ystr in station.cells
    ensures (name, ocean) == Classify(oceansDf, StationPoint(station, xstr, ystr), within)
  {
    var point := StationPoint(station, xstr, ystr);
    var k := 0;
    while k < |oceansDf|
      invariant k <= |oceansDf|
      invariant forall j :: 0 <= j < k ==> !within(point, oceansDf[j].geometry)
    {
      if within(point, oceansDf[k].geometry) {
        ClassifyFirstWins(oceansDf, point, within, k);
        return Some(oceansDf[k].name), Some(oceansDf[k].ocean);
      }
      k := k + 1;
    }
    ClassifyNone(oceansDf, point, within);
    return None, None;
  }

  /** A Python label as a cell: None is missing. */
  function LabelCell(o: Option<string>): (c: Cell)
    ensures c.Missing? <==> o.None?
    ensures o.Some? ==> c == Str(o.value)
  {
    match o
    case None => Missing
    case Some(s) => Str(s)
  }

  /** A pandas DataFrame object, which `assign_oceans` updates in place. */
  class DataFrame {
    var columns: seq<string>
    var rows: seq<Row>

    constructor (f: Frame)
      ensures columns == f.columns && rows == f.rows
    {
      columns := f.columns;
      rows := f.rows;
    }

    function Value(): Frame
      reads this
    {
      Frame(columns, rows)
    }
  }

  /** Every station has both coordinate cells. */
  predicate HasCoordinates(f: Frame) {
    forall k :: 0 <= k < |f.rows| ==> "obs_lon" in f.rows[k].cells && "obs_lat" in f.rows[k].cells
  }

  function RowRegion<G>(f: Frame, oceans: seq<Region<G>>, within: (Point, G) -> bool, k: nat): (Option<string>, Option<string>)
    requires HasCoordinates(f) && k < |f.rows|
  {
    Classify(oceans, StationPoint(f.rows[k], "obs_lon", "obs_lat"), within)
  }

  /** The frame after `df[["name", "ocean"]] = df.apply(find_ocean_for_station, ...)`. */
  function WithRegions<G>(f: Frame, oceans: seq<Region<G>>, within: (Point, G) -> bool): Frame
    requires HasCoordinates(f)
  {
    var names := seq(|f.rows|, k requires 0 <= k < |f.rows| => LabelCell(RowRegion(f, oceans, within, k).0));
    var labels := seq(|f.rows|, k requires 0 <= k < |f.rows| => LabelCell(RowRegion(f, oceans, within, k).1));
    SetColumn(SetColumn(f, "name", names), "ocean", labels)
  }

  /** `assign_oceans` keeps the rows, their order, their index and every other
      column, and writes each row's classification into `name` and `ocean`,
      both missing or both set. */
  lemma WithRegionsSpec<G>(f: Frame, oceans: seq<Region<G>>, within: (Point, G) -> bool, k: nat, c: string)
    requires HasCoordinates(f) && k < |f.rows|
    ensures var g := WithRegions(f, oceans, within);
      && |g.rows| == |f.rows|
      && g.rows[k].index == f.rows[k].index
      && (c != "name" && c != "ocean" ==> Get(g.rows[k], c) == Get(f.rows[k], c))
      && Get(g.rows[k], "name") == LabelCell(RowRegion(f, oceans, within, k).0)
      && Get(g.rows[k], "ocean") == LabelCell(RowRegion(f, oceans, within, k).1)
      && (Get(g.rows[k], "name").Missing? <==> Get(g.rows[k], "ocean").Missing?)
  {
    var names := seq(|f.rows|, k requires 0 <= k < |f.rows| => LabelCell(RowRegion(f, oceans, within, k).0));
    var labels := seq(|f.rows|, k requires 0 <= k < |f.rows| => LabelCell(RowRegion(f, oceans, within, k).1));
    var g1 := SetColumn(f, "name", names);
    var g := SetColumn(g1, "ocean", labels);
    assert g == WithRegions(f, oceans, within);
    assert g1.rows[k].cells == f.rows[k].cells["name" := names[k]];
    assert g.rows[k].cells == g1.rows[k].cells["ocean" := labels[k]];
    ClassifyNone(oceans, StationPoint(f.rows[k], "obs_lon", "obs_lat"), within);
  }

  /** The classification adds `name` and `ocean` to the columns and keeps the
      frame well formed. */
  lemma WithRegionsColumns<G>(f: Frame, oceans: seq<Region<G>>, within: (Point, G) -> bool)
    requires HasCoordinates(f)
    ensures var g := WithRegions(f, oceans, within);
      && (forall c :: c in f.columns ==> c in g.columns)
      && "name" in g.columns && "ocean" in g.columns
      && (WellFormed(f) ==> WellFormed(g))
  {
  }

  /** Row `k` after classification: the input row with its `name` and `ocean` written in. */
  lemma WithRegionsRow<G>(f: Frame, oceans: seq<Region<G>>, within: (Point, G) -> bool, k: nat)
    requires HasCoordinates(f) && k < |f.rows|
    ensures var g := WithRegions(f, oceans, within);
      && |g.rows| == |f.rows|
      && g.rows[k] == Row(f.rows[k].index, f.rows[k].cells["name" := LabelCell(RowRegion(f, oceans, within, k).0)]
                                                         ["ocean" := LabelCell(RowRegion(f, oceans, within, k).1)])
  {
  }

  /** Classifying an already classified frame changes nothing: the cached
      per-version table that `assign_oceans` mutates stays the same however
      often a dashboard reclassifies it. */
  lemma WithRegionsIdempotent<G>(f: Frame, oceans: seq<Region<G>>, within: (Point, G) -> bool)
    requires HasCoordinates(f)
    ensures HasCoordinates(WithRegions(f, oceans, within))
    ensures WithRegions(WithRegions(f, oceans, within), oceans, within) == WithRegions(f, oceans, within)
  {
    var g := WithRegions(f, oceans, within);
    forall k | 0 <= k < |g.rows| ensures "obs_lon" in g.rows[k].cells && "obs_lat" in g.rows[k].cells {
      WithRegionsRow(f, oceans, within, k);
    }
    var h := WithRegions(g, oceans, within);
    WithRegionsColumns(f, oceans, within);
    assert h.columns == g.columns;
    forall k | 0 <= k < |g.rows| ensures h.rows[k] == g.rows[k] {
      WithRegionsRow(f, oceans, within, k);
      WithRegionsRow(g, oceans, within, k);
      assert StationPoint(g.rows[k], "obs_lon", "obs_lat") == StationPoint(f.rows[k], "obs_lon", "obs_lat");
      var m := g.rows[k].cells;
      assert m["name" := m["name"]]["ocean" := m["ocean"]] == m;
    }
  }

  /** `assign_oceans` as pandas evaluates it. On a table without rows or
      without columns, `apply` never calls the classifier and gives back a
      copy of the table, which fills the two target columns only when it has
      exactly two: ValueError otherwise. Else a station without `obs_lon` or
      `obs_lat` raises KeyError at `station[xstr]`. Otherwise the frame is
      classified. */
  function AssignedRegions<G>(f: Frame, oceans: seq<Region<G>>, within: (Point, G) -> bool): (r: Result<Frame>)
    ensures r.Err? <==> ((|f.rows| == 0 || |f.columns| == 0) && |f.columns| != 2) ||
                        exists k :: 0 <= k < |f.rows| && ("obs_lon" !in f.rows[k].cells || "obs_lat" !in f.rows[k].cells)
    ensures r.Err? && (|f.rows| == 0 || |f.columns| == 0) ==> r.error == ValueError
    ensures r.Err? && |f.rows| > 0 && |f.columns| > 0 ==> r.error == KeyError
    ensures r.Ok? ==> HasCoordinates(f) && r.value == WithRegions(f, oceans, within)
  {
    if (|f.rows| == 0 || |f.columns| == 0) && |f.columns| != 2 then Err(ValueError)
    else if !HasCoordinates(f) then Err(KeyError)
    else Ok(WithRegions(f, oceans, within))
  }

  /** Assigning the regions of a table with stations a second time, as the
      cached table invites, gives the same frame again. */
  lemma AssignedRegionsTwice<G>(f: Frame, oceans: seq<Region<G>>, within: (Point, G) -> bool)
    requires |f.rows| > 0
    ensures var r := AssignedRegions(f, oceans, within);
      r.Ok? ==> AssignedRegions(r.value, oceans, within) == r
  {
    var r := AssignedRegions(f, oceans, within);
    if r.Ok? {
      WithRegionsIdempotent(f, oceans, within);
      WithRegionsColumns(f, oceans, within);
      assert "name" in r.value.columns;
    }
  }

  /** `assign_oceans`: mutates `df` by (re)writing its `name` and `ocean`
      columns and returns the same object; on an error `df` is left as it was.
      The regions table, read from a file in the source, is a parameter. */
  method AssignOceans<G>(df: DataFrame, oceans: seq<Region<G>>, within: (Point, G) -> bool) returns (out: Result<DataFrame>)
    modifies df
    ensures var r := AssignedRegions(old(df.Value()), oceans, within);
      && (r.Err? ==> out == Err(r.error) && df.Value() == old(df.Value()))
      && (r.Ok? ==> out == Ok(df) && df.Value() == r.value)
  {
    var f := df.Value();
    if (|f.rows| == 0 || |f.columns| == 0) && |f.columns| != 2 {
      return Err(ValueError);
    }
    var names: seq<Cell> := [];
    var labels: seq<Cell> := [];
    for k := 0 to |f.rows|
      invariant df.Value() == f
      invariant |names| == k && |labels| == k
      invariant forall j :: 0 <= j < k ==> "obs_lon" in f.rows[j].cells && "obs_lat" in f.rows[j].cells
      invariant forall j :: 0 <= j < k ==> names[j] == LabelCell(Classify(oceans, StationPoint(f.rows[j], "obs_lon", "obs_lat"), within).0)
      invariant forall j :: 0 <= j < k ==> labels[j] == LabelCell(Classify(oceans, StationPoint(f.rows[j], "obs_lon", "obs_lat"), within).1)
    {
      if "obs_lon" !in f.rows[k].cells || "obs_lat" !in f.rows[k].cells {
        return Err(KeyError);
      }
      var name, ocean := FindOceanForStation(f.rows[k], oceans, within, "obs_lon", "obs_lat");
      names := names + [LabelCell(name)];
      labels := labels + [LabelCell(ocean)];
    }
    assert HasCoordinates(f);
    var g := SetColumn(SetColumn(f, "name", names), "ocean", labels);
    assert g == WithRegions(f, oceans, within);
    df.columns, df.rows := g.columns, g.rows;
    out := Ok(df);
  }

  /** One `v*.parquet` file of the assets directory, already read: its stem and its table. */
  datatype StatsFile = StatsFile(stem: string, table: Frame)

  function IndexKey(r: Row): string {
    r.index
  }

  /** `load_model_stats`: the file's table sorted by station index. */
  function LoadModelStats(raw: Frame): (f: Frame)
    ensures f.columns == raw.columns
    ensures multiset(f.rows) == multiset(raw.rows)
    ensures SortedBy(f.rows, IndexKey, false)
  {
    Frame(raw.columns, SortBy(raw.rows, IndexKey, false))
  }

  /** Sorting keeps every station's coordinates. */
  lemma LoadModelStatsCoordinates(raw: Frame)
    requires HasCoordinates(raw)
    ensures HasCoordinates(LoadModelStats(raw))
  {
    var f := LoadModelStats(raw);
    forall k | 0 <= k < |f.rows| ensures "obs_lon" in f.rows[k].cells && "obs_lat" in f.rows[k].cells {
      assert f.rows[k] in multiset(raw.rows);
      var j :| 0 <= j < |raw.rows| && raw.rows[j] == f.rows[k];
    }
  }

  /** `df[(df > -2) & (df < 2)]` on one cell: a value strictly inside (-2, 2)
      is kept, anything else becomes missing. */
  function Mask(c: Cell): (m: Cell)
    ensures m.Missing? || m == c
    ensures !m.Missing? <==> c.Num? && -2.0 < c.x < 2.0
  {
    match c
    case Num(x) => if -2.0 < x < 2.0 then c else Missing
    case _ => Missing
  }

  function MaskRow(r: Row): (m: Row)
    ensures m.index == r.index && m.cells.Keys == r.cells.Keys
    ensures forall c :: c in r.cells ==> m.cells[c] == Mask(r.cells[c])
  {
    Row(r.index, map c | c in r.cells :: Mask(r.cells[c]))
  }

  /** One file's contribution to `load_stats`: sorted, masked and tagged with its version. */
  function Tagged(file: StatsFile): Frame {
    var df := LoadModelStats(file.table);
    var masked := Frame(df.columns, seq(|df.rows|, k requires 0 <= k < |df.rows| => MaskRow(df.rows[k])));
    SetColumn(masked, "version", seq(|masked.rows|, k => Str(file.stem)))
  }

  /** Each tagged row is the matching row of the index-sorted table with every
      value outside (-2, 2) masked and `version` set to the file's stem; the
      tagged table is sorted by station index. */
  lemma TaggedSpec(file: StatsFile, k: nat, c: string)
    requires k < |Tagged(file).rows|
    ensures var t := Tagged(file); var sorted := LoadModelStats(file.table);
      && |t.rows| == |file.table.rows|
      && t.rows[k].index == sorted.rows[k].index
      && Get(t.rows[k], "version") == Str(file.stem)
      && (c != "version" ==> Get(t.rows[k], c) == (if c in sorted.rows[k].cells then Mask(Get(sorted.rows[k], c)) else Missing))
      && SortedBy(t.rows, IndexKey, false)
  {
    var t := Tagged(file);
    var sorted := LoadModelStats(file.table);
    assert multiset(sorted.rows) == multiset(file.table.rows);
    assert |sorted.rows| == |file.table.rows| by {
      assert |multiset(sorted.rows)| == |multiset(file.table.rows)|;
    }
    forall i, j | 0 <= i < j < |t.rows| ensures Before(t.rows[i], t.rows[j], IndexKey, false) {
      assert Before(sorted.rows[i], sorted.rows[j], IndexKey, false);
    }
  }

  function ConcatColumns(frames: seq<Frame>): seq<string> {
    if frames == [] then [] else ConcatColumns(frames[..|frames| - 1]) + frames[|frames| - 1].columns
  }

  /** A row widened to `cols`, absent columns reading as NaN. */
  function Pad(r: Row, cols: seq<string>): (p: Row)
    ensures p.index == r.index
    ensures forall c :: c in cols ==> Get(p, c) == Get(r, c)
  {
    Row(r.index, map c | c in cols :: Get(r, c))
  }

  function ConcatRows(frames: seq<Frame>, cols: seq<string>): seq<Row> {
    if frames == [] then []
    else
      var last := frames[|frames| - 1];
      ConcatRows(frames[..|frames| - 1], cols) + seq(|last.rows|, k requires 0 <= k < |last.rows| => Pad(last.rows[k], cols))
  }

  /** `pd.concat(frames)`: the union of the columns in order of appearance, and
      every row of every frame in order, widened to those columns. */
  function Concat(frames: seq<Frame>): Frame {
    var cols := Unique(ConcatColumns(frames));
    Frame(cols, ConcatRows(frames, cols))
  }

  /** Every file's contribution, in file order. */
  function AllTagged(files: seq<StatsFile>): (frames: seq<Frame>)
    ensures |frames| == |files| && forall k :: 0 <= k < |files| ==> frames[k] == Tagged(files[k])
  {
    MapSeq(Tagged, files)
  }

  function MapSeq<A, B>(f: A -> B, xs: seq<A>): (ys: seq<B>)
    ensures |ys| == |xs| && forall k :: 0 <= k < |xs| ==> ys[k] == f(xs[k])
  {
    seq(|xs|, k requires 0 <= k < |xs| => f(xs[k]))
  }

  lemma MapSeqStep<A, B>(f: A -> B, xs: seq<A>, k: nat)
    requires k < |xs|
    ensures MapSeq(f, xs[..k + 1]) == MapSeq(f, xs[..k]) + [f(xs[k])]
  {
    assert xs[..k + 1][..k] == xs[..k];
  }

  function VersionKey(r: Row): string {
    match Get(r, "version")
    case Str(s) => s
    case _ => ""
  }

  /** The body of `load_stats`'s loop: one file sorted by index, masked and
      tagged with its stem. */
  method ReadVersion(file: StatsFile) returns (df: Frame)
    ensures df == Tagged(file)
  {
    df := LoadModelStats(file.table);
    df := Frame(df.columns, seq(|df.rows|, j requires 0 <= j < |df.rows| => MaskRow(df.rows[j])));
    df := SetColumn(df, "version", seq(|df.rows|, j => Str(file.stem)));
  }

  /** `load_stats`: reads each version file, masks and tags it, concatenates
      the tables and sorts the result by version, descending; with no file
      there is nothing to concatenate and `pd.concat` raises ValueError. The
      directory listing and the file reads are the `files` parameter. */
  method LoadStats(files: seq<StatsFile>) returns (stats: Result<Frame>)
    ensures stats.Err? <==> files == []
    ensures stats.Err? ==> stats.error == ValueError
    ensures stats.Ok? ==> stats.value.columns == Concat(AllTagged(files)).columns
    ensures stats.Ok? ==> multiset(stats.value.rows) == multiset(Concat(AllTagged(files)).rows)
    ensures stats.Ok? ==> SortedBy(stats.value.rows, VersionKey, true)
  {
    var dataframes: seq<Frame> := [];
    for k := 0 to |files|
      invariant dataframes == AllTagged(files[..k])
    {
      var df := ReadVersion(files[k]);
      MapSeqStep(Tagged, files, k);
      dataframes := dataframes + [df];
    }
    assert files[..|files|] == files;
    if dataframes == [] {
      return Err(ValueError);
    }
    var combined := Concat(dataframes);
    stats := Ok(Frame(combined.columns, SortBy(combined.rows, VersionKey, true)));
  }

  /** Every row of a concatenation is a widened row of one of the frames. */
  lemma {:induction false} ConcatRowsMember(frames: seq<Frame>, cols: seq<string>, r: Row)
    requires r in ConcatRows(frames, cols)
    ensures exists k, j :: 0 <= k < |frames| && 0 <= j < |frames[k].rows| && r == Pad(frames[k].rows[j], cols)
  {
    var init := frames[..|frames| - 1];
    var last := frames[|frames| - 1];
    var tail := seq(|last.rows|, k requires 0 <= k < |last.rows| => Pad(last.rows[k], cols));
    assert ConcatRows(frames, cols) == ConcatRows(init, cols) + tail;
    if r in ConcatRows(init, cols) {
      ConcatRowsMember(init, cols, r);
      var k, j :| 0 <= k < |init| && 0 <= j < |init[k].rows| && r == Pad(init[k].rows[j], cols);
      assert init[k] == frames[k];
    } else {
      var j :| 0 <= j < |tail| && tail[j] == r;
      assert r == Pad(frames[|frames| - 1].rows[j], cols);
    }
  }

  /** Every row of the combined table carries the stem of the file it came
      from as its `version`. */
  lemma ConcatRowsVersion(files: seq<StatsFile>, cols: seq<string>, r: Row)
    requires "version" in cols
    requires r in ConcatRows(AllTagged(files), cols)
    ensures exists k :: 0 <= k < |files| && Get(r, "version") == Str(files[k].stem)
  {
    var frames := AllTagged(files);
    ConcatRowsMember(frames, cols, r);
    var k, j :| 0 <= k < |frames| && 0 <= j < |frames[k].rows| && r == Pad(frames[k].rows[j], cols);
    assert frames[k] == Tagged(files[k]);
    assert Get(r, "version") == Get(frames[k].rows[j], "version");
    TaggedSpec(files[k], j, "version");
  }

  /** The combined table has a `version` column whenever there is a file. */
  lemma {:induction false} ConcatColumnsHasVersion(files: seq<StatsFile>)
    requires files != []
    ensures "version" in ConcatColumns(AllTagged(files))
  {
    var frames := AllTagged(files);
    assert "version" in frames[|frames| - 1].columns;
  }

  /** `load_stats` tags every row with the version of a file it read. */
  lemma LoadStatsVersions(files: seq<StatsFile>, stats: Frame, r: Row)
    requires multiset(stats.rows) == multiset(Concat(AllTagged(files)).rows)
    requires r in stats.rows
    ensures exists k :: 0 <= k < |files| && Get(r, "version") == Str(files[k].stem)
  {
    assert r in multiset(Concat(AllTagged(files)).rows);
    assert files != [];
    ConcatColumnsHasVersion(files);
    ConcatRowsVersion(files, Unique(ConcatColumns(AllTagged(files))), r);
  }
}
