/** The skill dashboard: per version, it labels every station with the first
    ocean containing it, builds a colour key for the labels, drops incomplete
    stations, derives `ioc_code` and `nse2`, and overlays one Taylor layer per
    ocean. */
module SkillApp {
  import opened Tables
  import opened Colors
  import opened SeareportSkill

  /** Version label -> version tag, as this dashboard lists them. */
  const VERSIONS: Dict<string, string> := [
    ("Global 50km", "v0"),
    ("Global 20km", "v0.2"),
    ("Global 7km", "v1.2"),
    ("Global 3km, L5 GSSHS", "v2.1"),
    ("Global 3km, L6 GSSHS", "v2.2")
  ]

  /** Parameter label -> metric column, as this dashboard lists them. */
  const PARAMS: Dict<string, string> := [
    ("Root Mean Square Error", "rmse"),
    ("Root Mean Square [m]", "rms"),
    ("Root Mean Square >95th percentile", "rms_95"),
    ("Bias [m]", "bias"),
    ("Kling-Guplta efficiency", "kge"),
    ("Nash-Sutcliffe model efficiency", "nse2"),
    ("Lamba index", "lamba"),
    ("Slope", "slope"),
    ("Slope of percentiles", "slopepp"),
    ("Correation Coefficient", "cr"),
    ("Correlation Coefficient >95th percentile", "cr_95"),
    ("Mean Absolute deviation", "mad"),
    ("Mean Absolute deviation of percentiles", "madp"),
    ("Normalized error on highest peak", "R1_norm"),
    ("Normalized error on 3 highest peaks", "R3_norm"),
    ("Normalized error on peaks >95th percentile", "error99"),
    ("Normalized error on peaks >99th percentile", "error95"),
    ("Error on highest peak [m]", "R1"),
    ("Error on 3 highest peaks [m]", "R3"),
    ("Error on peaks >95th percentile [m]", "error95m"),
    ("Error on peaks >99th percentile [m]", "error99m")
  ]

  /** The name of the first ocean, in table order, that contains `p`. */
  function OceanName<G>(oceans: seq<Region<G>>, p: Point, within: (Point, G) -> bool): (r: Option<string>)
    ensures r == Classify(oceans, p, within).0
    ensures r.None? <==> forall i :: 0 <= i < |oceans| ==> !within(p, oceans[i].geometry)
    ensures r.Some? ==> exists i :: 0 <= i < |oceans| && r.value == oceans[i].name && within(p, oceans[i].geometry)
                                  && forall j :: 0 <= j < i ==> !within(p, oceans[j].geometry)
  {
    match FirstContaining(oceans, p, within)
    case None => None
    case Some(i) => Some(oceans[i].name)
  }

  /** `find_ocean_for_station` of the dashboard: scans the oceans in order and
      returns the first containing one's name, or None. */
  method FindOceanName<G>(station: Row, oceansDf: seq<Region<G>>, within: (Point, G) -> bool,
                                xstr: string, ystr: string)
    returns (name: Option<string>)
    requires xstr in station.cells && ystr in station.cells
    ensures name.Some? <==> exists i :: 0 <= i < |oceansDf| && within(StationPoint(station, xstr, ystr), oceansDf[i].geometry)
    ensures name.Some? ==> exists i :: 0 <= i < |oceansDf| && name == Some(oceansDf[i].name)
                              && within(StationPoint(station, xstr, ystr), oceansDf[i].geometry)
                              && forall j :: 0 <= j < i ==> !within(StationPoint(station, xstr, ystr), oceansDf[j].geometry)
  {
    var point := StationPoint(station, xstr, ystr);
    for k := 0 to |oceansDf|
      invariant forall j :: 0 <= j < k ==> !within(point, oceansDf[j].geometry)
    {
      if within(point, oceansDf[k].geometry) {
        return Some(oceansDf[k].name);
      }
    }
    return None;
  }

  /** A version table as the dashboard needs it: well formed, numeric (the
      result of `astype(float)`), with station coordinates and an `nse` column. */
  ghost predicate StatsTable(f: Frame) {
    && WellFormed(f)
    && HasCoordinates(f)
    && "nse" in f.columns
    && forall k, c :: 0 <= k < |f.rows| && c in f.rows[k].cells ==> !f.rows[k].cells[c].Str?
  }

  /** `c` names the first ocean, in table order, that contains `p`, and is
      missing exactly when no ocean does. */
  predicate FirstOceanLabel<G>(c: Cell, oceans: seq<Region<G>>, p: Point, within: (Point, G) -> bool) {
    && (c == Missing <==> forall i :: 0 <= i < |oceans| ==> !within(p, oceans[i].geometry))
    && (c != Missing ==> exists i :: 0 <= i < |oceans| && c == Str(oceans[i].name) && within(p, oceans[i].geometry)
                                    && forall j :: 0 <= j < i ==> !within(p, oceans[j].geometry))
  }

  /** The ocean label of every station, `df.apply(find_ocean_for_station)`. */
  function OceanLabels<G>(f: Frame, oceans: seq<Region<G>>, within: (Point, G) -> bool): (labels: seq<Cell>)
    requires HasCoordinates(f)
    ensures |labels| == |f.rows|
    ensures forall k :: 0 <= k < |f.rows| ==> FirstOceanLabel(labels[k], oceans, StationPoint(f.rows[k], "obs_lon", "obs_lat"), within)
  {
    seq(|f.rows|, k requires 0 <= k < |f.rows| => LabelCell(OceanName(oceans, StationPoint(f.rows[k], "obs_lon", "obs_lat"), within)))
  }

  predicate Complete(r: Row) {
    forall c :: c in r.cells ==> !r.cells[c].Missing?
  }

  /** `df.dropna()`: the rows with no missing cell, in order. */
  function DropNa(f: Frame): Frame {
    Frame(f.columns, Filter(f.rows, Complete))
  }

  /** `df.loc[df["nse"] > 0, "nse2"] = df["nse"]` on one row. */
  function PositiveNse(r: Row): Cell {
    if Get(r, "nse").Num? && Get(r, "nse").x > 0.0 then Get(r, "nse") else Get(r, "nse2")
  }

  /** `df.loc[df["nse"] < 0, "nse2"] = 0` on one row. */
  function NegativeNse(r: Row): Cell {
    if Get(r, "nse").Num? && Get(r, "nse").x < 0.0 then Num(0.0) else Get(r, "nse2")
  }

  function ApplyRows(f: Frame, rule: Row -> Cell): (vals: seq<Cell>)
    ensures |vals| == |f.rows| && forall k :: 0 <= k < |f.rows| ==> vals[k] == rule(f.rows[k])
  {
    seq(|f.rows|, k requires 0 <= k < |f.rows| => rule(f.rows[k]))
  }

  function IocCodes(f: Frame): (vals: seq<Cell>)
    ensures |vals| == |f.rows| && forall k :: 0 <= k < |f.rows| ==> vals[k] == Str(f.rows[k].index)
  {
    seq(|f.rows|, k requires 0 <= k < |f.rows| => Str(f.rows[k].index))
  }

  /** The frame `update_data` leaves in `self.df`. */
  function RefreshedFrame<G>(f: Frame, oceans: seq<Region<G>>, within: (Point, G) -> bool): Frame
    requires HasCoordinates(f)
  {
    var labelled := SetColumn(f, "ocean", OceanLabels(f, oceans, within));
    var complete := DropNa(labelled);
    var coded := SetColumn(complete, "ioc_code", IocCodes(complete));
    var positive := SetColumn(coded, "nse2", ApplyRows(coded, PositiveNse));
    SetColumn(positive, "nse2", ApplyRows(positive, NegativeNse))
  }

  /** The colour key `update_data` leaves in `self.ocean_mapping`. */
  function RefreshedMapping<G>(f: Frame, oceans: seq<Region<G>>, within: (Point, G) -> bool, palette: seq<Color>): Dict<Cell, Color>
    requires HasCoordinates(f) && |palette| > 0
  {
    CycleMap(Unique(OceanLabels(f, oceans, within)), palette)
  }

  /** The regions drawn on the map: those whose name is one of the labels. */
  function RefreshedMapRegions<G>(f: Frame, oceans: seq<Region<G>>, within: (Point, G) -> bool): seq<Region<G>>
    requires HasCoordinates(f)
  {
    RegionsNamed(oceans, Unique(OceanLabels(f, oceans, within)))
  }

  /** `oceans_[oceans_["name"].isin(names)]`: the regions, in order, whose name is one of `names`. */
  function RegionsNamed<G>(oceans: seq<Region<G>>, names: seq<Cell>): (r: seq<Region<G>>)
    ensures forall k :: 0 <= k < |r| ==> r[k] in oceans && Str(r[k].name) in names
    ensures forall k :: 0 <= k < |oceans| && Str(oceans[k].name) in names ==> oceans[k] in r
  {
    if oceans == [] then []
    else
      var rest := RegionsNamed(oceans[1..], names);
      assert forall k :: 1 <= k < |oceans| ==> oceans[k] == oceans[1..][k - 1];
      (if Str(oceans[0].name) in names then [oceans[0]] else []) + rest
  }

  /** The selection keeps table order: it distributes over a split of the table. */
  lemma {:induction false} RegionsNamedAppend<G>(a: seq<Region<G>>, b: seq<Region<G>>, names: seq<Cell>)
    ensures RegionsNamed(a + b, names) == RegionsNamed(a, names) + RegionsNamed(b, names)
  {
    if a == [] {
      assert a + b == b;
    } else {
      assert (a + b)[1..] == a[1..] + b;
      RegionsNamedAppend(a[1..], b, names);
    }
  }

  /** `m` colours the distinct values of `s`: its keys are distinct, cover
      every value of `s` and come in order of first appearance in `s`, and key
      `i` gets `palette[i % |palette|]`. */
  predicate ColorKeyOf<K(==)>(m: Dict<K, Color>, s: seq<K>, palette: seq<Color>)
    requires |palette| > 0
  {
    && NoDups(Keys(m))
    && (forall k :: 0 <= k < |s| ==> s[k] in Keys(m))
    && (forall i :: 0 <= i < |m| ==> Keys(m)[i] in s && m[i].1 == palette[i % |palette|])
    && FirstAppearanceOrder(Keys(m), s)
  }

  /** Every value of `ks` occurs in `s`, earlier values of `ks` first. */
  predicate FirstAppearanceOrder<K(==)>(ks: seq<K>, s: seq<K>) {
    forall i, j :: 0 <= i < j < |ks| ==>
      Find(s, ks[i]).Some? && Find(s, ks[j]).Some? && Find(s, ks[i]).value < Find(s, ks[j]).value
  }

  /** The colour key has one key per distinct ocean label computed before the
      drop, in first-appearance order, and key `i` gets `palette[i % |palette|]`. */
  lemma RefreshedMappingSpec<G>(f: Frame, oceans: seq<Region<G>>, within: (Point, G) -> bool, palette: seq<Color>)
    requires HasCoordinates(f) && |palette| > 0
    ensures ColorKeyOf(RefreshedMapping(f, oceans, within, palette), OceanLabels(f, oceans, within), palette)
  {
    UniqueColorKey(OceanLabels(f, oceans, within), palette);
  }

  /** A cycled colour key over `unique()` colours the distinct values. */
  lemma UniqueColorKey<K>(s: seq<K>, palette: seq<Color>)
    requires |palette| > 0
    ensures ColorKeyOf(CycleMap(Unique(s), palette), s, palette)
  {
    UniqueOrder(s);
    assert FirstAppearanceOrder(Unique(s), s);
  }

  /** A station that no ocean contains puts a None key in the colour key,
      although the drop removes that station from the frame. */
  lemma RefreshedMappingKeepsNone<G>(f: Frame, oceans: seq<Region<G>>, within: (Point, G) -> bool, palette: seq<Color>, k: nat)
    requires StatsTable(f) && |palette| > 0 && k < |f.rows|
    requires forall i :: 0 <= i < |oceans| ==> !within(StationPoint(f.rows[k], "obs_lon", "obs_lat"), oceans[i].geometry)
    ensures Missing in Keys(RefreshedMapping(f, oceans, within, palette))
    ensures forall r :: r in RefreshedFrame(f, oceans, within).rows ==> !Get(r, "ocean").Missing?
  {
    var labels := OceanLabels(f, oceans, within);
    ClassifyNone(oceans, StationPoint(f.rows[k], "obs_lon", "obs_lat"), within);
    assert labels[k] == Missing;
    assert labels[k] in Unique(labels);
    forall r | r in RefreshedFrame(f, oceans, within).rows ensures !Get(r, "ocean").Missing? {
      var i :| 0 <= i < |RefreshedFrame(f, oceans, within).rows| && RefreshedFrame(f, oceans, within).rows[i] == r;
      RefreshedRow(f, oceans, within, i);
    }
  }

  /** Every row `update_data` keeps has an ocean label and no missing value
      other than possibly `nse2`; `ioc_code` is the row's index; `nse2` is `nse`
      when `nse > 0`, 0 when `nse < 0`, and what it was (missing for a new
      column) when `nse` is exactly 0. */
  lemma RefreshedRow<G>(f: Frame, oceans: seq<Region<G>>, within: (Point, G) -> bool, i: nat)
    requires StatsTable(f)
    requires i < |RefreshedFrame(f, oceans, within).rows|
    ensures var r := RefreshedFrame(f, oceans, within).rows[i];
      && Get(r, "ocean").Str?
      && (forall c :: c in r.cells && c != "nse2" ==> !r.cells[c].Missing?)
      && Get(r, "ioc_code") == Str(r.index)
      && Get(r, "nse").Num?
      && (Get(r, "nse").x > 0.0 ==> Get(r, "nse2") == Get(r, "nse"))
      && (Get(r, "nse").x < 0.0 ==> Get(r, "nse2") == Num(0.0))
      && (Get(r, "nse").x == 0.0 && "nse2" !in f.columns ==> Get(r, "nse2") == Missing)
  {
    RefreshedRows(f, oceans, within, i);
    CompleteRow(f, oceans, within, i);
    FinishRowSpec(DropNa(SetColumn(f, "ocean", OceanLabels(f, oceans, within))).rows[i]);
  }

  /** The last three steps of `update_data` on one row: `ioc_code`, then the
      two `nse2` assignments. */
  function FinishRow(r: Row): Row {
    var coded := Row(r.index, r.cells["ioc_code" := Str(r.index)]);
    var positive := Row(r.index, coded.cells["nse2" := PositiveNse(coded)]);
    Row(r.index, positive.cells["nse2" := NegativeNse(positive)])
  }

  /** Row `i` of the refreshed frame is row `i` after the drop, finished. */
  lemma RefreshedRows<G>(f: Frame, oceans: seq<Region<G>>, within: (Point, G) -> bool, i: nat)
    requires HasCoordinates(f)
    requires i < |RefreshedFrame(f, oceans, within).rows|
    ensures var complete := DropNa(SetColumn(f, "ocean", OceanLabels(f, oceans, within)));
      i < |complete.rows| && RefreshedFrame(f, oceans, within).rows[i] == FinishRow(complete.rows[i])
  {
    var complete := DropNa(SetColumn(f, "ocean", OceanLabels(f, oceans, within)));
    var coded := SetColumn(complete, "ioc_code", IocCodes(complete));
    var positive := SetColumn(coded, "nse2", ApplyRows(coded, PositiveNse));
    var last := SetColumn(positive, "nse2", ApplyRows(positive, NegativeNse));
    assert last == RefreshedFrame(f, oceans, within);
    assert coded.rows[i] == Row(complete.rows[i].index, complete.rows[i].cells["ioc_code" := Str(complete.rows[i].index)]);
    assert positive.rows[i] == Row(coded.rows[i].index, coded.rows[i].cells["nse2" := PositiveNse(coded.rows[i])]);
    assert last.rows[i] == Row(positive.rows[i].index, positive.rows[i].cells["nse2" := NegativeNse(positive.rows[i])]);
  }

  /** A complete row with an ocean name and a numeric `nse`, finished. */
  lemma FinishRowSpec(r: Row)
    requires "ocean" in r.cells && r.cells["ocean"].Str?
    requires "nse" in r.cells && r.cells["nse"].Num?
    requires forall c :: c in r.cells ==> !r.cells[c].Missing?
    ensures var s := FinishRow(r);
      && s.index == r.index
      && s.cells.Keys == r.cells.Keys + {"ioc_code", "nse2"}
      && Get(s, "ocean") == r.cells["ocean"]
      && (forall c :: c in r.cells && c != "ioc_code" && c != "nse2" ==> s.cells[c] == r.cells[c])
      && (forall c :: c in s.cells && c != "nse2" ==> !s.cells[c].Missing?)
      && Get(s, "ioc_code") == Str(s.index)
      && Get(s, "nse") == r.cells["nse"]
      && (Get(s, "nse").x > 0.0 ==> Get(s, "nse2") == Get(s, "nse"))
      && (Get(s, "nse").x < 0.0 ==> Get(s, "nse2") == Num(0.0))
      && (Get(s, "nse").x == 0.0 ==> Get(s, "nse2") == Get(r, "nse2"))
      && (Get(s, "nse").x == 0.0 && "nse2" !in r.cells ==> Get(s, "nse2") == Missing)
  {
  }

  /** A row that survives the drop: it has an ocean name, a numeric `nse`, no
      missing cell, and no `nse2` unless the input had that column. */
  lemma CompleteRow<G>(f: Frame, oceans: seq<Region<G>>, within: (Point, G) -> bool, i: nat)
    requires StatsTable(f)
    requires i < |DropNa(SetColumn(f, "ocean", OceanLabels(f, oceans, within))).rows|
    ensures var r := DropNa(SetColumn(f, "ocean", OceanLabels(f, oceans, within))).rows[i];
      && "ocean" in r.cells && r.cells["ocean"].Str?
      && "nse" in r.cells && r.cells["nse"].Num?
      && (forall c :: c in r.cells ==> !r.cells[c].Missing?)
      && ("nse2" !in f.columns ==> "nse2" !in r.cells)
  {
    var labels := OceanLabels(f, oceans, within);
    var j := DroppedRow(f, "ocean", labels, i);
    var r := DropNa(SetColumn(f, "ocean", labels)).rows[i];
    assert f.rows[j].cells.Keys == set c | c in f.columns;
    assert "nse" in f.rows[j].cells;
    assert labels[j].Missing? || labels[j].Str?;
  }

  /** Row `i` after a column is set and incomplete rows dropped is some input
      row `j` with that column's value written in, and has no missing cell. */
  lemma DroppedRow(f: Frame, c: string, vals: seq<Cell>, i: nat) returns (j: nat)
    requires |vals| == |f.rows| && i < |DropNa(SetColumn(f, c, vals)).rows|
    ensures j < |f.rows|
    ensures DropNa(SetColumn(f, c, vals)).rows[i] == Row(f.rows[j].index, f.rows[j].cells[c := vals[j]])
    ensures Complete(DropNa(SetColumn(f, c, vals)).rows[i])
  {
    var g := SetColumn(f, c, vals);
    var r := DropNa(g).rows[i];
    j :| 0 <= j < |g.rows| && g.rows[j] == r;
  }

  /** `df.apply(find_ocean_for_station, axis=1)`: one label per station, in row
      order, the first containing ocean's name or None. */
  method LabelStations<G>(f: Frame, oceans: seq<Region<G>>, within: (Point, G) -> bool) returns (labels: seq<Cell>)
    requires HasCoordinates(f)
    ensures labels == OceanLabels(f, oceans, within)
  {
    labels := [];
    for k := 0 to |f.rows|
      invariant labels == OceanLabels(f, oceans, within)[..k]
    {
      var p := StationPoint(f.rows[k], "obs_lon", "obs_lat");
      var name := FindOceanName(f.rows[k], oceans, within, "obs_lon", "obs_lat");
      assert name == OceanName(oceans, p, within) by {
        ClassifyNone(oceans, p, within);
        if name.Some? {
          var i :| 0 <= i < |oceans| && name == Some(oceans[i].name) && within(p, oceans[i].geometry)
                   && forall j :: 0 <= j < i ==> !within(p, oceans[j].geometry);
          ClassifyFirstWins(oceans, p, within, i);
        }
      }
      labels := labels + [LabelCell(name)];
    }
  }

  /** One overlay of the Taylor diagram: an ocean key, its colour and its rows; the
      first layer is the empty background diagram. */
  datatype Layer = Background | Overlay(key: Cell, color: Color, rows: seq<Row>)

  /** `df["ocean"] == ocean`: pandas compares None with nothing equal. */
  predicate SameLabel(c: Cell, key: Cell) {
    !c.Missing? && c == key
  }

  function OceanRows(rows: seq<Row>, key: Cell): seq<Row> {
    Filter(rows, (r: Row) => SameLabel(Get(r, "ocean"), key))
  }

  /** The layer overlaid for a key holds exactly that ocean's rows; for a None
      key it is empty. */
  lemma OceanRowsSpec(rows: seq<Row>, key: Cell, r: Row)
    ensures r in OceanRows(rows, key) <==> r in rows && !key.Missing? && Get(r, "ocean") == key
    ensures key.Missing? ==> OceanRows(rows, key) == []
  {
    var s := OceanRows(rows, key);
    if r in rows && !key.Missing? && Get(r, "ocean") == key {
      var k :| 0 <= k < |rows| && rows[k] == r;
    }
    if r in s {
      var k :| 0 <= k < |s| && s[k] == r;
    }
    if key.Missing? {
      FilterNone(rows, (r: Row) => SameLabel(Get(r, "ocean"), key));
    }
  }

  /** The Taylor diagram's layers: the empty background, then one overlay per
      colour key, in key order, with that ocean's rows and the key's colour. */
  method Overlays(mapping: Dict<Cell, Color>, rows: seq<Row>) returns (layers: seq<Layer>)
    ensures |layers| == |mapping| + 1 && layers[0] == Background
    ensures forall i :: 0 <= i < |mapping| ==> layers[i + 1] == Overlay(mapping[i].0, mapping[i].1, OceanRows(rows, mapping[i].0))
  {
    layers := [Background];
    for i := 0 to |mapping|
      invariant |layers| == i + 1 && layers[0] == Background
      invariant forall j :: 0 <= j < i ==> layers[j + 1] == Overlay(mapping[j].0, mapping[j].1, OceanRows(rows, mapping[j].0))
    {
      var ocean := mapping[i].0;
      layers := layers + [Overlay(ocean, mapping[i].1, OceanRows(rows, ocean))];
    }
  }

  /** The body of `update_data`, step by step as the source does: label the
      stations, key the labels, pick the map regions, then drop and derive. */
  method Refresh<G>(f: Frame, oceans: seq<Region<G>>, within: (Point, G) -> bool, palette: seq<Color>)
    returns (frame: Frame, mapping: Dict<Cell, Color>, regions: seq<Region<G>>)
    requires HasCoordinates(f) && |palette| > 0
    ensures frame == RefreshedFrame(f, oceans, within)
    ensures mapping == RefreshedMapping(f, oceans, within, palette)
    ensures regions == RefreshedMapRegions(f, oceans, within)
  {
    var labels := LabelStations(f, oceans, within);
    frame := SetColumn(f, "ocean", labels);
    ColumnOfSet(f, "ocean", labels);
    var uniqueOceans := Unique(Column(frame, "ocean"));
    mapping := CycleMap(uniqueOceans, palette);
    regions := RegionsNamed(oceans, uniqueOceans);
    frame := DropNa(frame);
    frame := SetColumn(frame, "ioc_code", IocCodes(frame));
    frame := SetColumn(frame, "nse2", ApplyRows(frame, PositiveNse));
    frame := SetColumn(frame, "nse2", ApplyRows(frame, NegativeNse));
  }

  /** The dashboard's state: the selected version and parameter, the inputs it
      loads once (the statistics per version, the ocean regions and the colour
      cycle) and what `update_data` rebuilds. */
  class Dashboard<G> {
    var version: string
    var parameter: string
    const stats: map<string, Frame>
    const oceans: seq<Region<G>>
    const within: (Point, G) -> bool
    const palette: seq<Color>
    var df: Frame
    var oceanMapping: Dict<Cell, Color>
    var mapRegions: seq<Region<G>>

    ghost predicate Valid()
      reads this
    {
      && |palette| > 0
      && version in stats
      && StatsTable(stats[version])
    }

    /** `update_data` holds for the current version. */
    ghost predicate Refreshed()
      reads this
      requires Valid()
    {
      && df == RefreshedFrame(stats[version], oceans, within)
      && oceanMapping == RefreshedMapping(stats[version], oceans, within, palette)
      && mapRegions == RefreshedMapRegions(stats[version], oceans, within)
    }

    /** `__init__`: stores the loaded inputs and runs `update_data`. */
    constructor (stats: map<string, Frame>, oceans: seq<Region<G>>, within: (Point, G) -> bool,
                 palette: seq<Color>, version: string, parameter: string)
      requires |palette| > 0 && version in stats && StatsTable(stats[version])
      ensures Valid() && Refreshed()
      ensures this.stats == stats && this.oceans == oceans && this.within == within && this.palette == palette
      ensures this.version == version && this.parameter == parameter
    {
      this.stats := stats;
      this.oceans := oceans;
      this.within := within;
      this.palette := palette;
      this.version := version;
      this.parameter := parameter;
      df := Frame([], []);
      oceanMapping := [];
      mapRegions := [];
      new;
      UpdateData();
    }

    /** `update_data`: rebuilds the frame, the colour key and the map regions
        from the current version's statistics, step by step as the source does. */
    method UpdateData()
      requires Valid()
      modifies this
      ensures Valid() && Refreshed()
      ensures version == old(version) && parameter == old(parameter)
    {
      df, oceanMapping, mapRegions := Refresh(stats[version], oceans, within, palette);
    }

    /** `get_parameter_name`: the first key of `d` whose value is the selected
        parameter; ValueError when there is none. */
    function GetParameterName(d: Dict<string, string>): (r: Result<string>)
      reads this
      ensures r.Err? <==> forall i :: 0 <= i < |d| ==> d[i].1 != parameter
      ensures r.Err? ==> r.error == ValueError
      ensures r.Ok? ==> exists i :: 0 <= i < |d| && d[i] == (r.value, parameter)
                                 && forall j :: 0 <= j < i ==> d[j].1 != parameter
    {
      match KeyOf(d, parameter)
      case None => Err(ValueError)
      case Some(k) => Ok(k)
    }

    /** `taylor`: refreshes the data, then overlays on an empty background one
        layer per colour key, in key order, built from that ocean's rows. */
    method Taylor() returns (layers: seq<Layer>)
      requires Valid()
      modifies this
      ensures Valid() && Refreshed()
      ensures version == old(version) && parameter == old(parameter)
      ensures |layers| == |oceanMapping| + 1 && layers[0] == Background
      ensures forall i :: 0 <= i < |oceanMapping| ==>
                layers[i + 1] == Overlay(oceanMapping[i].0, oceanMapping[i].1, OceanRows(df.rows, oceanMapping[i].0))
    {
      UpdateData();
      layers := Overlays(oceanMapping, df.rows);
    }
  }
}
