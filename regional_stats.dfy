/** The regional statistics dashboard: a colour per ocean or maritime sector
    spread evenly over a cyclic palette, and the histogram of one metric over
    the stations of the selected regions. */
module RegionalStats {
  import opened Tables
  import opened Colors
  import opened SeareportSkill
  import opened Hists
  import opened RegionSelection

  /** `update_color_map(GDF, filter_var)` with the palette's own length as the
      base: the distinct values of the regions table's column, group `i` of `n`
      coloured `palette[i * int(L / n) % L]`. KeyError for an unknown column,
      ZeroDivisionError for an empty table or palette; never IndexError. */
  function UpdateColorMap<G>(regions: seq<Region<G>>, filterVar: string, palette: seq<Color>): (r: Result<Dict<Cell, Color>>)
    ensures r.Err? <==> (filterVar != "ocean" && filterVar != "name") || |regions| == 0 || |palette| == 0
    ensures r.Err? && filterVar != "ocean" && filterVar != "name" ==> r.error == KeyError
    ensures r.Err? && (filterVar == "ocean" || filterVar == "name") ==> r.error == ZeroDivisionError
    ensures r.Ok? ==> Keys(r.value) == Unique(RegionColumn(regions, filterVar).value)
    ensures r.Ok? ==> forall i :: 0 <= i < |r.value| ==>
                        StrideIndex(i, |r.value|, |palette|) < |palette| &&
                        r.value[i].1 == palette[StrideIndex(i, |r.value|, |palette|)]
  {
    match RegionColumn(regions, filterVar)
    case Err(e) => Err(e)
    case Ok(column) =>
      var groups := Unique(column);
      assert |column| > 0 ==> column[0] in groups;
      if |groups| > 0 && |palette| > 0 then
        forall i | 0 <= i < |groups| ensures StrideIndex(i, |groups|, |palette|) < |palette| {
          StrideIndexInRange(i, |groups|, |palette|);
        }
        StrideMap(groups, |palette|, palette)
      else
        StrideMap(groups, |palette|, palette)
  }

  /** With no more regions' labels than colours, distinct labels get distinct
      palette positions, hence distinct colours from a palette without repeats. */
  lemma UpdateColorMapDistinct<G>(regions: seq<Region<G>>, filterVar: string, palette: seq<Color>, i: nat, j: nat)
    requires UpdateColorMap(regions, filterVar, palette).Ok?
    requires |UpdateColorMap(regions, filterVar, palette).value| <= |palette|
    requires i < j < |UpdateColorMap(regions, filterVar, palette).value|
    ensures var m := UpdateColorMap(regions, filterVar, palette).value;
      StrideIndex(i, |m|, |palette|) < StrideIndex(j, |m|, |palette|) &&
      (NoDups(palette) ==> m[i].1 != m[j].1)
  {
    var m := UpdateColorMap(regions, filterVar, palette).value;
    StrideInjective(i, j, |m|, |palette|);
  }

  /** With a region key, the panel's groups are all coloured exactly when no
      shown station lies outside every region, which a non-empty selection
      guarantees. */
  lemma ColorKeyCovers<G>(raw: Frame, regions: seq<Region<G>>, within: (Point, G) -> bool, typeSelect: string,
                          oceansVal: seq<string>, sectorVal: seq<string>, palette: seq<Color>)
    requires Stations(raw, regions, within).Ok? && UpdateColorMap(regions, typeSelect, palette).Ok?
    ensures var selected := SelectStations(Stations(raw, regions, within).value, typeSelect, oceansVal, sectorVal).0;
      var groups := Unique(Column(selected, typeSelect));
      var key := UpdateColorMap(regions, typeSelect, palette).value;
      && (Covered(groups, key) <==> forall row :: row in selected.rows ==> Get(row, typeSelect) != Missing)
      && (Grouping(typeSelect, oceansVal, sectorVal).1 != [] ==> Covered(groups, key))
  {
    var selected := SelectStations(Stations(raw, regions, within).value, typeSelect, oceansVal, sectorVal).0;
    var groups := Unique(Column(selected, typeSelect));
    var key := UpdateColorMap(regions, typeSelect, palette).value;
    var labels := RegionColumn(regions, typeSelect).value;
    SelectedLabels(raw, regions, within, typeSelect, oceansVal, sectorVal);
    assert forall x :: x in Keys(key) <==> x in labels;
  }

  /** `update_plots` with the histogram call binding each argument once
      (`hist_(stats, metric, g=..., map=cmap)`): the stations of the version
      labelled by region (or the error `assign_oceans` raises), the colour key, the selection and height, the metric
      label, then the histogram. The regions table and the palette, read from
      a file and a library in the source, are parameters. */
  method UpdatePlots<G>(raw: Frame, regions: seq<Region<G>>, within: (Point, G) -> bool, typeSelect: string,
                        metric: string, oceansVal: seq<string>, sectorVal: seq<string>, palette: seq<Color>)
    returns (r: Result<Panel>)
    ensures var stations := Stations(raw, regions, within);
      var key := UpdateColorMap(regions, typeSelect, palette);
      && (stations.Err? ==> r == Err(stations.error))
      && (stations.Ok? ==> PanelOutcome(stations.value, key, typeSelect, metric, oceansVal, sectorVal, r))
  {
    var stats := Stations(raw, regions, within);
    if stats.Err? {
      return Err(stats.error);
    }
    var key := UpdateColorMap(regions, typeSelect, palette);
    if key.Err? {
      return Err(key.error);
    }
    r := HistPanel(stats.value, typeSelect, metric, oceansVal, sectorVal, key.value);
  }
}
