/** The model box statistics dashboard: like the regional one, but its colour
    key strides over the length of one palette (`rainbow`) while indexing
    another (`colorwheel`). */
module ModelBoxStats {
  import opened Tables
  import opened Colors
  import opened SeareportSkill
  import opened Hists
  import opened RegionSelection

  /** `update_color_map(GDF, filter_var)`: group `i` of `n` gets
      `colorwheel[i * int(R / n) % R]` where `R` is the length of `rainbow`.
      KeyError for an unknown column, ZeroDivisionError for an empty table or
      an empty `rainbow`, IndexError when an index passes the end of `colorwheel`. */
  function UpdateColorMap<G>(regions: seq<Region<G>>, filterVar: string, rainbowLen: nat, colorwheel: seq<Color>)
    : (r: Result<Dict<Cell, Color>>)
    ensures r.Err? <==> (filterVar != "ocean" && filterVar != "name") || |regions| == 0 || rainbowLen == 0 ||
                        exists i :: 0 <= i < |Unique(RegionColumn(regions, filterVar).value)| &&
                                    StrideIndex(i, |Unique(RegionColumn(regions, filterVar).value)|, rainbowLen) >= |colorwheel|
    ensures r.Err? && filterVar != "ocean" && filterVar != "name" ==> r.error == KeyError
    ensures r.Err? && (filterVar == "ocean" || filterVar == "name") && (|regions| == 0 || rainbowLen == 0) ==> r.error == ZeroDivisionError
    ensures r.Err? && (filterVar == "ocean" || filterVar == "name") && |regions| > 0 && rainbowLen > 0 ==> r.error == IndexError
    ensures r.Ok? ==> Keys(r.value) == Unique(RegionColumn(regions, filterVar).value)
    ensures r.Ok? ==> forall i :: 0 <= i < |r.value| ==> r.value[i].1 == colorwheel[StrideIndex(i, |r.value|, rainbowLen)]
  {
    match RegionColumn(regions, filterVar)
    case Err(e) => Err(e)
    case Ok(column) =>
      assert |column| > 0 ==> column[0] in Unique(column);
      StrideMap(Unique(column), rainbowLen, colorwheel)
  }

  /** When `colorwheel` is at least as long as `rainbow`, the key exists for
      every non-empty regions table, and, with no more labels than colours,
      distinct labels get distinct positions. */
  lemma UpdateColorMapNoIndexError<G>(regions: seq<Region<G>>, filterVar: string, rainbowLen: nat, colorwheel: seq<Color>)
    requires filterVar == "ocean" || filterVar == "name"
    requires |regions| > 0 && 0 < rainbowLen <= |colorwheel|
    ensures UpdateColorMap(regions, filterVar, rainbowLen, colorwheel).Ok?
    ensures var m := UpdateColorMap(regions, filterVar, rainbowLen, colorwheel).value;
      |m| <= rainbowLen ==> forall i, j :: 0 <= i < j < |m| ==> StrideIndex(i, |m|, rainbowLen) != StrideIndex(j, |m|, rainbowLen)
  {
    var groups := Unique(RegionColumn(regions, filterVar).value);
    assert RegionColumn(regions, filterVar).value[0] in groups;
    forall i | 0 <= i < |groups| ensures StrideIndex(i, |groups|, rainbowLen) < |colorwheel| {
      StrideIndexInRange(i, |groups|, rainbowLen);
    }
    if |groups| <= rainbowLen {
      forall i, j | 0 <= i < j < |groups| ensures StrideIndex(i, |groups|, rainbowLen) != StrideIndex(j, |groups|, rainbowLen) {
        StrideInjective(i, j, |groups|, rainbowLen);
      }
    }
  }

  /** `update_dataframe` with the histogram call binding each argument once:
      the same pipeline as the regional dashboard, `assign_oceans` errors
      first, with this dashboard's colour key. The palettes' contents and the regions table are parameters. */
  method UpdateDataframe<G>(raw: Frame, regions: seq<Region<G>>, within: (Point, G) -> bool, typeSelect: string,
                            metric: string, oceansVal: seq<string>, sectorVal: seq<string>,
                            rainbowLen: nat, colorwheel: seq<Color>)
    returns (r: Result<Panel>)
    ensures var stations := Stations(raw, regions, within);
      var key := UpdateColorMap(regions, typeSelect, rainbowLen, colorwheel);
      && (stations.Err? ==> r == Err(stations.error))
      && (stations.Ok? ==> PanelOutcome(stations.value, key, typeSelect, metric, oceansVal, sectorVal, r))
  {
    var stats := Stations(raw, regions, within);
    if stats.Err? {
      return Err(stats.error);
    }
    var key := UpdateColorMap(regions, typeSelect, rainbowLen, colorwheel);
    if key.Err? {
      return Err(key.error);
    }
    r := HistPanel(stats.value, typeSelect, metric, oceansVal, sectorVal, key.value);
  }
}
