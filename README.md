# seareport skill dashboards, modelled in Dafny

The seareport skill repository serves several Panel dashboards over the skill
statistics of storm-surge model versions. A station is a row of a statistics
table, indexed by its IOC code, with observed coordinates `obs_lon`/`obs_lat`
and one column per metric (`rmse`, `bias`, `kge`, `nse` and so on). This
project models the library-free logic under those dashboards:

- the region classifier, a first-match search over the ocean/sector regions;
- `assign_oceans`, which tags a frame in place with each station's region;
- the loading, masking, tagging and sorting of the statistics tables;
- the skill dashboard's refresh: colour key, `dropna`, `ioc_code`, and the
  `nse2` clamp;
- the one-hot histogram `hist_` and the running-offset stacking
  `stacked_hist`;
- the two regional dashboards' colour keys, selection filters and panel
  heights;
- the comparison dashboard's defaults, row and column cut, and plot layout.

Pandas frames are values here: `Tables.Frame` holds a column list and rows.
A row is an index plus a map from column to `Cell`, where a cell is missing
(NaN/None), a number or a string. Python dicts keep insertion order, so they
are `Dict`, a sequence of pairs. Shapely's `point.within(geometry)` is an
uninterpreted parameter `within`. File reads, widget values and library
palettes are parameters too.

Modules follow the source files:

- `SeareportSkill`: seareport_skill/__init__.py.
- `SkillApp`: skill_app.py. `Dashboard` is a class whose `UpdateData`
  reassigns its fields.
- `Hists`: utils/hists.py. `stacked_hist` updates `Renderer` objects in
  place.
- `RegionalStats`: regional_stats_app.py.
- `ModelBoxStats`: model_box_stats_app.py.
- `RegionSelection`: what those two share.
- `CompareModels`: compare_models_app.py.
- `Settings`: the constants of seareport_skill/settings.py.
- `Tables` and `Colors`: shared frame, dict, sort and palette helpers.

## Model

| member | source | states |
|---|---|---|
| SeareportSkill.FirstContaining | seareport_skill/__init__.py:48-52 | The position found is of a region containing the point, and no earlier region contains it. The result is None exactly when no region contains the point. |
| SeareportSkill.ClassifyFirstWins | seareport_skill/__init__.py:49-52 | When region i contains the point and no earlier region does, the result is region i's (name, ocean), whatever later regions contain. |
| SeareportSkill.ClassifyNone | seareport_skill/__init__.py:52-54 | The result is (None, None) exactly when no region contains the point. Name and ocean are set or unset together. |
| SeareportSkill.ClassifyUnique | seareport_skill/__init__.py:49-52 | A point inside exactly one region gets that region's name and ocean. |
| SeareportSkill.FindOceanForStation | seareport_skill/__init__.py:47-54 | The scan with early return yields the first-match classification of the station's (obs_lon, obs_lat) point. |
| SeareportSkill.LabelCell | seareport_skill/__init__.py:60-64 | A None label becomes a missing cell, and a name becomes that string. |
| SeareportSkill.WithRegionsSpec | seareport_skill/__init__.py:57-65 | Classification keeps row count, order, index and every other column. Each row's `name` and `ocean` are its classification, both missing or both set. |
| SeareportSkill.WithRegionsRow | seareport_skill/__init__.py:60-64 | Row k of the result is input row k with `name` and `ocean` written in. |
| SeareportSkill.WithRegionsColumns | seareport_skill/__init__.py:60 | The result has `name` and `ocean` columns and keeps all input columns. A well-formed frame stays well-formed. |
| SeareportSkill.WithRegionsIdempotent | seareport_skill/__init__.py:57-65 | Classifying an already classified frame changes nothing. |
| SeareportSkill.AssignedRegions | seareport_skill/__init__.py:47-65 | ValueError exactly when the table has no rows or no columns and not exactly two columns: `apply` then returns a copy of the table, which must fill two columns. Otherwise KeyError exactly when some station lacks `obs_lon` or `obs_lat`. Otherwise the classified frame. |
| SeareportSkill.AssignedRegionsTwice | seareport_skill/__init__.py:57-65 | On a table with stations, assigning the regions of the classified table again gives the same result. |
| SeareportSkill.AssignOceans | seareport_skill/__init__.py:57-65 | The per-row loop gives the `assign_oceans` outcome. On success the passed frame object becomes the classified value and that same object is returned. On an error the frame is left unchanged. |
| SeareportSkill.LoadModelStats | seareport_skill/__init__.py:26-29 | The per-version table keeps its columns. Its rows are a permutation of the file's rows, sorted by index ascending. |
| SeareportSkill.LoadModelStatsCoordinates | seareport_skill/__init__.py:28 | Sorting keeps every station's coordinates. |
| SeareportSkill.Mask | seareport_skill/__init__.py:39 | A cell is kept exactly when it is a number strictly between -2 and 2. Otherwise it becomes missing. |
| SeareportSkill.MaskRow | seareport_skill/__init__.py:39 | Masking keeps a row's index and columns and masks every cell. |
| SeareportSkill.TaggedSpec | seareport_skill/__init__.py:36-41 | Each row of a file's table has its index-sorted values masked and `version` set to the file stem. The table stays sorted by index. |
| SeareportSkill.Pad | seareport_skill/__init__.py:43 | Concatenation widens a row to the union of columns and keeps its values and index. |
| SeareportSkill.ReadVersion | seareport_skill/__init__.py:36-42 | One pass of the loop gives the file's table sorted by index, masked to (-2, 2) and tagged with the file's stem. |
| SeareportSkill.LoadStats | seareport_skill/__init__.py:33-44 | ValueError exactly when there is no file, since `pd.concat` of an empty list raises it. Otherwise the loop builds the concatenation of the tagged tables, and the result has its columns and is a permutation of its rows, sorted by version descending. |
| SeareportSkill.ConcatRowsMember | seareport_skill/__init__.py:43 | Every row of a concatenation is a widened row of one of the frames. |
| SeareportSkill.ConcatRowsVersion | seareport_skill/__init__.py:40-43 | Every concatenated row carries the stem of one of the files as its version. |
| SeareportSkill.ConcatColumnsHasVersion | seareport_skill/__init__.py:40-43 | With at least one file, the combined columns include `version`. |
| SeareportSkill.LoadStatsVersions | seareport_skill/__init__.py:33-44 | Every row of the loaded table is tagged with the version of a file that was read. |
| SkillApp.OceanName | skill_app.py:107-114 | None exactly when no ocean contains the point. Otherwise the name of the first ocean that contains it, which is also the ocean name of the shared first-match classification. |
| SkillApp.FindOceanName | skill_app.py:107-114 | Returns Some exactly when some region contains the point. It is then the name of the first such region. |
| SkillApp.OceanLabels | skill_app.py:138-143 | One label per station, in row order. A label is missing exactly when no ocean contains the station's (obs_lon, obs_lat) point. Otherwise it is the name of the first ocean that contains the point. |
| SkillApp.LabelStations | skill_app.py:138-143 | The row-by-row apply loop produces exactly those labels. |
| SkillApp.IocCodes | skill_app.py:164 | `ioc_code` is each row's index. |
| SkillApp.ApplyRows | skill_app.py:165-166 | A row-wise rule gives one value per row, in order. |
| SkillApp.RegionsNamed | skill_app.py:152 | An ocean is kept exactly when its name is one of the labels. Kept oceans stay in table order. |
| SkillApp.RegionsNamedAppend | skill_app.py:152 | Filtering the oceans table respects concatenation, so the kept regions are in table order. |
| SkillApp.RefreshedMappingSpec | skill_app.py:145-150 | The colour key has one key per distinct label computed before the drop, in first-appearance order. Key i gets `color_key[i % len(color_key)]`. |
| SkillApp.UniqueColorKey | skill_app.py:145-150 | A cycled key over `unique()` has distinct keys covering every value, in first-appearance order. |
| SkillApp.RefreshedMappingKeepsNone | skill_app.py:145-163 | An unclassified station leaves a None key in the colour key, although no kept row is unclassified. |
| SkillApp.RefreshedRow | skill_app.py:136-166 | Every kept row has an ocean name, `ioc_code` equal to its index and no missing value except `nse2`. `nse2` is `nse` when `nse` > 0 and 0 when `nse` < 0. When `nse` is 0 it is not assigned, so it is missing unless the table already had `nse2`. |
| SkillApp.FinishRowSpec | skill_app.py:163-166 | On a complete row with an ocean name and a numeric `nse`, the row gains exactly the `ioc_code` and `nse2` keys. `ioc_code` becomes the index. `nse2` becomes `nse` when `nse` is positive and 0 when it is negative, and is left as it was when `nse` is 0. The ocean name, `nse` and every other cell are kept, and no value becomes missing. |
| SkillApp.CompleteRow | skill_app.py:163 | A row surviving `dropna` has an ocean name, a numeric `nse` and no missing cell. |
| SkillApp.DroppedRow | skill_app.py:163 | A kept row is an input row with the new column written in, and it is complete. |
| SkillApp.OceanRowsSpec | skill_app.py:189 | A layer's rows are exactly the rows whose ocean equals the key. For a None key they are empty. |
| SkillApp.Overlays | skill_app.py:187-192 | First comes the empty background, then one overlay per colour key, in key order, with that key's colour and rows. |
| SkillApp.Dashboard.UpdateData | skill_app.py:135-166 | Rebuilds `df`, `oceanMapping` and `mapRegions` from the selected version's table. Keeps the dashboard's invariant, version and parameter. |
| SkillApp.Refresh | skill_app.py:136-166 | The statements of `update_data`, in order, produce exactly the refreshed frame, the colour key and the map regions. |
| SkillApp.Dashboard.GetParameterName | skill_app.py:168-172 | The first key whose value is the selected parameter. ValueError exactly when no value equals it. |
| SkillApp.Dashboard.Taylor | skill_app.py:185-197 | Refreshes, then returns the background and one overlay per colour key, each with that ocean's rows of the refreshed frame. |
| Hists.BinRange | utils/hists.py:44-47 | The range is (0, 0.5) for `rmse`, `rms` and `bias`, and (0, 1) otherwise. |
| Hists.Numbers | utils/hists.py:60 | The numbers of a column, each as often as the column holds it, and no other values. |
| Hists.NumbersAppend | utils/hists.py:60 | The numbers of two stacked columns are the first's followed by the second's, so the column order is kept. |
| Hists.Mean | utils/hists.py:60 | None exactly when the column holds no number, where pandas gives NaN. |
| Hists.SumBounds | utils/hists.py:60 | An exact sum of n values within [lo, hi] lies within [n·lo, n·hi]. |
| Hists.MeanBounds | utils/hists.py:60 | The exact mean of values within [lo, hi] lies within [lo, hi]. |
| Hists.OneHotRows | utils/hists.py:53-58 | One row per input row, in order. Its columns are exactly the groups, and only its own group's column holds its value; the others are missing. |
| Hists.GroupColors | utils/hists.py:61-68 | One colour per group, in group order, from the cycle when no key is given or from the key otherwise. KeyError exactly when the key lacks a group. |
| Hists.CycleMapLookup | utils/hists.py:63-68 | In the default key, group k's colour is `color_key[k % len]`. |
| Hists.Hist | utils/hists.py:43-74 | Groups are the distinct group values in first-appearance order, with one-hot rows, colours, bin range, 25 bins and the mean. KeyError for a missing column, AttributeError when `z` equals `g`, TypeError when `z` holds text (from the mean at line 60, before the key lookup), then KeyError when the key lacks a group. |
| Hists.BindCall | utils/hists.py:43 | Python argument binding for a signature whose first `required` parameters have no default. TypeError exactly for too many positionals, an unknown keyword, a parameter bound twice, or a required parameter left unbound. Otherwise every parameter given is bound once and every required one is bound. |
| Hists.BindKeywordsSpec | utils/hists.py:43 | Binding keywords after the positionals fails, with TypeError, exactly when some keyword is not a parameter or repeats a bound name. Otherwise the bound names are the positionals followed by the keywords. |
| Hists.HistCallAsWritten | regional_stats_app.py:85-92 | Against `hist_(src, z, g, map)` with `src` and `z` required, the dashboards' call with three positionals plus `g=` and `map=` raises TypeError. |
| Hists.HistCallCorrected | model_box_stats_app.py:80-87 | Passing only the frame and metric by position, then `g=` and `map=`, binds every parameter of `hist_` exactly once. |
| Hists.HistCallMissingMetric | utils/hists.py:43 | A call passing only the frame raises TypeError, because `z` has no default. |
| Hists.Zeros | utils/hists.py:29 | The initial offset: n zeros. |
| Hists.AddV | utils/hists.py:34 | Element-wise sum of two equal-length arrays. |
| Hists.Offset | utils/hists.py:29-37 | The running offset after k layers has one entry per bin. |
| Hists.OffsetCovers | utils/hists.py:34-37 | With non-negative tops, the running offset is non-negative and at least every earlier layer's top. |
| Hists.Max | utils/hists.py:39 | `max(offset)` is an element of the offset and no element exceeds it. |
| Hists.Raise | utils/hists.py:31-37 | One renderer: glyph bottom set to "bottom", new top = old top + offset, bottom = offset. |
| Hists.StackLayers | utils/hists.py:30-37 | Renderers are processed in order. Layer i's bottom is the sum of earlier tops and its top adds its own. The returned offset is the sum of all. |
| Hists.StackedHist | utils/hists.py:27-40 | Every renderer is stacked as above. TypeError when there are no renderers, ValueError when there are no bins. Otherwise both y-range ends become 1.1 × max(offset). |
| RegionSelection.RegionColumn | regional_stats_app.py:56 | The regions table's `ocean` or `name` column, one value per region. KeyError for any other column. |
| RegionSelection.StationLabel | regional_stats_app.py:70-71 | When the stations exist, a station's ocean or sector is missing or one of the regions table's labels. |
| RegionSelection.StationsColumns | regional_stats_app.py:70-71 | When `assign_oceans` succeeds, the labelled stations have `name` and `ocean` columns. |
| RegionSelection.DisplaySelector | regional_stats_app.py:153-158 | The oceans selector exactly for "ocean", the sector selector otherwise. |
| RegionSelection.Grouping | regional_stats_app.py:73-84 | Ocean mode filters `ocean` by the ocean selection. Any other mode filters `name` by the sector selection. |
| RegionSelection.SelectStations | regional_stats_app.py:73-84 | Columns are kept. With a selection, exactly the matching stations remain, in table order and with repeats, and the height is 30·\|selection\| + 90. Without one, the table is unchanged and the height is 300 (oceans) or 500 (sectors). |
| RegionSelection.KeptRows | regional_stats_app.py:75 | `isin` filtering keeps exactly the rows whose label is selected. |
| RegionSelection.MapPlotSameStations | regional_stats_app.py:127-132 | `map_plot` shows the very table the histogram counts: the same columns and the same rows in the same order. |
| RegionSelection.LabelsCovered | regional_stats_app.py:85-92 | When labels are missing or known, the distinct labels are all known exactly when none is missing. |
| RegionSelection.SelectedLabels | regional_stats_app.py:70-92 | The selected stations' labels all occur in the regions table exactly when none is unclassified. A non-empty selection keeps no unclassified station. |
| RegionSelection.MetricLabel | regional_stats_app.py:88-90 | The first METRICS key whose value is the metric. ValueError exactly when none has it. |
| RegionSelection.HistPanel | regional_stats_app.py:73-92 | ValueError for an unknown metric. Otherwise the histogram outcome over the selected stations with the given key, plus the selection's height and the metric label. |
| RegionalStats.UpdateColorMap | regional_stats_app.py:54-63 | Keys are the distinct region labels in first-appearance order. Group i gets `CMAP[i·int(L/n) % L]`, always in range. KeyError for an unknown column; ZeroDivisionError exactly for no regions or an empty palette. |
| RegionalStats.UpdateColorMapDistinct | regional_stats_app.py:57-61 | With no more groups than colours, distinct groups get distinct, increasing palette indices, and so distinct colours from a palette without repeats. |
| RegionalStats.ColorKeyCovers | regional_stats_app.py:72-92 | The key colours every shown group exactly when no shown station is unclassified. This always holds with a non-empty selection. |
| RegionalStats.UpdatePlots | regional_stats_app.py:67-92 | The `assign_oceans` error first. Then colour-key errors, then ValueError for an unknown metric. Otherwise the histogram outcome over the selected stations, with the selection's height and the metric label. |
| ModelBoxStats.UpdateColorMap | model_box_stats_app.py:49-58 | Keys are the distinct region labels. Group i gets `colorwheel[i·int(R/n) % R]`, with R the length of `rainbow`. KeyError for a column other than `ocean` or `name`; then ZeroDivisionError exactly for no regions or an empty `rainbow`; then IndexError exactly when an index passes the end of `colorwheel`. |
| ModelBoxStats.UpdateColorMapNoIndexError | model_box_stats_app.py:51-57 | When `colorwheel` is at least as long as `rainbow`, the key exists, and with at most R groups the indices are distinct. |
| ModelBoxStats.UpdateDataframe | model_box_stats_app.py:62-94 | The same pipeline as `update_plots`, `assign_oceans` errors first, with this dashboard's colour key. |
| CompareModels.Defaulted | compare_models_app.py:74-77 | An empty selection becomes every catalogue value, in order. A non-empty one is kept. |
| CompareModels.Project | compare_models_app.py:40 | A row cut down to the chosen columns keeps its index and those values. |
| CompareModels.GetStats | compare_models_app.py:37-42 | Columns are the metrics followed by `version`. Rows are exactly the projections of the rows whose version is selected, in table order. AttributeError when the table has no `version` column (`stats.version`). Otherwise KeyError exactly when a chosen metric column is absent. |
| CompareModels.ProjectedRows | compare_models_app.py:39-40 | Filtering then projecting yields exactly the projections of the selected rows. |
| CompareModels.VersionList | compare_models_app.py:54 | The versions some row carries, skipping missing ones. |
| CompareModels.Versions | compare_models_app.py:54 | The distinct versions present, which `nunique` counts. |
| CompareModels.PlotHeightCountsSelected | compare_models_app.py:54 | Every version the height counts is one of the selected versions. |
| CompareModels.TableRowsSpec | compare_models_app.py:60-67 | The summary table's rows are the versions in ascending order, each present version exactly once. |
| CompareModels.Layout | compare_models_app.py:79-86 | Two plots per metric, box then table, in metric order. |
| CompareModels.ShowMetrics | compare_models_app.py:73-87 | After defaulting, 2·\|metrics\| plots: box then table per metric, both of height 100 + 20·(distinct versions shown). It fails exactly when the column cut fails, with the same error. |
| Tables.Unique | seareport_skill/__init__.py:43 | `unique()`: distinct elements, every input element present, no new ones. |
| Tables.UniqueFirstAppearance | skill_app.py:145 | `unique()` lists values by increasing first position. |
| Tables.SortBy | seareport_skill/__init__.py:43 | `sort_values`/`sort_index`: the result is ordered and a permutation of the input. |
| Tables.KeptPositions | regional_stats_app.py:75 | A boolean mask `s[mask]` keeps the passing elements in order, each exactly once. Their positions are increasing, and every passing position is kept. |
| Tables.KeyOf | skill_app.py:169-171 | The first key with the given value; None exactly when there is none. |
| Tables.Lookup | utils/hists.py:68 | `d[k]`: the value stored under `k`; None (KeyError) exactly when `k` is not a key. |
| Colors.CycleMapPeriod | utils/hists.py:64-67 | Cycled colours repeat with the palette's period. |
| Colors.StrideInjective | regional_stats_app.py:57-61 | With n ≤ L the stride is at least 1 and no index wraps, so distinct groups get distinct indices. |
| Colors.StrideMap | regional_stats_app.py:57-62 | Keys are the groups, with stride colours. ZeroDivisionError exactly for no groups or an empty base. Otherwise IndexError exactly when an index passes the palette's end. |
| Colors.StrideMapDistinct | regional_stats_app.py:57-61 | With 0 < n ≤ L, the stride map over the palette's own length exists and never repeats an index. |

## Left out

- File and network I/O, `functools.cache`, and the GeoJSON, parquet and shapefile reads. Their results are parameters. Each dashboard's region table is the `regions`/`oceans` sequence.
- Shapely geometry: `point.within(geometry)` is the uninterpreted parameter `within`.
- Rendering, widgets, templates, URL sync and `param.depends` reactivity. Only the values the plots are built from are modelled.
- utils/taylor.py, time_series_app.py and model_table_app.py are not part of this model.
- NaN and None are both the missing cell. Pandas' float NaN group keys are not distinguished from None.
- `sort_values`/`sort_index` use an unstable sort. The model promises only order and permutation, and computes with an insertion sort.
- `int(L / n)` in the stride is floor division over naturals, which is exact for palette sizes.
- SkillApp.Dashboard.UpdateData: does not model three errors. `astype(float)` raises ValueError on a string cell. `self.stats[self.version]` raises KeyError when the loaded statistics lack the version (skill_app.py:136). `station[xstr]` raises KeyError for a station without `obs_lon` or `obs_lat` (skill_app.py:110). The dashboard's invariant requires the version to be a key of the statistics. `StatsTable` requires the table to have no string cells, coordinates on every station and an `nse` column. For a version table without stations, pandas' `apply` returns a copy of the frame rather than a column; the model gives an empty frame there.
- SeareportSkill.FindOceanForStation and SkillApp.FindOceanName take a station that has both coordinate cells. The KeyError for a station without them is stated for `assign_oceans` by `SeareportSkill.AssignedRegions`.
- SeareportSkill.LoadModelStats: does not model the ValueError that `.astype(float)` raises on a cell that is not a number. A statistics file is taken to hold numeric or missing cells only, so the read table is returned as it is, sorted by index.
- The comparison dashboard takes the loaded statistics table as a parameter. The ValueError `load_stats` raises with no file belongs to `SeareportSkill.LoadStats`.
- `describe`, percentiles, `round(3)` and the float mean's title format are left out. The summary table is modelled by its row labels only.
- `load_stats` marks `version` as categorical; the model uses plain strings.
- The cached per-version table is shared between calls, and `assign_oceans` mutates it in place. `WithRegionsIdempotent` and `AssignedRegionsTwice` show that reclassifying a table with stations changes nothing. If `load_stats` is handed a classified table, its string columns would raise in the comparison; this is not modelled.
- The geometry column is not a groupable label: regions are grouped by `name`/`ocean` only.
- The `1.1` axis factor is an exact real.
- Hists.MeanBounds: float64 cells are exact reals (`Num(real)`), so the bounded mean is the exact one. pandas rounds its mean, which can fall just outside [lo, hi]: (0.1 + 0.1 + 0.1) / 3 is 0.10000000000000002 in float64. The other float operations modelled are exact in float64: the mask comparisons, the `nse` sign tests and the bin counts that stacking adds.
- Hists.StackedHist: assumes distinct renderers, each with the same number of bins, as Bokeh's stacked bars have.
- Hists.Hist: the one-hot frame's `reset_index` and the hvplot call itself are not modelled.
- The skill dashboard's `view`, `radar` and `hist` methods are not modelled: they only render. Its `hist` passes the same argument shape to `hist_`, plus an unknown `type=`. `taylor_diagram(cmap=...)` in regional_stats_app.py is not modelled either.
- `Settings.METRICS` having distinct values is not proved. `MetricLabel` returns the first match, which is what the source does regardless.

## Findings

| source | as written | input that shows it | evidently intended | confidence | as-written member | corrected member |
|---|---|---|---|---|---|---|
| regional_stats_app.py:85-92 | `hist_(stats, metrics_val, <label>, g=type_select_val, map=cmap)` passes three positional arguments, so the third fills `g` and `g=` repeats it | any widget state, e.g. metric `rmse` with selection type `ocean` | bind the frame and metric by position, and `g` and `map` by keyword; the label is the plot title | high, not executed | Hists.HistCallAsWritten | RegionalStats.UpdatePlots |
| model_box_stats_app.py:80-87 | the same call shape, so `TypeError: got multiple values for argument 'g'` | any widget state | as above | high, not executed | Hists.HistCallAsWritten | ModelBoxStats.UpdateDataframe |
