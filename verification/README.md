# Spatial transcriptomics dashboard: the discrete core

The dashboard shows spots of a tissue section. Each spot carries nine cell-type
ratios, `X1`..`X9`. The dashboard draws every spot either as a Kosara glyph (a
circle cut into wedges) or as a 5×5 waffle, and adds bar charts, a t-SNE
cluster view, a differential-feature heatmap and box plots. This project models
the pure transforms underneath those charts and proves what they promise:

- **Categories** (`categories.dfy`): the nine categories, the canonical order
  `X1..X9`, the glyph palette, and `Object.entries` over an `X1..X9` object.
- **Visibility** (`visibility.dfy`): the application's `cellShownStatus`
  checkboxes. Nine flags; initially only `X1` and `X2` are on; one key changes
  at a time.
- **KosaraSelection** (`kosara_selection.dfy`): which categories a glyph draws.
  A category is a candidate when its ratio is non-zero and it is shown. The six
  largest are kept, each angle gets 8° added, and the kept ones are re-sorted
  into canonical order. The glyph tooltip ranks the same way.
- **KosaraChart** (`kosara_chart.dfy`): the wedge plan of `generateKosaraPath`.
  The first wedge is a two-arc lens, middle wedges are four-arc bands and the
  last is a large-arc closing slice. An empty selection gives one transparent
  entry. Also the brush, which publishes the spots inside a rectangle with
  their ratios cut down to the shown categories.
- **Waffle** (`waffle.dfy`): each category asks for `round(ratio · 25)` cells.
  Cells are handed out in category order until 25 are used and placed
  row-major. The main view's nested loops and the mirrored view's `forEach`
  both compute the same layout. Also the mirror panel's brush filter and
  translation.
- **Process** (`process.dfy`): the backend's `filter_and_cumsum` (a zero ratio
  stays zero; a non-zero ratio becomes the running sum of the selected
  ratios), `initial_guess`, and the zero short-circuit and column layout of
  `calculate_radius`.
- **CellCounts** and **CellAnalysis** (`cell_counts.dfy`,
  `cell_analysis.dfy`): the per-type counts of spots with a positive ratio, the
  tab switch of the analysis card, first-occurrence de-duplication of cluster
  labels, the numeric cluster sort, and the 5%-padded t-SNE axis domain.
- **ClusterLabels** and **ClusterLegend** (`cluster_labels.dfy`,
  `cluster_legend.dfy`): JavaScript's `parseInt` and `split` on labels such as
  `"Cluster 12"`; the legend's sort by the number all the label's digits spell.
- **Heatmap** (`heatmap.dfy`): the `flatMap` of gene rows into nine
  `(cluster, gene, log2 fold change)` cells each, and the row domain.
- **SummaryStats** (`summary_stats.dfy`): `getSummaryStats`, which gives the
  quartiles, the median and the whiskers at 1.5 inter-quartile ranges.
- Shared helpers: `Seqs` (option type, filter with positions, duplicate-free
  sequences) and `Sorting` (the stable sort `Array.prototype.sort` performs,
  with a real-valued key).

Trigonometry, the root finder and the quantile function are parameters or
abstract data. A glyph boundary point is a datatype built from the centre, the
radius and the angle in degrees. The solver and `d3.quantile` are function
parameters. Everything else is pure functions over sequences and maps.

## Model

| member | source | states |
|---|---|---|
| `Categories.IndexOfOrder` | RedesignChallenge/Frontend/src/components/kosaraChart.js:31 | Position `i` of the canonical list holds the category whose `indexOf` is `i`, so the re-sort key and the list agree |
| `Categories.Entries` | RedesignChallenge/Frontend/src/components/kosaraChart.js:240-241 | `Object.entries` lists each present key once with its own value, leaves out no present key, and follows `X1..X9` order |
| `Categories.EntriesNoDup` | RedesignChallenge/Frontend/src/components/kosaraChart.js:241 | The entries of one object never repeat |
| `Visibility.InitialShownStatus` | RedesignChallenge/Frontend/src/App.js:23-33 | The initial status has all nine keys, and exactly `X1` and `X2` are shown |
| `Visibility.OnChangeShowCell` | RedesignChallenge/Frontend/src/App.js:40-44 | A checkbox change sets that key to the checked value; every other key keeps its presence and value; the key set grows by at most that key, so a complete status stays complete |
| `Visibility.OnChangeShowCellIdempotent` | RedesignChallenge/Frontend/src/App.js:42 | Applying the same change twice equals applying it once |
| `Visibility.OnChangeShowCellCommutes` | RedesignChallenge/Frontend/src/App.js:42 | Changes to two different checkboxes give the same status in either order |
| `KosaraSelection.Candidates` | RedesignChallenge/Frontend/src/components/kosaraChart.js:34-35 | The candidates are exactly the (key, ratio) pairs with a non-zero ratio and a shown key, without repeats |
| `KosaraSelection.TopSix` | RedesignChallenge/Frontend/src/components/kosaraChart.js:35 | The kept pairs number min(6, candidates) and are all candidates |
| `KosaraSelection.TopSixSelection` | RedesignChallenge/Frontend/src/components/kosaraChart.js:35 | The kept pairs are distinct and in decreasing ratio order. No dropped candidate has a larger ratio than a kept one. With six or fewer candidates all are kept. A tie at the cut goes to the category earlier in X1..X9 order, as the stable sort over canonically ordered entries leaves it |
| `KosaraSelection.Padded` | RedesignChallenge/Frontend/src/components/kosaraChart.js:36-42 | Each kept key gets the angle supplied for it plus 8 degrees |
| `KosaraSelection.WedgesCanonical` | RedesignChallenge/Frontend/src/components/kosaraChart.js:35-43 | There is one wedge per kept key, with its supplied angle plus 8. Every kept key appears, and positions in `X1..X9` strictly increase |
| `KosaraSelection.WedgesFollowCanonicalOrder` | RedesignChallenge/Frontend/src/components/kosaraChart.js:43 | The wedge list equals an independent walk over `X1..X9` restricted to the kept set, whatever order the ranking produced |
| `KosaraSelection.TooltipMatchesAllShownGlyph` | RedesignChallenge/Frontend/src/components/kosaraChart.js:78-83 | The tooltip rows (non-zero ratios, six largest, canonical order) are what the glyph selection keeps with every checkbox ticked |
| `KosaraChart.RenderShapes` | RedesignChallenge/Frontend/src/components/kosaraChart.js:53-61 | Only the empty shape renders as `''`. Every path ends its arcs where it started. Every arc is drawn with the radius of the circle its points lie on. Only the closing slice uses a large arc. Lens and closing have two arcs, a band has four |
| `KosaraChart.PlanFromIsPlan` | RedesignChallenge/Frontend/src/components/kosaraChart.js:45-69 | The `forEach` with its running last start/end points equals a reference plan that computes entry `i` from wedges `i-1` and `i` directly |
| `KosaraChart.PlanShapes` | RedesignChallenge/Frontend/src/components/kosaraChart.js:53-68 | Entry 0 is a lens of its own points. For two or more wedges, the last entry closes on the previous wedge's points and the middle ones are bands from the previous points to their own. Each entry has its category's colour |
| `KosaraChart.GenerateKosaraPathSpec` | RedesignChallenge/Frontend/src/components/kosaraChart.js:30-72 | No candidate means exactly one transparent empty entry. Otherwise there is one entry per kept wedge (min(6, candidates)), shaped and coloured as in `PlanShapes` |
| `KosaraChart.LastWedgeIgnoresItsAngle` | RedesignChallenge/Frontend/src/components/kosaraChart.js:56-57 | The last wedge's own angle does not affect the plan; its shape comes from the previous wedge alone |
| `KosaraChart.ShownRatios` | RedesignChallenge/Frontend/src/components/kosaraChart.js:211 | The restricted ratios hold exactly the shown keys that were present, with unchanged values |
| `KosaraChart.SelectAll` | RedesignChallenge/Frontend/src/components/kosaraChart.js:206-212 | Before brushing, every spot is published in order with barcode, position and shown ratios |
| `KosaraChart.BrushSelection` | RedesignChallenge/Frontend/src/components/kosaraChart.js:214-232 | A brush publishes, in input order, exactly the spots with x0 ≤ x ≤ x1 and y0 ≤ y ≤ y1. Each keeps barcode and position and has its ratios cut to the shown keys |
| `Waffle.Round` | RedesignChallenge/Frontend/src/components/waffleChart.js:185 | `Math.round` gives the integer `n` with n − ½ ≤ x < n + ½ |
| `Waffle.PlaceCell` | RedesignChallenge/Frontend/src/components/waffleChart.js:188-189 | Cell `k` has row·5 + col = k with 0 ≤ col < 5 |
| `Waffle.WaffleCells` | RedesignChallenge/Frontend/src/components/waffleChart.js:181-200 | The nested loops with the early `break` draw the reference layout: the first 25 demanded cells, placed row-major |
| `Waffle.CellsCapped` | RedesignChallenge/Frontend/src/components/waffleChart.js:187 | Once 25 cells are placed, further requests change nothing |
| `Waffle.LayoutPlacement` | RedesignChallenge/Frontend/src/components/waffleChart.js:188-196 | No spot has more than 25 cells. Cell `k` is at row k/5 and column k mod 5 and is filled with its category's colour |
| `Waffle.LayoutGrid` | RedesignChallenge/Frontend/src/components/waffleChart.js:181-199 | Every cell lies on the 5×5 grid, and no two cells share a position |
| `Waffle.CategoryRuns` | RedesignChallenge/Frontend/src/components/waffleChart.js:184-199 | Category `i` holds exactly one contiguous run. It starts where the earlier categories stopped (capped at 25) and is min(request, 25 − used) long |
| `Waffle.MirroredMatchesMain` | RedesignChallenge/Frontend/src/components/waffleChart.js:279-297 | The mirrored view's `forEach` draws exactly the cells of the main view's layout |
| `Waffle.MirrorSelection` | RedesignChallenge/Frontend/src/components/waffleChart.js:249-256 | The mirror panel shows, in input order, exactly the spots inside the inclusive rectangle. Each is translated to (x − x0, y − y0), inside the clip box |
| `Process.CumsumFrom` | RedesignChallenge/Backend/process.py:137-141 | The pass only rewrites existing cells: the row keeps its key set |
| `Process.CumsumFromSpec` | RedesignChallenge/Backend/process.py:136-141 | From position `from` with running sum `acc`: unvisited columns are unchanged, zero cells stay zero, and a non-zero cell holds `acc` plus the selected cells from `from` through itself |
| `Process.ConditionalCumsumSpec` | RedesignChallenge/Backend/process.py:135-141 | A zero cell stays zero. A non-zero cell in column `j` becomes the sum of the selected cells up to and including `j`. Unselected columns are untouched |
| `Process.LastNonZeroIsTotal` | RedesignChallenge/Backend/process.py:136-140 | The last non-zero selected cell ends up holding the total of the selected cells |
| `Process.CumsumNonDecreasing` | RedesignChallenge/Backend/process.py:136-140 | With non-negative inputs, the non-zero outputs never decrease along the selected columns |
| `Process.Project` | RedesignChallenge/Backend/process.py:142 | The projected row holds exactly the selected columns present in the input, with their values |
| `Process.FilterAndCumsumSpec` | RedesignChallenge/Backend/process.py:134-145 | The pass fails exactly when a selected column is missing (`KeyError`) or repeated (`ValueError` at the `!= 0` test). Otherwise the new frame has every row's fixed columns and exactly the selected columns, with zero cells zero and the others running sums |
| `Process.InitialGuessShape` | RedesignChallenge/Backend/process.py:170-176 | At or below the special value the guess exceeds `d`. Above it, the guess rises with `a` up to 8, and the pieces meet at a = 0.95 |
| `Process.RadiusAngle` | RedesignChallenge/Backend/process.py:182-193 | A zero cumulative value gets radius 0 and angle 0 |
| `Process.ZeroSkipsSolver` | RedesignChallenge/Backend/process.py:183-185 | A zero value never consults the solver, so any two solvers agree on it |
| `Process.GetKosaraDataSpec` | RedesignChallenge/Backend/process.py:178-199 | The glyph data exists exactly when every selected column exists and none repeats. Each row keeps its fixed columns and original selected values, and has a radius and an angle for exactly the selected columns. A zero ratio gives 0 and 0. A non-zero ratio gets the solver's radius and angle (NaN on a solver error) for its running sum, not for the ratio itself |
| `CellCounts.Count` | RedesignChallenge/Frontend/src/components/cellTypeChart.js:24 | A count never exceeds the number of spots |
| `CellCounts.CountIsCardinality` | RedesignChallenge/Frontend/src/components/cellTypeChart.js:23-25 | The `reduce` count equals the number of spots whose ratio for the type is present and greater than 0 |
| `CellCounts.CountAppend` | RedesignChallenge/Frontend/src/components/cellTypeChart.js:24 | Counting two batches together is the sum of counting each |
| `CellCounts.CountExtremes` | RedesignChallenge/Frontend/src/components/cellTypeChart.js:24 | The count equals the number of spots iff every spot contains the type, and is 0 iff none does |
| `CellCounts.LabelCounts` | RedesignChallenge/Frontend/src/components/cellTypeChart.js:23-25 | Nine counts in `X1..X9` order, each the number of spots containing that type, each at most the number of spots |
| `CellCounts.CellTypeCounts` | RedesignChallenge/Frontend/src/components/cellTypeChart.js:21-25 | Missing or empty data draws nothing; otherwise the nine counts |
| `CellCounts.MissingKeyCountsZero` | RedesignChallenge/Frontend/src/components/cellTypeChart.js:24 | A type filtered out of every spot's ratios counts 0 |
| `CellAnalysis.OnChangeTabKey` | RedesignChallenge/Frontend/src/components/cellAnalysisChart.js:86-93 | The new tab is stored, and the glyph charts are hidden iff the tab is `tSNETab` |
| `CellAnalysis.SyncedTab` | RedesignChallenge/Frontend/src/components/cellAnalysisChart.js:98-102 | The effect asks for one of the two listed tabs, `tSNETab` iff the glyph charts are hidden |
| `CellAnalysis.TabFlagRoundTrip` | RedesignChallenge/Frontend/src/components/cellAnalysisChart.js:86-102 | A listed tab leads to a flag that leads back to it, and every flag survives the round trip through its tab |
| `CellAnalysis.CountsEffectRun` | RedesignChallenge/Frontend/src/components/cellAnalysisChart.js:96-107 | An empty or missing selection does nothing. Otherwise the effect asks for the tab matching the flag, and draws counts iff the current tab is the counts tab |
| `CellAnalysis.CountsAgreeWithCellTypeChart` | RedesignChallenge/Frontend/src/components/cellAnalysisChart.js:104-107 | On the counts tab, this card draws exactly the cell-type chart's counts |
| `CellAnalysis.EffectKeepsChosenTab` | RedesignChallenge/Frontend/src/components/cellAnalysisChart.js:86-104 | After the user picks a listed tab, the next run of the effect asks for that same tab |
| `CellAnalysis.IndexOf` | RedesignChallenge/Frontend/src/components/cellAnalysisChart.js:171 | `indexOf` gives −1 iff the value is absent, and otherwise a position holding it with no earlier copy |
| `CellAnalysis.DedupeSpec` | RedesignChallenge/Frontend/src/components/cellAnalysisChart.js:171 | The de-duplicated list has no repeats, has the same labels as the input, and is in first-occurrence order |
| `CellAnalysis.DedupeUnique` | RedesignChallenge/Frontend/src/components/cellAnalysisChart.js:171 | Any repeat-free list of the same labels in first-occurrence order is the de-duplicated list |
| `CellAnalysis.DedupeDistinct` | RedesignChallenge/Frontend/src/components/cellAnalysisChart.js:171 | A list without repeats passes through unchanged |
| `CellAnalysis.DedupeIdempotent` | RedesignChallenge/Frontend/src/components/cellAnalysisChart.js:171 | De-duplicating twice equals de-duplicating once |
| `CellAnalysis.SortedClusters` | RedesignChallenge/Frontend/src/components/cellAnalysisChart.js:172-176 | The cluster list is a permutation of the de-duplicated labels, in ascending order of the number after the first space |
| `CellAnalysis.SortedClustersSpec` | RedesignChallenge/Frontend/src/components/cellAnalysisChart.js:171-176 | The sorted cluster list holds every label of the data exactly once |
| `CellAnalysis.ClusterLabelsSortAscending` | RedesignChallenge/Frontend/src/components/cellAnalysisChart.js:172-176 | For any list of `"Cluster n"` labels, repeats allowed (one per t-SNE point), the de-duplicated sorted list is strictly ascending in `n` |
| `CellAnalysis.SeqMin` | RedesignChallenge/Frontend/src/components/cellAnalysisChart.js:194-195 | The lower end of the extent is a data value no larger than any other |
| `CellAnalysis.SeqMax` | RedesignChallenge/Frontend/src/components/cellAnalysisChart.js:194-195 | The upper end of the extent is a data value no smaller than any other |
| `CellAnalysis.PaddedDomain` | RedesignChallenge/Frontend/src/components/cellAnalysisChart.js:194-205 | No points means no domain. Otherwise the domain contains every point |
| `CellAnalysis.PaddedDomainShape` | RedesignChallenge/Frontend/src/components/cellAnalysisChart.js:196-205 | The padded domain keeps the data's centre, is 1.1 times the data width, and keeps every point 5% of the width inside each edge |
| `ClusterLabels.Numeral` | RedesignChallenge/Frontend/src/components/differentialFeatureHeatmap.js:37 | The decimal rendering of a number is non-empty, all digits, and has no leading zero |
| `ClusterLabels.ParseDigits` | RedesignChallenge/Frontend/src/components/clusterLegend.js:5 | `parseInt` of a digit run (not `0x`-prefixed) is the number the digits spell, with or without a radix |
| `ClusterLabels.ParseNumeral` | RedesignChallenge/Frontend/src/components/cellAnalysisChart.js:173 | `parseInt` reads back the number a numeral was written from |
| `ClusterLabels.Split` | RedesignChallenge/Frontend/src/components/cellAnalysisChart.js:173 | `split` gives at least one piece, and no piece contains the separator |
| `ClusterLabels.SplitJoin` | RedesignChallenge/Frontend/src/components/cellAnalysisChart.js:173 | Joining the pieces of `split` with the separator gives the string back |
| `ClusterLabels.ClusterLabelWords` | RedesignChallenge/Frontend/src/components/cellAnalysisChart.js:173 | A label `"Cluster n"` splits on spaces into `"Cluster"` and the numeral of `n` |
| `ClusterLabels.ClusterLabelDigits` | RedesignChallenge/Frontend/src/components/clusterLegend.js:5 | Removing the non-digits of `"Cluster n"` leaves the numeral of `n` |
| `ClusterLabels.ClusterLabelNumber` | RedesignChallenge/Frontend/src/components/clusterLegend.js:5-6 | Both the second-word reading and the all-digits reading of `"Cluster n"` give `n` |
| `ClusterLegend.SortedDomain` | RedesignChallenge/Frontend/src/components/clusterLegend.js:4-8 | The legend's list is a permutation of the scale's domain, non-decreasing by the number its digits spell |
| `ClusterLegend.SortedDomainSpec` | RedesignChallenge/Frontend/src/components/clusterLegend.js:4-8 | A repeat-free domain sorts to a repeat-free list of the same clusters |
| `ClusterLegend.LegendEntries` | RedesignChallenge/Frontend/src/components/clusterLegend.js:12-17 | One swatch per cluster in sorted order, each coloured by the scale at its cluster |
| `ClusterLegend.LegendEntriesSpec` | RedesignChallenge/Frontend/src/components/clusterLegend.js:4-17 | The legend shows every cluster of the domain exactly once, in non-decreasing order of its number |
| `ClusterLegend.LegendKeepsChartOrder` | RedesignChallenge/Frontend/src/components/clusterLegend.js:4-8 | For any list of `"Cluster n"` labels, repeats allowed (one per t-SNE point), the legend's sort leaves the t-SNE chart's sorted domain exactly as it is |
| `Heatmap.FeatureCellsSpec` | RedesignChallenge/Frontend/src/components/differentialFeatureHeatmap.js:19-29 | A gene gives nine cells; cell `j` is cluster `"Cluster j+1"`, with the gene's name and that cluster's fold change |
| `Heatmap.FlatMapCells` | RedesignChallenge/Frontend/src/components/differentialFeatureHeatmap.js:19-29 | The flattened data has 9 cells per gene |
| `Heatmap.FlatMapCellsAt` | RedesignChallenge/Frontend/src/components/differentialFeatureHeatmap.js:19-29 | Cell 9k + j is gene `k` in cluster `j+1` with that fold change (gene-major, cluster-minor) |
| `Heatmap.FlatMapCellsInverse` | RedesignChallenge/Frontend/src/components/differentialFeatureHeatmap.js:19-29 | Read backwards: cell `n` belongs to gene n/9 and cluster n mod 9 + 1 |
| `Heatmap.HeatmapCells` | RedesignChallenge/Frontend/src/components/differentialFeatureHeatmap.js:9-29 | No data means nothing drawn; otherwise 9 cells per gene |
| `Heatmap.RowDomainSpec` | RedesignChallenge/Frontend/src/components/differentialFeatureHeatmap.js:37 | The row domain is `Cluster 1..Cluster 9` in order, without repeats, each reading back as its number. It contains the row of every drawn cell |
| `SummaryStats.GetSummaryStats` | RedesignChallenge/Frontend/src/components/violinPlot/summary-stats.ts:5-16 | The data comes back as an ascending permutation of itself. Statistics exist iff both quartiles are defined. q1, median and q3 are the 0.25, 0.5 and 0.75 quantiles of the sorted data |
| `SummaryStats.Fences` | RedesignChallenge/Frontend/src/components/violinPlot/summary-stats.ts:12-14 | min = q1 − 1.5·IQR and max = q3 + 1.5·IQR. The fences are symmetric and span 4·IQR. If q1 ≤ q3 then min ≤ q1 ≤ q3 ≤ max |
| `SummaryStats.FiveNumberOrder` | RedesignChallenge/Frontend/src/components/violinPlot/summary-stats.ts:8-16 | With the median between the quartiles, the five numbers come out in box-plot order |
| `SummaryStats.OrderIrrelevant` | RedesignChallenge/Frontend/src/components/violinPlot/summary-stats.ts:6-16 | The result depends only on the multiset of values, not on their input order |
| `SummaryStats.SecondCallSame` | RedesignChallenge/Frontend/src/components/violinPlot/summary-stats.ts:6 | Calling again on the already sorted array gives the same result |
| `Sorting.SortIsStable` | RedesignChallenge/Frontend/src/components/kosaraChart.js:35 | The sort is stable: the elements sharing a key keep their input order |
| `Sorting.SortBy` | RedesignChallenge/Frontend/src/components/kosaraChart.js:43 | The sort returns a permutation of its input, non-decreasing by the key |

## Left out

- Trigonometry and number formatting. The boundary points (`sin`/`cos` at 45 ± angle degrees) are abstract `Boundary` values, and paths are shape values rendered to arc commands, not SVG strings.
- The backend's numerics. `fsolve`, `arccos` and the computation of `special_value` and `d` are out of scope: the solver is a function parameter, and `d` and the special value are plain inputs (`Geometry`). Module-level file loading, the pandas/scanpy normalisation and the Flask server are I/O and foreign libraries.
- React and D3 plumbing: hooks, `svgRef` mount checks, tooltips' HTML and positioning, zoom, brush wiring, background images, `fetch`, `console.log`, and the mirror group's own `translate(x1, y0)` offset.
- Violin, box and pie rendering, the differential table and chart, the gene list, the gradient legend and `colorSchemes.js`. These are rendering or constant data; the glyph palette used is the one in `kosaraChart.js`.
- Floating point. Ratios, angles and coordinates are exact reals: no rounding and no NaN inputs. A NaN result appears only where the source produces one, as the solver's error.
- `KosaraSelection.Wedges`: requires every category with a ratio to have an angle. In the source a missing angle makes `angles.find` return `undefined`, and reading `angle[1]` then throws.
- `Process.ConditionalCumsumSpec`: requires the selected columns to be distinct. Its only caller passes rows in which a repeated column is a two-element series, and `if row[col] != 0` then raises `ValueError`; `Process.FilterAndCumsum` returns `None` for that case, so the pass itself is never run with a repeated column.
- `Process.FilterAndCumsum`: a repeated selected column always fails. On a frame with no rows the source never reaches the `!= 0` test, and what pandas then does with the duplicated columns is not modelled.
- `Process.FilterAndCumsum` and `Process.GetKosaraData`: `KeyError` and `ValueError` are both `None`; the model does not say which exception was raised.
- `Waffle.WaffleCells`: requires exactly nine ratios, as the loader builds them (`waffleChart.js` line 101). The reference layout and the mirrored fold accept up to nine.
- `CellAnalysis.ClusterKey`: a label with no number after its first space compares as NaN in the source, which leaves the order to the engine. The model gives it key 0, and the ordering lemmas require every label to be `"Cluster n"`.
- `ClusterLegend.LegendKey`: the same for a label without digits.
- `ClusterLabels.ParseInt`: white space is ASCII white space plus U+00A0, U+FEFF, U+2028 and U+2029. Other Unicode space separators that JavaScript also skips are not modelled, nor are digits beyond `int`, which `parseInt` reads as a float.
- `SummaryStats.GetSummaryStats`: `d3.quantile` is a parameter. When a quartile is undefined (empty data), the source returns NaN fields, while the model returns no statistics.
- `CellAnalysis.CountsEffectRun`: only listed tab keys are considered by `TabFlagRoundTrip` and `EffectKeepsChosenTab`. The counts drawn depend on the tab of the current render, not on the one the effect requests; that delay is modelled, not repaired.
- `CellAnalysis.PaddedDomain`: `d3.extent` skips NaN and undefined values; the model's points are all numbers.
