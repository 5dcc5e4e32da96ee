# GAPAnalysis core in Dafny

This project models the computational core of the GAPAnalysis scripts. These
scripts summarise species habitat maps of the USGS Gap Analysis Project. A
habitat map has one class per pixel: 0 no habitat, 1 summer, 2 winter, 3 all
year. The model covers:

- **Zonal percent overlay** (`gapanalysis/habitat.py` `PercentOverlay`,
  `gapanalysis/representation.py` `Calculate`):
  - each species map is summed with ten times a zone raster;
  - the summed raster's attribute table is tabulated per expected code
    `zone*10 + class`, decoded back into (zone, season) pairs and written
    into a (species, zone) result table;
  - the derived columns are computed: strUC, totals and percentages;
  - the run's table is merged into the master table.
- **AOI overlay script** (`gapbap/overlay.py`): the same process with an
  area-of-interest raster (codes 0..3 outside, 10..13 inside) and rounded
  percentages.
- **Weighted species richness** (`gapanalysis/richness.py` `MapRichness`):
  - a per-species weight, by percentile rank or by area of its value-1 pixels;
  - a running tally of `map / weight`;
  - periodic fixed-point checkpoints.
- **Batched richness** (`gapbap/richness.py` `CalculateRichness`): species
  maps are copied, reclassified per season, summed batch by batch with
  CellStatistics SUM "DATA", and the batch sums are summed again.
- **Validators and remap helper** (`gapanalysis/data.py` `CheckHabitatMaps`,
  `gapanalysis/misc.py` `CheckRasters` and `MakeRemapList`).

arcpy and pandas are not part of this model. What they hand the scripts is
an input:

- attribute-table rows are a `Cursors.Cursor`: the rows yielded, plus whether
  the cursor raised;
- rasters are sequences of cells on one shared grid, with NoData explicit;
- Describe properties and statistics are a record.

Python exceptions that end a script are `None`. Exceptions that a script
catches are modelled on the path the script then takes.

Modules:

| file | module | models |
|---|---|---|
| wrappers.dfy | Wrappers | Option / Result |
| pytext.dfy | PyText | `str(int)`, `int(str)`, ASCII `upper`/`lower`, the strUC and name-normalisation slices |
| string_order.dfy | StringOrder | Python's string order and `list.sort()` on strings |
| species_index.dfy | SpeciesIndex | the (species, zone) row index `sorted(spp * len(zones))`, `zones * len(spp)` |
| zone_codes.dfy | ZoneCodes | ValueMap, the code `k + 10*z`, both scripts' decodings |
| cursors.dfy | Cursors | a SearchCursor's yield |
| code_counts.dfy | CodeCounts | df2 filled from the cursor with `.loc` enlargement |
| zone_fill.dfy | ZoneFill | df2's re-index by (Zone, Season) levels and the fill of df1 (`ZoneFrame`) |
| derived_columns.dfy | DerivedColumns | the df3 columns |
| frames.dfy | Frames | keyed tables, `update` + `concat` into the master (`MasterFrame`) |
| percent_overlay.dfy | PercentOverlay | the species loop and the whole run of both zonal scripts |
| rounding.dfy | Rounding | `int()` truncation, Python 2 `round`, `Int(x*10000 + 0.5)` |
| aoi_overlay.dfy | AoiOverlay | the AOI overlay script (`AoiFrame`) |
| map_richness.dfy | MapRichness | MapRichness |
| batch_richness.dfy | BatchRichness | CalculateRichness |
| raster_checks.dfy | RasterChecks | CheckHabitatMaps |
| misc.dfy | Misc | MakeRemapList, CheckRasters |

Points where the code does something other than its docstrings lead one to
expect (the model follows the code):

- The two zonal scripts decode codes differently. Both docstrings say zero
  is not a valid zone (gapanalysis/habitat.py:38-40,
  gapanalysis/representation.py:35-37), yet:
  - habitat.py has a single-character guard, so zone 0 decodes.
  - representation.py has no guard. Every code of zone 0 fails (`int("")`),
    and that failure ends the run.
- In MapRichness `count` is only assigned on a VALUE-1 row.
  - A later species without such a row gets the previous species' count.
  - Only when the first species in the list has no such row is `count`
    unbound, and that raises a NameError.
- The AOI script's docstring says grids with negative counts are listed
  instead of processed (gapbap/overlay.py:29-31). The step that drops them
  sits inside the commented-out string (lines 242-247), so they are
  processed. Counts are therefore integers of either sign throughout the
  model. A zero habitat total next to non-zero AOI pixels gives an infinite
  percentage, and `int(round(...))` raises OverflowError on it.
- The MapRichness docstring says weighting "None" weighs each species
  equally by 1 (gapanalysis/richness.py:33-35). In the code `weight` becomes
  1 after the first species; the `weight != "None"` branch then reads the
  undefined `weightsDF`, and the script exits. Only an empty species list
  completes.
- The CalculateRichness docstring offers only "Summer", "Winter" and "Any"
  (gapbap/richness.py:23-24). An unknown season leaves `wc` unbound. Every
  reclassification then raises, and no richness is produced.

## Model

| member | source | states |
|---|---|---|
| PyText.NatStr | gapanalysis/habitat.py:229-236 | `str()` of a natural: non-empty, all digits, one character exactly below 10, no leading zero |
| PyText.ParseInt | gapanalysis/habitat.py:229-236 | `int()` of text: ValueError (None) on "" and "-", the digit value on a digit string |
| PyText.ParseStr | gapanalysis/habitat.py:229-236 | `int(str(n)) == n` for every integer |
| PyText.StrAppendDigit | gapanalysis/habitat.py:229-236 | for a positive zone, `str(10*z + k)` is `str(z)` followed by the digit k |
| PyText.DigitsValueOfNatStr | gapanalysis/habitat.py:229-236 | reading back the decimal digits of n gives n |
| PyText.Upper | gapanalysis/habitat.py:270 | `upper()` keeps the length and maps each character through the ASCII upper-case map |
| PyText.Lower | gapbap/richness.py:106 | `lower()` keeps the length and maps each character through the ASCII lower-case map |
| PyText.StrUC | gapanalysis/habitat.py:270 | `i[0] + i[1:5].upper() + i[5]`: IndexError (None) exactly when the code is shorter than 6; otherwise six characters, the first and sixth kept, the middle four upper-cased |
| PyText.NormaliseName | gapbap/overlay.py:85 | `i[0] + i[1:5].upper() + i[5:]`: IndexError exactly on the empty name; otherwise the length is kept and only positions 1..4 are upper-cased |
| PyText.NormaliseKeepsDistinct | gapbap/overlay.py:85 | two names with the same normal form are equal up to case |
| StringOrder.Sort | gapanalysis/habitat.py:163-164 | `list.sort()` on strings: the result is sorted and a permutation of the input |
| StringOrder.SortedUnique | gapanalysis/habitat.py:163-164 | two sorted permutations of the same list are equal, so the sorted index is fully determined |
| StringOrder.LessTotal | gapanalysis/habitat.py:164 | Python's string order is total |
| StringOrder.LessTransitive | gapanalysis/habitat.py:164 | Python's string order is transitive |
| SpeciesIndex.SortRepeat | gapanalysis/habitat.py:163-164 | sorting the species list repeated once per zone equals repeating each sorted species once per zone |
| SpeciesIndex.IndexLayout | gapanalysis/habitat.py:163-167 | the row at position `|zones|*b + j` is (b-th species in sorted order, j-th zone) |
| SpeciesIndex.IndexAt | gapanalysis/habitat.py:163-167 | every index position decomposes into a species block and a zone offset |
| SpeciesIndex.IndexPairs | gapanalysis/habitat.py:163-167 | the index has `|spp| * |zones|` rows |
| SpeciesIndex.IndexCovers | gapanalysis/habitat.py:163-167 | every (listed species, zone value) pair has a row |
| SpeciesIndex.IndexOnlyListed | gapanalysis/habitat.py:163-167 | every row is a listed species with a listed zone |
| SpeciesIndex.IndexExactlyOnce | gapanalysis/habitat.py:163-167 | with distinct species and zones, every pair has exactly one row |
| SpeciesIndex.IndexPositionsDistinct | gapanalysis/habitat.py:163-167 | with distinct species and zones, equal rows sit at equal positions |
| ZoneCodes.SeasonCode | gapanalysis/habitat.py:141-144 | each habitat class has a ValueMap key in 0..3 |
| ZoneCodes.SeasonOf | gapanalysis/habitat.py:141-144 | `ValueMap[k]` succeeds exactly for k in 0..3 and inverts SeasonCode |
| ZoneCodes.ExpectedCodes | gapanalysis/habitat.py:205-207 | df2's index: 4 codes per zone, the j-th being `zones[j/4]*10 + j%4` |
| ZoneCodes.ExpectedCodesMembers | gapanalysis/habitat.py:205-207 | a code is expected exactly when it is `z*10 + k` for a listed zone z and a class k in 0..3 |
| ZoneCodes.BuildExpectedCodes | gapanalysis/habitat.py:205-207 | the concatenation loop builds the expected code list |
| ZoneCodes.DecodeHabitat | gapanalysis/habitat.py:229-236 | definition, no contract of its own: the season from `int(str(x)[-1:])` through ValueMap and the zone from `int(str(x)[:-1])`, with zone 0 for a one-character code; proved about in DecodeHabitatArithmetic and HabitatRoundTrip |
| ZoneCodes.DecodeHabitatArithmetic | gapanalysis/habitat.py:229-236 | habitat.py's string slicing is `(code/10, code%10)` for codes >= 0, fails for -9..-1, and truncates toward zero for codes <= -10 |
| ZoneCodes.DecodeHabitatLarge | gapanalysis/habitat.py:229-236 | for codes of at least 10, the decoding is `(code/10, code%10)` |
| ZoneCodes.DecodeHabitatNegative | gapanalysis/habitat.py:229-236 | for codes <= -10, the zone keeps the sign with truncation toward zero |
| ZoneCodes.HabitatRoundTrip | gapanalysis/habitat.py:205-236 | decoding the code of class k in zone z >= 0 gives back (z, ValueMap[k]) |
| ZoneCodes.DecodeRepresentation | gapanalysis/representation.py:205-206 | definition, no contract of its own: the same slicing without the one-character branch; proved about in RepresentationDecodeAgrees, RepresentationRoundTrip and RepresentationZeroZoneFails |
| ZoneCodes.RepresentationDecodeAgrees | gapanalysis/representation.py:205-206 | representation.py decodes like habitat.py except that codes 0..9 fail |
| ZoneCodes.RepresentationRoundTrip | gapanalysis/representation.py:184-206 | round trip for zones of at least 1 |
| ZoneCodes.RepresentationZeroZoneFails | gapanalysis/representation.py:205-206 | every code of zone 0 fails to decode |
| CodeCounts.Zeros | gapanalysis/habitat.py:208 | df2 before the cursor: every expected code at 0 |
| CodeCounts.SetCount | gapanalysis/habitat.py:219 | `df2.loc[v, "COUNT"] = c` overwrites the count of an existing code and appends a new code (enlargement) |
| CodeCounts.Filled | gapanalysis/habitat.py:212-219 | definition, no contract of its own: df2 after applying the cursor rows with `.loc` in cursor order; proved about in FilledLayout, FilledCounts, FilledKeepsIndex and FilledStoresReported |
| CodeCounts.LastCount | gapanalysis/habitat.py:212-219 | the count of a code after the cursor is the last row's for that code, None when no row has it |
| CodeCounts.FilledLayout | gapanalysis/habitat.py:212-219 | filling keeps the expected codes in place and appends only reported codes |
| CodeCounts.FilledCounts | gapanalysis/habitat.py:212-219 | every count of the filled table is the last reported count of its code, or the initial count when unreported |
| CodeCounts.FilledKeepsIndex | gapanalysis/habitat.py:212-219 | when every reported code is expected, the table keeps its length |
| CodeCounts.FilledStoresReported | gapanalysis/habitat.py:212-219 | every reported code is in the filled table |
| CodeCounts.Flagged | gapanalysis/habitat.py:212-219 | definition, no contract of its own: the values logged as unexpected, each checked against df2 as it stands when its row arrives; proved about in FlaggedExactly |
| CodeCounts.FlaggedExactly | gapanalysis/habitat.py:215-216 | a value is logged as unexpected exactly when it is reported and not in df2's index |
| CodeCounts.FillFromCursor | gapanalysis/habitat.py:212-219 | the cursor loop computes the filled table and the unexpected values |
| ZoneFill.DecodeAll | gapanalysis/habitat.py:229-237 | the Season and Zone columns: None exactly when some code fails to decode, otherwise one entry per row with its decoded pair and count |
| ZoneFill.SeasonLevel | gapanalysis/habitat.py:241-243 | the Season level holds exactly the seasons present |
| ZoneFill.SeasonsByNameSorted | gapanalysis/habitat.py:241-243 | the levels list season names in sorted order |
| ZoneFill.ZoneLevel | gapanalysis/habitat.py:241-243 | the Zone level is increasing and holds exactly the zones present |
| ZoneFill.LevelPairs | gapanalysis/habitat.py:240-243 | the level product holds exactly the (present zone, present season) pairs |
| ZoneFill.Matches | gapanalysis/habitat.py:246 | `df2.loc[(z, s)]` finds no row exactly when no entry has that pair |
| ZoneFill.MatchesSingle | gapanalysis/habitat.py:246 | a pair held by one entry finds exactly its count |
| ZoneFill.PlanFromSpec | gapanalysis/habitat.py:245-246 | the fill loop writes the looked-up count of each pair in order, and stops at the first pair whose lookup raises |
| ZoneFill.Put | gapanalysis/habitat.py:246 | setting one season cell changes that cell only |
| ZoneFill.SetCell | gapanalysis/habitat.py:246 | `df1.loc[(sp, z), s] = v` updates the (sp, z) rows and appends a row when there is none |
| ZoneFill.ApplyCellsSnoc | gapanalysis/habitat.py:245-246 | writing one more cell is one more SetCell |
| ZoneFill.ApplyCellsEffect | gapanalysis/habitat.py:245-246 | when the rows exist, the fill changes only the species' rows, each zone row getting the last cell written for each season |
| ZoneFill.InitialRows | gapanalysis/habitat.py:162-167 | df1 starts with one all-zero row per index pair, in index order |
| ZoneFill.ZoneFrame.constructor | gapanalysis/habitat.py:166 | the frame starts as InitialRows |
| ZoneFill.ZoneFrame.FillSpecies | gapanalysis/habitat.py:240-246 | filling one species applies its plan's cells to the frame in place and reports whether every lookup succeeded |
| ZoneFill.ZoneFrame.FillPairs | gapanalysis/habitat.py:245-246 | the fill loop over a pair list |
| ZoneFill.DecodeExpected | gapanalysis/habitat.py:205-237 | a table of only expected codes decodes into its zone/class entries |
| ZoneFill.LookupExpected | gapanalysis/habitat.py:246 | with distinct zones, the lookup of (zones[i], s) is the count at position `4i + ValueMap key of s` |
| ZoneFill.ExpectedLabels | gapanalysis/habitat.py:240-243 | the decoded expected table has exactly the listed zones, each with all four seasons |
| ZoneFill.FillExpected | gapanalysis/habitat.py:240-246 | with distinct zones the fill is complete and writes each listed zone's four counts at their positions |
| ZoneFill.LastCell | gapanalysis/habitat.py:245-246 | a pair has a last written value exactly when it was written |
| ZoneFill.LastCellUniform | gapanalysis/habitat.py:245-246 | when every write of a pair carries the same value, that value is the last |
| ZoneFill.Written | gapanalysis/habitat.py:245-246 | each season of a row ends with its last written value, or keeps its old value |
| ZoneFill.WrittenCons | gapanalysis/habitat.py:245-246 | the written counts unfold one cell at a time |
| DerivedColumns.Add | gapanalysis/habitat.py:271-273 | pandas `+` on counts: NaN exactly when an operand is NaN, otherwise the sum |
| DerivedColumns.Widened | gapanalysis/habitat.py:269 | `reset_index(level=1)`: one wide row per row, species and zone kept |
| DerivedColumns.DeriveRow | gapanalysis/habitat.py:269-280 | definition, no contract of its own: one df3 row: the species totals of the widened columns, the three percentages and fillna(0); proved about in RowColumns, SpeciesShares, PercentInRange and PercentagesAddUp |
| DerivedColumns.Perc | gapanalysis/habitat.py:277-280 | definition, no contract of its own: `100 * (pixels / total)` with true division after fillna(0): a NaN operand or 0/0 gives 0, and a non-zero count over a zero total an infinity of the count's sign; proved about in SpeciesShares, InfinitePercent, PercentInRange and ShareBounded |
| DerivedColumns.Derive | gapanalysis/habitat.py:269-280 | the df3 columns exist exactly when every name has 6+ characters and no species has exactly one row; rows keep species, zone and strUC |
| DerivedColumns.ZoneTotalBeforeWidening | gapanalysis/habitat.py:271-273 | ZoneTotal adds the four raw counts; summer and winter gain the all-year pixels; so ZoneTotal + AllYear = NonHab + Summer + Winter |
| DerivedColumns.RowColumns | gapanalysis/habitat.py:274-280 | each percentage is Perc of the row's pixels and its species' total, NaN filled with 0 |
| DerivedColumns.SpeciesShares | gapanalysis/habitat.py:274-280 | each row of a species carries its share of a non-zero species total, of either sign; a NaN total gives 0; a zero total gives 0 for a row without pixels and an infinity of the pixels' sign otherwise |
| DerivedColumns.PixelsWithinTotal | gapanalysis/habitat.py:274-276 | when no pixel count of the species is negative, a row's pixels lie between 0 and its species' total |
| DerivedColumns.PercentInRange | gapanalysis/habitat.py:277-280 | without negative counts every percentage is finite and between 0 and 100 |
| DerivedColumns.InfinitePercent | gapanalysis/habitat.py:274-280 | a percentage is infinite exactly when its species' total is 0 (not NaN) and the row's pixels are not, and it has the pixels' sign; fillna(0) does not remove it |
| DerivedColumns.NonNegativeAllFinite | gapanalysis/habitat.py:274-280 | without negative counts no percentage of a species is infinite |
| DerivedColumns.PercentagesAddUp | gapanalysis/habitat.py:274-280 | a species' percentages of a season sum to 100 over its rows when its total is not 0, whatever its sign; with a zero or NaN total they sum to 0, unless one of them is infinite |
| DerivedColumns.TotalsAreSums | gapanalysis/habitat.py:274-276 | when every row of a species is filled, each row's total column is the sum of that column over the species' rows |
| DerivedColumns.SomeSum | gapanalysis/habitat.py:274-276 | the builtin `sum` is defined when no addend is NaN |
| DerivedColumns.ShareBounded | gapanalysis/habitat.py:277-279 | a share of at most the total is between 0 and 100 percent |
| Frames.Overlay | gapanalysis/habitat.py:315 | updating a row: the master's columns, each cell from the run when present |
| Frames.Updated | gapanalysis/habitat.py:315 | `dfMas.update(run)` keeps the master's columns and row count |
| Frames.UpdatedKeepsIndex | gapanalysis/habitat.py:315 | the update keeps the master's keys in order |
| Frames.UpdatedMasterOnly | gapanalysis/habitat.py:315 | a master row whose key is not in the run is unchanged |
| Frames.UpdatedShared | gapanalysis/habitat.py:315 | a shared key takes the run's cell in every master column the run row has, keeps the master cell otherwise, and gains no other column |
| Frames.UpdateWithItself | gapanalysis/habitat.py:305-306 | updating a table with itself changes nothing, so without a master file the run is the master |
| Frames.NewRows | gapanalysis/habitat.py:318-319 | the reindexed new rows are exactly the run rows whose key the master lacks |
| Frames.NewRowsAfterUpdate | gapanalysis/habitat.py:315-318 | the update does not change which run rows are new |
| Frames.Concat | gapanalysis/habitat.py:320 | `pd.concat` puts the master rows first and the new rows after |
| Frames.Merge | gapanalysis/habitat.py:300-321 | definition, no contract of its own: a duplicate run key raises with or without a master (`update`, or `df3.reindex(newMod)` on the non-unique index); otherwise with no master the run is archived, returned and saved, and with one the master is archived, updated and saved with the new rows appended; proved about in MergeArchive, MergeSaved, MergeSavedKeys, MergeWithoutMaster and MergeFailsOnDuplicates |
| Frames.MergeArchive | gapanalysis/habitat.py:309-315 | the archived copy is the master as loaded, and the returned table is the updated master |
| Frames.MergeSaved | gapanalysis/habitat.py:315-321 | the saved master is the updated master followed by the new rows |
| Frames.MergeSavedKeys | gapanalysis/habitat.py:315-321 | the saved master has exactly the keys of the master and the run |
| Frames.MergeWithoutMaster | gapanalysis/habitat.py:305-321 | without a master file, a run with unique keys is archived, returned and saved; one with a duplicate key raises at the reindex of its new rows |
| Frames.MergeFailsOnDuplicates | gapanalysis/habitat.py:305-319 | with or without a master, the merge raises exactly when the run's index has a duplicate key |
| Frames.MasterFrame.constructor | gapanalysis/habitat.py:303 | the frame holds the loaded master |
| Frames.MasterFrame.Update | gapanalysis/habitat.py:315 | in-place update: it raises exactly on duplicate run keys, and otherwise the table becomes the updated one |
| Frames.MasterFrame.WithNewRows | gapanalysis/habitat.py:318-320 | the concatenation of the master and the new run rows |
| Frames.SaveMaster | gapanalysis/habitat.py:300-321 | the merge step computes Merge |
| PercentOverlay.SpeciesStep | gapanalysis/habitat.py:205-257 | definition, no contract of its own: one species: the cursor table decoded, then df1 filled by the lookup plan; a failed decode or an incomplete fill keeps df1 in habitat.py and fails in representation.py; proved about in SpeciesStepExpected |
| PercentOverlay.FoldStep | gapanalysis/habitat.py:173-257 | definition, no contract of its own: one turn of the species loop, with the stale `Sum` reused when CellStatistics raises in habitat.py; SpeciesPass computes it |
| PercentOverlay.Fold | gapanalysis/habitat.py:173-264 | definition, no contract of its own: the species loop as FoldStep after FoldStep; proved about in FoldExpected and LoopFillsEveryPair, and FillAll computes it |
| PercentOverlay.Run | gapanalysis/habitat.py:162-334 | definition, no contract of its own: the loop over the initial frame, failure with no species, the derived table and the merge; PercentOverlay computes it |
| PercentOverlay.RunTable | gapanalysis/habitat.py:283-290 | the run table is valid, has the run columns and one (species, zone) row per derived row |
| PercentOverlay.OverlaySpecies | gapanalysis/habitat.py:205-257 | one species' pass in place: the unexpected values logged, and the new frame is the species step |
| PercentOverlay.FillAll | gapanalysis/habitat.py:173-264 | the species loop computes Fold from the initial rows |
| PercentOverlay.SpeciesPass | gapanalysis/habitat.py:173-257 | one turn of the species loop in place: a failed CellStatistics ends a representation run and otherwise reuses the last `Sum`; it succeeds exactly when FoldStep does, and df1 and the kept `Sum` become FoldStep's |
| PercentOverlay.PercentOverlay | gapanalysis/habitat.py:162-334 | a whole run computes Run |
| PercentOverlay.ReportedCounts | gapanalysis/habitat.py:212-246 | the counts a zone receives: each season gets the reported count of its code |
| PercentOverlay.ExpectedCounts | gapanalysis/habitat.py:205-219 | when the cursor reports only expected codes, df2 lists every expected code with its reported count |
| PercentOverlay.WrittenExpected | gapanalysis/habitat.py:240-246 | the fill writes each listed zone's season cell from its position in df2 |
| PercentOverlay.WrittenReported | gapanalysis/habitat.py:212-246 | each listed zone ends with its reported counts |
| PercentOverlay.WrittenUnlisted | gapanalysis/habitat.py:245-246 | an unlisted zone is left alone |
| PercentOverlay.SpeciesStepExpected | gapanalysis/habitat.py:205-257 | with only expected codes, a species step succeeds and gives exactly that species' listed-zone rows their reported counts |
| PercentOverlay.FoldExpected | gapanalysis/habitat.py:173-264 | when every species' table holds only expected codes, the loop succeeds, keeps the row count, gives each (listed species, listed zone) row that species' reported counts, and leaves other rows alone |
| PercentOverlay.LoopFillsEveryPair | gapanalysis/habitat.py:162-264 | from the initial frame, the result has one row per index pair, each with its species' reported counts |
| PercentOverlay.InitialRowsCover | gapanalysis/habitat.py:162-167 | every (species, zone) row exists before the loop |
| PercentOverlay.InitialRowsListed | gapanalysis/habitat.py:162-167 | the initial rows are only listed species and zones |
| Rounding.Trunc | gapbap/overlay.py:235-236 | `int()` truncates toward zero |
| Rounding.RoundHalfAway | gapbap/overlay.py:235-236 | Python 2 `round` rounds to the nearest integer, halves away from zero |
| Rounding.RoundPercent | gapbap/overlay.py:235-236 | a percentage in 0..100 rounds to an integer in 0..100 |
| Rounding.FixedPointRounds | gapanalysis/richness.py:155 | `Int(x*10000 + 0.5)` is x*10000 rounded to nearest for x >= 0 |
| AoiOverlay.AoiCodesExpected | gapbap/overlay.py:115-116 | the AOI codes are the expected codes of zones 0 and 1 |
| AoiOverlay.CategoryOf | gapbap/overlay.py:63-70 | ValueMap succeeds exactly on the eight AOI codes and inverts the category's code |
| AoiOverlay.CategoryRoundTrip | gapbap/overlay.py:63-70 | every category's code is an AOI code and maps back to it |
| AoiOverlay.CategoryNamesDistinct | gapbap/overlay.py:63-70 | distinct categories have distinct column names |
| AoiOverlay.PutCat | gapbap/overlay.py:130 | setting one category cell changes that cell only |
| AoiOverlay.SetCat | gapbap/overlay.py:130 | `df1.loc[d, x] = v` updates the rows named d and appends a row when there is none |
| AoiOverlay.WriteAllSnoc | gapbap/overlay.py:129-130 | writing one more cell is one more SetCat |
| AoiOverlay.Categorised | gapbap/overlay.py:124-125 | the Categ column exists exactly when every code of df2 is in ValueMap |
| AoiOverlay.InitialAoiRows | gapbap/overlay.py:91 | df1 starts with one all-zero row per listed raster |
| AoiOverlay.Normalised | gapbap/overlay.py:85 | the normalised raster list exists exactly when no name is empty, and holds each name's normal form |
| AoiOverlay.DeriveAoiRow | gapbap/overlay.py:225-236 | definition, no contract of its own: one derived row: the habitat totals, the AOI total and the two `int(round(...))` percentages after fillna, OverflowError (None) when a percentage is infinite; proved about in AoiPercentages, RoundedShare, OverflowExactly and NegativeCountOverflows |
| AoiOverlay.AoiDerive | gapbap/overlay.py:229-237 | the derived columns exist exactly when no row's percentage is infinite and every name has 6+ characters; names and strUC kept, each row as DeriveAoiRow gives it |
| AoiOverlay.RoundedShare | gapbap/overlay.py:232-236 | a share of a total containing it, without negative counts, rounds without error into 0..100, to 0 for no pixels and to 100 for the whole total |
| AoiOverlay.OverflowExactly | gapbap/overlay.py:232-236 | a percentage is infinite, so its rounding raises, exactly when its habitat total is 0 (not NaN) and the AOI pixels it counts are not |
| AoiOverlay.NegativeCountOverflows | gapbap/overlay.py:232-236 | 5 summer pixels outside the AOI and a count of -5 inside make the summer percentage -inf, and deriving the table raises |
| AoiOverlay.AoiPercentages | gapbap/overlay.py:229-236 | without negative counts both AOI percentages round without error into 0..100; 0 with nothing inside; 100 with nothing outside and positive habitat |
| AoiOverlay.AoiTable | gapbap/overlay.py:238-241 | the run table is valid, with the script's columns and one row per raster |
| AoiOverlay.AoiFrame.constructor | gapbap/overlay.py:91 | the frame starts as InitialAoiRows |
| AoiOverlay.AoiFrame.WriteRaster | gapbap/overlay.py:128-130 | the cell loop writes each category count in place |
| AoiOverlay.ProcessRaster | gapbap/overlay.py:115-130 | one raster's pass in place: it succeeds exactly when RasterStep does, and the frame becomes its result |
| AoiOverlay.ProcessRasters | gapbap/overlay.py:101-130 | the raster loop in place: it succeeds exactly when AoiFold does on the rasters it is given (the script passes `dists[:3]`), and df1 becomes its result |
| AoiOverlay.AoiRun | gapbap/overlay.py:85-277 | definition, no contract of its own: the normalised list, the loop over `dists[:3]`, the derived columns and the merge into the master; AoiOverlayScript computes it |
| AoiOverlay.AoiOverlayScript | gapbap/overlay.py:85-277 | the whole script computes AoiRun |
| AoiOverlay.RasterStep | gapbap/overlay.py:115-130 | definition, no contract of its own: df2 filled from the cursor, re-indexed by category (KeyError on other codes), and written into the raster's df1 rows; proved about in RasterStepReports |
| AoiOverlay.AoiFold | gapbap/overlay.py:101-139 | definition, no contract of its own: the raster loop as RasterStep after RasterStep, failing when CellStatistics or the cursor raises; proved about in AoiFoldEffect |
| AoiOverlay.RasterStepReports | gapbap/overlay.py:115-130 | a raster step succeeds exactly when every reported code is an AOI code; then the raster's rows get the reported count of every category and other rows are unchanged |
| AoiOverlay.AoiTableFilled | gapbap/overlay.py:115-121 | with only AOI codes, df2 lists the eight codes with their reported counts |
| AoiOverlay.WriteAllEffect | gapbap/overlay.py:128-130 | writing keeps names and other rows, and each category of the raster's rows ends with its last written value |
| AoiOverlay.AoiFoldEffect | gapbap/overlay.py:101-139 | the raster loop succeeds exactly when every raster's codes are AOI codes, keeps names and unprocessed rows, and with distinct names gives each processed row its reported counts |
| MapRichness.CountOfOne | gapanalysis/richness.py:95-98 | definition, no contract of its own: `count` after the cursor loop over one map's table; proved about in CountOfOneLast and CountOfOneFound |
| MapRichness.CountOfOneLast | gapanalysis/richness.py:95-98 | the cursor loop leaves `count` at the last VALUE-1 row's count, or unchanged when there is none |
| MapRichness.CountOfOneFound | gapanalysis/richness.py:95-98 | with a VALUE-1 row, the count does not depend on the stale one |
| MapRichness.SetCnt | gapanalysis/richness.py:99 | `weightsDF.loc[sp, "cnt"] = count` overwrites an existing species and appends a new one |
| MapRichness.CountsFrom | gapanalysis/richness.py:93-99 | definition, no contract of its own: the weight-table loop, failing on an unreadable map or an unbound `count`; proved about in CountsFromSucceeds, CountsFromKeys and CountsFromRows |
| MapRichness.CountsFromSucceeds | gapanalysis/richness.py:93-99 | the weight table is built exactly when every map opens and the first species has a VALUE-1 row (or a count is already bound) |
| MapRichness.CountsFromKeys | gapanalysis/richness.py:93-99 | with distinct species, the table gains one row per species in order |
| MapRichness.CountsFromRows | gapanalysis/richness.py:93-99 | a species with a VALUE-1 row gets its own count; one without gets the previous species' count |
| MapRichness.BuildCounts | gapanalysis/richness.py:93-99 | the nested loops compute the weight counts |
| MapRichness.Weights | gapanalysis/richness.py:100-104 | the weights exist exactly for a non-empty table and a known method; species and counts kept; "area" weight is the count |
| MapRichness.PercentileWeights | gapanalysis/richness.py:101-104 | percentile weights are in (0, 100]; `weighted_value` is 1/weight; equal counts get equal weights and smaller counts smaller weights |
| MapRichness.TiesOfMember | gapanalysis/richness.py:101 | a present count ties at least once and its rank stays within the table |
| MapRichness.BelowGrows | gapanalysis/richness.py:101 | a larger count has every smaller-or-tied count below it |
| MapRichness.WeightsNonNegative | gapanalysis/richness.py:100-103 | a weight is non-negative exactly when the weighting is by percentile or the species' count is non-negative |
| MapRichness.AddR | gapanalysis/richness.py:149 | raster addition is NoData where either side is NoData |
| MapRichness.TallyIsSum | gapanalysis/richness.py:128-149 | each tally cell is the base cell plus the sum of every species' cell over its weight |
| MapRichness.SumFrom | gapanalysis/richness.py:128-166 | definition, no contract of its own: the summing loop with its checkpoints, failing on an unreadable map, a missing weight or a zero interval; proved about in SumFromTally, CheckpointSchedule and CheckpointsComplete |
| MapRichness.SumFromTally | gapanalysis/richness.py:131-166 | with a non-zero interval, the loop's tally is TallyOf; with a zero interval `range` raises and the run exits |
| MapRichness.CheckpointSchedule | gapanalysis/richness.py:136-159 | every checkpoint is written after its species, to `Intermediate_{counter}` on a saving step, with the fixed-point tally so far; file numbers increase |
| MapRichness.CheckpointsComplete | gapanalysis/richness.py:151-158 | in a completed loop, a species step is saved exactly when `counter - 1` is in `range(0, 2000, interval)` |
| MapRichness.TallyNonNegative | gapanalysis/richness.py:128-149 | with non-negative maps, base and weights, the tally stays non-negative |
| MapRichness.FixedWithinHalf | gapanalysis/richness.py:174 | each cell of the final `Int(tally*10000 + 0.5)` is within one half of tally*10000 |
| MapRichness.TableLines | gapanalysis/richness.py:107-111 | with weighting "None" the table gets one line `s, 1,` per species in order |
| MapRichness.SumTally | gapanalysis/richness.py:128-166 | the summing loop computes SumFrom |
| MapRichness.Richness | gapanalysis/richness.py:87-188 | definition, no contract of its own: weights, then the tally and its fixed-point copy, or with weighting "None" the table lines and an exit after the first species; RunMapRichness computes it |
| MapRichness.RunMapRichness | gapanalysis/richness.py:87-188 | the whole function computes Richness |
| BatchRichness.SeasonClauses | gapbap/richness.py:134-139 | year-round habitat is the one class in both seasons, and either season's class counts for "Any" |
| BatchRichness.Copied | gapbap/richness.py:117-118 | CopyRaster with `nodata_value=0` turns 0 cells into NoData and keeps the rest |
| BatchRichness.ReclassedAt | gapbap/richness.py:152 | `Con(sp, 1, where_clause)` is 1 where the clause holds and NoData elsewhere, also outside the raster |
| BatchRichness.Combine | gapbap/richness.py:169 | SUM "DATA" of two cells is NoData exactly when both are |
| BatchRichness.SumDataAt | gapbap/richness.py:169 | every cell of CellStatistics SUM "DATA" over the union extent is the DATA sum of the inputs' cells |
| BatchRichness.CellSumConcat | gapbap/richness.py:169-193 | the DATA sum of two raster lists combines their DATA sums |
| BatchRichness.LocalMembers | gapbap/richness.py:101-123 | a species is in `sppLocal` (lower-cased, copied) exactly when its copy succeeded |
| BatchRichness.LocalConcat | gapbap/richness.py:101-123 | the local list of two parts is the two local lists joined |
| BatchRichness.Reclass | gapbap/richness.py:132-163 | with a known season every copied map is reclassified in order; with an unknown one nothing is |
| BatchRichness.RichnessCounts | gapbap/richness.py:152-169 | per cell, the sum of reclassified maps counts the maps meeting the clause, NoData where none does |
| BatchRichness.BatchesFrom | gapbap/richness.py:88-187 | definition, no contract of its own: the batch loop over `range(0, len(spp), interval)`; proved about in BatchesPartition, BatchesExist and BatchSumsAreDirectSum |
| BatchRichness.Batch | gapbap/richness.py:90-177 | definition, no contract of its own: one batch: its reclassified maps summed with SUM "DATA" into `groupName_x`, nothing when it has none; proved about in BatchNames and BatchCells |
| BatchRichness.BatchesPartition | gapbap/richness.py:88-90 | the batches are non-empty, at most `interval` long, and together are the species list in order |
| BatchRichness.BatchNames | gapbap/richness.py:92 | a batch's intermediate is named `groupName_x` |
| BatchRichness.BatchMapsSplit | gapbap/richness.py:88-163 | the reclassified maps from x on are this batch's followed by the next batches' |
| BatchRichness.BatchCells | gapbap/richness.py:168-175 | a batch adds its DATA sum, or nothing when it has no reclassified map |
| BatchRichness.BatchesExist | gapbap/richness.py:168-177 | some intermediate exists exactly when some map was reclassified |
| BatchRichness.BatchSumsAreDirectSum | gapbap/richness.py:169-193 | summing the batch sums is summing all reclassified maps directly |
| BatchRichness.SpeciesLines | gapbap/richness.py:62-66 | the species table gets one line `s,` per species in order |
| BatchRichness.Calculate | gapbap/richness.py:62-209 | definition, no contract of its own: the species table, the batch sums and their final SUM "DATA", with no result for a zero interval or no batch sum; proved about in FinalRichness, and CalculateRichness computes it |
| BatchRichness.FinalRichness | gapbap/richness.py:88-200 | the final richness exists exactly for a positive interval, a known season and some copied species; each cell counts the species meeting the clause |
| BatchRichness.CopyBatch | gapbap/richness.py:101-123 | the copy loop computes `sppLocal` |
| BatchRichness.ReclassBatch | gapbap/richness.py:141-163 | the reclass loop computes `sppReclassed` |
| BatchRichness.SumBatch | gapbap/richness.py:90-177 | one pass of the batch loop computes the batch's intermediate |
| BatchRichness.RunBatches | gapbap/richness.py:88-187 | the batch loop computes `richInts` |
| BatchRichness.CalculateRichness | gapbap/richness.py:62-209 | the whole function computes Calculate |
| RasterChecks.CheckRow | gapanalysis/data.py:95-112 | definition, no contract of its own: one table row adds the name to BadCount, overMax and Zeros as its COUNT and VALUE demand; proved about in CheckRowsCounts |
| RasterChecks.CheckRowsCounts | gapanalysis/data.py:94-112 | the row loop adds the raster's name once per row with COUNT <= 0, once per VALUE over the maximum and once per VALUE 0, and changes no other list |
| RasterChecks.CheckPropertiesFindings | gapanalysis/data.py:72-85 | the property checks add the path exactly to the lists whose check fails |
| RasterChecks.CheckRaster | gapanalysis/data.py:72-117 | definition, no contract of its own: the property checks and then the table check; proved equal to Findings in CheckRasterFindings |
| RasterChecks.Findings | gapanalysis/data.py:72-117 | definition, no contract of its own: the declarative reference: per list, the raster's path or name once per failing check or row; CheckRasterFindings ties it to CheckRaster |
| RasterChecks.CheckRasterFindings | gapanalysis/data.py:72-117 | checking one raster appends exactly its findings to every list |
| RasterChecks.CheckAll | gapanalysis/data.py:65-117 | definition, no contract of its own: the loop over the rasters, ending the call when a raster cannot be opened; proved about in CheckAllFindings |
| RasterChecks.CheckAllFindings | gapanalysis/data.py:65-123 | the validator returns exactly when every raster opens, and then each list holds the rasters' findings in input order |
| RasterChecks.AllFindingsConcat | gapanalysis/data.py:65-117 | checking a list after another appends its findings after the first's |
| RasterChecks.TableOutcome | gapanalysis/data.py:91-117 | a raster is never in both NoRows and CursorProblem; with finite counts it is in NoRows exactly when its cursor yielded no row |
| RasterChecks.CleanRaster | gapanalysis/data.py:72-114 | a raster passing every check is in no list |
| RasterChecks.DictKeys | gapanalysis/data.py:119-123 | the dictionary has exactly the documented keys, each holding its list |
| RasterChecks.ElevenKeys | gapanalysis/data.py:119-123 | there are eleven keys |
| RasterChecks.CheckRowsLoop | gapanalysis/data.py:91-114 | the cursor loop computes the row checks and `RowsOK` (some finite COUNT) |
| RasterChecks.CheckEach | gapanalysis/data.py:65-117 | the raster loop computes CheckAll |
| RasterChecks.CheckHabitatMaps | gapanalysis/data.py:7-123 | the dictionary exists exactly when every raster opens, and holds the rasters' findings under the `overMax` key set |
| Misc.Remap | gapanalysis/misc.py:16-22 | definition, no contract of its own: `[[code, reclassValue] for code in mapUnitCodes]`; MakeRemapList computes it and RemapCovers and RemapExample are about it |
| Misc.MakeRemapList | gapanalysis/misc.py:16-22 | one `[code, reclassValue]` pair per code, in order |
| Misc.RemapExample | gapanalysis/misc.py:13-14 | the docstring example `[1201, 2543, 5678, 1234], 1` |
| Misc.RemapCovers | gapanalysis/misc.py:16-22 | a pair is in the list exactly when it maps a listed code to the reclass value |
| Misc.CheckRasters | gapanalysis/misc.py:25-135 | with the fixed thresholds (Albers, TIFF, U8, NoData 0, 3), the dictionary exists exactly when every raster opens and holds their findings, the over-3 list under `OverThree` |
| Misc.SameListsOtherKey | gapanalysis/misc.py:132-135 | the two validators' dictionaries differ only in the over-maximum key |

## Left out

- arcpy: the raster algebra, CellStatistics, Con, CopyRaster, Describe, SearchCursor, saving, statistics and attribute-table building, Delete and the `env` settings are not modelled as operations; their results are inputs.
- Logging, `print`, `time.sleep` and the timing columns (Date, RunTime) are left out: they do not affect the tables.
- File I/O: CSV reading and writing, directory creation and the archive file names are left out. The master table is an input, and the saved tables are outputs.
- Floating point: percentages and weights are exact reals, with the infinity of a non-zero count over a zero total kept as its own value. Python 2 true division is assumed for the percentage and weight divisions.
- `raw_input` pauses in CalculateRichness are left out, because they wait on a person.
- CalculateRichness's 8-bit pixel type of the copy is left out. Class values 0..3 fit, so the clause tests are unaffected.
- CalculateRichness: the deletes of the intermediate rasters and `shutil.rmtree` are left out, because they only remove files.
- The try block around the final save in MapRichness is left out. A save failure only logs, and the returned tally is the same.
- MapRichness.Weights: a weight of 0 gives an infinite `weighted_value` in pandas; here `weightedValue` is None then. Percentile weights are never 0.
- The commented-out tile-splitting code of gapbap/overlay.py (lines 141-223) is a string literal and is not modelled. The same holds for the drop of negatives, problems and Hawaiian rasters (lines 242-247).
- The zone raster's own checks (RasterReport in habitat.py) and the zone-value cursor are left out. They only log; the zone values are an input.
- `Expand_0s` in gapanalysis/data.py is all arcpy.
- The landcover modules are not part of this model. Their `MakeRemapList` copy is the same as misc.py's.
- RasterChecks: an exception inside a row's `getValue` is modelled as the cursor failing after the rows already yielded, not part-way through a row's checks.
- RasterChecks: raster statistics and thresholds are reals, the NoData value an integer and VALUE an integer. A COUNT of None stands for NaN, so it satisfies no comparison.
- RasterChecks.CheckHabitatMaps: `arcpy.Raster` or `Describe` raising on a raster ends the call (None). Lists filled before it are not returned, as in Python.
- PyText.Upper, PyText.Lower: only ASCII letters change case. Python 2's `unicode.upper()` and `lower()` also map non-ASCII letters, which raster names from `arcpy.ListRasters` may contain.
