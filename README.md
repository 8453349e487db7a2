# EV charger supply and demand: state cleaning and aggregation

This project models the two table pipelines of an analysis of electric-vehicle
charging stations in India. It proves properties of the model in Dafny.

- `src/charger_type_analysis.py` standardises the state column of three tables
  by lower-casing and stripping it. It then fuzzy-matches each state against a
  fixed list of 31 official state names (`clean_state_name`, using rapidfuzz's
  `fuzz.ratio` and `process.extractOne`, threshold 80). Next it:
  - keeps the charging rows with a numeric charger type;
  - counts stations per (clean state, type);
  - sums EV sales per clean state;
  - left-merges the counts with the sales and fills missing sales with 0;
  - adds a guarded charger-to-demand ratio, the one-decimal type string and a
    label from an 18-entry charger-type map (default `"Unknown"`);
  - keeps the population rows whose population converts to a number.
- `src/data_exploration.py` is the same pipeline without fuzzy matching. It
  counts stations and sums sales per lower-cased, stripped state, inner-merges
  the two, left-merges the result with the population, and divides both by the
  population without any guard.

Modules, one per file:

| file | module | contents |
|---|---|---|
| wrappers.dfy | Wrappers | `Option` |
| text.dfy | Text | ASCII `str.lower`, `str.strip`, Python's `<` on `str` |
| fuzzy.dfy | Fuzzy | `fuzz.ratio` (Indel similarity), `process.extractOne` |
| frames.dfy | Frames | the pandas operations used: `notna` masks, `to_numeric(errors='coerce')`, `groupby(...).size()`, `groupby(...)[c].sum()` (both with their default key sort), left and inner `merge` |
| state_names.dfy | StateNames | `official_states`, `clean_state_name`, the state column steps |
| charger_types.dfy | ChargerTypes | `f"{x:.1f}"` on type codes, `charger_type_map` and its `"Unknown"` default |
| charger_type_analysis.dfy | ChargerTypeAnalysis | the charger_type_analysis.py script |
| data_exploration.dfy | DataExploration | the data_exploration.py script |

Representation choices:

- A table is a sequence of rows. NaN or `None` cells are `None`.
- Group and merge results are sequences of rows, in pandas' row order.
- A charger type is an integer number of tenths, so `7.0` is `70`.
- Quantities are exact reals. Similarity scores are exact rationals.
- Float division with a zero or missing divisor is the `Quotient` datatype:
  `Finite`, `PosInf`, `NegInf` or `NaN`.
- Column assignments that run over the rows are modelled as methods with
  loops: `StandardizeStates`, `ApplyCleanStateName`, `DeriveColumns` and
  `AddPerCapitaColumns`. The two scripts are the straight-line methods
  `AnalyzeChargerTypes` and `ExploreData`, which call those loop methods in
  the scripts' order. Each method is proved equal to the function that
  specifies it.

**Where the model follows the code rather than its description.** A natural
reading of the charger example lists the Maharashtra row before the Delhi row.
Both `groupby` calls use pandas' default `sort=True`, so the code emits groups
in increasing key order. `ChargerTypeAnalysis.MaharashtraDelhiExample`
therefore proves the Delhi row comes first.

## Model

| member | source | states |
|---|---|---|
| Text.Lower | src/charger_type_analysis.py:10-12 | `str.lower()`: same length, no upper-case letter left, A–Z shifted to a–z, every other character kept |
| Text.Strip | src/charger_type_analysis.py:10-12 | `str.strip()`: the result neither starts nor ends with whitespace |
| Text.LowerStrip | src/charger_type_analysis.py:10-12 | `.str.lower().str.strip()` on one cell: a missing cell stays missing, a present one comes out with no upper-case letter and no surrounding whitespace; `Text.LowerStripIdempotent` and `Text.StripCutsWhitespace` relate it to the input |
| Text.StripIsSlice | src/charger_type_analysis.py:10-12 | what strip keeps is a contiguous slice of the input, starting right after its leading whitespace |
| Text.StripCutsWhitespace | src/charger_type_analysis.py:10-12 | what strip cuts off before and after the kept slice is whitespace only |
| Text.LowerStripIdempotent | src/charger_type_analysis.py:10-12 | lower/strip applied twice equals lower/strip applied once; a missing cell stays missing |
| Text.LowerStripCapitalized | src/charger_type_analysis.py:10-12 | a capitalised word, with or without a trailing blank, standardises to the word with its first letter lower-cased |
| Text.StringLess | src/charger_type_analysis.py:48 | definition of Python's `<` on `str`, which the `groupby` key sort uses: the first differing character decides, by code point, and a proper prefix comes first; its properties are `Text.StringLessIrreflexive`, `Text.StringLessTransitive`, `Text.StringLessTotal` and `Text.StringLessAt` |
| Text.StringLessTransitive | src/charger_type_analysis.py:48 | Python's string order, which groupby sorts state keys by, is transitive |
| Text.StringLessTotal | src/charger_type_analysis.py:48 | of two different strings, one is less than the other |
| Text.StringLessIrreflexive | src/charger_type_analysis.py:48 | no string is less than itself |
| Text.StringLessAt | src/charger_type_analysis.py:48 | two strings with a common prefix are ordered by their first differing character |
| Fuzzy.Lcs | src/charger_type_analysis.py:28 | the length of a longest common subsequence: no longer than either string, attained by a common subsequence (`Fuzzy.LcsAttained`), and at least as long as every common subsequence (`Fuzzy.LcsCommonBound`) |
| Fuzzy.Ratio | src/charger_type_analysis.py:25 | `fuzz.ratio` lies between 0 and 100 |
| Fuzzy.LcsAttained | src/charger_type_analysis.py:28 | some string that is a subsequence of both inputs has exactly `Lcs` characters |
| Fuzzy.LcsSymmetric | src/charger_type_analysis.py:28 | the common-subsequence length does not depend on argument order |
| Fuzzy.RatioSymmetric | src/charger_type_analysis.py:28 | the ratio does not depend on argument order |
| Fuzzy.RatioSelf | src/charger_type_analysis.py:28 | a string scores 100 against itself |
| Fuzzy.RatioHundred | src/charger_type_analysis.py:28 | a score of 100 happens only for identical strings |
| Fuzzy.SubsequenceLcs | src/charger_type_analysis.py:28 | a subsequence of the other string is a common subsequence of full length |
| Fuzzy.DeletionIsSubsequence | src/charger_type_analysis.py:28 | deleting one character gives a subsequence |
| Fuzzy.RatioAfterDeletion | src/charger_type_analysis.py:28-29 | a string of three or more characters with one character deleted still scores at least 80 against the original |
| Fuzzy.LcsCommonBound | src/charger_type_analysis.py:28 | every string that is a subsequence of both inputs is no longer than their longest common subsequence |
| Fuzzy.RatioAfterInsertion | src/charger_type_analysis.py:28-29 | a string of two or more characters with one character inserted still scores at least 80 against the original |
| Fuzzy.RatioAfterSubstitution | src/charger_type_analysis.py:28-29 | a string of five or more characters with one character replaced still scores at least 80 against the original |
| Fuzzy.ScanFrom | src/charger_type_analysis.py:28 | the extractOne scan returns the best-scoring choice, and the first one in list order among equal scores, including when it stops early at 100 |
| Fuzzy.ScanStep | src/charger_type_analysis.py:28 | one more choice keeps the best-so-far match: it replaces the match only with a strictly higher score |
| Fuzzy.PerfectIsBest | src/charger_type_analysis.py:28 | a match scoring 100 stays the best whatever choices follow, so stopping there is sound |
| Fuzzy.ExtractOne | src/charger_type_analysis.py:28 | no result exactly when there are no choices; otherwise the first choice with the highest score |
| StateNames.OfficialStates | src/charger_type_analysis.py:15-22 | definition of `official_states`: the 31 names in the script's order; its properties are `StateNames.OfficialNamesLength` and `StateNames.CanonicalNameFixed` |
| StateNames.Threshold | src/charger_type_analysis.py:25 | definition of the default `threshold=80`; it is the bound in `StateNames.CleanStateName`'s contract |
| StateNames.CleanStateName | src/charger_type_analysis.py:25-32 | a missing name gives `None` without any comparison; if some official name scores at least 80, the result is the first best-scoring official name; otherwise the name is returned unchanged |
| StateNames.CanonicalNameFixed | src/charger_type_analysis.py:15-22 | an official name is cleaned to itself |
| StateNames.CleanStateNameIdempotent | src/charger_type_analysis.py:25-32 | cleaning a cleaned name changes nothing |
| StateNames.CleanStateNameOfficialOrSame | src/charger_type_analysis.py:28-32 | a clean name is the input itself or an official name |
| StateNames.StandardizedOfficialName | src/charger_type_analysis.py:10-37 | a raw state equal to an official name up to case and surrounding whitespace cleans to exactly that name |
| StateNames.OneDeletionStaysOfficial | src/charger_type_analysis.py:15-32 | an official name with one character deleted is still cleaned to an official name, one scoring at least as well as the original name, which scores at least 80 |
| StateNames.OneInsertionStaysOfficial | src/charger_type_analysis.py:15-32 | an official name with one character inserted is still cleaned to an official name, one scoring at least as well as the original name, which scores at least 80 |
| StateNames.OneSubstitutionStaysOfficial | src/charger_type_analysis.py:15-32 | an official name of five or more characters with one character replaced is still cleaned to an official name, one scoring at least as well as the original name, which scores at least 80 |
| StateNames.NearOfficialName | src/charger_type_analysis.py:25-32 | a name scoring at least 80 against some official name is cleaned to an official name scoring at least as well |
| StateNames.OfficialNamesLength | src/charger_type_analysis.py:15-22 | every official name has at least three characters |
| StateNames.StateOrder | src/charger_type_analysis.py:51 | the order groupby sorts state keys by is a strict total order |
| StateNames.StandardizedIdempotent | src/charger_type_analysis.py:10-12 | standardising a standardised table changes nothing |
| StateNames.Standardized | src/charger_type_analysis.py:10-12 | definition of the overwritten state column, one lower/stripped cell per row; its properties are stated by `StateNames.StandardizedIdempotent`, `StateNames.StandardizedOfficialName` and `DataExploration.StandardizedStates` |
| StateNames.StandardizeStates | src/charger_type_analysis.py:10-12 | the column overwrite, row by row, gives each row its lower-cased, stripped state |
| StateNames.CleanStatesColumn | src/charger_type_analysis.py:35-37 | the `state_clean` column: every row keeps its other columns; its clean state is missing exactly when its state is; otherwise it is an official name or the state itself |
| StateNames.CleanStates | src/charger_type_analysis.py:35-37 | definition of the `state_clean` column; its contract is `StateNames.CleanStatesColumn` |
| StateNames.ApplyCleanStateName | src/charger_type_analysis.py:35-37 | the row-by-row `apply` gives every row its clean state |
| Frames.Filter | src/charger_type_analysis.py:41 | a boolean mask keeps exactly the rows satisfying it, each as often as in the input |
| Frames.FilterAppend | src/charger_type_analysis.py:41 | a mask keeps the input order: masking two tables laid end to end masks each in place |
| Frames.FilterSingle | src/charger_type_analysis.py:41 | a one-row table is kept exactly when its row satisfies the mask; with `Frames.FilterAppend` this fixes the masked table |
| Frames.ToNumeric | src/charger_type_analysis.py:44 | definition of `pd.to_numeric(errors='coerce')` on one cell; what it keeps is stated by `ChargerTypeAnalysis.TypedStationsKeepsParsed` and `ChargerTypeAnalysis.CleanedPopulationRows` |
| Frames.FilterAll | src/charger_type_analysis.py:41 | a mask every row satisfies keeps the whole table |
| Frames.FilterPermutation | src/charger_type_analysis.py:41-45 | masking reordered rows gives the masked rows reordered |
| Frames.MapFilterCount | src/charger_type_analysis.py:41-45 | after a mask and a conversion, a converted row appears as often as in the unmasked conversion |
| Frames.MapSeqPermutation | src/charger_type_analysis.py:44 | converting reordered rows gives the converted rows reordered |
| Frames.Lookup | src/charger_type_analysis.py:54 | lookup returns a value exactly when the key is present in the table |
| Frames.GroupSize | src/charger_type_analysis.py:48 | unsorted groups: one row per distinct present key, holding the number of rows with that key |
| Frames.GroupSizePositive | src/charger_type_analysis.py:48 | every group holds at least one row |
| Frames.GroupSizeOrderIndependent | src/charger_type_analysis.py:48 | reordered input rows give the same (key, size) rows |
| Frames.GroupSum | src/charger_type_analysis.py:51 | unsorted sums: one row per distinct present key, holding the sum of that key's present values |
| Frames.SumForAbsent | src/charger_type_analysis.py:51 | a key no row carries sums to 0 |
| Frames.SumForAppend | src/charger_type_analysis.py:51 | the sum over two tables laid end to end is the sum of their sums |
| Frames.SumForRemove | src/charger_type_analysis.py:51 | a key's sum is the sum without one row plus that row's contribution |
| Frames.SumForPermutation | src/charger_type_analysis.py:51 | a key's sum does not depend on the order of the rows |
| Frames.RowKeysPermutation | src/charger_type_analysis.py:51 | the present keys do not depend on the order of the rows |
| Frames.GroupSumOrderIndependent | src/charger_type_analysis.py:51 | reordered input rows give the same (key, sum) rows |
| Frames.SortByKey | src/charger_type_analysis.py:48 | sorting by key is a permutation of the rows |
| Frames.SortByKeySorted | src/charger_type_analysis.py:48 | under a strict total order, a table with unique keys sorts into strictly increasing keys |
| Frames.SortedUnique | src/charger_type_analysis.py:48 | two sorted tables with the same rows are equal |
| Frames.SortedGroupSize | src/charger_type_analysis.py:48 | `groupby(...).size()`: the present keys, each with the number of rows carrying it, at least 1 |
| Frames.SortedGroupSizeSorted | src/charger_type_analysis.py:48 | the groups come in strictly increasing key order, one per key |
| Frames.SortedGroupSizeOrderIndependent | src/charger_type_analysis.py:48 | reordering the input rows gives exactly the same table |
| Frames.SortedGroupSum | src/charger_type_analysis.py:51 | `groupby(...)[c].sum()`: the present keys, each with the sum of its present values |
| Frames.SortedGroupSumSorted | src/charger_type_analysis.py:51 | the sums come in strictly increasing key order, one per key |
| Frames.SortedGroupSumOrderIndependent | src/charger_type_analysis.py:51 | reordering the input rows gives exactly the same table |
| Frames.LeftMerge | src/charger_type_analysis.py:54 | a left merge has at least as many rows as its left table |
| Frames.LeftMergeUnique | src/charger_type_analysis.py:54 | against unique right keys, each left row appears once, in order, with the matching right value or none |
| Frames.MatchesOfUnique | src/charger_type_analysis.py:54 | against unique right keys, a key matches at most one right row |
| Frames.MatchesOfAtMostOnce | src/data_exploration.py:23 | a key that at most one right row carries matches exactly that row, or none when no row carries it |
| Frames.LeftMergeAtMostOnce | src/data_exploration.py:23 | when each left row's key is carried by at most one right row, each left row appears once, in order, with the matching right value or none |
| Frames.PresentAtMostOnce | src/data_exploration.py:23 | in a table whose present keys are unique, each present key is carried by at most one row, however many rows have a missing key |
| Frames.InnerMergeUnique | src/data_exploration.py:20 | with unique keys on both sides, the inner merge holds each key present in both sides once, with its left row and right value |
| Frames.InnerMergeDistinct | src/data_exploration.py:20 | with unique keys on both sides, no key appears twice in the inner merge |
| Frames.InnerMergeValue | src/data_exploration.py:20 | each inner-merge row carries the right value of its key |
| Frames.InnerMergeComplete | src/data_exploration.py:20 | every left row whose key the right table has appears in the inner merge |
| Frames.InnerMergeSorted | src/data_exploration.py:20 | the inner merge keeps the order of the left table |
| Frames.InnerMerge | src/data_exploration.py:20 | definition of `pd.merge(how='inner')`; its contract is `Frames.InnerMergeUnique`, with `Frames.InnerMergeSorted` for order |
| ChargerTypes.NatToDecimal | src/charger_type_analysis.py:88 | decimal digits of a natural number: at least one, all digits, no leading zero |
| ChargerTypes.DecimalRoundTrip | src/charger_type_analysis.py:88 | reading back the decimal digits gives the number |
| ChargerTypes.FormatOneDecimal | src/charger_type_analysis.py:88 | `f"{x:.1f}"`: at least three characters, a point before the last one, the last one the tenths digit, a leading minus sign exactly for a negative code, and an integer part without a leading zero; `ChargerTypes.FormatRoundTrip` is its inverse |
| ChargerTypes.FormatRoundTrip | src/charger_type_analysis.py:88 | `f"{x:.1f}"` can be parsed back to the code, so different codes have different strings |
| ChargerTypes.ChargerTypeMap | src/charger_type_analysis.py:66-85 | definition of `charger_type_map`, 18 entries; its properties are `ChargerTypes.MapKeysAreKnownCodes`, `ChargerTypes.NoUnknownLabel` and `ChargerTypes.ChargerTypeNameOfCode` |
| ChargerTypes.FormattedKnownCodes | src/charger_type_analysis.py:66-88 | the 18 known codes format to exactly the 18 map keys, from "6.0" to "24.0" |
| ChargerTypes.MapKeysAreKnownCodes | src/charger_type_analysis.py:66-85 | the map's keys are exactly the formatted known codes |
| ChargerTypes.KnownCodeIsKey | src/charger_type_analysis.py:66-88 | every known code, formatted with one decimal, is a key of the map |
| ChargerTypes.KeyIsKnownCode | src/charger_type_analysis.py:66-85 | every map key is the formatted string of one of the 18 known codes |
| ChargerTypes.NoUnknownLabel | src/charger_type_analysis.py:66-89 | no label in the map is "Unknown", so the default is recognisable |
| ChargerTypes.ChargerTypeName | src/charger_type_analysis.py:89 | `.map(charger_type_map).fillna('Unknown')`: the label is "Unknown" exactly when the type string is not a key of the map |
| ChargerTypes.ChargerTypeNameOfCode | src/charger_type_analysis.py:66-89 | a code gets a label other than "Unknown" exactly when it is one of the 18 known codes, and then gets the map's label |
| ChargerTypes.ChargerTypeNameExamples | src/charger_type_analysis.py:66-89 | 6 is labelled "Level 1 AC (Slow Charger)" and 99 is "Unknown" |
| ChargerTypeAnalysis.TypedStations | src/charger_type_analysis.py:41-45 | after the two masks every kept row has a numeric type, and no row is added |
| ChargerTypeAnalysis.TypedStationsKeepsParsed | src/charger_type_analysis.py:41-45 | every row whose type converts is kept, as often as it occurs |
| ChargerTypeAnalysis.TypedStationsAllNumbers | src/charger_type_analysis.py:41-45 | a table whose types are all numbers keeps every row |
| ChargerTypeAnalysis.GroupKey | src/charger_type_analysis.py:48 | a row has a (clean state, type) key exactly when both columns are present |
| ChargerTypeAnalysis.ChargerKeyLess | src/charger_type_analysis.py:48 | definition of the two-key sort order: by clean state in string order, then by type; its property is `ChargerTypeAnalysis.ChargerKeyOrder` |
| ChargerTypeAnalysis.ChargerKeyOrder | src/charger_type_analysis.py:48 | the (state, type) key order groupby sorts by is a strict total order |
| ChargerTypeAnalysis.ChargerTypeCounts | src/charger_type_analysis.py:48 | definition of `charger_type_counts`; its contract is `ChargerTypeAnalysis.ChargerTypeCountsSpec` |
| ChargerTypeAnalysis.ChargerTypeCountsSpec | src/charger_type_analysis.py:48 | `charger_type_counts`: one row per distinct key of the kept rows, in increasing key order, counting the kept rows with that key, at least 1 |
| ChargerTypeAnalysis.ChargerTypeCountsOrderIndependent | src/charger_type_analysis.py:10-48 | reordering the raw charging rows gives the same `charger_type_counts` |
| ChargerTypeAnalysis.SalesPerState | src/charger_type_analysis.py:51 | `sales_per_state`: one row per present clean state, in increasing order, with the total of its sales; NaN counts as nothing |
| ChargerTypeAnalysis.SalesPerStateOrderIndependent | src/charger_type_analysis.py:10-51 | reordering the raw EV sales rows gives the same `sales_per_state` |
| ChargerTypeAnalysis.FillSales | src/charger_type_analysis.py:57 | `fillna(0)`: a missing value becomes 0, a present one is kept |
| ChargerTypeAnalysis.ChargerToDemandRatio | src/charger_type_analysis.py:60-63 | a ratio exists exactly when sales are positive, so there is never a zero divisor; ratio times sales is the count |
| ChargerTypeAnalysis.Derive | src/charger_type_analysis.py:57-89 | each output row keeps key and count; its sales are the `fillna(0)` of the merged sales; its ratio exists exactly when sales are positive and times sales is the count; its type string is the one-decimal format of its type and parses back to it; its label is "Unknown" exactly for unknown codes, otherwise the map's label |
| ChargerTypeAnalysis.DeriveColumns | src/charger_type_analysis.py:57-89 | the column assignments, row by row, give every merged row its derived columns |
| ChargerTypeAnalysis.SupplyDemandOverall | src/charger_type_analysis.py:54-89 | definition of `supply_demand_overall`; its contracts are the `SupplyDemand…` lemmas below |
| ChargerTypeAnalysis.SupplyDemandFromCounts | src/charger_type_analysis.py:54-57 | every `charger_type_counts` row appears exactly once, in order, with key and count unchanged, and with sales equal to its clean state's sales total (0 when the state has no sales rows) |
| ChargerTypeAnalysis.SupplyDemandSorted | src/charger_type_analysis.py:48-54 | output rows come in strictly increasing (state, type) order, so no two share a key |
| ChargerTypeAnalysis.SupplyDemandCounts | src/charger_type_analysis.py:41-57 | the output keys are exactly the keys of the kept charging rows, and each count is the number of kept rows with that key, at least 1 |
| ChargerTypeAnalysis.SupplyDemandOrderIndependent | src/charger_type_analysis.py:10-89 | reordering the rows of the charging table or of the EV sales table gives the same `supply_demand_overall` |
| ChargerTypeAnalysis.MaharashtraDelhiExample | src/charger_type_analysis.py:10-89 | "Maharashtra " and "maharashtra" type 7, "Delhi" type 10, and sales "Maharashtra" 100 give (delhi, 10.0): 1, 0, no ratio, "Level 3 DC (Rapid Charger)"; then (maharashtra, 7.0): 2, 100, 1/50, "Level 2 AC (Fast Charger)" |
| ChargerTypeAnalysis.CleanedPopulation | src/charger_type_analysis.py:92-94 | every kept population row has a numeric population; each converted row with a population is kept as often as it occurs, and no other row is kept |
| ChargerTypeAnalysis.CleanedPopulationAppend | src/charger_type_analysis.py:92-94 | the cleaned table keeps the input order: cleaning two tables laid end to end cleans each in place |
| ChargerTypeAnalysis.CleanedPopulationSingle | src/charger_type_analysis.py:92-94 | a single row is kept, with its clean state and converted population, exactly when its population converts |
| ChargerTypeAnalysis.CleanedPopulationRows | src/charger_type_analysis.py:92-94 | a (clean state, population) row is kept exactly when some input row has that clean state and a population converting to that number |
| ChargerTypeAnalysis.AnalyzeChargerTypes | src/charger_type_analysis.py:10-94 | the script computes `supply_demand_overall` and the cleaned population table |
| DataExploration.StandardizedStates | src/data_exploration.py:9-11 | the state column after the overwrite is the lower-cased, stripped raw state of each row |
| DataExploration.StationsPerState | src/data_exploration.py:14 | one row per present state, in increasing order, counting the rows with that state, at least 1 |
| DataExploration.SalesPerState | src/data_exploration.py:17 | one row per present state, in increasing order, with the total of its sales; NaN counts as nothing |
| DataExploration.SalesPerStateOrderIndependent | src/data_exploration.py:17 | reordering the sales rows gives the same `sales_per_state` |
| DataExploration.StationsCountOfRawRows | src/data_exploration.py:9-14 | a state's count is the number of raw rows whose lower-cased, stripped state is that state |
| DataExploration.GroupingExample | src/data_exploration.py:9-14 | "Maharashtra " and "maharashtra" share one group of 2, while "maharastra" keeps its own group of 1 |
| DataExploration.StateMerged | src/data_exploration.py:20 | definition of `state_merged`; its contract is `DataExploration.StateMergedSpec` |
| DataExploration.StateMergedSpec | src/data_exploration.py:20 | `state_merged` holds exactly the states present in both aggregates, each once, with both values unchanged |
| DataExploration.StateMergedStates | src/data_exploration.py:20 | the states of `state_merged` are exactly those present in both aggregates |
| DataExploration.WithPopulation | src/data_exploration.py:23 | definition of the population merge; its contract is `DataExploration.WithPopulationSpec` |
| DataExploration.WithPopulationSpec | src/data_exploration.py:23 | when no two population rows name the same state (rows with a missing state may repeat), every `state_merged` row is kept once, in order, with its state's population row or none |
| DataExploration.TrueDivide | src/data_exploration.py:26-27 | float division: a number exactly for a present nonzero divisor, and then times the divisor gives the dividend; NaN for a missing divisor; ±inf or NaN for a zero divisor, by the dividend's sign |
| DataExploration.PopulationValue | src/data_exploration.py:23-27 | the population is present exactly when a population row matched and its value is not NaN |
| DataExploration.PerCapita | src/data_exploration.py:26-27 | both per-capita values are numbers exactly when the population is present and nonzero; times the population they give the count and the sales |
| DataExploration.AddPerCapitaColumns | src/data_exploration.py:26-27 | the two column assignments, row by row, give every joined row its per-capita values |
| DataExploration.ExploreData | src/data_exploration.py:9-27 | the script computes `final_df` |
| DataExploration.FinalRowsOfAggregates | src/data_exploration.py:20-27 | when both aggregates have unique keys and no two population rows name the same state, the per-capita table has one row per state in both aggregates, with that state's count, sales and population |
| DataExploration.FinalFrame | src/data_exploration.py:9-27 | definition of `final_df`; its contracts are `DataExploration.FinalFrameRows` and `DataExploration.FinalFrameSorted` |
| DataExploration.FinalFrameRows | src/data_exploration.py:9-27 | when no two population rows name the same state, `final_df` has one row per state that has both a charging row and a sales row; the count is that state's number of charging rows, the sales its sales total, the population its population row's |
| DataExploration.FinalFrameSorted | src/data_exploration.py:14-27 | when no two population rows name the same state, `final_df` lists its states in strictly increasing order |

## Left out

- Reading and writing CSV files and the `print` calls (src/charger_type_analysis.py:5-7, :97-104; src/data_exploration.py:4-6) are left out: they are file and console I/O. The tables are parameters and results.
- src/visualization.py and src/charger_type_visualization.py are not part of this model. They only draw charts.
- `pd.to_numeric(errors='coerce')` on a text cell is the parameter `parse`, not a numeric-literal parser. A cell that already holds a number converts to itself, and a missing cell stays missing.
- `str.lower` and `str.strip` are modelled on ASCII only. Other Unicode case mappings and whitespace are not modelled.
- `StateNames.OneDeletionStaysOfficial`, `StateNames.OneInsertionStaysOfficial` and `StateNames.OneSubstitutionStaysOfficial` promise an official name that scores at least as well as the name `c` that was edited, not `c` itself. `clean_state_name` returns the first best-scoring official name (`StateNames.CleanStateName`), and another official name can outscore `c` against the edited string. The substitution lemma needs five or more characters: one changed letter in a three- or four-letter name such as "goa" scores below 80.
- Floating point is not modelled. Sums, ratios and per-capita values are exact reals, and scores are exact rationals. Rounding, overflow and negative zero are not captured.
- `ChargerTypes.FormatOneDecimal`: codes are whole tenths. Float codes with more digits, which `.1f` would round, are not modelled.
- `ChargerTypeAnalysis.Derive`: the `None` branch of `type_str` (src/charger_type_analysis.py:88) is not modelled. It is dead code: the type filter at :45 leaves every row with a numeric type, and each count row's type comes from those rows.
- `Fuzzy.ExtractOne`: the model follows rapidfuzz 3 or later, where `process.extractOne` applies no processor unless one is passed. The scripts pass none. Under rapidfuzz 2.x the default processor `utils.default_process` would apply: it turns every non-alphanumeric character into a space, lower-cases, and trims. The official names contain only letters and spaces, so only queries with punctuation (such as "jammu & kashmir") would score differently. That preprocessing and `score_cutoff`, which the scripts also leave unset, are not modelled.
- `Fuzzy.Ratio`: rapidfuzz returns a float. The model computes the exact rational, so a score that rounds across 80 in floating point is not modelled.
- `ChargerTypeAnalysis.DeriveColumns` and `DataExploration.AddPerCapitaColumns`: several column assignments over the whole table (src/charger_type_analysis.py:57-89; src/data_exploration.py:26-27) are merged into one loop over the rows. The resulting table is the same; the intermediate tables with only some columns are not modelled.
- Column overwrites on a DataFrame are modelled as new sequences that the script methods reassign. Aliasing between DataFrames is not modelled, and the scripts have none.
- `DataExploration.FinalFrameRows`, `DataExploration.FinalFrameSorted` and `DataExploration.FinalRowsOfAggregates` require that no two (standardised) population rows name the same state. Rows whose state is missing may repeat, since they never match. When two rows name the same state, the left merge repeats the matching `state_merged` row. `WithPopulation` models that repetition, but these three lemmas do not describe it.
- `DataExploration.PopulationRow`, `DataExploration.SalesRow` and `ChargerTypeAnalysis.SalesRow` hold a number or nothing in `total_population` and `EV_Sales_Quantity`. The scripts never coerce these columns. A text cell there is summed as text by the groupby (src/charger_type_analysis.py:51; src/data_exploration.py:17), or raises a TypeError at the `> 0` test (src/charger_type_analysis.py:60-63) or at the division (src/data_exploration.py:26-27). Neither outcome is modelled: these columns are taken to be numeric.
- `Frames.SortedGroupSize` and `Frames.SortedGroupSum`: sorting is stated for a strict total order on the keys, which Python's string order and the (state, type) order are (`StateNames.StateOrder`, `ChargerTypeAnalysis.ChargerKeyOrder`). Keys that pandas cannot compare are not modelled.
- The `reset_index` calls are modelled by the row datatypes' named fields. The index column itself is not modelled.
