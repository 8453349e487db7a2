/** charger_type_analysis.py after loading: the charger table is reduced to
    rows with a numeric type, counted per (clean state, type), joined with
    the EV sales per clean state, and given a charger-to-demand ratio and
    a charger-type label; the population table keeps its rows with a
    numeric population. */
module ChargerTypeAnalysis {
  import opened Wrappers
  import opened Text
  import opened Frames
  import opened StateNames
  import opened ChargerTypes

  /** A row of the charging-station table: its state and its `type` cell,
      a charger code held in tenths. */
  type ChargingRow = Record<Cell<int>>

  /** A row of the EV sales table: its state and EV_Sales_Quantity. */
  type SalesRow = Record<Option<real>>

  /** A row of the population table: its state and total_population. */
  type PopulationRow = Record<Cell<real>>

  // ---------------------------------------------------------------------
  // Type filtering

  /** `charging_df['type'].notna()`. */
  predicate HasType(r: Cleaned<Cell<int>>) {
    !r.val.Missing?
  }

  /** `pd.to_numeric(charging_df['type'], errors='coerce')` on one row. */
  function NumericTypeOf(parse: string -> Option<int>): Cleaned<Cell<int>> -> Cleaned<Option<int>> {
    (r: Cleaned<Cell<int>>) => Cleaned(r.state, r.stateClean, ToNumeric(r.val, parse))
  }

  /** The `notna()` mask after the conversion. */
  predicate HasNumericType(r: Cleaned<Option<int>>) {
    r.val.Some?
  }

  /** The charging table after the first mask, the conversion and the
      second mask: every row left has a numeric type. */
  function TypedStations(rows: seq<Cleaned<Cell<int>>>, parse: string -> Option<int>): (r: seq<Cleaned<Option<int>>>)
    ensures |r| <= |rows|
    ensures forall i | 0 <= i < |r| :: r[i].val.Some?
  {
    var present := Filter(rows, HasType);
    Filter(MapSeq(present, NumericTypeOf(parse)), HasNumericType)
  }

  /** The two masks lose no row whose type converts: each converted row
      appears exactly as often as in the whole converted table. */
  lemma TypedStationsKeepsParsed(rows: seq<Cleaned<Cell<int>>>, parse: string -> Option<int>)
    ensures forall x: Cleaned<Option<int>> | x.val.Some? :: multiset(TypedStations(rows, parse))[x] == multiset(MapSeq(rows, NumericTypeOf(parse)))[x]
  {
    forall x: Cleaned<Option<int>> | x.val.Some?
      ensures multiset(TypedStations(rows, parse))[x] == multiset(MapSeq(rows, NumericTypeOf(parse)))[x]
    {
      MapFilterCount(rows, HasType, NumericTypeOf(parse), x);
    }
  }

  /** A table whose type cells all hold numbers keeps every row. */
  lemma TypedStationsAllNumbers(rows: seq<Cleaned<Cell<int>>>, parse: string -> Option<int>)
    requires forall i | 0 <= i < |rows| :: rows[i].val.Number?
    ensures TypedStations(rows, parse) == MapSeq(rows, NumericTypeOf(parse))
  {
    FilterAll(rows, HasType);
    FilterAll(MapSeq(rows, NumericTypeOf(parse)), HasNumericType);
  }

  // ---------------------------------------------------------------------
  // groupby(['state_clean', 'type']).size()

  /** A (state_clean, type) group key. */
  datatype ChargerKey = ChargerKey(state: string, chargerType: int)

  /** The group key of a row; none when either column is missing. */
  function GroupKey(r: Cleaned<Option<int>>): (k: Option<ChargerKey>)
    ensures k.Some? <==> r.stateClean.Some? && r.val.Some?
    ensures k.Some? ==> k.value.state == r.stateClean.value && k.value.chargerType == r.val.value
  {
    if r.stateClean.Some? && r.val.Some? then Some(ChargerKey(r.stateClean.value, r.val.value)) else None
  }

  /** The order groupby sorts the keys in: by clean state as Python
      compares strings, then by type code. */
  predicate ChargerKeyLess(a: ChargerKey, b: ChargerKey) {
    StringLess(a.state, b.state) || (a.state == b.state && a.chargerType < b.chargerType)
  }

  /** The key order is a strict total order. */
  lemma ChargerKeyOrder()
    ensures StrictTotalOrder(ChargerKeyLess)
  {
    forall a: ChargerKey ensures !ChargerKeyLess(a, a) {
      StringLessIrreflexive(a.state);
    }
    forall a: ChargerKey, b: ChargerKey, c: ChargerKey | ChargerKeyLess(a, b) && ChargerKeyLess(b, c)
      ensures ChargerKeyLess(a, c)
    {
      if StringLess(a.state, b.state) && StringLess(b.state, c.state) {
        StringLessTransitive(a.state, b.state, c.state);
      }
    }
    forall a: ChargerKey, b: ChargerKey | a != b ensures ChargerKeyLess(a, b) || ChargerKeyLess(b, a) {
      if a.state != b.state {
        StringLessTotal(a.state, b.state);
      }
    }
  }

  /** charger_type_counts. */
  function ChargerTypeCounts(kept: seq<Cleaned<Option<int>>>): seq<Keyed<ChargerKey, nat>> {
    SortedGroupSize(MapSeq(kept, GroupKey), ChargerKeyLess)
  }

  /** One row per distinct (clean state, type) of the kept rows, in
      increasing key order, holding the number of kept rows with that key,
      which is at least one. */
  lemma ChargerTypeCountsSpec(kept: seq<Cleaned<Option<int>>>)
    ensures SortedBy(ChargerTypeCounts(kept), ChargerKeyLess) && UniqueKeys(ChargerTypeCounts(kept))
    ensures KeySet(ChargerTypeCounts(kept)) == PresentKeys(MapSeq(kept, GroupKey))
    ensures forall i | 0 <= i < |ChargerTypeCounts(kept)| ::
      1 <= ChargerTypeCounts(kept)[i].val == multiset(MapSeq(kept, GroupKey))[Some(ChargerTypeCounts(kept)[i].key)]
  {
    ChargerKeyOrder();
    SortedGroupSizeSorted(MapSeq(kept, GroupKey), ChargerKeyLess);
  }

  /** The kept charging rows of the raw table. */
  function KeptStations(charging: seq<ChargingRow>, parse: string -> Option<int>): seq<Cleaned<Option<int>>> {
    TypedStations(CleanStates(Standardized(charging)), parse)
  }

  /** The counts do not depend on the order of the raw charging rows. */
  lemma ChargerTypeCountsOrderIndependent(charging1: seq<ChargingRow>, charging2: seq<ChargingRow>, parse: string -> Option<int>)
    requires multiset(charging1) == multiset(charging2)
    ensures ChargerTypeCounts(KeptStations(charging1, parse)) == ChargerTypeCounts(KeptStations(charging2, parse))
  {
    MapSeqPermutation(charging1, charging2, StandardizeRow);
    var std1, std2 := Standardized(charging1), Standardized(charging2);
    MapSeqPermutation(std1, std2, WithCleanState);
    var clean1, clean2 := CleanStates(std1), CleanStates(std2);
    FilterPermutation(clean1, clean2, HasType);
    var present1, present2 := Filter(clean1, HasType), Filter(clean2, HasType);
    MapSeqPermutation(present1, present2, NumericTypeOf(parse));
    var numeric1, numeric2 := MapSeq(present1, NumericTypeOf(parse)), MapSeq(present2, NumericTypeOf(parse));
    FilterPermutation(numeric1, numeric2, HasNumericType);
    var kept1, kept2 := KeptStations(charging1, parse), KeptStations(charging2, parse);
    MapSeqPermutation(kept1, kept2, GroupKey);
    ChargerKeyOrder();
    SortedGroupSizeOrderIndependent(MapSeq(kept1, GroupKey), MapSeq(kept2, GroupKey), ChargerKeyLess);
  }

  // ---------------------------------------------------------------------
  // groupby('state_clean')['EV_Sales_Quantity'].sum()

  function SalesKey(r: Cleaned<Option<real>>): Keyed<Option<string>, Option<real>> {
    Keyed(r.stateClean, r.val)
  }

  /** sales_per_state: one row per present clean state, in increasing
      order, with the total of its sales, NaN counting as nothing. */
  function SalesPerState(sales: seq<Cleaned<Option<real>>>): (t: seq<Keyed<string, real>>)
    ensures SortedBy(t, StringLess) && UniqueKeys(t)
    ensures KeySet(t) == RowKeys(MapSeq(sales, SalesKey))
    ensures forall i | 0 <= i < |t| :: t[i].val == SumFor(MapSeq(sales, SalesKey), t[i].key)
  {
    StateOrder();
    SortedGroupSumSorted(MapSeq(sales, SalesKey), StringLess);
    SortedGroupSum(MapSeq(sales, SalesKey), StringLess)
  }

  /** The sales totals do not depend on the order of the EV sales rows:
      two orderings of the same rows give the same table. */
  lemma SalesPerStateOrderIndependent(evSales1: seq<SalesRow>, evSales2: seq<SalesRow>)
    requires multiset(evSales1) == multiset(evSales2)
    ensures SalesPerState(CleanStates(Standardized(evSales1))) == SalesPerState(CleanStates(Standardized(evSales2)))
  {
    MapSeqPermutation(evSales1, evSales2, StandardizeRow);
    var std1, std2 := Standardized(evSales1), Standardized(evSales2);
    MapSeqPermutation(std1, std2, WithCleanState);
    var clean1, clean2 := CleanStates(std1), CleanStates(std2);
    MapSeqPermutation(clean1, clean2, SalesKey);
    StateOrder();
    SortedGroupSumOrderIndependent(MapSeq(clean1, SalesKey), MapSeq(clean2, SalesKey), StringLess);
  }

  // ---------------------------------------------------------------------
  // Merge, fillna, ratio and label

  /** The join column of a count row. */
  function CountState(g: Keyed<ChargerKey, nat>): string {
    g.key.state
  }

  /** `fillna(0)` on EV_Sales_Quantity. */
  function FillSales(sales: Option<real>): (q: real)
    ensures sales.None? ==> q == 0.0
    ensures sales.Some? ==> q == sales.value
  {
    match sales
    case None => 0.0
    case Some(v) => v
  }

  /** charger_count / EV_Sales_Quantity when the sales are positive, and no
      value otherwise: the division never meets a zero divisor, and the
      quotient times the sales gives back the count. */
  function ChargerToDemandRatio(count: nat, sales: real): (r: Option<real>)
    ensures r.Some? <==> sales > 0.0
    ensures r.Some? ==> r.value * sales == count as real
  {
    if sales > 0.0 then Some(count as real / sales) else None
  }

  /** A row of supply_demand_overall with all its columns. */
  datatype SupplyDemandRow = SupplyDemandRow(
    stateClean: string,
    chargerType: int,
    chargerCount: nat,
    evSalesQuantity: real,
    chargerToDemandRatio: Option<real>,
    typeStr: string,
    chargerTypeName: string)

  /** The columns added to one merged row: filled sales, the ratio, the
      one-decimal type string and its label. */
  function Derive(j: Joined<Keyed<ChargerKey, nat>, Option<real>>): (r: SupplyDemandRow)
    ensures r.stateClean == j.left.key.state && r.chargerType == j.left.key.chargerType && r.chargerCount == j.left.val
    ensures r.evSalesQuantity == FillSales(j.right)
    ensures r.typeStr == FormatOneDecimal(r.chargerType)
    ensures r.chargerToDemandRatio.Some? <==> r.evSalesQuantity > 0.0
    ensures r.chargerToDemandRatio.Some? ==> r.chargerToDemandRatio.value * r.evSalesQuantity == r.chargerCount as real
    ensures ParseOneDecimal(r.typeStr) == Some(r.chargerType)
    ensures r.chargerTypeName != "Unknown" <==> r.chargerType in KnownCodes
    ensures r.chargerType in KnownCodes ==> r.typeStr in ChargerTypeMap && r.chargerTypeName == ChargerTypeMap[r.typeStr]
  {
    var sales := FillSales(j.right);
    var typeStr := FormatOneDecimal(j.left.key.chargerType);
    FormatRoundTrip(j.left.key.chargerType);
    ChargerTypeNameOfCode(j.left.key.chargerType);
    SupplyDemandRow(j.left.key.state, j.left.key.chargerType, j.left.val, sales,
      ChargerToDemandRatio(j.left.val, sales), typeStr, ChargerTypeName(typeStr))
  }

  /** The column assignments after the merge, row by row. */
  method DeriveColumns(merged: seq<Joined<Keyed<ChargerKey, nat>, Option<real>>>) returns (out: seq<SupplyDemandRow>)
    ensures out == MapSeq(merged, Derive)
  {
    out := [];
    var i := 0;
    while i < |merged|
      invariant 0 <= i <= |merged|
      invariant |out| == i && forall k | 0 <= k < i :: out[k] == Derive(merged[k])
    {
      var row := merged[i];
      var sales := FillSales(row.right);
      var ratio := ChargerToDemandRatio(row.left.val, sales);
      var typeStr := FormatOneDecimal(row.left.key.chargerType);
      out := out + [SupplyDemandRow(row.left.key.state, row.left.key.chargerType, row.left.val, sales,
        ratio, typeStr, ChargerTypeName(typeStr))];
      i := i + 1;
    }
  }

  /** supply_demand_overall. */
  function SupplyDemandOverall(charging: seq<ChargingRow>, evSales: seq<SalesRow>, parseType: string -> Option<int>): seq<SupplyDemandRow> {
    var counts := ChargerTypeCounts(KeptStations(charging, parseType));
    var salesPerState := SalesPerState(CleanStates(Standardized(evSales)));
    MapSeq(LeftMerge(counts, CountState, salesPerState), Derive)
  }

  /** supply_demand_overall does not depend on the order of the rows of
      either input table. */
  lemma SupplyDemandOrderIndependent(
    charging1: seq<ChargingRow>, charging2: seq<ChargingRow>, evSales1: seq<SalesRow>, evSales2: seq<SalesRow>,
    parseType: string -> Option<int>)
    requires multiset(charging1) == multiset(charging2) && multiset(evSales1) == multiset(evSales2)
    ensures SupplyDemandOverall(charging1, evSales1, parseType) == SupplyDemandOverall(charging2, evSales2, parseType)
  {
    ChargerTypeCountsOrderIndependent(charging1, charging2, parseType);
    SalesPerStateOrderIndependent(evSales1, evSales2);
  }

  /** The group key of an output row. */
  function RowKey(r: SupplyDemandRow): ChargerKey {
    ChargerKey(r.stateClean, r.chargerType)
  }

  /** Each count row appears once in supply_demand_overall, in order, with
      its key and count unchanged and with sales equal to the total of the
      sales rows of its clean state (0 when there are none). */
  lemma SupplyDemandFromCounts(charging: seq<ChargingRow>, evSales: seq<SalesRow>, parseType: string -> Option<int>)
    ensures |SupplyDemandOverall(charging, evSales, parseType)| == |ChargerTypeCounts(KeptStations(charging, parseType))|
    ensures forall i | 0 <= i < |SupplyDemandOverall(charging, evSales, parseType)| ::
      && RowKey(SupplyDemandOverall(charging, evSales, parseType)[i]) == ChargerTypeCounts(KeptStations(charging, parseType))[i].key
      && SupplyDemandOverall(charging, evSales, parseType)[i].chargerCount == ChargerTypeCounts(KeptStations(charging, parseType))[i].val
      && SupplyDemandOverall(charging, evSales, parseType)[i].evSalesQuantity
         == SumFor(MapSeq(CleanStates(Standardized(evSales)), SalesKey), SupplyDemandOverall(charging, evSales, parseType)[i].stateClean)
  {
    var counts := ChargerTypeCounts(KeptStations(charging, parseType));
    var salesRows := MapSeq(CleanStates(Standardized(evSales)), SalesKey);
    var salesPerState := SortedGroupSum(salesRows, StringLess);
    StateOrder();
    SortedGroupSumSorted(salesRows, StringLess);
    LeftMergeUnique(counts, CountState, salesPerState);
    var sd := SupplyDemandOverall(charging, evSales, parseType);
    forall i | 0 <= i < |sd| ensures sd[i].evSalesQuantity == SumFor(salesRows, sd[i].stateClean) {
      var state := counts[i].key.state;
      if state in KeySet(salesPerState) {
        var k :| 0 <= k < |salesPerState| && salesPerState[k].key == state;
        LookupUnique(salesPerState, k);
      } else {
        SumForAbsent(salesRows, state);
      }
    }
  }

  /** The rows of supply_demand_overall come in strictly increasing
      (clean state, type) order, so no two share a key. */
  lemma SupplyDemandSorted(charging: seq<ChargingRow>, evSales: seq<SalesRow>, parseType: string -> Option<int>)
    ensures forall i, j | 0 <= i < j < |SupplyDemandOverall(charging, evSales, parseType)| ::
      ChargerKeyLess(RowKey(SupplyDemandOverall(charging, evSales, parseType)[i]), RowKey(SupplyDemandOverall(charging, evSales, parseType)[j]))
    ensures forall i, j | 0 <= i < j < |SupplyDemandOverall(charging, evSales, parseType)| ::
      RowKey(SupplyDemandOverall(charging, evSales, parseType)[i]) != RowKey(SupplyDemandOverall(charging, evSales, parseType)[j])
  {
    SupplyDemandFromCounts(charging, evSales, parseType);
    ChargerTypeCountsSpec(KeptStations(charging, parseType));
  }

  /** supply_demand_overall has a row for exactly the (clean state, type)
      keys of the kept charging rows, and each row's count is the number of
      kept rows with its key. */
  lemma SupplyDemandCounts(charging: seq<ChargingRow>, evSales: seq<SalesRow>, parseType: string -> Option<int>)
    ensures (set r | r in SupplyDemandOverall(charging, evSales, parseType) :: RowKey(r))
         == PresentKeys(MapSeq(KeptStations(charging, parseType), GroupKey))
    ensures forall r | r in SupplyDemandOverall(charging, evSales, parseType) ::
      r.chargerCount == multiset(MapSeq(KeptStations(charging, parseType), GroupKey))[Some(RowKey(r))] >= 1
  {
    var kept := KeptStations(charging, parseType);
    SupplyDemandFromCounts(charging, evSales, parseType);
    ChargerTypeCountsSpec(kept);
    RowsOfCounts(SupplyDemandOverall(charging, evSales, parseType), ChargerTypeCounts(kept), MapSeq(kept, GroupKey));
  }

  /** Output rows that carry the keys and counts of a group-size table
      carry its key set and its counts. */
  lemma RowsOfCounts(sd: seq<SupplyDemandRow>, counts: seq<Keyed<ChargerKey, nat>>, keys: seq<Option<ChargerKey>>)
    requires |sd| == |counts| && KeySet(counts) == PresentKeys(keys)
    requires forall i | 0 <= i < |sd| :: RowKey(sd[i]) == counts[i].key && sd[i].chargerCount == counts[i].val
    requires forall i | 0 <= i < |counts| :: counts[i].val == multiset(keys)[Some(counts[i].key)] && counts[i].val >= 1
    ensures (set r | r in sd :: RowKey(r)) == PresentKeys(keys)
    ensures forall r | r in sd :: r.chargerCount == multiset(keys)[Some(RowKey(r))] >= 1
  {
    forall r | r in sd ensures RowKey(r) in KeySet(counts) && r.chargerCount == multiset(keys)[Some(RowKey(r))] >= 1 {
      var i :| 0 <= i < |sd| && sd[i] == r;
      assert counts[i].key in KeySet(counts);
    }
    forall k | k in KeySet(counts) ensures k in (set r | r in sd :: RowKey(r)) {
      var i :| 0 <= i < |counts| && counts[i].key == k;
      assert RowKey(sd[i]) == k;
    }
  }

  /** "Maharashtra " and "maharashtra" with a 7.0 charger and "Delhi" with
      a 10.0 charger, against sales of 100 for "Maharashtra": Delhi comes
      first, with one rapid charger, no sales and hence no ratio; then
      Maharashtra, with two fast chargers for 100 sales. */
  lemma MaharashtraDelhiExample(charging: seq<ChargingRow>, evSales: seq<SalesRow>, parseType: string -> Option<int>)
    requires charging == [Record(Some("Maharashtra "), Number(70)), Record(Some("maharashtra"), Number(70)), Record(Some("Delhi"), Number(100))]
    requires evSales == [Record(Some("Maharashtra"), Some(100.0))]
    ensures SupplyDemandOverall(charging, evSales, parseType)
      == [SupplyDemandRow("delhi", 100, 1, 0.0, None, "10.0", "Level 3 DC (Rapid Charger)"),
          SupplyDemandRow("maharashtra", 70, 2, 100.0, Some(1.0 / 50.0), "7.0", "Level 2 AC (Fast Charger)")]
  {
    var mah, del := "maharashtra", "delhi";
    StandardizedChargingExample(charging, mah, del);
    StandardizedSalesExample(evSales, mah);
    CleanMaharashtraDelhi(mah, del);
    DelhiBeforeMaharashtra(mah, del);
    PipelineExample(charging, evSales, parseType, mah, del);
  }

  lemma DelhiBeforeMaharashtra(mah: string, del: string)
    requires mah == "maharashtra" && del == "delhi"
    ensures mah != del && !StringLess(mah, del)
  {
  }

  /** The example from its standardised tables on. */
  lemma PipelineExample(charging: seq<ChargingRow>, evSales: seq<SalesRow>, parseType: string -> Option<int>, mah: string, del: string)
    requires mah != del && !StringLess(mah, del)
    requires CleanStateName(Some(mah)) == Some(mah) && CleanStateName(Some(del)) == Some(del)
    requires Standardized(charging) == [Record(Some(mah), Number(70)), Record(Some(mah), Number(70)), Record(Some(del), Number(100))]
    requires Standardized(evSales) == [Record(Some(mah), Some(100.0))]
    ensures SupplyDemandOverall(charging, evSales, parseType)
      == [SupplyDemandRow(del, 100, 1, 0.0, None, "10.0", "Level 3 DC (Rapid Charger)"),
          SupplyDemandRow(mah, 70, 2, 100.0, Some(1.0 / 50.0), "7.0", "Level 2 AC (Fast Charger)")]
  {
    var mk, dk := ChargerKey(mah, 70), ChargerKey(del, 100);
    CountsExample(charging, parseType, mah, del);
    SalesPerStateExample(evSales, mah);
    var counts := ChargerTypeCounts(KeptStations(charging, parseType));
    var salesPerState := SalesPerState(CleanStates(Standardized(evSales)));
    LeftMergeExample(Keyed(dk, 1), Keyed(mk, 2), Keyed(mah, 100.0));
    assert LeftMerge(counts, CountState, salesPerState) == [Joined(Keyed(dk, 1), None), Joined(Keyed(mk, 2), Some(100.0))];
    DeriveExample(mah, del);
  }

  lemma CountsExample(charging: seq<ChargingRow>, parseType: string -> Option<int>, mah: string, del: string)
    requires mah != del && !StringLess(mah, del)
    requires CleanStateName(Some(mah)) == Some(mah) && CleanStateName(Some(del)) == Some(del)
    requires Standardized(charging) == [Record(Some(mah), Number(70)), Record(Some(mah), Number(70)), Record(Some(del), Number(100))]
    ensures ChargerTypeCounts(KeptStations(charging, parseType)) == [Keyed(ChargerKey(del, 100), 1), Keyed(ChargerKey(mah, 70), 2)]
  {
    CleanStatesExample(Standardized(charging), mah, del);
    var m, d := Cleaned(Some(mah), Some(mah), Number(70)), Cleaned(Some(del), Some(del), Number(100));
    KeptExample(m, d);
    CountsStage(CleanStates(Standardized(charging)), parseType, ChargerKey(mah, 70), ChargerKey(del, 100));
  }

  lemma SalesPerStateExample(evSales: seq<SalesRow>, mah: string)
    requires CleanStateName(Some(mah)) == Some(mah)
    requires Standardized(evSales) == [Record(Some(mah), Some(100.0))]
    ensures SalesPerState(CleanStates(Standardized(evSales))) == [Keyed(mah, 100.0)]
  {
    CleanSalesExample(Standardized(evSales), mah);
    SalesExample(mah);
  }

  lemma CountsStage(clean: seq<Cleaned<Cell<int>>>, parseType: string -> Option<int>, mk: ChargerKey, dk: ChargerKey)
    requires mk != dk && !ChargerKeyLess(mk, dk)
    requires forall i | 0 <= i < |clean| :: clean[i].val.Number?
    requires MapSeq(clean, NumberKey) == [Some(mk), Some(mk), Some(dk)]
    ensures ChargerTypeCounts(TypedStations(clean, parseType)) == [Keyed(dk, 1), Keyed(mk, 2)]
  {
    KeptKeys(clean, parseType);
    GroupSizeTwoOne(mk, dk);
    SortedGroupSizeTwo(MapSeq(TypedStations(clean, parseType), GroupKey), Keyed(mk, 2), Keyed(dk, 1), ChargerKeyLess);
  }

  lemma CleanStatesExample(std: seq<ChargingRow>, mah: string, del: string)
    requires CleanStateName(Some(mah)) == Some(mah) && CleanStateName(Some(del)) == Some(del)
    requires std == [Record(Some(mah), Number(70)), Record(Some(mah), Number(70)), Record(Some(del), Number(100))]
    ensures CleanStates(std) == [Cleaned(Some(mah), Some(mah), Number(70)), Cleaned(Some(mah), Some(mah), Number(70)), Cleaned(Some(del), Some(del), Number(100))]
  {
  }

  lemma CleanSalesExample(stdSales: seq<SalesRow>, mah: string)
    requires CleanStateName(Some(mah)) == Some(mah)
    requires stdSales == [Record(Some(mah), Some(100.0))]
    ensures MapSeq(CleanStates(stdSales), SalesKey) == [Keyed(Some(mah), Some(100.0))]
  {
  }

  /** The (state_clean, type) key of a row whose type cell is a number. */
  function NumberKey(r: Cleaned<Cell<int>>): Option<ChargerKey> {
    if r.stateClean.Some? && r.val.Number? then Some(ChargerKey(r.stateClean.value, r.val.value)) else None
  }

  /** With every type cell a number, the group keys are the rows' own
      (state_clean, type) pairs, in row order. */
  lemma KeptKeys(rows: seq<Cleaned<Cell<int>>>, parse: string -> Option<int>)
    requires forall i | 0 <= i < |rows| :: rows[i].val.Number?
    ensures MapSeq(TypedStations(rows, parse), GroupKey) == MapSeq(rows, NumberKey)
  {
    TypedStationsAllNumbers(rows, parse);
  }

  lemma KeptExample(m: Cleaned<Cell<int>>, d: Cleaned<Cell<int>>)
    requires m.stateClean.Some? && m.val.Number? && d.stateClean.Some? && d.val.Number?
    ensures MapSeq([m, m, d], NumberKey)
      == [Some(ChargerKey(m.stateClean.value, m.val.value)), Some(ChargerKey(m.stateClean.value, m.val.value)),
          Some(ChargerKey(d.stateClean.value, d.val.value))]
  {
  }

  lemma DeriveExample(mah: string, del: string)
    ensures MapSeq([Joined(Keyed(ChargerKey(del, 100), 1), None), Joined(Keyed(ChargerKey(mah, 70), 2), Some(100.0))], Derive)
      == [SupplyDemandRow(del, 100, 1, 0.0, None, "10.0", "Level 3 DC (Rapid Charger)"),
          SupplyDemandRow(mah, 70, 2, 100.0, Some(1.0 / 50.0), "7.0", "Level 2 AC (Fast Charger)")]
  {
    DeriveRapidExample(del);
    DeriveFastExample(mah);
  }

  lemma DeriveRapidExample(del: string)
    ensures Derive(Joined(Keyed(ChargerKey(del, 100), 1), None))
      == SupplyDemandRow(del, 100, 1, 0.0, None, "10.0", "Level 3 DC (Rapid Charger)")
  {
    FormatWholeCode(10);
    assert DigitChar(1) == '1' && DigitChar(0) == '0';
  }

  lemma DeriveFastExample(mah: string)
    ensures Derive(Joined(Keyed(ChargerKey(mah, 70), 2), Some(100.0)))
      == SupplyDemandRow(mah, 70, 2, 100.0, Some(1.0 / 50.0), "7.0", "Level 2 AC (Fast Charger)")
  {
    FormatWholeCode(7);
    assert DigitChar(7) == '7';
  }

  lemma StandardizedChargingExample(charging: seq<ChargingRow>, mah: string, del: string)
    requires charging == [Record(Some("Maharashtra "), Number(70)), Record(Some("maharashtra"), Number(70)), Record(Some("Delhi"), Number(100))]
    requires mah == "maharashtra" && del == "delhi"
    ensures Standardized(charging) == [Record(Some(mah), Number(70)), Record(Some(mah), Number(70)), Record(Some(del), Number(100))]
  {
    LowerStripMaharashtraPadded(charging[0].state.value);
    LowerStripLowerMaharashtra(charging[1].state.value);
    LowerStripDelhi(charging[2].state.value);
    MapSeqThree(charging, StandardizeRow);
  }

  lemma StandardizedSalesExample(evSales: seq<SalesRow>, mah: string)
    requires evSales == [Record(Some("Maharashtra"), Some(100.0))]
    requires mah == "maharashtra"
    ensures Standardized(evSales) == [Record(Some(mah), Some(100.0))]
  {
    LowerStripMaharashtra(evSales[0].state.value);
  }

  lemma SalesExample(state: string)
    ensures SortedGroupSum([Keyed(Some(state), Some(100.0))], StringLess) == [Keyed(state, 100.0)]
  {
    var rows := [Keyed(Some(state), Some(100.0))];
    assert rows[..0] == [];
    assert GroupSum(rows) == [Keyed(state, 100.0)];
    var one := [Keyed(state, 100.0)];
    assert one[..0] == [];
  }

  lemma LeftMergeExample(a: Keyed<ChargerKey, nat>, b: Keyed<ChargerKey, nat>, s: Keyed<string, real>)
    requires a.key.state != s.key && b.key.state == s.key
    ensures LeftMerge([a, b], CountState, [s]) == [Joined(a, None), Joined(b, Some(s.val))]
  {
    LeftMergeUnique([a, b], CountState, [s]);
    assert KeySet([s]) == {s.key};
    assert Lookup([s], CountState(a)) == None;
    assert Lookup([s], CountState(b)) == Some(s.val);
  }

  // ---------------------------------------------------------------------
  // Population

  /** `population_state_df[['state_clean', 'total_population']]` with the
      population converted by `pd.to_numeric(errors='coerce')`. */
  function PopulationColumns(parse: string -> Option<real>): Cleaned<Cell<real>> -> Keyed<Option<string>, Option<real>> {
    (r: Cleaned<Cell<real>>) => Keyed(r.stateClean, ToNumeric(r.val, parse))
  }

  predicate HasPopulation(r: Keyed<Option<string>, Option<real>>) {
    r.val.Some?
  }

  /** The population table after `dropna(subset=['total_population'])`. */
  function CleanedPopulation(rows: seq<Cleaned<Cell<real>>>, parse: string -> Option<real>): (r: seq<Keyed<Option<string>, Option<real>>>)
    ensures |r| <= |rows|
    ensures forall i | 0 <= i < |r| :: r[i].val.Some?
    ensures forall x {:trigger multiset(r)[x]} ::
      multiset(r)[x] == if x.val.Some? then multiset(MapSeq(rows, PopulationColumns(parse)))[x] else 0
  {
    Filter(MapSeq(rows, PopulationColumns(parse)), HasPopulation)
  }

  /** The cleaned table keeps the input order: cleaning two tables laid
      end to end cleans each in place. With CleanedPopulationSingle this
      determines the cleaned table. */
  lemma CleanedPopulationAppend(rows1: seq<Cleaned<Cell<real>>>, rows2: seq<Cleaned<Cell<real>>>, parse: string -> Option<real>)
    ensures CleanedPopulation(rows1 + rows2, parse) == CleanedPopulation(rows1, parse) + CleanedPopulation(rows2, parse)
  {
    var f := PopulationColumns(parse);
    MapSeqAppend(rows1, rows2, f);
    FilterAppend(MapSeq(rows1, f), MapSeq(rows2, f), HasPopulation);
  }

  /** A single row is kept, with its clean state and converted population,
      exactly when its population converts. */
  lemma CleanedPopulationSingle(row: Cleaned<Cell<real>>, parse: string -> Option<real>)
    ensures CleanedPopulation([row], parse) ==
      if ToNumeric(row.val, parse).Some? then [Keyed(row.stateClean, ToNumeric(row.val, parse))] else []
  {
    var f := PopulationColumns(parse);
    assert MapSeq([row], f) == [f(row)];
    FilterSingle(f(row), HasPopulation);
  }

  /** A (clean state, population) row is in the cleaned table exactly when
      some input row has that clean state and a population that converts to
      that number. */
  lemma CleanedPopulationRows(rows: seq<Cleaned<Cell<real>>>, parse: string -> Option<real>, x: Keyed<Option<string>, Option<real>>)
    ensures x in CleanedPopulation(rows, parse) <==>
      x.val.Some? && exists j | 0 <= j < |rows| :: rows[j].stateClean == x.key && ToNumeric(rows[j].val, parse) == x.val
  {
    var numeric := MapSeq(rows, PopulationColumns(parse));
    var r := CleanedPopulation(rows, parse);
    assert x in r <==> multiset(r)[x] > 0;
    assert x in numeric <==> multiset(numeric)[x] > 0;
    if x.val.Some? && exists j | 0 <= j < |rows| :: rows[j].stateClean == x.key && ToNumeric(rows[j].val, parse) == x.val {
      var j :| 0 <= j < |rows| && rows[j].stateClean == x.key && ToNumeric(rows[j].val, parse) == x.val;
      assert numeric[j] == x;
    }
  }

  // ---------------------------------------------------------------------
  // The script

  /** The script from the lower/strip of the state columns to the two
      tables it saves. */
  method AnalyzeChargerTypes(
    charging: seq<ChargingRow>, evSales: seq<SalesRow>, population: seq<PopulationRow>,
    parseType: string -> Option<int>, parsePopulation: string -> Option<real>)
    returns (supplyDemand: seq<SupplyDemandRow>, populationClean: seq<Keyed<Option<string>, Option<real>>>)
    ensures supplyDemand == SupplyDemandOverall(charging, evSales, parseType)
    ensures populationClean == CleanedPopulation(CleanStates(Standardized(population)), parsePopulation)
  {
    var chargingStd := StandardizeStates(charging);
    var salesStd := StandardizeStates(evSales);
    var populationStd := StandardizeStates(population);
    var chargingClean := ApplyCleanStateName(chargingStd);
    var salesClean := ApplyCleanStateName(salesStd);
    var populationCleanStates := ApplyCleanStateName(populationStd);
    var kept := TypedStations(chargingClean, parseType);
    var counts := ChargerTypeCounts(kept);
    var salesPerState := SalesPerState(salesClean);
    var merged := LeftMerge(counts, CountState, salesPerState);
    supplyDemand := DeriveColumns(merged);
    populationClean := CleanedPopulation(populationCleanStates, parsePopulation);
  }
}
