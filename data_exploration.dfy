/** data_exploration.py: the plain per-state pipeline. State names are only
    lower-cased and stripped (no fuzzy matching); stations are counted and
    sales summed per state; the two are inner-merged, left-merged with the
    state populations, and divided by the population without any guard. */
module DataExploration {
  import opened Wrappers
  import opened Text
  import opened Frames
  import opened StateNames

  /** An EV sales row: its State and its EV_Sales_Quantity (None for NaN). */
  type SalesRow = Record<Option<real>>

  /** A population row: its State and its total_population (None for NaN). */
  type PopulationRow = Record<Option<real>>

  // ---------------------------------------------------------------------
  // The three state columns

  function StateOf<V>(r: Record<V>): Option<string> {
    r.state
  }

  /** The state of a raw row once lower-cased and stripped. */
  function StandardState<V>(r: Record<V>): Option<string> {
    LowerStrip(r.state)
  }

  /** The state column of a standardised table is the standardised state
      of each raw row. */
  lemma StandardizedStates<V>(rows: seq<Record<V>>)
    ensures MapSeq(Standardized(rows), StateOf) == MapSeq(rows, StandardState)
  {
    var a, b := MapSeq(Standardized(rows), StateOf), MapSeq(rows, StandardState);
    assert forall i | 0 <= i < |rows| :: a[i] == b[i];
  }

  // ---------------------------------------------------------------------
  // stations_per_state and sales_per_state

  /** `groupby('state').size()`: one row per present state, in increasing
      order of state, with the number of rows that carry it; a row without
      a state is in no group. */
  function StationsPerState<V>(charging: seq<Record<V>>): (t: seq<Keyed<string, nat>>)
    ensures SortedBy(t, StringLess) && UniqueKeys(t)
    ensures KeySet(t) == PresentKeys(MapSeq(charging, StateOf))
    ensures forall i | 0 <= i < |t| :: 1 <= t[i].val == multiset(MapSeq(charging, StateOf))[Some(t[i].key)]
  {
    StateOrder();
    SortedGroupSizeSorted(MapSeq(charging, StateOf), StringLess);
    SortedGroupSize(MapSeq(charging, StateOf), StringLess)
  }

  /** A sales row keyed by its state. */
  function SalesKeyed(r: SalesRow): Keyed<Option<string>, Option<real>> {
    Keyed(r.state, r.val)
  }

  /** `groupby('state')['EV_Sales_Quantity'].sum()`: one row per present
      state, in increasing order of state, with the total of its sales,
      NaN counting as nothing. */
  function SalesPerState(sales: seq<SalesRow>): (t: seq<Keyed<string, real>>)
    ensures SortedBy(t, StringLess) && UniqueKeys(t)
    ensures KeySet(t) == RowKeys(MapSeq(sales, SalesKeyed))
    ensures forall i | 0 <= i < |t| :: t[i].val == SumFor(MapSeq(sales, SalesKeyed), t[i].key)
  {
    StateOrder();
    SortedGroupSumSorted(MapSeq(sales, SalesKeyed), StringLess);
    SortedGroupSum(MapSeq(sales, SalesKeyed), StringLess)
  }

  /** The sales totals do not depend on the order of the sales rows: two
      orderings of the same rows give the same table. */
  lemma SalesPerStateOrderIndependent(sales1: seq<SalesRow>, sales2: seq<SalesRow>)
    requires multiset(sales1) == multiset(sales2)
    ensures SalesPerState(sales1) == SalesPerState(sales2)
  {
    MapSeqPermutation(sales1, sales2, SalesKeyed);
    StateOrder();
    SortedGroupSumOrderIndependent(MapSeq(sales1, SalesKeyed), MapSeq(sales2, SalesKeyed), StringLess);
  }

  /** Rows that standardise to the same state share one group; the count
      of a state is the number of raw rows whose lower-cased, stripped
      state is that state. */
  lemma StationsCountOfRawRows<V>(charging: seq<Record<V>>)
    ensures KeySet(StationsPerState(Standardized(charging))) == PresentKeys(MapSeq(charging, StandardState))
    ensures forall i | 0 <= i < |StationsPerState(Standardized(charging))| ::
      StationsPerState(Standardized(charging))[i].val
        == multiset(MapSeq(charging, StandardState))[Some(StationsPerState(Standardized(charging))[i].key)]
  {
    StandardizedStates(charging);
  }

  /** "Maharashtra " and "maharashtra" fall into one group, while the
      misspelt "maharastra" keeps a group of its own: nothing here is
      fuzzy-matched. */
  lemma GroupingExample(charging: seq<Record<()>>, mah: string, typo: string)
    requires charging == [Record(Some("Maharashtra "), ()), Record(Some("maharashtra"), ()), Record(Some("maharastra"), ())]
    requires mah == "maharashtra" && typo == "maharastra"
    ensures StationsPerState(Standardized(charging)) == [Keyed(mah, 2), Keyed(typo, 1)]
  {
    StandardizedGroupingExample(charging, mah, typo);
    MaharashtraBeforeTypo(mah, typo);
    GroupingStage(Standardized(charging), mah, typo);
  }

  lemma MaharashtraBeforeTypo(mah: string, typo: string)
    requires mah == "maharashtra" && typo == "maharastra"
    ensures mah != typo && StringLess(mah, typo)
  {
    assert mah[..7] == typo[..7] == "maharas";
    StringLessAt(mah, typo, 7);
  }

  lemma GroupingStage(std: seq<Record<()>>, a: string, b: string)
    requires a != b && StringLess(a, b)
    requires MapSeq(std, StateOf) == [Some(a), Some(a), Some(b)]
    ensures StationsPerState(std) == [Keyed(a, 2), Keyed(b, 1)]
  {
    GroupSizeTwoOne(a, b);
    SortedGroupSizeTwo(MapSeq(std, StateOf), Keyed(a, 2), Keyed(b, 1), StringLess);
  }

  lemma StandardizedGroupingExample(charging: seq<Record<()>>, mah: string, typo: string)
    requires charging == [Record(Some("Maharashtra "), ()), Record(Some("maharashtra"), ()), Record(Some("maharastra"), ())]
    requires mah == "maharashtra" && typo == "maharastra"
    ensures MapSeq(Standardized(charging), StateOf) == [Some(mah), Some(mah), Some(typo)]
  {
    LowerStripMaharashtraPadded(charging[0].state.value);
    LowerStripLowerMaharashtra(charging[1].state.value);
    LowerStripMisspelt(charging[2].state.value);
    MapSeqThree(charging, StandardizeRow);
    MapSeqThree(Standardized(charging), StateOf);
  }

  // ---------------------------------------------------------------------
  // state_merged and final_df

  /** The join column of a stations row. */
  function StationState(g: Keyed<string, nat>): string {
    g.key
  }

  /** A row of state_merged: a stations row and the state's sales. */
  type MergedRow = Joined<Keyed<string, nat>, real>

  /** `pd.merge(stations_per_state, sales_per_state, on='state', how='inner')`. */
  function StateMerged(stations: seq<Keyed<string, nat>>, sales: seq<Keyed<string, real>>): seq<MergedRow> {
    InnerMerge(stations, StationState, sales)
  }

  /** With both aggregates keyed uniquely, state_merged holds exactly the
      states present in both, each once, with both values unchanged. */
  lemma StateMergedSpec(stations: seq<Keyed<string, nat>>, sales: seq<Keyed<string, real>>)
    requires UniqueKeys(stations) && UniqueKeys(sales)
    ensures forall i, j | 0 <= i < j < |StateMerged(stations, sales)| ::
      StateMerged(stations, sales)[i].left.key != StateMerged(stations, sales)[j].left.key
    ensures forall i | 0 <= i < |StateMerged(stations, sales)| ::
      && Lookup(stations, StateMerged(stations, sales)[i].left.key) == Some(StateMerged(stations, sales)[i].left.val)
      && Lookup(sales, StateMerged(stations, sales)[i].left.key) == Some(StateMerged(stations, sales)[i].right)
    ensures (set r | r in StateMerged(stations, sales) :: r.left.key) == KeySet(stations) * KeySet(sales)
  {
    var merged := StateMerged(stations, sales);
    assert UniqueBy(stations, StationState);
    InnerMergeUnique(stations, StationState, sales);
    forall i | 0 <= i < |merged| ensures Lookup(stations, merged[i].left.key) == Some(merged[i].left.val) {
      var k :| 0 <= k < |stations| && stations[k] == merged[i].left;
      LookupUnique(stations, k);
    }
    StateMergedStates(stations, sales, merged);
  }

  /** The states of state_merged are those present in both aggregates. */
  lemma StateMergedStates(stations: seq<Keyed<string, nat>>, sales: seq<Keyed<string, real>>, merged: seq<MergedRow>)
    requires merged == StateMerged(stations, sales)
    requires forall i | 0 <= i < |merged| :: merged[i].left in stations && merged[i].left.key in KeySet(sales)
    requires forall j | 0 <= j < |stations| && stations[j].key in KeySet(sales) ::
      exists i :: 0 <= i < |merged| && merged[i].left == stations[j]
    ensures (set r | r in merged :: r.left.key) == KeySet(stations) * KeySet(sales)
  {
    forall s | s in KeySet(stations) * KeySet(sales) ensures s in (set r | r in merged :: r.left.key) {
      var k :| 0 <= k < |stations| && stations[k].key == s;
      var i :| 0 <= i < |merged| && merged[i].left == stations[k];
      assert merged[i] in merged;
    }
  }

  /** A population row keyed by its state. */
  function PopulationKeyed(r: PopulationRow): Keyed<Option<string>, Option<real>> {
    Keyed(r.state, r.val)
  }

  /** The join column of a state_merged row; it is never missing. */
  function MergedState(j: MergedRow): Option<string> {
    Some(j.left.key)
  }

  /** A row of the merge with the population table: the state_merged row
      and, when some population row has its state, that row's
      total_population. */
  type PopulationJoined = Joined<MergedRow, Option<Option<real>>>

  /** `pd.merge(state_merged, population_state_df[['state', 'total_population']],
      on='state', how='left')`. */
  function WithPopulation(merged: seq<MergedRow>, population: seq<PopulationRow>): seq<PopulationJoined> {
    LeftMerge(merged, MergedState, MapSeq(population, PopulationKeyed))
  }

  /** With no state named by two population rows (rows whose state is
      missing may repeat: they never match), the left merge keeps every
      state_merged row once, in order, and adds the population of its
      state, or nothing when no population row has that state. */
  lemma WithPopulationSpec(merged: seq<MergedRow>, population: seq<PopulationRow>)
    requires UniquePresentKeys(MapSeq(population, PopulationKeyed))
    ensures |WithPopulation(merged, population)| == |merged|
    ensures forall i | 0 <= i < |merged| ::
      && WithPopulation(merged, population)[i].left == merged[i]
      && WithPopulation(merged, population)[i].right == Lookup(MapSeq(population, PopulationKeyed), Some(merged[i].left.key))
    ensures forall i | 0 <= i < |merged| ::
      WithPopulation(merged, population)[i].right.None? <==> Some(merged[i].left.key) !in KeySet(MapSeq(population, PopulationKeyed))
  {
    var keyed := MapSeq(population, PopulationKeyed);
    forall i | 0 <= i < |merged| ensures AtMostOnce(keyed, MergedState(merged[i])) {
      PresentAtMostOnce(keyed, merged[i].left.key);
    }
    LeftMergeAtMostOnce(merged, MergedState, keyed);
  }

  // ---------------------------------------------------------------------
  // The per-capita columns

  /** The value of a float division: a number, an infinity or NaN. */
  datatype Quotient = Finite(value: real) | PosInf | NegInf | NaN

  /** Column division `n / d` as pandas performs it on floats, exactly: a
      missing divisor gives NaN; a zero divisor gives an infinity of the
      sign of `n`, or NaN for 0 / 0; any other divisor gives the quotient. */
  function TrueDivide(n: real, d: Option<real>): (q: Quotient)
    ensures q.Finite? <==> d.Some? && d.value != 0.0
    ensures q.Finite? ==> q.value * d.value == n
    ensures d.None? ==> q == NaN
    ensures d == Some(0.0) ==> (q == PosInf <==> n > 0.0) && (q == NegInf <==> n < 0.0) && (q == NaN <==> n == 0.0)
  {
    match d
    case None => NaN
    case Some(v) =>
      if v != 0.0 then Finite(n / v)
      else if n > 0.0 then PosInf
      else if n < 0.0 then NegInf
      else NaN
  }

  /** A NaN cell and a missing match both leave total_population NaN. */
  function PopulationValue(o: Option<Option<real>>): (p: Option<real>)
    ensures p.Some? <==> o.Some? && o.value.Some?
    ensures p.Some? ==> p.value == o.value.value
  {
    match o
    case None => None
    case Some(v) => v
  }

  /** A row of final_df with all its columns. */
  datatype FinalRow = FinalRow(
    state: string,
    stationsCount: nat,
    evSalesQuantity: real,
    totalPopulation: Option<real>,
    stationsPerCapita: Quotient,
    salesPerCapita: Quotient)

  /** One row of final_df with its two per-capita columns: each is a
      number exactly when the population is present and nonzero, and then
      times the population gives back the count or the sales. */
  function PerCapita(j: PopulationJoined): (r: FinalRow)
    ensures r.state == j.left.left.key && r.stationsCount == j.left.left.val && r.evSalesQuantity == j.left.right
    ensures r.totalPopulation == PopulationValue(j.right)
    ensures r.stationsPerCapita.Finite? <==> r.totalPopulation.Some? && r.totalPopulation.value != 0.0
    ensures r.stationsPerCapita.Finite? ==> r.stationsPerCapita.value * r.totalPopulation.value == r.stationsCount as real
    ensures r.salesPerCapita.Finite? <==> r.totalPopulation.Some? && r.totalPopulation.value != 0.0
    ensures r.salesPerCapita.Finite? ==> r.salesPerCapita.value * r.totalPopulation.value == r.evSalesQuantity
  {
    var population := PopulationValue(j.right);
    FinalRow(j.left.left.key, j.left.left.val, j.left.right, population,
      TrueDivide(j.left.left.val as real, population), TrueDivide(j.left.right, population))
  }

  /** The two column assignments on final_df, row by row. */
  method AddPerCapitaColumns(joined: seq<PopulationJoined>) returns (out: seq<FinalRow>)
    ensures out == MapSeq(joined, PerCapita)
  {
    out := [];
    var i := 0;
    while i < |joined|
      invariant 0 <= i <= |joined|
      invariant |out| == i && forall k | 0 <= k < i :: out[k] == PerCapita(joined[k])
    {
      var row := joined[i];
      var population := PopulationValue(row.right);
      var stations := TrueDivide(row.left.left.val as real, population);
      var sales := TrueDivide(row.left.right, population);
      out := out + [FinalRow(row.left.left.key, row.left.left.val, row.left.right, population, stations, sales)];
      i := i + 1;
    }
  }

  // ---------------------------------------------------------------------
  // The whole script

  /** final_df. */
  function FinalFrame<V>(charging: seq<Record<V>>, evSales: seq<SalesRow>, population: seq<PopulationRow>): seq<FinalRow> {
    var stations := StationsPerState(Standardized(charging));
    var sales := SalesPerState(Standardized(evSales));
    MapSeq(WithPopulation(StateMerged(stations, sales), Standardized(population)), PerCapita)
  }

  /** The script from the column overwrites to the per-capita columns. */
  method ExploreData<V>(charging: seq<Record<V>>, evSales: seq<SalesRow>, population: seq<PopulationRow>)
    returns (finalDf: seq<FinalRow>)
    ensures finalDf == FinalFrame(charging, evSales, population)
  {
    var chargingStd := StandardizeStates(charging);
    var salesStd := StandardizeStates(evSales);
    var populationStd := StandardizeStates(population);
    var stationsPerState := StationsPerState(chargingStd);
    var salesPerState := SalesPerState(salesStd);
    var stateMerged := StateMerged(stationsPerState, salesPerState);
    var joined := WithPopulation(stateMerged, populationStd);
    finalDf := AddPerCapitaColumns(joined);
  }

  /** With population states unique, the per-capita table has one row
      per state_merged row, in order, carrying its state, count and sales
      and the population of its state. */
  lemma FinalRowsOfMerged(merged: seq<MergedRow>, population: seq<PopulationRow>)
    requires UniquePresentKeys(MapSeq(population, PopulationKeyed))
    ensures |MapSeq(WithPopulation(merged, population), PerCapita)| == |merged|
    ensures forall i | 0 <= i < |merged| ::
      && MapSeq(WithPopulation(merged, population), PerCapita)[i].state == merged[i].left.key
      && MapSeq(WithPopulation(merged, population), PerCapita)[i].stationsCount == merged[i].left.val
      && MapSeq(WithPopulation(merged, population), PerCapita)[i].evSalesQuantity == merged[i].right
      && MapSeq(WithPopulation(merged, population), PerCapita)[i].totalPopulation
         == PopulationValue(Lookup(MapSeq(population, PopulationKeyed), Some(merged[i].left.key)))
  {
    WithPopulationSpec(merged, population);
  }

  /** With both aggregates and the population states keyed uniquely,
      the per-capita table has one row per state present in both
      aggregates, carrying the count, the sales and the population of its
      state. */
  lemma FinalRowsOfAggregates(stations: seq<Keyed<string, nat>>, sales: seq<Keyed<string, real>>, population: seq<PopulationRow>)
    requires UniqueKeys(stations) && UniqueKeys(sales) && UniquePresentKeys(MapSeq(population, PopulationKeyed))
    ensures (set r | r in MapSeq(WithPopulation(StateMerged(stations, sales), population), PerCapita) :: r.state)
      == KeySet(stations) * KeySet(sales)
    ensures forall i, j | 0 <= i < j < |MapSeq(WithPopulation(StateMerged(stations, sales), population), PerCapita)| ::
      MapSeq(WithPopulation(StateMerged(stations, sales), population), PerCapita)[i].state
        != MapSeq(WithPopulation(StateMerged(stations, sales), population), PerCapita)[j].state
    ensures forall r | r in MapSeq(WithPopulation(StateMerged(stations, sales), population), PerCapita) ::
      && Lookup(stations, r.state) == Some(r.stationsCount)
      && Lookup(sales, r.state) == Some(r.evSalesQuantity)
      && r.totalPopulation == PopulationValue(Lookup(MapSeq(population, PopulationKeyed), Some(r.state)))
  {
    var merged := StateMerged(stations, sales);
    StateMergedSpec(stations, sales);
    FinalRowsOfMerged(merged, population);
    FinalRowsFromMerged(stations, sales, population, merged, MapSeq(WithPopulation(merged, population), PerCapita));
  }

  /** The per-capita rows `out`, one per row of `merged` and carrying its
      state and values, inherit the distinct states, the looked-up values
      and the state set of `merged`. */
  lemma FinalRowsFromMerged(stations: seq<Keyed<string, nat>>, sales: seq<Keyed<string, real>>, population: seq<PopulationRow>,
                            merged: seq<MergedRow>, out: seq<FinalRow>)
    requires |out| == |merged|
    requires forall i | 0 <= i < |merged| ::
      && out[i].state == merged[i].left.key
      && out[i].stationsCount == merged[i].left.val
      && out[i].evSalesQuantity == merged[i].right
      && out[i].totalPopulation == PopulationValue(Lookup(MapSeq(population, PopulationKeyed), Some(merged[i].left.key)))
    requires forall i, j | 0 <= i < j < |merged| :: merged[i].left.key != merged[j].left.key
    requires forall i | 0 <= i < |merged| ::
      && Lookup(stations, merged[i].left.key) == Some(merged[i].left.val)
      && Lookup(sales, merged[i].left.key) == Some(merged[i].right)
    requires (set r | r in merged :: r.left.key) == KeySet(stations) * KeySet(sales)
    ensures (set r | r in out :: r.state) == KeySet(stations) * KeySet(sales)
    ensures forall i, j | 0 <= i < j < |out| :: out[i].state != out[j].state
    ensures forall r | r in out ::
      && Lookup(stations, r.state) == Some(r.stationsCount)
      && Lookup(sales, r.state) == Some(r.evSalesQuantity)
      && r.totalPopulation == PopulationValue(Lookup(MapSeq(population, PopulationKeyed), Some(r.state)))
  {
    forall i | 0 <= i < |merged| ensures merged[i].left.key in (set r | r in out :: r.state) {
      assert out[i] in out;
    }
    forall r | r in out ensures r.state in (set m | m in merged :: m.left.key) {
      var i :| 0 <= i < |out| && out[i] == r;
      assert merged[i] in merged;
    }
  }

  /** A count read off stations_per_state is the number of raw charging
      rows whose standardised state is the looked-up state. */
  lemma CountOfLookup<V>(charging: seq<Record<V>>, s: string, c: nat)
    requires Lookup(StationsPerState(Standardized(charging)), s) == Some(c)
    ensures c == multiset(MapSeq(charging, StandardState))[Some(s)]
  {
    StationsCountOfRawRows(charging);
    var j := Find(StationsPerState(Standardized(charging)), s).value;
  }

  /** A total read off sales_per_state is the sum of the sales rows whose
      standardised state is the looked-up state. */
  lemma SalesOfLookup(evSales: seq<SalesRow>, s: string, v: real)
    requires Lookup(SalesPerState(Standardized(evSales)), s) == Some(v)
    ensures v == SumFor(MapSeq(Standardized(evSales), SalesKeyed), s)
  {
    var j := Find(SalesPerState(Standardized(evSales)), s).value;
  }

  /** final_df, when the standardised population states are unique, has
      one row per state that has both a charging row and a sales row; its
      count is the number of charging rows with that state, its sales the
      total of the sales rows with that state, its population that of the
      population row with that state, if any. */
  lemma FinalFrameRows<V>(charging: seq<Record<V>>, evSales: seq<SalesRow>, population: seq<PopulationRow>)
    requires UniquePresentKeys(MapSeq(Standardized(population), PopulationKeyed))
    ensures (set r | r in FinalFrame(charging, evSales, population) :: r.state)
      == PresentKeys(MapSeq(charging, StandardState)) * RowKeys(MapSeq(Standardized(evSales), SalesKeyed))
    ensures forall i, j | 0 <= i < j < |FinalFrame(charging, evSales, population)| ::
      FinalFrame(charging, evSales, population)[i].state != FinalFrame(charging, evSales, population)[j].state
    ensures forall r | r in FinalFrame(charging, evSales, population) ::
      && r.stationsCount == multiset(MapSeq(charging, StandardState))[Some(r.state)]
      && r.evSalesQuantity == SumFor(MapSeq(Standardized(evSales), SalesKeyed), r.state)
      && r.totalPopulation == PopulationValue(Lookup(MapSeq(Standardized(population), PopulationKeyed), Some(r.state)))
  {
    var stations := StationsPerState(Standardized(charging));
    var sales := SalesPerState(Standardized(evSales));
    StationsCountOfRawRows(charging);
    FinalRowsOfAggregates(stations, sales, Standardized(population));
    forall r | r in FinalFrame(charging, evSales, population)
      ensures r.stationsCount == multiset(MapSeq(charging, StandardState))[Some(r.state)]
      ensures r.evSalesQuantity == SumFor(MapSeq(Standardized(evSales), SalesKeyed), r.state)
    {
      CountOfLookup(charging, r.state, r.stationsCount);
      SalesOfLookup(evSales, r.state, r.evSalesQuantity);
    }
  }

  /** final_df, when the standardised population states are unique, lists
      its states in increasing order: the order of stations_per_state,
      which both merges keep. */
  lemma FinalFrameSorted<V>(charging: seq<Record<V>>, evSales: seq<SalesRow>, population: seq<PopulationRow>)
    requires UniquePresentKeys(MapSeq(Standardized(population), PopulationKeyed))
    ensures forall i, j | 0 <= i < j < |FinalFrame(charging, evSales, population)| ::
      StringLess(FinalFrame(charging, evSales, population)[i].state, FinalFrame(charging, evSales, population)[j].state)
  {
    var stations := StationsPerState(Standardized(charging));
    var sales := SalesPerState(Standardized(evSales));
    InnerMergeSorted(stations, StationState, sales, StringLess);
    FinalRowsOfMerged(StateMerged(stations, sales), Standardized(population));
  }
}
