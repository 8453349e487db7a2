/** `clean_state_name` of charger_type_analysis.py: a state name, already
    lower-cased and stripped, is replaced by the closest entry of the fixed
    list of official Indian states when that entry scores at least 80. */
module StateNames {
  import opened Wrappers
  import opened Text
  import opened Fuzzy
  import opened Frames

  /** The official list of states and union territories, in list order. */
  const OfficialStates: seq<string> := [
    "andhra pradesh", "arunachal pradesh", "assam", "bihar", "chhattisgarh", "goa",
    "gujarat", "haryana", "himachal pradesh", "jharkhand", "karnataka", "kerala",
    "madhya pradesh", "maharashtra", "manipur", "meghalaya", "mizoram", "nagaland",
    "odisha", "punjab", "rajasthan", "sikkim", "tamil nadu", "telangana", "tripura",
    "uttar pradesh", "uttarakhand", "west bengal", "delhi", "jammu and kashmir",
    "ladakh"
  ]

  /** The default `threshold` of clean_state_name. */
  const Threshold: int := 80

  /** Some official name scores at least the threshold against `q`. */
  ghost predicate ClearsThreshold(q: string) {
    exists j | 0 <= j < |OfficialStates| :: Ratio(q, OfficialStates[j]) >= Threshold as real
  }

  /** `c` is the first official name, in list order, among those with the
      highest score against `q`. */
  ghost predicate IsFirstBest(q: string, c: string) {
    exists k | 0 <= k < |OfficialStates| ::
      && OfficialStates[k] == c
      && (forall j | 0 <= j < |OfficialStates| :: Ratio(q, OfficialStates[j]) <= Ratio(q, c))
      && (forall j | 0 <= j < k :: Ratio(q, OfficialStates[j]) < Ratio(q, c))
  }

  /** clean_state_name(name): a missing name stays missing without any
      comparison; a name for which some official name reaches the
      threshold becomes the first best-scoring official name; any other
      name is returned unchanged. */
  function CleanStateName(name: Option<string>): (r: Option<string>)
    ensures r.None? <==> name.None?
    ensures name.Some? && ClearsThreshold(name.value) ==> IsFirstBest(name.value, r.value)
    ensures name.Some? && !ClearsThreshold(name.value) ==> r == name
  {
    match name
    case None => None
    case Some(s) =>
      match ExtractOne(s, OfficialStates)
      case None => assert false; Some(s)
      case Some(m) => if m.score >= Threshold as real then Some(m.choice) else Some(s)
  }

  /** An official name is its own clean name: it scores 100 against itself
      and no other string does. */
  lemma CanonicalNameFixed(c: string)
    requires c in OfficialStates
    ensures CleanStateName(Some(c)) == Some(c)
  {
    var m := ExtractOne(c, OfficialStates).value;
    var k :| 0 <= k < |OfficialStates| && OfficialStates[k] == c;
    RatioSelf(c);
    assert Ratio(c, OfficialStates[k]) <= m.score;
    RatioHundred(c, m.choice);
  }

  /** Cleaning a cleaned name changes nothing. */
  lemma CleanStateNameIdempotent(name: Option<string>)
    ensures CleanStateName(CleanStateName(name)) == CleanStateName(name)
  {
    var r := CleanStateName(name);
    if r.Some? && r != name {
      var k :| 0 <= k < |OfficialStates| && OfficialStates[k] == r.value;
      CanonicalNameFixed(r.value);
    }
  }

  /** A raw state equal to an official name up to case and surrounding
      whitespace is standardised and cleaned to exactly that name. */
  lemma StandardizedOfficialName(raw: string, c: string)
    requires c in OfficialStates && Strip(Lower(raw)) == c
    ensures CleanStateName(LowerStrip(Some(raw))) == Some(c)
  {
    CanonicalNameFixed(c);
  }

  /** Every official name has at least three characters. */
  lemma OfficialNamesLength(k: nat)
    requires k < |OfficialStates|
    ensures |OfficialStates[k]| >= 3
  {
  }

  /** An official name with one character deleted is still cleaned to an
      official name, one that scores at least as well as the name it came
      from. */
  lemma OneDeletionStaysOfficial(c: string, i: nat)
    requires c in OfficialStates && i < |c|
    ensures CleanStateName(Some(c[..i] + c[i + 1..])).value in OfficialStates
    ensures Ratio(c[..i] + c[i + 1..], CleanStateName(Some(c[..i] + c[i + 1..])).value) >= Ratio(c[..i] + c[i + 1..], c) >= 80.0
  {
    var q := c[..i] + c[i + 1..];
    var k :| 0 <= k < |OfficialStates| && OfficialStates[k] == c;
    OfficialNamesLength(k);
    RatioAfterDeletion(c, i);
    RatioSymmetric(q, c);
    NearOfficialName(q, k);
  }

  /** An official name with one character inserted is still cleaned to an
      official name, one that scores at least as well as the name it came
      from. */
  lemma OneInsertionStaysOfficial(c: string, i: nat, ch: char)
    requires c in OfficialStates && i <= |c|
    ensures CleanStateName(Some(c[..i] + [ch] + c[i..])).value in OfficialStates
    ensures Ratio(c[..i] + [ch] + c[i..], CleanStateName(Some(c[..i] + [ch] + c[i..])).value) >= Ratio(c[..i] + [ch] + c[i..], c) >= 80.0
  {
    var q := c[..i] + [ch] + c[i..];
    var k :| 0 <= k < |OfficialStates| && OfficialStates[k] == c;
    OfficialNamesLength(k);
    RatioAfterInsertion(c, i, ch);
    RatioSymmetric(q, c);
    NearOfficialName(q, k);
  }

  /** An official name of five or more characters with one character
      replaced is still cleaned to an official name, one that scores at
      least as well as the name it came from. */
  lemma OneSubstitutionStaysOfficial(c: string, i: nat, ch: char)
    requires c in OfficialStates && i < |c| && 5 <= |c|
    ensures CleanStateName(Some(c[..i] + [ch] + c[i + 1..])).value in OfficialStates
    ensures Ratio(c[..i] + [ch] + c[i + 1..], CleanStateName(Some(c[..i] + [ch] + c[i + 1..])).value) >= Ratio(c[..i] + [ch] + c[i + 1..], c) >= 80.0
  {
    var q := c[..i] + [ch] + c[i + 1..];
    var k :| 0 <= k < |OfficialStates| && OfficialStates[k] == c;
    RatioAfterSubstitution(c, i, ch);
    RatioSymmetric(q, c);
    NearOfficialName(q, k);
  }

  /** A name that scores at least 80 against official name `k` is cleaned
      to an official name scoring at least as well. */
  lemma NearOfficialName(q: string, k: nat)
    requires k < |OfficialStates| && Ratio(q, OfficialStates[k]) >= 80.0
    ensures CleanStateName(Some(q)).value in OfficialStates
    ensures Ratio(q, CleanStateName(Some(q)).value) >= Ratio(q, OfficialStates[k])
  {
    assert ClearsThreshold(q);
  }

  /** A present clean name is an official name or the name itself. */
  lemma CleanStateNameOfficialOrSame(name: Option<string>)
    ensures CleanStateName(name) == name || CleanStateName(name).value in OfficialStates
  {
    if name.Some? && ClearsThreshold(name.value) {
      var k :| 0 <= k < |OfficialStates| && OfficialStates[k] == CleanStateName(name).value;
    }
  }

  /** "maharashtra" and "delhi" are official names, so cleaning keeps them. */
  lemma CleanMaharashtraDelhi(m: string, d: string)
    requires m == "maharashtra" && d == "delhi"
    ensures CleanStateName(Some(m)) == Some(m) && CleanStateName(Some(d)) == Some(d)
  {
    assert OfficialStates[13] == m;
    assert OfficialStates[28] == d;
    CanonicalNameFixed(m);
    CanonicalNameFixed(d);
  }

  /** Python's ordering of state names, which groupby sorts by, is a
      strict total order. */
  lemma StateOrder()
    ensures StrictTotalOrder(StringLess)
  {
    forall a: string ensures !StringLess(a, a) {
      StringLessIrreflexive(a);
    }
    forall a: string, b: string, c: string | StringLess(a, b) && StringLess(b, c) ensures StringLess(a, c) {
      StringLessTransitive(a, b, c);
    }
    forall a: string, b: string | a != b ensures StringLess(a, b) || StringLess(b, a) {
      StringLessTotal(a, b);
    }
  }

  // ---------------------------------------------------------------------
  // The state columns of a table

  function StandardizeRow<V>(r: Record<V>): Record<V> {
    Record(LowerStrip(r.state), r.val)
  }

  /** The table after `df['state'] = df['State'].str.lower().str.strip()`. */
  function Standardized<V>(rows: seq<Record<V>>): seq<Record<V>> {
    MapSeq(rows, StandardizeRow)
  }

  /** Standardising a standardised table changes nothing. */
  lemma StandardizedIdempotent<V>(rows: seq<Record<V>>)
    ensures Standardized(Standardized(rows)) == Standardized(rows)
  {
    var once := Standardized(rows);
    forall i | 0 <= i < |rows| ensures StandardizeRow(once[i]) == once[i] {
      LowerStripIdempotent(rows[i].state);
    }
  }

  /** The column overwrite, row by row. */
  method StandardizeStates<V>(rows: seq<Record<V>>) returns (out: seq<Record<V>>)
    ensures out == Standardized(rows)
  {
    out := [];
    var i := 0;
    while i < |rows|
      invariant 0 <= i <= |rows|
      invariant |out| == i && forall k | 0 <= k < i :: out[k] == StandardizeRow(rows[k])
    {
      out := out + [Record(LowerStrip(rows[i].state), rows[i].val)];
      i := i + 1;
    }
  }

  /** A row with its standardised state, the added `state_clean` column and
      the rest. */
  datatype Cleaned<V> = Cleaned(state: Option<string>, stateClean: Option<string>, val: V)

  function WithCleanState<V>(r: Record<V>): Cleaned<V> {
    Cleaned(r.state, CleanStateName(r.state), r.val)
  }

  /** The table after `df['state_clean'] = df['state'].apply(clean_state_name)`. */
  function CleanStates<V>(rows: seq<Record<V>>): seq<Cleaned<V>> {
    MapSeq(rows, WithCleanState)
  }

  /** Every row keeps its state and other columns; its clean state is
      missing exactly when the state is, and is otherwise an official name
      or the state itself. */
  lemma CleanStatesColumn<V>(rows: seq<Record<V>>)
    ensures |CleanStates(rows)| == |rows|
    ensures forall i | 0 <= i < |rows| ::
      && CleanStates(rows)[i].state == rows[i].state
      && CleanStates(rows)[i].val == rows[i].val
      && (CleanStates(rows)[i].stateClean.None? <==> rows[i].state.None?)
      && (CleanStates(rows)[i].stateClean == rows[i].state || CleanStates(rows)[i].stateClean.value in OfficialStates)
  {
    forall i | 0 <= i < |rows|
      ensures CleanStates(rows)[i].stateClean == rows[i].state || CleanStates(rows)[i].stateClean.value in OfficialStates
    {
      CleanStateNameOfficialOrSame(rows[i].state);
    }
  }

  /** The `.apply(clean_state_name)` column, row by row. */
  method ApplyCleanStateName<V>(rows: seq<Record<V>>) returns (out: seq<Cleaned<V>>)
    ensures out == CleanStates(rows)
  {
    out := [];
    var i := 0;
    while i < |rows|
      invariant 0 <= i <= |rows|
      invariant |out| == i && forall k | 0 <= k < i :: out[k] == WithCleanState(rows[k])
    {
      out := out + [Cleaned(rows[i].state, CleanStateName(rows[i].state), rows[i].val)];
      i := i + 1;
    }
  }
}
