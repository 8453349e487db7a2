/** The charger-type label lookup of charger_type_analysis.py: the numeric
    type code is formatted with `f"{x:.1f}"` and looked up in a fixed
    18-entry map, with "Unknown" for every other code. A code is held as
    a whole number of tenths (7.0 is 70). */
module ChargerTypes {
  import opened Wrappers

  predicate IsDigit(c: char) {
    '0' <= c <= '9'
  }

  predicate AllDigits(s: string) {
    forall i | 0 <= i < |s| :: IsDigit(s[i])
  }

  function DigitChar(d: nat): (c: char)
    requires d < 10
    ensures IsDigit(c)
  {
    ('0' as int + d) as char
  }

  function DigitValue(c: char): nat
    requires IsDigit(c)
  {
    c as int - '0' as int
  }

  /** The decimal digits of `n`, without leading zeros. */
  function NatToDecimal(n: nat): (s: string)
    ensures |s| >= 1 && AllDigits(s)
    ensures |s| == 1 || s[0] != '0'
    decreases n
  {
    if n < 10 then [DigitChar(n)] else NatToDecimal(n / 10) + [DigitChar(n % 10)]
  }

  /** The number a string of decimal digits denotes. */
  function DecimalValue(s: string): nat
    requires AllDigits(s)
    decreases |s|
  {
    if s == [] then 0 else 10 * DecimalValue(s[..|s| - 1]) + DigitValue(s[|s| - 1])
  }

  lemma {:induction false} DecimalRoundTrip(n: nat)
    ensures DecimalValue(NatToDecimal(n)) == n
    decreases n
  {
    if n >= 10 {
      DecimalRoundTrip(n / 10);
      var s := NatToDecimal(n);
      assert s[..|s| - 1] == NatToDecimal(n / 10);
    }
  }

  function Abs(x: int): nat {
    if x < 0 then -x else x
  }

  /** f"{x:.1f}" for x = tenths / 10: an optional minus sign, the integer
      part, a point and exactly one decimal. */
  function FormatOneDecimal(tenths: int): (r: string)
    ensures |r| >= 3 && r[|r| - 2] == '.' && IsDigit(r[|r| - 1])
    ensures DigitValue(r[|r| - 1]) == Abs(tenths) % 10
    ensures r[0] == '-' <==> tenths < 0
    ensures var start := if tenths < 0 then 1 else 0; start + 3 == |r| || r[start] != '0'
  {
    var digits := NatToDecimal(Abs(tenths) / 10);
    assert IsDigit(digits[0]);
    (if tenths < 0 then "-" else "") + digits + "." + [DigitChar(Abs(tenths) % 10)]
  }

  /** Reads back a string written by FormatOneDecimal. */
  function ParseOneDecimal(s: string): Option<int> {
    if |s| < 3 || s[|s| - 2] != '.' || !IsDigit(s[|s| - 1]) then None
    else
      var body := s[..|s| - 2];
      var negative := body[0] == '-';
      var digits := if negative then body[1..] else body;
      if digits == [] || !AllDigits(digits) then None
      else
        var magnitude := 10 * DecimalValue(digits) + DigitValue(s[|s| - 1]);
        Some(if negative then -magnitude else magnitude)
  }

  /** Formatting loses nothing: the code can be read back from its string,
      so two different codes never share a lookup key. */
  lemma FormatRoundTrip(tenths: int)
    ensures ParseOneDecimal(FormatOneDecimal(tenths)) == Some(tenths)
  {
    var digits := NatToDecimal(Abs(tenths) / 10);
    var s := FormatOneDecimal(tenths);
    DecimalRoundTrip(Abs(tenths) / 10);
    if tenths < 0 {
      assert s[..|s| - 2] == "-" + digits;
      assert ("-" + digits)[1..] == digits;
    } else {
      assert s[..|s| - 2] == digits;
    }
  }

  /** charger_type_map. */
  const ChargerTypeMap: map<string, string> := map[
    "6.0" := "Level 1 AC (Slow Charger)",
    "7.0" := "Level 2 AC (Fast Charger)",
    "8.0" := "Level 2 AC (Fast Charger) - Variant",
    "10.0" := "Level 3 DC (Rapid Charger)",
    "11.0" := "Level 1 AC (Slow Charger) - Variant",
    "12.0" := "Level 2 AC (Fast Charger) - Variant 2",
    "13.0" := "Level 3 DC (Rapid Charger) - Variant",
    "14.0" := "Level 3 DC (Ultra Fast)",
    "15.0" := "Bharat AC-001",
    "16.0" := "Bharat DC-001",
    "17.0" := "CCS Type 2",
    "18.0" := "CHAdeMO",
    "19.0" := "Type 2 AC",
    "20.0" := "GB/T AC",
    "21.0" := "GB/T DC",
    "22.0" := "Tesla Supercharger",
    "23.0" := "Other AC Charger",
    "24.0" := "Other DC Charger"
  ]

  /** The codes the map knows, in tenths: 6, 7, 8 and 10 to 24. */
  const KnownCodes: set<int> := {60, 70, 80, 100, 110, 120, 130, 140, 150, 160, 170, 180, 190, 200, 210, 220, 230, 240}

  /** `.map(charger_type_map).fillna('Unknown')` on one type string. */
  function ChargerTypeName(typeStr: string): (r: string)
    ensures r == "Unknown" <==> typeStr !in ChargerTypeMap
  {
    if typeStr in ChargerTypeMap then
      NoUnknownLabel(typeStr);
      ChargerTypeMap[typeStr]
    else "Unknown"
  }

  lemma FormatWholeCode(n: nat)
    requires n < 100
    ensures n < 10 ==> FormatOneDecimal(10 * n) == [DigitChar(n), '.', '0']
    ensures n >= 10 ==> FormatOneDecimal(10 * n) == [DigitChar(n / 10), DigitChar(n % 10), '.', '0']
  {
    assert Abs(10 * n) / 10 == n && Abs(10 * n) % 10 == 0;
    assert DigitChar(0) == '0';
    if n >= 10 {
      assert NatToDecimal(n / 10) == [DigitChar(n / 10)];
    }
  }

  /** The type strings of the known codes. */
  lemma FormattedKnownCodes()
    ensures FormatOneDecimal(60) == "6.0"
    ensures FormatOneDecimal(70) == "7.0"
    ensures FormatOneDecimal(80) == "8.0"
    ensures FormatOneDecimal(100) == "10.0"
    ensures FormatOneDecimal(110) == "11.0"
    ensures FormatOneDecimal(120) == "12.0"
    ensures FormatOneDecimal(130) == "13.0"
    ensures FormatOneDecimal(140) == "14.0"
    ensures FormatOneDecimal(150) == "15.0"
    ensures FormatOneDecimal(160) == "16.0"
    ensures FormatOneDecimal(170) == "17.0"
    ensures FormatOneDecimal(180) == "18.0"
    ensures FormatOneDecimal(190) == "19.0"
    ensures FormatOneDecimal(200) == "20.0"
    ensures FormatOneDecimal(210) == "21.0"
    ensures FormatOneDecimal(220) == "22.0"
    ensures FormatOneDecimal(230) == "23.0"
    ensures FormatOneDecimal(240) == "24.0"
  {
    assert DigitChar(0) == '0' && DigitChar(1) == '1' && DigitChar(2) == '2' && DigitChar(3) == '3' && DigitChar(4) == '4';
    assert DigitChar(5) == '5' && DigitChar(6) == '6' && DigitChar(7) == '7' && DigitChar(8) == '8' && DigitChar(9) == '9';
    FormatWholeCode(6);
    FormatWholeCode(7);
    FormatWholeCode(8);
    FormatWholeCode(10);
    FormatWholeCode(11);
    FormatWholeCode(12);
    FormatWholeCode(13);
    FormatWholeCode(14);
    FormatWholeCode(15);
    FormatWholeCode(16);
    FormatWholeCode(17);
    FormatWholeCode(18);
    FormatWholeCode(19);
    FormatWholeCode(20);
    FormatWholeCode(21);
    FormatWholeCode(22);
    FormatWholeCode(23);
    FormatWholeCode(24);
  }

  /** Every known code, formatted, is a key of charger_type_map. */
  lemma KnownCodeIsKey(c: int)
    requires c in KnownCodes
    ensures FormatOneDecimal(c) in ChargerTypeMap
  {
    FormattedKnownCodes();
  }

  /** The 18 keys of charger_type_map, one by one. */
  lemma KeysListed(k: string)
    requires k in ChargerTypeMap
    ensures k == "6.0" || k == "7.0" || k == "8.0" || k == "10.0" || k == "11.0" || k == "12.0"
      || k == "13.0" || k == "14.0" || k == "15.0" || k == "16.0" || k == "17.0" || k == "18.0"
      || k == "19.0" || k == "20.0" || k == "21.0" || k == "22.0" || k == "23.0" || k == "24.0"
  {
  }

  /** Every key of charger_type_map is a formatted known code. */
  lemma KeyIsKnownCode(k: string)
    requires k in ChargerTypeMap
    ensures exists c | c in KnownCodes :: FormatOneDecimal(c) == k
  {
    KeysListed(k);
    FormattedKnownCodes();
    if k == "6.0" {
      assert FormatOneDecimal(60) == k;
    } else if k == "7.0" {
      assert FormatOneDecimal(70) == k;
    } else if k == "8.0" {
      assert FormatOneDecimal(80) == k;
    } else if k == "10.0" {
      assert FormatOneDecimal(100) == k;
    } else if k == "11.0" {
      assert FormatOneDecimal(110) == k;
    } else if k == "12.0" {
      assert FormatOneDecimal(120) == k;
    } else if k == "13.0" {
      assert FormatOneDecimal(130) == k;
    } else if k == "14.0" {
      assert FormatOneDecimal(140) == k;
    } else if k == "15.0" {
      assert FormatOneDecimal(150) == k;
    } else if k == "16.0" {
      assert FormatOneDecimal(160) == k;
    } else if k == "17.0" {
      assert FormatOneDecimal(170) == k;
    } else if k == "18.0" {
      assert FormatOneDecimal(180) == k;
    } else if k == "19.0" {
      assert FormatOneDecimal(190) == k;
    } else if k == "20.0" {
      assert FormatOneDecimal(200) == k;
    } else if k == "21.0" {
      assert FormatOneDecimal(210) == k;
    } else if k == "22.0" {
      assert FormatOneDecimal(220) == k;
    } else if k == "23.0" {
      assert FormatOneDecimal(230) == k;
    } else if k == "24.0" {
      assert FormatOneDecimal(240) == k;
    }
  }

  /** The keys of charger_type_map are exactly the formatted known codes. */
  lemma MapKeysAreKnownCodes()
    ensures ChargerTypeMap.Keys == set c | c in KnownCodes :: FormatOneDecimal(c)
  {
    var image := set c | c in KnownCodes :: FormatOneDecimal(c);
    forall k | k in image ensures k in ChargerTypeMap {
      var c :| c in KnownCodes && FormatOneDecimal(c) == k;
      KnownCodeIsKey(c);
    }
    forall k | k in ChargerTypeMap ensures k in image {
      KeyIsKnownCode(k);
    }
  }

  /** A code gets a real label exactly when it is one of the 18 known codes,
      and "Unknown" otherwise. */
  lemma ChargerTypeNameOfCode(tenths: int)
    ensures ChargerTypeName(FormatOneDecimal(tenths)) != "Unknown" <==> tenths in KnownCodes
    ensures tenths in KnownCodes ==> ChargerTypeName(FormatOneDecimal(tenths)) == ChargerTypeMap[FormatOneDecimal(tenths)]
  {
    var s := FormatOneDecimal(tenths);
    if tenths in KnownCodes {
      KnownCodeIsKey(tenths);
      NoUnknownLabel(s);
    } else if s in ChargerTypeMap {
      KeyIsKnownCode(s);
      var c :| c in KnownCodes && FormatOneDecimal(c) == s;
      FormatRoundTrip(tenths);
      FormatRoundTrip(c);
    }
  }

  /** No label of charger_type_map is "Unknown". */
  lemma NoUnknownLabel(k: string)
    requires k in ChargerTypeMap
    ensures ChargerTypeMap[k] != "Unknown"
  {
  }

  /** 6.0 is a slow AC charger; 99.0 is not in the map. */
  lemma ChargerTypeNameExamples()
    ensures ChargerTypeName(FormatOneDecimal(60)) == "Level 1 AC (Slow Charger)"
    ensures ChargerTypeName(FormatOneDecimal(990)) == "Unknown"
  {
    FormatWholeCode(6);
    assert FormatOneDecimal(60) == "6.0";
    FormatWholeCode(99);
    ChargerTypeNameOfCode(990);
  }
}
