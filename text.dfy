/** The `.str.lower().str.strip()` normalisation that both scripts apply to
    every state column, restricted to ASCII: `lower` maps 'A'..'Z' to
    'a'..'z', `strip` removes Python's ASCII whitespace from both ends. */
module Text {
  import opened Wrappers

  /** The ASCII characters Python's str.strip() removes: \t \n \v \f \r,
      the information separators \x1c..\x1f, and the space. */
  predicate IsWhitespace(c: char) {
    9 <= c as int <= 13 || 28 <= c as int <= 32
  }

  predicate IsUpper(c: char) {
    'A' <= c <= 'Z'
  }

  predicate AllWhitespace(s: string) {
    forall i | 0 <= i < |s| :: IsWhitespace(s[i])
  }

  predicate NoUpper(s: string) {
    forall i | 0 <= i < |s| :: !IsUpper(s[i])
  }

  function LowerChar(c: char): char {
    if IsUpper(c) then (c as int + 32) as char else c
  }

  /** str.lower on ASCII: same length, no upper-case letter left, every
      other character (whitespace included) kept as it is. */
  function Lower(s: string): (r: string)
    ensures |r| == |s| && NoUpper(r)
    ensures forall i | 0 <= i < |s| :: !IsUpper(s[i]) ==> r[i] == s[i]
    ensures forall i | 0 <= i < |s| :: IsUpper(s[i]) ==> r[i] as int == s[i] as int + 32
  {
    seq(|s|, i requires 0 <= i < |s| => LowerChar(s[i]))
  }

  /** Number of whitespace characters at the front of `s`. */
  function LeadingWhitespace(s: string): (n: nat)
    ensures n <= |s| && AllWhitespace(s[..n])
    ensures n < |s| ==> !IsWhitespace(s[n])
  {
    if s == [] || !IsWhitespace(s[0]) then 0
    else
      var n := 1 + LeadingWhitespace(s[1..]);
      assert s[..n] == [s[0]] + s[1..][..n - 1];
      n
  }

  /** Number of whitespace characters at the end of `s`. */
  function TrailingWhitespace(s: string): (n: nat)
    ensures n <= |s| && AllWhitespace(s[|s| - n..])
    ensures n < |s| ==> !IsWhitespace(s[|s| - 1 - n])
  {
    if s == [] || !IsWhitespace(s[|s| - 1]) then 0
    else
      var init := s[..|s| - 1];
      var n := 1 + TrailingWhitespace(init);
      assert s[|s| - n..] == init[|init| - (n - 1)..] + [s[|s| - 1]];
      n
  }

  /** str.strip(): `s` without the whitespace at both ends; the result
      neither starts nor ends with whitespace. */
  function Strip(s: string): (r: string)
    ensures r == [] || (!IsWhitespace(r[0]) && !IsWhitespace(r[|r| - 1]))
  {
    var lead := LeadingWhitespace(s);
    var trail := TrailingWhitespace(s[lead..]);
    assert trail < |s| - lead ==> s[|s| - 1 - trail] == s[lead..][|s| - lead - 1 - trail];
    s[lead..|s| - trail]
  }

  /** What strip keeps is the slice of `s` after its leading whitespace. */
  lemma StripIsSlice(s: string)
    ensures LeadingWhitespace(s) + |Strip(s)| <= |s|
    ensures Strip(s) == s[LeadingWhitespace(s)..LeadingWhitespace(s) + |Strip(s)|]
  {
  }

  /** What strip cuts off, before and after what it keeps, is whitespace only. */
  lemma StripCutsWhitespace(s: string)
    ensures AllWhitespace(s[..LeadingWhitespace(s)])
    ensures LeadingWhitespace(s) + |Strip(s)| <= |s|
    ensures AllWhitespace(s[LeadingWhitespace(s) + |Strip(s)|..])
  {
    var lead := LeadingWhitespace(s);
    var tail := s[lead..];
    var trail := TrailingWhitespace(tail);
    assert s[|s| - trail..] == tail[|tail| - trail..];
  }

  /** The per-cell `.str.lower().str.strip()`; a missing cell stays missing. */
  function LowerStrip(x: Option<string>): (r: Option<string>)
    ensures r.None? <==> x.None?
    ensures r.Some? ==> NoUpper(r.value)
    ensures r.Some? ==> r.value == [] || (!IsWhitespace(r.value[0]) && !IsWhitespace(r.value[|r.value| - 1]))
  {
    match x
    case None => None
    case Some(s) =>
      StripNoUpper(Lower(s));
      Some(Strip(Lower(s)))
  }

  /** A string already free of surrounding whitespace is left alone by strip. */
  lemma StripStripped(s: string)
    requires s == [] || (!IsWhitespace(s[0]) && !IsWhitespace(s[|s| - 1]))
    ensures Strip(s) == s
  {
  }

  lemma LowerOfLower(s: string)
    requires NoUpper(s)
    ensures Lower(s) == s
  {
  }

  /** Strip keeps a string free of upper-case letters. */
  lemma StripNoUpper(s: string)
    requires NoUpper(s)
    ensures NoUpper(Strip(s))
  {
    StripIsSlice(s);
    var i := LeadingWhitespace(s);
    var t := Strip(s);
    forall k | 0 <= k < |t| ensures !IsUpper(t[k]) {
      assert t[k] == s[i + k];
    }
  }

  /** lower/strip is idempotent: a second pass over a standardised state
      changes nothing. */
  lemma LowerStripIdempotent(x: Option<string>)
    ensures LowerStrip(LowerStrip(x)) == LowerStrip(x)
  {
    if x.Some? {
      var t := Strip(Lower(x.value));
      StripNoUpper(Lower(x.value));
      LowerOfLower(t);
      StripStripped(t);
    }
  }

  /** Lower-casing a capitalised word lower-cases its first letter only. */
  lemma LowerCapitalized(c: char, rest: string)
    requires IsUpper(c) && NoUpper(rest)
    ensures Lower([c] + rest) == [LowerChar(c)] + rest
  {
  }

  /** Strip removes one trailing blank from a stripped word. */
  lemma StripTrailingBlank(s: string)
    requires s != [] && !IsWhitespace(s[0]) && !IsWhitespace(s[|s| - 1])
    ensures Strip(s + " ") == s
  {
    var t := s + " ";
    assert LeadingWhitespace(t) == 0;
    assert t[..|t| - 1] == s;
    assert TrailingWhitespace(t) == 1;
    assert t[0..][..|t| - 1] == s;
  }

  /** A capitalised word, with or without a trailing blank, standardises
      to the word with its first letter lower-cased. */
  lemma LowerStripCapitalized(c: char, rest: string)
    requires IsUpper(c) && rest != [] && NoUpper(rest) && !IsWhitespace(rest[|rest| - 1])
    ensures LowerStrip(Some([c] + rest)) == Some([LowerChar(c)] + rest)
    ensures LowerStrip(Some([c] + rest + " ")) == Some([LowerChar(c)] + rest)
  {
    var w := [LowerChar(c)] + rest;
    LowerCapitalized(c, rest);
    LowerCapitalized(c, rest + " ");
    assert [c] + rest + " " == [c] + (rest + " ");
    assert [LowerChar(c)] + (rest + " ") == w + " ";
    StripStripped(w);
    StripTrailingBlank(w);
  }

  /** Case and a trailing blank are dropped; the letters stay. */
  lemma LowerStripMaharashtra(plain: string)
    requires plain == "Maharashtra"
    ensures LowerStrip(Some(plain)) == Some("maharashtra")
  {
    var w := "maharashtra";
    assert Lower(plain) == w;
    StripStripped(w);
  }

  lemma LowerStripMaharashtraPadded(padded: string)
    requires padded == "Maharashtra "
    ensures LowerStrip(Some(padded)) == Some("maharashtra")
  {
    var w := "maharashtra";
    assert Lower(padded) == w + " ";
    StripTrailingBlank(w);
  }

  lemma LowerStripDelhi(plain: string)
    requires plain == "Delhi"
    ensures LowerStrip(Some(plain)) == Some("delhi")
  {
    var w := "delhi";
    assert Lower(plain) == w;
    StripStripped(w);
  }

  lemma LowerStripLowerMaharashtra(s: string)
    requires s == "maharashtra"
    ensures LowerStrip(Some(s)) == Some(s)
  {
    LowerStripStandard(s);
  }

  lemma LowerStripMisspelt(s: string)
    requires s == "maharastra"
    ensures LowerStrip(Some(s)) == Some(s)
  {
    LowerStripStandard(s);
  }

  lemma LowerStripStandard(s: string)
    requires NoUpper(s) && (s == [] || (!IsWhitespace(s[0]) && !IsWhitespace(s[|s| - 1])))
    ensures LowerStrip(Some(s)) == Some(s)
  {
    LowerOfLower(s);
    StripStripped(s);
  }

  // ---------------------------------------------------------------------
  // Ordering

  /** Python's `<` on str: the first differing character decides, by code
      point, and a proper prefix comes first. */
  predicate StringLess(a: string, b: string)
    decreases |a|
  {
    if b == [] then false
    else if a == [] then true
    else if a[0] != b[0] then a[0] < b[0]
    else StringLess(a[1..], b[1..])
  }

  lemma {:induction false} StringLessIrreflexive(a: string)
    ensures !StringLess(a, a)
    decreases |a|
  {
    if a != [] {
      StringLessIrreflexive(a[1..]);
    }
  }

  lemma {:induction false} StringLessTransitive(a: string, b: string, c: string)
    requires StringLess(a, b) && StringLess(b, c)
    ensures StringLess(a, c)
    decreases |a|
  {
    if a != [] && a[0] == b[0] && b[0] == c[0] {
      StringLessTransitive(a[1..], b[1..], c[1..]);
    }
  }

  lemma {:induction false} StringLessTotal(a: string, b: string)
    requires a != b
    ensures StringLess(a, b) || StringLess(b, a)
    decreases |a|
  {
    if a != [] && b != [] && a[0] == b[0] {
      assert a == [a[0]] + a[1..] && b == [b[0]] + b[1..];
      StringLessTotal(a[1..], b[1..]);
    }
  }

  /** Two strings that agree on their first `k` characters and differ at
      position `k` are ordered by that character. */
  lemma {:induction false} StringLessAt(a: string, b: string, k: nat)
    requires k < |a| && k < |b| && a[..k] == b[..k] && a[k] < b[k]
    ensures StringLess(a, b)
    decreases k
  {
    if k > 0 {
      assert a[0] == a[..k][0] == b[..k][0] == b[0];
      assert a[1..][..k - 1] == a[..k][1..] == b[..k][1..] == b[1..][..k - 1];
      StringLessAt(a[1..], b[1..], k - 1);
    }
  }
}
