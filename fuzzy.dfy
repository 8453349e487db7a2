/** The two rapidfuzz entry points the normaliser uses: `fuzz.ratio`, the
    Indel similarity scaled to 0..100, and `process.extractOne`, the
    brute-force best match over a list of choices. Scores are exact reals,
    not floats. */
module Fuzzy {
  import opened Wrappers

  function Max(x: nat, y: nat): nat {
    if x < y then y else x
  }

  /** Length of a longest common subsequence of `a` and `b`. */
  function Lcs(a: string, b: string): (n: nat)
    ensures n <= |a| && n <= |b|
    decreases |a| + |b|
  {
    if a == [] || b == [] then 0
    else if a[0] == b[0] then 1 + Lcs(a[1..], b[1..])
    else Max(Lcs(a[1..], b), Lcs(a, b[1..]))
  }

  /** The Indel distance: the fewest insertions and deletions that turn
      `a` into `b`, i.e. every character outside a longest common
      subsequence is deleted from one side or inserted from the other. */
  function IndelDistance(a: string, b: string): (d: nat)
    ensures d <= |a| + |b|
  {
    |a| + |b| - 2 * Lcs(a, b)
  }

  /** fuzz.ratio: 100 * (1 - distance / (|a| + |b|)), and 100 for two empty
      strings. */
  function Ratio(a: string, b: string): (score: real)
    ensures 0.0 <= score <= 100.0
  {
    var total := |a| + |b|;
    if total == 0 then 100.0
    else
      var same := (total - IndelDistance(a, b)) as real;
      FractionBounds(same, total as real);
      100.0 * (same / total as real)
  }

  lemma FractionBounds(x: real, t: real)
    requires 0.0 < t && 0.0 <= x <= t
    ensures 0.0 <= x / t <= 1.0
    ensures x / t == 1.0 ==> x == t
  {
    var q := x / t;
    assert q * t == x;
  }

  lemma FractionAtLeast(x: real, t: real, k: real)
    requires 0.0 < t && x >= k * t
    ensures x / t >= k
  {
    var q := x / t;
    assert q * t == x;
  }

  lemma {:induction false} LcsSelf(a: string)
    ensures Lcs(a, a) == |a|
    decreases |a|
  {
    if a != [] {
      LcsSelf(a[1..]);
    }
  }

  /** A common subsequence as long as both strings makes them equal. */
  lemma {:induction false} LcsFull(a: string, b: string)
    requires Lcs(a, b) == |a| == |b|
    ensures a == b
    decreases |a|
  {
    if a != [] {
      if a[0] == b[0] {
        LcsFull(a[1..], b[1..]);
        assert a == [a[0]] + a[1..] && b == [b[0]] + b[1..];
      } else {
        assert Lcs(a[1..], b) <= |a| - 1 && Lcs(a, b[1..]) <= |b| - 1;
        assert false;
      }
    }
  }

  lemma {:induction false} LcsSymmetric(a: string, b: string)
    ensures Lcs(a, b) == Lcs(b, a)
    decreases |a| + |b|
  {
    if a != [] && b != [] {
      if a[0] == b[0] {
        LcsSymmetric(a[1..], b[1..]);
      } else {
        LcsSymmetric(a[1..], b);
        LcsSymmetric(a, b[1..]);
      }
    }
  }

  /** The score is symmetric in its two arguments. */
  lemma RatioSymmetric(a: string, b: string)
    ensures Ratio(a, b) == Ratio(b, a)
  {
    LcsSymmetric(a, b);
  }

  /** Identical strings score exactly 100 ... */
  lemma RatioSelf(a: string)
    ensures Ratio(a, a) == 100.0
  {
    LcsSelf(a);
  }

  /** ... and only identical strings do. */
  lemma RatioHundred(a: string, b: string)
    requires Ratio(a, b) == 100.0
    ensures a == b
  {
    var total := |a| + |b|;
    if total > 0 {
      var same := (total - IndelDistance(a, b)) as real;
      FractionBounds(same, total as real);
      assert same == total as real;
      LcsFull(a, b);
    }
  }

  /** `a` occurs in `b` as a subsequence, matched greedily from the left. */
  predicate IsSubsequence(a: string, b: string)
    decreases |b|
  {
    if a == [] then true
    else if b == [] then false
    else if a[0] == b[0] then IsSubsequence(a[1..], b[1..])
    else IsSubsequence(a, b[1..])
  }

  lemma {:induction false} SubsequenceLcs(a: string, b: string)
    requires IsSubsequence(a, b)
    ensures Lcs(a, b) == |a|
    decreases |b|
  {
    if a != [] {
      if a[0] == b[0] {
        SubsequenceLcs(a[1..], b[1..]);
      } else {
        SubsequenceLcs(a, b[1..]);
      }
    }
  }

  lemma {:induction false} SubsequenceSelf(s: string)
    ensures IsSubsequence(s, s)
    decreases |s|
  {
    if s != [] {
      SubsequenceSelf(s[1..]);
    }
  }

  /** Deleting one character of `s` leaves a subsequence of `s`. */
  lemma {:induction false} DeletionIsSubsequence(s: string, i: nat)
    requires i < |s|
    ensures IsSubsequence(s[..i] + s[i + 1..], s)
    decreases |s|
  {
    var q := s[..i] + s[i + 1..];
    if i > 0 {
      DeletionIsSubsequence(s[1..], i - 1);
      assert q[0] == s[0];
      assert q[1..] == s[1..][..i - 1] + s[1..][i..];
    } else if |s| > 1 {
      assert q == s[1..];
      if s[1] == s[0] {
        DeletionIsSubsequence(s[1..], 0);
        assert q[1..] == s[1..][..0] + s[1..][1..];
      } else {
        SubsequenceSelf(s[1..]);
      }
    }
  }

  /** One deleted character from a word of three or more characters still
      scores at least 80 against the word. */
  lemma RatioAfterDeletion(s: string, i: nat)
    requires 3 <= |s| && i < |s|
    ensures Ratio(s[..i] + s[i + 1..], s) >= 80.0
  {
    var q := s[..i] + s[i + 1..];
    DeletionIsSubsequence(s, i);
    SubsequenceLcs(q, s);
    var total := |q| + |s|;
    var same := (total - IndelDistance(q, s)) as real;
    assert same == 2.0 * (|s| - 1) as real;
    FractionAtLeast(same, total as real, 0.8);
  }

  /** Lcs bounds every common subsequence: a string that occurs in both
      `a` and `b` is no longer than their longest common subsequence. */
  lemma {:induction false} LcsCommonBound(x: string, a: string, b: string)
    requires IsSubsequence(x, a) && IsSubsequence(x, b)
    ensures |x| <= Lcs(a, b)
    decreases |a| + |b|
  {
    if x != [] {
      if x[0] == a[0] && x[0] == b[0] {
        LcsCommonBound(x[1..], a[1..], b[1..]);
      } else if a[0] == b[0] {
        LcsCommonBound(x, a[1..], b[1..]);
      } else if x[0] != a[0] {
        LcsCommonBound(x, a[1..], b);
      } else {
        LcsCommonBound(x, a, b[1..]);
      }
    }
  }

  /** A subsequence of the tail of `s` is a subsequence of `s`. */
  lemma {:induction false} SubsequenceOfTail(x: string, s: string)
    requires s != [] && IsSubsequence(x, s[1..])
    ensures IsSubsequence(x, s)
    decreases |s|, 0
  {
    if x != [] && x[0] == s[0] {
      SubsequenceDropFirst(x, s[1..]);
    }
  }

  /** Dropping the first character of a subsequence leaves a subsequence. */
  lemma {:induction false} SubsequenceDropFirst(x: string, s: string)
    requires x != [] && IsSubsequence(x, s)
    ensures IsSubsequence(x[1..], s)
    decreases |s|, 1
  {
    if x[0] == s[0] {
      SubsequenceOfTail(x[1..], s);
    } else {
      SubsequenceDropFirst(x, s[1..]);
      SubsequenceOfTail(x[1..], s);
    }
  }

  /** Lcs is attained: some common subsequence of `a` and `b` has exactly
      Lcs(a, b) characters. With LcsCommonBound, Lcs is the length of a
      longest common subsequence. */
  lemma {:induction false} LcsAttained(a: string, b: string) returns (x: string)
    ensures IsSubsequence(x, a) && IsSubsequence(x, b) && |x| == Lcs(a, b)
    decreases |a| + |b|
  {
    if a == [] || b == [] {
      x := [];
    } else if a[0] == b[0] {
      var y := LcsAttained(a[1..], b[1..]);
      x := [a[0]] + y;
      assert x[0] == a[0] && x[1..] == y;
    } else if Lcs(a[1..], b) >= Lcs(a, b[1..]) {
      x := LcsAttained(a[1..], b);
      SubsequenceOfTail(x, a);
    } else {
      x := LcsAttained(a, b[1..]);
      SubsequenceOfTail(x, b);
    }
  }

  /** One inserted character in a word of two or more characters still
      scores at least 80 against the word. */
  lemma RatioAfterInsertion(s: string, i: nat, ch: char)
    requires 2 <= |s| && i <= |s|
    ensures Ratio(s[..i] + [ch] + s[i..], s) >= 80.0
  {
    var q := s[..i] + [ch] + s[i..];
    assert q[..i] + q[i + 1..] == s;
    RatioAfterDeletion(q, i);
    RatioSymmetric(s, q);
  }

  /** One substituted character in a word of five or more characters still
      scores at least 80 against the word: deleting the changed position
      from either leaves a common subsequence of all but one character. */
  lemma RatioAfterSubstitution(s: string, i: nat, ch: char)
    requires 5 <= |s| && i < |s|
    ensures Ratio(s[..i] + [ch] + s[i + 1..], s) >= 80.0
  {
    var q := s[..i] + [ch] + s[i + 1..];
    var x := s[..i] + s[i + 1..];
    DeletionIsSubsequence(s, i);
    assert q[..i] + q[i + 1..] == x;
    DeletionIsSubsequence(q, i);
    LcsCommonBound(x, q, s);
    var total := |q| + |s|;
    var same := (total - IndelDistance(q, s)) as real;
    assert same >= 2.0 * (|s| - 1) as real;
    FractionAtLeast(same, total as real, 0.8);
  }

  /** A result of extractOne: the choice, its score and its position. */
  datatype Match = Match(choice: string, score: real, index: nat)

  /** `m` is the best of `choices[..n]` for `query`, and the first of the
      choices that reach its score. */
  ghost predicate IsBestOf(query: string, choices: seq<string>, n: nat, m: Match) {
    && m.index < n <= |choices|
    && m.choice == choices[m.index]
    && m.score == Ratio(query, m.choice)
    && (forall j | 0 <= j < n :: Ratio(query, choices[j]) <= m.score)
    && (forall j | 0 <= j < m.index :: Ratio(query, choices[j]) < m.score)
  }

  /** The scan of extractOne from position `i`, `best` being the best match
      so far: a later choice replaces it only with a strictly higher
      score, and the scan stops early once a score of 100 is reached. */
  function ScanFrom(query: string, choices: seq<string>, i: nat, best: Match): (m: Match)
    requires 0 < i <= |choices| && IsBestOf(query, choices, i, best)
    ensures IsBestOf(query, choices, |choices|, m)
    decreases |choices| - i
  {
    if i == |choices| then best
    else if best.score == 100.0 then
      PerfectIsBest(query, choices, i, best);
      best
    else
      var score := Ratio(query, choices[i]);
      var next := if score > best.score then Match(choices[i], score, i) else best;
      ScanStep(query, choices, i, best);
      ScanFrom(query, choices, i + 1, next)
  }

  /** A match scoring 100 is not beaten by any later choice. */
  lemma PerfectIsBest(query: string, choices: seq<string>, i: nat, best: Match)
    requires 0 < i <= |choices| && IsBestOf(query, choices, i, best) && best.score == 100.0
    ensures IsBestOf(query, choices, |choices|, best)
  {
  }

  /** Looking at choice `i` keeps the best match of the choices seen so far. */
  lemma ScanStep(query: string, choices: seq<string>, i: nat, best: Match)
    requires 0 < i < |choices| && IsBestOf(query, choices, i, best)
    ensures IsBestOf(query, choices, i + 1,
      if Ratio(query, choices[i]) > best.score then Match(choices[i], Ratio(query, choices[i]), i) else best)
  {
  }

  /** process.extractOne(query, choices, scorer=fuzz.ratio): no result for
      no choices, otherwise the first choice with the highest score. */
  function ExtractOne(query: string, choices: seq<string>): (r: Option<Match>)
    ensures r.None? <==> choices == []
    ensures r.Some? ==> IsBestOf(query, choices, |choices|, r.value)
  {
    if choices == [] then None
    else Some(ScanFrom(query, choices, 1, Match(choices[0], Ratio(query, choices[0]), 0)))
  }
}
