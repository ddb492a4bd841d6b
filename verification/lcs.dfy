/**
  The similarity scorer of the proofreading advice engine: the longest
  common subsequence (LCS) of two paragraph texts, computed by the
  dynamic-programming table and backtrack of `_calculate_lcs_and_reconstruct`,
  and the score `2L / (n + m)` of `get_alignment_details`, kept as an exact
  fraction instead of a float.
 */
module Lcs {
  import opened Strings

  // ---------------------------------------------------------------------
  // Specification of the DP table
  // ---------------------------------------------------------------------

  /** The value the table holds at `dp[|a|][|b|]` when `a` and `b` are
      prefixes of the two inputs: the recurrence of the nested loops
      (match: diagonal + 1, mismatch: the larger of up and left). */
  function LcsLength(a: string, b: string): (r: nat)
    ensures r <= |a| && r <= |b|
    decreases |a| + |b|
  {
    if |a| == 0 || |b| == 0 then 0
    else if a[|a| - 1] == b[|b| - 1] then LcsLength(a[..|a| - 1], b[..|b| - 1]) + 1
    else Max(LcsLength(a[..|a| - 1], b), LcsLength(a, b[..|b| - 1]))
  }

  /** Removing the last character of either string lowers the LCS length by
      at most one and never raises it. */
  lemma {:induction false} LcsLengthDropLast(a: string, b: string)
    ensures a != [] ==> LcsLength(a[..|a| - 1], b) <= LcsLength(a, b) <= LcsLength(a[..|a| - 1], b) + 1
    ensures b != [] ==> LcsLength(a, b[..|b| - 1]) <= LcsLength(a, b) <= LcsLength(a, b[..|b| - 1]) + 1
    decreases |a| + |b|
  {
    if a != [] && b != [] {
      var a', b' := a[..|a| - 1], b[..|b| - 1];
      LcsLengthDropLast(a', b);
      LcsLengthDropLast(a, b');
    }
  }

  /** The recurrence is symmetric, so the LCS length does not depend on the
      order of the two strings. */
  lemma {:induction false} LcsLengthSymmetric(a: string, b: string)
    ensures LcsLength(a, b) == LcsLength(b, a)
    decreases |a| + |b|
  {
    if |a| != 0 && |b| != 0 {
      var a', b' := a[..|a| - 1], b[..|b| - 1];
      LcsLengthSymmetric(a', b');
      LcsLengthSymmetric(a', b);
      LcsLengthSymmetric(a, b');
    }
  }

  /** A string's LCS with itself is the whole string. */
  lemma {:induction false} LcsLengthOfSelf(a: string)
    ensures LcsLength(a, a) == |a|
  {
    if a != [] {
      LcsLengthOfSelf(a[..|a| - 1]);
    }
  }

  /** No common subsequence of `a` and `b` is longer than `LcsLength(a, b)`:
      the table really computes the LONGEST common subsequence. */
  lemma {:induction false} LcsLengthIsLongest(c: string, a: string, b: string)
    requires IsSubsequence(c, a) && IsSubsequence(c, b)
    ensures |c| <= LcsLength(a, b)
    decreases |a| + |b|
  {
    if c != [] {
      var a', b', c' := a[..|a| - 1], b[..|b| - 1], c[..|c| - 1];
      LcsLengthDropLast(a, b);
      if IsSubsequence(c, a') {
        LcsLengthIsLongest(c, a', b);
      } else if IsSubsequence(c, b') {
        LcsLengthIsLongest(c, a, b');
      } else {
        LcsLengthIsLongest(c', a', b');
      }
    }
  }

  // ---------------------------------------------------------------------
  // _calculate_lcs_and_reconstruct
  // ---------------------------------------------------------------------

  /** The table is filled: `dp[x, y]` is the LCS length of the prefixes
      `s1[..x]` and `s2[..y]`. */
  ghost predicate TableFilled(dp: array2<nat>, s1: string, s2: string)
    reads dp
  {
    RowsFilled(dp, s1, s2, |s1| + 1)
  }

  /** Rows `0 .. i - 1` of the table are filled. */
  ghost predicate RowsFilled(dp: array2<nat>, s1: string, s2: string, i: nat)
    reads dp
  {
    dp.Length0 == |s1| + 1 && dp.Length1 == |s2| + 1 && i <= |s1| + 1 &&
    forall x, y :: 0 <= x < i && 0 <= y <= |s2| ==> dp[x, y] == LcsLength(s1[..x], s2[..y])
  }

  /** The nested `for` loops: row 0 and column 0 stay 0, every other cell
      follows the recurrence from the cells above, to the left and diagonal. */
  method FillTable(s1: string, s2: string) returns (dp: array2<nat>)
    ensures fresh(dp) && TableFilled(dp, s1, s2)
  {
    var n, m := |s1|, |s2|;
    dp := new nat[n + 1, m + 1]((_, _) => 0);
    forall y | 0 <= y <= m ensures dp[0, y] == LcsLength(s1[..0], s2[..y]) {
    }
    for i := 1 to n + 1
      invariant RowsFilled(dp, s1, s2, i)
      invariant forall x :: i <= x <= n ==> dp[x, 0] == 0
    {
      FillRow(dp, s1, s2, i);
    }
  }

  /** The inner loop for row `i`, which reads only the row above. */
  method FillRow(dp: array2<nat>, s1: string, s2: string, i: nat)
    requires 0 < i <= |s1| && RowsFilled(dp, s1, s2, i) && dp[i, 0] == 0
    modifies dp
    ensures RowsFilled(dp, s1, s2, i + 1)
    ensures forall x, y :: 0 <= x < dp.Length0 && 0 <= y < dp.Length1 && x != i ==> dp[x, y] == old(dp[x, y])
  {
    var m := |s2|;
    for j := 1 to m + 1
      invariant RowsFilled(dp, s1, s2, i)
      invariant forall y :: 0 <= y < j ==> dp[i, y] == LcsLength(s1[..i], s2[..y])
      invariant forall x, y :: 0 <= x < dp.Length0 && 0 <= y < dp.Length1 && x != i ==> dp[x, y] == old(dp[x, y])
    {
      LcsLengthStep(s1, s2, i, j);
      if s1[i - 1] == s2[j - 1] {
        dp[i, j] := dp[i - 1, j - 1] + 1;
      } else {
        dp[i, j] := Max(dp[i - 1, j], dp[i, j - 1]);
      }
    }
  }

  /** The `while i > 0 and j > 0` walk back from `dp[n][m]`: a matching pair
      of characters is appended and both indices step back; otherwise the
      index whose neighbour holds the strictly larger value steps back
      (`j` on a tie).  Returns the characters in the order appended. */
  method Backtrack(s1: string, s2: string, dp: array2<nat>) returns (lcsChars: string)
    requires TableFilled(dp, s1, s2)
    ensures |lcsChars| == LcsLength(s1, s2)
    ensures IsSubsequence(Reverse(lcsChars), s1) && IsSubsequence(Reverse(lcsChars), s2)
  {
    var n, m := |s1|, |s2|;
    assert s1[..n] == s1 && s2[..m] == s2;
    assert dp[n, m] == LcsLength(s1, s2);
    lcsChars := [];
    var p, q := n, m;
    while p > 0 && q > 0
      invariant 0 <= p <= n && 0 <= q <= m
      invariant |lcsChars| + dp[p, q] == dp[n, m]
      invariant IsSubsequence(Reverse(lcsChars), s1[p..]) && IsSubsequence(Reverse(lcsChars), s2[q..])
      decreases p + q
    {
      p, q, lcsChars := BacktrackStep(s1, s2, dp, p, q, lcsChars);
    }
    // Row 0 and column 0 of the table hold 0.
    assert dp[p, q] == 0 by {
      assert s1[..p] == [] || s2[..q] == [];
    }
    // Whatever is left unscanned at the front of either string can only be skipped.
    BacktrackFinish(s1, p, lcsChars);
    BacktrackFinish(s2, q, lcsChars);
  }

  /** One turn of the walk back. */
  method BacktrackStep(s1: string, s2: string, dp: array2<nat>, p: nat, q: nat, chars: string)
    returns (p': nat, q': nat, chars': string)
    requires TableFilled(dp, s1, s2) && 0 < p <= |s1| && 0 < q <= |s2|
    requires IsSubsequence(Reverse(chars), s1[p..]) && IsSubsequence(Reverse(chars), s2[q..])
    ensures p' <= p && q' <= q && p' + q' < p + q
    ensures |chars'| + dp[p', q'] == |chars| + dp[p, q]
    ensures IsSubsequence(Reverse(chars'), s1[p'..]) && IsSubsequence(Reverse(chars'), s2[q'..])
  {
    TableStep(dp, s1, s2, p, q);
    if s1[p - 1] == s2[q - 1] {
      chars' := chars + [s1[p - 1]];
      p', q' := p - 1, q - 1;
    } else if dp[p - 1, q] > dp[p, q - 1] {
      chars', p', q' := chars, p - 1, q;
    } else {
      chars', p', q' := chars, p, q - 1;
    }
    BacktrackMove(s1, s2, p, q, chars, p', q', chars');
  }

  /** Each of the three moves keeps the reversed characters a common
      subsequence of the remaining suffixes. */
  lemma BacktrackMove(s1: string, s2: string, p: nat, q: nat, chars: string, p': nat, q': nat, chars': string)
    requires 0 < p <= |s1| && 0 < q <= |s2|
    requires IsSubsequence(Reverse(chars), s1[p..]) && IsSubsequence(Reverse(chars), s2[q..])
    requires (s1[p - 1] == s2[q - 1] && p' == p - 1 && q' == q - 1 && chars' == chars + [s1[p - 1]]) ||
             (p' == p - 1 && q' == q && chars' == chars) ||
             (p' == p && q' == q - 1 && chars' == chars)
    ensures IsSubsequence(Reverse(chars'), s1[p'..]) && IsSubsequence(Reverse(chars'), s2[q'..])
  {
    if p' == p - 1 && q' == q - 1 {
      BacktrackKeep(s1, p, chars);
      BacktrackKeep(s2, q, chars);
    } else if p' == p - 1 {
      BacktrackSkip(s1, p, chars);
    } else {
      BacktrackSkip(s2, q, chars);
    }
  }

  /** One cell of a filled table against its neighbours. */
  lemma TableStep(dp: array2<nat>, s1: string, s2: string, p: nat, q: nat)
    requires TableFilled(dp, s1, s2) && 0 < p <= |s1| && 0 < q <= |s2|
    ensures s1[p - 1] == s2[q - 1] ==> dp[p, q] == dp[p - 1, q - 1] + 1
    ensures s1[p - 1] != s2[q - 1] ==> dp[p, q] == Max(dp[p - 1, q], dp[p, q - 1])
  {
    LcsLengthStep(s1, s2, p, q);
  }

  /** One step of the recurrence on the prefixes ending at `p` and `q`. */
  lemma LcsLengthStep(s1: string, s2: string, p: nat, q: nat)
    requires 0 < p <= |s1| && 0 < q <= |s2|
    ensures s1[p - 1] == s2[q - 1] ==>
      LcsLength(s1[..p], s2[..q]) == LcsLength(s1[..p - 1], s2[..q - 1]) + 1
    ensures s1[p - 1] != s2[q - 1] ==>
      LcsLength(s1[..p], s2[..q]) == Max(LcsLength(s1[..p - 1], s2[..q]), LcsLength(s1[..p], s2[..q - 1]))
  {
    assert s1[..p][..p - 1] == s1[..p - 1];
    assert s2[..q][..q - 1] == s2[..q - 1];
  }

  /** Appending the matched character `s[p - 1]` keeps the reversed
      characters a subsequence of the suffix, now one longer. */
  lemma BacktrackKeep(s: string, p: nat, chars: string)
    requires 0 < p <= |s| && IsSubsequence(Reverse(chars), s[p..])
    ensures IsSubsequence(Reverse(chars + [s[p - 1]]), s[p - 1..])
  {
    var c := s[p - 1];
    var back := Reverse(chars);
    assert Reverse(chars + [c]) == [c] + back;
    SubsequenceOfSelf([c]);
    assert s[p - 1..] == [c] + s[p..];
    SubsequenceConcat([c], [c], back, s[p..]);
  }

  /** Skipping `s[p - 1]` keeps the reversed characters a subsequence. */
  lemma BacktrackSkip(s: string, p: nat, chars: string)
    requires 0 < p <= |s| && IsSubsequence(Reverse(chars), s[p..])
    ensures IsSubsequence(Reverse(chars), s[p - 1..])
  {
    var back := Reverse(chars);
    assert s[p - 1..] == [s[p - 1]] + s[p..];
    SubsequenceConcat([], [s[p - 1]], back, s[p..]);
    assert [] + back == back;
  }

  /** A subsequence of a suffix is a subsequence of the whole string. */
  lemma BacktrackFinish(s: string, p: nat, chars: string)
    requires p <= |s| && IsSubsequence(Reverse(chars), s[p..])
    ensures IsSubsequence(Reverse(chars), s)
  {
    var back := Reverse(chars);
    var front: string := [];
    assert IsSubsequence(front, s[..p]);
    SubsequenceConcat(front, s[..p], back, s[p..]);
    assert front + back == back;
    assert s[..p] + s[p..] == s;
  }

  /** `_calculate_lcs_and_reconstruct`: `("", 0)` when either string is
      empty or nothing is shared, otherwise an LCS and its length. */
  method CalculateLcsAndReconstruct(s1: string, s2: string) returns (lcs: string, length: nat)
    ensures length == LcsLength(s1, s2) && |lcs| == length
    ensures IsSubsequence(lcs, s1) && IsSubsequence(lcs, s2)
    ensures (s1 == [] || s2 == []) ==> lcs == [] && length == 0
  {
    var n, m := |s1|, |s2|;
    if n == 0 || m == 0 {
      return [], 0;
    }
    var dp := FillTable(s1, s2);
    assert s1[..n] == s1 && s2[..m] == s2;
    length := dp[n, m];
    if length == 0 {
      return [], 0;
    }
    var lcsChars := Backtrack(s1, s2, dp);
    lcs := Reverse(lcsChars);
  }

  // ---------------------------------------------------------------------
  // Similarity as an exact fraction
  // ---------------------------------------------------------------------

  /** A non-negative fraction `num / den`; the float of the source. */
  datatype Ratio = Ratio(num: nat, den: nat)

  predicate ValidRatio(r: Ratio)
  {
    r.den > 0
  }

  /** `p < q` as fractions, compared by cross-multiplication. */
  predicate Less(p: Ratio, q: Ratio)
  {
    p.num * q.den < q.num * p.den
  }

  /** The score is at least 0.75, the matching threshold: `num/den >= 3/4`. */
  predicate MeetsThreshold(r: Ratio)
  {
    4 * r.num >= 3 * r.den
  }

  /** The score of `get_alignment_details`: 1 when both strings are empty,
      0 when they share nothing, else `2L / (n + m)`. */
  function Similarity(s1: string, s2: string): (r: Ratio)
    ensures ValidRatio(r) && r.num <= r.den
  {
    var l := LcsLength(s1, s2);
    if |s1| == 0 && |s2| == 0 then Ratio(1, 1)
    else if l == 0 || |s1| + |s2| == 0 then Ratio(0, 1)
    else Ratio(2 * l, |s1| + |s2|)
  }

  /** The three cases of the score, stated through the LCS length. */
  lemma SimilarityCases(s1: string, s2: string)
    ensures (s1 == [] && s2 == []) ==> Similarity(s1, s2) == Ratio(1, 1)
    ensures (s1 == [] || s2 == []) && !(s1 == [] && s2 == []) ==> Similarity(s1, s2).num == 0
    ensures s1 != [] && s2 != [] && LcsLength(s1, s2) > 0 ==>
      Similarity(s1, s2) == Ratio(2 * LcsLength(s1, s2), |s1| + |s2|)
  {
  }

  /** The score does not depend on the order of its arguments. */
  lemma SimilaritySymmetric(s1: string, s2: string)
    ensures Similarity(s1, s2) == Similarity(s2, s1)
  {
    LcsLengthSymmetric(s1, s2);
  }

  /** A non-empty string scores exactly 1 against itself. */
  lemma SimilarityOfIdentical(s: string)
    ensures Similarity(s, s).num == Similarity(s, s).den
  {
    LcsLengthOfSelf(s);
  }

  /** For two strings that are not both empty, the float test
      `2L/(n+m) >= 0.75` is the integer test `8L >= 3(n+m)`. */
  lemma ThresholdAsIntegers(s1: string, s2: string)
    requires s1 != [] || s2 != []
    ensures MeetsThreshold(Similarity(s1, s2)) <==> 8 * LcsLength(s1, s2) >= 3 * (|s1| + |s2|)
  {
  }

  // ---------------------------------------------------------------------
  // Facts about comparing fractions, used by the matcher
  // ---------------------------------------------------------------------

  lemma NotLessLessTrans(p: Ratio, q: Ratio, r: Ratio)
    requires ValidRatio(p) && ValidRatio(q) && ValidRatio(r)
    requires !Less(q, p) && Less(q, r)
    ensures Less(p, r)
  {
    // p <= q and q < r, by cross-multiplication with positive denominators.
    var a, b, c, x, y, z := p.num as int, q.num as int, r.num as int, p.den as int, q.den as int, r.den as int;
    MulLe(a * y, b * x, z);
    MulLt(b * z, c * y, x);
    assert a * y * z == (a * z) * y && b * x * z == b * z * x && c * y * x == (c * x) * y;
    if a * z >= c * x {
      MulLe(c * x, a * z, y);
    }
  }

  lemma MulLe(u: int, v: int, k: int)
    requires u <= v && k > 0
    ensures u * k <= v * k
  {
  }

  lemma MulLt(u: int, v: int, k: int)
    requires u < v && k > 0
    ensures u * k < v * k
  {
  }

  lemma {:induction false} BelowThresholdIsLess(p: Ratio, q: Ratio)
    requires ValidRatio(p) && ValidRatio(q)
    requires !MeetsThreshold(p) && MeetsThreshold(q)
    ensures Less(p, q)
  {
    assert 4 * p.num * q.den < 3 * p.den * q.den;
    assert 3 * q.den * p.den <= 4 * q.num * p.den;
  }

  lemma {:induction false} LessIrreflexiveAsym(p: Ratio, q: Ratio)
    requires ValidRatio(p) && ValidRatio(q)
    ensures !(Less(p, q) && Less(q, p))
  {
  }

  // ---------------------------------------------------------------------
  // get_alignment_details
  // ---------------------------------------------------------------------

  /** Runs the LCS computation and scores the pair. */
  method AlignmentDetails(s1: string, s2: string) returns (common: string, length: nat, score: Ratio)
    ensures length == LcsLength(s1, s2) && |common| == length
    ensures IsSubsequence(common, s1) && IsSubsequence(common, s2)
    ensures score == Similarity(s1, s2)
  {
    common, length := CalculateLcsAndReconstruct(s1, s2);
    var n, m := |s1|, |s2|;
    if n == 0 && m == 0 {
      score := Ratio(1, 1);
    } else if length == 0 || n + m == 0 {
      score := Ratio(0, 1);
    } else {
      score := Ratio(2 * length, n + m);
    }
  }
}
