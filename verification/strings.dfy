/**
  Text helpers shared by every part of the model: Python's `str.strip()`,
  `str.join`, `str.find`, `str(int)` / `int(str)`, character filters and
  the subsequence relation.  Strings are `seq<char>`; a Dafny `char` is a
  Unicode scalar value, like one element of a Python `str` (minus lone
  surrogates, which Dafny cannot represent).
 */
module Strings {

  datatype Option<T> = None | Some(value: T)

  // ---------------------------------------------------------------------
  // Whitespace and strip
  // ---------------------------------------------------------------------

  /** Python's `str.isspace()` for one character. */
  predicate IsSpace(c: char)
  {
    var n := c as int;
    (9 <= n <= 13) || (28 <= n <= 32) || n == 0x85 || n == 0xA0 || n == 0x1680
    || (0x2000 <= n <= 0x200A) || n == 0x2028 || n == 0x2029 || n == 0x202F
    || n == 0x205F || n == 0x3000
  }

  /** `s.lstrip()`: drops the leading whitespace and nothing else. */
  function StripLeft(s: string): (r: string)
    ensures |r| <= |s| && r == s[|s| - |r|..]
    ensures forall k :: 0 <= k < |s| - |r| ==> IsSpace(s[k])
    ensures r == [] || !IsSpace(r[0])
  {
    if s == [] || !IsSpace(s[0]) then s else StripLeft(s[1..])
  }

  /** `s.rstrip()`: drops the trailing whitespace and nothing else. */
  function StripRight(s: string): (r: string)
    ensures |r| <= |s| && r == s[..|r|]
    ensures forall k :: |r| <= k < |s| ==> IsSpace(s[k])
    ensures r == [] || !IsSpace(r[|r| - 1])
  {
    if s == [] || !IsSpace(s[|s| - 1]) then s else StripRight(s[..|s| - 1])
  }

  /** `s.strip()`: whitespace removed at both ends (`StripIsSlice` shows
      exactly which slice of `s` remains). */
  function Strip(s: string): (r: string)
    ensures |r| <= |s|
    ensures r == [] || (!IsSpace(r[0]) && !IsSpace(r[|r| - 1]))
  {
    var l := StripLeft(s);
    var r := StripRight(l);
    assert r == [] || r[0] == l[0];
    r
  }

  /** `strip` cuts `s` into a run of whitespace, the result, and another
      run of whitespace; the result neither starts nor ends with
      whitespace, which fixes `i` and `j` uniquely. */
  lemma StripIsSlice(s: string) returns (i: nat, j: nat)
    ensures i <= j <= |s| && Strip(s) == s[i..j]
    ensures forall k :: 0 <= k < i ==> IsSpace(s[k])
    ensures forall k :: j <= k < |s| ==> IsSpace(s[k])
    ensures i < j ==> !IsSpace(s[i]) && !IsSpace(s[j - 1])
  {
    var l := StripLeft(s);
    var r := StripRight(l);
    StripBetween(s, l, r);
    i, j := |s| - |l|, |s| - |l| + |r|;
  }

  /** Right-stripping the left-stripped string leaves the slice of `s`
      between its leading and trailing whitespace, with no whitespace at
      either end; the requires are what `StripLeft` and `StripRight`
      ensure. */
  lemma StripBetween(s: string, l: string, r: string)
    requires |l| <= |s| && l == s[|s| - |l|..]
    requires forall k :: 0 <= k < |s| - |l| ==> IsSpace(s[k])
    requires l == [] || !IsSpace(l[0])
    requires |r| <= |l| && r == l[..|r|]
    requires forall k :: |r| <= k < |l| ==> IsSpace(l[k])
    requires r == [] || !IsSpace(r[|r| - 1])
    ensures r == [] || (!IsSpace(r[0]) && !IsSpace(r[|r| - 1]))
    ensures var i := |s| - |l|;
      i + |r| <= |s| && r == s[i..i + |r|] &&
      (forall k :: 0 <= k < i ==> IsSpace(s[k])) &&
      (forall k :: i + |r| <= k < |s| ==> IsSpace(s[k]))
  {
    assert r == [] || r[0] == l[0];
    StripSlice(s, |s| - |l|, l, r);
  }

  /** A prefix `r` of a suffix `l` of `s` is a slice of `s`, and what
      follows `r` in `l` follows it in `s`. */
  lemma StripSlice(s: string, i: nat, l: string, r: string)
    requires i <= |s| && l == s[i..]
    requires |r| <= |l| && r == l[..|r|]
    requires forall k :: |r| <= k < |l| ==> IsSpace(l[k])
    ensures i + |r| <= |s| && r == s[i..i + |r|]
    ensures forall k :: i + |r| <= k < |s| ==> IsSpace(s[k])
  {
    assert s[i..i + |r|] == s[i..][..|r|];
    forall k | i + |r| <= k < |s|
      ensures IsSpace(s[k])
    {
      assert s[k] == l[k - i];
    }
  }

  /** A string that neither starts nor ends with whitespace is left alone by strip. */
  lemma {:induction false} StripOfTrimmed(s: string)
    requires s == [] || (!IsSpace(s[0]) && !IsSpace(s[|s| - 1]))
    ensures Strip(s) == s
  {
  }

  /** Stripping twice is stripping once. */
  lemma StripIdempotent(s: string)
    ensures Strip(Strip(s)) == Strip(s)
  {
    StripOfTrimmed(Strip(s));
  }

  lemma StripLeftMembers(s: string)
    ensures forall x :: x in StripLeft(s) ==> x in s
  {
    var l := StripLeft(s);
    forall x | x in l ensures x in s {
      var k :| 0 <= k < |l| && l[k] == x;
      assert s[|s| - |l| + k] == x;
    }
  }

  lemma StripRightMembers(s: string)
    ensures forall x :: x in StripRight(s) ==> x in s
  {
    var r := StripRight(s);
    forall x | x in r ensures x in s {
      var k :| 0 <= k < |r| && r[k] == x;
      assert s[k] == x;
    }
  }

  /** Strip only removes characters: whatever it keeps was in `s`. */
  lemma StripMembers(s: string)
    ensures forall k :: 0 <= k < |Strip(s)| ==> Strip(s)[k] in s
  {
    StripLeftMembers(s);
    StripRightMembers(StripLeft(s));
  }

  // ---------------------------------------------------------------------
  // Character filters and maps
  // ---------------------------------------------------------------------

  /** The characters of `s` for which `keep` holds, in their original order
      (the effect of `re.sub('[^...]', '', s)` and `re.sub('[...]', '', s)`). */
  function Filter(s: string, keep: char -> bool): (r: string)
    ensures |r| <= |s|
    ensures forall k :: 0 <= k < |r| ==> keep(r[k])
    ensures forall x :: multiset(r)[x] == if keep(x) then multiset(s)[x] else 0
  {
    if s == [] then []
    else
      assert s == [s[0]] + s[1..];
      (if keep(s[0]) then [s[0]] else []) + Filter(s[1..], keep)
  }

  /** Filtering distributes over concatenation: what is kept from `a + b` is
      what is kept from `a` followed by what is kept from `b`. */
  lemma {:induction false} FilterConcat(a: string, b: string, keep: char -> bool)
    ensures Filter(a + b, keep) == Filter(a, keep) + Filter(b, keep)
  {
    if a == [] {
      assert a + b == b;
    } else {
      assert (a + b)[0] == a[0];
      assert (a + b)[1..] == a[1..] + b;
      FilterConcat(a[1..], b, keep);
    }
  }

  /** A string made only of kept characters passes through unchanged. */
  lemma {:induction false} FilterKeepsClean(s: string, keep: char -> bool)
    requires forall k :: 0 <= k < |s| ==> keep(s[k])
    ensures Filter(s, keep) == s
  {
    if s != [] {
      FilterKeepsClean(s[1..], keep);
    }
  }

  /** Filtering twice is filtering once. */
  lemma FilterIdempotent(s: string, keep: char -> bool)
    ensures Filter(Filter(s, keep), keep) == Filter(s, keep)
  {
    FilterKeepsClean(Filter(s, keep), keep);
  }

  /** What a filter keeps is a subsequence of its input. */
  lemma {:induction false} FilterIsSubsequence(s: string, keep: char -> bool)
    ensures IsSubsequence(Filter(s, keep), s)
  {
    if s != [] {
      FilterIsSubsequence(s[1..], keep);
      var head: string := if keep(s[0]) then [s[0]] else [];
      SubsequenceOfSelf([s[0]]);
      SubsequenceConcat(head, [s[0]], Filter(s[1..], keep), s[1..]);
      assert [s[0]] + s[1..] == s;
    }
  }

  /** `s.replace(from, to)` for single characters `from`, `to`. */
  function ReplaceChar(s: string, from: char, to: char): (r: string)
    ensures |r| == |s|
    ensures forall k :: 0 <= k < |s| ==> r[k] == (if s[k] == from then to else s[k])
  {
    if s == [] then [] else [if s[0] == from then to else s[0]] + ReplaceChar(s[1..], from, to)
  }

  /** `s.replace(c, "")`: every occurrence of `c` removed, every other
      character kept as often as it occurs, in order. */
  function RemoveChar(s: string, c: char): (r: string)
    ensures r == Filter(s, x => x != c)
    ensures c !in r
    ensures forall x :: x != c ==> multiset(r)[x] == multiset(s)[x]
    ensures IsSubsequence(r, s)
  {
    FilterIsSubsequence(s, x => x != c);
    Filter(s, x => x != c)
  }

  /** `s.replace(a + b, "")` for a two-character pattern: occurrences are
      removed left to right without overlapping. */
  function RemovePair(s: string, a: char, b: char): (r: string)
    ensures |r| <= |s|
    ensures forall x :: x in r ==> x in s
    decreases |s|
  {
    if |s| >= 2 && s[0] == a && s[1] == b then RemovePair(s[2..], a, b)
    else if s == [] then []
    else [s[0]] + RemovePair(s[1..], a, b)
  }

  /** Without its second character the pattern never matches. */
  lemma {:induction false} RemovePairAbsent(s: string, a: char, b: char)
    requires b !in s
    ensures RemovePair(s, a, b) == s
    decreases |s|
  {
    if s != [] {
      assert b !in s[1..] by {
        forall c | c in s[1..] ensures c != b {
          assert c in s;
        }
      }
      if |s| >= 2 {
        assert s[1] in s;
      }
      RemovePairAbsent(s[1..], a, b);
      assert [s[0]] + s[1..] == s;
    }
  }

  /** Python's `replace` finds the first occurrence, cuts it out and goes
      on after it: with no occurrence of the pair the text is unchanged. */
  lemma {:induction false} RemovePairNoMatch(s: string, a: char, b: char)
    requires forall k :: 0 <= k < |s| ==> !OccursAt(s, [a, b], k)
    ensures RemovePair(s, a, b) == s
    decreases |s|
  {
    if s != [] {
      if |s| >= 2 {
        assert !OccursAt(s, [a, b], 0);
        assert s[0..2] == [s[0], s[1]];
      }
      forall k | 0 <= k < |s[1..]|
        ensures !OccursAt(s[1..], [a, b], k)
      {
        assert !OccursAt(s, [a, b], k + 1);
        if k + 2 <= |s[1..]| {
          assert s[1..][k..k + 2] == s[k + 1..k + 3];
        }
      }
      RemovePairNoMatch(s[1..], a, b);
      assert [s[0]] + s[1..] == s;
    }
  }

  /** At the first occurrence `k` of the pair, the text before it is kept
      and removal goes on after it. */
  lemma {:induction false} RemovePairAtFirst(s: string, a: char, b: char, k: nat)
    requires OccursAt(s, [a, b], k)
    requires forall j :: 0 <= j < k ==> !OccursAt(s, [a, b], j)
    ensures RemovePair(s, a, b) == s[..k] + RemovePair(s[k + 2..], a, b)
    decreases k
  {
    if k == 0 {
      assert s[0] == s[0..2][0] && s[1] == s[0..2][1];
    } else {
      assert !OccursAt(s, [a, b], 0);
      assert s[0..2] == [s[0], s[1]];
      OccursAtShift(s, a, b, k - 1);
      forall j | 0 <= j < k - 1
        ensures !OccursAt(s[1..], [a, b], j)
      {
        OccursAtShift(s, a, b, j);
      }
      RemovePairAtFirst(s[1..], a, b, k - 1);
      assert s[1..][k + 1..] == s[k + 2..];
      assert [s[0]] + s[1..][..k - 1] == s[..k];
    }
  }

  /** An occurrence one place further on in `s` is an occurrence in `s[1..]`. */
  lemma OccursAtShift(s: string, a: char, b: char, j: nat)
    requires s != []
    ensures OccursAt(s, [a, b], j + 1) <==> OccursAt(s[1..], [a, b], j)
  {
    if j + 3 <= |s| {
      assert s[1..][j..j + 2] == s[j + 1..j + 3];
    }
  }

  // ---------------------------------------------------------------------
  // Joining and splitting
  // ---------------------------------------------------------------------

  /** `sep.join(parts)`. */
  function Join(sep: string, parts: seq<string>): (r: string)
    ensures parts == [] ==> r == []
    ensures |parts| == 1 ==> r == parts[0]
  {
    if parts == [] then []
    else if |parts| == 1 then parts[0]
    else parts[0] + sep + Join(sep, parts[1..])
  }

  /** `s[:n]`. */
  function Take(s: string, n: nat): (r: string)
    ensures |r| <= n && |r| <= |s| && r == s[..|r|]
    ensures |s| <= n ==> r == s
    ensures |s| > n ==> |r| == n
  {
    if |s| <= n then s else s[..n]
  }

  /** Splits `s` at every occurrence of the character `sep` (`s.split(sep)`). */
  function Split(s: string, sep: char): (r: seq<string>)
    ensures |r| >= 1
    decreases |s|
  {
    if s == [] then [[]]
    else
      var rest := Split(s[1..], sep);
      if s[0] == sep then [[]] + rest else [[s[0]] + rest[0]] + rest[1..]
  }

  /** Splitting a string without `sep` gives that string alone. */
  lemma {:induction false} SplitNoSep(s: string, sep: char)
    requires sep !in s
    ensures Split(s, sep) == [s]
  {
    if s != [] {
      assert s[0] in s;
      SplitNoSep(s[1..], sep);
      assert [s[0]] + s[1..] == s;
    }
  }

  /** `Split(a + [sep] + b) == Split(a) + Split(b)` when `a` holds no separator. */
  lemma {:induction false} SplitAtSep(a: string, b: string, sep: char)
    requires sep !in a
    ensures Split(a + [sep] + b, sep) == [a] + Split(b, sep)
  {
    if a == [] {
      assert a + [sep] + b == [sep] + b;
      assert ([sep] + b)[1..] == b;
    } else {
      assert (a + [sep] + b)[1..] == a[1..] + [sep] + b;
      SplitAtSep(a[1..], b, sep);
      assert [a[0]] + a[1..] == a;
    }
  }

  /** Joining lines with a separator character and splitting at it again gives
      the lines back, provided no line contains the separator and there is at
      least one line. */
  lemma {:induction false} SplitJoin(parts: seq<string>, sep: char)
    requires |parts| >= 1
    requires forall i :: 0 <= i < |parts| ==> sep !in parts[i]
    ensures Split(Join([sep], parts), sep) == parts
  {
    if |parts| == 1 {
      SplitNoSep(parts[0], sep);
    } else {
      SplitJoin(parts[1..], sep);
      SplitAtSep(parts[0], Join([sep], parts[1..]), sep);
      assert [parts[0]] + parts[1..] == parts;
    }
  }

  /** Every character of `sep.join(parts)` comes from a part or from `sep`. */
  lemma {:induction false} JoinChars(sep: string, parts: seq<string>, ok: char -> bool)
    requires forall k :: 0 <= k < |sep| ==> ok(sep[k])
    requires forall i, k :: 0 <= i < |parts| && 0 <= k < |parts[i]| ==> ok(parts[i][k])
    ensures forall k :: 0 <= k < |Join(sep, parts)| ==> ok(Join(sep, parts)[k])
  {
    if |parts| > 1 {
      JoinChars(sep, parts[1..], ok);
      var rest := Join(sep, parts[1..]);
      var r := parts[0] + sep + rest;
      forall k | 0 <= k < |r| ensures ok(r[k]) {
        if k < |parts[0]| {
          assert r[k] == parts[0][k];
        } else if k < |parts[0]| + |sep| {
          assert r[k] == sep[k - |parts[0]|];
        } else {
          assert r[k] == rest[k - |parts[0]| - |sep|];
        }
      }
    }
  }

  // ---------------------------------------------------------------------
  // Substring search
  // ---------------------------------------------------------------------

  /** `frag` occurs in `text` starting at index `k`. */
  predicate OccursAt(text: string, frag: string, k: int)
  {
    0 <= k && k + |frag| <= |text| && text[k..k + |frag|] == frag
  }

  /** Python's `frag in text`. */
  ghost predicate Contains(text: string, frag: string)
  {
    exists k :: OccursAt(text, frag, k)
  }

  /** The first index at or after `from` where `frag` occurs. */
  function FindFrom(text: string, frag: string, from: nat): (r: Option<nat>)
    ensures r.Some? ==> from <= r.value && OccursAt(text, frag, r.value)
    ensures r.Some? ==> forall k :: from <= k < r.value ==> !OccursAt(text, frag, k)
    ensures r.None? ==> forall k :: from <= k ==> !OccursAt(text, frag, k)
    decreases |text| - from
  {
    if from + |frag| > |text| then None
    else if text[from..from + |frag|] == frag then Some(from)
    else FindFrom(text, frag, from + 1)
  }

  /** Python's `text.find(frag)`, with `None` for -1. */
  function Find(text: string, frag: string): (r: Option<nat>)
    ensures r.Some? <==> Contains(text, frag)
    ensures r.Some? ==> OccursAt(text, frag, r.value)
    ensures r.Some? ==> forall k :: 0 <= k < r.value ==> !OccursAt(text, frag, k)
  {
    FindFrom(text, frag, 0)
  }

  /** Substring test on plain strings, Python's `frag in text`, computed. */
  function ContainsText(text: string, frag: string): (b: bool)
    ensures b <==> Contains(text, frag)
  {
    Find(text, frag).Some?
  }

  // ---------------------------------------------------------------------
  // Decimal numbers: str(int) and int(str)
  // ---------------------------------------------------------------------

  predicate IsDigit(c: char)
  {
    48 <= c as int <= 57
  }

  function DigitChar(d: nat): (c: char)
    requires d < 10
    ensures IsDigit(c) && (c as int) - 48 == d
  {
    (48 + d) as char
  }

  /** `str(n)` for a natural number. */
  function NatToString(n: nat): (r: string)
    ensures |r| >= 1
    ensures forall k :: 0 <= k < |r| ==> IsDigit(r[k])
    ensures |r| > 1 ==> r[0] != '0'
  {
    if n < 10 then [DigitChar(n)] else NatToString(n / 10) + [DigitChar(n % 10)]
  }

  /** `str(i)` for any integer. */
  function IntToString(i: int): (r: string)
    ensures |r| >= 1
  {
    if i < 0 then "-" + NatToString(-i) else NatToString(i)
  }

  /** The value of a non-empty string of decimal digits. */
  function DigitsValue(s: string): (n: nat)
    requires forall k :: 0 <= k < |s| ==> IsDigit(s[k])
  {
    if s == [] then 0
    else
      assert IsDigit(s[|s| - 1]);
      DigitsValue(s[..|s| - 1]) * 10 + ((s[|s| - 1] as int) - 48)
  }

  predicate AllDigits(s: string)
  {
    forall k :: 0 <= k < |s| ==> IsDigit(s[k])
  }

  /** Python's `int(s)` on a string, restricted to ASCII digits: surrounding
      whitespace is ignored, then an optional sign and one or more of
      `0`-`9`; anything else is `None` here, the `ValueError` case.
      Python also accepts `_` between digits and non-ASCII decimal digits;
      this model does not. */
  function ParseInt(s: string): (r: Option<int>)
  {
    ParseTrimmed(Strip(s))
  }

  /** `int` on text without surrounding whitespace. */
  function ParseTrimmed(t: string): (r: Option<int>)
  {
    if t != [] && (t[0] == '-' || t[0] == '+') then
      var d := t[1..];
      if d != [] && AllDigits(d) then
        var v: int := DigitsValue(d);
        Some(if t[0] == '-' then -v else v)
      else None
    else if t != [] && AllDigits(t) then Some(DigitsValue(t))
    else None
  }

  lemma {:induction false} DigitsOfNat(n: nat)
    ensures AllDigits(NatToString(n)) && DigitsValue(NatToString(n)) == n
  {
    if n >= 10 {
      DigitsOfNat(n / 10);
      var s := NatToString(n);
      assert s[..|s| - 1] == NatToString(n / 10);
    }
  }

  /** `int(str(i)) == i`. */
  lemma ParseIntOfIntToString(i: int)
    ensures ParseInt(IntToString(i)) == Some(i)
  {
    if i < 0 {
      ParseIntOfNegative(i);
    } else {
      ParseIntOfNatural(i);
    }
  }

  lemma ParseIntOfNegative(i: int)
    requires i < 0
    ensures ParseInt(IntToString(i)) == Some(i)
  {
    var s := IntToString(i);
    var n: nat := -i;
    var d := NatToString(n);
    assert s == "-" + d;
    DigitsOfNat(n);
    assert s[1..] == d && s[|s| - 1] == d[|d| - 1];
    DigitNotSpace(d[|d| - 1]);
    StripOfTrimmed(s);
    ParseOfTrimmed(s);
    assert ParseTrimmed(s) == Some(i);
  }

  lemma ParseIntOfNatural(n: nat)
    ensures ParseInt(IntToString(n)) == Some(n)
  {
    var s := IntToString(n);
    assert s == NatToString(n);
    DigitsOfNat(n);
    DigitNotSpace(s[0]);
    DigitNotSpace(s[|s| - 1]);
    StripOfTrimmed(s);
    ParseOfTrimmed(s);
    assert ParseTrimmed(s) == Some(n);
  }

  lemma ParseOfTrimmed(s: string)
    requires Strip(s) == s
    ensures ParseInt(s) == ParseTrimmed(s)
  {
  }

  lemma DigitNotSpace(c: char)
    requires IsDigit(c)
    ensures !IsSpace(c)
  {
  }

  // ---------------------------------------------------------------------
  // Subsequences and reversal
  // ---------------------------------------------------------------------

  /** `c` is a subsequence of `s` (same relative order, not necessarily
      contiguous).  Defined from the end, as the LCS table is. */
  predicate IsSubsequence<T(==)>(c: seq<T>, s: seq<T>)
    decreases |s|
  {
    c == [] ||
    (s != [] &&
     ((c[|c| - 1] == s[|s| - 1] && IsSubsequence(c[..|c| - 1], s[..|s| - 1]))
      || IsSubsequence(c, s[..|s| - 1])))
  }

  /** Appending to the sequence searched in keeps a subsequence a subsequence. */
  lemma {:induction false} SubsequenceExtend<T>(c: seq<T>, s: seq<T>, d: seq<T>)
    requires IsSubsequence(c, s)
    ensures IsSubsequence(c, s + d)
    decreases |d|
  {
    if d == [] {
      assert s + d == s;
    } else {
      SubsequenceExtend(c, s, d[..|d| - 1]);
      var sd := s + d;
      assert sd[..|sd| - 1] == s + d[..|d| - 1];
      assert IsSubsequence(c, sd[..|sd| - 1]);
    }
  }

  /** Subsequences of two sequences concatenate to a subsequence of their concatenation. */
  lemma {:induction false} SubsequenceConcat<T>(c1: seq<T>, s1: seq<T>, c2: seq<T>, s2: seq<T>)
    requires IsSubsequence(c1, s1) && IsSubsequence(c2, s2)
    ensures IsSubsequence(c1 + c2, s1 + s2)
    decreases |s2|
  {
    if c2 == [] {
      assert c1 + c2 == c1;
      SubsequenceExtend(c1, s1, s2);
    } else {
      var s2' := s2[..|s2| - 1];
      assert (s1 + s2)[..|s1 + s2| - 1] == s1 + s2';
      if c2[|c2| - 1] == s2[|s2| - 1] && IsSubsequence(c2[..|c2| - 1], s2') {
        SubsequenceConcat(c1, s1, c2[..|c2| - 1], s2');
        assert (c1 + c2)[..|c1 + c2| - 1] == c1 + c2[..|c2| - 1];
      } else {
        SubsequenceConcat(c1, s1, c2, s2');
      }
    }
  }

  lemma {:induction false} SubsequenceOfSelf<T>(s: seq<T>)
    ensures IsSubsequence(s, s)
  {
    if s != [] {
      SubsequenceOfSelf(s[..|s| - 1]);
    }
  }

  /** Every element of a subsequence is an element of the sequence. */
  lemma {:induction false} SubsequenceMembers<T>(c: seq<T>, s: seq<T>)
    requires IsSubsequence(c, s)
    ensures forall x :: x in c ==> x in s
    decreases |s|
  {
    if c != [] {
      var s' := s[..|s| - 1];
      if c[|c| - 1] == s[|s| - 1] && IsSubsequence(c[..|c| - 1], s') {
        SubsequenceMembers(c[..|c| - 1], s');
        forall x | x in c ensures x in s {
          if x != c[|c| - 1] {
            assert c == c[..|c| - 1] + [c[|c| - 1]];
            assert x in c[..|c| - 1];
            assert x in s';
          }
        }
      } else {
        SubsequenceMembers(c, s');
      }
      forall x | x in s' ensures x in s {
        assert s == s' + [s[|s| - 1]];
      }
    }
  }

  /** Python's `reversed(...)` joined back into a sequence. */
  function Reverse<T>(s: seq<T>): (r: seq<T>)
    ensures |r| == |s|
    ensures forall k :: 0 <= k < |s| ==> r[k] == s[|s| - 1 - k]
  {
    if s == [] then [] else [s[|s| - 1]] + Reverse(s[..|s| - 1])
  }

  function Max(a: int, b: int): int
  {
    if a >= b then a else b
  }
}
