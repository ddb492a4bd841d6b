/** The text sanitisers and the table serialisers of the extractors and
    outline parsers. */
module Sanitize {
  import opened Strings

  // ---------------------------------------------------------------------
  // The XML character filter
  // ---------------------------------------------------------------------

  /** The Char production of section 2.2 of XML 1.0 (Fifth Edition): tab,
      line feed, carriage return and the three ranges #x20-#xD7FF,
      #xE000-#xFFFD and #x10000-#x10FFFF. */
  predicate IsXmlChar(c: char)
  {
    var n := c as int;
    n == 0x9 || n == 0xA || n == 0xD
    || (0x20 <= n <= 0xD7FF) || (0xE000 <= n <= 0xFFFD) || (0x10000 <= n <= 0x10FFFF)
  }

  /** The regex substitution that deletes every character outside the XML
      Char set; `clean_text_for_db` of the web extractor is exactly this. */
  function XmlOnly(s: string): (r: string)
    ensures |r| <= |s|
    ensures forall k :: 0 <= k < |r| ==> IsXmlChar(r[k])
  {
    Filter(s, IsXmlChar)
  }

  /** The filter keeps the XML characters of its input, in their order, and
      leaves an already clean string alone. */
  lemma XmlOnlyKeepsOrder(s: string)
    ensures IsSubsequence(XmlOnly(s), s)
    ensures (forall k :: 0 <= k < |s| ==> IsXmlChar(s[k])) ==> XmlOnly(s) == s
    ensures XmlOnly(XmlOnly(s)) == XmlOnly(s)
  {
    FilterIsSubsequence(s, IsXmlChar);
    if forall k :: 0 <= k < |s| ==> IsXmlChar(s[k]) {
      FilterKeepsClean(s, IsXmlChar);
    }
    FilterIdempotent(s, IsXmlChar);
  }

  /** Deletion is character by character: cleaning two pieces and joining
      them is cleaning the joined text. */
  lemma XmlOnlyConcat(a: string, b: string)
    ensures XmlOnly(a + b) == XmlOnly(a) + XmlOnly(b)
  {
    FilterConcat(a, b, IsXmlChar);
  }

  // ---------------------------------------------------------------------
  // The capped cleaner
  // ---------------------------------------------------------------------

  /** Excel's cell limit, kept by the worker for database text as well. */
  const CellCharLimit: nat := 32767
  const TruncationSuffix: string := "... (truncated)"

  /** `clean_text_for_db` of the worker and `clean_text_for_excel`: the XML
      filter, then a cut to the cell limit marked by a suffix. */
  function CleanCapped(s: string): (r: string)
    ensures forall k :: 0 <= k < |r| ==> IsXmlChar(r[k])
    ensures |r| <= CellCharLimit + |TruncationSuffix|
  {
    var c := XmlOnly(s);
    if |c| > CellCharLimit then
      var r := c[..CellCharLimit] + TruncationSuffix;
      assert forall k :: CellCharLimit <= k < |r| ==> r[k] == TruncationSuffix[k - CellCharLimit];
      r
    else c
  }

  /** A cleaned text within the limit comes back whole; a longer one is cut
      to its first 32767 characters followed by the suffix. */
  lemma CleanCappedCases(s: string)
    ensures |XmlOnly(s)| <= CellCharLimit ==> CleanCapped(s) == XmlOnly(s)
    ensures |XmlOnly(s)| > CellCharLimit ==>
      |CleanCapped(s)| == CellCharLimit + |TruncationSuffix| &&
      CleanCapped(s)[..CellCharLimit] == XmlOnly(s)[..CellCharLimit] &&
      CleanCapped(s)[CellCharLimit..] == TruncationSuffix
  {
  }

  /** Cleaning an already cleaned text changes nothing, truncated or not:
      the suffix is itself made of XML characters and the cut lands on the
      same place. */
  lemma CleanCappedIdempotent(s: string)
    ensures CleanCapped(CleanCapped(s)) == CleanCapped(s)
  {
    var r := CleanCapped(s);
    FilterKeepsClean(r, IsXmlChar);
    if |XmlOnly(s)| > CellCharLimit {
      assert r[..CellCharLimit] + TruncationSuffix == r;
    }
  }

  // ---------------------------------------------------------------------
  // The control-character cleaners of the outline parsers
  // ---------------------------------------------------------------------

  /** The class `[\x00-\x08\x0b\x0c\x0e-\x1f]`: C0 controls other than tab,
      line feed and carriage return. */
  predicate IsStrayControl(c: char)
  {
    var n := c as int;
    (0 <= n <= 8) || n == 0xB || n == 0xC || (0xE <= n <= 0x1F)
  }

  predicate NotStrayControl(c: char)
  {
    !IsStrayControl(c)
  }

  /** `clean_text` of the material parser and of the outline exporter. */
  function RemoveControlChars(s: string): (r: string)
    ensures |r| <= |s|
    ensures forall k :: 0 <= k < |r| ==> !IsStrayControl(r[k])
  {
    Filter(s, NotStrayControl)
  }

  /** Exactly the listed controls go: everything else stays, in order. */
  lemma RemoveControlCharsExact(s: string)
    ensures IsSubsequence(RemoveControlChars(s), s)
    ensures (forall k :: 0 <= k < |s| ==> !IsStrayControl(s[k])) ==> RemoveControlChars(s) == s
  {
    FilterIsSubsequence(s, NotStrayControl);
    if forall k :: 0 <= k < |s| ==> !IsStrayControl(s[k]) {
      FilterKeepsClean(s, NotStrayControl);
    }
  }

  const Bell: char := 7 as char

  /** `clean_text` of the flattening parser: `""` for an empty text;
      otherwise the controls are removed, then `"\r\x07"` and `"\x07"`, and
      the result is stripped. */
  function CleanFlatten(s: string): (r: string)
    ensures s == [] ==> r == []
    ensures forall k :: 0 <= k < |r| ==> !IsStrayControl(r[k]) && r[k] != Bell
  {
    if s == [] then []
    else
      var r := Strip(RemoveChar(RemovePair(RemoveControlChars(s), '\r', Bell), Bell));
      CleanFlattenChars(s, r);
      r
  }

  /** No character left by the flattening cleaner is a removed control or
      a bell. */
  lemma CleanFlattenChars(s: string, r: string)
    requires r == Strip(RemoveChar(RemovePair(RemoveControlChars(s), '\r', Bell), Bell))
    ensures forall k :: 0 <= k < |r| ==> !IsStrayControl(r[k]) && r[k] != Bell
  {
    var c := RemoveControlChars(s);
    var p := RemovePair(c, '\r', Bell);
    var t := RemoveChar(p, Bell);
    StripMembers(t);
    FilterIsSubsequence(p, x => x != Bell);
    SubsequenceMembers(t, p);
    forall k | 0 <= k < |r| ensures !IsStrayControl(r[k]) && r[k] != Bell {
      var x := r[k];
      assert x in t;
      assert x in p;
      assert x in c;
      var j :| 0 <= j < |c| && c[j] == x;
    }
  }

  /** `\x07` is itself one of the removed controls, so the two replace
      steps never find anything: a `"\r\x07"` pair loses only its bell and
      the carriage return stays unless strip removes it. */
  lemma CleanFlattenIsStripOfRemove(s: string)
    ensures CleanFlatten(s) == Strip(RemoveControlChars(s))
  {
    if s != [] {
      var c := RemoveControlChars(s);
      assert Bell !in c by {
        forall k | 0 <= k < |c| ensures c[k] != Bell {
          assert !IsStrayControl(c[k]);
        }
      }
      RemovePairAbsent(c, '\r', Bell);
      FilterKeepsClean(c, x => x != Bell);
    }
  }

  // ---------------------------------------------------------------------
  // Tables
  // ---------------------------------------------------------------------

  /** Which cleaner a table formatter applies to its cells. */
  datatype Cleaner = Capped | XmlFilterOnly

  function Clean(cl: Cleaner, s: string): (r: string)
    ensures forall k :: 0 <= k < |r| ==> IsXmlChar(r[k])
  {
    match cl
    case Capped => CleanCapped(s)
    case XmlFilterOnly => XmlOnly(s)
  }

  const CellSeparator: string := " | "

  function CleanCells(cl: Cleaner, row: seq<string>): (r: seq<string>)
    ensures |r| == |row|
    ensures forall i :: 0 <= i < |row| ==> r[i] == Clean(cl, row[i])
    decreases |row|
  {
    if row == [] then [] else [Clean(cl, row[0])] + CleanCells(cl, row[1..])
  }

  /** One table row: its cleaned cells joined by `" | "`. */
  function RowText(cl: Cleaner, row: seq<string>): (r: string)
    ensures forall k :: 0 <= k < |r| ==> IsXmlChar(r[k])
  {
    var cells := CleanCells(cl, row);
    JoinChars(CellSeparator, cells, IsXmlChar);
    Join(CellSeparator, cells)
  }

  function RowTexts(cl: Cleaner, rows: seq<seq<string>>): (r: seq<string>)
    ensures |r| == |rows|
    ensures forall i :: 0 <= i < |rows| ==> r[i] == RowText(cl, rows[i])
    decreases |rows|
  {
    if rows == [] then [] else [RowText(cl, rows[0])] + RowTexts(cl, rows[1..])
  }

  /** `format_table_for_db` / `format_table_for_excel`: `""` for an empty
      table, otherwise the row texts joined by line feeds. */
  function FormatTable(cl: Cleaner, rows: seq<seq<string>>): (r: string)
    ensures rows == [] ==> r == []
    ensures forall k :: 0 <= k < |r| ==> IsXmlChar(r[k])
  {
    if rows == [] then []
    else
      var lines := RowTexts(cl, rows);
      JoinChars("\n", lines, IsXmlChar);
      Join("\n", lines)
  }

  /** A character the cleaner never introduces is present after cleaning
      only if it was present before. */
  lemma {:induction false} CleanAddsNoLineFeed(cl: Cleaner, s: string)
    requires '\n' !in s
    ensures '\n' !in Clean(cl, s)
  {
    var x := XmlOnly(s);
    FilterIsSubsequence(s, IsXmlChar);
    SubsequenceMembers(x, s);
    if cl == Capped && |x| > CellCharLimit {
      var r := x[..CellCharLimit] + TruncationSuffix;
      forall k | 0 <= k < |r| ensures r[k] != '\n' {
        if k < CellCharLimit {
          assert r[k] == x[k] && x[k] in x;
        } else {
          assert r[k] == TruncationSuffix[k - CellCharLimit];
        }
      }
    }
  }

  /** The serialised table splits back into its row texts at the line feeds,
      provided no cell holds a line feed. */
  lemma FormatTableRoundTrip(cl: Cleaner, rows: seq<seq<string>>)
    requires rows != []
    requires forall i, j :: 0 <= i < |rows| && 0 <= j < |rows[i]| ==> '\n' !in rows[i][j]
    ensures Split(FormatTable(cl, rows), '\n') == RowTexts(cl, rows)
  {
    var lines := RowTexts(cl, rows);
    forall i | 0 <= i < |lines|
      ensures '\n' !in lines[i]
    {
      RowTextNoLineFeed(cl, rows[i]);
    }
    SplitJoin(lines, '\n');
  }

  /** A row whose cells hold no line feed gives a row text without one. */
  lemma RowTextNoLineFeed(cl: Cleaner, row: seq<string>)
    requires forall j :: 0 <= j < |row| ==> '\n' !in row[j]
    ensures '\n' !in RowText(cl, row)
  {
    var cells := CleanCells(cl, row);
    forall j | 0 <= j < |cells| ensures '\n' !in cells[j] {
      CleanAddsNoLineFeed(cl, row[j]);
    }
    JoinChars(CellSeparator, cells, c => c != '\n');
    var t := RowText(cl, row);
    assert forall k :: 0 <= k < |t| ==> t[k] != '\n';
  }
}
