/** The Excel exporter of document outlines: for every document it detects
    the heading levels in use, groups the paragraphs under the tuple of the
    first `n` heading levels from the top one, and writes one row per
    heading tuple with the joined paragraph texts as content. */
module OutlineExcel {
  import opened Strings
  import opened Outline

  /** One row of the sheet: the document name, its headings (one per key
      slot) and the joined content. */
  datatype OutlineRow = OutlineRow(document: string, headings: seq<string>, content: string)

  /** `"\n".join(texts).strip()`. */
  function JoinedContent(texts: seq<string>): string
  {
    Strip(Join("\n", texts))
  }

  /** The rows of one document's groups, in dictionary order: a group whose
      key is all empty gives no row; every other group gives one row,
      whatever the length of its content (both branches of the length test
      build the same row). */
  function RowsOf(name: string, items: seq<(Key, seq<string>)>): (rows: seq<OutlineRow>)
    ensures |rows| <= |items|
    decreases |items|
  {
    if items == [] then []
    else
      var last := items[|items| - 1];
      RowsOf(name, items[..|items| - 1]) +
        (if AllEmpty(last.0) then [] else [OutlineRow(name, last.0, JoinedContent(last.1))])
  }

  /** Every group whose key is not all empty gives a row. */
  lemma GroupsGiveRows(name: string, items: seq<(Key, seq<string>)>)
    ensures forall i :: 0 <= i < |items| && !AllEmpty(items[i].0) ==>
      OutlineRow(name, items[i].0, JoinedContent(items[i].1)) in RowsOf(name, items)
  {
    forall i | 0 <= i < |items| && !AllEmpty(items[i].0)
      ensures OutlineRow(name, items[i].0, JoinedContent(items[i].1)) in RowsOf(name, items)
    {
      GroupGivesRow(name, items, i);
    }
  }

  lemma {:induction false} GroupGivesRow(name: string, items: seq<(Key, seq<string>)>, i: nat)
    requires i < |items| && !AllEmpty(items[i].0)
    ensures OutlineRow(name, items[i].0, JoinedContent(items[i].1)) in RowsOf(name, items)
    decreases |items|
  {
    var init := items[..|items| - 1];
    if i < |init| {
      assert items[i] == init[i];
      GroupGivesRow(name, init, i);
      RowsKept(name, items, OutlineRow(name, items[i].0, JoinedContent(items[i].1)));
    } else {
      RowsOfLast(name, items);
    }
  }

  /** A row of all but the last group is a row of the whole list. */
  lemma RowsKept(name: string, items: seq<(Key, seq<string>)>, row: OutlineRow)
    requires items != [] && row in RowsOf(name, items[..|items| - 1])
    ensures row in RowsOf(name, items)
  {
    RowsOfLast(name, items);
  }

  /** The rows of a non-empty group list: those of all but its last group,
      then the last group's row if it has one. */
  lemma RowsOfLast(name: string, items: seq<(Key, seq<string>)>)
    requires items != []
    ensures var last := items[|items| - 1];
      RowsOf(name, items) == RowsOf(name, items[..|items| - 1]) +
        (if AllEmpty(last.0) then [] else [OutlineRow(name, last.0, JoinedContent(last.1))])
  {
  }

  /** Every row comes from a group of the document whose key is not all
      empty, with that group's joined texts. */
  lemma {:induction false} RowsComeFromGroups(name: string, items: seq<(Key, seq<string>)>)
    ensures forall r :: r in RowsOf(name, items) ==>
      r.document == name && !AllEmpty(r.headings) &&
      exists i :: 0 <= i < |items| && items[i].0 == r.headings && r.content == JoinedContent(items[i].1)
    decreases |items|
  {
    if items != [] {
      var init := items[..|items| - 1];
      RowsComeFromGroups(name, init);
      var last := items[|items| - 1];
      var rest := RowsOf(name, init);
      var extra: seq<OutlineRow> := if AllEmpty(last.0) then [] else [OutlineRow(name, last.0, JoinedContent(last.1))];
      assert RowsOf(name, items) == rest + extra;
      forall r | r in rest + extra
        ensures r.document == name && !AllEmpty(r.headings) &&
          exists i :: 0 <= i < |items| && items[i].0 == r.headings && r.content == JoinedContent(items[i].1)
      {
        if r in rest {
          var i :| 0 <= i < |init| && init[i].0 == r.headings && r.content == JoinedContent(init[i].1);
          assert items[i] == init[i];
        } else {
          assert r == OutlineRow(name, last.0, JoinedContent(last.1));
          assert items[|items| - 1] == last;
        }
      }
    }
  }

  /** The row loop over `aggregator.items()`. */
  method GroupRows(name: string, items: seq<(Key, seq<string>)>) returns (rows: seq<OutlineRow>)
    ensures rows == RowsOf(name, items)
  {
    rows := [];
    for i := 0 to |items|
      invariant rows == RowsOf(name, items[..i])
    {
      assert items[..i + 1][..i] == items[..i];
      RowsOfLast(name, items[..i + 1]);
      var (headings, texts) := items[i];
      if AllEmpty(headings) {
        continue;
      }
      var full := Strip(Join("\n", texts));
      rows := rows + [OutlineRow(name, headings, full)];
    }
    assert items[..|items|] == items;
  }

  // ---------------------------------------------------------------------
  // Documents
  // ---------------------------------------------------------------------

  datatype Document = Document(name: string, paras: seq<Paragraph>)

  /** `max - min + 1` of the heading levels in use; `None` for a document
      without headings, which is skipped. */
  function Span(paras: seq<Paragraph>): (r: Option<nat>)
    ensures r.None? <==> forall i :: 0 <= i < |paras| ==> !IsHeading(paras[i].outlineLevel)
    ensures r.Some? ==> 1 <= r.value <= 9
  {
    match LevelRange(paras)
    case None => None
    case Some((lo, hi)) => Some(hi - lo + 1)
  }

  /** The rows of one document. */
  function DocumentRows(d: Document, n: int): seq<OutlineRow>
  {
    match LevelRange(d.paras)
    case None => []
    case Some((lo, _)) => RowsOf(d.name, Items(Aggregate(d.paras, lo, n, false)))
  }

  /** The body of the file loop for one opened document. */
  method ExtractDocument(d: Document, n: int) returns (rows: seq<OutlineRow>, span: Option<nat>)
    ensures rows == DocumentRows(d, n) && span == Span(d.paras)
    ensures span.None? ==> rows == []
  {
    var levels := LevelRange(d.paras);
    if levels.None? {
      return [], None;
    }
    var (lo, hi) := levels.value;
    DocumentWithHeadings(d, n, lo, hi);
    span := Some(hi - lo + 1);
    var order, content := AggregateContent(d.paras, lo, n, false);
    rows := GroupRows(d.name, Items(Groups(order, content)));
  }

  lemma DocumentWithHeadings(d: Document, n: int, lo: int, hi: int)
    requires LevelRange(d.paras) == Some((lo, hi))
    ensures IsHeading(lo) && hi >= lo
    ensures DocumentRows(d, n) == RowsOf(d.name, Items(Aggregate(d.paras, lo, n, false)))
    ensures Span(d.paras) == Some(hi - lo + 1)
  {
  }

  function AllRows(docs: seq<Document>, n: int): seq<OutlineRow>
    decreases |docs|
  {
    if docs == [] then [] else AllRows(docs[..|docs| - 1], n) + DocumentRows(docs[|docs| - 1], n)
  }

  /** `max_level_found_overall` after the given documents. */
  function MaxSpan(docs: seq<Document>): (m: nat)
    ensures m <= 9
    decreases |docs|
  {
    if docs == [] then 0
    else
      var s := Span(docs[|docs| - 1].paras);
      var m := MaxSpan(docs[..|docs| - 1]);
      if s.Some? && s.value > m then s.value else m
  }

  /** The largest span never decreases from one document to the next, and
      it bounds the span of every document with headings. */
  lemma {:induction false} MaxSpanGrows(docs: seq<Document>, i: nat, j: nat)
    requires i <= j <= |docs|
    ensures MaxSpan(docs[..i]) <= MaxSpan(docs[..j])
    decreases j
  {
    if i < j {
      MaxSpanGrows(docs, i, j - 1);
      assert docs[..j][..j - 1] == docs[..j - 1];
    }
  }

  lemma {:induction false} MaxSpanBounds(docs: seq<Document>)
    ensures forall i :: 0 <= i < |docs| && Span(docs[i].paras).Some? ==> Span(docs[i].paras).value <= MaxSpan(docs)
    decreases |docs|
  {
    if docs != [] {
      var init := docs[..|docs| - 1];
      MaxSpanBounds(init);
      assert forall i :: 0 <= i < |init| ==> init[i] == docs[i];
    }
  }

  /** A nonzero largest span is the span of some document: the maximum is
      reached, not just an upper bound. */
  lemma {:induction false} MaxSpanReached(docs: seq<Document>)
    ensures MaxSpan(docs) == 0 || exists i :: 0 <= i < |docs| && Span(docs[i].paras) == Some(MaxSpan(docs))
    decreases |docs|
  {
    if docs != [] {
      var init := docs[..|docs| - 1];
      MaxSpanReached(init);
      var s := Span(docs[|docs| - 1].paras);
      if !(s.Some? && s.value > MaxSpan(init)) && MaxSpan(init) != 0 {
        var i :| 0 <= i < |init| && Span(init[i].paras) == Some(MaxSpan(init));
        assert init[i] == docs[i];
      }
    }
  }

  /** The largest span is 0 exactly when no document has headings. */
  lemma {:induction false} MaxSpanZero(docs: seq<Document>)
    ensures MaxSpan(docs) == 0 <==> forall i :: 0 <= i < |docs| ==> Span(docs[i].paras).None?
    decreases |docs|
  {
    if docs != [] {
      var init := docs[..|docs| - 1];
      MaxSpanZero(init);
      assert forall i :: 0 <= i < |init| ==> init[i] == docs[i];
    }
  }

  /** The file loop of `extract_word_to_excel`: the rows of every document
      in order, and the largest span; a sheet is written only when there
      are rows. */
  method ExtractWordToExcel(docs: seq<Document>, n: int) returns (rows: seq<OutlineRow>, maxSpan: nat, written: bool)
    ensures rows == AllRows(docs, n) && maxSpan == MaxSpan(docs)
    ensures written <==> rows != []
  {
    rows, maxSpan := [], 0;
    for i := 0 to |docs|
      invariant rows == AllRows(docs[..i], n) && maxSpan == MaxSpan(docs[..i])
    {
      DocumentsStep(docs, i, n);
      var docRows, span := ExtractDocument(docs[i], n);
      if span.None? {
        continue;
      }
      if span.value > maxSpan {
        maxSpan := span.value;
      }
      rows := rows + docRows;
    }
    assert docs[..|docs|] == docs;
    written := rows != [];
  }

  lemma DocumentsStep(docs: seq<Document>, i: nat, n: int)
    requires i < |docs|
    ensures AllRows(docs[..i + 1], n) == AllRows(docs[..i], n) + DocumentRows(docs[i], n)
    ensures var s := Span(docs[i].paras);
      MaxSpan(docs[..i + 1]) == if s.Some? && s.value > MaxSpan(docs[..i]) then s.value else MaxSpan(docs[..i])
  {
    assert docs[..i + 1][..i] == docs[..i];
  }

  // ---------------------------------------------------------------------
  // The sheet's columns
  // ---------------------------------------------------------------------

  const DocumentColumn: string := "word文档名称"
  const ContentColumn: string := "内容"

  /** `第{i}层标题`. */
  function LevelColumn(i: nat): string
  {
    "第" + NatToString(i) + "层标题"
  }

  /** The column list: the document name, one heading column per level
      `1..n`, then the content. */
  method BuildColumns(n: int) returns (cols: seq<string>)
    ensures |cols| == (if n > 0 then n else 0) + 2
    ensures cols[0] == DocumentColumn && cols[|cols| - 1] == ContentColumn
    ensures forall i :: 1 <= i < |cols| - 1 ==> cols[i] == LevelColumn(i)
  {
    cols := [DocumentColumn];
    var i := 1;
    while i < n + 1
      invariant 1 <= i && (i <= n + 1 || i == 1)
      invariant |cols| == i && cols[0] == DocumentColumn
      invariant forall k :: 1 <= k < i ==> cols[k] == LevelColumn(k)
    {
      cols := cols + [LevelColumn(i)];
      i := i + 1;
    }
    cols := cols + [ContentColumn];
  }

  /** A row laid out on the columns (`reindex(columns).fillna('')`): a
      heading column the row does not have is blank. */
  function Cells(r: OutlineRow, n: int): (cells: seq<string>)
    ensures |cells| == (if n > 0 then n else 0) + 2
    ensures cells[0] == r.document && cells[|cells| - 1] == r.content
    ensures forall j :: 1 <= j < |cells| - 1 ==>
      cells[j] == (if j - 1 < |r.headings| then r.headings[j - 1] else [])
  {
    var width := if n > 0 then n else 0;
    [r.document] + seq(width, j requires 0 <= j < width => if j < |r.headings| then r.headings[j] else [])
      + [r.content]
  }

  /** The heading columns have distinct names. */
  lemma LevelColumnsDistinct(i: nat, j: nat)
    requires i != j
    ensures LevelColumn(i) != LevelColumn(j)
  {
    DigitsOfNat(i);
    DigitsOfNat(j);
    var a, b := NatToString(i), NatToString(j);
    var ci, cj := LevelColumn(i), LevelColumn(j);
    if |a| != |b| {
      assert |ci| == |a| + 4 && |cj| == |b| + 4;
    } else {
      assert a != b;
      var k :| 0 <= k < |a| && a[k] != b[k];
      assert ci[k + 1] == a[k] && cj[k + 1] == b[k];
    }
  }
}
