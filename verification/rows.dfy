/** The row builders that turn extracted document elements into rows for
    the Excel sheet and for the `document_contents` table. */
module ElementRows {
  import opened Strings
  import opened Sanitize

  /** A level or page value as stored on an element. */
  datatype Value = VNull | VInt(i: int) | VStr(s: string)

  /** An extracted element; a field is `None` when its key is absent. */
  datatype Element = Element(
    kind: Option<string>,
    text: Option<string>,
    path: Option<string>,
    info: Option<string>,
    table: Option<seq<seq<string>>>,
    level: Option<Value>,
    page: Option<Value>)

  /** `elem.get("type", "unknown")`. */
  function KindOf(e: Element): string
  {
    if e.kind.Some? then e.kind.value else "unknown"
  }

  function TextOr(v: Option<string>, default: string): string
  {
    if v.Some? then v.value else default
  }

  // ---------------------------------------------------------------------
  // Excel rows
  // ---------------------------------------------------------------------

  datatype ExcelRow = ExcelRow(fileId: string, elementType: string, contentId: nat, text: string, level: Value, pageNo: Value)

  /** The raw text an Excel row shows, before cleaning: the path of an image
      or failed element that has one (its info if the path is empty), the
      serialised table of a table element, otherwise the text; an empty
      choice falls back to the info. */
  function ExcelRawText(e: Element): string
  {
    var kind := KindOf(e);
    var chosen :=
      if (ContainsText(kind, "image") || ContainsText(kind, "failed")) && e.path.Some? then
        (if e.path.value == [] && e.info.Some? then e.info.value else e.path.value)
      else if ContainsText(kind, "table") && e.table.Some? then FormatTable(Capped, e.table.value)
      else TextOr(e.text, "");
    if chosen == [] && e.info.Some? then e.info.value else chosen
  }

  /** A missing or `None` value is written as an empty cell. */
  function BlankIfNone(v: Option<Value>): Value
  {
    if v.None? || v.value == VNull then VStr("") else v.value
  }

  function ExcelRowOf(e: Element, id: nat, docId: string): ExcelRow
  {
    ExcelRow(docId, KindOf(e), id, CleanCapped(ExcelRawText(e)), BlankIfNone(e.level), BlankIfNone(e.page))
  }

  /** The body of the row loop of `save_elements_to_excel` for one
      element. */
  method ExcelRowFor(e: Element, contentId: nat, docId: string) returns (row: ExcelRow)
    ensures row == ExcelRowOf(e, contentId, docId)
  {
    var kind := KindOf(e);
    var raw := TextOr(e.text, "");
    if (ContainsText(kind, "image") || ContainsText(kind, "failed")) && e.path.Some? {
      raw := e.path.value;
      if raw == [] && e.info.Some? {
        raw := e.info.value;
      }
    } else if ContainsText(kind, "table") && e.table.Some? {
      raw := FormatTable(Capped, e.table.value);
    }
    if raw == [] && e.info.Some? {
      raw := e.info.value;
    }
    row := ExcelRow(docId, kind, contentId, CleanCapped(raw), BlankIfNone(e.level), BlankIfNone(e.page));
  }

  /** The row loop of `save_elements_to_excel`: rows numbered from 1 in
      element order. */
  method ExcelRows(elements: seq<Element>, docId: string) returns (rows: seq<ExcelRow>)
    ensures |rows| == |elements|
    ensures forall i :: 0 <= i < |rows| ==> rows[i] == ExcelRowOf(elements[i], i + 1, docId)
  {
    rows := [];
    var contentId := 0;
    for i := 0 to |elements|
      invariant contentId == i && |rows| == i
      invariant forall j :: 0 <= j < i ==> rows[j] == ExcelRowOf(elements[j], j + 1, docId)
    {
      contentId := contentId + 1;
      var row := ExcelRowFor(elements[i], contentId, docId);
      ExcelRowsStep(rows, row, elements, docId);
      rows := rows + [row];
    }
  }

  lemma ExcelRowsStep(rows: seq<ExcelRow>, row: ExcelRow, elements: seq<Element>, docId: string)
    requires |rows| < |elements| && row == ExcelRowOf(elements[|rows|], |rows| + 1, docId)
    requires forall j :: 0 <= j < |rows| ==> rows[j] == ExcelRowOf(elements[j], j + 1, docId)
    ensures forall j :: 0 <= j < |rows| + 1 ==> (rows + [row])[j] == ExcelRowOf(elements[j], j + 1, docId)
  {
    forall j | 0 <= j < |rows| + 1
      ensures (rows + [row])[j] == ExcelRowOf(elements[j], j + 1, docId)
    {
      if j < |rows| {
        assert (rows + [row])[j] == rows[j];
      }
    }
  }

  /** What every Excel row holds: the element's type (`unknown` if it has
      none), a cell text made of XML characters within the cell limit
      (plus the truncation suffix), and a blank level or page exactly when
      the element's is missing or `None`. */
  lemma ExcelRowFacts(e: Element, id: nat, docId: string)
    ensures var r := ExcelRowOf(e, id, docId);
      r.contentId == id && r.elementType == KindOf(e) &&
      (forall k :: 0 <= k < |r.text| ==> IsXmlChar(r.text[k])) &&
      |r.text| <= CellCharLimit + |TruncationSuffix| &&
      (r.level == VStr("") <==> e.level.None? || e.level.value in {VNull, VStr("")}) &&
      (r.pageNo == VStr("") <==> e.page.None? || e.page.value in {VNull, VStr("")})
  {
  }

  /** A table element's cell shows its serialised table, and a plain
      paragraph with text shows that text, both cleaned. */
  lemma ExcelTextChoice(e: Element)
    ensures (!ContainsText(KindOf(e), "image") && !ContainsText(KindOf(e), "failed") &&
      ContainsText(KindOf(e), "table") && e.table.Some? && FormatTable(Capped, e.table.value) != []) ==>
      ExcelRawText(e) == FormatTable(Capped, e.table.value)
    ensures (!ContainsText(KindOf(e), "image") && !ContainsText(KindOf(e), "failed") &&
      !ContainsText(KindOf(e), "table") && e.text.Some? && e.text.value != []) ==>
      ExcelRawText(e) == e.text.value
    ensures ExcelRawText(e) == [] ==> e.info.None? || e.info.value == []
  {
  }

  // ---------------------------------------------------------------------
  // Database rows
  // ---------------------------------------------------------------------

  /** `element_type` is a VARCHAR(20): the type is cut to 20 characters. */
  const TypeWidth: nat := 20

  datatype DbRow = DbRow(fileId: string, elementType: string, contentId: string, text: string,
                         sequenceOrder: nat, level: Option<int>, pageNo: Option<int>)

  /** `int(v) if v is not None else None`, with a `ValueError` turned into
      `None`. */
  function ToInt(v: Option<Value>): Option<int>
  {
    if v.None? then None
    else match v.value
      case VNull => None
      case VInt(i) => Some(i)
      case VStr(s) => ParseInt(s)
  }

  /** The raw text of a database row: the serialised table of a table
      element (judged on the cut type), else the text if the key exists,
      else nothing. */
  function DbRawText(e: Element): string
  {
    var kind := Take(KindOf(e), TypeWidth);
    if ContainsText(kind, "table") && e.table.Some? then FormatTable(XmlFilterOnly, e.table.value)
    else if e.text.Some? then e.text.value
    else ""
  }

  function DbRowOf(e: Element, index: nat, fileId: string): DbRow
  {
    DbRow(fileId, Take(KindOf(e), TypeWidth), NatToString(index + 1), XmlOnly(DbRawText(e)),
          index + 1, ToInt(e.level), ToInt(e.page))
  }

  /** The body of the row loop of `save_elements_to_db` for the element
      at `index`. */
  method DbRowFor(e: Element, index: nat, fileId: string) returns (row: DbRow)
    ensures row == DbRowOf(e, index, fileId)
  {
    var contentId := NatToString(index + 1);
    var kind := Take(KindOf(e), TypeWidth);
    var raw := "";
    if ContainsText(kind, "table") && e.table.Some? {
      raw := FormatTable(XmlFilterOnly, e.table.value);
    } else if e.text.Some? {
      raw := e.text.value;
    }
    row := DbRow(fileId, kind, contentId, XmlOnly(raw), index + 1, ToInt(e.level), ToInt(e.page));
  }

  /** The row loop of `save_elements_to_db`. */
  method DbRows(elements: seq<Element>, fileId: string) returns (rows: seq<DbRow>)
    ensures |rows| == |elements|
    ensures forall i :: 0 <= i < |rows| ==> rows[i] == DbRowOf(elements[i], i, fileId)
  {
    rows := [];
    if elements == [] {
      return;
    }
    for i := 0 to |elements|
      invariant |rows| == i
      invariant forall j :: 0 <= j < i ==> rows[j] == DbRowOf(elements[j], j, fileId)
    {
      var row := DbRowFor(elements[i], i, fileId);
      DbRowsStep(rows, row, elements, fileId);
      rows := rows + [row];
    }
  }

  lemma DbRowsStep(rows: seq<DbRow>, row: DbRow, elements: seq<Element>, fileId: string)
    requires |rows| < |elements| && row == DbRowOf(elements[|rows|], |rows|, fileId)
    requires forall j :: 0 <= j < |rows| ==> rows[j] == DbRowOf(elements[j], j, fileId)
    ensures forall j :: 0 <= j < |rows| + 1 ==> (rows + [row])[j] == DbRowOf(elements[j], j, fileId)
  {
    forall j | 0 <= j < |rows| + 1
      ensures (rows + [row])[j] == DbRowOf(elements[j], j, fileId)
    {
      if j < |rows| {
        assert (rows + [row])[j] == rows[j];
      }
    }
  }

  /** Row `i` is numbered `i + 1` both as text and as sequence order, its
      type is at most 20 characters and a prefix of the element's type, and
      its text holds XML characters only. */
  lemma DbRowFacts(e: Element, index: nat, fileId: string)
    ensures var r := DbRowOf(e, index, fileId);
      ParseInt(r.contentId) == Some(index + 1) && r.sequenceOrder == index + 1 &&
      |r.elementType| <= TypeWidth && r.elementType == KindOf(e)[..|r.elementType|] &&
      (forall k :: 0 <= k < |r.text| ==> IsXmlChar(r.text[k]))
  {
    ParseIntOfIntToString(index + 1);
  }

  /** The second cleaning of a table's text changes nothing: the serialised
      table is already made of XML characters. */
  lemma DbTableTextIsFormatted(e: Element)
    requires ContainsText(Take(KindOf(e), TypeWidth), "table") && e.table.Some?
    ensures DbRowOf(e, 0, "").text == FormatTable(XmlFilterOnly, e.table.value)
  {
    FilterKeepsClean(FormatTable(XmlFilterOnly, e.table.value), IsXmlChar);
  }

  /** A level or page stored as an integer, or as the decimal text of one,
      converts to that integer; a missing or `None` value gives `None`. */
  lemma ToIntCases(i: int)
    ensures ToInt(Some(VInt(i))) == Some(i)
    ensures ToInt(Some(VStr(IntToString(i)))) == Some(i)
    ensures ToInt(None) == None && ToInt(Some(VNull)) == None
  {
    ToIntOfText(IntToString(i), i);
  }

  lemma ToIntOfText(s: string, i: int)
    requires s == IntToString(i)
    ensures ToInt(Some(VStr(s))) == Some(i)
  {
    ParseIntOfIntToString(i);
  }
}
