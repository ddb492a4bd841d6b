/** The flattening parser that stores a document's headings as a tree in
    `material_contents`: every heading becomes a row under the heading
    recorded one level up, numbered among its siblings, with the titles of
    its path repeated in `title1..title8`; the body paragraphs after a
    heading are collected and written into that heading's `content`. */
module Flatten {
  import opened Strings
  import opened Sanitize
  import opened Outline

  /** The cleaned text of a paragraph: its list number and raw text joined
      by one space, then `clean_text`. */
  function FlatText(p: Paragraph): (r: string)
    ensures forall k :: 0 <= k < |r| ==> !IsStrayControl(r[k]) && r[k] != Bell
    ensures r == [] || (!IsSpace(r[0]) && !IsSpace(r[|r| - 1]))
  {
    CleanFlatten(FullText(p))
  }

  /** One inserted heading row (`material_id`, the timestamps and the
      `NULL` columns are left out). */
  datatype HeadingRow = HeadingRow(id: nat, parent: Option<nat>, level: int, sequence: nat,
                                   title: string, titles: seq<Option<string>>)

  /** The statements the parser sends to the database, in order. */
  datatype DbOp = Insert(row: HeadingRow) | Update(id: nat, content: string)

  /** The parser's local state: the id recorded per level (level 0 is the
      root, recorded as `None`), the next sequence number per parent, the
      title per level, the body buffer, the id of the last heading, the
      statements issued so far and the id the next insert gets. */
  datatype FlatState = FlatState(idAtLevel: map<int, Option<nat>>, counters: map<Option<nat>, nat>,
                                 path: map<int, string>, buffer: seq<string>, lastHeading: Option<nat>,
                                 log: seq<DbOp>, nextId: nat)

  function Init(firstId: nat): FlatState
  {
    FlatState(map[0 := None], map[None := 0], map[], [], None, [], firstId)
  }

  /** `dict.get(level)` on the id map. */
  function IdGet(m: map<int, Option<nat>>, l: int): Option<nat>
  {
    if l in m then m[l] else None
  }

  /** `dict.get(level)` on the title path. */
  function TitleGet(m: map<int, string>, l: int): Option<string>
  {
    if l in m then Some(m[l]) else None
  }

  /** `sequence_counters.get(parent, 0)`. */
  function CounterGet(m: map<Option<nat>, nat>, p: Option<nat>): nat
  {
    if p in m then m[p] else 0
  }

  /** Python's truth value of an optional id: `None` and `0` are false. */
  predicate Truthy(id: Option<nat>)
  {
    id.Some? && id.value != 0
  }

  /** Deleting every key deeper than `level`. */
  function DropDeeper<V>(m: map<int, V>, level: int): (r: map<int, V>)
    ensures forall k :: k in r <==> k in m && k <= level
    ensures forall k :: k in r ==> r[k] == m[k]
  {
    map k | k in m && k <= level :: m[k]
  }

  /** `title1..title8` read from the path. */
  function TitlesOf(path: map<int, string>): (titles: seq<Option<string>>)
    ensures |titles| == 8
    ensures forall l :: 1 <= l <= 8 ==> titles[l - 1] == TitleGet(path, l)
  {
    [TitleGet(path, 1), TitleGet(path, 2), TitleGet(path, 3), TitleGet(path, 4),
     TitleGet(path, 5), TitleGet(path, 6), TitleGet(path, 7), TitleGet(path, 8)]
  }

  /** `flush_content_buffer`: with a non-empty buffer and a last heading,
      the stripped joined buffer is written into that heading (when it is
      not empty) and the buffer is cleared; otherwise nothing happens. */
  function Flush(st: FlatState): FlatState
  {
    if st.buffer != [] && Truthy(st.lastHeading) then
      var full := Strip(Join("\n", st.buffer));
      st.(log := if full != [] then st.log + [Update(st.lastHeading.value, full)] else st.log,
          buffer := [])
    else st
  }

  /** A heading at `level` (1-9) with cleaned text `text`: flush, then
      insert the row under the id recorded one level up, numbered by that
      parent's counter, record its title and id at `level`, and forget
      every deeper title and id. */
  function Heading(st: FlatState, level: int, text: string): FlatState
  {
    Record(Flush(st), level, text)
  }

  /** The part of a heading after the flush. */
  function Record(st1: FlatState, level: int, text: string): FlatState
  {
    var parent := IdGet(st1.idAtLevel, level - 1);
    var sequence := CounterGet(st1.counters, parent);
    var path := DropDeeper(st1.path[level := text], level);
    var id := st1.nextId;
    var row := HeadingRow(id, parent, level, sequence, text, TitlesOf(path));
    st1.(idAtLevel := DropDeeper(st1.idAtLevel[level := Some(id)], level),
         counters := st1.counters[parent := sequence + 1],
         path := path,
         lastHeading := Some(id),
         log := st1.log + [Insert(row)],
         nextId := id + 1)
  }

  /** A paragraph as the loop sees it: skipped when its cleaned text is
      empty, a heading at outline level 1-9, body text otherwise. */
  datatype Piece = Head(level: int, text: string) | Body(text: string)

  predicate Trimmed(t: string)
  {
    t != [] && !IsSpace(t[0]) && !IsSpace(t[|t| - 1])
  }

  function PieceOf(p: Paragraph): (r: Option<Piece>)
    ensures r.Some? ==> Trimmed(r.value.text)
    ensures r.Some? && r.value.Head? ==> IsHeading(r.value.level)
    ensures r.None? <==> FlatText(p) == []
  {
    var text := FlatText(p);
    if text == [] then None
    else if IsHeading(p.outlineLevel) then Some(Head(p.outlineLevel, text))
    else Some(Body(text))
  }

  /** The pieces of a document, in order. */
  function Pieces(paras: seq<Paragraph>): seq<Piece>
    decreases |paras|
  {
    if paras == [] then []
    else
      var p := PieceOf(paras[|paras| - 1]);
      Pieces(paras[..|paras| - 1]) + (if p.Some? then [p.value] else [])
  }

  /** One iteration of the paragraph loop. */
  function Step(st: FlatState, piece: Piece): FlatState
  {
    match piece
    case Head(level, text) => Heading(st, level, text)
    case Body(text) => st.(buffer := st.buffer + [text])
  }

  function LoopStep(st: FlatState, p: Paragraph): FlatState
  {
    var piece := PieceOf(p);
    if piece.None? then st else Step(st, piece.value)
  }

  /** The three ways one paragraph changes the state: an empty paragraph
      changes nothing, a heading flushes and records, body text is
      buffered. */
  lemma LoopStepSkip(st: FlatState, p: Paragraph)
    requires FlatText(p) == []
    ensures LoopStep(st, p) == st
  {
  }

  lemma LoopStepHeading(st: FlatState, p: Paragraph, st': FlatState)
    requires FlatText(p) != [] && 1 <= p.outlineLevel <= 9
    requires st' == Record(Flush(st), p.outlineLevel, FlatText(p))
    ensures LoopStep(st, p) == st'
  {
  }

  lemma LoopStepBody(st: FlatState, p: Paragraph, st': FlatState)
    requires FlatText(p) != [] && !(1 <= p.outlineLevel <= 9)
    requires st' == st.(buffer := st.buffer + [FlatText(p)])
    ensures LoopStep(st, p) == st'
  {
  }

  /** The state after the paragraph loop over `paras`. */
  function Run(paras: seq<Paragraph>, firstId: nat): FlatState
    decreases |paras|
  {
    if paras == [] then Init(firstId)
    else LoopStep(Run(paras[..|paras| - 1], firstId), paras[|paras| - 1])
  }

  function RunPieces(ps: seq<Piece>, firstId: nat): FlatState
    decreases |ps|
  {
    if ps == [] then Init(firstId)
    else Step(RunPieces(ps[..|ps| - 1], firstId), ps[|ps| - 1])
  }

  /** The statements issued for one document: the loop, then the final
      flush. */
  function DocumentLog(paras: seq<Paragraph>, firstId: nat): seq<DbOp>
  {
    Flush(Run(paras, firstId)).log
  }

  /** The loop over paragraphs is the loop over their pieces: skipped
      paragraphs change nothing. */
  lemma {:induction false} RunIsRunPieces(paras: seq<Paragraph>, firstId: nat)
    ensures Run(paras, firstId) == RunPieces(Pieces(paras), firstId)
    decreases |paras|
  {
    if paras != [] {
      var init := paras[..|paras| - 1];
      RunIsRunPieces(init, firstId);
      var last := paras[|paras| - 1];
      var p := PieceOf(last);
      var ps := Pieces(paras);
      assert Run(paras, firstId) == LoopStep(Run(init, firstId), last);
      if p.Some? {
        assert ps == Pieces(init) + [p.value];
        assert ps[..|ps| - 1] == Pieces(init);
        assert RunPieces(ps, firstId) == Step(RunPieces(Pieces(init), firstId), p.value);
      } else {
        assert ps == Pieces(init);
      }
    }
  }

  // ---------------------------------------------------------------------
  // The rows inserted so far, and what the state remembers of them
  // ---------------------------------------------------------------------

  /** The rows of the `INSERT` statements, in order. */
  function Inserted(log: seq<DbOp>): (rows: seq<HeadingRow>)
    ensures |rows| <= |log|
    decreases |log|
  {
    if log == [] then []
    else
      var op := log[|log| - 1];
      Inserted(log[..|log| - 1]) + (if op.Insert? then [op.row] else [])
  }

  lemma InsertedAppend(log: seq<DbOp>, op: DbOp)
    ensures Inserted(log + [op]) == Inserted(log) + (if op.Insert? then [op.row] else [])
  {
    assert (log + [op])[..|log|] == log;
  }

  /** The index of the heading whose id and title are recorded at level
      `l` after `rows`: the last row at level `l` or above, provided it is
      at level `l` itself. */
  function Latest(rows: seq<HeadingRow>, l: int): (r: Option<nat>)
    ensures r.Some? ==> r.value < |rows| && rows[r.value].level == l
    decreases |rows|
  {
    if rows == [] then None
    else
      var last := rows[|rows| - 1];
      if last.level == l then Some(|rows| - 1)
      else if last.level < l then None
      else Latest(rows[..|rows| - 1], l)
  }

  /** `Latest` picks the row at level `l` after which every row is deeper
      than `l`, and only that one. */
  lemma {:induction false} LatestCharacterised(rows: seq<HeadingRow>, l: int, j: nat)
    ensures Latest(rows, l) == Some(j) <==>
      j < |rows| && rows[j].level == l && forall k :: j < k < |rows| ==> rows[k].level > l
    decreases |rows|
  {
    if rows != [] {
      var init := rows[..|rows| - 1];
      LatestCharacterised(init, l, j);
      if j < |init| {
        assert init[j] == rows[j];
        assert forall k :: j < k < |init| ==> init[k] == rows[k];
      }
    }
  }

  lemma LatestAppend(rows: seq<HeadingRow>, r: HeadingRow, l: int)
    ensures Latest(rows + [r], l) ==
      if r.level == l then Some(|rows|) else if r.level < l then None else Latest(rows, l)
  {
    assert (rows + [r])[..|rows|] == rows;
  }

  /** The id recorded at level `l` after `rows`. */
  function IdAt(rows: seq<HeadingRow>, l: int): Option<nat>
  {
    var j := Latest(rows, l);
    if j.Some? then Some(rows[j.value].id) else None
  }

  /** The title recorded at level `l` after `rows`. */
  function TitleAt(rows: seq<HeadingRow>, l: int): Option<string>
  {
    var j := Latest(rows, l);
    if j.Some? then Some(rows[j.value].title) else None
  }

  /** The title recorded at level `l` once a heading at `level` titled
      `title` follows `rows`: the earlier title above it, its own title at
      its level, nothing below it. */
  function PathTitle(rows: seq<HeadingRow>, level: int, title: string, l: int): Option<string>
  {
    if l < level then TitleAt(rows, l) else if l == level then Some(title) else None
  }

  /** `title1..title8` of a heading at `level` titled `title` that follows
      `rows`. */
  function PathTitles(rows: seq<HeadingRow>, level: int, title: string): (titles: seq<Option<string>>)
    ensures |titles| == 8
  {
    [PathTitle(rows, level, title, 1), PathTitle(rows, level, title, 2),
     PathTitle(rows, level, title, 3), PathTitle(rows, level, title, 4),
     PathTitle(rows, level, title, 5), PathTitle(rows, level, title, 6),
     PathTitle(rows, level, title, 7), PathTitle(rows, level, title, 8)]
  }

  /** The number of rows inserted under parent `p`. */
  function CountParent(rows: seq<HeadingRow>, p: Option<nat>): nat
    decreases |rows|
  {
    if rows == [] then 0
    else CountParent(rows[..|rows| - 1], p) + (if rows[|rows| - 1].parent == p then 1 else 0)
  }

  /** What every inserted row says about the rows before it: a heading
      level 1-9 and a non-empty title; its parent is the id recorded one
      level up; its sequence is the number of earlier siblings, so they
      count from 0; and `title1..title8` are the titles recorded at levels
      1-8 once its own title is recorded: the earlier ones above its
      level, its own, and none below. */
  ghost predicate RowFacts(rows: seq<HeadingRow>, k: nat)
    requires k < |rows|
  {
    var r := rows[k];
    IsHeading(r.level) && Trimmed(r.title) &&
    r.parent == IdAt(rows[..k], r.level - 1) &&
    r.sequence == CountParent(rows[..k], r.parent) &&
    r.titles == PathTitles(rows[..k], r.level, r.title)
  }

  /** The state agrees with the rows inserted so far: ids are handed out
      one by one from `firstId`, the last heading is the last row, and the
      id map, the title path and the counters hold exactly what the rows
      determine. */
  ghost predicate TreeInv(st: FlatState, firstId: nat)
  {
    var rows := Inserted(st.log);
    IdsInv(st, rows, firstId) && MapsInv(st, rows) && FactsInv(rows)
  }

  /** Ids are handed out one by one from `firstId`, and the last heading is
      the last row. */
  ghost predicate IdsInv(st: FlatState, rows: seq<HeadingRow>, firstId: nat)
  {
    st.nextId == firstId + |rows| &&
    (forall k :: 0 <= k < |rows| ==> rows[k].id == firstId + k) &&
    st.lastHeading == (if rows == [] then None else Some(firstId + |rows| - 1))
  }

  /** The id map, the title path and the counters hold exactly what the
      rows determine. */
  ghost predicate MapsInv(st: FlatState, rows: seq<HeadingRow>)
  {
    (forall l :: 0 <= l <= 9 ==> IdGet(st.idAtLevel, l) == IdAt(rows, l)) &&
    (forall l :: 1 <= l <= 9 ==> TitleGet(st.path, l) == TitleAt(rows, l)) &&
    (forall p :: CounterGet(st.counters, p) == CountParent(rows, p))
  }

  ghost predicate FactsInv(rows: seq<HeadingRow>)
  {
    forall k :: 0 <= k < |rows| ==> RowFacts(rows, k)
  }

  lemma InitTree(firstId: nat)
    ensures TreeInv(Init(firstId), firstId)
  {
  }

  /** A flush adds at most an update: the rows stay the same. */
  lemma FlushKeepsRows(st: FlatState)
    ensures var st1 := Flush(st);
      Inserted(st1.log) == Inserted(st.log) &&
      st1 == st.(log := st1.log, buffer := st1.buffer)
  {
    if st.buffer != [] && Truthy(st.lastHeading) {
      var full := Strip(Join("\n", st.buffer));
      if full != [] {
        InsertedAppend(st.log, Update(st.lastHeading.value, full));
      }
    }
  }

  lemma IdMapStep(m: map<int, Option<nat>>, rows: seq<HeadingRow>, r: HeadingRow)
    requires forall l :: 0 <= l <= 9 ==> IdGet(m, l) == IdAt(rows, l)
    ensures forall l :: 0 <= l <= 9 ==>
      IdGet(DropDeeper(m[r.level := Some(r.id)], r.level), l) == IdAt(rows + [r], l)
  {
    forall l | 0 <= l <= 9
      ensures IdGet(DropDeeper(m[r.level := Some(r.id)], r.level), l) == IdAt(rows + [r], l)
    {
      LatestAppend(rows, r, l);
      var j := Latest(rows, l);
      var m' := DropDeeper(m[r.level := Some(r.id)], r.level);
      if r.level > l {
        assert l in m' <==> l in m;
        if l in m {
          assert m'[l] == m[l];
        }
        assert IdGet(m', l) == IdGet(m, l);
        if j.Some? {
          assert (rows + [r])[j.value] == rows[j.value];
        }
        assert IdAt(rows + [r], l) == IdAt(rows, l);
      } else if r.level == l {
        assert m'[l] == Some(r.id);
        assert IdAt(rows + [r], l) == Some(r.id);
      } else {
        assert l !in m';
        assert IdAt(rows + [r], l) == None;
      }
    }
  }

  lemma PathStep(m: map<int, string>, rows: seq<HeadingRow>, r: HeadingRow)
    requires forall l :: 1 <= l <= 9 ==> TitleGet(m, l) == TitleAt(rows, l)
    ensures forall l :: 1 <= l <= 9 ==>
      TitleGet(DropDeeper(m[r.level := r.title], r.level), l) == TitleAt(rows + [r], l)
  {
    forall l | 1 <= l <= 9
      ensures TitleGet(DropDeeper(m[r.level := r.title], r.level), l) == TitleAt(rows + [r], l)
    {
      LatestAppend(rows, r, l);
      var j := Latest(rows, l);
      var m' := DropDeeper(m[r.level := r.title], r.level);
      if r.level > l {
        assert l in m' <==> l in m;
        if l in m {
          assert m'[l] == m[l];
        }
        assert TitleGet(m', l) == TitleGet(m, l);
        if j.Some? {
          assert (rows + [r])[j.value] == rows[j.value];
        }
        assert TitleAt(rows + [r], l) == TitleAt(rows, l);
      } else if r.level == l {
        assert m'[l] == r.title;
        assert TitleAt(rows + [r], l) == Some(r.title);
      } else {
        assert l !in m';
        assert TitleAt(rows + [r], l) == None;
      }
    }
  }

  lemma CounterStep(m: map<Option<nat>, nat>, rows: seq<HeadingRow>, r: HeadingRow)
    requires forall p :: CounterGet(m, p) == CountParent(rows, p)
    ensures forall p :: CounterGet(m[r.parent := CountParent(rows, r.parent) + 1], p) == CountParent(rows + [r], p)
  {
    assert (rows + [r])[..|rows|] == rows;
  }

  lemma RowFactsKept(rows: seq<HeadingRow>, r: HeadingRow, k: nat)
    requires k < |rows| && RowFacts(rows, k)
    ensures RowFacts(rows + [r], k)
  {
    assert (rows + [r])[..k] == rows[..k];
    assert (rows + [r])[..k + 1] == rows[..k + 1];
  }

  /** A heading keeps the tree invariant. */
  lemma HeadingTree(st: FlatState, level: int, text: string, firstId: nat)
    requires TreeInv(st, firstId) && IsHeading(level) && Trimmed(text)
    ensures TreeInv(Heading(st, level, text), firstId)
  {
    FlushKeepsRows(st);
    RecordTree(Flush(st), level, text, firstId);
  }

  /** What recording a heading does: one row is inserted, with the next
      id, the parent recorded one level up, that parent's counter and the
      titles of the new path. */
  lemma RecordShape(st1: FlatState, level: int, text: string)
    ensures var st2 := Record(st1, level, text);
      var r := st2.log[|st1.log|].row;
      st2.log == st1.log + [Insert(r)] &&
      Inserted(st2.log) == Inserted(st1.log) + [r] &&
      r.id == st1.nextId && r.level == level && r.title == text &&
      r.parent == IdGet(st1.idAtLevel, level - 1) &&
      r.sequence == CounterGet(st1.counters, r.parent) &&
      r.titles == TitlesOf(st2.path) &&
      st2.idAtLevel == DropDeeper(st1.idAtLevel[r.level := Some(r.id)], r.level) &&
      st2.path == DropDeeper(st1.path[r.level := r.title], r.level) &&
      st2.counters == st1.counters[r.parent := r.sequence + 1] &&
      st2.lastHeading == Some(r.id) && st2.nextId == r.id + 1
  {
    var st2 := Record(st1, level, text);
    InsertedAppend(st1.log, st2.log[|st1.log|]);
  }

  lemma RecordTree(st1: FlatState, level: int, text: string, firstId: nat)
    requires TreeInv(st1, firstId) && IsHeading(level) && Trimmed(text)
    ensures TreeInv(Record(st1, level, text), firstId)
  {
    var st2 := Record(st1, level, text);
    RecordShape(st1, level, text);
    var r := st2.log[|st1.log|].row;
    assert st2.idAtLevel == DropDeeper(st1.idAtLevel[r.level := Some(r.id)], r.level);
    assert st2.path == DropDeeper(st1.path[r.level := r.title], r.level);
    RecordTreeStep(st1, st2, Inserted(st1.log), r, firstId);
  }

  /** The invariant step for a state shaped as a recorded heading. */
  lemma RecordTreeStep(st1: FlatState, st2: FlatState, rows: seq<HeadingRow>, r: HeadingRow, firstId: nat)
    requires TreeInv(st1, firstId) && IsHeading(r.level) && Trimmed(r.title)
    requires rows == Inserted(st1.log) && Inserted(st2.log) == rows + [r]
    requires r.id == st1.nextId && r.parent == IdGet(st1.idAtLevel, r.level - 1)
    requires r.sequence == CounterGet(st1.counters, r.parent) && r.titles == TitlesOf(st2.path)
    requires st2.idAtLevel == DropDeeper(st1.idAtLevel[r.level := Some(r.id)], r.level)
    requires st2.path == DropDeeper(st1.path[r.level := r.title], r.level)
    requires st2.counters == st1.counters[r.parent := r.sequence + 1]
    requires st2.lastHeading == Some(r.id) && st2.nextId == r.id + 1
    ensures TreeInv(st2, firstId)
  {
    IdsStep(st1, st2, rows, r, firstId);
    MapsStep(st1, st2, rows, r);
    NewRowTitles(st1.path, rows, r);
    NewRowFacts(rows, r);
    FactsStep(rows, r);
  }

  lemma MapsStep(st1: FlatState, st2: FlatState, rows: seq<HeadingRow>, r: HeadingRow)
    requires MapsInv(st1, rows)
    requires st2.idAtLevel == DropDeeper(st1.idAtLevel[r.level := Some(r.id)], r.level)
    requires st2.path == DropDeeper(st1.path[r.level := r.title], r.level)
    requires st2.counters == st1.counters[r.parent := CounterGet(st1.counters, r.parent) + 1]
    ensures MapsInv(st2, rows + [r])
  {
    IdMapStep(st1.idAtLevel, rows, r);
    PathStep(st1.path, rows, r);
    CounterStep(st1.counters, rows, r);
  }

  lemma NewRowTitles(path: map<int, string>, rows: seq<HeadingRow>, r: HeadingRow)
    requires forall l :: 1 <= l <= 9 ==> TitleGet(path, l) == TitleAt(rows, l)
    requires r.titles == TitlesOf(DropDeeper(path[r.level := r.title], r.level))
    ensures r.titles == PathTitles(rows, r.level, r.title)
  {
    var m := DropDeeper(path[r.level := r.title], r.level);
    forall l | 1 <= l <= 8 ensures TitleGet(m, l) == PathTitle(rows, r.level, r.title, l) {
      if l < r.level {
        assert l in m <==> l in path;
        if l in path {
          assert m[l] == path[l];
        }
      } else if l == r.level {
        assert m[l] == r.title;
      } else {
        assert l !in m;
      }
    }
    TitlesAgree(m, rows, r.level, r.title);
  }

  lemma IdsStep(st1: FlatState, st2: FlatState, rows: seq<HeadingRow>, r: HeadingRow, firstId: nat)
    requires IdsInv(st1, rows, firstId)
    requires r.id == st1.nextId && st2.lastHeading == Some(r.id) && st2.nextId == r.id + 1
    ensures IdsInv(st2, rows + [r], firstId)
  {
    assert forall k :: 0 <= k < |rows| ==> (rows + [r])[k] == rows[k];
  }

  lemma NewRowFacts(rows: seq<HeadingRow>, r: HeadingRow)
    requires IsHeading(r.level) && Trimmed(r.title) && r.titles == PathTitles(rows, r.level, r.title)
    requires r.parent == IdAt(rows, r.level - 1) && r.sequence == CountParent(rows, r.parent)
    ensures RowFacts(rows + [r], |rows|)
  {
    assert (rows + [r])[..|rows|] == rows;
  }

  /** The titles a heading stores are those of the new path. */
  lemma TitlesAgree(path: map<int, string>, rows: seq<HeadingRow>, level: int, title: string)
    requires forall l :: 1 <= l <= 8 ==> TitleGet(path, l) == PathTitle(rows, level, title, l)
    ensures TitlesOf(path) == PathTitles(rows, level, title)
  {
  }

  lemma FactsStep(rows: seq<HeadingRow>, r: HeadingRow)
    requires FactsInv(rows) && RowFacts(rows + [r], |rows|)
    ensures FactsInv(rows + [r])
  {
    forall k | 0 <= k < |rows| + 1 ensures RowFacts(rows + [r], k) {
      if k < |rows| {
        RowFactsKept(rows, r, k);
      }
    }
  }

  lemma {:induction false} RunTree(ps: seq<Piece>, firstId: nat)
    requires forall i :: 0 <= i < |ps| ==> Trimmed(ps[i].text) && (ps[i].Head? ==> IsHeading(ps[i].level))
    ensures TreeInv(RunPieces(ps, firstId), firstId)
    decreases |ps|
  {
    if ps != [] {
      var init := ps[..|ps| - 1];
      RunTree(init, firstId);
      var st := RunPieces(init, firstId);
      var piece := ps[|ps| - 1];
      if piece.Head? {
        HeadingTree(st, piece.level, piece.text, firstId);
      } else {
        assert Step(st, piece).log == st.log;
      }
    }
  }

  // ---------------------------------------------------------------------
  // Where body text goes
  // ---------------------------------------------------------------------

  predicate NoHead(ps: seq<Piece>)
  {
    forall i :: 0 <= i < |ps| ==> ps[i].Body?
  }

  /** The body texts before the first heading. */
  function LeadingBodies(ps: seq<Piece>): (r: seq<string>)
    ensures |r| <= |ps|
    decreases |ps|
  {
    if ps == [] || ps[0].Head? then [] else [ps[0].text] + LeadingBodies(ps[1..])
  }

  /** The pieces from the first heading on. */
  function AfterLeading(ps: seq<Piece>): (r: seq<Piece>)
    ensures |r| <= |ps|
    ensures r == [] || r[0].Head?
    ensures r == [] <==> NoHead(ps)
    decreases |ps|
  {
    if ps == [] || ps[0].Head? then ps else AfterLeading(ps[1..])
  }

  /** For pieces that start at a heading: one section per heading, holding
      the body texts up to the next heading. */
  function Sections(ps: seq<Piece>): seq<seq<string>>
    decreases |ps|
  {
    if ps == [] then [] else [LeadingBodies(ps[1..])] + Sections(AfterLeading(ps[1..]))
  }

  /** The first section with `lead` in front of it. */
  function Prepend(lead: seq<string>, secs: seq<seq<string>>): (r: seq<seq<string>>)
    requires secs != []
    ensures |r| == |secs|
  {
    [lead + secs[0]] + secs[1..]
  }

  /** `t` added to the last section. */
  function ExtendLast(secs: seq<seq<string>>, t: string): (r: seq<seq<string>>)
    requires secs != []
    ensures |r| == |secs| && r[..|r| - 1] == secs[..|secs| - 1] && r[|r| - 1] == secs[|secs| - 1] + [t]
  {
    secs[..|secs| - 1] + [secs[|secs| - 1] + [t]]
  }

  /** The body texts each heading of a document collects, heading by
      heading: those up to the next heading, and for the first heading
      also those before it. */
  function Contents(ps: seq<Piece>): seq<seq<string>>
  {
    var secs := Sections(AfterLeading(ps));
    if secs == [] then [] else Prepend(LeadingBodies(ps), secs)
  }

  lemma PrependAppend(lead: seq<string>, secs: seq<seq<string>>, y: seq<string>)
    requires secs != []
    ensures Prepend(lead, secs + [y]) == Prepend(lead, secs) + [y]
  {
    assert (secs + [y])[1..] == secs[1..] + [y];
  }

  lemma PrependExtendLast(lead: seq<string>, secs: seq<seq<string>>, t: string)
    requires secs != []
    ensures Prepend(lead, ExtendLast(secs, t)) == ExtendLast(Prepend(lead, secs), t)
  {
    var n := |secs|;
    var p := Prepend(lead, secs);
    if n == 1 {
      assert lead + (secs[0] + [t]) == (lead + secs[0]) + [t];
    } else {
      assert ExtendLast(secs, t)[0] == secs[0];
      assert ExtendLast(secs, t)[1..] == secs[1..n - 1] + [secs[n - 1] + [t]];
      assert p[..n - 1] == [lead + secs[0]] + secs[1..n - 1];
      assert p[n - 1] == secs[n - 1];
    }
  }

  lemma ConsExtendLast(a: seq<string>, secs: seq<seq<string>>, t: string)
    requires secs != []
    ensures [a] + ExtendLast(secs, t) == ExtendLast([a] + secs, t)
  {
    assert ([a] + secs)[..|secs|] == [a] + secs[..|secs| - 1];
  }

  lemma SectionsSingle(x: Piece)
    ensures Sections([x]) == [[]]
  {
    assert Sections([x]) == [LeadingBodies([])] + Sections(AfterLeading([]));
  }

  /** The headings of a document, in order. */
  function Heads(ps: seq<Piece>): (r: seq<Piece>)
    ensures forall i :: 0 <= i < |r| ==> r[i].Head?
    ensures r == [] <==> NoHead(ps)
    decreases |ps|
  {
    if ps == [] then []
    else Heads(ps[..|ps| - 1]) + (if ps[|ps| - 1].Head? then [ps[|ps| - 1]] else [])
  }

  lemma {:induction false} LeadingAppend(ps: seq<Piece>, x: Piece)
    ensures LeadingBodies(ps + [x]) == if NoHead(ps) && x.Body? then LeadingBodies(ps) + [x.text] else LeadingBodies(ps)
    ensures AfterLeading(ps + [x]) == if NoHead(ps) then (if x.Head? then [x] else []) else AfterLeading(ps) + [x]
    decreases |ps|
  {
    if ps != [] && ps[0].Body? {
      assert (ps + [x])[1..] == ps[1..] + [x];
      LeadingAppend(ps[1..], x);
      assert NoHead(ps) <==> NoHead(ps[1..]);
    }
  }

  lemma {:induction false} SectionsAppend(q: seq<Piece>, x: Piece)
    requires q == [] || q[0].Head?
    requires q == [] ==> x.Head?
    ensures q != [] ==> Sections(q) != []
    ensures Sections(q + [x]) == if x.Head? then Sections(q) + [[]] else ExtendLast(Sections(q), x.text)
    decreases |q|
  {
    if q == [] {
      assert q + [x] == [x];
      SectionsSingle(x);
    } else {
      var rest := q[1..];
      assert (q + [x])[1..] == rest + [x];
      LeadingAppend(rest, x);
      var lb := LeadingBodies(rest);
      assert Sections(q) == [lb] + Sections(AfterLeading(rest));
      assert Sections(q + [x]) == [LeadingBodies(rest + [x])] + Sections(AfterLeading(rest + [x]));
      if !NoHead(rest) {
        var t := AfterLeading(rest);
        SectionsAppend(t, x);
        if x.Body? {
          ConsExtendLast(lb, Sections(t), x.text);
        }
      } else if x.Head? {
        SectionsSingle(x);
      }
    }
  }

  lemma ContentsAppendFirst(ps: seq<Piece>, x: Piece)
    requires NoHead(ps)
    ensures Contents(ps) == []
    ensures Contents(ps + [x]) == if x.Head? then [LeadingBodies(ps)] else []
  {
    LeadingAppend(ps, x);
    if x.Head? {
      SectionsSingle(x);
      assert LeadingBodies(ps) + [] == LeadingBodies(ps);
    }
  }

  lemma ContentsAppendLater(ps: seq<Piece>, x: Piece)
    requires !NoHead(ps)
    ensures Contents(ps) != []
    ensures Contents(ps + [x]) == if x.Head? then Contents(ps) + [[]] else ExtendLast(Contents(ps), x.text)
  {
    LeadingAppend(ps, x);
    var q := AfterLeading(ps);
    SectionsAppend(q, x);
    var lead := LeadingBodies(ps);
    if x.Head? {
      PrependAppend(lead, Sections(q), []);
    } else {
      PrependExtendLast(lead, Sections(q), x.text);
    }
  }

  /** A heading opens a new, empty content (holding the leading body texts
      when it is the first heading); a body text joins the content of the
      last heading, or is leading text when there is none yet. */
  lemma ContentsAppend(ps: seq<Piece>, x: Piece)
    ensures var cs := Contents(ps);
      Contents(ps + [x]) ==
        if x.Head? then cs + [if NoHead(ps) then LeadingBodies(ps) else []]
        else if NoHead(ps) then []
        else ExtendLast(cs, x.text)
  {
    if NoHead(ps) {
      ContentsAppendFirst(ps, x);
    } else {
      ContentsAppendLater(ps, x);
    }
  }

  lemma HeadsAppend(ps: seq<Piece>, x: Piece)
    ensures Heads(ps + [x]) == Heads(ps) + (if x.Head? then [x] else [])
  {
    assert (ps + [x])[..|ps|] == ps;
  }

  /** One content per heading. */
  lemma {:induction false} ContentsPerHeading(ps: seq<Piece>)
    ensures |Contents(ps)| == |Heads(ps)|
    decreases |ps|
  {
    if ps != [] {
      var init := ps[..|ps| - 1];
      ContentsPerHeading(init);
      assert ps == init + [ps[|ps| - 1]];
      ContentsAppend(init, ps[|ps| - 1]);
      HeadsAppend(init, ps[|ps| - 1]);
    }
  }

  /** The `UPDATE` statements, in order. */
  function Updates(log: seq<DbOp>): seq<(nat, string)>
    decreases |log|
  {
    if log == [] then []
    else
      var op := log[|log| - 1];
      Updates(log[..|log| - 1]) + (if op.Update? then [(op.id, op.content)] else [])
  }

  lemma UpdatesAppend(log: seq<DbOp>, op: DbOp)
    ensures Updates(log + [op]) == Updates(log) + (if op.Update? then [(op.id, op.content)] else [])
  {
    assert (log + [op])[..|log|] == log;
  }

  /** The updates the contents call for: heading `k` gets id
      `firstId + k`, and a heading with no body text gets no update. */
  function UpdatesFor(cs: seq<seq<string>>, firstId: nat): seq<(nat, string)>
    decreases |cs|
  {
    if cs == [] then []
    else
      var last := cs[|cs| - 1];
      UpdatesFor(cs[..|cs| - 1], firstId) + (if last == [] then [] else [(firstId + |cs| - 1, Join("\n", last))])
  }

  /** Joining non-empty texts that have no space at either end gives a
      non-empty text with no space at either end. */
  lemma {:induction false} JoinTrimmed(xs: seq<string>)
    requires xs != [] && forall i :: 0 <= i < |xs| ==> Trimmed(xs[i])
    ensures Trimmed(Join("\n", xs))
    decreases |xs|
  {
    if |xs| > 1 {
      JoinTrimmed(xs[1..]);
      var j := Join("\n", xs[1..]);
      assert Join("\n", xs) == xs[0] + "\n" + j;
      assert Trimmed(xs[0]);
    }
  }

  /** What the loop keeps about body text after the pieces `ps`: the id of
      the next heading, the trimmed buffer, and the updates issued so far.
      Before the first heading the buffer holds every body text and
      nothing was written; afterwards the buffer is the last heading's
      content and every earlier heading's content was written. */
  ghost predicate ContentInv(st: FlatState, ps: seq<Piece>, firstId: nat)
  {
    AllTrimmed(st.buffer) &&
    (if NoHead(ps) then Leading(st, ps, firstId) else Attributed(st, Contents(ps), firstId))
  }

  ghost predicate AllTrimmed(xs: seq<string>)
  {
    forall i :: 0 <= i < |xs| ==> Trimmed(xs[i])
  }

  /** Before the first heading. */
  ghost predicate Leading(st: FlatState, ps: seq<Piece>, firstId: nat)
  {
    st.nextId == firstId && Updates(st.log) == [] && st.buffer == LeadingBodies(ps) && st.lastHeading.None?
  }

  /** After a heading, with the contents `cs` of the headings so far. */
  ghost predicate Attributed(st: FlatState, cs: seq<seq<string>>, firstId: nat)
  {
    st.nextId == firstId + |cs| && cs != [] &&
    Updates(st.log) == UpdatesFor(cs[..|cs| - 1], firstId) && st.buffer == cs[|cs| - 1] &&
    st.lastHeading == Some(firstId + |cs| - 1)
  }

  /** The final flush writes the last heading's content, if any. */
  lemma FlushContents(st: FlatState, ps: seq<Piece>, firstId: nat)
    requires firstId >= 1 && ContentInv(st, ps, firstId)
    ensures Updates(Flush(st).log) == UpdatesFor(Contents(ps), firstId)
    ensures Inserted(Flush(st).log) == Inserted(st.log)
    ensures Flush(st) == st.(log := Flush(st).log, buffer := Flush(st).buffer)
    ensures !NoHead(ps) ==> Flush(st).buffer == []
  {
    FlushKeepsRows(st);
    if NoHead(ps) {
      ContentsAppendFirst(ps, Body([]));
    } else {
      FlushAttributed(st, Contents(ps), firstId);
    }
  }

  lemma FlushAttributed(st: FlatState, cs: seq<seq<string>>, firstId: nat)
    requires firstId >= 1 && AllTrimmed(st.buffer) && Attributed(st, cs, firstId)
    ensures Updates(Flush(st).log) == UpdatesFor(cs, firstId) && Flush(st).buffer == []
  {
    assert cs == cs[..|cs| - 1] + [cs[|cs| - 1]];
    if st.buffer != [] {
      JoinTrimmed(st.buffer);
      StripOfTrimmed(Join("\n", st.buffer));
      UpdatesAppend(st.log, Update(st.lastHeading.value, Join("\n", st.buffer)));
    }
  }

  /** What a heading does to the fields body text depends on. */
  lemma HeadingShape(st: FlatState, level: int, text: string)
    ensures var st1 := Flush(st); var st2 := Heading(st, level, text);
      st2.buffer == st1.buffer && st2.lastHeading == Some(st1.nextId) && st2.nextId == st1.nextId + 1 &&
      Updates(st2.log) == Updates(st1.log)
  {
    var st1 := Flush(st);
    var st2 := Heading(st, level, text);
    assert st2.log == st1.log + [Insert(st2.log[|st2.log| - 1].row)];
    UpdatesAppend(st1.log, st2.log[|st2.log| - 1]);
  }

  lemma NoHeadAppend(ps: seq<Piece>, x: Piece)
    ensures NoHead(ps + [x]) <==> NoHead(ps) && x.Body?
  {
    if !NoHead(ps) {
      var i :| 0 <= i < |ps| && ps[i].Head?;
      assert (ps + [x])[i] == ps[i];
    } else {
      assert (ps + [x])[|ps|] == x;
    }
  }

  /** The first heading: nothing is flushed, so the leading body texts stay
      in the buffer and become the heading's content. */
  lemma FirstHeadingContents(st: FlatState, ps: seq<Piece>, level: int, text: string, firstId: nat)
    requires ContentInv(st, ps, firstId) && NoHead(ps)
    ensures ContentInv(Heading(st, level, text), ps + [Head(level, text)], firstId)
  {
    var h := Head(level, text);
    ContentsAppendFirst(ps, h);
    NoHeadAppend(ps, h);
    HeadingShape(st, level, text);
    assert Flush(st) == st;
    var st2 := Heading(st, level, text);
    assert Attributed(st2, [LeadingBodies(ps)], firstId);
  }

  lemma LaterHeadingContents(st: FlatState, ps: seq<Piece>, level: int, text: string, firstId: nat)
    requires firstId >= 1 && ContentInv(st, ps, firstId) && !NoHead(ps)
    ensures ContentInv(Heading(st, level, text), ps + [Head(level, text)], firstId)
  {
    var h := Head(level, text);
    var cs := Contents(ps);
    ContentsAppendLater(ps, h);
    NoHeadAppend(ps, h);
    FlushAttributed(st, cs, firstId);
    FlushKeepsRows(st);
    HeadingShape(st, level, text);
    AttributedHead(Heading(st, level, text), cs, firstId);
  }

  /** A heading after the first opens an empty section. */
  lemma AttributedHead(st2: FlatState, cs: seq<seq<string>>, firstId: nat)
    requires st2.nextId == firstId + |cs| + 1 && st2.buffer == []
    requires Updates(st2.log) == UpdatesFor(cs, firstId) && st2.lastHeading == Some(firstId + |cs|)
    ensures Attributed(st2, cs + [[]], firstId)
  {
    assert (cs + [[]])[..|cs|] == cs;
  }

  lemma BodyContents(st: FlatState, ps: seq<Piece>, text: string, firstId: nat)
    requires ContentInv(st, ps, firstId) && Trimmed(text)
    ensures ContentInv(Step(st, Body(text)), ps + [Body(text)], firstId)
  {
    var b := Body(text);
    NoHeadAppend(ps, b);
    var st' := st.(buffer := st.buffer + [text]);
    assert Step(st, b) == st';
    assert AllTrimmed(st'.buffer);
    if NoHead(ps) {
      LeadingAppend(ps, b);
    } else {
      ContentsAppendLater(ps, b);
      AttributedBody(st, Contents(ps), text, firstId);
    }
  }

  /** Body text after a heading joins the last heading's content. */
  lemma AttributedBody(st: FlatState, cs: seq<seq<string>>, text: string, firstId: nat)
    requires Attributed(st, cs, firstId)
    ensures Attributed(st.(buffer := st.buffer + [text]), ExtendLast(cs, text), firstId)
  {
  }

  lemma {:induction false} RunContents(ps: seq<Piece>, firstId: nat)
    requires firstId >= 1
    requires forall i :: 0 <= i < |ps| ==> Trimmed(ps[i].text)
    ensures ContentInv(RunPieces(ps, firstId), ps, firstId)
    decreases |ps|
  {
    if ps != [] {
      var init := ps[..|ps| - 1];
      RunContents(init, firstId);
      ContentStep(RunPieces(init, firstId), ps, firstId, RunPieces(ps, firstId));
    }
  }

  /** One piece keeps the content invariant. */
  lemma ContentStep(st: FlatState, ps': seq<Piece>, firstId: nat, st': FlatState)
    requires firstId >= 1 && ps' != [] && Trimmed(ps'[|ps'| - 1].text)
    requires ContentInv(st, ps'[..|ps'| - 1], firstId)
    requires st' == Step(st, ps'[|ps'| - 1])
    ensures ContentInv(st', ps', firstId)
  {
    var ps, p := ps'[..|ps'| - 1], ps'[|ps'| - 1];
    assert ps' == ps + [p];
    match p
    case Head(level, text) =>
      if NoHead(ps) {
        FirstHeadingContents(st, ps, level, text, firstId);
      } else {
        LaterHeadingContents(st, ps, level, text, firstId);
      }
    case Body(text) =>
      BodyContents(st, ps, text, firstId);
  }

  // ---------------------------------------------------------------------
  // The document as a whole
  // ---------------------------------------------------------------------

  /** The headings the rows were inserted for. */
  function RowHeads(rows: seq<HeadingRow>): (r: seq<Piece>)
    ensures |r| == |rows|
    decreases |rows|
  {
    if rows == [] then []
    else RowHeads(rows[..|rows| - 1]) + [Head(rows[|rows| - 1].level, rows[|rows| - 1].title)]
  }

  lemma {:induction false} RunRowHeads(ps: seq<Piece>, firstId: nat)
    ensures RowHeads(Inserted(RunPieces(ps, firstId).log)) == Heads(ps)
    decreases |ps|
  {
    if ps != [] {
      var init := ps[..|ps| - 1];
      var x := ps[|ps| - 1];
      RunRowHeads(init, firstId);
      assert ps == init + [x];
      HeadsAppend(init, x);
      var st := RunPieces(init, firstId);
      if x.Head? {
        FlushKeepsRows(st);
        var st1 := Flush(st);
        var st2 := Heading(st, x.level, x.text);
        var r := st2.log[|st2.log| - 1].row;
        assert st2.log == st1.log + [Insert(r)];
        InsertedAppend(st1.log, Insert(r));
        var rows' := Inserted(st2.log);
        assert rows'[..|rows'| - 1] == Inserted(st.log);
      } else {
        assert Step(st, x).log == st.log;
      }
    }
  }

  /** The statements of one document: one `INSERT` per heading paragraph,
      with its level and cleaned text, ids handed out one by one from
      `firstId`, each row placed and numbered as `RowFacts` says; and one
      `UPDATE` per heading with body text, writing that heading's
      contents (the body before the first heading included) joined by
      newlines. A document without headings issues nothing, even when it
      has body text. */
  lemma DocumentStatements(paras: seq<Paragraph>, firstId: nat)
    requires firstId >= 1
    ensures var log := DocumentLog(paras, firstId); var ps := Pieces(paras); var rows := Inserted(log);
      RowHeads(rows) == Heads(ps) &&
      (forall k :: 0 <= k < |rows| ==> rows[k].id == firstId + k && RowFacts(rows, k)) &&
      Updates(log) == UpdatesFor(Contents(ps), firstId) &&
      (NoHead(ps) ==> log == [])
  {
    var ps := Pieces(paras);
    RunIsRunPieces(paras, firstId);
    forall i | 0 <= i < |ps| ensures Trimmed(ps[i].text) && (ps[i].Head? ==> IsHeading(ps[i].level)) {
      PiecesAreCut(paras, i);
    }
    PiecesRows(ps, firstId);
    PiecesUpdates(ps, firstId);
  }

  /** The rows a run over trimmed pieces inserts, headings at levels 1
      to 9: one per heading, in order, numbered from `firstId`. */
  lemma PiecesRows(ps: seq<Piece>, firstId: nat)
    requires forall i :: 0 <= i < |ps| ==> Trimmed(ps[i].text) && (ps[i].Head? ==> IsHeading(ps[i].level))
    ensures var rows := Inserted(Flush(RunPieces(ps, firstId)).log);
      RowHeads(rows) == Heads(ps) &&
      (forall k :: 0 <= k < |rows| ==> rows[k].id == firstId + k && RowFacts(rows, k))
  {
    var st := RunPieces(ps, firstId);
    RunTree(ps, firstId);
    RunRowHeads(ps, firstId);
    FlushKeepsRows(st);
  }

  /** The updates the same run issues, and nothing at all without a
      heading. */
  lemma PiecesUpdates(ps: seq<Piece>, firstId: nat)
    requires firstId >= 1
    requires forall i :: 0 <= i < |ps| ==> Trimmed(ps[i].text)
    ensures var log := Flush(RunPieces(ps, firstId)).log;
      Updates(log) == UpdatesFor(Contents(ps), firstId) &&
      (NoHead(ps) ==> log == [])
  {
    RunContents(ps, firstId);
    FlushContents(RunPieces(ps, firstId), ps, firstId);
  }

  lemma {:induction false} PiecesAreCut(paras: seq<Paragraph>, i: nat)
    requires i < |Pieces(paras)|
    ensures var x := Pieces(paras)[i]; Trimmed(x.text) && (x.Head? ==> IsHeading(x.level))
    decreases |paras|
  {
    var init := paras[..|paras| - 1];
    var p := PieceOf(paras[|paras| - 1]);
    var tail := if p.Some? then [p.value] else [];
    assert Pieces(paras) == Pieces(init) + tail;
    if i < |Pieces(init)| {
      PiecesAreCut(init, i);
      assert Pieces(paras)[i] == Pieces(init)[i];
    } else {
      assert Pieces(paras)[i] == p.value;
    }
  }

  // ---------------------------------------------------------------------
  // The parser's loop, statement by statement
  // ---------------------------------------------------------------------

  lemma HasKey(keys: set<int>)
    requires keys != {}
    ensures exists k :: k in keys
  {
    assert (forall k :: k !in keys) ==> keys == {};
  }

  lemma DroppedAll<V>(r: map<int, V>, m: map<int, V>, level: int)
    requires forall j :: j in r <==> j in m && j <= level
    requires forall j :: j in r ==> r[j] == m[j]
    ensures r == DropDeeper(m, level)
  {
    var d := DropDeeper(m, level);
    forall j | j in r
      ensures j in d && r[j] == d[j]
    {
    }
    assert r.Keys == d.Keys;
  }

  /** `for key in list(m.keys()): if key > level: del m[key]`. */
  method DropDeeperKeys<V>(m: map<int, V>, level: int) returns (r: map<int, V>)
    ensures r == DropDeeper(m, level)
  {
    r := m;
    var keys := m.Keys;
    while keys != {}
      invariant forall j :: j in r <==> j in m && (j <= level || j in keys)
      invariant forall j :: j in r ==> r[j] == m[j]
      decreases keys
    {
      HasKey(keys);
      var k :| k in keys;
      if k > level {
        r := r - {k};
      }
      keys := keys - {k};
    }
    DroppedAll(r, m, level);
  }

  /** `titles[f'title{l}'] = current_title_path.get(l)` for `l` in 1-8. */
  method BuildTitles(path: map<int, string>) returns (titles: seq<Option<string>>)
    ensures titles == TitlesOf(path)
  {
    titles := [];
    for l := 1 to 9
      invariant |titles| == l - 1
      invariant forall i :: 0 <= i < l - 1 ==> titles[i] == TitleGet(path, i + 1)
    {
      titles := titles + [TitleGet(path, l)];
    }
  }

  /** The per-document state of the parser and the statements it has
      issued; `nextId` stands for the ids the database hands back. */
  class DocumentFlattener {
    var idAtLevel: map<int, Option<nat>>
    var counters: map<Option<nat>, nat>
    var path: map<int, string>
    var buffer: seq<string>
    var lastHeading: Option<nat>
    var log: seq<DbOp>
    var nextId: nat

    function State(): FlatState
      reads this
    {
      FlatState(idAtLevel, counters, path, buffer, lastHeading, log, nextId)
    }

    constructor(firstId: nat)
      ensures State() == Init(firstId)
    {
      idAtLevel := map[0 := None];
      counters := map[None := 0];
      path := map[];
      buffer := [];
      lastHeading := None;
      log := [];
      nextId := firstId;
    }

    /** `flush_content_buffer`. */
    method FlushContentBuffer()
      modifies this
      ensures State() == Flush(old(State()))
    {
      if buffer != [] && lastHeading.Some? && lastHeading.value != 0 {
        var full := Strip(Join("\n", buffer));
        if full != [] {
          log := log + [Update(lastHeading.value, full)];
        }
        buffer := [];
      }
    }

    /** One iteration of the paragraph loop. */
    method AddParagraph(p: Paragraph)
      modifies this
      ensures State() == LoopStep(old(State()), p)
    {
      ghost var st0 := State();
      var paraText := CleanFlatten(FullText(p));
      if paraText == [] {
        LoopStepSkip(st0, p);
        return;
      }
      var level := p.outlineLevel;
      if 1 <= level <= 9 {
        FlushContentBuffer();
        RecordHeading(level, paraText);
        LoopStepHeading(st0, p, State());
      } else {
        buffer := buffer + [paraText];
        LoopStepBody(st0, p, State());
      }
    }

    /** `current_title_path[level] = text`, then every deeper title is
        deleted. */
    method SetTitle(level: int, text: string)
      modifies this
      ensures State() == old(State()).(path := DropDeeper(old(path)[level := text], level))
    {
      path := path[level := text];
      path := DropDeeperKeys(path, level);
    }

    /** Every id recorded deeper than `level` is deleted. */
    method ForgetDeeperIds(level: int)
      modifies this
      ensures State() == old(State()).(idAtLevel := DropDeeper(old(idAtLevel), level))
    {
      idAtLevel := DropDeeperKeys(idAtLevel, level);
    }

    /** Inserting a heading once the buffer is flushed. */
    method RecordHeading(level: int, paraText: string)
      modifies this
      ensures State() == Record(old(State()), level, paraText)
    {
      ghost var st1 := State();
      var parentId := IdGet(idAtLevel, level - 1);
      var sequence := CounterGet(counters, parentId);
      counters := counters[parentId := sequence + 1];
      SetTitle(level, paraText);
      InsertHeading(level, paraText, parentId, sequence);
      ForgetDeeperIds(level);
      RecordOf(st1, level, paraText, parentId, sequence, idAtLevel, counters, path, log);
    }

    /** The `INSERT` of the heading row, with the current titles; the new
        row's id becomes the id at `level` and the last heading. */
    method InsertHeading(level: int, paraText: string, parentId: Option<nat>, sequence: nat)
      modifies this
      ensures State() == old(State()).(
        log := old(log) + [Insert(HeadingRow(old(nextId), parentId, level, sequence, paraText, TitlesOf(old(path))))],
        nextId := old(nextId) + 1,
        idAtLevel := old(idAtLevel)[level := Some(old(nextId))],
        lastHeading := Some(old(nextId)))
    {
      var titles := BuildTitles(path);
      var newId := nextId;
      log := log + [Insert(HeadingRow(newId, parentId, level, sequence, paraText, titles))];
      nextId := nextId + 1;
      idAtLevel := idAtLevel[level := Some(newId)];
      lastHeading := Some(newId);
    }
  }

  /** A state that differs from `st1` exactly as a recorded heading makes
      it differ is the recorded state. */
  lemma RecordOf(st1: FlatState, level: int, text: string, parent: Option<nat>, sequence: nat,
                  idAtLevel: map<int, Option<nat>>, counters: map<Option<nat>, nat>,
                  path: map<int, string>, log: seq<DbOp>)
    requires parent == IdGet(st1.idAtLevel, level - 1) && sequence == CounterGet(st1.counters, parent)
    requires counters == st1.counters[parent := sequence + 1]
    requires path == DropDeeper(st1.path[level := text], level)
    requires log == st1.log + [Insert(HeadingRow(st1.nextId, parent, level, sequence, text, TitlesOf(path)))]
    requires idAtLevel == DropDeeper(st1.idAtLevel[level := Some(st1.nextId)], level)
    ensures FlatState(idAtLevel, counters, path, st1.buffer, Some(st1.nextId), log, st1.nextId + 1) ==
      Record(st1, level, text)
  {
  }

  /** The per-document part of `extract_word_and_save_to_db`: the
      paragraph loop and the final flush; returns the statements issued. */
  method ExtractDocument(paras: seq<Paragraph>, firstId: nat) returns (log: seq<DbOp>)
    ensures log == DocumentLog(paras, firstId)
  {
    var flattener := new DocumentFlattener(firstId);
    for i := 0 to |paras|
      invariant flattener.State() == Run(paras[..i], firstId)
    {
      assert paras[..i + 1][..i] == paras[..i];
      flattener.AddParagraph(paras[i]);
    }
    assert paras[..|paras|] == paras;
    flattener.FlushContentBuffer();
    log := flattener.log;
  }
}
