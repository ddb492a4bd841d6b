/** Note-reference splicing: the text of a paragraph or cell is rebuilt
    with every footnote reference it holds replaced by a visible mark
    numbered per page.  Three extractors do this; they share the cursor
    walk and differ in the mark they print, in whether the walk may stop
    early and clamp its cursor, and in how the result is tidied. */
module NoteSplice {
  import opened Strings

  // ---------------------------------------------------------------------
  // References and spans
  // ---------------------------------------------------------------------

  /** A note reference as found in the document: its start and end offsets
      in the whole document and the page it sits on, if known. */
  datatype NoteRef = NoteRef(start: int, end: int, page: Option<int>)

  /** A reference made relative to the owning range's text. */
  datatype Span = Span(start: nat, end: nat, page: Option<int>)

  /** The two range checks of the collection loop: inside the owner in
      document offsets, then `0 <= start < end <= len(text)` in the owner's
      own offsets. */
  predicate Usable(r: NoteRef, ownerStart: int, ownerEnd: int, textLen: nat)
  {
    ownerStart <= r.start < r.end <= ownerEnd &&
    0 <= r.start - ownerStart < r.end - ownerStart <= textLen
  }

  /** The spans the collection loop keeps, in the order found. */
  function UsableSpans(refs: seq<NoteRef>, ownerStart: int, ownerEnd: int, textLen: nat): (r: seq<Span>)
    ensures |r| <= |refs|
    ensures forall i :: 0 <= i < |r| ==> r[i].start < r[i].end <= textLen
    decreases |refs|
  {
    if refs == [] then []
    else
      var x := refs[|refs| - 1];
      var rest := UsableSpans(refs[..|refs| - 1], ownerStart, ownerEnd, textLen);
      if Usable(x, ownerStart, ownerEnd, textLen)
      then rest + [Span(x.start - ownerStart, x.end - ownerStart, x.page)]
      else rest
  }

  /** The collection loop over the owner's notes. */
  method CollectSpans(refs: seq<NoteRef>, ownerStart: int, ownerEnd: int, textLen: nat) returns (spans: seq<Span>)
    ensures spans == UsableSpans(refs, ownerStart, ownerEnd, textLen)
  {
    spans := [];
    for i := 0 to |refs|
      invariant spans == UsableSpans(refs[..i], ownerStart, ownerEnd, textLen)
    {
      assert refs[..i + 1][..i] == refs[..i];
      var x := refs[i];
      if !(ownerStart <= x.start < x.end <= ownerEnd) {
        continue;
      }
      var s, e := x.start - ownerStart, x.end - ownerStart;
      if !(0 <= s < e <= textLen) {
        continue;
      }
      spans := spans + [Span(s, e, x.page)];
    }
    assert refs[..|refs|] == refs;
  }

  // ---------------------------------------------------------------------
  // Sorting by start (Python's stable `list.sort(key=...)`)
  // ---------------------------------------------------------------------

  predicate SortedByStart(s: seq<Span>)
  {
    forall i, j :: 0 <= i < j < |s| ==> s[i].start <= s[j].start
  }

  /** Every span lies inside a text of length `textLen`. */
  predicate InBounds(s: seq<Span>, textLen: nat)
  {
    forall i :: 0 <= i < |s| ==> s[i].start < s[i].end <= textLen
  }

  /** Places `x` after every element whose start is not larger, so equal
      starts keep their original order. */
  function InsertByStart(t: seq<Span>, x: Span): (r: seq<Span>)
    ensures |r| == |t| + 1
    decreases |t|
  {
    if t == [] || t[|t| - 1].start <= x.start then t + [x]
    else InsertByStart(t[..|t| - 1], x) + [t[|t| - 1]]
  }

  /** Python's stable sort by start, as an insertion sort. */
  function SortByStart(s: seq<Span>): (r: seq<Span>)
    ensures |r| == |s|
    decreases |s|
  {
    if s == [] then [] else InsertByStart(SortByStart(s[..|s| - 1]), s[|s| - 1])
  }

  lemma {:induction false} InsertByStartPermutes(t: seq<Span>, x: Span)
    ensures multiset(InsertByStart(t, x)) == multiset(t) + multiset{x}
    decreases |t|
  {
    if !(t == [] || t[|t| - 1].start <= x.start) {
      InsertByStartPermutes(t[..|t| - 1], x);
      assert t == t[..|t| - 1] + [t[|t| - 1]];
    }
  }

  lemma {:induction false} InsertByStartBelow(t: seq<Span>, x: Span, b: int)
    requires forall i :: 0 <= i < |t| ==> t[i].start <= b
    requires x.start <= b
    ensures forall i :: 0 <= i < |t| + 1 ==> InsertByStart(t, x)[i].start <= b
    decreases |t|
  {
    if !(t == [] || t[|t| - 1].start <= x.start) {
      InsertByStartBelow(t[..|t| - 1], x, b);
    }
  }

  lemma {:induction false} InsertByStartSorted(t: seq<Span>, x: Span)
    requires SortedByStart(t)
    ensures SortedByStart(InsertByStart(t, x))
    decreases |t|
  {
    if !(t == [] || t[|t| - 1].start <= x.start) {
      var init := t[..|t| - 1];
      InsertByStartSorted(init, x);
      InsertByStartBelow(init, x, t[|t| - 1].start);
    }
  }

  lemma {:induction false} InsertByStartInBounds(t: seq<Span>, x: Span, textLen: nat)
    requires InBounds(t, textLen) && x.start < x.end <= textLen
    ensures InBounds(InsertByStart(t, x), textLen)
    decreases |t|
  {
    if !(t == [] || t[|t| - 1].start <= x.start) {
      InsertByStartInBounds(t[..|t| - 1], x, textLen);
    }
  }

  /** The sort puts the spans in ascending order of start and only
      reorders them. */
  lemma {:induction false} SortByStartCorrect(s: seq<Span>)
    ensures SortedByStart(SortByStart(s))
    ensures multiset(SortByStart(s)) == multiset(s)
    decreases |s|
  {
    if s != [] {
      var init := s[..|s| - 1];
      SortByStartCorrect(init);
      InsertByStartSorted(SortByStart(init), s[|s| - 1]);
      InsertByStartPermutes(SortByStart(init), s[|s| - 1]);
      assert s == init + [s[|s| - 1]];
    }
  }

  /** The spans of `s` whose start is `k`, in their order in `s`. */
  function WithStart(s: seq<Span>, k: nat): (r: seq<Span>)
    ensures |r| <= |s|
    ensures forall i :: 0 <= i < |r| ==> r[i].start == k && r[i] in s
    decreases |s|
  {
    if s == [] then []
    else
      var last := s[|s| - 1];
      WithStart(s[..|s| - 1], k) + (if last.start == k then [last] else [])
  }

  /** Inserting `x` adds it behind every span of the same start that is
      already there. */
  lemma {:induction false} InsertByStartStable(t: seq<Span>, x: Span, k: nat)
    ensures WithStart(InsertByStart(t, x), k) == WithStart(t, k) + (if x.start == k then [x] else [])
    decreases |t|
  {
    if t == [] || t[|t| - 1].start <= x.start {
      assert (t + [x])[..|t|] == t;
    } else {
      var init, last := t[..|t| - 1], t[|t| - 1];
      InsertByStartStable(init, x, k);
      var r := InsertByStart(init, x);
      assert (r + [last])[..|r|] == r;
    }
  }

  /** The sort is stable: for every start value, the spans with that start
      come out in the order they went in.  With `SortByStartCorrect` this
      fixes the result completely. */
  lemma {:induction false} SortByStartStable(s: seq<Span>, k: nat)
    ensures WithStart(SortByStart(s), k) == WithStart(s, k)
    decreases |s|
  {
    if s != [] {
      var init := s[..|s| - 1];
      SortByStartStable(init, k);
      InsertByStartStable(SortByStart(init), s[|s| - 1], k);
    }
  }

  /** Sorting keeps every span inside the text. */
  lemma {:induction false} SortKeepsBounds(s: seq<Span>, textLen: nat)
    requires InBounds(s, textLen)
    ensures InBounds(SortByStart(s), textLen)
    decreases |s|
  {
    if s != [] {
      SortKeepsBounds(s[..|s| - 1], textLen);
      InsertByStartInBounds(SortByStart(s[..|s| - 1]), s[|s| - 1], textLen);
    }
  }

  // ---------------------------------------------------------------------
  // Per-page counters
  // ---------------------------------------------------------------------

  /** `page_level_note_counts`: shared by every call on one document and
      updated in place. */
  class PageNoteCounts {
    var counts: map<int, nat>

    constructor ()
      ensures counts == map[]
    {
      counts := map[];
    }

    /** `counts.get(page, 0)`. */
    function Get(page: int): nat
      reads this
    {
      CountOf(counts, page)
    }

    /** `counts[page] = counts.get(page, 0) + 1`, returning the new value. */
    method Increment(page: int) returns (n: nat)
      modifies this
      ensures n == old(Get(page)) + 1
      ensures counts == old(counts)[page := n]
    {
      n := Get(page) + 1;
      counts := counts[page := n];
    }
  }

  function CountOf(counts: map<int, nat>, page: int): nat
  {
    if page in counts then counts[page] else 0
  }

  // ---------------------------------------------------------------------
  // The cursor walk
  // ---------------------------------------------------------------------

  /** The three extractors: the database worker prints `[<prefix><page>-<n>]`
      and never stops early; the Excel and web extractors print `[<n>]`,
      stop at a span starting past the end and clamp the cursor. */
  datatype Flavor = Worker(prefix: string) | Excel | Web

  /** A piece of the rebuilt text: kept text, or a mark standing for the
      covered text of one reference. */
  datatype Piece = Gap(text: string) | Mark(display: string, covered: string, page: Option<int>)

  /** The state of the walk: cursor, counters, pieces so far, and whether
      the loop has been left by `break`. */
  datatype WalkState = WalkState(cursor: nat, counts: map<int, nat>, pieces: seq<Piece>, stopped: bool)

  /** Python's `s[i:j]` for non-negative bounds. */
  function PySlice(s: string, i: nat, j: nat): (r: string)
    ensures i <= j <= |s| ==> r == s[i..j]
  {
    var lo := if i < |s| then i else |s|;
    var hi := if j < |s| then j else |s|;
    if lo <= hi then s[lo..hi] else []
  }

  /** The mark for a reference; `shown` is the page's new count, or `None`
      when the page is unknown. */
  function Label(f: Flavor, page: Option<int>, shown: Option<nat>): string
  {
    var n := if shown.Some? then NatToString(shown.value) else "?";
    match f
    case Worker(prefix) =>
      var p := if page.Some? && page.value != 0 then IntToString(page.value) else "?";
      "[" + prefix + p + "-" + n + "]"
    case _ => "[" + n + "]"
  }

  /** The count a placed reference shows: its page's new count, or `None`
      when the page is unknown. */
  function Shown(counts: map<int, nat>, page: Option<int>): Option<nat>
  {
    if page.Some? then Some(CountOf(counts, page.value) + 1) else None
  }

  /** One turn of the loop. */
  function Step(f: Flavor, text: string, w: WalkState, sp: Span): WalkState
  {
    if w.stopped || sp.start < w.cursor then w
    else if !f.Worker? && sp.start > |text| then w.(stopped := true)
    else
      var shown := Shown(w.counts, sp.page);
      var counts := if sp.page.Some? then w.counts[sp.page.value := shown.value] else w.counts;
      var mark := Mark(Label(f, sp.page, shown), PySlice(text, sp.start, sp.end), sp.page);
      var cursor := if !f.Worker? && sp.end > |text| then |text| else sp.end;
      WalkState(cursor, counts, w.pieces + [Gap(PySlice(text, w.cursor, sp.start)), mark], false)
  }

  /** A turn skips a span starting before the cursor; otherwise it places a
      mark, and the mark's page counter, if the page is known, grows by
      exactly one and is what the mark shows, while every other counter
      stays; an unknown page shows `?` and changes no counter. */
  lemma StepCounts(f: Flavor, text: string, w: WalkState, sp: Span)
    ensures sp.start < w.cursor ==> Step(f, text, w, sp) == w
    ensures var r := Step(f, text, w, sp);
      !w.stopped && sp.start >= w.cursor && !r.stopped ==>
        |r.pieces| == |w.pieces| + 2 && r.pieces[..|w.pieces|] == w.pieces &&
        r.pieces[|w.pieces|].Gap? && r.pieces[|w.pieces| + 1].Mark? && r.pieces[|w.pieces| + 1].page == sp.page &&
        (sp.page.None? ==> r.counts == w.counts && r.pieces[|w.pieces| + 1].display == Label(f, None, None)) &&
        (sp.page.Some? ==>
          var n := CountOf(w.counts, sp.page.value) + 1;
          r.counts == w.counts[sp.page.value := n] &&
          r.pieces[|w.pieces| + 1].display == Label(f, sp.page, Some(n)))
  {
    var r := Step(f, text, w, sp);
    if !w.stopped && sp.start >= w.cursor && !r.stopped {
      assert r.pieces[..|w.pieces|] == w.pieces;
    }
  }

  /** The state after the loop has seen every span of `spans`. */
  function WalkAll(f: Flavor, text: string, counts0: map<int, nat>, spans: seq<Span>): WalkState
    decreases |spans|
  {
    if spans == [] then WalkState(0, counts0, [], false)
    else Step(f, text, WalkAll(f, text, counts0, spans[..|spans| - 1]), spans[|spans| - 1])
  }

  /** The loop of the splice: append the gap before each span that starts
      at or after the cursor, then its mark; move the cursor to the span's
      end. */
  method WalkSpans(f: Flavor, text: string, spans: seq<Span>, counts: PageNoteCounts) returns (pieces: seq<Piece>, cursor: nat)
    modifies counts
    ensures var w := WalkAll(f, text, old(counts.counts), spans);
      pieces == w.pieces && cursor == w.cursor && counts.counts == w.counts
  {
    ghost var counts0 := counts.counts;
    pieces, cursor := [], 0;
    var i := 0;
    while i < |spans|
      invariant 0 <= i <= |spans|
      invariant WalkAll(f, text, counts0, spans[..i]) == WalkState(cursor, counts.counts, pieces, false)
    {
      assert spans[..i + 1][..i] == spans[..i];
      var sp := spans[i];
      if sp.start < cursor {
        i := i + 1;
        continue;
      }
      if !f.Worker? && sp.start > |text| {
        StoppedStays(f, text, counts0, spans, i + 1);
        return;
      }
      var gap := PySlice(text, cursor, sp.start);
      var shown: Option<nat> := None;
      if sp.page.Some? {
        var n := counts.Increment(sp.page.value);
        shown := Some(n);
      }
      pieces := pieces + [Gap(gap), Mark(Label(f, sp.page, shown), PySlice(text, sp.start, sp.end), sp.page)];
      cursor := sp.end;
      if !f.Worker? && cursor > |text| {
        cursor := |text|;
      }
      i := i + 1;
    }
    assert spans[..i] == spans;
  }

  /** Once the loop has been left, the remaining spans change nothing. */
  lemma {:induction false} StoppedStays(f: Flavor, text: string, counts0: map<int, nat>, spans: seq<Span>, i: nat)
    requires i <= |spans| && WalkAll(f, text, counts0, spans[..i]).stopped
    ensures WalkAll(f, text, counts0, spans) == WalkAll(f, text, counts0, spans[..i])
    decreases |spans| - i
  {
    if i < |spans| {
      assert spans[..i + 1][..i] == spans[..i];
      StoppedStays(f, text, counts0, spans, i + 1);
    } else {
      assert spans[..i] == spans;
    }
  }

  // ---------------------------------------------------------------------
  // Reading the pieces back
  // ---------------------------------------------------------------------

  /** `"".join(new_text_parts)`: kept text and marks. */
  function Rendered(pieces: seq<Piece>): string
    decreases |pieces|
  {
    if pieces == [] then []
    else
      var p := pieces[|pieces| - 1];
      Rendered(pieces[..|pieces| - 1]) + (if p.Gap? then p.text else p.display)
  }

  /** The pieces with every mark put back to the text it covers. */
  function OriginalOf(pieces: seq<Piece>): string
    decreases |pieces|
  {
    if pieces == [] then []
    else
      var p := pieces[|pieces| - 1];
      OriginalOf(pieces[..|pieces| - 1]) + (if p.Gap? then p.text else p.covered)
  }

  /** How many marks of `pieces` belong to `page`. */
  function MarksOn(pieces: seq<Piece>, page: int): nat
    decreases |pieces|
  {
    if pieces == [] then 0
    else
      var p := pieces[|pieces| - 1];
      MarksOn(pieces[..|pieces| - 1], page) + (if p.Mark? && p.page == Some(page) then 1 else 0)
  }

  /** The text after the cursor, appended once after the loop. */
  function Tail(text: string, cursor: nat): string
  {
    if cursor < |text| then text[cursor..] else []
  }

  lemma AppendTwo(pieces: seq<Piece>, a: Piece, b: Piece)
    ensures var q := pieces + [a, b];
      OriginalOf(q) == OriginalOf(pieces) + (if a.Gap? then a.text else a.covered) + (if b.Gap? then b.text else b.covered)
      && Rendered(q) == Rendered(pieces) + (if a.Gap? then a.text else a.display) + (if b.Gap? then b.text else b.display)
  {
    var q := pieces + [a, b];
    assert q[..|q| - 1] == pieces + [a];
    assert (pieces + [a])[..|pieces|] == pieces;
  }

  /** One turn keeps the walk's invariant for a span inside the text. */
  lemma StepRestores(f: Flavor, text: string, w: WalkState, sp: Span)
    requires !w.stopped && w.cursor <= |text| && OriginalOf(w.pieces) == text[..w.cursor]
    requires sp.start < sp.end <= |text|
    ensures var r := Step(f, text, w, sp);
      !r.stopped && r.cursor <= |text| && OriginalOf(r.pieces) == text[..r.cursor]
  {
    if sp.start >= w.cursor {
      var r := Step(f, text, w, sp);
      var gap := Gap(text[w.cursor..sp.start]);
      var mark := Mark(Label(f, sp.page, Shown(w.counts, sp.page)), text[sp.start..sp.end], sp.page);
      assert r.pieces == w.pieces + [gap, mark];
      AppendTwo(w.pieces, gap, mark);
      assert text[..w.cursor] + text[w.cursor..sp.start] + text[sp.start..sp.end] == text[..sp.end];
    }
  }

  /** With spans inside the text, the walk never stops, its cursor stays
      within the text, and putting every mark back gives the text up to the
      cursor. */
  lemma {:induction false} WalkRestores(f: Flavor, text: string, counts0: map<int, nat>, spans: seq<Span>)
    requires InBounds(spans, |text|)
    ensures var w := WalkAll(f, text, counts0, spans);
      !w.stopped && w.cursor <= |text| && OriginalOf(w.pieces) == text[..w.cursor]
    decreases |spans|
  {
    if spans != [] {
      var init := spans[..|spans| - 1];
      WalkRestores(f, text, counts0, init);
      StepRestores(f, text, WalkAll(f, text, counts0, init), spans[|spans| - 1]);
    }
  }

  /** Before tidying, the rebuilt text is the original text with each placed
      span replaced by its mark: putting the marks back and appending the
      tail gives the text exactly. */
  lemma SpliceRestoresText(f: Flavor, text: string, counts0: map<int, nat>, spans: seq<Span>)
    requires InBounds(spans, |text|)
    ensures var w := WalkAll(f, text, counts0, spans);
      OriginalOf(w.pieces) + Tail(text, w.cursor) == text
  {
    WalkRestores(f, text, counts0, spans);
    var w := WalkAll(f, text, counts0, spans);
    assert text[..w.cursor] + text[w.cursor..] == text;
  }

  /** One turn adds to a page's counter exactly the marks it adds for
      that page. */
  lemma StepMarks(f: Flavor, text: string, w: WalkState, sp: Span, page: int)
    requires CountOf(w.counts, page) >= MarksOn(w.pieces, page)
    ensures var r := Step(f, text, w, sp);
      CountOf(r.counts, page) - MarksOn(r.pieces, page) == CountOf(w.counts, page) - MarksOn(w.pieces, page)
  {
    var r := Step(f, text, w, sp);
    StepCounts(f, text, w, sp);
    if !w.stopped && sp.start >= w.cursor && !r.stopped {
      var k := |w.pieces|;
      assert r.pieces == w.pieces + [r.pieces[k], r.pieces[k + 1]];
      MarksAppend(w.pieces, r.pieces[k], r.pieces[k + 1], page);
    } else {
      assert r.pieces == w.pieces && r.counts == w.counts;
    }
  }

  /** A gap and a mark add one mark for `page` exactly when the mark is
      for `page`. */
  lemma MarksAppend(pieces: seq<Piece>, gap: Piece, mark: Piece, page: int)
    requires gap.Gap?
    ensures MarksOn(pieces + [gap, mark], page) ==
      MarksOn(pieces, page) + (if mark.Mark? && mark.page == Some(page) then 1 else 0)
  {
    var q := pieces + [gap];
    assert (pieces + [gap, mark])[..|q|] == q;
    assert q[..|pieces|] == pieces;
  }

  /** Every page's counter has grown by exactly the number of marks placed
      for that page; pages without marks keep their count. */
  lemma {:induction false} CountsTrackMarks(f: Flavor, text: string, counts0: map<int, nat>, spans: seq<Span>, page: int)
    ensures var w := WalkAll(f, text, counts0, spans);
      CountOf(w.counts, page) == CountOf(counts0, page) + MarksOn(w.pieces, page)
    decreases |spans|
  {
    if spans != [] {
      var init := spans[..|spans| - 1];
      CountsTrackMarks(f, text, counts0, init, page);
      StepMarks(f, text, WalkAll(f, text, counts0, init), spans[|spans| - 1], page);
    }
  }

  /** The Excel and web walks never leave early on collected spans: the
      `break` on a start beyond the text cannot fire. */
  lemma {:induction false} WalkNeverStops(f: Flavor, text: string, counts0: map<int, nat>, spans: seq<Span>)
    requires InBounds(spans, |text|)
    ensures !WalkAll(f, text, counts0, spans).stopped
  {
    WalkRestores(f, text, counts0, spans);
  }

  // ---------------------------------------------------------------------
  // The whole splice
  // ---------------------------------------------------------------------

  /** The web extractor's tidying: strip, carriage returns to line feeds,
      bells removed. */
  function TidyWeb(s: string): (r: string)
    ensures '\r' !in r && (7 as char) !in r
  {
    var t := ReplaceChar(Strip(s), '\r', '\n');
    var r := RemoveChar(t, 7 as char);
    assert forall k :: 0 <= k < |t| ==> t[k] != '\r';
    assert forall x :: x in r ==> x in t by {
      FilterIsSubsequence(t, x => x != 7 as char);
      SubsequenceMembers(r, t);
    }
    r
  }

  /** The text a splice returns when it has at least one usable span. */
  function Finish(f: Flavor, text: string, w: WalkState): string
  {
    var joined := Rendered(w.pieces) + Tail(text, w.cursor);
    match f
    case Worker(_) => Strip(joined)
    case Excel => joined
    case Web => TidyWeb(joined)
  }

  /** The text a splice returns when no span is usable. */
  function NoNotes(f: Flavor, text: string): string
  {
    if f.Web? then TidyWeb(text) else Strip(text)
  }

  /** The whole splice as a value: the returned text and the counters. */
  function SpliceOf(f: Flavor, text: string, ownerStart: int, ownerEnd: int, refs: seq<NoteRef>, counts0: map<int, nat>): (string, map<int, nat>)
  {
    var spans := UsableSpans(refs, ownerStart, ownerEnd, |text|);
    if spans == [] then (NoNotes(f, text), counts0)
    else
      var w := WalkAll(f, text, counts0, SortByStart(spans));
      (Finish(f, text, w), w.counts)
  }

  /** `_reconstruct_text_with_note_references` (Excel and web) and the
      worker's `_reconstruct_text_with_note_references_db`: collect the
      usable spans, sort them by start, walk, append the tail, tidy. */
  method Reconstruct(f: Flavor, text: string, ownerStart: int, ownerEnd: int, refs: seq<NoteRef>, counts: PageNoteCounts)
    returns (out: string)
    modifies counts
    ensures (out, counts.counts) == SpliceOf(f, text, ownerStart, ownerEnd, refs, old(counts.counts))
  {
    ghost var counts0 := counts.counts;
    var spans := CollectSpans(refs, ownerStart, ownerEnd, |text|);
    if spans == [] {
      out := if f.Web? then TidyWeb(text) else Strip(text);
      return;
    }
    var sorted := SortByStart(spans);
    var pieces, cursor := WalkSpans(f, text, sorted, counts);
    ghost var w := WalkAll(f, text, counts0, sorted);
    var joined := Rendered(pieces);
    if cursor < |text| {
      joined := joined + text[cursor..];
    }
    assert joined == Rendered(w.pieces) + Tail(text, w.cursor);
    match f
    case Worker(_) => out := Strip(joined);
    case Excel => out := joined;
    case Web => out := TidyWeb(joined);
    assert out == Finish(f, text, w);
  }

  /** The worker's variant also returns its list of related notes, which it
      never fills. */
  method ReconstructForDb(text: string, ownerStart: int, ownerEnd: int, refs: seq<NoteRef>, counts: PageNoteCounts, prefix: string)
    returns (out: string, related: seq<NoteRef>)
    modifies counts
    ensures (out, counts.counts) == SpliceOf(Worker(prefix), text, ownerStart, ownerEnd, refs, old(counts.counts))
    ensures related == []
  {
    out := Reconstruct(Worker(prefix), text, ownerStart, ownerEnd, refs, counts);
    related := [];
  }

  /** The Excel splice, before any tidying, is the original text with each
      placed span replaced by its mark; the counters grow by the marks
      placed per page. */
  lemma ExcelSpliceShape(text: string, ownerStart: int, ownerEnd: int, refs: seq<NoteRef>, counts0: map<int, nat>, page: int)
    requires UsableSpans(refs, ownerStart, ownerEnd, |text|) != []
    ensures var w := WalkAll(Excel, text, counts0, SortByStart(UsableSpans(refs, ownerStart, ownerEnd, |text|)));
      SpliceOf(Excel, text, ownerStart, ownerEnd, refs, counts0).0 == Rendered(w.pieces) + Tail(text, w.cursor) &&
      OriginalOf(w.pieces) + Tail(text, w.cursor) == text &&
      CountOf(SpliceOf(Excel, text, ownerStart, ownerEnd, refs, counts0).1, page) == CountOf(counts0, page) + MarksOn(w.pieces, page)
  {
    var spans := UsableSpans(refs, ownerStart, ownerEnd, |text|);
    SortKeepsBounds(spans, |text|);
    SpliceRestoresText(Excel, text, counts0, SortByStart(spans));
    CountsTrackMarks(Excel, text, counts0, SortByStart(spans), page);
  }

  /** Without usable spans nothing is counted and the text is only tidied. */
  lemma NoNotesLeavesCounts(f: Flavor, text: string, ownerStart: int, ownerEnd: int, refs: seq<NoteRef>, counts0: map<int, nat>)
    requires forall i :: 0 <= i < |refs| ==> !Usable(refs[i], ownerStart, ownerEnd, |text|)
    ensures SpliceOf(f, text, ownerStart, ownerEnd, refs, counts0) == (NoNotes(f, text), counts0)
  {
    NoUsableSpans(refs, ownerStart, ownerEnd, |text|);
  }

  lemma {:induction false} NoUsableSpans(refs: seq<NoteRef>, ownerStart: int, ownerEnd: int, textLen: nat)
    requires forall i :: 0 <= i < |refs| ==> !Usable(refs[i], ownerStart, ownerEnd, textLen)
    ensures UsableSpans(refs, ownerStart, ownerEnd, textLen) == []
    decreases |refs|
  {
    if refs != [] {
      NoUsableSpans(refs[..|refs| - 1], ownerStart, ownerEnd, textLen);
    }
  }

  /** The web splice's result never holds a carriage return or a bell, on
      either return path. */
  lemma WebResultTidy(text: string, ownerStart: int, ownerEnd: int, refs: seq<NoteRef>, counts0: map<int, nat>)
    ensures var out := SpliceOf(Web, text, ownerStart, ownerEnd, refs, counts0).0;
      '\r' !in out && (7 as char) !in out
  {
  }
}
