/** Heading tracking and content grouping shared by the two outline
    extractors: the material parser, which stores one tree node per heading
    path, and the Excel exporter, which writes one row per heading path.

    Both walk the paragraphs of a document, keep the text of the latest
    heading of every outline level in nine slots, and file each non-empty
    paragraph under the tuple of slots that starts at the document's top
    heading level. */
module Outline {
  import opened Strings
  import opened Sanitize

  /** A Word paragraph: its text, the automatic number Word shows in front
      of it (empty when it has none) and its outline level (1-9 for a
      heading, 10 for body text). */
  datatype Paragraph = Paragraph(rawText: string, listString: string, outlineLevel: int)

  predicate IsHeading(level: int)
  {
    1 <= level <= 9
  }

  /** The list number and the raw text joined by one space. */
  function FullText(p: Paragraph): string
  {
    if p.listString != [] then p.listString + " " + p.rawText else p.rawText
  }

  /** `clean_text(full_text).strip()`: the listed control characters go and
      the ends are trimmed. */
  function ParagraphText(p: Paragraph): (r: string)
    ensures forall k :: 0 <= k < |r| ==> !IsStrayControl(r[k])
    ensures r == [] || (!IsSpace(r[0]) && !IsSpace(r[|r| - 1]))
  {
    var c := RemoveControlChars(FullText(p));
    StripMembers(c);
    assert forall x :: x in c ==> !IsStrayControl(x);
    Strip(c)
  }

  // ---------------------------------------------------------------------
  // The heading slots `标题1` .. `标题9`
  // ---------------------------------------------------------------------

  const SlotCount: nat := 9

  /** All nine slots empty, as at the start of a document. */
  function NoHeadings(): (slots: seq<string>)
    ensures |slots| == SlotCount
    ensures forall i :: 0 <= i < SlotCount ==> slots[i] == []
  {
    seq(SlotCount, _ => [])
  }

  /** The slots after a heading at `level`: slot `level` holds its text,
      the slots above it keep theirs and every deeper slot is emptied. */
  function SetHeading(slots: seq<string>, level: int, text: string): (r: seq<string>)
    requires |slots| == SlotCount && IsHeading(level)
    ensures |r| == SlotCount
    ensures r[level - 1] == text
    ensures forall i :: 0 <= i < level - 1 ==> r[i] == slots[i]
    ensures forall i :: level <= i < SlotCount ==> r[i] == []
  {
    slots[..level - 1] + [text] + seq(SlotCount - level, _ => [])
  }

  /** The heading update of the paragraph loop: set the slot, then clear the
      deeper ones one by one. */
  method UpdateHeadings(slots: seq<string>, level: int, text: string) returns (r: seq<string>)
    requires |slots| == SlotCount && IsHeading(level)
    ensures r == SetHeading(slots, level, text)
  {
    r := slots[level - 1 := text];
    for deeper := level + 1 to 10
      invariant |r| == SlotCount
      invariant forall i :: 0 <= i < SlotCount ==>
        r[i] == (if i < level - 1 then slots[i] else if i == level - 1 then text
                 else if i < deeper - 1 then [] else slots[i])
    {
      r := r[deeper - 1 := []];
    }
    var want := SetHeading(slots, level, text);
    assert forall i :: 0 <= i < SlotCount ==> r[i] == want[i];
  }

  // ---------------------------------------------------------------------
  // Grouping keys
  // ---------------------------------------------------------------------

  type Key = seq<string>

  /** How many slots a key holds: `n` from the top level, but never past
      level 9; none when `n` is not positive. */
  function KeyLength(minLevel: int, n: int): nat
    requires IsHeading(minLevel)
  {
    if n <= 0 then 0 else if minLevel + n <= 10 then n else 10 - minLevel
  }

  /** The key of the current slots: slots `minLevel .. minLevel + n - 1`,
      cut at level 9. */
  function KeyOf(slots: seq<string>, minLevel: int, n: int): (key: Key)
    requires |slots| == SlotCount && IsHeading(minLevel)
    ensures |key| == KeyLength(minLevel, n)
    ensures |key| <= 10 - minLevel && (n > 0 ==> |key| <= n)
    ensures forall j :: 0 <= j < |key| ==> key[j] == slots[minLevel - 1 + j]
  {
    slots[minLevel - 1 .. minLevel - 1 + KeyLength(minLevel, n)]
  }

  /** The key loop: one slot per `j < n` whose absolute level is at most 9. */
  method BuildKey(slots: seq<string>, minLevel: int, n: int) returns (key: Key)
    requires |slots| == SlotCount && IsHeading(minLevel)
    ensures key == KeyOf(slots, minLevel, n)
  {
    key := [];
    var j := 0;
    while j < n
      invariant 0 <= j && (j <= n || j == 0)
      invariant key == KeyOf(slots, minLevel, j)
    {
      var absolute := minLevel + j;
      if absolute <= 9 {
        key := key + [slots[absolute - 1]];
      }
      j := j + 1;
    }
  }

  /** `not any(key)`: every slot of the key is empty. */
  predicate AllEmpty(key: Key)
  {
    forall j :: 0 <= j < |key| ==> key[j] == []
  }

  // ---------------------------------------------------------------------
  // The paragraph walk
  // ---------------------------------------------------------------------

  /** One paragraph filed under one key. */
  datatype Entry = Entry(key: Key, text: string)

  /** The slots and the entries filed so far. */
  datatype Walk = Walk(slots: seq<string>, entries: seq<Entry>)

  /** One paragraph of the loop. An empty paragraph changes nothing; a
      heading updates the slots; the text is then filed under the current
      key, unless `skipUntitled` is set and the key is all empty (the
      material parser sets it, the Excel exporter does not). */
  function ParagraphStep(w: Walk, p: Paragraph, minLevel: int, n: int, skipUntitled: bool): Walk
    requires |w.slots| == SlotCount && IsHeading(minLevel)
  {
    var text := ParagraphText(p);
    if text == [] then w
    else
      var slots := if IsHeading(p.outlineLevel) then SetHeading(w.slots, p.outlineLevel, text) else w.slots;
      var key := KeyOf(slots, minLevel, n);
      if skipUntitled && AllEmpty(key) then Walk(slots, w.entries)
      else Walk(slots, w.entries + [Entry(key, text)])
  }

  /** The walk over a whole paragraph sequence. */
  function WalkOf(paras: seq<Paragraph>, minLevel: int, n: int, skipUntitled: bool): (w: Walk)
    requires IsHeading(minLevel)
    ensures |w.slots| == SlotCount
    decreases |paras|
  {
    if paras == [] then Walk(NoHeadings(), [])
    else ParagraphStep(WalkOf(paras[..|paras| - 1], minLevel, n, skipUntitled), paras[|paras| - 1], minLevel, n, skipUntitled)
  }

  /** The paragraph texts that are not empty, in document order. */
  function NonEmptyTexts(paras: seq<Paragraph>): (r: seq<string>)
    ensures |r| <= |paras|
    decreases |paras|
  {
    if paras == [] then []
    else
      var t := ParagraphText(paras[|paras| - 1]);
      NonEmptyTexts(paras[..|paras| - 1]) + (if t == [] then [] else [t])
  }

  function Texts(es: seq<Entry>): (r: seq<string>)
    ensures |r| == |es| && forall i :: 0 <= i < |es| ==> r[i] == es[i].text
  {
    seq(|es|, i requires 0 <= i < |es| => es[i].text)
  }

  /** What one paragraph files: nothing, or one entry with its non-empty
      text under a key of the document's key length, which is not all empty
      when `skipUntitled` is set. Only an empty paragraph, or a skipped
      all-empty key, files nothing. */
  lemma StepFiles(w: Walk, p: Paragraph, minLevel: int, n: int, skipUntitled: bool)
    requires |w.slots| == SlotCount && IsHeading(minLevel)
    ensures var w' := ParagraphStep(w, p, minLevel, n, skipUntitled);
      var t := ParagraphText(p);
      (w'.entries == w.entries && (t == [] || skipUntitled)) ||
      (t != [] && w'.entries == w.entries + [w'.entries[|w.entries|]] &&
       w'.entries[|w.entries|].text == t && FiledOk(w'.entries[|w.entries|], minLevel, n, skipUntitled))
  {
  }

  predicate FiledOk(e: Entry, minLevel: int, n: int, skipUntitled: bool)
    requires IsHeading(minLevel)
  {
    e.text != [] && |e.key| == KeyLength(minLevel, n) && (skipUntitled ==> !AllEmpty(e.key))
  }

  /** Every entry of the walk holds a non-empty text and a key of the
      document's key length; with `skipUntitled` no key is all empty. */
  lemma {:induction false} WalkEntriesFiled(paras: seq<Paragraph>, minLevel: int, n: int, skipUntitled: bool)
    requires IsHeading(minLevel)
    ensures AllFiledOk(WalkOf(paras, minLevel, n, skipUntitled).entries, minLevel, n, skipUntitled)
    decreases |paras|
  {
    if paras != [] {
      var init := paras[..|paras| - 1];
      WalkEntriesFiled(init, minLevel, n, skipUntitled);
      var e0 := WalkOf(init, minLevel, n, skipUntitled).entries;
      var es := WalkOf(paras, minLevel, n, skipUntitled).entries;
      StepFiles(WalkOf(init, minLevel, n, skipUntitled), paras[|paras| - 1], minLevel, n, skipUntitled);
      AllFiledOkAppend(e0, es, minLevel, n, skipUntitled);
    }
  }

  lemma AllFiledOkAppend(e0: seq<Entry>, es: seq<Entry>, minLevel: int, n: int, skipUntitled: bool)
    requires IsHeading(minLevel) && AllFiledOk(e0, minLevel, n, skipUntitled)
    requires es == e0 || (|es| == |e0| + 1 && es == e0 + [es[|e0|]] && FiledOk(es[|e0|], minLevel, n, skipUntitled))
    ensures AllFiledOk(es, minLevel, n, skipUntitled)
  {
  }

  predicate AllFiledOk(es: seq<Entry>, minLevel: int, n: int, skipUntitled: bool)
    requires IsHeading(minLevel)
  {
    forall i :: 0 <= i < |es| ==> FiledOk(es[i], minLevel, n, skipUntitled)
  }

  /** Without `skipUntitled` every non-empty paragraph is filed, in
      document order; with it the filed texts are a subsequence of them. */
  lemma {:induction false} WalkTexts(paras: seq<Paragraph>, minLevel: int, n: int, skipUntitled: bool)
    requires IsHeading(minLevel)
    ensures var es := WalkOf(paras, minLevel, n, skipUntitled).entries;
      (skipUntitled ==> IsSubsequence(Texts(es), NonEmptyTexts(paras))) &&
      (!skipUntitled ==> Texts(es) == NonEmptyTexts(paras))
    decreases |paras|
  {
    if paras != [] {
      var init := paras[..|paras| - 1];
      WalkTexts(init, minLevel, n, skipUntitled);
      var w0 := WalkOf(init, minLevel, n, skipUntitled);
      var es := WalkOf(paras, minLevel, n, skipUntitled).entries;
      var t := ParagraphText(paras[|paras| - 1]);
      var a := Texts(w0.entries);
      var b := NonEmptyTexts(init);
      var tail: seq<string> := if t == [] then [] else [t];
      assert NonEmptyTexts(paras) == b + tail;
      StepFiles(w0, paras[|paras| - 1], minLevel, n, skipUntitled);
      if es == w0.entries {
        if skipUntitled {
          SubsequenceExtend(a, b, tail);
        }
      } else {
        TextsAppend(w0.entries, es[|w0.entries|]);
        if skipUntitled {
          SubsequenceOfSelf(tail);
          SubsequenceConcat(a, b, tail, tail);
        }
      }
    }
  }

  lemma TextsAppend(es: seq<Entry>, e: Entry)
    ensures Texts(es + [e]) == Texts(es) + [e.text]
  {
  }

  /** A heading inside the key window is filed under a key that ends with
      it: its own text at its relative position and nothing deeper. */
  lemma HeadingKey(w: Walk, p: Paragraph, minLevel: int, n: int, skipUntitled: bool)
    requires |w.slots| == SlotCount && IsHeading(minLevel)
    requires IsHeading(p.outlineLevel) && ParagraphText(p) != []
    requires minLevel <= p.outlineLevel < minLevel + KeyLength(minLevel, n)
    ensures var w' := ParagraphStep(w, p, minLevel, n, skipUntitled);
      var rel := p.outlineLevel - minLevel;
      |w'.entries| == |w.entries| + 1 &&
      var e := w'.entries[|w.entries|];
      e.text == ParagraphText(p) && e.key[rel] == ParagraphText(p) &&
      (forall j :: rel < j < |e.key| ==> e.key[j] == []) &&
      (forall j :: 0 <= j < rel ==> e.key[j] == w.slots[minLevel - 1 + j])
  {
    var text := ParagraphText(p);
    var key := KeyOf(SetHeading(w.slots, p.outlineLevel, text), minLevel, n);
    HeadingKeyShape(w.slots, p.outlineLevel, text, minLevel, n);
    assert !AllEmpty(key);
    assert ParagraphStep(w, p, minLevel, n, skipUntitled) == Walk(SetHeading(w.slots, p.outlineLevel, text), w.entries + [Entry(key, text)]);
  }

  /** The key after a heading inside the key window. */
  lemma HeadingKeyShape(slots: seq<string>, level: int, text: string, minLevel: int, n: int)
    requires |slots| == SlotCount && IsHeading(minLevel) && IsHeading(level) && text != []
    requires minLevel <= level < minLevel + KeyLength(minLevel, n)
    ensures var key := KeyOf(SetHeading(slots, level, text), minLevel, n);
      var rel := level - minLevel;
      key[rel] == text &&
      (forall j :: rel < j < |key| ==> key[j] == []) &&
      (forall j :: 0 <= j < rel ==> key[j] == slots[minLevel - 1 + j])
  {
  }

  // ---------------------------------------------------------------------
  // Grouping: `doc_content_aggregator`
  // ---------------------------------------------------------------------

  /** The aggregator dictionary: its keys in insertion order and the texts
      under each. */
  datatype Groups = Groups(order: seq<Key>, content: map<Key, seq<string>>)

  /** `aggregator.setdefault(key, []).append(text)`. */
  function AddText(g: Groups, key: Key, text: string): Groups
  {
    if key in g.content then Groups(g.order, g.content[key := g.content[key] + [text]])
    else Groups(g.order + [key], g.content[key := [text]])
  }

  function GroupEntries(es: seq<Entry>): Groups
    decreases |es|
  {
    if es == [] then Groups([], map[])
    else AddText(GroupEntries(es[..|es| - 1]), es[|es| - 1].key, es[|es| - 1].text)
  }

  /** The texts filed under `key`, in order. */
  function TextsUnder(es: seq<Entry>, key: Key): (r: seq<string>)
    ensures |r| <= |es|
    decreases |es|
  {
    if es == [] then []
    else TextsUnder(es[..|es| - 1], key) + (if es[|es| - 1].key == key then [es[|es| - 1].text] else [])
  }

  predicate NoDuplicates<T(==)>(s: seq<T>)
  {
    forall i, j :: 0 <= i < j < |s| ==> s[i] != s[j]
  }

  /** The dictionary matches the filed entries: each filed key is held
      once, in the order list and as a map key, and under each key are
      exactly the texts filed under it, in filing order. */
  ghost predicate Collects(g: Groups, es: seq<Entry>)
  {
    NoDuplicates(g.order) &&
    (forall k :: k in g.order <==> k in g.content) &&
    (forall k :: k in g.content <==> TextsUnder(es, k) != []) &&
    (forall k :: k in g.content ==> g.content[k] == TextsUnder(es, k))
  }

  lemma AddTextCollects(g: Groups, es: seq<Entry>, e: Entry)
    requires Collects(g, es)
    ensures Collects(AddText(g, e.key, e.text), es + [e])
  {
    var es' := es + [e];
    forall k ensures TextsUnder(es', k) == TextsUnder(es, k) + (if e.key == k then [e.text] else []) {
      TextsUnderAppend(es, e, k);
    }
    AddTextKeys(g, e.key, e.text);
  }

  lemma TextsUnderAppend(es: seq<Entry>, e: Entry, k: Key)
    ensures TextsUnder(es + [e], k) == TextsUnder(es, k) + (if e.key == k then [e.text] else [])
  {
    assert (es + [e])[..|es|] == es;
  }

  /** `setdefault` keeps the key list free of repeats and in step with
      the dictionary's keys. */
  lemma AddTextKeys(g: Groups, key: Key, text: string)
    requires NoDuplicates(g.order) && forall k :: k in g.order <==> k in g.content
    ensures var g' := AddText(g, key, text);
      NoDuplicates(g'.order) && (forall k :: k in g'.order <==> k in g'.content) &&
      g'.content.Keys == g.content.Keys + {key} &&
      g'.content[key] == (if key in g.content then g.content[key] else []) + [text] &&
      forall k :: k in g.content && k != key ==> g'.content[k] == g.content[k]
  {
  }

  lemma {:induction false} GroupEntriesCollects(es: seq<Entry>)
    ensures Collects(GroupEntries(es), es)
    decreases |es|
  {
    if es != [] {
      var init := es[..|es| - 1];
      GroupEntriesCollects(init);
      AddTextCollects(GroupEntries(init), init, es[|es| - 1]);
      assert init + [es[|es| - 1]] == es;
    }
  }

  /** A key with texts under it was filed by some entry. */
  lemma {:induction false} TextsUnderFiled(es: seq<Entry>, k: Key)
    requires TextsUnder(es, k) != []
    ensures exists i :: 0 <= i < |es| && es[i].key == k
    decreases |es|
  {
    var init := es[..|es| - 1];
    if es[|es| - 1].key != k {
      TextsUnderFiled(init, k);
      var i :| 0 <= i < |init| && init[i].key == k;
      assert es[i].key == k;
    }
  }

  /** The aggregation of a document. */
  function Aggregate(paras: seq<Paragraph>, minLevel: int, n: int, skipUntitled: bool): Groups
    requires IsHeading(minLevel)
  {
    GroupEntries(WalkOf(paras, minLevel, n, skipUntitled).entries)
  }

  /** The aggregated dictionary of a document: every key is one the walk
      filed, of the document's key length, never all empty when
      `skipUntitled` is set, and holds the texts filed under it in document
      order, none of them empty. */
  lemma AggregateGroups(paras: seq<Paragraph>, minLevel: int, n: int, skipUntitled: bool)
    requires IsHeading(minLevel)
    ensures var g := Aggregate(paras, minLevel, n, skipUntitled);
      Collects(g, WalkOf(paras, minLevel, n, skipUntitled).entries) &&
      forall k :: k in g.content ==>
        |k| == KeyLength(minLevel, n) && (skipUntitled ==> !AllEmpty(k)) && g.content[k] != []
  {
    var es := WalkOf(paras, minLevel, n, skipUntitled).entries;
    GroupEntriesCollects(es);
    WalkEntriesFiled(paras, minLevel, n, skipUntitled);
    forall k | k in Aggregate(paras, minLevel, n, skipUntitled).content
      ensures |k| == KeyLength(minLevel, n) && (skipUntitled ==> !AllEmpty(k))
    {
      TextsUnderFiled(es, k);
      var i :| 0 <= i < |es| && es[i].key == k;
      assert FiledOk(es[i], minLevel, n, skipUntitled);
    }
  }

  /** `aggregator.items()`: each key with its texts, in insertion order. */
  function Items(g: Groups): (items: seq<(Key, seq<string>)>)
    ensures |items| == |g.order|
    ensures forall i :: 0 <= i < |items| ==> items[i].0 == g.order[i]
  {
    seq(|g.order|, i requires 0 <= i < |g.order| =>
      (g.order[i], if g.order[i] in g.content then g.content[g.order[i]] else []))
  }

  /** `aggregator.setdefault(key, []).append(text)` on the dictionary. */
  method AddToGroups(order: seq<Key>, content: map<Key, seq<string>>, key: Key, text: string)
    returns (order': seq<Key>, content': map<Key, seq<string>>)
    ensures Groups(order', content') == AddText(Groups(order, content), key, text)
  {
    if key in content {
      order', content' := order, content[key := content[key] + [text]];
    } else {
      order', content' := order + [key], content[key := [text]];
    }
  }

  /** The body of the paragraph loop for one paragraph, on the slots and
      the dictionary. */
  method FileParagraph(slots: seq<string>, order: seq<Key>, content: map<Key, seq<string>>,
                       p: Paragraph, minLevel: int, n: int, skipUntitled: bool, ghost entries: seq<Entry>)
    returns (slots': seq<string>, order': seq<Key>, content': map<Key, seq<string>>, ghost entries': seq<Entry>)
    requires |slots| == SlotCount && IsHeading(minLevel)
    requires Groups(order, content) == GroupEntries(entries)
    ensures Walk(slots', entries') == ParagraphStep(Walk(slots, entries), p, minLevel, n, skipUntitled)
    ensures Groups(order', content') == GroupEntries(entries')
  {
    StepShape(Walk(slots, entries), p, minLevel, n, skipUntitled);
    slots', order', content', entries' := slots, order, content, entries;
    var full := if p.listString != [] then p.listString + " " + p.rawText else p.rawText;
    var text := Strip(RemoveControlChars(full));
    assert full == FullText(p);
    if text == [] {
      return;
    }
    if IsHeading(p.outlineLevel) {
      slots' := UpdateHeadings(slots, p.outlineLevel, text);
    }
    var key := BuildKey(slots', minLevel, n);
    if skipUntitled && AllEmpty(key) {
      return;
    }
    order', content' := AddToGroups(order, content, key, text);
    entries' := entries + [Entry(key, text)];
    GroupEntriesAppend(entries, Entry(key, text));
  }

  /** `ParagraphStep` taken apart. */
  lemma StepShape(w: Walk, p: Paragraph, minLevel: int, n: int, skipUntitled: bool)
    requires |w.slots| == SlotCount && IsHeading(minLevel)
    ensures var t := ParagraphText(p);
      var w' := ParagraphStep(w, p, minLevel, n, skipUntitled);
      var slots := if IsHeading(p.outlineLevel) then SetHeading(w.slots, p.outlineLevel, t) else w.slots;
      var key := KeyOf(slots, minLevel, n);
      (t == [] ==> w' == w) &&
      (t != [] && skipUntitled && AllEmpty(key) ==> w' == Walk(slots, w.entries)) &&
      (t != [] && !(skipUntitled && AllEmpty(key)) ==> w' == Walk(slots, w.entries + [Entry(key, t)]))
  {
  }

  lemma GroupEntriesAppend(es: seq<Entry>, e: Entry)
    ensures GroupEntries(es + [e]) == AddText(GroupEntries(es), e.key, e.text)
  {
    assert (es + [e])[..|es|] == es;
  }

  /** The paragraph loop of both extractors, building the slots and the
      aggregator dictionary in place. */
  method AggregateContent(paras: seq<Paragraph>, minLevel: int, n: int, skipUntitled: bool)
    returns (order: seq<Key>, content: map<Key, seq<string>>)
    requires IsHeading(minLevel)
    ensures Groups(order, content) == Aggregate(paras, minLevel, n, skipUntitled)
  {
    var slots := NoHeadings();
    order, content := [], map[];
    ghost var entries: seq<Entry> := [];
    for i := 0 to |paras|
      invariant Walk(slots, entries) == WalkOf(paras[..i], minLevel, n, skipUntitled)
      invariant Groups(order, content) == GroupEntries(entries)
    {
      assert paras[..i + 1][..i] == paras[..i];
      slots, order, content, entries := FileParagraph(slots, order, content, paras[i], minLevel, n, skipUntitled, entries);
    }
    assert paras[..|paras|] == paras;
  }

  // ---------------------------------------------------------------------
  // Heading levels of a document
  // ---------------------------------------------------------------------

  /** The smallest and the largest outline level 1-9 used by any paragraph,
      empty or not; `None` when the document has no heading. */
  function LevelRange(paras: seq<Paragraph>): (r: Option<(int, int)>)
    ensures r.None? <==> forall i :: 0 <= i < |paras| ==> !IsHeading(paras[i].outlineLevel)
    ensures r.Some? ==> 1 <= r.value.0 <= r.value.1 <= 9
    ensures r.Some? ==> exists i :: 0 <= i < |paras| && paras[i].outlineLevel == r.value.0
    ensures r.Some? ==> exists i :: 0 <= i < |paras| && paras[i].outlineLevel == r.value.1
    ensures r.Some? ==> forall i :: 0 <= i < |paras| && IsHeading(paras[i].outlineLevel) ==>
      r.value.0 <= paras[i].outlineLevel <= r.value.1
    decreases |paras|
  {
    if paras == [] then None
    else
      var init := paras[..|paras| - 1];
      var l := paras[|paras| - 1].outlineLevel;
      var rest := LevelRange(init);
      assert forall i :: 0 <= i < |init| ==> init[i] == paras[i];
      if !IsHeading(l) then rest
      else if rest.None? then Some((l, l))
      else Some((if l < rest.value.0 then l else rest.value.0, if l > rest.value.1 then l else rest.value.1))
  }
}
