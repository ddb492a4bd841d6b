/** The proofreading-advice engine shared by the advice worker and the
    stand-alone review script: suggestions are gathered from the decoded AI
    chunks, every source paragraph is matched greedily against the target
    paragraphs by LCS similarity, and each suggestion for the matched target
    is laid out by splitting the target at the first occurrence of the
    fragment the suggestion quotes. */
module Advice {
  import opened Strings
  import opened Lcs

  // ---------------------------------------------------------------------
  // Decoded values
  // ---------------------------------------------------------------------

  /** A scalar as it comes out of the JSON decoder or a database cell. */
  datatype Scalar = SNull | SBool(b: bool) | SInt(i: int) | SStr(s: string)

  /** Python truthiness. */
  predicate Truthy(v: Scalar)
  {
    match v
    case SNull => false
    case SBool(b) => b
    case SInt(i) => i != 0
    case SStr(s) => s != []
  }

  /** Python `==` on scalars; `True == 1` and `False == 0` hold. */
  predicate PyEquals(a: Scalar, b: Scalar)
  {
    match (a, b)
    case (SNull, SNull) => true
    case (SStr(x), SStr(y)) => x == y
    case (SInt(x), SInt(y)) => x == y
    case (SBool(x), SBool(y)) => x == y
    case (SBool(x), SInt(y)) => (if x then 1 else 0) == y
    case (SInt(x), SBool(y)) => x == (if y then 1 else 0)
    case _ => false
  }

  /** Python `str(v)`. */
  function PyStr(v: Scalar): string
  {
    match v
    case SNull => "None"
    case SBool(b) => if b then "True" else "False"
    case SInt(i) => IntToString(i)
    case SStr(s) => s
  }

  /** A decoded suggestion object. */
  type Suggestion = map<string, Scalar>

  /** An element of a decoded `ai_content` list. */
  datatype Item = DictItem(fields: Suggestion) | OtherItem

  /** A chunk's `ai_content` once decoded: a list, or anything else (a
      missing value, a value that fails to decode, an object, a number). */
  datatype Payload = ListPayload(items: seq<Item>) | OtherPayload

  const MaterialId: string := "材料id"

  /** A list element is kept when it is an object holding `材料id`. */
  predicate IsSuggestion(it: Item)
  {
    it.DictItem? && MaterialId in it.fields
  }

  /** `s.get('材料id')`. */
  function IdOf(s: Suggestion): Scalar
  {
    if MaterialId in s then s[MaterialId] else SNull
  }

  // ---------------------------------------------------------------------
  // Suggestion collection
  // ---------------------------------------------------------------------

  /** The objects holding `材料id` in one decoded list, in list order. */
  function Kept(items: seq<Item>): (r: seq<Suggestion>)
    ensures |r| <= |items|
    ensures forall s :: s in r ==> MaterialId in s
    decreases |items|
  {
    if items == [] then []
    else
      var it := items[|items| - 1];
      Kept(items[..|items| - 1]) + (if IsSuggestion(it) then [it.fields] else [])
  }

  /** What one chunk contributes: nothing unless its payload is a list. */
  function Accepted(p: Payload): seq<Suggestion>
  {
    if p.ListPayload? then Kept(p.items) else []
  }

  /** The pieces `f` gives each element of `xs`, joined in order. */
  function FlatMap<T, U>(f: T -> seq<U>, xs: seq<T>): seq<U>
    decreases |xs|
  {
    if xs == [] then [] else FlatMap(f, xs[..|xs| - 1]) + f(xs[|xs| - 1])
  }

  /** Joining distributes over the concatenation of the inputs. */
  lemma {:induction false} FlatMapConcat<T, U>(f: T -> seq<U>, a: seq<T>, b: seq<T>)
    ensures FlatMap(f, a + b) == FlatMap(f, a) + FlatMap(f, b)
    decreases |b|
  {
    if b == [] {
      assert a + b == a;
    } else {
      var n := |b| - 1;
      FlatMapConcat(f, a, b[..n]);
      assert (a + b)[..|a + b| - 1] == a + b[..n];
      assert (a + b)[|a + b| - 1] == b[n];
    }
  }

  /** All suggestions of all chunks, in chunk order. */
  function Collected(chunks: seq<Payload>): seq<Suggestion>
  {
    FlatMap(Accepted, chunks)
  }

  /** The collection loop: every chunk in turn, every list element in turn,
      appending the objects that hold `材料id`. */
  method CollectSuggestions(chunks: seq<Payload>) returns (all: seq<Suggestion>)
    ensures all == Collected(chunks)
  {
    all := [];
    for c := 0 to |chunks|
      invariant all == Collected(chunks[..c])
    {
      assert chunks[..c + 1][..c] == chunks[..c];
      match chunks[c]
      case OtherPayload =>
      case ListPayload(items) =>
        var kept := KeepSuggestions(items);
        all := all + kept;
    }
    assert chunks[..|chunks|] == chunks;
  }

  /** The inner loop over one decoded list. */
  method KeepSuggestions(items: seq<Item>) returns (kept: seq<Suggestion>)
    ensures kept == Kept(items)
  {
    kept := [];
    for j := 0 to |items|
      invariant kept == Kept(items[..j])
    {
      assert items[..j + 1][..j] == items[..j];
      if IsSuggestion(items[j]) {
        kept := kept + [items[j].fields];
      }
    }
    assert items[..|items|] == items;
  }

  /** A list keeps exactly its objects that hold `材料id`. */
  lemma {:induction false} KeptMembers(items: seq<Item>, s: Suggestion)
    ensures s in Kept(items) <==> MaterialId in s && DictItem(s) in items
    decreases |items|
  {
    if items != [] {
      var init := items[..|items| - 1];
      KeptMembers(init, s);
      assert items == init + [items[|items| - 1]];
    }
  }

  /** Collection is order-preserving: the suggestions of a run of chunks
      followed by another run are those of the first run, then those of
      the second. */
  lemma CollectedConcat(a: seq<Payload>, b: seq<Payload>)
    ensures Collected(a + b) == Collected(a) + Collected(b)
  {
    FlatMapConcat(Accepted, a, b);
  }

  /** A suggestion is collected exactly when it is an object holding
      `材料id` in the list payload of some chunk. */
  lemma {:induction false} CollectedMembers(chunks: seq<Payload>, s: Suggestion)
    ensures s in Collected(chunks) <==>
      MaterialId in s &&
      exists c :: 0 <= c < |chunks| && chunks[c].ListPayload? && DictItem(s) in chunks[c].items
    decreases |chunks|
  {
    if chunks != [] {
      var n := |chunks| - 1;
      CollectedMembers(chunks[..n], s);
      KeptMembers(if chunks[n].ListPayload? then chunks[n].items else [], s);
      if MaterialId in s && s in Collected(chunks) {
        if s !in Collected(chunks[..n]) {
          assert chunks[n].ListPayload? && DictItem(s) in chunks[n].items;
        }
      }
      if MaterialId in s && exists c :: 0 <= c < |chunks| && chunks[c].ListPayload? && DictItem(s) in chunks[c].items {
        var c :| 0 <= c < |chunks| && chunks[c].ListPayload? && DictItem(s) in chunks[c].items;
        if c < n {
          assert chunks[..n][c] == chunks[c];
        }
      }
    }
  }

  // ---------------------------------------------------------------------
  // The suggestions relevant to a matched target
  // ---------------------------------------------------------------------

  /** The comprehension keeping the suggestions whose `材料id` equals `id`. */
  function Relevant(all: seq<Suggestion>, id: Scalar): (r: seq<Suggestion>)
    ensures forall s :: s in r <==> s in all && PyEquals(IdOf(s), id)
    ensures IsSubsequence(r, all)
    decreases |all|
  {
    if all == [] then []
    else
      var init := all[..|all| - 1];
      var last := all[|all| - 1];
      var rest := Relevant(init, id);
      assert all == init + [last];
      if PyEquals(IdOf(last), id) then
        var r := rest + [last];
        assert r[..|r| - 1] == rest;
        r
      else rest
  }

  // ---------------------------------------------------------------------
  // The greedy matcher
  // ---------------------------------------------------------------------

  /** A target paragraph: its text and its `content_id`. */
  datatype Target = Target(text: string, contentId: Scalar)

  function Sim(source: string, targets: seq<Target>, j: nat): Ratio
    requires j < |targets|
  {
    Similarity(source, targets[j].text)
  }

  /** The best score so far: 0 while nothing has matched. */
  function ScoreAt(source: string, targets: seq<Target>, best: Option<nat>): (r: Ratio)
    ensures ValidRatio(r)
  {
    if best.Some? && best.value < |targets| then Sim(source, targets, best.value) else Ratio(0, 1)
  }

  /** The index the matching loop ends with: a target replaces the current
      best when it scores at least 0.75 and strictly more than the best so
      far. */
  function BestMatchOf(source: string, targets: seq<Target>): (r: Option<nat>)
    ensures r.Some? ==> r.value < |targets|
    decreases |targets|
  {
    if targets == [] then None
    else
      var k := |targets| - 1;
      var prev := BestMatchOf(source, targets[..k]);
      var score := Sim(source, targets, k);
      if MeetsThreshold(score) && Less(ScoreAt(source, targets, prev), score) then Some(k) else prev
  }

  /** The matching loop over the targets; it also keeps the matched
      target's `content_id` (`None` if nothing matched) and text (`""`). */
  method BestMatch(source: string, targets: seq<Target>) returns (best: Option<nat>, bestId: Scalar, bestText: string)
    ensures best == BestMatchOf(source, targets)
    ensures best.None? ==> bestId == SNull && bestText == ""
    ensures best.Some? ==> bestId == targets[best.value].contentId && bestText == targets[best.value].text
  {
    best, bestId, bestText := None, SNull, "";
    var maxScore := Ratio(0, 1);
    for k := 0 to |targets|
      invariant best == BestMatchOf(source, targets[..k])
      invariant best.Some? ==> best.value < k
      invariant maxScore == ScoreAt(source, targets, best)
      invariant best.None? ==> bestId == SNull && bestText == ""
      invariant best.Some? ==> bestId == targets[best.value].contentId && bestText == targets[best.value].text
    {
      assert targets[..k + 1][..k] == targets[..k];
      var _, _, score := AlignmentDetails(source, targets[k].text);
      if MeetsThreshold(score) && Less(maxScore, score) {
        maxScore := score;
        best, bestId, bestText := Some(k), targets[k].contentId, targets[k].text;
      }
    }
    assert targets[..|targets|] == targets;
  }

  /** `k` is a best match: it reaches the threshold, no target scores more,
      and every earlier target scores strictly less. */
  ghost predicate IsBestMatch(source: string, targets: seq<Target>, k: nat)
  {
    k < |targets| && MeetsThreshold(Sim(source, targets, k)) &&
    (forall j :: 0 <= j < |targets| ==> !Less(Sim(source, targets, k), Sim(source, targets, j))) &&
    (forall j :: 0 <= j < k ==> Less(Sim(source, targets, j), Sim(source, targets, k)))
  }

  /** No target reaches the threshold. */
  ghost predicate NoneQualifies(source: string, targets: seq<Target>)
  {
    forall j :: 0 <= j < |targets| ==> !MeetsThreshold(Sim(source, targets, j))
  }

  lemma ThresholdIsPositive(r: Ratio)
    requires ValidRatio(r) && MeetsThreshold(r)
    ensures Less(Ratio(0, 1), r)
  {
  }

  /** The loop's result is a best match in the sense above, and there is
      none exactly when no target reaches the threshold. */
  lemma {:induction false} BestMatchCharacterised(source: string, targets: seq<Target>)
    ensures BestMatchOf(source, targets).Some? ==> IsBestMatch(source, targets, BestMatchOf(source, targets).value)
    ensures BestMatchOf(source, targets).None? <==> NoneQualifies(source, targets)
    decreases |targets|
  {
    if targets != [] {
      var k := |targets| - 1;
      var init := targets[..k];
      BestMatchCharacterised(source, init);
      var prev := BestMatchOf(source, init);
      var sk := Sim(source, targets, k);
      assert forall j :: 0 <= j < k ==> Sim(source, init, j) == Sim(source, targets, j);
      if MeetsThreshold(sk) && Less(ScoreAt(source, targets, prev), sk) {
        forall j | 0 <= j < k
          ensures Less(Sim(source, targets, j), sk)
        {
          if prev.None? {
            BelowThresholdIsLess(Sim(source, targets, j), sk);
          } else {
            NotLessLessTrans(Sim(source, targets, j), Sim(source, targets, prev.value), sk);
          }
        }
        forall j | 0 <= j < |targets|
          ensures !Less(sk, Sim(source, targets, j))
        {
          if j < k {
            LessIrreflexiveAsym(sk, Sim(source, targets, j));
          }
        }
      } else if prev.None? {
        if MeetsThreshold(sk) {
          ThresholdIsPositive(sk);
        }
      } else {
        var b := prev.value;
        if !MeetsThreshold(sk) {
          BelowThresholdIsLess(sk, Sim(source, targets, b));
          LessIrreflexiveAsym(sk, Sim(source, targets, b));
        }
        BestMatchKept(source, targets, b);
      }
    }
  }

  /** A best match among all but the last target stays the best match when
      the last target does not beat it. */
  lemma BestMatchKept(source: string, targets: seq<Target>, b: nat)
    requires targets != [] && IsBestMatch(source, targets[..|targets| - 1], b)
    requires !Less(Sim(source, targets, b), Sim(source, targets, |targets| - 1))
    ensures IsBestMatch(source, targets, b)
  {
    var k := |targets| - 1;
    forall j | 0 <= j < |targets|
      ensures !Less(Sim(source, targets, b), Sim(source, targets, j))
    {
      if j < k {
        assert Sim(source, targets[..k], j) == Sim(source, targets, j);
      }
    }
    forall j | 0 <= j < b
      ensures Less(Sim(source, targets, j), Sim(source, targets, b))
    {
      assert Sim(source, targets[..k], j) == Sim(source, targets, j);
    }
  }

  /** Only one index can be a best match, so the characterisation pins the
      loop's result down completely. */
  lemma BestMatchUnique(source: string, targets: seq<Target>, k: nat)
    requires IsBestMatch(source, targets, k)
    ensures BestMatchOf(source, targets) == Some(k)
  {
    BestMatchCharacterised(source, targets);
    assert !NoneQualifies(source, targets);
  }

  // ---------------------------------------------------------------------
  // Laying out one suggestion
  // ---------------------------------------------------------------------

  /** The three pieces of a text split around one occurrence of a fragment. */
  datatype Pieces = Pieces(before: string, marked: string, after: string)

  /** The split at the first occurrence of `frag`; `None` when the fragment
      is empty or does not occur. */
  function SplitAtFirst(text: string, frag: string): (r: Option<Pieces>)
    ensures r.None? <==> frag == [] || !Contains(text, frag)
    ensures r.Some? ==> r.value.before + r.value.marked + r.value.after == text
    ensures r.Some? ==> r.value.marked == frag
    ensures r.Some? ==> forall k :: 0 <= k < |r.value.before| ==> !OccursAt(text, frag, k)
  {
    if frag == [] then None
    else
      match Find(text, frag)
      case None => None
      case Some(start) =>
        var end := start + |frag|;
        assert text[..start] + text[start..end] + text[end..] == text;
        Some(Pieces(text[..start], text[start..end], text[end..]))
  }

  /** Which script lays the suggestion out: the two differ only in the
      opening bracket of the fallback note. */
  datatype Variant = Worker | Review

  function FallbackOpener(v: Variant): string
  {
    match v
    case Worker => " (建议修改为："
    case Review => " （建议修改为："
  }

  /** How one suggestion is shown: the target split around the struck
      fragment, followed by the replacement and the status; or, when the
      fragment cannot be located, the whole target and then a note with the
      replacement and the status. */
  datatype Rendering =
    | Marked(before: string, deleted: string, inserted: string, status: string, after: string)
    | Unlocated(whole: string, opener: string, inserted: string, status: string)

  function Render(text: string, original: string, modified: string, status: string, v: Variant): (r: Rendering)
    ensures r.Marked? <==> original != [] && Contains(text, original)
    ensures r.Marked? ==> r.deleted == original && r.inserted == modified && r.status == status
    ensures r.Marked? ==> forall k :: 0 <= k < |r.before| ==> !OccursAt(text, original, k)
    ensures r.Unlocated? ==> r == Unlocated(text, FallbackOpener(v), modified, status)
  {
    match SplitAtFirst(text, original)
    case Some(p) => Marked(p.before, p.marked, modified, status, p.after)
    case None => Unlocated(text, FallbackOpener(v), modified, status)
  }

  /** The target text as the reader recovers it by skipping the inserted
      replacement, status and note. */
  function OriginalView(r: Rendering): string
  {
    match r
    case Marked(before, deleted, _, _, after) => before + deleted + after
    case Unlocated(whole, _, _, _) => whole
  }

  /** The characters written inline, in order. */
  function InlineText(r: Rendering): string
  {
    match r
    case Marked(before, deleted, inserted, status, after) =>
      before + deleted + inserted + "【" + status + "】" + after
    case Unlocated(whole, opener, inserted, status) =>
      whole + opener + inserted + "）" + "【" + status + "】"
  }

  /** Either way, the target is shown intact and in order. */
  lemma RenderKeepsTarget(text: string, original: string, modified: string, status: string, v: Variant)
    ensures OriginalView(Render(text, original, modified, status, v)) == text
  {
  }

  /** The inline text is the target with the replacement and the status
      inserted right after the struck fragment. */
  lemma {:induction false} InlineTextOfMarked(text: string, original: string, modified: string, status: string, v: Variant)
    requires original != [] && Contains(text, original)
    ensures var r := Render(text, original, modified, status, v);
      InlineText(r) == text[..|r.before| + |original|] + modified + "【" + status + "】" + text[|r.before| + |original|..]
  {
    var r := Render(text, original, modified, status, v);
    var cut := |r.before| + |original|;
    assert r.before + r.deleted + r.after == text;
    assert text[..cut] == r.before + r.deleted;
    assert text[cut..] == r.after;
  }

  // ---------------------------------------------------------------------
  // Status translation
  // ---------------------------------------------------------------------

  const StatusTable: map<string, string> := map[
    "pending" := "待修改",
    "accepted" := "已接受修改建议",
    "denied" := "已拒绝修改建议",
    "accepted-edited" := "已手动修改"
  ]

  /** `STATUS_TRANSLATION.get(status, status)`. */
  function Translate(status: string): (r: string)
    ensures status !in StatusTable ==> r == status
    ensures status in StatusTable ==> r == StatusTable[status]
  {
    if status in StatusTable then StatusTable[status] else status
  }

  /** No translation is itself a raw status, so translating twice changes
      nothing further. */
  lemma TranslateIdempotent(status: string)
    ensures Translate(Translate(status)) == Translate(status)
  {
    if status in StatusTable {
      assert Translate(status) !in StatusTable;
    }
  }

  // ---------------------------------------------------------------------
  // The report
  // ---------------------------------------------------------------------

  const OriginalKey: string := "原始内容"
  const ModifiedKey: string := "修改后内容"
  const StatusKey: string := "status"
  const ReasonKey: string := "出错原因"
  const DefaultStatus: string := "N/A"
  const DefaultReason: string := "无原因说明"
  const NoMatchNotice: string := "未找到与原始文档内容匹配的有效审校建议。"

  /** `str(s.get(key, default))`. */
  function FieldText(s: Suggestion, key: string, default: string): string
  {
    if key in s then PyStr(s[key]) else default
  }

  /** A source paragraph: its text and the page label shown with it. */
  datatype SourcePara = SourcePara(text: string, page: string)

  /** One block of the report: the page label, the laid-out target and the
      reason line. */
  datatype Block = Block(page: string, rendering: Rendering, reason: string)

  function SuggestionBlock(page: string, target: string, s: Suggestion, v: Variant): Block
  {
    Block(page,
          Render(target, FieldText(s, OriginalKey, ""), FieldText(s, ModifiedKey, ""),
                 Translate(FieldText(s, StatusKey, DefaultStatus)), v),
          FieldText(s, ReasonKey, DefaultReason))
  }

  /** One block per relevant suggestion, in order. */
  function BlocksOf(page: string, target: string, rel: seq<Suggestion>, v: Variant): seq<Block>
  {
    seq(|rel|, i requires 0 <= i < |rel| => SuggestionBlock(page, target, rel[i], v))
  }

  /** The blocks one source paragraph contributes: none without a match or
      with a falsy `content_id`; otherwise one per relevant suggestion. */
  function BlocksFor(src: SourcePara, targets: seq<Target>, all: seq<Suggestion>, v: Variant): seq<Block>
  {
    match BestMatchOf(src.text, targets)
    case None => []
    case Some(b) =>
      if !Truthy(targets[b].contentId) then []
      else BlocksOf(src.page, targets[b].text, Relevant(all, targets[b].contentId), v)
  }

  /** `BlocksFor` with the targets, suggestions and variant fixed. */
  function BlocksWith(targets: seq<Target>, all: seq<Suggestion>, v: Variant): SourcePara -> seq<Block>
  {
    src => BlocksFor(src, targets, all, v)
  }

  /** The blocks of all source paragraphs, in source order. */
  function Report(sources: seq<SourcePara>, targets: seq<Target>, all: seq<Suggestion>, v: Variant): seq<Block>
  {
    FlatMap(BlocksWith(targets, all, v), sources)
  }

  /** The body of the loop over source paragraphs: match, skip when the
      match is missing or its id falsy, and lay out every relevant
      suggestion. */
  method AdviceFor(src: SourcePara, targets: seq<Target>, all: seq<Suggestion>, v: Variant) returns (out: seq<Block>)
    ensures out == BlocksFor(src, targets, all, v)
  {
    out := [];
    var best, bestId, bestText := BestMatch(src.text, targets);
    if !Truthy(bestId) {
      return;
    }
    var rel := Relevant(all, bestId);
    if rel == [] {
      return;
    }
    out := LayOut(src.page, bestText, rel, v);
  }

  /** The loop over the relevant suggestions of one matched paragraph. */
  method LayOut(page: string, target: string, rel: seq<Suggestion>, v: Variant) returns (out: seq<Block>)
    ensures out == BlocksOf(page, target, rel, v)
  {
    out := [];
    for j := 0 to |rel|
      invariant out == BlocksOf(page, target, rel[..j], v)
    {
      BlocksOfStep(page, target, rel, v, j);
      out := out + [SuggestionBlock(page, target, rel[j], v)];
    }
    assert rel[..|rel|] == rel;
  }

  lemma BlocksOfStep(page: string, target: string, rel: seq<Suggestion>, v: Variant, j: nat)
    requires j < |rel|
    ensures BlocksOf(page, target, rel[..j + 1], v) == BlocksOf(page, target, rel[..j], v) + [SuggestionBlock(page, target, rel[j], v)]
  {
  }

  /** The whole report: collect the suggestions, then handle every source
      paragraph in turn.  The advice worker gives up before any of this
      when there are no chunk rows (`produced` is false: no report, no
      notice), and adds a notice when nothing was written. */
  method GenerateAdvice(chunks: seq<Payload>, sources: seq<SourcePara>, targets: seq<Target>, v: Variant)
    returns (produced: bool, blocks: seq<Block>, notice: Option<string>)
    ensures produced <==> !(v == Worker && chunks == [])
    ensures blocks == Report(sources, targets, Collected(chunks), v)
    ensures !produced ==> blocks == [] && notice.None?
    ensures notice.Some? <==> produced && v == Worker && blocks == []
    ensures notice.Some? ==> notice.value == NoMatchNotice
  {
    if v == Worker && chunks == [] {
      NoSuggestionsNoReport(sources, targets, v);
      return false, [], None;
    }
    produced := true;
    var all := CollectSuggestions(chunks);
    blocks := [];
    for i := 0 to |sources|
      invariant blocks == Report(sources[..i], targets, all, v)
    {
      assert sources[..i + 1][..i] == sources[..i];
      var more := AdviceFor(sources[i], targets, all, v);
      blocks := blocks + more;
    }
    assert sources[..|sources|] == sources;
    notice := if v == Worker && blocks == [] then Some(NoMatchNotice) else None;
  }

  /** Without chunk rows there are no suggestions, so no paragraph
      contributes a block. */
  lemma {:induction false} NoSuggestionsNoReport(sources: seq<SourcePara>, targets: seq<Target>, v: Variant)
    ensures Report(sources, targets, Collected([]), v) == []
    decreases |sources|
  {
    if sources != [] {
      NoSuggestionsNoReport(sources[..|sources| - 1], targets, v);
      assert BlocksFor(sources[|sources| - 1], targets, [], v) == [];
    }
  }

  /** Paragraphs are handled independently and targets are never used up:
      the report of two runs of paragraphs is the two reports in turn. */
  lemma ReportConcat(a: seq<SourcePara>, b: seq<SourcePara>, targets: seq<Target>, all: seq<Suggestion>, v: Variant)
    ensures Report(a + b, targets, all, v) == Report(a, targets, all, v) + Report(b, targets, all, v)
  {
    FlatMapConcat(BlocksWith(targets, all, v), a, b);
  }

  /** A paragraph that reaches the threshold with no target contributes
      nothing. */
  lemma UnmatchedContributesNothing(src: SourcePara, targets: seq<Target>, all: seq<Suggestion>, v: Variant)
    requires NoneQualifies(src.text, targets)
    ensures BlocksFor(src, targets, all, v) == []
  {
    BestMatchCharacterised(src.text, targets);
  }

  /** A matched paragraph contributes one block per suggestion whose
      `材料id` equals the best match's id, each showing that target
      intact. */
  lemma MatchedContributions(src: SourcePara, targets: seq<Target>, all: seq<Suggestion>, v: Variant, k: nat)
    requires IsBestMatch(src.text, targets, k) && Truthy(targets[k].contentId)
    ensures var blocks := BlocksFor(src, targets, all, v);
      var rel := Relevant(all, targets[k].contentId);
      |blocks| == |rel| &&
      forall i :: 0 <= i < |blocks| ==>
        blocks[i].page == src.page && OriginalView(blocks[i].rendering) == targets[k].text &&
        PyEquals(IdOf(rel[i]), targets[k].contentId)
  {
    BestMatchUnique(src.text, targets, k);
    var rel := Relevant(all, targets[k].contentId);
    forall i | 0 <= i < |rel|
      ensures PyEquals(IdOf(rel[i]), targets[k].contentId)
    {
      assert rel[i] in rel;
    }
  }
}
