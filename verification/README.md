# ProofEase document core, modelled in Dafny

ProofEase turns Word documents into database rows and Excel sheets, and turns
AI proofreading suggestions back into a Word report. Its logic sits inside
Word automation, MySQL and Tk glue. This project lifts that logic onto plain
sequences, maps and small classes, and proves what each part guarantees.

The model covers the following parts.

- **Advice engine** (`advice_generator_worker.py`, duplicated in
  `genShenJiaoAdvice.py`).
  - `Lcs`: the LCS dynamic-programming table, its backtrack, and the
    similarity score `2L/(n+m)`. The score is an exact fraction, so the 0.75
    threshold becomes the integer test `8L >= 3(n+m)`.
  - `Advice`:
    - collection of the suggestions that carry `材料id`;
    - the greedy best-match loop, where strict `>` makes the first target
      win a tie;
    - the suggestion filter;
    - the first-occurrence split;
    - the fallback layout;
    - status translation;
    - the report, as a sequence of blocks.
  - The two scripts differ only in the fallback opener (` (建议修改为：` or
    ` （建议修改为：`), in the worker's early exit when there are no chunk
    rows, and in the closing notice. The `Variant` parameter carries that
    difference.
- **Note-reference splicing** (`NoteSplice`).
  - The three `_reconstruct_text_with_note_references*` functions share one
    cursor walk. A `Flavor` says which mark a flavour prints, whether its loop
    may `break` and clamp the cursor, and how the result is tidied.
  - The per-page counter dictionary that the caller passes in is the class
    `PageNoteCounts`.
- **Sanitisers and table serialisers** (`Sanitize`):
  - the XML 1.0 `Char` filter (section 2.2 of XML 1.0, Fifth Edition);
  - the 32767-character cell cap with its `... (truncated)` suffix;
  - the control-character `clean_text` variants;
  - the ` | ` / newline table serialiser.
- **Outline builders**.
  - `Outline`: the nine heading slots, the key tuple, and grouping texts by
    key. Both outline extractors share these.
  - `OutlineExcel`: the Excel exporter's rows, level span and columns.
  - `MaterialTree`: the material parser's sorted tree insertion, with parent
    lookup, per-parent sequence numbers and `title1..title8`.
- **Flattening parser** (`Flatten`).
  - `flattern_word.py`'s state machine is the class `DocumentFlattener`. Its
    fields are the id per level, the per-parent counters, the title path, the
    content buffer and the last heading.
  - The statements it issues are recorded as a log of `INSERT` / `UPDATE`
    values.
- **Row builders** (`ElementRows`): the rows of `save_elements_to_excel` and
  `save_elements_to_db`.
- **Support** (`Strings`): Python `strip`, `find`, `in`, `split`/`join`,
  `str`/`int` of integers, and subsequences.

Some modelling notes:

- `cursor.lastrowid` is a counter that starts at `firstId` and hands out
  consecutive ids.
- Word is the source of paragraphs, page numbers and note offsets. All of
  them are parameters.
- A decoded `ai_content` value is a `Payload`: a list of items, or anything
  else.
- In `flattern_word.py:35-37`, the `\r\x07` and `\x07` replacements never
  find anything: the regex before them already removes `\x07`.
  `Sanitize.CleanFlattenIsStripOfRemove` proves that the whole `clean_text`
  equals a strip of the regex filter.

## Model

| member | source | states |
|---|---|---|
| Strings.StripLeft | word_parser_for_material.py:70 | what `lstrip` drops is whitespace, and the rest starts with a non-space |
| Strings.StripRight | word_parser_for_material.py:70 | what `rstrip` drops is whitespace, and the rest ends with a non-space |
| Strings.Strip | flattern_word.py:38 | the result is no longer than the input and has no whitespace at either end |
| Strings.StripIsSlice | flattern_word.py:38 | `strip` returns exactly the slice `s[i..j]` with only whitespace before `i` and after `j` and a non-space at both ends, which determines `i` and `j` |
| Strings.StripBetween | flattern_word.py:38 | what `rstrip` leaves of what `lstrip` left is a slice of the input, with only whitespace around it and a non-space at both ends |
| Strings.StripOfTrimmed | flattern_word.py:108 | a text with no whitespace at either end is left unchanged by `strip` |
| Strings.StripIdempotent | flattern_word.py:38 | stripping twice is stripping once |
| Strings.StripMembers | flattern_word.py:38 | every character `strip` keeps comes from the input |
| Strings.FilterIsSubsequence | extractWordElement_web.py:42 | a character filter keeps a subsequence of its input |
| Strings.FilterIdempotent | extractWordElement_web.py:42 | filtering twice is filtering once |
| Strings.ReplaceChar | extractWordElement_web.py:132 | `replace('\r', '\n')` maps each character on its own and keeps the length |
| Strings.RemoveChar | extractWordElement_web.py:132 | after `replace('\x07', '')` no `\x07` is left, every other character occurs exactly as often as in the input, and the result is a subsequence of the input, so the order is kept |
| Strings.RemovePair | flattern_word.py:37 | removing the pair `\r\x07` never lengthens the text, and every character it keeps was in the text |
| Strings.RemovePairNoMatch | flattern_word.py:37 | a text in which `\r\x07` occurs nowhere is returned unchanged |
| Strings.RemovePairAtFirst | flattern_word.py:37 | at the first occurrence of `\r\x07`, the text before it is kept, the pair is cut, and the search resumes right after it |
| Strings.RemovePairAbsent | flattern_word.py:37 | when the second character of the pair is absent, the text is unchanged |
| Strings.Join | word_parser_for_material.py:141 | joining nothing gives the empty text, and joining one part gives that part |
| Strings.Take | extractWordElement_web.py:261 | `s[:n]` is the prefix of length `min(n, len(s))` |
| Strings.SplitJoin | word_extractor_worker.py:113 | joining parts with a separator that none of them contains, then splitting at it, gives the parts back |
| Strings.FindFrom | advice_generator_worker.py:235 | the search returns the first occurrence at or after the start, or `None` when there is none |
| Strings.Find | advice_generator_worker.py:235 | `find` is found exactly when the fragment occurs, and it is the first occurrence |
| Strings.ContainsText | advice_generator_worker.py:234 | the computed `in` test holds exactly when the fragment occurs |
| Strings.NatToString | extractWordElement_web.py:261 | `str(n)` is a non-empty string of digits with no leading zero |
| Strings.IntToString | word_extractor_worker.py:171 | `str(i)` is never empty |
| Strings.ParseIntOfIntToString | extractWordElement_web.py:269 | `int(str(i)) == i` for every integer |
| Strings.Reverse | advice_generator_worker.py:28 | `reversed` puts element `k` at position `len - 1 - k` |
| Sanitize.XmlOnly | extractWordElement_web.py:39-43 | the web `clean_text_for_db` keeps only XML `Char` characters and never lengthens the text |
| Sanitize.XmlOnlyKeepsOrder | word_extractor_worker.py:72 | the kept characters are a subsequence of the input; a clean text passes unchanged; the filter is idempotent |
| Sanitize.XmlOnlyConcat | extractWordElement_web.py:42 | filtering a concatenation filters each part |
| Sanitize.CleanCapped | word_extractor_worker.py:68-76 | the result holds XML characters only and is at most 32767 characters plus the suffix |
| Sanitize.CleanCappedCases | extractWordElement.py:24-26 | a filtered text up to 32767 characters is returned as is; a longer one becomes its first 32767 characters plus `... (truncated)` |
| Sanitize.CleanCappedIdempotent | word_extractor_worker.py:73-76 | cleaning an already cleaned text changes nothing |
| Sanitize.RemoveControlChars | word_parser_for_material.py:13-16 | no listed control character survives, and the text never grows |
| Sanitize.RemoveControlCharsExact | parseWord2Excel_V4.py:15-19 | only the listed controls are removed: the rest stays in order, and a text without them is unchanged |
| Sanitize.CleanFlatten | flattern_word.py:28-38 | empty input gives `""`; the result has no listed control character, no `\x07`, and no whitespace at either end |
| Sanitize.CleanFlattenIsStripOfRemove | flattern_word.py:35-38 | `clean_text` equals the regex filter followed by `strip`: the bell replacements change nothing |
| Sanitize.Clean | word_extractor_worker.py:111 | the cell cleaner of each extractor yields XML characters only |
| Sanitize.CleanCells | extractWordElement.py:48 | a row's cells are cleaned one by one, in order |
| Sanitize.RowText | word_extractor_worker.py:112 | a serialised row holds XML characters only |
| Sanitize.RowTexts | extractWordElement_web.py:58-60 | one serialised text per table row, in order |
| Sanitize.FormatTable | word_extractor_worker.py:104-113 | an empty table gives `""`; any table gives XML characters only |
| Sanitize.CleanAddsNoLineFeed | extractWordElement.py:21-26 | cleaning never introduces a line feed |
| Sanitize.RowTextNoLineFeed | extractWordElement.py:44-48 | a row whose cells hold no newline gives a row text without a newline |
| Sanitize.FormatTableRoundTrip | extractWordElement.py:44-50 | splitting a non-empty serialised table at newlines gives back its row texts, when no cell holds a newline |
| Lcs.LcsLength | advice_generator_worker.py:15-19 | the LCS length is at most the length of either string |
| Lcs.LcsLengthDropLast | advice_generator_worker.py:19 | dropping the last character of either string lowers the LCS length by at most one |
| Lcs.LcsLengthSymmetric | advice_generator_worker.py:15-19 | the LCS length does not depend on the order of the strings |
| Lcs.LcsLengthOfSelf | genShenJiaoAdvice.py:12-16 | a string's LCS with itself is the whole string |
| Lcs.LcsLengthIsLongest | advice_generator_worker.py:15-20 | every common subsequence is at most as long as `dp[n][m]` |
| Lcs.FillTable | advice_generator_worker.py:15-19 | after the nested loops, every cell `dp[i][j]` is the LCS length of the prefixes `s1[:i]` and `s2[:j]` |
| Lcs.FillRow | genShenJiaoAdvice.py:14-16 | the inner loop fills row `i` from the row above and touches no other row |
| Lcs.Backtrack | advice_generator_worker.py:22-28 | the backtrack collects `dp[n][m]` characters whose reversal is a subsequence of both strings |
| Lcs.BacktrackStep | genShenJiaoAdvice.py:22-24 | each turn moves up, left or diagonally, and keeps `len(chars) + dp[i][j]` constant |
| Lcs.CalculateLcsAndReconstruct | advice_generator_worker.py:11-28 | the length is the LCS length, the string has that length and is a subsequence of both inputs, and an empty input gives `("", 0)` |
| Lcs.Similarity | advice_generator_worker.py:30-38 | the score is a fraction in [0, 1] |
| Lcs.SimilarityCases | genShenJiaoAdvice.py:31-34 | two empty strings score 1, exactly one empty string scores 0, and two strings sharing a common subsequence score `2L/(n+m)` |
| Lcs.SimilaritySymmetric | advice_generator_worker.py:36-37 | the score does not depend on argument order |
| Lcs.SimilarityOfIdentical | genShenJiaoAdvice.py:32-34 | a string scores exactly 1 against itself |
| Lcs.ThresholdAsIntegers | advice_generator_worker.py:188 | for strings not both empty, `similarity >= 0.75` holds exactly when `8L >= 3(n+m)` |
| Lcs.AlignmentDetails | genShenJiaoAdvice.py:27-35 | returns a common subsequence of LCS length, together with the score of the pair |
| Advice.Kept | advice_generator_worker.py:118-121 | a decoded list keeps at most its own items, and only objects holding `材料id` |
| Advice.CollectSuggestions | advice_generator_worker.py:114-137 | the collection loop yields exactly the suggestions of all chunks, chunk by chunk |
| Advice.KeepSuggestions | genShenJiaoAdvice.py:96-99 | the inner loop keeps exactly the list's objects that hold `材料id` |
| Advice.KeptMembers | genShenJiaoAdvice.py:98 | an object is kept if and only if it holds `材料id` and is in the list |
| Advice.CollectedConcat | genShenJiaoAdvice.py:77-99 | the collected suggestions of consecutive chunk runs concatenate in chunk order |
| Advice.CollectedMembers | advice_generator_worker.py:116-121 | a suggestion is collected if and only if it holds `材料id` and sits in some chunk's list |
| Advice.Relevant | advice_generator_worker.py:198 | exactly the suggestions whose `材料id` equals the matched id, in their original order |
| Advice.BestMatchOf | advice_generator_worker.py:175-186 | the match, if any, is one of the targets |
| Advice.BestMatch | advice_generator_worker.py:175-191 | the loop's best index and its id and text agree with `BestMatchOf`; no match leaves `None` and `""` |
| Advice.ThresholdIsPositive | advice_generator_worker.py:183 | a score meeting 0.75 beats the initial score 0.0 |
| Advice.BestMatchCharacterised | genShenJiaoAdvice.py:125-131 | the match reaches 0.75, no target scores higher, and every earlier target scores lower; there is no match exactly when no target reaches 0.75 |
| Advice.BestMatchUnique | advice_generator_worker.py:183-186 | the index with that description is the loop's result, so the earliest of equal best scores wins |
| Advice.SplitAtFirst | advice_generator_worker.py:234-240 | for a non-empty fragment that occurs, `before + marked + after` is the text, `marked` is the fragment, and `before` holds no earlier occurrence; otherwise no split |
| Advice.Render | advice_generator_worker.py:234-301 | the marked layout is used exactly when the fragment is non-empty and occurs; otherwise the whole paragraph goes before the variant's opener and the replacement |
| Advice.RenderKeepsTarget | genShenJiaoAdvice.py:169-212 | either way, the matched paragraph appears intact, in order |
| Advice.InlineTextOfMarked | genShenJiaoAdvice.py:177-201 | the marked layout writes the paragraph up to the fragment's end, then the replacement and the status, then the rest |
| Advice.Translate | advice_generator_worker.py:210 | a known status maps to its Chinese label, and an unknown one maps to itself |
| Advice.TranslateIdempotent | genShenJiaoAdvice.py:51-56 | translating a translated status changes nothing |
| Advice.AdviceFor | advice_generator_worker.py:166-306 | the body of the source loop writes nothing when no target reaches 0.75 or the matched id is falsy; otherwise it writes one block per suggestion whose `材料id` equals that id |
| Advice.LayOut | genShenJiaoAdvice.py:141-237 | one block per relevant suggestion, in order; each renders the target with that suggestion's original, modified text, translated status (default `N/A`) and reason |
| Advice.GenerateAdvice | advice_generator_worker.py:97-310 | the worker stops with no report and no notice when there are no chunk rows (the review script has no such exit); otherwise the report is the concatenation of every source paragraph's blocks, and the worker adds its notice exactly when no block was written |
| Advice.NoSuggestionsNoReport | advice_generator_worker.py:97-99 | without chunk rows no source paragraph contributes a block, so the early exit loses no report |
| Advice.ReportConcat | advice_generator_worker.py:166 | paragraphs are handled independently and targets are never consumed, so the report of a concatenation is the concatenation of the reports |
| Advice.UnmatchedContributesNothing | advice_generator_worker.py:193-195 | a source paragraph with no target at 0.75 writes nothing |
| Advice.MatchedContributions | advice_generator_worker.py:198-208 | a matched paragraph whose id is truthy writes one block per relevant suggestion, each with its page, the full target text and a matching `材料id` |
| NoteSplice.UsableSpans | word_extractor_worker.py:122-141 | references are made relative to the owner; every kept span has `start < end <= len(text)`, and there are no more spans than references |
| NoteSplice.CollectSpans | extractWordElement.py:60-86 | the collection loop yields exactly those spans |
| NoteSplice.SortByStart | word_extractor_worker.py:152 | sorting keeps the number of spans |
| NoteSplice.SortByStartCorrect | extractWordElement_web.py:108 | the sorted spans are ordered by start and are a permutation of the input |
| NoteSplice.InsertByStartStable | extractWordElement_web.py:108 | inserting a span puts it after every span of the same start already there |
| NoteSplice.SortByStartStable | word_extractor_worker.py:152 | the sort is stable: for every start value, the spans with that start come out in their input order |
| NoteSplice.SortKeepsBounds | extractWordElement.py:93 | sorting keeps every span inside the text |
| NoteSplice.PageNoteCounts.constructor | word_extractor_worker.py:423 | the counter dictionary starts empty |
| NoteSplice.PageNoteCounts.Increment | word_extractor_worker.py:165 | `counts[p] = counts.get(p, 0) + 1` changes only page `p` and returns its new value |
| NoteSplice.PySlice | word_extractor_worker.py:160 | Python slicing agrees with the sequence slice for in-range bounds |
| NoteSplice.StepCounts | word_extractor_worker.py:159-172 | a span starting before the cursor is skipped; a placed mark adds a gap and a mark; a known page's count rises by exactly one and is shown; an unknown page shows `?` and changes no count |
| NoteSplice.WalkSpans | extractWordElement.py:103-121 | the loop's pieces, cursor and counters are those of `WalkAll`, the walk as a function of the spans |
| NoteSplice.StoppedStays | extractWordElement.py:105 | after `break`, the remaining spans change nothing |
| NoteSplice.WalkRestores | extractWordElement_web.py:111-127 | with the marks put back, the pieces are the text up to the cursor, and the cursor stays within the text |
| NoteSplice.SpliceRestoresText | word_extractor_worker.py:158-187 | the pieces with marks undone, followed by the tail, are exactly the original text |
| NoteSplice.CountsTrackMarks | extractWordElement_web.py:119-123 | each page's final count is its initial count plus the marks placed for that page |
| NoteSplice.WalkNeverStops | extractWordElement.py:105 | on spans inside the text, the `break` is never taken |
| NoteSplice.TidyWeb | extractWordElement_web.py:132 | the web result holds no `\r` and no `\x07` |
| NoteSplice.Reconstruct | extractWordElement.py:53-126 | the returned text and the counters are those of `SpliceOf`, for every flavour; its properties are the lemmas below |
| NoteSplice.ReconstructForDb | word_extractor_worker.py:116-189 | the worker's splice is `SpliceOf` for the worker flavour, and its related-notes list is always empty |
| NoteSplice.ExcelSpliceShape | extractWordElement.py:103-126 | the Excel result is the rendered pieces plus the tail; undoing the marks gives the text; counts grow by the marks placed |
| NoteSplice.NoNotesLeavesCounts | word_extractor_worker.py:149-150 | without usable references the text is only tidied and the counts are unchanged |
| NoteSplice.NoUsableSpans | extractWordElement.py:70-77 | references that fail the range checks give no spans |
| NoteSplice.WebResultTidy | extractWordElement_web.py:103-132 | every return path of the web splice holds no `\r` and no `\x07` |
| ElementRows.ExcelRowFor | extractWordElement.py:363-384 | the loop body builds the row that the row function describes |
| ElementRows.ExcelRows | extractWordElement.py:358-385 | one row per element, in order, with `content_id` running from 1 |
| ElementRows.ExcelRowFacts | extractWordElement.py:376-384 | each row has the element's type (`unknown` if none) and a cleaned, capped text; a level or page is blank exactly when it is missing, `None` or blank |
| ElementRows.ExcelTextChoice | extractWordElement.py:368-374 | a table shows its serialised table, and plain text shows its text; an empty cell means the info was empty or absent |
| ElementRows.DbRowFor | extractWordElement_web.py:261-275 | the loop body builds the row that the row function describes |
| ElementRows.DbRows | extractWordElement_web.py:238-276 | one row per element, in order; no elements give no rows |
| ElementRows.DbRowFacts | extractWordElement_web.py:260-275 | row `i` has `content_id` `str(i+1)` and sequence `i+1`, a type cut to at most 20 characters, and XML characters only |
| ElementRows.DbTableTextIsFormatted | extractWordElement_web.py:263-267 | the second cleaning of a serialised table changes nothing |
| ElementRows.ToIntCases | extractWordElement_web.py:268-274 | an integer, or the decimal text of one, converts to that integer; a missing or `None` value gives `None` |
| Outline.ParagraphText | word_parser_for_material.py:67-70 | a paragraph's text has no listed control character and no whitespace at either end |
| Outline.NoHeadings | word_parser_for_material.py:51 | all nine slots start empty |
| Outline.SetHeading | word_parser_for_material.py:76-81 | a heading at level L sets slot L, clears the deeper slots and keeps the slots above |
| Outline.UpdateHeadings | parseWord2Excel_V4.py:106-109 | the slot-update loop computes `SetHeading` |
| Outline.KeyOf | word_parser_for_material.py:84-90 | the key is the slots from the top level on, at most N of them and never past level 9 |
| Outline.BuildKey | parseWord2Excel_V4.py:111-117 | the key loop computes `KeyOf` |
| Outline.StepFiles | word_parser_for_material.py:72-99 | a paragraph is skipped, or filed once under a key of the right length with its own text |
| Outline.WalkEntriesFiled | word_parser_for_material.py:65-99 | every filed entry has a non-empty text and a full-length key; the material parser files no all-empty key |
| Outline.WalkTexts | parseWord2Excel_V4.py:101-121 | the exporter files every non-empty paragraph, headings included, in document order; the material parser files a subsequence of them |
| Outline.HeadingKey | word_parser_for_material.py:75-90 | a heading inside the key window is filed under a key holding its own text at its level, the earlier headings above it and nothing below |
| Outline.HeadingKeyShape | parseWord2Excel_V4.py:106-117 | the key after a heading update holds the heading at its level, the older slots above and empty slots below |
| Outline.AddTextKeys | word_parser_for_material.py:97-99 | `setdefault(...).append` adds the key once, appends the text under it and leaves other keys alone |
| Outline.GroupEntriesCollects | parseWord2Excel_V4.py:119-121 | the dictionary holds each filed key once, in first-filing order, with exactly the texts filed under it, in order |
| Outline.AggregateGroups | word_parser_for_material.py:65-99 | the aggregation collects the walk's entries; every key has full length and some text, and the material parser has no all-empty key |
| Outline.Items | word_parser_for_material.py:106 | `items()` lists the keys in insertion order |
| Outline.AddToGroups | word_parser_for_material.py:97-99 | the dictionary update computes `AddText` |
| Outline.FileParagraph | parseWord2Excel_V4.py:88-121 | one loop turn updates the slots and the dictionary as the walk step prescribes |
| Outline.StepShape | parseWord2Excel_V4.py:101-121 | an empty paragraph changes nothing; otherwise the heading is recorded, then the text is filed, unless it is skipped as untitled |
| Outline.AggregateContent | word_parser_for_material.py:65-99 | the paragraph loop's dictionary equals the aggregation of the document |
| Outline.LevelRange | word_parser_for_material.py:54-61 | `None` exactly when the document has no heading at level 1-9; otherwise the smallest and largest heading levels that occur |
| OutlineExcel.RowsOf | parseWord2Excel_V4.py:123-140 | at most one row per group |
| OutlineExcel.GroupsGiveRows | parseWord2Excel_V4.py:123-140 | every group whose key is not all empty gives a row with its key and joined content, whatever the content's length |
| OutlineExcel.RowsOfLast | parseWord2Excel_V4.py:124-126 | the last group adds a row exactly when its key is not all empty |
| OutlineExcel.RowsComeFromGroups | parseWord2Excel_V4.py:124-126 | every row comes from a group: a non-empty key and `"\n".join(...).strip()` of its texts |
| OutlineExcel.GroupRows | parseWord2Excel_V4.py:123-140 | the row loop computes `RowsOf` |
| OutlineExcel.Span | parseWord2Excel_V4.py:77-85 | `None` exactly for a file without level 1-9 headings; otherwise a span between 1 and 9 |
| OutlineExcel.ExtractDocument | parseWord2Excel_V4.py:72-141 | the file-loop body yields the document's rows and its level span; a document without level 1-9 headings gives no rows |
| OutlineExcel.DocumentWithHeadings | parseWord2Excel_V4.py:84-86 | with headings, the span is `max - min + 1` and the rows come from the aggregation at the top level |
| OutlineExcel.MaxSpan | parseWord2Excel_V4.py:86 | the overall span is at most 9 |
| OutlineExcel.MaxSpanGrows | parseWord2Excel_V4.py:86 | the overall span never decreases from file to file |
| OutlineExcel.MaxSpanBounds | parseWord2Excel_V4.py:86 | the overall span is at least the span of every file |
| OutlineExcel.MaxSpanReached | parseWord2Excel_V4.py:86 | a nonzero overall span is the span of some file, so it is the maximum and not just an upper bound |
| OutlineExcel.MaxSpanZero | parseWord2Excel_V4.py:62-86 | the overall span is 0 exactly when no file has headings |
| OutlineExcel.ExtractWordToExcel | parseWord2Excel_V4.py:61-158 | the file loop gathers every file's rows and the overall span; a sheet is written exactly when some row exists |
| OutlineExcel.BuildColumns | parseWord2Excel_V4.py:162-165 | the columns are the document name, `第1..N层标题`, then `内容` |
| OutlineExcel.Cells | parseWord2Excel_V4.py:167-168 | a row's cells are the name, its headings padded with `""`, then the content |
| OutlineExcel.LevelColumnsDistinct | parseWord2Excel_V4.py:163-164 | the heading column names are pairwise distinct |
| MaterialTree.LexStrictOrder | word_parser_for_material.py:106 | lexicographic comparison is a strict total order when its element order is |
| MaterialTree.StrOrder | word_parser_for_material.py:106 | Python string comparison is a strict total order |
| MaterialTree.KeyOrder | word_parser_for_material.py:106 | tuple comparison is a strict total order |
| MaterialTree.PaddedKeySortsFirst | word_parser_for_material.py:105 | a parent's tuple, padded with empty strings, sorts before every distinct tuple that extends it |
| MaterialTree.SortItems | word_parser_for_material.py:106 | sorting keeps the number of groups |
| MaterialTree.SortItemsCorrect | word_parser_for_material.py:106 | the sorted groups are ordered by tuple, are a permutation of the groups and have the same keys |
| MaterialTree.SortItemsStrict | word_parser_for_material.py:106 | with distinct tuples, the sorted tuples strictly increase |
| MaterialTree.ParentItemFirst | word_parser_for_material.py:105-106 | after sorting, a parent's group comes before its children, as the comment at line 105 claims |
| MaterialTree.TitleLevel | word_parser_for_material.py:115-120 | the level is one past the last non-empty heading; it is 0 exactly for an all-empty tuple |
| MaterialTree.LevelAndTitle | word_parser_for_material.py:115-123 | the loop finds that level and the heading at it |
| MaterialTree.TitleFields | word_parser_for_material.py:135-138 | there are eight title fields |
| MaterialTree.TitleFieldsFacts | word_parser_for_material.py:135-138 | field `i` is set exactly when `i < level`, and then holds heading `i` cut to 255 characters |
| MaterialTree.BuildTitleFields | word_parser_for_material.py:135-138 | the title-field loop computes `TitleFields` |
| MaterialTree.InsertOne | word_parser_for_material.py:113-163 | one turn of the insert loop updates the maps, the rows and the id counter as `InsertNode` prescribes |
| MaterialTree.InsertNodeOf | word_parser_for_material.py:126-163 | a titled group inserts one row with the parent looked up under its tuple up to `level - 1`, the next sequence, the cut title, the title fields and the joined content |
| MaterialTree.InsertNodes | word_parser_for_material.py:108-167 | the loop's rows are those of `InsertAll`, and `rows_inserted` is their number |
| MaterialTree.InsertAllIds | word_parser_for_material.py:158-163 | ids are handed out one by one; every parent id is an earlier row's; one row per titled group |
| MaterialTree.InsertAllSequences | word_parser_for_material.py:129-132 | each parent's counter is its number of children, and each row's sequence is its position among its siblings, counting from 1 |
| MaterialTree.ParentComesFirst | word_parser_for_material.py:105-106 | in the sorted groups, the group a parent is looked up under comes earlier |
| MaterialTree.ParentsEarlier | word_parser_for_material.py:105-106 | this holds for every group at once |
| MaterialTree.TreeParents | word_parser_for_material.py:126-127 | each row's parent is the id of the group whose path is its parent tuple, and it is `None` exactly when no such group exists |
| MaterialTree.ParsedWithHeadings | word_parser_for_material.py:54-113 | with headings, the rows come from the sorted aggregation at the top level |
| MaterialTree.SortedGroupsWellSorted | word_parser_for_material.py:93-106 | the sorted groups are titled, of one length and strictly increasing |
| MaterialTree.ParsedTree | word_parser_for_material.py:104-163 | one row per group, with ids from `firstId`; each parent is an earlier row, or `None` exactly when the parent path has no group |
| MaterialTree.ParseWordToDb | word_parser_for_material.py:50-167 | the parse yields `ParsedRows` and counts them; a document without headings inserts nothing |
| Flatten.FlatText | flattern_word.py:117-120 | a paragraph's text has no listed control character, no `\x07`, and no whitespace at either end |
| Flatten.DropDeeper | flattern_word.py:141-143 | exactly the keys up to `level` remain, with their values |
| Flatten.TitlesOf | flattern_word.py:146-148 | `title1..title8` are the path's titles at levels 1-8, or `None` |
| Flatten.PieceOf | flattern_word.py:120-128 | a paragraph is skipped exactly when its text is empty; a heading has a level in 1-9 |
| Flatten.LoopStepSkip | flattern_word.py:122-123 | an empty paragraph changes nothing |
| Flatten.LoopStepHeading | flattern_word.py:128-174 | a heading flushes, then records the heading |
| Flatten.LoopStepBody | flattern_word.py:177-178 | body text is appended to the buffer and nothing else changes |
| Flatten.RunIsRunPieces | flattern_word.py:115-123 | the paragraph loop equals the loop over non-empty pieces |
| Flatten.LatestCharacterised | flattern_word.py:167-174 | the id recorded at a level is the last row at that level with only deeper rows after it |
| Flatten.InitTree | flattern_word.py:98-102 | the initial state satisfies the tree invariant |
| Flatten.FlushKeepsRows | flattern_word.py:104-113 | a flush changes only the log and the buffer, and inserts no row |
| Flatten.IdMapStep | flattern_word.py:166-174 | after an insert, the id map holds, for each level, the id that the rows determine |
| Flatten.PathStep | flattern_word.py:139-143 | after a heading, the title path holds, for each level, the title that the rows determine |
| Flatten.CounterStep | flattern_word.py:136-137 | each parent's counter is its number of child rows |
| Flatten.HeadingTree | flattern_word.py:128-174 | a heading keeps the tree invariant |
| Flatten.RecordShape | flattern_word.py:133-174 | a heading inserts one row: the next id, the parent recorded one level up, that parent's counter, and the titles of the new path |
| Flatten.RecordTree | flattern_word.py:133-174 | recording a heading keeps the tree invariant |
| Flatten.RunTree | flattern_word.py:115-178 | the whole loop keeps the tree invariant: each row's parent, sequence (from 0) and titles are fixed by the rows before it |
| Flatten.ContentsAppend | flattern_word.py:104-113 | a heading opens a new content (the first heading takes the leading body text); body text joins the last heading's content |
| Flatten.ContentsPerHeading | flattern_word.py:128-178 | there is one content per heading |
| Flatten.JoinTrimmed | flattern_word.py:108 | joining trimmed texts gives a trimmed text, so the flush's `strip` changes nothing |
| Flatten.FlushContents | flattern_word.py:181 | the final flush writes the last heading's content and inserts nothing |
| Flatten.FlushAttributed | flattern_word.py:104-113 | a flush after a heading writes the buffered content, if any, and empties the buffer |
| Flatten.HeadingShape | flattern_word.py:166-168 | a heading advances the id and becomes the last heading, and issues no update of its own |
| Flatten.FirstHeadingContents | flattern_word.py:107 | before the first heading nothing is flushed, so the leading body text becomes the first heading's content |
| Flatten.LaterHeadingContents | flattern_word.py:130 | a later heading first writes the previous heading's content |
| Flatten.BodyContents | flattern_word.py:177-178 | body text keeps the content invariant |
| Flatten.RunContents | flattern_word.py:115-178 | the whole loop keeps the content invariant |
| Flatten.RunRowHeads | flattern_word.py:128-168 | the inserted rows are the headings, in order, with their levels and texts |
| Flatten.DocumentStatements | flattern_word.py:98-181 | one `INSERT` per heading, with ids from `firstId` and each row placed as the tree invariant says; one `UPDATE` per heading whose body texts are not empty, carrying them joined by newlines (the body before the first heading belongs to it); nothing at all without a heading |
| Flatten.PiecesRows | flattern_word.py:115-178 | a run's rows are its headings, placed as the tree invariant says |
| Flatten.PiecesUpdates | flattern_word.py:104-181 | a run's updates write each heading's content; without a heading nothing is issued |
| Flatten.PiecesAreCut | flattern_word.py:117-128 | every piece is trimmed, and every heading has a level in 1-9 |
| Flatten.DropDeeperKeys | flattern_word.py:141-143 | the key-deleting loop computes `DropDeeper` |
| Flatten.BuildTitles | flattern_word.py:146-148 | the title loop computes `TitlesOf` |
| Flatten.DocumentFlattener.constructor | flattern_word.py:98-102 | the per-document state starts as the initial state |
| Flatten.DocumentFlattener.FlushContentBuffer | flattern_word.py:104-113 | `flush_content_buffer` changes the state as `Flush` prescribes |
| Flatten.DocumentFlattener.AddParagraph | flattern_word.py:115-178 | one loop turn changes the state as `LoopStep` prescribes |
| Flatten.DocumentFlattener.SetTitle | flattern_word.py:139-143 | sets the title at `level`, drops deeper titles and changes nothing else |
| Flatten.DocumentFlattener.ForgetDeeperIds | flattern_word.py:172-174 | drops the ids recorded deeper than `level` and changes nothing else |
| Flatten.DocumentFlattener.RecordHeading | flattern_word.py:133-174 | recording a heading changes the state as `Record` prescribes |
| Flatten.DocumentFlattener.InsertHeading | flattern_word.py:158-168 | appends the `INSERT` and records the new id at its level and as the last heading |
| Flatten.ExtractDocument | flattern_word.py:97-181 | the statements of one document are the loop followed by the final flush |

## Left out

- Word automation is not modelled:
  - opening and closing documents;
  - `Range.Information` page lookup and note collections;
  - `InsertAfter`, fonts, colours, shading and the horizontal rule;
  - `SaveAs`.

  Paragraph texts, list numbers, outline levels, note offsets and page numbers are inputs.
- The report's Word formatting (colours, strike-through, the separator line) is not modelled; only the text of each block is.
- MySQL is not modelled: connections, `execute`, `commit` and rollback, `database_operations*.py` and `db_config.py`.
  - `cursor.lastrowid` is a counter of fresh ids.
  - The `DELETE` before the inserts of `save_elements_to_db` is not modelled.
- `material_id`, `created_at`/`updated_at`, and the `NULL` `summary`/`extra_data` columns are not part of the row values.
- The Flask routes of `app.py`, the Tk windows, threading, progress and status callbacks, logging, `print` and pandas reading are not modelled; all are I/O.
- In `parseWord2Excel_V4.py`, `DataFrame`/`to_excel` is not modelled. The sheet is the row list with `BuildColumns` and `Cells`.
- `json.loads` of `ai_content` is not modelled. A chunk is the already decoded value: a list of items, or anything else.
- The similarity score is an exact fraction, not an IEEE double. A double rounding at exactly 0.75 or in a near-tie is not modelled.
- Exception handlers (`try`/`except` around notes, chunks, files and integer parsing) are not modelled as control flow, with one exception: a failed `int()` gives `None`, as in the source.
- Strings.ParseInt: accepts only ASCII digits. Python's `int()` also accepts `_` between digits (`"1_000"`) and non-ASCII decimal digits; such text gives `None` here. It reaches `ElementRows.ToInt`, so a level or page written that way would be stored as `NULL` here, but not by the source.
- Lone surrogate characters cannot occur in a Dafny string. The XML filter's exclusion of `\uD800-\uDFFF` is therefore not observable here.
- `str()` of non-string values is not modelled: text fields are strings, and suggestion fields are a small scalar type with Python's truthiness and `==`.
- `parseWord2Excel_V4.py:127-140` has two branches that build the same row. They are modelled as one. The message at line 157 mentions a 200-character filter that the code does not apply.
- Flatten.DocumentStatements and Flatten.PiecesUpdates require `firstId >= 1`. Database ids start at 1, and an id of 0 would be falsy and would block the flush.
- Several files of the repository are not part of this model: the image croppers, the PDF merger, the file renamer, the text replacer and the file-listing scripts.
