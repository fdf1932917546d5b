/** The indexer's text segmenter: the page map built from a document's pages,
    the page lookup for an offset, and `split_text`, which cuts the joined page
    text into overlapping sections of about a thousand characters. */
module Segmenter {
  import opened Wrappers
  import opened TextUtil

  const MaxSectionLength := 1000
  const SentenceSearchLimit := 100
  const SectionOverlap := 100

  /** Longest section the segmenter can produce: `MAX_SECTION_LENGTH + 2 * SENTENCE_SEARCH_LIMIT`. */
  const MaxSpan := MaxSectionLength + 2 * SentenceSearchLimit

  predicate IsSentenceEnding(c: char) {
    c == '.' || c == '!' || c == '?'
  }

  predicate IsWordBreak(c: char) {
    c in ",;: ()[]{}\t\n"
  }

  function Min(a: int, b: int): int { if a <= b then a else b }

  // ---------------------------------------------------------------------------
  // Page map

  /** One entry of the page map: page number, offset of the page's first
      character in the joined text, and the page's text. */
  datatype Page = Page(num: nat, offset: nat, text: string)

  /** `"".join(p[2] for p in page_map)` */
  function AllText(pageMap: seq<Page>): string {
    if pageMap == [] then "" else AllText(pageMap[..|pageMap| - 1]) + pageMap[|pageMap| - 1].text
  }

  lemma {:induction false} AllTextAppend(a: seq<Page>, b: seq<Page>)
    ensures AllText(a + b) == AllText(a) + AllText(b)
    decreases |b|
  {
    if b != [] {
      var b' := b[..|b| - 1];
      assert (a + b)[..|a + b| - 1] == a + b';
      AllTextAppend(a, b');
    } else {
      assert a + b == a;
    }
  }

  /** Every page's offset is the length of the text of the pages before it. */
  ghost predicate OffsetsArePrefixLengths(pageMap: seq<Page>) {
    forall k | 0 <= k < |pageMap| :: pageMap[k].offset == |AllText(pageMap[..k])|
  }

  ghost predicate OffsetsSorted(pageMap: seq<Page>) {
    forall i, j | 0 <= i <= j < |pageMap| :: pageMap[i].offset <= pageMap[j].offset
  }

  /** The offset accumulation of `get_document_text`: page `k` gets the
      offset equal to the total length of pages `0..k-1`. */
  method GetDocumentText(pageTexts: seq<string>) returns (pageMap: seq<Page>)
    ensures |pageMap| == |pageTexts|
    ensures forall k | 0 <= k < |pageMap| :: pageMap[k].num == k && pageMap[k].text == pageTexts[k]
    ensures OffsetsArePrefixLengths(pageMap)
  {
    var offset := 0;
    pageMap := [];
    for pageNum := 0 to |pageTexts|
      invariant |pageMap| == pageNum
      invariant forall k | 0 <= k < pageNum :: pageMap[k].num == k && pageMap[k].text == pageTexts[k]
      invariant OffsetsArePrefixLengths(pageMap)
      invariant offset == |AllText(pageMap)|
    {
      var pageText := pageTexts[pageNum];
      var old_ := pageMap;
      pageMap := pageMap + [Page(pageNum, offset, pageText)];
      assert pageMap[..pageNum] == old_;
      assert forall k | 0 <= k < pageNum :: pageMap[..k] == old_[..k];
      offset := offset + |pageText|;
    }
  }

  /** Offsets built as prefix lengths start at 0 and never decrease. */
  lemma PrefixLengthsSorted(pageMap: seq<Page>)
    requires OffsetsArePrefixLengths(pageMap)
    ensures pageMap != [] ==> pageMap[0].offset == 0
    ensures OffsetsSorted(pageMap)
  {
    forall i, j | 0 <= i <= j < |pageMap| ensures pageMap[i].offset <= pageMap[j].offset {
      assert pageMap[..j] == pageMap[..i] + pageMap[i..j];
      AllTextAppend(pageMap[..i], pageMap[i..j]);
    }
  }

  lemma JoinAroundPage(pre: seq<Page>, page: Page, post: seq<Page>)
    ensures AllText(pre + [page] + post) == AllText(pre) + page.text + AllText(post)
  {
    AllTextAppend(pre + [page], post);
    AllTextAppend(pre, [page]);
    assert [page][..0] == [];
  }

  lemma MiddleSlice(a: string, t: string, b: string)
    ensures (a + t + b)[|a|..|a| + |t|] == t
  {
  }

  /** With prefix-length offsets, page `k`'s text sits at its offset in the
      joined text. */
  lemma PageTextAtOffset(pageMap: seq<Page>, k: nat)
    requires OffsetsArePrefixLengths(pageMap)
    requires k < |pageMap|
    ensures pageMap[k].offset + |pageMap[k].text| <= |AllText(pageMap)|
    ensures AllText(pageMap)[pageMap[k].offset..pageMap[k].offset + |pageMap[k].text|] == pageMap[k].text
  {
    var pre, page, post := pageMap[..k], pageMap[k], pageMap[k + 1..];
    assert page.offset == |AllText(pre)|;
    assert pageMap == pre + [page] + post;
    JoinAroundPage(pre, page, post);
    MiddleSlice(AllText(pre), page.text, AllText(post));
  }

  // ---------------------------------------------------------------------------
  // find_page

  function FindPageFrom(pageMap: seq<Page>, offset: int, i: nat): (r: int)
    ensures -1 <= r < |pageMap|
    ensures i < |pageMap| ==> i <= r
    ensures i <= r < |pageMap| - 1 ==> pageMap[r].offset <= offset < pageMap[r + 1].offset
    ensures forall j | i <= j < r && j + 1 < |pageMap| :: !(pageMap[j].offset <= offset < pageMap[j + 1].offset)
    decreases |pageMap| - i
  {
    if i + 1 < |pageMap| then
      if pageMap[i].offset <= offset < pageMap[i + 1].offset then i
      else FindPageFrom(pageMap, offset, i + 1)
    else |pageMap| - 1
  }

  /** The inner `find_page` of `split_text`: the first page `i` whose offset
      range `[offset_i, offset_{i+1})` holds `offset`, else the last page. */
  function FindPage(pageMap: seq<Page>, offset: int): (i: int)
    ensures -1 <= i < |pageMap|
    ensures pageMap != [] ==> 0 <= i
    ensures 0 <= i < |pageMap| - 1 ==> pageMap[i].offset <= offset < pageMap[i + 1].offset
    ensures forall j | 0 <= j < i && j + 1 < |pageMap| :: !(pageMap[j].offset <= offset < pageMap[j + 1].offset)
  {
    FindPageFrom(pageMap, offset, 0)
  }

  lemma {:induction false} FindPageFromIsGreatest(pageMap: seq<Page>, offset: int, i: nat)
    requires OffsetsSorted(pageMap)
    requires i < |pageMap| && pageMap[i].offset <= offset
    ensures var r := FindPageFrom(pageMap, offset, i);
      i <= r < |pageMap| && pageMap[r].offset <= offset &&
      forall j | r < j < |pageMap| :: offset < pageMap[j].offset
    decreases |pageMap| - i
  {
    if i + 1 < |pageMap| && !(offset < pageMap[i + 1].offset) {
      FindPageFromIsGreatest(pageMap, offset, i + 1);
    }
  }

  /** With non-decreasing offsets starting at or below `offset`, `find_page`
      returns the greatest page whose offset does not exceed `offset` (the last
      page for offsets at or past the final offset). */
  lemma FindPageIsGreatest(pageMap: seq<Page>, offset: int)
    requires OffsetsSorted(pageMap)
    requires pageMap != [] && pageMap[0].offset <= offset
    ensures var r := FindPage(pageMap, offset);
      0 <= r < |pageMap| && pageMap[r].offset <= offset &&
      forall j | r < j < |pageMap| :: offset < pageMap[j].offset
  {
    FindPageFromIsGreatest(pageMap, offset, 0);
  }

  /** For the page map `get_document_text` builds, an offset inside page `k`'s
      text is looked up as page `k`. */
  lemma FindPageLocatesCharacter(pageMap: seq<Page>, k: nat, offset: int)
    requires OffsetsArePrefixLengths(pageMap)
    requires k < |pageMap|
    requires pageMap[k].offset <= offset < pageMap[k].offset + |pageMap[k].text|
    ensures FindPage(pageMap, offset) == k
  {
    PrefixLengthsSorted(pageMap);
    FindPageIsGreatest(pageMap, offset);
    var r := FindPage(pageMap, offset);
    if k + 1 < |pageMap| {
      assert pageMap[..k + 1] == pageMap[..k] + [pageMap[k]];
      AllTextAppend(pageMap[..k], [pageMap[k]]);
      assert AllText([pageMap[k]]) == pageMap[k].text by {
        assert [pageMap[k]][..0] == [];
      }
      assert pageMap[k + 1].offset == pageMap[k].offset + |pageMap[k].text|;
    }
  }

  // ---------------------------------------------------------------------------
  // The scans of split_text

  /** The forward scan of `split_text`: from `end`, advances while within the
      text and the search limit and not on a sentence ending, remembering the
      last word break seen. */
  function ScanForward(text: string, start: int, end: nat, lastWord: int): (r: (nat, int))
    requires end <= |text|
    ensures end <= r.0 <= |text|
    ensures end - start <= MaxSectionLength + SentenceSearchLimit ==> r.0 - start <= MaxSectionLength + SentenceSearchLimit
    ensures r.1 == lastWord || (end <= r.1 < r.0 && IsWordBreak(text[r.1]))
    ensures forall j | end <= j < r.0 :: !IsSentenceEnding(text[j])
    ensures r.0 == |text| || r.0 - start - MaxSectionLength >= SentenceSearchLimit || IsSentenceEnding(text[r.0])
    decreases |text| - end
  {
    if end < |text| && end - start - MaxSectionLength < SentenceSearchLimit && !IsSentenceEnding(text[end]) then
      ScanForward(text, start, end + 1, if IsWordBreak(text[end]) then end else lastWord)
    else
      (end, lastWord)
  }

  /** The backward scan of `split_text`: from `start`, moves left while above 0
      and above `end - MaxSpan` and not on a sentence ending, remembering the
      last word break seen. */
  function ScanBackward(text: string, start: nat, end: int, lastWord: int): (r: (nat, int))
    requires start < |text|
    ensures r.0 <= start
    ensures r.0 == start || r.0 >= end - MaxSpan
    ensures r.1 == lastWord || (r.0 < r.1 <= start && IsWordBreak(text[r.1]))
    ensures forall j | r.0 < j <= start :: !IsSentenceEnding(text[j])
    ensures r.0 == 0 || r.0 <= end - MaxSpan || IsSentenceEnding(text[r.0])
    decreases start
  {
    if start > 0 && start > end - MaxSpan && !IsSentenceEnding(text[start]) then
      ScanBackward(text, start - 1, end, if IsWordBreak(text[start]) then start else lastWord)
    else
      (start, lastWord)
  }

  /** Where the section that begins its search at `start` ends (exclusive):
      pushed forward to just after a sentence ending within the search limit,
      else back to just after the last word break, else the hard limit. */
  function SectionEnd(text: string, start: nat): (end: nat)
    requires start + SectionOverlap < |text|
    ensures start + SectionOverlap < end <= |text|
    ensures end <= start + MaxSectionLength + SentenceSearchLimit + 1
    ensures start + MaxSectionLength <= |text| ==> start + MaxSectionLength <= end
    ensures start + MaxSectionLength >= |text| ==> end == |text|
  {
    var nominal := start + MaxSectionLength;
    var cut :=
      if nominal > |text| then |text|
      else
        var scan := ScanForward(text, start, nominal, -1);
        if scan.0 < |text| && !IsSentenceEnding(text[scan.0]) && scan.1 > 0 then scan.1 else scan.0;
    if cut < |text| then cut + 1 else cut
  }

  /** Where the section actually begins: `start` pulled back to just after a
      sentence ending, or at least to a word break. */
  function SectionStart(text: string, start: nat, end: int): (s: nat)
    requires start < |text|
    ensures s <= start + 1
    ensures start > end - MaxSpan ==> s >= end - MaxSpan
  {
    var scan := ScanBackward(text, start, end, -1);
    var s := if !IsSentenceEnding(text[scan.0]) && scan.1 > 0 then scan.1 else scan.0;
    if s > 0 then s + 1 else s
  }

  /** A section as a half-open range `[start, end)` of the joined text. */
  datatype Span = Span(start: nat, end: nat)

  /** The section produced by the loop iteration that begins with `start`. */
  function CurrentSpan(text: string, start: nat): Span
    requires start + SectionOverlap < |text|
  {
    var end := SectionEnd(text, start);
    Span(SectionStart(text, start, end), end)
  }

  /** Bounds of one iteration's section. */
  lemma CurrentSpanBounds(text: string, start: nat)
    requires start + SectionOverlap < |text|
    ensures var span := CurrentSpan(text, start);
      span.start <= start + 1 && start + SectionOverlap < span.end <= |text| &&
      span.end - span.start <= MaxSpan
  {
  }

  /** The value the loop variable `start` takes for the next iteration: rewound
      to an unclosed `<table` that starts past the first 200 characters of the
      section, else `end - SECTION_OVERLAP`. */
  function NextLoopStart(text: string, start: nat): (next: nat)
    requires start + SectionOverlap < |text|
  {
    var span := CurrentSpan(text, start);
    var section := text[span.start..span.end];
    var lastTableStart := RFind(section, "<table");
    if lastTableStart > 2 * SentenceSearchLimit && lastTableStart > RFind(section, "</table") then
      Min(span.end - SectionOverlap, span.start + lastTableStart)
    else
      span.end - SectionOverlap
  }

  /** The next loop start never passes the end of the section minus the
      overlap (so the trailing `yield` of `split_text` never fires), and the
      loop start strictly grows in every iteration whose nominal end
      `start + MAX_SECTION_LENGTH` lies within the text. */
  lemma NextLoopStartBounds(text: string, start: nat)
    requires start + SectionOverlap < |text|
    ensures var span := CurrentSpan(text, start);
      NextLoopStart(text, start) + SectionOverlap <= span.end &&
      NextLoopStart(text, start) > span.end - MaxSectionLength
    ensures start + MaxSectionLength <= |text| ==> NextLoopStart(text, start) > start
  {
  }

  /** A section ends at the end of the text, at the hard limit
      `start + MAX_SECTION_LENGTH + SENTENCE_SEARCH_LIMIT + 1`, or just after a
      sentence ending or a word break. */
  lemma SectionEndAtBreak(text: string, start: nat)
    requires start + SectionOverlap < |text|
    ensures var e := SectionEnd(text, start);
      e == |text| || e == start + MaxSectionLength + SentenceSearchLimit + 1 ||
      IsSentenceEnding(text[e - 1]) || IsWordBreak(text[e - 1])
  {
  }

  /** A section starts at 0, at the limit `end - MaxSpan + 1` of the backward
      search, or just after a sentence ending or a word break. */
  lemma SectionStartAtBreak(text: string, start: nat)
    requires start + SectionOverlap < |text|
    ensures var span := CurrentSpan(text, start);
      span.start == 0 || span.start == span.end - MaxSpan + 1 ||
      IsSentenceEnding(text[span.start - 1]) || IsWordBreak(text[span.start - 1])
  {
  }

  /** The table rewind: when the next loop start is not the section's end minus
      the overlap, it is an occurrence of `<table` past the section's first
      `2 * SENTENCE_SEARCH_LIMIT` characters with no `</table` after it in the
      section. A section with no `<table` past those characters always moves
      on to its end minus the overlap. */
  lemma NextLoopStartRewind(text: string, start: nat)
    requires start + SectionOverlap < |text|
    ensures var span, next := CurrentSpan(text, start), NextLoopStart(text, start);
      next != span.end - SectionOverlap ==>
        span.start + 2 * SentenceSearchLimit < next && OccursAt(text, "<table", next) &&
        forall j {:trigger OccursAt(text, "</table", j)} :: next <= j && j + 7 <= span.end ==> !OccursAt(text, "</table", j)
    ensures var span := CurrentSpan(text, start);
      (forall j {:trigger OccursAt(text, "<table", j)} ::
        span.start + 2 * SentenceSearchLimit < j && j + 6 <= span.end ==> !OccursAt(text, "<table", j)) ==>
      NextLoopStart(text, start) == span.end - SectionOverlap
  {
    CurrentSpanBounds(text, start);
    TableInSection(text, CurrentSpan(text, start));
  }

  /** What the `rfind` tests of the table rewind say about the text, for the
      section `span`. */
  lemma TableInSection(text: string, span: Span)
    requires span.start <= span.end <= |text|
    ensures var section := text[span.start..span.end];
      var t, c := RFind(section, "<table"), RFind(section, "</table");
      t > 2 * SentenceSearchLimit && t > c ==>
        OccursAt(text, "<table", span.start + t) &&
        forall j {:trigger OccursAt(text, "</table", j)} :: span.start + t <= j && j + 7 <= span.end ==> !OccursAt(text, "</table", j)
    ensures (forall j {:trigger OccursAt(text, "<table", j)} ::
        span.start + 2 * SentenceSearchLimit < j && j + 6 <= span.end ==> !OccursAt(text, "<table", j)) ==>
      RFind(text[span.start..span.end], "<table") <= 2 * SentenceSearchLimit
  {
    var section := text[span.start..span.end];
    var t, c := RFind(section, "<table"), RFind(section, "</table");
    if t != -1 {
      OccursInSlice(text, span.start, span.end, "<table", t);
    }
    forall j | span.start + t <= j && j + 7 <= span.end && OccursAt(text, "</table", j) && t > c
      ensures false
    {
      OccursInRange(text, span.start, span.end, "</table", j);
    }
  }

  /** Whenever a section ends before the end of the text, the next section
      ends strictly later. */
  lemma SectionEndGrows(text: string, start: nat)
    requires start + SectionOverlap < |text|
    requires SectionEnd(text, start) < |text|
    ensures NextLoopStart(text, start) + SectionOverlap < |text|
    ensures SectionEnd(text, NextLoopStart(text, start)) > SectionEnd(text, start)
  {
    NextLoopStartBounds(text, start);
  }

  // ---------------------------------------------------------------------------
  // The outer loop as a specification

  /** What one iteration of a loop does from a loop start: the section it
      yields and the next loop start, or `None` when the loop exits. */
  type Stepper = nat -> Option<(Span, nat)>

  /** The loop driven by `step` exits within `fuel` iterations from `start`. */
  predicate RunHalts(step: Stepper, start: nat, fuel: nat)
    decreases fuel
  {
    step(start).None? || (fuel > 0 && RunHalts(step, step(start).value.1, fuel - 1))
  }

  /** The sections the loop driven by `step` yields from `start` in at most
      `fuel` iterations. */
  function Run(step: Stepper, start: nat, fuel: nat): seq<Span>
    decreases fuel
  {
    if step(start).None? || fuel == 0 then []
    else [step(start).value.0] + Run(step, step(start).value.1, fuel - 1)
  }

  /** Once the loop exits within `fuel` iterations, more fuel changes nothing. */
  lemma {:induction false} RunFuelIrrelevant(step: Stepper, start: nat, fuel: nat, more: nat)
    requires RunHalts(step, start, fuel)
    requires fuel <= more
    ensures RunHalts(step, start, more)
    ensures Run(step, start, fuel) == Run(step, start, more)
    decreases fuel
  {
    if step(start).Some? {
      RunFuelIrrelevant(step, step(start).value.1, fuel - 1, more - 1);
    }
  }

  /** The loop start of the next iteration never passes the current section's
      end minus the overlap, and every section lies in the text and is at most
      `MaxSpan` long. */
  ghost predicate WellShapedSteps(step: Stepper, len: nat) {
    forall s: nat {:trigger step(s)} ::
      match step(s)
      case None => s + SectionOverlap >= len
      case Some(x) =>
        s + SectionOverlap < len && x.0.start <= s + 1 && s + SectionOverlap < x.0.end <= len &&
        x.0.end - x.0.start <= MaxSpan && x.1 + SectionOverlap <= x.0.end
  }

  lemma ConsShape(len: nat, head: Span, rest: seq<Span>)
    requires head.start < head.end <= len && head.end - head.start <= MaxSpan
    requires SpansInBounds(len, rest) && Overlapping(rest)
    requires rest != [] ==> rest[0].start + SectionOverlap - 1 <= head.end
    ensures SpansInBounds(len, [head] + rest) && Overlapping([head] + rest)
  {
    var spans := [head] + rest;
    forall k | 0 <= k < |spans| - 1 ensures spans[k + 1].start + SectionOverlap - 1 <= spans[k].end {
      if k > 0 {
        assert spans[k] == rest[k - 1] && spans[k + 1] == rest[k];
      }
    }
  }

  lemma {:induction false} RunShape(step: Stepper, len: nat, start: nat, fuel: nat)
    requires WellShapedSteps(step, len)
    requires RunHalts(step, start, fuel)
    ensures var spans := Run(step, start, fuel);
      SpansInBounds(len, spans) && Overlapping(spans) &&
      (spans == [] <==> start + SectionOverlap >= len) &&
      (spans != [] ==> spans[0] == step(start).value.0 && spans[|spans| - 1].end == len)
    decreases fuel
  {
    match step(start)
    case None =>
    case Some(x) =>
      var next := x.1;
      RunShape(step, len, next, fuel - 1);
      var rest := Run(step, next, fuel - 1);
      assert Run(step, start, fuel) == [x.0] + rest;
      assert step(next).None? ==> x.0.end == len;
      ConsShape(len, x.0, rest);
  }

  /** A loop whose start strictly grows in every iteration, and which only
      iterates from starts below `len`, exits within `len - start` iterations. */
  lemma {:induction false} IncreasingRunHalts(step: Stepper, len: nat, start: nat, fuel: nat)
    requires forall s: nat {:trigger step(s)} :: step(s).Some? ==> s < len && step(s).value.1 > s
    requires start + fuel >= len
    ensures RunHalts(step, start, fuel)
    decreases fuel
  {
    if step(start).Some? {
      IncreasingRunHalts(step, len, step(start).value.1, fuel - 1);
    }
  }

  /** A loop that comes back to the loop start it began with never exits. */
  lemma {:induction false} FixedPointDiverges(step: Stepper, p: nat, fuel: nat)
    requires step(p).Some? && step(p).value.1 == p
    ensures !RunHalts(step, p, fuel)
    decreases fuel
  {
    if fuel > 0 {
      FixedPointDiverges(step, p, fuel - 1);
    }
  }

  /** A loop whose first iteration leads to such a loop start never exits. */
  lemma ReachesFixedPointDiverges(step: Stepper, start: nat, p: nat)
    requires step(start).Some? && step(start).value.1 == p
    requires step(p).Some? && step(p).value.1 == p
    ensures forall fuel: nat :: !RunHalts(step, start, fuel)
  {
    forall fuel: nat ensures !RunHalts(step, start, fuel) {
      if fuel > 0 {
        FixedPointDiverges(step, p, fuel - 1);
      }
    }
  }

  /** `split_text`'s loop: one iteration from loop start `start` while
      `start + SECTION_OVERLAP < len(all_text)`. */
  function LoopStep(text: string): Stepper {
    (start: nat) =>
      if start + SectionOverlap < |text| then Some((CurrentSpan(text, start), NextLoopStart(text, start)))
      else None
  }

  lemma LoopStepWellShaped(text: string)
    ensures WellShapedSteps(LoopStep(text), |text|)
  {
    forall s: nat | s + SectionOverlap < |text| ensures
      CurrentSpan(text, s).start <= s + 1 &&
      s + SectionOverlap < CurrentSpan(text, s).end <= |text| &&
      CurrentSpan(text, s).end - CurrentSpan(text, s).start <= MaxSpan &&
      NextLoopStart(text, s) + SectionOverlap <= CurrentSpan(text, s).end
    {
      CurrentSpanBounds(text, s);
      NextLoopStartBounds(text, s);
    }
  }

  predicate HaltsWithin(text: string, start: nat, fuel: nat) {
    RunHalts(LoopStep(text), start, fuel)
  }

  /** `split_text`'s loop exits on `text` (it does not on every text; see
      `UnclosedTableLoopsForever`). */
  ghost predicate Halts(text: string) {
    exists fuel: nat :: HaltsWithin(text, 0, fuel)
  }

  /** The sections the loop yields from `start` in at most `fuel` iterations. */
  function Spans(text: string, start: nat, fuel: nat): seq<Span> {
    Run(LoopStep(text), start, fuel)
  }

  lemma SpansAgree(text: string, start: nat, f1: nat, f2: nat)
    requires HaltsWithin(text, start, f1) && HaltsWithin(text, start, f2)
    ensures Spans(text, start, f1) == Spans(text, start, f2)
  {
    if f1 <= f2 {
      RunFuelIrrelevant(LoopStep(text), start, f1, f2);
    } else {
      RunFuelIrrelevant(LoopStep(text), start, f2, f1);
    }
  }

  /** One iteration of the loop, on the specification side. */
  lemma SpansStep(text: string, start: nat, fuel: nat)
    requires start + SectionOverlap < |text|
    requires HaltsWithin(text, start, fuel)
    ensures fuel > 0 && HaltsWithin(text, NextLoopStart(text, start), fuel - 1)
    ensures Spans(text, start, fuel) == [CurrentSpan(text, start)] + Spans(text, NextLoopStart(text, start), fuel - 1)
  {
    assert LoopStep(text)(start) == Some((CurrentSpan(text, start), NextLoopStart(text, start)));
  }

  /** The loop invariant of `split_text`, carried over one iteration: the
      sections yielded so far followed by those still to come are always the
      same list. */
  lemma SpansAdvance(text: string, done: seq<Span>, start: nat, fuel: nat, all: seq<Span>)
    requires start + SectionOverlap < |text|
    requires HaltsWithin(text, start, fuel)
    requires done + Spans(text, start, fuel) == all
    ensures fuel > 0 && HaltsWithin(text, NextLoopStart(text, start), fuel - 1)
    ensures (done + [CurrentSpan(text, start)]) + Spans(text, NextLoopStart(text, start), fuel - 1) == all
  {
    SpansStep(text, start, fuel);
    var tail := Spans(text, NextLoopStart(text, start), fuel - 1);
    assert done + ([CurrentSpan(text, start)] + tail) == (done + [CurrentSpan(text, start)]) + tail;
  }

  /** The sections `split_text` yields on `text`, as ranges. */
  ghost function SplitSpans(text: string): seq<Span>
    requires Halts(text)
  {
    var fuel: nat :| HaltsWithin(text, 0, fuel);
    Spans(text, 0, fuel)
  }

  ghost predicate SpansInBounds(len: nat, spans: seq<Span>) {
    forall k | 0 <= k < |spans| ::
      spans[k].start < spans[k].end <= len && spans[k].end - spans[k].start <= MaxSpan
  }

  /** Each section starts at least `SECTION_OVERLAP - 1` characters before the
      previous one ended. */
  ghost predicate Overlapping(spans: seq<Span>) {
    forall k | 0 <= k < |spans| - 1 :: spans[k + 1].start + SectionOverlap - 1 <= spans[k].end
  }

  function SectionOf(pageMap: seq<Page>, span: Span): (string, int)
    requires span.start <= span.end <= |AllText(pageMap)|
  {
    (AllText(pageMap)[span.start..span.end], FindPage(pageMap, span.start))
  }

  ghost predicate SpansWithin(text: string, spans: seq<Span>) {
    forall k | 0 <= k < |spans| :: spans[k].start <= spans[k].end <= |text|
  }

  /** The `(section_text, page)` pair of every span. */
  ghost function SectionsOf(pageMap: seq<Page>, spans: seq<Span>): seq<(string, int)>
    requires SpansWithin(AllText(pageMap), spans)
  {
    seq(|spans|, k requires 0 <= k < |spans| => SectionOf(pageMap, spans[k]))
  }

  lemma SectionsOfAppend(pageMap: seq<Page>, spans: seq<Span>, span: Span)
    requires SpansWithin(AllText(pageMap), spans)
    requires span.start <= span.end <= |AllText(pageMap)|
    ensures SpansWithin(AllText(pageMap), spans + [span])
    ensures SectionsOf(pageMap, spans + [span]) == SectionsOf(pageMap, spans) + [SectionOf(pageMap, span)]
  {
    var all := spans + [span];
    assert forall k | 0 <= k < |spans| :: all[k] == spans[k];
  }

  /** The `(section_text, page)` pairs `split_text` yields for `pageMap`. */
  ghost function SplitTextSpec(pageMap: seq<Page>): seq<(string, int)>
    requires Halts(AllText(pageMap))
  {
    SplitSpansShape(AllText(pageMap));
    SectionsOf(pageMap, SplitSpans(AllText(pageMap)))
  }

  /** The first section of a text always begins at offset 0. */
  lemma FirstSectionStartsAtZero(text: string)
    requires SectionOverlap < |text|
    ensures CurrentSpan(text, 0).start == 0
  {
  }

  /** The properties of `split_text`'s output: every section is a slice
      `[start, end)` with `0 <= start < end <= len`, at most
      `MAX_SECTION_LENGTH + 2 * SENTENCE_SEARCH_LIMIT` long; texts of at most
      `SECTION_OVERLAP` characters give no section; otherwise the first
      section starts at 0, consecutive sections overlap, and the last ends at
      the end of the text. */
  lemma SplitSpansShape(text: string)
    requires Halts(text)
    ensures var spans := SplitSpans(text);
      SpansInBounds(|text|, spans) && Overlapping(spans) &&
      (spans == [] <==> |text| <= SectionOverlap) &&
      (spans != [] ==> spans[0].start == 0 && spans[|spans| - 1].end == |text|)
  {
    var fuel: nat :| HaltsWithin(text, 0, fuel) && SplitSpans(text) == Spans(text, 0, fuel);
    SpansShape(text, fuel);
    if SectionOverlap < |text| {
      FirstSectionStartsAtZero(text);
    }
  }

  lemma SpansShape(text: string, fuel: nat)
    requires HaltsWithin(text, 0, fuel)
    ensures var spans := Spans(text, 0, fuel);
      SpansInBounds(|text|, spans) && Overlapping(spans) &&
      (spans == [] <==> SectionOverlap >= |text|) &&
      (spans != [] ==> spans[0] == CurrentSpan(text, 0) && spans[|spans| - 1].end == |text|)
  {
    LoopStepWellShaped(text);
    RunShape(LoopStep(text), |text|, 0, fuel);
  }

  lemma {:induction false} ChainCovers(spans: seq<Span>, p: nat)
    requires spans != [] && spans[0].start <= p < spans[|spans| - 1].end
    requires forall k | 0 <= k < |spans| - 1 :: spans[k + 1].start <= spans[k].end
    ensures exists k :: 0 <= k < |spans| && spans[k].start <= p < spans[k].end
    decreases |spans|
  {
    if !(p < spans[0].end) {
      ChainCovers(spans[1..], p);
      var k :| 0 <= k < |spans| - 1 && spans[1..][k].start <= p < spans[1..][k].end;
      assert spans[k + 1].start <= p < spans[k + 1].end;
    }
  }

  /** Together the sections cover every character of the text. */
  lemma SplitSpansCover(text: string, p: nat)
    requires Halts(text)
    requires SectionOverlap < |text| && p < |text|
    ensures exists k :: (0 <= k < |SplitSpans(text)| &&
      SplitSpans(text)[k].start <= p < SplitSpans(text)[k].end)
  {
    SplitSpansShape(text);
    ChainCovers(SplitSpans(text), p);
  }

  // ---------------------------------------------------------------------------
  // Termination

  /** `text` holds no `"<table"`. */
  ghost predicate NoTable(text: string) {
    forall i {:trigger OccursAt(text, "<table", i)} :: !OccursAt(text, "<table", i)
  }

  /** Without `"<table"` the table branch is never taken. */
  lemma NoTableNextStart(text: string, start: nat)
    requires NoTable(text)
    requires start + SectionOverlap < |text|
    ensures NextLoopStart(text, start) == SectionEnd(text, start) - SectionOverlap
    ensures NextLoopStart(text, start) > start
  {
    var span := CurrentSpan(text, start);
    var r := RFind(text[span.start..span.end], "<table");
    if r != -1 {
      OccursInSlice(text, span.start, span.end, "<table", r);
      assert false;
    }
  }

  /** On a text without `"<table"` the loop variable strictly grows, so
      `split_text` terminates. */
  lemma NoTableHalts(text: string)
    requires NoTable(text)
    ensures Halts(text)
  {
    var step := LoopStep(text);
    forall s: nat | step(s).Some? ensures s < |text| && step(s).value.1 > s {
      NoTableNextStart(text, s);
    }
    IncreasingRunHalts(step, |text|, 0, |text|);
    assert HaltsWithin(text, 0, |text|);
  }

  /** A text of at most `SECTION_OVERLAP` characters, tables or not, gives no
      section: the loop does not run. */
  lemma ShortTextHalts(text: string)
    requires |text| <= SectionOverlap
    ensures Halts(text)
    ensures SplitSpans(text) == []
  {
    assert HaltsWithin(text, 0, 0);
    SplitSpansShape(text);
  }

  /** A text of more than `SECTION_OVERLAP` and at most `MAX_SECTION_LENGTH`
      characters with no `"<table"` is one section: the whole text. */
  lemma ShortTextIsOneSection(text: string)
    requires SectionOverlap < |text| <= MaxSectionLength
    requires NoTable(text)
    ensures Halts(text)
    ensures SplitSpans(text) == [Span(0, |text|)]
  {
    NoTableHalts(text);
    NoTableNextStart(text, 0);
    FirstSectionStartsAtZero(text);
    var step := LoopStep(text);
    var next := |text| - SectionOverlap;
    assert step(0) == Some((Span(0, |text|), next));
    assert step(next).None?;
    assert HaltsWithin(text, 0, 1);
    assert Spans(text, 0, 1) == [Span(0, |text|)];
    var fuel: nat :| HaltsWithin(text, 0, fuel) && SplitSpans(text) == Spans(text, 0, fuel);
    SpansAgree(text, 0, fuel, 1);
  }

  // ---------------------------------------------------------------------------
  // A text on which split_text runs forever

  /** 300 letters, an unclosed `"<table"`, 594 more letters: 900 characters
      with no sentence ending and no word break. */
  function LoopingInput(): string {
    seq(300, _ => 'a') + "<table" + seq(594, _ => 'b')
  }

  lemma LoopingInputChars(k: nat)
    requires k < |LoopingInput()|
    ensures |LoopingInput()| == 900
    ensures !IsSentenceEnding(LoopingInput()[k]) && !IsWordBreak(LoopingInput()[k])
    ensures LoopingInput()[k] == '<' <==> k == 300
    ensures LoopingInput()[k] != '/'
  {
    var t := LoopingInput();
    if k < 300 {
      assert t[k] == 'a';
    } else if k < 306 {
      assert t[k] == "<table"[k - 300];
    } else {
      assert t[k] == 'b';
    }
  }

  lemma {:induction false} ScanBackwardOverLetters(start: nat, lastWord: int)
    requires start < 900
    ensures ScanBackward(LoopingInput(), start, 900, lastWord) == (0, lastWord)
    decreases start
  {
    LoopingInputChars(start);
    if start > 0 {
      ScanBackwardOverLetters(start - 1, lastWord);
    }
  }

  lemma LoopingInputTables()
    ensures RFind(LoopingInput(), "<table") == 300
    ensures RFind(LoopingInput(), "</table") == -1
  {
    var t := LoopingInput();
    LoopingInputChars(0);
    assert t[300..306] == "<table";
    assert OccursAt(t, "<table", 300);
    var r := RFind(t, "<table");
    if r > 300 {
      assert t[r..r + 6][0] == t[r];
      LoopingInputChars(r);
      assert false;
    }
    var q := RFind(t, "</table");
    if q != -1 {
      assert t[q..q + 7][1] == t[q + 1];
      LoopingInputChars(q + 1);
      assert false;
    }
  }

  /** The section `[0, 900)` ends inside the table, so the next loop start is
      the table at 300; from 300 the backward scan walks back to 0 and the same
      section and the same loop start come again. */
  lemma LoopingInputStep(start: nat)
    requires start == 0 || start == 300
    ensures LoopStep(LoopingInput())(start) == Some((Span(0, 900), 300))
  {
    var t := LoopingInput();
    LoopingInputChars(0);
    ScanBackwardOverLetters(start, -1);
    assert SectionEnd(t, start) == 900;
    assert SectionStart(t, start, 900) == 0;
    assert t[0..900] == t;
    LoopingInputTables();
    assert NextLoopStart(t, start) == 300;
  }

  /** `split_text` never exits on `LoopingInput()`: the guard that ignores
      tables in the first `2 * SENTENCE_SEARCH_LIMIT` characters does not stop
      the rewind when the section was clamped to the end of the text. */
  lemma UnclosedTableLoopsForever()
    ensures !Halts(LoopingInput())
  {
    LoopingInputStep(0);
    LoopingInputStep(300);
    ReachesFixedPointDiverges(LoopStep(LoopingInput()), 0, 300);
  }

  // ---------------------------------------------------------------------------
  // split_text

  /** The first half of the loop body of `split_text`: the section's end,
      pushed forward to a sentence ending or back to a word break. */
  method FindSectionEnd(allText: string, start: nat) returns (end: nat)
    requires start + SectionOverlap < |allText|
    ensures end == SectionEnd(allText, start)
  {
    var length := |allText|;
    var lastWord: int := -1;
    end := start + MaxSectionLength;
    if end > length {
      end := length;
    } else {
      while end < length && end - start - MaxSectionLength < SentenceSearchLimit && !IsSentenceEnding(allText[end])
        invariant start + MaxSectionLength <= end <= length
        invariant ScanForward(allText, start, end, lastWord) == ScanForward(allText, start, start + MaxSectionLength, -1)
        decreases length - end
      {
        if IsWordBreak(allText[end]) {
          lastWord := end;
        }
        end := end + 1;
      }
      if end < length && !IsSentenceEnding(allText[end]) && lastWord > 0 {
        end := lastWord;  // fall back to at least keeping a whole word
      }
    }
    if end < length {
      end := end + 1;
    }
  }

  /** The second half: the section's start, pulled back from the loop start
      to a sentence ending or at least a word boundary. */
  method FindSectionStart(allText: string, loopStart: nat, end: int) returns (start: nat)
    requires loopStart < |allText|
    ensures start == SectionStart(allText, loopStart, end)
  {
    start := loopStart;
    var lastWord: int := -1;
    while start > 0 && start > end - MaxSectionLength - 2 * SentenceSearchLimit && !IsSentenceEnding(allText[start])
      invariant start <= loopStart
      invariant ScanBackward(allText, start, end, lastWord) == ScanBackward(allText, loopStart, end, -1)
      decreases start
    {
      if IsWordBreak(allText[start]) {
        lastWord := start;
      }
      start := start - 1;
    }
    if !IsSentenceEnding(allText[start]) && lastWord > 0 {
      start := lastWord;
    }
    if start > 0 {
      start := start + 1;
    }
  }

  /** One pass of `split_text`'s loop body from loop start `loopStart`: the
      section `[span.start, span.end)` it yields and the next loop start. */
  method SectionAt(allText: string, loopStart: nat) returns (span: Span, next: nat)
    requires loopStart + SectionOverlap < |allText|
    ensures span == CurrentSpan(allText, loopStart)
    ensures next == NextLoopStart(allText, loopStart)
  {
    var end := FindSectionEnd(allText, loopStart);
    var start := FindSectionStart(allText, loopStart, end);
    CurrentSpanBounds(allText, loopStart);
    var sectionText := allText[start..end];
    var lastTableStart := RFind(sectionText, "<table");
    if lastTableStart > 2 * SentenceSearchLimit && lastTableStart > RFind(sectionText, "</table") {
      // the section ends inside an unclosed table: start the next one with the table
      next := Min(end - SectionOverlap, start + lastTableStart);
    } else {
      next := end - SectionOverlap;
    }
    span := Span(start, end);
  }

  /** `split_text(page_map, ...)`: the sections of the joined page text, each
      with the page its first character falls on. */
  method SplitText(pageMap: seq<Page>) returns (sections: seq<(string, int)>)
    requires Halts(AllText(pageMap))
    ensures sections == SplitTextSpec(pageMap)
  {
    var allText := AllText(pageMap);
    var length := |allText|;
    var start: nat := 0;
    var end: nat := length;
    sections := [];
    ghost var fuel: nat :| HaltsWithin(allText, 0, fuel);
    ghost var done: seq<Span> := [];
    assert done + Spans(allText, start, fuel) == SplitSpans(allText) by {
      var f: nat :| HaltsWithin(allText, 0, f) && SplitSpans(allText) == Spans(allText, 0, f);
      SpansAgree(allText, 0, fuel, f);
    }
    while start + SectionOverlap < length
      invariant HaltsWithin(allText, start, fuel)
      invariant done + Spans(allText, start, fuel) == SplitSpans(allText)
      invariant SpansWithin(allText, done) && sections == SectionsOf(pageMap, done)
      invariant end <= length
      decreases fuel
    {
      SpansAdvance(allText, done, start, fuel, SplitSpans(allText));
      CurrentSpanBounds(allText, start);
      var span, next := SectionAt(allText, start);
      SectionsOfAppend(pageMap, done, span);
      sections := sections + [(allText[span.start..span.end], FindPage(pageMap, span.start))];
      done := done + [span];
      start, end := next, span.end;
      fuel := fuel - 1;
    }
    // The trailing `yield` after the loop is never reached: the loop exits
    // with `start + SECTION_OVERLAP >= length >= end`.
    assert !(start + SectionOverlap < end);
    assert done == SplitSpans(allText);
  }
}
