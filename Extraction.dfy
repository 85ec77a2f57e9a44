/**
 * `extract_text_blocks` (find_duplicate_wording.py:113-176): a line-by-line
 * scanner over a markdown document that skips fenced code, tracks the
 * heading path and turns every paragraph into a cleaned text block.
 *
 * The scanner's state after each line is specified by `Step`, a function of
 * the state before it; `Scan` folds it over a prefix of the lines, and the
 * method `ExtractTextBlocks` runs the loop of the source against that fold.
 */
module Extraction {
  import opened Wrappers
  import opened Text
  import opened Markup
  import opened Words

  /** Which of the two fence markers, "```" or "~~~", a fence line opens with. */
  datatype FenceKind = Backticks | Tildes

  /** An entry of the heading stack: its level and its `"## Title"` label. */
  datatype Heading = Heading(level: nat, entry: String)

  /** An extracted block: the heading path in effect and the cleaned text. */
  datatype TextBlock = TextBlock(headingPath: String, text: String)

  /** A paragraph handed to `flush_paragraph`, with the heading stack of that
      moment; `Emit` turns it into at most one block. */
  datatype Pending = Pending(headings: seq<Heading>, lines: seq<String>)

  /** The scanner's state: the open fence, if any, the heading stack, the
      lines of the current paragraph and the paragraphs flushed so far. */
  datatype ScanState = ScanState(
    fence: Option<FenceKind>,
    headings: seq<Heading>,
    paragraph: seq<String>,
    flushed: seq<Pending>)

  const Start := ScanState(None, [], [], [])

  /** How the loop body treats a line, in the order of its tests. */
  datatype LineKind =
    | FenceLine(marker: FenceKind)
    | HeadingLine(level: nat, entry: String)
    | BlankLine
    | TextLine(line: String)

  // ---------------------------------------------------------------------
  // Line classification

  /** `FENCE_RE.match(line)`: optional leading whitespace, then "```" or "~~~". */
  function FenceAt(line: String): Option<FenceKind> {
    var t := LStrip(line);
    if |t| >= 3 && t[..3] == "```" then Some(Backticks)
    else if |t| >= 3 && t[..3] == "~~~" then Some(Tildes)
    else None
  }

  /** Number of leading '#' characters. */
  function HashRun(s: String): (k: nat)
    ensures k <= |s|
    ensures forall i :: 0 <= i < k ==> s[i] == '#'
    ensures k < |s| ==> s[k] != '#'
  {
    if s == [] || s[0] != '#' then 0 else 1 + HashRun(s[1..])
  }

  function Repeat(c: char, n: nat): (r: String)
    ensures |r| == n && forall i :: 0 <= i < n ==> r[i] == c
  {
    if n == 0 then [] else [c] + Repeat(c, n - 1)
  }

  /** `HEADING_RE.match(line)`, i.e. `^(#{1,6})\s+(.+?)\s*$`: the level and
      the lazily matched title group. When everything after the hashes is
      whitespace, the title group is the last whitespace character, and
      there is a match only if that run is at least two characters long. */
  function HeadingAt(line: String): (h: Option<(nat, String)>)
    ensures h.Some? ==> var k := h.value.0;
      && 1 <= k <= 6 && k < |line| && line[..k] == Repeat('#', k) && IsSpace(line[k])
      && h.value.1 != []
  {
    var k := HashRun(line);
    if k == 0 || k > 6 || k == |line| || !IsSpace(line[k]) then None
    else
      var rest := line[k..];
      var m := |rest| - |LStrip(rest)|;
      assert line[..k] == Repeat('#', k);
      if m < |rest| then
        var title := RStrip(rest[m..]);
        assert title != [] by { assert !IsSpace(rest[m..][0]); }
        Some((k, title))
      else if m >= 2 then Some((k, rest[m - 1..]))
      else None
  }

  /** The stack label of a heading: `f"{'#' * level} {title}"`. */
  function HeadingEntry(level: nat, rawTitle: String): String {
    Repeat('#', level) + " " + NormalizeWhitespace(rawTitle)
  }

  function Entries(hs: seq<Heading>): (r: seq<String>)
    ensures |r| == |hs| && forall i :: 0 <= i < |hs| ==> r[i] == hs[i].entry
  {
    if hs == [] then [] else [hs[0].entry] + Entries(hs[1..])
  }

  /** `current_heading_path()`: the entries joined by " > ", or "". */
  function HeadingPath(hs: seq<Heading>): String {
    Join(Entries(hs), " > ")
  }

  /** The test of the loop body a line meets first: fence line, heading,
      blank line, or ordinary line. */
  function Classify(line: String): LineKind {
    match FenceAt(line)
    case Some(marker) => FenceLine(marker)
    case None =>
      match HeadingAt(line)
      case Some((level, title)) => HeadingLine(level, HeadingEntry(level, title))
      case None => if Strip(line) == [] then BlankLine else TextLine(line)
  }

  // ---------------------------------------------------------------------
  // The scanner as a function of the lines

  /** The cleaning `flush_paragraph` applies to a paragraph's lines. */
  function CleanParagraph(paragraph: seq<String>): String {
    var raw := Strip(Join(paragraph, "\n"));
    NormalizeWhitespace(StripMarkdownLinks(StripEmphasisAndHtml(StripInlineCode(raw))))
  }

  /** The block `flush_paragraph` emits for a paragraph, if it has at least
      `minWords` words. */
  function EmitOne(p: Pending, minWords: int): (r: seq<TextBlock>)
    ensures forall b :: b in r ==>
      b == TextBlock(HeadingPath(p.headings), CleanParagraph(p.lines)) && |TokenizeWords(b.text)| >= minWords
  {
    var cleaned := CleanParagraph(p.lines);
    if |TokenizeWords(cleaned)| >= minWords then [TextBlock(HeadingPath(p.headings), cleaned)] else []
  }

  /** The blocks emitted for a sequence of flushed paragraphs, in order. */
  function Emit(ps: seq<Pending>, minWords: int): seq<TextBlock> {
    Concat(ps, (p: Pending) => EmitOne(p, minWords))
  }

  /** `each` of every element of `xs`, concatenated in order. */
  function Concat<T, U>(xs: seq<T>, each: T -> seq<U>): seq<U> {
    if xs == [] then [] else Concat(xs[..|xs| - 1], each) + each(xs[|xs| - 1])
  }

  lemma {:induction false} ConcatSnoc<T, U>(xs: seq<T>, x: T, each: T -> seq<U>)
    ensures Concat(xs + [x], each) == Concat(xs, each) + each(x)
  {
    assert (xs + [x])[..|xs|] == xs;
  }

  /** Everything in the concatenation comes from one element, `x`. */
  lemma {:induction false} ConcatFrom<T, U>(xs: seq<T>, each: T -> seq<U>, y: U) returns (x: T)
    requires y in Concat(xs, each)
    ensures x in xs && y in each(x)
  {
    var init, last := xs[..|xs| - 1], xs[|xs| - 1];
    if y in Concat(init, each) {
      x := ConcatFrom(init, each, y);
      assert x in xs by { assert xs == init + [last]; }
    } else {
      x := last;
    }
  }

  /** `flush_paragraph()`: a non-empty paragraph is handed on and emptied. */
  function Flush(st: ScanState): ScanState {
    if st.paragraph == [] then st
    else st.(paragraph := [], flushed := st.flushed + [Pending(st.headings, st.paragraph)])
  }

  /** The `while` loop that pops every entry whose level is at least `level`. */
  function PopHeadings(stack: seq<Heading>, level: nat): (r: seq<Heading>)
    ensures |r| <= |stack| && r == stack[..|r|]
    ensures forall i :: |r| <= i < |stack| ==> stack[i].level >= level
    ensures r != [] ==> r[|r| - 1].level < level
    decreases |stack|
  {
    if stack != [] && stack[|stack| - 1].level >= level then PopHeadings(stack[..|stack| - 1], level)
    else stack
  }

  /** One iteration of the loop over the lines. */
  function Step(st: ScanState, kind: LineKind): ScanState {
    match kind
    case FenceLine(marker) =>
      if st.fence.None? then Flush(st.(fence := Some(marker)))
      else if st.fence == Some(marker) then st.(fence := None)
      else st
    case HeadingLine(level, entry) =>
      if st.fence.Some? then st
      else
        var f := Flush(st);
        f.(headings := PopHeadings(f.headings, level) + [Heading(level, entry)])
    case BlankLine =>
      if st.fence.Some? then st else Flush(st)
    case TextLine(line) =>
      if st.fence.Some? then st else st.(paragraph := st.paragraph + [line])
  }

  /** Every line classified, in order. */
  function ClassifyAll(lines: seq<String>): (kinds: seq<LineKind>)
    ensures |kinds| == |lines|
  {
    if lines == [] then [] else [Classify(lines[0])] + ClassifyAll(lines[1..])
  }

  /** Line `k` is classified on its own. */
  lemma {:induction false} ClassifyAllAt(lines: seq<String>, k: nat)
    requires k < |lines|
    ensures ClassifyAll(lines)[k] == Classify(lines[k])
  {
    if k > 0 {
      ClassifyAllAt(lines[1..], k - 1);
    }
  }

  /** The state after the first `n` lines, given the classified lines. */
  function Scan(kinds: seq<LineKind>, n: nat): ScanState
    requires n <= |kinds|
  {
    if n == 0 then Start else Step(Scan(kinds, n - 1), kinds[n - 1])
  }

  /** The blocks of the classified lines, after the final `flush_paragraph()`. */
  function ExtractKinds(kinds: seq<LineKind>, minWords: int): seq<TextBlock> {
    Emit(Flush(Scan(kinds, |kinds|)).flushed, minWords)
  }

  /** The blocks of a document given as its lines. */
  function ExtractLines(lines: seq<String>, minWords: int): seq<TextBlock> {
    ExtractKinds(ClassifyAll(lines), minWords)
  }

  // ---------------------------------------------------------------------
  // The loop of the source

  /** `flush_paragraph()`: empties the paragraph and emits its block, if any.
      The ghost `flushed` lists the paragraphs handed on so far, whose blocks
      `blocks` holds; the paragraph joins them. */
  method FlushParagraph(headings: seq<Heading>, paragraph: seq<String>, blocks: seq<TextBlock>,
                        ghost flushed: seq<Pending>, minWords: int)
    returns (newParagraph: seq<String>, newBlocks: seq<TextBlock>, ghost newFlushed: seq<Pending>)
    requires blocks == Emit(flushed, minWords)
    ensures newParagraph == []
    ensures newFlushed == if paragraph == [] then flushed else flushed + [Pending(headings, paragraph)]
    ensures newBlocks == Emit(newFlushed, minWords)
  {
    newFlushed := if paragraph == [] then flushed else flushed + [Pending(headings, paragraph)];
    EmitSnoc(flushed, Pending(headings, paragraph), minWords);
    newParagraph := [];
    newBlocks := blocks;
    if paragraph == [] {
      return;
    }
    var emitted := CleanAndCount(headings, paragraph, minWords);
    newBlocks := blocks + emitted;
  }

  /** The rest of `flush_paragraph()` on a non-empty paragraph: join, strip
      and clean its lines, count the words, and emit the block if there are
      enough of them. */
  method CleanAndCount(headings: seq<Heading>, paragraph: seq<String>, minWords: int) returns (emitted: seq<TextBlock>)
    ensures emitted == EmitOne(Pending(headings, paragraph), minWords)
  {
    var raw := Strip(Join(paragraph, "\n"));
    var cleaned := StripMarkdownLinks(StripEmphasisAndHtml(StripInlineCode(raw)));
    cleaned := NormalizeWhitespace(cleaned);
    var wc := |TokenizeWords(cleaned)|;
    emitted := [];
    if wc >= minWords {
      emitted := [TextBlock(HeadingPath(headings), cleaned)];
    }
  }

  /** `extract_text_blocks(md, file_path, min_words)`. The file path is not
      used by the scan, as in the source. */
  method ExtractTextBlocks(md: String, filePath: String, minWords: int) returns (blocks: seq<TextBlock>)
    ensures blocks == ExtractLines(SplitLines(md), minWords)
    ensures forall b :: b in blocks ==> FromParagraph(b, SplitLines(md), minWords) && Canonical(b.text)
  {
    var lines := SplitLines(md);
    blocks := [];
    var inFence := false;
    var fenceMarker: Option<FenceKind> := None;
    var headingStack: seq<Heading> := [];
    var currentParagraph: seq<String> := [];
    ghost var flushed: seq<Pending> := [];
    ghost var kinds := ClassifyAll(lines);
    for i := 0 to |lines|
      invariant inFence <==> fenceMarker.Some?
      invariant Scan(kinds, i) == ScanState(fenceMarker, headingStack, currentParagraph, flushed)
      invariant blocks == Emit(flushed, minWords)
    {
      ClassifyAllAt(lines, i);
      inFence, fenceMarker, headingStack, currentParagraph, blocks, flushed :=
        ScanLine(lines[i], inFence, fenceMarker, headingStack, currentParagraph, blocks, flushed, minWords);
    }
    currentParagraph, blocks, flushed := FlushParagraph(headingStack, currentParagraph, blocks, flushed, minWords);
    BlocksAreCleanParagraphs(lines, minWords);
  }

  /** One pass of the loop of `extract_text_blocks` over `line`: the new
      scanner variables are those of `Step`, and the blocks emitted so far
      stay those of the flushed paragraphs. */
  method ScanLine(line: String, inFence: bool, fenceMarker: Option<FenceKind>, headingStack: seq<Heading>,
                  currentParagraph: seq<String>, blocks: seq<TextBlock>, ghost flushed: seq<Pending>, minWords: int)
    returns (inFence': bool, fenceMarker': Option<FenceKind>, headingStack': seq<Heading>,
             currentParagraph': seq<String>, blocks': seq<TextBlock>, ghost flushed': seq<Pending>)
    requires inFence <==> fenceMarker.Some?
    requires blocks == Emit(flushed, minWords)
    ensures inFence' <==> fenceMarker'.Some?
    ensures ScanState(fenceMarker', headingStack', currentParagraph', flushed')
         == Step(ScanState(fenceMarker, headingStack, currentParagraph, flushed), Classify(line))
    ensures blocks' == Emit(flushed', minWords)
  {
    ghost var st := ScanState(fenceMarker, headingStack, currentParagraph, flushed);
    inFence', fenceMarker', headingStack', currentParagraph', blocks', flushed' :=
      inFence, fenceMarker, headingStack, currentParagraph, blocks, flushed;
    var fm := FenceAt(line);
    if fm.Some? {
      ClassifyCases(line);
      inFence', fenceMarker', currentParagraph', blocks', flushed' :=
        FenceStep(fm.value, inFence, fenceMarker, headingStack, currentParagraph, blocks, flushed, minWords);
      return;
    }
    if inFence {
      ClassifyCases(line);
      FencedLineIgnored(st, Classify(line));
      return;
    }
    headingStack', currentParagraph', blocks', flushed' :=
      UnfencedLine(line, headingStack, currentParagraph, blocks, flushed, minWords);
  }

  /** The rest of the loop body, for a line that is not a fence line and
      comes outside a fence: a heading, a blank line, or a paragraph line. */
  method UnfencedLine(line: String, headingStack: seq<Heading>, currentParagraph: seq<String>,
                      blocks: seq<TextBlock>, ghost flushed: seq<Pending>, minWords: int)
    returns (headingStack': seq<Heading>, currentParagraph': seq<String>, blocks': seq<TextBlock>, ghost flushed': seq<Pending>)
    requires FenceAt(line).None?
    requires blocks == Emit(flushed, minWords)
    ensures ScanState(None, headingStack', currentParagraph', flushed')
         == Step(ScanState(None, headingStack, currentParagraph, flushed), Classify(line))
    ensures blocks' == Emit(flushed', minWords)
    ensures currentParagraph' == if Classify(line).TextLine? then currentParagraph + [line] else []
  {
    ghost var st := ScanState(None, headingStack, currentParagraph, flushed);
    headingStack', currentParagraph', blocks', flushed' := headingStack, currentParagraph, blocks, flushed;
    var kind := ClassifyUnfenced(line);
    if kind.HeadingLine? {
      headingStack', currentParagraph', blocks', flushed' :=
        HeadingStep(kind.level, kind.entry, headingStack, currentParagraph, blocks, flushed, minWords);
    } else if kind == BlankLine {
      currentParagraph', blocks', flushed' := BlankStep(headingStack, currentParagraph, blocks, flushed, minWords);
    } else {
      currentParagraph' := currentParagraph + [line];
      assert Step(st, TextLine(line)) == st.(paragraph := currentParagraph');
    }
  }

  /** The tests the loop makes of a line that is not a fence line: a
      heading (its entry built from the normalized title), a blank line, or
      an ordinary line. */
  method ClassifyUnfenced(line: String) returns (kind: LineKind)
    requires FenceAt(line).None?
    ensures kind == Classify(line)
    ensures kind.HeadingLine? || kind == BlankLine || kind == TextLine(line)
  {
    var hm := HeadingAt(line);
    if hm.Some? {
      var entry := MakeEntry(hm.value.0, hm.value.1);
      kind := HeadingLine(hm.value.0, entry);
    } else if Strip(line) == [] {
      kind := BlankLine;
    } else {
      kind := TextLine(line);
    }
  }

  /** The fence branch of the loop: a fence line opens a fence (flushing the
      paragraph) when none is open, closes the open fence of the same marker,
      and is ignored inside a fence of the other marker. */
  method FenceStep(marker: FenceKind, inFence: bool, fenceMarker: Option<FenceKind>, headingStack: seq<Heading>,
                   currentParagraph: seq<String>, blocks: seq<TextBlock>, ghost flushed: seq<Pending>, minWords: int)
    returns (inFence': bool, fenceMarker': Option<FenceKind>, currentParagraph': seq<String>,
             blocks': seq<TextBlock>, ghost flushed': seq<Pending>)
    requires inFence <==> fenceMarker.Some?
    requires blocks == Emit(flushed, minWords)
    ensures inFence' <==> fenceMarker'.Some?
    ensures ScanState(fenceMarker', headingStack, currentParagraph', flushed')
         == Step(ScanState(fenceMarker, headingStack, currentParagraph, flushed), FenceLine(marker))
    ensures blocks' == Emit(flushed', minWords)
  {
    inFence', fenceMarker', currentParagraph', blocks', flushed' := inFence, fenceMarker, currentParagraph, blocks, flushed;
    if !inFence {
      inFence' := true;
      fenceMarker' := Some(marker);
      currentParagraph', blocks', flushed' := FlushParagraph(headingStack, currentParagraph, blocks, flushed, minWords);
    } else if Some(marker) == fenceMarker {
      inFence' := false;
      fenceMarker' := None;
    }
  }

  /** The heading branch of the loop, outside a fence: flush the paragraph,
      then replace the entries of level at least `level` by the new one. */
  method HeadingStep(level: nat, entry: String, headingStack: seq<Heading>, currentParagraph: seq<String>,
                     blocks: seq<TextBlock>, ghost flushed: seq<Pending>, minWords: int)
    returns (headingStack': seq<Heading>, currentParagraph': seq<String>, blocks': seq<TextBlock>, ghost flushed': seq<Pending>)
    requires blocks == Emit(flushed, minWords)
    ensures ScanState(None, headingStack', currentParagraph', flushed')
         == Step(ScanState(None, headingStack, currentParagraph, flushed), HeadingLine(level, entry))
    ensures blocks' == Emit(flushed', minWords)
    ensures headingStack' == PopHeadings(headingStack, level) + [Heading(level, entry)] && currentParagraph' == []
  {
    currentParagraph', blocks', flushed' := FlushParagraph(headingStack, currentParagraph, blocks, flushed, minWords);
    headingStack' := PushHeading(headingStack, level, entry);
    ghost var st := ScanState(None, headingStack, currentParagraph, flushed);
    assert Step(st, HeadingLine(level, entry)) == Flush(st).(headings := PopHeadings(headingStack, level) + [Heading(level, entry)]);
  }

  /** The heading's stack entry: its marker run, a space and the title with
      whitespace normalized. */
  method MakeEntry(level: nat, rawTitle: String) returns (entry: String)
    ensures entry == HeadingEntry(level, rawTitle)
  {
    var title := NormalizeWhitespace(rawTitle);
    entry := Repeat('#', level) + " " + title;
  }

  /** The blank-line branch of the loop, outside a fence: flush the
      paragraph. */
  method BlankStep(headingStack: seq<Heading>, currentParagraph: seq<String>, blocks: seq<TextBlock>,
                   ghost flushed: seq<Pending>, minWords: int)
    returns (currentParagraph': seq<String>, blocks': seq<TextBlock>, ghost flushed': seq<Pending>)
    requires blocks == Emit(flushed, minWords)
    ensures ScanState(None, headingStack, currentParagraph', flushed')
         == Step(ScanState(None, headingStack, currentParagraph, flushed), BlankLine)
    ensures blocks' == Emit(flushed', minWords)
    ensures currentParagraph' == []
  {
    currentParagraph', blocks', flushed' := FlushParagraph(headingStack, currentParagraph, blocks, flushed, minWords);
    ghost var st := ScanState(None, headingStack, currentParagraph, flushed);
    assert Step(st, BlankLine) == Flush(st);
    assert ScanState(None, headingStack, currentParagraph', flushed') == Flush(st);
  }

  /** The heading update of the loop: pop every entry whose level is at
      least `level`, then push the new entry. */
  method PushHeading(stack: seq<Heading>, level: nat, entry: String) returns (r: seq<Heading>)
    ensures r == PopHeadings(stack, level) + [Heading(level, entry)]
  {
    r := stack;
    while |r| > 0 && r[|r| - 1].level >= level
      invariant PopHeadings(r, level) == PopHeadings(stack, level)
      decreases |r|
    {
      r := r[..|r| - 1];
    }
    r := r + [Heading(level, entry)];
  }

  lemma {:induction false} EmitSnoc(ps: seq<Pending>, p: Pending, minWords: int)
    ensures Emit(ps + [p], minWords) == Emit(ps, minWords) + EmitOne(p, minWords)
  {
    ConcatSnoc(ps, p, (p: Pending) => EmitOne(p, minWords));
  }

  // ---------------------------------------------------------------------
  // Properties

  /** Levels between 1 and 6, strictly increasing from the bottom of the stack. */
  predicate HeadingsOrdered(hs: seq<Heading>) {
    && (forall i :: 0 <= i < |hs| ==> 1 <= hs[i].level <= 6)
    && (forall i, j :: 0 <= i < j < |hs| ==> hs[i].level < hs[j].level)
  }

  /** A heading line flushes the paragraph, pops exactly the entries of
      level at least its own and pushes its own entry. */
  lemma {:induction false} HeadingLineStep(st: ScanState, level: nat, entry: String)
    requires st.fence.None? && 1 <= level <= 6
    requires HeadingsOrdered(st.headings)
    ensures Step(st, HeadingLine(level, entry)).headings == PopHeadings(st.headings, level) + [Heading(level, entry)]
    ensures HeadingsOrdered(Step(st, HeadingLine(level, entry)).headings)
    ensures Step(st, HeadingLine(level, entry)).paragraph == []
    ensures Step(st, HeadingLine(level, entry)).flushed == Flush(st).flushed
  {
    var kept := PopHeadings(st.headings, level);
    assert Step(st, HeadingLine(level, entry)).headings == kept + [Heading(level, entry)];
    PopKeepsLower(st.headings, level);
    PushOrdered(kept, Heading(level, entry));
  }

  /** What the pop loop keeps of an ordered stack is ordered and below `level`. */
  lemma {:induction false} PopKeepsLower(stack: seq<Heading>, level: nat)
    requires HeadingsOrdered(stack)
    ensures var kept := PopHeadings(stack, level);
      HeadingsOrdered(kept) && forall i :: 0 <= i < |kept| ==> kept[i].level < level
  {
    var kept := PopHeadings(stack, level);
    assert forall i :: 0 <= i < |kept| ==> kept[i] == stack[i];
    if kept != [] {
      var last := |kept| - 1;
      assert forall i :: 0 <= i < last ==> kept[i].level < kept[last].level;
    }
  }

  lemma {:induction false} PushOrdered(kept: seq<Heading>, h: Heading)
    requires HeadingsOrdered(kept) && 1 <= h.level <= 6
    requires forall i :: 0 <= i < |kept| ==> kept[i].level < h.level
    ensures HeadingsOrdered(kept + [h])
  {
    var hs := kept + [h];
    assert forall i :: 0 <= i < |kept| ==> hs[i] == kept[i];
  }

  /** What `Classify` says of a line: heading levels lie between 1 and 6,
      an ordinary line carries itself, and a fence line is what `FenceAt`
      recognises. */
  lemma {:induction false} ClassifyFacts(line: String)
    ensures Classify(line).HeadingLine? ==> 1 <= Classify(line).level <= 6
    ensures Classify(line).TextLine? ==> Classify(line).line == line
    ensures Classify(line).FenceLine? <==> FenceAt(line).Some?
    ensures Classify(line).FenceLine? ==> FenceAt(line) == Some(Classify(line).marker)
  {
  }

  /** The tests of `Classify` in their order. */
  lemma {:induction false} ClassifyCases(line: String)
    ensures FenceAt(line).Some? ==> Classify(line) == FenceLine(FenceAt(line).value)
    ensures FenceAt(line).None? && HeadingAt(line).Some? ==>
      Classify(line) == HeadingLine(HeadingAt(line).value.0, HeadingEntry(HeadingAt(line).value.0, HeadingAt(line).value.1))
    ensures FenceAt(line).None? && HeadingAt(line).None? ==>
      Classify(line) == if Strip(line) == [] then BlankLine else TextLine(line)
  {
  }

  /** Every heading among the classified lines has a level between 1 and 6. */
  predicate LevelsInRange(kinds: seq<LineKind>) {
    forall k :: 0 <= k < |kinds| && kinds[k].HeadingLine? ==> 1 <= kinds[k].level <= 6
  }

  /** The classified lines are those of `lines`: an ordinary line carries
      the line at its own index. */
  predicate Matches(lines: seq<String>, kinds: seq<LineKind>) {
    && |kinds| == |lines|
    && LevelsInRange(kinds)
    && forall k :: 0 <= k < |kinds| && kinds[k].TextLine? ==> kinds[k].line == lines[k]
  }

  lemma {:induction false} ClassifyAllMatches(lines: seq<String>)
    ensures Matches(lines, ClassifyAll(lines))
  {
    var kinds := ClassifyAll(lines);
    forall k | 0 <= k < |lines|
      ensures kinds[k].HeadingLine? ==> 1 <= kinds[k].level <= 6
      ensures kinds[k].TextLine? ==> kinds[k].line == lines[k]
    {
      ClassifyAllAt(lines, k);
      ClassifyFacts(lines[k]);
    }
  }

  /** What holds of every reachable state: the stack is ordered and an open
      fence has no paragraph pending. */
  predicate Valid(st: ScanState) {
    HeadingsOrdered(st.headings) && (st.fence.Some? ==> st.paragraph == [])
  }

  lemma {:induction false} StepValid(st: ScanState, kind: LineKind)
    requires Valid(st)
    requires kind.HeadingLine? ==> 1 <= kind.level <= 6
    ensures Valid(Step(st, kind))
  {
    if kind.HeadingLine? && st.fence.None? {
      HeadingLineStep(st, kind.level, kind.entry);
    }
  }

  /** The heading stack stays ordered, and an open fence never has a
      paragraph pending, after any number of lines. */
  lemma {:induction false} ScanValid(kinds: seq<LineKind>, n: nat)
    requires n <= |kinds| && LevelsInRange(kinds)
    ensures Valid(Scan(kinds, n))
  {
    if n > 0 {
      ScanValid(kinds, n - 1);
      StepValid(Scan(kinds, n - 1), kinds[n - 1]);
    }
  }

  /** Inside a fence every line but a fence line of the same marker is
      ignored; in particular a fence of the other kind does not close it. */
  lemma {:induction false} FencedLineIgnored(st: ScanState, kind: LineKind)
    requires st.fence.Some? && kind != FenceLine(st.fence.value)
    ensures Step(st, kind) == st
  {
  }

  /** A fence line of the same marker closes the fence and changes nothing else. */
  lemma {:induction false} ClosingFence(st: ScanState, line: String)
    requires st.fence.Some? && FenceAt(line) == st.fence
    ensures Step(st, Classify(line)) == st.(fence := None)
  {
  }

  /** An opening fence line flushes the pending paragraph. */
  lemma {:induction false} OpeningFence(st: ScanState, line: String)
    requires st.fence.None? && FenceAt(line).Some?
    ensures Step(st, Classify(line)) == Flush(st).(fence := FenceAt(line))
  {
  }

  /** Classified lines that agree on the first `n` give the same state. */
  lemma {:induction false} ScanAgrees(kinds: seq<LineKind>, kinds': seq<LineKind>, n: nat)
    requires n <= |kinds| && n <= |kinds'|
    requires forall j :: 0 <= j < n ==> kinds[j] == kinds'[j]
    ensures Scan(kinds, n) == Scan(kinds', n)
  {
    if n > 0 {
      ScanAgrees(kinds, kinds', n - 1);
    }
  }

  lemma {:induction false} SameAfter(kinds: seq<LineKind>, kinds': seq<LineKind>, n: nat)
    requires |kinds| == |kinds'| && n <= |kinds|
    requires forall j :: n <= j < |kinds| ==> kinds[j] == kinds'[j]
    requires Scan(kinds, n) == Scan(kinds', n)
    ensures Scan(kinds, |kinds|) == Scan(kinds', |kinds'|)
    decreases |kinds| - n
  {
    if n < |kinds| {
      SameAfter(kinds, kinds', n + 1);
    }
  }

  /** A line inside a fence does not contribute to the blocks: replacing it
      by any line that does not close the fence changes nothing. */
  lemma {:induction false} FencedLineDoesNotContribute(lines: seq<String>, lines': seq<String>, k: nat, minWords: int)
    requires |lines| == |lines'| && k < |lines|
    requires forall j :: 0 <= j < |lines| && j != k ==> lines[j] == lines'[j]
    requires Scan(ClassifyAll(lines), k).fence.Some?
    requires FenceAt(lines[k]) != Scan(ClassifyAll(lines), k).fence
    requires FenceAt(lines'[k]) != Scan(ClassifyAll(lines), k).fence
    ensures ExtractLines(lines, minWords) == ExtractLines(lines', minWords)
  {
    var kinds, kinds' := ClassifyAll(lines), ClassifyAll(lines');
    forall j | 0 <= j < |kinds| && j != k
      ensures kinds[j] == kinds'[j]
    {
      ClassifyAllAt(lines, j);
      ClassifyAllAt(lines', j);
    }
    ClassifyAllAt(lines, k);
    ClassifyAllAt(lines', k);
    ClassifyFacts(lines[k]);
    ClassifyFacts(lines'[k]);
    FencedKindDoesNotContribute(kinds, kinds', k, minWords);
  }

  /** The same on classified lines: a kind that does not close the open
      fence can be replaced by another such kind. */
  lemma {:induction false} FencedKindDoesNotContribute(kinds: seq<LineKind>, kinds': seq<LineKind>, k: nat, minWords: int)
    requires |kinds| == |kinds'| && k < |kinds|
    requires forall j :: 0 <= j < |kinds| && j != k ==> kinds[j] == kinds'[j]
    requires Scan(kinds, k).fence.Some?
    requires kinds[k] != FenceLine(Scan(kinds, k).fence.value)
    requires kinds'[k] != FenceLine(Scan(kinds, k).fence.value)
    ensures ExtractKinds(kinds, minWords) == ExtractKinds(kinds', minWords)
  {
    ScanAgrees(kinds, kinds', k);
    var st := Scan(kinds, k);
    FencedLineIgnored(st, kinds[k]);
    FencedLineIgnored(st, kinds'[k]);
    assert Scan(kinds, k + 1) == Scan(kinds', k + 1);
    assert forall j :: k + 1 <= j < |kinds| ==> kinds[j] == kinds'[j];
    SameAfter(kinds, kinds', k + 1);
    var end, end' := Scan(kinds, |kinds|), Scan(kinds', |kinds'|);
    assert Flush(end).flushed == Flush(end').flushed;
  }

  /** A fence that no later line closes swallows the rest of the document:
      the blocks are those of the paragraphs flushed before it opened. */
  lemma {:induction false} UnclosedFence(lines: seq<String>, k: nat, minWords: int)
    requires k <= |lines| && Scan(ClassifyAll(lines), k).fence.Some?
    requires forall j :: k <= j < |lines| ==> FenceAt(lines[j]) != Scan(ClassifyAll(lines), k).fence
    ensures ExtractLines(lines, minWords) == Emit(Scan(ClassifyAll(lines), k).flushed, minWords)
  {
    var kinds := ClassifyAll(lines);
    var m := Scan(kinds, k).fence.value;
    ClassifyAllMatches(lines);
    ScanValid(kinds, k);
    forall j | k <= j < |lines| ensures kinds[j] != FenceLine(m) {
      ClassifyAllAt(lines, j);
      ClassifyFacts(lines[j]);
    }
    StaysFenced(kinds, k, |kinds|);
  }

  lemma {:induction false} StaysFenced(kinds: seq<LineKind>, k: nat, n: nat)
    requires k <= n <= |kinds| && Scan(kinds, k).fence.Some?
    requires forall j :: k <= j < n ==> kinds[j] != FenceLine(Scan(kinds, k).fence.value)
    ensures Scan(kinds, n) == Scan(kinds, k)
    decreases n
  {
    if n > k {
      StaysFenced(kinds, k, n - 1);
      FencedLineIgnored(Scan(kinds, k), kinds[n - 1]);
    }
  }

  /** Line `k` is an ordinary paragraph line: outside any fence, and neither
      a fence line, nor a heading, nor blank. */
  predicate PlainLine(kinds: seq<LineKind>, k: nat)
    requires k < |kinds|
  {
    Scan(kinds, k).fence.None? && kinds[k].TextLine?
  }

  /** `p` is a run of consecutive ordinary lines `lines[i..j]`, flushed under
      the heading stack in effect when line `j` is reached. */
  predicate FromLines(p: Pending, lines: seq<String>, kinds: seq<LineKind>)
    requires |kinds| == |lines|
  {
    exists i, j :: 0 <= i < j <= |lines| && p.lines == lines[i..j]
      && p.headings == Scan(kinds, j).headings
      && forall k :: i <= k < j ==> PlainLine(kinds, k)
  }

  /** The block is the cleaning of a run of ordinary lines of the document,
      labelled with the heading path in effect where the run ends, and has
      at least `minWords` words. */
  ghost predicate FromParagraph(b: TextBlock, lines: seq<String>, minWords: int) {
    && |TokenizeWords(b.text)| >= minWords
    && RunOf(b, lines, ClassifyAll(lines), CleanParagraph)
  }

  /** `b` is `clean` applied to a run of consecutive ordinary lines, labelled
      with the heading path in effect where the run ends. */
  ghost predicate RunOf(b: TextBlock, lines: seq<String>, kinds: seq<LineKind>, clean: seq<String> -> String)
    requires |kinds| == |lines|
  {
    exists i, j :: 0 <= i < j <= |lines|
      && b.text == clean(lines[i..j])
      && b.headingPath == HeadingPath(Scan(kinds, j).headings)
      && forall k :: i <= k < j ==> PlainLine(kinds, k)
  }

  /** The paragraph after a step: one more line for an ordinary line outside
      a fence, otherwise empty; at most the old paragraph is flushed. */
  lemma {:induction false} StepParagraph(st: ScanState, kind: LineKind)
    requires Valid(st)
    ensures st.fence.None? && kind.TextLine? ==> Step(st, kind).paragraph == st.paragraph + [kind.line]
    ensures !(st.fence.None? && kind.TextLine?) ==> Step(st, kind).paragraph == []
    ensures Step(st, kind).flushed == st.flushed
      || (st.paragraph != [] && Step(st, kind).flushed == st.flushed + [Pending(st.headings, st.paragraph)])
  {
  }

  /** Where the pending paragraph after `n` lines starts: the run of
      ordinary lines ending at line `n` begins there. */
  ghost function ParagraphStart(kinds: seq<LineKind>, n: nat): (s: nat)
    requires n <= |kinds|
    ensures s <= n
    ensures forall k :: s <= k < n ==> PlainLine(kinds, k)
  {
    if n > 0 && PlainLine(kinds, n - 1) then ParagraphStart(kinds, n - 1) else n
  }

  /** The pending paragraph is the run of ordinary lines that ends at line `n`. */
  lemma {:induction false} ScanParagraph(lines: seq<String>, kinds: seq<LineKind>, n: nat)
    requires Matches(lines, kinds) && n <= |kinds|
    ensures Scan(kinds, n).paragraph == lines[ParagraphStart(kinds, n)..n]
  {
    if n > 0 {
      var st := Scan(kinds, n - 1);
      ScanParagraph(lines, kinds, n - 1);
      ScanValid(kinds, n - 1);
      StepParagraph(st, kinds[n - 1]);
      assert Scan(kinds, n) == Step(st, kinds[n - 1]);
      if PlainLine(kinds, n - 1) {
        var s := ParagraphStart(kinds, n - 1);
        assert ParagraphStart(kinds, n) == s;
        assert kinds[n - 1].line == lines[n - 1];
        assert lines[s..n] == lines[s..n - 1] + [lines[n - 1]];
      } else {
        assert ParagraphStart(kinds, n) == n;
      }
    }
  }

  /** Every flushed paragraph is a run of ordinary lines. */
  lemma {:induction false} ScanShape(lines: seq<String>, kinds: seq<LineKind>, n: nat)
    requires Matches(lines, kinds) && n <= |kinds|
    ensures forall p :: p in Scan(kinds, n).flushed ==> FromLines(p, lines, kinds)
  {
    if n > 0 {
      ScanShape(lines, kinds, n - 1);
      var st := Scan(kinds, n - 1);
      ScanValid(kinds, n - 1);
      StepParagraph(st, kinds[n - 1]);
      if st.paragraph != [] {
        ScanParagraph(lines, kinds, n - 1);
        PendingFromLines(lines, kinds, n - 1);
      }
    }
  }

  /** The paragraph pending when line `n` is reached, once flushed, is a run
      of ordinary lines. */
  lemma {:induction false} PendingFromLines(lines: seq<String>, kinds: seq<LineKind>, n: nat)
    requires Matches(lines, kinds) && n <= |kinds|
    requires Scan(kinds, n).paragraph == lines[ParagraphStart(kinds, n)..n]
    requires Scan(kinds, n).paragraph != []
    ensures FromLines(Pending(Scan(kinds, n).headings, Scan(kinds, n).paragraph), lines, kinds)
  {
    var s := ParagraphStart(kinds, n);
    assert s < n;
    assert forall k :: s <= k < n ==> PlainLine(kinds, k);
  }

  /** Every emitted block comes from one flushed paragraph, `p`. */
  lemma {:induction false} EmitFrom(ps: seq<Pending>, minWords: int, b: TextBlock) returns (p: Pending)
    requires b in Emit(ps, minWords)
    ensures p in ps && b == TextBlock(HeadingPath(p.headings), CleanParagraph(p.lines))
    ensures |TokenizeWords(b.text)| >= minWords
  {
    p := ConcatFrom(ps, (p: Pending) => EmitOne(p, minWords), b);
  }

  /** Every block of a document is the cleaning of a run of ordinary lines
      (no fence line, no line inside a fence, no heading, no blank line),
      carries the heading path in effect where that run ends, has at least
      `minWords` words and is in canonical whitespace form. */
  lemma {:induction false} BlocksAreCleanParagraphs(lines: seq<String>, minWords: int)
    ensures forall b :: b in ExtractLines(lines, minWords) ==>
      FromParagraph(b, lines, minWords) && Canonical(b.text)
  {
    var kinds := ClassifyAll(lines);
    var n := |lines|;
    ClassifyAllMatches(lines);
    ScanShape(lines, kinds, n);
    var st := Scan(kinds, n);
    if st.paragraph != [] {
      ScanParagraph(lines, kinds, n);
      PendingFromLines(lines, kinds, n);
    }
    var ps := Flush(st).flushed;
    assert forall p :: p in ps ==> FromLines(p, lines, kinds);
    forall b | b in ExtractLines(lines, minWords)
      ensures FromParagraph(b, lines, minWords) && Canonical(b.text)
    {
      var p := EmitFrom(ps, minWords, b);
      EmittedFromLines(lines, minWords, p, b);
    }
  }

  /** The block emitted for a run of ordinary lines. */
  lemma {:induction false} EmittedFromLines(lines: seq<String>, minWords: int, p: Pending, b: TextBlock)
    requires FromLines(p, lines, ClassifyAll(lines))
    requires b == TextBlock(HeadingPath(p.headings), CleanParagraph(p.lines))
    requires |TokenizeWords(b.text)| >= minWords
    ensures FromParagraph(b, lines, minWords) && Canonical(b.text)
  {
    RunFromLines(lines, ClassifyAll(lines), p, b, CleanParagraph);
    CleanParagraphCanonical(p.lines);
  }

  lemma {:induction false} RunFromLines(lines: seq<String>, kinds: seq<LineKind>, p: Pending, b: TextBlock,
                                        clean: seq<String> -> String)
    requires |kinds| == |lines|
    requires FromLines(p, lines, kinds)
    requires b == TextBlock(HeadingPath(p.headings), clean(p.lines))
    ensures RunOf(b, lines, kinds, clean)
  {
    var i, j :| 0 <= i < j <= |lines| && p.lines == lines[i..j]
      && p.headings == Scan(kinds, j).headings
      && forall k :: i <= k < j ==> PlainLine(kinds, k);
    assert b.text == clean(lines[i..j]);
  }

  /** The cleaned text of a paragraph is in canonical whitespace form. */
  lemma {:induction false} CleanParagraphCanonical(paragraph: seq<String>)
    ensures Canonical(CleanParagraph(paragraph))
  {
    NormalizeCanonical(StripMarkdownLinks(StripEmphasisAndHtml(StripInlineCode(Strip(Join(paragraph, "\n"))))));
  }

  /** A paragraph without two adjacent backticks yields text with no inline
      code span left in it. */
  lemma {:induction false} CleanParagraphHasNoInlineCode(paragraph: seq<String>)
    requires NoAdjacentBackticks(Strip(Join(paragraph, "\n")))
    ensures !HasInlineCode(CleanParagraph(paragraph))
  {
    var raw := Strip(Join(paragraph, "\n"));
    var a := StripInlineCode(raw);
    var b := StripEmphasisAndHtml(a);
    var c := StripMarkdownLinks(b);
    InlineCodeLeavesOneBacktick(raw);
    EmphasisAndHtmlOnlyRemoves(a);
    MarkdownLinksOnlyRemove(b);
    assert Count('`', b) <= 1;
    assert Count('`', c) <= 1;
    CountNormalize(c);
    assert CleanParagraph(paragraph) == NormalizeWhitespace(c);
    SpanNeedsTwoBackticks(NormalizeWhitespace(c));
  }

  /** `HEADING_RE` recognises every heading written as hashes, whitespace, a
      title and optional trailing whitespace, and captures the title. */
  lemma {:induction false} HeadingRoundTrip(level: nat, gap: String, title: String, trail: String)
    requires 1 <= level <= 6
    requires gap != [] && AllSpace(gap) && AllSpace(trail)
    requires title != [] && !IsSpace(title[0]) && !IsSpace(title[|title| - 1])
    ensures HeadingAt(Repeat('#', level) + gap + (title + trail)) == Some((level, title))
  {
    var line := Repeat('#', level) + gap + (title + trail);
    HeadingLineShape(level, gap, title + trail);
    LStripSpaces(gap, title + trail);
    RStripSpaces(title, trail);
    HeadingOfRest(line, level);
  }

  /** The hashes, then a run of whitespace, then the rest of the line. */
  lemma {:induction false} HeadingLineShape(level: nat, gap: String, tail: String)
    requires gap != [] && AllSpace(gap) && tail != [] && !IsSpace(tail[0])
    ensures var line := Repeat('#', level) + gap + tail;
      && HashRun(line) == level && level < |line| && IsSpace(line[level])
      && line[level..] == gap + tail
  {
    var line := Repeat('#', level) + gap + tail;
    assert line == Repeat('#', level) + (gap + tail);
    HashRunOf(level, gap + tail);
    assert line[level] == gap[0];
  }

  /** A heading line whose title group starts at a non-space character: the
      title is what follows the hashes and the whitespace, right-stripped. */
  lemma {:induction false} HeadingOfRest(line: String, k: nat)
    requires 1 <= k <= 6 && HashRun(line) == k && k < |line| && IsSpace(line[k])
    requires LStrip(line[k..]) != []
    ensures HeadingAt(line) == Some((k, RStrip(LStrip(line[k..]))))
  {
    var rest := line[k..];
    var m := |rest| - |LStrip(rest)|;
    assert m < |rest|;
    assert rest[m..] == LStrip(rest);
    assert HeadingAt(line) == Some((k, RStrip(rest[m..])));
  }

  lemma {:induction false} HashRunOf(level: nat, s: String)
    requires s == [] || s[0] != '#'
    ensures HashRun(Repeat('#', level) + s) == level
  {
    if level > 0 {
      assert (Repeat('#', level) + s)[1..] == Repeat('#', level - 1) + s;
      HashRunOf(level - 1, s);
    }
  }

  lemma {:induction false} LStripSpaces(w: String, s: String)
    requires AllSpace(w) && s != [] && !IsSpace(s[0])
    ensures LStrip(w + s) == s
  {
    if w != [] {
      assert (w + s)[1..] == w[1..] + s;
      LStripSpaces(w[1..], s);
    }
  }

  lemma {:induction false} RStripSpaces(s: String, w: String)
    requires AllSpace(w) && s != [] && !IsSpace(s[|s| - 1])
    ensures RStrip(s + w) == s
    decreases |w|
  {
    if w != [] {
      assert (s + w)[..|s + w| - 1] == s + w[..|w| - 1];
      RStripSpaces(s, w[..|w| - 1]);
    } else {
      assert s + w == s;
    }
  }
}
