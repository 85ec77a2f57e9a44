# Near-duplicate prose detector, modelled in Dafny

This project models the core of `find_duplicate_wording.py`, a tool that
finds paragraphs of Markdown documentation that say nearly the same thing.
The pipeline has three stages.

- **Extraction.** Each document is split into lines. Fenced code blocks
  (```` ``` ```` or `~~~`) are skipped, and the heading path (`"# A > ## B"`)
  is tracked. Every paragraph is cleaned of inline code, links,
  angle-bracket URLs, HTML emphasis tags and emphasis markers, and its
  whitespace is normalised. Paragraphs with too few words are dropped.
- **Blocks.** A paragraph that looks like code, or that has too few content
  words (words that are not stop words), is discarded. The rest become
  blocks. Each block carries the set of its content words and a 64-bit
  SimHash fingerprint of them.
- **Matching.** Pairs of blocks whose Jaccard score reaches a threshold are
  reported. There are two modes:
  - brute force compares every pair;
  - LSH mode splits each fingerprint into bands and compares only blocks
    that share a band bucket. A bucket is cut at 300 entries, and each pair
    is compared once.

  Either way, the results are sorted best first (the sort is stable) and cut
  to `max_pairs`.

## Modules

| module | contents |
|---|---|
| `Wrappers` | `Option` and `Result`. |
| `Text` | Whitespace classes, `strip`, the `\S+` fields, `normalize_whitespace` and `str.splitlines`. |
| `Words` | `WORD_RE` tokenisation, stop words, `content_words` and `jaccard`. |
| `CodeFilter` | `looks_like_code`. Its ratio tests use integer cross-multiplication. |
| `Markup` | The regular-expression cleaners, each written as a left-to-right scanner. |
| `Fingerprint` | The SimHash votes, the imperative `simhash64` and `band_buckets`. |
| `Extraction` | `extract_text_blocks`. Its loop is a method, proved against the fold `Scan` of a per-line function `Step`. |
| `Blocks` | `build_blocks` over a list of (path, contents) documents. |
| `Ranking` | The stable descending sort and Python's `[:max_pairs]`. |
| `Duplicates` | Both modes of `find_near_duplicates`: the bucket dictionary in insertion order, the scan with `seen_pairs`, and what they find. |

The token hash `_hash64` (eight bytes of SHA-1) is a parameter, `hash`, of
every member that needs it. Scores are exact reals.

## Model

| member | source | states |
|---|---|---|
| Text.Strip | src/content/find_duplicate_wording.py:31-32 | `str.strip()`: the result has no whitespace at either end, is no longer than the input, and is empty exactly when the input is all whitespace |
| Text.StripIsSlice | src/content/find_duplicate_wording.py:31-32 | what `strip` keeps is a contiguous part of its input, with only whitespace before it and only whitespace after it |
| Text.CollapseSpaces | src/content/find_duplicate_wording.py:31-32 | `re.sub(r"\s+", " ", s)`: empty only for empty input; every whitespace character left is a plain space; no two whitespace characters are adjacent |
| Text.NormalizeWhitespace | src/content/find_duplicate_wording.py:31-32 | defines `normalize_whitespace` as `strip` after the `\s+` collapse; its partners are the lemmas below, with NormalizeIsJoinedFields as the independent reference |
| Text.NormalizeCanonical | src/content/find_duplicate_wording.py:31-32 | normalised text is canonical: trimmed, single plain spaces only |
| Text.CountNormalize | src/content/find_duplicate_wording.py:31-32 | normalising keeps every non-whitespace character exactly as often as it occurs |
| Text.NormalizeIsJoinedFields | src/content/find_duplicate_wording.py:31-32 | `normalize_whitespace(s)` equals `" ".join(re.findall(r"\S+", s))` |
| Text.CanonicalIsJoin | src/content/find_duplicate_wording.py:31-32 | a canonical string is the single-space join of its fields |
| Text.NormalizeIdempotent | src/content/find_duplicate_wording.py:31-32 | normalising twice gives the same text as normalising once |
| Text.FieldsCollapse | src/content/find_duplicate_wording.py:31-32 | collapsing whitespace does not change the `\S+` fields |
| Text.FieldsStrip | src/content/find_duplicate_wording.py:31-32 | stripping does not change the `\S+` fields |
| Text.CountStrip | src/content/find_duplicate_wording.py:31-32 | stripping keeps every non-whitespace character's count |
| Text.Fields | src/content/find_duplicate_wording.py:64 | `re.findall(r"\S+", s)`: every field is non-empty and free of whitespace |
| Text.SplitLines | src/content/find_duplicate_wording.py:114 | `md.splitlines()`: no line contains a line boundary, and there are no lines exactly when the text is empty |
| Text.SplitTerminated | src/content/find_duplicate_wording.py:114 | round trip: splitting lines each terminated by "\n" gives those lines back |
| Words.WordAt | src/content/find_duplicate_wording.py:23 | the `WORD_RE` match at the start of a string is a whole word (a letter, then letters or apostrophes, length at least 2) and is maximal |
| Words.TokenizeWords | src/content/find_duplicate_wording.py:42-43 | every token is lower case, at least two characters long, starts with a letter and continues with letters or apostrophes |
| Words.TokenizeSeparated | src/content/find_duplicate_wording.py:42-43 | a space separates: the tokens of `a + " " + b` are those of `a` followed by those of `b` |
| Words.WordIsOneToken | src/content/find_duplicate_wording.py:42-43 | a whole word tokenizes to exactly its lower-cased self |
| Words.TokenizeJoinedWords | src/content/find_duplicate_wording.py:42-43 | words joined by single spaces tokenize to those words lower-cased, in order |
| Words.ContentWords | src/content/find_duplicate_wording.py:45-46 | the result has no stop word, keeps every other token as often as it occurs, and is an in-order subsequence of the input |
| Words.Jaccard | src/content/find_duplicate_wording.py:48-55 | the score lies in [0, 1]; it is 1 if and only if the sets are equal; two empty sets score 1; exactly one empty set scores 0 |
| Words.JaccardSymmetric | src/content/find_duplicate_wording.py:48-55 | the score does not depend on the order of the arguments |
| CodeFilter.LooksLikeCode | src/content/find_duplicate_wording.py:57-87 | whitespace-only text is code; 6 or more backticks make code; 8 or more pipes make code (the exact verdict is LooksLikeCodeIff) |
| CodeFilter.LooksLikeCodeIff | src/content/find_duplicate_wording.py:57-87 | a block is code if and only if it is all whitespace, or fewer than 55% of its tokens hold a letter, or it has 6 backticks, or 8 pipes, or more than 12% of its tokens have 25 characters or more, or it has a code hint and fewer than 72% of its tokens hold a letter; every test is stated on the block as given, not on its stripped form |
| CodeFilter.HasCodeHintFrom | src/content/find_duplicate_wording.py:27-29 | `CODEY_CHARS_RE.search` from an index: a code character, an operator, or a keyword with a word boundary on each side; what it recognises is stated by the three lemmas below |
| CodeFilter.HintSomewhere | src/content/find_duplicate_wording.py:61 | search semantics: there is a hint exactly when the pattern matches at some position, so any of `{}[]();<>` anywhere is a hint |
| CodeFilter.KeywordBoundaries | src/content/find_duplicate_wording.py:27-29 | a keyword counts only between word boundaries: "my class" has a hint, "classic" has none |
| CodeFilter.HintStrip | src/content/find_duplicate_wording.py:58-61 | stripping the block first does not change whether there is a code hint |
| CodeFilter.ProseIsNotCode | src/content/find_duplicate_wording.py:57-87 | text whose tokens all hold a letter and are shorter than 25 characters, with fewer than 6 backticks and 8 pipes, is never code, whatever brackets or keywords it contains |
| CodeFilter.ProseVerdict | src/content/find_duplicate_wording.py:68-87 | with every token alphabetic and none long, no later test can fire, with or without a code hint |
| CodeFilter.MostlySymbolsIsCode | src/content/find_duplicate_wording.py:68-73 | when fewer than 55 of every 100 tokens hold a letter, the block is code |
| Markup.StripInlineCode | src/content/find_duplicate_wording.py:34-35 | the inline-code substitution (a backtick, one or more other characters, a backtick) as a left-to-right scanner that replaces each span by one space and resumes after it; its properties are the lemmas below |
| Markup.InlineCodeOnlyRemoves | src/content/find_duplicate_wording.py:34-35 | removing inline code never adds a character other than a space |
| Markup.InlineCodeIdentity | src/content/find_duplicate_wording.py:34-35 | text without a code span passes through unchanged |
| Markup.InlineCodeSpan | src/content/find_duplicate_wording.py:34-35 | a span `` `code` `` becomes one space and scanning resumes after it |
| Markup.InlineCodeLeavesOneBacktick | src/content/find_duplicate_wording.py:34-35 | without two adjacent backticks, at most one backtick survives |
| Markup.SpanNeedsTwoBackticks | src/content/find_duplicate_wording.py:34-35 | text containing a code span has at least two backticks |
| Markup.InlineCodeCanSurvive | src/content/find_duplicate_wording.py:34-35 | one pass can leave a span: "``a`b`" becomes "` b`", which still contains inline code |
| Markup.StripLinkSyntax | src/content/find_duplicate_wording.py:38 | `re.sub(r"\[([^\]]+)\]\([^)]+\)", r"\1", s)` as a scanner that replaces each link by its text and resumes after it; its properties are the lemmas below |
| Markup.LinkKeepsText | src/content/find_duplicate_wording.py:38 | a link `[text](url)` is replaced by its text and scanning resumes after it |
| Markup.LinkSyntaxOnlyRemoves | src/content/find_duplicate_wording.py:38 | link removal adds no character other than a space, and text without '[' is unchanged |
| Markup.StripUrls | src/content/find_duplicate_wording.py:39 | `re.sub(r"<https?://[^>]+>", " ", s)` as a scanner that replaces each angle-bracket URL by one space; UrlBecomesSpace and UrlsOnlyRemove state its properties |
| Markup.UrlBecomesSpace | src/content/find_duplicate_wording.py:39 | a bare `<http://…>` or `<https://…>` URL with a non-empty body free of '>' becomes one space, and scanning resumes after the closing '>' |
| Markup.UrlsOnlyRemove | src/content/find_duplicate_wording.py:39 | URL removal adds no character other than a space, and text without '<' is unchanged |
| Markup.StripMarkdownLinks | src/content/find_duplicate_wording.py:37-40 | `strip_markdown_links`: the link substitution, then the URL substitution; LinkKeepsText, MarkdownUrlBecomesSpace and MarkdownLinksOnlyRemove state its properties |
| Markup.MarkdownUrlBecomesSpace | src/content/find_duplicate_wording.py:37-40 | outside any link, `strip_markdown_links` turns a bare angle-bracket URL into one space: the link substitution leaves it alone and the URL substitution replaces it |
| Markup.MarkdownLinksOnlyRemove | src/content/find_duplicate_wording.py:37-40 | link cleaning adds no character other than a space, and text with neither '[' nor '<' is unchanged |
| Markup.StripHtmlEmphasis | src/content/find_duplicate_wording.py:105 | the case-insensitive `</?(i\|em\|strong\|b)>` substitution as a scanner that replaces each tag by one space; its properties are the lemmas below |
| Markup.HtmlTagBecomesSpace | src/content/find_duplicate_wording.py:105 | an opening or closing `i`, `em`, `strong` or `b` tag, in any letter case, becomes one space |
| Markup.HtmlEmphasisOnlyRemoves | src/content/find_duplicate_wording.py:105 | tag removal adds no character other than a space |
| Markup.HtmlEmphasisKeepsBackticks | src/content/find_duplicate_wording.py:105 | tag removal keeps every backtick |
| Markup.HtmlEmphasisIdentity | src/content/find_duplicate_wording.py:105 | text without '<' is unchanged |
| Markup.StripEmphasisMarkers | src/content/find_duplicate_wording.py:109 | the `(\*\*\|\*\|__\|_)` substitution, alternatives tried in that order, as a scanner that replaces each marker by one space; MarkerBecomesSpace, NonMarkerKept, EmphasisIdentity, EmphasisMarkersRemoved and EmphasisMarkersKeepOthers state its properties |
| Markup.MarkerBecomesSpace | src/content/find_duplicate_wording.py:107-109 | "**" or "__" becomes one space, and so does a lone '*' or '_' not followed by the same marker; scanning resumes after the marker |
| Markup.NonMarkerKept | src/content/find_duplicate_wording.py:109 | a character other than '*' or '_' passes through in place |
| Markup.EmphasisIdentity | src/content/find_duplicate_wording.py:109 | text without '*' or '_' is unchanged |
| Markup.MarkerSeparatesWords | src/content/find_duplicate_wording.py:107-109 | words joined by a marker are kept apart: "foo_bar" becomes "foo bar" |
| Markup.EmphasisMarkersRemoved | src/content/find_duplicate_wording.py:109 | no '*' or '_' survives |
| Markup.EmphasisMarkersKeepOthers | src/content/find_duplicate_wording.py:109 | every character other than a space, '*' or '_' keeps its count |
| Markup.StripEmphasisAndHtml | src/content/find_duplicate_wording.py:103-111 | `strip_emphasis_and_html`: the tag substitution, then the marker substitution; HtmlTagBecomesSpace, EmphasisAndHtmlMarker and EmphasisAndHtmlOnlyRemoves state its properties |
| Markup.EmphasisAndHtmlMarker | src/content/find_duplicate_wording.py:103-111 | in text without tags or other markers, a marker becomes one space and the text on both sides stays in place |
| Markup.EmphasisAndHtmlOnlyRemoves | src/content/find_duplicate_wording.py:103-111 | emphasis cleaning adds no character other than a space, leaves no '*' or '_', and keeps every backtick |
| Fingerprint.OrBitBit | src/content/find_duplicate_wording.py:192-193 | `x \| (1 << i)` sets bit `i` and leaves every other bit unchanged |
| Fingerprint.SimHash | src/content/find_duplicate_wording.py:182-194 | the SimHash as a function of the tokens, the majority vote per bit; SimHashBits and SimHashPermutation state its properties, and the method SimHash64 is proved equal to it |
| Fingerprint.SimHash64 | src/content/find_duplicate_wording.py:182-194 | the 64-counter loop computes the SimHash: bit `i` of the result is set if and only if more tokens have bit `i` in their hash than do not |
| Fingerprint.SimHashBits | src/content/find_duplicate_wording.py:182-194 | majority vote: bit `i` of the fingerprint is set if and only if the vote on bit `i` is positive |
| Fingerprint.SimHashOfNothing | src/content/find_duplicate_wording.py:183-184 | no tokens give the fingerprint 0 |
| Fingerprint.VoteAppend | src/content/find_duplicate_wording.py:186-189 | the vote over concatenated token lists is the sum of their votes |
| Fingerprint.VotePermutation | src/content/find_duplicate_wording.py:186-189 | votes depend only on how often each token occurs |
| Fingerprint.SimHashPermutation | src/content/find_duplicate_wording.py:182-194 | reordering the tokens does not change the fingerprint |
| Fingerprint.BandBuckets | src/content/find_duplicate_wording.py:196-201 | succeeds if and only if `bands > 0` and `bands` divides 64; `bands == 0` is the division-by-zero failure; on success there are `bands` keys, key `b` has band `b` and a value below `2 ** (64 / bands)` |
| Fingerprint.NegativeBandsFail | src/content/find_duplicate_wording.py:197-200 | a negative `bands` that passes Python's `%` test gives a negative width; for positive `bands`, Python's `%` and `//` agree with Dafny's |
| Fingerprint.BandsReassemble | src/content/find_duplicate_wording.py:196-201 | round trip: the band values of a 64-bit fingerprint, weighted by `2 ** (b * width)`, add back up to it |
| Fingerprint.AssembleAllBands | src/content/find_duplicate_wording.py:200-201 | all the bands put back together give `h` modulo `2 ** (bands * width)` |
| Fingerprint.SameBandsSameHash | src/content/find_duplicate_wording.py:196-201 | two 64-bit fingerprints have the same band keys if and only if they are equal |
| Extraction.HeadingAt | src/content/find_duplicate_wording.py:24 | a `HEADING_RE` match has 1 to 6 hashes followed by whitespace, and a non-empty title |
| Extraction.HeadingRoundTrip | src/content/find_duplicate_wording.py:24 | hashes, whitespace, a trimmed title and trailing whitespace are recognised with that level and exactly that title |
| Extraction.HeadingOfRest | src/content/find_duplicate_wording.py:24 | when text follows the whitespace, the title is that text right-stripped |
| Extraction.PopHeadings | src/content/find_duplicate_wording.py:164-165 | the pop loop keeps a prefix of the stack, removes only entries of level at least `level`, and stops at a lower entry |
| Extraction.PushHeading | src/content/find_duplicate_wording.py:164-166 | the stack after the pop loop and the push is the kept prefix plus the new entry |
| Extraction.HeadingLineStep | src/content/find_duplicate_wording.py:158-167 | a heading flushes the paragraph, pops exactly the entries of level at least its own, pushes itself, and keeps the stack's levels strictly increasing |
| Extraction.FenceAt | src/content/find_duplicate_wording.py:25 | `FENCE_RE.match`: optional leading whitespace, then "```" or "~~~", giving the marker; OpeningFence, ClosingFence and FencedLineIgnored state how it drives the scan |
| Extraction.Classify | src/content/find_duplicate_wording.py:140-173 | the test of the loop body a line meets first (fence line, heading, blank line, ordinary line); ClassifyCases and ClassifyUnfenced state the order |
| Extraction.Step | src/content/find_duplicate_wording.py:140-173 | one iteration of the loop over the lines on the state (fence, heading stack, paragraph, pending flushes); ScanLine proves the method's loop body equal to it, and the lemmas below state what it does per kind of line |
| Extraction.ClassifyAllAt | src/content/find_duplicate_wording.py:140-173 | each line is classified on its own, independently of the others |
| Extraction.ClassifyCases | src/content/find_duplicate_wording.py:140-171 | a line is classified as a fence line first, then as a heading, then as a blank line |
| Extraction.ClassifyUnfenced | src/content/find_duplicate_wording.py:158-171 | a line that is not a fence line is a heading, a blank line, or an ordinary line carrying itself |
| Extraction.MakeEntry | src/content/find_duplicate_wording.py:161-166 | the stack entry is the level's hashes, a space and the normalised title |
| Extraction.CleanParagraph | src/content/find_duplicate_wording.py:130-134 | the cleaning `flush_paragraph` applies: join with newlines, strip, remove inline code, emphasis and HTML, then links, then normalise; CleanParagraphCanonical and CleanAndCount state its properties |
| Extraction.CleanAndCount | src/content/find_duplicate_wording.py:130-138 | a paragraph's lines are joined, stripped, cleaned and normalised, and yield their block exactly when it has at least `min_words` words |
| Extraction.FlushParagraph | src/content/find_duplicate_wording.py:126-138 | a non-empty paragraph is handed on with the current stack and emptied; the blocks are those of the paragraphs handed on so far |
| Extraction.FenceStep | src/content/find_duplicate_wording.py:141-153 | a fence line opens a fence (flushing) when none is open, closes a fence of the same marker, and is ignored inside a fence of the other marker |
| Extraction.HeadingStep | src/content/find_duplicate_wording.py:158-167 | outside a fence, a heading line updates the state as `Step` does: the paragraph is flushed and emptied, and the stack becomes the kept prefix plus the new entry |
| Extraction.BlankStep | src/content/find_duplicate_wording.py:169-171 | outside a fence, a blank line flushes the paragraph and leaves it empty |
| Extraction.UnfencedLine | src/content/find_duplicate_wording.py:158-173 | outside a fence, a heading, blank or ordinary line updates the state as `Step` does; only an ordinary line extends the paragraph, and any other line leaves it empty |
| Extraction.ScanLine | src/content/find_duplicate_wording.py:140-173 | one pass of the loop body is one `Step`, and the blocks emitted stay those of the paragraphs flushed so far |
| Extraction.ExtractTextBlocks | src/content/find_duplicate_wording.py:113-176 | the loop returns the blocks of the fold over the lines; every block is the cleaning of a run of ordinary lines, has enough words, and is in canonical whitespace form |
| Extraction.ScanValid | src/content/find_duplicate_wording.py:140-173 | after any number of lines, heading levels lie in 1..6 and strictly increase, and an open fence has no paragraph pending |
| Extraction.FencedLineIgnored | src/content/find_duplicate_wording.py:148-156 | inside a fence, every line except a fence line of the same marker leaves the state unchanged; the other marker does not close it |
| Extraction.ClosingFence | src/content/find_duplicate_wording.py:148-152 | a fence line of the same marker closes the fence and changes nothing else |
| Extraction.OpeningFence | src/content/find_duplicate_wording.py:143-147 | a fence line outside a fence opens it and flushes the paragraph |
| Extraction.FencedLineDoesNotContribute | src/content/find_duplicate_wording.py:140-176 | replacing a line inside a fence by any line that does not close the fence leaves the blocks unchanged |
| Extraction.UnclosedFence | src/content/find_duplicate_wording.py:140-176 | a fence no later line closes swallows the rest of the document: only the paragraphs flushed before it give blocks |
| Extraction.ScanParagraph | src/content/find_duplicate_wording.py:140-173 | the pending paragraph is exactly the run of consecutive ordinary lines that ends at the current line |
| Extraction.ScanShape | src/content/find_duplicate_wording.py:126-173 | every flushed paragraph is a run of consecutive ordinary lines with the heading stack in effect where the run ends |
| Extraction.EmitFrom | src/content/find_duplicate_wording.py:133-138 | every emitted block is the cleaned text of one flushed paragraph, under its heading path, and has at least `min_words` words |
| Extraction.BlocksAreCleanParagraphs | src/content/find_duplicate_wording.py:113-176 | every block is the cleaning of a run of ordinary lines (not a fence line, not fenced, not a heading, not blank) under the heading path where that run ends, with at least `min_words` words and canonical whitespace |
| Extraction.CleanParagraphCanonical | src/content/find_duplicate_wording.py:130-134 | cleaned paragraph text is trimmed and uses single spaces |
| Extraction.CleanParagraphHasNoInlineCode | src/content/find_duplicate_wording.py:130-134 | a paragraph without two adjacent backticks leaves no inline code span in its cleaned text |
| Blocks.BlockOf | src/content/find_duplicate_wording.py:213-228 | a text block gives a block if and only if it is not code-like and has at least `min_words` content words; the block keeps the path, heading path and text |
| Blocks.BuildBlock | src/content/find_duplicate_wording.py:213-228 | the inner loop body computes `BlockOf` |
| Blocks.FileBlocks | src/content/find_duplicate_wording.py:205-228 | one pass of the outer loop yields the kept blocks of the file's text blocks, in order |
| Blocks.BuildBlocks | src/content/find_duplicate_wording.py:203-229 | the blocks of all files in walk order; each is not code, has enough content words, and carries the set and SimHash of those words; its text is canonical and its path names one of the files |
| Blocks.KeptBlocksFacts | src/content/find_duplicate_wording.py:213-228 | a kept block is well formed, names its file, and has the text and heading path of one of the file's text blocks |
| Blocks.AllBlocksWellFormed | src/content/find_duplicate_wording.py:203-229 | every block is well formed, canonical, and names one of the files |
| Ranking.SortDesc | src/content/find_duplicate_wording.py:266 | the sort is a permutation of its input |
| Ranking.SortDescSorted | src/content/find_duplicate_wording.py:266 | the sort orders by score, highest first |
| Ranking.SortDescStable | src/content/find_duplicate_wording.py:266 | the sort is stable: the matches of each score keep their order |
| Ranking.PySlicePrefix | src/content/find_duplicate_wording.py:267 | `s[:n]` is a prefix; a non-negative `n` keeps `min(n, len)` items, and a negative `n` drops `-n` items from the end |
| Ranking.Rank | src/content/find_duplicate_wording.py:266-267 | sort then cap: sorted best first, a sub-multiset of the results, and `min(max_pairs, len)` long for non-negative `max_pairs` |
| Ranking.RankKeepsBest | src/content/find_duplicate_wording.py:266-267 | a match cut off scores no more than any match kept |
| Duplicates.Compare | src/content/find_duplicate_wording.py:257-263 | one comparison finds nothing or the pair with its score, and for `a < b` it finds it if and only if the match is valid |
| Duplicates.ComparerValid | src/content/find_duplicate_wording.py:257-263 | a match is found for an ordered pair exactly when it is valid: true score, at least the threshold, and different files unless `same_file` |
| Duplicates.CompareRow | src/content/find_duplicate_wording.py:254-263 | the inner loop appends the row of block `i` against every later block |
| Duplicates.BruteForce | src/content/find_duplicate_wording.py:249-267 | brute force mode ranks the candidates of every pair `i < j` |
| Duplicates.BruteRowHas | src/content/find_duplicate_wording.py:254-263 | row `i` holds exactly the matches found for `i` and a later block |
| Duplicates.BruteForceExact | src/content/find_duplicate_wording.py:249-263 | brute force finds every valid match and nothing else, and each pair at most once |
| Duplicates.KeysOf | src/content/find_duplicate_wording.py:272 | a block has `bands` keys when `bands` is valid, and no key twice |
| Duplicates.AddBlockKeys | src/content/find_duplicate_wording.py:272-273 | the inner loop appends `i` to the bucket of each key, creating new buckets at the end of the insertion order |
| Duplicates.AddKeysEffect | src/content/find_duplicate_wording.py:272-273 | after adding block `i`, a key has a bucket exactly when it had one or is a key of `i`, and `i` is appended to exactly the buckets of its keys |
| Duplicates.BuildBuckets | src/content/find_duplicate_wording.py:270-273 | the bucket loop fails on the first block when `band_buckets` raises, and otherwise builds the dictionary of all blocks |
| Duplicates.BucketingWellBucketed | src/content/find_duplicate_wording.py:270-273 | the insertion order lists exactly the dictionary's keys, and each bucket holds increasing block indices |
| Duplicates.BucketingMembers | src/content/find_duplicate_wording.py:270-273 | each bucket holds exactly the blocks that have its key, in index order, and a key has a bucket exactly when some block has it |
| Duplicates.Capped | src/content/find_duplicate_wording.py:281-282 | a bucket longer than 300 is cut to its first 300 entries; shorter ones are kept whole |
| Duplicates.VisitPair | src/content/find_duplicate_wording.py:285-299 | a seen pair is skipped; otherwise it is marked seen before the same-file test, then kept when it reaches the threshold |
| Duplicates.ScanPairs | src/content/find_duplicate_wording.py:284-299 | the two nested loops visit every pair of entries `i < j` of the bucket in order |
| Duplicates.ScanBucket | src/content/find_duplicate_wording.py:277-299 | buckets with fewer than two entries are skipped and longer ones are cut at 300 |
| Duplicates.SimHashMode | src/content/find_duplicate_wording.py:269-302 | LSH mode fails exactly when the input is non-empty and `bands` is invalid; otherwise it ranks the scan's results |
| Duplicates.VisitKeeps | src/content/find_duplicate_wording.py:285-299 | one visit keeps the scan invariant (results are exactly the valid matches of seen pairs, none twice) and marks its pair seen |
| Duplicates.VisitBucketKeeps | src/content/find_duplicate_wording.py:277-299 | a bucket keeps the invariant, and every pair of its first 300 entries is seen |
| Duplicates.LshScanKeeps | src/content/find_duplicate_wording.py:275-299 | the scan ends in a state satisfying its invariant |
| Duplicates.LshWithinBruteForce | src/content/find_duplicate_wording.py:275-299 | LSH mode reports only valid matches, each pair once, and a subset of what brute force finds |
| Duplicates.SharedBucketMeets | src/content/find_duplicate_wording.py:270-299 | blocks `a < b` with a shared key are compared, and reported when valid, if `b` is among the first 300 blocks of that bucket |
| Duplicates.SameFingerprintMeets | src/content/find_duplicate_wording.py:270-299 | recall: blocks with equal fingerprints among the first 300 blocks are always compared, and reported when their match is valid |
| Duplicates.RankKeepsValid | src/content/find_duplicate_wording.py:301-302 | ranking keeps matches valid and pairs distinct |
| Duplicates.NearDuplicates | src/content/find_duplicate_wording.py:232-302 | `find_near_duplicates` as a function of its inputs: brute force or LSH, a `Failure` when `band_buckets` raises; FindNearDuplicates, BruteForceExact and LshWithinBruteForce state its properties |
| Duplicates.FindNearDuplicates | src/content/find_duplicate_wording.py:232-302 | fails only in LSH mode on non-empty input with an invalid `bands`; otherwise every match is valid, sorted best first, no pair twice, and at most `max_pairs` of them |

## Left out

- Walking the directory tree, opening files, and the UTF-8 then latin-1 decoding fallback (`iter_markdown_files` and the `open` calls of `build_blocks`) are I/O. The documents are given as (path, contents) pairs in walk order.
- `_hash64` (SHA-1) is a parameter of type `String -> U64`. No hash function is modelled.
- `short_snippet`, `debug_top_matches`, `run_cli` and the command-line and reporting code are presentation, not logic.
- Floating-point scores are exact reals. Thresholds are compared exactly, and `looks_like_code`'s ratios are cross-multiplied integers, which agree with the floats for these small counts.
- Whitespace is modelled as exactly six characters: space, tab, newline, carriage return, vertical tab and form feed. Python's `\s` and `str.strip()` also match the ASCII separators `\x1c` to `\x1f`, `\x85` and the other Unicode whitespace; these are not modelled, so for instance the source normalises "a\x1fb" to "a b" while the model leaves it unchanged. Letters and `\w` are ASCII only, and `str.lower` on non-ASCII text is not modelled.
- Markup.StripHtmlEmphasis: letter case is folded over ASCII only. The source's `re.IGNORECASE` on a Unicode pattern also matches `ı` (U+0131) and `İ` (U+0130) for `i`, and `ſ` (U+017F) for `s`, so it removes `<ı>` or `<ſtrong>`; the model keeps them.
- Matches are `(first, second, score)` with indices into `blocks`, not the `(Block, Block, float)` triples of the source. `blocks[first]` and `blocks[second]` give the source's triple.
- `extract_text_blocks`' `file_path` parameter is unused in the source, and is carried but unused here.
- Extraction.CleanParagraphHasNoInlineCode: holds only for paragraphs without two adjacent backticks. In general a single `re.sub` pass can leave a span behind, as Markup.InlineCodeCanSurvive shows.
- Duplicates.SameFingerprintMeets: requires the later block index to be below 300. This is a sufficient condition for both blocks to be within every shared bucket's first 300 entries; Duplicates.SharedBucketMeets states the exact condition for one bucket.
- Duplicates.BuildBuckets: a `band_buckets` error is raised only when there is a block to bucket, as in the source. An empty block list never calls `band_buckets`, so LSH mode then returns an empty result for any `bands`.
