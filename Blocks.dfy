/**
 * The comparable blocks of a set of documents (`Block` and `build_blocks`
 * in find_duplicate_wording.py). Walking the directory tree and reading the
 * files is not modelled: the documents arrive as (path, contents) pairs in
 * the order the walk yields them.
 */
module Blocks {
  import opened Wrappers
  import opened Text
  import opened Words
  import opened CodeFilter
  import opened Extraction
  import opened Fingerprint

  /** A Markdown file: its path and its decoded contents. */
  datatype Document = Document(path: String, md: String)

  /** `Block` (find_duplicate_wording.py:89-95). */
  datatype Block = Block(filePath: String, headingPath: String, text: String, tokensSet: set<String>, simhash: U64)

  /** `tokens2` of `build_blocks`: the content words of a block's text. */
  function BlockWords(text: String): seq<String> {
    ContentWords(TokenizeWords(text))
  }

  /** The body of the inner loop of `build_blocks`
      (find_duplicate_wording.py:213-228): code-like text and text with fewer
      than `minWords` content words give no block. */
  function BlockOf(path: String, tb: TextBlock, minWords: int, hash: Hasher): (r: Option<Block>)
    ensures r.Some? <==> !LooksLikeCode(tb.text) && |BlockWords(tb.text)| >= minWords
    ensures r.Some? ==> r.value.filePath == path && r.value.headingPath == tb.headingPath && r.value.text == tb.text
  {
    if LooksLikeCode(tb.text) then None
    else
      var tokens2 := BlockWords(tb.text);
      if |tokens2| < minWords then None
      else Some(Block(path, tb.headingPath, tb.text, (set t | t in tokens2), SimHash(tokens2, hash)))
  }

  /** What every block of `build_blocks` satisfies: not code, enough content
      words, and the token set and fingerprint of those words. */
  predicate WellFormedBlock(b: Block, minWords: int, hash: Hasher) {
    var tokens2 := BlockWords(b.text);
    && !LooksLikeCode(b.text)
    && |tokens2| >= minWords
    && b.tokensSet == (set t | t in tokens2)
    && b.simhash == SimHash(tokens2, hash)
  }

  /** The blocks kept from one file's text blocks, in order. */
  function KeptBlocks(path: String, tbs: seq<TextBlock>, minWords: int, hash: Hasher): seq<Block> {
    if tbs == [] then []
    else
      var last := BlockOf(path, tbs[|tbs| - 1], minWords, hash);
      KeptBlocks(path, tbs[..|tbs| - 1], minWords, hash) + (if last.Some? then [last.value] else [])
  }

  /** The blocks of a file. */
  function DocumentBlocks(doc: Document, minWords: int, hash: Hasher): seq<Block> {
    KeptBlocks(doc.path, ExtractLines(SplitLines(doc.md), minWords), minWords, hash)
  }

  /** `build_blocks(root, min_words)` on the files of the walk, in order. */
  function AllBlocks(docs: seq<Document>, minWords: int, hash: Hasher): seq<Block> {
    if docs == [] then []
    else AllBlocks(docs[..|docs| - 1], minWords, hash) + DocumentBlocks(docs[|docs| - 1], minWords, hash)
  }

  /** `build_blocks` (find_duplicate_wording.py:203-229): a loop over the
      files and, inside it, over their text blocks. */
  method BuildBlocks(docs: seq<Document>, minWords: int, hash: Hasher) returns (out: seq<Block>)
    ensures out == AllBlocks(docs, minWords, hash)
    ensures forall b :: b in out ==> WellFormedBlock(b, minWords, hash) && Canonical(b.text)
    ensures forall b :: b in out ==> exists d :: d in docs && d.path == b.filePath
  {
    out := [];
    for k := 0 to |docs|
      invariant out == AllBlocks(docs[..k], minWords, hash)
    {
      var kept := FileBlocks(docs[k], minWords, hash);
      out := out + kept;
      assert docs[..k + 1][..k] == docs[..k];
    }
    assert docs[..|docs|] == docs;
    AllBlocksWellFormed(docs, minWords, hash);
  }

  /** One pass of the outer loop of `build_blocks`: the blocks of one file. */
  method FileBlocks(doc: Document, minWords: int, hash: Hasher) returns (kept: seq<Block>)
    ensures kept == DocumentBlocks(doc, minWords, hash)
  {
    var tbs := ExtractTextBlocks(doc.md, doc.path, minWords);
    kept := [];
    for m := 0 to |tbs|
      invariant kept == KeptBlocks(doc.path, tbs[..m], minWords, hash)
    {
      var b := BuildBlock(doc.path, tbs[m], minWords, hash);
      KeptSnoc(doc.path, tbs, m, minWords, hash);
      if b.Some? {
        kept := kept + [b.value];
      }
    }
    assert tbs[..|tbs|] == tbs;
  }

  lemma {:induction false} KeptSnoc(path: String, tbs: seq<TextBlock>, m: nat, minWords: int, hash: Hasher)
    requires m < |tbs|
    ensures var b := BlockOf(path, tbs[m], minWords, hash);
      KeptBlocks(path, tbs[..m + 1], minWords, hash)
      == KeptBlocks(path, tbs[..m], minWords, hash) + (if b.Some? then [b.value] else [])
  {
    assert tbs[..m + 1][..m] == tbs[..m];
  }

  /** The body of the inner loop of `build_blocks`
      (find_duplicate_wording.py:213-228) on one text block. */
  method BuildBlock(path: String, tb: TextBlock, minWords: int, hash: Hasher) returns (r: Option<Block>)
    ensures r == BlockOf(path, tb, minWords, hash)
  {
    var heading := tb.headingPath;
    var text := tb.text;
    if LooksLikeCode(text) {
      return None;
    }
    var tokens := TokenizeWords(text);
    var tokens2 := ContentWords(tokens);
    if |tokens2| < minWords {
      return None;
    }
    var sh := SimHash64(tokens2, hash);
    r := Some(Block(path, heading, text, (set t | t in tokens2), sh));
  }

  /** A kept block is well formed, comes from the file it names, and its
      text is one of the file's text blocks. */
  lemma {:induction false} KeptBlocksFacts(path: String, tbs: seq<TextBlock>, minWords: int, hash: Hasher)
    ensures forall b :: b in KeptBlocks(path, tbs, minWords, hash) ==>
      WellFormedBlock(b, minWords, hash) && b.filePath == path
      && exists tb :: tb in tbs && tb.text == b.text && tb.headingPath == b.headingPath
  {
    if tbs != [] {
      var init := tbs[..|tbs| - 1];
      KeptBlocksFacts(path, init, minWords, hash);
      forall tb | tb in init
        ensures tb in tbs
      {
      }
      assert tbs[|tbs| - 1] in tbs;
    }
  }

  /** Every block of `build_blocks` is well formed, its text is in
      canonical form, and it names one of the files. */
  lemma {:induction false} AllBlocksWellFormed(docs: seq<Document>, minWords: int, hash: Hasher)
    ensures forall b :: b in AllBlocks(docs, minWords, hash) ==>
      WellFormedBlock(b, minWords, hash) && Canonical(b.text) && exists d :: d in docs && d.path == b.filePath
  {
    if docs != [] {
      var init := docs[..|docs| - 1];
      var d := docs[|docs| - 1];
      AllBlocksWellFormed(init, minWords, hash);
      forall e | e in init
        ensures e in docs
      {
      }
      var tbs := ExtractLines(SplitLines(d.md), minWords);
      KeptBlocksFacts(d.path, tbs, minWords, hash);
      BlocksAreCleanParagraphs(SplitLines(d.md), minWords);
      assert d in docs;
    }
  }
}
