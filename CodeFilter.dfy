/**
 * The code-likeness heuristics of `looks_like_code`
 * (find_duplicate_wording.py:27-29, 57-87). Every ratio test is an integer
 * cross-multiplication: `alpha / n < 0.55` becomes `alpha * 100 < 55 * n`.
 */
module CodeFilter {
  import opened Text


  predicate IsCodeChar(c: char) {
    c in "{}[]();<>"
  }

  predicate StartsWith(s: String, p: String) {
    |p| <= |s| && s[..|p|] == p
  }

  /** Keyword `kw` at index `i` of `s`, with a `\b` on both sides. */
  predicate KeywordAt(s: String, i: nat, kw: String)
    requires i <= |s|
  {
    && StartsWith(s[i..], kw)
    && (i == 0 || !IsWordChar(s[i - 1]))
    && (i + |kw| == |s| || !IsWordChar(s[i + |kw|]))
  }

  /** The operator alternatives of `CODEY_CHARS_RE`. */
  const Operators: seq<String> := ["==", "!=", "<=", ">=", "->", "=>", "::", "///", "#include"]

  /** The keyword alternatives of `CODEY_CHARS_RE`, each between `\b`s. */
  const Keywords: seq<String> := ["def", "class", "import", "return", "const", "let", "var"]

  /** `CODEY_CHARS_RE` matches at index `i` of `s`: a code character, an
      operator, or a whole keyword. */
  predicate CodeHintAt(s: String, i: nat)
    requires i < |s|
  {
    || IsCodeChar(s[i])
    || (exists op :: op in Operators && StartsWith(s[i..], op))
    || (exists kw :: kw in Keywords && KeywordAt(s, i, kw))
  }

  /** `CODEY_CHARS_RE.search(s)` from index `i` on. */
  predicate HasCodeHintFrom(s: String, i: nat)
    requires i <= |s|
    decreases |s| - i
  {
    i < |s| && (CodeHintAt(s, i) || HasCodeHintFrom(s, i + 1))
  }

  /** `search` semantics: there is a hint from `i` on exactly when the
      pattern matches at some index `k >= i`. In particular any of
      `{}[]();<>` anywhere is a hint. */
  lemma {:induction false} HintSomewhere(s: String, i: nat)
    requires i <= |s|
    ensures HasCodeHintFrom(s, i) <==> exists k :: i <= k < |s| && CodeHintAt(s, k)
    ensures forall k :: i <= k < |s| && IsCodeChar(s[k]) ==> HasCodeHintFrom(s, i)
    decreases |s| - i
  {
    if i < |s| {
      HintSomewhere(s, i + 1);
    }
  }

  /** Every alternative is non-empty and free of whitespace; operators
      open with a character that is not a word character, keywords with a
      letter. */
  lemma {:induction false} Alternatives()
    ensures forall op :: op in Operators ==> op != [] && NoSpace(op) && !IsWordChar(op[0])
    ensures forall kw :: kw in Keywords ==> kw != [] && NoSpace(kw) && IsAsciiLetter(kw[0])
  {
  }

  /** A keyword counts only between word boundaries: "class" on its own is
      a hint, inside "classic" it is not. */
  lemma {:induction false} KeywordBoundaries()
    ensures HasCodeHintFrom("my class", 0)
    ensures !HasCodeHintFrom("classic", 0)
  {
    var s := "my class";
    assert "class" in Keywords;
    assert KeywordAt(s, 3, "class") by { assert s[3..][..5] == "class"; }
    assert CodeHintAt(s, 3);
    HintSomewhere(s, 0);
    var t := "classic";
    forall k | 0 <= k < |t|
      ensures !CodeHintAt(t, k)
    {
      NoHintInWord(t, k);
    }
    HintSomewhere(t, 0);
  }

  /** In "classic" no alternative of the pattern matches at `k`. */
  lemma {:induction false} NoHintInWord(t: String, k: nat)
    requires t == "classic" && k < |t|
    ensures !CodeHintAt(t, k)
  {
    Alternatives();
    assert forall j :: 0 <= j < |t| ==> IsAsciiLetter(t[j]);
    forall kw | kw in Keywords
      ensures !KeywordAt(t, k, kw)
    {
      if k == 0 {
        assert StartsWith(t, kw) ==> t[..|kw|] == kw && kw == "class";
        assert IsWordChar(t[5]);
      } else {
        assert IsWordChar(t[k - 1]);
      }
    }
  }

  /** A pattern without whitespace does not see one trailing whitespace
      character. */
  lemma {:induction false} StartsWithSpaceAfter(u: String, c: char, p: String)
    requires IsSpace(c) && NoSpace(p)
    ensures StartsWith(u + [c], p) == StartsWith(u, p)
  {
    if |p| <= |u| {
      assert (u + [c])[..|p|] == u[..|p|];
    } else if |p| == |u| + 1 {
      assert (u + [c])[..|p|][|u|] == c;
    }
  }

  /** No alternative of the pattern starts with whitespace. */
  lemma {:induction false} NoHintAtSpace(s: String, k: nat)
    requires k < |s| && IsSpace(s[k])
    ensures !CodeHintAt(s, k)
  {
    Alternatives();
  }

  /** A character that is not a word character in front of `t` shifts every
      match by one. */
  lemma {:induction false} CodeHintShift(c: char, t: String, i: nat)
    requires !IsWordChar(c) && i < |t|
    ensures CodeHintAt([c] + t, i + 1) == CodeHintAt(t, i)
  {
    var s := [c] + t;
    assert s[i + 1..] == t[i..];
    assert s[i] == if i == 0 then c else t[i - 1];
    forall kw | kw in Keywords
      ensures KeywordAt(s, i + 1, kw) == KeywordAt(t, i, kw)
    {
      if i + |kw| < |t| {
        assert s[i + 1 + |kw|] == t[i + |kw|];
      }
    }
  }

  lemma {:induction false} HintPrepend(c: char, t: String, i: nat)
    requires !IsWordChar(c) && i <= |t|
    ensures HasCodeHintFrom([c] + t, i + 1) == HasCodeHintFrom(t, i)
    decreases |t| - i
  {
    if i < |t| {
      HintPrepend(c, t, i + 1);
      CodeHintShift(c, t, i);
    }
  }

  /** One whitespace character after `t` adds no match and removes none. */
  lemma {:induction false} CodeHintAppend(t: String, c: char, i: nat)
    requires IsSpace(c) && i < |t|
    ensures CodeHintAt(t + [c], i) == CodeHintAt(t, i)
  {
    var s := t + [c];
    assert s[i..] == t[i..] + [c];
    Alternatives();
    forall p | NoSpace(p)
      ensures StartsWith(s[i..], p) == StartsWith(t[i..], p)
    {
      StartsWithSpaceAfter(t[i..], c, p);
    }
    forall kw | kw in Keywords
      ensures KeywordAt(s, i, kw) == KeywordAt(t, i, kw)
    {
      if i + |kw| < |t| {
        assert s[i + |kw|] == t[i + |kw|];
      } else if i + |kw| == |t| {
        assert s[|t|] == c;
      }
    }
  }

  lemma {:induction false} HintAppend(t: String, c: char, i: nat)
    requires IsSpace(c) && i <= |t|
    ensures HasCodeHintFrom(t + [c], i) == HasCodeHintFrom(t, i)
    decreases |t| - i
  {
    if i < |t| {
      HintAppend(t, c, i + 1);
      CodeHintAppend(t, c, i);
    } else {
      NoHintAtSpace(t + [c], |t|);
    }
  }

  /** A search goes past an index where the pattern does not match. */
  lemma {:induction false} HintSkip(s: String, i: nat)
    requires i < |s| && !CodeHintAt(s, i)
    ensures HasCodeHintFrom(s, i) == HasCodeHintFrom(s, i + 1)
  {
  }

  /** One whitespace character in front of `t` adds no match and removes
      none. */
  lemma {:induction false} HintDropSpace(c: char, t: String)
    requires IsSpace(c)
    ensures HasCodeHintFrom([c] + t, 0) == HasCodeHintFrom(t, 0)
  {
    var s := [c] + t;
    NoHintAtSpace(s, 0);
    HintSkip(s, 0);
    HintPrepend(c, t, 0);
  }

  lemma {:induction false} HintLStrip(s: String)
    ensures HasCodeHintFrom(LStrip(s), 0) == HasCodeHintFrom(s, 0)
    decreases |s|
  {
    if s != [] && IsSpace(s[0]) {
      var t := s[1..];
      HintLStrip(t);
      assert s == [s[0]] + t;
      HintDropSpace(s[0], t);
    }
  }

  lemma {:induction false} HintRStrip(s: String)
    ensures HasCodeHintFrom(RStrip(s), 0) == HasCodeHintFrom(s, 0)
    decreases |s|
  {
    if s != [] && IsSpace(s[|s| - 1]) {
      var t := s[..|s| - 1];
      HintRStrip(t);
      assert s == t + [s[|s| - 1]];
      HintAppend(t, s[|s| - 1], 0);
    }
  }

  /** `looks_like_code` searches the stripped block; stripping changes
      nothing about whether there is a code hint. */
  lemma {:induction false} HintStrip(s: String)
    ensures HasCodeHintFrom(Strip(s), 0) == HasCodeHintFrom(s, 0)
  {
    HintLStrip(s);
    HintRStrip(LStrip(s));
  }

  predicate HasLetter(t: String) {
    exists i :: 0 <= i < |t| && IsAsciiLetter(t[i])
  }

  /** Number of tokens containing an ASCII letter (`alpha`). */
  function AlphaTokens(tokens: seq<String>): (n: nat)
    ensures n <= |tokens|
  {
    if tokens == [] then 0
    else (if HasLetter(tokens[0]) then 1 else 0)
         + AlphaTokens(tokens[1..])
  }

  /** Number of tokens of 25 characters or more (`longish`). */
  function LongTokens(tokens: seq<String>): (n: nat)
    ensures n <= |tokens|
  {
    if tokens == [] then 0
    else (if |tokens[0]| >= 25 then 1 else 0) + LongTokens(tokens[1..])
  }

  function Max(a: int, b: int): int {
    if a >= b then a else b
  }

  /** The ordered tests of `looks_like_code` once the stripped block is
      non-empty: `n` tokens, `alpha` of them holding a letter, `longish` of
      them 25 characters or more. */
  predicate CodeVerdict(n: nat, alpha: nat, backticks: nat, hasPipe: bool, pipes: nat, longish: nat, codeHint: bool) {
    if alpha * 100 < 55 * Max(1, n) then true
    else if backticks >= 6 then true
    else if hasPipe && pipes >= 8 then true
    else if longish * 100 > 12 * n then true
    else if codeHint && alpha * 100 < 72 * Max(1, n) then true
    else false
  }

  /** `looks_like_code` (find_duplicate_wording.py:57-87). */
  function LooksLikeCode(block: String): (r: bool)
    ensures AllSpace(block) ==> r
    ensures Count('`', block) >= 6 ==> r
    ensures Count('|', block) >= 8 ==> r
  {
    var s := Strip(block);
    CountStrip('`', block);
    CountStrip('|', block);
    if s == [] then true
    else
      var codeHint := HasCodeHintFrom(s, 0);
      var tokens := Fields(s);
      if tokens == [] then true
      else
        CodeVerdict(|tokens|, AlphaTokens(tokens), Count('`', s), '|' in s, Count('|', s),
                    LongTokens(tokens), codeHint)
  }

  /** Tokens that all contain a letter leave the alphabetic ratio at 1. */
  lemma {:induction false} AllAlphaTokens(tokens: seq<String>)
    requires forall t :: t in tokens ==> HasLetter(t)
    ensures AlphaTokens(tokens) == |tokens|
  {
    if tokens != [] {
      assert tokens[0] in tokens;
      assert forall t :: t in tokens[1..] ==> t in tokens;
      AllAlphaTokens(tokens[1..]);
    }
  }

  lemma {:induction false} NoLongTokens(tokens: seq<String>)
    requires forall t :: t in tokens ==> |t| < 25
    ensures LongTokens(tokens) == 0
  {
    if tokens != [] {
      assert tokens[0] in tokens;
      assert forall t :: t in tokens[1..] ==> t in tokens;
      NoLongTokens(tokens[1..]);
    }
  }

  /** A block that is not all whitespace has at least one field. */
  lemma {:induction false} SomeField(s: String)
    requires !AllSpace(s)
    ensures Fields(s) != []
  {
    var t := Strip(s);
    FieldsStrip(s);
    assert t != [] && !IsSpace(t[0]);
    assert Fields(t) == [t[..SpanWord(t)]] + Fields(t[SpanWord(t)..]);
  }

  /** `looks_like_code` rejects a block exactly when one of its five tests
      fires, each stated on the block as given: whitespace only, fewer than
      55% of the tokens alphabetic, 6 backticks, 8 pipes, more than 12% of
      the tokens 25 characters or longer, or a code hint with fewer than 72%
      of the tokens alphabetic. */
  lemma {:induction false} LooksLikeCodeIff(block: String)
    ensures LooksLikeCode(block) <==>
      || AllSpace(block)
      || AlphaTokens(Fields(block)) * 100 < 55 * |Fields(block)|
      || Count('`', block) >= 6
      || Count('|', block) >= 8
      || LongTokens(Fields(block)) * 100 > 12 * |Fields(block)|
      || (HasCodeHintFrom(block, 0) && AlphaTokens(Fields(block)) * 100 < 72 * |Fields(block)|)
  {
    if !AllSpace(block) {
      var tokens := Fields(block);
      SomeField(block);
      FieldsStrip(block);
      CountStrip('`', block);
      CountStrip('|', block);
      HintStrip(block);
      VerdictOfStripped(block);
      VerdictCases(|tokens|, AlphaTokens(tokens), Count('`', block), Count('|', block),
                   LongTokens(tokens), HasCodeHintFrom(block, 0));
    }
  }

  /** With content, the body of `looks_like_code` is the ordered tests on
      the stripped block. */
  lemma {:induction false} VerdictOfStripped(block: String)
    requires !AllSpace(block) && Fields(Strip(block)) != []
    ensures var s := Strip(block);
      LooksLikeCode(block) == CodeVerdict(
        |Fields(s)|, AlphaTokens(Fields(s)), Count('`', s), Count('|', s) > 0, Count('|', s),
        LongTokens(Fields(s)), HasCodeHintFrom(s, 0))
  {
    var s := Strip(block);
    assert ('|' in s) == (Count('|', s) > 0);
  }

  /** The ordered tests fire exactly when one of them holds on its own. */
  lemma {:induction false} VerdictCases(n: nat, alpha: nat, backticks: nat, pipes: nat, longish: nat, codeHint: bool)
    requires n > 0
    ensures CodeVerdict(n, alpha, backticks, pipes > 0, pipes, longish, codeHint) <==>
      || alpha * 100 < 55 * n
      || backticks >= 6
      || pipes >= 8
      || longish * 100 > 12 * n
      || (codeHint && alpha * 100 < 72 * n)
  {
    assert Max(1, n) == n;
  }

  /** Prose passes: when every whitespace-separated token holds a letter and
      is shorter than 25 characters, and there are fewer than 6 backticks and
      fewer than 8 pipes, the block is kept whatever code punctuation or
      keywords it contains. */
  lemma {:induction false} ProseIsNotCode(block: String)
    requires !AllSpace(block)
    requires forall t :: t in Fields(block) ==> |t| < 25 && HasLetter(t)
    requires Count('`', block) < 6 && Count('|', block) < 8
    ensures !LooksLikeCode(block)
  {
    ProseMeasures(block);
    FieldsStrip(block);
    LooksLikeCodeIff(block);
  }

  /** What the tests of `looks_like_code` measure on such a block. */
  lemma {:induction false} ProseMeasures(block: String)
    requires !AllSpace(block)
    requires forall t :: t in Fields(block) ==> |t| < 25 && HasLetter(t)
    requires Count('`', block) < 6 && Count('|', block) < 8
    ensures Strip(block) != [] && Fields(Strip(block)) != []
    ensures AlphaTokens(Fields(Strip(block))) == |Fields(Strip(block))|
    ensures LongTokens(Fields(Strip(block))) == 0
    ensures Count('`', Strip(block)) < 6 && Count('|', Strip(block)) < 8
  {
    CountStrip('`', block);
    CountStrip('|', block);
    ProseTokens(block);
  }

  /** The tokens of such a block, once stripped: there are some, all with a
      letter and none long. */
  lemma {:induction false} ProseTokens(block: String)
    requires !AllSpace(block)
    requires forall t :: t in Fields(block) ==> |t| < 25 && HasLetter(t)
    ensures Strip(block) != [] && Fields(Strip(block)) != []
    ensures AlphaTokens(Fields(Strip(block))) == |Fields(Strip(block))|
    ensures LongTokens(Fields(Strip(block))) == 0
  {
    var s := Strip(block);
    FieldsStrip(block);
    var tokens := Fields(s);
    AllAlphaTokens(tokens);
    NoLongTokens(tokens);
    assert s != [] && !IsSpace(s[0]);
    assert tokens != [] by { assert tokens == [s[..SpanWord(s)]] + Fields(s[SpanWord(s)..]); }
  }

  /** All tokens alphabetic, none long, few backticks and pipes: not code. */
  lemma {:induction false} ProseVerdict(n: nat, backticks: nat, hasPipe: bool, pipes: nat)
    requires n > 0 && backticks < 6 && pipes < 8
    ensures forall codeHint :: !CodeVerdict(n, n, backticks, hasPipe, pipes, 0, codeHint)
  {
  }

  /** When fewer than 55 of every 100 tokens hold a letter the block is code. */
  lemma {:induction false} MostlySymbolsIsCode(block: String)
    requires Fields(block) != []
    requires AlphaTokens(Fields(block)) * 100 < 55 * |Fields(block)|
    ensures LooksLikeCode(block)
  {
    FieldsStrip(block);
  }
}
