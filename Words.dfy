/**
 * Word tokens, stop-word removal and Jaccard similarity
 * (WORD_RE, STOPWORDS, tokenize_words, content_words and jaccard in
 * find_duplicate_wording.py).
 */
module Words {
  import opened Text

  /** The fixed stop-word list (find_duplicate_wording.py:14-21). */
  const Stopwords: set<String> := {
    "the", "a", "an", "and", "or", "but", "if", "then", "else", "when", "while", "for", "to", "of", "in", "on", "at", "by",
    "with", "without", "as", "is", "are", "was", "were", "be", "been", "being", "this", "that", "these", "those",
    "it", "its", "they", "them", "their", "you", "your", "we", "our", "i", "me", "my", "he", "his", "she", "her",
    "from", "into", "out", "up", "down", "over", "under", "again", "more", "most", "some", "such", "no", "nor",
    "not", "only", "own", "same", "so", "than", "too", "very", "can", "could", "should", "would", "may", "might",
    "will", "just", "also"
  }

  /** A character `[A-Za-z']` may continue a word. */
  predicate IsWordTail(c: char) {
    IsAsciiLetter(c) || c == '\''
  }

  /** What `tokenize_words` yields: lower case, at least two characters, a
      letter first and only letters and apostrophes after it. */
  predicate WellFormedToken(t: String) {
    && |t| >= 2
    && IsLowerLetter(t[0])
    && forall i :: 1 <= i < |t| ==> IsLowerLetter(t[i]) || t[i] == '\''
  }

  /** A string `WORD_RE` matches in full. */
  predicate IsWord(w: String) {
    && |w| >= 2
    && IsAsciiLetter(w[0])
    && forall i :: 1 <= i < |w| ==> IsWordTail(w[i])
  }

  /** Length of the longest prefix of `s` made of `[A-Za-z']`. */
  function TailLen(s: String): (n: nat)
    ensures n <= |s|
    ensures forall i :: 0 <= i < n ==> IsWordTail(s[i])
    ensures n < |s| ==> !IsWordTail(s[n])
  {
    if s == [] || !IsWordTail(s[0]) then 0 else 1 + TailLen(s[1..])
  }

  /** Length of the match of `[A-Za-z][A-Za-z']+` at the start of `s`, or 0. */
  function WordAt(s: String): (n: nat)
    ensures n <= |s|
    ensures n > 0 ==> n >= 2 && IsWord(s[..n])
    ensures n > 0 && n < |s| ==> !IsWordTail(s[n])
  {
    if |s| >= 2 && IsAsciiLetter(s[0]) && IsWordTail(s[1]) then 1 + TailLen(s[1..]) else 0
  }

  lemma {:induction false} LowerWord(w: String)
    requires IsWord(w)
    ensures WellFormedToken(Lower(w))
  {
  }

  /** `tokenize_words` (find_duplicate_wording.py:42-43): `WORD_RE.findall`
      scanning left to right, each match lower-cased. */
  function TokenizeWords(s: String): (ts: seq<String>)
    ensures forall t :: t in ts ==> WellFormedToken(t)
    decreases |s|
  {
    if s == [] then []
    else if WordAt(s) > 0 then
      var n := WordAt(s);
      LowerWord(s[..n]);
      [Lower(s[..n])] + TokenizeWords(s[n..])
    else TokenizeWords(s[1..])
  }

  lemma {:induction false} TailLenBeforeSpace(x: String, y: String)
    ensures TailLen(x + " " + y) == TailLen(x)
    decreases |x|
  {
    if x != [] && IsWordTail(x[0]) {
      assert (x + " " + y)[1..] == x[1..] + " " + y;
      TailLenBeforeSpace(x[1..], y);
    }
  }

  /** A space separates: the tokens of `a + " " + b` are those of `a`
      followed by those of `b`. */
  lemma {:induction false} TokenizeSeparated(a: String, b: String)
    ensures TokenizeWords(a + " " + b) == TokenizeWords(a) + TokenizeWords(b)
    decreases |a|
  {
    var s := a + " " + b;
    if a == [] {
      assert s == [' '] + b;
      assert s[1..] == b;
    } else if WordAt(a) > 0 {
      var n := WordAt(a);
      WordAtBeforeSpace(a, b);
      assert s[..n] == a[..n];
      assert s[n..] == a[n..] + " " + b;
      TokenizeSeparated(a[n..], b);
    } else {
      assert s[1..] == a[1..] + " " + b;
      WordAtBeforeSpace(a, b);
      TokenizeSeparated(a[1..], b);
    }
  }

  /** A space after `a` does not change the word match at its start. */
  lemma {:induction false} WordAtBeforeSpace(a: String, b: String)
    requires a != []
    ensures WordAt(a + " " + b) == WordAt(a)
  {
    var s := a + " " + b;
    assert s[1..] == a[1..] + " " + b;
    TailLenBeforeSpace(a[1..], b);
    if |a| == 1 {
      assert s[1] == ' ';
    }
  }

  /** A whole word is one token. */
  lemma {:induction false} WordIsOneToken(w: String)
    requires IsWord(w)
    ensures TokenizeWords(w) == [Lower(w)]
  {
    assert TailLen(w[1..]) == |w| - 1 by { TailLenAll(w[1..]); }
    assert w[..|w|] == w;
    assert w[|w|..] == [];
  }

  lemma {:induction false} TailLenAll(s: String)
    requires forall i :: 0 <= i < |s| ==> IsWordTail(s[i])
    ensures TailLen(s) == |s|
  {
    if s != [] { TailLenAll(s[1..]); }
  }

  function LowerAll(ws: seq<String>): (r: seq<String>)
    ensures |r| == |ws|
    ensures forall i :: 0 <= i < |ws| ==> r[i] == Lower(ws[i])
  {
    if ws == [] then [] else [Lower(ws[0])] + LowerAll(ws[1..])
  }

  /** Words joined by single spaces tokenize to those words, lower-cased. */
  lemma {:induction false} TokenizeJoinedWords(ws: seq<String>)
    requires forall w :: w in ws ==> IsWord(w)
    ensures TokenizeWords(Join(ws, " ")) == LowerAll(ws)
  {
    if |ws| == 1 {
      WordIsOneToken(ws[0]);
    } else if |ws| > 1 {
      TokenizeJoinedWords(ws[1..]);
      TokenizeSeparated(ws[0], Join(ws[1..], " "));
      WordIsOneToken(ws[0]);
    }
  }

  // ---------------------------------------------------------------------
  // content_words

  /** `a` is `b` with some elements left out, order kept. */
  predicate IsSubsequence<T(==)>(a: seq<T>, b: seq<T>)
    decreases |b|
  {
    if a == [] then true
    else if b == [] then false
    else if a[0] == b[0] then IsSubsequence(a[1..], b[1..])
    else IsSubsequence(a, b[1..])
  }

  /** `content_words` (find_duplicate_wording.py:45-46): the in-order
      subsequence of `tokens` without stop words. */
  function ContentWords(tokens: seq<String>): (r: seq<String>)
    ensures forall w :: w in r ==> w !in Stopwords
    ensures forall w :: w !in Stopwords ==> multiset(r)[w] == multiset(tokens)[w]
    ensures IsSubsequence(r, tokens)
  {
    if tokens == [] then []
    else
      var rest := ContentWords(tokens[1..]);
      assert tokens == [tokens[0]] + tokens[1..];
      if tokens[0] in Stopwords then
        SubsequenceSkipAny(rest, tokens[1..], tokens[0]);
        rest
      else [tokens[0]] + rest
  }

  /** A subsequence of `b` also keeps its order inside `b` when its first
      element is matched later. */
  lemma {:induction false} SubsequenceSkipped<T>(a: seq<T>, b: seq<T>)
    requires a != [] && IsSubsequence(a, b)
    ensures IsSubsequence(a[1..], b)
    decreases |b|, 1
  {
    if a[1..] != [] {
      if a[0] == b[0] {
        SubsequenceSkipAny(a[1..], b[1..], b[0]);
      } else {
        SubsequenceSkipped(a, b[1..]);
        SubsequenceSkipAny(a[1..], b[1..], b[0]);
      }
    }
  }

  lemma {:induction false} SubsequenceSkipAny<T>(a: seq<T>, b: seq<T>, x: T)
    requires IsSubsequence(a, b)
    ensures IsSubsequence(a, [x] + b)
    decreases |b| + 1, 0
  {
    if a != [] {
      assert ([x] + b)[1..] == b;
      if a[0] == x {
        SubsequenceSkipped(a, b);
      }
    }
  }

  // ---------------------------------------------------------------------
  // jaccard

  lemma {:induction false} SubsetSameSize<T>(x: set<T>, y: set<T>)
    requires x <= y && |x| == |y|
    ensures x == y
  {
    assert y == x + (y - x);
    assert |y - x| == 0;
  }

  /** `jaccard` (find_duplicate_wording.py:48-55), on exact reals. */
  function Jaccard(a: set<String>, b: set<String>): (r: real)
    ensures 0.0 <= r <= 1.0
    ensures r == 1.0 <==> a == b
    ensures a == {} && b == {} ==> r == 1.0
    ensures (a == {}) != (b == {}) ==> r == 0.0
  {
    if a == {} && b == {} then 1.0
    else if a == {} || b == {} then 0.0
    else
      var inter := |a * b|;
      var union := |a + b|;
      assert a * b <= a + b;
      assert inter <= union by { SubsetSize(a * b, a + b); }
      assert union > 0 by { assert a <= a + b; SubsetSize(a, a + b); }
      assert inter == union ==> a == b by {
        if inter == union {
          SubsetSameSize(a * b, a + b);
          assert a <= a * b;
        }
      }
      var r := if union != 0 then inter as real / union as real else 0.0;
      assert r == 1.0 <==> inter == union by {
        if inter < union {
          assert inter as real < union as real;
          assert r * (union as real) == inter as real;
        }
      }
      assert a == b ==> inter == union by {
        if a == b { assert a * b == a + b; }
      }
      r
  }

  lemma {:induction false} SubsetSize<T>(x: set<T>, y: set<T>)
    requires x <= y
    ensures |x| <= |y|
  {
    assert y == x + (y - x);
  }

  /** Jaccard similarity does not depend on the order of its arguments. */
  lemma {:induction false} JaccardSymmetric(a: set<String>, b: set<String>)
    ensures Jaccard(a, b) == Jaccard(b, a)
  {
    assert a * b == b * a;
    assert a + b == b + a;
  }
}
