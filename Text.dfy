/**
 * Character classes, whitespace handling and line splitting used by the
 * near-duplicate prose detector (normalize_whitespace and the `\s+`, `\S+`
 * patterns of find_duplicate_wording.py, and `str.splitlines`).
 *
 * Whitespace is the ASCII set " \t\n\r\v\f"; letters are ASCII letters.
 */
module Text {

  type String = seq<char>

  predicate IsSpace(c: char) {
    c == ' ' || c == '\t' || c == '\n' || c == '\r' || c == '\U{000B}' || c == '\U{000C}'
  }

  predicate IsAsciiLetter(c: char) {
    ('a' <= c <= 'z') || ('A' <= c <= 'Z')
  }

  predicate IsLowerLetter(c: char) {
    'a' <= c <= 'z'
  }

  /** Python's `\w` restricted to ASCII: letters, digits and underscore. */
  predicate IsWordChar(c: char) {
    IsAsciiLetter(c) || ('0' <= c <= '9') || c == '_'
  }

  /** `str.lower` on one ASCII character. */
  function LowerChar(c: char): (r: char)
    ensures IsAsciiLetter(c) ==> IsLowerLetter(r)
    ensures !IsAsciiLetter(c) ==> r == c
  {
    if 'A' <= c <= 'Z' then (c as int - 'A' as int + 'a' as int) as char else c
  }

  function Lower(s: String): (r: String)
    ensures |r| == |s|
    ensures forall i :: 0 <= i < |s| ==> r[i] == LowerChar(s[i])
  {
    if s == [] then [] else [LowerChar(s[0])] + Lower(s[1..])
  }

  /** Number of occurrences of `c` in `s` (Python's `s.count(c)`). */
  function Count(c: char, s: String): nat {
    multiset(s)[c]
  }

  predicate AllSpace(s: String) {
    forall i :: 0 <= i < |s| ==> IsSpace(s[i])
  }

  predicate NoSpace(s: String) {
    forall i :: 0 <= i < |s| ==> !IsSpace(s[i])
  }

  /** No whitespace at either end. */
  predicate Trimmed(s: String) {
    s == [] || (!IsSpace(s[0]) && !IsSpace(s[|s| - 1]))
  }

  /** The shape `normalize_whitespace` produces: trimmed, every whitespace
      character a plain space, and never two whitespace characters in a row. */
  ghost predicate Canonical(s: String) {
    && Trimmed(s)
    && (forall i :: 0 <= i < |s| && IsSpace(s[i]) ==> s[i] == ' ')
    && (forall p, q :: 0 <= p < q < |s| && q == p + 1 ==> !(IsSpace(s[p]) && IsSpace(s[q])))
  }

  // ---------------------------------------------------------------------
  // strip

  /** `str.lstrip()`: drops the leading whitespace run. */
  function LStrip(s: String): (r: String)
    ensures |r| <= |s| && r == s[|s| - |r|..]
    ensures forall i :: 0 <= i < |s| - |r| ==> IsSpace(s[i])
    ensures r != [] ==> !IsSpace(r[0])
  {
    if s != [] && IsSpace(s[0]) then LStrip(s[1..]) else s
  }

  /** `str.rstrip()`: drops the trailing whitespace run. */
  function RStrip(s: String): (r: String)
    ensures |r| <= |s| && r == s[..|r|]
    ensures forall i :: |r| <= i < |s| ==> IsSpace(s[i])
    ensures r != [] ==> !IsSpace(r[|r| - 1])
  {
    if s != [] && IsSpace(s[|s| - 1]) then RStrip(s[..|s| - 1]) else s
  }

  /** `str.strip()`. */
  function Strip(s: String): (r: String)
    ensures Trimmed(r)
    ensures |r| <= |s|
    ensures AllSpace(s) <==> r == []
  {
    RStrip(LStrip(s))
  }

  /** What `strip` keeps: the part of `s` between a whitespace prefix and a
      whitespace suffix. */
  lemma {:induction false} StripIsSlice(s: String)
    ensures exists i, j :: 0 <= i <= j <= |s| && Strip(s) == s[i..j] && AllSpace(s[..i]) && AllSpace(s[j..])
  {
    var l := LStrip(s);
    var i := |s| - |l|;
    var r := Strip(s);
    var j := i + |r|;
    assert r == l[..|r|];
    assert s[i..j] == r;
    assert AllSpace(s[..i]);
    assert AllSpace(s[j..]) by {
      assert forall k :: |r| <= k < |l| ==> IsSpace(l[k]);
      assert s[j..] == l[|r|..];
    }
  }

  // ---------------------------------------------------------------------
  // `\S+` runs and their joins

  /** Length of the longest prefix of `s` without whitespace. */
  function SpanWord(s: String): (k: nat)
    ensures k <= |s|
    ensures NoSpace(s[..k])
    ensures k < |s| ==> IsSpace(s[k])
  {
    if s == [] || IsSpace(s[0]) then 0 else 1 + SpanWord(s[1..])
  }

  /** `re.findall(r"\S+", s)`: the maximal whitespace-free runs, in order. */
  function Fields(s: String): (ws: seq<String>)
    ensures forall w :: w in ws ==> w != [] && NoSpace(w)
    decreases |s|
  {
    if s == [] then []
    else if IsSpace(s[0]) then Fields(s[1..])
    else
      var k := SpanWord(s);
      [s[..k]] + Fields(s[k..])
  }

  /** `sep.join(parts)`. */
  function Join(parts: seq<String>, sep: String): String {
    if |parts| == 0 then []
    else if |parts| == 1 then parts[0]
    else parts[0] + sep + Join(parts[1..], sep)
  }

  // ---------------------------------------------------------------------
  // normalize_whitespace

  /** `re.sub(r"\s+", " ", s)`: every maximal whitespace run becomes one space. */
  function CollapseSpaces(s: String): (r: String)
    ensures r == [] <==> s == []
    ensures r != [] ==> (IsSpace(r[0]) <==> IsSpace(s[0]))
    ensures forall i :: 0 <= i < |r| && IsSpace(r[i]) ==> r[i] == ' '
    ensures forall p, q :: 0 <= p < q < |r| && q == p + 1 ==> !(IsSpace(r[p]) && IsSpace(r[q]))
    decreases |s|
  {
    if s == [] then []
    else if IsSpace(s[0]) then
      var rest := CollapseSpaces(LStrip(s));
      [' '] + rest
    else [s[0]] + CollapseSpaces(s[1..])
  }

  /** `normalize_whitespace` (find_duplicate_wording.py:31-32). */
  function NormalizeWhitespace(s: String): String {
    Strip(CollapseSpaces(s))
  }

  /** Normalised text is canonical: trimmed, single spaces only. */
  lemma {:induction false} NormalizeCanonical(s: String)
    ensures Canonical(NormalizeWhitespace(s))
  {
    StripCollapsed(CollapseSpaces(s));
  }

  /** Stripping a collapsed string leaves it canonical. */
  lemma {:induction false} StripCollapsed(c: String)
    requires forall i :: 0 <= i < |c| && IsSpace(c[i]) ==> c[i] == ' '
    requires forall p, q :: 0 <= p < q < |c| && q == p + 1 ==> !(IsSpace(c[p]) && IsSpace(c[q]))
    ensures Canonical(Strip(c))
  {
    var l := LStrip(c);
    var r := RStrip(l);
    var d := |c| - |l|;
    assert l == c[d..];
    assert r == l[..|r|];
    forall i | 0 <= i < |r| && IsSpace(r[i]) ensures r[i] == ' ' {
      assert r[i] == c[d + i];
    }
    forall p, q | 0 <= p < q < |r| && q == p + 1 ensures !(IsSpace(r[p]) && IsSpace(r[q])) {
      assert r[p] == c[d + p] && r[q] == c[d + q];
    }
  }

  /** Normalising keeps every other character as often as it occurs. */
  lemma {:induction false} CountNormalize(s: String)
    ensures forall ch :: !IsSpace(ch) ==> Count(ch, NormalizeWhitespace(s)) == Count(ch, s)
  {
    var c := CollapseSpaces(s);
    forall ch | !IsSpace(ch) ensures Count(ch, Strip(c)) == Count(ch, s) {
      CountStrip(ch, c);
      CountCollapse(ch, s);
    }
  }

  // ---------------------------------------------------------------------
  // Lemmas

  lemma {:induction false} CountConcat(c: char, a: String, b: String)
    ensures Count(c, a + b) == Count(c, a) + Count(c, b)
  {
    assert multiset(a + b) == multiset(a) + multiset(b);
  }

  lemma {:induction false} CountLStrip(c: char, s: String)
    requires !IsSpace(c)
    ensures Count(c, LStrip(s)) == Count(c, s)
    decreases |s|
  {
    if s != [] && IsSpace(s[0]) {
      assert s == [s[0]] + s[1..];
      CountLStrip(c, s[1..]);
    }
  }

  lemma {:induction false} CountRStrip(c: char, s: String)
    requires !IsSpace(c)
    ensures Count(c, RStrip(s)) == Count(c, s)
    decreases |s|
  {
    if s != [] && IsSpace(s[|s| - 1]) {
      assert s == s[..|s| - 1] + [s[|s| - 1]];
      CountRStrip(c, s[..|s| - 1]);
    }
  }

  /** Stripping only removes whitespace, so other characters keep their counts. */
  lemma {:induction false} CountStrip(c: char, s: String)
    requires !IsSpace(c)
    ensures Count(c, Strip(s)) == Count(c, s)
  {
    CountLStrip(c, s);
    CountRStrip(c, LStrip(s));
  }

  lemma {:induction false} CountCollapse(c: char, s: String)
    requires !IsSpace(c)
    ensures Count(c, CollapseSpaces(s)) == Count(c, s)
    decreases |s|
  {
    if s == [] {
    } else if IsSpace(s[0]) {
      CountCollapse(c, LStrip(s));
      CountLStrip(c, s);
      CollapseRunStep(c, s);
    } else {
      CountCollapse(c, s[1..]);
      CollapseCharStep(c, s);
    }
  }

  /** The step of `CountCollapse` at a whitespace run: it becomes one space. */
  lemma {:induction false} CollapseRunStep(c: char, s: String)
    requires !IsSpace(c) && s != [] && IsSpace(s[0])
    requires Count(c, CollapseSpaces(LStrip(s))) == Count(c, LStrip(s)) == Count(c, s)
    ensures Count(c, CollapseSpaces(s)) == Count(c, s)
  {
    var rest := CollapseSpaces(LStrip(s));
    assert CollapseSpaces(s) == [' '] + rest;
    CountConcat(c, [' '], rest);
  }

  /** The step of `CountCollapse` at another character: it is kept. */
  lemma {:induction false} CollapseCharStep(c: char, s: String)
    requires s != [] && !IsSpace(s[0])
    requires Count(c, CollapseSpaces(s[1..])) == Count(c, s[1..])
    ensures Count(c, CollapseSpaces(s)) == Count(c, s)
  {
    var rest := CollapseSpaces(s[1..]);
    assert CollapseSpaces(s) == [s[0]] + rest;
    CountConcat(c, [s[0]], rest);
    assert s == [s[0]] + s[1..];
    CountConcat(c, [s[0]], s[1..]);
  }

  lemma {:induction false} FieldsOfSpaces(w: String)
    requires AllSpace(w)
    ensures Fields(w) == []
    decreases |w|
  {
    if w != [] { FieldsOfSpaces(w[1..]); }
  }

  lemma {:induction false} FieldsLStrip(s: String)
    ensures Fields(LStrip(s)) == Fields(s)
    decreases |s|
  {
    if s != [] && IsSpace(s[0]) { FieldsLStrip(s[1..]); }
  }

  lemma {:induction false} SpanWordAppendSpaces(x: String, w: String)
    requires AllSpace(w)
    ensures SpanWord(x + w) == SpanWord(x)
    decreases |x|
  {
    if x == [] {
    } else if !IsSpace(x[0]) {
      assert (x + w)[1..] == x[1..] + w;
      SpanWordAppendSpaces(x[1..], w);
    }
  }

  /** Trailing whitespace adds no field. */
  lemma {:induction false} FieldsAppendSpaces(x: String, w: String)
    requires AllSpace(w)
    ensures Fields(x + w) == Fields(x)
    decreases |x|
  {
    if x == [] {
      assert x + w == w;
      FieldsOfSpaces(w);
    } else if IsSpace(x[0]) {
      assert (x + w)[1..] == x[1..] + w;
      FieldsAppendSpaces(x[1..], w);
    } else {
      var k := SpanWord(x);
      SpanWordAppendSpaces(x, w);
      assert (x + w)[..k] == x[..k];
      assert (x + w)[k..] == x[k..] + w;
      FieldsAppendSpaces(x[k..], w);
    }
  }

  lemma {:induction false} FieldsRStrip(s: String)
    ensures Fields(RStrip(s)) == Fields(s)
    decreases |s|
  {
    if s != [] && IsSpace(s[|s| - 1]) {
      var x := s[..|s| - 1];
      assert s == x + [s[|s| - 1]];
      FieldsAppendSpaces(x, [s[|s| - 1]]);
      FieldsRStrip(x);
    }
  }

  lemma {:induction false} FieldsStrip(s: String)
    ensures Fields(Strip(s)) == Fields(s)
  {
    FieldsLStrip(s);
    FieldsRStrip(LStrip(s));
  }

  /** How a non-space character in front of `x` joins or opens a field. */
  lemma {:induction false} ConsFields(c: char, x: String)
    requires !IsSpace(c)
    ensures x == [] || IsSpace(x[0]) ==> Fields([c] + x) == [[c]] + Fields(x)
    ensures x != [] && !IsSpace(x[0]) ==>
      Fields(x) != [] && Fields([c] + x) == [[c] + Fields(x)[0]] + Fields(x)[1..]
  {
    var s := [c] + x;
    assert s[1..] == x;
    var k := SpanWord(s);
    assert k == 1 + SpanWord(x);
    assert s[..k] == [c] + x[..k - 1];
    assert s[k..] == x[k - 1..];
  }

  lemma {:induction false} FieldsCollapse(s: String)
    ensures Fields(CollapseSpaces(s)) == Fields(s)
    decreases |s|
  {
    if s == [] {
    } else if IsSpace(s[0]) {
      FieldsCollapse(LStrip(s));
      FieldsLStrip(s);
      FieldsRunStep(s);
    } else {
      FieldsCollapse(s[1..]);
      FieldsCharStep(s);
    }
  }

  /** The step of `FieldsCollapse` at a whitespace run: the single space
      that replaces it opens no field. */
  lemma {:induction false} FieldsRunStep(s: String)
    requires s != [] && IsSpace(s[0])
    requires Fields(CollapseSpaces(LStrip(s))) == Fields(LStrip(s)) == Fields(s)
    ensures Fields(CollapseSpaces(s)) == Fields(s)
  {
    var rest := CollapseSpaces(LStrip(s));
    assert CollapseSpaces(s) == [' '] + rest;
    assert ([' '] + rest)[1..] == rest;
  }

  /** The step of `FieldsCollapse` at another character: it joins or opens
      the first field alike on both sides. */
  lemma {:induction false} FieldsCharStep(s: String)
    requires s != [] && !IsSpace(s[0])
    requires Fields(CollapseSpaces(s[1..])) == Fields(s[1..])
    ensures Fields(CollapseSpaces(s)) == Fields(s)
  {
    var x := s[1..];
    var cx := CollapseSpaces(x);
    assert CollapseSpaces(s) == [s[0]] + cx;
    assert s == [s[0]] + x;
    ConsFields(s[0], x);
    ConsFields(s[0], cx);
  }

  /** A canonical string is the single-space join of its fields. */
  lemma {:induction false} CanonicalIsJoin(t: String)
    requires Canonical(t)
    ensures t == Join(Fields(t), " ")
    decreases |t|
  {
    if t != [] {
      var k := SpanWord(t);
      if k == |t| {
        assert t[k..] == [] && t[..k] == t;
        assert Fields(t) == [t];
      } else {
        var u := t[k + 1..];
        CanonicalSplit(t);
        CanonicalIsJoin(u);
        var fs := Fields(t);
        assert fs[1..] == Fields(u);
      }
    }
  }

  /** A canonical string with a space in it: its first field, one space,
      and a canonical rest whose fields are the remaining ones. */
  lemma {:induction false} CanonicalSplit(t: String)
    requires Canonical(t) && t != [] && SpanWord(t) < |t|
    ensures var k := SpanWord(t);
      && k + 1 < |t|
      && Canonical(t[k + 1..])
      && Fields(t) == [t[..k]] + Fields(t[k + 1..])
      && Fields(t[k + 1..]) != []
      && t == t[..k] + " " + t[k + 1..]
  {
    var k := SpanWord(t);
    var u := t[k + 1..];
    assert t[k] == ' ';
    assert u != [] && !IsSpace(u[0]);
    CanonicalTail(t, k + 1);
    assert t[k..][1..] == u;
    assert Fields(t[k..]) == Fields(u);
    assert Fields(t) == [t[..k]] + Fields(u);
    assert t == t[..k] + " " + u;
  }

  lemma {:induction false} CanonicalTail(t: String, j: nat)
    requires Canonical(t) && j <= |t|
    requires t[j..] != [] ==> !IsSpace(t[j])
    ensures Canonical(t[j..])
  {
    var u := t[j..];
    assert forall i :: 0 <= i < |u| ==> u[i] == t[j + i];
  }

  /** `normalize_whitespace(s)` is exactly `" ".join(re.findall(r"\S+", s))`. */
  lemma {:induction false} NormalizeIsJoinedFields(s: String)
    ensures NormalizeWhitespace(s) == Join(Fields(s), " ")
  {
    var c := CollapseSpaces(s);
    FieldsStrip(c);
    FieldsCollapse(s);
    NormalizeCanonical(s);
    CanonicalIsJoin(NormalizeWhitespace(s));
  }

  /** Normalising twice changes nothing. */
  lemma {:induction false} NormalizeIdempotent(s: String)
    ensures NormalizeWhitespace(NormalizeWhitespace(s)) == NormalizeWhitespace(s)
  {
    var t := NormalizeWhitespace(s);
    NormalizeCanonical(s);
    NormalizeIsJoinedFields(t);
    CanonicalIsJoin(t);
  }

  // ---------------------------------------------------------------------
  // str.splitlines

  /** The characters `str.splitlines` treats as line boundaries. */
  predicate IsLineBreak(c: char) {
    c == '\n' || c == '\r' || c == '\U{000B}' || c == '\U{000C}' || c == '\U{001C}'
    || c == '\U{001D}' || c == '\U{001E}' || c == '\U{0085}' || c == '\U{2028}' || c == '\U{2029}'
  }

  predicate NoLineBreak(s: String) {
    forall i :: 0 <= i < |s| ==> !IsLineBreak(s[i])
  }

  /** Index of the first line boundary, or |s| when there is none. */
  function LineEnd(s: String): (j: nat)
    ensures j <= |s|
    ensures NoLineBreak(s[..j])
    ensures j < |s| ==> IsLineBreak(s[j])
  {
    if s == [] || IsLineBreak(s[0]) then 0 else 1 + LineEnd(s[1..])
  }

  /** `md.splitlines()`: "\r\n" is one boundary; a final boundary does not
      open an empty last line. */
  function SplitLines(s: String): (lines: seq<String>)
    ensures forall l :: l in lines ==> NoLineBreak(l)
    ensures s == [] <==> lines == []
    decreases |s|
  {
    if s == [] then []
    else
      var j := LineEnd(s);
      if j == |s| then [s]
      else
        var brk := if s[j] == '\r' && j + 1 < |s| && s[j + 1] == '\n' then 2 else 1;
        [s[..j]] + SplitLines(s[j + brk..])
  }

  /** Each line followed by "\n". */
  function Terminated(lines: seq<String>): String {
    if lines == [] then [] else lines[0] + "\n" + Terminated(lines[1..])
  }

  /** Splitting newline-terminated lines gives those lines back. */
  lemma {:induction false} SplitTerminated(lines: seq<String>)
    requires forall l :: l in lines ==> NoLineBreak(l)
    ensures SplitLines(Terminated(lines)) == lines
  {
    if lines != [] {
      var l := lines[0];
      var rest := Terminated(lines[1..]);
      var s := l + "\n" + rest;
      assert s[..|l|] == l;
      assert s[|l|] == '\n';
      assert LineEnd(s) == |l| by { LineEndOf(l, "\n" + rest); }
      assert s[|l| + 1..] == rest;
      SplitTerminated(lines[1..]);
    }
  }

  lemma {:induction false} LineEndOf(l: String, t: String)
    requires NoLineBreak(l)
    requires t != [] && IsLineBreak(t[0])
    ensures LineEnd(l + t) == |l|
    decreases |l|
  {
    if l == [] {
      assert l + t == t;
    } else {
      var s := l + t;
      assert s[0] == l[0] && !IsLineBreak(l[0]);
      assert s[1..] == l[1..] + t;
      assert NoLineBreak(l[1..]);
      LineEndOf(l[1..], t);
    }
  }
}
