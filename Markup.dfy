/**
 * The paragraph cleaners of find_duplicate_wording.py: inline code spans,
 * markdown links, angle-bracket URLs, HTML emphasis tags and emphasis
 * markers. Each regular-expression substitution is written out as a
 * left-to-right scanner that, like `re.sub`, resumes after each match.
 *
 * Every cleaner only removes material or puts plain spaces in its place:
 * no character other than a space occurs more often in the result.
 */
module Markup {
  import opened Text

  /** Only spaces may be added; every other character keeps or loses occurrences. */
  predicate OnlyRemoves(r: String, s: String) {
    forall c :: c != ' ' ==> Count(c, r) <= Count(c, s)
  }

  /** Index of the first `c` in `s`, or |s|. */
  function IndexOf(c: char, s: String): (k: nat)
    ensures k <= |s|
    ensures c !in s[..k]
    ensures k < |s| ==> s[k] == c
  {
    if s == [] || s[0] == c then 0 else 1 + IndexOf(c, s[1..])
  }

  lemma {:induction false} IndexOfFirst(c: char, x: String, y: String)
    requires c !in x
    ensures IndexOf(c, x + [c] + y) == |x|
    decreases |x|
  {
    if x != [] {
      assert (x + [c] + y)[1..] == x[1..] + [c] + y;
      IndexOfFirst(c, x[1..], y);
    }
  }

  lemma {:induction false} OnlyRemovesKeep(r: String, s: String, x: char)
    requires OnlyRemoves(r, s)
    ensures OnlyRemoves([x] + r, [x] + s)
  {
    assert multiset([x] + r) == multiset([x]) + multiset(r);
    assert multiset([x] + s) == multiset([x]) + multiset(s);
    forall c | c != ' ' ensures Count(c, [x] + r) <= Count(c, [x] + s) {
      assert Count(c, r) <= Count(c, s);
    }
  }

  lemma {:induction false} OnlyRemovesReplace(r: String, s: String, dropped: String, kept: String)
    requires OnlyRemoves(r, s)
    requires kept == [' '] || OnlyRemoves(kept, dropped)
    ensures OnlyRemoves(kept + r, dropped + s)
  {
    assert multiset(kept + r) == multiset(kept) + multiset(r);
    assert multiset(dropped + s) == multiset(dropped) + multiset(s);
    forall c | c != ' ' ensures Count(c, kept + r) <= Count(c, dropped + s) {
      assert Count(c, r) <= Count(c, s);
      if kept == [' '] {
        assert multiset(kept)[c] == 0;
      } else {
        assert Count(c, kept) <= Count(c, dropped);
      }
    }
  }

  // ---------------------------------------------------------------------
  // strip_inline_code: re.sub(r"`[^`]+`", " ", s)

  /** The pattern `[^`]+` matches at the start of `s`. */
  predicate CodeSpanAt(s: String) {
    |s| > 1 && s[0] == '`' && s[1] != '`' && '`' in s[1..]
  }

  predicate HasInlineCode(s: String) {
    exists i :: 0 <= i < |s| && CodeSpanAt(s[i..])
  }

  /** Index just past the closing backtick of the span at the start of `s`. */
  function SpanEnd(s: String): (n: nat)
    requires CodeSpanAt(s)
    ensures 3 <= n <= |s| && s[n - 1] == '`' && '`' !in s[1..n - 1]
  {
    2 + IndexOf('`', s[1..])
  }

  /** `strip_inline_code` (find_duplicate_wording.py:34-35). */
  function StripInlineCode(s: String): (r: String)
    decreases |s|
  {
    if s == [] then []
    else if CodeSpanAt(s) then [' '] + StripInlineCode(s[SpanEnd(s)..])
    else [s[0]] + StripInlineCode(s[1..])
  }

  lemma {:induction false} InlineCodeOnlyRemoves(s: String)
    ensures OnlyRemoves(StripInlineCode(s), s)
    decreases |s|
  {
    if s == [] {
    } else if CodeSpanAt(s) {
      var n := SpanEnd(s);
      InlineCodeOnlyRemoves(s[n..]);
      assert s == s[..n] + s[n..];
      OnlyRemovesReplace(StripInlineCode(s[n..]), s[n..], s[..n], [' ']);
    } else {
      InlineCodeOnlyRemoves(s[1..]);
      assert s == [s[0]] + s[1..];
      OnlyRemovesKeep(StripInlineCode(s[1..]), s[1..], s[0]);
    }
  }

  /** Text without a code span passes through unchanged. */
  lemma {:induction false} InlineCodeIdentity(s: String)
    requires !HasInlineCode(s)
    ensures StripInlineCode(s) == s
    decreases |s|
  {
    if s != [] {
      assert !CodeSpanAt(s[0..]);
      assert s[0..] == s;
      assert !HasInlineCode(s[1..]) by {
        forall i | 0 <= i < |s[1..]| ensures !CodeSpanAt(s[1..][i..]) {
          assert s[1..][i..] == s[i + 1..];
        }
      }
      InlineCodeIdentity(s[1..]);
    }
  }

  /** A code span is replaced by one space and scanning resumes after it. */
  lemma {:induction false} InlineCodeSpan(code: String, rest: String)
    requires code != [] && '`' !in code
    ensures StripInlineCode("`" + code + "`" + rest) == " " + StripInlineCode(rest)
  {
    var s := "`" + code + "`" + rest;
    assert s[1..] == code + ['`'] + rest;
    IndexOfFirst('`', code, rest);
    assert CodeSpanAt(s);
    assert s[|code| + 2..] == rest;
  }

  ghost predicate NoAdjacentBackticks(s: String) {
    forall p, q :: 0 <= p < q < |s| && q == p + 1 ==> !(s[p] == '`' && s[q] == '`')
  }

  lemma {:induction false} CountZero(c: char, s: String)
    requires c !in s
    ensures Count(c, s) == 0
  {
  }

  /** When no two backticks are adjacent, every backtick pair delimits a span,
      so at most one (unpaired) backtick survives. */
  lemma {:induction false} InlineCodeLeavesOneBacktick(s: String)
    requires NoAdjacentBackticks(s)
    ensures Count('`', StripInlineCode(s)) <= 1
    decreases |s|
  {
    if s == [] {
    } else if CodeSpanAt(s) {
      var n := SpanEnd(s);
      InlineCodeLeavesOneBacktick(s[n..]);
      assert multiset(StripInlineCode(s)) == multiset([' ']) + multiset(StripInlineCode(s[n..]));
    } else {
      var r := StripInlineCode(s[1..]);
      assert multiset(StripInlineCode(s)) == multiset([s[0]]) + multiset(r);
      if s[0] == '`' {
        assert '`' !in s[1..];
        InlineCodeOnlyRemoves(s[1..]);
        CountZero('`', s[1..]);
      } else {
        InlineCodeLeavesOneBacktick(s[1..]);
      }
    }
  }

  /** A span needs two backticks. */
  lemma {:induction false} SpanNeedsTwoBackticks(s: String)
    ensures HasInlineCode(s) ==> Count('`', s) >= 2
  {
    if HasInlineCode(s) {
      var i :| 0 <= i < |s| && CodeSpanAt(s[i..]);
      var t := s[i..];
      assert s == s[..i] + t;
      CountConcat('`', s[..i], t);
      assert t == t[..1] + t[1..];
      CountConcat('`', t[..1], t[1..]);
      assert t[..1] == ['`'];
      assert '`' in multiset(t[1..]);
    }
  }

  /** A single pass can leave a span behind: the text "``a`b`" loses "`a`"
      and what remains, "` b`", again reads as inline code. */
  lemma {:induction false} InlineCodeCanSurvive()
    ensures StripInlineCode("``a`b`") == "` b`"
    ensures HasInlineCode("` b`")
  {
    StripSample();
    var r := "` b`";
    assert CodeSpanAt(r[0..]) by { assert r[0..][1..] == " b`"; }
  }

  lemma {:induction false} StripSample()
    ensures StripInlineCode("``a`b`") == "` b`"
  {
    var s := "``a`b`";
    assert !CodeSpanAt(s);
    assert s[1..] == "`" + "a" + "`" + "b`";
    InlineCodeSpan("a", "b`");
    NoSpanInTail();
    InlineCodeIdentity("b`");
  }

  lemma {:induction false} NoSpanInTail()
    ensures !HasInlineCode("b`")
  {
    assert !CodeSpanAt("b`"[0..]);
    assert !CodeSpanAt("b`"[1..]);
  }

  // ---------------------------------------------------------------------
  // strip_markdown_links

  /** The pattern `\[([^\]]+)\]\([^)]+\)` at the start of `s`: the length of the
      match and the link text, or `(0, [])` when it does not match. */
  function LinkAt(s: String): (m: (nat, String))
    ensures m.0 <= |s|
    ensures m.0 > 0 ==> 1 + |m.1| < m.0 && m.1 != [] && s[0] == '[' && m.1 == s[1..1 + |m.1|]
  {
    if s == [] || s[0] != '[' then (0, [])
    else
      var j := 1 + IndexOf(']', s[1..]);
      if j == 1 || j + 1 >= |s| || s[j + 1] != '(' then (0, [])
      else
        var k := j + 2 + IndexOf(')', s[j + 2..]);
        if k == j + 2 || k >= |s| then (0, [])
        else (k + 1, s[1..j])
  }

  /** `re.sub(r"\[([^\]]+)\]\([^)]+\)", r"\1", s)`: a link becomes its text. */
  function StripLinkSyntax(s: String): (r: String)
    decreases |s|
  {
    if s == [] then []
    else if LinkAt(s).0 > 0 then LinkAt(s).1 + StripLinkSyntax(s[LinkAt(s).0..])
    else [s[0]] + StripLinkSyntax(s[1..])
  }

  /** The pattern `<https?://[^>]+>` at the start of `s`: the match length or 0. */
  function UrlAt(s: String): (n: nat)
    ensures n <= |s|
    ensures n > 0 ==> n >= 9 && s[0] == '<'
  {
    if |s| < 5 || s[..5] != "<http" then 0
    else
      var o := if |s| > 5 && s[5] == 's' then 6 else 5;
      if |s| < o + 3 || s[o..o + 3] != "://" then 0
      else
        var p := o + 3;
        var m := IndexOf('>', s[p..]);
        if m == 0 || p + m >= |s| then 0 else p + m + 1
  }

  /** `re.sub(r"<https?://[^>]+>", " ", s)`: a bare angle-bracket URL becomes a space. */
  function StripUrls(s: String): (r: String)
    decreases |s|
  {
    if s == [] then []
    else if UrlAt(s) > 0 then [' '] + StripUrls(s[UrlAt(s)..])
    else [s[0]] + StripUrls(s[1..])
  }

  /** `strip_markdown_links` (find_duplicate_wording.py:37-40). */
  function StripMarkdownLinks(s: String): String {
    StripUrls(StripLinkSyntax(s))
  }

  lemma {:induction false} LinkSyntaxOnlyRemoves(s: String)
    ensures OnlyRemoves(StripLinkSyntax(s), s)
    ensures '[' !in s ==> StripLinkSyntax(s) == s
    decreases |s|
  {
    if s == [] {
    } else if LinkAt(s).0 > 0 {
      var (n, text) := LinkAt(s);
      LinkSyntaxOnlyRemoves(s[n..]);
      LinkTextOnlyRemoves(s);
      assert s == s[..n] + s[n..];
      OnlyRemovesReplace(StripLinkSyntax(s[n..]), s[n..], s[..n], text);
    } else {
      LinkSyntaxOnlyRemoves(s[1..]);
      assert s == [s[0]] + s[1..];
      OnlyRemovesKeep(StripLinkSyntax(s[1..]), s[1..], s[0]);
    }
  }

  lemma {:induction false} LinkTextOnlyRemoves(s: String)
    requires LinkAt(s).0 > 0
    ensures OnlyRemoves(LinkAt(s).1, s[..LinkAt(s).0])
  {
    var (n, text) := LinkAt(s);
    assert s[..n] == s[..1] + text + s[1 + |text|..n];
    assert multiset(s[..n]) == multiset(s[..1]) + multiset(text) + multiset(s[1 + |text|..n]);
  }

  lemma {:induction false} UrlsOnlyRemove(s: String)
    ensures OnlyRemoves(StripUrls(s), s)
    ensures '<' !in s ==> StripUrls(s) == s
    decreases |s|
  {
    if s == [] {
    } else if UrlAt(s) > 0 {
      var n := UrlAt(s);
      UrlsOnlyRemove(s[n..]);
      assert s == s[..n] + s[n..];
      OnlyRemovesReplace(StripUrls(s[n..]), s[n..], s[..n], [' ']);
    } else {
      UrlsOnlyRemove(s[1..]);
      assert s == [s[0]] + s[1..];
      OnlyRemovesKeep(StripUrls(s[1..]), s[1..], s[0]);
    }
  }

  /** A bare URL `<http://...>` or `<https://...>` is replaced by one space
      and scanning resumes after the closing '>'. */
  lemma {:induction false} UrlBecomesSpace(sch: String, url: String, rest: String)
    requires sch == "http" || sch == "https"
    requires url != [] && '>' !in url
    ensures StripUrls("<" + sch + "://" + url + ">" + rest) == " " + StripUrls(rest)
  {
    var s := "<" + sch + "://" + url + ">" + rest;
    var p := |sch| + 4;
    assert s[..5] == "<http";
    assert |s| > 5 && (s[5] == 's' <==> sch == "https");
    assert s[p - 3..p] == "://";
    assert s[p..] == url + [ '>' ] + rest;
    IndexOfFirst('>', url, rest);
    assert UrlAt(s) == p + |url| + 1;
    assert s[p + |url| + 1..] == rest;
  }

  /** Outside a link, `strip_markdown_links` turns a bare URL into one space:
      the link substitution leaves text without '[' alone, and the URL
      substitution then replaces the URL. */
  lemma {:induction false} MarkdownUrlBecomesSpace(sch: String, url: String, rest: String)
    requires sch == "http" || sch == "https"
    requires url != [] && '>' !in url
    requires '[' !in url && '[' !in rest
    ensures StripMarkdownLinks("<" + sch + "://" + url + ">" + rest) == " " + StripUrls(rest)
  {
    var s := "<" + sch + "://" + url + ">" + rest;
    assert '[' !in s by {
      assert s == "<" + sch + "://" + url + ">" + rest;
      assert forall i :: 0 <= i < |s| ==> s[i] != '[' by {
        forall i | 0 <= i < |s| ensures s[i] != '[' {
          if i < |sch| + 4 {
          } else if i < |sch| + 4 + |url| {
            assert s[i] == url[i - |sch| - 4];
          } else if i > |sch| + 4 + |url| {
            assert s[i] == rest[i - |sch| - 5 - |url|];
          }
        }
      }
    }
    LinkSyntaxOnlyRemoves(s);
    UrlBecomesSpace(sch, url, rest);
  }

  /** Link cleaning removes material only, and text with neither '[' nor '<'
      passes through unchanged. */
  lemma {:induction false} MarkdownLinksOnlyRemove(s: String)
    ensures OnlyRemoves(StripMarkdownLinks(s), s)
    ensures '[' !in s && '<' !in s ==> StripMarkdownLinks(s) == s
  {
    LinkSyntaxOnlyRemoves(s);
    UrlsOnlyRemove(StripLinkSyntax(s));
  }

  /** A well-formed link `[text](url)` is replaced by its text and scanning
      resumes after the closing parenthesis. */
  lemma {:induction false} LinkKeepsText(text: String, url: String, rest: String)
    requires text != [] && ']' !in text
    requires url != [] && ')' !in url
    ensures StripLinkSyntax("[" + text + "](" + url + ")" + rest) == text + StripLinkSyntax(rest)
  {
    var s := "[" + text + "](" + url + ")" + rest;
    LinkAtOf(text, url, rest);
    assert s[|text| + |url| + 4..] == rest;
  }

  /** The link pattern matches a whole `[text](url)` and captures `text`. */
  lemma {:induction false} LinkAtOf(text: String, url: String, rest: String)
    requires text != [] && ']' !in text
    requires url != [] && ')' !in url
    ensures LinkAt("[" + text + "](" + url + ")" + rest) == (|text| + |url| + 4, text)
  {
    var s := "[" + text + "](" + url + ")" + rest;
    var j := 1 + |text|;
    assert s[1..] == text + [']'] + ("(" + url + ")" + rest);
    IndexOfFirst(']', text, "(" + url + ")" + rest);
    assert s[j + 1] == '(';
    assert s[j + 2..] == url + [')'] + rest;
    IndexOfFirst(')', url, rest);
    assert s[1..j] == text;
  }

  // ---------------------------------------------------------------------
  // strip_emphasis_and_html

  /** Length of a match of `</?(i|em|strong|b)>` (case-insensitive) at the start of `s`, or 0. */
  function TagAt(s: String): (n: nat)
    ensures n <= |s|
    ensures n > 0 ==> n >= 3 && s[0] == '<'
  {
    if s == [] || s[0] != '<' then 0
    else
      var o := if |s| > 1 && s[1] == '/' then 2 else 1;
      var len := TagNameAt(s[o..]);
      if len == 0 then 0 else o + len + 1
  }

  /** Length of the tag name of `(i|em|strong|b)>` (case-insensitive) at the
      start of `t`, or 0. */
  function TagNameAt(t: String): (len: nat)
    ensures len > 0 ==> len < |t| && t[len] == '>'
  {
    if |t| >= 2 && Lower(t[..1]) == "i" && t[1] == '>' then 1
    else if |t| >= 3 && Lower(t[..2]) == "em" && t[2] == '>' then 2
    else if |t| >= 7 && Lower(t[..6]) == "strong" && t[6] == '>' then 6
    else if |t| >= 2 && Lower(t[..1]) == "b" && t[1] == '>' then 1
    else 0
  }

  lemma {:induction false} TagNameI(name: String, rest: String)
    requires Lower(name) == "i"
    ensures |name| == 1 && TagNameAt(name + ">" + rest) == 1
  {
    var t := name + ">" + rest;
    assert t[..1] == name && t[1] == '>';
  }

  lemma {:induction false} TagNameEm(name: String, rest: String)
    requires Lower(name) == "em"
    ensures |name| == 2 && TagNameAt(name + ">" + rest) == 2
  {
    var t := name + ">" + rest;
    assert t[..2] == name && t[2] == '>';
    assert LowerChar(t[0]) == 'e';
    assert Lower(t[..1]) == "e";
  }

  lemma {:induction false} TagNameStrong(name: String, rest: String)
    requires Lower(name) == "strong"
    ensures TagNameAt(name + ">" + rest) == 6
  {
    var t := name + ">" + rest;
    assert t[..6] == name && t[6] == '>';
    assert LowerChar(t[0]) == 's';
    assert Lower(t[..1]) == "s";
    assert Lower(t[..2])[0] == 's';
  }

  lemma {:induction false} TagNameB(name: String, rest: String)
    requires Lower(name) == "b"
    ensures |name| == 1 && TagNameAt(name + ">" + rest) == 1
  {
    assert |name| == |Lower(name)| == 1;
    var t := name + ">" + rest;
    assert t[..1] == name && t[1] == '>';
    assert Lower(t[..1]) == "b";
    assert |t| >= 3 ==> Lower(t[..2])[1] == '>';
  }

  /** No backtick occurs in a tag. */
  lemma {:induction false} TagHasNoBacktick(s: String)
    requires TagAt(s) > 0
    ensures '`' !in s[..TagAt(s)]
  {
    var o := if |s| > 1 && s[1] == '/' then 2 else 1;
    var n := TagAt(s);
    TagNameHasNoBacktick(s[o..]);
    forall i | 0 <= i < n ensures s[i] != '`' {
      if o <= i < n {
        assert s[i] == s[o..][..TagNameAt(s[o..]) + 1][i - o];
      }
    }
  }

  lemma {:induction false} TagNameHasNoBacktick(t: String)
    requires TagNameAt(t) > 0
    ensures '`' !in t[..TagNameAt(t) + 1]
  {
    var len := TagNameAt(t);
    forall i | 0 <= i < len ensures t[i] != '`' {
      assert Lower(t[..len])[i] == LowerChar(t[i]);
    }
  }

  /** `re.sub(r"</?(i|em|strong|b)>", " ", s, flags=re.IGNORECASE)`. */
  function StripHtmlEmphasis(s: String): (r: String)
    decreases |s|
  {
    if s == [] then []
    else if TagAt(s) > 0 then [' '] + StripHtmlEmphasis(s[TagAt(s)..])
    else [s[0]] + StripHtmlEmphasis(s[1..])
  }

  lemma {:induction false} HtmlEmphasisOnlyRemoves(s: String)
    ensures OnlyRemoves(StripHtmlEmphasis(s), s)
    decreases |s|
  {
    if s == [] {
    } else if TagAt(s) > 0 {
      var n := TagAt(s);
      HtmlEmphasisOnlyRemoves(s[n..]);
      assert s == s[..n] + s[n..];
      OnlyRemovesReplace(StripHtmlEmphasis(s[n..]), s[n..], s[..n], [' ']);
    } else {
      HtmlEmphasisOnlyRemoves(s[1..]);
      assert s == [s[0]] + s[1..];
      OnlyRemovesKeep(StripHtmlEmphasis(s[1..]), s[1..], s[0]);
    }
  }

  lemma {:induction false} HtmlEmphasisKeepsBackticks(s: String)
    ensures Count('`', StripHtmlEmphasis(s)) == Count('`', s)
    decreases |s|
  {
    if s == [] {
    } else if TagAt(s) > 0 {
      HtmlEmphasisKeepsBackticks(s[TagAt(s)..]);
      TagKeepsBackticks(s);
    } else {
      HtmlEmphasisKeepsBackticks(s[1..]);
      NonTagKeepsBackticks(s);
    }
  }

  /** The step of `HtmlEmphasisKeepsBackticks` at a tag: the tag holds no
      backtick and becomes a space. */
  lemma {:induction false} TagKeepsBackticks(s: String)
    requires TagAt(s) > 0
    requires Count('`', StripHtmlEmphasis(s[TagAt(s)..])) == Count('`', s[TagAt(s)..])
    ensures Count('`', StripHtmlEmphasis(s)) == Count('`', s)
  {
    var n := TagAt(s);
    var rest := s[n..];
    assert StripHtmlEmphasis(s) == [' '] + StripHtmlEmphasis(rest);
    assert s == s[..n] + rest;
    TagHasNoBacktick(s);
    CountZero('`', s[..n]);
    CountConcat('`', s[..n], rest);
    CountConcat('`', [' '], StripHtmlEmphasis(rest));
  }

  /** The step of `HtmlEmphasisKeepsBackticks` elsewhere: the character is kept. */
  lemma {:induction false} NonTagKeepsBackticks(s: String)
    requires s != [] && TagAt(s) == 0
    requires Count('`', StripHtmlEmphasis(s[1..])) == Count('`', s[1..])
    ensures Count('`', StripHtmlEmphasis(s)) == Count('`', s)
  {
    var rest := s[1..];
    assert StripHtmlEmphasis(s) == [s[0]] + StripHtmlEmphasis(rest);
    assert s == [s[0]] + rest;
    CountConcat('`', [s[0]], rest);
    CountConcat('`', [s[0]], StripHtmlEmphasis(rest));
  }

  lemma {:induction false} HtmlEmphasisIdentity(s: String)
    requires '<' !in s
    ensures StripHtmlEmphasis(s) == s
    decreases |s|
  {
    if s != [] {
      HtmlEmphasisIdentity(s[1..]);
    }
  }

  /** The tag names the emphasis pattern accepts, once lower-cased. */
  predicate IsEmphasisTagName(w: String) {
    w == "i" || w == "em" || w == "strong" || w == "b"
  }

  /** An emphasis tag, opening or closing and in any letter case, is replaced
      by one space. */
  lemma {:induction false} HtmlTagBecomesSpace(open: String, name: String, rest: String)
    requires open == "<" || open == "</"
    requires IsEmphasisTagName(Lower(name))
    ensures StripHtmlEmphasis(open + name + ">" + rest) == " " + StripHtmlEmphasis(rest)
  {
    var s := open + name + ">" + rest;
    var o := |open|;
    assert s[0] == '<';
    assert (|s| > 1 && s[1] == '/') == (o == 2) by {
      if o == 1 { assert s[1] == (name + ">" + rest)[0]; assert name[0] != '/' by { assert LowerChar(name[0]) == Lower(name)[0]; } }
    }
    assert s[o..] == name + ">" + rest;
    var ln := Lower(name);
    if ln == "i" {
      TagNameI(name, rest);
    } else if ln == "em" {
      TagNameEm(name, rest);
    } else if ln == "strong" {
      TagNameStrong(name, rest);
    } else {
      TagNameB(name, rest);
    }
    assert TagAt(s) == o + |name| + 1;
    assert s[o + |name| + 1..] == rest;
  }

  /** `re.sub(r"(\*\*|\*|__|_)", " ", s)`: "**" and "__" become one space,
      a lone '*' or '_' one space. */
  function StripEmphasisMarkers(s: String): (r: String)
    decreases |s|
  {
    if s == [] then []
    else if MarkerAt(s) > 0 then [' '] + StripEmphasisMarkers(s[MarkerAt(s)..])
    else [s[0]] + StripEmphasisMarkers(s[1..])
  }

  /** Length of the alternative of `\*\*|\*|__|_` that matches at the start of `s`
      (tried in that order), or 0. */
  function MarkerAt(s: String): (n: nat)
    ensures n <= 2 && n <= |s|
    ensures forall i :: 0 <= i < n ==> s[i] == '*' || s[i] == '_'
    ensures s != [] && (s[0] == '*' || s[0] == '_') ==> n > 0
  {
    if |s| >= 2 && s[0] == '*' && s[1] == '*' then 2
    else if s != [] && s[0] == '*' then 1
    else if |s| >= 2 && s[0] == '_' && s[1] == '_' then 2
    else if s != [] && s[0] == '_' then 1
    else 0
  }

  /** Markers disappear. */
  lemma {:induction false} EmphasisMarkersRemoved(s: String)
    ensures '*' !in StripEmphasisMarkers(s) && '_' !in StripEmphasisMarkers(s)
    decreases |s|
  {
    if s != [] {
      EmphasisMarkersRemoved(s[1..]);
      if |s| >= 2 { EmphasisMarkersRemoved(s[2..]); }
    }
  }

  /** A marker becomes one space and scanning resumes after it: "**" and
      "__" as a whole, a lone '*' or '_' when the next character is not the
      same marker. */
  lemma {:induction false} MarkerBecomesSpace(m: String, rest: String)
    requires m == "**" || m == "__" || ((m == "*" || m == "_") && (rest == [] || rest[0] != m[0]))
    ensures StripEmphasisMarkers(m + rest) == " " + StripEmphasisMarkers(rest)
  {
    assert (m + rest)[|m|..] == rest;
    assert MarkerAt(m + rest) == |m|;
  }

  /** A character that is not a marker passes through in place. */
  lemma {:induction false} NonMarkerKept(c: char, rest: String)
    requires c != '*' && c != '_'
    ensures StripEmphasisMarkers([c] + rest) == [c] + StripEmphasisMarkers(rest)
  {
    assert ([c] + rest)[1..] == rest;
  }

  /** Text without markers is unchanged. */
  lemma {:induction false} EmphasisIdentity(s: String)
    requires '*' !in s && '_' !in s
    ensures StripEmphasisMarkers(s) == s
    decreases |s|
  {
    if s != [] {
      assert s == [s[0]] + s[1..];
      EmphasisIdentity(s[1..]);
      NonMarkerKept(s[0], s[1..]);
    }
  }

  /** Words joined by a marker are kept apart, as the substitution by a
      space intends: "foo_bar" becomes "foo bar". */
  lemma {:induction false} MarkerSeparatesWords()
    ensures StripEmphasisMarkers("foo_bar") == "foo bar"
  {
    assert "foo_bar" == "foo" + ("_" + "bar");
    KeepPrefix("foo", "_" + "bar");
    MarkerBecomesSpace("_", "bar");
    EmphasisIdentity("bar");
    assert "foo" + (" " + "bar") == "foo bar";
  }

  /** Every character other than a space or a marker keeps its count. */
  lemma {:induction false} EmphasisMarkersKeepOthers(s: String, c: char)
    requires c != ' ' && c != '*' && c != '_'
    ensures Count(c, StripEmphasisMarkers(s)) == Count(c, s)
    decreases |s|
  {
    if s != [] {
      if MarkerAt(s) > 0 {
        EmphasisMarkersKeepOthers(s[MarkerAt(s)..], c);
        MarkerKeepsOthers(s, c);
      } else {
        EmphasisMarkersKeepOthers(s[1..], c);
        NonMarkerKeepsOthers(s, c);
      }
    }
  }

  /** The step of `EmphasisMarkersKeepOthers` at a marker: the marker holds
      no `c` and becomes a space. */
  lemma {:induction false} MarkerKeepsOthers(s: String, c: char)
    requires c != ' ' && c != '*' && c != '_'
    requires MarkerAt(s) > 0
    requires Count(c, StripEmphasisMarkers(s[MarkerAt(s)..])) == Count(c, s[MarkerAt(s)..])
    ensures Count(c, StripEmphasisMarkers(s)) == Count(c, s)
  {
    var n := MarkerAt(s);
    var tail := StripEmphasisMarkers(s[n..]);
    assert StripEmphasisMarkers(s) == [' '] + tail;
    CountConcat(c, [' '], tail);
    assert s == s[..n] + s[n..];
    CountConcat(c, s[..n], s[n..]);
    CountZero(c, s[..n]);
  }

  /** The step of `EmphasisMarkersKeepOthers` elsewhere: the character is kept. */
  lemma {:induction false} NonMarkerKeepsOthers(s: String, c: char)
    requires s != [] && MarkerAt(s) == 0
    requires Count(c, StripEmphasisMarkers(s[1..])) == Count(c, s[1..])
    ensures Count(c, StripEmphasisMarkers(s)) == Count(c, s)
  {
    var tail := StripEmphasisMarkers(s[1..]);
    assert StripEmphasisMarkers(s) == [s[0]] + tail;
    CountConcat(c, [s[0]], tail);
    assert s == [s[0]] + s[1..];
    CountConcat(c, [s[0]], s[1..]);
  }

  /** `strip_emphasis_and_html` (find_duplicate_wording.py:103-111). */
  function StripEmphasisAndHtml(s: String): String {
    StripEmphasisMarkers(StripHtmlEmphasis(s))
  }

  /** Outside HTML tags, `strip_emphasis_and_html` turns a marker into one
      space and keeps the text around it in place. */
  lemma {:induction false} EmphasisAndHtmlMarker(pre: String, m: String, post: String)
    requires '*' !in pre && '_' !in pre && '*' !in post && '_' !in post
    requires '<' !in pre && '<' !in post
    requires m == "**" || m == "__" || m == "*" || m == "_"
    ensures StripEmphasisAndHtml(pre + m + post) == pre + " " + post
  {
    var s := pre + m + post;
    assert '<' !in m;
    assert '<' !in s;
    calc {
      StripEmphasisAndHtml(s);
      { HtmlEmphasisIdentity(s); }
      StripEmphasisMarkers(s);
      { assert s == pre + (m + post); KeepPrefix(pre, m + post); }
      pre + StripEmphasisMarkers(m + post);
      { MarkerBecomesSpace(m, post); }
      pre + (" " + StripEmphasisMarkers(post));
      { EmphasisIdentity(post); }
      pre + (" " + post);
    }
  }

  /** Marker-free text in front passes through in place. */
  lemma {:induction false} KeepPrefix(pre: String, t: String)
    requires '*' !in pre && '_' !in pre
    ensures StripEmphasisMarkers(pre + t) == pre + StripEmphasisMarkers(t)
    decreases |pre|
  {
    if pre != [] {
      var c, tail := pre[0], pre[1..];
      assert c in pre;
      assert '*' !in tail && '_' !in tail by {
        assert forall x :: x in tail ==> x in pre;
      }
      assert pre == [c] + tail;
      calc {
        StripEmphasisMarkers(pre + t);
        { assert pre + t == [c] + (tail + t); }
        StripEmphasisMarkers([c] + (tail + t));
        { NonMarkerKept(c, tail + t); }
        [c] + StripEmphasisMarkers(tail + t);
        { KeepPrefix(tail, t); }
        [c] + (tail + StripEmphasisMarkers(t));
        pre + StripEmphasisMarkers(t);
      }
    } else {
      assert pre + t == t;
    }
  }

  /** Emphasis cleaning removes material only, leaves no '*' or '_', and
      keeps every backtick. */
  lemma {:induction false} EmphasisAndHtmlOnlyRemoves(s: String)
    ensures OnlyRemoves(StripEmphasisAndHtml(s), s)
    ensures '*' !in StripEmphasisAndHtml(s) && '_' !in StripEmphasisAndHtml(s)
    ensures Count('`', StripEmphasisAndHtml(s)) == Count('`', s)
  {
    HtmlEmphasisOnlyRemoves(s);
    HtmlEmphasisKeepsBackticks(s);
    var h := StripHtmlEmphasis(s);
    EmphasisMarkersRemoved(h);
    var r := StripEmphasisMarkers(h);
    EmphasisMarkersKeepOthers(h, '`');
    assert OnlyRemoves(r, h) by {
      forall c | c != ' ' ensures Count(c, r) <= Count(c, h) {
        if c == '*' || c == '_' {
          CountZero(c, r);
        } else {
          EmphasisMarkersKeepOthers(h, c);
        }
      }
    }
  }
}
