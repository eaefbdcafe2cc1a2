/** Markdown-ish text to Telegram HTML (src/channel.rs:2582-2681): the transducer, and the buffer loops
    proved to compute it. */
module TelegramHtml {
  import opened Text
  import opened Chunker

  // --- Escaping --------------------------------------------------------------

  function Replace(s: string, c: char, sub: string): string {
    if s == [] then "" else (if s[0] == c then sub else [s[0]]) + Replace(s[1..], c, sub)
  }

  /** Three passes, ampersand first. */
  function EscapeHtml(s: string): string {
    Replace(Replace(Replace(s, '&', "&amp;"), '<', "&lt;"), '>', "&gt;")
  }

  function EscapeChar(c: char): string {
    if c == '&' then "&amp;" else if c == '<' then "&lt;" else if c == '>' then "&gt;" else [c]
  }

  function Escaped(s: string): string {
    if s == [] then "" else EscapeChar(s[0]) + Escaped(s[1..])
  }

  lemma {:induction false} ReplaceConcat(a: string, b: string, c: char, sub: string)
    ensures Replace(a + b, c, sub) == Replace(a, c, sub) + Replace(b, c, sub)
  {
    if a == [] {
      assert a + b == b;
    } else {
      assert (a + b)[1..] == a[1..] + b;
      ReplaceConcat(a[1..], b, c, sub);
    }
  }

  lemma ReplaceAbsent(s: string, c: char, sub: string)
    requires c !in s
    ensures Replace(s, c, sub) == s
  {
    if s != [] {
      ReplaceAbsent(s[1..], c, sub);
    }
  }

  lemma EscapeOne(c: char)
    ensures EscapeHtml([c]) == EscapeChar(c)
  {
    hide Replace;
    var x := Replace([c], '&', "&amp;");
    ReplaceSingle(c, '&', "&amp;");
    if c == '&' {
      ReplaceAbsent("&amp;", '<', "&lt;");
      ReplaceAbsent("&amp;", '>', "&gt;");
    } else {
      ReplaceSingle(c, '<', "&lt;");
      if c == '<' {
        ReplaceAbsent("&lt;", '>', "&gt;");
      } else {
        ReplaceSingle(c, '>', "&gt;");
      }
    }
  }

  lemma ReplaceSingle(c: char, d: char, sub: string)
    ensures Replace([c], d, sub) == if c == d then sub else [c]
  {
    assert [c][1..] == [];
    assert Replace([], d, sub) == "";
  }

  /** The three passes are one pass: no escape is escaped again. */
  lemma {:induction false} EscapeIsOnePass(s: string)
    ensures EscapeHtml(s) == Escaped(s)
  {
    hide Replace;
    if s == [] {
      ReplaceAbsent("", '&', "&amp;");
      ReplaceAbsent("", '<', "&lt;");
      ReplaceAbsent("", '>', "&gt;");
    } else {
      assert s == [s[0]] + s[1..];
      var a1, b1 := Replace([s[0]], '&', "&amp;"), Replace(s[1..], '&', "&amp;");
      ReplaceConcat([s[0]], s[1..], '&', "&amp;");
      var a2, b2 := Replace(a1, '<', "&lt;"), Replace(b1, '<', "&lt;");
      ReplaceConcat(a1, b1, '<', "&lt;");
      ReplaceConcat(a2, b2, '>', "&gt;");
      EscapeOne(s[0]);
      EscapeIsOnePass(s[1..]);
    }
  }

  // --- The transducer --------------------------------------------------------

  const BULLET := "\U{2022} "

  ghost predicate NoPair(s: string) {
    forall i :: !PairAt(s, '*', '*', i)
  }

  /** The next span of a line: the text before it, its body, and what follows it. */
  datatype Span =
    | Plain(text: string)
    | CodeSpan(text: string, body: string, rest: string)
    | BoldSpan(text: string, body: string, rest: string)
    | Unclosed(text: string, marker: string, rest: string)

  /** The line that a span was read from. */
  function Source(span: Span): string {
    match span
    case Plain(text) => text
    case CodeSpan(text, body, rest) => text + ("`" + (body + ("`" + rest)))
    case BoldSpan(text, body, rest) => text + ("**" + (body + ("**" + rest)))
    case Unclosed(text, marker, rest) => text + (marker + rest)
  }

  function NextSpan(line: string): (r: Span)
    ensures Source(r) == line
    ensures r.CodeSpan? ==> '`' !in r.text + r.body
    ensures r.BoldSpan? ==> '`' !in r.text && NoPair(r.text) && NoPair(r.body)
    ensures r.Plain? ==> '`' !in line && NoPair(line)
    ensures r.Unclosed? ==> r.marker == "`" || (r.marker == "**" && NoPair(r.rest))
  {
    match (IndexOf(line, '`'), FindPair(line, '*', '*'))
    case (None, None) => Plain(line)
    case (Some(i), None) => NextCode(line, i)
    case (None, Some(j)) => NextBold(line, j)
    case (Some(i), Some(j)) => if i < j then NextCode(line, i) else NextBold(line, j)
  }

  function NextCode(line: string, i: nat): (r: Span)
    requires i < |line| && line[i] == '`' && forall k :: 0 <= k < i ==> line[k] != '`'
    ensures Source(r) == line && !r.Plain? && !r.BoldSpan?
    ensures r.CodeSpan? ==> '`' !in r.text + r.body
    ensures r.Unclosed? ==> r.marker == "`"
  {
    var after := line[i + 1..];
    CutOne(line, i, '`');
    AbsentBefore(line, i, '`');
    match IndexOf(after, '`')
    case Some(j) => CutOne(after, j, '`'); AbsentBefore(after, j, '`'); CodeSpan(line[..i], after[..j], after[j + 1..])
    case None => Unclosed(line[..i], "`", after)
  }

  function NextBold(line: string, j: nat): (r: Span)
    requires j + 1 < |line| && PairAt(line, '*', '*', j) && forall k :: k < j ==> !PairAt(line, '*', '*', k)
    requires forall k :: 0 <= k < j ==> line[k] != '`'
    ensures Source(r) == line && !r.Plain? && !r.CodeSpan?
    ensures r.BoldSpan? ==> '`' !in r.text && NoPair(r.text) && NoPair(r.body)
    ensures r.Unclosed? ==> r.marker == "**" && NoPair(r.rest)
  {
    var after := line[j + 2..];
    PrefixNoPair(line, j);
    CutPair(line, j);
    match FindPair(after, '*', '*')
    case Some(k) => PrefixNoPair(after, k); CutPair(after, k); BoldSpan(line[..j], after[..k], after[k + 2..])
    case None => Unclosed(line[..j], "**", after)
  }

  lemma AbsentBefore(s: string, i: nat, c: char)
    requires i <= |s| && forall k :: 0 <= k < i ==> s[k] != c
    ensures c !in s[..i]
  {
  }

  lemma CutOne(s: string, i: nat, c: char)
    requires i < |s| && s[i] == c
    ensures s == s[..i] + ([c] + s[i + 1..])
  {
  }

  lemma CutPair(s: string, i: nat)
    requires PairAt(s, '*', '*', i)
    ensures s == s[..i] + ("**" + s[i + 2..])
  {
  }

  lemma PrefixNoPair(s: string, n: nat)
    requires n <= |s| && forall k :: k < n ==> !PairAt(s, '*', '*', k)
    ensures NoPair(s[..n])
  {
    forall i ensures !PairAt(s[..n], '*', '*', i) {
      assert i < n ==> !PairAt(s, '*', '*', i);
    }
  }

  function Inline(line: string): string
    decreases |line|, 1
  {
    if "- " <= line then BULLET + Spans(line[2..]) else Spans(line)
  }

  function Spans(line: string): string
    decreases |line|, 0
  {
    match NextSpan(line)
    case Plain(text) => EscapeHtml(text)
    case CodeSpan(text, body, rest) => EscapeHtml(text) + ("<code>" + (EscapeHtml(body) + ("</code>" + Spans(rest))))
    case BoldSpan(text, body, rest) => EscapeHtml(text) + ("<b>" + (Inline(body) + ("</b>" + Spans(rest))))
    case Unclosed(text, marker, rest) => EscapeHtml(text) + (marker + EscapeHtml(rest))
  }

  const LANGUAGE := "<code class=\"language-"
  const CLOSE_FENCE := "</code></pre>"

  function OpenFence(info: string): string {
    if info == "" then "<pre><code>" else "<pre>" + (LANGUAGE + (info + "\">"))
  }

  /** Output for one line, given whether a fence is open before it. */
  function LineHtml(line: string, inFence: bool): string {
    match FenceInfo(line)
    case Some(info) => if inFence then CLOSE_FENCE + "\n" else OpenFence(info)
    case None => if inFence then EscapeHtml(line) else Inline(line)
  }

  function FenceAfter(line: string, inFence: bool): bool {
    if FenceInfo(line).Some? then !inFence else inFence
  }

  /** The output from `text` on. */
  function Html(text: string, inFence: bool): string
    decreases |text|
  {
    if text == [] then (if inFence then CLOSE_FENCE else "")
    else
      var n := LineLen(text);
      LineHtml(text[..n], inFence) + Html(text[n..], FenceAfter(text[..n], inFence))
  }

  lemma Assoc(a: string, b: string, c: string)
    ensures (a + b) + c == a + (b + c)
  {
  }

  /** The source's buffer loop over the lines. */
  method ToTelegramHtml(text: string) returns (out: string)
    ensures out == Html(text, false)
  {
    hide *;
    out := "";
    var inFence := false;
    var pos := 0;
    assert text[0..] == text;
    while pos < |text|
      invariant pos <= |text|
      invariant Html(text, false) == out + Html(text[pos..], inFence)
    {
      var n := LineLen(text[pos..]);
      var line := text[pos..][..n];
      ghost var before, html := out, LineHtml(line, inFence);
      ghost var rest := Html(text[pos + n..], FenceAfter(line, inFence));
      assert Html(text[pos..], inFence) == html + rest by {
        HtmlUnfolds(text[pos..], inFence);
        assert text[pos..][n..] == text[pos + n..];
      }
      Assoc(before, html, rest);
      LineHtmlCases(line, inFence);
      var info := FenceInfo(line);
      if info.Some? {
        if inFence {
          out := out + (CLOSE_FENCE + "\n");
          inFence := false;
        } else if info.value == "" {
          out := out + "<pre><code>";
          inFence := true;
        } else {
          out := out + ("<pre>" + (LANGUAGE + (info.value + "\">")));
          inFence := true;
        }
      } else if inFence {
        out := out + EscapeHtml(line);
      } else {
        out := TelegramInline(line, out);
      }
      pos := pos + n;
    }
    assert text[pos..] == [];
    HtmlOfNothing(inFence);
    if inFence {
      out := out + CLOSE_FENCE;
    }
  }

  lemma HtmlUnfolds(text: string, inFence: bool)
    requires text != []
    ensures var n := LineLen(text);
            && 0 < n <= |text|
            && Html(text, inFence) == LineHtml(text[..n], inFence) + Html(text[n..], FenceAfter(text[..n], inFence))
  {
    hide LineHtml, FenceAfter;
  }

  lemma HtmlOfNothing(inFence: bool)
    ensures Html([], inFence) == if inFence then CLOSE_FENCE else ""
  {
  }

  lemma LineHtmlCases(line: string, inFence: bool)
    ensures FenceInfo(line).None? ==> !FenceAfter(line, inFence) == !inFence
    ensures FenceInfo(line).None? ==> LineHtml(line, inFence) == if inFence then EscapeHtml(line) else Inline(line)
    ensures FenceInfo(line).Some? ==> FenceAfter(line, inFence) == !inFence
    ensures FenceInfo(line).Some? && inFence ==> LineHtml(line, inFence) == CLOSE_FENCE + "\n"
    ensures FenceInfo(line).Some? && !inFence ==>
              LineHtml(line, inFence) ==
              (if FenceInfo(line).value == "" then "<pre><code>"
               else "<pre>" + (LANGUAGE + (FenceInfo(line).value + "\">")))
  {
    hide FenceInfo, EscapeHtml, Inline;
  }

  /** The source's span loop; bold content recurses. */
  method TelegramInline(line: string, buffer: string) returns (out: string)
    ensures out == buffer + Inline(line)
    decreases |line|
  {
    hide *;
    out := buffer;
    var rest := line;
    InlineUnfolds(line);
    if "- " <= rest {
      out := out + BULLET;
      rest := rest[2..];
      Assoc(buffer, BULLET, Spans(rest));
    }
    while rest != []
      invariant |rest| <= |line|
      invariant buffer + Inline(line) == out + Spans(rest)
      decreases |rest|
    {
      var code, bold := IndexOf(rest, '`'), FindPair(rest, '*', '*');
      SearchesFit(rest);
      if code.None? && bold.None? {
        PlainSpans(rest, out);
        out := out + EscapeHtml(rest);
        return;
      }
      if code.Some? && (bold.None? || code.value < bold.value) {
        CodeSpans(rest, out, code, bold);
        var text, after := rest[..code.value], rest[code.value + 1..];
        var close := IndexOf(after, '`');
        SearchesFit(after);
        out := out + EscapeHtml(text);
        if close.None? {
          out := out + "`" + EscapeHtml(after);
          return;
        }
        out := out + "<code>" + EscapeHtml(after[..close.value]) + "</code>";
        rest := after[close.value + 1..];
      } else {
        BoldSpans(rest, out, code, bold);
        var text, after := rest[..bold.value], rest[bold.value + 2..];
        var close := FindPair(after, '*', '*');
        SearchesFit(after);
        out := out + EscapeHtml(text);
        if close.None? {
          out := out + "**" + EscapeHtml(after);
          return;
        }
        out := out + "<b>";
        out := TelegramInline(after[..close.value], out);
        out := out + "</b>";
        rest := after[close.value + 2..];
      }
    }
    SpansOfNothing();
  }

  lemma SearchesFit(line: string)
    ensures IndexOf(line, '`').Some? ==> IndexOf(line, '`').value < |line|
    ensures FindPair(line, '*', '*').Some? ==> FindPair(line, '*', '*').value + 1 < |line|
  {
    hide IndexOf, FindPair;
  }

  lemma PlainSpans(line: string, out: string)
    requires IndexOf(line, '`').None? && FindPair(line, '*', '*').None?
    ensures out + Spans(line) == out + EscapeHtml(line)
  {
    hide *;
    SpansUnfold(line, out);
    NextSpanCases(line, None, None);
  }

  /** One turn of the loop at a backtick. */
  lemma CodeSpans(line: string, out: string, code: Option<nat>, bold: Option<nat>)
    requires code == IndexOf(line, '`') && bold == FindPair(line, '*', '*')
    requires code.Some? && (bold.None? || code.value < bold.value) && code.value < |line|
    ensures var text, after := line[..code.value], line[code.value + 1..];
            out + Spans(line) ==
            match IndexOf(after, '`')
            case Some(j) =>
              out + EscapeHtml(text) + "<code>" + EscapeHtml(after[..j]) + "</code>" + Spans(after[j + 1..])
            case None => out + EscapeHtml(text) + "`" + EscapeHtml(after)
  {
    hide IndexOf, FindPair, Spans, EscapeHtml, NextSpan, NextCode, NextBold, NoPair, Source, Inline, PairAt;
    SpansUnfold(line, out);
    NextSpanCases(line, code, bold);
    NextCodeIs(line, code.value);
  }

  /** One turn of the loop at a pair of asterisks. */
  lemma BoldSpans(line: string, out: string, code: Option<nat>, bold: Option<nat>)
    requires code == IndexOf(line, '`') && bold == FindPair(line, '*', '*')
    requires bold.Some? && !(code.Some? && code.value < bold.value) && bold.value + 1 < |line|
    ensures var text, after := line[..bold.value], line[bold.value + 2..];
            out + Spans(line) ==
            match FindPair(after, '*', '*')
            case Some(j) =>
              out + EscapeHtml(text) + "<b>" + Inline(after[..j]) + "</b>" + Spans(after[j + 2..])
            case None => out + EscapeHtml(text) + "**" + EscapeHtml(after)
  {
    hide IndexOf, FindPair, Spans, EscapeHtml, NextSpan, NextCode, NextBold, NoPair, Source, Inline, PairAt;
    SpansUnfold(line, out);
    NextSpanCases(line, code, bold);
    NextBoldIs(line, bold.value);
  }

  lemma InlineUnfolds(line: string)
    ensures Inline(line) == if "- " <= line then BULLET + Spans(line[2..]) else Spans(line)
  {
    hide Spans;
  }

  /** The output for `line` after `out`, by its next span. */
  lemma SpansUnfold(line: string, out: string)
    ensures var html := out + Spans(line);
            match NextSpan(line)
            case Plain(text) => html == out + EscapeHtml(text)
            case CodeSpan(text, body, rest) =>
              html == out + EscapeHtml(text) + "<code>" + EscapeHtml(body) + "</code>" + Spans(rest)
            case BoldSpan(text, body, rest) =>
              html == out + EscapeHtml(text) + "<b>" + Inline(body) + "</b>" + Spans(rest)
            case Unclosed(text, marker, rest) => html == out + EscapeHtml(text) + marker + EscapeHtml(rest)
  {
    hide NextSpan, EscapeHtml, Inline;
  }

  /** The next span, by what the searches for the two markers find. */
  lemma NextSpanCases(line: string, code: Option<nat>, bold: Option<nat>)
    requires code == IndexOf(line, '`') && bold == FindPair(line, '*', '*')
    ensures code.None? && bold.None? ==> NextSpan(line) == Plain(line)
    ensures code.Some? && (bold.None? || code.value < bold.value) ==> NextSpan(line) == NextCode(line, code.value)
    ensures bold.Some? && !(code.Some? && code.value < bold.value) ==> NextSpan(line) == NextBold(line, bold.value)
  {
    hide IndexOf, FindPair, NextCode, NextBold, Source;
  }

  lemma NextCodeIs(line: string, i: nat)
    requires i < |line| && line[i] == '`' && forall k :: 0 <= k < i ==> line[k] != '`'
    ensures var after := line[i + 1..];
            NextCode(line, i) ==
            match IndexOf(after, '`')
            case Some(j) => CodeSpan(line[..i], after[..j], after[j + 1..])
            case None => Unclosed(line[..i], "`", after)
  {
    hide IndexOf, Source;
  }

  lemma NextBoldIs(line: string, i: nat)
    requires i + 1 < |line| && PairAt(line, '*', '*', i) && forall k :: k < i ==> !PairAt(line, '*', '*', k)
    requires forall k :: 0 <= k < i ==> line[k] != '`'
    ensures var after := line[i + 2..];
            NextBold(line, i) ==
            match FindPair(after, '*', '*')
            case Some(j) => BoldSpan(line[..i], after[..j], after[j + 2..])
            case None => Unclosed(line[..i], "**", after)
  {
    hide FindPair, Source, NoPair;
  }

  lemma SpansOfNothing()
    ensures Spans("") == ""
  {
    EscapeIsOnePass("");
  }
}
