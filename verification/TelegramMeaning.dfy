/** What the Telegram transducer writes, told by how a line is spelled (src/channel.rs:2588-2681). */
module TelegramMeaning {
  import opened Text
  import opened Chunker
  import opened TelegramHtml

  predicate NoStars(s: string) {
    forall i {:trigger s[i]} :: 0 <= i < |s| - 1 && s[i] == '*' ==> s[i + 1] != '*'
  }

  /** The first of the two markers in `text + mark + rest` is the one at the end of `text`. */
  predicate Leads(text: string, mark: string) {
    '`' !in text && NoStars(text + mark)
  }

  lemma StarsAre(s: string)
    ensures NoStars(s) <==> forall i :: !PairAt(s, '*', '*', i)
  {
    if NoStars(s) {
      forall i ensures !PairAt(s, '*', '*', i) {
      }
    } else {
      var i :| 0 <= i < |s| - 1 && s[i] == '*' && s[i + 1] == '*';
      assert PairAt(s, '*', '*', i);
    }
  }

  lemma FirstCode(text: string, rest: string)
    requires '`' !in text
    ensures IndexOf(text + ("`" + rest), '`') == Some(|text|)
  {
    hide IndexOf;
    var s := text + ("`" + rest);
    assert s[|text|] == '`';
    assert forall i :: 0 <= i < |text| ==> s[i] == text[i];
    assert IndexOf(s, '`').Some?;
  }

  lemma FirstStars(text: string, rest: string)
    requires NoStars(text + "*")
    ensures FindPair(text + ("**" + rest), '*', '*') == Some(|text|)
  {
    hide FindPair;
    var s := text + ("**" + rest);
    assert PairAt(s, '*', '*', |text|);
    assert forall i :: 0 <= i <= |text| ==> s[i] == (text + "*")[i];
    forall i | i < |text| ensures !PairAt(s, '*', '*', i) {
      if 0 <= i {
        assert s[i] == (text + "*")[i] && s[i + 1] == (text + "*")[i + 1];
      }
    }
    assert FindPair(s, '*', '*').Some?;
    var n := FindPair(s, '*', '*').value;
    assert n < |text| ==> !PairAt(s, '*', '*', n);
  }

  lemma StarsLater(text: string, rest: string)
    requires NoStars(text)
    ensures var bold := FindPair(text + ("`" + rest), '*', '*'); bold.None? || |text| < bold.value
  {
    hide FindPair;
    var s := text + ("`" + rest);
    assert s[|text|] == '`';
    forall i | i <= |text| ensures !PairAt(s, '*', '*', i) {
      assert 0 <= i < |text| ==> s[i] == text[i];
      assert 0 <= i < |text| - 1 ==> s[i + 1] == text[i + 1];
    }
  }

  lemma CodeLater(text: string, rest: string)
    requires '`' !in text
    ensures var code := IndexOf(text + ("**" + rest), '`'); code.None? || |text| < code.value
  {
    hide IndexOf;
    var s := text + ("**" + rest);
    assert forall i :: 0 <= i < |text| ==> s[i] == text[i];
    assert s[|text|] == '*';
  }

  /** A line without markers is shown as it is. */
  lemma PlainLine(line: string)
    requires '`' !in line && NoStars(line)
    ensures Spans(line) == Escaped(line)
  {
    hide *;
    StarsAre(line);
    EscapeIsOnePass(line);
    PlainSpans(line, "");
    NothingBefore(Spans(line));
    NothingBefore(EscapeHtml(line));
  }

  lemma Pieces(text: string, mark: string, rest: string)
    ensures var line := text + (mark + rest); line[..|text|] == text && line[|text| + |mark|..] == rest
  {
  }

  lemma NothingBefore(s: string)
    ensures "" + s == s
  {
  }

  /** Where the backtick comes first and another follows, what lies between is code, whatever it holds. */
  lemma CodeIsShown(text: string, body: string, rest: string)
    requires '`' !in text && NoStars(text) && '`' !in body
    ensures Spans(text + ("`" + (body + ("`" + rest))))
            == Escaped(text) + "<code>" + Escaped(body) + "</code>" + Spans(rest)
  {
    hide *;
    var after := body + ("`" + rest);
    var line := text + ("`" + after);
    FirstCode(text, after);
    StarsLater(text, after);
    FirstCode(body, rest);
    Pieces(text, "`", after);
    Pieces(body, "`", rest);
    CodeSpans(line, "", Some(|text|), FindPair(line, '*', '*'));
    NothingBefore(Spans(line));
    NothingBefore(EscapeHtml(text));
    EscapeIsOnePass(text);
    EscapeIsOnePass(body);
  }

  /** Where the stars come first and others follow, what lies between is read again, in bold. */
  lemma BoldIsShown(text: string, body: string, rest: string)
    requires '`' !in text && NoStars(text + "*") && NoStars(body + "*")
    ensures Spans(text + ("**" + (body + ("**" + rest))))
            == Escaped(text) + "<b>" + Inline(body) + "</b>" + Spans(rest)
  {
    hide *;
    var after := body + ("**" + rest);
    var line := text + ("**" + after);
    FirstStars(text, after);
    CodeLater(text, after);
    FirstStars(body, rest);
    Pieces(text, "**", after);
    Pieces(body, "**", rest);
    BoldSpans(line, "", IndexOf(line, '`'), Some(|text|));
    NothingBefore(Spans(line));
    NothingBefore(EscapeHtml(text));
    EscapeIsOnePass(text);
  }

  /** A first marker that nothing closes stays, and so does all that follows. */
  lemma UnclosedCodeStays(text: string, rest: string)
    requires '`' !in text && NoStars(text) && '`' !in rest
    ensures Spans(text + ("`" + rest)) == Escaped(text) + "`" + Escaped(rest)
  {
    hide *;
    var line := text + ("`" + rest);
    FirstCode(text, rest);
    StarsLater(text, rest);
    Pieces(text, "`", rest);
    NoCode(rest);
    CodeSpans(line, "", Some(|text|), FindPair(line, '*', '*'));
    NothingBefore(Spans(line));
    NothingBefore(EscapeHtml(text));
    EscapeIsOnePass(text);
    EscapeIsOnePass(rest);
  }

  lemma NoPairs(s: string)
    requires NoStars(s)
    ensures FindPair(s, '*', '*') == None
  {
    hide FindPair, NoStars;
    StarsAre(s);
  }

  lemma NoCode(s: string)
    requires '`' !in s
    ensures IndexOf(s, '`') == None
  {
    hide IndexOf;
  }

  lemma UnclosedBoldStays(text: string, rest: string)
    requires '`' !in text && NoStars(text + "*") && NoStars(rest)
    ensures Spans(text + ("**" + rest)) == Escaped(text) + "**" + Escaped(rest)
  {
    hide *;
    var line := text + ("**" + rest);
    FirstStars(text, rest);
    CodeLater(text, rest);
    NoPairs(rest);
    Pieces(text, "**", rest);
    BoldSpans(line, "", IndexOf(line, '`'), Some(|text|));
    NothingBefore(Spans(line));
    NothingBefore(EscapeHtml(text));
    EscapeIsOnePass(text);
    EscapeIsOnePass(rest);
  }

  /** Every line is spelled in one of the ways that the laws above cover. */
  lemma EveryLineIsCovered(line: string) returns (text: string, body: string, rest: string)
    ensures || ('`' !in line && NoStars(line))
            || ('`' !in text && NoStars(text) && '`' !in body && line == text + ("`" + (body + ("`" + rest))))
            || ('`' !in text && NoStars(text + "*") && NoStars(body + "*")
                && line == text + ("**" + (body + ("**" + rest))))
            || ('`' !in text && NoStars(text) && '`' !in rest && line == text + ("`" + rest))
            || ('`' !in text && NoStars(text + "*") && NoStars(rest) && line == text + ("**" + rest))
  {
    hide *;
    text, body, rest := "", "", "";
    if '`' !in line && NoStars(line) {
    } else {
      var tail, mark := FirstMarker(line);
      text, rest := line[..|line| - |tail| - |mark|], tail;
      var head, last, closed := CutAt(tail, mark);
      if closed {
        body, rest := head, last;
      }
    }
  }

  /** The line is what stands before its first marker, that marker, and `tail`. */
  lemma FirstMarker(line: string) returns (tail: string, mark: string)
    requires '`' in line || !NoStars(line)
    ensures |tail| + |mark| <= |line|
    ensures var text := line[..|line| - |tail| - |mark|];
            && line == text + (mark + tail) && '`' !in text
            && ((mark == "`" && NoStars(text)) || (mark == "**" && NoStars(text + "*")))
  {
    hide IndexOf, FindPair, NoStars;
    var code, bold := IndexOf(line, '`'), FindPair(line, '*', '*');
    StarsAre(line);
    if code.Some? && (bold.None? || code.value < bold.value) {
      tail, mark := line[code.value + 1..], "`";
      Before(line, code.value);
    } else {
      tail, mark := line[bold.value + 2..], "**";
      UpTo(line, bold.value);
      assert PairAt(line, '*', '*', bold.value);
    }
  }

  /** Splits at the first `mark`, if there is one. */
  lemma CutAt(s: string, mark: string) returns (head: string, last: string, closed: bool)
    requires mark == "`" || mark == "**"
    ensures closed ==> s == head + (mark + last) && if mark == "`" then '`' !in head else NoStars(head + "*")
    ensures !closed ==> if mark == "`" then '`' !in s else NoStars(s)
  {
    hide IndexOf, FindPair, NoStars;
    head, last, closed := "", "", false;
    if mark == "`" {
      var code := IndexOf(s, '`');
      if code.Some? {
        head, last, closed := s[..code.value], s[code.value + 1..], true;
      }
    } else {
      var bold := FindPair(s, '*', '*');
      StarsAre(s);
      if bold.Some? {
        assert PairAt(s, '*', '*', bold.value);
        head, last, closed := s[..bold.value], s[bold.value + 2..], true;
        UpTo(s, bold.value);
      }
    }
  }

  lemma Before(s: string, i: nat)
    requires i <= |s| && forall k :: k < i ==> !PairAt(s, '*', '*', k)
    ensures NoStars(s[..i])
  {
    var head := s[..i];
    forall k ensures !PairAt(head, '*', '*', k) {
      assert k < i ==> !PairAt(s, '*', '*', k);
    }
    StarsAre(head);
  }

  lemma UpTo(s: string, i: nat)
    requires PairAt(s, '*', '*', i) && forall k :: k < i ==> !PairAt(s, '*', '*', k)
    ensures NoStars(s[..i] + "*")
  {
    assert s[..i] + "*" == s[..i + 1];
    var head := s[..i + 1];
    forall k ensures !PairAt(head, '*', '*', k) {
      assert k < i ==> !PairAt(s, '*', '*', k);
    }
    StarsAre(head);
  }

  lemma BulletIsShown(line: string)
    ensures "- " <= line ==> Inline(line) == "\U{2022} " + Spans(line[2..])
    ensures !("- " <= line) ==> Inline(line) == Spans(line)
  {
    hide Spans;
  }

  /** The output over a whole line, fence or not, inside a fence or outside. */
  lemma LineIsShown(line: string, rest: string)
    requires line != "" && line[|line| - 1] == '\n' && '\n' !in line[..|line| - 1]
    ensures match FenceInfo(line)
            case Some(info) =>
              && Html(line + rest, true) == "</code></pre>\n" + Html(rest, false)
              && Html(line + rest, false) ==
                   (if info == "" then "<pre><code>" else "<pre><code class=\"language-" + info + "\">")
                   + Html(rest, true)
            case None =>
              && Html(line + rest, true) == Escaped(line) + Html(rest, true)
              && Html(line + rest, false) == Inline(line) + Html(rest, false)
  {
    hide *;
    FirstLineUnfolds(line, rest, true);
    FirstLineUnfolds(line, rest, false);
    LineHtmlCases(line, true);
    LineHtmlCases(line, false);
    EscapeIsOnePass(line);
    FenceTags();
    if FenceInfo(line).Some? {
      Joined(FenceInfo(line).value);
    }
  }

  lemma FirstLineUnfolds(line: string, rest: string, inFence: bool)
    requires line != "" && line[|line| - 1] == '\n' && '\n' !in line[..|line| - 1]
    ensures Html(line + rest, inFence) == LineHtml(line, inFence) + Html(rest, FenceAfter(line, inFence))
  {
    hide Html, LineHtml, FenceAfter, LineLen;
    var s := line + rest;
    forall i | 0 <= i < |line| - 1 ensures s[i] != '\n' {
      assert s[i] == line[..|line| - 1][i];
    }
    LineLenPrefix(s, |line|);
    assert s[..|line|] == line && s[|line|..] == rest;
    HtmlUnfolds(s, inFence);
  }

  lemma FenceTags()
    ensures CLOSE_FENCE + "\n" == "</code></pre>\n"
  {
  }

  lemma Joined(info: string)
    ensures "<pre>" + (LANGUAGE + (info + "\">")) == "<pre><code class=\"language-" + info + "\">"
  {
    assert "<pre>" + LANGUAGE == "<pre><code class=\"language-";
  }

  /** An open fence is closed where the text ends. */
  lemma EndIsShown()
    ensures Html("", true) == "</code></pre>" && Html("", false) == ""
  {
  }
}
