/** The tag language of Telegram messages, and what the transducer's output means in it. */
module TelegramMarkup {
  import opened Text
  import opened Chunker
  import opened TelegramHtml

  // --- The tag language ------------------------------------------------------

  datatype Tag = B | Code | Pre

  /** Length of an attribute value up to its closing quote; specials are not allowed in it. */
  function ValueLen(s: string): Option<nat> {
    if s == [] || s[0] in "<>&" then None
    else if s[0] == '"' then Some(0)
    else match ValueLen(s[1..]) case None => None case Some(n) => Some(n + 1)
  }

  /** One item of the language: the tags open after it, its length, and the text it shows. */
  datatype Item = Item(open: seq<Tag>, length: nat, text: string)

  /** Nothing opens inside `code`, and `b` and `pre` open only at top level. */
  function ReadTag(s: string, open: seq<Tag>): Option<Item> {
    if "<b>" <= s then (if open == [] then Some(Item([B], 3, "")) else None)
    else if "</b>" <= s then (if open == [B] then Some(Item([], 4, "")) else None)
    else if "<pre>" <= s then (if open == [] then Some(Item([Pre], 5, "")) else None)
    else if "</pre>" <= s then (if open == [Pre] then Some(Item([], 6, "")) else None)
    else if "<code>" <= s then (if Code !in open then Some(Item(open + [Code], 6, "")) else None)
    else if "</code>" <= s then
      (if open != [] && open[|open| - 1] == Code then Some(Item(open[..|open| - 1], 7, "")) else None)
    else if LANGUAGE <= s then
      match ValueLen(s[|LANGUAGE|..])
      case None => None
      case Some(n) =>
        var end := |LANGUAGE| + n + 1;
        if open == [Pre] && end < |s| && s[end] == '>' then Some(Item([Pre, Code], end + 1, "")) else None
    else None
  }

  /** A tag, an entity, or a plain character. */
  function ReadItem(s: string, open: seq<Tag>): (r: Option<Item>)
    requires s != []
    ensures r.Some? ==> 0 < r.value.length
  {
    if s[0] == '<' then ReadTag(s, open)
    else if "&amp;" <= s then Some(Item(open, 5, "&"))
    else if "&lt;" <= s then Some(Item(open, 4, "<"))
    else if "&gt;" <= s then Some(Item(open, 4, ">"))
    else if s[0] in "&>" then None
    else Some(Item(open, 1, [s[0]]))
  }

  /** What a reader of the markup gets: the tags still open at the end, and the text shown. */
  datatype View = View(open: seq<Tag>, text: string)

  function Scan(s: string, open: seq<Tag>): Option<View>
    decreases |s|
  {
    if s == [] then Some(View(open, ""))
    else
      match ReadItem(s, open)
      case None => None
      case Some(item) => if item.length <= |s| then Shown(item.text, Scan(s[item.length..], item.open)) else None
  }

  function Shown(text: string, rest: Option<View>): Option<View> {
    match rest
    case None => None
    case Some(v) => Some(View(v.open, text + v.text))
  }

  /** Well nested over `b`, `code` and `pre`, nothing inside `code`, all specials escaped. */
  predicate WellFormed(s: string) {
    match Scan(s, [])
    case None => false
    case Some(v) => v.open == []
  }

  // --- Reading back what was written -----------------------------------------

  lemma ShownTwice(a: string, b: string, v: Option<View>)
    ensures Shown(a, Shown(b, v)) == Shown(a + b, v)
    ensures Shown("", v) == v
  {
    if v.Some? {
      assert a + (b + v.value.text) == (a + b) + v.value.text;
      assert "" + v.value.text == v.value.text;
    }
  }

  lemma ScanChar(c: char, rest: string, open: seq<Tag>)
    ensures Scan(EscapeChar(c) + rest, open) == Shown([c], Scan(rest, open))
  {
    hide Scan, Shown;
    var s := EscapeChar(c) + rest;
    ScanUnfolds(s, open);
    assert s[|EscapeChar(c)|..] == rest;
    assert c == '<' ==> s[1] == 'l';
    assert c == '>' ==> s[1] == 'g';
    assert ReadItem(s, open) == Some(Item(open, |EscapeChar(c)|, [c]));
  }

  lemma ScanUnfolds(s: string, open: seq<Tag>)
    requires s != []
    ensures Scan(s, open) ==
            match ReadItem(s, open)
            case None => None
            case Some(item) => if item.length <= |s| then Shown(item.text, Scan(s[item.length..], item.open)) else None
  {
    hide ReadItem, Shown;
  }

  /** Escaped text is read back exactly, whatever the text and whatever is open. */
  lemma {:induction false} ScanEscaped(x: string, rest: string, open: seq<Tag>)
    ensures Scan(EscapeHtml(x) + rest, open) == Shown(x, Scan(rest, open))
  {
    hide EscapeHtml, Scan, Shown;
    EscapeIsOnePass(x);
    if x == [] {
      assert EscapeHtml(x) + rest == rest;
      ShownTwice("", "", Scan(rest, open));
    } else {
      EscapeIsOnePass(x[1..]);
      Assoc(EscapeChar(x[0]), Escaped(x[1..]), rest);
      ScanChar(x[0], Escaped(x[1..]) + rest, open);
      ScanEscaped(x[1..], rest, open);
      ShownTwice([x[0]], x[1..], Scan(rest, open));
      assert [x[0]] + x[1..] == x;
    }
  }

  /** The fixed tags, each where it may stand. */
  lemma ScanTag(tag: string, rest: string, open: seq<Tag>, next: seq<Tag>)
    requires
      || (tag == "<b>" && open == [] && next == [B])
      || (tag == "</b>" && open == [B] && next == [])
      || (tag == "<pre>" && open == [] && next == [Pre])
      || (tag == "</pre>" && open == [Pre] && next == [])
      || (tag == "<code>" && Code !in open && next == open + [Code])
      || (tag == "</code>" && open == next + [Code])
    ensures Scan(tag + rest, open) == Scan(rest, next)
  {
    hide Scan, Shown, ReadItem;
    var s := tag + rest;
    assert tag <= s && s[|tag|..] == rest;
    ScanUnfolds(s, open);
    ShownTwice("", "", Scan(rest, next));
    ReadFixedTag(s, tag, open, next);
  }

  lemma ReadFixedTag(s: string, tag: string, open: seq<Tag>, next: seq<Tag>)
    requires tag <= s
    requires
      || (tag == "<b>" && open == [] && next == [B])
      || (tag == "</b>" && open == [B] && next == [])
      || (tag == "<pre>" && open == [] && next == [Pre])
      || (tag == "</pre>" && open == [Pre] && next == [])
      || (tag == "<code>" && Code !in open && next == open + [Code])
      || (tag == "</code>" && open == next + [Code])
    ensures s != [] && ReadItem(s, open) == Some(Item(next, |tag|, ""))
  {
    hide ReadItem;
    if tag == "<b>" || tag == "<pre>" || tag == "<code>" {
      ReadOpening(s, tag, open, next);
    } else {
      ReadClosing(s, tag, open, next);
    }
  }

  lemma ReadOpening(s: string, tag: string, open: seq<Tag>, next: seq<Tag>)
    requires tag <= s
    requires
      || (tag == "<b>" && open == [] && next == [B])
      || (tag == "<pre>" && open == [] && next == [Pre])
      || (tag == "<code>" && Code !in open && next == open + [Code])
    ensures s != [] && ReadItem(s, open) == Some(Item(next, |tag|, ""))
  {
    hide ValueLen;
    assert s[0] == '<' && s[1] == tag[1];
    assert ReadItem(s, open) == ReadTag(s, open);
  }

  lemma ReadClosing(s: string, tag: string, open: seq<Tag>, next: seq<Tag>)
    requires tag <= s
    requires
      || (tag == "</b>" && open == [B] && next == [])
      || (tag == "</pre>" && open == [Pre] && next == [])
      || (tag == "</code>" && open == next + [Code])
    ensures s != [] && ReadItem(s, open) == Some(Item(next, |tag|, ""))
  {
    hide ValueLen;
    assert s[0] == '<' && s[1] == '/' && s[2] == tag[2];
    assert ReadItem(s, open) == ReadTag(s, open);
    assert tag == "</code>" ==> open[..|open| - 1] == next;
  }

  // --- One line ----------------------------------------------------------------

  /** Text without its span markers, bullets written one way. */
  function Bare(s: string): string {
    if s == [] then ""
    else (if s[0] in "`*" then "" else if s[0] == BULLET[0] then "-" else [s[0]]) + Bare(s[1..])
  }

  lemma {:induction false} BareConcat(a: string, b: string)
    ensures Bare(a + b) == Bare(a) + Bare(b)
  {
    if a == [] {
      assert a + b == b;
    } else {
      assert (a + b)[1..] == a[1..] + b;
      BareConcat(a[1..], b);
    }
  }

  lemma BareMarkers()
    ensures Bare("`") == "" && Bare("**") == "" && Bare(BULLET) == Bare("- ")
  {
    assert "**"[1..] == "*" && "*"[1..] == "" && "`"[1..] == "";
    assert BULLET[1..] == " " && "- "[1..] == " ";
  }

  lemma BareOfFour(a: string, m: string, b: string, c: string)
    requires Bare(m) == ""
    ensures Bare(a + (m + (b + (m + c)))) == Bare(a) + (Bare(b) + Bare(c))
    ensures Bare(a + (b + c)) == Bare(a) + (Bare(b) + Bare(c))
  {
    hide Bare;
    BareConcat(a, m + (b + (m + c)));
    BareConcat(m, b + (m + c));
    BareConcat(b, m + c);
    BareConcat(m, c);
    BareConcat(a, b + c);
    BareConcat(b, c);
  }

  /** The tags a line may be read under: at top level, or inside bold when it holds no `**`. */
  ghost predicate LineContext(line: string, open: seq<Tag>) {
    open == [] || (open == [B] && NoPair(line))
  }

  /** A line's spans are read back as its text without markers, and leave the tags as they were. */
  lemma {:induction false} ScanSpans(line: string, tail: string, open: seq<Tag>) returns (shown: string)
    requires LineContext(line, open)
    ensures Scan(Spans(line) + tail, open) == Shown(shown, Scan(tail, open))
    ensures Bare(shown) == Bare(line)
    decreases |line|, 0
  {
    hide *;
    SpansUnfold(line, "");
    assert "" + Spans(line) == Spans(line);
    NextSpanSource(line, open);
    BareMarkers();
    match NextSpan(line) {
      case Plain(text) =>
        shown := text;
        ScanEscaped(text, tail, open);
        assert "" + EscapeHtml(text) == EscapeHtml(text);
      case Unclosed(text, marker, rest) =>
        shown := line;
        ScanUnclosed(text, marker, rest, tail, open);
        assert "" + Spans(line) + tail == EscapeHtml(text) + (marker + (EscapeHtml(rest) + tail));
      case CodeSpan(text, body, rest) =>
        var after := ScanSpans(rest, tail, open);
        shown := text + (body + after);
        ScanCode(text, body, Spans(rest) + tail, open);
        Regroup(EscapeHtml(text), "<code>", EscapeHtml(body), "</code>", Spans(rest), tail);
        ShownTwice(text + body, after, Scan(tail, open));
        Assoc(text, body, after);
        BareOfFour(text, "`", body, rest);
        BareOfFour(text, "`", body, after);
      case BoldSpan(text, body, rest) =>
        var after := ScanSpans(rest, tail, open);
        var inner := ScanInline(body, "</b>" + (Spans(rest) + tail), [B]);
        shown := text + (inner + after);
        ScanEscaped(text, "<b>" + (Inline(body) + ("</b>" + (Spans(rest) + tail))), []);
        ScanTag("<b>", Inline(body) + ("</b>" + (Spans(rest) + tail)), [], [B]);
        ScanTag("</b>", Spans(rest) + tail, [B], []);
        Regroup(EscapeHtml(text), "<b>", Inline(body), "</b>", Spans(rest), tail);
        ShownTwice(inner, after, Scan(tail, open));
        ShownTwice(text, inner + after, Scan(tail, open));
        BareOfFour(text, "**", body, rest);
        BareOfFour(text, "**", inner, after);
    }
  }

  lemma Regroup(a: string, m: string, b: string, n: string, c: string, d: string)
    ensures ("" + a + m + b + n + c) + d == a + (m + (b + (n + (c + d))))
  {
    assert "" + a == a;
    Assoc(a + m + b + n, c, d);
    Assoc(a + m + b, n, c + d);
    Assoc(a + m, b, n + (c + d));
    Assoc(a, m, b + (n + (c + d)));
  }

  /** What the span's parts inherit from the line. */
  lemma NextSpanSource(line: string, open: seq<Tag>)
    requires LineContext(line, open)
    ensures match NextSpan(line)
            case Plain(text) => text == line
            case CodeSpan(text, body, rest) =>
              && line == text + ("`" + (body + ("`" + rest)))
              && |rest| < |line| && LineContext(rest, open) && Code !in open
            case BoldSpan(text, body, rest) =>
              && line == text + ("**" + (body + ("**" + rest)))
              && open == [] && |body| < |line| && |rest| < |line| && LineContext(rest, open) && LineContext(body, [B])
            case Unclosed(text, marker, rest) => line == text + (marker + rest) && (marker == "`" || marker == "**")
  {
    hide NextSpan;
    match NextSpan(line) {
      case Plain(text) =>
      case Unclosed(text, marker, rest) =>
      case CodeSpan(text, body, rest) =>
        forall i | PairAt(rest, '*', '*', i) ensures PairAt(line, '*', '*', |line| - |rest| + i) {
          assert line[|line| - |rest|..] == rest;
        }
      case BoldSpan(text, body, rest) =>
        assert line[|text|] == '*' && line[|text| + 1] == '*';
        assert PairAt(line, '*', '*', |text|);
    }
  }

  lemma ScanUnclosed(text: string, marker: string, rest: string, tail: string, open: seq<Tag>)
    requires marker == "`" || marker == "**"
    ensures Scan(EscapeHtml(text) + (marker + (EscapeHtml(rest) + tail)), open)
            == Shown(text + (marker + rest), Scan(tail, open))
  {
    hide EscapeHtml, Scan, Shown;
    ScanEscaped(text, marker + (EscapeHtml(rest) + tail), open);
    assert EscapeHtml(marker) == marker by {
      EscapeIsOnePass(marker);
      assert marker == "**" ==> marker[1..] == "*" && "*"[1..] == "";
      assert marker == "`" ==> marker[1..] == "";
    }
    ScanEscaped(marker, EscapeHtml(rest) + tail, open);
    ScanEscaped(rest, tail, open);
    ShownTwice(marker, rest, Scan(tail, open));
    ShownTwice(text, marker + rest, Scan(tail, open));
  }

  lemma ScanCode(text: string, body: string, rest: string, open: seq<Tag>)
    requires Code !in open
    ensures Scan(EscapeHtml(text) + ("<code>" + (EscapeHtml(body) + ("</code>" + rest))), open)
            == Shown(text + body, Scan(rest, open))
  {
    hide EscapeHtml, Scan, Shown;
    ScanEscaped(text, "<code>" + (EscapeHtml(body) + ("</code>" + rest)), open);
    ScanTag("<code>", EscapeHtml(body) + ("</code>" + rest), open, open + [Code]);
    ScanEscaped(body, "</code>" + rest, open + [Code]);
    ScanTag("</code>", rest, open + [Code], open);
    ShownTwice(text, body, Scan(rest, open));
  }

  lemma {:induction false} ScanInline(line: string, tail: string, open: seq<Tag>) returns (shown: string)
    requires LineContext(line, open)
    ensures Scan(Inline(line) + tail, open) == Shown(shown, Scan(tail, open))
    ensures Bare(shown) == Bare(line)
    decreases |line|, 1
  {
    hide *;
    InlineUnfolds(line);
    if "- " <= line {
      SuffixContext(line, 2, open);
      var after := ScanSpans(line[2..], tail, open);
      shown := BULLET + after;
      assert EscapeHtml(BULLET) == BULLET by {
        EscapeBullet();
      }
      ScanEscaped(BULLET, Spans(line[2..]) + tail, open);
      Assoc(BULLET, Spans(line[2..]), tail);
      ShownTwice(BULLET, after, Scan(tail, open));
      BareMarkers();
      BareConcat(BULLET, after);
      BareConcat("- ", line[2..]);
      assert line == "- " + line[2..];
    } else {
      shown := ScanSpans(line, tail, open);
    }
  }

  lemma EscapeBullet()
    ensures EscapeHtml(BULLET) == BULLET
  {
    EscapeIsOnePass(BULLET);
    assert BULLET[1..] == " " && " "[1..] == "";
  }

  lemma SuffixContext(line: string, n: nat, open: seq<Tag>)
    requires LineContext(line, open) && n <= |line|
    ensures LineContext(line[n..], open)
  {
    forall i | PairAt(line[n..], '*', '*', i) ensures PairAt(line, '*', '*', n + i) {
    }
  }

  // --- The whole text ------------------------------------------------------------

  /** The info strings that are written into the output: those of the fences that open. */
  function OpeningInfos(text: string, inFence: bool): seq<string>
    decreases |text|
  {
    if text == [] then []
    else
      var n := LineLen(text);
      LineInfos(text[..n], inFence) + OpeningInfos(text[n..], FenceAfter(text[..n], inFence))
  }

  function LineInfos(line: string, inFence: bool): seq<string> {
    match FenceInfo(line)
    case Some(info) => if inFence then [] else [info]
    case None => []
  }

  /** The text that is to be shown: all lines but the fence lines, a line break for each closing one, and
      for an opening one what its info string shows, which is nothing unless that carries markup. */
  function Body(text: string, inFence: bool): string
    decreases |text|
  {
    if text == [] then ""
    else
      var n := LineLen(text);
      LineBody(text[..n], inFence) + Body(text[n..], FenceAfter(text[..n], inFence))
  }

  function LineBody(line: string, inFence: bool): string {
    match FenceInfo(line)
    case Some(info) => if inFence then "\n" else FenceText(info)
    case None => line
  }

  /** No character that means something inside an attribute value. */
  predicate Clean(info: string) {
    forall c <- info :: c !in "\"<>&"
  }

  /** Holds no `">`, the end of an attribute and its tag. */
  ghost predicate KeepsTag(info: string) {
    forall i :: !PairAt(info, '"', '>', i)
  }

  lemma {:induction false} ValueLenClean(info: string, rest: string)
    requires Clean(info)
    ensures ValueLen(info + ("\"" + rest)) == Some(|info|)
  {
    var s := info + ("\"" + rest);
    if info != [] {
      assert s[1..] == info[1..] + ("\"" + rest);
      assert s[0] == info[0] && info[0] in info;
      ValueLenClean(info[1..], rest);
    }
  }

  /** A special character stops the value, or a quote ends it where no `>` follows. */
  lemma {:induction false} ValueLenDirty(info: string, rest: string)
    requires !Clean(info) && KeepsTag(info)
    ensures var s := info + ("\">" + rest);
            match ValueLen(s)
            case None => true
            case Some(n) => n + 1 < |s| && s[n + 1] != '>'
  {
    var s := info + ("\">" + rest);
    assert s[0] == info[0];
    if info[0] == '"' {
      assert !PairAt(info, '"', '>', 0);
      assert |info| == 1 ==> s[1] == '"';
    } else if info[0] !in "<>&" {
      assert s[1..] == info[1..] + ("\">" + rest);
      assert info == [info[0]] + info[1..];
      forall i ensures !PairAt(info[1..], '"', '>', i) {
        assert !PairAt(info, '"', '>', i + 1);
      }
      ValueLenDirty(info[1..], rest);
    }
  }

  /** An opening fence is a legal tag pair iff its info is clean. */
  lemma ScanOpenFence(info: string, rest: string)
    requires KeepsTag(info)
    ensures Scan(OpenFence(info) + rest, []) == if Clean(info) then Scan(rest, [Pre, Code]) else None
  {
    hide Scan, LANGUAGE, KeepsTag;
    if info == "" {
      ScanTag("<pre>", "<code>" + rest, [], [Pre]);
      ScanTag("<code>", rest, [Pre], [Pre, Code]);
      assert OpenFence(info) + rest == "<pre>" + ("<code>" + rest);
    } else {
      var value := info + ("\">" + rest);
      assert OpenFence(info) + rest == "<pre>" + (LANGUAGE + value);
      ScanTag("<pre>", LANGUAGE + value, [], [Pre]);
      ScanLanguage(info, LANGUAGE, rest);
    }
  }

  lemma ScanLanguage(info: string, head: string, rest: string)
    requires KeepsTag(info) && head == LANGUAGE
    ensures Scan(head + (info + ("\">" + rest)), [Pre]) == if Clean(info) then Scan(rest, [Pre, Code]) else None
  {
    hide *;
    var value := info + ("\">" + rest);
    var s := head + value;
    ReadLanguageTag(s);
    LanguageLength();
    assert s[|head|..] == value;
    ScanUnfolds(s, [Pre]);
    if Clean(info) {
      ValueLenClean(info, ">" + rest);
      assert value == info + ("\"" + (">" + rest));
      assert value[|info| + 1] == '>' && value[|info| + 2..] == rest;
      assert s[|head| + |info| + 2..] == rest;
      ShownTwice("", "", Scan(rest, [Pre, Code]));
    } else {
      ValueLenDirty(info, rest);
      assert forall end :: |head| <= end < |s| ==> s[end] == value[end - |head|];
    }
  }

  lemma LanguageLength()
    ensures |LANGUAGE| == 22
  {
  }

  lemma ReadLanguageTag(s: string)
    requires LANGUAGE <= s
    ensures ReadItem(s, [Pre]) == ReadTag(s, [Pre])
    ensures ReadTag(s, [Pre]) ==
            match ValueLen(s[|LANGUAGE|..])
            case None => None
            case Some(n) =>
              var end := |LANGUAGE| + n + 1;
              if end < |s| && s[end] == '>' then Some(Item([Pre, Code], end + 1, "")) else None
  {
    hide ValueLen;
    assert s[0] == LANGUAGE[0] == '<';
    assert s[1] == LANGUAGE[1] == 'c';
    assert s[5] == LANGUAGE[5] == ' ';
  }

  // --- Any info string at all ------------------------------------------------------

  /** Whether an opening fence with this info can be read by itself. */
  predicate Reads(info: string) {
    Scan(OpenFence(info), []).Some?
  }

  /** The text that such a fence shows, beside the tags that it opens: none unless the info closes the
      tag and goes on. */
  function FenceText(info: string): string {
    match Scan(OpenFence(info), [])
    case None => ""
    case Some(v) => v.text
  }

  predicate EndsTag(s: string) {
    s != "" && s[|s| - 1] == '>'
  }

  /** No tag reaches over an angle bracket that closes one. */
  lemma PrefixStays(tag: string, a: string, b: string)
    requires EndsTag(a) && forall i :: 0 <= i < |tag| - 1 ==> tag[i] != '>'
    ensures tag <= a + b <==> tag <= a
  {
    var s := a + b;
    assert s[..|a|] == a;
    assert tag <= s ==> forall i :: 0 <= i < |tag| ==> tag[i] == s[i];
    assert s[|a| - 1] == '>';
    assert |tag| <= |a| ==> s[..|tag|] == a[..|tag|];
  }

  lemma {:induction false} ValueStays(v: string, b: string)
    requires EndsTag(v)
    ensures ValueLen(v + b) == ValueLen(v)
    ensures ValueLen(v).Some? ==> ValueLen(v).value + 1 < |v|
  {
    assert (v + b)[0] == v[0] && (v + b)[1..] == v[1..] + b;
    if v[0] !in "<>&" && v[0] != '"' {
      ValueStays(v[1..], b);
    }
  }

  lemma LanguageStays(a: string, b: string)
    requires EndsTag(a) && LANGUAGE <= a
    ensures var v := a[|LANGUAGE|..]; EndsTag(v) && (a + b)[|LANGUAGE|..] == v + b
  {
    LanguageEnds();
    assert a[..|LANGUAGE|] == LANGUAGE;
    assert |a| == |LANGUAGE| ==> a == LANGUAGE;
  }

  lemma LanguageEnds()
    ensures |LANGUAGE| == 22 && LANGUAGE[21] == '-' && forall i :: 0 <= i < 22 ==> LANGUAGE[i] != '>'
  {
  }

  lemma TagStays(a: string, b: string, open: seq<Tag>)
    requires EndsTag(a)
    ensures ReadTag(a + b, open) == ReadTag(a, open)
    ensures ReadTag(a, open).Some? ==> ReadTag(a, open).value.length <= |a|
  {
    hide ValueLen, LANGUAGE;
    LanguageEnds();
    PrefixStays("<b>", a, b);
    PrefixStays("</b>", a, b);
    PrefixStays("<pre>", a, b);
    PrefixStays("</pre>", a, b);
    PrefixStays("<code>", a, b);
    PrefixStays("</code>", a, b);
    PrefixStays(LANGUAGE, a, b);
    if LANGUAGE <= a {
      LanguageStays(a, b);
      ValueStays(a[|LANGUAGE|..], b);
    }
  }

  lemma ItemStays(a: string, b: string, open: seq<Tag>)
    requires EndsTag(a)
    ensures ReadItem(a + b, open) == ReadItem(a, open)
    ensures ReadItem(a, open).Some? ==> ReadItem(a, open).value.length <= |a|
  {
    hide ReadTag;
    TagStays(a, b, open);
    PrefixStays("&amp;", a, b);
    PrefixStays("&lt;", a, b);
    PrefixStays("&gt;", a, b);
    assert (a + b)[0] == a[0];
  }

  /** What ends with a tag is read on its own, and then what follows it. */
  lemma {:induction false} ScanConcat(a: string, b: string, open: seq<Tag>)
    requires a == "" || EndsTag(a)
    ensures Scan(a + b, open) ==
            match Scan(a, open)
            case None => None
            case Some(v) => Shown(v.text, Scan(b, v.open))
    decreases |a|
  {
    hide ReadItem, Shown;
    if a == "" {
      assert a + b == b;
      ShownTwice("", "", Scan(b, open));
    } else {
      ScanUnfolds(a, open);
      ScanUnfolds(a + b, open);
      ItemStays(a, b, open);
      var item := ReadItem(a, open);
      if item.Some? {
        var rest := a[item.value.length..];
        assert (a + b)[item.value.length..] == rest + b;
        ScanConcat(rest, b, item.value.open);
        match Scan(rest, item.value.open)
        case None => ShownNone(item.value.text);
        case Some(v) =>
          ShownView(item.value.text, v);
          ShownTwice(item.value.text, v.text, Scan(b, v.open));
      }
    }
  }

  lemma ShownNone(text: string)
    ensures Shown(text, None) == None
  {
  }

  /** Only the tag of a fence ends with a quote and a bracket. */
  lemma {:induction false} QuoteEndsFence(s: string, open: seq<Tag>)
    requires |s| >= 2 && s[|s| - 2..] == "\">" && Scan(s, open).Some?
    ensures Scan(s, open).value.open == [Pre, Code]
    decreases |s|
  {
    hide ReadItem, Shown;
    ScanUnfolds(s, open);
    var item := ReadItem(s, open).value;
    var rest := s[item.length..];
    ItemLength(s, open);
    if rest == "" {
      LastItem(s, open);
      assert Scan("", item.open) == Some(View(item.open, ""));
      ShownView(item.text, View(item.open, ""));
    } else if |rest| == 1 {
      assert rest == ">";
      BareBracket(item.open);
      ShownNone(item.text);
    } else {
      assert rest[|rest| - 2..] == s[|s| - 2..];
      if Scan(rest, item.open).Some? {
        QuoteEndsFence(rest, item.open);
        ShownView(item.text, Scan(rest, item.open).value);
      } else {
        ShownNone(item.text);
      }
    }
  }

  lemma ItemLength(s: string, open: seq<Tag>)
    requires |s| >= 2 && Scan(s, open).Some?
    ensures ReadItem(s, open).Some? && ReadItem(s, open).value.length <= |s|
  {
    hide ReadItem;
  }

  lemma BareBracket(open: seq<Tag>)
    ensures Scan(">", open) == None
  {
  }

  lemma LastItem(s: string, open: seq<Tag>)
    requires |s| >= 2 && s[|s| - 2..] == "\">" && ReadItem(s, open).Some? && ReadItem(s, open).value.length == |s|
    ensures ReadItem(s, open).value.open == [Pre, Code]
  {
    hide ValueLen, LANGUAGE;
    assert s[|s| - 2] == '"' && s[|s| - 1] == '>';
  }

  lemma ScanAnyFence(info: string, rest: string)
    ensures Scan(OpenFence(info) + rest, []) ==
            if Reads(info) then Shown(FenceText(info), Scan(rest, [Pre, Code])) else None
  {
    hide Scan, Shown, LANGUAGE;
    var s := OpenFence(info);
    OpenFenceEnds(info);
    ScanConcat(s, rest, []);
    if Reads(info) {
      FenceOpens(info);
    }
  }

  lemma OpenFenceEnds(info: string)
    ensures EndsTag(OpenFence(info))
    ensures info != "" ==> |OpenFence(info)| >= 2 && OpenFence(info)[|OpenFence(info)| - 2..] == "\">"
  {
    hide LANGUAGE;
    if info != "" {
      var lead := "<pre>" + (LANGUAGE + info);
      assert OpenFence(info) == lead + "\">";
    }
  }

  lemma FenceOpens(info: string)
    requires Reads(info)
    ensures Scan(OpenFence(info), []).value.open == [Pre, Code]
  {
    hide Scan;
    if info == "" {
      ScanOpenFence("", "");
      assert OpenFence("") + "" == OpenFence("");
      NothingLeft();
    } else {
      OpenFenceEnds(info);
      QuoteEndsFence(OpenFence(info), []);
    }
  }

  lemma NothingLeft()
    ensures Scan("", [Pre, Code]) == Some(View([Pre, Code], ""))
  {
  }

  /** Unless an info string closes its tag itself, its fence reads exactly if it is clean, and shows nothing. */
  lemma ReadsIffClean(info: string)
    requires KeepsTag(info)
    ensures Reads(info) <==> Clean(info)
    ensures FenceText(info) == ""
  {
    hide Scan, Clean, KeepsTag, OpenFence;
    ScanOpenFence(info, "");
    assert OpenFence(info) + "" == OpenFence(info);
    NothingLeft();
  }

  function OpenTags(inFence: bool): seq<Tag> {
    if inFence then [Pre, Code] else []
  }

  predicate AllRead(infos: seq<string>) {
    forall info <- infos :: Reads(info)
  }

  predicate AllClean(infos: seq<string>) {
    forall info <- infos :: Clean(info)
  }

  ghost predicate AllKeepTags(infos: seq<string>) {
    forall info <- infos :: KeepsTag(info)
  }

  lemma ScanLine(line: string, inFence: bool, tail: string) returns (shown: string)
    ensures Scan(LineHtml(line, inFence) + tail, OpenTags(inFence)) ==
            if AllRead(LineInfos(line, inFence)) then Shown(shown, Scan(tail, OpenTags(FenceAfter(line, inFence))))
            else None
    ensures Bare(shown) == Bare(LineBody(line, inFence))
  {
    hide FenceInfo, Scan, Shown, Bare, Reads, FenceText, EscapeHtml, Inline, OpenFence;
    match FenceInfo(line) {
      case Some(info) =>
        if inFence {
          shown := "\n";
          ScanClose("\n" + tail);
          assert CLOSE_FENCE + "\n" + tail == CLOSE_FENCE + ("\n" + tail);
          EscapeIsOnePass("\n");
          assert EscapeHtml("\n") == "\n" by { assert "\n"[1..] == ""; }
          ScanEscaped("\n", tail, []);
        } else {
          shown := FenceText(info);
          assert info in LineInfos(line, inFence);
          ScanAnyFence(info, tail);
        }
      case None =>
        if inFence {
          shown := line;
          ScanEscaped(line, tail, OpenTags(true));
        } else {
          shown := ScanInline(line, tail, []);
        }
    }
  }

  lemma ScanClose(tail: string)
    ensures Scan(CLOSE_FENCE + tail, [Pre, Code]) == Scan(tail, [])
  {
    hide Scan;
    assert CLOSE_FENCE + tail == "</code>" + ("</pre>" + tail);
    ScanTag("</code>", "</pre>" + tail, [Pre, Code], [Pre]);
    ScanTag("</pre>", tail, [Pre], []);
  }

  /** Holds from any line on. */
  lemma {:induction false} ScanHtml(text: string, inFence: bool) returns (shown: string)
    ensures Scan(Html(text, inFence), OpenTags(inFence)) ==
            if AllRead(OpeningInfos(text, inFence)) then Some(View([], shown)) else None
    ensures Bare(shown) == Bare(Body(text, inFence))
    decreases |text|
  {
    hide *;
    if text == [] {
      shown := "";
      ScanEnd(inFence);
    } else {
      HtmlUnfolds(text, inFence);
      var n := LineLen(text);
      var line, after := text[..n], FenceAfter(text[..n], inFence);
      BodyUnfolds(text, inFence);
      var rest := ScanHtml(text[n..], after);
      var first := ScanLine(line, inFence, Html(text[n..], after));
      shown := first + rest;
      ShownView(first, View([], rest));
      BareConcat(first, rest);
      BareConcat(LineBody(line, inFence), Body(text[n..], after));
    }
  }

  lemma ShownView(text: string, v: View)
    ensures Shown(text, Some(v)) == Some(View(v.open, text + v.text))
    ensures Shown(text, None) == None
  {
  }

  lemma ScanEnd(inFence: bool)
    ensures Scan(Html("", inFence), OpenTags(inFence)) == Some(View([], ""))
    ensures AllRead(OpeningInfos("", inFence)) && Body("", inFence) == ""
  {
    ScanClose("");
    assert CLOSE_FENCE + "" == CLOSE_FENCE;
  }

  lemma BodyUnfolds(text: string, inFence: bool)
    requires text != []
    ensures var n := LineLen(text);
            var line, after := text[..n], FenceAfter(text[..n], inFence);
            && Body(text, inFence) == LineBody(line, inFence) + Body(text[n..], after)
            && (AllRead(OpeningInfos(text, inFence)) <==>
                  AllRead(LineInfos(line, inFence)) && AllRead(OpeningInfos(text[n..], after)))
  {
    hide LineBody, LineInfos, FenceAfter, Reads;
  }

  /** For every text: the output is well formed exactly when each fence that it opens can be read by itself,
      and the reader then sees the body of the text, up to span markers and the shape of bullets. For info
      strings that do not close their own tag this is to say that each is clean, and the fences then show
      nothing. */
  lemma HtmlIsWellFormedIff(text: string) returns (shown: string)
    ensures var infos := OpeningInfos(text, false);
            && (WellFormed(Html(text, false)) <==> AllRead(infos))
            && (AllRead(infos) ==> Scan(Html(text, false), []) == Some(View([], shown)))
            && Bare(shown) == Bare(Body(text, false))
            && (AllKeepTags(infos) ==>
                  (AllRead(infos) <==> AllClean(infos)) && forall info <- infos :: FenceText(info) == "")
  {
    hide Scan, Html, Bare, Body, OpeningInfos, Reads, Clean, KeepsTag, FenceText;
    shown := ScanHtml(text, false);
    forall info | KeepsTag(info) ensures (Reads(info) <==> Clean(info)) && FenceText(info) == "" {
      ReadsIffClean(info);
    }
  }
}
