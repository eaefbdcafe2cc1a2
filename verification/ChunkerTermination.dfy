/** When the chunker's loop ends (src/channel.rs:2536-2580): the exact condition, and a
    condition on the text that a caller can check. */
module ChunkerTermination {
  import opened Text
  import opened Chunker

  /** What is left after `n` iterations of the loop. */
  ghost function Iterate(r: string, max: nat, n: nat): string
    decreases n
  {
    if n == 0 || r == [] then r
    else if ByteLen(r) <= max then ""
    else Iterate(NextRemaining(r, max), max, n - 1)
  }

  // --- Once stuck, stuck for ever --------------------------------------------

  lemma TrimClean(s: string)
    ensures var t := Trim(s); t == "" || (!IsWhitespace(t[0]) && !IsWhitespace(t[|t| - 1]))
  {
    TrimStartClean(s);
    TrimEndClean(TrimStart(s));
  }

  lemma TrimStartClean(s: string)
    ensures var t := TrimStart(s); t == "" || !IsWhitespace(t[0])
  {
  }

  lemma TrimEndClean(s: string)
    ensures var t := TrimEnd(s); t == "" || (t[0] == s[0] && !IsWhitespace(t[|t| - 1]))
  {
  }

  ghost predicate Clean(info: string) {
    && '\n' !in info
    && (info == "" || (!IsWhitespace(info[0]) && !IsWhitespace(info[|info| - 1])))
  }

  /** A clean info string is read back from its fence line, with or without the newline. */
  lemma CleanInfo(info: string)
    requires Clean(info)
    ensures FenceInfo(FENCE + info) == Some(info) && FenceInfo(Marker(info)) == Some(info)
  {
    var a, b := FENCE + info, Marker(info);
    assert TrimSpaces(a) == a && TrimSpaces(b) == b;
    assert a[3..] == info && b[3..] == info + "\n";
    assert TrimEnd(info) == info;
    assert (info + "\n")[..|info|] == info;
    if info == "" {
      assert (info + "\n")[1..] == "";
    } else {
      assert TrimStart(info + "\n") == info + "\n";
      assert TrimEnd(info + "\n") == TrimEnd(info);
    }
  }

  /** The walk over a window that is a single fence line. */
  lemma FenceLineWalk(line: string, info: string)
    requires line != [] && LineLen(line) == |line| && FenceInfo(line) == Some(info)
    ensures WalkWindow(line) == Walk(None, true, info)
  {
    hide FenceInfo, LineLen;
    assert line[0..] == line && line[0..|line|] == line;
    assert WalkLine(Walk(None, false, ""), line, |line|) == Walk(None, true, info);
    assert WalkFrom(line, |line|, Walk(None, true, info)) == Walk(None, true, info);
    assert WalkWindow(line) ==
           WalkFrom(line, 0 + LineLen(line[0..]), WalkLine(Walk(None, false, ""), line[0..|line|], |line|));
  }

  lemma StuckWindow(r: string, max: nat)
    requires Stuck(r, max) && max >= 3
    ensures var info := WalkWindow(Window(r, max)).info;
            Clean(info) && ByteLen(FENCE + info) <= max
  {
    hide WalkWindow, ByteLen, LineLen, FenceInfo, FenceCount;
    var window := Window(r, max);
    FenceBytes();
    if window == "" {
      EmptyWalk();
      assert FENCE + "" == FENCE;
    } else {
      WalkMeaning(window);
      FirstLineIsLine(window);
      InfoOfLine(FirstLine(window));
      InfoIsTrimmed(FirstLine(window));
      ByteLenConcat(FENCE, WalkWindow(window).info);
    }
  }

  lemma InfoIsTrimmed(line: string)
    requires FenceInfo(line).Some?
    ensures var info := FenceInfo(line).value;
            info == "" || (!IsWhitespace(info[0]) && !IsWhitespace(info[|info| - 1]))
  {
    hide Trim, IsWhitespace;
    TrimClean(TrimSpaces(line)[3..]);
  }

  lemma LineOf(info: string)
    requires '\n' !in info
    ensures LineLen(FENCE + info) == |FENCE + info| && LineLen(Marker(info)) == |Marker(info)|
  {
    hide LineLen;
    var a, b := FENCE + info, Marker(info);
    assert forall i :: 0 <= i < |a| ==> a[i] != '\n' && b[i] == a[i];
    LineLenPrefix(a, |a|);
    LineLenPrefix(b, |b|);
  }

  /** The window of the next iteration is the same fence line again. */
  lemma NextWindow(r: string, max: nat)
    requires Stuck(r, max) && max >= 3
    ensures var info := WalkWindow(Window(r, max)).info;
            var next := Window(NextRemaining(r, max), max);
            next == FENCE + info || next == Marker(info)
  {
    hide WalkWindow, ByteLen, FenceInfo, FloorBoundary;
    var window := Window(r, max);
    var info := WalkWindow(window).info;
    StuckWindow(r, max);
    WindowIsProper(r, max);
    var m := Marker(info);
    var next := m + r[|window|..];
    assert NextRemaining(r, max) == next;
    var k := |FENCE + info|;
    assert next[..k] == FENCE + info && next[..k + 1] == m;
    BoundaryCovers(next, k, max);
    var w := Window(next, max);
    if |w| > |m| {
      assert w[..|m| + 1] == m + [r[|window|]];
      ByteLenSplit(w, |m| + 1);
      ByteLenConcat(m, [r[|window|]]);
      OneChar(r[|window|]);
    }
    assert w == next[..|w|];
  }

  lemma OneChar(c: char)
    ensures ByteLen([c]) == Utf8Len(c)
  {
    assert [c][1..] == [];
  }

  lemma StuckAgain(r: string, max: nat)
    requires Stuck(r, max) && max >= 3
    ensures Stuck(NextRemaining(r, max), max)
  {
    hide WalkWindow, ByteLen, FenceInfo, LineLen;
    var window := Window(r, max);
    var info := WalkWindow(window).info;
    var next := NextRemaining(r, max);
    StuckWindow(r, max);
    NextWindow(r, max);
    CleanInfo(info);
    LineOf(info);
    FenceLineWalk(Window(next, max), info);
    ByteLenConcat(FENCE + info, "\n");
    ByteLenSplit(r, |window|);
    ByteLenConcat(Marker(info), r[|window|..]);
  }

  // --- Windows too small for one character -----------------------------------

  lemma {:induction false} ShortWalk(window: string, pos: nat, w: Walk)
    requires pos < |window| < 3 && !w.inFence
    ensures WalkFrom(window, pos, w).cut == Some(|window|)
    decreases |window| - pos
  {
    hide LineLen;
    var end := pos + LineLen(window[pos..]);
    NoShortFence(window[pos..end]);
    hide FenceInfo;
    if end < |window| {
      ShortWalk(window, end, WalkLine(w, window[pos..end], end));
    }
  }

  lemma NoShortFence(line: string)
    requires |line| < 3
    ensures FenceInfo(line).None?
  {
    var i := TrimSpacesSplits(line);
  }

  /** With `max` below 3 a character that does not fit is met again behind each marker. */
  lemma {:induction false} SmallWindowLoops(s: string, r: string, max: nat)
    requires max < 3 && r != [] && Utf8Len(r[0]) > max
    requires forall i :: 0 <= i < |s| ==> Utf8Len(s[i]) == 1
    ensures Chunk(s + r, max).None?
    decreases |s|
  {
    hide WalkFrom, WalkLine, FenceInfo;
    var t := s + r;
    ByteLenConcat(s, r);
    HeadBytes(r);
    if s == [] {
      assert t == r;
      HeadTooWide(r, max);
      EmptyWalk();
    } else {
      var window := Window(t, max);
      if max == 0 {
        HeadTooWide(t, max);
        EmptyWalk();
      } else {
        assert t[..1] == [s[0]];
        OneChar(s[0]);
        BoundaryCovers(t, 1, max);
        WindowWithin(s, r, max);
        LongerBytes(window);
        ShortWalk(window, 0, Walk(None, false, ""));
        assert NextRemaining(t, max) == s[|window|..] + r;
        SmallWindowLoops(s[|window|..], r, max);
      }
    }
  }

  lemma HeadBytes(s: string)
    requires s != []
    ensures ByteLen(s) >= Utf8Len(s[0])
  {
  }

  lemma HeadTooWide(s: string, max: nat)
    requires s != [] && Utf8Len(s[0]) > max
    ensures Window(s, max) == ""
  {
  }

  lemma WindowWithin(s: string, r: string, max: nat)
    requires r != [] && Utf8Len(r[0]) > max
    ensures |Window(s + r, max)| <= |s|
  {
    hide FloorBoundary, ByteLen;
    var w := Window(s + r, max);
    if |w| > |s| {
      assert w[|s|] == r[0];
      assert w[|s|..] != [] && w[|s|..][0] == r[0];
      ByteLenSplit(w, |s|);
      HeadBytes(w[|s|..]);
    }
  }

  lemma StuckSmall(r: string, max: nat)
    requires Stuck(r, max) && max < 3
    ensures Chunk(NextRemaining(r, max), max).None?
  {
    hide WalkFrom, FenceInfo, WalkLine;
    var window := Window(r, max);
    LongerBytes(window);
    if window != [] {
      ShortWalk(window, 0, Walk(None, false, ""));
    }
    WindowIsProper(r, max);
    NoBytes();
    EmptyWalk();
    assert r[0..] == r;
    assert NextRemaining(r, max) == Marker("") + r;
    SmallWindowLoops(Marker(""), r, max);
  }

  // --- The exact condition ---------------------------------------------------

  lemma {:induction false} DivergesForever(r: string, max: nat, n: nat)
    requires Chunk(r, max).None?
    ensures Iterate(r, max, n) != ""
    decreases n
  {
    hide WalkWindow, NextRemaining, NextChunk;
    if n > 0 {
      if Stuck(r, max) {
        if max >= 3 {
          StuckAgain(r, max);
          StuckHasNoChunks(NextRemaining(r, max), max);
        } else {
          StuckSmall(r, max);
        }
      }
      hide Stuck;
      DivergesForever(NextRemaining(r, max), max, n - 1);
    }
  }

  lemma StuckHasNoChunks(r: string, max: nat)
    requires Stuck(r, max)
    ensures Chunk(r, max).None?
  {
    hide WalkWindow;
    NoBytes();
  }

  lemma {:induction false} EndsAfter(r: string, max: nat) returns (n: nat)
    requires Chunk(r, max).Some?
    ensures Iterate(r, max, n) == ""
    decreases ByteLen(r)
  {
    hide WalkWindow, NextRemaining, NextChunk, ByteLen, Stuck;
    if r == [] {
      n := 0;
    } else if ByteLen(r) <= max {
      n := 1;
    } else {
      ChunkStep(r, max);
      Shrinks(r, max);
      hide Chunk;
      n := EndsAfter(NextRemaining(r, max), max);
      n := n + 1;
    }
  }

  lemma {:induction false} MeetsStuck(r: string, max: nat) returns (n: nat)
    requires Chunk(r, max).None?
    ensures Stuck(Iterate(r, max, n), max)
    decreases ByteLen(r)
  {
    hide WalkWindow, NextRemaining, NextChunk, ByteLen;
    if Stuck(r, max) {
      n := 0;
    } else {
      assert r != [] && ByteLen(r) > max;
      Shrinks(r, max);
      hide Stuck;
      n := MeetsStuck(NextRemaining(r, max), max);
      n := n + 1;
    }
  }

  lemma {:induction false} NeverMeetsStuck(r: string, max: nat, n: nat)
    requires Chunk(r, max).Some?
    ensures !Stuck(Iterate(r, max, n), max)
    decreases n
  {
    hide WalkWindow, NextRemaining, NextChunk, ByteLen;
    NoBytes();
    if n > 0 && r != [] && ByteLen(r) > max {
      NeverMeetsStuck(NextRemaining(r, max), max, n - 1);
    }
  }

  /** The loop ends exactly when it never meets a stuck remainder. Then `Chunk` has its chunks. */
  lemma TerminatesIff(text: string, max: nat)
    ensures (exists n :: Iterate(text, max, n) == "") <==> forall n :: !Stuck(Iterate(text, max, n), max)
    ensures (exists n :: Iterate(text, max, n) == "") <==> Chunk(text, max).Some?
  {
    hide Chunk, Iterate, Stuck;
    if Chunk(text, max).Some? {
      var n := EndsAfter(text, max);
      forall n ensures !Stuck(Iterate(text, max, n), max) {
        NeverMeetsStuck(text, max, n);
      }
    } else {
      forall n ensures Iterate(text, max, n) != "" {
        DivergesForever(text, max, n);
      }
      var n := MeetsStuck(text, max);
    }
  }

  // --- A condition on the text -----------------------------------------------

  /** Wherever the text could be cut, a fence line that starts there leaves at least four bytes of a
      chunk free. Lines without backticks may be as long as they like. This is more than the loop needs for
      the one text: it answers for every place at which what comes before might bring about a cut, the
      middle of a line included, and so for all suffixes at once. */
  ghost predicate FencesFit(text: string, max: nat) {
    forall i :: 0 <= i < |text| && FenceInfo(FirstLine(text[i..])).Some? ==> ByteLen(FirstLine(text[i..])) + 4 <= max
  }

  lemma PrefixIsFence(a: string, b: string)
    requires a <= b && FenceInfo(a).Some?
    ensures FenceInfo(b).Some?
  {
    hide Trim;
    var i := TrimSpacesSplits(a);
    var t := b[i..];
    assert a[i..] <= t;
    TrimSpacesOf(b, i);
  }

  lemma {:induction false} TrimSpacesOf(s: string, i: nat)
    requires i < |s| && s[i] != ' ' && forall k :: 0 <= k < i ==> s[k] == ' '
    ensures TrimSpaces(s) == s[i..]
  {
    if i > 0 {
      TrimSpacesOf(s[1..], i - 1);
      assert s[1..][i - 1..] == s[i..];
    }
  }

  /** If the window's first line is a fence, it is the text's whole first line. */
  lemma FenceInWindow(r: string, max: nat)
    requires max >= 4 && FencesFit(r, max) && ByteLen(r) > max
    requires var w := Window(r, max); w != [] && FenceInfo(FirstLine(w)).Some?
    ensures FirstLine(Window(r, max)) == FirstLine(r) && r[LineLen(r) - 1] == '\n'
    ensures ByteLen(FirstLine(r)) + 4 <= max
  {
    hide FenceInfo, ByteLen, LineLen, FloorBoundary;
    var w := Window(r, max);
    WindowIsProper(r, max);
    assert r[0..] == r;
    var a, b := LineLen(w), LineLen(r);
    assert b <= |w| ==> w[b - 1] == r[b - 1];
    if a < b {
      assert forall i :: 0 <= i < a ==> r[i] == w[i] && w[i] != '\n';
      assert w[..a] == r[..a] && r[..a] <= r[..b];
      PrefixIsFence(w[..a], r[..b]);
      BoundaryCovers(r, b, max);
      assert b <= FloorBoundary(r, max);
    }
    assert w[..b] == r[..b];
  }

  lemma FitNotStuck(r: string, max: nat)
    requires max >= 4 && FencesFit(r, max)
    ensures !Stuck(r, max)
  {
    hide WalkWindow, FenceInfo, FenceCount, ByteLen, LineLen, FencesFit;
    if ByteLen(r) > max {
      WindowIsProper(r, max);
      var w := Window(r, max);
      if w != [] {
        WalkMeaning(w);
        if WalkWindow(w).cut.None? {
          FenceInWindow(r, max);
          FirstLineIsLine(r);
          InfoOfLine(FirstLine(r));
          MarkerLen(WalkWindow(w).info);
        }
      } else {
        NoBytes();
      }
    }
  }

  lemma SuffixFits(r: string, i: nat, max: nat)
    requires FencesFit(r, max) && i <= |r|
    ensures FencesFit(r[i..], max)
  {
    hide FenceInfo, ByteLen;
    forall j | 0 <= j < |r[i..]| ensures r[i..][j..] == r[i + j..] {
    }
  }

  lemma MarkerFits(info: string, rest: string, max: nat)
    requires '\n' !in info && ByteLen(Marker(info)) + 4 <= max && FencesFit(rest, max)
    ensures FencesFit(Marker(info) + rest, max)
  {
    hide FenceInfo, ByteLen, LineLen;
    var m := Marker(info);
    var r := m + rest;
    forall i | 0 <= i < |r| && FenceInfo(FirstLine(r[i..])).Some?
      ensures ByteLen(FirstLine(r[i..])) + 4 <= max
    {
      if i < |m| {
        var t := r[i..];
        assert forall k :: 0 <= k < |m| - i - 1 ==> t[k] == m[i + k] && m[i + k] != '\n';
        assert t[|m| - i - 1] == '\n';
        LineLenPrefix(t, |m| - i);
        assert FirstLine(t) == m[i..];
        ByteLenSplit(m, i);
      } else {
        assert r[i..] == rest[i - |m|..];
      }
    }
  }

  lemma NextFits(r: string, max: nat)
    requires max >= 4 && FencesFit(r, max) && ByteLen(r) > max
    ensures FencesFit(NextRemaining(r, max), max)
  {
    hide WalkWindow, FenceInfo, FenceCount, ByteLen, LineLen, FencesFit;
    var w := Window(r, max);
    FitNotStuck(r, max);
    if WalkWindow(w).cut.Some? {
      CutInWindow(w);
      SuffixFits(r, WalkWindow(w).cut.value, max);
    } else {
      HardSplitReopens(r, max);
      WalkMeaning(w);
      FenceInWindow(r, max);
      FirstLineIsLine(r);
      InfoOfLine(FirstLine(r));
      MarkerLen(WalkWindow(w).info);
      SuffixFits(r, |w|, max);
      MarkerFits(WalkWindow(w).info, r[|w|..], max);
    }
  }

  /** The caller's condition: if every fence line leaves four bytes of a chunk free, the
      chunker terminates. */
  lemma {:induction false} FencesFitTerminates(text: string, max: nat)
    requires max >= 4 && FencesFit(text, max)
    ensures Chunk(text, max).Some?
    decreases ByteLen(text)
  {
    hide WalkWindow, FencesFit, NextRemaining, NextChunk, ByteLen, Stuck;
    if text != [] && ByteLen(text) > max {
      FitNotStuck(text, max);
      NextFits(text, max);
      Shrinks(text, max);
      FencesFitTerminates(NextRemaining(text, max), max);
    }
  }

  /** Every suffix of such a text ends as well. */
  lemma SuffixesTerminate(text: string, max: nat, i: nat)
    requires max >= 4 && FencesFit(text, max) && i <= |text|
    ensures Chunk(text[i..], max).Some?
  {
    hide FencesFit, Chunk;
    SuffixFits(text, i, max);
    FencesFitTerminates(text[i..], max);
  }

  /** And some such condition is needed: one unbroken fence line longer than a chunk never ends. */
  lemma LongFenceDiverges(info: string, max: nat)
    requires IsWord(info) && max >= 3 && ByteLen(FENCE + info) > max
    ensures Chunk(FENCE + info, max).None?
  {
    hide WalkWindow, ByteLen, FenceInfo, LineLen, FloorBoundary;
    var r := FENCE + info;
    FenceBytes();
    assert r[..3] == FENCE;
    BoundaryCovers(r, 3, max);
    var w := Window(r, max);
    var shown := info[..|w| - 3];
    assert w == FENCE + shown;
    assert IsWhitespace('\n');
    CleanInfo(shown);
    LineOf(shown);
    FenceLineWalk(w, shown);
    ByteLenConcat(FENCE, shown);
    MarkerLen(shown);
    StuckHasNoChunks(r, max);
  }
}
