/** The fence-safe chunker (src/channel.rs:2523-2580). Text is a sequence of characters with
    their UTF-8 widths, so byte limits and character boundaries are those of the source. */
module Chunker {
  import opened Text

  function Utf8Len(c: char): (n: nat)
    ensures 1 <= n <= 4
  {
    if c as int < 0x80 then 1 else if c as int < 0x800 then 2 else if c as int < 0x10000 then 3 else 4
  }

  function ByteLen(s: string): (n: nat)
    ensures n >= |s|
  {
    if s == [] then 0 else Utf8Len(s[0]) + ByteLen(s[1..])
  }

  lemma {:induction false} ByteLenConcat(a: string, b: string)
    ensures ByteLen(a + b) == ByteLen(a) + ByteLen(b)
  {
    if a == [] {
      assert a + b == b;
    } else {
      assert (a + b)[1..] == a[1..] + b;
      ByteLenConcat(a[1..], b);
    }
  }

  lemma ByteLenSplit(s: string, i: nat)
    requires i <= |s|
    ensures ByteLen(s) == ByteLen(s[..i]) + ByteLen(s[i..])
  {
    hide ByteLen;
    assert s == s[..i] + s[i..];
    ByteLenConcat(s[..i], s[i..]);
  }

  /** `floor_char_boundary`: the most characters that fit in `max` bytes. */
  function FloorBoundary(s: string, max: nat): (n: nat)
    ensures n <= |s| && ByteLen(s[..n]) <= max
    ensures n < |s| ==> ByteLen(s[..n]) + Utf8Len(s[n]) > max
  {
    if s == [] || Utf8Len(s[0]) > max then 0
    else
      var n := 1 + FloorBoundary(s[1..], max - Utf8Len(s[0]));
      assert s[..n][1..] == s[1..][..n - 1];
      n
  }

  lemma {:induction false} BoundaryCovers(s: string, k: nat, max: nat)
    requires k <= |s| && ByteLen(s[..k]) <= max
    ensures k <= FloorBoundary(s, max)
  {
    if k > 0 {
      assert s[..k][1..] == s[1..][..k - 1];
      BoundaryCovers(s[1..], k - 1, max - Utf8Len(s[0]));
    }
  }

  // --- Lines and fences ------------------------------------------------------

  /** Length of the first line, its newline included. */
  function LineLen(s: string): (n: nat)
    requires s != []
    ensures 1 <= n <= |s|
    ensures forall i :: 0 <= i < n - 1 ==> s[i] != '\n'
    ensures n < |s| ==> s[n - 1] == '\n'
  {
    if s[0] == '\n' || |s| == 1 then 1 else 1 + LineLen(s[1..])
  }

  function TrimSpaces(s: string): string {
    if s != [] && s[0] == ' ' then TrimSpaces(s[1..]) else s
  }

  const FENCE := "```"

  /** The info string of a fence line, or None. */
  function FenceInfo(line: string): Option<string> {
    var t := TrimSpaces(line);
    if FENCE <= t then Some(Trim(t[3..])) else None
  }

  /** The line that the chunker injects to re-open a fence. */
  function Marker(info: string): string {
    FENCE + info + "\n"
  }

  /** Number of fence lines. */
  function FenceCount(s: string): nat {
    if s == [] then 0
    else (if FenceInfo(s[..LineLen(s)]).Some? then 1 else 0) + FenceCount(s[LineLen(s)..])
  }

  predicate AtLineStart(s: string, pos: nat) {
    pos == 0 || (pos <= |s| && s[pos - 1] == '\n')
  }

  lemma {:induction false} LineLenPrefix(s: string, n: nat)
    requires 0 < n <= |s| && (s[n - 1] == '\n' || n == |s|) && forall i :: 0 <= i < n - 1 ==> s[i] != '\n'
    ensures LineLen(s) == n
  {
  }

  /** Fences add up over a cut at a line start. */
  lemma {:induction false} FenceCountConcat(a: string, b: string)
    requires a == [] || a[|a| - 1] == '\n'
    ensures FenceCount(a + b) == FenceCount(a) + FenceCount(b)
  {
    if a == [] {
      assert a + b == b;
    } else {
      var n := LineLen(a);
      LineLenPrefix(a + b, n);
      assert (a + b)[..n] == a[..n];
      assert (a + b)[n..] == a[n..] + b;
      FenceCountConcat(a[n..], b);
    }
  }

  lemma OneLineCount(line: string)
    requires line != [] && LineLen(line) == |line|
    ensures FenceCount(line) == if FenceInfo(line).Some? then 1 else 0
  {
    hide FenceInfo;
    assert line[..|line|] == line && line[|line|..] == [];
  }

  // --- The walk over one window ----------------------------------------------

  datatype Walk = Walk(cut: Option<nat>, inFence: bool, info: string)

  /** Accounts for one line that ends at `end`. */
  function WalkLine(w: Walk, line: string, end: nat): Walk {
    var info := FenceInfo(line);
    var inFence := if info.Some? then !w.inFence else w.inFence;
    Walk(if inFence then w.cut else Some(end),
         inFence,
         if info.Some? then (if inFence then info.value else "") else w.info)
  }

  function WalkFrom(window: string, pos: nat, w: Walk): Walk
    requires pos <= |window|
    decreases |window| - pos
  {
    if pos == |window| then w
    else
      var end := pos + LineLen(window[pos..]);
      WalkFrom(window, end, WalkLine(w, window[pos..end], end))
  }

  function WalkWindow(window: string): Walk {
    WalkFrom(window, 0, Walk(None, false, ""))
  }

  function FirstLine(s: string): string
    requires s != []
  {
    s[..LineLen(s)]
  }

  /** What the walk knows after the lines before `pos`. */
  ghost predicate WalkInv(window: string, pos: nat, w: Walk)
    requires pos <= |window|
  {
    && (AtLineStart(window, pos) || pos == |window|)
    && (w.inFence <==> FenceCount(window[..pos]) % 2 == 1)
    && (w.cut.Some? ==>
          && 0 < w.cut.value <= pos
          && FenceCount(window[..w.cut.value]) % 2 == 0
          && (FenceInfo(FirstLine(window)).Some? ==> w.cut.value > LineLen(window)))
    && (w.cut.None? && pos > 0 ==>
          && w.inFence && FenceCount(window[..pos]) == 1
          && FenceInfo(FirstLine(window)) == Some(w.info))
    && (pos == 0 ==> w == Walk(None, false, ""))
    && (pos > 0 ==> pos >= LineLen(window))
  }

  lemma PrefixLine(window: string, pos: nat)
    requires pos < |window| && AtLineStart(window, pos)
    ensures var end := pos + LineLen(window[pos..]);
            && end <= |window|
            && (AtLineStart(window, end) || end == |window|)
            && FenceCount(window[..end]) ==
               FenceCount(window[..pos]) + (if FenceInfo(window[pos..end]).Some? then 1 else 0)
  {
    hide FenceInfo, FenceCount;
    var end := pos + LineLen(window[pos..]);
    var line := window[pos..end];
    assert window[..end] == window[..pos] + line;
    FenceCountConcat(window[..pos], line);
    LineLenPrefix(line, |line|);
    OneLineCount(line);
  }

  lemma WalkLineKeeps(window: string, pos: nat, w: Walk)
    requires pos < |window| && WalkInv(window, pos, w)
    ensures var end := pos + LineLen(window[pos..]);
            && pos < end <= |window|
            && WalkInv(window, end, WalkLine(w, window[pos..end], end))
  {
    hide FenceInfo, FenceCount, LineLen;
    PrefixLine(window, pos);
    if pos == 0 {
      assert window[0..] == window && window[..0] == [];
      NoFences();
    }
  }

  lemma NoFences()
    ensures FenceCount("") == 0
  {
  }

  lemma {:induction false} WalkKeeps(window: string, pos: nat, w: Walk)
    requires pos <= |window| && WalkInv(window, pos, w)
    ensures WalkInv(window, |window|, WalkFrom(window, pos, w))
    decreases |window| - pos
  {
    hide WalkInv, WalkLine;
    if pos < |window| {
      WalkLineKeeps(window, pos, w);
      var end := pos + LineLen(window[pos..]);
      WalkKeeps(window, end, WalkLine(w, window[pos..end], end));
    }
  }

  /** What a finished walk means: a cut leaves an even number of fences behind it; no cut at
      all means that the window's first line opens a fence that nothing closes. */
  lemma WalkMeaning(window: string)
    requires window != []
    ensures var w := WalkWindow(window);
            if w.cut.Some? then
              && 0 < w.cut.value <= |window| && FenceCount(window[..w.cut.value]) % 2 == 0
              && (FenceInfo(FirstLine(window)).Some? ==> w.cut.value > LineLen(window))
            else FenceCount(window) == 1 && FenceInfo(FirstLine(window)) == Some(w.info)
  {
    hide FenceInfo, FenceCount, LineLen, WalkFrom;
    assert window[..0] == [];
    NoFences();
    WalkKeeps(window, 0, Walk(None, false, ""));
    assert window[..|window|] == window;
  }

  // --- One iteration of the chunker ------------------------------------------

  function Window(r: string, max: nat): (w: string)
    ensures w <= r && ByteLen(w) <= max
  {
    r[..FloorBoundary(r, max)]
  }

  function NextChunk(r: string, max: nat): string {
    var window := Window(r, max);
    var w := WalkWindow(window);
    if w.cut.Some? && w.cut.value <= |window| then window[..w.cut.value] else window
  }

  /** What is left after one iteration on a text that does not fit: the rest after the cut,
      or, when the whole window lies in one open fence, the rest behind a re-opened fence. */
  function NextRemaining(r: string, max: nat): string {
    var window := Window(r, max);
    var w := WalkWindow(window);
    if w.cut.Some? && w.cut.value <= |r| then r[w.cut.value..] else Marker(w.info) + r[|window|..]
  }

  /** The guard of the failing branch: the window is one open fence line no longer than the
      marker that will replace it, so nothing is consumed. */
  predicate Stuck(r: string, max: nat) {
    && ByteLen(r) > max
    && WalkWindow(Window(r, max)).cut.None?
    && ByteLen(Window(r, max)) <= ByteLen(Marker(WalkWindow(Window(r, max)).info))
  }

  lemma WindowIsProper(r: string, max: nat)
    requires ByteLen(r) > max
    ensures |Window(r, max)| < |r|
    ensures ByteLen(Window(r, max)) + Utf8Len(r[|Window(r, max)|]) > max
  {
    hide ByteLen, FloorBoundary;
    assert r[..|r|] == r;
  }

  lemma MarkerLen(info: string)
    ensures ByteLen(Marker(info)) == 4 + ByteLen(info)
  {
    ByteLenConcat(FENCE + info, "\n");
    ByteLenConcat(FENCE, info);
    assert ByteLen(FENCE) == 3 by {
      assert FENCE[1..][1..][1..] == [];
    }
    assert ByteLen("\n") == 1;
  }

  /** Every iteration that is not stuck consumes bytes. */
  lemma Shrinks(r: string, max: nat)
    requires ByteLen(r) > max && !Stuck(r, max)
    ensures ByteLen(NextRemaining(r, max)) < ByteLen(r)
  {
    hide WalkWindow;
    WindowIsProper(r, max);
    var window := Window(r, max);
    var w := WalkWindow(window);
    ByteLenSplit(r, |window|);
    if w.cut.Some? {
      if window != [] {
        WalkMeaning(window);
      } else {
        EmptyWalk();
      }
      ByteLenSplit(r, w.cut.value);
    } else {
      ByteLenConcat(Marker(w.info), r[|window|..]);
    }
  }

  lemma EmptyWalk()
    ensures WalkWindow("") == Walk(None, false, "")
  {
  }

  /** The chunks of a text, or None when the loop gets stuck on the way. */
  function Chunk(r: string, max: nat): Option<seq<string>>
    decreases ByteLen(r)
  {
    if r == [] then Some([])
    else if ByteLen(r) <= max then Some([r])
    else if Stuck(r, max) then None
    else
      Shrinks(r, max);
      match Chunk(NextRemaining(r, max), max)
      case None => None
      case Some(rest) => Some([NextChunk(r, max)] + rest)
  }

  /** The chunker as the source runs it. */
  method ChunkFenceSafe(text: string, max: nat) returns (chunks: seq<string>)
    requires Chunk(text, max).Some?
    ensures Chunk(text, max) == Some(chunks)
  {
    hide *;
    chunks := [];
    var remaining := text;
    assert chunks + Chunk(text, max).value == Chunk(text, max).value;
    while remaining != []
      invariant Chunk(remaining, max).Some?
      invariant Chunk(text, max) == Some(chunks + Chunk(remaining, max).value)
      decreases ByteLen(remaining)
    {
      ChunkCases(remaining, max);
      ghost var before, rest := chunks, Chunk(remaining, max).value;
      if ByteLen(remaining) <= max {
        chunks := chunks + [remaining];
        remaining := [];
      } else {
        var limit := FloorBoundary(remaining, max);
        var window := remaining[..limit];
        var w := WalkLines(window);
        match w.cut {
          case Some(c) =>
            chunks := chunks + [window[..c]];
            remaining := remaining[c..];
          case None =>
            chunks := chunks + [window];
            remaining := Marker(w.info) + remaining[limit..];
        }
      }
      ChunkCases(remaining, max);
      assert chunks == before + [rest[0]];
      assert rest == [rest[0]] + Chunk(remaining, max).value;
      assert before + ([rest[0]] + Chunk(remaining, max).value) == before + [rest[0]] + Chunk(remaining, max).value;
    }
    ChunkCases(remaining, max);
    assert chunks + [] == chunks;
  }

  /** One unfolding of `Chunk`, in the terms of the loop body. */
  lemma ChunkCases(r: string, max: nat)
    ensures r == [] ==> Chunk(r, max) == Some([]) && ByteLen(r) == 0
    ensures r != [] && ByteLen(r) <= max ==> Chunk(r, max) == Some([r]) && ByteLen(r) > 0
    ensures r != [] && ByteLen(r) > max && Chunk(r, max).Some? ==>
              var limit := FloorBoundary(r, max);
              var window := r[..limit];
              var w := WalkWindow(window);
              && (w.cut.Some? ==> 0 < w.cut.value <= |window|)
              && var next := if w.cut.Some? then r[w.cut.value..] else Marker(w.info) + r[limit..];
                 && ByteLen(next) < ByteLen(r)
                 && Chunk(next, max).Some?
                 && Chunk(r, max).value ==
                    [if w.cut.Some? then window[..w.cut.value] else window] + Chunk(next, max).value
  {
    hide WalkWindow, Marker, FenceInfo;
    if ByteLen(r) > max && !Stuck(r, max) {
      Shrinks(r, max);
      CutInWindow(Window(r, max));
    }
  }

  /** The inner loop over the lines of one window. */
  method WalkLines(window: string) returns (w: Walk)
    ensures w == WalkWindow(window)
  {
    hide FenceInfo, LineLen;
    var cut: Option<nat>, inFence, openInfo := None, false, "";
    var pos := 0;
    while pos < |window|
      invariant pos <= |window|
      invariant WalkWindow(window) == WalkFrom(window, pos, Walk(cut, inFence, openInfo))
    {
      var end := pos + LineLen(window[pos..]);
      var info := FenceInfo(window[pos..end]);
      if info.Some? {
        inFence := !inFence;
        openInfo := if inFence then info.value else "";
      }
      pos := end;
      if !inFence {
        cut := Some(pos);
      }
    }
    return Walk(cut, inFence, openInfo);
  }

  lemma CutInWindow(window: string)
    ensures WalkWindow(window).cut.Some? ==> 0 < WalkWindow(window).cut.value <= |window|
  {
    hide WalkWindow, FenceInfo, FenceCount;
    if window == [] {
      EmptyWalk();
    } else {
      WalkMeaning(window);
    }
  }

  // --- What the chunks are ---------------------------------------------------

  predicate Odd(chunk: string) {
    FenceCount(chunk) % 2 == 1
  }

  predicate Reopens(chunk: string) {
    chunk != [] && FenceInfo(FirstLine(chunk)).Some? && chunk[LineLen(chunk) - 1] == '\n'
  }

  /** A remainder that begins with a complete fence line that fits one window. */
  predicate Reopened(r: string, max: nat) {
    Reopens(r) && ByteLen(FirstLine(r)) <= max
  }

  lemma TrimStartSplits(s: string) returns (i: nat)
    ensures i <= |s| && TrimStart(s) == s[i..]
  {
    if s != [] && IsWhitespace(s[0]) {
      i := TrimStartSplits(s[1..]);
      i := i + 1;
    } else {
      i := 0;
    }
  }

  lemma TrimEndSplits(s: string) returns (j: nat)
    ensures j <= |s| && TrimEnd(s) == s[..j]
    ensures s != [] && s[|s| - 1] == '\n' ==> j < |s|
  {
    if s != [] && IsWhitespace(s[|s| - 1]) {
      j := TrimEndSplits(s[..|s| - 1]);
      assert s[..|s| - 1][..j] == s[..j];
    } else {
      j := |s|;
    }
  }

  /** Trimming keeps a substring, and drops a final newline. */
  lemma TrimSplits(s: string) returns (i: nat, j: nat)
    ensures i <= j <= |s| && Trim(s) == s[i..j]
    ensures s != [] && s[|s| - 1] == '\n' ==> j < |s|
  {
    hide TrimStart, TrimEnd;
    i := TrimStartSplits(s);
    var k := TrimEndSplits(s[i..]);
    j := i + k;
    assert s[i..][..k] == s[i..j];
    if i == |s| {
      i, j := 0, 0;
    } else {
      assert s[i..][|s[i..]| - 1] == s[|s| - 1];
    }
  }

  lemma TrimSpacesSplits(s: string) returns (i: nat)
    ensures i <= |s| && TrimSpaces(s) == s[i..] && forall k :: 0 <= k < i ==> s[k] == ' '
  {
    if s != [] && s[0] == ' ' {
      var j := TrimSpacesSplits(s[1..]);
      i := j + 1;
    } else {
      i := 0;
    }
  }

  /** A fence line is: spaces, the three backticks, padding, the info string, padding. */
  lemma FenceLineParts(line: string) returns (a: string, b: string, c: string)
    requires FenceInfo(line).Some?
    ensures line == a + FENCE + b + FenceInfo(line).value + c
    ensures line[|line| - 1] == '\n' ==> c != []
  {
    hide TrimSpaces, Trim;
    var k := TrimSpacesSplits(line);
    var t := line[k..];
    var u := t[3..];
    var i, j := TrimSplits(u);
    a, b, c := line[..k], u[..i], u[j..];
    assert t == FENCE + u;
    assert u == b + u[i..j] + c;
    if u == [] {
      assert line[|line| - 1] == t[2];
      assert t[2] == '`';
    } else {
      assert line[|line| - 1] == u[|u| - 1];
    }
  }

  /** The info string of a line: no newline in it; and with the line's own newline it leaves
      room for the marker. */
  lemma InfoOfLine(line: string)
    requires line != [] && LineLen(line) == |line| && FenceInfo(line).Some?
    ensures var info := FenceInfo(line).value;
            && '\n' !in info
            && 3 + ByteLen(info) <= ByteLen(line)
            && (line[|line| - 1] == '\n' ==> 4 + ByteLen(info) <= ByteLen(line))
  {
    hide *;
    var a, b, c := FenceLineParts(line);
    var info := FenceInfo(line).value;
    FiveParts(a, FENCE, b, info, c);
    FenceBytes();
    LongerBytes(c);
    NoNewlineInside(line, a + FENCE + b, info, c);
  }

  lemma NoNewlineInside(line: string, before: string, part: string, after: string)
    requires line != [] && LineLen(line) == |line| && line == before + part + after
    requires line[|line| - 1] == '\n' ==> after != []
    ensures '\n' !in part
  {
    hide LineLen;
    assert forall k :: 0 <= k < |part| ==> part[k] == line[|before| + k];
  }

  lemma LongerBytes(s: string)
    ensures ByteLen(s) >= |s|
  {
  }

  lemma FenceBytes()
    ensures ByteLen(FENCE) == 3
  {
    assert FENCE[1..][1..][1..] == [];
  }

  lemma FiveParts(a: string, b: string, c: string, d: string, e: string)
    ensures ByteLen(a + b + c + d + e) == ByteLen(a) + ByteLen(b) + ByteLen(c) + ByteLen(d) + ByteLen(e)
  {
    hide ByteLen;
    ByteLenConcat(a + b + c + d, e);
    ByteLenConcat(a + b + c, d);
    ByteLenConcat(a + b, c);
    ByteLenConcat(a, b);
  }

  /** A marker is a complete fence line with the same info string. */
  lemma MarkerIsFence(info: string, rest: string)
    requires '\n' !in info
    ensures var r := Marker(info) + rest;
            r != [] && LineLen(r) == |Marker(info)| && FirstLine(r) == Marker(info) && Reopens(r)
  {
    hide Trim;
    var m := Marker(info);
    var r := m + rest;
    assert forall i :: 0 <= i < |m| - 1 ==> r[i] == m[i] && m[i] != '\n';
    assert r[|m| - 1] == '\n';
    LineLenPrefix(r, |m|);
    assert r[..|m|] == m;
    assert TrimSpaces(m) == m;
    assert m[..3] == FENCE;
  }

  /** After a hard split the rest begins with a re-opened fence. */
  lemma HardSplitReopens(r: string, max: nat)
    requires ByteLen(r) > max && !Stuck(r, max) && WalkWindow(Window(r, max)).cut.None?
    ensures var window := Window(r, max);
            var info := WalkWindow(window).info;
            && window != [] && Odd(window)
            && NextChunk(r, max) == window
            && NextRemaining(r, max) == Marker(info) + r[|window|..]
            && '\n' !in info
            && Reopened(NextRemaining(r, max), max)
            && FirstLine(NextRemaining(r, max)) == Marker(info)
  {
    hide WalkWindow, FenceInfo, FenceCount, ByteLen, LineLen;
    var window := Window(r, max);
    var info := WalkWindow(window).info;
    if window == [] {
      EmptyWalk();
      LongerBytes(Marker(info));
      NoBytes();
    }
    WalkMeaning(window);
    FirstLineIsLine(window);
    InfoOfLine(FirstLine(window));
    MarkerIsFence(info, r[|window|..]);
  }

  lemma NoBytes()
    ensures ByteLen("") == 0
  {
  }

  lemma FirstLineIsLine(s: string)
    requires s != []
    ensures FirstLine(s) != [] && LineLen(FirstLine(s)) == |FirstLine(s)|
    ensures ByteLen(FirstLine(s)) <= ByteLen(s)
  {
    LineLenPrefix(FirstLine(s), LineLen(s));
    ByteLenSplit(s, LineLen(s));
  }

  /** Each chunk is at most `max` bytes long. */
  lemma {:induction false} ChunksFit(r: string, max: nat)
    requires Chunk(r, max).Some?
    ensures forall c <- Chunk(r, max).value :: ByteLen(c) <= max
    decreases ByteLen(r)
  {
    hide WalkWindow, Marker;
    if r != [] && ByteLen(r) > max {
      Shrinks(r, max);
      var window := Window(r, max);
      CutInWindow(window);
      var c := NextChunk(r, max);
      assert c == window[..|c|];
      ByteLenSplit(window, |c|);
      ChunksFit(NextRemaining(r, max), max);
    }
  }

  /** A chunk that ends inside a fence is followed by one that re-opens it. */
  ghost predicate FencesKept(chunks: seq<string>) {
    forall i :: 0 <= i < |chunks| - 1 && Odd(chunks[i]) ==> Reopens(chunks[i + 1])
  }

  lemma ReopensNewline(s: string)
    requires Reopens(s)
    ensures s != [] && s[LineLen(s) - 1] == '\n' && FenceInfo(FirstLine(s)).Some?
  {
  }

  lemma ReopenedMeans(r: string, max: nat)
    requires Reopened(r, max)
    ensures Reopens(r) && r != [] && ByteLen(r[..LineLen(r)]) <= max
  {
  }

  /** The first chunk of a remainder that starts with a whole fence line contains that line. */
  lemma HeadKeepsFence(r: string, max: nat)
    requires Chunk(r, max).Some? && Reopened(r, max)
    ensures var chunks := Chunk(r, max).value;
            && chunks != [] && chunks[0] <= r && LineLen(r) <= |chunks[0]| && Reopens(chunks[0])
            && FirstLine(chunks[0]) == FirstLine(r)
  {
    hide *;
    ReopenedMeans(r, max);
    ReopensNewline(r);
    ChunkCases(r, max);
    var n := LineLen(r);
    if ByteLen(r) > max {
      BoundaryCovers(r, n, max);
      var window := r[..FloorBoundary(r, max)];
      SameFirstLine(r, window);
      WalkMeaning(window);
      var head := Chunk(r, max).value[0];
      assert head <= r && n <= |head|;
      SameFirstLine(r, head);
    }
  }

  /** Prefixes that contain the first line, newline included, have that first line. */
  lemma SameFirstLine(r: string, s: string)
    requires s <= r && r != [] && LineLen(r) <= |s| && r[LineLen(r) - 1] == '\n'
    ensures s != [] && LineLen(s) == LineLen(r) && FirstLine(s) == FirstLine(r)
    ensures Reopens(r) ==> Reopens(s)
  {
    hide FenceInfo, LineLen;
    LineLenPrefix(s, LineLen(r));
  }

  lemma CutIsEven(r: string, max: nat)
    requires ByteLen(r) > max && WalkWindow(Window(r, max)).cut.Some?
    ensures !Odd(NextChunk(r, max))
    ensures NextChunk(r, max) + NextRemaining(r, max) == r
  {
    hide WalkWindow, FenceInfo, FenceCount, ByteLen;
    var window := Window(r, max);
    if window == [] {
      EmptyWalk();
    }
    WalkMeaning(window);
  }

  lemma {:induction false} ChunksKeepFences(r: string, max: nat)
    requires Chunk(r, max).Some?
    ensures FencesKept(Chunk(r, max).value)
    decreases ByteLen(r)
  {
    hide *;
    ChunkCases(r, max);
    if r != [] && ByteLen(r) > max {
      ChunkStep(r, max);
      Shrinks(r, max);
      var next := NextRemaining(r, max);
      ChunksKeepFences(next, max);
      var rest := Chunk(next, max).value;
      if WalkWindow(Window(r, max)).cut.Some? {
        CutIsEven(r, max);
      } else {
        HardSplitReopens(r, max);
        HeadKeepsFence(next, max);
      }
      PrependKept(NextChunk(r, max), rest);
    } else {
      FewKept(Chunk(r, max).value);
    }
  }

  lemma PrependKept(head: string, rest: seq<string>)
    requires FencesKept(rest) && (Odd(head) && rest != [] ==> Reopens(rest[0]))
    ensures FencesKept([head] + rest)
  {
    hide Odd, Reopens;
    var chunks := [head] + rest;
    assert forall i :: 1 <= i < |chunks| ==> chunks[i] == rest[i - 1];
  }

  lemma FewKept(chunks: seq<string>)
    requires |chunks| <= 1
    ensures FencesKept(chunks)
  {
  }

  /** Drops the injected marker line. */
  function AfterFirstLine(s: string): string {
    if s == [] then [] else s[LineLen(s)..]
  }

  /** The text that a reader puts together: a chunk that follows an open one loses its
      re-opened first line. */
  function Reassemble(open: bool, chunks: seq<string>): string
    decreases chunks
  {
    if chunks == [] then ""
    else
      (if open then AfterFirstLine(chunks[0]) else chunks[0])
      + Reassemble(Odd(chunks[0]), chunks[1..])
  }

  lemma {:induction false} ReassembleFrom(r: string, max: nat, open: bool)
    requires Chunk(r, max).Some? && (open ==> Reopened(r, max))
    ensures Reassemble(open, Chunk(r, max).value) == if open then AfterFirstLine(r) else r
    decreases ByteLen(r)
  {
    hide *;
    if r == [] {
      ChunkCases(r, max);
      ReassembleNone(open);
      ReopenedNotEmpty(r, max);
    } else if ByteLen(r) <= max {
      ChunkCases(r, max);
      assert [r] + [] == [r];
      ReassembleStep(open, r, []);
      ReassembleNone(Odd(r));
      assert AfterFirstLine(r) + "" == AfterFirstLine(r);
    } else {
      ChunkStep(r, max);
      Shrinks(r, max);
      var head, next := NextChunk(r, max), NextRemaining(r, max);
      var rest := Chunk(next, max).value;
      ReassembleStep(open, head, rest);
      if WalkWindow(Window(r, max)).cut.Some? {
        CutIsEven(r, max);
        ReassembleFrom(next, max, false);
        if open {
          HeadKeepsFence(r, max);
          ReopensNewline(head);
          SplitAfterFirstLine(head, next);
        }
      } else {
        HardSplitReopens(r, max);
        ReassembleFrom(next, max, true);
        AfterMarker(WalkWindow(head).info, r[|head|..]);
        assert r == head + r[|head|..];
        if open {
          HeadKeepsFence(r, max);
          ReopensNewline(head);
          SplitAfterFirstLine(head, r[|head|..]);
        }
      }
    }
  }


  lemma ReassembleNone(open: bool)
    ensures Reassemble(open, []) == ""
  {
  }

  lemma ReopenedNotEmpty(r: string, max: nat)
    requires r == []
    ensures !Reopened(r, max)
  {
  }

  lemma ReassembleStep(open: bool, head: string, rest: seq<string>)
    ensures Reassemble(open, [head] + rest) ==
            (if open then AfterFirstLine(head) else head) + Reassemble(Odd(head), rest)
  {
    hide Odd, AfterFirstLine;
    assert ([head] + rest)[1..] == rest;
  }

  lemma ChunkStep(r: string, max: nat)
    requires r != [] && ByteLen(r) > max && Chunk(r, max).Some?
    ensures !Stuck(r, max) && Chunk(NextRemaining(r, max), max).Some?
    ensures Chunk(r, max).value == [NextChunk(r, max)] + Chunk(NextRemaining(r, max), max).value
  {
    hide WalkWindow;
  }

  lemma AfterMarker(info: string, rest: string)
    requires '\n' !in info
    ensures AfterFirstLine(Marker(info) + rest) == rest
  {
    hide Marker, FenceInfo;
    MarkerIsFence(info, rest);
    assert (Marker(info) + rest)[|Marker(info)|..] == rest;
  }

  lemma SplitAfterFirstLine(a: string, b: string)
    requires a != [] && a[LineLen(a) - 1] == '\n'
    ensures AfterFirstLine(a + b) == AfterFirstLine(a) + b
  {
    hide LineLen;
    var n := LineLen(a);
    LineLenPrefix(a + b, n);
    assert (a + b)[n..] == a[n..] + b;
  }

  /** Stripping the injected markers gives back the exact text. */
  lemma ReassembleChunks(text: string, max: nat)
    requires Chunk(text, max).Some?
    ensures Reassemble(false, Chunk(text, max).value) == text
  {
    ReassembleFrom(text, max, false);
  }
}
