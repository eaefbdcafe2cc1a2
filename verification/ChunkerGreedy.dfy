/** Which cuts the chunker makes (src/channel.rs:2541-2579): each chunk is the longest that the fences allow. */
module ChunkerGreedy {
  import opened Text
  import opened Chunker

  // --- The last balanced line end of a window -----------------------------------

  predicate LineEnd(window: string, p: int) {
    0 < p <= |window| && (window[p - 1] == '\n' || p == |window|)
  }

  /** All line ends up to `pos` and beyond the cut lie inside a fence. */
  ghost predicate LastSoFar(window: string, pos: nat, cut: Option<nat>)
    requires pos <= |window|
  {
    && (cut.Some? ==> LineEnd(window, cut.value))
    && forall p :: LineEnd(window, p) && p <= pos && (cut.Some? ==> cut.value < p) ==> FenceCount(window[..p]) % 2 == 1
  }

  lemma NoLineEndInside(window: string, pos: nat, p: nat)
    requires pos < |window| && LineEnd(window, p) && pos < p
    ensures pos + LineLen(window[pos..]) <= p
    ensures LineEnd(window, pos + LineLen(window[pos..]))
  {
    hide LineLen;
    var line := window[pos..];
    assert forall i :: 0 <= i < |line| ==> line[i] == window[pos + i];
  }

  lemma {:induction false} LastKeeps(window: string, pos: nat, w: Walk)
    requires pos <= |window| && WalkInv(window, pos, w) && LastSoFar(window, pos, w.cut)
    ensures LastSoFar(window, |window|, WalkFrom(window, pos, w).cut)
    decreases |window| - pos
  {
    hide FenceInfo, FenceCount, LineLen, WalkInv, LastSoFar;
    if pos < |window| {
      WalkLineKeeps(window, pos, w);
      var end := pos + LineLen(window[pos..]);
      var next := WalkLine(w, window[pos..end], end);
      LastLine(window, pos, w);
      LastKeeps(window, end, next);
    }
  }

  lemma LastLine(window: string, pos: nat, w: Walk)
    requires pos < |window| && WalkInv(window, pos, w) && LastSoFar(window, pos, w.cut)
    ensures var end := pos + LineLen(window[pos..]);
            end <= |window| && LastSoFar(window, end, WalkLine(w, window[pos..end], end).cut)
  {
    hide FenceInfo, FenceCount, LineLen;
    var end := pos + LineLen(window[pos..]);
    WalkLineKeeps(window, pos, w);
    NoLineEndInside(window, pos, |window|);
    forall p | LineEnd(window, p) && pos < p ensures end <= p {
      NoLineEndInside(window, pos, p);
    }
  }

  /** The cut is the last line end of the window with all fences before it closed; the end of the window
      counts as one. */
  lemma LastCut(window: string)
    requires window != []
    ensures var cut := WalkWindow(window).cut;
            && (cut.Some? ==> LineEnd(window, cut.value) && FenceCount(window[..cut.value]) % 2 == 0)
            && forall p :: LineEnd(window, p) && (cut.Some? ==> cut.value < p) ==> FenceCount(window[..p]) % 2 == 1
  {
    hide FenceInfo, FenceCount, LineLen, WalkFrom;
    assert window[..0] == [];
    NoFences();
    LastKeeps(window, 0, Walk(None, false, ""));
    WalkMeaning(window);
  }

  // --- The chunks -------------------------------------------------------------------

  /** A place where a chunk of `r` may end: at a newline, or where no more of the text fits. */
  predicate Candidate(r: string, max: nat, n: int) {
    && 0 < n <= |r| && ByteLen(r[..n]) <= max
    && (r[n - 1] == '\n' || n == |r| || ByteLen(r[..n + 1]) > max)
  }

  predicate Balanced(s: string) {
    FenceCount(s) % 2 == 0
  }

  /** The longest balanced piece that fits, or, where there is none, the longest piece that fits. */
  ghost predicate Longest(r: string, max: nat, c: string) {
    && c <= r && Candidate(r, max, |c|)
    && (forall n :: |c| < n && Candidate(r, max, n) ==> !Balanced(r[..n]))
    && (!Balanced(c) ==> forall n :: Candidate(r, max, n) ==> n <= |c| && !Balanced(r[..n]))
  }

  /** What is chunked after `c`: the rest of the text, behind a re-opened fence if `c` left one open. */
  function AfterChunk(r: string, c: string): string
    requires c <= r && c != []
  {
    match FenceInfo(FirstLine(c))
    case Some(info) => if Balanced(c) then r[|c|..] else "```" + info + "\n" + r[|c|..]
    case None => r[|c|..]
  }

  /** A text that does not fit gives up its longest piece, and what comes after is chunked in the same way. */
  ghost predicate Greedy(r: string, max: nat, chunks: seq<string>)
    decreases |chunks|
  {
    if ByteLen(r) <= max then chunks == if r == [] then [] else [r]
    else
      && chunks != [] && Longest(r, max, chunks[0])
      && (!Balanced(chunks[0]) ==> FenceInfo(FirstLine(chunks[0])).Some?)
      && Greedy(AfterChunk(r, chunks[0]), max, chunks[1..])
  }

  lemma CandidatesOfWindow(r: string, max: nat, n: int)
    requires ByteLen(r) > max
    ensures Candidate(r, max, n) <==> LineEnd(Window(r, max), n)
    ensures LineEnd(Window(r, max), n) ==> Window(r, max)[..n] == r[..n]
  {
    hide ByteLen, FloorBoundary;
    var w := Window(r, max);
    assert w == r[..|w|];
    if 0 < n <= |r| && ByteLen(r[..n]) <= max {
      BoundaryCovers(r, n, max);
    }
    WindowIsProper(r, max);
    if 0 <= n <= |w| {
      assert r[..n] == w[..n];
      ByteLenSplit(w, n);
    }
    if 0 <= n < |w| {
      assert r[..n + 1] == w[..n + 1];
      ByteLenSplit(w, n + 1);
    }
    assert r[..|w| + 1] == w + [r[|w|]];
    ByteLenConcat(w, [r[|w|]]);
    OneCharBytes(r[|w|]);
  }

  lemma OneCharBytes(c: char)
    ensures ByteLen([c]) == Utf8Len(c)
  {
    assert [c][1..] == [];
    assert ByteLen([]) == 0;
  }

  /** What one iteration takes off. */
  lemma HeadIsLongest(r: string, max: nat)
    requires ByteLen(r) > max && !Stuck(r, max)
    ensures var c := NextChunk(r, max);
            && Longest(r, max, c) && c != []
            && (!Balanced(c) ==> FenceInfo(FirstLine(c)).Some?)
            && NextRemaining(r, max) == AfterChunk(r, c)
  {
    hide ByteLen, FloorBoundary, WalkWindow, FenceInfo, FenceCount, LineLen, Candidate, LineEnd;
    var w := Window(r, max);
    WindowNotEmpty(r, max);
    LastCut(w);
    WalkMeaning(w);
    forall n: int
      ensures Candidate(r, max, n) <==> LineEnd(w, n)
      ensures LineEnd(w, n) ==> 0 < n <= |w| && w[..n] == r[..n]
    {
      CandidatesOfWindow(r, max, n);
      LineEndBounds(w, n);
    }
    WholeIsLineEnd(w);
    assert w[..|w|] == w;
  }

  lemma LineEndBounds(w: string, n: int)
    ensures LineEnd(w, n) ==> 0 < n <= |w|
  {
  }

  lemma WholeIsLineEnd(w: string)
    requires w != []
    ensures LineEnd(w, |w|)
  {
  }

  lemma WindowNotEmpty(r: string, max: nat)
    requires ByteLen(r) > max && !Stuck(r, max)
    ensures Window(r, max) != []
  {
    hide FloorBoundary;
    EmptyWalk();
    NoBytes();
  }

  /** The chunks of a text are the greedy ones. */
  lemma {:induction false} ChunksAreGreedy(r: string, max: nat)
    requires Chunk(r, max).Some?
    ensures Greedy(r, max, Chunk(r, max).value)
    decreases ByteLen(r)
  {
    hide *;
    ChunkCases(r, max);
    if ByteLen(r) > max {
      ByteLenPositive(r);
      ChunkStep(r, max);
      Shrinks(r, max);
      HeadIsLongest(r, max);
      ChunksAreGreedy(NextRemaining(r, max), max);
      GreedyStep(r, max, NextChunk(r, max), Chunk(NextRemaining(r, max), max).value);
    } else {
      GreedyEnd(r, max);
    }
  }

  lemma ByteLenPositive(r: string)
    requires ByteLen(r) > 0
    ensures r != []
  {
  }

  lemma GreedyEnd(r: string, max: nat)
    requires ByteLen(r) <= max
    ensures Greedy(r, max, if r == [] then [] else [r])
  {
  }

  lemma LongestIsPrefix(r: string, max: nat, c: string)
    requires Longest(r, max, c)
    ensures c <= r
  {
  }

  lemma GreedyStep(r: string, max: nat, c: string, rest: seq<string>)
    requires ByteLen(r) > max && Longest(r, max, c) && c != [] && (!Balanced(c) ==> FenceInfo(FirstLine(c)).Some?)
    requires Greedy(AfterChunk(r, c), max, rest)
    ensures Greedy(r, max, [c] + rest)
  {
    hide FenceInfo, FenceCount, ByteLen, Longest, Balanced, AfterChunk;
    assert c <= r by { LongestIsPrefix(r, max, c); }
    assert ([c] + rest)[1..] == rest;
  }

  /** Which lines are fences: spaces, three backticks, and an info string without the blanks around it. */
  lemma {:induction false} FenceLineIs(spaces: string, line: string)
    requires (forall c <- spaces :: c == ' ') && (line == "" || line[0] != ' ')
    ensures FenceInfo(spaces + line) == if "```" <= line then Some(Trim(line[3..])) else None
    decreases |spaces|
  {
    if spaces == [] {
      assert spaces + line == line;
    } else {
      assert spaces[0] in spaces && forall c <- spaces[1..] :: c in spaces;
      assert (spaces + line)[1..] == spaces[1..] + line;
      FenceLineIs(spaces[1..], line);
    }
  }
}
