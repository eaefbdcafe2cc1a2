/** String helpers shared by the condition grammar and the chat formatters:
    trimming, whitespace tokens and ASCII case folding, as Rust's `str` does them. */
module Text {

  datatype Option<+T> = None | Some(value: T)

  /** `f` applied to every element, or None as soon as one application fails. */
  function Traverse<A, B>(f: A -> Option<B>, xs: seq<A>): (r: Option<seq<B>>)
    ensures r.Some? ==> |r.value| == |xs| && forall i :: 0 <= i < |xs| ==> f(xs[i]) == Some(r.value[i])
    ensures r.None? ==> exists i :: 0 <= i < |xs| && f(xs[i]).None?
  {
    if xs == [] then Some([])
    else
      var last := |xs| - 1;
      assert xs == xs[..last] + [xs[last]];
      match Traverse(f, xs[..last])
      case None =>
        assert exists i :: 0 <= i < |xs| && f(xs[i]).None? by {
          var i :| 0 <= i < last && f(xs[..last][i]).None?;
          assert f(xs[i]).None?;
        }
        None
      case Some(ys) =>
        match f(xs[last])
        case None => None
        case Some(y) => Some(ys + [y])
  }

  lemma TraverseIs<A, B>(f: A -> Option<B>, xs: seq<A>, ys: seq<B>)
    requires |xs| == |ys| && forall i :: 0 <= i < |xs| ==> f(xs[i]) == Some(ys[i])
    ensures Traverse(f, xs) == Some(ys)
  {
    if xs != [] {
      var last := |xs| - 1;
      TraverseIs(f, xs[..last], ys[..last]);
      assert f(xs[last]) == Some(ys[last]);
      assert ys == ys[..last] + [ys[last]];
    }
  }

  /** The code points with Unicode's White_Space property. */
  predicate IsWhitespace(c: char) {
    var n := c as int;
    || 9 <= n <= 13 || n == 0x20 || n == 0x85 || n == 0xA0 || n == 0x1680
    || 0x2000 <= n <= 0x200A || n == 0x2028 || n == 0x2029 || n == 0x202F
    || n == 0x205F || n == 0x3000
  }

  predicate IsAsciiAlpha(c: char) {
    'a' <= c <= 'z' || 'A' <= c <= 'Z'
  }

  predicate IsAsciiAlnum(c: char) {
    IsAsciiAlpha(c) || '0' <= c <= '9'
  }

  function ToAsciiLower(s: string): (r: string)
    ensures |r| == |s|
    ensures forall i :: 0 <= i < |s| ==> r[i] == if 'A' <= s[i] <= 'Z' then s[i] - 'A' + 'a' else s[i]
  {
    seq(|s|, i requires 0 <= i < |s| => if 'A' <= s[i] <= 'Z' then s[i] - 'A' + 'a' else s[i])
  }

  function TrimStart(s: string): string {
    if s != [] && IsWhitespace(s[0]) then TrimStart(s[1..]) else s
  }

  function TrimEnd(s: string): string {
    if s != [] && IsWhitespace(s[|s| - 1]) then TrimEnd(s[..|s| - 1]) else s
  }

  function Trim(s: string): string {
    TrimEnd(TrimStart(s))
  }

  /** A word is what `split_whitespace` yields: non-empty, no whitespace inside. */
  predicate IsWord(s: string) {
    s != [] && forall i :: 0 <= i < |s| ==> !IsWhitespace(s[i])
  }

  lemma TrimWord(s: string)
    requires forall i :: 0 <= i < |s| ==> !IsWhitespace(s[i])
    ensures TrimStart(s) == s && TrimEnd(s) == s && Trim(s) == s
  {
  }

  /** Length of the leading run of non-whitespace characters. */
  function WordEnd(s: string): (n: nat)
    ensures n <= |s|
    ensures forall i :: 0 <= i < n ==> !IsWhitespace(s[i])
    ensures n < |s| ==> IsWhitespace(s[n])
  {
    if s == [] || IsWhitespace(s[0]) then 0 else 1 + WordEnd(s[1..])
  }

  function SplitWhitespace(s: string): (words: seq<string>)
    ensures forall w <- words :: IsWord(w)
    decreases |s|
  {
    if s == [] then []
    else if IsWhitespace(s[0]) then SplitWhitespace(s[1..])
    else [s[..WordEnd(s)]] + SplitWhitespace(s[WordEnd(s)..])
  }

  function JoinWithSpaces(words: seq<string>): string {
    if words == [] then ""
    else if |words| == 1 then words[0]
    else words[0] + " " + JoinWithSpaces(words[1..])
  }

  /** Splitting inverts joining, whatever the words are. */
  lemma {:induction false} SplitJoin(words: seq<string>)
    requires forall w <- words :: IsWord(w)
    ensures SplitWhitespace(JoinWithSpaces(words)) == words
  {
    if words == [] {
    } else if |words| == 1 {
      WordEndOf(words[0], "");
      assert words[0] + "" == words[0];
    } else {
      var rest := " " + JoinWithSpaces(words[1..]);
      assert JoinWithSpaces(words) == words[0] + rest;
      WordEndOf(words[0], rest);
      assert SplitWhitespace(rest) == SplitWhitespace(rest[1..]);
      assert rest[1..] == JoinWithSpaces(words[1..]);
      SplitJoin(words[1..]);
    }
  }

  lemma WordEndOf(w: string, rest: string)
    requires IsWord(w)
    requires rest == [] || IsWhitespace(rest[0])
    ensures WordEnd(w + rest) == |w|
    ensures SplitWhitespace(w + rest) == [w] + SplitWhitespace(rest)
  {
    var s := w + rest;
    assert forall i :: 0 <= i < |w| ==> s[i] == w[i];
    assert rest != [] ==> s[|w|] == rest[0];
    assert s[..|w|] == w && s[|w|..] == rest;
  }

  /** Position of the first `c` in `s`, or None. */
  function IndexOf(s: string, c: char): (r: Option<nat>)
    ensures r.None? ==> forall i :: 0 <= i < |s| ==> s[i] != c
    ensures r.Some? ==> r.value < |s| && s[r.value] == c && forall i :: 0 <= i < r.value ==> s[i] != c
  {
    IndexFrom(s, c, 0)
  }

  function IndexFrom(s: string, c: char, from: nat): (r: Option<nat>)
    requires from <= |s|
    ensures r.None? ==> forall i :: from <= i < |s| ==> s[i] != c
    ensures r.Some? ==> from <= r.value < |s| && s[r.value] == c
    ensures r.Some? ==> forall i :: from <= i < r.value ==> s[i] != c
    decreases |s| - from
  {
    if from == |s| then None
    else if s[from] == c then Some(from)
    else IndexFrom(s, c, from + 1)
  }

  /** The two-character pattern `ab` occurs in `s` at index `i`. */
  predicate PairAt(s: string, a: char, b: char, i: int) {
    0 <= i < |s| - 1 && s[i] == a && s[i + 1] == b
  }

  /** Position of the first `ab` in `s`, or None. */
  function FindPair(s: string, a: char, b: char): (r: Option<nat>)
    ensures r.None? ==> forall i :: !PairAt(s, a, b, i)
    ensures r.Some? ==> PairAt(s, a, b, r.value) && forall i :: i < r.value ==> !PairAt(s, a, b, i)
  {
    FindPairFrom(s, a, b, 0)
  }

  function FindPairFrom(s: string, a: char, b: char, from: nat): (r: Option<nat>)
    requires from <= |s|
    ensures r.None? ==> forall i :: from <= i ==> !PairAt(s, a, b, i)
    ensures r.Some? ==> from <= r.value && PairAt(s, a, b, r.value)
    ensures r.Some? ==> forall i :: from <= i < r.value ==> !PairAt(s, a, b, i)
    decreases |s| - from
  {
    if from == |s| then None
    else if PairAt(s, a, b, from) then Some(from)
    else FindPairFrom(s, a, b, from + 1)
  }
}
