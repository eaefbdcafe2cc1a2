/** Base64 as the browser client writes it (src/relay-client.js:63-92), against the groups of 24 bits
    of RFC 4648, section 4. */
module Base64 {
  import opened Text
  import opened Bytes

  // --- Reference ---------------------------------------------------------------

  /** The alphabet, by its four ranges. */
  function Digit(v: byte): (c: char)
    requires v < 64
    ensures IsDigit(c)
  {
    if v < 26 then 'A' + v as char
    else if v < 52 then 'a' + (v - 26) as char
    else if v < 62 then '0' + (v - 52) as char
    else if v == 62 then '+'
    else '/'
  }

  predicate IsDigit(c: char) {
    'A' <= c <= 'Z' || 'a' <= c <= 'z' || '0' <= c <= '9' || c == '+' || c == '/'
  }

  /** Position of a digit in the alphabet. */
  function Value(c: char): (v: byte)
    requires IsDigit(c)
    ensures v < 64
  {
    if 'A' <= c <= 'Z' then (c - 'A') as int
    else if 'a' <= c <= 'z' then (c - 'a') as int + 26
    else if '0' <= c <= '9' then (c - '0') as int + 52
    else if c == '+' then 62
    else 63
  }

  lemma DigitValue(v: byte)
    requires v < 64
    ensures Value(Digit(v)) == v
  {
  }

  /** Three bytes as one number. */
  function Group(a: byte, b: byte, c: byte): nat {
    Shl8(Shl8(a, b), c)
  }

  function GroupBytes(g: nat): (bytes: seq<byte>)
    ensures |bytes| == 3
  {
    [Low(Shr8(Shr8(g))), Low(Shr8(g)), Low(g)]
  }

  function Digits(g: nat): (s: string)
    ensures |s| == 4 && forall c <- s :: IsDigit(c)
  {
    [Digit(Sextet(g, 0)), Digit(Sextet(g, 1)), Digit(Sextet(g, 2)), Digit(Sextet(g, 3))]
  }

  function At(x: seq<byte>, i: nat): byte {
    if i < |x| then x[i] else 0
  }

  /** Whole groups of three, then the padded rest. */
  function Encoded(x: seq<byte>): string {
    if x == [] then ""
    else
      var digits := Digits(Group(At(x, 0), At(x, 1), At(x, 2)));
      if |x| == 1 then digits[..2] + "=="
      else if |x| == 2 then digits[..3] + "="
      else digits[..4] + Encoded(x[3..])
  }

  /** The group of up to four digits, the missing ones zero. */
  function GroupOf(s: string): nat
    requires forall c <- s :: IsDigit(c)
  {
    Join(ValueAt(s, 0), ValueAt(s, 1), ValueAt(s, 2), ValueAt(s, 3))
  }

  function Join(a: nat, b: nat, c: nat, d: nat): nat {
    ((a * 64 + b) * 64 + c) * 64 + d
  }

  function ValueAt(s: string, i: nat): nat
    requires forall c <- s :: IsDigit(c)
  {
    if i < |s| then Value(s[i]) else 0
  }

  /** Four digits give three bytes; a rest of two or three gives one or two; a single one gives none. */
  function Decoded(s: string): seq<byte>
    requires forall c <- s :: IsDigit(c)
  {
    if s == "" then []
    else
      var bytes := GroupBytes(GroupOf(s));
      if |s| < 4 then bytes[..|s| - 1] else bytes + Decoded(s[4..])
  }

  /** All that is no digit, padding among it, is left out before decoding. */
  function Clean(s: string): (r: string)
    ensures forall c <- r :: IsDigit(c)
  {
    if s == "" then "" else (if IsDigit(s[0]) then [s[0]] else "") + Clean(s[1..])
  }

  lemma {:induction false} CleanConcat(a: string, b: string)
    ensures Clean(a + b) == Clean(a) + Clean(b)
  {
    if a == "" {
      assert a + b == b;
    } else {
      assert (a + b)[1..] == a[1..] + b;
      CleanConcat(a[1..], b);
    }
  }

  lemma {:induction false} CleanDigits(s: string)
    requires forall c <- s :: IsDigit(c)
    ensures Clean(s) == s
  {
    if s != "" {
      CleanDigits(s[1..]);
    }
  }

  /** The sextets of a group. */
  function Sextet(g: nat, i: nat): (v: byte)
    ensures v < 64
  {
    if i == 0 then g / 64 / 64 / 64 % 64
    else if i == 1 then g / 64 / 64 % 64
    else if i == 2 then g / 64 % 64
    else g % 64
  }

  lemma GroupSplits(a: byte, b: byte, c: byte)
    ensures GroupBytes(Group(a, b, c)) == [a, b, c] && Group(a, b, c) < 0x100_0000
    ensures b == c == 0 ==> Group(a, b, c) % 0x1000 == 0
    ensures c == 0 ==> Group(a, b, c) % 0x40 == 0
  {
    ShiftBack(a, b);
    ShiftBack(Shl8(a, b), c);
    LowIsAll(a);
    Euclid(0x1000, a * 16, 0);
    Euclid(0x40, a * 0x400 + b * 4, 0);
  }

  /** The first `n` sextets, widened, and zero for the others. */
  function Wide(g: nat, n: nat, i: nat): nat {
    if i < n then Sextet(g, i) else 0
  }

  predicate Fits(g: nat, n: nat) {
    g < 0x100_0000 && (n == 4 || (n == 3 && g % 0x40 == 0) || (n == 2 && g % 0x1000 == 0))
  }

  lemma WideJoin(g: nat, n: nat)
    requires Fits(g, n)
    ensures Join(Wide(g, n, 0), Wide(g, n, 1), Wide(g, n, 2), Wide(g, n, 3)) == g
  {
    var g1, g2 := g / 64, g / 64 / 64;
    JoinDigits(g);
    if n == 2 {
      Euclid(64, g / 0x1000 * 64, 0);
      Euclid(64, g / 0x1000, 0);
      assert g1 % 64 == 0 && g % 64 == 0 by { assert g == g / 0x1000 * 64 * 64; }
    }
  }

  lemma JoinDigits(g: nat)
    requires g < 0x100_0000
    ensures Join(g / 64 / 64 / 64 % 64, g / 64 / 64 % 64, g / 64 % 64, g % 64) == g
  {
    var g1, g2 := g / 64, g / 64 / 64;
    assert g == g1 * 64 + g % 64 && g1 == g2 * 64 + g1 % 64 && g2 == g2 / 64 * 64 + g2 % 64;
  }

  lemma GroupOfDigits(g: nat, n: nat)
    requires n <= 4 && Fits(g, n)
    ensures GroupOf(Digits(g)[..n]) == g
  {
    hide Digits, ValueAt, Wide, Join, Fits;
    WideJoin(g, n);
    DigitAt(g, n, 0);
    DigitAt(g, n, 1);
    DigitAt(g, n, 2);
    DigitAt(g, n, 3);
  }

  lemma DigitAt(g: nat, n: nat, i: nat)
    requires n <= 4 && i < 4
    ensures ValueAt(Digits(g)[..n], i) == Wide(g, n, i)
  {
    hide Digit, Value, Sextet;
    DigitValue(Sextet(g, i));
    assert Digits(g)[i] == Digit(Sextet(g, i));
  }

  /** One group, whole or the last one, comes back. */
  lemma GroupComesBack(x: seq<byte>, rest: string)
    requires x != []
    requires |x| < 3 ==> Clean(rest) == ""
    ensures var n := if |x| < 3 then |x| + 1 else 4;
            Decoded(Clean(Digits(Group(At(x, 0), At(x, 1), At(x, 2)))[..n] + rest))
            == if |x| < 3 then x else x[..3] + Decoded(Clean(rest))
  {
    hide Group, Digits, GroupOf, Clean, GroupBytes;
    var n := if |x| < 3 then |x| + 1 else 4;
    var g := Group(At(x, 0), At(x, 1), At(x, 2));
    GroupSplits(At(x, 0), At(x, 1), At(x, 2));
    GroupOfDigits(g, n);
    var digits := Digits(g)[..n];
    CleanConcat(digits, rest);
    CleanDigits(digits);
    DecodedUnfolds(digits, Clean(rest));
    assert [At(x, 0), At(x, 1), At(x, 2)][..n - 1] == if |x| < 3 then x else x[..3];
    assert n < 4 ==> digits + Clean(rest) == digits;
    assert Clean(digits + rest) == digits + Clean(rest);
    assert GroupBytes(GroupOf(digits)) == [At(x, 0), At(x, 1), At(x, 2)];
    if n < 4 {
      assert Decoded(digits) == x;
    } else {
      assert Decoded(digits + Clean(rest)) == x[..3] + Decoded(Clean(rest));
    }
    assert digits == Digits(Group(At(x, 0), At(x, 1), At(x, 2)))[..n];
  }

  lemma DecodedUnfolds(a: string, b: string)
    requires 0 < |a| <= 4 && (forall c <- a :: IsDigit(c)) && forall c <- b :: IsDigit(c)
    ensures |a| < 4 ==> Decoded(a) == GroupBytes(GroupOf(a))[..|a| - 1]
    ensures |a| == 4 ==> Decoded(a + b) == GroupBytes(GroupOf(a))[..3] + Decoded(b)
  {
    hide GroupBytes, GroupOf;
    if |a| == 4 {
      GroupOfPrefix(a, b);
      assert (a + b)[4..] == b;
    }
  }

  lemma GroupOfPrefix(a: string, b: string)
    requires |a| == 4 && (forall c <- a :: IsDigit(c)) && forall c <- b :: IsDigit(c)
    ensures GroupOf(a + b) == GroupOf(a)
  {
    hide Value;
  }

  /** Decoding undoes encoding, for byte strings of every length. */
  lemma {:induction false} RoundTrip(x: seq<byte>)
    ensures Decoded(Clean(Encoded(x))) == x
  {
    hide Decoded, Digits, Group;
    if x == [] {
      assert Clean("") == "";
      assert Decoded("") == [] by { NothingDecoded(); }
    } else {
      var rest := if |x| == 1 then "==" else if |x| == 2 then "=" else Encoded(x[3..]);
      PaddingCleaned();
      GroupComesBack(x, rest);
      assert |Digits(Group(At(x, 0), At(x, 1), At(x, 2)))| == 4;
      if |x| >= 3 {
        RoundTrip(x[3..]);
      }
    }
  }

  lemma PaddingCleaned()
    ensures Clean("=") == Clean("==") == ""
  {
    assert "=="[1..] == "=" && "="[1..] == "";
  }

  lemma NothingDecoded()
    ensures Decoded("") == []
  {
  }

  /** Table 1 of the standard. */
  const ALPHABET: string := "ABCDEFGHIJKLMNOPQRSTUVWXYZ" + ("abcdefghijklmnopqrstuvwxyz" + "0123456789+/")

  lemma Alphabet(v: byte)
    requires v < 64
    ensures |ALPHABET| == 64 && Digit(v) == ALPHABET[v]
  {
    if v < 26 {
      Capital(v);
    } else if v < 52 {
      Small(v - 26);
    } else {
      Other(v - 52);
    }
  }

  lemma Capital(i: byte)
    requires i < 26
    ensures "ABCDEFGHIJKLMNOPQRSTUVWXYZ"[i] == 'A' + i as char
  {
  }

  lemma Small(i: byte)
    requires i < 26
    ensures "abcdefghijklmnopqrstuvwxyz"[i] == 'a' + i as char
  {
  }

  lemma Other(i: byte)
    requires i < 12
    ensures "0123456789+/"[i] == if i < 10 then '0' + i as char else if i == 10 then '+' else '/'
  {
  }

  /** The digits of the `i`th group of three bytes, whole or not. */
  lemma {:induction false} EncodedMeans(x: seq<byte>, i: nat)
    requires 3 * i < |x|
    ensures |ALPHABET| == 64 && |Encoded(x)| == (|x| + 2) / 3 * 4
    ensures var a, b, c := x[3 * i], At(x, 3 * i + 1), At(x, 3 * i + 2);
            Encoded(x)[4 * i..4 * i + 4] ==
            [ALPHABET[a / 4], ALPHABET[a % 4 * 16 + b / 16],
             if 3 * i + 1 < |x| then ALPHABET[b % 16 * 4 + c / 64] else '=',
             if 3 * i + 2 < |x| then ALPHABET[c % 64] else '=']
    decreases i
  {
    hide Digit, ALPHABET, Encoded, Group, Sextet;
    EncodedUnfolds(x);
    EncodedLength(x);
    if i == 0 {
      GroupMeans(x[0], At(x, 1), At(x, 2));
      assert Encoded(x)[4 * i..4 * i + 4] == Encoded(x)[..4];
    } else {
      var rest := x[3..];
      EncodedMeans(rest, i - 1);
      assert x[3 * i] == rest[3 * (i - 1)];
      assert At(x, 3 * i + 1) == At(rest, 3 * (i - 1) + 1) && At(x, 3 * i + 2) == At(rest, 3 * (i - 1) + 2);
      assert Encoded(x)[4 * i..4 * i + 4] == Encoded(rest)[4 * (i - 1)..4 * (i - 1) + 4];
    }
  }

  lemma GroupMeans(a: byte, b: byte, c: byte)
    ensures |ALPHABET| == 64
    ensures var g := Group(a, b, c);
            && Digit(Sextet(g, 0)) == ALPHABET[a / 4] && Digit(Sextet(g, 1)) == ALPHABET[a % 4 * 16 + b / 16]
            && Digit(Sextet(g, 2)) == ALPHABET[b % 16 * 4 + c / 64] && Digit(Sextet(g, 3)) == ALPHABET[c % 64]
  {
    hide Digit, ALPHABET, Group, Sextet;
    ShiftsAreSextets(a, b, c);
    Alphabet(a / 4);
    Alphabet(a % 4 * 16 + b / 16);
    Alphabet(b % 16 * 4 + c / 64);
    Alphabet(c % 64);
  }

  lemma {:induction false} EncodedLength(x: seq<byte>)
    ensures |Encoded(x)| == (|x| + 2) / 3 * 4
  {
    hide Digit, Encoded, Group, Sextet;
    EncodedOfNothing();
    if x != [] {
      EncodedUnfolds(x);
    }
    if |x| > 3 {
      EncodedLength(x[3..]);
      assert (|x| + 2) / 3 == (|x[3..]| + 2) / 3 + 1;
    }
  }

  // --- The client's loops ----------------------------------------------------------

  method Encode(bytes: seq<byte>) returns (out: string)
    ensures out == Encoded(bytes)
  {
    hide *;
    out := "";
    var i := 0;
    assert bytes[0..] == bytes;
    while i < |bytes|
      invariant 0 <= i
      invariant Encoded(bytes) == out + Encoded(if i < |bytes| then bytes[i..] else [])
    {
      ghost var before, x := out, bytes[i..];
      ghost var rest := Encoded(if |x| > 3 then x[3..] else []);
      assert |x| > 3 ==> x[3..] == bytes[i + 3..];
      var b0 := bytes[i];
      var b1 := if i + 1 < |bytes| then bytes[i + 1] else 0;
      var b2 := if i + 2 < |bytes| then bytes[i + 2] else 0;
      ShiftsAreSextets(b0, b1, b2);
      EncodedUnfolds(x);
      var c0, c1 := Digit(b0 / 4), Digit(b0 % 4 * 16 + b1 / 16);
      var c2 := if i + 1 < |bytes| then Digit(b1 % 16 * 4 + b2 / 64) else '=';
      var c3 := if i + 2 < |bytes| then Digit(b2 % 64) else '=';
      assert Encoded(x) == [c0, c1, c2, c3] + rest;
      out := out + [c0] + [c1] + [c2] + [c3];
      assert out == before + [c0, c1, c2, c3];
      Assoc(before, [c0, c1, c2, c3], rest);
      i := i + 3;
    }
    EncodedOfNothing();
    assert out + "" == out;
  }

  lemma Assoc(a: string, b: string, c: string)
    ensures (a + b) + c == a + (b + c)
  {
  }

  lemma ShiftsAreSextets(b0: byte, b1: byte, b2: byte)
    ensures var g := Group(b0, b1, b2);
            && Sextet(g, 0) == b0 / 4
            && Sextet(g, 1) == b0 % 4 * 16 + b1 / 16
            && Sextet(g, 2) == b1 % 16 * 4 + b2 / 64
            && Sextet(g, 3) == b2 % 64
  {
    hide Group, Join, Sextet;
    GroupIsJoin(b0, b1, b2);
    SextetsOfJoin(b0 / 4, b0 % 4 * 16 + b1 / 16, b1 % 16 * 4 + b2 / 64, b2 % 64);
  }

  lemma GroupIsJoin(b0: byte, b1: byte, b2: byte)
    ensures Group(b0, b1, b2) == Join(b0 / 4, b0 % 4 * 16 + b1 / 16, b1 % 16 * 4 + b2 / 64, b2 % 64)
  {
  }

  lemma SextetsOfJoin(a: nat, b: nat, c: nat, d: nat)
    requires a < 64 && b < 64 && c < 64 && d < 64
    ensures var g := Join(a, b, c, d); Sextet(g, 0) == a && Sextet(g, 1) == b && Sextet(g, 2) == c && Sextet(g, 3) == d
  {
    Euclid(64, (a * 64 + b) * 64 + c, d);
    Euclid(64, a * 64 + b, c);
    Euclid(64, a, b);
  }

  lemma EncodedUnfolds(x: seq<byte>)
    requires x != []
    ensures var g := Group(At(x, 0), At(x, 1), At(x, 2));
            && At(x, 0) == x[0]
            && At(x, 1) == (if 1 < |x| then x[1] else 0)
            && At(x, 2) == (if 2 < |x| then x[2] else 0)
            && Encoded(x) ==
            [Digit(Sextet(g, 0)), Digit(Sextet(g, 1)),
             if |x| > 1 then Digit(Sextet(g, 2)) else '=', if |x| > 2 then Digit(Sextet(g, 3)) else '=']
            + Encoded(if |x| > 3 then x[3..] else [])
  {
    hide Digit, Group, Sextet;
    EncodedOfNothing();
    assert |x| == 3 ==> x[3..] == [];
  }

  lemma EncodedOfNothing()
    ensures Encoded([]) == ""
  {
  }

  /** A byte is ready whenever eight bits have come in; the bits above them never come out. */
  method Decode(s: string) returns (out: seq<byte>)
    ensures out == Decoded(Clean(s))
  {
    hide Decoded, Value, Clean, Completed, Push, Top, Pending, Left, Ready;
    var clean := Clean(s);
    var bytes := new byte[|clean| * 3 / 4];
    ReadyAtEnd(|clean|);
    var o, buf, bits := 0, 0, 0;
    var i := 0;
    assert clean[..0] == "";
    NothingDecoded();
    while i < |clean|
      invariant 0 <= i <= |clean|
      invariant bits == Left(i) && o == Ready(i) <= Ready(|clean|) == bytes.Length
      invariant bytes[..o] == Decoded(clean[..i])
      invariant i > 0 ==> Pending(buf, bits) == Pending(Value(clean[i - 1]), bits)
    {
      ghost var before := buf;
      buf := Push(buf, Value(clean[i]));
      bits := bits + 6;
      Counting(i, |clean|);
      DecodedNext(clean, i);
      if bits >= 8 {
        bits := bits - 8;
        NextByte(before, Value(clean[i - 1]), Value(clean[i]), bits);
        bytes[o] := Top(buf, bits);
        o := o + 1;
      } else {
        NextBits(before, Value(clean[i]));
      }
      i := i + 1;
    }
    assert clean[..i] == clean;
    out := bytes[..o];
  }

  /** The six bits at the top of the 32 fall off. */
  function Push(buf: word, v: byte): word
    requires v < 64
  {
    buf % 0x400_0000 * 64 + v
  }

  /** The byte above the `bits` lowest bits. */
  function Top(buf: word, bits: nat): byte {
    if bits == 0 then buf % 256
    else if bits == 2 then buf / 4 % 256
    else buf / 16 % 256
  }

  /** The lowest bits of `buf`, those that have not come out yet. */
  function Pending(buf: word, bits: nat): word {
    if bits == 0 then 0 else if bits == 2 then buf % 4 else if bits == 4 then buf % 16 else buf % 64
  }

  /** Bits pending, and bytes ready, after `i` digits. */
  function Left(i: nat): nat {
    if i % 4 == 0 then 0 else 8 - 2 * (i % 4)
  }

  function Ready(i: nat): nat {
    i / 4 * 3 + if i % 4 == 0 then 0 else i % 4 - 1
  }

  lemma ReadyAtEnd(n: nat)
    ensures Ready(n) == n * 3 / 4 && Left(0) == 0 && Ready(0) == 0
  {
  }

  lemma Counting(i: nat, n: nat)
    requires i < n
    ensures Left(i) == 0 <==> i % 4 == 0
    ensures Left(i) in {0, 2, 4, 6}
    ensures Left(i) == 0 ==> Left(i + 1) == 6 && Ready(i + 1) == Ready(i)
    ensures Left(i) != 0 ==> Left(i + 1) == Left(i) - 2 && Ready(i + 1) == Ready(i) + 1
    ensures Ready(i + 1) <= Ready(n)
  {
    assert (i + 1) / 4 == if i % 4 == 3 then i / 4 + 1 else i / 4;
  }

  lemma DecodedNext(s: string, i: nat)
    requires i < |s| && forall c <- s :: IsDigit(c)
    ensures Decoded(s[..i + 1]) == Decoded(s[..i]) +
            if i % 4 == 0 then [] else [Completed(Value(s[i - 1]), Value(s[i]), Left(i + 1))]
  {
    hide Decoded, Completed, Value;
    DecodedSnoc(s[..i], s[i]);
    assert s[..i + 1] == s[..i] + [s[i]];
  }

  /** The byte that two neighbouring digits complete, `bits` of the second left over. */
  function Completed(a: byte, b: byte, bits: nat): byte
    requires a < 64 && b < 64
  {
    if bits == 4 then a * 4 + b / 16 else if bits == 2 then a % 16 * 16 + b / 4 else a % 4 * 64 + b
  }

  lemma NextByte(buf: word, a: byte, b: byte, bits: nat)
    requires bits == 0 || bits == 2 || bits == 4
    requires a < 64 && b < 64
    requires Pending(buf, bits + 2) == Pending(a, bits + 2)
    ensures Top(Push(buf, b), bits) == Completed(a, b, bits)
    ensures Pending(Push(buf, b), bits) == Pending(b, bits)
  {
    hide Completed, Push, Top, Pending;
    if bits == 0 {
      NextByte0(buf, a, b);
    } else if bits == 2 {
      NextByte2(buf, a, b);
    } else {
      NextByte4(buf, a, b);
    }
  }

  /** What falls off is none of the bits that are still to be read. */
  lemma LowBits(buf: word)
    ensures var x := buf % 0x400_0000; x % 4 == buf % 4 && x % 16 == buf % 16 && x % 64 == buf % 64
  {
    var q, x := buf / 0x400_0000, buf % 0x400_0000;
    assert buf == q * 0x400_0000 + x;
    Euclid(64, q * 0x10_0000 + x / 64, x % 64);
    Euclid(16, q * 0x40_0000 + x / 16, x % 16);
    Euclid(4, q * 0x100_0000 + x / 4, x % 4);
  }

  lemma PushedBits(x: nat, b: nat)
    requires b < 64
    ensures (x * 64 + b) % 256 == x % 4 * 64 + b
    ensures (x * 64 + b) / 4 % 256 == x % 16 * 16 + b / 4 && (x * 64 + b) % 4 == b % 4
    ensures (x * 64 + b) / 16 % 256 == x % 64 * 4 + b / 16 && (x * 64 + b) % 16 == b % 16
    ensures (x * 64 + b) % 64 == b
  {
    var w := x * 64 + b;
    Euclid(256, x / 4, x % 4 * 64 + b);
    Euclid(4, x * 16 + b / 4, b % 4);
    Euclid(256, x / 16, x % 16 * 16 + b / 4);
    Euclid(16, x * 4 + b / 16, b % 16);
    Euclid(256, x / 64, x % 64 * 4 + b / 16);
    Euclid(64, x, b);
    assert w == x / 4 * 256 + (x % 4 * 64 + b);
    assert w == (x * 16 + b / 4) * 4 + b % 4;
    assert x * 16 + b / 4 == x / 16 * 256 + (x % 16 * 16 + b / 4);
    assert w == (x * 4 + b / 16) * 16 + b % 16;
    assert x * 4 + b / 16 == x / 64 * 256 + (x % 64 * 4 + b / 16);
  }

  lemma NextByte0(buf: word, a: byte, b: byte)
    requires a < 64 && b < 64 && Pending(buf, 2) == Pending(a, 2)
    ensures Top(Push(buf, b), 0) == Completed(a, b, 0) && Pending(Push(buf, b), 0) == Pending(b, 0)
  {
    LowBits(buf);
    PushedBits(buf % 0x400_0000, b);
  }

  lemma NextByte2(buf: word, a: byte, b: byte)
    requires a < 64 && b < 64 && Pending(buf, 4) == Pending(a, 4)
    ensures Top(Push(buf, b), 2) == Completed(a, b, 2) && Pending(Push(buf, b), 2) == Pending(b, 2)
  {
    LowBits(buf);
    PushedBits(buf % 0x400_0000, b);
  }

  lemma NextByte4(buf: word, a: byte, b: byte)
    requires a < 64 && b < 64 && Pending(buf, 6) == Pending(a, 6)
    ensures Top(Push(buf, b), 4) == Completed(a, b, 4) && Pending(Push(buf, b), 4) == Pending(b, 4)
  {
    LowBits(buf);
    PushedBits(buf % 0x400_0000, b);
  }

  lemma NextBits(buf: word, b: byte)
    requires b < 64
    ensures Pending(Push(buf, b), 6) == Pending(b, 6)
  {
    Euclid(64, buf % 0x400_0000, b);
    assert b % 64 == b;
  }

  lemma {:induction false} DecodedSnoc(s: string, c: char)
    requires IsDigit(c) && forall d <- s :: IsDigit(d)
    ensures Decoded(s + [c]) == Decoded(s) +
            if |s| % 4 == 0 then [] else [Completed(Value(s[|s| - 1]), Value(c), Left(|s| + 1))]
  {
    hide Value, GroupOf, GroupBytes, Decoded, Completed, Left;
    LeftPeriodic(|s|);
    NothingDecoded();
    if |s| >= 4 {
      var a, b := s[..4], s[4..];
      assert s + [c] == a + (b + [c]) && s == a + b;
      DecodedUnfolds(a, b);
      DecodedUnfolds(a, b + [c]);
      DecodedSnoc(b, c);
    } else if s == "" {
      DecodedUnfolds([c], "");
      assert s + [c] == [c];
    } else {
      DecodedUnfolds(s, "");
      DecodedUnfolds(s + [c], "");
      assert |s| == 3 ==> s + [c] + "" == s + [c];
      SmallGroup(s, c);
    }
  }

  lemma LeftPeriodic(n: nat)
    ensures n >= 4 ==> Left(n + 1) == Left(n - 4 + 1) && n % 4 == (n - 4) % 4
  {
  }

  lemma SmallGroup(s: string, c: char)
    requires 0 < |s| < 4 && IsDigit(c) && forall d <- s :: IsDigit(d)
    ensures var old_, new_ := GroupBytes(GroupOf(s)), GroupBytes(GroupOf(s + [c]));
            && old_[..|s| - 1] == new_[..|s| - 1]
            && new_[|s| - 1] == Completed(Value(s[|s| - 1]), Value(c), Left(|s| + 1))
  {
    hide Value;
    var a, b, d := ValueAt(s, 0), ValueAt(s, 1), ValueAt(s, 2);
    JoinedBytes(Value(s[0]), b, d, 0);
    if |s| == 1 {
      JoinedBytes(Value(s[0]), Value(c), 0, 0);
    } else if |s| == 2 {
      JoinedBytes(Value(s[0]), b, Value(c), 0);
    } else {
      JoinedBytes(Value(s[0]), b, d, Value(c));
    }
  }

  lemma JoinSplits(a: nat, b: nat, c: nat, d: nat)
    requires b < 64 && c < 64 && d < 64
    ensures var y1, y2 := a * 1024 + b * 16 + c / 4, a * 4 + b / 16;
            && Join(a, b, c, d) == Shl8(y1, c % 4 * 64 + d)
            && y1 == Shl8(y2, b % 16 * 16 + c / 4)
  {
    assert c == c / 4 * 4 + c % 4;
    assert b == b / 16 * 16 + b % 16;
  }

  /** Each byte of a group, from the digits it lies across. */
  lemma JoinedBytes(a: byte, b: byte, c: byte, d: byte)
    requires a < 64 && b < 64 && c < 64 && d < 64
    ensures GroupBytes(Join(a, b, c, d)) == [Completed(a, b, 4), Completed(b, c, 2), Completed(c, d, 0)]
  {
    hide Low, Shr8, Shl8;
    var y1, y2 := a * 1024 + b * 16 + c / 4, a * 4 + b / 16;
    JoinSplits(a, b, c, d);
    ShiftBack(y1, c % 4 * 64 + d);
    ShiftBack(y2, b % 16 * 16 + c / 4);
    LowIsAll(y2);
  }
}
