/** Bytes, 32-bit words in big-endian order, and the exclusive or, as numbers. JavaScript's shifts and
    masks by constants are the divisions, products and remainders by powers of two. */
module Bytes {

  type byte = x: int | 0 <= x < 256

  const TWO32: nat := 0x1_0000_0000

  type word = x: int | 0 <= x < TWO32

  function Zeros(n: nat): (z: seq<byte>)
    ensures |z| == n && forall i :: 0 <= i < n ==> z[i] == 0
  {
    seq(n, i => 0)
  }

  /** Quotient and remainder are the only ones. */
  lemma Euclid(k: nat, q: nat, r: nat)
    requires r < k
    ensures (q * k + r) / k == q && (q * k + r) % k == r
  {
    var n := q * k + r;
    var d: int := n / k - q;
    assert d * k == r - n % k;
    assert d > 0 ==> d * k >= k;
    assert d < 0 ==> d * k <= 0 - k;
  }

  function Low(v: nat): byte {
    v % 256
  }

  function Shr8(v: nat): nat {
    v / 256
  }

  function Shl8(v: nat, b: byte): nat {
    v * 256 + b
  }

  /** The low 32 bits of `v`, big-endian. */
  function WordBytes(v: nat): (b: seq<byte>)
    ensures |b| == 4
  {
    [Low(Shr8(Shr8(Shr8(v)))), Low(Shr8(Shr8(v))), Low(Shr8(v)), Low(v)]
  }

  function WordOf(b: seq<byte>): word
    requires |b| == 4
  {
    Shl8(Shl8(Shl8(b[0], b[1]), b[2]), b[3])
  }

  lemma ShiftBack(v: nat, b: byte)
    ensures Shr8(Shl8(v, b)) == v && Low(Shl8(v, b)) == b && Shl8(Shr8(v), Low(v)) == v
  {
  }

  lemma BytesOfWord(b: seq<byte>)
    requires |b| == 4
    ensures WordBytes(WordOf(b)) == b
  {
    hide Low, Shr8, Shl8;
    ShiftBack(b[0], b[1]);
    ShiftBack(Shl8(b[0], b[1]), b[2]);
    ShiftBack(Shl8(Shl8(b[0], b[1]), b[2]), b[3]);
    LowIsAll(b[0]);
  }

  lemma LowIsAll(b: byte)
    ensures Low(b) == b
  {
  }

  lemma WordOfBytes(v: nat)
    ensures WordOf(WordBytes(v)) == v % TWO32
  {
    var a := Shr8(Shr8(Shr8(v)));
    assert v == 0x100_0000 * a + 0x1_0000 * Low(Shr8(Shr8(v))) + 0x100 * Low(Shr8(v)) + Low(v);
    assert v == TWO32 * Shr8(a) + WordOf(WordBytes(v));
  }

  lemma WordBytesWrap(v: nat)
    ensures WordBytes(v) == WordBytes(v % TWO32)
  {
    hide WordBytes, WordOf;
    WordOfBytes(v);
    BytesOfWord(WordBytes(v));
  }

  /** Big-endian. */
  function ToNumber(b: seq<byte>): nat {
    if b == [] then 0 else Shl8(ToNumber(b[..|b| - 1]), b[|b| - 1])
  }

  /** The lowest `n` bytes, the highest of them first. */
  function ToBytes(x: nat, n: nat): (b: seq<byte>)
    ensures |b| == n
  {
    if n == 0 then [] else ToBytes(Shr8(x), n - 1) + [Low(x)]
  }

  lemma NumberStarts()
    ensures ToNumber([]) == 0
  {
  }

  lemma NumberStep(b: seq<byte>)
    requires b != []
    ensures ToNumber(b) == Shl8(ToNumber(b[..|b| - 1]), b[|b| - 1])
  {
  }

  lemma BytesStep(x: nat, n: nat)
    requires n > 0
    ensures ToBytes(x, n) == ToBytes(Shr8(x), n - 1) + [Low(x)]
  {
  }

  /** The highest byte comes first. */
  lemma {:induction false} ByteAt(x: nat, n: nat, i: nat)
    requires i < n
    ensures ToBytes(x, n)[i] == x / Power256(n - 1 - i) % 256
  {
    if i < n - 1 {
      ByteAt(Shr8(x), n - 1, i);
      DivTwice(x, Power256(n - 2 - i));
    }
  }

  lemma DivTwice(x: nat, p: nat)
    requires p > 0
    ensures x / 256 / p == x / (256 * p)
  {
    var q, r := x / 256 / p, x / 256 % p;
    assert x / 256 == q * p + r;
    assert x == (q * p + r) * 256 + x % 256 == q * (256 * p) + (r * 256 + x % 256);
    assert r * 256 + x % 256 < 256 * p;
    Euclid(256 * p, q, r * 256 + x % 256);
  }

  function Power256(n: nat): (p: nat)
    ensures p > 0
  {
    if n == 0 then 1 else 256 * Power256(n - 1)
  }

  /** Big-endian numbers come back as long as they fit. */
  lemma {:induction false} NumberComesBack(x: nat, n: nat)
    requires x < Power256(n)
    ensures ToNumber(ToBytes(x, n)) == x
  {
    if n > 0 {
      NumberComesBack(Shr8(x), n - 1);
      var b := ToBytes(x, n);
      assert b[..n - 1] == ToBytes(Shr8(x), n - 1) && b[n - 1] == Low(x);
    }
  }

  /** Bit by bit. */
  function Xor(a: nat, b: nat): nat
    decreases a + b
  {
    if a == 0 then b else if b == 0 then a
    else (if a % 2 == b % 2 then 0 else 1) + 2 * Xor(a / 2, b / 2)
  }

  lemma {:induction false} XorTwice(a: nat, b: nat)
    ensures Xor(Xor(a, b), b) == a
    decreases a + b
  {
    if a == 0 {
      XorSelf(b);
    } else if b != 0 {
      XorTwice(a / 2, b / 2);
      var x := Xor(a, b);
      assert x / 2 == Xor(a / 2, b / 2) && x % 2 == if a % 2 == b % 2 then 0 else 1;
      assert x == 0 ==> Xor(0, b / 2) == b / 2 == a / 2;
    }
  }

  lemma {:induction false} XorSelf(b: nat)
    ensures Xor(b, b) == 0
  {
    if b > 0 {
      XorSelf(b / 2);
    }
  }

  lemma {:induction false} XorLaws(a: nat, b: nat, c: nat)
    ensures Xor(a, b) == Xor(b, a)
    ensures Xor(Xor(a, b), c) == Xor(a, Xor(b, c))
    decreases a + b + c
  {
    if a != 0 && b != 0 {
      XorLaws(a / 2, b / 2, c / 2);
      XorDigits(a, b);
      XorDigits(b, c);
      XorDigits(Xor(a, b), c);
      XorDigits(a, Xor(b, c));
    }
  }

  lemma XorDigits(a: nat, b: nat)
    ensures Xor(a, b) / 2 == Xor(a / 2, b / 2)
    ensures Xor(a, b) % 2 == if a % 2 == b % 2 then 0 else 1
    ensures a / 2 == b / 2 && a % 2 == b % 2 ==> a == b
    ensures Xor(a, b) == Xor(a, b) % 2 + 2 * Xor(a / 2, b / 2)
  {
  }

  /** Stays within the width of its arguments. */
  lemma {:induction false} XorFits(a: nat, b: nat, n: nat)
    requires a < Power2(n) && b < Power2(n)
    ensures Xor(a, b) < Power2(n)
    decreases n
  {
    if a != 0 && b != 0 {
      XorFits(a / 2, b / 2, n - 1);
    }
  }

  function Power2(n: nat): (p: nat)
    ensures p > 0
  {
    if n == 0 then 1 else 2 * Power2(n - 1)
  }

  function XorByte(a: byte, b: byte): byte {
    XorFits(a, b, 8);
    Xor(a, b)
  }
}
