/** AES-256-GCM as the browser client computes it (src/relay-client.js:377-468), against NIST
    SP 800-38D, with no additional data. The block cipher is a parameter. */
module Gcm {
  import opened Text
  import opened Bytes

  // --- Multiplication of blocks (section 6.3, Algorithm 1) ------------------------------

  const R: nat := 0xe1000000000000000000000000000000

  /** Bit `i`, counted from the lowest. */
  predicate Bit(x: nat, i: nat)
    decreases i
  {
    if i == 0 then x % 2 == 1 else Bit(x / 2, i - 1)
  }

  function Shifted(v: nat): nat {
    if v % 2 == 1 then Xor(v / 2, R) else v / 2
  }

  /** The factor `y` after `k` steps of the algorithm. */
  function Factor(y: nat, k: nat): nat {
    if k == 0 then y else Shifted(Factor(y, k - 1))
  }

  /** The product as far as the highest `k` of the 128 bits of `x` determine it. */
  function Product(x: nat, y: nat, k: nat): nat
    requires k <= 128
    decreases k
  {
    if k == 0 then 0
    else Xor(Product(x, y, k - 1), if Bit(x, 128 - k) then Factor(y, k - 1) else 0)
  }

  function Mul(x: nat, y: nat): nat {
    Product(x, y, 128)
  }

  method GfMul(x: nat, y: nat) returns (z: nat)
    ensures z == Mul(x, y)
  {
    hide Bit, Xor, Shifted, Product, Factor;
    z := 0;
    var v, i := y, 127;
    ProductStarts(x, y);
    while i >= 0
      invariant -1 <= i <= 127
      invariant z == Product(x, y, 127 - i) && v == Factor(y, 127 - i)
    {
      ProductStep(x, y, 128 - i);
      if Bit(x, i) {
        z := Xor(z, v);
      }
      v := if v % 2 == 1 then Xor(v / 2, R) else v / 2;
      i := i - 1;
    }
  }

  lemma ProductStarts(x: nat, y: nat)
    ensures Product(x, y, 0) == 0 && Factor(y, 0) == y
  {
  }

  lemma ProductStep(x: nat, y: nat, k: nat)
    requires 0 < k <= 128
    ensures Product(x, y, k) ==
            if Bit(x, 128 - k) then Xor(Product(x, y, k - 1), Factor(y, k - 1)) else Product(x, y, k - 1)
    ensures var v := Factor(y, k - 1); Factor(y, k) == if v % 2 == 1 then Xor(v / 2, R) else v / 2
  {
    hide Bit;
    assert Xor(Product(x, y, k - 1), 0) == Product(x, y, k - 1);
  }

  lemma {:induction false} BitOfXor(x: nat, y: nat, i: nat)
    ensures Bit(Xor(x, y), i) <==> Bit(x, i) != Bit(y, i)
    decreases i
  {
    XorDigits(x, y);
    if i > 0 {
      BitOfXor(x / 2, y / 2, i - 1);
    }
  }

  lemma Interchange(a: nat, b: nat, c: nat, d: nat)
    ensures Xor(Xor(a, b), Xor(c, d)) == Xor(Xor(a, c), Xor(b, d))
  {
    hide Xor;
    XorLaws(a, b, Xor(c, d));
    XorLaws(b, c, d);
    XorLaws(c, b, d);
    XorLaws(a, c, Xor(b, d));
  }

  lemma {:induction false} ProductDistributes(x: nat, y: nat, h: nat, k: nat)
    requires k <= 128
    ensures Product(Xor(x, y), h, k) == Xor(Product(x, h, k), Product(y, h, k))
    decreases k
  {
    hide Bit, Shifted, Factor;
    if k > 0 {
      ProductDistributes(x, y, h, k - 1);
      BitOfXor(x, y, 128 - k);
      var f := Factor(h, k - 1);
      var p, q := if Bit(x, 128 - k) then f else 0, if Bit(y, 128 - k) then f else 0;
      XorSelf(f);
      assert Xor(p, q) == if Bit(Xor(x, y), 128 - k) then f else 0;
      Interchange(Product(x, h, k - 1), Product(y, h, k - 1), p, q);
    }
  }

  /** Multiplication distributes over addition. */
  lemma MulDistributes(x: nat, y: nat, h: nat)
    ensures Mul(Xor(x, y), h) == Xor(Mul(x, h), Mul(y, h))
  {
    hide Xor, Product;
    ProductDistributes(x, y, h, 128);
  }

  lemma {:induction false} BitOfPower(i: nat, j: nat)
    ensures Bit(Power2(i), j) <==> i == j
    decreases j
  {
    if i > 0 && j > 0 {
      assert Power2(i) / 2 == Power2(i - 1);
      BitOfPower(i - 1, j - 1);
    } else if j > 0 {
      assert Power2(i) / 2 == 0;
      NoBits(j - 1);
    }
  }

  lemma {:induction false} NoBits(j: nat)
    ensures !Bit(0, j)
  {
    if j > 0 {
      NoBits(j - 1);
    }
  }

  lemma {:induction false} ProductOfPower(i: nat, y: nat, k: nat)
    requires i < 128 && k <= 128
    ensures Product(Power2(127 - i), y, k) == if k <= i then 0 else Factor(y, i)
    decreases k
  {
    hide Factor, Xor, Bit, Power2;
    if k > 0 {
      ProductOfPower(i, y, k - 1);
      BitOfPower(127 - i, 128 - k);
      XorZero(Factor(y, i));
    }
  }

  lemma XorZero(x: nat)
    ensures Xor(x, 0) == x == Xor(0, x)
    ensures Xor(0, 0) == 0
  {
  }

  /** The highest bit is the one of the field; the bit below it, the standard's `x`, moves the other factor down
      by one bit and folds the one that falls off back in; and each further bit does so once more. With
      distribution this fixes every product. */
  lemma PowersMultiply(i: nat, y: nat)
    requires i < 127
    ensures Mul(Power2(127), y) == y
    ensures var v := Mul(Power2(127 - i), y);
            Mul(Power2(126 - i), y) == if v % 2 == 1 then Xor(v / 2, 0xe1000000000000000000000000000000) else v / 2
  {
    hide Product, Xor, Power2;
    ProductOfPower(0, y, 128);
    ProductOfPower(i, y, 128);
    ProductOfPower(i + 1, y, 128);
  }

  // --- Blocks ------------------------------------------------------------------------

  type Block = b: seq<byte> | |b| == 16 witness [0, 0, 0, 0, 0, 0, 0, 0, 0, 0, 0, 0, 0, 0, 0, 0]

  /** The block cipher under one expanded key. */
  type Cipher = Block -> Block

  // --- Counter mode (sections 6.2 and 6.5) ----------------------------------------------

  /** The counter block that follows: the low 32 bits wrap. */
  function Inc32(c: Block): Block {
    c[..12] + WordBytes(WordOf(c[12..]) + 1)
  }

  /** Counting block by block is writing the count into the block. */
  lemma Inc32Counts(nonce: seq<byte>, v: nat)
    requires |nonce| == 12
    ensures Inc32(nonce + WordBytes(v)) == nonce + WordBytes(v + 1)
  {
    hide WordBytes, WordOf;
    var c: Block := nonce + WordBytes(v);
    assert c[..12] == nonce && c[12..] == WordBytes(v);
    WordOfBytes(v);
    WordBytesWrap(v % TWO32 + 1);
    WordBytesWrap(v + 1);
    assert (v % TWO32 + 1) % TWO32 == (v + 1) % TWO32;
  }

  /** `data` under the key stream that starts at counter block `c`; the last block may be partial. */
  function Gctr(cipher: Cipher, c: Block, data: seq<byte>): (out: seq<byte>)
    ensures |out| == |data|
    decreases |data|
  {
    if |data| <= 16 then seq(|data|, i requires 0 <= i < |data| => XorByte(data[i], cipher(c)[i]))
    else seq(16, i requires 0 <= i < 16 => XorByte(data[i], cipher(c)[i])) + Gctr(cipher, Inc32(c), data[16..])
  }

  lemma XorByteTwice(a: byte, b: byte)
    ensures XorByte(XorByte(a, b), b) == a
  {
    XorTwice(a, b);
  }

  /** Counter mode undoes itself. */
  lemma {:induction false} GctrTwice(cipher: Cipher, c: Block, data: seq<byte>)
    ensures Gctr(cipher, c, Gctr(cipher, c, data)) == data
    decreases |data|
  {
    hide XorByte, Inc32;
    var out := Gctr(cipher, c, data);
    forall i | 0 <= i < |data| && i < 16 ensures XorByte(out[i], cipher(c)[i]) == data[i] {
      XorByteTwice(data[i], cipher(c)[i]);
    }
    if |data| > 16 {
      GctrTwice(cipher, Inc32(c), data[16..]);
      assert out[16..] == Gctr(cipher, Inc32(c), data[16..]);
    }
  }

  // --- The tag (sections 6.4 and 7.1) -----------------------------------------------------

  /** GHASH over whole blocks, started from `y`. */
  function Ghash(h: nat, y: nat, x: seq<byte>): nat
    decreases |x|
  {
    if |x| < 16 then y else Ghash(h, Mul(Xor(y, ToNumber(x[..16])), h), x[16..])
  }

  /** How many zero bytes fill up the last block. */
  function Fill(n: nat): nat {
    (16 - n % 16) % 16
  }

  /** The ciphertext, filled up, and the block of the two bit lengths, that of the additional data being zero. */
  function Authenticated(ct: seq<byte>): seq<byte> {
    ct + Zeros(Fill(|ct|)) + ToBytes(8 * |ct|, 16)
  }

  /** The counter block before the first one of the data, for a 96-bit nonce. */
  function J0(nonce: seq<byte>): Block
    requires |nonce| == 12
  {
    nonce + WordBytes(1)
  }

  function Tag(cipher: Cipher, nonce: seq<byte>, ct: seq<byte>): (t: seq<byte>)
    requires |nonce| == 12
    ensures |t| == 16
  {
    var s := Ghash(ToNumber(cipher(Zeros(16))), 0, Authenticated(ct));
    Gctr(cipher, J0(nonce), ToBytes(s, 16))
  }

  /** `y` times the `n`th power of `h`. */
  function Times(y: nat, h: nat, n: nat): nat
    decreases n
  {
    if n == 0 then y else Times(Mul(y, h), h, n - 1)
  }

  /** The blocks of `x` as coefficients, the last one's power being the first. */
  function Polynomial(h: nat, x: seq<byte>): nat
    decreases |x|
  {
    if |x| < 16 then 0 else Xor(Times(ToNumber(x[..16]), h, |x| / 16), Polynomial(h, x[16..]))
  }

  lemma {:induction false} TimesDistributes(a: nat, b: nat, h: nat, n: nat)
    ensures Times(Xor(a, b), h, n) == Xor(Times(a, h, n), Times(b, h, n))
    decreases n
  {
    hide Mul, Xor;
    if n > 0 {
      MulDistributes(a, b, h);
      TimesDistributes(Mul(a, h), Mul(b, h), h, n - 1);
    }
  }

  /** The hash is the value of the polynomial at `h`. */
  lemma {:induction false} GhashIsPolynomial(h: nat, y: nat, x: seq<byte>)
    ensures Ghash(h, y, x) == Xor(Times(y, h, |x| / 16), Polynomial(h, x))
    ensures Ghash(h, 0, x) == Polynomial(h, x)
    decreases |x|
  {
    hide Mul, Xor, ToNumber;
    TimesOfZero(h, |x| / 16);
    XorZero(Polynomial(h, x));
    XorZero(Times(y, h, 0));
    if |x| >= 16 {
      var b := ToNumber(x[..16]);
      var n := |x| / 16;
      assert |x[16..]| / 16 == n - 1;
      GhashIsPolynomial(h, Mul(Xor(y, b), h), x[16..]);
      GhashIsPolynomial(h, Mul(Xor(0, b), h), x[16..]);
      TimesDistributes(y, b, h, n);
      TimesDistributes(0, b, h, n);
      XorLaws(Times(y, h, n), Times(b, h, n), Polynomial(h, x[16..]));
      XorLaws(0, Times(b, h, n), Polynomial(h, x[16..]));
    }
  }

  lemma {:induction false} TimesOfZero(h: nat, n: nat)
    ensures Times(0, h, n) == 0
  {
    hide Mul;
    if n > 0 {
      MulOfZero(h);
      TimesOfZero(h, n - 1);
    }
  }

  lemma MulOfZero(h: nat)
    ensures Mul(0, h) == 0
  {
    hide Product;
    ZeroTimes(h, 128);
  }

  lemma {:induction false} ZeroTimes(h: nat, k: nat)
    requires k <= 128
    ensures Product(0, h, k) == 0
    decreases k
  {
    hide Bit, Factor;
    if k > 0 {
      NoBits(128 - k);
      ZeroTimes(h, k - 1);
    }
  }

  // --- Sealing and opening (sections 7.1 and 7.2) -------------------------------------------

  /** A longer text does not fit the 32-bit arithmetic of the padding. */
  const LIMIT: nat := 0x7FFF_FFF0

  function Seal(cipher: Cipher, nonce: seq<byte>, text: seq<byte>): Option<seq<byte>> {
    if |nonce| != 12 || |text| > LIMIT then None
    else
      var ct := Gctr(cipher, Inc32(J0(nonce)), text);
      Some(ct + Tag(cipher, nonce, ct))
  }

  function Open(cipher: Cipher, nonce: seq<byte>, sealed: seq<byte>): Option<seq<byte>> {
    if |sealed| < 16 || |nonce| != 12 || |sealed| - 16 > LIMIT then None
    else
      var ct, tag := sealed[..|sealed| - 16], sealed[|sealed| - 16..];
      if tag == Tag(cipher, nonce, ct) then Some(Gctr(cipher, Inc32(J0(nonce)), ct)) else None
  }

  /** Opening gives a text exactly when what is opened is that text sealed: every text comes back,
      and nothing else opens. */
  lemma OpensIffSealed(cipher: Cipher, nonce: seq<byte>, text: seq<byte>, sealed: seq<byte>)
    ensures Open(cipher, nonce, sealed) == Some(text) <==> Seal(cipher, nonce, text) == Some(sealed)
  {
    hide Gctr, Tag, Inc32, J0;
    if |nonce| == 12 {
      var c := Inc32(J0(nonce));
      if |sealed| >= 16 {
        var ct := sealed[..|sealed| - 16];
        GctrTwice(cipher, c, ct);
        assert sealed == ct + sealed[|sealed| - 16..];
      }
      GctrTwice(cipher, c, text);
      var ct := Gctr(cipher, c, text);
      var whole := ct + Tag(cipher, nonce, ct);
      assert whole[..|whole| - 16] == ct && whole[|whole| - 16..] == Tag(cipher, nonce, ct);
    }
  }

  /** The sealed bytes: those of the text under the counter blocks from 2 on, then those of the hash under
      counter block 1. */
  lemma SealMeans(cipher: Cipher, nonce: seq<byte>, text: seq<byte>, k: nat)
    requires |nonce| == 12 && |text| <= LIMIT
    ensures var r := Seal(cipher, nonce, text);
            && r.Some? && |r.value| == |text| + 16
            && (k < |text| ==>
                  r.value[k] == XorByte(text[k], cipher(nonce + BigEndian(k / 16 + 2))[k % 16]))
            && (k < 16 ==>
                  var h := ToNumber(cipher(Zeros(16)));
                  var hash := ToBytes(Polynomial(h, Authenticated(r.value[..|text|])), 16);
                  r.value[|text| + k] == XorByte(hash[k], cipher(nonce + [0, 0, 0, 1])[k]))
    ensures |nonce + BigEndian(k / 16 + 2)| == 16
  {
    hide Gctr, Xor, XorByte, Ghash, Polynomial, Authenticated, ToNumber, ToBytes, Inc32, WordBytes;
    var ct := Gctr(cipher, Inc32(J0(nonce)), text);
    var r := Seal(cipher, nonce, text);
    assert r.value[..|text|] == ct;
    Inc32Counts(nonce, 1);
    FirstCounter();
    if k < |text| {
      GctrAt(cipher, nonce, 2, text, k);
      BigEndianIs(2 + k / 16);
    }
    if k < 16 {
      var h := ToNumber(cipher(Zeros(16)));
      GhashIsPolynomial(h, 0, Authenticated(ct));
      var hash := ToBytes(Ghash(h, 0, Authenticated(ct)), 16);
      GctrAt(cipher, nonce, 1, hash, k);
    }
  }

  /** The low 32 bits as four bytes. */
  function BigEndian(v: nat): (b: seq<byte>)
    ensures |b| == 4
  {
    [v / 0x100_0000 % 256, v / 0x1_0000 % 256, v / 0x100 % 256, v % 256]
  }

  lemma BigEndianIs(v: nat)
    ensures WordBytes(v) == BigEndian(v)
  {
    Quotients(v);
  }

  lemma Quotients(v: nat)
    ensures v / 256 / 256 == v / 0x1_0000 && v / 256 / 256 / 256 == v / 0x100_0000
  {
  }

  lemma FirstCounter()
    ensures WordBytes(1) == [0, 0, 0, 1]
  {
  }

  // --- The client's loops -----------------------------------------------------------------

  /** The block at `off`, as a number. */
  method BlockToBig(b: seq<byte>, off: nat) returns (x: nat)
    requires off + 16 <= |b|
    ensures x == ToNumber(b[off..off + 16])
  {
    hide ToNumber;
    x := 0;
    var i := 0;
    NumberStarts();
    assert b[off..off + 0] == [];
    while i < 16
      invariant 0 <= i <= 16
      invariant x == ToNumber(b[off..off + i])
    {
      NumberStep(b[off..off + i + 1]);
      assert b[off..off + i + 1][..i] == b[off..off + i];
      x := Shl8(x, b[off + i]);
      i := i + 1;
    }
  }

  method BigToBlock(x: nat, out: array<byte>, off: nat)
    requires off + 16 <= out.Length
    modifies out
    ensures out[..] == old(out[..off]) + ToBytes(x, 16) + old(out[off + 16..])
  {
    hide *;
    var x, i := x, 15;
    ghost var whole := ToBytes(x, 16);
    while i >= 0
      invariant -1 <= i <= 15
      invariant whole[..i + 1] == ToBytes(x, (i + 1) as nat)
      invariant forall k :: i < k < 16 ==> out[off + k] == whole[k]
      invariant forall k :: 0 <= k < out.Length && !(off <= k < off + 16) ==> out[k] == old(out[k])
    {
      BytesStep(x, i + 1);
      assert whole[..i] == whole[..i + 1][..i];
      out[off + i] := Low(x);
      x := Shr8(x);
      i := i - 1;
    }
  }

  /** Each byte of counter mode, by the number of its block. */
  lemma {:induction false} GctrAt(cipher: Cipher, nonce: seq<byte>, v: nat, data: seq<byte>, k: nat)
    requires |nonce| == 12 && k < |data|
    ensures Gctr(cipher, nonce + WordBytes(v), data)[k] ==
            XorByte(data[k], cipher(nonce + WordBytes(v + k / 16))[k % 16])
    decreases k
  {
    hide XorByte, WordBytes, Inc32;
    if k >= 16 {
      Inc32Counts(nonce, v);
      GctrAt(cipher, nonce, v + 1, data[16..], k - 16);
      assert (k - 16) / 16 + 1 == k / 16;
    }
  }

  function CtrBlock(nonce: seq<byte>, i: nat): Block
    requires |nonce| == 12
  {
    nonce + WordBytes(i)
  }

  /** Output and tag for `data`; GHASH runs over the ciphertext, which is the input when decrypting
      and the output when encrypting. */
  method Core(cipher: Cipher, nonce: seq<byte>, data: seq<byte>, decrypt: bool)
      returns (out: seq<byte>, tag: seq<byte>)
    requires |nonce| == 12 && |data| <= LIMIT
    ensures out == Gctr(cipher, Inc32(J0(nonce)), data)
    ensures tag == Tag(cipher, nonce, if decrypt then data else out)
  {
    hide *;
    out := Crypt(cipher, nonce, data);
    var ct := if decrypt then data else out;
    tag := ComputeTag(cipher, nonce, ct);
  }

  method Crypt(cipher: Cipher, nonce: seq<byte>, data: seq<byte>) returns (r: seq<byte>)
    requires |nonce| == 12
    ensures r == Gctr(cipher, Inc32(J0(nonce)), data)
  {
    hide *;
    var out := new byte[|data|];
    var whole := |data| / 16;
    var i := 0;
    while i < whole
      invariant 0 <= i <= whole
      invariant forall k :: 0 <= k < 16 * i ==> out[k] == Stream(cipher, nonce, data, k)
    {
      var ks := cipher(CtrBlock(nonce, i + 2));
      var j := 0;
      while j < 16
        invariant 0 <= j <= 16
        invariant forall k :: 0 <= k < 16 * i + j ==> out[k] == Stream(cipher, nonce, data, k)
      {
        StreamAt(cipher, nonce, data, i, j);
        out[i * 16 + j] := XorByte(data[i * 16 + j], ks[j]);
        j := j + 1;
      }
      i := i + 1;
    }
    if |data| % 16 != 0 {
      var ks := cipher(CtrBlock(nonce, whole + 2));
      var j := 0;
      while j < |data| - whole * 16
        invariant 0 <= j <= |data| - whole * 16
        invariant forall k :: 0 <= k < 16 * whole + j ==> out[k] == Stream(cipher, nonce, data, k)
      {
        StreamAt(cipher, nonce, data, whole, j);
        out[whole * 16 + j] := XorByte(data[whole * 16 + j], ks[j]);
        j := j + 1;
      }
    }
    r := out[..];
    StreamIsGctr(cipher, nonce, data);
  }

  function Stream(cipher: Cipher, nonce: seq<byte>, data: seq<byte>, k: nat): byte
    requires |nonce| == 12 && k < |data|
  {
    XorByte(data[k], cipher(CtrBlock(nonce, k / 16 + 2))[k % 16])
  }

  lemma StreamAt(cipher: Cipher, nonce: seq<byte>, data: seq<byte>, i: nat, j: nat)
    requires |nonce| == 12 && j < 16 && 16 * i + j < |data|
    ensures Stream(cipher, nonce, data, 16 * i + j) == XorByte(data[i * 16 + j], cipher(CtrBlock(nonce, i + 2))[j])
  {
    hide XorByte, WordBytes;
    assert (16 * i + j) / 16 == i && (16 * i + j) % 16 == j;
  }

  lemma StreamIsGctr(cipher: Cipher, nonce: seq<byte>, data: seq<byte>)
    requires |nonce| == 12
    ensures forall k :: 0 <= k < |data| ==> Gctr(cipher, Inc32(J0(nonce)), data)[k] == Stream(cipher, nonce, data, k)
  {
    hide XorByte, WordBytes, Inc32, Gctr;
    Inc32Counts(nonce, 1);
    forall k | 0 <= k < |data| ensures Gctr(cipher, Inc32(J0(nonce)), data)[k] == Stream(cipher, nonce, data, k) {
      GctrAt(cipher, nonce, 2, data, k);
      assert 2 + k / 16 == k / 16 + 2;
    }
  }

  method ComputeTag(cipher: Cipher, nonce: seq<byte>, ct: seq<byte>) returns (tag: seq<byte>)
    requires |nonce| == 12 && |ct| <= LIMIT
    ensures tag == Tag(cipher, nonce, ct)
  {
    hide *;
    var hash := cipher(Zeros(16));
    assert hash[0..16] == hash;
    var h := BlockToBig(hash, 0);
    ghost var x := Authenticated(ct);
    var padded := (|ct| + 15) / 16 * 16;
    Layout(ct, padded);
    var buf := new byte[padded + 16](i => 0);
    forall i | 0 <= i < |ct| {
      buf[i] := ct[i];
    }
    assert buf[..padded] == x[..padded];
    assert buf[..][..padded] == x[..padded];
    var y := HashBlocks(buf[..], padded, h, x);
    BigToBlock(8 * |ct|, buf, padded);
    assert buf[padded..padded + 16] == x[padded..];
    assert x[padded..][..16] == x[padded..] && x[padded..][16..] == [];
    GhashStep(h, y, x[padded..]);
    var block := BlockToBig(buf[..], padded);
    y := GfMul(Xor(y, block), h);
    GhashEnd(h, y);
    var lenBuf := new byte[16](i => 0);
    BigToBlock(y, lenBuf, 0);
    var tagMask := cipher(J0(nonce));
    TagIs(cipher, nonce, ct, y);
    tag := seq(16, i requires 0 <= i < 16 => XorByte(ToBytes(y, 16)[i], tagMask[i]));
  }

  /** Runs over the blocks before `padded`. */
  method HashBlocks(buf: seq<byte>, padded: nat, h: nat, ghost x: seq<byte>) returns (y: nat)
    requires padded <= |buf| && padded <= |x| && buf[..padded] == x[..padded] && padded % 16 == 0
    ensures Ghash(h, y, x[padded..]) == Ghash(h, 0, x)
  {
    hide *;
    y := 0;
    var i := 0;
    assert x[0..] == x;
    while i < padded
      invariant 0 <= i <= padded && i % 16 == 0
      invariant Ghash(h, 0, x) == Ghash(h, y, x[i..])
    {
      NextMultiple(i, padded);
      GhashStep(h, y, x[i..]);
      assert buf[i..i + 16] == buf[..padded][i..i + 16] == x[..padded][i..i + 16] == x[i..][..16];
      assert x[i..][16..] == x[i + 16..];
      var block := BlockToBig(buf, i);
      y := GfMul(Xor(y, block), h);
      i := i + 16;
    }
  }

  lemma NextMultiple(i: nat, n: nat)
    requires i < n && i % 16 == 0 && n % 16 == 0
    ensures i + 16 <= n && (i + 16) % 16 == 0
  {
  }

  /** The padded ciphertext and the length block, where the buffer has them. */
  lemma Layout(ct: seq<byte>, padded: nat)
    requires padded == (|ct| + 15) / 16 * 16
    ensures var x := Authenticated(ct);
            && |x| == padded + 16 && |ct| <= padded && padded % 16 == 0
            && x[..padded] == ct + Zeros(padded - |ct|)
            && x[padded..] == ToBytes(8 * |ct|, 16)
  {
    hide ToBytes;
    assert padded == |ct| + Fill(|ct|);
  }

  lemma GhashStep(h: nat, y: nat, x: seq<byte>)
    requires |x| >= 16
    ensures Ghash(h, y, x) == Ghash(h, Mul(Xor(y, ToNumber(x[..16])), h), x[16..])
  {
    hide Mul, Xor, ToNumber;
  }

  lemma GhashEnd(h: nat, y: nat)
    ensures Ghash(h, y, []) == y
  {
  }

  lemma TagIs(cipher: Cipher, nonce: seq<byte>, ct: seq<byte>, y: nat)
    requires |nonce| == 12 && y == Ghash(ToNumber(cipher(Zeros(16))), 0, Authenticated(ct))
    ensures Tag(cipher, nonce, ct) ==
            seq(16, i requires 0 <= i < 16 => XorByte(ToBytes(y, 16)[i], cipher(J0(nonce))[i]))
  {
    hide XorByte, ToBytes, Ghash, ToNumber, Authenticated;
  }

  method AesGcmSeal(cipher: Cipher, nonce: seq<byte>, text: seq<byte>) returns (r: Option<seq<byte>>)
    ensures r == Seal(cipher, nonce, text)
  {
    hide Gctr, Tag, Inc32, J0;
    if |nonce| != 12 || |text| > LIMIT {
      return None;
    }
    var out, tag := Core(cipher, nonce, text, false);
    r := Some(out + tag);
  }

  method AesGcmOpen(cipher: Cipher, nonce: seq<byte>, sealed: seq<byte>) returns (r: Option<seq<byte>>)
    ensures r == Open(cipher, nonce, sealed)
  {
    hide Gctr, Tag, Inc32, J0, Xor;
    if |sealed| < 16 || |nonce| != 12 || |sealed| - 16 > LIMIT {
      return None;
    }
    var ct, tag := sealed[..|sealed| - 16], sealed[|sealed| - 16..];
    var out, expected := Core(cipher, nonce, ct, true);
    var diff, i := false, 0;
    while i < 16
      invariant 0 <= i <= 16
      invariant diff <==> tag[..i] != expected[..i]
    {
      diff := diff || Xor(expected[i], tag[i]) != 0;
      XorZeroIff(expected[i], tag[i]);
      assert tag[..i + 1] == tag[..i] + [tag[i]] && expected[..i + 1] == expected[..i] + [expected[i]];
      i := i + 1;
    }
    assert tag[..16] == tag && expected[..16] == expected;
    r := if diff then None else Some(out);
  }

  lemma {:induction false} XorZeroIff(a: nat, b: nat)
    ensures Xor(a, b) == 0 <==> a == b
    decreases a
  {
    if a != 0 && b != 0 {
      XorDigits(a, b);
      XorZeroIff(a / 2, b / 2);
    }
  }
}
