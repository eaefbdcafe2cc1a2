/** SHA-256 and the stretched handshake proof as the browser client computes them
    (src/relay-client.js:154-190, 472-521), against section 5.1.1 of FIPS 180-4 and the daemon's proof
    (src/relay.rs:249-297). The compression function is a parameter. */
module Sha256 {
  import opened Bytes
  import Base64

  type Words = s: seq<word> | |s| == 8 witness [0, 0, 0, 0, 0, 0, 0, 0]

  type Block = b: seq<byte> | |b| == 64 witness Zeros(64)

  type Compression = (Words, Block) -> Words

  const IV: Words := [0x6a09e667, 0xbb67ae85, 0x3c6ef372, 0xa54ff53a, 0x510e527f, 0x9b05688c, 0x1f83d9ab, 0x5be0cd19]

  // --- Reference ---------------------------------------------------------------------

  /** The fewest zero bytes that leave the last block eight bytes short. */
  function ZeroBytes(n: nat): (k: nat)
    ensures k < 64 && (n + 1 + k) % 64 == 56
  {
    (55 - n) % 64
  }

  function LengthBytes(bits: nat): (b: seq<byte>)
    ensures |b| == 8
  {
    WordBytes(bits / TWO32) + WordBytes(bits)
  }

  /** A one bit, zeros, and the length in bits. */
  function Padded(data: seq<byte>): seq<byte> {
    data + [0x80] + Zeros(ZeroBytes(|data|)) + LengthBytes(8 * |data|)
  }

  function HashFrom(compress: Compression, state: Words, x: seq<byte>): Words
    decreases |x|
  {
    if |x| < 64 then state else HashFrom(compress, compress(state, x[..64]), x[64..])
  }

  function BytesOf(state: seq<word>): (b: seq<byte>)
    ensures |b| == 4 * |state|
  {
    if state == [] then [] else BytesOf(state[..|state| - 1]) + WordBytes(state[|state| - 1])
  }

  /** The words that some bytes hold. */
  function WordsOf(b: seq<byte>): (s: seq<word>)
    ensures |s| == |b| / 4
  {
    if |b| < 4 then [] else WordsOf(b[..|b| - 4]) + [WordOf(b[|b| - 4..])]
  }

  function Hash(compress: Compression, data: seq<byte>): (digest: seq<byte>)
    ensures |digest| == 32
  {
    BytesOf(HashFrom(compress, IV, Padded(data)))
  }

  lemma PaddedLength(data: seq<byte>)
    ensures |Padded(data)| == (|data| + 72) / 64 * 64
  {
    var n := |data| + 1 + ZeroBytes(|data|);
    assert n + 8 == (n / 64 + 1) * 64;
    assert |data| + 72 == (n / 64 + 1) * 64 + (63 - ZeroBytes(|data|));
    Euclid(64, n / 64 + 1, 63 - ZeroBytes(|data|));
  }

  /** No shorter run of zeros would do. */
  lemma FewestZeros(n: nat, k: nat)
    requires (n + 1 + k) % 64 == 56
    ensures k >= ZeroBytes(n)
  {
    var d: int := ZeroBytes(n) - k;
    var a, b := (n + 1 + k) / 64, (n + 1 + ZeroBytes(n)) / 64;
    assert d == (b - a) * 64;
  }

  /** Messages whose bit lengths fit the length field are padded to different blocks. */
  lemma PaddedInjective(a: seq<byte>, b: seq<byte>)
    requires Padded(a) == Padded(b) && 8 * |a| < TWO32 * TWO32 && 8 * |b| < TWO32 * TWO32
    ensures a == b
  {
    hide LengthBytes;
    var x := Padded(a);
    PaddedParts(a);
    PaddedParts(b);
    LengthComesBack(8 * |a|);
    LengthComesBack(8 * |b|);
    assert a == x[..|a|] && b == x[..|b|];
  }

  /** The padding, byte by byte: whole blocks, as few as there can be, that hold the message, a one bit, zeros,
      and the number of bits in the last eight bytes. */
  lemma PaddedMeans(data: seq<byte>)
    requires 8 * |data| < 0x1_0000_0000_0000_0000
    ensures var x, n := Padded(data), |data|;
            && |x| % 64 == 0 && n + 9 <= |x| < n + 9 + 64
            && x[..n] == data && x[n] == 128
            && (forall i :: n < i < |x| - 8 ==> x[i] == 0)
            && var b: seq<int> := x[|x| - 8..];
               ((((((b[0] * 256 + b[1]) * 256 + b[2]) * 256 + b[3]) * 256 + b[4]) * 256 + b[5]) * 256 + b[6]) * 256
               + b[7] == 8 * n
  {
    hide Padded, LengthBytes, WordOf, ZeroBytes;
    PaddedParts(data);
    PaddedLength(data);
    Blocks(|data| + 72);
    LengthComesBack(8 * |data|);
    EightBytes(Padded(data)[|Padded(data)| - 8..]);
  }

  lemma Blocks(n: nat)
    ensures n / 64 * 64 <= n < n / 64 * 64 + 64 && n / 64 * 64 % 64 == 0
  {
  }

  lemma EightBytes(b: seq<byte>)
    requires |b| == 8
    ensures ((((((b[0] as int * 256 + b[1]) * 256 + b[2]) * 256 + b[3]) * 256 + b[4]) * 256 + b[5]) * 256 + b[6]) * 256
            + b[7] == WordOf(b[..4]) * TWO32 + WordOf(b[4..])
  {
    assert b[..4] == [b[0], b[1], b[2], b[3]] && b[4..] == [b[4], b[5], b[6], b[7]];
  }

  /** A hash holds its words with the highest byte first. */
  lemma {:induction false} BytesOfMeans(state: seq<word>, i: nat)
    requires i < |state|
    ensures var b: seq<int> := BytesOf(state)[4 * i..4 * i + 4];
            ((b[0] * 256 + b[1]) * 256 + b[2]) * 256 + b[3] == state[i]
  {
    hide WordBytes, BytesOf;
    var last := |state| - 1;
    var init, word := BytesOf(state[..last]), WordBytes(state[last]);
    assert BytesOf(state) == init + word by { BytesUnfold(state); }
    if i == last {
      Slices(init, word, 4 * last);
      FourBytes(state[i]);
    } else {
      BytesOfMeans(state[..last], i);
      Slices(init, word, 4 * i);
    }
  }

  lemma BytesUnfold(state: seq<word>)
    requires state != []
    ensures BytesOf(state) == BytesOf(state[..|state| - 1]) + WordBytes(state[|state| - 1])
  {
    hide WordBytes;
  }

  lemma Slices(init: seq<byte>, word: seq<byte>, k: nat)
    requires |word| == 4
    ensures k + 4 <= |init| ==> (init + word)[k..k + 4] == init[k..k + 4]
    ensures k == |init| ==> (init + word)[k..k + 4] == word
  {
  }

  lemma FourBytes(v: word)
    ensures var b: seq<int> := WordBytes(v); ((b[0] * 256 + b[1]) * 256 + b[2]) * 256 + b[3] == v
  {
    hide WordBytes;
    WordOfBytes(v);
  }

  lemma LengthComesBack(bits: nat)
    requires bits < TWO32 * TWO32
    ensures var b := LengthBytes(bits); WordOf(b[..4]) * TWO32 + WordOf(b[4..]) == bits
  {
    hide WordBytes, WordOf;
    var b := LengthBytes(bits);
    assert b[..4] == WordBytes(bits / TWO32) && b[4..] == WordBytes(bits);
    WordOfBytes(bits / TWO32);
    WordOfBytes(bits);
  }

  lemma {:induction false} WordsOfBytes(state: seq<word>)
    ensures WordsOf(BytesOf(state)) == state
  {
    hide WordBytes, WordOf;
    if state != [] {
      var last := |state| - 1;
      var b := BytesOf(state);
      assert b[..|b| - 4] == BytesOf(state[..last]) && b[|b| - 4..] == WordBytes(state[last]);
      WordsOfBytes(state[..last]);
      WordOfBytes(state[last]);
    }
  }

  // --- The client's hash -------------------------------------------------------------------

  /** From this length on the number of blocks does not fit 32 bits, and no such array can be had. */
  const TOO_LONG: nat := 0x20_0000_0000 - 72

  method Compute(compress: Compression, data: seq<byte>) returns (out: seq<byte>)
    requires |data| < TOO_LONG
    ensures out == Hash(compress, data)
  {
    hide *;
    var len := |data|;
    var blocks := (len + 9 + 63) / 64;
    PaddedLength(data);
    var buf := new byte[blocks * 64](i => 0);
    Fill(buf, data);
    var state: Words := IV;
    var i := 0;
    ghost var x := Padded(data);
    assert x[64 * 0..] == x;
    while i < blocks
      invariant 0 <= i <= blocks
      invariant buf[..] == x
      invariant HashFrom(compress, IV, x) == HashFrom(compress, state, x[64 * i..])
    {
      HashStep(compress, state, x[64 * i..]);
      assert buf[i * 64..i * 64 + 64] == buf[..][64 * i..][..64] == x[64 * i..][..64];
      assert x[64 * i..][64..] == x[64 * (i + 1)..];
      state := compress(state, buf[i * 64..i * 64 + 64]);
      i := i + 1;
    }
    HashStep(compress, state, x[64 * i..]);
    out := StateBytes(state);
    HashIs(compress, data);
  }

  lemma HashIs(compress: Compression, data: seq<byte>)
    ensures Hash(compress, data) == BytesOf(HashFrom(compress, IV, Padded(data)))
  {
  }

  lemma HashStep(compress: Compression, state: Words, x: seq<byte>)
    ensures HashFrom(compress, state, x) ==
            if |x| < 64 then state else HashFrom(compress, compress(state, x[..64]), x[64..])
  {
  }

  /** Writes the padded message into a zeroed buffer of its length. */
  method Fill(buf: array<byte>, data: seq<byte>)
    requires buf.Length == |Padded(data)| && forall i :: 0 <= i < buf.Length ==> buf[i] == 0
    modifies buf
    ensures buf[..] == Padded(data)
  {
    hide *;
    var len := |data|;
    PaddedParts(data);
    forall i | 0 <= i < len {
      buf[i] := data[i];
    }
    buf[len] := 0x80;
    ghost var before := buf[..buf.Length - 8];
    FillLength(buf, len * 8);
    ghost var x := Padded(data);
    assert before == x[..buf.Length - 8];
    assert buf[..] == buf[..buf.Length - 8] + buf[buf.Length - 8..];
    assert x == x[..buf.Length - 8] + x[buf.Length - 8..];
  }

  lemma PaddedParts(data: seq<byte>)
    ensures var x, n := Padded(data), |data|;
            && |x| >= n + 9 && x[..n] == data && x[n] == 0x80
            && (forall i :: n < i < |x| - 8 ==> x[i] == 0)
            && x[|x| - 8..] == LengthBytes(8 * n)
  {
    hide LengthBytes;
  }

  method FillLength(buf: array<byte>, bits: nat)
    requires buf.Length >= 8
    modifies buf
    ensures buf[..buf.Length - 8] == old(buf[..buf.Length - 8]) && buf[buf.Length - 8..] == LengthBytes(bits)
  {
    hide Low, Shr8;
    var hi := bits / TWO32;
    var n := buf.Length;
    buf[n - 8] := Low(Shr8(Shr8(Shr8(hi))));
    buf[n - 7] := Low(Shr8(Shr8(hi)));
    buf[n - 6] := Low(Shr8(hi));
    buf[n - 5] := Low(hi);
    buf[n - 4] := Low(Shr8(Shr8(Shr8(bits))));
    buf[n - 3] := Low(Shr8(Shr8(bits)));
    buf[n - 2] := Low(Shr8(bits));
    buf[n - 1] := Low(bits);
  }

  method StateBytes(state: Words) returns (out: seq<byte>)
    ensures out == BytesOf(state)
  {
    hide WordBytes;
    out := [];
    var i := 0;
    while i < 8
      invariant 0 <= i <= 8 && out == BytesOf(state[..i])
    {
      assert state[..i + 1][..i] == state[..i];
      out := out + WordBytes(state[i]);
      i := i + 1;
    }
    assert state[..8] == state;
  }

  // --- The stretched proof -------------------------------------------------------------------

  const PROOF_ITERATIONS: nat := 0x1_0000

  function Rehashed(compress: Compression, digest: seq<byte>, rounds: nat): seq<byte> {
    if rounds == 0 then digest else Hash(compress, Rehashed(compress, digest, rounds - 1))
  }

  /** "damon-relay-proof-s256" */
  const LABEL: seq<byte> :=
    [100, 97, 109, 111, 110, 45, 114, 101, 108, 97, 121, 45, 112, 114, 111, 111, 102, 45, 115, 50, 53, 54]

  /** The proof as the daemon defines it: the labelled hash, hashed 2^16 times more. */
  function StretchedProof(compress: Compression, token: seq<byte>, mine: seq<byte>, theirs: seq<byte>): string {
    Base64.Encoded(Rehashed(compress, Hash(compress, LABEL + token + mine + theirs), PROOF_ITERATIONS))
  }

  const DIGEST_PADDING: seq<byte> := [0x80] + Zeros(29) + [1, 0]

  /** A 32-byte message fits one block, with a padding that does not depend on it. */
  lemma PaddedDigest(digest: seq<byte>)
    requires |digest| == 32
    ensures Padded(digest) == digest + DIGEST_PADDING
  {
    assert ZeroBytes(32) == 23;
    assert LengthBytes(256) == [0, 0, 0, 0, 0, 0, 1, 0];
    assert Zeros(23) + [0, 0, 0, 0, 0, 0, 1, 0] == Zeros(29) + [1, 0];
  }

  lemma DigestPaddingLength()
    ensures |DIGEST_PADDING| == 32
  {
  }

  lemma DigestPadding(b: seq<byte>)
    requires |b| == 32 && b[0] == 0x80 && b[30] == 1 && b[31] == 0 && forall i :: 1 <= i < 30 ==> b[i] == 0
    ensures b == DIGEST_PADDING
  {
  }

  lemma HashOfDigest(compress: Compression, state: Words)
    ensures |BytesOf(state)| == 32 == |DIGEST_PADDING|
    ensures Hash(compress, BytesOf(state)) == BytesOf(compress(IV, BytesOf(state) + DIGEST_PADDING))
  {
    hide Padded, BytesOf, DIGEST_PADDING;
    assert |DIGEST_PADDING| == 32 by { DigestPaddingLength(); }
    var block := BytesOf(state) + DIGEST_PADDING;
    PaddedDigest(BytesOf(state));
    HashStep(compress, IV, block);
    assert block[..64] == block && block[64..] == [];
    HashStep(compress, compress(IV, block), []);
  }

  /** One compression a round on a block that is padded once gives the daemon's proof. */
  method ProofStretched(compress: Compression, token: seq<byte>, mine: seq<byte>, theirs: seq<byte>)
    returns (proof: string)
    requires |LABEL + token + mine + theirs| < TOO_LONG
    ensures proof == StretchedProof(compress, token, mine, theirs)
  {
    hide *;
    ghost var seed := Hash(compress, LABEL + token + mine + theirs);
    var digest := Compute(compress, LABEL + token + mine + theirs);
    var state: Words := WordsOf(digest);
    WordsOfHash(compress, LABEL + token + mine + theirs);
    var block := new byte[64](i => 0);
    block[32] := 0x80;
    block[62] := 1;
    block[63] := 0;
    assert block[32..] == DIGEST_PADDING by { DigestPadding(block[32..]); }
    var i := 0;
    RehashedStep(compress, seed, 0);
    while i < PROOF_ITERATIONS
      invariant 0 <= i <= PROOF_ITERATIONS
      invariant BytesOf(state) == Rehashed(compress, seed, i)
      invariant block[32..] == DIGEST_PADDING
    {
      var bytes := StateBytes(state);
      ghost var tail := block[32..];
      forall j | 0 <= j < 32 {
        block[j] := bytes[j];
      }
      assert block[32..] == tail;
      assert block[..] == bytes + block[32..];
      HashOfDigest(compress, state);
      RehashedStep(compress, seed, i + 1);
      state := compress(IV, block[..]);
      i := i + 1;
    }
    var bytes := StateBytes(state);
    proof := Base64.Encode(bytes);
    StretchedProofIs(compress, token, mine, theirs);
  }

  lemma WordsOfHash(compress: Compression, data: seq<byte>)
    ensures |WordsOf(Hash(compress, data))| == 8 && BytesOf(WordsOf(Hash(compress, data))) == Hash(compress, data)
  {
    WordsOfBytes(HashFrom(compress, IV, Padded(data)));
  }

  lemma RehashedStep(compress: Compression, digest: seq<byte>, rounds: nat)
    ensures Rehashed(compress, digest, rounds) ==
            if rounds == 0 then digest else Hash(compress, Rehashed(compress, digest, rounds - 1))
  {
    hide Hash;
  }

  lemma StretchedProofIs(compress: Compression, token: seq<byte>, mine: seq<byte>, theirs: seq<byte>)
    ensures StretchedProof(compress, token, mine, theirs)
            == Base64.Encoded(Rehashed(compress, Hash(compress, LABEL + token + mine + theirs), PROOF_ITERATIONS))
  {
    hide Hash, Rehashed, Base64.Encoded;
  }
}
