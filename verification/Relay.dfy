/** The relay's end-to-end channel (src/relay.rs:51-54, 162-247, 292-309; src/relay-client.js:643-655,
    765-796): directional keys, sequence numbers that double as nonces, strict in-order receipt.
    Encryption is ideal: what opens is exactly what was sealed under that key and nonce. */
module Relay {
  import opened Text

  // --- Keys and frames ---------------------------------------------------------

  datatype Label = D2c | C2d

  /** A 32-byte key, as derived from a shared secret; the hash is injective. */
  datatype Key = Key(shared: Shared, direction: Label)

  /** The outcome of a key agreement between the holders of two secrets, or the all-zero share. */
  datatype Shared = Pair(low: nat, high: nat) | Zero

  /** Sealed bytes: those of a text, or bytes that are no UTF-8, with what a lenient decoder makes of them. */
  datatype Plain = Utf8(text: string) | NotUtf8(lenient: string)

  datatype Sealed = Sealed(key: Key, nonce: nat, plain: Plain)

  /** On the wire: sequence number, nonce, ciphertext; or bytes that are no frame at all. */
  datatype Frame = Frame(number: nat, nonce: nat, body: Sealed) | Malformed

  function Open(key: Key, nonce: nat, body: Sealed): Option<Plain> {
    if body.key == key && body.nonce == nonce then Some(body.plain) else None
  }

  // --- Counters ------------------------------------------------------------------

  /** Rust counts in 64 bits and wraps; JavaScript counts in doubles, where adding one to 2^53 does nothing. */
  datatype Runtime = Rust | JavaScript

  const TWO53: nat := 0x20_0000_0000_0000
  const TWO64: nat := 0x1_0000_0000_0000_0000

  function Next(runtime: Runtime, n: nat): nat {
    match runtime
    case Rust => (n + 1) % TWO64
    case JavaScript => if n < TWO53 then n + 1 else n
  }

  /** The counter after `k` increments. */
  function Count(runtime: Runtime, k: nat): nat {
    if k == 0 then 0 else Next(runtime, Count(runtime, k - 1))
  }

  /** How many frames one key may carry. */
  function Capacity(runtime: Runtime): nat {
    if runtime == Rust then TWO64 else TWO53 + 1
  }

  lemma {:induction false} CountIs(runtime: Runtime, k: nat)
    ensures Count(runtime, k) == if runtime == Rust then k % TWO64 else if k < TWO53 then k else TWO53
  {
    if k > 0 {
      CountIs(runtime, k - 1);
      WrapOnce(k - 1);
    }
  }

  lemma WrapOnce(k: nat)
    ensures (k % TWO64 + 1) % TWO64 == (k + 1) % TWO64
  {
  }

  lemma CountExact(runtime: Runtime, k: nat)
    requires k < Capacity(runtime)
    ensures Count(runtime, k) == k
  {
    hide Count;
    CountIs(runtime, k);
  }

  ghost predicate CountsDiffer(runtime: Runtime, frames: nat) {
    forall i: nat, j: nat :: i < j < frames ==> Count(runtime, i) != Count(runtime, j)
  }

  /** No nonce repeats under a key exactly as long as the key carries at most its capacity. */
  lemma NoncesDifferIff(runtime: Runtime, frames: nat)
    ensures CountsDiffer(runtime, frames) <==> frames <= Capacity(runtime)
  {
    hide Count;
    if frames <= Capacity(runtime) {
      forall i: nat, j: nat | i < j < frames ensures Count(runtime, i) != Count(runtime, j) {
        CountIs(runtime, i);
        CountIs(runtime, j);
      }
    } else {
      var i, j := if runtime == Rust then 0 else TWO53, Capacity(runtime);
      CountIs(runtime, i);
      CountIs(runtime, j);
      assert Count(runtime, i) == Count(runtime, j);
    }
  }

  // --- One end ---------------------------------------------------------------------

  datatype Keys = Keys(send: Key, recv: Key)

  /** Each side sends under the key that the other side receives under. */
  function FromShared(shared: Shared, daemonSide: bool): Keys {
    var d2c, c2d := Key(shared, D2c), Key(shared, C2d);
    if daemonSide then Keys(d2c, c2d) else Keys(c2d, d2c)
  }

  datatype Result<T> = Ok(value: T) | Err

  const MAX_RESPONSE_BYTES: nat := 0x10_0000

  function Encrypted(keys: Keys, sendSeq: nat, text: string): Frame {
    Frame(sendSeq, sendSeq, Sealed(keys.send, sendSeq, Utf8(text)))
  }

  /** The sequence number is compared with the counter; the nonce is the frame's own. */
  function Opened(keys: Keys, recvSeq: nat, frame: Frame): Option<Plain> {
    if frame.Malformed? || frame.number != recvSeq then None else Open(keys.recv, frame.nonce, frame.body)
  }

  /** Rust insists on UTF-8, JavaScript's decoder replaces what is not. */
  function Decoded(runtime: Runtime, plain: Plain): Result<string> {
    match plain
    case Utf8(text) => Ok(text)
    case NotUtf8(lenient) => if runtime == Rust then Err else Ok(lenient)
  }

  function Decrypted(runtime: Runtime, keys: Keys, recvSeq: nat, frame: Frame): Result<string> {
    match Opened(keys, recvSeq, frame)
    case None => Err
    case Some(plain) => Decoded(runtime, plain)
  }

  /** A frame is read exactly if it carries the number that is expected and was sealed, under the own nonce that
      it shows, with the key of the peer's direction; bytes that are no text are read by JavaScript alone. */
  lemma DecryptMeans(runtime: Runtime, shared: Shared, daemonSide: bool, n: nat, frame: Frame, text: string)
    ensures Decrypted(runtime, FromShared(shared, daemonSide), n, frame) == Ok(text) <==>
            && frame.Frame? && frame.number == n
            && frame.body.nonce == frame.nonce
            && frame.body.key == Key(shared, if daemonSide then C2d else D2c)
            && (frame.body.plain == Utf8(text) || (frame.body.plain == NotUtf8(text) && runtime == JavaScript))
  {
  }

  class E2e {
    const runtime: Runtime
    const keys: Keys
    var sendSeq: nat
    var recvSeq: nat

    constructor (runtime: Runtime, shared: Shared, daemonSide: bool)
      ensures this.runtime == runtime && keys == FromShared(shared, daemonSide) && sendSeq == recvSeq == 0
    {
      this.runtime := runtime;
      this.keys := FromShared(shared, daemonSide);
      sendSeq := 0;
      recvSeq := 0;
    }

    /** Uses up a number only when a frame is made. */
    method Encrypt(text: string, size: nat) returns (r: Result<Frame>)
      modifies this`sendSeq
      ensures runtime == Rust && size > MAX_RESPONSE_BYTES ==> r == Err && sendSeq == old(sendSeq)
      ensures (runtime == Rust && size > MAX_RESPONSE_BYTES) || r == Ok(Encrypted(keys, old(sendSeq), text))
      ensures r.Ok? ==> sendSeq == Next(runtime, old(sendSeq))
    {
      if runtime == Rust && size > MAX_RESPONSE_BYTES {
        return Err;
      }
      var n := sendSeq;
      sendSeq := Next(runtime, n);
      var body := Sealed(keys.send, n, Utf8(text));
      r := Ok(Frame(n, n, body));
    }

    /** Moves on when the frame opens, even if its bytes are then no text. */
    method Decrypt(frame: Frame) returns (r: Result<string>)
      modifies this`recvSeq
      ensures r == Decrypted(runtime, keys, old(recvSeq), frame)
      ensures recvSeq == if Opened(keys, old(recvSeq), frame).Some? then Next(runtime, old(recvSeq)) else old(recvSeq)
    {
      if frame.Malformed? {
        return Err;
      }
      var expected := recvSeq;
      if frame.number != expected {
        return Err;
      }
      var plain := Open(keys.recv, frame.nonce, frame.body);
      if plain.None? {
        return Err;
      }
      recvSeq := Next(runtime, expected);
      r := Decoded(runtime, plain.value);
    }
  }
}
