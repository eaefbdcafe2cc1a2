/** The sequence number at the head of a relay frame (src/relay-client.js:598-611; src/relay.rs:216-234,
    305-309). */
module FrameHeader {
  import opened Bytes
  import Relay

  /** Eight bytes, big-endian. Masks and divisions are exact for the numbers that a double counts to. */
  method SeqBytes(number: nat) returns (b: seq<byte>)
    requires number <= Relay.TWO53
    ensures b == ToBytes(number, 8)
  {
    hide *;
    var bytes := new byte[8];
    var rest, i := number, 7;
    ghost var whole := ToBytes(number, 8);
    while i >= 0
      invariant -1 <= i <= 7
      invariant whole[..i + 1] == ToBytes(rest, (i + 1) as nat)
      invariant forall k :: i < k < 8 ==> bytes[k] == whole[k]
    {
      BytesStep(rest, i + 1);
      assert whole[..i] == whole[..i + 1][..i];
      bytes[i] := Low(rest);
      rest := Shr8(rest);
      i := i - 1;
    }
    b := bytes[..];
  }

  method ReadSeqBE(frame: seq<byte>) returns (number: nat)
    requires |frame| >= 8
    ensures number == ToNumber(frame[..8])
  {
    hide ToNumber;
    number := 0;
    var i := 0;
    NumberStarts();
    assert frame[..0] == [];
    while i < 8
      invariant 0 <= i <= 8 && number == ToNumber(frame[..i])
    {
      NumberStep(frame[..i + 1]);
      assert frame[..i + 1][..i] == frame[..i];
      number := Shl8(number, frame[i]);
      i := i + 1;
    }
  }

  /** What one side writes the other reads, for every number that a sender reaches. */
  lemma HeaderComesBack(number: nat, rest: seq<byte>)
    requires number < 0x1_0000_0000_0000_0000
    ensures ToNumber((ToBytes(number, 8) + rest)[..8]) == number
  {
    assert (ToBytes(number, 8) + rest)[..8] == ToBytes(number, 8);
    NumberComesBack(number, 8);
  }
}
