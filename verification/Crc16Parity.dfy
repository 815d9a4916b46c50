/** Every change of an odd number of bits is caught by the 1-Wire CRC, at any frame length. */
module Crc16Parity {
  import opened Crc16
  import opened Crc16Burst

  /** The register has an odd number of ones. */
  predicate Odd(w: bv16)
    decreases w
  {
    w != 0 && (w & 1 == 1) != Odd(Half(w))
  }

  lemma OddUnfolds(w: bv16)
    ensures Odd(w) <==> (w & 1 == 1) != Odd(Half(w))
  {
  }

  predicate OddOnes(bits: Bits) {
    bits != [] && bits[0] != OddOnes(bits[1..])
  }

  /** In how many places two bit strings of the same length differ. */
  function Changes(a: Bits, b: Bits): nat
    requires |a| == |b|
  {
    if a == [] then 0 else (if a[0] != b[0] then 1 else 0) + Changes(a[1..], b[1..])
  }

  lemma {:induction false} ChangesMoveParity(a: Bits, b: Bits)
    requires |a| == |b|
    ensures OddOnes(a) != OddOnes(b) <==> Changes(a, b) % 2 == 1
  {
    if a != [] { ChangesMoveParity(a[1..], b[1..]); }
  }

  lemma LowBitOfXor(a: bv16, b: bv16)
    ensures Xor(a, b) & 1 == 1 <==> (a & 1 == 1) != (b & 1 == 1)
  {
    assert (a ^ b) & 1 == (a & 1) ^ (b & 1);
  }

  lemma HalfSmaller(w: bv16)
    ensures if w == 0 then Half(w) == 0 else Half(w) < w
  {
  }

  lemma {:induction false} OddLinear(a: bv16, b: bv16)
    ensures Odd(Xor(a, b)) <==> Odd(a) != Odd(b)
    decreases a, b
  {
    if a == 0 && b == 0 {
      XorZero(a);
    } else {
      HalfSmaller(a);
      HalfSmaller(b);
      hide Xor, Half, Odd;
      OddUnfolds(a);
      OddUnfolds(b);
      OddUnfolds(Xor(a, b));
      LowBitOfXor(a, b);
      HalfLinear(a, b);
      OddLinear(Half(a), Half(b));
    }
  }

  lemma FeedbackIsOdd()
    ensures Odd(0xA001) && !Odd(0)
  {
    assert Odd(0x1) && !Odd(0x5) && !Odd(0x14) && !Odd(0x50) && !Odd(0x140);
    assert !Odd(0x500) && !Odd(0x1400) && !Odd(0x5000);
  }

  /** The feedback has an odd number of ones, so it makes up for the one that is shifted out. */
  lemma ShiftKeepsParity(s: bv16)
    ensures Odd(Shift(s)) <==> Odd(s)
  {
    hide Xor, Half, Odd, Shift;
    ShiftParts(s);
    OddLinear(Half(s), Feedback(s));
    OddUnfolds(s);
    FeedbackIsOdd();
  }

  lemma BitMovesParity(s: bv16, b: bool)
    ensures Odd(Xor(s, Bit(b))) <==> Odd(s) != b
  {
    assert Odd(1) && !Odd(0);
    hide Xor, Half, Odd;
    OddLinear(s, Bit(b));
  }

  lemma {:induction false} CrcCarriesParity(s: bv16, bits: Bits)
    ensures Odd(BitCrc(s, bits)) <==> Odd(s) != OddOnes(bits)
    decreases |bits|
  {
    hide Odd, Shift, Xor, Bit;
    if bits != [] {
      var t := Xor(s, Bit(bits[0]));
      BitMovesParity(s, bits[0]);
      ShiftKeepsParity(t);
      CrcCarriesParity(Shift(t), bits[1..]);
    }
  }

  /** No valid frame turns into another valid frame by a change of an odd number of bits. */
  lemma OddErrorRejected(s: bv16, good: seq<bv8>, bad: seq<bv8>)
    requires Good(Crc(s, good)) && |good| == |bad|
    requires Changes(FrameBits(good), FrameBits(bad)) % 2 == 1
    ensures !Good(Crc(s, bad))
  {
    hide Odd, Crc, BitCrc, FrameBits;
    var a, b := FrameBits(good), FrameBits(bad);
    CrcIsBitCrc(s, good);
    CrcIsBitCrc(s, bad);
    CrcCarriesParity(s, a);
    CrcCarriesParity(s, b);
    ChangesMoveParity(a, b);
  }
}
