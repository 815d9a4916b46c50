/** Bit-level view of the 1-Wire CRC: every error burst of at most 16 bits is caught. */
module Crc16Burst {
  import opened Crc16

  /** Bits in the order they travel, lowest bit of each byte first. */
  type Bits = seq<bool>

  function Bit(b: bool): bv16 { if b then 1 else 0 }

  function BitCrc(s: bv16, bits: Bits): bv16
    decreases |bits|
  {
    if bits == [] then s else BitCrc(Shift(Xor(s, Bit(bits[0]))), bits[1..])
  }

  function Join(b: bool, w: bv16): bv16 { Xor(Bit(b), w << 1) }

  /** At most 16 bits as a word, the first one lowest. */
  function WordOf(bits: Bits): bv16
    decreases |bits|
  {
    if bits == [] then 0 else Join(bits[0], WordOf(bits[1..]))
  }

  function ByteBits(b: bv8): (r: Bits)
    ensures |r| == 8
  {
    [b & 1 != 0, b & 2 != 0, b & 4 != 0, b & 8 != 0, b & 16 != 0, b & 32 != 0, b & 64 != 0, b & 128 != 0]
  }

  function FrameBits(data: seq<bv8>): (r: Bits)
    ensures |r| == 8 * |data|
  {
    if data == [] then [] else ByteBits(data[0]) + FrameBits(data[1..])
  }

  predicate Below(w: bv16, p: bv16) { w < p }

  function Power(n: nat): bv16 {
    if n == 0 then 1 else Power(n - 1) << 1
  }

  /** `w` fits `n` bits. */
  predicate FitsBits(w: bv16, n: nat)
    requires n <= 16
  {
    n == 16 || Below(w, Power(n))
  }

  lemma PowerValues()
    ensures Power(0) == 1 && Power(1) == 2 && Power(2) == 4 && Power(3) == 8 && Power(4) == 16 && Power(5) == 32
    ensures Power(6) == 64 && Power(7) == 128 && Power(8) == 256 && Power(9) == 512 && Power(10) == 1024
    ensures Power(11) == 2048 && Power(12) == 4096 && Power(13) == 8192 && Power(14) == 16384 && Power(15) == 32768
  {
    assert Power(1) == 2 && Power(3) == 8 && Power(5) == 32 && Power(7) == 128 && Power(9) == 512 &&
           Power(11) == 2048 && Power(13) == 8192;
  }

  lemma PowerStep(n: nat)
    ensures Power(n + 1) == Power(n) << 1
  {
  }

  lemma PowerSmall(n: nat)
    requires n < 15
    ensures Below(Power(n), 0x4001)
  {
    hide Power;
    PowerValues();
  }

  lemma JoinZeroBelow(w: bv16, p: bv16)
    requires Below(w, p) && Below(p, 0x4001)
    ensures Below(Join(false, w), p << 1)
  {
  }

  lemma JoinOneBelow(w: bv16, p: bv16)
    requires Below(w, p) && Below(p, 0x4001)
    ensures Below(Join(true, w), p << 1)
  {
  }

  lemma JoinBelow(b: bool, w: bv16, p: bv16)
    requires Below(w, p) && Below(p, 0x4001)
    ensures Below(Join(b, w), p << 1)
  {
    hide Join, Below;
    if b { JoinOneBelow(w, p); } else { JoinZeroBelow(w, p); }
  }

  lemma JoinFits(b: bool, w: bv16, n: nat)
    requires n < 16 && FitsBits(w, n)
    ensures FitsBits(Join(b, w), n + 1)
  {
    hide Join, Power, Below;
    if n < 15 {
      PowerSmall(n);
      PowerStep(n);
      JoinBelow(b, w, Power(n));
    }
  }

  lemma {:induction false} WordFits(bits: Bits)
    requires |bits| <= 16
    ensures FitsBits(WordOf(bits), |bits|)
    decreases |bits|
  {
    if bits == [] {
      PowerValues();
    } else {
      hide Join, FitsBits;
      WordFits(bits[1..]);
      JoinFits(bits[0], WordOf(bits[1..]), |bits| - 1);
    }
  }

  /** A word with a free top bit comes back from one place up after one shift. */
  lemma ShiftBack(w: bv16, n: nat)
    requires n < 16 && FitsBits(w, n)
    ensures Shift(w << 1) == w
  {
    PowerValues();
    assert w < 0x8000;
    assert (w << 1) & 1 == 0 && (w << 1) >> 1 == w;
  }

  lemma XorZero(s: bv16)
    ensures Xor(s, 0) == s
  {
  }

  /** Shifting bits in one at a time is the same as adding them as a word and shifting. */
  lemma {:induction false} BitCrcIsWord(s: bv16, bits: Bits)
    requires |bits| <= 16
    ensures BitCrc(s, bits) == ShiftBy(Xor(s, WordOf(bits)), |bits|)
    decreases |bits|
  {
    hide Xor, Shift, Bit, FitsBits;
    if bits == [] {
      XorZero(s);
    } else {
      var w := WordOf(bits[1..]);
      var t := Xor(s, Bit(bits[0]));
      BitCrcIsWord(Shift(t), bits[1..]);
      XorLaws(s, Bit(bits[0]), w << 1);
      ShiftLinear(t, w << 1);
      WordFits(bits[1..]);
      ShiftBack(w, |bits| - 1);
    }
  }

  lemma {:induction false} BitCrcAppend(s: bv16, a: Bits, b: Bits)
    ensures BitCrc(s, a + b) == BitCrc(BitCrc(s, a), b)
    decreases |a|
  {
    hide Xor, Shift;
    if a == [] {
      assert a + b == b;
    } else {
      assert (a + b)[1..] == a[1..] + b;
      BitCrcAppend(Shift(Xor(s, Bit(a[0]))), a[1..], b);
    }
  }

  lemma {:induction false} BitCrcInjective(s: bv16, t: bv16, bits: Bits)
    requires BitCrc(s, bits) == BitCrc(t, bits)
    ensures s == t
    decreases |bits|
  {
    hide Xor, Shift, Bit;
    if bits != [] {
      var x := Bit(bits[0]);
      BitCrcInjective(Shift(Xor(s, x)), Shift(Xor(t, x)), bits[1..]);
      ShiftInjective(Xor(s, x), Xor(t, x));
      XorCancel(s, t, x);
    }
  }

  lemma JoinParts(b: bool, w: bv16)
    requires w < 0x8000
    ensures Join(b, w) & 1 == Bit(b) && Join(b, w) >> 1 == w
  {
  }

  lemma JoinInjective(b: bool, w: bv16, b': bool, w': bv16)
    requires w < 0x8000 && w' < 0x8000 && Join(b, w) == Join(b', w')
    ensures b == b' && w == w'
  {
    hide Join;
    JoinParts(b, w);
    JoinParts(b', w');
  }

  lemma WordBelow(bits: Bits)
    requires |bits| <= 15
    ensures WordOf(bits) < 0x8000
  {
    hide WordOf;
    WordFits(bits);
    PowerValues();
    if |bits| < 15 {
      PowerSmall(|bits|);
    }
  }

  lemma {:induction false} WordOfInjective(a: Bits, b: Bits)
    requires |a| == |b| <= 16 && WordOf(a) == WordOf(b)
    ensures a == b
    decreases |a|
  {
    if a != [] {
      hide Join;
      WordBelow(a[1..]);
      WordBelow(b[1..]);
      JoinInjective(a[0], WordOf(a[1..]), b[0], WordOf(b[1..]));
      WordOfInjective(a[1..], b[1..]);
    }
  }

  lemma WordOfEight(r: Bits)
    requires |r| == 8
    ensures WordOf(r) ==
            Join(r[0], Join(r[1], Join(r[2], Join(r[3], Join(r[4], Join(r[5], Join(r[6], Join(r[7], 0))))))))
  {
    hide Join;
    assert WordOf(r) == Join(r[0], Join(r[1], WordOf(r[2..]))) by { assert r[1..][1..] == r[2..]; }
    assert WordOf(r[2..]) == Join(r[2], Join(r[3], WordOf(r[4..]))) by { assert r[2..][1..][1..] == r[4..]; }
    assert WordOf(r[4..]) == Join(r[4], Join(r[5], WordOf(r[6..]))) by { assert r[4..][1..][1..] == r[6..]; }
    assert WordOf(r[6..]) == Join(r[6], Join(r[7], WordOf(r[8..]))) by { assert r[6..][1..][1..] == r[8..]; }
  }

  lemma ByteJoins(b: bv8)
    ensures Join(b & 1 != 0, Join(b & 2 != 0, Join(b & 4 != 0, Join(b & 8 != 0,
            Join(b & 16 != 0, Join(b & 32 != 0, Join(b & 64 != 0, Join(b & 128 != 0, 0)))))))) == b as bv16
  {
  }

  lemma ByteWord(b: bv8)
    ensures WordOf(ByteBits(b)) == b as bv16
  {
    var r := ByteBits(b);
    WordOfEight(r);
    ByteJoins(b);
  }

  lemma {:induction false} CrcIsBitCrc(s: bv16, data: seq<bv8>)
    ensures Crc(s, data) == BitCrc(s, FrameBits(data))
    decreases |data|
  {
    hide Xor, Shift, WordOf, ByteBits;
    if data != [] {
      BitCrcAppend(s, ByteBits(data[0]), FrameBits(data[1..]));
      BitCrcIsWord(s, ByteBits(data[0]));
      ByteWord(data[0]);
      CrcIsBitCrc(Update(s, data[0]), data[1..]);
    }
  }

  /** Two frames of the same length that differ only inside a stretch of `n <= 16` consecutive bits. */
  ghost predicate BurstApart(a: seq<bv8>, b: seq<bv8>, at: nat, n: nat) {
    && |a| == |b| && a != b && n <= 16 && at + n <= 8 * |a|
    && FrameBits(a)[..at] == FrameBits(b)[..at] && FrameBits(a)[at + n..] == FrameBits(b)[at + n..]
  }

  lemma SplitBits(s: bv16, bits: Bits, at: nat, n: nat)
    requires at + n <= |bits|
    ensures BitCrc(s, bits) == BitCrc(BitCrc(BitCrc(s, bits[..at]), bits[at..at + n]), bits[at + n..])
  {
    hide Xor, Shift, BitCrc;
    assert bits == (bits[..at] + bits[at..at + n]) + bits[at + n..];
    BitCrcAppend(s, bits[..at] + bits[at..at + n], bits[at + n..]);
    BitCrcAppend(s, bits[..at], bits[at..at + n]);
  }

  lemma WindowDecides(c: bv16, a: Bits, b: Bits)
    requires |a| == |b| <= 16 && BitCrc(c, a) == BitCrc(c, b)
    ensures a == b
  {
    hide Xor, Shift, BitCrc, WordOf, ShiftBy;
    BitCrcIsWord(c, a);
    BitCrcIsWord(c, b);
    ShiftByInjective(Xor(c, WordOf(a)), Xor(c, WordOf(b)), |a|);
    XorLaws(c, WordOf(a), 0);
    XorLaws(c, WordOf(b), 0);
    XorCancel(WordOf(a), WordOf(b), c);
    WordOfInjective(a, b);
  }

  lemma ByteBitsInjective(a: bv8, b: bv8)
    requires ByteBits(a) == ByteBits(b)
    ensures a == b
  {
    ByteWord(a);
    ByteWord(b);
    assert (a as bv16) == (b as bv16);
  }

  lemma {:induction false} FrameBitsInjective(a: seq<bv8>, b: seq<bv8>)
    requires |a| == |b| && FrameBits(a) == FrameBits(b)
    ensures a == b
    decreases |a|
  {
    if a != [] {
      hide ByteBits;
      assert FrameBits(a)[..8] == ByteBits(a[0]) && FrameBits(a)[8..] == FrameBits(a[1..]);
      assert FrameBits(b)[..8] == ByteBits(b[0]) && FrameBits(b)[8..] == FrameBits(b[1..]);
      ByteBitsInjective(a[0], b[0]);
      FrameBitsInjective(a[1..], b[1..]);
      assert a == [a[0]] + a[1..] && b == [b[0]] + b[1..];
    }
  }

  /** No valid frame turns into another valid frame through a burst of at most 16 bits,
      wherever the burst starts and whatever the frame length. */
  lemma BurstRejected(s: bv16, good: seq<bv8>, bad: seq<bv8>, at: nat, n: nat)
    requires Good(Crc(s, good)) && BurstApart(good, bad, at, n)
    ensures !Good(Crc(s, bad))
  {
    hide BitCrc, FrameBits;
    var a, b := FrameBits(good), FrameBits(bad);
    CrcIsBitCrc(s, good);
    CrcIsBitCrc(s, bad);
    SplitBits(s, a, at, n);
    SplitBits(s, b, at, n);
    var c := BitCrc(s, a[..at]);
    if BitCrc(s, a) == BitCrc(s, b) {
      BitCrcInjective(BitCrc(c, a[at..at + n]), BitCrc(c, b[at..at + n]), a[at + n..]);
      WindowDecides(c, a[at..at + n], b[at..at + n]);
      assert a == a[..at] + a[at..at + n] + a[at + n..];
      assert b == b[..at] + b[at..at + n] + b[at + n..];
      FrameBitsInjective(good, bad);
    }
  }
}
