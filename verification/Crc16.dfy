/** The 16-bit CRC of 1-Wire frames (polynomial 0xA001, bits taken low first). */
module Crc16 {
  const RESIDUE: bv16 := 0xB001

  /** One turn of the inner loop of `ow_crc16_seed`. */
  function Shift(s: bv16): bv16 {
    if s & 1 == 1 then (s >> 1) ^ 0xA001 else s >> 1
  }

  function ShiftBy(s: bv16, n: nat): bv16
    decreases n
  {
    if n == 0 then s else ShiftBy(Shift(s), n - 1)
  }

  function Xor(a: bv16, b: bv16): bv16 {
    a ^ b
  }

  /** One data byte. */
  function Update(s: bv16, b: bv8): bv16 {
    ShiftBy(Xor(s, b as bv16), 8)
  }

  /** `ow_crc16_seed` over a byte string. */
  function Crc(s: bv16, data: seq<bv8>): bv16
    decreases |data|
  {
    if data == [] then s else Crc(Update(s, data[0]), data[1..])
  }

  /** `ow_crc16_calc`: the complement of the seed. */
  function Calc(s: bv16): bv16 {
    !s
  }

  predicate Good(s: bv16) {
    s == RESIDUE
  }

  function Low(w: bv16): bv8 { (w & 0xFF) as bv8 }

  function High(w: bv16): bv8 { (w >> 8) as bv8 }

  // ----- linearity and injectivity

  function Half(a: bv16): bv16 { a >> 1 }

  function Feedback(a: bv16): bv16 { if a & 1 == 1 then 0xA001 else 0 }

  lemma ShiftParts(a: bv16)
    ensures Shift(a) == Xor(Half(a), Feedback(a))
  {
    if a & 1 != 1 { assert (a >> 1) ^ 0 == a >> 1; }
  }

  lemma HalfLinear(a: bv16, b: bv16)
    ensures Half(Xor(a, b)) == Xor(Half(a), Half(b))
  {
  }

  lemma FeedbackLinear(a: bv16, b: bv16)
    ensures Feedback(Xor(a, b)) == Xor(Feedback(a), Feedback(b))
  {
    assert (a ^ b) & 1 == (a & 1) ^ (b & 1);
  }

  lemma XorLaws(a: bv16, b: bv16, c: bv16)
    ensures Xor(a, b) == Xor(b, a)
    ensures Xor(Xor(a, b), c) == Xor(a, Xor(b, c))
  {
  }

  lemma XorSwap(p: bv16, q: bv16, x: bv16, y: bv16)
    ensures Xor(Xor(p, q), Xor(x, y)) == Xor(Xor(p, x), Xor(q, y))
  {
    hide Xor;
    XorLaws(p, q, Xor(x, y));
    XorLaws(q, x, y);
    XorLaws(x, q, y);
    XorLaws(p, x, Xor(q, y));
  }

  lemma ShiftLinear(a: bv16, b: bv16)
    ensures Shift(Xor(a, b)) == Xor(Shift(a), Shift(b))
  {
    hide Shift, Xor, Half, Feedback;
    ShiftParts(a);
    ShiftParts(b);
    ShiftParts(Xor(a, b));
    HalfLinear(a, b);
    FeedbackLinear(a, b);
    XorSwap(Half(a), Half(b), Feedback(a), Feedback(b));
  }

  lemma ShiftInjective(a: bv16, b: bv16)
    requires Shift(a) == Shift(b)
    ensures a == b
  {
    assert Shift(a) & 0x8000 == (if a & 1 == 1 then 0x8000 else 0);
    assert Shift(b) & 0x8000 == (if b & 1 == 1 then 0x8000 else 0);
  }

  lemma {:induction false} ShiftByLinear(a: bv16, b: bv16, n: nat)
    ensures ShiftBy(Xor(a, b), n) == Xor(ShiftBy(a, n), ShiftBy(b, n))
    decreases n
  {
    if n > 0 {
      hide Shift, Xor;
      ShiftLinear(a, b);
      ShiftByLinear(Shift(a), Shift(b), n - 1);
    }
  }

  lemma {:induction false} ShiftByInjective(a: bv16, b: bv16, n: nat)
    requires ShiftBy(a, n) == ShiftBy(b, n)
    ensures a == b
    decreases n
  {
    if n > 0 {
      hide Shift;
      ShiftByInjective(Shift(a), Shift(b), n - 1);
      ShiftInjective(a, b);
    }
  }

  lemma {:induction false} ShiftByAdd(a: bv16, m: nat, n: nat)
    ensures ShiftBy(a, m + n) == ShiftBy(ShiftBy(a, m), n)
    decreases m
  {
    if m > 0 {
      hide Shift;
      ShiftByAdd(Shift(a), m - 1, n);
    }
  }

  lemma {:induction false} CrcAppend(s: bv16, a: seq<bv8>, b: seq<bv8>)
    ensures Crc(s, a + b) == Crc(Crc(s, a), b)
    decreases |a|
  {
    hide Update;
    if a == [] {
      assert a + b == b;
    } else {
      assert (a + b)[1..] == a[1..] + b;
      CrcAppend(Update(s, a[0]), a[1..], b);
    }
  }

  lemma XorCancel(s: bv16, t: bv16, x: bv16)
    requires Xor(s, x) == Xor(t, x)
    ensures s == t
  {
    assert (s ^ x) ^ x == s && (t ^ x) ^ x == t;
  }

  lemma UpdateInjective(s: bv16, t: bv16, b: bv8)
    requires Update(s, b) == Update(t, b)
    ensures s == t
  {
    hide Xor, ShiftBy;
    ShiftByInjective(Xor(s, b as bv16), Xor(t, b as bv16), 8);
    XorCancel(s, t, b as bv16);
  }

  lemma {:induction false} CrcInjective(s: bv16, t: bv16, data: seq<bv8>)
    requires Crc(s, data) == Crc(t, data)
    ensures s == t
    decreases |data|
  {
    hide Update;
    if data != [] {
      CrcInjective(Update(s, data[0]), Update(t, data[0]), data[1..]);
      UpdateInjective(s, t, data[0]);
    }
  }

  // ----- two bytes together

  /** Two bytes as the word they shift in: first byte low. */
  function Word(lo: bv8, hi: bv8): bv16 {
    (lo as bv16) | ((hi as bv16) << 8)
  }

  lemma WordBytes(w: bv16)
    ensures Word(Low(w), High(w)) == w
  {
  }

  lemma WordInjective(lo: bv8, hi: bv8, lo': bv8, hi': bv8)
    requires Word(lo, hi) == Word(lo', hi')
    ensures lo == lo' && hi == hi'
  {
    assert Low(Word(lo, hi)) == lo && High(Word(lo, hi)) == hi;
    assert Low(Word(lo', hi')) == lo' && High(Word(lo', hi')) == hi';
  }

  lemma FourShifts(w: bv16)
    ensures ShiftBy(w, 4) == Shift(Shift(Shift(Shift(w))))
  {
    hide Shift;
    assert ShiftBy(w, 4) == ShiftBy(Shift(w), 3) == ShiftBy(Shift(Shift(w)), 2);
    assert ShiftBy(Shift(Shift(w)), 2) == ShiftBy(Shift(Shift(Shift(w))), 1) == Shift(Shift(Shift(Shift(w))));
  }

  lemma EightShifts(w: bv16)
    ensures ShiftBy(w, 8) == Shift(Shift(Shift(Shift(Shift(Shift(Shift(Shift(w))))))))
  {
    hide Shift;
    ShiftByAdd(w, 4, 4);
    FourShifts(w);
    FourShifts(ShiftBy(w, 4));
  }

  /** A byte in the upper half needs eight shifts to come down, and meets no feedback on the way. */
  lemma HighByteComesDown(b: bv8)
    ensures ShiftBy((b as bv16) << 8, 8) == b as bv16
  {
    var w := (b as bv16) << 8;
    assert w & 1 == 0 && Shift(w) == w >> 1;
    assert w & 2 == 0 && Shift(w >> 1) == w >> 2;
    assert w & 4 == 0 && Shift(w >> 2) == w >> 3;
    assert w & 8 == 0 && Shift(w >> 3) == w >> 4;
    assert w & 16 == 0 && Shift(w >> 4) == w >> 5;
    assert w & 32 == 0 && Shift(w >> 5) == w >> 6;
    assert w & 64 == 0 && Shift(w >> 6) == w >> 7;
    assert w & 128 == 0 && Shift(w >> 7) == w >> 8;
    assert w >> 8 == b as bv16;
    EightShifts(w);
  }

  lemma XorWord(s: bv16, lo: bv8, hi: bv8)
    ensures Xor(s, Word(lo, hi)) == Xor(Xor(s, lo as bv16), (hi as bv16) << 8)
  {
  }

  lemma UpdateTwo(s: bv16, lo: bv8, hi: bv8)
    ensures Update(Update(s, lo), hi) == ShiftBy(Xor(s, Word(lo, hi)), 16)
  {
    hide ShiftBy, Shift, Xor, Word;
    var h := (hi as bv16) << 8;
    var a := Xor(s, lo as bv16);
    XorWord(s, lo, hi);
    ShiftByAdd(Xor(a, h), 8, 8);
    ShiftByLinear(a, h, 8);
    HighByteComesDown(hi);
  }

  lemma AllOnesFirst()
    ensures Shift(Shift(Shift(Shift(Shift(Shift(Shift(Shift(0xFFFF)))))))) == 0x40BF
  {
  }

  lemma AllOnesSecond()
    ensures Shift(Shift(Shift(Shift(Shift(Shift(Shift(Shift(0x40BF)))))))) == RESIDUE
  {
  }

  lemma ResidueIsAllOnes()
    ensures ShiftBy(0xFFFF, 16) == RESIDUE
  {
    hide Shift;
    ShiftByAdd(0xFFFF, 8, 8);
    EightShifts(0xFFFF);
    AllOnesFirst();
    EightShifts(0x40BF);
    AllOnesSecond();
  }

  // ----- what the check is worth

  lemma CrcOfOne(s: bv16, b: bv8)
    ensures Crc(s, [b]) == Update(s, b)
  {
    hide Update;
    assert [b][1..] == [];
  }

  lemma CrcOfTwo(s: bv16, lo: bv8, hi: bv8)
    ensures Crc(s, [lo, hi]) == Update(Update(s, lo), hi)
  {
    hide Update;
    assert [lo, hi] == [lo] + [hi];
    CrcAppend(s, [lo], [hi]);
    CrcOfOne(s, lo);
    CrcOfOne(Update(s, lo), hi);
  }

  lemma XorAllOnes(s: bv16, w: bv16)
    ensures Xor(s, w) == 0xFFFF <==> w == Calc(s)
  {
    assert s ^ w == 0xFFFF ==> w == !s;
    assert w == !s ==> s ^ w == 0xFFFF;
  }

  /** The check accepts data followed by two bytes exactly when they are the low and the high byte
      of the computed CRC, whatever the length and the starting seed. */
  lemma CheckIffCalc(s: bv16, data: seq<bv8>, lo: bv8, hi: bv8)
    ensures Good(Crc(s, data + [lo, hi])) <==>
            lo == Low(Calc(Crc(s, data))) && hi == High(Calc(Crc(s, data)))
  {
    hide Update, Xor, ShiftBy, Word, Low, High, Calc;
    var c := Crc(s, data);
    CrcAppend(s, data, [lo, hi]);
    CrcOfTwo(c, lo, hi);
    UpdateTwo(c, lo, hi);
    ResidueIsAllOnes();
    if ShiftBy(Xor(c, Word(lo, hi)), 16) == RESIDUE {
      ShiftByInjective(Xor(c, Word(lo, hi)), 0xFFFF, 16);
    }
    XorAllOnes(c, Word(lo, hi));
    WordBytes(Calc(c));
    if Word(lo, hi) == Calc(c) {
      WordInjective(lo, hi, Low(Calc(c)), High(Calc(c)));
    }
  }

  lemma TwoBytesDecide(c: bv16, lo: bv8, hi: bv8, lo': bv8, hi': bv8)
    requires Update(Update(c, lo), hi) == Update(Update(c, lo'), hi')
    ensures lo == lo' && hi == hi'
  {
    hide Update, Xor, ShiftBy, Word;
    UpdateTwo(c, lo, hi);
    UpdateTwo(c, lo', hi');
    ShiftByInjective(Xor(c, Word(lo, hi)), Xor(c, Word(lo', hi')), 16);
    XorLaws(c, Word(lo, hi), 0);
    XorLaws(c, Word(lo', hi'), 0);
    XorCancel(Word(lo, hi), Word(lo', hi'), c);
    WordInjective(lo, hi, lo', hi');
  }

  /** Corruption confined to two adjacent bytes of a valid frame is always rejected. */
  lemma AdjacentErrorRejected(s: bv16, before: seq<bv8>, lo: bv8, hi: bv8, lo': bv8, hi': bv8, after: seq<bv8>)
    requires Good(Crc(s, before + [lo, hi] + after))
    requires lo != lo' || hi != hi'
    ensures !Good(Crc(s, before + [lo', hi'] + after))
  {
    hide Update, Xor, ShiftBy, Word;
    var c := Crc(s, before);
    CrcAppend(s, before + [lo, hi], after);
    CrcAppend(s, before, [lo, hi]);
    CrcAppend(s, before + [lo', hi'], after);
    CrcAppend(s, before, [lo', hi']);
    CrcOfTwo(c, lo, hi);
    CrcOfTwo(c, lo', hi');
    if Good(Crc(s, before + [lo', hi'] + after)) {
      CrcInjective(Crc(c, [lo, hi]), Crc(c, [lo', hi']), after);
      TwoBytesDecide(c, lo, hi, lo', hi');
    }
  }

  // ----- the imperative form

  lemma CrcOfNone(s: bv16)
    ensures Crc(s, []) == s
  {
  }

  /** The digits 1 to 9 as characters, on which CRCs are compared. */
  const DIGITS: seq<bv8> := [0x31, 0x32, 0x33, 0x34, 0x35, 0x36, 0x37, 0x38, 0x39]

  lemma DigitUpdates()
    ensures Update(0x0000, 0x31) == 0xD4C1
    ensures Update(0xD4C1, 0x32) == 0x4594
    ensures Update(0x4594, 0x33) == 0xBA04
    ensures Update(0xBA04, 0x34) == 0x14BA
    ensures Update(0x14BA, 0x35) == 0xA455
    ensures Update(0xA455, 0x36) == 0x29E4
    ensures Update(0x29E4, 0x37) == 0x9D68
    ensures Update(0x9D68, 0x38) == 0x3C9D
    ensures Update(0x3C9D, 0x39) == 0xBB3D
  {
  }

  lemma TakeFirst(s: bv16, b: bv8, rest: seq<bv8>)
    ensures Crc(s, [b] + rest) == Crc(Update(s, b), rest)
  {
    assert ([b] + rest)[1..] == rest;
  }

  /** The check value of the CRC-16 with polynomial x^16 + x^15 + x^2 + 1, low bits first, complemented. */
  lemma CheckValue()
    ensures Calc(Crc(0, DIGITS)) == 0x44C2
  {
    hide Update, Crc;
    DigitUpdates();
    var d8: seq<bv8> := [0x39];
    var d7 := [0x38] + d8;
    var d6 := [0x37] + d7;
    var d5 := [0x36] + d6;
    var d4 := [0x35] + d5;
    var d3 := [0x34] + d4;
    var d2 := [0x33] + d3;
    var d1 := [0x32] + d2;
    assert DIGITS == [0x31] + d1;
    assert d8 == [0x39] + [];
    TakeFirst(0x0000, 0x31, d1);
    TakeFirst(0xD4C1, 0x32, d2);
    TakeFirst(0x4594, 0x33, d3);
    TakeFirst(0xBA04, 0x34, d4);
    TakeFirst(0x14BA, 0x35, d5);
    TakeFirst(0xA455, 0x36, d6);
    TakeFirst(0x29E4, 0x37, d7);
    TakeFirst(0x9D68, 0x38, d8);
    TakeFirst(0x3C9D, 0x39, []);
    CrcOfNone(0xBB3D);
  }

  lemma ShiftIs(s: bv16)
    ensures Shift(s) == if s & 1 == 1 then (s >> 1) ^ 0xA001 else s >> 1
  {
  }

  /** A seed variable that the routines update in place. */
  class Seed {
    var value: bv16

    constructor ()
      ensures value == 0
    {
      value := 0;
    }

    /** The inner loop of `ow_crc16_seed`. */
    method ShiftEight()
      modifies this
      ensures value == ShiftBy(old(value), 8)
    {
      hide Shift;
      for j := 0 to 8
        invariant ShiftBy(value, 8 - j) == ShiftBy(old(value), 8)
      {
        ShiftIs(value);
        if value & 1 == 1 {
          value := (value >> 1) ^ 0xA001;
        } else {
          value := value >> 1;
        }
      }
    }

    /** The body of the outer loop of `ow_crc16_seed`. */
    method Mix(b: bv8)
      modifies this
      ensures value == Update(old(value), b)
    {
      value := value ^ (b as bv16);
      ShiftEight();
    }

    /** `ow_crc16_seed` */
    method Take(b: array<bv8>, len: nat)
      requires len <= b.Length
      modifies this
      ensures value == Crc(old(value), b[..len])
    {
      hide Crc, Update;
      CrcOfNone(value);
      for i := 0 to len
        invariant value == Crc(old(value), b[..i])
      {
        assert b[..i + 1] == b[..i] + [b[i]];
        CrcAppend(old(value), b[..i], [b[i]]);
        CrcOfOne(value, b[i]);
        Mix(b[i]);
      }
    }

    /** `ow_crc16_seed_bytewise` */
    method TakeByte(b: bv8)
      modifies this
      ensures value == Crc(old(value), [b])
    {
      var one := new bv8[1](_ => b);
      Take(one, 1);
      assert one[..1] == [b];
    }

    /** `ow_crc16_check`: 0 on success. */
    method Check() returns (ret: int)
      ensures ret == if Good(value) then 0 else -1
    {
      if value == RESIDUE {
        ret := 0;
      } else {
        ret := -1;
      }
    }

    /** A frame read off the bus: its bytes, then the two CRC bytes, each taken as it arrives. */
    method TakeFrame(frame: seq<bv8>, lo: bv8, hi: bv8) returns (ret: int)
      modifies this
      ensures ret == 0 <==> lo == Low(Calc(Crc(old(value), frame))) && hi == High(Calc(Crc(old(value), frame)))
      ensures ret == 0 || ret == -1
    {
      hide Crc, Low, High, Calc;
      CrcOfNone(value);
      for i := 0 to |frame|
        invariant value == Crc(old(value), frame[..i])
      {
        assert frame[..i + 1] == frame[..i] + [frame[i]];
        CrcAppend(old(value), frame[..i], [frame[i]]);
        TakeByte(frame[i]);
      }
      assert frame[..|frame|] == frame;
      CrcAppend(value, [lo], [hi]);
      CrcAppend(old(value), frame, [lo, hi]);
      assert [lo] + [hi] == [lo, hi];
      CheckIffCalc(old(value), frame, lo, hi);
      TakeByte(lo);
      TakeByte(hi);
      ret := Check();
    }
  }
}
