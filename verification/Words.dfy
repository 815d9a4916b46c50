/** 32-bit word operations that the ciphers and digests share. */
module Words {

  /** Circular left shift. */
  function Rotl(x: bv32, n: nat): bv32
    requires n <= 32
  {
    (x << n) | (x >> (32 - n))
  }

  /** Sums and differences are taken modulo 2^32. */
  function Add(x: bv32, y: bv32): bv32 { x + y }

  function Sub(x: bv32, y: bv32): bv32 { x - y }

  /** Four bytes as a word, most significant first. */
  function Join(a: bv8, b: bv8, c: bv8, d: bv8): bv32 {
    (a as bv32 << 24) | (b as bv32 << 16) | (c as bv32 << 8) | d as bv32
  }

  /** The byte with the binary digits of `n`. */
  function Octet(n: nat): bv8
    requires n < 256
  {
    if n == 0 then 0 else if n % 2 == 0 then Octet(n / 2) << 1 else (Octet(n / 2) << 1) | 1
  }

  lemma ShiftedValue(b: bv8)
    requires b < 128
    ensures (b << 1) as nat == 2 * b as nat && ((b << 1) | 1) as nat == 2 * b as nat + 1
  {
  }

  lemma SmallOctet(b: bv8)
    requires b as nat < 128
    ensures b < 128
  {
  }

  lemma {:induction false} OctetValue(n: nat)
    requires n < 256
    ensures Octet(n) as nat == n
  {
    if n > 0 {
      var half := Octet(n / 2);
      OctetValue(n / 2);
      SmallOctet(half);
      ShiftedValue(half);
    }
  }

  // ----- what a joined word is worth

  /** `w` with one more byte behind it. */
  function Pushed(w: bv32, b: bv8): bv32 {
    (w << 8) | b as bv32
  }

  lemma PushedIs(w: bv32, b: bv8)
    ensures Pushed(w, b) == (w << 8) | b as bv32
  {
  }

  lemma LowByteValue(w: bv32, b: bv8)
    requires w < 0x100_0000
    ensures ((w << 8) | b as bv32) as nat == 256 * w as nat + b as nat
  {
  }

  lemma PushedValue(w: bv32, b: bv8)
    requires w < 0x100_0000
    ensures Pushed(w, b) as nat == 256 * w as nat + b as nat
  {
    hide Pushed;
    PushedIs(w, b);
    LowByteValue(w, b);
  }

  lemma OneByteValue(a: bv8)
    ensures a as bv32 as nat == a as nat && a as bv32 < 0x100_0000
  {
  }

  lemma JoinInSteps(a: bv8, b: bv8, c: bv8, d: bv8)
    ensures Join(a, b, c, d) == Pushed(Pushed(Pushed(a as bv32, b), c), d)
    ensures Pushed(a as bv32, b) < 0x100_0000 && Pushed(Pushed(a as bv32, b), c) < 0x100_0000
  {
  }

  /** The first byte counts most. */
  lemma JoinValue(a: bv8, b: bv8, c: bv8, d: bv8)
    ensures Join(a, b, c, d) as nat == 0x100_0000 * a as nat + 0x1_0000 * b as nat + 0x100 * c as nat + d as nat
  {
    hide Join, Pushed;
    JoinInSteps(a, b, c, d);
    OneByteValue(a);
    PushedValue(a as bv32, b);
    PushedValue(Pushed(a as bv32, b), c);
    PushedValue(Pushed(Pushed(a as bv32, b), c), d);
  }

  // ----- rotation

  /** The shifts of the macro add up to a rotation by every number of places. */
  lemma RotlRotates(x: bv32)
    ensures Rotl(x, 0) == x.RotateLeft(0) && Rotl(x, 1) == x.RotateLeft(1) && Rotl(x, 2) == x.RotateLeft(2) &&
            Rotl(x, 3) == x.RotateLeft(3)
    ensures Rotl(x, 4) == x.RotateLeft(4) && Rotl(x, 5) == x.RotateLeft(5) && Rotl(x, 6) == x.RotateLeft(6) &&
            Rotl(x, 7) == x.RotateLeft(7)
    ensures Rotl(x, 8) == x.RotateLeft(8) && Rotl(x, 9) == x.RotateLeft(9) && Rotl(x, 10) == x.RotateLeft(10) &&
            Rotl(x, 11) == x.RotateLeft(11)
    ensures Rotl(x, 12) == x.RotateLeft(12) && Rotl(x, 13) == x.RotateLeft(13) && Rotl(x, 14) == x.RotateLeft(14) &&
            Rotl(x, 15) == x.RotateLeft(15)
    ensures Rotl(x, 16) == x.RotateLeft(16) && Rotl(x, 17) == x.RotateLeft(17) && Rotl(x, 18) == x.RotateLeft(18) &&
            Rotl(x, 19) == x.RotateLeft(19)
    ensures Rotl(x, 20) == x.RotateLeft(20) && Rotl(x, 21) == x.RotateLeft(21) && Rotl(x, 22) == x.RotateLeft(22) &&
            Rotl(x, 23) == x.RotateLeft(23)
    ensures Rotl(x, 24) == x.RotateLeft(24) && Rotl(x, 25) == x.RotateLeft(25) && Rotl(x, 26) == x.RotateLeft(26) &&
            Rotl(x, 27) == x.RotateLeft(27)
    ensures Rotl(x, 28) == x.RotateLeft(28) && Rotl(x, 29) == x.RotateLeft(29) && Rotl(x, 30) == x.RotateLeft(30) &&
            Rotl(x, 31) == x.RotateLeft(31)
    ensures Rotl(x, 32) == x
  {
    assert Rotl(x, 0) == (x << 0) | (x >> 32);
    assert Rotl(x, 1) == (x << 1) | (x >> 31);
    assert Rotl(x, 2) == (x << 2) | (x >> 30);
    assert Rotl(x, 3) == (x << 3) | (x >> 29);
    assert Rotl(x, 4) == (x << 4) | (x >> 28);
    assert Rotl(x, 5) == (x << 5) | (x >> 27);
    assert Rotl(x, 6) == (x << 6) | (x >> 26);
    assert Rotl(x, 7) == (x << 7) | (x >> 25);
    assert Rotl(x, 8) == (x << 8) | (x >> 24);
    assert Rotl(x, 9) == (x << 9) | (x >> 23);
    assert Rotl(x, 10) == (x << 10) | (x >> 22);
    assert Rotl(x, 11) == (x << 11) | (x >> 21);
    assert Rotl(x, 12) == (x << 12) | (x >> 20);
    assert Rotl(x, 13) == (x << 13) | (x >> 19);
    assert Rotl(x, 14) == (x << 14) | (x >> 18);
    assert Rotl(x, 15) == (x << 15) | (x >> 17);
    assert Rotl(x, 16) == (x << 16) | (x >> 16);
    assert Rotl(x, 17) == (x << 17) | (x >> 15);
    assert Rotl(x, 18) == (x << 18) | (x >> 14);
    assert Rotl(x, 19) == (x << 19) | (x >> 13);
    assert Rotl(x, 20) == (x << 20) | (x >> 12);
    assert Rotl(x, 21) == (x << 21) | (x >> 11);
    assert Rotl(x, 22) == (x << 22) | (x >> 10);
    assert Rotl(x, 23) == (x << 23) | (x >> 9);
    assert Rotl(x, 24) == (x << 24) | (x >> 8);
    assert Rotl(x, 25) == (x << 25) | (x >> 7);
    assert Rotl(x, 26) == (x << 26) | (x >> 6);
    assert Rotl(x, 27) == (x << 27) | (x >> 5);
    assert Rotl(x, 28) == (x << 28) | (x >> 4);
    assert Rotl(x, 29) == (x << 29) | (x >> 3);
    assert Rotl(x, 30) == (x << 30) | (x >> 2);
    assert Rotl(x, 31) == (x << 31) | (x >> 1);
    assert Rotl(x, 32) == (x << 32) | (x >> 0);
  }
}
