/** Laws of the three CAST-128 round functions over arbitrary boxes: what each box, the masking key and
    the rotation key contribute, and in which round which function is used. */
module Cast5Laws {
  import Arith
  import Cast5
  import opened Cast5Spec
  import opened Feistel
  import opened Words

  function ZeroBox(): Box { (_: bv8) => 0 }

  lemma ZeroBoxAt(x: bv8)
    ensures ZeroBox()(x) == 0
  {
  }

  function Raised(b: Box, k: bv32): Box { (x: bv8) => Add(b(x), k) }

  function Xored(b: Box, k: bv32): Box { (x: bv8) => Xor(b(x), k) }

  lemma ChangedAt(b: Box, k: bv32, x: bv8)
    ensures Raised(b, k)(x) == Add(b(x), k) && Xored(b, k)(x) == Xor(b(x), k)
  {
  }

  // ----- arithmetic modulo 2^32

  lemma AddIs(x: bv32, y: bv32)
    ensures Add(x, y) == x + y
  {
  }

  lemma SubIs(x: bv32, y: bv32)
    ensures Sub(x, y) == x - y
  {
  }

  lemma XorIs(x: bv32, y: bv32)
    ensures Xor(x, y) == x ^ y
  {
  }

  lemma AddRegroups(x: bv32, y: bv32, z: bv32)
    ensures Add(x, y + z) == Add(x + y, z) == Add(x + z, y)
  {
  }

  lemma SubRegroups(x: bv32, y: bv32, z: bv32)
    ensures Sub(x, y + z) == Sub(x - y, z) && Add(x - y, z) == Sub(x + z, y)
  {
  }

  lemma XorRegroups(x: bv32, y: bv32, z: bv32)
    ensures Xor(x, y ^ z) == Xor(x ^ y, z) == Xor(x ^ z, y)
  {
  }

  lemma AddTwice(x: bv32, y: bv32, z: bv32)
    ensures Add(x, Add(y, z)) == Add(Add(x, y), z) == Add(Add(x, z), y)
  {
    hide Add;
    AddIs(x, y);
    AddIs(x, z);
    AddIs(y, z);
    AddRegroups(x, y, z);
  }

  lemma SubTwice(x: bv32, y: bv32, z: bv32)
    ensures Sub(x, Add(y, z)) == Sub(Sub(x, y), z) && Add(Sub(x, y), z) == Sub(Add(x, z), y)
  {
    hide Add, Sub;
    SubIs(x, y);
    AddIs(x, z);
    AddIs(y, z);
    SubRegroups(x, y, z);
  }

  lemma XorTwice(x: bv32, y: bv32, z: bv32)
    ensures Xor(x, Xor(y, z)) == Xor(Xor(x, y), z) == Xor(Xor(x, z), y)
  {
    hide Xor;
    XorIs(x, y);
    XorIs(x, z);
    XorIs(y, z);
    XorRegroups(x, y, z);
  }

  lemma Zero(x: bv32)
    ensures Add(x, 0) == Add(0, x) == Sub(x, 0) == Xor(x, 0) == Xor(0, x) == x
  {
  }

  lemma MovesAway(d: bv32, m: bv32, x: bv32)
    ensures Add(d + x, m - x) == Add(d, m) && Xor(d ^ x, m ^ x) == Xor(d, m) && Sub(m + x, d + x) == Sub(m, d)
  {
  }

  /** What is put on one side and taken off the other does not show. */
  lemma Exchange(d: bv32, m: bv32, x: bv32)
    ensures Add(Add(d, x), Sub(m, x)) == Add(d, m)
    ensures Xor(Xor(d, x), Xor(m, x)) == Xor(d, m)
    ensures Sub(Add(m, x), Add(d, x)) == Sub(m, d)
  {
    hide Add, Sub, Xor;
    AddIs(d, x);
    AddIs(m, x);
    SubIs(m, x);
    XorIs(d, x);
    XorIs(m, x);
    MovesAway(d, m, x);
  }

  // ----- how the four looked-up words are blended

  lemma Blend1Laws(a: bv32, b: bv32, c: bv32, d: bv32, k: bv32)
    ensures Blend1(a, b, c, Add(d, k)) == Add(Blend1(a, b, c, d), k)
    ensures Blend1(a, b, Add(c, k), d) == Sub(Blend1(a, b, c, d), k)
    ensures Blend1(Xor(a, k), b, 0, 0) == Blend1(a, Xor(b, k), 0, 0) == Xor(Blend1(a, b, 0, 0), k)
  {
    hide Add, Sub, Xor;
    AddTwice(Sub(Xor(a, b), c), d, k);
    SubTwice(Xor(a, b), c, k);
    SubTwice(Sub(Xor(a, b), c), k, d);
    XorTwice(a, b, k);
    Zero(Xor(a, b));
    Zero(Xor(Xor(a, b), k));
  }

  lemma Blend2Laws(a: bv32, b: bv32, c: bv32, d: bv32, k: bv32)
    ensures Blend2(a, b, c, Xor(d, k)) == Xor(Blend2(a, b, c, d), k)
    ensures Blend2(Add(a, k), b, c, 0) == Blend2(a, b, Add(c, k), 0) == Add(Blend2(a, b, c, 0), k)
    ensures Blend2(a, Add(b, k), c, 0) == Sub(Blend2(a, b, c, 0), k)
  {
    hide Add, Sub, Xor;
    XorTwice(Add(Sub(a, b), c), d, k);
    SubTwice(a, b, k);
    AddTwice(Sub(a, b), c, k);
    SubTwice(a, b, k);
    SubTwice(Sub(a, b), k, c);
    Zero(Add(Sub(a, b), c));
    Zero(Add(Add(Sub(a, b), c), k));
    Zero(Sub(Add(Sub(a, b), c), k));
  }

  lemma Blend3Laws(a: bv32, b: bv32, c: bv32, d: bv32, k: bv32)
    ensures Blend3(a, b, c, Add(d, k)) == Sub(Blend3(a, b, c, d), k)
    ensures Blend3(a, b, Xor(c, k), 0) == Xor(Blend3(a, b, c, 0), k)
    ensures Blend3(Add(a, k), b, 0, 0) == Blend3(a, Add(b, k), 0, 0) == Add(Blend3(a, b, 0, 0), k)
  {
    hide Add, Sub, Xor;
    SubTwice(Xor(Add(a, b), c), d, k);
    XorTwice(Add(a, b), c, k);
    AddTwice(a, b, k);
    Zero(Add(a, b));
    Zero(Add(Add(a, b), k));
    Zero(Xor(Add(a, b), c));
    Zero(Xor(Xor(Add(a, b), c), k));
  }

  lemma OneLeft(x: bv32)
    ensures Blend1(x, 0, 0, 0) == Blend2(x, 0, 0, 0) == Blend3(x, 0, 0, 0) == x
    ensures Blend1(0, x, 0, 0) == Blend3(0, x, 0, 0) == x && Blend2(0, x, 0, 0) == Sub(0, x)
    ensures Blend2(0, 0, x, 0) == Blend3(0, 0, x, 0) == x && Blend1(0, 0, x, 0) == Sub(0, x)
    ensures Blend1(0, 0, 0, x) == Blend2(0, 0, 0, x) == x && Blend3(0, 0, 0, x) == Sub(0, x)
  {
    hide Add, Sub, Xor;
    Zero(x);
    Zero(0);
    Zero(Sub(0, x));
  }

  lemma Looked1(s: Boxes, d: bv32, m: bv32, r: bv8)
    requires r < 32
    ensures var t := Rotl(Add(d, m), r as nat);
            F1(s, d, m, r) == Blend1(s.s1(ByteOf(t, 0)), s.s2(ByteOf(t, 1)), s.s3(ByteOf(t, 2)), s.s4(ByteOf(t, 3)))
  {
    hide Rotl, ByteOf, Blend1, Add, Sub, Xor;
  }

  /** Type 1: boxes 1 and 2 are xored, box 3 counts down and box 4 up. */
  lemma Type1Boxes(s: Boxes, d: bv32, m: bv32, r: bv8, k: bv32)
    requires r < 32
    ensures F1(s.(s4 := Raised(s.s4, k)), d, m, r) == Add(F1(s, d, m, r), k)
    ensures F1(s.(s3 := Raised(s.s3, k)), d, m, r) == Sub(F1(s, d, m, r), k)
    ensures var z := s.(s3 := ZeroBox(), s4 := ZeroBox());
            && F1(z.(s1 := Xored(z.s1, k)), d, m, r) == Xor(F1(z, d, m, r), k)
            && F1(z.(s2 := Xored(z.s2, k)), d, m, r) == Xor(F1(z, d, m, r), k)
  {
    hide F1, Rotl, ByteOf, Blend1, Add, Sub, Xor, ZeroBox, Raised, Xored;
    var t := Rotl(Add(d, m), r as nat);
    ChangedAt(s.s1, k, ByteOf(t, 0));
    ChangedAt(s.s2, k, ByteOf(t, 1));
    ChangedAt(s.s3, k, ByteOf(t, 2));
    ChangedAt(s.s4, k, ByteOf(t, 3));
    ZeroBoxAt(ByteOf(t, 2));
    ZeroBoxAt(ByteOf(t, 3));
    Blend1Laws(s.s1(ByteOf(t, 0)), s.s2(ByteOf(t, 1)), s.s3(ByteOf(t, 2)), s.s4(ByteOf(t, 3)), k);
    Looked1(s, d, m, r);
    var z := s.(s3 := ZeroBox(), s4 := ZeroBox());
    Looked1(s.(s4 := Raised(s.s4, k)), d, m, r);
    Looked1(s.(s3 := Raised(s.s3, k)), d, m, r);
    Looked1(z, d, m, r);
    Looked1(z.(s1 := Xored(z.s1, k)), d, m, r);
    Looked1(z.(s2 := Xored(z.s2, k)), d, m, r);
  }

  lemma Looked2(s: Boxes, d: bv32, m: bv32, r: bv8)
    requires r < 32
    ensures var t := Rotl(Xor(d, m), r as nat);
            F2(s, d, m, r) == Blend2(s.s1(ByteOf(t, 0)), s.s2(ByteOf(t, 1)), s.s3(ByteOf(t, 2)), s.s4(ByteOf(t, 3)))
  {
    hide Rotl, ByteOf, Blend2, Add, Sub, Xor;
  }

  /** Type 2: box 2 counts down, boxes 1 and 3 up, and box 4 is xored. */
  lemma Type2Boxes(s: Boxes, d: bv32, m: bv32, r: bv8, k: bv32)
    requires r < 32
    ensures F2(s.(s4 := Xored(s.s4, k)), d, m, r) == Xor(F2(s, d, m, r), k)
    ensures var z := s.(s4 := ZeroBox());
            && F2(z.(s1 := Raised(z.s1, k)), d, m, r) == Add(F2(z, d, m, r), k)
            && F2(z.(s3 := Raised(z.s3, k)), d, m, r) == Add(F2(z, d, m, r), k)
            && F2(z.(s2 := Raised(z.s2, k)), d, m, r) == Sub(F2(z, d, m, r), k)
  {
    hide F2, Rotl, ByteOf, Blend2, Add, Sub, Xor, ZeroBox, Raised, Xored;
    var t := Rotl(Xor(d, m), r as nat);
    ChangedAt(s.s1, k, ByteOf(t, 0));
    ChangedAt(s.s2, k, ByteOf(t, 1));
    ChangedAt(s.s3, k, ByteOf(t, 2));
    ChangedAt(s.s4, k, ByteOf(t, 3));
    ZeroBoxAt(ByteOf(t, 2));
    ZeroBoxAt(ByteOf(t, 3));
    Blend2Laws(s.s1(ByteOf(t, 0)), s.s2(ByteOf(t, 1)), s.s3(ByteOf(t, 2)), s.s4(ByteOf(t, 3)), k);
    Looked2(s, d, m, r);
    var z := s.(s4 := ZeroBox());
    Looked2(s.(s4 := Xored(s.s4, k)), d, m, r);
    Looked2(z, d, m, r);
    Looked2(z.(s1 := Raised(z.s1, k)), d, m, r);
    Looked2(z.(s3 := Raised(z.s3, k)), d, m, r);
    Looked2(z.(s2 := Raised(z.s2, k)), d, m, r);
  }

  lemma Looked3(s: Boxes, d: bv32, m: bv32, r: bv8)
    requires r < 32
    ensures var t := Rotl(Sub(m, d), r as nat);
            F3(s, d, m, r) == Blend3(s.s1(ByteOf(t, 0)), s.s2(ByteOf(t, 1)), s.s3(ByteOf(t, 2)), s.s4(ByteOf(t, 3)))
  {
    hide Rotl, ByteOf, Blend3, Add, Sub, Xor;
  }

  /** Type 3: boxes 1 and 2 are added, box 3 is xored and box 4 counts down. */
  lemma Type3Boxes(s: Boxes, d: bv32, m: bv32, r: bv8, k: bv32)
    requires r < 32
    ensures F3(s.(s4 := Raised(s.s4, k)), d, m, r) == Sub(F3(s, d, m, r), k)
    ensures var z := s.(s4 := ZeroBox());
            F3(z.(s3 := Xored(z.s3, k)), d, m, r) == Xor(F3(z, d, m, r), k)
    ensures var z := s.(s3 := ZeroBox(), s4 := ZeroBox());
            && F3(z.(s1 := Raised(z.s1, k)), d, m, r) == Add(F3(z, d, m, r), k)
            && F3(z.(s2 := Raised(z.s2, k)), d, m, r) == Add(F3(z, d, m, r), k)
  {
    hide F3, Rotl, ByteOf, Blend3, Add, Sub, Xor, ZeroBox, Raised, Xored;
    var t := Rotl(Sub(m, d), r as nat);
    ChangedAt(s.s1, k, ByteOf(t, 0));
    ChangedAt(s.s2, k, ByteOf(t, 1));
    ChangedAt(s.s3, k, ByteOf(t, 2));
    ChangedAt(s.s4, k, ByteOf(t, 3));
    ZeroBoxAt(ByteOf(t, 2));
    ZeroBoxAt(ByteOf(t, 3));
    Blend3Laws(s.s1(ByteOf(t, 0)), s.s2(ByteOf(t, 1)), s.s3(ByteOf(t, 2)), s.s4(ByteOf(t, 3)), k);
    Looked3(s, d, m, r);
    var z, y := s.(s4 := ZeroBox()), s.(s3 := ZeroBox(), s4 := ZeroBox());
    Looked3(s.(s4 := Raised(s.s4, k)), d, m, r);
    Looked3(z, d, m, r);
    Looked3(z.(s3 := Xored(z.s3, k)), d, m, r);
    Looked3(y, d, m, r);
    Looked3(y.(s1 := Raised(z.s1, k)), d, m, r);
    Looked3(y.(s2 := Raised(z.s2, k)), d, m, r);
  }

  /** How data and mask meet: they are added, xored, or the data is taken off the mask, so that
      exchanging `x` between them changes nothing. */
  lemma DataMeetsMask(s: Boxes, d: bv32, m: bv32, r: bv8, x: bv32)
    requires r < 32
    ensures F1(s, Add(d, x), Sub(m, x), r) == F1(s, d, m, r)
    ensures F2(s, Xor(d, x), Xor(m, x), r) == F2(s, d, m, r)
    ensures F3(s, Add(d, x), Add(m, x), r) == F3(s, d, m, r)
  {
    hide Rotl, ByteOf, Blend1, Blend2, Blend3, Add, Sub, Xor;
    Exchange(d, m, x);
  }

  /** Only box `n` of the first four is left. */
  function Alone(s: Boxes, n: nat): Boxes {
    var z := ZeroBox();
    s.(s1 := if n == 1 then s.s1 else z, s2 := if n == 2 then s.s2 else z,
       s3 := if n == 3 then s.s3 else z, s4 := if n == 4 then s.s4 else z)
  }

  /** With zero data the rotated mask names the bytes; box 1 takes the top byte, box 4 the low one. */
  lemma BoxTakesByte(s: Boxes, m: bv32, r: bv8)
    requires r < 32
    ensures var x := s.s1(ByteOf(Rotl(m, r as nat), 0));
            F1(Alone(s, 1), 0, m, r) == F2(Alone(s, 1), 0, m, r) == F3(Alone(s, 1), 0, m, r) == x
    ensures var x := s.s2(ByteOf(Rotl(m, r as nat), 1));
            F1(Alone(s, 2), 0, m, r) == F3(Alone(s, 2), 0, m, r) == x && F2(Alone(s, 2), 0, m, r) == Sub(0, x)
    ensures var x := s.s3(ByteOf(Rotl(m, r as nat), 2));
            F2(Alone(s, 3), 0, m, r) == F3(Alone(s, 3), 0, m, r) == x && F1(Alone(s, 3), 0, m, r) == Sub(0, x)
    ensures var x := s.s4(ByteOf(Rotl(m, r as nat), 3));
            F1(Alone(s, 4), 0, m, r) == F2(Alone(s, 4), 0, m, r) == x && F3(Alone(s, 4), 0, m, r) == Sub(0, x)
  {
    hide Rotl, ByteOf, Blend1, Blend2, Blend3, Add, Sub, Xor;
    var t := Rotl(m, r as nat);
    Zero(m);
    OneLeft(s.s1(ByteOf(t, 0)));
    OneLeft(s.s2(ByteOf(t, 1)));
    OneLeft(s.s3(ByteOf(t, 2)));
    OneLeft(s.s4(ByteOf(t, 3)));
  }

  /** Nothing else of the boxes matters. */
  lemma OnlyLookupsMatter(s: Boxes, u: Boxes, m: bv32, r: bv8)
    requires r < 32
    requires var t := Rotl(m, r as nat);
             && s.s1(ByteOf(t, 0)) == u.s1(ByteOf(t, 0)) && s.s2(ByteOf(t, 1)) == u.s2(ByteOf(t, 1))
             && s.s3(ByteOf(t, 2)) == u.s3(ByteOf(t, 2)) && s.s4(ByteOf(t, 3)) == u.s4(ByteOf(t, 3))
    ensures F1(s, 0, m, r) == F1(u, 0, m, r) && F2(s, 0, m, r) == F2(u, 0, m, r) && F3(s, 0, m, r) == F3(u, 0, m, r)
  {
    hide Rotl, ByteOf, Blend1, Blend2, Blend3, Add, Sub, Xor;
    Zero(m);
  }

  /** Rounds 1, 4, 7, ... are of type 1, rounds 2, 5, 8, ... of type 2, rounds 3, 6, 9, ... of type 3. */
  lemma TypesTakeTurns(s: Boxes, n: nat, d: bv32, m: bv32, r: bv8)
    requires r < 32
    ensures F(s, 3 * n, d, m, r) == F1(s, d, m, r)
    ensures F(s, 3 * n + 1, d, m, r) == F2(s, d, m, r)
    ensures F(s, 3 * n + 2, d, m, r) == F3(s, d, m, r)
  {
    hide F1, F2, F3;
  }

  /** The rounds of a key: round i + 1 masks with key word i + 1 and rotates by key word i + 17. */
  lemma RoundsUseKeys(s: Boxes, key: seq<bv8>, n: nat, d: bv32)
    requires |key| == 16
    ensures 3 * n < 16 ==>
              KeyedRounds(s, key)(3 * n, d) == F1(s, d, Subkey(s, key, 3 * n), LowFive(Subkey(s, key, 3 * n + 16)))
    ensures 3 * n + 1 < 16 ==>
              KeyedRounds(s, key)(3 * n + 1, d) ==
              F2(s, d, Subkey(s, key, 3 * n + 1), LowFive(Subkey(s, key, 3 * n + 17)))
    ensures 3 * n + 2 < 16 ==>
              KeyedRounds(s, key)(3 * n + 2, d) ==
              F3(s, d, Subkey(s, key, 3 * n + 2), LowFive(Subkey(s, key, 3 * n + 18)))
  {
    hide F1, F2, F3, Subkey, LowFive;
  }

  // ----- words and their bytes

  /** A word is worth its four bytes, the first one most. */
  lemma BytesOfWord(w: bv32)
    ensures w as nat == 0x100_0000 * ByteOf(w, 0) as nat + 0x1_0000 * ByteOf(w, 1) as nat +
                        0x100 * ByteOf(w, 2) as nat + ByteOf(w, 3) as nat
  {
    hide ByteOf, Join;
    SplitJoin(w);
    JoinValue(ByteOf(w, 0), ByteOf(w, 1), ByteOf(w, 2), ByteOf(w, 3));
  }

  lemma FiveValue(b: bv8)
    ensures Five(b) as nat == b as nat % 32
  {
  }

  lemma LowDigitMod32(a: nat, b: nat, c: nat, d: nat)
    ensures (0x100_0000 * a + 0x1_0000 * b + 0x100 * c + d) % 32 == d % 32
  {
    var q := 0x8_0000 * a + 0x800 * b + 8 * c;
    assert 0x100_0000 * a + 0x1_0000 * b + 0x100 * c + d == (q + d / 32) * 32 + d % 32;
    Arith.DivModUnique(0x100_0000 * a + 0x1_0000 * b + 0x100 * c + d, 32, q + d / 32, d % 32);
  }

  /** A rotation key is its key word modulo 32. */
  lemma RotationKeyValue(w: bv32)
    ensures LowFive(w) as nat == w as nat % 32
  {
    hide ByteOf, Five;
    BytesOfWord(w);
    FiveValue(ByteOf(w, 3));
    LowDigitMod32(ByteOf(w, 0) as nat, ByteOf(w, 1) as nat, ByteOf(w, 2) as nat, ByteOf(w, 3) as nat);
  }

  /** As many key bytes are taken as hold the key's bits, at most 16; the rest of the key is zero, and
      keys of up to 80 bits are used for 12 rounds, longer ones for 16. */
  lemma KeyFillsBytes(key: seq<bv8>, bits: nat)
    requires Cast5.KeyBytes(bits) <= |key|
    ensures var n, full := Cast5.KeyBytes(bits), Cast5.PaddedKey(key, bits);
            && (if bits <= 128 then 8 * n - 8 < bits <= 8 * n else n == 16)
            && full[..n] == key[..n] && forall i :: n <= i < 16 ==> full[i] == 0
    ensures RoundCount(bits) == 12 <==> bits < 81
    ensures RoundCount(bits) == 16 <==> bits > 80
  {
  }
}
