/** 64-bit 1-Wire ROM codes: the packed bytes the firmware keeps, the bit string
    the bus sees (bit 0 of byte 0 first), and the order in which a search visits them. */
module RomCodes {
  const ROM_BITS := 64

  type Code = c: seq<bool> | |c| == ROM_BITS witness seq(ROM_BITS, _ => false)

  type Rom = r: seq<bv8> | |r| == 8 witness seq(8, _ => 0)

  /** `raw == 0` */
  function ZeroRom(): Rom { seq(8, _ => 0) }

  /** All 64 bits zero: what the search buffer holds before the first pass. */
  function ZeroCode(): Code { seq(ROM_BITS, _ => false) }

  /** `_BV(k)` */
  function Mask(k: nat): bv8 {
    if k == 0 then 1 else Mask(k - 1) << 1
  }

  lemma MaskValues()
    ensures Mask(0) == 1 && Mask(1) == 2 && Mask(2) == 4 && Mask(3) == 8
    ensures Mask(4) == 16 && Mask(5) == 32 && Mask(6) == 64 && Mask(7) == 128
  {
    assert Mask(1) == 2 && Mask(3) == 8 && Mask(5) == 32;
  }

  predicate BitOf(b: bv8, k: nat)
    requires k < 8
  {
    b & Mask(k) != 0
  }

  /** Bit `i % 8` of byte `i / 8`. */
  predicate CodeBit(r: Rom, i: nat)
    requires i < ROM_BITS
  {
    BitOf(r[i / 8], i % 8)
  }

  /** Bits `i` and up of a packed code. */
  function BitsFrom(r: Rom, i: nat): (c: seq<bool>)
    requires i <= ROM_BITS
    ensures |c| == ROM_BITS - i
    decreases ROM_BITS - i
  {
    if i == ROM_BITS then [] else [CodeBit(r, i)] + BitsFrom(r, i + 1)
  }

  /** The bit string a packed code stands for. */
  function Bits(r: Rom): Code {
    BitsFrom(r, 0)
  }

  lemma {:induction false} BitsFromAt(r: Rom, i: nat, k: nat)
    requires i <= k < ROM_BITS
    ensures BitsFrom(r, i)[k - i] == CodeBit(r, k)
    decreases k - i
  {
    hide CodeBit;
    if i < k { BitsFromAt(r, i + 1, k); }
  }

  /** Bit `k` of the string is bit `k % 8` of byte `k / 8`. */
  lemma BitsAt(r: Rom, k: nat)
    requires k < ROM_BITS
    ensures Bits(r)[k] == BitOf(r[k / 8], k % 8)
  {
    hide BitOf, BitsFrom;
    BitsFromAt(r, 0, k);
  }

  function PackByte(c: seq<bool>): bv8
    requires |c| == 8
  {
    (if c[0] then 1 else 0) | (if c[1] then 2 else 0) | (if c[2] then 4 else 0) | (if c[3] then 8 else 0) |
    (if c[4] then 16 else 0) | (if c[5] then 32 else 0) | (if c[6] then 64 else 0) | (if c[7] then 128 else 0)
  }

  /** The packed bytes of a bit string. */
  function Pack(c: Code): Rom {
    seq(8, k requires 0 <= k < 8 => PackByte(c[8 * k..8 * k + 8]))
  }

  lemma PackByteBit(c: seq<bool>, k: nat)
    requires |c| == 8 && k < 8
    ensures BitOf(PackByte(c), k) == c[k]
  {
    MaskValues();
    var b := PackByte(c);
    assert (b & 1 != 0) == c[0];
    assert (b & 2 != 0) == c[1];
    assert (b & 4 != 0) == c[2];
    assert (b & 8 != 0) == c[3];
    assert (b & 16 != 0) == c[4];
    assert (b & 32 != 0) == c[5];
    assert (b & 64 != 0) == c[6];
    assert (b & 128 != 0) == c[7];
  }

  lemma SameBitsSameByte(a: bv8, b: bv8)
    requires forall k :: 0 <= k < 8 ==> BitOf(a, k) == BitOf(b, k)
    ensures a == b
  {
    MaskValues();
    assert BitOf(a, 0) == BitOf(b, 0) && BitOf(a, 1) == BitOf(b, 1) && BitOf(a, 2) == BitOf(b, 2) &&
           BitOf(a, 3) == BitOf(b, 3);
    assert BitOf(a, 4) == BitOf(b, 4) && BitOf(a, 5) == BitOf(b, 5) && BitOf(a, 6) == BitOf(b, 6) &&
           BitOf(a, 7) == BitOf(b, 7);
  }

  lemma BitsOfPack(c: Code)
    ensures Bits(Pack(c)) == c
  {
    hide BitOf, PackByte, Bits;
    forall i | 0 <= i < ROM_BITS ensures Bits(Pack(c))[i] == c[i] {
      BitsAt(Pack(c), i);
      PackByteBit(c[8 * (i / 8)..8 * (i / 8) + 8], i % 8);
    }
  }

  lemma BitsInjective(a: Rom, b: Rom)
    requires Bits(a) == Bits(b)
    ensures a == b
  {
    hide BitOf, Bits;
    forall k | 0 <= k < 8 ensures a[k] == b[k] {
      forall j | 0 <= j < 8 ensures BitOf(a[k], j) == BitOf(b[k], j) {
        BitsAt(a, 8 * k + j);
        BitsAt(b, 8 * k + j);
        assert (8 * k + j) / 8 == k && (8 * k + j) % 8 == j;
      }
      SameBitsSameByte(a[k], b[k]);
    }
  }

  /** Bytes and bits carry the same information, so comparing `raw` values compares bit strings. */
  lemma PackBits(c: Code, r: Rom)
    ensures Bits(Pack(c)) == c
    ensures Pack(Bits(r)) == r
    ensures Pack(c) == r <==> c == Bits(r)
  {
    BitsOfPack(c);
    BitsOfPack(Bits(r));
    BitsInjective(Pack(Bits(r)), r);
  }

  lemma ZeroPacked()
    ensures Pack(ZeroCode()) == ZeroRom() && Bits(ZeroRom()) == ZeroCode()
  {
    forall i | 0 <= i < ROM_BITS ensures !Bits(ZeroRom())[i] {
      BitsAt(ZeroRom(), i);
      assert (0 as bv8) & Mask(i % 8) == 0;
    }
    assert Bits(ZeroRom()) == ZeroCode();
    PackBits(ZeroCode(), ZeroRom());
  }

  /** What `ow_set_address_bit` leaves in the byte it touches. */
  function WithBit(b: bv8, k: nat, v: bool): bv8
    requires k < 8
  {
    if v then (b & !Mask(k)) | Mask(k) else b & !Mask(k)
  }

  lemma WithBitOnly(b: bv8, k: nat, v: bool, j: nat)
    requires k < 8 && j < 8
    ensures BitOf(WithBit(b, k, v), j) == if j == k then v else BitOf(b, j)
  {
    MaskValues();
  }

  lemma SetBitRefines(r: Rom, r': Rom, idx: nat, v: bool)
    requires idx < ROM_BITS
    requires forall k :: 0 <= k < 8 ==> r'[k] == if k == idx / 8 then WithBit(r[k], idx % 8, v) else r[k]
    ensures Bits(r') == Bits(r)[idx := v]
  {
    hide BitOf, Bits, WithBit;
    forall i | 0 <= i < ROM_BITS ensures Bits(r')[i] == Bits(r)[idx := v][i] {
      BitsAt(r, i);
      BitsAt(r', i);
      if i / 8 == idx / 8 {
        WithBitOnly(r[idx / 8], idx % 8, v, i % 8);
        if i % 8 == idx % 8 { assert i == idx; }
      }
    }
  }

  // ----- lexicographic order, bit 0 most significant

  ghost predicate DiffersAt(a: Code, b: Code, i: nat) {
    i < ROM_BITS && a[..i] == b[..i] && !a[i] && b[i]
  }

  ghost predicate Less(a: Code, b: Code) {
    exists i: nat :: DiffersAt(a, b, i)
  }

  lemma LessTransitive(a: Code, b: Code, c: Code)
    requires Less(a, b) && Less(b, c)
    ensures Less(a, c)
  {
    var i: nat :| DiffersAt(a, b, i);
    var j: nat :| DiffersAt(b, c, j);
    var k := if i < j then i else j;
    assert a[..k] == a[..i][..k] == b[..i][..k] == b[..k];
    assert c[..k] == c[..j][..k] == b[..j][..k] == b[..k];
    if i < j { assert c[i] == c[..j][i] == b[..j][i]; }
    if j < i { assert a[j] == a[..i][j] == b[..i][j]; }
    assert DiffersAt(a, c, k);
  }

  lemma LessIrreflexive(a: Code)
    ensures !Less(a, a)
  {
  }
}
