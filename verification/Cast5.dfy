/** The CAST5 implementation on a little-endian machine: words are loaded byte-reversed, boxes 5 to 8
    and the masking keys are stored byte-reversed, and rotation keys are packed into nibbles and bits. */
module Cast5 {
  import opened Feistel
  import opened Words
  import opened Cast5Spec

  /** CHANGE_ENDIAN32 */
  function Swap(w: bv32): bv32 {
    (w << 24) | (w >> 24) | ((w & 0xFF00) << 8) | ((w & 0xFF0000) >> 8)
  }

  lemma SwapTwice(w: bv32)
    ensures Swap(Swap(w)) == w
  {
  }

  lemma SwapXor(x: bv32, y: bv32)
    ensures Xor(Swap(x), Swap(y)) == Swap(Xor(x, y))
  {
  }

  lemma SwapXor5(a: bv32, b: bv32, c: bv32, d: bv32, e: bv32)
    ensures Xor5(Swap(a), Swap(b), Swap(c), Swap(d), Swap(e)) == Swap(Xor5(a, b, c, d, e))
  {
    hide Swap, Xor;
    SwapXor(a, b);
    SwapXor(Xor(a, b), c);
    SwapXor(Xor(Xor(a, b), c), d);
    SwapXor(Xor(Xor(Xor(a, b), c), d), e);
  }

  lemma SwapXor6(a: bv32, b: bv32, c: bv32, d: bv32, e: bv32, f: bv32)
    ensures Xor6(Swap(a), Swap(b), Swap(c), Swap(d), Swap(e), Swap(f)) == Swap(Xor6(a, b, c, d, e, f))
  {
    hide Swap, Xor, Xor5;
    SwapXor5(a, b, c, d, e);
    SwapXor(Xor5(a, b, c, d, e), f);
  }

  lemma SwapJoin(a: bv8, b: bv8, c: bv8, d: bv8)
    ensures Join(d, c, b, a) == Swap(Join(a, b, c, d))
  {
  }

  lemma SwapBytes(w: bv32)
    ensures ByteOf(Swap(w), 3) == ByteOf(w, 0) && ByteOf(Swap(w), 2) == ByteOf(w, 1)
    ensures ByteOf(Swap(w), 1) == ByteOf(w, 2) && ByteOf(Swap(w), 0) == ByteOf(w, 3)
  {
  }

  /** `*(uint32_t*)&b[at]` */
  function Load(b: seq<bv8>, at: nat): bv32
    requires at + 4 <= |b|
  {
    Join(b[at + 3], b[at + 2], b[at + 1], b[at])
  }

  lemma LoadIsSwap(b: seq<bv8>, at: nat)
    requires at + 4 <= |b|
    ensures Load(b, at) == Swap(Word(b, at))
  {
    hide Join, Swap;
    SwapJoin(b[at], b[at + 1], b[at + 2], b[at + 3]);
  }

  /** `*(uint32_t*)&b[at] = w` */
  method Store(b: array<bv8>, at: nat, w: bv32)
    requires at + 4 <= b.Length
    modifies b
    ensures Word(b[..], at) == Swap(w)
    ensures forall k :: 0 <= k < b.Length && !(at <= k < at + 4) ==> b[k] == old(b[k])
  {
    hide ByteOf, Join, Swap;
    var b0, b1, b2, b3 := ByteOf(w, 3), ByteOf(w, 2), ByteOf(w, 1), ByteOf(w, 0);
    b[at] := b0;
    b[at + 1] := b1;
    b[at + 2] := b2;
    b[at + 3] := b3;
    SwapBytes(w);
    SplitJoin(Swap(w));
  }

  // ----- key schedule

  /** The five-box sums of `cast5_init_M` on the stored, byte-reversed boxes. */
  function Stored5(s: Boxes, a: bv8, b: bv8, c: bv8, d: bv8, e: bv32): bv32 {
    Xor5(Swap(s.s5(a)), Swap(s.s6(b)), Swap(s.s7(c)), Swap(s.s8(d)), Swap(e))
  }

  lemma Stored5Is(s: Boxes, a: bv8, b: bv8, c: bv8, d: bv8, e: bv32)
    ensures Stored5(s, a, b, c, d, e) == Swap(Sum5(s, a, b, c, d, e))
  {
    hide Swap, Xor5;
    SwapXor5(s.s5(a), s.s6(b), s.s7(c), s.s8(d), e);
  }

  /** The sums of `cast5_init_A`, which also take a word of the source. */
  function Mixed5(s: Boxes, w: bv32, a: bv8, b: bv8, c: bv8, d: bv8, e: bv32): bv32 {
    Xor6(w, Swap(s.s5(a)), Swap(s.s6(b)), Swap(s.s7(c)), Swap(s.s8(d)), Swap(e))
  }

  lemma Mixed5Is(s: Boxes, w: bv32, a: bv8, b: bv8, c: bv8, d: bv8, e: bv32)
    ensures Mixed5(s, Swap(w), a, b, c, d, e) == Swap(Mix(s, w, a, b, c, d, e))
  {
    hide Swap, Xor6;
    SwapXor6(w, s.s5(a), s.s6(b), s.s7(c), s.s8(d), e);
  }

  /** `k ^ mask` for the two modes of `cast5_init_A`. */
  function Turn(k: nat, bmode: bool): (r: nat)
    requires k < 16
    ensures r < 16 && (k % 4 == 0 ==> r % 4 == 0)
  {
    if !bmode then k else if k < 8 then k + 8 else k - 8
  }

  /** One assignment of `cast5_init_A`. */
  method PutMixed(s: Boxes, dest: array<bv8>, at: nat, word: bv32, a: bv8, b: bv8, c: bv8, d: bv8, e: bv32)
    requires at + 4 <= dest.Length
    modifies dest
    ensures Word(dest[..], at) == Mix(s, Swap(word), a, b, c, d, e)
    ensures forall k :: 0 <= k < dest.Length && !(at <= k < at + 4) ==> dest[k] == old(dest[k])
  {
    hide Word, Swap, Mixed5, Mix;
    SwapTwice(word);
    Mixed5Is(s, Swap(word), a, b, c, d, e);
    SwapTwice(Mix(s, Swap(word), a, b, c, d, e));
    Store(dest, at, Mixed5(s, word, a, b, c, d, e));
  }

  /** `cast5_init_A`: z from x, or x from z in B mode. */
  method InitA(s: Boxes, dest: array<bv8>, src: array<bv8>, bmode: bool)
    requires dest.Length == 16 && src.Length == 16 && dest != src
    modifies dest
    ensures dest[..] == if bmode then NextX(s, src[..]) else NextZ(s, src[..])
  {
    hide Swap, Mix, Load, Join, NextX, NextZ;
    ghost var was := src[..];
    PutMixed(s, dest, 0x0, Load(src[..], Turn(0x0, bmode)), src[Turn(0xD, bmode)], src[Turn(0xF, bmode)],
             src[Turn(0xC, bmode)], src[Turn(0xE, bmode)], s.s7(src[Turn(0x8, bmode)]));
    LoadIsSwap(was, Turn(0x0, bmode));
    SwapTwice(Word(was, Turn(0x0, bmode)));
    PutMixed(s, dest, 0x4, Load(src[..], Turn(0x8, bmode)), dest[0x0], dest[0x2], dest[0x1], dest[0x3],
             s.s8(src[Turn(0xA, bmode)]));
    LoadIsSwap(was, Turn(0x8, bmode));
    SwapTwice(Word(was, Turn(0x8, bmode)));
    PutMixed(s, dest, 0x8, Load(src[..], Turn(0xC, bmode)), dest[0x7], dest[0x6], dest[0x5], dest[0x4],
             s.s5(src[Turn(0x9, bmode)]));
    LoadIsSwap(was, Turn(0xC, bmode));
    SwapTwice(Word(was, Turn(0xC, bmode)));
    PutMixed(s, dest, 0xC, Load(src[..], Turn(0x4, bmode)), dest[0xA], dest[0x9], dest[0xB], dest[0x8],
             s.s6(src[Turn(0xB, bmode)]));
    LoadIsSwap(was, Turn(0x4, bmode));
    SwapTwice(Word(was, Turn(0x4, bmode)));
    StepsAreNext(s, was, dest[..]);
  }

  const NMODE: seq<nat> := [0xB, 0xA, 0x9, 0x8, 0xF, 0xE, 0xD, 0xC, 0x3, 0x2, 0x1, 0x0, 0x7, 0x6, 0x5, 0x4]

  /** NMT */
  function Nmt(b: seq<bv8>, nmode: bool, x: nat): bv8
    requires |b| == 16 && x < 16
  {
    if nmode then b[NMODE[x]] else b[x]
  }

  /** XMT */
  function Xmt(b: seq<bv8>, nmode: bool, xmode: bool, x: nat): bv8
    requires |b| == 16 && x < 4
  {
    if !xmode then if !nmode then b[[0x2, 0x6, 0x9, 0xC][x]] else b[[0x8, 0xD, 0x3, 0x7][x]]
    else if !nmode then b[[0x3, 0x7, 0x8, 0xD][x]] else b[[0x9, 0xC, 0x2, 0x6][x]]
  }

  /** Which of the four kinds of row the modes stand for. */
  function Kind(nmode: bool, xmode: bool): nat {
    if !xmode then if !nmode then 0 else 1 else if !nmode then 3 else 2
  }

  /** The j-th sum of `cast5_init_M` through its index tables, on the plain boxes. */
  function TableWord(s: Boxes, b: seq<bv8>, nmode: bool, xmode: bool, j: nat): bv32
    requires |b| == 16 && j < 4
  {
    match j
    case 0 => Sum5(s, Nmt(b, nmode, 0x8), Nmt(b, nmode, 0x9), Nmt(b, nmode, 0x7), Nmt(b, nmode, 0x6),
                   s.s5(Xmt(b, nmode, xmode, 0)))
    case 1 => Sum5(s, Nmt(b, nmode, 0xA), Nmt(b, nmode, 0xB), Nmt(b, nmode, 0x5), Nmt(b, nmode, 0x4),
                   s.s6(Xmt(b, nmode, xmode, 1)))
    case 2 => Sum5(s, Nmt(b, nmode, 0xC), Nmt(b, nmode, 0xD), Nmt(b, nmode, 0x3), Nmt(b, nmode, 0x2),
                   s.s7(Xmt(b, nmode, xmode, 2)))
    case _ => Sum5(s, Nmt(b, nmode, 0xE), Nmt(b, nmode, 0xF), Nmt(b, nmode, 0x1), Nmt(b, nmode, 0x0),
                   s.s8(Xmt(b, nmode, xmode, 3)))
  }

  /** The index tables produce the sixteen equations of the RFC. */
  lemma TablesAreEquations(s: Boxes, b: seq<bv8>, nmode: bool, xmode: bool, j: nat)
    requires |b| == 16 && j < 4
    ensures TableWord(s, b, nmode, xmode, j) == KeyWord(s, Kind(nmode, xmode), b, j)
  {
    hide Sum5;
  }

  /** `cast5_init_M` */
  method InitM(s: Boxes, dest: array<bv32>, at: nat, src: array<bv8>, nmode: bool, xmode: bool)
    requires at + 4 <= dest.Length && src.Length == 16
    modifies dest
    ensures forall j :: 0 <= j < 4 ==> dest[at + j] == Swap(KeyWord(s, Kind(nmode, xmode), src[..], j))
    ensures forall k :: 0 <= k < dest.Length && !(at <= k < at + 4) ==> dest[k] == old(dest[k])
  {
    hide Swap, Stored5, Sum5, KeyWord, Kind, Nmt, Xmt;
    var b := src[..];
    dest[at] := Stored5(s, Nmt(b, nmode, 0x8), Nmt(b, nmode, 0x9), Nmt(b, nmode, 0x7), Nmt(b, nmode, 0x6),
                        s.s5(Xmt(b, nmode, xmode, 0)));
    dest[at + 1] := Stored5(s, Nmt(b, nmode, 0xA), Nmt(b, nmode, 0xB), Nmt(b, nmode, 0x5), Nmt(b, nmode, 0x4),
                            s.s6(Xmt(b, nmode, xmode, 1)));
    dest[at + 2] := Stored5(s, Nmt(b, nmode, 0xC), Nmt(b, nmode, 0xD), Nmt(b, nmode, 0x3), Nmt(b, nmode, 0x2),
                            s.s7(Xmt(b, nmode, xmode, 2)));
    dest[at + 3] := Stored5(s, Nmt(b, nmode, 0xE), Nmt(b, nmode, 0xF), Nmt(b, nmode, 0x1), Nmt(b, nmode, 0x0),
                            s.s8(Xmt(b, nmode, xmode, 3)));
    forall j | 0 <= j < 4
      ensures dest[at + j] == Swap(KeyWord(s, Kind(nmode, xmode), b, j))
    {
      TablesAreEquations(s, b, nmode, xmode, j);
      Stored5Is(s, Nmt(b, nmode, 0x8), Nmt(b, nmode, 0x9), Nmt(b, nmode, 0x7), Nmt(b, nmode, 0x6),
                s.s5(Xmt(b, nmode, xmode, 0)));
      Stored5Is(s, Nmt(b, nmode, 0xA), Nmt(b, nmode, 0xB), Nmt(b, nmode, 0x5), Nmt(b, nmode, 0x4),
                s.s6(Xmt(b, nmode, xmode, 1)));
      Stored5Is(s, Nmt(b, nmode, 0xC), Nmt(b, nmode, 0xD), Nmt(b, nmode, 0x3), Nmt(b, nmode, 0x2),
                s.s7(Xmt(b, nmode, xmode, 2)));
      Stored5Is(s, Nmt(b, nmode, 0xE), Nmt(b, nmode, 0xF), Nmt(b, nmode, 0x1), Nmt(b, nmode, 0x0),
                s.s8(Xmt(b, nmode, xmode, 3)));
    }
  }

  // ----- packed rotation keys

  /** `1 << n` */
  function Bit(n: nat): bv8
    requires n < 8
  {
    match n
    case 0 => 0x01
    case 1 => 0x02
    case 2 => 0x04
    case 3 => 0x08
    case 4 => 0x10
    case 5 => 0x20
    case 6 => 0x40
    case _ => 0x80
  }

  /** How `cast5_enc` puts a rotation together from a byte of `roth` and a byte of `rotl`. */
  function Unpacked(high: bv8, bit: bv8, low: bv8, odd: bool): bv8 {
    (if high & bit != 0 then 0x10 else 0x00) + ((if odd then low >> 4 else low) & 0x0F)
  }

  lemma UnpackedBound(high: bv8, bit: bv8, low: bv8, odd: bool)
    ensures Unpacked(high, bit, low, odd) < 32
  {
  }

  function Rotation(rotl: seq<bv8>, roth: seq<bv8>, i: nat): bv8
    requires |rotl| == 8 && |roth| == 2 && i < 16
  {
    Unpacked(roth[i / 8], Bit(i % 8), rotl[i / 2], i % 2 == 1)
  }

  /** `b |= t & 0x0f` */
  function LowIn(b: bv8, t: bv8): bv8 { b | (t & 0x0F) }

  /** `b |= (t << 4) & 0xf0` */
  function HighIn(b: bv8, t: bv8): bv8 { b | ((t << 4) & 0xF0) }

  /** `h |= t & 0x10; h >>= 1` */
  function Carry(h: bv8, t: bv8): bv8 { (h | (t & 0x10)) >> 1 }

  function PackLow(b: bv8, even: bv8, odd: bv8): bv8 { HighIn(LowIn(b, even), odd) }

  function PackHigh(t0: bv8, t1: bv8, t2: bv8, t3: bv8): bv8 {
    Carry(Carry(Carry(Carry(0, t0), t1), t2), t3)
  }

  /** `khi[offset >> 1] |= h << ((offset & 1) ? 4 : 0)` */
  function WithHigh(b: bv8, h: bv8, odd: bool): bv8 {
    b | (if odd then h << 4 else h)
  }

  lemma NibblesBack(even: bv8, odd: bv8)
    ensures PackLow(0, even, odd) & 0x0F == even & 0x0F && (PackLow(0, even, odd) >> 4) & 0x0F == odd & 0x0F
  {
  }

  lemma HighBits(t0: bv8, t1: bv8, t2: bv8, t3: bv8)
    ensures var h := PackHigh(t0, t1, t2, t3);
            && (h & 0x01 != 0 <==> t0 & 0x10 != 0) && (h & 0x02 != 0 <==> t1 & 0x10 != 0)
            && (h & 0x04 != 0 <==> t2 & 0x10 != 0) && (h & 0x08 != 0 <==> t3 & 0x10 != 0) && h & 0xF0 == 0
  {
  }

  lemma HighEven(h: bv8)
    requires h & 0xF0 == 0
    ensures WithHigh(0, h, false) == h
  {
  }

  lemma HighOdd(high: bv8, h: bv8)
    requires high & 0xF0 == 0 && h & 0xF0 == 0
    ensures var now := WithHigh(high, h, true);
            && now & 0x0F == high & 0x0F
            && (now & 0x10 != 0 <==> h & 0x01 != 0) && (now & 0x20 != 0 <==> h & 0x02 != 0)
            && (now & 0x40 != 0 <==> h & 0x04 != 0) && (now & 0x80 != 0 <==> h & 0x08 != 0)
  {
  }

  lemma UnpackedIs(high: bv8, bit: bv8, low: bv8, odd: bool, t: bv8)
    requires high & bit != 0 <==> t & 0x10 != 0
    requires (if odd then low >> 4 else low) & 0x0F == t & 0x0F
    ensures Unpacked(high, bit, low, odd) == Five(t)
  {
  }

  /** Unpacking gives back the low five bits of all four values, and an odd offset leaves the even one's bits. */
  lemma PackingRoundTrip(high: bv8, odd: bool, t0: bv8, t1: bv8, t2: bv8, t3: bv8)
    requires if odd then high & 0xF0 == 0 else high == 0
    ensures var now := WithHigh(high, PackHigh(t0, t1, t2, t3), odd);
            && Unpacked(now, if odd then 0x10 else 0x01, PackLow(0, t0, t1), false) == Five(t0)
            && Unpacked(now, if odd then 0x20 else 0x02, PackLow(0, t0, t1), true) == Five(t1)
            && Unpacked(now, if odd then 0x40 else 0x04, PackLow(0, t2, t3), false) == Five(t2)
            && Unpacked(now, if odd then 0x80 else 0x08, PackLow(0, t2, t3), true) == Five(t3)
            && (odd ==> now & 0x0F == high & 0x0F)
            && (!odd ==> now & 0xF0 == 0)
  {
    hide PackLow, PackHigh, WithHigh, Unpacked, Five;
    var h := PackHigh(t0, t1, t2, t3);
    var now := WithHigh(high, h, odd);
    NibblesBack(t0, t1);
    NibblesBack(t2, t3);
    HighBits(t0, t1, t2, t3);
    if odd {
      HighOdd(high, h);
    } else {
      HighEven(h);
    }
    UnpackedIs(now, if odd then 0x10 else 0x01, PackLow(0, t0, t1), false, t0);
    UnpackedIs(now, if odd then 0x20 else 0x02, PackLow(0, t0, t1), true, t1);
    UnpackedIs(now, if odd then 0x40 else 0x04, PackLow(0, t2, t3), false, t2);
    UnpackedIs(now, if odd then 0x80 else 0x08, PackLow(0, t2, t3), true, t3);
  }

  lemma SameBit(now: bv8, high: bv8, bit: bv8, low: bv8, odd: bool)
    requires now & 0x0F == high & 0x0F && (bit == 0x01 || bit == 0x02 || bit == 0x04 || bit == 0x08)
    ensures Unpacked(now, bit, low, odd) == Unpacked(high, bit, low, odd)
  {
    assert now & bit == (now & 0x0F) & bit && high & bit == (high & 0x0F) & bit;
  }

  /** Nothing is packed yet at or above this offset. */
  predicate EmptyFrom(rotl: seq<bv8>, roth: seq<bv8>, offset: nat)
    requires |rotl| == 8 && |roth| == 2
  {
    (forall j :: 2 * offset <= j < 8 ==> rotl[j] == 0) &&
    (forall j :: 0 <= j < 2 && offset <= 2 * j ==> roth[j] == 0) &&
    (offset % 2 == 1 && offset < 4 ==> roth[offset / 2] & 0xF0 == 0)
  }

  /** One packing step on the byte sequences. */
  predicate Packs(rotl: seq<bv8>, roth: seq<bv8>, offset: nat, t: seq<bv8>, rotl': seq<bv8>, roth': seq<bv8>)
    requires |rotl| == 8 && |roth| == 2 && offset < 4 && |t| == 4
  {
    rotl' == rotl[2 * offset := PackLow(rotl[2 * offset], t[0], t[1])]
                 [2 * offset + 1 := PackLow(rotl[2 * offset + 1], t[2], t[3])] &&
    roth' == roth[offset / 2 := WithHigh(roth[offset / 2], PackHigh(t[0], t[1], t[2], t[3]), offset % 2 == 1)]
  }

  lemma PackingSets(rotl: seq<bv8>, roth: seq<bv8>, offset: nat, t: seq<bv8>, rotl': seq<bv8>, roth': seq<bv8>, k: nat)
    requires |rotl| == 8 && |roth| == 2 && offset < 4 && |t| == 4 && k < 4
    requires EmptyFrom(rotl, roth, offset) && Packs(rotl, roth, offset, t, rotl', roth')
    ensures Rotation(rotl', roth', 4 * offset + k) == Five(t[k])
  {
    hide PackLow, PackHigh, WithHigh, Unpacked, Five;
    var odd := offset % 2 == 1;
    var high := roth[offset / 2];
    PackingRoundTrip(high, odd, t[0], t[1], t[2], t[3]);
    var i := 4 * offset + k;
    var now := roth'[offset / 2];
    assert now == WithHigh(high, PackHigh(t[0], t[1], t[2], t[3]), odd);
    assert rotl'[2 * offset] == PackLow(0, t[0], t[1]) && rotl'[2 * offset + 1] == PackLow(0, t[2], t[3]);
    assert i / 8 == offset / 2 && i / 2 == 2 * offset + k / 2 && i % 2 == k % 2;
    var bit := Bit(i % 8);
    assert i % 8 == (if odd then 4 else 0) + k;
    match k
    case 0 => assert bit == if odd then 0x10 else 0x01;
    case 1 => assert bit == if odd then 0x20 else 0x02;
    case 2 => assert bit == if odd then 0x40 else 0x04;
    case _ => assert bit == if odd then 0x80 else 0x08;
  }

  lemma PackingKeeps(rotl: seq<bv8>, roth: seq<bv8>, offset: nat, t: seq<bv8>, rotl': seq<bv8>, roth': seq<bv8>, i: nat)
    requires |rotl| == 8 && |roth| == 2 && offset < 4 && |t| == 4 && i < 4 * offset
    requires EmptyFrom(rotl, roth, offset) && Packs(rotl, roth, offset, t, rotl', roth')
    ensures Rotation(rotl', roth', i) == Rotation(rotl, roth, i)
  {
    hide PackLow, PackHigh, WithHigh, Unpacked;
    assert rotl'[i / 2] == rotl[i / 2];
    if i / 8 == offset / 2 {
      var high := roth[offset / 2];
      PackingRoundTrip(high, true, t[0], t[1], t[2], t[3]);
      assert offset % 2 == 1 && i % 8 < 4;
      SameBit(roth'[offset / 2], high, Bit(i % 8), rotl[i / 2], i % 2 == 1);
    }
  }

  lemma PackingLeavesRest(rotl: seq<bv8>, roth: seq<bv8>, offset: nat, t: seq<bv8>, rotl': seq<bv8>, roth': seq<bv8>)
    requires |rotl| == 8 && |roth| == 2 && offset < 4 && |t| == 4
    requires EmptyFrom(rotl, roth, offset) && Packs(rotl, roth, offset, t, rotl', roth')
    ensures EmptyFrom(rotl', roth', offset + 1)
  {
    hide PackLow, PackHigh, WithHigh, Unpacked;
    if offset % 2 == 0 {
      PackingRoundTrip(roth[offset / 2], false, t[0], t[1], t[2], t[3]);
    }
  }

  /** Packing four values at one offset sets those four rotations and keeps the earlier ones. */
  lemma PackingAt(rotl: seq<bv8>, roth: seq<bv8>, offset: nat, t: seq<bv8>, rotl': seq<bv8>, roth': seq<bv8>)
    requires |rotl| == 8 && |roth| == 2 && offset < 4 && |t| == 4
    requires EmptyFrom(rotl, roth, offset) && Packs(rotl, roth, offset, t, rotl', roth')
    ensures |rotl'| == 8 && |roth'| == 2
    ensures forall k :: 0 <= k < 4 ==> Rotation(rotl', roth', 4 * offset + k) == Five(t[k])
    ensures forall i :: 0 <= i < 4 * offset ==> Rotation(rotl', roth', i) == Rotation(rotl, roth, i)
    ensures EmptyFrom(rotl', roth', offset + 1)
  {
    hide Rotation, EmptyFrom, PackLow, PackHigh, WithHigh, Five;
    PackingLeavesRest(rotl, roth, offset, t, rotl', roth');
    forall k | 0 <= k < 4
      ensures Rotation(rotl', roth', 4 * offset + k) == Five(t[k])
    {
      PackingSets(rotl, roth, offset, t, rotl', roth', k);
    }
    forall i | 0 <= i < 4 * offset
      ensures Rotation(rotl', roth', i) == Rotation(rotl, roth, i)
    {
      PackingKeeps(rotl, roth, offset, t, rotl', roth', i);
    }
  }

  function XorBytes(a: bv8, b: bv8, c: bv8, d: bv8, e: bv8): bv8 { a ^ b ^ c ^ d ^ e }

  lemma ByteXor5(a: bv32, b: bv32, c: bv32, d: bv32, e: bv32)
    ensures XorBytes(ByteOf(a, 3), ByteOf(b, 3), ByteOf(c, 3), ByteOf(d, 3), ByteOf(e, 3)) ==
            ByteOf(Xor5(a, b, c, d, e), 3)
  {
  }

  /** The bytewise sums of `cast5_init_rM`: the last byte in memory of each stored box entry. */
  function TopByte5(s: Boxes, a: bv8, b: bv8, c: bv8, d: bv8, e: bv32): bv8 {
    XorBytes(ByteOf(Swap(s.s5(a)), 0), ByteOf(Swap(s.s6(b)), 0), ByteOf(Swap(s.s7(c)), 0), ByteOf(Swap(s.s8(d)), 0),
             ByteOf(Swap(e), 0))
  }

  /** They are the low bytes of the words that `cast5_init_M` would make. */
  lemma TopByte5Is(s: Boxes, a: bv8, b: bv8, c: bv8, d: bv8, e: bv32)
    ensures TopByte5(s, a, b, c, d, e) == ByteOf(Sum5(s, a, b, c, d, e), 3)
    ensures TopByte5(s, a, b, c, d, e) == ByteOf(Swap(Stored5(s, a, b, c, d, e)), 3)
  {
    hide Swap, Xor5, XorBytes, ByteOf;
    SwapBytes(s.s5(a));
    SwapBytes(s.s6(b));
    SwapBytes(s.s7(c));
    SwapBytes(s.s8(d));
    SwapBytes(e);
    ByteXor5(s.s5(a), s.s6(b), s.s7(c), s.s8(d), e);
    Stored5Is(s, a, b, c, d, e);
    SwapTwice(Sum5(s, a, b, c, d, e));
  }

  /** The four byte sums of `cast5_init_rM`. */
  method ShortSums(s: Boxes, b: seq<bv8>, nmode: bool, xmode: bool) returns (t0: bv8, t1: bv8, t2: bv8, t3: bv8)
    requires |b| == 16
    ensures t0 == ByteOf(KeyWord(s, Kind(nmode, xmode), b, 0), 3) &&
            t1 == ByteOf(KeyWord(s, Kind(nmode, xmode), b, 1), 3)
    ensures t2 == ByteOf(KeyWord(s, Kind(nmode, xmode), b, 2), 3) &&
            t3 == ByteOf(KeyWord(s, Kind(nmode, xmode), b, 3), 3)
  {
    hide TopByte5, Sum5, KeyWord, Kind, Nmt, Xmt, ByteOf;
    t0 := TopByte5(s, Nmt(b, nmode, 0x8), Nmt(b, nmode, 0x9), Nmt(b, nmode, 0x7), Nmt(b, nmode, 0x6),
                   s.s5(Xmt(b, nmode, xmode, 0)));
    t1 := TopByte5(s, Nmt(b, nmode, 0xA), Nmt(b, nmode, 0xB), Nmt(b, nmode, 0x5), Nmt(b, nmode, 0x4),
                   s.s6(Xmt(b, nmode, xmode, 1)));
    t2 := TopByte5(s, Nmt(b, nmode, 0xC), Nmt(b, nmode, 0xD), Nmt(b, nmode, 0x3), Nmt(b, nmode, 0x2),
                   s.s7(Xmt(b, nmode, xmode, 2)));
    t3 := TopByte5(s, Nmt(b, nmode, 0xE), Nmt(b, nmode, 0xF), Nmt(b, nmode, 0x1), Nmt(b, nmode, 0x0),
                   s.s8(Xmt(b, nmode, xmode, 3)));
    TopByte5Is(s, Nmt(b, nmode, 0x8), Nmt(b, nmode, 0x9), Nmt(b, nmode, 0x7), Nmt(b, nmode, 0x6),
               s.s5(Xmt(b, nmode, xmode, 0)));
    TopByte5Is(s, Nmt(b, nmode, 0xA), Nmt(b, nmode, 0xB), Nmt(b, nmode, 0x5), Nmt(b, nmode, 0x4),
               s.s6(Xmt(b, nmode, xmode, 1)));
    TopByte5Is(s, Nmt(b, nmode, 0xC), Nmt(b, nmode, 0xD), Nmt(b, nmode, 0x3), Nmt(b, nmode, 0x2),
               s.s7(Xmt(b, nmode, xmode, 2)));
    TopByte5Is(s, Nmt(b, nmode, 0xE), Nmt(b, nmode, 0xF), Nmt(b, nmode, 0x1), Nmt(b, nmode, 0x0),
               s.s8(Xmt(b, nmode, xmode, 3)));
    TablesAreEquations(s, b, nmode, xmode, 0);
    TablesAreEquations(s, b, nmode, xmode, 1);
    TablesAreEquations(s, b, nmode, xmode, 2);
    TablesAreEquations(s, b, nmode, xmode, 3);
  }

  method PutPacked(klo: array<bv8>, khi: array<bv8>, offset: nat, t0: bv8, t1: bv8, t2: bv8, t3: bv8)
    requires klo.Length == 8 && khi.Length == 2 && klo != khi && offset < 4
    modifies klo, khi
    ensures Packs(old(klo[..]), old(khi[..]), offset, [t0, t1, t2, t3], klo[..], khi[..])
  {
    hide LowIn, HighIn, Carry, WithHigh;
    klo[offset * 2] := LowIn(klo[offset * 2], t0);
    var h := Carry(0, t0);
    klo[offset * 2] := HighIn(klo[offset * 2], t1);
    h := Carry(h, t1);
    klo[offset * 2 + 1] := LowIn(klo[offset * 2 + 1], t2);
    h := Carry(h, t2);
    klo[offset * 2 + 1] := HighIn(klo[offset * 2 + 1], t3);
    h := Carry(h, t3);
    khi[offset / 2] := WithHigh(khi[offset / 2], h, offset % 2 == 1);
    ghost var lo, hi := old(klo[..]), old(khi[..]);
    assert klo[..] == lo[2 * offset := PackLow(lo[2 * offset], t0, t1)]
                        [2 * offset + 1 := PackLow(lo[2 * offset + 1], t2, t3)];
    assert khi[..] == hi[offset / 2 := WithHigh(hi[offset / 2], PackHigh(t0, t1, t2, t3), offset % 2 == 1)];
  }

  /** `cast5_init_rM`: the four rotations are the low five bits of the words `cast5_init_M` makes
      from the same row and modes. */
  method InitRM(s: Boxes, klo: array<bv8>, khi: array<bv8>, offset: nat, src: array<bv8>, nmode: bool, xmode: bool)
    requires klo.Length == 8 && khi.Length == 2 && src.Length == 16 && klo != khi && offset < 4
    requires EmptyFrom(klo[..], khi[..], offset)
    modifies klo, khi
    ensures forall k :: 0 <= k < 4 ==>
              Rotation(klo[..], khi[..], 4 * offset + k) == LowFive(KeyWord(s, Kind(nmode, xmode), old(src[..]), k))
    ensures forall i :: 0 <= i < 4 * offset ==>
              Rotation(klo[..], khi[..], i) == Rotation(old(klo[..]), old(khi[..]), i)
    ensures EmptyFrom(klo[..], khi[..], offset + 1)
  {
    hide KeyWord, Kind, ByteOf, Rotation, EmptyFrom, Packs, Five;
    ghost var lo, hi, row := klo[..], khi[..], src[..];
    var t0, t1, t2, t3 := ShortSums(s, src[..], nmode, xmode);
    PutPacked(klo, khi, offset, t0, t1, t2, t3);
    ghost var t := [t0, t1, t2, t3];
    PackingAt(lo, hi, offset, t, klo[..], khi[..]);
    forall k | 0 <= k < 4
      ensures Rotation(klo[..], khi[..], 4 * offset + k) == LowFive(KeyWord(s, Kind(nmode, xmode), row, k))
    {
      assert Rotation(klo[..], khi[..], 4 * offset + k) == Five(t[k]);
      assert k == 0 || k == 1 || k == 2 || k == 3;
    }
  }

  // ----- the context

  /** Bytes of the key that are copied. */
  function KeyBytes(bits: nat): (n: nat)
    ensures n <= 16
  {
    if bits > 128 then 16 else (bits + 7) / 8
  }

  /** The key filled up with zero bytes to 128 bits, section 2.5 of the RFC. */
  function PaddedKey(key: seq<bv8>, bits: nat): (k: seq<bv8>)
    requires KeyBytes(bits) <= |key|
    ensures |k| == 16
  {
    key[..KeyBytes(bits)] + seq(16 - KeyBytes(bits), _ => 0 as bv8)
  }

  lemma RowWords(s: Boxes, key: seq<bv8>, at: nat, j: nat)
    requires |key| == 16 && at % 4 == 0 && at < 32 && j < 4
    ensures Subkey(s, key, at + j) == KeyWord(s, at / 4 % 4, Row(s, key, at / 4 + 1), j)
  {
    hide KeyWord, Row;
    assert (at + j) / 4 == at / 4 && (at + j) % 4 == j;
  }

  lemma RowStep(s: Boxes, key: seq<bv8>, n: nat)
    requires |key| == 16
    ensures Row(s, key, 0) == key
    ensures n % 2 == 0 ==> Row(s, key, n + 1) == NextZ(s, Row(s, key, n))
    ensures n % 2 == 1 ==> Row(s, key, n + 1) == NextX(s, Row(s, key, n))
  {
    hide NextZ, NextX;
  }

  /** The stored masking keys agree with the schedule up to n. */
  ghost predicate MasksMade(s: Boxes, key: seq<bv8>, mask: seq<bv32>, n: nat)
    requires |key| == 16 && |mask| == 16 && n <= 16
  {
    forall i :: 0 <= i < n ==> mask[i] == Swap(Subkey(s, key, i))
  }

  ghost predicate RotationsMade(s: Boxes, key: seq<bv8>, rotl: seq<bv8>, roth: seq<bv8>, n: nat)
    requires |key| == 16 && |rotl| == 8 && |roth| == 2 && n <= 16
  {
    forall i :: 0 <= i < n ==> Rotation(rotl, roth, i) == LowFive(Subkey(s, key, i + 16))
  }

  /** One pair of calls in `cast5_init`: step the row, then take four masking keys from it. */
  method MaskRow(s: Boxes, dest: array<bv8>, src: array<bv8>, mask: array<bv32>, at: nat, nmode: bool, xmode: bool,
                 ghost key: seq<bv8>)
    requires dest.Length == 16 && src.Length == 16 && dest != src && mask.Length == 16
    requires |key| == 16 && at % 4 == 0 && at < 16 && Kind(nmode, xmode) == at / 4
    requires src[..] == Row(s, key, at / 4) && MasksMade(s, key, mask[..], at)
    modifies dest, mask
    ensures dest[..] == Row(s, key, at / 4 + 1) && MasksMade(s, key, mask[..], at + 4)
  {
    hide KeyWord, Kind, Row, NextX, NextZ, Swap, Subkey;
    RowStep(s, key, at / 4);
    InitA(s, dest, src, at / 4 % 2 == 1);
    InitM(s, mask, at, dest, nmode, xmode);
    forall i | at <= i < at + 4
      ensures mask[i] == Swap(Subkey(s, key, i))
    {
      var j := i - at;
      RowWords(s, key, at, j);
      assert at / 4 % 4 == at / 4;
      assert mask[at + j] == Swap(KeyWord(s, Kind(nmode, xmode), dest[..], j));
      assert at + j == i;
    }
  }

  /** The same for four rotation keys. */
  method RotationRow(s: Boxes, dest: array<bv8>, src: array<bv8>, rotl: array<bv8>, roth: array<bv8>, offset: nat,
                     nmode: bool, xmode: bool, ghost key: seq<bv8>)
    requires dest.Length == 16 && src.Length == 16 && dest != src
    requires rotl.Length == 8 && roth.Length == 2 && rotl != roth
    requires |key| == 16 && offset < 4 && Kind(nmode, xmode) == offset
    requires src[..] == Row(s, key, offset + 4)
    requires EmptyFrom(rotl[..], roth[..], offset) && RotationsMade(s, key, rotl[..], roth[..], 4 * offset)
    modifies dest, rotl, roth
    ensures dest[..] == Row(s, key, offset + 5)
    ensures EmptyFrom(rotl[..], roth[..], offset + 1) && RotationsMade(s, key, rotl[..], roth[..], 4 * offset + 4)
  {
    hide KeyWord, Kind, Row, NextX, NextZ, Subkey, Rotation, LowFive, EmptyFrom;
    RowStep(s, key, offset + 4);
    InitA(s, dest, src, offset % 2 == 1);
    InitRM(s, rotl, roth, offset, dest, nmode, xmode);
    forall i | 4 * offset <= i < 4 * offset + 4
      ensures Rotation(rotl[..], roth[..], i) == LowFive(Subkey(s, key, i + 16))
    {
      RowWords(s, key, 4 * offset + 16, i - 4 * offset);
      assert (4 * offset + 16) / 4 == offset + 4 && (4 * offset + 16) / 4 % 4 == offset;
      assert Rotation(rotl[..], roth[..], 4 * offset + (i - 4 * offset)) == Rotation(rotl[..], roth[..], i);
    }
  }

  lemma NoneMade(s: Boxes, key: seq<bv8>, mask: seq<bv32>)
    requires |key| == 16 && |mask| == 16
    ensures MasksMade(s, key, mask, 0)
  {
  }

  lemma NonePacked(s: Boxes, key: seq<bv8>, rotl: seq<bv8>, roth: seq<bv8>)
    requires |key| == 16 && |rotl| == 8 && |roth| == 2
    requires (forall i :: 0 <= i < 8 ==> rotl[i] == 0) && roth[0] == 0 && roth[1] == 0
    ensures EmptyFrom(rotl, roth, 0) && RotationsMade(s, key, rotl, roth, 0)
  {
  }

  /** `cast5_ctx_t` */
  class Context {
    const mask: array<bv32>
    const rotl: array<bv8>
    const roth: array<bv8>
    var shortkey: bool

    ghost predicate Valid()
      reads this
    {
      mask.Length == 16 && rotl.Length == 8 && roth.Length == 2 && rotl != roth
    }

    /** Holds the schedule of this key. */
    ghost predicate Keyed(s: Boxes, key: seq<bv8>, bits: nat)
      requires KeyBytes(bits) <= |key|
      reads this, mask, rotl, roth
    {
      Valid() && shortkey == (bits <= 80) && MasksMade(s, PaddedKey(key, bits), mask[..], 16) &&
      RotationsMade(s, PaddedKey(key, bits), rotl[..], roth[..], 16)
    }

    constructor ()
      ensures Valid() && fresh(mask) && fresh(rotl) && fresh(roth)
    {
      mask := new bv32[16];
      rotl := new bv8[8];
      roth := new bv8[2];
      shortkey := false;
    }

    method MakeMasks(s: Boxes, x: array<bv8>, z: array<bv8>, ghost key: seq<bv8>)
      requires Valid() && x.Length == 16 && z.Length == 16 && x != z && |key| == 16 && x[..] == key
      modifies mask, x, z
      ensures x[..] == Row(s, key, 4) && MasksMade(s, key, mask[..], 16)
    {
      hide Row, MasksMade;
      RowStep(s, key, 0);
      NoneMade(s, key, mask[..]);
      MaskRow(s, z, x, mask, 0, false, false, key);
      MaskRow(s, x, z, mask, 4, true, false, key);
      MaskRow(s, z, x, mask, 8, true, true, key);
      MaskRow(s, x, z, mask, 12, false, true, key);
    }

    method MakeRotations(s: Boxes, x: array<bv8>, z: array<bv8>, ghost key: seq<bv8>)
      requires Valid() && x.Length == 16 && z.Length == 16 && x != z && |key| == 16 && x[..] == Row(s, key, 4)
      requires x != rotl && x != roth && z != rotl && z != roth
      modifies rotl, roth, x, z
      ensures RotationsMade(s, key, rotl[..], roth[..], 16)
    {
      hide Row, RotationsMade, EmptyFrom;
      forall i | 0 <= i < 8 {
        rotl[i] := 0;
      }
      roth[0] := 0;
      roth[1] := 0;
      NonePacked(s, key, rotl[..], roth[..]);
      RotationRow(s, z, x, rotl, roth, 0, false, false, key);
      RotationRow(s, x, z, rotl, roth, 1, true, false, key);
      RotationRow(s, z, x, rotl, roth, 2, true, true, key);
      RotationRow(s, x, z, rotl, roth, 3, false, true, key);
    }

    /** `cast5_init`: the schedule of section 2.4 for the padded key. */
    method Init(s: Boxes, key: seq<bv8>, bits: nat)
      requires Valid() && KeyBytes(bits) <= |key|
      modifies this, mask, rotl, roth
      ensures Keyed(s, key, bits)
    {
      hide Row, MasksMade, RotationsMade, EmptyFrom, Kind;
      shortkey := bits <= 80;
      var x, z := new bv8[16](_ => 0), new bv8[16];
      forall i | 0 <= i < KeyBytes(bits) {
        x[i] := key[i];
      }
      ghost var full := PaddedKey(key, bits);
      assert x[..] == full;
      MakeMasks(s, x, z, full);
      MakeRotations(s, x, z, full);
    }
  }

  // ----- encryption and decryption

  /** The round function a context stands for, whatever its contents. */
  function StoredRound(s: Boxes, mask: seq<bv32>, rotl: seq<bv8>, roth: seq<bv8>, i: nat, d: bv32): bv32
    requires |mask| == 16 && |rotl| == 8 && |roth| == 2 && i < 16
  {
    UnpackedBound(roth[i / 8], Bit(i % 8), rotl[i / 2], i % 2 == 1);
    F(s, i, d, Swap(mask[i]), Rotation(rotl, roth, i))
  }

  function StoredRounds(s: Boxes, mask: seq<bv32>, rotl: seq<bv8>, roth: seq<bv8>): Rounds
    requires |mask| == 16 && |rotl| == 8 && |roth| == 2
  {
    (i: nat, d: bv32) => if i < 16 then StoredRound(s, mask, rotl, roth, i, d) else 0
  }

  /** A block as the two halves of the RFC. */
  function Halves(block: seq<bv8>): Pair
    requires |block| == 8
  {
    Pair(Word(block, 0), Word(block, 4))
  }

  lemma HalvesDetermine(b: seq<bv8>, c: seq<bv8>)
    requires |b| == 8 && |c| == 8 && Halves(b) == Halves(c)
    ensures b == c
  {
    hide Word;
    WordsDetermine(b, c, 0);
    WordsDetermine(b, c, 4);
    assert b == b[0..4] + b[4..8] && c == c[0..4] + c[4..8];
  }

  function Reversed(p: Pair): Pair { Pair(Swap(p.l), Swap(p.r)) }

  /** The round of the loop bodies on byte-reversed halves. */
  function SwappedRound(y: bv32, l: bv32): bv32 { l ^ Swap(y) }

  lemma SwappedRoundIs(y: bv32, l: bv32)
    ensures Swap(SwappedRound(y, l)) == Xor(Swap(l), y)
  {
  }

  /** One iteration does one Feistel round. */
  lemma IterationIsRound(s: Boxes, mask: seq<bv32>, rotl: seq<bv8>, roth: seq<bv8>, i: nat, l: bv32, r: bv32, y: bv32)
    requires |mask| == 16 && |rotl| == 8 && |roth| == 2 && i < 16
    requires y == StoredRound(s, mask, rotl, roth, i, Swap(r))
    ensures Reversed(Pair(r, SwappedRound(y, l))) == Round(StoredRounds(s, mask, rotl, roth), i, Reversed(Pair(l, r)))
  {
    hide Swap, SwappedRound, StoredRound, Xor;
    SwappedRoundIs(y, l);
  }

  method LoadHalves(block: array<bv8>) returns (l: bv32, r: bv32)
    requires block.Length == 8
    ensures Reversed(Pair(l, r)) == Halves(block[..])
  {
    hide Swap, Word, Load;
    l, r := Load(block[..], 0), Load(block[..], 4);
    LoadIsSwap(block[..], 0);
    LoadIsSwap(block[..], 4);
    SwapTwice(Word(block[..], 0));
    SwapTwice(Word(block[..], 4));
  }

  method StoreHalves(block: array<bv8>, l: bv32, r: bv32)
    requires block.Length == 8
    modifies block
    ensures Halves(block[..]) == Reversed(Pair(l, r))
  {
    hide Swap, Join;
    Store(block, 0, l);
    Store(block, 4, r);
  }

  lemma SwapsReversed(l: bv32, r: bv32)
    ensures Reversed(Pair(r, l)) == Swapped(Reversed(Pair(l, r)))
  {
  }

  /** `cast5_enc` */
  method Enc(s: Boxes, block: array<bv8>, ctx: Context)
    requires ctx.Valid() && block.Length == 8 && block != ctx.rotl && block != ctx.roth
    modifies block
    ensures Halves(block[..]) == Encrypt(StoredRounds(s, ctx.mask[..], ctx.rotl[..], ctx.roth[..]),
                                         if ctx.shortkey then 12 else 16, Halves(old(block[..])))
  {
    hide Swap, Halves, StoredRound, StoredRounds, Reversed, Round, SwappedRound;
    var l, r := LoadHalves(block);
    var n := if ctx.shortkey then 12 else 16;
    ghost var mask, rotl, roth := ctx.mask[..], ctx.rotl[..], ctx.roth[..];
    ghost var g := StoredRounds(s, mask, rotl, roth);
    for i := 0 to n
      invariant Reversed(Pair(l, r)) == Forward(g, i, Halves(old(block[..])))
    {
      var y := StoredRound(s, ctx.mask[..], ctx.rotl[..], ctx.roth[..], i, Swap(r));
      IterationIsRound(s, mask, rotl, roth, i, l, r, y);
      l, r := r, SwappedRound(y, l);
    }
    SwapsReversed(l, r);
    StoreHalves(block, r, l);
  }

  /** `cast5_dec` */
  method Dec(s: Boxes, block: array<bv8>, ctx: Context)
    requires ctx.Valid() && block.Length == 8 && block != ctx.rotl && block != ctx.roth
    modifies block
    ensures Halves(block[..]) == Decrypt(StoredRounds(s, ctx.mask[..], ctx.rotl[..], ctx.roth[..]),
                                         if ctx.shortkey then 12 else 16, Halves(old(block[..])))
  {
    hide Swap, Halves, StoredRound, StoredRounds, Reversed, Round, SwappedRound;
    var l, r := LoadHalves(block);
    var n := if ctx.shortkey then 12 else 16;
    ghost var mask, rotl, roth := ctx.mask[..], ctx.rotl[..], ctx.roth[..];
    ghost var g := StoredRounds(s, mask, rotl, roth);
    var i := n - 1;
    while i >= 0
      invariant -1 <= i < n
      invariant Backward(g, i + 1, Reversed(Pair(l, r))) == Backward(g, n, Halves(old(block[..])))
    {
      var y := StoredRound(s, ctx.mask[..], ctx.rotl[..], ctx.roth[..], i, Swap(r));
      IterationIsRound(s, mask, rotl, roth, i, l, r, y);
      l, r := r, SwappedRound(y, l);
      i := i - 1;
    }
    SwapsReversed(l, r);
    StoreHalves(block, r, l);
  }

  /** For every context and block, decryption undoes encryption. */
  method EncThenDec(s: Boxes, block: array<bv8>, ctx: Context)
    requires ctx.Valid() && block.Length == 8 && block != ctx.rotl && block != ctx.roth
    modifies block
    ensures block[..] == old(block[..])
  {
    hide Halves, StoredRounds, Encrypt, Decrypt;
    Inversion(StoredRounds(s, ctx.mask[..], ctx.rotl[..], ctx.roth[..]), if ctx.shortkey then 12 else 16,
              Halves(block[..]));
    ghost var was := block[..];
    Enc(s, block, ctx);
    Dec(s, block, ctx);
    HalvesDetermine(block[..], was);
  }

  /** For every context and block, encryption undoes decryption. */
  method DecThenEnc(s: Boxes, block: array<bv8>, ctx: Context)
    requires ctx.Valid() && block.Length == 8 && block != ctx.rotl && block != ctx.roth
    modifies block
    ensures block[..] == old(block[..])
  {
    hide Halves, StoredRounds, Encrypt, Decrypt;
    Inversion(StoredRounds(s, ctx.mask[..], ctx.rotl[..], ctx.roth[..]), if ctx.shortkey then 12 else 16,
              Halves(block[..]));
    ghost var was := block[..];
    Dec(s, block, ctx);
    Enc(s, block, ctx);
    HalvesDetermine(block[..], was);
  }

  /** A keyed context performs the rounds of the RFC. */
  lemma KeyedRoundsAre(s: Boxes, key: seq<bv8>, mask: seq<bv32>, rotl: seq<bv8>, roth: seq<bv8>, i: nat, d: bv32)
    requires |key| == 16 && |mask| == 16 && |rotl| == 8 && |roth| == 2 && i < 16
    requires MasksMade(s, key, mask, 16) && RotationsMade(s, key, rotl, roth, 16)
    ensures StoredRounds(s, mask, rotl, roth)(i, d) == KeyedRounds(s, key)(i, d)
  {
    hide Swap, Subkey, Rotation, LowFive, F;
    SwapTwice(Subkey(s, key, i));
  }

  lemma KeyedRoundsAll(s: Boxes, key: seq<bv8>, mask: seq<bv32>, rotl: seq<bv8>, roth: seq<bv8>)
    requires |key| == 16 && |mask| == 16 && |rotl| == 8 && |roth| == 2
    requires MasksMade(s, key, mask, 16) && RotationsMade(s, key, rotl, roth, 16)
    ensures forall i, d :: 0 <= i < 16 ==> StoredRounds(s, mask, rotl, roth)(i, d) == KeyedRounds(s, key)(i, d)
  {
    hide MasksMade, RotationsMade, StoredRounds, KeyedRounds;
    forall i, d | 0 <= i < 16
      ensures StoredRounds(s, mask, rotl, roth)(i, d) == KeyedRounds(s, key)(i, d)
    {
      KeyedRoundsAre(s, key, mask, rotl, roth, i, d);
    }
  }

  /** Key set-up followed by encryption is CAST-128 on the zero-padded key. */
  method EncryptWithKey(s: Boxes, key: seq<bv8>, bits: nat, block: array<bv8>)
    requires KeyBytes(bits) <= |key| && block.Length == 8
    modifies block
    ensures Halves(block[..]) == Encrypt(KeyedRounds(s, PaddedKey(key, bits)), RoundCount(bits), Halves(old(block[..])))
  {
    hide Halves, StoredRounds, KeyedRounds, MasksMade, RotationsMade;
    var ctx := new Context();
    ctx.Init(s, key, bits);
    KeyedRoundsAll(s, PaddedKey(key, bits), ctx.mask[..], ctx.rotl[..], ctx.roth[..]);
    SameRounds(StoredRounds(s, ctx.mask[..], ctx.rotl[..], ctx.roth[..]), KeyedRounds(s, PaddedKey(key, bits)),
               RoundCount(bits), Halves(block[..]));
    Enc(s, block, ctx);
  }

  /** The same for decryption. */
  method DecryptWithKey(s: Boxes, key: seq<bv8>, bits: nat, block: array<bv8>)
    requires KeyBytes(bits) <= |key| && block.Length == 8
    modifies block
    ensures Halves(block[..]) == Decrypt(KeyedRounds(s, PaddedKey(key, bits)), RoundCount(bits), Halves(old(block[..])))
  {
    hide Halves, StoredRounds, KeyedRounds, MasksMade, RotationsMade;
    var ctx := new Context();
    ctx.Init(s, key, bits);
    KeyedRoundsAll(s, PaddedKey(key, bits), ctx.mask[..], ctx.rotl[..], ctx.roth[..]);
    SameRoundsBack(StoredRounds(s, ctx.mask[..], ctx.rotl[..], ctx.roth[..]), KeyedRounds(s, PaddedKey(key, bits)),
                   RoundCount(bits), Halves(block[..]));
    Dec(s, block, ctx);
  }
}
