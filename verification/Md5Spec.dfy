/** MD5 as RFC 1321 defines it. The sine table of section 3.4 stays a parameter. */
module Md5Spec {
  import opened Arith
  import opened Bytes
  import opened Words

  /** The registers A, B, C, D. */
  datatype Regs = Regs(a: bv32, b: bv32, c: bv32, d: bv32)

  const INITIAL := Regs(0x67452301, 0xEFCDAB89, 0x98BADCFE, 0x10325476)

  /** The auxiliary functions F, G, H and I of section 3.4. */
  function Aux(round: nat, x: bv32, y: bv32, z: bv32): bv32 {
    match round
    case 0 => (x & y) | (!x & z)
    case 1 => (x & z) | (y & !z)
    case 2 => x ^ y ^ z
    case _ => y ^ (x | !z)
  }

  /** The message words taken in each round, section 3.4. */
  function Order(round: nat): (r: seq<nat>)
    ensures |r| == 16 && forall j :: 0 <= j < 16 ==> r[j] < 16
  {
    match round
    case 0 => [0, 1, 2, 3, 4, 5, 6, 7, 8, 9, 10, 11, 12, 13, 14, 15]
    case 1 => [1, 6, 11, 0, 5, 10, 15, 4, 9, 14, 3, 8, 13, 2, 7, 12]
    case 2 => [5, 8, 11, 14, 1, 4, 7, 10, 13, 0, 3, 6, 9, 12, 15, 2]
    case _ => [0, 7, 14, 5, 12, 3, 10, 1, 8, 15, 6, 13, 4, 11, 2, 9]
  }

  /** Each round takes every fifth, third or seventh word, counted modulo 16. */
  lemma OrderStrides(j: nat)
    requires j < 16
    ensures Order(0)[j] == j && Order(1)[j] == (1 + 5 * j) % 16
    ensures Order(2)[j] == (5 + 3 * j) % 16 && Order(3)[j] == 7 * j % 16
  {
    if j < 8 {
      assert j in {0, 1, 2, 3, 4, 5, 6, 7};
    } else {
      assert j in {8, 9, 10, 11, 12, 13, 14, 15};
    }
  }

  /** The rotations, which repeat every four steps of a round. */
  function Turns(round: nat): (r: seq<nat>)
    ensures |r| == 4 && forall j :: 0 <= j < 4 ==> 0 < r[j] < 32
  {
    match round
    case 0 => [7, 12, 17, 22]
    case 1 => [5, 9, 14, 20]
    case 2 => [4, 11, 16, 23]
    case _ => [6, 10, 15, 21]
  }

  /** Word `k` of a 64-byte block, low byte first. */
  function WordAt(block: seq<byte>, k: nat): bv32
    requires |block| == 64 && k < 16
  {
    Join(Octet(block[4 * k + 3] as nat), Octet(block[4 * k + 2] as nat), Octet(block[4 * k + 1] as nat),
         Octet(block[4 * k] as nat))
  }

  function Added(round: nat, w: bv32, x: bv32, y: bv32, z: bv32, word: bv32, sine: bv32): bv32 {
    w + Aux(round, x, y, z) + word + sine
  }

  /** `x + ((w + f(x, y, z) + X[k] + T[i]) <<< s)` */
  function Mixed(round: nat, w: bv32, x: bv32, y: bv32, z: bv32, word: bv32, sine: bv32, turn: nat): bv32
    requires turn < 32
  {
    x + Rotl(Added(round, w, x, y, z, word, sine), turn)
  }

  /** Step `i` of the 64 on its message word and sine: the register written goes A, D, C, B in turn. */
  function StepWith(r: Regs, i: nat, word: bv32, sine: bv32): Regs
    requires i < 64
  {
    var turn := Turns(i / 16)[i % 4];
    match i % 4
    case 0 => r.(a := Mixed(i / 16, r.a, r.b, r.c, r.d, word, sine, turn))
    case 1 => r.(d := Mixed(i / 16, r.d, r.a, r.b, r.c, word, sine, turn))
    case 2 => r.(c := Mixed(i / 16, r.c, r.d, r.a, r.b, word, sine, turn))
    case _ => r.(b := Mixed(i / 16, r.b, r.c, r.d, r.a, word, sine, turn))
  }

  function Step(table: seq<bv32>, block: seq<byte>, r: Regs, i: nat): Regs
    requires |table| == 64 && |block| == 64 && i < 64
  {
    StepWith(r, i, WordAt(block, Order(i / 16)[i % 16]), table[i])
  }

  function Steps(table: seq<bv32>, block: seq<byte>, r: Regs, n: nat): Regs
    requires |table| == 64 && |block| == 64 && n <= 64
  {
    if n == 0 then r else Step(table, block, Steps(table, block, r, n - 1), n - 1)
  }

  function Plus(x: bv32, y: bv32): bv32 { x + y }

  function Sum(r: Regs, s: Regs): Regs {
    Regs(Plus(r.a, s.a), Plus(r.b, s.b), Plus(r.c, s.c), Plus(r.d, s.d))
  }

  /** Processing one 16-word block. */
  function Block(table: seq<bv32>, r: Regs, block: seq<byte>): Regs
    requires |table| == 64 && |block| == 64
  {
    Sum(r, Steps(table, block, r, 64))
  }

  function Fold(table: seq<bv32>, message: seq<byte>): Regs
    requires |table| == 64 && |message| % 64 == 0
  {
    if |message| < 64 then INITIAL
    else Block(table, Fold(table, message[..|message| - 64]), message[|message| - 64..])
  }

  lemma FoldBlock(table: seq<bv32>, message: seq<byte>, block: seq<byte>)
    requires |table| == 64 && |message| % 64 == 0 && |block| == 64
    ensures Fold(table, message + block) == Block(table, Fold(table, message), block)
  {
    hide Block;
    var m := message + block;
    assert m[..|m| - 64] == message && m[|m| - 64..] == block;
  }

  function Zeros(n: nat): (r: seq<byte>)
    ensures |r| == n && forall i :: 0 <= i < n ==> r[i] == 0
  {
    if n == 0 then [] else Zeros(n - 1) + [0]
  }

  /** `width` bytes of `n`, low byte first. */
  function LittleEndian(n: nat, width: nat): (r: seq<byte>)
    ensures |r| == width
  {
    if width == 0 then [] else [(n % 256) as byte] + LittleEndian(n / 256, width - 1)
  }

  /** Sections 3.1 and 3.2 with `bits` as the length field: a one bit, zeros up to 56 modulo 64, the length. */
  function Padded(message: seq<byte>, bits: nat): (r: seq<byte>)
    ensures |r| % 64 == 0
  {
    message + [0x80] + Zeros((55 - |message|) % 64) + LittleEndian(bits, 8)
  }

  /** The message digest registers: the length field holds the low 64 bits of the length in bits. */
  function Digest(table: seq<bv32>, message: seq<byte>): Regs
    requires |table| == 64
  {
    Fold(table, Padded(message, 8 * |message| % 0x1_0000_0000_0000_0000))
  }

  function Pow256(n: nat): (p: nat)
    ensures p > 0
  {
    if n == 0 then 1 else 256 * Pow256(n - 1)
  }

  lemma WordValue(block: seq<byte>, k: nat)
    requires |block| == 64 && k < 16
    ensures WordAt(block, k) as nat == block[4 * k] as nat + 0x100 * block[4 * k + 1] as nat +
                                       0x1_0000 * block[4 * k + 2] as nat + 0x100_0000 * block[4 * k + 3] as nat
  {
    hide Octet, Join;
    OctetValue(block[4 * k] as nat);
    OctetValue(block[4 * k + 1] as nat);
    OctetValue(block[4 * k + 2] as nat);
    OctetValue(block[4 * k + 3] as nat);
    JoinValue(Octet(block[4 * k + 3] as nat), Octet(block[4 * k + 2] as nat), Octet(block[4 * k + 1] as nat),
              Octet(block[4 * k] as nat));
  }

  lemma PushDigit(b: byte, rest: nat, width: nat)
    ensures LittleEndian(b as nat + 256 * rest, width + 1) == [b] + LittleEndian(rest, width)
  {
    assert (b as nat + 256 * rest) % 256 == b as nat && (b as nat + 256 * rest) / 256 == rest;
  }

  lemma NoBytes(n: nat)
    ensures LittleEndian(n, 0) == []
  {
  }

  lemma FourDigits(b0: byte, b1: byte, b2: byte, b3: byte)
    ensures LittleEndian(b0 as nat + 0x100 * b1 as nat + 0x1_0000 * b2 as nat + 0x100_0000 * b3 as nat, 4) ==
            [b0, b1, b2, b3]
  {
    hide LittleEndian;
    PushDigit(b3, 0, 0);
    PushDigit(b2, b3 as nat, 1);
    PushDigit(b1, b2 as nat + 256 * b3 as nat, 2);
    PushDigit(b0, b1 as nat + 256 * (b2 as nat + 256 * b3 as nat), 3);
    NoBytes(0);
  }

  lemma FourBytes(block: seq<byte>, k: nat, n: nat)
    requires |block| == 64 && k < 16
    requires n == block[4 * k] as nat + 0x100 * block[4 * k + 1] as nat + 0x1_0000 * block[4 * k + 2] as nat +
                  0x100_0000 * block[4 * k + 3] as nat
    ensures LittleEndian(n, 4) == block[4 * k..4 * k + 4]
  {
    hide LittleEndian;
    FourDigits(block[4 * k], block[4 * k + 1], block[4 * k + 2], block[4 * k + 3]);
  }

  /** A message word is the number whose bytes, low byte first, are its four bytes of the block. */
  lemma WordIsLittleEndian(block: seq<byte>, k: nat)
    requires |block| == 64 && k < 16
    ensures LittleEndian(WordAt(block, k) as nat, 4) == block[4 * k..4 * k + 4]
  {
    hide WordAt, LittleEndian;
    WordValue(block, k);
    FourBytes(block, k, WordAt(block, k) as nat);
  }

  lemma QuotientOfQuotient(n: nat, p: nat)
    requires p > 0
    ensures n / 256 / p == n / (256 * p)
  {
    var q, r := n / 256 / p, n / 256 % p;
    assert 256 * p * q == 256 * (p * q) && n == 256 * (n / 256) + n % 256;
    DivModUnique(n, 256 * p, q, 256 * r + n % 256);
  }

  /** Byte `i` is digit `i` of the number in base 256. */
  lemma {:induction false} LittleEndianAt(n: nat, width: nat, i: nat)
    requires i < width
    ensures LittleEndian(n, width)[i] as nat == n / Pow256(i) % 256
  {
    if i > 0 {
      LittleEndianAt(n / 256, width - 1, i - 1);
      QuotientOfQuotient(n, Pow256(i - 1));
    }
  }

  /** LittleEndian loses nothing that fits. */
  lemma {:induction false} LittleEndianInjective(m: nat, n: nat, width: nat)
    requires m < Pow256(width) && n < Pow256(width) && LittleEndian(m, width) == LittleEndian(n, width)
    ensures m == n
  {
    if width > 0 {
      var x, y := LittleEndian(m, width), LittleEndian(n, width);
      assert x[0] == (m % 256) as byte && y[0] == (n % 256) as byte;
      assert x[1..] == LittleEndian(m / 256, width - 1) && y[1..] == LittleEndian(n / 256, width - 1);
      LittleEndianInjective(m / 256, n / 256, width - 1);
    }
  }

  lemma Pow256Of8()
    ensures Pow256(8) == 0x1_0000_0000_0000_0000
  {
    assert Pow256(4) == 0x1_0000_0000;
    assert Pow256(6) == 0x1_0000_0000_0000;
  }

  /** The length field of `md5_lastBlock` is 32 bits wide, filled up with zeros; it pads as the RFC
      does exactly when the 64-bit length fits 32 bits. */
  lemma ShortLengthField(message: seq<byte>)
    ensures Padded(message, 8 * |message| % 0x1_0000_0000) == Padded(message, 8 * |message| % 0x1_0000_0000_0000_0000)
       <==> 8 * |message| % 0x1_0000_0000_0000_0000 < 0x1_0000_0000
  {
    hide LittleEndian, Zeros;
    var bits := 8 * |message|;
    var short, long := bits % 0x1_0000_0000, bits % 0x1_0000_0000_0000_0000;
    assert short == long % 0x1_0000_0000;
    var p, q := Padded(message, short), Padded(message, long);
    var head := message + [0x80] + Zeros((55 - |message|) % 64);
    assert p == head + LittleEndian(short, 8) && q == head + LittleEndian(long, 8);
    assert p[|head|..] == LittleEndian(short, 8) && q[|head|..] == LittleEndian(long, 8);
    if p == q {
      Pow256Of8();
      LittleEndianInjective(short, long, 8);
    }
  }
}
