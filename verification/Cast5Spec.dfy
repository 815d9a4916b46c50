/** CAST-128 as RFC 2144 defines it; the eight substitution boxes stay parameters. */
module Cast5Spec {
  import opened Feistel
  import opened Words

  type Box = bv8 -> bv32

  datatype Boxes = Boxes(s1: Box, s2: Box, s3: Box, s4: Box, s5: Box, s6: Box, s7: Box, s8: Box)

  /** Byte `k` of a word, most significant first. */
  function ByteOf(w: bv32, k: nat): bv8
    requires k < 4
  {
    match k
    case 0 => (w >> 24) as bv8
    case 1 => ((w >> 16) & 0xFF) as bv8
    case 2 => ((w >> 8) & 0xFF) as bv8
    case _ => (w & 0xFF) as bv8
  }

  /** Four bytes as a word, most significant first. */
  function Word(b: seq<bv8>, at: nat): bv32
    requires at + 4 <= |b|
  {
    Join(b[at], b[at + 1], b[at + 2], b[at + 3])
  }

  function Split(w: bv32): (b: seq<bv8>)
    ensures |b| == 4
  {
    [ByteOf(w, 0), ByteOf(w, 1), ByteOf(w, 2), ByteOf(w, 3)]
  }

  lemma JoinSplit(a: bv8, b: bv8, c: bv8, d: bv8)
    ensures Split(Join(a, b, c, d)) == [a, b, c, d]
  {
    var w := Join(a, b, c, d);
    assert ByteOf(w, 0) == a;
    assert ByteOf(w, 1) == b;
    assert ByteOf(w, 2) == c;
    assert ByteOf(w, 3) == d;
  }

  lemma SplitJoin(w: bv32)
    ensures Join(ByteOf(w, 0), ByteOf(w, 1), ByteOf(w, 2), ByteOf(w, 3)) == w
  {
  }

  // ----- key schedule, section 2.4

  function Xor5(a: bv32, b: bv32, c: bv32, d: bv32, e: bv32): bv32 {
    Xor(Xor(Xor(Xor(a, b), c), d), e)
  }

  function Xor6(a: bv32, b: bv32, c: bv32, d: bv32, e: bv32, f: bv32): bv32 {
    Xor(Xor5(a, b, c, d, e), f)
  }

  function Mix(s: Boxes, w: bv32, a: bv8, b: bv8, c: bv8, d: bv8, e: bv32): bv32 {
    Xor6(w, s.s5(a), s.s6(b), s.s7(c), s.s8(d), e)
  }

  /** The four equations that make z0..zF from x0..xF. */
  predicate ZStep(s: Boxes, x: seq<bv8>, z: seq<bv8>)
    requires |x| == 16 && |z| == 16
  {
    Word(z, 0x0) == Mix(s, Word(x, 0x0), x[0xD], x[0xF], x[0xC], x[0xE], s.s7(x[0x8])) &&
    Word(z, 0x4) == Mix(s, Word(x, 0x8), z[0x0], z[0x2], z[0x1], z[0x3], s.s8(x[0xA])) &&
    Word(z, 0x8) == Mix(s, Word(x, 0xC), z[0x7], z[0x6], z[0x5], z[0x4], s.s5(x[0x9])) &&
    Word(z, 0xC) == Mix(s, Word(x, 0x4), z[0xA], z[0x9], z[0xB], z[0x8], s.s6(x[0xB]))
  }

  /** The four equations that make x0..xF from z0..zF. */
  predicate XStep(s: Boxes, z: seq<bv8>, x: seq<bv8>)
    requires |x| == 16 && |z| == 16
  {
    Word(x, 0x0) == Mix(s, Word(z, 0x8), z[0x5], z[0x7], z[0x4], z[0x6], s.s7(z[0x0])) &&
    Word(x, 0x4) == Mix(s, Word(z, 0x0), x[0x0], x[0x2], x[0x1], x[0x3], s.s8(z[0x2])) &&
    Word(x, 0x8) == Mix(s, Word(z, 0x4), x[0x7], x[0x6], x[0x5], x[0x4], s.s5(z[0x1])) &&
    Word(x, 0xC) == Mix(s, Word(z, 0xC), x[0xA], x[0x9], x[0xB], x[0x8], s.s6(z[0x3]))
  }

  function Quad(a: bv32, b: bv32, c: bv32, d: bv32): (q: seq<bv8>)
    ensures |q| == 16
  {
    Split(a) + Split(b) + Split(c) + Split(d)
  }

  lemma QuadWords(a: bv32, b: bv32, c: bv32, d: bv32)
    ensures var q := Quad(a, b, c, d);
            Word(q, 0) == a && Word(q, 4) == b && Word(q, 8) == c && Word(q, 12) == d
    ensures var q := Quad(a, b, c, d);
            q[0..4] == Split(a) && q[4..8] == Split(b) && q[8..12] == Split(c) && q[12..] == Split(d)
  {
    hide Join, ByteOf;
    SplitJoin(a);
    SplitJoin(b);
    SplitJoin(c);
    SplitJoin(d);
  }

  lemma WordsDetermine(p: seq<bv8>, q: seq<bv8>, at: nat)
    requires at + 4 <= |p| && at + 4 <= |q| && Word(p, at) == Word(q, at)
    ensures p[at..at + 4] == q[at..at + 4]
  {
    hide Join, ByteOf;
    JoinSplit(p[at], p[at + 1], p[at + 2], p[at + 3]);
    JoinSplit(q[at], q[at + 1], q[at + 2], q[at + 3]);
    assert p[at..at + 4] == [p[at], p[at + 1], p[at + 2], p[at + 3]];
    assert q[at..at + 4] == [q[at], q[at + 1], q[at + 2], q[at + 3]];
  }

  function Z0(s: Boxes, x: seq<bv8>): bv32
    requires |x| == 16
  {
    Mix(s, Word(x, 0x0), x[0xD], x[0xF], x[0xC], x[0xE], s.s7(x[0x8]))
  }

  function Z1(s: Boxes, x: seq<bv8>): bv32
    requires |x| == 16
  {
    var w := Z0(s, x);
    Mix(s, Word(x, 0x8), ByteOf(w, 0), ByteOf(w, 2), ByteOf(w, 1), ByteOf(w, 3), s.s8(x[0xA]))
  }

  function Z2(s: Boxes, x: seq<bv8>): bv32
    requires |x| == 16
  {
    var w := Z1(s, x);
    Mix(s, Word(x, 0xC), ByteOf(w, 3), ByteOf(w, 2), ByteOf(w, 1), ByteOf(w, 0), s.s5(x[0x9]))
  }

  function Z3(s: Boxes, x: seq<bv8>): bv32
    requires |x| == 16
  {
    var w := Z2(s, x);
    Mix(s, Word(x, 0x4), ByteOf(w, 2), ByteOf(w, 1), ByteOf(w, 3), ByteOf(w, 0), s.s6(x[0xB]))
  }

  /** z0..zF as a function of x0..xF. */
  function NextZ(s: Boxes, x: seq<bv8>): (z: seq<bv8>)
    requires |x| == 16
    ensures |z| == 16
  {
    Quad(Z0(s, x), Z1(s, x), Z2(s, x), Z3(s, x))
  }

  /** x0..xF as a function of z0..zF: the same with the halves of the source exchanged. */
  function NextX(s: Boxes, z: seq<bv8>): (x: seq<bv8>)
    requires |z| == 16
    ensures |x| == 16
  {
    NextZ(s, z[8..] + z[..8])
  }

  /** NextZ solves the equations. */
  lemma NextZSolves(s: Boxes, x: seq<bv8>)
    requires |x| == 16
    ensures ZStep(s, x, NextZ(s, x))
  {
    hide Mix, ByteOf, Join, Word;
    var z := NextZ(s, x);
    var a, b, c, d := Z0(s, x), Z1(s, x), Z2(s, x), Z3(s, x);
    QuadWords(a, b, c, d);
    assert z[0x0] == z[0..4][0] && z[0x1] == z[0..4][1] && z[0x2] == z[0..4][2] && z[0x3] == z[0..4][3];
    assert z[0x4] == z[4..8][0] && z[0x5] == z[4..8][1] && z[0x6] == z[4..8][2] && z[0x7] == z[4..8][3];
    assert z[0x8] == z[8..12][0] && z[0x9] == z[8..12][1] && z[0xA] == z[8..12][2] && z[0xB] == z[8..12][3];
  }

  lemma SameBytes(y: seq<bv8>, z: seq<bv8>, at: nat)
    requires at + 4 <= |y| && at + 4 <= |z| && y[at..at + 4] == z[at..at + 4]
    ensures y[at] == z[at] && y[at + 1] == z[at + 1] && y[at + 2] == z[at + 2] && y[at + 3] == z[at + 3]
  {
    assert y[at..at + 4][0] == y[at] && y[at..at + 4][1] == y[at + 1] && y[at..at + 4][2] == y[at + 2] &&
           y[at..at + 4][3] == y[at + 3];
    assert z[at..at + 4][0] == z[at] && z[at..at + 4][1] == z[at + 1] && z[at..at + 4][2] == z[at + 2] &&
           z[at..at + 4][3] == z[at + 3];
  }

  /** The equations have one solution. */
  lemma ZUnique(s: Boxes, x: seq<bv8>, y: seq<bv8>, z: seq<bv8>)
    requires |x| == 16 && |y| == 16 && |z| == 16 && ZStep(s, x, y) && ZStep(s, x, z)
    ensures y == z
  {
    hide Mix, ByteOf, Join, Word;
    WordsDetermine(y, z, 0);
    SameBytes(y, z, 0);
    WordsDetermine(y, z, 4);
    SameBytes(y, z, 4);
    WordsDetermine(y, z, 8);
    SameBytes(y, z, 8);
    WordsDetermine(y, z, 12);
    assert y == y[0..4] + y[4..8] + y[8..12] + y[12..16];
    assert z == z[0..4] + z[4..8] + z[8..12] + z[12..16];
  }

  /** The x equations are the z equations with the source halves exchanged. */
  lemma XStepIsZStep(s: Boxes, z: seq<bv8>, x: seq<bv8>)
    requires |x| == 16 && |z| == 16
    ensures XStep(s, z, x) <==> ZStep(s, z[8..] + z[..8], x)
  {
    hide Mix, Join;
  }

  /** Each method row of the schedule is exactly the solution of its equations. */
  lemma StepsAreNext(s: Boxes, src: seq<bv8>, dest: seq<bv8>)
    requires |src| == 16 && |dest| == 16
    ensures ZStep(s, src, dest) <==> dest == NextZ(s, src)
    ensures XStep(s, src, dest) <==> dest == NextX(s, src)
  {
    hide ZStep, XStep, NextZ;
    NextZSolves(s, src);
    if ZStep(s, src, dest) {
      ZUnique(s, src, dest, NextZ(s, src));
    }
    var turned := src[8..] + src[..8];
    XStepIsZStep(s, src, dest);
    NextZSolves(s, turned);
    if ZStep(s, turned, dest) {
      ZUnique(s, turned, dest, NextZ(s, turned));
    }
  }

  /** Row 0 is the key; z rows and x rows alternate after it. */
  function Row(s: Boxes, key: seq<bv8>, n: nat): (row: seq<bv8>)
    requires |key| == 16
    ensures |row| == 16
  {
    if n == 0 then key
    else if n % 2 == 1 then NextZ(s, Row(s, key, n - 1))
    else NextX(s, Row(s, key, n - 1))
  }

  function Sum5(s: Boxes, a: bv8, b: bv8, c: bv8, d: bv8, e: bv32): bv32 {
    Xor5(s.s5(a), s.s6(b), s.s7(c), s.s8(d), e)
  }

  /** K1..K16, and with later rows K17..K32: four equations for each of four kinds of row. */
  function KeyWord(s: Boxes, kind: nat, b: seq<bv8>, j: nat): bv32
    requires |b| == 16 && j < 4
  {
    match (kind, j)
    case (0, 0) => Sum5(s, b[0x8], b[0x9], b[0x7], b[0x6], s.s5(b[0x2]))
    case (0, 1) => Sum5(s, b[0xA], b[0xB], b[0x5], b[0x4], s.s6(b[0x6]))
    case (0, 2) => Sum5(s, b[0xC], b[0xD], b[0x3], b[0x2], s.s7(b[0x9]))
    case (0, _) => Sum5(s, b[0xE], b[0xF], b[0x1], b[0x0], s.s8(b[0xC]))
    case (1, 0) => Sum5(s, b[0x3], b[0x2], b[0xC], b[0xD], s.s5(b[0x8]))
    case (1, 1) => Sum5(s, b[0x1], b[0x0], b[0xE], b[0xF], s.s6(b[0xD]))
    case (1, 2) => Sum5(s, b[0x7], b[0x6], b[0x8], b[0x9], s.s7(b[0x3]))
    case (1, _) => Sum5(s, b[0x5], b[0x4], b[0xA], b[0xB], s.s8(b[0x7]))
    case (2, 0) => Sum5(s, b[0x3], b[0x2], b[0xC], b[0xD], s.s5(b[0x9]))
    case (2, 1) => Sum5(s, b[0x1], b[0x0], b[0xE], b[0xF], s.s6(b[0xC]))
    case (2, 2) => Sum5(s, b[0x7], b[0x6], b[0x8], b[0x9], s.s7(b[0x2]))
    case (2, _) => Sum5(s, b[0x5], b[0x4], b[0xA], b[0xB], s.s8(b[0x6]))
    case (_, 0) => Sum5(s, b[0x8], b[0x9], b[0x7], b[0x6], s.s5(b[0x3]))
    case (_, 1) => Sum5(s, b[0xA], b[0xB], b[0x5], b[0x4], s.s6(b[0x7]))
    case (_, 2) => Sum5(s, b[0xC], b[0xD], b[0x3], b[0x2], s.s7(b[0x8]))
    case (_, _) => Sum5(s, b[0xE], b[0xF], b[0x1], b[0x0], s.s8(b[0xD]))
  }

  /** K(i + 1) of the RFC. */
  function Subkey(s: Boxes, key: seq<bv8>, i: nat): bv32
    requires |key| == 16 && i < 32
  {
    KeyWord(s, i / 4 % 4, Row(s, key, i / 4 + 1), i % 4)
  }

  function Five(b: bv8): bv8 { b & 0x1F }

  /** Rotation keys are the low five bits. */
  function LowFive(w: bv32): (r: bv8)
    ensures r < 32
  {
    Five(ByteOf(w, 3))
  }

  // ----- rounds, sections 2.2 and 2.3

  function Blend1(a: bv32, b: bv32, c: bv32, d: bv32): bv32 { Add(Sub(Xor(a, b), c), d) }

  function Blend2(a: bv32, b: bv32, c: bv32, d: bv32): bv32 { Xor(Add(Sub(a, b), c), d) }

  function Blend3(a: bv32, b: bv32, c: bv32, d: bv32): bv32 { Sub(Xor(Add(a, b), c), d) }

  function F1(s: Boxes, d: bv32, m: bv32, r: bv8): bv32
    requires r < 32
  {
    var t := Rotl(Add(d, m), r as nat);
    Blend1(s.s1(ByteOf(t, 0)), s.s2(ByteOf(t, 1)), s.s3(ByteOf(t, 2)), s.s4(ByteOf(t, 3)))
  }

  function F2(s: Boxes, d: bv32, m: bv32, r: bv8): bv32
    requires r < 32
  {
    var t := Rotl(Xor(d, m), r as nat);
    Blend2(s.s1(ByteOf(t, 0)), s.s2(ByteOf(t, 1)), s.s3(ByteOf(t, 2)), s.s4(ByteOf(t, 3)))
  }

  function F3(s: Boxes, d: bv32, m: bv32, r: bv8): bv32
    requires r < 32
  {
    var t := Rotl(Sub(m, d), r as nat);
    Blend3(s.s1(ByteOf(t, 0)), s.s2(ByteOf(t, 1)), s.s3(ByteOf(t, 2)), s.s4(ByteOf(t, 3)))
  }

  /** The three types take turns. */
  function F(s: Boxes, i: nat, d: bv32, m: bv32, r: bv8): bv32
    requires r < 32
  {
    if i % 3 == 0 then F1(s, d, m, r) else if i % 3 == 1 then F2(s, d, m, r) else F3(s, d, m, r)
  }

  function RoundOf(s: Boxes, key: seq<bv8>, i: nat, d: bv32): bv32
    requires |key| == 16 && i < 16
  {
    F(s, i, d, Subkey(s, key, i), LowFive(Subkey(s, key, i + 16)))
  }

  function KeyedRounds(s: Boxes, key: seq<bv8>): Rounds
    requires |key| == 16
  {
    (i: nat, d: bv32) => if i < 16 then RoundOf(s, key, i, d) else 0
  }

  /** Keys of up to 80 bits use 12 rounds, section 2.5. */
  function RoundCount(bits: nat): nat { if bits <= 80 then 12 else 16 }
}
