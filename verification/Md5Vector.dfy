/** A test vector of RFC 1321, section A.5: the digest of the lower-case alphabet. */
module Md5Vector {
  import opened Bytes
  import opened Md5Spec
  import Md5

  /** The sine table of section 3.4, round by round. */
  function Sines(round: nat): (t: seq<bv32>)
    ensures |t| == 16
  {
    match round
    case 0 =>
      [0xD76AA478, 0xE8C7B756, 0x242070DB, 0xC1BDCEEE, 0xF57C0FAF, 0x4787C62A, 0xA8304613, 0xFD469501,
       0x698098D8, 0x8B44F7AF, 0xFFFF5BB1, 0x895CD7BE, 0x6B901122, 0xFD987193, 0xA679438E, 0x49B40821]
    case 1 =>
      [0xF61E2562, 0xC040B340, 0x265E5A51, 0xE9B6C7AA, 0xD62F105D, 0x02441453, 0xD8A1E681, 0xE7D3FBC8,
       0x21E1CDE6, 0xC33707D6, 0xF4D50D87, 0x455A14ED, 0xA9E3E905, 0xFCEFA3F8, 0x676F02D9, 0x8D2A4C8A]
    case 2 =>
      [0xFFFA3942, 0x8771F681, 0x6D9D6122, 0xFDE5380C, 0xA4BEEA44, 0x4BDECFA9, 0xF6BB4B60, 0xBEBFBC70,
       0x289B7EC6, 0xEAA127FA, 0xD4EF3085, 0x04881D05, 0xD9D4D039, 0xE6DB99E5, 0x1FA27CF8, 0xC4AC5665]
    case _ =>
      [0xF4292244, 0x432AFF97, 0xAB9423A7, 0xFC93A039, 0x655B59C3, 0x8F0CCC92, 0xFFEFF47D, 0x85845DD1,
       0x6FA87E4F, 0xFE2CE6E0, 0xA3014314, 0x4E0811A1, 0xF7537E82, 0xBD3AF235, 0x2AD7D2BB, 0xEB86D391]
  }

  function SineTable(): (t: seq<bv32>)
    ensures |t| == 64
  {
    Sines(0) + Sines(1) + Sines(2) + Sines(3)
  }

  lemma SineAt(i: nat)
    requires i < 64
    ensures SineTable()[i] == Sines(i / 16)[i % 16]
  {
    hide Sines;
  }

  function Alphabet(): (m: seq<byte>)
    ensures |m| == 26
  {
    seq(26, i requires 0 <= i < 26 => (97 + i) as byte)
  }

  /** The alphabet padded to its one block. */
  function OneBlock(): (b: seq<byte>)
    ensures |b| == 64
  {
    Alphabet() + [0x80] + Zeros(29) + [208, 0, 0, 0, 0, 0, 0, 0]
  }

  lemma AlphabetPadded()
    ensures Padded(Alphabet(), 208) == OneBlock()
  {
    assert LittleEndian(208, 8) == [208, 0, 0, 0, 0, 0, 0, 0];
  }

  /** The words of the block. */
  function Word(k: nat): bv32 {
    match k
    case 0 => 0x64636261
    case 1 => 0x68676665
    case 2 => 0x6C6B6A69
    case 3 => 0x706F6E6D
    case 4 => 0x74737271
    case 5 => 0x78777675
    case 6 => 0x00807A79
    case 14 => 0x000000D0
    case _ => 0
  }

  lemma SameWord(v: bv32, w: bv32)
    requires v as nat == w as nat
    ensures v == w
  {
    assert (v as nat) as bv32 == v && (w as nat) as bv32 == w;
  }

  lemma BlockWord(k: nat, w: bv32)
    requires k < 16 && var m := OneBlock();
             w as nat == m[4 * k] as nat + 0x100 * m[4 * k + 1] as nat + 0x1_0000 * m[4 * k + 2] as nat +
                         0x100_0000 * m[4 * k + 3] as nat
    ensures WordAt(OneBlock(), k) == w
  {
    hide WordAt, OneBlock;
    WordValue(OneBlock(), k);
    SameWord(WordAt(OneBlock(), k), w);
  }

  lemma WordIs(k: nat)
    requires k < 16
    ensures WordAt(OneBlock(), k) == Word(k)
  {
    hide WordAt;
    match k
    case 0 => BlockWord(0, 0x64636261);
    case 1 => BlockWord(1, 0x68676665);
    case 2 => BlockWord(2, 0x6C6B6A69);
    case 3 => BlockWord(3, 0x706F6E6D);
    case 4 => BlockWord(4, 0x74737271);
    case 5 => BlockWord(5, 0x78777675);
    case 6 => BlockWord(6, 0x00807A79);
    case 7 => BlockWord(7, 0x00000000);
    case 8 => BlockWord(8, 0x00000000);
    case 9 => BlockWord(9, 0x00000000);
    case 10 => BlockWord(10, 0x00000000);
    case 11 => BlockWord(11, 0x00000000);
    case 12 => BlockWord(12, 0x00000000);
    case 13 => BlockWord(13, 0x00000000);
    case 14 => BlockWord(14, 0x000000D0);
    case _ => BlockWord(15, 0x00000000);
  }

  ghost predicate Reached(n: nat, r: Regs) {
    n <= 64 && Steps(SineTable(), OneBlock(), INITIAL, n) == r
  }

  /** `Mixed` in step `i`. */
  function MixedIn(i: nat, w: bv32, x: bv32, y: bv32, z: bv32): bv32
    requires i < 64
  {
    Mixed(i / 16, w, x, y, z, Word(Order(i / 16)[i % 16]), Sines(i / 16)[i % 16], Turns(i / 16)[i % 4])
  }

  lemma OneStep(i: nat, r: Regs, s: Regs)
    requires i < 64 && Reached(i, r) && s == StepWith(r, i, Word(Order(i / 16)[i % 16]), Sines(i / 16)[i % 16])
    ensures Reached(i + 1, s)
  {
    hide StepWith, WordAt, Word, SineTable, Sines, Order, OneBlock;
    SineAt(i);
    WordIs(Order(i / 16)[i % 16]);
  }

  lemma OnlyRegister(i: nat, r: Regs, word: bv32, sine: bv32)
    requires i < 64
    ensures i % 4 == 0 ==>
              StepWith(r, i, word, sine) ==
              r.(a := Mixed(i / 16, r.a, r.b, r.c, r.d, word, sine, Turns(i / 16)[0]))
    ensures i % 4 == 1 ==>
              StepWith(r, i, word, sine) ==
              r.(d := Mixed(i / 16, r.d, r.a, r.b, r.c, word, sine, Turns(i / 16)[1]))
    ensures i % 4 == 2 ==>
              StepWith(r, i, word, sine) ==
              r.(c := Mixed(i / 16, r.c, r.d, r.a, r.b, word, sine, Turns(i / 16)[2]))
    ensures i % 4 == 3 ==>
              StepWith(r, i, word, sine) ==
              r.(b := Mixed(i / 16, r.b, r.c, r.d, r.a, word, sine, Turns(i / 16)[3]))
  {
    hide Mixed, Turns;
  }

  lemma StepInto(i: nat, r: Regs, v: bv32)
    requires i < 64 && Reached(i, r)
    requires i % 4 == 0 ==> v == MixedIn(i, r.a, r.b, r.c, r.d)
    requires i % 4 == 1 ==> v == MixedIn(i, r.d, r.a, r.b, r.c)
    requires i % 4 == 2 ==> v == MixedIn(i, r.c, r.d, r.a, r.b)
    requires i % 4 == 3 ==> v == MixedIn(i, r.b, r.c, r.d, r.a)
    ensures Reached(i + 1, if i % 4 == 0 then r.(a := v) else if i % 4 == 1 then r.(d := v)
                           else if i % 4 == 2 then r.(c := v) else r.(b := v))
  {
    hide Mixed, Reached, Word, Sines, Order, Turns, StepWith;
    OnlyRegister(i, r, Word(Order(i / 16)[i % 16]), Sines(i / 16)[i % 16]);
    OneStep(i, r, StepWith(r, i, Word(Order(i / 16)[i % 16]), Sines(i / 16)[i % 16]));
  }

  /** Four steps write the registers A, D, C and B. */
  lemma FourSteps(m: nat, r: Regs, a: bv32, d: bv32, c: bv32, b: bv32)
    requires m < 16 && Reached(4 * m, r)
    requires MixedIn(4 * m, r.a, r.b, r.c, r.d) == a && MixedIn(4 * m + 1, r.d, a, r.b, r.c) == d
    requires MixedIn(4 * m + 2, r.c, d, a, r.b) == c && MixedIn(4 * m + 3, r.b, c, d, a) == b
    ensures Reached(4 * m + 4, Regs(a, b, c, d))
  {
    hide MixedIn, Reached;
    StepInto(4 * m, r, a);
    StepInto(4 * m + 1, r.(a := a), d);
    StepInto(4 * m + 2, r.(a := a, d := d), c);
    StepInto(4 * m + 3, r.(a := a, d := d, c := c), b);
  }

  // ----- the 64 steps worked out

  lemma Mixes0()
    ensures Mixed(0, 0x67452301, 0xEFCDAB89, 0x98BADCFE, 0x10325476, 0x64636261, 0xD76AA478, 7) == 0xD6D117A6
    ensures Mixed(0, 0x10325476, 0xD6D117A6, 0xEFCDAB89, 0x98BADCFE, 0x68676665, 0xE8C7B756, 12) == 0xAAB1AAAA
    ensures Mixed(0, 0x98BADCFE, 0xAAB1AAAA, 0xD6D117A6, 0xEFCDAB89, 0x6C6B6A69, 0x242070DB, 17) == 0x227D8CF1
    ensures Mixed(0, 0xEFCDAB89, 0x227D8CF1, 0xAAB1AAAA, 0xD6D117A6, 0x706F6E6D, 0xC1BDCEEE, 22) == 0x4503B812
    ensures Mixed(0, 0xD6D117A6, 0x4503B812, 0x227D8CF1, 0xAAB1AAAA, 0x74737271, 0xF57C0FAF, 7) == 0xFE15F787
    ensures Mixed(0, 0xAAB1AAAA, 0xFE15F787, 0x4503B812, 0x227D8CF1, 0x78777675, 0x4787C62A, 12) == 0xA811B278
    ensures Mixed(0, 0x227D8CF1, 0xA811B278, 0xFE15F787, 0x4503B812, 0x00807A79, 0xA8304613, 17) == 0xB71122FC
    ensures Mixed(0, 0x4503B812, 0xB71122FC, 0xA811B278, 0xFE15F787, 0x00000000, 0xFD469501, 22) == 0xDA9BBB0D
    ensures Mixed(0, 0xFE15F787, 0xDA9BBB0D, 0xB71122FC, 0xA811B278, 0x00000000, 0x698098D8, 7) == 0xAE752899
    ensures Mixed(0, 0xA811B278, 0xAE752899, 0xDA9BBB0D, 0xB71122FC, 0x00000000, 0x8B44F7AF, 12) == 0x2BBE757F
    ensures Mixed(0, 0xB71122FC, 0x2BBE757F, 0xAE752899, 0xDA9BBB0D, 0x00000000, 0xFFFF5BB1, 17) == 0x7D4BD80B
    ensures Mixed(0, 0xDA9BBB0D, 0x7D4BD80B, 0x2BBE757F, 0xAE752899, 0x00000000, 0x895CD7BE, 22) == 0x56CFA5CB
    ensures Mixed(0, 0xAE752899, 0x56CFA5CB, 0x7D4BD80B, 0x2BBE757F, 0x00000000, 0x6B901122, 7) == 0x1754A316
    ensures Mixed(0, 0x2BBE757F, 0x1754A316, 0x56CFA5CB, 0x7D4BD80B, 0x00000000, 0xFD987193, 12) == 0x85567D90
    ensures Mixed(0, 0x7D4BD80B, 0x85567D90, 0x1754A316, 0x56CFA5CB, 0x000000D0, 0xA679438E, 17) == 0x00DF74D5
    ensures Mixed(0, 0x56CFA5CB, 0x00DF74D5, 0x85567D90, 0x1754A316, 0x00000000, 0x49B40821, 22) == 0x608D6B7E
  {
  }

  lemma Mixes16()
    ensures Mixed(1, 0x1754A316, 0x608D6B7E, 0x00DF74D5, 0x85567D90, 0x68676665, 0xF61E2562, 5) == 0x2D8071CC
    ensures Mixed(1, 0x85567D90, 0x2D8071CC, 0x608D6B7E, 0x00DF74D5, 0x00807A79, 0xC040B340, 9) == 0x5DCEE119
    ensures Mixed(1, 0x00DF74D5, 0x5DCEE119, 0x2D8071CC, 0x608D6B7E, 0x00000000, 0x265E5A51, 14) == 0xEDFE7E4B
    ensures Mixed(1, 0x608D6B7E, 0xEDFE7E4B, 0x5DCEE119, 0x2D8071CC, 0x64636261, 0xE9B6C7AA, 20) == 0x4C2145B3
    ensures Mixed(1, 0x2D8071CC, 0x4C2145B3, 0xEDFE7E4B, 0x5DCEE119, 0x78777675, 0xD62F105D, 5) == 0x570C43E0
    ensures Mixed(1, 0x5DCEE119, 0x570C43E0, 0x4C2145B3, 0xEDFE7E4B, 0x00000000, 0x02441453, 9) == 0x977EFD2A
    ensures Mixed(1, 0xEDFE7E4B, 0x977EFD2A, 0x570C43E0, 0x4C2145B3, 0x00000000, 0xD8A1E681, 14) == 0xC28AB49D
    ensures Mixed(1, 0x4C2145B3, 0xC28AB49D, 0x977EFD2A, 0x570C43E0, 0x74737271, 0xE7D3FBC8, 20) == 0xC9F162D4
    ensures Mixed(1, 0x570C43E0, 0xC9F162D4, 0xC28AB49D, 0x977EFD2A, 0x00000000, 0x21E1CDE6, 5) == 0x25BFAE3B
    ensures Mixed(1, 0x977EFD2A, 0x25BFAE3B, 0xC9F162D4, 0xC28AB49D, 0x000000D0, 0xC33707D6, 9) == 0x89980104
    ensures Mixed(1, 0xC28AB49D, 0x89980104, 0x25BFAE3B, 0xC9F162D4, 0x706F6E6D, 0xF4D50D87, 14) == 0xF8C8365F
    ensures Mixed(1, 0xC9F162D4, 0xF8C8365F, 0x89980104, 0x25BFAE3B, 0x00000000, 0x455A14ED, 20) == 0xE6D3B398
    ensures Mixed(1, 0x25BFAE3B, 0xE6D3B398, 0xF8C8365F, 0x89980104, 0x00000000, 0xA9E3E905, 5) == 0xF54D8710
    ensures Mixed(1, 0x89980104, 0xF54D8710, 0xE6D3B398, 0xF8C8365F, 0x6C6B6A69, 0xFCEFA3F8, 9) == 0x927B72E2
    ensures Mixed(1, 0xF8C8365F, 0x927B72E2, 0xF54D8710, 0xE6D3B398, 0x00000000, 0x676F02D9, 14) == 0x2E69AFC7
    ensures Mixed(1, 0xE6D3B398, 0x2E69AFC7, 0x927B72E2, 0xF54D8710, 0x00000000, 0x8D2A4C8A, 20) == 0xAEB35766
  {
  }

  lemma Mixes32()
    ensures Mixed(2, 0xF54D8710, 0xAEB35766, 0x2E69AFC7, 0x927B72E2, 0x78777675, 0xFFFA3942, 4) == 0xB4BF680E
    ensures Mixed(2, 0x927B72E2, 0xB4BF680E, 0xAEB35766, 0x2E69AFC7, 0x00000000, 0x8771F681, 11) == 0x4C8FFA80
    ensures Mixed(2, 0x2E69AFC7, 0x4C8FFA80, 0xB4BF680E, 0xAEB35766, 0x00000000, 0x6D9D6122, 16) == 0x2361ED0A
    ensures Mixed(2, 0xAEB35766, 0x2361ED0A, 0x4C8FFA80, 0xB4BF680E, 0x000000D0, 0xFDE5380C, 23) == 0x06A5E211
    ensures Mixed(2, 0xB4BF680E, 0x06A5E211, 0x2361ED0A, 0x4C8FFA80, 0x68676665, 0xA4BEEA44, 4) == 0xB9C0C733
    ensures Mixed(2, 0x4C8FFA80, 0xB9C0C733, 0x06A5E211, 0x2361ED0A, 0x74737271, 0x4BDECFA9, 11) == 0xF1E6DC7A
    ensures Mixed(2, 0x2361ED0A, 0xF1E6DC7A, 0xB9C0C733, 0x06A5E211, 0x00000000, 0xF6BB4B60, 16) == 0x23A9451B
    ensures Mixed(2, 0x06A5E211, 0x23A9451B, 0xF1E6DC7A, 0xB9C0C733, 0x00000000, 0xBEBFBC70, 23) == 0x8D41BF99
    ensures Mixed(2, 0xB9C0C733, 0x8D41BF99, 0x23A9451B, 0xF1E6DC7A, 0x00000000, 0x289B7EC6, 4) == 0xA3E88EAD
    ensures Mixed(2, 0xF1E6DC7A, 0xA3E88EAD, 0x8D41BF99, 0x23A9451B, 0x64636261, 0xEAA127FA, 11) == 0x02C0B11C
    ensures Mixed(2, 0x23A9451B, 0x02C0B11C, 0xA3E88EAD, 0x8D41BF99, 0x706F6E6D, 0xD4EF3085, 16) == 0x66F6468D
    ensures Mixed(2, 0x8D41BF99, 0x66F6468D, 0x02C0B11C, 0xA3E88EAD, 0x00807A79, 0x04881D05, 23) == 0x90A35AF5
    ensures Mixed(2, 0xA3E88EAD, 0x90A35AF5, 0x66F6468D, 0x02C0B11C, 0x00000000, 0xD9D4D039, 4) == 0xB5D41F9C
    ensures Mixed(2, 0x02C0B11C, 0xB5D41F9C, 0x90A35AF5, 0x66F6468D, 0x00000000, 0xE6DB99E5, 11) == 0xA04B4904
    ensures Mixed(2, 0x66F6468D, 0xA04B4904, 0xB5D41F9C, 0x90A35AF5, 0x00000000, 0x1FA27CF8, 16) == 0x703D54D8
    ensures Mixed(2, 0x90A35AF5, 0x703D54D8, 0xA04B4904, 0xB5D41F9C, 0x6C6B6A69, 0xC4AC5665, 23) == 0x71D10367
  {
  }

  lemma Mixes48()
    ensures Mixed(3, 0xB5D41F9C, 0x71D10367, 0x703D54D8, 0xA04B4904, 0x64636261, 0xF4292244, 6) == 0xFC32DD6E
    ensures Mixed(3, 0xA04B4904, 0xFC32DD6E, 0x71D10367, 0x703D54D8, 0x00000000, 0x432AFF97, 10) == 0x65456B34
    ensures Mixed(3, 0x703D54D8, 0x65456B34, 0xFC32DD6E, 0x71D10367, 0x000000D0, 0xAB9423A7, 15) == 0xB35602CB
    ensures Mixed(3, 0x71D10367, 0xB35602CB, 0x65456B34, 0xFC32DD6E, 0x78777675, 0xFC93A039, 21) == 0x33EDB197
    ensures Mixed(3, 0xFC32DD6E, 0x33EDB197, 0xB35602CB, 0x65456B34, 0x00000000, 0x655B59C3, 6) == 0xC1E942F1
    ensures Mixed(3, 0x65456B34, 0xC1E942F1, 0x33EDB197, 0xB35602CB, 0x706F6E6D, 0x8F0CCC92, 10) == 0xD9BB987C
    ensures Mixed(3, 0xB35602CB, 0xD9BB987C, 0xC1E942F1, 0x33EDB197, 0x00000000, 0xFFEFF47D, 15) == 0x23A68048
    ensures Mixed(3, 0x33EDB197, 0x23A68048, 0xD9BB987C, 0xC1E942F1, 0x68676665, 0x85845DD1, 21) == 0x83877D1B
    ensures Mixed(3, 0xC1E942F1, 0x83877D1B, 0x23A68048, 0xD9BB987C, 0x00000000, 0x6FA87E4F, 6) == 0x0077C208
    ensures Mixed(3, 0xD9BB987C, 0x0077C208, 0x83877D1B, 0x23A68048, 0x00000000, 0xFE2CE6E0, 10) == 0x847FC2E7
    ensures Mixed(3, 0x23A68048, 0x847FC2E7, 0x0077C208, 0x83877D1B, 0x00807A79, 0xA3014314, 15) == 0xA3E2247F
    ensures Mixed(3, 0x83877D1B, 0xA3E2247F, 0x847FC2E7, 0x0077C208, 0x00000000, 0x4E0811A1, 21) == 0x5E6BC930
    ensures Mixed(3, 0x0077C208, 0x5E6BC930, 0xA3E2247F, 0x847FC2E7, 0x74737271, 0xF7537E82, 6) == 0x708ED9C2
    ensures Mixed(3, 0x847FC2E7, 0x708ED9C2, 0x5E6BC930, 0xA3E2247F, 0x00000000, 0xBD3AF235, 10) == 0x2BAF1354
    ensures Mixed(3, 0xA3E2247F, 0x2BAF1354, 0x708ED9C2, 0x5E6BC930, 0x6C6B6A69, 0x2AD7D2BB, 15) == 0xD38F1E7F
    ensures Mixed(3, 0x5E6BC930, 0xD38F1E7F, 0x2BAF1354, 0x708ED9C2, 0x00000000, 0xEB86D391, 21) == 0x1116E6D8
  {
  }

  /** The words and sines of the first eight steps; the rest follow. */
  lemma Inputs0()
    ensures Word(Order(0)[0]) == 0x64636261 && Sines(0)[0] == 0xD76AA478
    ensures Word(Order(0)[1]) == 0x68676665 && Sines(0)[1] == 0xE8C7B756
    ensures Word(Order(0)[2]) == 0x6C6B6A69 && Sines(0)[2] == 0x242070DB
    ensures Word(Order(0)[3]) == 0x706F6E6D && Sines(0)[3] == 0xC1BDCEEE
    ensures Word(Order(0)[4]) == 0x74737271 && Sines(0)[4] == 0xF57C0FAF
    ensures Word(Order(0)[5]) == 0x78777675 && Sines(0)[5] == 0x4787C62A
    ensures Word(Order(0)[6]) == 0x00807A79 && Sines(0)[6] == 0xA8304613
    ensures Word(Order(0)[7]) == 0x00000000 && Sines(0)[7] == 0xFD469501
    ensures Turns(0)[0] == 7 && Turns(0)[1] == 12 && Turns(0)[2] == 17 && Turns(0)[3] == 22
  {
  }

  lemma Inputs8()
    ensures Word(Order(0)[8]) == 0x00000000 && Sines(0)[8] == 0x698098D8
    ensures Word(Order(0)[9]) == 0x00000000 && Sines(0)[9] == 0x8B44F7AF
    ensures Word(Order(0)[10]) == 0x00000000 && Sines(0)[10] == 0xFFFF5BB1
    ensures Word(Order(0)[11]) == 0x00000000 && Sines(0)[11] == 0x895CD7BE
    ensures Word(Order(0)[12]) == 0x00000000 && Sines(0)[12] == 0x6B901122
    ensures Word(Order(0)[13]) == 0x00000000 && Sines(0)[13] == 0xFD987193
    ensures Word(Order(0)[14]) == 0x000000D0 && Sines(0)[14] == 0xA679438E
    ensures Word(Order(0)[15]) == 0x00000000 && Sines(0)[15] == 0x49B40821
    ensures Turns(0)[0] == 7 && Turns(0)[1] == 12 && Turns(0)[2] == 17 && Turns(0)[3] == 22
  {
  }

  lemma Inputs16()
    ensures Word(Order(1)[0]) == 0x68676665 && Sines(1)[0] == 0xF61E2562
    ensures Word(Order(1)[1]) == 0x00807A79 && Sines(1)[1] == 0xC040B340
    ensures Word(Order(1)[2]) == 0x00000000 && Sines(1)[2] == 0x265E5A51
    ensures Word(Order(1)[3]) == 0x64636261 && Sines(1)[3] == 0xE9B6C7AA
    ensures Word(Order(1)[4]) == 0x78777675 && Sines(1)[4] == 0xD62F105D
    ensures Word(Order(1)[5]) == 0x00000000 && Sines(1)[5] == 0x02441453
    ensures Word(Order(1)[6]) == 0x00000000 && Sines(1)[6] == 0xD8A1E681
    ensures Word(Order(1)[7]) == 0x74737271 && Sines(1)[7] == 0xE7D3FBC8
    ensures Turns(1)[0] == 5 && Turns(1)[1] == 9 && Turns(1)[2] == 14 && Turns(1)[3] == 20
  {
  }

  lemma Inputs24()
    ensures Word(Order(1)[8]) == 0x00000000 && Sines(1)[8] == 0x21E1CDE6
    ensures Word(Order(1)[9]) == 0x000000D0 && Sines(1)[9] == 0xC33707D6
    ensures Word(Order(1)[10]) == 0x706F6E6D && Sines(1)[10] == 0xF4D50D87
    ensures Word(Order(1)[11]) == 0x00000000 && Sines(1)[11] == 0x455A14ED
    ensures Word(Order(1)[12]) == 0x00000000 && Sines(1)[12] == 0xA9E3E905
    ensures Word(Order(1)[13]) == 0x6C6B6A69 && Sines(1)[13] == 0xFCEFA3F8
    ensures Word(Order(1)[14]) == 0x00000000 && Sines(1)[14] == 0x676F02D9
    ensures Word(Order(1)[15]) == 0x00000000 && Sines(1)[15] == 0x8D2A4C8A
    ensures Turns(1)[0] == 5 && Turns(1)[1] == 9 && Turns(1)[2] == 14 && Turns(1)[3] == 20
  {
  }

  lemma Inputs32()
    ensures Word(Order(2)[0]) == 0x78777675 && Sines(2)[0] == 0xFFFA3942
    ensures Word(Order(2)[1]) == 0x00000000 && Sines(2)[1] == 0x8771F681
    ensures Word(Order(2)[2]) == 0x00000000 && Sines(2)[2] == 0x6D9D6122
    ensures Word(Order(2)[3]) == 0x000000D0 && Sines(2)[3] == 0xFDE5380C
    ensures Word(Order(2)[4]) == 0x68676665 && Sines(2)[4] == 0xA4BEEA44
    ensures Word(Order(2)[5]) == 0x74737271 && Sines(2)[5] == 0x4BDECFA9
    ensures Word(Order(2)[6]) == 0x00000000 && Sines(2)[6] == 0xF6BB4B60
    ensures Word(Order(2)[7]) == 0x00000000 && Sines(2)[7] == 0xBEBFBC70
    ensures Turns(2)[0] == 4 && Turns(2)[1] == 11 && Turns(2)[2] == 16 && Turns(2)[3] == 23
  {
  }

  lemma Inputs40()
    ensures Word(Order(2)[8]) == 0x00000000 && Sines(2)[8] == 0x289B7EC6
    ensures Word(Order(2)[9]) == 0x64636261 && Sines(2)[9] == 0xEAA127FA
    ensures Word(Order(2)[10]) == 0x706F6E6D && Sines(2)[10] == 0xD4EF3085
    ensures Word(Order(2)[11]) == 0x00807A79 && Sines(2)[11] == 0x04881D05
    ensures Word(Order(2)[12]) == 0x00000000 && Sines(2)[12] == 0xD9D4D039
    ensures Word(Order(2)[13]) == 0x00000000 && Sines(2)[13] == 0xE6DB99E5
    ensures Word(Order(2)[14]) == 0x00000000 && Sines(2)[14] == 0x1FA27CF8
    ensures Word(Order(2)[15]) == 0x6C6B6A69 && Sines(2)[15] == 0xC4AC5665
    ensures Turns(2)[0] == 4 && Turns(2)[1] == 11 && Turns(2)[2] == 16 && Turns(2)[3] == 23
  {
  }

  lemma Inputs48()
    ensures Word(Order(3)[0]) == 0x64636261 && Sines(3)[0] == 0xF4292244
    ensures Word(Order(3)[1]) == 0x00000000 && Sines(3)[1] == 0x432AFF97
    ensures Word(Order(3)[2]) == 0x000000D0 && Sines(3)[2] == 0xAB9423A7
    ensures Word(Order(3)[3]) == 0x78777675 && Sines(3)[3] == 0xFC93A039
    ensures Word(Order(3)[4]) == 0x00000000 && Sines(3)[4] == 0x655B59C3
    ensures Word(Order(3)[5]) == 0x706F6E6D && Sines(3)[5] == 0x8F0CCC92
    ensures Word(Order(3)[6]) == 0x00000000 && Sines(3)[6] == 0xFFEFF47D
    ensures Word(Order(3)[7]) == 0x68676665 && Sines(3)[7] == 0x85845DD1
    ensures Turns(3)[0] == 6 && Turns(3)[1] == 10 && Turns(3)[2] == 15 && Turns(3)[3] == 21
  {
  }

  lemma Inputs56()
    ensures Word(Order(3)[8]) == 0x00000000 && Sines(3)[8] == 0x6FA87E4F
    ensures Word(Order(3)[9]) == 0x00000000 && Sines(3)[9] == 0xFE2CE6E0
    ensures Word(Order(3)[10]) == 0x00807A79 && Sines(3)[10] == 0xA3014314
    ensures Word(Order(3)[11]) == 0x00000000 && Sines(3)[11] == 0x4E0811A1
    ensures Word(Order(3)[12]) == 0x74737271 && Sines(3)[12] == 0xF7537E82
    ensures Word(Order(3)[13]) == 0x00000000 && Sines(3)[13] == 0xBD3AF235
    ensures Word(Order(3)[14]) == 0x6C6B6A69 && Sines(3)[14] == 0x2AD7D2BB
    ensures Word(Order(3)[15]) == 0x00000000 && Sines(3)[15] == 0xEB86D391
    ensures Turns(3)[0] == 6 && Turns(3)[1] == 10 && Turns(3)[2] == 15 && Turns(3)[3] == 21
  {
  }

  lemma Nothing()
    ensures Reached(0, INITIAL)
  {
    Md5.NoSteps(SineTable(), OneBlock(), INITIAL);
  }

  lemma Round1()
    ensures Reached(16, Regs(0x1754A316, 0x608D6B7E, 0x00DF74D5, 0x85567D90))
  {
    hide Mixed, Word, Sines, Order, Turns, Reached;
    Mixes0();
    Inputs0();
    Inputs8();
    Nothing();
    FourSteps(0, INITIAL, 0xD6D117A6, 0xAAB1AAAA, 0x227D8CF1, 0x4503B812);
    FourSteps(1, Regs(0xD6D117A6, 0x4503B812, 0x227D8CF1, 0xAAB1AAAA), 0xFE15F787, 0xA811B278, 0xB71122FC, 0xDA9BBB0D);
    FourSteps(2, Regs(0xFE15F787, 0xDA9BBB0D, 0xB71122FC, 0xA811B278), 0xAE752899, 0x2BBE757F, 0x7D4BD80B, 0x56CFA5CB);
    FourSteps(3, Regs(0xAE752899, 0x56CFA5CB, 0x7D4BD80B, 0x2BBE757F), 0x1754A316, 0x85567D90, 0x00DF74D5, 0x608D6B7E);
  }

  lemma Round2()
    requires Reached(16, Regs(0x1754A316, 0x608D6B7E, 0x00DF74D5, 0x85567D90))
    ensures Reached(32, Regs(0xF54D8710, 0xAEB35766, 0x2E69AFC7, 0x927B72E2))
  {
    hide Mixed, Word, Sines, Order, Turns, Reached;
    Mixes16();
    Inputs16();
    Inputs24();
    FourSteps(4, Regs(0x1754A316, 0x608D6B7E, 0x00DF74D5, 0x85567D90), 0x2D8071CC, 0x5DCEE119, 0xEDFE7E4B, 0x4C2145B3);
    FourSteps(5, Regs(0x2D8071CC, 0x4C2145B3, 0xEDFE7E4B, 0x5DCEE119), 0x570C43E0, 0x977EFD2A, 0xC28AB49D, 0xC9F162D4);
    FourSteps(6, Regs(0x570C43E0, 0xC9F162D4, 0xC28AB49D, 0x977EFD2A), 0x25BFAE3B, 0x89980104, 0xF8C8365F, 0xE6D3B398);
    FourSteps(7, Regs(0x25BFAE3B, 0xE6D3B398, 0xF8C8365F, 0x89980104), 0xF54D8710, 0x927B72E2, 0x2E69AFC7, 0xAEB35766);
  }

  lemma Round3()
    requires Reached(32, Regs(0xF54D8710, 0xAEB35766, 0x2E69AFC7, 0x927B72E2))
    ensures Reached(48, Regs(0xB5D41F9C, 0x71D10367, 0x703D54D8, 0xA04B4904))
  {
    hide Mixed, Word, Sines, Order, Turns, Reached;
    Mixes32();
    Inputs32();
    Inputs40();
    FourSteps(8, Regs(0xF54D8710, 0xAEB35766, 0x2E69AFC7, 0x927B72E2), 0xB4BF680E, 0x4C8FFA80, 0x2361ED0A, 0x06A5E211);
    FourSteps(9, Regs(0xB4BF680E, 0x06A5E211, 0x2361ED0A, 0x4C8FFA80), 0xB9C0C733, 0xF1E6DC7A, 0x23A9451B, 0x8D41BF99);
    FourSteps(10, Regs(0xB9C0C733, 0x8D41BF99, 0x23A9451B, 0xF1E6DC7A), 0xA3E88EAD, 0x02C0B11C, 0x66F6468D, 0x90A35AF5);
    FourSteps(11, Regs(0xA3E88EAD, 0x90A35AF5, 0x66F6468D, 0x02C0B11C), 0xB5D41F9C, 0xA04B4904, 0x703D54D8, 0x71D10367);
  }

  lemma Round4()
    requires Reached(48, Regs(0xB5D41F9C, 0x71D10367, 0x703D54D8, 0xA04B4904))
    ensures Reached(64, Regs(0x708ED9C2, 0x1116E6D8, 0xD38F1E7F, 0x2BAF1354))
  {
    hide Mixed, Word, Sines, Order, Turns, Reached;
    Mixes48();
    Inputs48();
    Inputs56();
    FourSteps(12, Regs(0xB5D41F9C, 0x71D10367, 0x703D54D8, 0xA04B4904), 0xFC32DD6E, 0x65456B34, 0xB35602CB, 0x33EDB197);
    FourSteps(13, Regs(0xFC32DD6E, 0x33EDB197, 0xB35602CB, 0x65456B34), 0xC1E942F1, 0xD9BB987C, 0x23A68048, 0x83877D1B);
    FourSteps(14, Regs(0xC1E942F1, 0x83877D1B, 0x23A68048, 0xD9BB987C), 0x0077C208, 0x847FC2E7, 0xA3E2247F, 0x5E6BC930);
    FourSteps(15, Regs(0x0077C208, 0x5E6BC930, 0xA3E2247F, 0x847FC2E7), 0x708ED9C2, 0x2BAF1354, 0xD38F1E7F, 0x1116E6D8);
  }

  lemma SumOf()
    ensures Sum(INITIAL, Regs(0x708ED9C2, 0x1116E6D8, 0xD38F1E7F, 0x2BAF1354)) ==
            Regs(0xD7D3FCC3, 0x00E49261, 0x6C49FB7D, 0x3BE167CA)
  {
  }

  lemma BytesOf()
    ensures Md5.Bytes16(Regs(0xD7D3FCC3, 0x00E49261, 0x6C49FB7D, 0x3BE167CA)) ==
            [0xC3, 0xFC, 0xD3, 0xD7, 0x61, 0x92, 0xE4, 0x00, 0x7D, 0xFB, 0x49, 0x6C, 0xCA, 0x67, 0xE1, 0x3B]
  {
    FourDigits(0xC3, 0xFC, 0xD3, 0xD7);
    FourDigits(0x61, 0x92, 0xE4, 0x00);
    FourDigits(0x7D, 0xFB, 0x49, 0x6C);
    FourDigits(0xCA, 0x67, 0xE1, 0x3B);
  }

  /** MD5 ("abcdefghijklmnopqrstuvwxyz") = c3fcd3d76192e4007dfb496cca67e13b */
  lemma AlphabetDigest()
    ensures Md5.Bytes16(Digest(SineTable(), Alphabet())) ==
            [0xC3, 0xFC, 0xD3, 0xD7, 0x61, 0x92, 0xE4, 0x00, 0x7D, 0xFB, 0x49, 0x6C, 0xCA, 0x67, 0xE1, 0x3B]
  {
    hide Steps, Padded, SineTable, OneBlock, Md5.Bytes16, Sum;
    Round1();
    Round2();
    Round3();
    Round4();
    SumOf();
    BytesOf();
    AlphabetPadded();
    FoldBlock(SineTable(), [], OneBlock());
    assert [] + OneBlock() == OneBlock();
  }
}
