/** The MD5 implementation: four rotating registers in an array, nested loops with computed
    indices, and a streaming context. */
module Md5 {
  import opened Arith
  import opened Bytes
  import opened Md5Spec

  ghost function RegsOf(a: array<bv32>): Regs
    requires a.Length == 4
    reads a
  {
    Regs(a[0], a[1], a[2], a[3])
  }

  /** The word index of each loop body. */
  function Index(round: nat, m: nat, n: nat): (k: nat)
    requires m < 4 && n < 4
    ensures k < 16
  {
    match round
    case 0 => m * 4 + n
    case 1 => (1 + m * 4 + n * 5) % 16
    case 2 => (5 - m * 4 + n * 3) % 16
    case _ => (0 - m * 4 + n * 7) % 16
  }

  lemma IndexIsOrder0(m: nat, n: nat)
    requires m < 4 && n < 4
    ensures Index(0, m, n) == Order(0)[4 * m + n]
  {
  }

  lemma IndexIsOrder1(m: nat, n: nat)
    requires m < 4 && n < 4
    ensures Index(1, m, n) == Order(1)[4 * m + n]
  {
    assert m == 0 || m == 1 || m == 2 || m == 3;
  }

  lemma IndexIsOrder2(m: nat, n: nat)
    requires m < 4 && n < 4
    ensures Index(2, m, n) == Order(2)[4 * m + n]
  {
    assert m == 0 || m == 1 || m == 2 || m == 3;
  }

  lemma IndexIsOrder3(m: nat, n: nat)
    requires m < 4 && n < 4
    ensures Index(3, m, n) == Order(3)[4 * m + n]
  {
    assert m == 0 || m == 1 || m == 2 || m == 3;
  }

  /** The computed indices are the RFC's lists. */
  lemma IndexIsOrder(round: nat, m: nat, n: nat)
    requires round < 4 && m < 4 && n < 4
    ensures Index(round, m, n) == Order(round)[4 * m + n]
  {
    hide Index, Order;
    match round
    case 0 => IndexIsOrder0(m, n);
    case 1 => IndexIsOrder1(m, n);
    case 2 => IndexIsOrder2(m, n);
    case _ => IndexIsOrder3(m, n);
  }

  function Slot(r: Regs, k: nat): bv32 {
    match k % 4
    case 0 => r.a
    case 1 => r.b
    case 2 => r.c
    case _ => r.d
  }

  function WithSlot(r: Regs, k: nat, v: bv32): Regs {
    match k % 4
    case 0 => r.(a := v)
    case 1 => r.(b := v)
    case 2 => r.(c := v)
    case _ => r.(d := v)
  }

  /** One `md5_core` call on the register array. */
  function CoreRegs(r: Regs, slot: nat, fi: nat, word: bv32, sine: bv32, s: nat): Regs
    requires s < 32
  {
    WithSlot(r, slot, Mixed(fi, Slot(r, slot), Slot(r, slot + 1), Slot(r, slot + 2), Slot(r, slot + 3), word, sine, s))
  }

  /** Writing slot `4 - n` is the RFC's renaming of the registers. */
  lemma RotationIsRenaming(table: seq<bv32>, block: seq<byte>, r: Regs, round: nat, m: nat, n: nat)
    requires |table| == 64 && |block| == 64 && round < 4 && m < 4 && n < 4
    ensures CoreRegs(r, 4 - n, round, WordAt(block, Index(round, m, n)), table[16 * round + 4 * m + n], Turns(round)[n])
         == Step(table, block, r, 16 * round + 4 * m + n)
  {
    hide Mixed, WordAt, Order, Index, Turns;
    IndexIsOrder(round, m, n);
    var i := 16 * round + 4 * m + n;
    assert i / 16 == round && i % 16 == 4 * m + n && i % 4 == n;
    match n
    case 0 =>
    case 1 =>
    case 2 =>
    case _ =>
  }

  lemma SlotAt(a: array<bv32>, k: nat)
    requires a.Length == 4
    ensures Slot(RegsOf(a), k) == a[k % 4]
  {
  }

  lemma WithSlotAt(r: Regs, k: nat, v: bv32, s: Regs)
    requires k % 4 == 0 ==> s == Regs(v, r.b, r.c, r.d)
    requires k % 4 == 1 ==> s == Regs(r.a, v, r.c, r.d)
    requires k % 4 == 2 ==> s == Regs(r.a, r.b, v, r.d)
    requires k % 4 == 3 ==> s == Regs(r.a, r.b, r.c, v)
    ensures s == WithSlot(r, k, v)
  {
  }

  /** `md5_core` */
  method Core(table: seq<bv32>, a: array<bv32>, word: bv32, slot: nat, s: nat, i: nat, fi: nat)
    requires |table| == 64 && a.Length == 4 && i < 64 && s < 32
    modifies a
    ensures RegsOf(a) == CoreRegs(old(RegsOf(a)), slot, fi, word, table[i], s)
  {
    hide Mixed, Slot, WithSlot;
    var p := slot % 4;
    ghost var r := RegsOf(a);
    SlotAt(a, slot);
    SlotAt(a, slot + 1);
    SlotAt(a, slot + 2);
    SlotAt(a, slot + 3);
    var v := Mixed(fi, a[p], a[(slot + 1) % 4], a[(slot + 2) % 4], a[(slot + 3) % 4], word, table[i], s);
    a[p] := v;
    WithSlotAt(r, slot, v, RegsOf(a));
  }

  /** Round 1 of `md5_nextBlock`. */
  method Round1(table: seq<bv32>, block: seq<byte>, a: array<bv32>, ghost start: Regs)
    requires |table| == 64 && |block| == 64 && a.Length == 4
    requires RegsOf(a) == Steps(table, block, start, 0)
    modifies a
    ensures RegsOf(a) == Steps(table, block, start, 16)
  {
    hide Step, WordAt, CoreRegs;
    var shifts: seq<nat> := [7, 12, 17, 22];
    var i := 0;
    for m := 0 to 4
      invariant i == 0 + 4 * m && RegsOf(a) == Steps(table, block, start, i)
    {
      for n := 0 to 4
        invariant i == 0 + 4 * m + n && RegsOf(a) == Steps(table, block, start, i)
      {
        RotationIsRenaming(table, block, RegsOf(a), 0, m, n);
        Core(table, a, WordAt(block, m * 4 + n), 4 - n, shifts[n], i, 0);
        i := i + 1;
      }
    }
  }

  /** Round 2 of `md5_nextBlock`. */
  method Round2(table: seq<bv32>, block: seq<byte>, a: array<bv32>, ghost start: Regs)
    requires |table| == 64 && |block| == 64 && a.Length == 4
    requires RegsOf(a) == Steps(table, block, start, 16)
    modifies a
    ensures RegsOf(a) == Steps(table, block, start, 32)
  {
    hide Step, WordAt, CoreRegs;
    var shifts: seq<nat> := [5, 9, 14, 20];
    var i := 16;
    for m := 0 to 4
      invariant i == 16 + 4 * m && RegsOf(a) == Steps(table, block, start, i)
    {
      for n := 0 to 4
        invariant i == 16 + 4 * m + n && RegsOf(a) == Steps(table, block, start, i)
      {
        RotationIsRenaming(table, block, RegsOf(a), 1, m, n);
        Core(table, a, WordAt(block, (1 + m * 4 + n * 5) % 16), 4 - n, shifts[n], i, 1);
        i := i + 1;
      }
    }
  }

  /** Round 3 of `md5_nextBlock`. */
  method Round3(table: seq<bv32>, block: seq<byte>, a: array<bv32>, ghost start: Regs)
    requires |table| == 64 && |block| == 64 && a.Length == 4
    requires RegsOf(a) == Steps(table, block, start, 32)
    modifies a
    ensures RegsOf(a) == Steps(table, block, start, 48)
  {
    hide Step, WordAt, CoreRegs;
    var shifts: seq<nat> := [4, 11, 16, 23];
    var i := 32;
    for m := 0 to 4
      invariant i == 32 + 4 * m && RegsOf(a) == Steps(table, block, start, i)
    {
      for n := 0 to 4
        invariant i == 32 + 4 * m + n && RegsOf(a) == Steps(table, block, start, i)
      {
        RotationIsRenaming(table, block, RegsOf(a), 2, m, n);
        Core(table, a, WordAt(block, (5 - m * 4 + n * 3) % 16), 4 - n, shifts[n], i, 2);
        i := i + 1;
      }
    }
  }

  /** Round 4 of `md5_nextBlock`. */
  method Round4(table: seq<bv32>, block: seq<byte>, a: array<bv32>, ghost start: Regs)
    requires |table| == 64 && |block| == 64 && a.Length == 4
    requires RegsOf(a) == Steps(table, block, start, 48)
    modifies a
    ensures RegsOf(a) == Steps(table, block, start, 64)
  {
    hide Step, WordAt, CoreRegs;
    var shifts: seq<nat> := [6, 10, 15, 21];
    var i := 48;
    for m := 0 to 4
      invariant i == 48 + 4 * m && RegsOf(a) == Steps(table, block, start, i)
    {
      for n := 0 to 4
        invariant i == 48 + 4 * m + n && RegsOf(a) == Steps(table, block, start, i)
      {
        RotationIsRenaming(table, block, RegsOf(a), 3, m, n);
        Core(table, a, WordAt(block, (0 - m * 4 + n * 7) % 16), 4 - n, shifts[n], i, 3);
        i := i + 1;
      }
    }
  }

  /** The message as `md5_lastBlock` pads it: a 32-bit length field. */
  function CodePadded(message: seq<byte>): seq<byte> {
    Padded(message, 8 * |message| % 0x1_0000_0000)
  }

  /** The block counter modulo 2^32 still gives the length modulo 2^32. */
  lemma LengthField(blocks: nat, bits: nat)
    requires blocks % 64 == 0
    ensures (blocks / 64 % 0x1_0000_0000 * 512 + bits) % 0x1_0000_0000 == (8 * blocks + bits) % 0x1_0000_0000
  {
    var q, r := blocks / 64 / 0x1_0000_0000, blocks / 64 % 0x1_0000_0000;
    assert 8 * blocks + bits == r * 512 + bits + 0x1_0000_0000 * (512 * q);
    var n := r * 512 + bits;
    DivModUnique(8 * blocks + bits, 0x1_0000_0000, n / 0x1_0000_0000 + 512 * q, n % 0x1_0000_0000);
  }

  lemma ZerosAdd(m: nat, n: nat)
    ensures Zeros(m) + Zeros(n) == Zeros(m + n)
  {
  }

  /** One or two final blocks: the split is at 56 bytes. */
  lemma PaddedInBlocks(message: seq<byte>, rest: seq<byte>, bits: nat)
    requires |message| % 64 == 0 && |rest| < 64
    ensures |rest| < 56 ==>
              Padded(message + rest, bits) == message + (rest + [0x80] + Zeros(55 - |rest|) + LittleEndian(bits, 8))
    ensures |rest| >= 56 ==>
              Padded(message + rest, bits) ==
              message + (rest + [0x80] + Zeros(63 - |rest|)) + (Zeros(56) + LittleEndian(bits, 8))
  {
    hide LittleEndian, Zeros;
    var l := |rest|;
    assert (55 - |message + rest|) % 64 == if l < 56 then 55 - l else 119 - l;
    if l >= 56 {
      ZerosAdd(63 - l, 56);
    }
  }

  lemma CounterStep(bytes: nat)
    requires bytes % 64 == 0
    ensures (bytes / 64 % 0x1_0000_0000 + 1) % 0x1_0000_0000 == (bytes + 64) / 64 % 0x1_0000_0000
  {
    ModStep(0x1_0000_0000, bytes / 64);
  }

  lemma CounterBack(c: nat)
    requires c < 0x1_0000_0000
    ensures ((c + 1) % 0x1_0000_0000 - 1) % 0x1_0000_0000 == c
  {
  }

  lemma SliceStep(message: seq<byte>, block: seq<byte>, at: nat, n: nat)
    requires at + n <= |block|
    ensures message + block[..at] + block[at..][..n] == message + block[..at + n]
  {
    assert block[..at] + block[at..][..n] == block[..at + n];
  }

  lemma NoSteps(table: seq<bv32>, block: seq<byte>, r: Regs)
    requires |table| == 64 && |block| == 64
    ensures Steps(table, block, r, 0) == r
  {
  }

  method AddInto(a: array<bv32>, work: array<bv32>)
    requires a.Length == 4 && work.Length == 4 && a != work
    modifies a
    ensures RegsOf(a) == Sum(old(RegsOf(a)), RegsOf(work))
  {
    hide Plus;
    a[0] := Plus(a[0], work[0]);
    a[1] := Plus(a[1], work[1]);
    a[2] := Plus(a[2], work[2]);
    a[3] := Plus(a[3], work[3]);
  }

  /** Clear the buffer, copy the rest of the message and add the one bit. */
  method StartPadding(b: array<byte>, rest: seq<byte>)
    requires b.Length == 64 && |rest| < 64
    modifies b
    ensures b[..] == rest + [0x80] + Zeros(63 - |rest|)
    ensures |rest| < 56 ==> b[..56] == rest + [0x80] + Zeros(55 - |rest|)
  {
    forall i | 0 <= i < 64 {
      b[i] := 0;
    }
    forall i | 0 <= i < |rest| {
      b[i] := rest[i];
    }
    b[|rest|] := 0x80;
  }

  method ClearHead(b: array<byte>)
    requires b.Length == 64
    modifies b
    ensures b[..56] == Zeros(56)
  {
    forall i | 0 <= i < 56 {
      b[i] := 0;
    }
  }

  /** Store the length as 64 bits, low byte first. */
  method PutLength(b: array<byte>, n: nat)
    requires b.Length == 64
    modifies b
    ensures b[..] == old(b[..56]) + LittleEndian(n, 8)
  {
    hide LittleEndian;
    var field := LittleEndian(n, 8);
    forall i | 56 <= i < 64 {
      b[i] := field[i - 56];
    }
  }

  /** `md5_ctx_t`, with the table the code keeps in program memory. */
  class Context {
    const table: seq<bv32>
    const a: array<bv32>

    /** Blocks processed, modulo 2^32. */
    var counter: nat

    ghost predicate Valid()
      reads this
    {
      |table| == 64 && a.Length == 4 && counter < 0x1_0000_0000
    }

    /** The registers hold the fold of these whole blocks. */
    ghost predicate Holds(message: seq<byte>)
      reads this, a
    {
      Valid() && |message| % 64 == 0 && RegsOf(a) == Fold(table, message)
    }

    /** The context has processed exactly these whole blocks. */
    ghost predicate Processed(message: seq<byte>)
      reads this, a
    {
      Holds(message) && counter == |message| / 64 % 0x1_0000_0000
    }

    /** `md5_init` */
    constructor (table: seq<bv32>)
      requires |table| == 64
      ensures Processed([]) && this.table == table && fresh(a)
    {
      this.table := table;
      this.a := new bv32[4];
      this.counter := 0;
      new;
      this.a[0] := 0x67452301;
      this.a[1] := 0xEFCDAB89;
      this.a[2] := 0x98BADCFE;
      this.a[3] := 0x10325476;
    }

    /** `md5_nextBlock`; the caller passes at least one whole block. */
    method NextBlock(block: seq<byte>, ghost message: seq<byte>)
      requires Holds(message) && |block| >= 64
      modifies this, a
      ensures Holds(message + block[..64]) && counter == (old(counter) + 1) % 0x1_0000_0000
    {
      hide Fold, Step, Steps, Sum;
      ghost var h := RegsOf(a);
      var work := new bv32[4](i requires 0 <= i < 4 reads a => a[i]);
      NoSteps(table, block[..64], RegsOf(work));
      Round1(table, block[..64], work, h);
      Round2(table, block[..64], work, h);
      Round3(table, block[..64], work, h);
      Round4(table, block[..64], work, h);
      AddInto(a, work);
      counter := (counter + 1) % 0x1_0000_0000;
      FoldBlock(table, message, block[..64]);
    }

    /** The case of `md5_lastBlock` that needs two blocks; the extra block is not counted. */
    method FinishLong(b: array<byte>, rest: seq<byte>, bits: nat, ghost message: seq<byte>)
      requires Processed(message) && bits < 512 && bits == 8 * |rest| && |rest| >= 56
      requires b.Length == 64 && b[..] == rest + [0x80] + Zeros(63 - |rest|)
      modifies this, a, b
      ensures Valid() && RegsOf(a) == Fold(table, CodePadded(message + rest))
    {
      hide Fold, Padded, LittleEndian, Zeros, RegsOf;
      ghost var first := b[..];
      assert b[..][..64] == b[..];
      NextBlock(b[..], message);
      CounterBack(old(counter));
      counter := (counter - 1) % 0x1_0000_0000;
      ClearHead(b);
      PutLength(b, (counter * 512 + bits) % 0x1_0000_0000);
      LengthField(|message|, bits);
      PaddedInBlocks(message, rest, 8 * |message + rest| % 0x1_0000_0000);
      assert b[..][..64] == b[..];
      NextBlock(b[..], message + first);
    }

    /** The padding part of `md5_lastBlock`. */
    method Finish(rest: seq<byte>, bits: nat, ghost message: seq<byte>)
      requires Processed(message) && bits < 512 && bits == 8 * |rest|
      modifies this, a
      ensures Valid() && RegsOf(a) == Fold(table, CodePadded(message + rest))
    {
      hide Fold, Padded, LittleEndian, Zeros, RegsOf;
      var b := new byte[64];
      StartPadding(b, rest);
      if |rest| + 8 >= 64 {
        FinishLong(b, rest, bits, message);
      } else {
        PutLength(b, (counter * 512 + bits) % 0x1_0000_0000);
        LengthField(|message|, bits);
        PaddedInBlocks(message, rest, 8 * |message + rest| % 0x1_0000_0000);
        assert b[..][..64] == b[..];
        NextBlock(b[..], message);
      }
    }

    /** `md5_lastBlock` with a whole number of bytes: `message` is all that came before, and `bits`
        may span several blocks. */
    method LastBlock(block: seq<byte>, bits: nat, ghost message: seq<byte>)
      requires Processed(message) && bits < 0x1_0000 && bits % 8 == 0 && bits / 8 <= |block|
      modifies this, a
      ensures Valid() && RegsOf(a) == Fold(table, CodePadded(message + block[..bits / 8]))
    {
      hide Fold, CodePadded, RegsOf;
      var at, length := 0, bits;
      assert message + block[..0] == message;
      while length >= 512
        invariant at + length / 8 == bits / 8 && length % 8 == 0
        invariant Processed(message + block[..at])
      {
        ghost var before := message + block[..at];
        NextBlock(block[at..], before);
        SliceStep(message, block, at, 64);
        CounterStep(|before|);
        assert |message + block[..at + 64]| == |before| + 64;
        length := length - 512;
        at := at + 64;
      }
      SliceStep(message, block, at, length / 8);
      Finish(block[at..][..length / 8], length, message + block[..at]);
    }
  }

  /** `md5_ctx2hash`: the registers copied out, low byte first. */
  function Bytes16(r: Regs): seq<byte> {
    LittleEndian(r.a as nat, 4) + LittleEndian(r.b as nat, 4) + LittleEndian(r.c as nat, 4) +
      LittleEndian(r.d as nat, 4)
  }

  method Ctx2Hash(ctx: Context) returns (hash: seq<byte>)
    requires ctx.Valid()
    ensures hash == Bytes16(RegsOf(ctx.a))
  {
    hide LittleEndian;
    hash := Bytes16(Regs(ctx.a[0], ctx.a[1], ctx.a[2], ctx.a[3]));
  }

  /** Below 2^32 bits (modulo 2^64) the code pads as the RFC does, and only there. */
  lemma PadsAsRfc(message: seq<byte>)
    ensures CodePadded(message) == Padded(message, 8 * |message| % 0x1_0000_0000_0000_0000)
       <==> 8 * |message| % 0x1_0000_0000_0000_0000 < 0x1_0000_0000
  {
    hide Padded;
    ShortLengthField(message);
  }

  lemma DigestIsFold(table: seq<bv32>, message: seq<byte>)
    requires |table| == 64
    ensures 8 * |message| < 0x1_0000_0000 ==> Fold(table, CodePadded(message)) == Digest(table, message)
  {
    hide Fold, Padded, CodePadded;
    PadsAsRfc(message);
    if 8 * |message| < 0x1_0000_0000 {
      assert 8 * |message| % 0x1_0000_0000_0000_0000 == 8 * |message|;
    }
  }

  /** `md5`: the whole message at once gives the RFC's digest. */
  method Hash(table: seq<bv32>, message: seq<byte>, bits: nat) returns (hash: seq<byte>)
    requires |table| == 64 && bits < 0x1_0000_0000 && bits % 8 == 0 && bits / 8 <= |message|
    ensures hash == Bytes16(Digest(table, message[..bits / 8]))
  {
    hide Fold, Padded, Bytes16, RegsOf, CodePadded, Digest;
    var ctx := new Context(table);
    var at, length := 0, bits;
    assert message[..0] == [];
    while length >= 512
      invariant at + length / 8 == bits / 8 && length % 8 == 0
      invariant ctx.Processed(message[..at]) && fresh(ctx) && fresh(ctx.a) && ctx.table == table
    {
      ctx.NextBlock(message[at..], message[..at]);
      assert message[..at] + message[at..][..64] == message[..at + 64];
      CounterStep(at);
      length := length - 512;
      at := at + 64;
    }
    assert message[..at] + message[at..][..length / 8] == message[..bits / 8];
    ctx.LastBlock(message[at..], length, message[..at]);
    DigestIsFold(table, message[..bits / 8]);
    hash := Ctx2Hash(ctx);
  }

  function Flatten(blocks: seq<seq<byte>>): seq<byte> {
    if blocks == [] then [] else Flatten(blocks[..|blocks| - 1]) + blocks[|blocks| - 1]
  }

  lemma NothingToFlatten(blocks: seq<seq<byte>>)
    ensures Flatten(blocks[..0]) == []
  {
  }

  lemma FlattenStep(blocks: seq<seq<byte>>, i: nat)
    requires i < |blocks| && |blocks[i]| == 64
    ensures Flatten(blocks[..i + 1]) == Flatten(blocks[..i]) + blocks[i][..64]
    ensures |Flatten(blocks[..i + 1])| == |Flatten(blocks[..i])| + 64
  {
    assert blocks[..i + 1][..i] == blocks[..i];
  }

  /** Streaming: any whole blocks one by one, then a last piece of up to 65535 bits, give the fold over
      the padded concatenation: the RFC's digest while the length fits the 32-bit field. */
  method StreamHash(table: seq<bv32>, blocks: seq<seq<byte>>, last: seq<byte>) returns (hash: seq<byte>)
    requires |table| == 64 && 8 * |last| < 0x1_0000
    requires forall i :: 0 <= i < |blocks| ==> |blocks[i]| == 64
    ensures hash == Bytes16(Fold(table, CodePadded(Flatten(blocks) + last)))
    ensures 8 * |Flatten(blocks) + last| < 0x1_0000_0000 ==>
              hash == Bytes16(Digest(table, Flatten(blocks) + last))
  {
    hide Fold, Padded, Bytes16, RegsOf, CodePadded, Flatten, Digest;
    NothingToFlatten(blocks);
    var ctx := new Context(table);
    for i := 0 to |blocks|
      invariant ctx.Processed(Flatten(blocks[..i])) && fresh(ctx) && fresh(ctx.a) && ctx.table == table
    {
      FlattenStep(blocks, i);
      CounterStep(|Flatten(blocks[..i])|);
      ctx.NextBlock(blocks[i], Flatten(blocks[..i]));
    }
    assert blocks[..|blocks|] == blocks && last[..|last|] == last;
    ctx.LastBlock(last, 8 * |last|, Flatten(blocks));
    DigestIsFold(table, Flatten(blocks) + last);
    hash := Ctx2Hash(ctx);
  }
}
