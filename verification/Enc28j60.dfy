/** The ENC28J60 driver's register access: a cached bank number in front of a banked register file. */
module Enc28j60 {

  // ----- register addresses: bit 7 dummy byte, bits 6..5 bank, bits 4..0 register

  const KEY_REGISTERS: bv8 := 0x1B
  const BSEL: bv8 := 0x03

  const ERXSTL: bv8 := 0x08
  const ERXSTH: bv8 := 0x09
  const ERXNDL: bv8 := 0x0A
  const ERXNDH: bv8 := 0x0B
  const ERXRDPTL: bv8 := 0x0C
  const ERXRDPTH: bv8 := 0x0D
  const ERXWRPTL: bv8 := 0x0E
  const ERXWRPTH: bv8 := 0x0F
  const ETXSTL: bv8 := 0x04
  const ETXSTH: bv8 := 0x05
  const ERXFCON: bv8 := 0x38
  const MACON1: bv8 := 0xC0
  const MACON2: bv8 := 0xC1
  const MACON3: bv8 := 0xC2
  const MABBIPG: bv8 := 0xC4
  const MAIPGL: bv8 := 0xC6
  const MAIPGH: bv8 := 0xC7
  const MAMXFLL: bv8 := 0xCA
  const MAMXFLH: bv8 := 0xCB
  const MICMD: bv8 := 0xD2
  const MIREGADR: bv8 := 0xD4
  const MIWRL: bv8 := 0xD6
  const MIWRH: bv8 := 0xD7
  const MIRDL: bv8 := 0xD8
  const MIRDH: bv8 := 0xD9
  const MAADR1: bv8 := 0xE0
  const MAADR0: bv8 := 0xE1
  const MAADR3: bv8 := 0xE2
  const MAADR2: bv8 := 0xE3
  const MAADR5: bv8 := 0xE4
  const MAADR4: bv8 := 0xE5
  const MISTAT: bv8 := 0xEA
  const EIE: bv8 := 0x1B
  const ESTAT: bv8 := 0x1D
  const ECON2: bv8 := 0x1E
  const ECON1: bv8 := 0x1F

  function RegOf(address: bv8): bv8 { address & 0x1F }

  function BankOf(address: bv8): bv8 { (address & 0x60) >> 5 }

  /** Registers that every bank shows. */
  predicate IsKey(address: bv8) { RegOf(address) >= KEY_REGISTERS }

  datatype Op = Rcr | Wcr | Bfs | Bfc

  /** One register access as the chip saw it: `bank` is the hardware bank at that moment,
      `address` what the caller asked for. */
  datatype Access = Access(op: Op, bank: bv8, address: bv8, data: bv8)

  /** A banked access went to the bank its address names. */
  predicate Right(a: Access) {
    IsKey(a.address) || a.bank == BankOf(a.address)
  }

  predicate AllRight(log: seq<Access>) {
    forall i :: 0 <= i < |log| ==> Right(log[i])
  }

  /** A change to physical register `cell`: bank in bits 6..5, or a key register. */
  datatype Setting = Setting(op: Op, cell: bv8, data: bv8)

  /** The physical register the chip touches when `bank` is selected: SPI carries five address bits. */
  function CellHit(bank: bv8, address: bv8): bv8 {
    if IsKey(address) then RegOf(address) else (bank << 5) | RegOf(address)
  }

  /** The banked register behind an address: bank in bits 6..5, register below. */
  function Place(address: bv8): bv8 { address & 0x7F }

  /** The physical register an address names. */
  function Cell(address: bv8): bv8 {
    if IsKey(address) then RegOf(address) else Place(address)
  }

  /** Bank-select bits after an access. */
  function BselAfter(bsel: bv8, op: Op, address: bv8, data: bv8): bv8 {
    if RegOf(address) != RegOf(ECON1) then bsel
    else match op
      case Rcr => bsel
      case Wcr => data & BSEL
      case Bfs => bsel | (data & BSEL)
      case Bfc => bsel & !(data & BSEL)
  }

  /** Accesses that only choose a bank. */
  predicate SelectsBank(op: Op, address: bv8, data: bv8) {
    RegOf(address) == RegOf(ECON1) && (op == Bfs || op == Bfc) && data & !BSEL == 0
  }

  /** What one access changes in the chip, bank selection aside. */
  function Effect(a: Access): seq<Setting> {
    if a.op == Rcr || SelectsBank(a.op, a.address, a.data) then []
    else [Setting(a.op, CellHit(a.bank, a.address), a.data)]
  }

  /** What an access asks for. */
  function Wanted(op: Op, address: bv8, data: bv8): seq<Setting> {
    if op == Rcr || SelectsBank(op, address, data) then [] else [Setting(op, Cell(address), data)]
  }

  lemma WantedBanked(op: Op, address: bv8, data: bv8)
    requires !IsKey(address)
    ensures Wanted(op, address, data) == if op == Rcr then [] else [Setting(op, Place(address), data)]
  {
  }

  /** What a log programs into the chip. */
  function Programming(log: seq<Access>): seq<Setting> {
    if log == [] then [] else Programming(log[..|log| - 1]) + Effect(log[|log| - 1])
  }

  lemma AllRightStep(log: seq<Access>, a: Access)
    ensures AllRight(log + [a]) <==> AllRight(log) && Right(a)
  {
    assert forall i :: 0 <= i < |log| ==> (log + [a])[i] == log[i];
    assert (log + [a])[|log|] == a;
  }

  /** One more access after others that changed nothing. */
  lemma AccessStep(before: seq<Access>, log: seq<Access>, a: Access)
    requires Programming(log) == Programming(before) && (AllRight(log) <==> AllRight(before))
    ensures Programming(log + [a]) == Programming(before) + Effect(a)
    ensures AllRight(log + [a]) <==> AllRight(before) && Right(a)
  {
    hide Right, Effect;
    assert (log + [a])[..|log|] == log;
    AllRightStep(log, a);
  }

  lemma SameTail(front: seq<Setting>, a: seq<Setting>, b: seq<Setting>)
    ensures front + a == front + b <==> a == b
  {
    assert (front + a)[|front|..] == a && (front + b)[|front|..] == b;
  }

  lemma BankInCell(bank: bv8, x: bv8)
    requires bank & !BSEL == 0
    ensures (bank << 5) | (x & 0x1F) == x & 0x7F <==> bank == (x & 0x60) >> 5
  {
    assert bank & 0xFC == 0;
    assert ((bank << 5) | (x & 0x1F)) & 0x60 == bank << 5;
    assert (bank << 5) >> 5 == bank;
    assert (((x & 0x60) >> 5) << 5) | (x & 0x1F) == x & 0x7F;
    assert (x & 0x7F) & 0x60 == x & 0x60;
  }

  /** A changing access touches the register it names exactly when it is made in the right bank. */
  lemma RightHits(a: Access)
    requires a.bank & !BSEL == 0
    ensures CellHit(a.bank, a.address) == Cell(a.address) <==> Right(a)
    ensures Effect(a) == Wanted(a.op, a.address, a.data) <==> a.op == Rcr || Right(a)
  {
    BankInCell(a.bank, a.address);
  }

  /** What every physical register holds at the moment of a read. */
  type Reply = bv8 -> bv8

  /** What the chip answers to the next read of a physical register: scripted, or else ready, idle and zero. */
  function Answer(answers: seq<Reply>, cell: bv8): bv8 {
    if answers != [] then answers[0](cell) else if cell == 0x1D then 1 else 0
  }

  function Rest(answers: seq<Reply>): (r: seq<Reply>)
    ensures |r| <= |answers| && (answers != [] ==> |r| < |answers|)
  {
    if answers == [] then [] else answers[1..]
  }

  function Word(low: bv8, high: bv8): bv16 {
    low as bv16 | (high as bv16 << 8)
  }

  /** The PHY register value in the next two answers, low byte first. */
  function PhyWord(answers: seq<Reply>): bv16 {
    Word(Answer(answers, 0x58), Answer(Rest(answers), 0x59))
  }

  /** The answers left once ESTAT has reported a running clock. */
  function AfterReady(answers: seq<Reply>): seq<Reply>
    decreases |answers|
  {
    if Answer(answers, 0x1D) & 1 != 0 then Rest(answers) else AfterReady(Rest(answers))
  }

  /** The answers left once MISTAT has reported an idle MII. */
  function AfterIdle(answers: seq<Reply>): seq<Reply>
    decreases |answers|
  {
    if Answer(answers, 0x6A) & 1 == 0 then Rest(answers) else AfterIdle(Rest(answers))
  }

  lemma BselKept(bsel: bv8, op: Op, address: bv8, data: bv8)
    requires bsel & !BSEL == 0
    ensures BselAfter(bsel, op, address, data) & !BSEL == 0
  {
    assert (data & BSEL) & !BSEL == 0;
    assert (bsel | (data & BSEL)) & !BSEL == 0;
    assert (bsel & !(data & BSEL)) & !BSEL == 0;
  }

  class Chip {
    /** ECON1 bits 1..0. */
    var bsel: bv8
    var log: seq<Access>
    /** What the chip will answer to coming reads. */
    var answers: seq<Reply>

    ghost predicate Valid()
      reads this
    {
      bsel & !BSEL == 0
    }

    constructor (answers: seq<Reply>)
      ensures Valid() && bsel == 0 && log == [] && this.answers == answers
    {
      this.bsel, this.log, this.answers := 0, [], answers;
    }

    method Command(op: Op, address: bv8, data: bv8)
      requires Valid() && op != Rcr
      modifies `bsel, `log
      ensures Valid() && bsel == BselAfter(old(bsel), op, address, data)
      ensures log == old(log) + [Access(op, old(bsel), address, data)]
    {
      log := log + [Access(op, bsel, address, data)];
      ghost var was := bsel;
      bsel := BselAfter(bsel, op, address, data);
      BselKept(was, op, address, data);
    }

    method Read(address: bv8) returns (data: bv8)
      requires Valid()
      modifies `log, `answers
      ensures Valid() && log == old(log) + [Access(Rcr, old(bsel), address, 0)]
      ensures data == Answer(old(answers), CellHit(old(bsel), address)) && answers == Rest(old(answers))
    {
      log := log + [Access(Rcr, bsel, address, 0)];
      data := Answer(answers, CellHit(bsel, address));
      answers := Rest(answers);
    }

    /** A soft reset selects bank 0. */
    method Reset()
      modifies `bsel
      ensures Valid() && bsel == 0
    {
      bsel := 0;
    }
  }

  /** Clearing both select bits and setting the wanted ones selects the bank. */
  lemma SwitchSelects(bsel: bv8, bank: bv8)
    requires bsel & !BSEL == 0 && bank & !BSEL == 0
    ensures BselAfter(bsel, Bfc, ECON1, BSEL) == 0 && bank & BSEL == bank
    ensures BselAfter(BselAfter(bsel, Bfc, ECON1, BSEL), Bfs, ECON1, bank & BSEL) == bank
    ensures Wanted(Bfc, ECON1, BSEL) == [] && Wanted(Bfs, ECON1, bank & BSEL) == []
  {
    assert bsel & !(BSEL & BSEL) == 0;
    assert (0 as bv8) | ((bank & BSEL) & BSEL) == bank;
    assert BSEL & !BSEL == 0 && (bank & BSEL) & !BSEL == 0;
  }

  lemma BankBits(address: bv8)
    ensures BankOf(address) & !BSEL == 0 && IsKey(ECON1) && IsKey(ESTAT)
  {
  }

  lemma OnlyKeyMovesBank(bsel: bv8, op: Op, address: bv8, data: bv8)
    ensures !IsKey(address) ==> BselAfter(bsel, op, address, data) == bsel
  {
  }

  /** The bank an access really reaches, given the cached bank number. */
  function Reached(cached: bv8, bsel: bv8, address: bv8): bv8 {
    if !IsKey(address) && BankOf(address) != cached then BankOf(address) else bsel
  }

  /** What the driver's bank handling depends on: cached bank, hardware bank, accesses so far. */
  datatype State = State(cached: bv8, bsel: bv8, log: seq<Access>)

  /** An access to `address` will be made in the bank it names: it has none, or names another bank
      than the cached one, or the cache is right. */
  predicate Reaches(was: State, address: bv8) {
    IsKey(address) || BankOf(address) != was.cached || was.bsel == was.cached
  }

  /** The two accesses of `switch_bank`. */
  function Switch(bsel: bv8, bank: bv8): seq<Access> {
    [Access(Bfc, bsel, ECON1, BSEL), Access(Bfs, 0, ECON1, bank)]
  }

  /** The accesses before one to `address`: a bank switch if a banked register in another bank than
      the cached one is wanted. */
  function Selecting(was: State, address: bv8): seq<Access> {
    if !IsKey(address) && BankOf(address) != was.cached then Switch(was.bsel, BankOf(address)) else []
  }

  /** From `was` to `now` the driver made one access to `address`. */
  ghost predicate Made(was: State, now: State, op: Op, address: bv8, data: bv8) {
    var bank := Reached(was.cached, was.bsel, address);
    && now.log == was.log + Selecting(was, address) + [Access(op, bank, address, data)]
    && now.cached == (if IsKey(address) then was.cached else BankOf(address))
    && now.bsel == BselAfter(bank, op, address, data)
  }

  /** What an access comes to. Where it reaches the bank its address names, it is right and changes
      the register named; otherwise it is a wrong access and a change lands in another register. A
      banked access leaves the cache right exactly when it was right itself. */
  ghost predicate Lands(was: State, now: State, op: Op, address: bv8, data: bv8) {
    && (AllRight(now.log) <==> AllRight(was.log) && Reaches(was, address))
    && (Programming(now.log) == Programming(was.log) + Wanted(op, address, data) <==>
        op == Rcr || Reaches(was, address))
    && (!IsKey(address) ==> (now.bsel == now.cached <==> Reaches(was, address)))
  }

  lemma SwitchIsQuiet(bsel: bv8, bank: bv8)
    requires bank & !BSEL == 0
    ensures var s := Switch(bsel, bank); Right(s[0]) && Right(s[1]) && Effect(s[0]) == [] && Effect(s[1]) == []
  {
  }

  /** Choosing a bank is no banked access and programs nothing. */
  lemma SelectingChangesNothing(was: State, address: bv8)
    ensures AllRight(was.log + Selecting(was, address)) <==> AllRight(was.log)
    ensures Programming(was.log + Selecting(was, address)) == Programming(was.log)
  {
    hide AllRight, Programming, IsKey;
    BankBits(address);
    if Selecting(was, address) != [] {
      var s := Switch(was.bsel, BankOf(address));
      SwitchIsQuiet(was.bsel, BankOf(address));
      AccessStep(was.log, was.log, s[0]);
      AccessStep(was.log, was.log + [s[0]], s[1]);
      assert was.log + [s[0]] + [s[1]] == was.log + s;
    } else {
      assert was.log + [] == was.log;
    }
  }

  /** With a stale cache exactly the accesses that ask for the cached bank go wrong. */
  lemma StaleCache(was: State, now: State, op: Op, address: bv8, data: bv8)
    requires Made(was, now, op, address, data) && was.bsel & !BSEL == 0
    ensures Lands(was, now, op, address, data)
  {
    hide AllRight, Programming, BankOf, Effect, Wanted, RegOf, BselAfter, Selecting;
    var a := Access(op, Reached(was.cached, was.bsel, address), address, data);
    BankBits(address);
    SelectingChangesNothing(was, address);
    AccessStep(was.log, was.log + Selecting(was, address), a);
    RightHits(a);
    SameTail(Programming(was.log), Effect(a), Wanted(op, address, data));
    OnlyKeyMovesBank(a.bank, op, address, data);
  }

  /** After a reset with cached bank 3, a write to MAADR1 in bank 3 lands in register 0 of bank 0. */
  lemma StaleCacheMisdirects(now: State, data: bv8)
    requires Made(State(3, 0, []), now, Wcr, MAADR1, data)
    ensures !AllRight(now.log) && Programming(now.log) == [Setting(Wcr, 0x00, data)]
  {
    var a := Access(Wcr, 0, MAADR1, data);
    assert now.log == [a] && !Right(now.log[0]);
    assert Programming([]) == [] && [a][..0] == [];
  }

  lemma MadeMeans(was: State, now: State, op: Op, address: bv8, data: bv8)
    requires Made(was, now, op, address, data) && !IsKey(address)
    ensures now.cached == BankOf(address)
  {
  }

  /** Where the cache is right, a banked access is made in its bank and keeps the cache right. */
  lemma CoherentAccess(was: State, now: State, op: Op, address: bv8, data: bv8)
    requires Made(was, now, op, address, data) && was.bsel & !BSEL == 0 && was.bsel == was.cached && !IsKey(address)
    ensures AllRight(now.log) <==> AllRight(was.log)
    ensures now.bsel == now.cached == BankOf(address)
    ensures Programming(now.log) ==
              Programming(was.log) + if op == Rcr then [] else [Setting(op, Place(address), data)]
  {
    hide AllRight, Programming, BankOf, Made, IsKey, BselAfter;
    StaleCache(was, now, op, address, data);
    WantedBanked(op, address, data);
    MadeMeans(was, now, op, address, data);
  }

  /** A register that every bank shows is always reached. */
  lemma KeyAccess(was: State, now: State, op: Op, address: bv8, data: bv8)
    requires Made(was, now, op, address, data) && was.bsel & !BSEL == 0 && IsKey(address)
    ensures AllRight(now.log) <==> AllRight(was.log)
    ensures now.cached == was.cached && now.bsel == BselAfter(was.bsel, op, address, data)
    ensures Programming(now.log) == Programming(was.log) + Wanted(op, address, data)
  {
    hide AllRight, Programming, BankOf, Effect, Wanted, RegOf, BselAfter, IsKey;
    StaleCache(was, now, op, address, data);
    SelectingChangesNothing(was, address);
    AccessStep(was.log, was.log, Access(op, was.bsel, address, data));
    RightHits(Access(op, was.bsel, address, data));
  }

  // ----- what initialisation programs

  /** `uip_ethaddr`, NET_FULL_DUPLEX and NET_MAX_FRAME_LENGTH of the configuration. */
  datatype Setup = Setup(mac: seq<bv8>, fullDuplex: bool, maxFrame: bv16) {
    ghost predicate Valid() { |mac| == 6 }
  }

  function Lo8(x: bv16): bv8 { (x & 0xFF) as bv8 }

  function Hi8(x: bv16): bv8 { (x >> 8) as bv8 }

  function ReceiveProgram(): seq<Setting> {
    [Setting(Wcr, 0x08, 0), Setting(Wcr, 0x09, 0), Setting(Wcr, 0x0A, 0xFF), Setting(Wcr, 0x0B, 0x0F)]
  }

  function PointerProgram(): seq<Setting> {
    [Setting(Wcr, 0x04, 0), Setting(Wcr, 0x05, 0x10),
     Setting(Wcr, 0x0C, 0), Setting(Wcr, 0x0D, 0), Setting(Wcr, 0x0E, 0), Setting(Wcr, 0x0F, 0)]
  }

  function MacProgram(): seq<Setting> {
    [Setting(Bfc, 0x41, 0x80), Setting(Bfs, 0x40, 0x0D), Setting(Bfs, 0x42, 0x32)]
  }

  function PhyProgram(address: bv8, data: bv16): seq<Setting> {
    [Setting(Wcr, 0x54, address), Setting(Wcr, 0x56, Lo8(data)), Setting(Wcr, 0x57, Hi8(data))]
  }

  function PhyReadProgram(address: bv8): seq<Setting> {
    [Setting(Wcr, 0x54, address), Setting(Bfs, 0x52, 1), Setting(Bfc, 0x52, 1)]
  }

  function DuplexProgram(full: bool): seq<Setting> {
    if full then [Setting(Bfs, 0x42, 1), Setting(Wcr, 0x44, 0x12), Setting(Wcr, 0x46, 0x12), Setting(Wcr, 0x47, 0x0C)]
    else [Setting(Bfc, 0x42, 1), Setting(Wcr, 0x44, 0x15), Setting(Wcr, 0x46, 0x12), Setting(Wcr, 0x47, 0x0C)]
  }

  function FrameProgram(maxFrame: bv16): seq<Setting> {
    [Setting(Wcr, 0x4A, Lo8(maxFrame + 4)), Setting(Wcr, 0x4B, Hi8(maxFrame + 4))]
  }

  function AddressProgram(mac: seq<bv8>): seq<Setting>
    requires |mac| == 6
  {
    [Setting(Wcr, 0x64, mac[0]), Setting(Wcr, 0x65, mac[1]), Setting(Wcr, 0x62, mac[2]),
     Setting(Wcr, 0x63, mac[3]), Setting(Wcr, 0x60, mac[4]), Setting(Wcr, 0x61, mac[5])]
  }

  function StartProgram(): seq<Setting> {
    PhyProgram(0x14, 0x0C12) + [Setting(Wcr, 0x1B, 0xDB)] + PhyProgram(0x12, 0x12) +
    [Setting(Bfs, 0x1F, 0x04), Setting(Bfs, 0x1E, 0x80)]
  }

  /** Answers left when PHCON1 is about to be read back. */
  function BeforeReadBack(answers: seq<Reply>): seq<Reply> {
    AfterIdle(AfterIdle(AfterReady(answers)))
  }

  /** PHCON1 reads back as full duplex. */
  predicate FullDuplex(answers: seq<Reply>) {
    Answer(Rest(BeforeReadBack(answers)), 0x59) & 1 != 0
  }

  /** The part of initialisation that ends with the duplex registers. */
  function MediaProgram(setup: Setup, answers: seq<Reply>): seq<Setting> {
    MacProgram() + PhyProgram(0, if setup.fullDuplex then 0x100 else 0) + PhyReadProgram(0) +
    DuplexProgram(FullDuplex(answers))
  }

  /** The part that follows it. */
  function FilterProgram(setup: Setup): seq<Setting>
    requires setup.Valid()
  {
    FrameProgram(setup.maxFrame) + AddressProgram(setup.mac) + [Setting(Wcr, 0x38, 0x83)] + StartProgram()
  }

  /** Everything `init_enc28j60` changes in the chip: a function of the configuration and of what
      the PHY answers, not of the cached bank. */
  function InitProgram(setup: Setup, answers: seq<Reply>): seq<Setting>
    requires setup.Valid()
  {
    ReceiveProgram() + PointerProgram() + MediaProgram(setup, answers) + FilterProgram(setup)
  }

  function AfterInit(answers: seq<Reply>): seq<Reply> {
    AfterIdle(AfterIdle(Rest(Rest(BeforeReadBack(answers)))))
  }

  lemma DuplexBit(answers: seq<Reply>)
    ensures PhyWord(answers) & 0x100 != 0 <==> Answer(Rest(answers), 0x59) & 1 != 0
  {
    hide Answer, Rest;
  }

  class Driver {
    const chip: Chip
    const setup: Setup

    /** `enc28j60_current_bank` */
    var currentBank: bv8

    /** `enc28j60_next_packet_pointer` */
    var nextPacket: bv16

    /** The fields are in range; the cache may be stale and past accesses wrong. */
    ghost predicate InRange()
      reads this, chip
    {
      chip.Valid() && currentBank & !BSEL == 0
    }

    ghost predicate Valid()
      reads this, chip
    {
      InRange() && AllRight(chip.log)
    }

    /** The cache agrees with the hardware. */
    ghost predicate Coherent()
      reads this, chip
    {
      Valid() && chip.bsel == currentBank
    }

    ghost function Now(): State
      reads this, chip
    {
      State(currentBank, chip.bsel, chip.log)
    }

    constructor (chip: Chip, setup: Setup)
      requires chip.Valid() && chip.bsel == 0 && chip.log == []
      ensures Coherent() && this.chip == chip && this.setup == setup
    {
      this.chip, this.setup, this.currentBank, this.nextPacket := chip, setup, 0, 0;
    }

    /** The bank check that opens every register access. */
    method SelectFor(address: bv8)
      requires InRange()
      modifies `currentBank, chip`bsel, chip`log
      ensures InRange() && chip.bsel == Reached(old(currentBank), old(chip.bsel), address)
      ensures currentBank == if IsKey(address) then old(currentBank) else BankOf(address)
      ensures chip.log == old(chip.log) + Selecting(old(Now()), address)
      decreases if IsKey(address) then 0 else 3
    {
      hide BankOf;
      BankBits(address);
      if RegOf(address) < KEY_REGISTERS && BankOf(address) != currentBank {
        SwitchBank(BankOf(address));
      }
    }

    /** `bit_field_modify` */
    method BitFieldModify(address: bv8, mask: bv8, opcode: Op)
      requires InRange() && (opcode == Bfs || opcode == Bfc)
      modifies `currentBank, chip`bsel, chip`log
      ensures InRange() && Made(old(Now()), Now(), opcode, address, mask) &&
              Lands(old(Now()), Now(), opcode, address, mask)
      ensures old(Coherent()) && address & 0x1F < KEY_REGISTERS ==>
                && Coherent() && currentBank == (address & 0x60) >> 5
                && Programming(chip.log) == Programming(old(chip.log)) + [Setting(opcode, address & 0x7F, mask)]
      decreases if IsKey(address) then 1 else 4
    {
      hide AllRight, Programming, Effect;
      ghost var was := Now();
      SelectFor(address);
      chip.Command(opcode, address, mask);
      StaleCache(was, Now(), opcode, address, mask);
      if was.bsel == was.cached && !IsKey(address) {
        CoherentAccess(was, Now(), opcode, address, mask);
      }
    }

    /** `switch_bank` */
    method SwitchBank(bank: bv8)
      requires InRange() && bank & !BSEL == 0
      modifies `currentBank, chip`bsel, chip`log
      ensures InRange() && chip.bsel == currentBank == bank
      ensures chip.log == old(chip.log) + Switch(old(chip.bsel), bank)
      decreases 2
    {
      hide AllRight, Programming, BankOf, IsKey, BselAfter;
      BankBits(ECON1);
      SwitchSelects(chip.bsel, bank);
      BitFieldModify(ECON1, BSEL, Bfc);
      BitFieldModify(ECON1, bank & BSEL, Bfs);
      currentBank := bank;
    }

    /** `write_control_register` */
    method WriteControlRegister(address: bv8, data: bv8)
      requires InRange()
      modifies `currentBank, chip`bsel, chip`log
      ensures InRange() && Made(old(Now()), Now(), Wcr, address, data) && Lands(old(Now()), Now(), Wcr, address, data)
      ensures old(Coherent()) && address & 0x1F < KEY_REGISTERS ==>
                && Coherent() && currentBank == (address & 0x60) >> 5
                && Programming(chip.log) == Programming(old(chip.log)) + [Setting(Wcr, address & 0x7F, data)]
    {
      hide AllRight, Programming, Effect;
      ghost var was := Now();
      SelectFor(address);
      chip.Command(Wcr, address, data);
      StaleCache(was, Now(), Wcr, address, data);
      if was.bsel == was.cached && !IsKey(address) {
        CoherentAccess(was, Now(), Wcr, address, data);
      }
    }

    /** `read_control_register` */
    method ReadControlRegister(address: bv8) returns (data: bv8)
      requires InRange()
      modifies `currentBank, chip
      ensures InRange() && Made(old(Now()), Now(), Rcr, address, 0) && Lands(old(Now()), Now(), Rcr, address, 0)
      ensures old(Coherent()) && address & 0x1F < KEY_REGISTERS ==>
                Coherent() && currentBank == (address & 0x60) >> 5
      ensures Programming(chip.log) == Programming(old(chip.log))
      ensures chip.answers == Rest(old(chip.answers))
      ensures data == Answer(old(chip.answers), CellHit(Reached(old(currentBank), old(chip.bsel), address), address))
      ensures old(Coherent()) && address & 0x1F < KEY_REGISTERS ==> data == Answer(old(chip.answers), address & 0x7F)
      ensures address & 0x1F >= KEY_REGISTERS ==> data == Answer(old(chip.answers), address & 0x1F)
    {
      hide AllRight, Programming, Effect, Answer, Rest;
      ghost var was := Now();
      SelectFor(address);
      data := chip.Read(address);
      StaleCache(was, Now(), Rcr, address, 0);
      if was.bsel == was.cached && !IsKey(address) {
        CoherentAccess(was, Now(), Rcr, address, 0);
      }
    }

    /** `reset_controller`: the hardware bank falls back to 0 behind the cache's back. */
    method ResetController()
      requires Valid()
      modifies `currentBank, chip
      ensures Valid() && chip.bsel == 0 && currentBank == old(currentBank)
      ensures Programming(chip.log) == Programming(old(chip.log))
      ensures chip.answers == AfterReady(old(chip.answers))
    {
      hide AllRight, Programming, BankOf, IsKey, Made, Lands;
      chip.Reset();
      BankBits(ESTAT);
      ghost var s := Now();
      var status := ReadControlRegister(ESTAT);
      KeyAccess(s, Now(), Rcr, ESTAT, 0);
      while status & 1 == 0
        invariant Valid() && chip.bsel == 0 && currentBank == old(currentBank)
        invariant Programming(chip.log) == Programming(old(chip.log))
        invariant AfterReady(old(chip.answers)) == if status & 1 == 0 then AfterReady(chip.answers) else chip.answers
        decreases |chip.answers|, if status & 1 == 0 then 1 else 0
      {
        s := Now();
        status := ReadControlRegister(ESTAT);
        KeyAccess(s, Now(), Rcr, ESTAT, 0);
      }
    }

    /** A reset followed by one write: the write goes wrong exactly when it asks for the cached bank
        and that is not bank 0. */
    method WriteAfterReset(address: bv8, data: bv8)
      requires Valid()
      modifies `currentBank, chip
      ensures Valid() <==> IsKey(address) || BankOf(address) == 0 || BankOf(address) != old(currentBank)
      ensures Programming(chip.log) == Programming(old(chip.log)) + Wanted(Wcr, address, data) <==> Valid()
    {
      hide AllRight, Programming, BankOf, IsKey, Wanted, Made;
      ResetController();
      WriteControlRegister(address, data);
    }

    /** The MISTAT polling loop of `read_phy` and `write_phy`. */
    method WaitIdle()
      requires Coherent()
      modifies `currentBank, chip
      ensures Coherent() && currentBank == 3 && chip.answers == AfterIdle(old(chip.answers))
      ensures Programming(chip.log) == Programming(old(chip.log))
    {
      hide AllRight, Programming, Made, Lands;
      var status := ReadControlRegister(MISTAT);
      while status & 1 != 0
        invariant Coherent() && currentBank == 3
        invariant Programming(chip.log) == Programming(old(chip.log))
        invariant AfterIdle(old(chip.answers)) == if status & 1 != 0 then AfterIdle(chip.answers) else chip.answers
        decreases |chip.answers|, if status & 1 != 0 then 1 else 0
      {
        status := ReadControlRegister(MISTAT);
      }
    }

    /** `write_phy` */
    method WritePhy(address: bv8, data: bv16)
      requires Coherent()
      modifies `currentBank, chip
      ensures Coherent() && currentBank == 3 && chip.answers == AfterIdle(old(chip.answers))
      ensures Programming(chip.log) == Programming(old(chip.log)) + PhyProgram(address, data)
    {
      hide AllRight, Programming, Made, Lands, BankOf, IsKey, RegOf;
      WriteControlRegister(MIREGADR, address);
      WriteControlRegister(MIWRL, Lo8(data));
      WriteControlRegister(MIWRH, Hi8(data));
      WaitIdle();
    }

    /** `read_phy` */
    method ReadPhy(address: bv8) returns (data: bv16)
      requires Coherent()
      modifies `currentBank, chip
      ensures Coherent()
      ensures Programming(chip.log) == Programming(old(chip.log)) + PhyReadProgram(address)
      ensures data == PhyWord(AfterIdle(old(chip.answers)))
      ensures chip.answers == Rest(Rest(AfterIdle(old(chip.answers))))
    {
      hide AllRight, Programming, Made, Lands, BankOf, IsKey, RegOf, AfterIdle, Answer, Rest, Word;
      WriteControlRegister(MIREGADR, address);
      BitFieldModify(MICMD, 1, Bfs);
      WaitIdle();
      BitFieldModify(MICMD, 1, Bfc);
      var low := ReadControlRegister(MIRDL);
      var high := ReadControlRegister(MIRDH);
      data := Word(low, high);
    }

    method InitReceiveBuffer()
      requires Valid() && chip.bsel == 0
      modifies `currentBank, chip
      ensures Coherent() && chip.answers == old(chip.answers)
      ensures Programming(chip.log) == Programming(old(chip.log)) + ReceiveProgram()
    {
      hide AllRight, Programming, Made, BselAfter;
      WriteControlRegister(ERXSTL, 0);
      hide Lands;
      WriteControlRegister(ERXSTH, 0);
      WriteControlRegister(ERXNDL, 0xFF);
      WriteControlRegister(ERXNDH, 0x0F);
    }

    method InitPointers()
      requires Coherent()
      modifies `currentBank, `nextPacket, chip
      ensures Coherent() && nextPacket == 0 && chip.answers == old(chip.answers)
      ensures Programming(chip.log) == Programming(old(chip.log)) + PointerProgram()
    {
      hide AllRight, Programming, Made, Lands, BankOf, IsKey, RegOf;
      WriteControlRegister(ETXSTL, 0);
      WriteControlRegister(ETXSTH, 0x10);
      WriteControlRegister(ERXRDPTL, 0);
      WriteControlRegister(ERXRDPTH, 0);
      WriteControlRegister(ERXWRPTL, 0);
      WriteControlRegister(ERXWRPTH, 0);
      nextPacket := 0;
    }

    method InitMac()
      requires Coherent()
      modifies `currentBank, chip
      ensures Coherent() && chip.answers == old(chip.answers)
      ensures Programming(chip.log) == Programming(old(chip.log)) + MacProgram()
    {
      hide AllRight, Programming, Made, Lands, BankOf, IsKey, RegOf;
      BitFieldModify(MACON2, 0x80, Bfc);
      BitFieldModify(MACON1, 0x0D, Bfs);
      BitFieldModify(MACON3, 0x32, Bfs);
    }

    /** The duplex registers. */
    method InitGaps(full: bool)
      requires Coherent()
      modifies `currentBank, chip
      ensures Coherent() && chip.answers == old(chip.answers)
      ensures Programming(chip.log) == Programming(old(chip.log)) + DuplexProgram(full)
    {
      hide AllRight, Programming, Made, Lands, BankOf, IsKey, RegOf;
      if full {
        BitFieldModify(MACON3, 1, Bfs);
        WriteControlRegister(MABBIPG, 0x12);
        WriteControlRegister(MAIPGL, 0x12);
        WriteControlRegister(MAIPGH, 0x0C);
      } else {
        BitFieldModify(MACON3, 1, Bfc);
        WriteControlRegister(MABBIPG, 0x15);
        WriteControlRegister(MAIPGL, 0x12);
        WriteControlRegister(MAIPGH, 0x0C);
      }
    }

    /** Ask the PHY for the configured duplex mode, then follow what it reads back. */
    method InitDuplex()
      requires Coherent()
      modifies `currentBank, chip
      ensures Coherent()
      ensures Programming(chip.log) == Programming(old(chip.log)) +
                PhyProgram(0, if setup.fullDuplex then 0x100 else 0) + PhyReadProgram(0) +
                DuplexProgram(Answer(Rest(AfterIdle(AfterIdle(old(chip.answers)))), 0x59) & 1 != 0)
      ensures chip.answers == Rest(Rest(AfterIdle(AfterIdle(old(chip.answers)))))
    {
      hide AllRight, Programming, AfterIdle, Answer, Rest, PhyProgram, PhyReadProgram, DuplexProgram, PhyWord;
      DuplexBit(AfterIdle(AfterIdle(chip.answers)));
      WritePhy(0, if setup.fullDuplex then 0x100 else 0);
      var phcon1 := ReadPhy(0);
      InitGaps(phcon1 & 0x100 != 0);
    }

    method InitFrameLength()
      requires Coherent()
      modifies `currentBank, chip
      ensures Coherent() && chip.answers == old(chip.answers)
      ensures Programming(chip.log) == Programming(old(chip.log)) + FrameProgram(setup.maxFrame)
    {
      hide AllRight, Programming, Made, Lands, BankOf, IsKey, RegOf, Lo8, Hi8;
      WriteControlRegister(MAMXFLL, Lo8(setup.maxFrame + 4));
      WriteControlRegister(MAMXFLH, Hi8(setup.maxFrame + 4));
    }

    method InitAddress()
      requires Coherent() && setup.Valid()
      modifies `currentBank, chip
      ensures Coherent() && chip.answers == old(chip.answers)
      ensures Programming(chip.log) == Programming(old(chip.log)) + AddressProgram(setup.mac)
    {
      hide AllRight, Programming, Made, Lands, BankOf, IsKey, RegOf;
      WriteControlRegister(MAADR5, setup.mac[0]);
      WriteControlRegister(MAADR4, setup.mac[1]);
      WriteControlRegister(MAADR3, setup.mac[2]);
      WriteControlRegister(MAADR2, setup.mac[3]);
      WriteControlRegister(MAADR1, setup.mac[4]);
      WriteControlRegister(MAADR0, setup.mac[5]);
    }

    method InitStart()
      requires Coherent()
      modifies `currentBank, chip
      ensures Coherent() && chip.answers == AfterIdle(AfterIdle(old(chip.answers)))
      ensures Programming(chip.log) == Programming(old(chip.log)) + StartProgram()
    {
      hide AllRight, Programming, Made, Lands, AfterIdle, PhyProgram;
      WritePhy(0x14, 0x0C12);
      ghost var s := Now();
      WriteControlRegister(EIE, 0xDB);
      KeyAccess(s, Now(), Wcr, EIE, 0xDB);
      WritePhy(0x12, 0x12);
      s := Now();
      BitFieldModify(ECON1, 0x04, Bfs);
      KeyAccess(s, Now(), Bfs, ECON1, 0x04);
      s := Now();
      BitFieldModify(ECON2, 0x80, Bfs);
      KeyAccess(s, Now(), Bfs, ECON2, 0x80);
    }

    method InitMedia(ghost answers: seq<Reply>)
      requires Coherent() && chip.answers == AfterReady(answers)
      modifies `currentBank, chip
      ensures Coherent() && chip.answers == Rest(Rest(BeforeReadBack(answers)))
      ensures Programming(chip.log) == Programming(old(chip.log)) + MediaProgram(setup, answers)
    {
      hide AllRight, Programming, AfterReady, AfterIdle, Answer, Rest, MacProgram, PhyProgram, PhyReadProgram,
           DuplexProgram;
      InitMac();
      InitDuplex();
    }

    method InitFilter()
      requires Coherent() && setup.Valid()
      modifies `currentBank, chip
      ensures Coherent() && chip.answers == AfterIdle(AfterIdle(old(chip.answers)))
      ensures Programming(chip.log) == Programming(old(chip.log)) + FilterProgram(setup)
    {
      hide AllRight, Programming, Made, Lands, AfterIdle, FrameProgram, AddressProgram, StartProgram;
      InitFrameLength();
      InitAddress();
      WriteControlRegister(ERXFCON, 0x83);
      InitStart();
    }

    /** `init_enc28j60`: from any cached bank the same registers are programmed, and the cache is
        right again afterwards. */
    method InitEnc28j60()
      requires Valid() && setup.Valid()
      modifies `currentBank, `nextPacket, chip
      ensures Coherent() && nextPacket == 0 && chip.answers == AfterInit(old(chip.answers))
      ensures Programming(chip.log) == Programming(old(chip.log)) + InitProgram(setup, old(chip.answers))
    {
      hide AllRight, Programming, AfterReady, AfterIdle, Rest, BeforeReadBack, ReceiveProgram, PointerProgram,
        MediaProgram, FilterProgram;
      ResetController();
      InitReceiveBuffer();
      InitPointers();
      InitMedia(old(chip.answers));
      InitFilter();
    }
  }

  // ----- whole runs

  datatype Call = Write(address: bv8, data: bv8) | SetBits(address: bv8, data: bv8)
                | ClearBits(address: bv8, data: bv8) | ReadRegister(address: bv8) | Reinitialise

  /** Callers leave the bank-select bits of ECON1 to the driver. */
  predicate Polite(c: Call) {
    match c
    case Write(address, _) => RegOf(address) != RegOf(ECON1)
    case SetBits(address, data) => RegOf(address) == RegOf(ECON1) ==> data & BSEL == 0
    case ClearBits(address, data) => RegOf(address) == RegOf(ECON1) ==> data & BSEL == 0
    case _ => true
  }

  function CallProgram(c: Call, setup: Setup, answers: seq<Reply>): seq<Setting>
    requires setup.Valid()
  {
    match c
    case Write(address, data) => Wanted(Wcr, address, data)
    case SetBits(address, data) => Wanted(Bfs, address, data)
    case ClearBits(address, data) => Wanted(Bfc, address, data)
    case ReadRegister(_) => []
    case Reinitialise => InitProgram(setup, answers)
  }

  function CallAnswers(c: Call, answers: seq<Reply>): seq<Reply> {
    match c
    case ReadRegister(_) => Rest(answers)
    case Reinitialise => AfterInit(answers)
    case _ => answers
  }

  /** The replies left after a run. */
  function RunAnswers(calls: seq<Call>, answers: seq<Reply>): seq<Reply>
    decreases |calls|
  {
    if calls == [] then answers else RunAnswers(calls[1..], CallAnswers(calls[0], answers))
  }

  /** What a whole run programs: no bank number appears in it. */
  function RunProgram(calls: seq<Call>, setup: Setup, answers: seq<Reply>): seq<Setting>
    requires setup.Valid()
  {
    if calls == [] then []
    else CallProgram(calls[0], setup, answers) + RunProgram(calls[1..], setup, CallAnswers(calls[0], answers))
  }

  lemma {:induction false} RunsJoin(a: seq<Call>, b: seq<Call>, setup: Setup, answers: seq<Reply>)
    requires setup.Valid()
    ensures RunProgram(a + b, setup, answers) ==
            RunProgram(a, setup, answers) + RunProgram(b, setup, RunAnswers(a, answers))
    ensures |a| == 1 ==> RunProgram(a, setup, answers) == CallProgram(a[0], setup, answers)
    decreases |a|
  {
    hide CallProgram, CallAnswers;
    if a == [] {
      assert a + b == b;
    } else {
      assert (a + b)[1..] == a[1..] + b;
      RunsJoin(a[1..], b, setup, CallAnswers(a[0], answers));
    }
  }

  /** Only accesses to the bank-select bits of ECON1 (register 0x1F) are barred. */
  lemma BarredCalls(c: Call)
    ensures !Polite(c) ==> (c.Write? || c.SetBits? || c.ClearBits?) && c.address & 0x1F == 0x1F
    ensures !Polite(c) && !c.Write? ==> c.data & 3 != 0
  {
  }

  /** An access that a caller makes leaves the hardware bank alone. */
  lemma PoliteBits(bsel: bv8, c: Call)
    requires bsel & !BSEL == 0 && Polite(c)
    ensures c.Write? ==> BselAfter(bsel, Wcr, c.address, c.data) == bsel
    ensures c.SetBits? ==> BselAfter(bsel, Bfs, c.address, c.data) == bsel
    ensures c.ClearBits? ==> BselAfter(bsel, Bfc, c.address, c.data) == bsel
    ensures c.ReadRegister? ==> BselAfter(bsel, Rcr, c.address, 0) == bsel
  {
  }

  /** A caller's access keeps the cache right. */
  lemma PoliteAccess(was: State, now: State, op: Op, address: bv8, data: bv8, c: Call)
    requires Made(was, now, op, address, data) && was.bsel & !BSEL == 0 && was.bsel == was.cached && Polite(c)
    requires match c
             case Write(x, y) => op == Wcr && address == x && data == y
             case SetBits(x, y) => op == Bfs && address == x && data == y
             case ClearBits(x, y) => op == Bfc && address == x && data == y
             case ReadRegister(x) => op == Rcr && address == x && data == 0
             case Reinitialise => false
    ensures now.bsel == now.cached && (AllRight(now.log) <==> AllRight(was.log))
    ensures Programming(now.log) == Programming(was.log) + Wanted(op, address, data)
  {
    hide AllRight, Programming, BankOf, IsKey, Wanted, Made, BselAfter, Polite;
    StaleCache(was, now, op, address, data);
    if IsKey(address) {
      KeyAccess(was, now, op, address, data);
      PoliteBits(was.bsel, c);
    } else {
      CoherentAccess(was, now, op, address, data);
      WantedBanked(op, address, data);
    }
  }

  method Perform(driver: Driver, c: Call)
    requires driver.Coherent() && driver.setup.Valid() && Polite(c)
    modifies driver, driver.chip
    ensures driver.Coherent()
    ensures Programming(driver.chip.log) ==
              Programming(old(driver.chip.log)) + CallProgram(c, driver.setup, old(driver.chip.answers))
    ensures driver.chip.answers == CallAnswers(c, old(driver.chip.answers))
  {
    hide AllRight, Programming, AfterInit, Rest, InitProgram, Wanted, BankOf, IsKey, Polite, BselAfter, Made, Lands;
    ghost var was := driver.Now();
    match c
    case Write(address, data) =>
      driver.WriteControlRegister(address, data);
      PoliteAccess(was, driver.Now(), Wcr, address, data, c);
    case SetBits(address, data) =>
      driver.BitFieldModify(address, data, Bfs);
      PoliteAccess(was, driver.Now(), Bfs, address, data, c);
    case ClearBits(address, data) =>
      driver.BitFieldModify(address, data, Bfc);
      PoliteAccess(was, driver.Now(), Bfc, address, data, c);
    case ReadRegister(address) =>
      var _ := driver.ReadControlRegister(address);
      PoliteAccess(was, driver.Now(), Rcr, address, 0, c);
    case Reinitialise =>
      driver.InitEnc28j60();
  }

  /** In every run each banked access hits the bank its address names (`Valid`), the cache stays
      right, and the registers programmed are those the calls name. */
  method PerformAll(driver: Driver, calls: seq<Call>)
    requires driver.Coherent() && driver.setup.Valid()
    requires forall i :: 0 <= i < |calls| ==> Polite(calls[i])
    modifies driver, driver.chip
    ensures driver.Coherent()
    ensures Programming(driver.chip.log) ==
              Programming(old(driver.chip.log)) + RunProgram(calls, driver.setup, old(driver.chip.answers))
  {
    hide AllRight, Programming, CallAnswers, CallProgram, Polite;
    if calls != [] {
      Perform(driver, calls[0]);
      PerformAll(driver, calls[1..]);
    }
  }
}
