/** What the registers of the ENC28J60 hold after initialisation, from any contents before. */
module Enc28j60Setup {
  import opened Enc28j60

  /** The contents of a register after one change: written, or some bits set or cleared. */
  function Changed(s: Setting, cell: bv8, was: bv8): bv8 {
    if s.cell != cell then was
    else match s.op
      case Rcr => was
      case Wcr => s.data
      case Bfs => was | s.data
      case Bfc => was & !s.data
  }

  /** The contents of physical register `cell` after a list of changes. */
  function CellAfter(list: seq<Setting>, cell: bv8, was: bv8): bv8
    decreases |list|
  {
    if list == [] then was else CellAfter(list[1..], cell, Changed(list[0], cell, was))
  }

  lemma {:induction false} CellAfterBoth(a: seq<Setting>, b: seq<Setting>, cell: bv8, was: bv8)
    ensures CellAfter(a + b, cell, was) == CellAfter(b, cell, CellAfter(a, cell, was))
    decreases |a|
  {
    hide Changed;
    if a == [] {
      assert a + b == b;
    } else {
      assert (a + b)[1..] == a[1..] + b;
      CellAfterBoth(a[1..], b, cell, Changed(a[0], cell, was));
    }
  }

  lemma CellAfterOne(a: Setting, cell: bv8, was: bv8)
    ensures CellAfter([a], cell, was) == Changed(a, cell, was)
  {
    hide Changed;
    assert [a][1..] == [];
  }

  lemma CellAfterTwo(a: Setting, b: Setting, cell: bv8, was: bv8)
    ensures CellAfter([a, b], cell, was) == Changed(b, cell, Changed(a, cell, was))
  {
    hide Changed;
    assert [a, b][1..] == [b];
    CellAfterOne(b, cell, Changed(a, cell, was));
  }

  lemma CellAfterThree(a: Setting, b: Setting, c: Setting, cell: bv8, was: bv8)
    ensures CellAfter([a, b, c], cell, was) == Changed(c, cell, Changed(b, cell, Changed(a, cell, was)))
  {
    hide Changed;
    assert [a, b, c][1..] == [b, c];
    CellAfterTwo(b, c, cell, Changed(a, cell, was));
  }

  lemma CellAfterFour(a: Setting, b: Setting, c: Setting, d: Setting, cell: bv8, was: bv8)
    ensures CellAfter([a, b, c, d], cell, was) ==
            Changed(d, cell, Changed(c, cell, Changed(b, cell, Changed(a, cell, was))))
  {
    hide Changed;
    assert [a, b, c, d][1..] == [b, c, d];
    CellAfterThree(b, c, d, cell, Changed(a, cell, was));
  }

  lemma CellAfterSix(p: seq<Setting>, cell: bv8, was: bv8)
    requires |p| == 6
    ensures CellAfter(p, cell, was) ==
            Changed(p[5], cell, Changed(p[4], cell, Changed(p[3], cell,
              Changed(p[2], cell, Changed(p[1], cell, Changed(p[0], cell, was))))))
  {
    hide Changed, CellAfter;
    assert p == [p[0], p[1], p[2]] + [p[3], p[4], p[5]];
    CellAfterBoth([p[0], p[1], p[2]], [p[3], p[4], p[5]], cell, was);
    CellAfterThree(p[0], p[1], p[2], cell, was);
    CellAfterThree(p[3], p[4], p[5], cell, CellAfter([p[0], p[1], p[2]], cell, was));
  }

  /** The MII registers, which only carry accesses to the PHY. */
  predicate IsMii(cell: bv8) {
    cell == 0x52 || cell == 0x54 || cell == 0x56 || cell == 0x57
  }

  lemma ReceiveCells(cell: bv8, was: bv8)
    ensures CellAfter(ReceiveProgram(), cell, was) ==
            if cell == 0x08 || cell == 0x09 then 0 else if cell == 0x0A then 0xFF else if cell ==
              0x0B then 0x0F else was
  {
    var p := ReceiveProgram();
    CellAfterFour(p[0], p[1], p[2], p[3], cell, was);
  }

  lemma PointerCells(cell: bv8, was: bv8)
    ensures CellAfter(PointerProgram(), cell, was) ==
            if cell == 0x05 then 0x10 else if cell == 0x04 || 0x0C <= cell <= 0x0F then 0 else was
  {
    CellAfterSix(PointerProgram(), cell, was);
  }

  lemma MacCells(cell: bv8, was: bv8)
    ensures CellAfter(MacProgram(), cell, was) ==
            if cell == 0x41 then was & 0x7F else if cell == 0x40 then was | 0x0D else if cell == 0x42 then was | 0x32
            else was
  {
    var p := MacProgram();
    CellAfterThree(p[0], p[1], p[2], cell, was);
  }

  lemma PhyCells(address: bv8, data: bv16, cell: bv8, was: bv8)
    requires !IsMii(cell)
    ensures CellAfter(PhyProgram(address, data), cell, was) == was
    ensures CellAfter(PhyReadProgram(address), cell, was) == was
  {
    var p, q := PhyProgram(address, data), PhyReadProgram(address);
    CellAfterThree(p[0], p[1], p[2], cell, was);
    CellAfterThree(q[0], q[1], q[2], cell, was);
  }

  lemma DuplexCells(full: bool, cell: bv8, was: bv8)
    ensures CellAfter(DuplexProgram(full), cell, was) ==
            if cell == 0x42 then (if full then was | 0x01 else was & 0xFE)
            else if cell == 0x44 then (if full then 0x12 else 0x15)
            else if cell == 0x46 then 0x12 else if cell == 0x47 then 0x0C else was
  {
    var p := DuplexProgram(full);
    CellAfterFour(p[0], p[1], p[2], p[3], cell, was);
  }

  lemma FrameCells(maxFrame: bv16, cell: bv8, was: bv8)
    ensures CellAfter(FrameProgram(maxFrame), cell, was) ==
            if cell == 0x4A then Lo8(maxFrame + 4) else if cell == 0x4B then Hi8(maxFrame + 4) else was
  {
    hide Lo8, Hi8;
    var p := FrameProgram(maxFrame);
    CellAfterTwo(p[0], p[1], cell, was);
  }

  lemma AddressCells(mac: seq<bv8>, cell: bv8, was: bv8)
    requires |mac| == 6
    ensures CellAfter(AddressProgram(mac), cell, was) ==
            if cell == 0x64 then mac[0] else if cell == 0x65 then mac[1] else if cell == 0x62 then mac[2]
            else if cell == 0x63 then mac[3] else if cell == 0x60 then mac[4] else if cell == 0x61 then mac[5] else was
  {
    CellAfterSix(AddressProgram(mac), cell, was);
  }

  lemma StartCells(cell: bv8, was: bv8)
    requires !IsMii(cell)
    ensures CellAfter(StartProgram(), cell, was) ==
            if cell == 0x1B then 0xDB else if cell == 0x1F then was | 0x04 else if cell == 0x1E then was | 0x80 else was
  {
    hide CellAfter, PhyProgram, IsMii;
    var eie, last := [Setting(Wcr, 0x1B, 0xDB)], [Setting(Bfs, 0x1F, 0x04), Setting(Bfs, 0x1E, 0x80)];
    var p, q := PhyProgram(0x14, 0x0C12), PhyProgram(0x12, 0x12);
    var now := CellAfter(eie, cell, was);
    CellAfterBoth(p + eie + q, last, cell, was);
    CellAfterBoth(p + eie, q, cell, was);
    CellAfterBoth(p, eie, cell, was);
    PhyCells(0x14, 0x0C12, cell, was);
    PhyCells(0x12, 0x12, cell, now);
    CellAfterOne(eie[0], cell, was);
    CellAfterTwo(last[0], last[1], cell, now);
  }

  lemma MediaCells(setup: Setup, answers: seq<Reply>, cell: bv8, was: bv8)
    requires !IsMii(cell)
    ensures CellAfter(MediaProgram(setup, answers), cell, was) ==
            CellAfter(DuplexProgram(FullDuplex(answers)), cell, CellAfter(MacProgram(), cell, was))
  {
    hide CellAfter, MacProgram, PhyProgram, PhyReadProgram, DuplexProgram, FullDuplex, IsMii;
    var data: bv16 := if setup.fullDuplex then 0x100 else 0;
    var m, p, q, d := MacProgram(), PhyProgram(0, data), PhyReadProgram(0), DuplexProgram(FullDuplex(answers));
    CellAfterBoth(m + p + q, d, cell, was);
    CellAfterBoth(m + p, q, cell, was);
    CellAfterBoth(m, p, cell, was);
    PhyCells(0, data, cell, CellAfter(m, cell, was));
  }

  lemma FilterCells(setup: Setup, cell: bv8, was: bv8)
    requires setup.Valid()
    ensures CellAfter(FilterProgram(setup), cell, was) ==
            CellAfter(StartProgram(), cell, Changed(Setting(Wcr, 0x38, 0x83), cell,
              CellAfter(AddressProgram(setup.mac), cell, CellAfter(FrameProgram(setup.maxFrame), cell, was))))
  {
    hide CellAfter, Changed, FrameProgram, AddressProgram, StartProgram;
    var f, a, e, s := FrameProgram(setup.maxFrame), AddressProgram(setup.mac), [Setting(Wcr, 0x38, 0x83)],
      StartProgram();
    CellAfterBoth(f + a + e, s, cell, was);
    CellAfterBoth(f + a, e, cell, was);
    CellAfterBoth(f, a, cell, was);
    CellAfterOne(e[0], cell, CellAfter(f + a, cell, was));
  }

  lemma InitCells(setup: Setup, answers: seq<Reply>, cell: bv8, was: bv8)
    requires setup.Valid()
    ensures CellAfter(InitProgram(setup, answers), cell, was) ==
            CellAfter(FilterProgram(setup), cell, CellAfter(MediaProgram(setup, answers), cell,
              CellAfter(PointerProgram(), cell, CellAfter(ReceiveProgram(), cell, was))))
  {
    hide CellAfter, ReceiveProgram, PointerProgram, MediaProgram, FilterProgram;
    var r, p, m, f := ReceiveProgram(), PointerProgram(), MediaProgram(setup, answers), FilterProgram(setup);
    CellAfterBoth(r + p + m, f, cell, was);
    CellAfterBoth(r + p, m, cell, was);
    CellAfterBoth(r, p, cell, was);
  }

  /** Buffer, pointer and MAC registers. */
  function Early(full: bool, cell: bv8, was: bv8): bv8 {
    if cell == 0x05 then 0x10 else if cell == 0x0A then 0xFF else if cell == 0x0B then 0x0F
    else if cell == 0x04 || cell == 0x08 || cell == 0x09 || 0x0C <= cell <= 0x0F then 0
    else if cell == 0x42 then (if full then (was | 0x32) | 0x01 else (was | 0x32) & 0xFE)
    else if cell == 0x41 then was & 0x7F else if cell == 0x40 then was | 0x0D
    else if cell == 0x44 then (if full then 0x12 else 0x15)
    else if cell == 0x46 then 0x12 else if cell == 0x47 then 0x0C
    else was
  }

  lemma EarlyCells(setup: Setup, answers: seq<Reply>, cell: bv8, was: bv8)
    requires !IsMii(cell)
    ensures CellAfter(MediaProgram(setup, answers), cell,
              CellAfter(PointerProgram(), cell, CellAfter(ReceiveProgram(), cell, was))) ==
            Early(FullDuplex(answers), cell, was)
  {
    hide CellAfter, ReceiveProgram, PointerProgram, MediaProgram, MacProgram, DuplexProgram, FullDuplex, IsMii;
    ReceiveCells(cell, was);
    var received := CellAfter(ReceiveProgram(), cell, was);
    PointerCells(cell, received);
    var pointed := CellAfter(PointerProgram(), cell, received);
    MediaCells(setup, answers, cell, pointed);
    MacCells(cell, pointed);
    DuplexCells(FullDuplex(answers), cell, CellAfter(MacProgram(), cell, pointed));
  }

  /** Frame length and station address. */
  function Station(setup: Setup, cell: bv8, was: bv8): bv8
    requires |setup.mac| == 6
  {
    if cell == 0x4A then Lo8(setup.maxFrame + 4) else if cell == 0x4B then Hi8(setup.maxFrame + 4)
    else if cell == 0x64 then setup.mac[0] else if cell == 0x65 then setup.mac[1]
    else if cell == 0x62 then setup.mac[2] else if cell == 0x63 then setup.mac[3]
    else if cell == 0x60 then setup.mac[4] else if cell == 0x61 then setup.mac[5]
    else was
  }

  lemma StationCells(setup: Setup, cell: bv8, was: bv8)
    requires setup.Valid()
    ensures CellAfter(AddressProgram(setup.mac), cell, CellAfter(FrameProgram(setup.maxFrame), cell, was)) ==
            Station(setup, cell, was)
  {
    hide CellAfter, FrameProgram, AddressProgram, Lo8, Hi8;
    FrameCells(setup.maxFrame, cell, was);
    AddressCells(setup.mac, cell, CellAfter(FrameProgram(setup.maxFrame), cell, was));
  }

  /** Filter and control registers. */
  function Control(cell: bv8, was: bv8): bv8 {
    if cell == 0x38 then 0x83 else if cell == 0x1B then 0xDB
    else if cell == 0x1F then was | 0x04 else if cell == 0x1E then was | 0x80
    else was
  }

  lemma ControlCells(cell: bv8, was: bv8)
    requires !IsMii(cell)
    ensures CellAfter(StartProgram(), cell, Changed(Setting(Wcr, 0x38, 0x83), cell, was)) == Control(cell, was)
  {
    hide CellAfter, StartProgram, IsMii;
    StartCells(cell, Changed(Setting(Wcr, 0x38, 0x83), cell, was));
  }

  lemma TableCells(setup: Setup, answers: seq<Reply>, cell: bv8, was: bv8)
    requires setup.Valid() && !IsMii(cell)
    ensures CellAfter(InitProgram(setup, answers), cell, was) ==
            Control(cell, Station(setup, cell, Early(FullDuplex(answers), cell, was)))
  {
    hide CellAfter, Changed, ReceiveProgram, PointerProgram, MediaProgram, FilterProgram, FrameProgram, AddressProgram,
         StartProgram, FullDuplex, IsMii, Early, Station, Control;
    InitCells(setup, answers, cell, was);
    EarlyCells(setup, answers, cell, was);
    var early := Early(FullDuplex(answers), cell, was);
    FilterCells(setup, cell, early);
    StationCells(setup, cell, early);
    ControlCells(cell, Station(setup, cell, early));
  }

  /** What register `cell` holds after initialisation, from any contents before. */
  function Held(setup: Setup, answers: seq<Reply>, before: bv8 -> bv8, cell: bv8): bv8
    requires |setup.mac| == 6
  {
    CellAfter(InitProgram(setup, answers), cell, before(cell))
  }

  lemma WordParts(w: bv16)
    ensures Word(Lo8(w), Hi8(w)) == w
  {
  }

  /** Registers MAADR5 down to MAADR0 hold the station address in order. */
  lemma AddressSet(setup: Setup, answers: seq<Reply>, before: bv8 -> bv8)
    requires setup.Valid()
    ensures [Held(setup, answers, before, 0x64), Held(setup, answers, before, 0x65),
             Held(setup, answers, before, 0x62), Held(setup, answers, before, 0x63),
             Held(setup, answers, before, 0x60), Held(setup, answers, before, 0x61)] == setup.mac
  {
    hide CellAfter, InitProgram, FullDuplex, Lo8, Hi8;
    TableCells(setup, answers, 0x64, before(0x64));
    TableCells(setup, answers, 0x65, before(0x65));
    TableCells(setup, answers, 0x62, before(0x62));
    TableCells(setup, answers, 0x63, before(0x63));
    TableCells(setup, answers, 0x60, before(0x60));
    TableCells(setup, answers, 0x61, before(0x61));
  }

  /** MAMXFL holds the longest frame with its four bytes of checksum. */
  lemma FrameLengthSet(setup: Setup, answers: seq<Reply>, before: bv8 -> bv8)
    requires setup.Valid()
    ensures Word(Held(setup, answers, before, 0x4A), Held(setup, answers, before, 0x4B)) == setup.maxFrame + 4
  {
    hide CellAfter, InitProgram, FullDuplex, Word, Lo8, Hi8;
    TableCells(setup, answers, 0x4A, before(0x4A));
    TableCells(setup, answers, 0x4B, before(0x4B));
    WordParts(setup.maxFrame + 4);
  }

  lemma EarlySet(setup: Setup, answers: seq<Reply>, cell: bv8, was: bv8)
    requires setup.Valid() && !IsMii(cell) && cell < 0x10
    ensures CellAfter(InitProgram(setup, answers), cell, was) == Early(FullDuplex(answers), cell, was)
  {
    hide CellAfter, InitProgram, FullDuplex, Early, Lo8, Hi8;
    TableCells(setup, answers, cell, was);
  }

  /** The receive buffer starts at 0, where its read and write pointers stand too. */
  lemma ReceiveStartSet(setup: Setup, answers: seq<Reply>, before: bv8 -> bv8)
    requires setup.Valid()
    ensures var start := Word(Held(setup, answers, before, 0x08), Held(setup, answers, before, 0x09));
            && start == 0
            && start == Word(Held(setup, answers, before, 0x0C), Held(setup, answers, before, 0x0D))
            && start == Word(Held(setup, answers, before, 0x0E), Held(setup, answers, before, 0x0F))
  {
    hide CellAfter, InitProgram, FullDuplex;
    EarlySet(setup, answers, 0x08, before(0x08));
    EarlySet(setup, answers, 0x09, before(0x09));
    EarlySet(setup, answers, 0x0C, before(0x0C));
    EarlySet(setup, answers, 0x0D, before(0x0D));
    EarlySet(setup, answers, 0x0E, before(0x0E));
    EarlySet(setup, answers, 0x0F, before(0x0F));
  }

  /** It ends right below the transmit buffer at 4 KB. */
  lemma BuffersMeet(setup: Setup, answers: seq<Reply>, before: bv8 -> bv8)
    requires setup.Valid()
    ensures var end := Word(Held(setup, answers, before, 0x0A), Held(setup, answers, before, 0x0B));
            end + 1 == Word(Held(setup, answers, before, 0x04), Held(setup, answers, before, 0x05)) == 0x1000
  {
    hide CellAfter, InitProgram, FullDuplex;
    EarlySet(setup, answers, 0x0A, before(0x0A));
    EarlySet(setup, answers, 0x0B, before(0x0B));
    EarlySet(setup, answers, 0x04, before(0x04));
    EarlySet(setup, answers, 0x05, before(0x05));
  }

  /** The MAC leaves reset and receives with flow control; it pads, adds and checks checksums and frame
      lengths; it works full duplex exactly when the PHY register read back says so, with the gap to match. */
  lemma LinkSet(setup: Setup, answers: seq<Reply>, before: bv8 -> bv8)
    requires setup.Valid()
    ensures Held(setup, answers, before, 0x40) == before(0x40) | 0x0D
    ensures Held(setup, answers, before, 0x41) == before(0x41) & 0x7F
    ensures var full := PhyWord(AfterIdle(AfterIdle(AfterReady(answers)))) & 0x100 != 0;
            && Held(setup, answers, before, 0x42) == (before(0x42) & 0xCC) | (if full then 0x33 else 0x32)
            && Held(setup, answers, before, 0x44) == (if full then 0x12 else 0x15)
            && Held(setup, answers, before, 0x46) == 0x12 && Held(setup, answers, before, 0x47) == 0x0C
  {
    hide CellAfter, InitProgram, AfterReady, AfterIdle, Answer, Rest, PhyWord;
    DuplexBit(BeforeReadBack(answers));
    TableCells(setup, answers, 0x40, before(0x40));
    TableCells(setup, answers, 0x41, before(0x41));
    TableCells(setup, answers, 0x42, before(0x42));
    TableCells(setup, answers, 0x44, before(0x44));
    TableCells(setup, answers, 0x46, before(0x46));
    TableCells(setup, answers, 0x47, before(0x47));
  }

  /** Broadcast, multicast and unicast frames pass the filter, the interrupts are on, the receiver is
      enabled, the buffer pointers advance by themselves, and other bits stay. */
  lemma ControlSet(setup: Setup, answers: seq<Reply>, before: bv8 -> bv8)
    requires setup.Valid()
    ensures Held(setup, answers, before, 0x38) == 0x83 && Held(setup, answers, before, 0x1B) == 0xDB
    ensures Held(setup, answers, before, 0x1F) == before(0x1F) | 0x04
    ensures Held(setup, answers, before, 0x1E) == before(0x1E) | 0x80
  {
    hide CellAfter, InitProgram, FullDuplex;
    TableCells(setup, answers, 0x38, before(0x38));
    TableCells(setup, answers, 0x1B, before(0x1B));
    TableCells(setup, answers, 0x1F, before(0x1F));
    TableCells(setup, answers, 0x1E, before(0x1E));
  }

  /** Every other register keeps its contents. */
  lemma OthersKept(setup: Setup, answers: seq<Reply>, before: bv8 -> bv8, cell: bv8)
    requires setup.Valid() && !IsMii(cell) && cell !in {0x04, 0x05, 0x1B, 0x1E, 0x1F, 0x38}
    requires !(0x08 <= cell <= 0x0F) && !(0x60 <= cell <= 0x65)
    requires cell !in {0x40, 0x41, 0x42, 0x44, 0x46, 0x47, 0x4A, 0x4B}
    ensures Held(setup, answers, before, cell) == before(cell)
  {
    hide CellAfter, InitProgram, FullDuplex, Lo8, Hi8;
    TableCells(setup, answers, cell, before(cell));
  }

  // ----- the PHY registers behind the MII

  /** PHY register `reg` after a list of changes: writing MIWRH sends the word in MIWR to the register
      that MIREGADR names. `address` and `low` are what MIREGADR and MIWRL held before. */
  function PhyAfter(list: seq<Setting>, reg: bv8, was: bv16, address: bv8, low: bv8): bv16
    decreases |list|
  {
    if list == [] then was
    else
      var s := list[0];
      var now := if s.op == Wcr && s.cell == 0x57 && address == reg then Word(low, s.data) else was;
      PhyAfter(list[1..], reg, now, Changed(s, 0x54, address), Changed(s, 0x56, low))
  }

  lemma {:induction false} PhyAfterBoth(a: seq<Setting>, b: seq<Setting>, reg: bv8, was: bv16, address: bv8, low: bv8)
    ensures PhyAfter(a + b, reg, was, address, low) ==
            PhyAfter(b, reg, PhyAfter(a, reg, was, address, low), CellAfter(a, 0x54, address), CellAfter(a, 0x56, low))
    decreases |a|
  {
    hide Changed;
    if a == [] {
      assert a + b == b;
    } else {
      assert (a + b)[1..] == a[1..] + b;
      var s := a[0];
      PhyAfterBoth(a[1..], b, reg, if s.op == Wcr && s.cell == 0x57 && address == reg then Word(low, s.data) else was,
                   Changed(s, 0x54, address), Changed(s, 0x56, low));
    }
  }

  /** Nothing is sent without a write to MIWRH. */
  lemma {:induction false} PhyQuiet(list: seq<Setting>, reg: bv8, was: bv16, address: bv8, low: bv8)
    requires forall i :: 0 <= i < |list| ==> list[i].cell != 0x57
    ensures PhyAfter(list, reg, was, address, low) == was
    decreases |list|
  {
    hide Changed, Word;
    if list != [] {
      PhyQuiet(list[1..], reg, was, Changed(list[0], 0x54, address), Changed(list[0], 0x56, low));
    }
  }

  /** The three writes of `write_phy` set the PHY register they name. */
  lemma PhySet(number: bv8, data: bv16, reg: bv8, was: bv16, address: bv8, low: bv8)
    ensures PhyAfter(PhyProgram(number, data), reg, was, address, low) == if reg == number then data else was
  {
    hide Lo8, Hi8, Word;
    var p := PhyProgram(number, data);
    assert p == [p[0], p[1]] + [p[2]] && [p[2]][1..] == [];
    PhyQuiet([p[0], p[1]], reg, was, address, low);
    PhyAfterBoth([p[0], p[1]], [p[2]], reg, was, address, low);
    CellAfterTwo(p[0], p[1], 0x54, address);
    CellAfterTwo(p[0], p[1], 0x56, low);
    WordParts(data);
  }

  /** Whatever the MII registers hold, the changes take PHY register `reg` from `was` to `now`. */
  ghost predicate Sends(list: seq<Setting>, reg: bv8, was: bv16, now: bv16) {
    forall address, low :: PhyAfter(list, reg, was, address, low) == now
  }

  lemma SendsBoth(a: seq<Setting>, b: seq<Setting>, reg: bv8, was: bv16, mid: bv16, now: bv16)
    requires Sends(a, reg, was, mid) && Sends(b, reg, mid, now)
    ensures Sends(a + b, reg, was, now)
  {
    hide PhyAfter, CellAfter;
    forall address, low ensures PhyAfter(a + b, reg, was, address, low) == now {
      PhyAfterBoth(a, b, reg, was, address, low);
    }
  }

  lemma SendsNothing(list: seq<Setting>, reg: bv8, was: bv16)
    requires forall i :: 0 <= i < |list| ==> list[i].cell != 0x57
    ensures Sends(list, reg, was, was)
  {
    hide PhyAfter;
    forall address, low ensures PhyAfter(list, reg, was, address, low) == was {
      PhyQuiet(list, reg, was, address, low);
    }
  }

  lemma PhyProgramSends(number: bv8, data: bv16, reg: bv8, was: bv16)
    ensures Sends(PhyProgram(number, data), reg, was, if reg == number then data else was)
  {
    hide PhyAfter, PhyProgram;
    forall address, low
      ensures PhyAfter(PhyProgram(number, data), reg, was, address, low) == if reg == number then data else was
    {
      PhySet(number, data, reg, was, address, low);
    }
  }

  lemma StartSends(reg: bv8, was: bv16)
    ensures Sends(StartProgram(), reg, was, if reg == 0x14 then 0x0C12 else if reg == 0x12 then 0x12 else was)
  {
    hide Sends, PhyProgram;
    var eie, last := [Setting(Wcr, 0x1B, 0xDB)], [Setting(Bfs, 0x1F, 0x04), Setting(Bfs, 0x1E, 0x80)];
    var p, q := PhyProgram(0x14, 0x0C12), PhyProgram(0x12, 0x12);
    var now := if reg == 0x14 then 0x0C12 else was;
    var end := if reg == 0x12 then 0x12 else now;
    PhyProgramSends(0x14, 0x0C12, reg, was);
    SendsNothing(eie, reg, now);
    PhyProgramSends(0x12, 0x12, reg, now);
    SendsNothing(last, reg, end);
    SendsBoth(p, eie, reg, was, now, now);
    SendsBoth(p + eie, q, reg, was, now, end);
    SendsBoth(p + eie + q, last, reg, was, end, end);
  }

  lemma OthersSendNothing(setup: Setup, full: bool, reg: bv8, was: bv16)
    requires setup.Valid()
    ensures Sends(ReceiveProgram() + PointerProgram() + MacProgram(), reg, was, was)
    ensures Sends(PhyReadProgram(0) + DuplexProgram(full), reg, was, was)
    ensures Sends(FrameProgram(setup.maxFrame) + AddressProgram(setup.mac) + [Setting(Wcr, 0x38, 0x83)], reg, was, was)
  {
    hide Sends, Lo8, Hi8;
    SendsNothing(ReceiveProgram() + PointerProgram() + MacProgram(), reg, was);
    SendsNothing(PhyReadProgram(0) + DuplexProgram(full), reg, was);
    SendsNothing(FrameProgram(setup.maxFrame) + AddressProgram(setup.mac) + [Setting(Wcr, 0x38, 0x83)], reg, was);
  }

  /** PHY registers after initialisation: PHCON1 asks for the configured duplex mode, PHLCON sets the
      lamps, PHIE lets link changes through, and no other PHY register is written. */
  lemma PhySetUp(setup: Setup, answers: seq<Reply>, reg: bv8, was: bv16, address: bv8, low: bv8)
    requires setup.Valid()
    ensures PhyAfter(InitProgram(setup, answers), reg, was, address, low) ==
            if reg == 0x00 then (if setup.fullDuplex then 0x0100 else 0)
            else if reg == 0x14 then 0x0C12 else if reg == 0x12 then 0x12 else was
  {
    hide PhyAfter, ReceiveProgram, PointerProgram, MacProgram, PhyProgram, PhyReadProgram, DuplexProgram, FrameProgram,
         AddressProgram, StartProgram, FullDuplex;
    var data: bv16 := if setup.fullDuplex then 0x100 else 0;
    var now := if reg == 0x00 then data else was;
    var a := ReceiveProgram() + PointerProgram() + MacProgram();
    var b := PhyReadProgram(0) + DuplexProgram(FullDuplex(answers));
    var c := FrameProgram(setup.maxFrame) + AddressProgram(setup.mac) + [Setting(Wcr, 0x38, 0x83)];
    OthersSendNothing(setup, FullDuplex(answers), reg, was);
    OthersSendNothing(setup, FullDuplex(answers), reg, now);
    PhyProgramSends(0x00, data, reg, was);
    StartSends(reg, now);
    SendsBoth(a, PhyProgram(0, data), reg, was, was, now);
    SendsBoth(a + PhyProgram(0, data), b, reg, was, now, now);
    SendsBoth(a + PhyProgram(0, data) + b, c, reg, was, now, now);
    SendsBoth(a + PhyProgram(0, data) + b + c, StartProgram(), reg, was, now,
              if reg == 0x14 then 0x0C12 else if reg == 0x12 then 0x12 else now);
    assert InitProgram(setup, answers) == a + PhyProgram(0, data) + b + c + StartProgram();
  }

  /** The PHY registers a list of changes asks to be read: setting the read bit of MICMD names the one
      in MIREGADR, which held `address` before. */
  function PhyAsked(list: seq<Setting>, address: bv8): seq<bv8>
    decreases |list|
  {
    if list == [] then []
    else (if list[0].op == Bfs && list[0].cell == 0x52 && list[0].data & 1 == 1 then [address] else []) +
         PhyAsked(list[1..], Changed(list[0], 0x54, address))
  }

  lemma {:induction false} PhyAskedBoth(a: seq<Setting>, b: seq<Setting>, address: bv8)
    ensures PhyAsked(a + b, address) == PhyAsked(a, address) + PhyAsked(b, CellAfter(a, 0x54, address))
    decreases |a|
  {
    hide Changed;
    if a == [] {
      assert a + b == b;
    } else {
      assert (a + b)[1..] == a[1..] + b;
      PhyAskedBoth(a[1..], b, Changed(a[0], 0x54, address));
    }
  }

  lemma {:induction false} NothingAsked(list: seq<Setting>, address: bv8)
    requires forall i :: 0 <= i < |list| ==> list[i].op != Bfs || list[i].cell != 0x52
    ensures PhyAsked(list, address) == []
    decreases |list|
  {
    hide Changed;
    if list != [] { NothingAsked(list[1..], Changed(list[0], 0x54, address)); }
  }

  lemma ReadAsks(number: bv8, address: bv8)
    ensures PhyAsked(PhyReadProgram(number), address) == [number]
  {
    var p := PhyReadProgram(number);
    assert p == [p[0]] + [p[1]] + [p[2]];
    PhyAskedBoth([p[0]] + [p[1]], [p[2]], address);
    PhyAskedBoth([p[0]], [p[1]], address);
    CellAfterOne(p[0], 0x54, address);
    NothingAsked([p[0]], address);
    NothingAsked([p[2]], CellAfter([p[0]] + [p[1]], 0x54, address));
    assert PhyAsked([p[1]], number) == [number] + PhyAsked([], Changed(p[1], 0x54, number));
  }

  lemma OthersAskNothing(setup: Setup, full: bool, address: bv8)
    requires setup.Valid()
    ensures PhyAsked(ReceiveProgram() + PointerProgram() + MacProgram() +
                     PhyProgram(0, if setup.fullDuplex then 0x100 else 0), address) == []
    ensures PhyAsked(DuplexProgram(full) + FrameProgram(setup.maxFrame) + AddressProgram(setup.mac) +
                     [Setting(Wcr, 0x38, 0x83)] + StartProgram(), address) == []
  {
    hide PhyAsked, Lo8, Hi8;
    NothingAsked(ReceiveProgram() + PointerProgram() + MacProgram() +
                 PhyProgram(0, if setup.fullDuplex then 0x100 else 0), address);
    NothingAsked(DuplexProgram(full) + FrameProgram(setup.maxFrame) + AddressProgram(setup.mac) +
                 [Setting(Wcr, 0x38, 0x83)] + StartProgram(), address);
  }

  /** The one PHY register that initialisation reads, and whose answer decides about full duplex, is PHCON1. */
  lemma PhyReadBack(setup: Setup, answers: seq<Reply>, address: bv8)
    requires setup.Valid()
    ensures PhyAsked(InitProgram(setup, answers), address) == [0x00]
  {
    hide PhyAsked, ReceiveProgram, PointerProgram, MacProgram, PhyProgram, PhyReadProgram, DuplexProgram, FrameProgram,
         AddressProgram, StartProgram, FullDuplex;
    var a := ReceiveProgram() + PointerProgram() + MacProgram() +
             PhyProgram(0, if setup.fullDuplex then 0x100 else 0);
    var b := DuplexProgram(FullDuplex(answers)) + FrameProgram(setup.maxFrame) + AddressProgram(setup.mac) +
             [Setting(Wcr, 0x38, 0x83)] + StartProgram();
    assert InitProgram(setup, answers) == a + PhyReadProgram(0) + b;
    PhyAskedBoth(a + PhyReadProgram(0), b, address);
    PhyAskedBoth(a, PhyReadProgram(0), address);
    OthersAskNothing(setup, FullDuplex(answers), address);
    OthersAskNothing(setup, FullDuplex(answers), CellAfter(a + PhyReadProgram(0), 0x54, address));
    ReadAsks(0, CellAfter(a, 0x54, address));
  }

  // ----- polling

  /** Register ESTAT (0x1D) is read until its lowest bit is set; no replies are left when it never is. */
  lemma {:induction false} ReadyEndsWait(answers: seq<Reply>, k: nat)
    requires k <= |answers| && forall i :: 0 <= i < k ==> answers[i](0x1D) & 1 == 0
    requires k < |answers| ==> answers[k](0x1D) & 1 == 1
    ensures AfterReady(answers) == if k < |answers| then answers[k + 1..] else []
    decreases k
  {
    if k > 0 { ReadyEndsWait(answers[1..], k - 1); }
  }

  /** Register MISTAT (0x6A) is read until its lowest bit is clear. */
  lemma {:induction false} IdleEndsWait(answers: seq<Reply>, k: nat)
    requires k <= |answers| && forall i :: 0 <= i < k ==> answers[i](0x6A) & 1 == 1
    requires k < |answers| ==> answers[k](0x6A) & 1 == 0
    ensures AfterIdle(answers) == if k < |answers| then answers[k + 1..] else []
    decreases k
  {
    if k > 0 { IdleEndsWait(answers[1..], k - 1); }
  }

  /** The word read from the PHY is in MIRDL (0x58) and MIRDH (0x59), read in this order. */
  lemma PhyWordIs(answers: seq<Reply>)
    requires |answers| >= 2
    ensures PhyWord(answers) == answers[0](0x58) as bv16 | (answers[1](0x59) as bv16 << 8)
  {
  }
}
