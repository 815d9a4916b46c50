/** The HD44780 text display: software position, line address map and display memory. */
module Hd44780 {
  import opened Bytes
  import Arith

  const DDRAM_SIZE: nat := 128
  const SPACE: byte := 32

  /** Panel geometry: characters per line, lines, and the address of each of the four lines. */
  datatype Panel = Panel(perLine: nat, lines: nat, adr: seq<nat>)

  ghost predicate GoodPanel(p: Panel) {
    && |p.adr| == 4 && 1 <= p.lines <= 4 && 1 <= p.perLine
    && p.perLine * p.lines < 256
    && forall k :: 0 <= k < 4 ==> p.adr[k] + p.perLine <= 256
  }

  /** `start` in `hd44780_put`: the address sent for software position `pos`. */
  function Start(p: Panel, pos: nat): nat
    requires GoodPanel(p)
  {
    if pos <= p.perLine - 1 then p.adr[0] + pos
    else if pos <= p.perLine * 2 - 1 then p.adr[1] - p.perLine + pos
    else if pos <= p.perLine * 3 - 1 then p.adr[2] - p.perLine * 2 + pos
    else if pos <= p.perLine * 4 - 1 then p.adr[3] - p.perLine * 3 + pos
    else 0
  }

  /** The memory cell that `CMD_SETDRAMADR(start)` selects: bit 7 is the command itself. */
  function Address(p: Panel, pos: nat): (a: nat)
    requires GoodPanel(p)
    ensures a < DDRAM_SIZE
  {
    Start(p, pos) % DDRAM_SIZE
  }

  /** The memory cell behind line `y`, column `x`. */
  function CellAddress(p: Panel, y: nat, x: nat): (a: nat)
    requires GoodPanel(p) && y < 4
    ensures a < DDRAM_SIZE
  {
    (p.adr[y] + x) % DDRAM_SIZE
  }

  lemma AddressOfCell(p: Panel, y: nat, x: nat)
    requires GoodPanel(p) && y < 4 && x < p.perLine
    ensures Address(p, y * p.perLine + x) == CellAddress(p, y, x)
  {
  }

  /** A cell's position fits the 8-bit position variable and stays before the end of the panel. */
  lemma PositionFits(p: Panel, y: nat, x: nat)
    requires GoodPanel(p) && y < p.lines && x < p.perLine
    ensures y * p.perLine + x < p.perLine * p.lines
    ensures (y * p.perLine + x) % 256 == y * p.perLine + x
  {
    Arith.IndexInside(y, x, p.lines, p.perLine);
  }

  ghost predicate SameCellOnly(p: Panel, y: nat, x: nat, y': nat, x': nat)
    requires GoodPanel(p) && y < 4 && y' < 4
  {
    CellAddress(p, y, x) == CellAddress(p, y', x') ==> y == y' && x == x'
  }

  /** Line `last` shares no memory cell with itself or the lines before it. */
  ghost predicate LineApart(p: Panel, last: nat, cols: nat)
    requires GoodPanel(p) && last < 4
  {
    forall y, x, x' :: 0 <= y <= last && 0 <= x < cols && 0 <= x' < cols ==> SameCellOnly(p, y, x, last, x')
  }

  /** No two of the first `lines` by `cols` cells share a memory cell. */
  ghost predicate NoOverlap(p: Panel, lines: nat, cols: nat)
    requires GoodPanel(p)
    decreases lines
  {
    && lines <= p.lines && cols <= p.perLine
    && (lines == 0 || (
          && NoOverlap(p, lines - 1, cols)
          && LineApart(p, lines - 1, cols)))
  }

  lemma {:induction false} NoOverlapMeans(p: Panel, lines: nat, cols: nat)
    requires GoodPanel(p) && lines <= p.lines && cols <= p.perLine
    ensures NoOverlap(p, lines, cols) <==>
            forall y, x, y', x' :: 0 <= y < lines && 0 <= x < cols && 0 <= y' < lines && 0 <= x' < cols ==>
              SameCellOnly(p, y, x, y', x')
    decreases lines
  {
    if lines > 0 {
      NoOverlapMeans(p, lines - 1, cols);
      if NoOverlap(p, lines, cols) {
        forall y, x, y', x' | 0 <= y < lines && 0 <= x < cols && 0 <= y' < lines && 0 <= x' < cols
          ensures SameCellOnly(p, y, x, y', x')
        {
          if y == lines - 1 { assert SameCellOnly(p, y', x', lines - 1, x); }
        }
      }
    }
  }

  // ----- the panels the driver knows

  const ORIGINAL := Panel(20, 4, [0x00, 0x20, 0x40, 0x60])
  const DISPTECH := Panel(20, 4, [0x00, 0x40, 0x10, 0x50])
  const KS0067B := Panel(20, 4, [0x00, 0x40, 0x14, 0x54])
  const SPLC780D := Panel(16, 4, [0x80, 0xC0, 0x90, 0xD0])

  lemma PlainCellAddress(p: Panel, y: nat, x: nat, cols: nat)
    requires GoodPanel(p) && y < 4 && x < cols && p.adr[y] % DDRAM_SIZE + cols <= DDRAM_SIZE
    ensures CellAddress(p, y, x) == p.adr[y] % DDRAM_SIZE + x
  {
  }

  /** Lines whose memory stretches are apart give every character its own memory cell. */
  lemma ApartLines(p: Panel, lines: nat, cols: nat)
    requires GoodPanel(p) && lines <= p.lines && cols <= p.perLine
    requires forall k :: 0 <= k < lines ==> p.adr[k] % DDRAM_SIZE + cols <= DDRAM_SIZE
    requires forall j, k :: 0 <= j < k < lines ==>
               p.adr[j] % DDRAM_SIZE + cols <= p.adr[k] % DDRAM_SIZE ||
                 p.adr[k] % DDRAM_SIZE + cols <= p.adr[j] % DDRAM_SIZE
    ensures NoOverlap(p, lines, cols)
  {
    hide CellAddress, NoOverlap;
    forall y, x, y', x' | 0 <= y < lines && 0 <= x < cols && 0 <= y' < lines && 0 <= x' < cols
      ensures SameCellOnly(p, y, x, y', x')
    {
      PlainCellAddress(p, y, x, cols);
      PlainCellAddress(p, y', x', cols);
      if y < y' {
        assert p.adr[y] % DDRAM_SIZE + cols <= p.adr[y'] % DDRAM_SIZE ||
               p.adr[y'] % DDRAM_SIZE + cols <= p.adr[y] % DDRAM_SIZE;
      } else if y' < y {
        assert p.adr[y'] % DDRAM_SIZE + cols <= p.adr[y] % DDRAM_SIZE ||
               p.adr[y] % DDRAM_SIZE + cols <= p.adr[y'] % DDRAM_SIZE;
      }
    }
    NoOverlapMeans(p, lines, cols);
  }

  /** The original map keeps every line of the panel apart. */
  lemma OriginalNoOverlap()
    ensures NoOverlap(ORIGINAL, 4, 20)
  {
    assert ORIGINAL.adr[0] % 128 == 0x00 && ORIGINAL.adr[1] % 128 == 0x20 && ORIGINAL.adr[2] % 128 == 0x40 &&
           ORIGINAL.adr[3] % 128 == 0x60;
    ApartLines(ORIGINAL, 4, 20);
  }

  lemma Ks0067bNoOverlap()
    ensures NoOverlap(KS0067B, 4, 20)
  {
    assert KS0067B.adr[0] % 128 == 0x00 && KS0067B.adr[1] % 128 == 0x40 && KS0067B.adr[2] % 128 == 0x14 &&
           KS0067B.adr[3] % 128 == 0x54;
    ApartLines(KS0067B, 4, 20);
  }

  lemma Splc780dNoOverlap()
    ensures NoOverlap(SPLC780D, 4, 16)
  {
    assert SPLC780D.adr[0] % 128 == 0x00 && SPLC780D.adr[1] % 128 == 0x40 && SPLC780D.adr[2] % 128 == 0x10 &&
           SPLC780D.adr[3] % 128 == 0x50;
    ApartLines(SPLC780D, 4, 16);
  }

  /** The DISPTECH map (also used for KS0066U) reuses memory: a text layer of `lines` by `cols` is
      free of overlap exactly when it has at most two lines or at most 16 columns. */
  lemma DisptechOverlap(lines: nat, cols: nat)
    requires lines <= 4 && cols <= 20
    ensures NoOverlap(DISPTECH, lines, cols) <==> lines <= 2 || cols <= 16
  {
    hide NoOverlap;
    assert DISPTECH.adr[0] % 128 == 0x00 && DISPTECH.adr[1] % 128 == 0x40 && DISPTECH.adr[2] % 128 == 0x10 &&
           DISPTECH.adr[3] % 128 == 0x50;
    if lines > 2 && cols > 16 {
      NoOverlapMeans(DISPTECH, lines, cols);
      assert CellAddress(DISPTECH, 0, 16) == CellAddress(DISPTECH, 2, 0);
      assert !SameCellOnly(DISPTECH, 0, 16, 2, 0);
    } else {
      ApartLines(DISPTECH, lines, cols);
    }
  }

  /** Panel sizes, and the memory cells where their lines start. */
  lemma LineStarts(y: nat)
    requires y < 4
    ensures ORIGINAL.lines == DISPTECH.lines == KS0067B.lines == SPLC780D.lines == 4
    ensures ORIGINAL.perLine == DISPTECH.perLine == KS0067B.perLine == 20 && SPLC780D.perLine == 16
    ensures CellAddress(ORIGINAL, y, 0) == 32 * y
    ensures CellAddress(DISPTECH, y, 0) == CellAddress(SPLC780D, y, 0) == y % 2 * 64 + y / 2 * 16
    ensures CellAddress(KS0067B, y, 0) == y % 2 * 64 + y / 2 * 20
  {
  }

  /** The 8-bit position wraps to 0, at the end of the panel or at 256. */
  function Wrap(p: Panel, pos: nat): nat {
    if pos == p.perLine * p.lines || pos == 256 then 0 else pos
  }

  /** A position below the panel is taken back by one panel. */
  function RollOver(p: Panel, pos: nat): nat {
    if pos >= p.perLine * p.lines then pos - p.perLine * p.lines else pos
  }

  /** The line start at or after `pos`; the position cannot pass 256. */
  function NextLine(p: Panel, pos: nat): nat
    requires GoodPanel(p)
  {
    if pos % p.perLine == 0 || pos >= 256 then pos
    else if pos - pos % p.perLine + p.perLine > 256 then 256
    else pos - pos % p.perLine + p.perLine
  }

  /** The position once the rest of the line is blanked. */
  function AfterLine(p: Panel, pos: nat): nat
    requires GoodPanel(p)
  {
    if pos % p.perLine == 0 then pos else Wrap(p, NextLine(p, pos))
  }

  /** Blanks that bring `pos` to a line start. */
  function ToGo(p: Panel, pos: nat): nat
    requires GoodPanel(p)
  {
    if pos % p.perLine == 0 then 0 else p.perLine - pos % p.perLine
  }

  lemma StepInLine(p: Panel, pos: nat)
    requires GoodPanel(p) && pos % p.perLine > 0 && pos < 256
    ensures (pos + 1) % p.perLine == if pos % p.perLine == p.perLine - 1 then 0 else pos % p.perLine + 1
    ensures NextLine(p, pos + 1) == NextLine(p, pos)
  {
    Arith.ModStep(p.perLine, pos);
  }

  /** Display memory once the rest of the line of `pos` is blanked. */
  function Padded(p: Panel, memory: seq<byte>, pos: nat): seq<byte>
    requires GoodPanel(p) && |memory| == DDRAM_SIZE
    decreases ToGo(p, pos)
  {
    if pos % p.perLine == 0 || pos >= 256 then memory
    else StepInLine(p, pos); Padded(p, memory[Address(p, pos) := SPACE], pos + 1)
  }

  /** Some position of the rest of the line of `pos` has memory cell `a`. */
  ghost predicate InRestOfLine(p: Panel, pos: nat, a: nat)
    requires GoodPanel(p)
  {
    exists q: nat :: pos <= q < NextLine(p, pos) && Address(p, q) == a
  }

  lemma RestOfLineStep(p: Panel, pos: nat, a: nat)
    requires GoodPanel(p) && pos % p.perLine > 0 && pos < 256
    ensures InRestOfLine(p, pos, a) <==> a == Address(p, pos) || InRestOfLine(p, pos + 1, a)
  {
    hide Address;
    StepInLine(p, pos);
    assert pos < NextLine(p, pos);
  }

  /** Padding blanks the cells of the positions up to the next line start and no others. */
  lemma {:induction false} PaddedCells(p: Panel, memory: seq<byte>, pos: nat)
    requires GoodPanel(p) && |memory| == DDRAM_SIZE
    ensures |Padded(p, memory, pos)| == DDRAM_SIZE
    ensures forall a :: 0 <= a < DDRAM_SIZE ==>
              Padded(p, memory, pos)[a] == if InRestOfLine(p, pos, a) then 32 else memory[a]
    decreases ToGo(p, pos)
  {
    hide Address;
    if pos % p.perLine > 0 && pos < 256 {
      StepInLine(p, pos);
      PaddedCells(p, memory[Address(p, pos) := SPACE], pos + 1);
      forall a | 0 <= a < DDRAM_SIZE
        ensures InRestOfLine(p, pos, a) <==> a == Address(p, pos) || InRestOfLine(p, pos + 1, a)
      {
        RestOfLineStep(p, pos, a);
      }
    }
  }

  lemma NextLineInside(p: Panel, pos: nat)
    requires GoodPanel(p) && pos < 256
    ensures NextLine(p, pos) <= 256
  {
  }

  /** The end of the panel is a line start, so wrapping there does not change that. */
  lemma WrapInLine(p: Panel, pos: nat)
    requires GoodPanel(p) && pos <= 256
    ensures Wrap(p, pos) % p.perLine == if pos == 256 then 0 else pos % p.perLine
    ensures Wrap(p, pos) % p.perLine > 0 ==> Wrap(p, pos) == pos && pos < 256
  {
    Arith.DivModUnique(p.perLine * p.lines, p.perLine, p.lines, 0);
    Arith.DivModUnique(0, p.perLine, 0, 0);
  }

  /** The position after `n` printed characters. */
  function Advanced(p: Panel, pos: nat, n: nat): nat {
    if n == 0 then pos else Wrap(p, Advanced(p, pos, n - 1) + 1)
  }

  /** Printing goes round the panel: after its last cell comes its first. */
  lemma {:induction false} PrintingGoesRound(p: Panel, n: nat)
    requires GoodPanel(p)
    ensures Advanced(p, 0, n) == n % (p.perLine * p.lines)
  {
    Arith.MulMonotone(1, p.perLine, p.lines);
    var size := p.perLine * p.lines;
    if n > 0 {
      PrintingGoesRound(p, n - 1);
      Arith.ModStep(size, n - 1);
    } else {
      Arith.DivModUnique(0, size, 0, 0);
    }
  }

  lemma LineEnd(p: Panel, y: nat, x: nat)
    requires GoodPanel(p) && y < p.lines && 0 < x < p.perLine
    ensures NextLine(p, y * p.perLine + x) == (y + 1) * p.perLine && (y * p.perLine + x) % p.perLine == x
  {
    PositionFits(p, y, x);
    Arith.DivModUnique(y * p.perLine + x, p.perLine, y, x);
    Arith.MulMonotone(y + 1, p.lines, p.perLine);
    assert (y + 1) * p.perLine == y * p.perLine + p.perLine;
  }

  /** A newline inside a line goes to the start of the next line, from the last line to the first one;
      at the start of a line it does nothing. */
  lemma NewlineMoves(p: Panel, y: nat, x: nat)
    requires GoodPanel(p) && y < p.lines && x < p.perLine
    ensures RollOver(p, AfterLine(p, y * p.perLine + x)) ==
            if x == 0 then y * p.perLine else if y + 1 < p.lines then (y + 1) * p.perLine else 0
  {
    hide NextLine;
    PositionFits(p, y, x);
    if x == 0 {
      Arith.DivModUnique(y * p.perLine, p.perLine, y, 0);
    } else {
      LineEnd(p, y, x);
      if y + 1 < p.lines { PositionFits(p, y + 1, 0); }
    }
  }

  lemma AtLineStart(p: Panel, pos: nat)
    requires GoodPanel(p) && pos % p.perLine == 0
    ensures AfterLine(p, pos) == pos
  {
  }

  lemma RowsApart(a: nat, b: nat, n: nat)
    requires a <= b
    ensures (b - a) * n == b * n - n * a && n * a <= b * n
  {
  }

  /** From a line start below the panel, which only a move there can reach, a newline comes back by one panel. */
  lemma NewlineComesBack(p: Panel, y: nat)
    requires GoodPanel(p) && p.lines <= y
    ensures RollOver(p, AfterLine(p, y * p.perLine)) == (y - p.lines) * p.perLine
  {
    hide AfterLine;
    Arith.DivModUnique(y * p.perLine, p.perLine, y, 0);
    AtLineStart(p, y * p.perLine);
    RowsApart(p.lines, y, p.perLine);
  }

  class Lcd {
    const panel: Panel
    const ddram: array<byte>
    var currentPos: nat
    /** Characters sent to the controller so far. */
    ghost var sent: nat

    ghost predicate Valid()
      reads this
    {
      GoodPanel(panel) && ddram.Length == DDRAM_SIZE && currentPos < 256
    }

    /** After `hd44780_init`: display cleared, position 0. */
    constructor (panel: Panel)
      requires GoodPanel(panel)
      ensures Valid() && this.panel == panel && currentPos == 0 && fresh(ddram)
      ensures forall a :: 0 <= a < DDRAM_SIZE ==> ddram[a] == 32
    {
      this.panel := panel;
      ddram := new byte[DDRAM_SIZE](_ => SPACE);
      currentPos := 0;
      sent := 0;
    }

    method Clear()
      requires Valid()
      modifies ddram
      ensures forall a :: 0 <= a < DDRAM_SIZE ==> ddram[a] == 32
    {
      forall a | 0 <= a < ddram.Length {
        ddram[a] := SPACE;
      }
    }

    method Goto(line: nat, pos: nat)
      requires Valid()
      modifies this`currentPos
      ensures Valid()
      ensures currentPos == (line * panel.perLine + pos) % 256
    {
      currentPos := (line * panel.perLine + pos) % 256;
    }

    /** `hd44780_put` for a printing character. */
    method PutChar(d: byte)
      requires Valid() && d != 10 && d != 13
      modifies this, ddram
      ensures Valid() && sent == old(sent) + 1
      ensures ddram[..] == old(ddram[..])[Address(panel, old(currentPos)) := d]
      ensures currentPos == Wrap(panel, old(currentPos) + 1)
    {
      var start := Start(panel, currentPos);
      ddram[start % DDRAM_SIZE] := d;
      sent := sent + 1;
      currentPos := (currentPos + 1) % 256;
      if currentPos == panel.perLine * panel.lines {
        currentPos := 0;
      }
    }

    /** The padding loop of a newline. */
    method PadLine()
      requires Valid()
      modifies this, ddram
      ensures Valid()
      ensures ddram[..] == Padded(panel, old(ddram[..]), old(currentPos))
      ensures forall a :: 0 <= a < DDRAM_SIZE ==>
                ddram[a] == if InRestOfLine(panel, old(currentPos), a) then 32 else old(ddram[a])
      ensures currentPos == AfterLine(panel, old(currentPos))
    {
      hide Address, Start;
      ghost var pos: nat := currentPos;
      ghost var goal := Padded(panel, ddram[..], pos);
      PaddedCells(panel, ddram[..], pos);
      ghost var end := NextLine(panel, pos);
      NextLineInside(panel, pos);
      while currentPos % panel.perLine > 0
        invariant Valid() && old(currentPos) <= pos <= 256
        invariant currentPos == if pos == old(currentPos) then pos else Wrap(panel, pos)
        invariant Padded(panel, ddram[..], pos) == goal && NextLine(panel, pos) == end
        decreases ToGo(panel, pos)
      {
        WrapInLine(panel, pos);
        StepInLine(panel, pos);
        PutChar(SPACE);
        pos := pos + 1;
      }
      WrapInLine(panel, pos);
    }

    /** `hd44780_put`: a newline blanks the rest of the line unless the position is at a line start,
        a return goes back to the line start, anything else prints. */
    method Put(d: byte)
      requires Valid()
      modifies this, ddram
      ensures Valid()
      ensures d == 10 ==> ddram[..] == Padded(panel, old(ddram[..]), old(currentPos))
      ensures d == 10 ==> currentPos == RollOver(panel, AfterLine(panel, old(currentPos)))
      ensures d == 13 ==> ddram[..] == old(ddram[..]) && currentPos == old(currentPos - currentPos % panel.perLine)
      ensures d != 10 && d != 13 ==> ddram[..] == old(ddram[..])[Address(panel, old(currentPos)) := d]
      ensures d != 10 && d != 13 ==> currentPos == Wrap(panel, old(currentPos) + 1)
    {
      hide Address, Start, Padded, AfterLine, Wrap;
      if d == 10 {
        PadLine();
        if currentPos >= panel.perLine * panel.lines {
          currentPos := currentPos - panel.perLine * panel.lines;
        }
      } else if d == 13 {
        Arith.ModAtMost(currentPos, panel.perLine);
        currentPos := currentPos - currentPos % panel.perLine;
      } else {
        PutChar(d);
      }
    }
  }
}
