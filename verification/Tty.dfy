/** The curses-like window layer over an HD44780 display: one image shared by all windows,
    a software cursor on the device, and windows that write through both. */
module Tty {
  import opened Bytes
  import opened TtyModel
  import opened Hd44780
  import Arith

  /** The image `tty_image` read as rows. */
  function GridOf(image: seq<byte>, lines: nat, cols: nat): (g: Grid)
    requires |image| == lines * cols
    ensures Rectangular(g, lines, cols)
  {
    if lines == 0 then []
    else
      Arith.MulMonotone(1, lines, cols);
      assert (lines - 1) * cols == lines * cols - cols;
      [image[..cols]] + GridOf(image[cols..], lines - 1, cols)
  }

  lemma {:induction false} GridAt(image: seq<byte>, lines: nat, cols: nat, y: nat, x: nat)
    requires |image| == lines * cols && y < lines && x < cols
    ensures y * cols + x < |image| && GridOf(image, lines, cols)[y][x] == image[y * cols + x]
    decreases lines
  {
    Arith.IndexInside(y, x, lines, cols);
    Arith.MulMonotone(1, lines, cols);
    assert (lines - 1) * cols == lines * cols - cols;
    assert y > 0 ==> (y - 1) * cols + cols == y * cols;
    if y > 0 {
      GridAt(image[cols..], lines - 1, cols, y - 1, x);
    }
  }

  /** Writing `map(win, y, x)` changes that cell and no other. */
  lemma GridOfPut(image: seq<byte>, lines: nat, cols: nat, y: nat, x: nat, ch: byte)
    requires |image| == lines * cols && y < lines && x < cols
    ensures y * cols + x < |image|
    ensures GridOf(image[y * cols + x := ch], lines, cols) == PutCell(GridOf(image, lines, cols), y, x, ch)
  {
    Arith.IndexInside(y, x, lines, cols);
    var image' := image[y * cols + x := ch];
    var a, b := GridOf(image', lines, cols), PutCell(GridOf(image, lines, cols), y, x, ch);
    forall r, c | 0 <= r < |a| && 0 <= c < |a[r]| ensures a[r][c] == b[r][c] {
      GridAt(image, lines, cols, r, c);
      GridAt(image', lines, cols, r, c);
      if r * cols + c == y * cols + x {
        Arith.IndexUnique(r, c, y, x, cols);
      }
    }
    GridsEqual(a, b);
  }

  lemma ZeroGrid(image: seq<byte>, lines: nat, cols: nat)
    requires |image| == lines * cols && forall i :: 0 <= i < |image| ==> image[i] == 0
    ensures forall y, x :: 0 <= y < lines && 0 <= x < cols ==> GridOf(image, lines, cols)[y][x] == 0
  {
    forall y, x | 0 <= y < lines && 0 <= x < cols ensures GridOf(image, lines, cols)[y][x] == 0 {
      GridAt(image, lines, cols, y, x);
    }
  }

  /** A display cell shows an image cell; the zeros of a fresh image count as blanks. */
  predicate Shows(image: byte, shown: byte) {
    shown == image || (image == 0 && shown == BLANK)
  }

  ghost predicate RowShown(p: Panel, y: nat, row: seq<byte>, memory: seq<byte>)
    requires GoodPanel(p) && y < 4 && |memory| == DDRAM_SIZE
  {
    forall x :: 0 <= x < |row| ==> Shows(row[x], memory[CellAddress(p, y, x)])
  }

  /** The display shows the image, row by row. */
  ghost predicate Mirror(p: Panel, g: Grid, memory: seq<byte>)
    requires GoodPanel(p) && |g| <= 4 && |memory| == DDRAM_SIZE
  {
    g == [] || (Mirror(p, g[..|g| - 1], memory) && RowShown(p, |g| - 1, g[|g| - 1], memory))
  }

  lemma {:induction false} MirrorMeans(p: Panel, g: Grid, memory: seq<byte>)
    requires GoodPanel(p) && |g| <= 4 && |memory| == DDRAM_SIZE
    ensures Mirror(p, g, memory) <==>
            forall y, x :: 0 <= y < |g| && 0 <= x < |g[y]| ==> Shows(g[y][x], memory[CellAddress(p, y, x)])
    decreases |g|
  {
    if g != [] {
      MirrorMeans(p, g[..|g| - 1], memory);
      assert forall y :: 0 <= y < |g| - 1 ==> g[y] == g[..|g| - 1][y];
    }
  }

  /** Sending `ch` to the cell that was changed keeps the display in step with the image. */
  lemma MirrorPut(p: Panel, g: Grid, memory: seq<byte>, lines: nat, cols: nat, y: nat, x: nat, ch: byte)
    requires GoodPanel(p) && NoOverlap(p, lines, cols) && |memory| == DDRAM_SIZE
    requires Rectangular(g, lines, cols) && Mirror(p, g, memory) && y < lines && x < cols
    ensures Mirror(p, PutCell(g, y, x, ch), memory[CellAddress(p, y, x) := ch])
  {
    var g', memory' := PutCell(g, y, x, ch), memory[CellAddress(p, y, x) := ch];
    MirrorMeans(p, g, memory);
    NoOverlapMeans(p, lines, cols);
    forall r, c | 0 <= r < |g'| && 0 <= c < |g'[r]| ensures Shows(g'[r][c], memory'[CellAddress(p, r, c)]) {
      assert SameCellOnly(p, r, c, y, x);
    }
    MirrorMeans(p, g', memory');
  }

  /** Without distinct addresses the mirror cannot be kept: two cells that share an address never
      show two different characters. */
  lemma OverlapBreaksMirror(p: Panel, g: Grid, memory: seq<byte>, y: nat, x: nat, y': nat, x': nat)
    requires GoodPanel(p) && |g| <= 4 && |memory| == DDRAM_SIZE
    requires y < |g| && x < |g[y]| && y' < |g| && x' < |g[y']|
    requires CellAddress(p, y, x) == CellAddress(p, y', x') && g[y][x] != g[y'][x'] && g[y][x] != 0 && g[y'][x'] != 0
    ensures !Mirror(p, g, memory)
  {
    hide Mirror, CellAddress;
    MirrorMeans(p, g, memory);
  }

  lemma CleanAt(g: Grid, y: nat, x: nat)
    requires Clean(g) && y < |g| && x < |g[y]|
    ensures g[y][x] != NEWLINE && g[y][x] != RETURN
  {
    CleanMeans(g);
  }

  lemma PutSame(g: Grid, y: nat, x: nat, ch: byte)
    requires y < |g| && x < |g[y]| && g[y][x] == ch
    ensures PutCell(g, y, x, ch) == g
  {
    GridsEqual(PutCell(g, y, x, ch), g);
  }

  lemma PanelCovers(p: Panel, lines: nat, cols: nat)
    requires GoodPanel(p) && NoOverlap(p, lines, cols)
    ensures lines <= p.lines && cols <= p.perLine
  {
  }

  /** Copying one cell through `waddch` advances the scroll by that cell. */
  lemma CopyStep(w: Frame, g: Grid, k: nat, y: nat, x: nat)
    requires Fits(w, g) && k >= 1 && y + k <= w.maxy && x <= w.maxx
    ensures var s := Shifting(w, g, k, y, x);
            var ch := s[w.begy + y + k][w.begx + x];
            ch != NEWLINE && ch != RETURN ==>
              AddChar(w, Screen(s, y, x), ch) ==
              Screen(Shifting(w, g, k, y, x + 1),
                     if x == w.maxx && w.linewrap then y + 1 else y,
                     if x < w.maxx then x + 1 else if w.linewrap then 0 else x)
  {
    ShiftingCell(w, g, k, y, x, w.begy + y + k, w.begx + x);
  }

  lemma ShiftingRow(w: Frame, g: Grid, k: nat, y: nat)
    requires Fits(w, g) && k >= 1 && y + k <= w.maxy
    ensures Shifting(w, g, k, y, w.maxx + 1) == Shifting(w, g, k, y + 1, 0)
  {
  }

  lemma CleanPut(g: Grid, y: nat, x: nat, ch: byte)
    requires Clean(g) && y < |g| && x < |g[y]| && ch != NEWLINE && ch != RETURN
    ensures Clean(PutCell(g, y, x, ch))
  {
    CleanMeans(g);
    CleanMeans(PutCell(g, y, x, ch));
  }

  class Window {
    var subwin: bool
    var linewrap: bool
    var scrollok: bool
    var leaveok: bool
    var y: nat
    var x: nat
    var maxy: nat
    var maxx: nat
    var begy: nat
    var begx: nat

    function Frame(): Frame
      reads `maxy, `maxx, `begy, `begx, `linewrap, `scrollok
    {
      TtyModel.Frame(maxy, maxx, begy, begx, linewrap, scrollok)
    }

    /** `subwin` */
    constructor Sub(lines: nat, cols: nat, begy: nat, begx: nat)
      requires 1 <= lines && 1 <= cols
      ensures subwin && leaveok && y == 0 && x == 0
      ensures Frame() == TtyModel.Frame(lines - 1, cols - 1, begy, begx, true, true)
    {
      subwin := true;
      linewrap, scrollok, leaveok := true, true, true;
      y, x := 0, 0;
      maxy, maxx := lines - 1, cols - 1;
      this.begy, this.begx := begy, begx;
    }

    /** `tty_mainwin` as `initscr` sets it up. */
    constructor Main(lines: nat, cols: nat)
      requires 1 <= lines && 1 <= cols
      ensures !subwin && leaveok && y == 0 && x == 0
      ensures Frame() == TtyModel.Frame(lines - 1, cols - 1, 0, 0, true, true)
    {
      subwin := false;
      linewrap, scrollok, leaveok := true, true, true;
      y, x := 0, 0;
      maxy, maxx := lines - 1, cols - 1;
      begy, begx := 0, 0;
    }
  }

  /** Blanking a window that covers the screen blanks the screen. */
  lemma RootBlank(w: Frame, g: Grid, blank: Grid)
    requires Fits(w, g) && SameShape(g, blank)
    requires forall r, c :: 0 <= r < |blank| && 0 <= c < |blank[r]| ==> blank[r][c] == BLANK && Inside(w, r, c)
    ensures BlankFrom(w, g, 0, 0) == blank
  {
    forall r, c | 0 <= r < |blank| && 0 <= c < |blank[r]| ensures BlankFrom(w, g, 0, 0)[r][c] == blank[r][c] {
      BlankRowsCell(w, g, 0, 0, w.maxy + 1, r, c);
    }
    GridsEqual(BlankFrom(w, g, 0, 0), blank);
  }

  lemma BlankGrid(image: seq<byte>, lines: nat, cols: nat)
    requires |image| == lines * cols && forall i :: 0 <= i < |image| ==> image[i] == BLANK
    ensures forall y, x :: 0 <= y < lines && 0 <= x < cols ==> GridOf(image, lines, cols)[y][x] == BLANK
  {
    forall y, x | 0 <= y < lines && 0 <= x < cols ensures GridOf(image, lines, cols)[y][x] == BLANK {
      GridAt(image, lines, cols, y, x);
    }
  }

  class Tty {
    const lines: nat
    const cols: nat
    const lcd: Lcd
    const image: array<byte>
    var llY: nat
    var llX: nat

    ghost function Grid(): (g: Grid)
      requires image.Length == lines * cols
      reads image
    {
      GridOf(image[..], lines, cols)
    }

    ghost predicate Sized()
      reads lcd
    {
      && lcd.Valid() && 1 <= lines && 1 <= cols && image.Length == lines * cols
      && NoOverlap(lcd.panel, lines, cols) && image != lcd.ddram
    }

    /** The remembered device position is the real one whenever a put could rely on it. */
    ghost predicate Synced()
      requires Sized()
      reads this, lcd
    {
      llY < lines && llX < cols ==> lcd.currentPos == llY * lcd.panel.perLine + llX
    }

    ghost predicate Valid()
      reads this, lcd, image, lcd.ddram
    {
      Sized() && Synced() && Clean(Grid()) && Mirror(lcd.panel, Grid(), lcd.ddram[..])
    }

    /** A window that fits the screen; a root window covers it. */
    ghost predicate Ok(win: Window)
      reads win
    {
      && win.begy + win.maxy < lines && win.begx + win.maxx < cols
      && CursorOk(win.Frame(), win.y, win.x)
      && (!win.subwin ==> win.begy == 0 && win.begx == 0 && win.maxy == lines - 1 && win.maxx == cols - 1)
    }

    ghost function State(win: Window): Screen
      requires image.Length == lines * cols
      reads win, image
    {
      Screen(Grid(), win.y, win.x)
    }

    /** `initscr` on a fresh image, right after `hd44780_init`. */
    constructor (lines: nat, cols: nat, lcd: Lcd)
      requires 1 <= lines && 1 <= cols && lcd.Valid() && lcd.currentPos == 0 && NoOverlap(lcd.panel, lines, cols)
      modifies lcd.ddram
      ensures Valid() && this.lines == lines && this.cols == cols && this.lcd == lcd && fresh(image)
      ensures forall r, c :: 0 <= r < lines && 0 <= c < cols ==> Grid()[r][c] == 0
    {
      this.lines, this.cols, this.lcd := lines, cols, lcd;
      image := new byte[lines * cols](_ => 0);
      llY, llX := 0, 0;
      new;
      lcd.Clear();
      ZeroGrid(image[..], lines, cols);
      CleanMeans(Grid());
      MirrorMeans(lcd.panel, Grid(), lcd.ddram[..]);
    }

    method LlGoto(y: nat, x: nat)
      requires Sized() && Synced()
      modifies this`llY, this`llX, lcd`currentPos
      ensures Sized() && Synced() && llY == y && llX == x
    {
      if y == llY && x == llX {
        return;
      }
      lcd.Goto(y, x);
      llY := y;
      llX := x;
      if y < lines && x < cols {
        PositionFits(lcd.panel, y, x);
      }
    }

    method LlPut(y: nat, x: nat, ch: byte)
      requires Sized() && Synced() && y < lines && x < cols && ch != NEWLINE && ch != RETURN
      modifies this`llY, this`llX, lcd, lcd.ddram
      ensures Sized() && Synced() && lcd.sent == old(lcd.sent) + 1
      ensures lcd.ddram[..] == old(lcd.ddram[..])[CellAddress(lcd.panel, y, x) := ch]
    {
      hide Mirror, Clean, GridOf, NoOverlap, Address, CellAddress, SameCellOnly, LineApart;
      PanelCovers(lcd.panel, lines, cols);
      if y != llY || x != llX {
        LlGoto(y, x);
      }
      AddressOfCell(lcd.panel, y, x);
      PositionFits(lcd.panel, y, x);
      if x + 1 < cols {
        PositionFits(lcd.panel, y, x + 1);
      }
      lcd.PutChar(ch);
      llX := llX + 1;
    }

    /** `wmove` */
    method WMove(win: Window, y: nat, x: nat)
      requires Valid() && Ok(win)
      modifies this`llY, this`llX, lcd`currentPos, win`y, win`x
      ensures Valid() && Ok(win)
      ensures State(win) == if y > win.maxy || x > win.maxx then old(State(win)) else Screen(old(Grid()), y, x)
    {
      hide Mirror, Clean, GridOf, NoOverlap;
      if y > win.maxy || x > win.maxx {
        return;
      }
      win.y := y;
      win.x := x;
      if !win.leaveok {
        LlGoto(y + win.begy, x + win.begx);
      }
    }

    /** The default branch of `waddch`: a cell that already shows `ch` is not sent again. */
    method PrintCell(win: Window, ch: byte)
      requires Valid() && Ok(win) && win.y <= win.maxy && ch != NEWLINE && ch != RETURN
      modifies this`llY, this`llX, image, lcd, lcd.ddram
      ensures Valid() && Grid() == PutCell(old(Grid()), win.begy + win.y, win.begx + win.x, ch)
      ensures lcd.sent == old(lcd.sent) + if old(Grid()[win.begy + win.y][win.begx + win.x]) == ch then 0 else 1
    {
      hide Mirror, Clean, GridOf, NoOverlap, PutCell;
      ghost var before := Grid();
      var r, c := win.y + win.begy, win.x + win.begx;
      GridAt(image[..], lines, cols, r, c);
      if image[r * cols + c] != ch {
        GridOfPut(image[..], lines, cols, r, c, ch);
        MirrorPut(lcd.panel, before, lcd.ddram[..], lines, cols, r, c, ch);
        CleanPut(before, r, c, ch);
        ghost var was := image[..];
        image[r * cols + c] := ch;
        assert image[..] == was[r * cols + c := ch];
        LlPut(r, c, ch);
      } else {
        PutSame(before, r, c, ch);
      }
    }

    /** `if (!win->leaveok) tty_ll_goto (...)` */
    method MayGoto(win: Window)
      requires Valid()
      modifies this`llY, this`llX, lcd`currentPos
      ensures Valid()
    {
      if !win.leaveok {
        LlGoto(win.y + win.begy, win.x + win.begx);
      }
    }

    /** The cursor after a printed character. */
    method Advance(win: Window)
      requires Valid() && Ok(win) && win.y <= win.maxy
      modifies this`llY, this`llX, lcd`currentPos, win`y, win`x
      ensures Valid() && Ok(win)
      ensures win.y == if old(win.x) == win.maxx && win.linewrap then old(win.y) + 1 else old(win.y)
      ensures win.x == if old(win.x) < win.maxx then old(win.x) + 1 else if win.linewrap then 0 else old(win.x)
    {
      hide Mirror, Clean, GridOf, NoOverlap;
      if win.x == win.maxx {
        if win.linewrap {
          win.y := win.y + 1;
          win.x := 0;
        }
        if !win.leaveok {
          LlGoto(win.y + win.begy, win.begx);
        }
      } else {
        win.x := win.x + 1;
      }
    }

    /** The switch of `waddch`, with the cursor inside the window. */
    method Emit(win: Window, ch: byte)
      requires Valid() && Ok(win) && win.y <= win.maxy
      modifies this`llY, this`llX, image, lcd, lcd.ddram, win`y, win`x
      ensures Valid() && Ok(win)
      ensures State(win) == Typed(win.Frame(), old(State(win)), ch)
    {
      hide Mirror, Clean, GridOf, NoOverlap, PutCell;
      if ch == NEWLINE || ch == RETURN {
        if ch == NEWLINE {
          win.y := win.y + 1;
        }
        win.x := 0;
        MayGoto(win);
      } else {
        PrintCell(win, ch);
        Advance(win);
      }
    }

    /** `waddch` */
    method WAddCh(win: Window, ch: byte)
      requires Valid() && Ok(win)
      modifies this`llY, this`llX, image, lcd, lcd.ddram, win`y, win`x
      ensures Valid() && Ok(win)
      ensures State(win) == AddChar(win.Frame(), old(State(win)), ch)
      decreases if win.y > win.maxy then 5 else 0
    {
      hide Mirror, Clean, GridOf, NoOverlap, Typed, Scrolled;
      if win.y > win.maxy {
        if !win.scrollok {
          return;
        }
        WScroll(win, win.y - win.maxy);
      }
      Emit(win, ch);
    }

    /** The inner loop of `wscroll`: row `y` gets the characters `k` rows below, through `waddch`. */
    method CopyRow(win: Window, k: nat, y: nat, ghost g: Grid)
      requires Valid() && Ok(win) && k >= 1 && y + k <= win.maxy && win.y == y && win.x == 0
      requires Fits(win.Frame(), g) && Grid() == Shifting(win.Frame(), g, k, y, 0)
      modifies this`llY, this`llX, image, lcd, lcd.ddram, win`y, win`x
      ensures Valid() && Ok(win)
      ensures Grid() == Shifting(win.Frame(), g, k, y + 1, 0)
      decreases 3
    {
      hide Mirror, Clean, GridOf, NoOverlap, BlankFrom, PutCell, AddChar, Shifting;
      ghost var w := win.Frame();
      var x := 0;
      while x <= win.maxx
        invariant Valid() && Ok(win) && x <= win.maxx + 1
        invariant x <= win.maxx ==> win.y == y && win.x == x
        invariant Grid() == Shifting(w, g, k, y, x)
      {
        var r, c := y + k + win.begy, win.x + win.begx;
        GridAt(image[..], lines, cols, r, c);
        CleanAt(Grid(), r, c);
        CopyStep(w, g, k, y, x);
        WAddCh(win, image[r * cols + c]);
        x := x + 1;
      }
      ShiftingRow(w, g, k, y);
    }

    /** `wspacetoeol` */
    method WSpaceToEol(win: Window)
      requires Valid() && Ok(win) && win.y <= win.maxy
      modifies this`llY, this`llX, image, lcd, lcd.ddram, win`y, win`x
      ensures Valid() && Ok(win)
      ensures Grid() == BlankSpan(old(Grid()), old(win.begy + win.y), old(win.begx + win.x), win.begx + win.maxx + 1)
      decreases 1
    {
      hide Mirror, Clean, GridOf, NoOverlap, PutCell;
      var i := win.maxx - win.x + 1;
      ghost var g, y, x := Grid(), win.y, win.x;
      while i > 0
        invariant Valid() && Ok(win) && 0 <= i <= win.maxx + 1 - x
        invariant Grid() == BlankSpan(g, win.begy + y, win.begx + x, win.begx + win.maxx + 1 - i)
        invariant i > 0 ==> win.y == y && win.x == win.maxx + 1 - i
      {
        i := i - 1;
        WAddCh(win, BLANK);
      }
    }

    /** `wclrtobot` */
    method WClrToBot(win: Window)
      requires Valid() && Ok(win) && win.y <= win.maxy
      modifies this`llY, this`llX, image, lcd, lcd.ddram, win`y, win`x
      ensures Valid() && Ok(win)
      ensures State(win) == Screen(BlankFrom(win.Frame(), old(Grid()), old(win.y), old(win.x)), old(win.y), old(win.x))
      decreases 2
    {
      hide Mirror, Clean, GridOf, NoOverlap, BlankSpan, PutCell;
      var y0, x0 := win.y, win.x;
      ghost var g, w := Grid(), win.Frame();
      WSpaceToEol(win);
      var y := y0 + 1;
      while y <= win.maxy
        invariant Valid() && Ok(win) && y0 < y <= win.maxy + 1
        invariant Grid() == BlankRows(w, g, y0, x0, y)
      {
        WMove(win, y, 0);
        WSpaceToEol(win);
        y := y + 1;
      }
      WMove(win, y0, x0);
    }

    /** The root branch of `wclear`: fill the image and clear the display. */
    method ClearScreen()
      requires Valid()
      modifies image, lcd.ddram
      ensures Valid()
      ensures forall r, c :: 0 <= r < lines && 0 <= c < cols ==> Grid()[r][c] == BLANK
    {
      forall i | 0 <= i < image.Length {
        image[i] := BLANK;
      }
      lcd.Clear();
      BlankGrid(image[..], lines, cols);
      CleanMeans(Grid());
      MirrorMeans(lcd.panel, Grid(), lcd.ddram[..]);
    }

    /** `wclear` */
    method WClear(win: Window)
      requires Valid() && Ok(win)
      modifies this`llY, this`llX, image, lcd, lcd.ddram, win`y, win`x
      ensures Valid() && Ok(win)
      ensures State(win) == Screen(BlankFrom(win.Frame(), old(Grid()), 0, 0), 0, 0)
      decreases 3
    {
      hide Mirror, Clean, GridOf, NoOverlap, BlankRows;
      if !win.subwin {
        ghost var g := Grid();
        ClearScreen();
        win.y := 0;
        win.x := 0;
        RootBlank(win.Frame(), g, Grid());
        return;
      }
      WMove(win, 0, 0);
      WClrToBot(win);
    }

    /** `wscroll` */
    method WScroll(win: Window, k: nat)
      requires Valid() && Ok(win) && k >= 1
      modifies this`llY, this`llX, image, lcd, lcd.ddram, win`y, win`x
      ensures Valid() && Ok(win)
      ensures State(win) == Screen(Scrolled(win.Frame(), old(Grid()), k),
                                   if k > win.maxy then 0 else win.maxy - k + 1, 0)
      decreases 4
    {
      hide Mirror, Clean, GridOf, NoOverlap, BlankFrom, PutCell, AddChar;
      ghost var g, w := Grid(), win.Frame();
      if k > win.maxy {
        WClear(win);
        return;
      }
      var y := 0;
      while y <= win.maxy - k
        invariant Valid() && Ok(win) && y <= win.maxy - k + 1
        invariant Grid() == Shifting(w, g, k, y, 0)
      {
        WMove(win, y, 0);
        CopyRow(win, k, y, g);
        y := y + 1;
      }
      WMove(win, win.maxy - k + 1, 0);
      WClrToBot(win);
    }

    /** `wclrtoeol` */
    method WClrToEol(win: Window)
      requires Valid() && Ok(win) && win.y <= win.maxy
      modifies this`llY, this`llX, image, lcd, lcd.ddram, win`y, win`x
      ensures Valid() && Ok(win)
      ensures State(win) == Screen(BlankSpan(old(Grid()), old(win.begy + win.y), old(win.begx + win.x),
                                             win.begx + win.maxx + 1),
                                   old(win.y), old(win.x))
    {
      hide Mirror, Clean, GridOf, NoOverlap, BlankSpan;
      var y, x := win.y, win.x;
      WSpaceToEol(win);
      WMove(win, y, x);
    }

    /** `waddstr`: the characters up to the terminating zero. */
    method WAddStr(win: Window, str: seq<byte>)
      requires Valid() && Ok(win) && 0 in str
      modifies this`llY, this`llX, image, lcd, lcd.ddram, win`y, win`x
      ensures Valid() && Ok(win)
      ensures exists n :: 0 <= n < |str| && str[n] == 0 && 0 !in str[..n]
                          && State(win) == AddString(win.Frame(), old(State(win)), str[..n])
    {
      hide Mirror, Clean, GridOf, NoOverlap, AddChar;
      ghost var w, s := win.Frame(), State(win);
      var p := 0;
      while str[p] != 0
        invariant p < |str| && 0 !in str[..p]
        invariant Valid() && Ok(win) && State(win) == AddString(w, s, str[..p])
        decreases |str| - p
      {
        AddStringAppend(w, s, str[..p], str[p]);
        assert str[..p + 1] == str[..p] + [str[p]];
        WAddCh(win, str[p]);
        p := p + 1;
      }
    }
  }
}
