/** Whole sessions: any sequence of calls on any windows keeps the display in step with the image. */
module TtySession {
  import opened Bytes
  import opened TtyModel
  import opened Hd44780
  import opened PaperTerminal
  import opened Tty

  datatype Call =
    | AddCh(win: nat, ch: byte)
    | AddStr(win: nat, str: seq<byte>)
    | Move(win: nat, y: nat, x: nat)
    | Clear(win: nat)
    | Scroll(win: nat, lines: nat)
    | ClrToEol(win: nat)
    | ClrToBot(win: nat)

  /** What a call itself demands, with the cursor of window `w` in row `y`. */
  predicate MayCall(c: Call, w: Frame, y: nat) {
    match c
    case AddStr(_, str) => 0 in str
    case Scroll(_, lines) => lines >= 1
    case ClrToEol(_) => y <= w.maxy
    case ClrToBot(_) => y <= w.maxy
    case _ => true
  }

  /** A C string, up to its terminating zero. */
  function UpToZero(str: seq<byte>): seq<byte> {
    if str == [] || str[0] == 0 then [] else [str[0]] + UpToZero(str[1..])
  }

  /** What a call means for the screen. */
  function Called(c: Call, w: Frame, s: Screen): Screen
    requires Fits(w, s.cells) && CursorOk(w, s.y, s.x) && MayCall(c, w, s.y)
  {
    match c
    case AddCh(_, ch) => AddChar(w, s, ch)
    case AddStr(_, str) => AddString(w, s, UpToZero(str))
    case Move(_, y, x) => if y > w.maxy || x > w.maxx then s else Screen(s.cells, y, x)
    case Clear(_) => Screen(BlankFrom(w, s.cells, 0, 0), 0, 0)
    case Scroll(_, k) => Screen(Scrolled(w, s.cells, k), if k > w.maxy then 0 else w.maxy - k + 1, 0)
    case ClrToEol(_) => s.(cells := BlankSpan(s.cells, w.begy + s.y, w.begx + s.x, w.begx + w.maxx + 1))
    case ClrToBot(_) => s.(cells := BlankFrom(w, s.cells, s.y, s.x))
  }

  /** The only calls a session leaves out: a string without its end, a scroll by no lines, and clearing
      to the end of a line or of the window while the cursor is pending below the window. */
  lemma OnlyTheseAreLeftOut(c: Call, w: Frame, y: nat, x: nat)
    requires CursorOk(w, y, x)
    ensures MayCall(c, w, y) <==>
            !(c.AddStr? && 0 !in c.str) && c != Scroll(c.win, 0) && !((c.ClrToEol? || c.ClrToBot?) && y == w.maxy + 1)
  {
  }

  datatype Cursor = Cursor(y: nat, x: nat)

  /** The shared image and the cursor of every window. */
  datatype Desk = Desk(cells: Grid, cursors: map<Window, Cursor>)

  ghost function Frames(wins: seq<Window>): map<Window, Frame>
    reads wins
  {
    map w | w in wins :: w.Frame()
  }

  ghost function CursorsOf(wins: seq<Window>): map<Window, Cursor>
    reads wins
  {
    map w | w in wins :: Cursor(w.y, w.x)
  }

  ghost function DeskOf(tty: Tty, wins: seq<Window>): Desk
    requires tty.image.Length == tty.lines * tty.cols
    reads tty.image, wins
  {
    Desk(tty.Grid(), CursorsOf(wins))
  }

  /** A call that is made on a window of the session, well placed, with its demands met. */
  ghost predicate Made(c: Call, wins: seq<Window>, frames: map<Window, Frame>, d: Desk) {
    && c.win < |wins| && wins[c.win] in frames && wins[c.win] in d.cursors
    && var w, at := frames[wins[c.win]], d.cursors[wins[c.win]];
       Fits(w, d.cells) && CursorOk(w, at.y, at.x) && MayCall(c, w, at.y)
  }

  /** One call: it sees the image and its own window's cursor, and changes nothing else. */
  ghost function After(c: Call, wins: seq<Window>, frames: map<Window, Frame>, d: Desk): Desk {
    if !Made(c, wins, frames, d) then d
    else
      var win := wins[c.win];
      var s := Called(c, frames[win], Screen(d.cells, d.cursors[win].y, d.cursors[win].x));
      Desk(s.cells, d.cursors[win := Cursor(s.y, s.x)])
  }

  /** A whole session; a call whose demands are not met is not made. */
  ghost function AfterAll(calls: seq<Call>, wins: seq<Window>, frames: map<Window, Frame>, d: Desk): Desk
    decreases |calls|
  {
    if calls == [] then d
    else After(calls[|calls| - 1], wins, frames, AfterAll(calls[..|calls| - 1], wins, frames, d))
  }

  /** A session in two parts. */
  lemma {:induction false} SessionsJoin(a: seq<Call>, b: seq<Call>, wins: seq<Window>, frames: map<Window, Frame>,
                                        d: Desk)
    ensures AfterAll(a + b, wins, frames, d) == AfterAll(b, wins, frames, AfterAll(a, wins, frames, d))
    ensures |b| == 1 ==> AfterAll(b, wins, frames, d) == After(b[0], wins, frames, d)
    decreases |b|
  {
    hide After;
    if b == [] {
      assert a + b == a;
    } else {
      assert (a + b)[..|a + b| - 1] == a + b[..|b| - 1];
      SessionsJoin(a, b[..|b| - 1], wins, frames, d);
    }
  }

  lemma {:induction false} UpToZeroIs(str: seq<byte>, n: nat)
    requires n < |str| && str[n] == 0 && 0 !in str[..n]
    ensures UpToZero(str) == str[..n]
  {
    if n > 0 {
      assert str[0] in str[..n] && str[1..][..n - 1] == str[..n][1..];
      UpToZeroIs(str[1..], n - 1);
    }
  }

  /** In a valid state every display cell shows its image cell. */
  lemma DisplayShowsImage(tty: Tty, y: nat, x: nat)
    requires tty.Valid() && y < tty.lines && x < tty.cols
    ensures var image, shown := tty.Grid()[y][x], tty.lcd.ddram[Address(tty.lcd.panel, y * tty.lcd.panel.perLine + x)];
            shown == image || (image == 0 && shown == 32)
  {
    PanelCovers(tty.lcd.panel, tty.lines, tty.cols);
    MirrorMeans(tty.lcd.panel, tty.Grid(), tty.lcd.ddram[..]);
    AddressOfCell(tty.lcd.panel, y, x);
  }

  /** One call on one window. */
  method PerformOn(tty: Tty, win: Window, c: Call)
    requires tty.Valid() && tty.Ok(win) && MayCall(c, win.Frame(), win.y)
    modifies tty`llY, tty`llX, tty.image, tty.lcd, tty.lcd.ddram, win`y, win`x
    ensures tty.Valid() && tty.Ok(win)
    ensures tty.State(win) == Called(c, win.Frame(), old(tty.State(win)))
  {
    hide GridOf, Mirror, Clean, NoOverlap, AddChar, AddString, BlankFrom, BlankSpan, Scrolled, UpToZero;
    match c {
      case AddCh(_, ch) => tty.WAddCh(win, ch);
      case AddStr(_, str) =>
        tty.WAddStr(win, str);
        forall n | 0 <= n < |str| && str[n] == 0 && 0 !in str[..n] ensures UpToZero(str) == str[..n] {
          UpToZeroIs(str, n);
        }
      case Move(_, y, x) => tty.WMove(win, y, x);
      case Clear(_) => tty.WClear(win);
      case Scroll(_, lines) => tty.WScroll(win, lines);
      case ClrToEol(_) => tty.WClrToEol(win);
      case ClrToBot(_) => tty.WClrToBot(win);
    }
  }

  /** A window that is all right fits the image with its cursor in place. */
  lemma WindowPlaced(tty: Tty, win: Window)
    requires tty.Valid() && tty.Ok(win)
    ensures Fits(win.Frame(), tty.Grid()) && CursorOk(win.Frame(), win.y, win.x)
  {
  }

  lemma PlaceOf(wins: seq<Window>, win: Window)
    requires win in wins
    ensures win in Frames(wins) && Frames(wins)[win] == win.Frame()
    ensures win in CursorsOf(wins) && CursorsOf(wins)[win] == Cursor(win.y, win.x)
  {
  }

  lemma FramesAre(wins: seq<Window>, frames: map<Window, Frame>)
    requires forall w :: w in frames <==> w in wins
    requires forall w | w in wins :: frames[w] == w.Frame()
    ensures Frames(wins) == frames
  {
  }

  lemma CursorsAre(wins: seq<Window>, cursors: map<Window, Cursor>)
    requires forall w :: w in cursors <==> w in wins
    requires forall w | w in wins :: cursors[w] == Cursor(w.y, w.x)
    ensures CursorsOf(wins) == cursors
  {
  }

  lemma AfterIs(c: Call, wins: seq<Window>, frames: map<Window, Frame>, d: Desk, win: Window, at: Cursor)
    requires c.win < |wins| && win == wins[c.win] && win in frames && win in d.cursors && at == d.cursors[win]
    requires Fits(frames[win], d.cells) && CursorOk(frames[win], at.y, at.x)
    ensures After(c, wins, frames, d) ==
            if !MayCall(c, frames[win], at.y) then d
            else var s := Called(c, frames[win], Screen(d.cells, at.y, at.x));
                 Desk(s.cells, d.cursors[win := Cursor(s.y, s.x)])
  {
  }

  /** A call on one window of many. */
  method MoveOne(tty: Tty, wins: seq<Window>, win: Window, c: Call)
    requires tty.Valid() && tty.Ok(win) && (forall i :: 0 <= i < |wins| ==> tty.Ok(wins[i])) && win in wins
    requires MayCall(c, win.Frame(), win.y)
    modifies tty`llY, tty`llX, tty.image, tty.lcd, tty.lcd.ddram, win`y, win`x
    ensures tty.Valid() && forall i :: 0 <= i < |wins| ==> tty.Ok(wins[i])
    ensures tty.State(win) == Called(c, win.Frame(), old(tty.State(win)))
    ensures Frames(wins) == old(Frames(wins))
    ensures CursorsOf(wins) == old(CursorsOf(wins))[win := Cursor(win.y, win.x)]
  {
    hide GridOf, Mirror, Clean, NoOverlap, Called, Fits, CursorOk, MayCall, Tty.Ok, Tty.Valid;
    ghost var frames, cursors := Frames(wins), CursorsOf(wins);
    PerformOn(tty, win, c);
    FramesAre(wins, frames);
    CursorsAre(wins, cursors[win := Cursor(win.y, win.x)]);
  }

  /** One call of a session: made only when its own demands are met. */
  method Perform(tty: Tty, wins: seq<Window>, c: Call)
    requires tty.Valid() && forall i :: 0 <= i < |wins| ==> tty.Ok(wins[i])
    modifies tty`llY, tty`llX, tty.image, tty.lcd, tty.lcd.ddram, wins
    ensures tty.Valid() && forall i :: 0 <= i < |wins| ==> tty.Ok(wins[i])
    ensures Frames(wins) == old(Frames(wins))
    ensures DeskOf(tty, wins) == After(c, wins, old(Frames(wins)), old(DeskOf(tty, wins)))
  {
    hide GridOf, Mirror, Clean, NoOverlap, Called, MayCall;
    if c.win < |wins| {
      var win := wins[c.win];
      WindowPlaced(tty, win);
      ghost var frames, d, at := Frames(wins), DeskOf(tty, wins), Cursor(win.y, win.x);
      PlaceOf(wins, win);
      AfterIs(c, wins, frames, d, win, at);
      if MayCall(c, win.Frame(), win.y) {
        MoveOne(tty, wins, win, c);
      }
    }
  }

  /** Any sequence of calls, each made only when its own demands are met, on any set of windows: the
      image and all cursors end up as the calls say. */
  method PerformAll(tty: Tty, wins: seq<Window>, calls: seq<Call>)
    requires tty.Valid() && forall i :: 0 <= i < |wins| ==> tty.Ok(wins[i])
    modifies tty`llY, tty`llX, tty.image, tty.lcd, tty.lcd.ddram, wins
    ensures tty.Valid() && forall i :: 0 <= i < |wins| ==> tty.Ok(wins[i])
    ensures Frames(wins) == old(Frames(wins))
    ensures DeskOf(tty, wins) == AfterAll(calls, wins, old(Frames(wins)), old(DeskOf(tty, wins)))
  {
    hide After;
    ghost var frames, d := Frames(wins), DeskOf(tty, wins);
    for n := 0 to |calls|
      invariant tty.Valid() && forall i :: 0 <= i < |wins| ==> tty.Ok(wins[i])
      invariant Frames(wins) == frames && DeskOf(tty, wins) == AfterAll(calls[..n], wins, frames, d)
    {
      Perform(tty, wins, calls[n]);
      assert calls[..n + 1][..n] == calls[..n];
    }
    assert calls[..|calls|] == calls;
  }

  /** A cleared window into which a string is printed shows the last rows of the string laid out on
      unbounded paper, and so does the display. */
  method ShowText(tty: Tty, win: Window, str: seq<byte>)
    requires tty.Valid() && tty.Ok(win) && 0 in str && win.linewrap && win.scrollok
    modifies tty`llY, tty`llX, tty.image, tty.lcd, tty.lcd.ddram, win`y, win`x
    ensures tty.Valid() && tty.Ok(win)
    ensures View(win.Frame(), tty.Grid()) ==
            LastRows(PrintAll(FRESH, win.maxx, UpToZero(str)).rows, win.maxy + 1, win.maxx + 1)
  {
    hide View, LastRows, PrintAll, AddString, AddChar, BlankFrom, BlankSpan, Scrolled, UpToZero;
    hide GridOf, Mirror, Clean, NoOverlap;
    ghost var w, g, s := win.Frame(), tty.Grid(), UpToZero(str);
    WindowPlaced(tty, win);
    WindowShowsLastRows(w, g, s);
    PerformOn(tty, win, Clear(0));
    assert win.Frame() == w && tty.State(win) == Screen(BlankFrom(w, g, 0, 0), 0, 0);
    PerformOn(tty, win, AddStr(0, str));
    assert win.Frame() == w && tty.State(win) == AddString(w, Screen(BlankFrom(w, g, 0, 0), 0, 0), s);
  }
}
