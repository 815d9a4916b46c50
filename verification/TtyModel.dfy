/** Pure model of the window layer: a screen of cells, a window on it, and what each call means. */
module TtyModel {
  import opened Bytes

  type Grid = seq<seq<byte>>

  const BLANK: byte := 32
  const NEWLINE: byte := 10
  const RETURN: byte := 13

  /** Place, size and flags of a window; `maxy` and `maxx` are the last row and column. */
  datatype Frame = Frame(maxy: nat, maxx: nat, begy: nat, begx: nat, linewrap: bool, scrollok: bool)

  /** Cells and the window's cursor; `y == maxy + 1` is a scroll still owed. */
  datatype Screen = Screen(cells: Grid, y: nat, x: nat)

  predicate Rectangular(g: Grid, lines: nat, cols: nat) {
    |g| == lines && forall r :: 0 <= r < |g| ==> |g[r]| == cols
  }

  predicate Fits(w: Frame, g: Grid) {
    w.begy + w.maxy < |g| && forall r :: 0 <= r < |g| ==> w.begx + w.maxx < |g[r]|
  }

  predicate Inside(w: Frame, r: int, c: int) {
    w.begy <= r <= w.begy + w.maxy && w.begx <= c <= w.begx + w.maxx
  }

  predicate CursorOk(w: Frame, y: nat, x: nat) {
    x <= w.maxx && (y <= w.maxy || (y == w.maxy + 1 && x == 0))
  }

  /** No cell holds a control character that `waddch` would obey. */
  ghost predicate Clean(g: Grid) {
    g == [] || ((forall c :: 0 <= c < |g[0]| ==> g[0][c] != NEWLINE && g[0][c] != RETURN) && Clean(g[1..]))
  }

  lemma {:induction false} CleanMeans(g: Grid)
    ensures Clean(g) <==> forall r, c :: 0 <= r < |g| && 0 <= c < |g[r]| ==> g[r][c] != NEWLINE && g[r][c] != RETURN
  {
    if g != [] {
      CleanMeans(g[1..]);
      assert forall r :: 1 <= r < |g| ==> g[r] == g[1..][r - 1];
    }
  }

  function PutCell(g: Grid, r: nat, c: nat, ch: byte): Grid
    requires r < |g| && c < |g[r]|
  {
    g[r := g[r][c := ch]]
  }

  ghost predicate SameShape(a: Grid, b: Grid) {
    |a| == |b| && forall r :: 0 <= r < |a| ==> |a[r]| == |b[r]|
  }

  /** Row `r`, columns `from` up to but not including `end`, blanked. */
  function BlankSpan(g: Grid, r: nat, from: nat, end: nat): (b: Grid)
    requires r < |g| && end <= |g[r]|
    ensures SameShape(g, b)
  {
    if end <= from then g else PutCell(BlankSpan(g, r, from, end - 1), r, end - 1, BLANK)
  }

  /** Window row `y` from column `x` on and all rows down to but not including `z` blanked. */
  function BlankRows(w: Frame, g: Grid, y: nat, x: nat, z: nat): (b: Grid)
    requires Fits(w, g) && y < z <= w.maxy + 1
    ensures SameShape(g, b)
    decreases z
  {
    if z == y + 1 then BlankSpan(g, w.begy + y, w.begx + x, w.begx + w.maxx + 1)
    else BlankSpan(BlankRows(w, g, y, x, z - 1), w.begy + z - 1, w.begx, w.begx + w.maxx + 1)
  }

  /** The window from its cell (y, x) to its end blanked. */
  function BlankFrom(w: Frame, g: Grid, y: nat, x: nat): (b: Grid)
    requires Fits(w, g) && y <= w.maxy
    ensures SameShape(g, b)
  {
    BlankRows(w, g, y, x, w.maxy + 1)
  }

  /** The copy loop of a scroll by `k`, stopped before window row `y`, column `x`. */
  function Shifting(w: Frame, g: Grid, k: nat, y: nat, x: nat): (b: Grid)
    requires Fits(w, g) && x <= w.maxx + 1 && (if x == 0 then y + k <= w.maxy + 1 else y + k <= w.maxy)
    ensures SameShape(g, b)
    decreases y, x
  {
    if x > 0 then PutCell(Shifting(w, g, k, y, x - 1), w.begy + y, w.begx + x - 1, g[w.begy + y + k][w.begx + x - 1])
    else if y > 0 then Shifting(w, g, k, y - 1, w.maxx + 1)
    else g
  }

  /** The screen after a scroll by `k` lines; ScrolledCell says what it shows. */
  function Scrolled(w: Frame, g: Grid, k: nat): (b: Grid)
    requires Fits(w, g) && k >= 1
    ensures SameShape(g, b)
  {
    if k > w.maxy then BlankFrom(w, g, 0, 0)
    else BlankFrom(w, Shifting(w, g, k, w.maxy - k + 1, 0), w.maxy - k + 1, 0)
  }

  lemma {:induction false} BlankSpanCell(g: Grid, r: nat, from: nat, end: nat, i: nat, j: nat)
    requires r < |g| && end <= |g[r]| && i < |g| && j < |g[i]|
    ensures BlankSpan(g, r, from, end)[i][j] == if i == r && from <= j < end then BLANK else g[i][j]
    decreases end
  {
    if from < end { BlankSpanCell(g, r, from, end - 1, i, j); }
  }

  lemma {:induction false} BlankRowsCell(w: Frame, g: Grid, y: nat, x: nat, z: nat, i: nat, j: nat)
    requires Fits(w, g) && y < z <= w.maxy + 1 && i < |g| && j < |g[i]|
    ensures BlankRows(w, g, y, x, z)[i][j] ==
            if Inside(w, i, j) && i - w.begy < z && (i - w.begy > y || (i - w.begy == y && j - w.begx >= x)) then BLANK
            else g[i][j]
    decreases z
  {
    if z == y + 1 {
      BlankSpanCell(g, w.begy + y, w.begx + x, w.begx + w.maxx + 1, i, j);
    } else {
      BlankRowsCell(w, g, y, x, z - 1, i, j);
      BlankSpanCell(BlankRows(w, g, y, x, z - 1), w.begy + z - 1, w.begx, w.begx + w.maxx + 1, i, j);
    }
  }

  lemma {:induction false} ShiftingCell(w: Frame, g: Grid, k: nat, y: nat, x: nat, i: nat, j: nat)
    requires Fits(w, g) && x <= w.maxx + 1 && (if x == 0 then y + k <= w.maxy + 1 else y + k <= w.maxy)
    requires i < |g| && j < |g[i]|
    ensures Shifting(w, g, k, y, x)[i][j] ==
            if Inside(w, i, j) && (i - w.begy < y || (i - w.begy == y && j - w.begx < x)) then g[i + k][j] else g[i][j]
    decreases y, x
  {
    if x > 0 {
      ShiftingCell(w, g, k, y, x - 1, i, j);
    } else if y > 0 {
      ShiftingCell(w, g, k, y - 1, w.maxx + 1, i, j);
    }
  }

  /** A scroll moves every window cell up by `k`, blanks what comes in at the bottom, and leaves
      the rest of the screen alone. */
  lemma ScrolledCell(w: Frame, g: Grid, k: nat, i: nat, j: nat)
    requires Fits(w, g) && k >= 1 && i < |g| && j < |g[i]|
    ensures Scrolled(w, g, k)[i][j] ==
            if !Inside(w, i, j) then g[i][j] else if i + k <= w.begy + w.maxy then g[i + k][j] else BLANK
  {
    hide BlankRows, Shifting;
    if k > w.maxy {
      BlankRowsCell(w, g, 0, 0, w.maxy + 1, i, j);
    } else {
      var s := Shifting(w, g, k, w.maxy - k + 1, 0);
      ShiftingCell(w, g, k, w.maxy - k + 1, 0, i, j);
      BlankRowsCell(w, s, w.maxy - k + 1, 0, w.maxy + 1, i, j);
    }
  }

  /** The image stays free of control characters. */
  lemma ScrolledClean(w: Frame, g: Grid, k: nat)
    requires Fits(w, g) && k >= 1 && Clean(g)
    ensures Clean(Scrolled(w, g, k))
  {
    var b := Scrolled(w, g, k);
    CleanMeans(g);
    forall i, j | 0 <= i < |b| && 0 <= j < |b[i]| ensures b[i][j] != NEWLINE && b[i][j] != RETURN {
      ScrolledCell(w, g, k, i, j);
    }
    CleanMeans(b);
  }

  /** A character typed with the cursor inside the window. */
  function Typed(w: Frame, t: Screen, ch: byte): Screen
    requires Fits(w, t.cells) && t.y <= w.maxy && t.x <= w.maxx
  {
    if ch == NEWLINE then t.(y := t.y + 1, x := 0)
    else if ch == RETURN then t.(x := 0)
    else
      var cells := PutCell(t.cells, w.begy + t.y, w.begx + t.x, ch);
      if t.x < w.maxx then Screen(cells, t.y, t.x + 1)
      else if w.linewrap then Screen(cells, t.y + 1, 0)
      else Screen(cells, t.y, t.x)
  }

  /** What one character does to the screen: an owed scroll comes first. */
  function AddChar(w: Frame, s: Screen, ch: byte): Screen
    requires Fits(w, s.cells) && CursorOk(w, s.y, s.x)
  {
    if s.y <= w.maxy then Typed(w, s, ch)
    else if w.scrollok then Typed(w, Screen(Scrolled(w, s.cells, 1), w.maxy, 0), ch)
    else s
  }

  lemma TypedOk(w: Frame, t: Screen, ch: byte, lines: nat, cols: nat)
    requires Rectangular(t.cells, lines, cols) && Fits(w, t.cells) && t.y <= w.maxy && t.x <= w.maxx && Clean(t.cells)
    ensures Rectangular(Typed(w, t, ch).cells, lines, cols)
    ensures Fits(w, Typed(w, t, ch).cells)
    ensures CursorOk(w, Typed(w, t, ch).y, Typed(w, t, ch).x)
    ensures Clean(Typed(w, t, ch).cells)
  {
    if ch != NEWLINE && ch != RETURN {
      CleanMeans(t.cells);
      CleanMeans(PutCell(t.cells, w.begy + t.y, w.begx + t.x, ch));
    }
  }

  /** Every reachable screen stays well formed: the image keeps its shape and stays free of
      newlines and returns, and the cursor is in the window or just below it at column 0. */
  lemma AddCharOk(w: Frame, s: Screen, ch: byte, lines: nat, cols: nat)
    requires Rectangular(s.cells, lines, cols) && Fits(w, s.cells) && CursorOk(w, s.y, s.x) && Clean(s.cells)
    ensures Rectangular(AddChar(w, s, ch).cells, lines, cols)
    ensures Fits(w, AddChar(w, s, ch).cells)
    ensures CursorOk(w, AddChar(w, s, ch).y, AddChar(w, s, ch).x)
    ensures Clean(AddChar(w, s, ch).cells)
  {
    if s.y <= w.maxy {
      TypedOk(w, s, ch, lines, cols);
    } else if w.scrollok {
      ScrolledClean(w, s.cells, 1);
      TypedOk(w, Screen(Scrolled(w, s.cells, 1), w.maxy, 0), ch, lines, cols);
    }
  }

  function AddString(w: Frame, s: Screen, str: seq<byte>): Screen
    requires Fits(w, s.cells) && CursorOk(w, s.y, s.x)
    decreases |str|
  {
    if str == [] then s else AddString(w, AddChar(w, s, str[0]), str[1..])
  }

  lemma {:induction false} AddStringAppend(w: Frame, s: Screen, str: seq<byte>, ch: byte)
    requires Fits(w, s.cells) && CursorOk(w, s.y, s.x)
    ensures Fits(w, AddString(w, s, str).cells)
    ensures CursorOk(w, AddString(w, s, str).y, AddString(w, s, str).x)
    ensures AddString(w, s, str + [ch]) == AddChar(w, AddString(w, s, str), ch)
    decreases |str|
  {
    if str == [] {
      assert (str + [ch])[1..] == [];
    } else {
      assert (str + [ch])[1..] == str[1..] + [ch];
      AddStringAppend(w, AddChar(w, s, str[0]), str[1..], ch);
    }
  }

  /** A window that may not scroll drops what is printed below its last line. */
  lemma {:induction false} NoScrollDrops(w: Frame, s: Screen, str: seq<byte>)
    requires Fits(w, s.cells) && !w.scrollok && s.y == w.maxy + 1 && s.x == 0
    ensures AddString(w, s, str) == s
    decreases |str|
  {
    if str != [] { NoScrollDrops(w, s, str[1..]); }
  }

  /** What window row `y` shows after plain characters have been typed from column `x` on without line
      wrap: the line fills up to its last column, where each further character replaces the one before. */
  ghost predicate TypedInLine(w: Frame, g: Grid, y: nat, x: nat, str: seq<byte>, now: Grid)
    requires y <= w.maxy && x <= w.maxx
  {
    && SameShape(g, now)
    && forall i, j :: 0 <= i < |g| && 0 <= j < |g[i]| ==>
         now[i][j] ==
         if i == w.begy + y && w.begx + x <= j < w.begx + w.maxx && j - w.begx - x < |str| then str[j - w.begx - x]
         else if i == w.begy + y && j == w.begx + w.maxx && x + |str| > w.maxx then str[|str| - 1]
         else g[i][j]
  }

  /** Without line wrap the cursor stops at the right edge. */
  lemma {:induction false} NoWrapStays(w: Frame, s: Screen, str: seq<byte>)
    requires Fits(w, s.cells) && !w.linewrap && s.y <= w.maxy && s.x <= w.maxx
    requires forall i :: 0 <= i < |str| ==> str[i] != NEWLINE && str[i] != RETURN
    ensures var t := AddString(w, s, str);
            && t.y == s.y && t.x == (if s.x + |str| <= w.maxx then s.x + |str| else w.maxx)
            && TypedInLine(w, s.cells, s.y, s.x, str, t.cells)
    decreases |str|
  {
    if str != [] {
      var init, ch := str[..|str| - 1], str[|str| - 1];
      assert str == init + [ch];
      AddStringAppend(w, s, init, ch);
      NoWrapStays(w, s, init);
      hide AddString;
    }
  }

  lemma GridsEqual(a: Grid, b: Grid)
    requires |a| == |b|
    requires forall r :: 0 <= r < |a| ==> |a[r]| == |b[r]|
    requires forall r, c :: 0 <= r < |a| && 0 <= c < |a[r]| ==> a[r][c] == b[r][c]
    ensures a == b
  {
    forall r | 0 <= r < |a| ensures a[r] == b[r] { }
  }
}
