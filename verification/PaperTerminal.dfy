/** A terminal printing on unbounded paper, and the proof that a scrolling window shows its last rows. */
module PaperTerminal {
  import opened Bytes
  import opened TtyModel
  import Arith

  /** Printed rows and the print head; a head just below the last row has not started a new one. */
  datatype Paper = Paper(rows: seq<seq<byte>>, y: nat, x: nat)

  const FRESH := Paper([], 0, 0)

  function BlankRow(width: nat): seq<byte> {
    seq(width, _ => BLANK)
  }

  predicate PaperOk(p: Paper, maxx: nat) {
    && p.x <= maxx && p.y <= |p.rows| && (p.y == |p.rows| ==> p.x == 0)
    && forall r :: 0 <= r < |p.rows| ==> |p.rows[r]| == maxx + 1
  }

  /** The row under the print head is there. */
  function StartRow(p: Paper, maxx: nat): (q: Paper)
    requires PaperOk(p, maxx)
    ensures PaperOk(q, maxx) && q.y < |q.rows|
  {
    if p.y == |p.rows| then Paper(p.rows + [BlankRow(maxx + 1)], p.y, p.x) else p
  }

  function Strike(q: Paper, maxx: nat, ch: byte): (r: Paper)
    requires PaperOk(q, maxx) && q.y < |q.rows|
    ensures PaperOk(r, maxx)
  {
    if ch == NEWLINE then Paper(q.rows, q.y + 1, 0)
    else if ch == RETURN then Paper(q.rows, q.y, 0)
    else
      var printed := q.rows[q.y := q.rows[q.y][q.x := ch]];
      if q.x == maxx then Paper(printed, q.y + 1, 0) else Paper(printed, q.y, q.x + 1)
  }

  /** Every character starts its row if that is still missing; nothing ever scrolls. */
  function Print(p: Paper, maxx: nat, ch: byte): (q: Paper)
    requires PaperOk(p, maxx)
    ensures PaperOk(q, maxx)
  {
    Strike(StartRow(p, maxx), maxx, ch)
  }

  /** What a control character does to paper: 10 takes the head to the start of the next row, 13 to the
      start of its row, and neither strikes anything. A missing row is started blank first. */
  lemma ControlsMoveHead(p: Paper, maxx: nat, ch: byte)
    requires PaperOk(p, maxx) && ch in {10, 13}
    ensures var q := Print(p, maxx, ch);
            && q.y == (if ch == 10 then p.y + 1 else p.y) && q.x == 0
            && q.rows == p.rows + if p.y == |p.rows| then [seq(maxx + 1, _ => 32)] else []
  {
    assert seq(maxx + 1, _ => 32) == BlankRow(maxx + 1);
  }

  function PrintAll(p: Paper, maxx: nat, str: seq<byte>): (q: Paper)
    requires PaperOk(p, maxx)
    ensures PaperOk(q, maxx)
    decreases |str|
  {
    if str == [] then p else PrintAll(Print(p, maxx, str[0]), maxx, str[1..])
  }

  /** The last `n` rows, filled up with blank rows at the bottom. */
  function LastRows(rows: seq<seq<byte>>, n: nat, width: nat): seq<seq<byte>> {
    if |rows| >= n then rows[|rows| - n..] else rows + seq(n - |rows|, _ => BlankRow(width))
  }

  /** What the window shows. */
  function View(w: Frame, g: Grid): (v: seq<seq<byte>>)
    requires Fits(w, g)
    ensures |v| == w.maxy + 1
  {
    seq(w.maxy + 1, r requires 0 <= r <= w.maxy => g[w.begy + r][w.begx..w.begx + w.maxx + 1])
  }

  /** Rows that have left the window at the top. */
  function Gone(w: Frame, p: Paper): nat {
    if |p.rows| > w.maxy + 1 then |p.rows| - (w.maxy + 1) else 0
  }

  /** The window agrees with the paper. */
  ghost predicate Agrees(w: Frame, s: Screen, p: Paper) {
    && Fits(w, s.cells) && CursorOk(w, s.y, s.x) && PaperOk(p, w.maxx)
    && View(w, s.cells) == LastRows(p.rows, w.maxy + 1, w.maxx + 1)
    && s.x == p.x && p.y >= Gone(w, p) && s.y == p.y - Gone(w, p)
  }

  lemma ViewPut(w: Frame, g: Grid, y: nat, x: nat, ch: byte)
    requires Fits(w, g) && y <= w.maxy && x <= w.maxx
    ensures View(w, PutCell(g, w.begy + y, w.begx + x, ch)) == View(w, g)[y := View(w, g)[y][x := ch]]
  {
    var a, b := View(w, PutCell(g, w.begy + y, w.begx + x, ch)), View(w, g)[y := View(w, g)[y][x := ch]];
    forall r | 0 <= r <= w.maxy ensures a[r] == b[r] { }
  }

  lemma ViewScrolled(w: Frame, g: Grid)
    requires Fits(w, g)
    ensures View(w, Scrolled(w, g, 1)) == View(w, g)[1..] + [BlankRow(w.maxx + 1)]
  {
    hide Scrolled;
    var a, b := View(w, Scrolled(w, g, 1)), View(w, g)[1..] + [BlankRow(w.maxx + 1)];
    forall r | 0 <= r <= w.maxy ensures a[r] == b[r] {
      forall c | 0 <= c <= w.maxx ensures a[r][c] == b[r][c] {
        ScrolledCell(w, g, 1, w.begy + r, w.begx + c);
      }
    }
  }

  /** A new row at the end of the paper pushes the top one out once the window is full. */
  lemma LastRowsPush(rows: seq<seq<byte>>, n: nat, width: nat)
    requires n >= 1
    ensures |LastRows(rows, n, width)| == n
    ensures LastRows(rows + [BlankRow(width)], n, width) ==
            if |rows| >= n then LastRows(rows, n, width)[1..] + [BlankRow(width)] else LastRows(rows, n, width)
  {
    hide BlankRow;
  }

  lemma LastRowsSet(rows: seq<seq<byte>>, n: nat, width: nat, y: nat, row: seq<byte>)
    requires n >= 1 && y < |rows| && (|rows| > n ==> y >= |rows| - n)
    ensures var k := if |rows| > n then y - (|rows| - n) else y;
            |LastRows(rows, n, width)| == n && k < n
            && LastRows(rows, n, width)[k] == rows[y]
            && LastRows(rows[y := row], n, width) == LastRows(rows, n, width)[k := row]
  {
    hide BlankRow;
  }

  lemma BlankRowSize(width: nat)
    ensures |BlankRow(width)| == width
  {
  }

  /** A started row: the window scrolls exactly when its last row is taken. */
  lemma StartAgrees(w: Frame, s: Screen, p: Paper)
    requires Agrees(w, s, p)
    ensures Agrees(w, if s.y > w.maxy then Screen(Scrolled(w, s.cells, 1), w.maxy, 0) else s, StartRow(p, w.maxx))
  {
    hide Scrolled, LastRows, View, BlankRow;
    LastRowsPush(p.rows, w.maxy + 1, w.maxx + 1);
    if s.y > w.maxy {
      ViewScrolled(w, s.cells);
    }
    BlankRowSize(w.maxx + 1);
  }

  lemma PutFits(w: Frame, g: Grid, y: nat, x: nat, ch: byte)
    requires Fits(w, g) && y <= w.maxy && x <= w.maxx
    ensures Fits(w, PutCell(g, w.begy + y, w.begx + x, ch))
  {
  }

  lemma PutView(w: Frame, t: Screen, q: Paper, ch: byte)
    requires Agrees(w, t, q) && q.y < |q.rows|
    ensures t.y <= w.maxy && Fits(w, PutCell(t.cells, w.begy + t.y, w.begx + t.x, ch))
    ensures View(w, PutCell(t.cells, w.begy + t.y, w.begx + t.x, ch))
            == LastRows(q.rows[q.y := q.rows[q.y][q.x := ch]], w.maxy + 1, w.maxx + 1)
  {
    hide PutCell, LastRows, View;
    PutFits(w, t.cells, t.y, t.x, ch);
    ViewPut(w, t.cells, t.y, t.x, ch);
    LastRowsSet(q.rows, w.maxy + 1, w.maxx + 1, q.y, q.rows[q.y][q.x := ch]);
  }

  /** Printing into a row that has been started. */
  lemma TypedAgrees(w: Frame, t: Screen, q: Paper, ch: byte)
    requires w.linewrap && w.scrollok && Agrees(w, t, q) && q.y < |q.rows|
    ensures t.y <= w.maxy && Agrees(w, Typed(w, t, ch), Strike(q, w.maxx, ch))
  {
    hide PutCell, LastRows, View;
    if ch != NEWLINE && ch != RETURN {
      PutView(w, t, q, ch);
    }
  }

  lemma PrintAgrees(w: Frame, s: Screen, p: Paper, ch: byte)
    requires w.linewrap && w.scrollok && Agrees(w, s, p)
    ensures Agrees(w, AddChar(w, s, ch), Print(p, w.maxx, ch))
  {
    hide Scrolled, LastRows, View, Typed, Strike, StartRow;
    StartAgrees(w, s, p);
    var t := if s.y > w.maxy then Screen(Scrolled(w, s.cells, 1), w.maxy, 0) else s;
    TypedAgrees(w, t, StartRow(p, w.maxx), ch);
  }

  lemma {:induction false} PrintAllAgrees(w: Frame, s: Screen, p: Paper, str: seq<byte>)
    requires w.linewrap && w.scrollok && Agrees(w, s, p)
    ensures Agrees(w, AddString(w, s, str), PrintAll(p, w.maxx, str))
    decreases |str|
  {
    hide AddChar, Print;
    if str != [] {
      PrintAgrees(w, s, p, str[0]);
      PrintAllAgrees(w, AddChar(w, s, str[0]), Print(p, w.maxx, str[0]), str[1..]);
    }
  }

  lemma BlankFromCell(w: Frame, g: Grid, i: nat, j: nat)
    requires Fits(w, g) && i < |g| && j < |g[i]| && Inside(w, i, j)
    ensures BlankFrom(w, g, 0, 0)[i][j] == BLANK
  {
    BlankRowsCell(w, g, 0, 0, w.maxy + 1, i, j);
  }

  /** A cleared window agrees with fresh paper. */
  lemma ClearedAgrees(w: Frame, g: Grid)
    requires Fits(w, g)
    ensures Agrees(w, Screen(BlankFrom(w, g, 0, 0), 0, 0), FRESH)
  {
    hide BlankFrom;
    var b := BlankFrom(w, g, 0, 0);
    var v := View(w, b);
    forall r | 0 <= r <= w.maxy ensures v[r] == BlankRow(w.maxx + 1) {
      forall c | 0 <= c <= w.maxx ensures v[r][c] == BLANK {
        BlankFromCell(w, g, w.begy + r, w.begx + c);
      }
    }
    assert v == LastRows([], w.maxy + 1, w.maxx + 1);
  }

  /** The paper-terminal theorem: after a clear, a window with line wrap and scrolling shows the last
      `maxy + 1` rows of what the string looks like on unbounded paper, for every window and string. */
  lemma WindowShowsLastRows(w: Frame, g: Grid, str: seq<byte>)
    requires w.linewrap && w.scrollok && Fits(w, g)
    ensures var s := AddString(w, Screen(BlankFrom(w, g, 0, 0), 0, 0), str);
            Fits(w, s.cells) && View(w, s.cells) == LastRows(PrintAll(FRESH, w.maxx, str).rows, w.maxy + 1, w.maxx + 1)
  {
    hide BlankFrom, AddString, PrintAll;
    ClearedAgrees(w, g);
    PrintAllAgrees(w, Screen(BlankFrom(w, g, 0, 0), 0, 0), FRESH, str);
  }

  predicate Plain(str: seq<byte>) {
    forall i :: 0 <= i < |str| ==> str[i] != NEWLINE && str[i] != RETURN
  }

  ghost predicate Printed(p: Paper, maxx: nat, text: seq<byte>, i: nat)
    requires PaperOk(p, maxx) && i < |text|
  {
    i / (maxx + 1) < |p.rows| && p.rows[i / (maxx + 1)][i % (maxx + 1)] == text[i]
  }

  /** Paper on which the plain text `text` has been printed: row after row of `maxx + 1` characters. */
  ghost predicate LaidOut(p: Paper, maxx: nat, text: seq<byte>) {
    && PaperOk(p, maxx) && p.y == |text| / (maxx + 1) && p.x == |text| % (maxx + 1)
    && |p.rows| == p.y + (if p.x == 0 then 0 else 1)
    && forall i :: 0 <= i < |text| ==> Printed(p, maxx, text, i)
  }

  /** Where the head goes next. */
  lemma HeadStep(maxx: nat, len: nat)
    ensures (len + 1) / (maxx + 1) == if len % (maxx + 1) == maxx then len / (maxx + 1) + 1 else len / (maxx + 1)
    ensures (len + 1) % (maxx + 1) == if len % (maxx + 1) == maxx then 0 else len % (maxx + 1) + 1
  {
    var n := maxx + 1;
    var q, r := len / n, len % n;
    assert len == n * q + r;
    if r == maxx {
      assert (q + 1) * n == q * n + n;
      Arith.DivModUnique(len + 1, n, q + 1, 0);
    } else {
      Arith.DivModUnique(len + 1, n, q, r + 1);
    }
  }

  lemma LaidOutStep(p: Paper, maxx: nat, text: seq<byte>, ch: byte)
    requires LaidOut(p, maxx, text) && ch != NEWLINE && ch != RETURN
    ensures LaidOut(Print(p, maxx, ch), maxx, text + [ch])
  {
    hide LastRows, BlankRow;
    var q, n, t := Print(p, maxx, ch), maxx + 1, text + [ch];
    HeadStep(maxx, |text|);
    BlankRowSize(n);
    forall i | 0 <= i < |t| ensures Printed(q, maxx, t, i) {
      if i < |text| {
        assert Printed(p, maxx, text, i);
        Arith.DifferSomewhere(i, |text|, n);
      }
    }
  }

  lemma {:induction false} PrintAllPlain(p: Paper, maxx: nat, before: seq<byte>, str: seq<byte>)
    requires LaidOut(p, maxx, before) && Plain(str)
    ensures LaidOut(PrintAll(p, maxx, str), maxx, before + str)
    decreases |str|
  {
    hide Print;
    if str == [] {
      assert before + str == before;
    } else {
      LaidOutStep(p, maxx, before, str[0]);
      PrintAllPlain(Print(p, maxx, str[0]), maxx, before + [str[0]], str[1..]);
      assert before + [str[0]] + str[1..] == before + str;
    }
  }

  /** On paper, plain text is simply cut into rows. */
  lemma PlainTextLayout(maxx: nat, str: seq<byte>)
    requires Plain(str)
    ensures LaidOut(PrintAll(FRESH, maxx, str), maxx, str)
  {
    PrintAllPlain(FRESH, maxx, [], str);
    assert [] + str == str;
  }
}
