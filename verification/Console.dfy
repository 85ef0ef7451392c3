/** kernelcpp/code/Console.cpp: the 80x25 text screen as a window that slides down an endless page. */
module Console {

  const WIDTH := 80
  const HEIGHT := 25
  const BLACK: bv8 := 0x00
  const WHITE: bv8 := 0x0F

  datatype Cell = Cell(glyph: bv8, color: bv8)

  const BLANK := Cell(0, BLACK)

  /** A page without an end: its cells in reading order, where the cursor is, and the first row the screen
      still shows. */
  datatype Page = Page(cell: nat -> Cell, row: nat, col: nat, top: nat)

  const EMPTY := Page((i: nat) => BLANK, 0, 0, 0)

  function Put(p: Page, c: Cell): Page {
    p.(cell := (i: nat) => if i == WIDTH * p.row + p.col then c else p.cell(i))
  }

  // the screen moves on by three rows when the cursor has left it
  function Followed(p: Page): Page {
    if p.row == p.top + HEIGHT then p.(top := p.top + 3) else p
  }

  function Wrapped(p: Page): Page {
    if p.col == WIDTH then Followed(p.(row := p.row + 1, col := 0)) else p
  }

  function Back(p: Page): Page {
    if p.col > 0 then p.(col := p.col - 1)
    else if p.row > p.top then p.(row := p.row - 1, col := WIDTH - 1)
    else p
  }

  function Act(p: Page, c: bv8): Page {
    if c == '\n' as bv8 then p.(row := p.row + 1, col := 0)
    else if c == '\r' as bv8 then p.(col := 0)
    else if c == 8 then Put(Back(p), Cell(0, WHITE))
    else Put(p, Cell(c, WHITE)).(col := p.col + 1)
  }

  function Typed(p: Page, c: bv8): Page {
    Act(Wrapped(Followed(p)), c)
  }

  function TypedAll(p: Page, s: seq<bv8>): Page {
    if s == [] then p else Typed(TypedAll(p, s[..|s| - 1]), s[|s| - 1])
  }

  /** A C string up to its terminator. */
  function Text(msg: seq<bv8>): (s: seq<bv8>)
    requires 0 in msg
    ensures |s| < |msg| && s == msg[..|s|] && msg[|s|] == 0 && 0 !in s
  {
    if msg[0] == 0 then [] else [msg[0]] + Text(msg[1..])
  }

  ghost predicate Ok(p: Page) {
    && p.top <= p.row <= p.top + HEIGHT && p.col <= WIDTH
    && forall i: nat :: i >= WIDTH * (p.top + HEIGHT) ==> p.cell(i) == BLANK
  }

  /** The 4000 bytes that show a page: glyph and color of each cell of rows top .. top + 24. */
  function Window(cell: nat -> Cell, top: nat): (w: seq<bv8>)
    ensures |w| == 2 * WIDTH * HEIGHT
  {
    seq(2 * WIDTH * HEIGHT,
        (b: nat) => if b % 2 == 0 then cell(WIDTH * top + b / 2).glyph else cell(WIDTH * top + b / 2).color)
  }

  function Zeros(n: nat): seq<bv8> { seq(n, i => 0) }

  /** Moving the window down a row is what kscroll does to the bytes, as nothing is written below it. */
  lemma WindowScrolls(p: Page)
    requires Ok(p) && p.row > p.top
    ensures Window(p.cell, p.top + 1) == Window(p.cell, p.top)[2 * WIDTH..] + Zeros(2 * WIDTH)
    ensures Ok(p.(top := p.top + 1))
  {
    var q := p.(top := p.top + 1);
    var after := Window(p.cell, p.top)[2 * WIDTH..] + Zeros(2 * WIDTH);
    forall b | 0 <= b < 2 * WIDTH * HEIGHT
      ensures Window(q.cell, q.top)[b] == after[b]
    {
      if b < 2 * WIDTH * (HEIGHT - 1) {
        assert after[b] == Window(p.cell, p.top)[b + 2 * WIDTH];
        assert (b + 2 * WIDTH) / 2 == b / 2 + WIDTH && (b + 2 * WIDTH) % 2 == b % 2;
      } else {
        assert p.cell(WIDTH * q.top + b / 2) == BLANK;
      }
    }
  }

  lemma WindowPut(p: Page, c: Cell)
    requires Ok(p) && p.row < p.top + HEIGHT && p.col < WIDTH
    ensures var pos := 2 * (WIDTH * (p.row - p.top) + p.col);
            && 0 <= pos < pos + 1 < 2 * WIDTH * HEIGHT
            && Window(Put(p, c).cell, p.top) == Window(p.cell, p.top)[pos := c.glyph][pos + 1 := c.color]
    ensures Ok(Put(p, c))
  {
    var pos := 2 * (WIDTH * (p.row - p.top) + p.col);
    assert WIDTH * p.top + pos / 2 == WIDTH * p.row + p.col;
    forall b | 0 <= b < 2 * WIDTH * HEIGHT
      ensures Window(Put(p, c).cell, p.top)[b] == Window(p.cell, p.top)[pos := c.glyph][pos + 1 := c.color][b]
    {
      assert WIDTH * p.top + b / 2 == WIDTH * p.row + p.col <==> b / 2 == pos / 2;
    }
  }

  class Screen {
    const videoram: array<bv8>
    var cursorX: int
    var cursorY: int
    ghost var page: Page

    constructor (videoram: array<bv8>)
      requires videoram.Length == 2 * WIDTH * HEIGHT
      ensures this.videoram == videoram && cursorX == cursorY == 0
    {
      this.videoram, cursorX, cursorY, page := videoram, 0, 0, EMPTY;
    }

    /** The buffer is rows top .. top + 24 of the page, and the cursor is the page's. */
    ghost predicate Valid()
      reads this, videoram
    {
      Ok(page) && videoram[..] == Window(page.cell, page.top) && cursorX == page.col && cursorY == page.row - page.top
    }

    method Kscroll()
      requires videoram.Length == 2 * WIDTH * HEIGHT
      modifies videoram, this`cursorY
      ensures cursorY == old(cursorY) - 1
      ensures videoram[..] == old(videoram[..])[2 * WIDTH..] + Zeros(2 * WIDTH)
    {
      hide Zeros, Moved;
      ghost var was := videoram[..];
      NoneMoved();
      var j := 1;
      while j < HEIGHT
        invariant 1 <= j <= HEIGHT && Moved(was, 2 * WIDTH * (j - 1)) && cursorY == old(cursorY)
      {
        MoveRow(was, j);
        j := j + 1;
      }
      BlankLastRow(was);
      cursorY := cursorY - 1;
    }

    // lines 167-173: row `j` goes up
    method MoveRow(ghost was: seq<bv8>, j: int)
      requires 1 <= j < HEIGHT && |was| == 2 * WIDTH * HEIGHT && Moved(was, 2 * WIDTH * (j - 1))
      modifies videoram
      ensures Moved(was, 2 * WIDTH * j)
    {
      hide Moved;
      var i := 0;
      while i < WIDTH
        invariant 0 <= i <= WIDTH && Moved(was, 2 * (i + WIDTH * (j - 1)))
      {
        var pos1 := 2 * (i + (j - 1) * WIDTH);
        var pos2 := 2 * (i + j * WIDTH);
        CopyCell(was, pos1, pos2);
        i := i + 1;
      }
    }

    lemma NoneMoved()
      ensures Moved(videoram[..], 0)
    {
    }

    // lines 171-172
    method CopyCell(ghost was: seq<bv8>, pos1: int, pos2: int)
      requires 0 <= pos1 && pos2 == pos1 + 2 * WIDTH && pos2 + 1 < |was| && Moved(was, pos1)
      modifies videoram
      ensures Moved(was, pos1 + 2)
    {
      videoram[pos1] := videoram[pos2];
      videoram[pos1 + 1] := videoram[pos2 + 1];
    }

    // lines 175-180
    method BlankLastRow(ghost was: seq<bv8>)
      requires |was| == 2 * WIDTH * HEIGHT && Moved(was, 2 * WIDTH * (HEIGHT - 1))
      modifies videoram
      ensures videoram[..] == was[2 * WIDTH..] + Zeros(2 * WIDTH)
    {
      var i := 0;
      while i < WIDTH
        invariant 0 <= i <= WIDTH && Moved(was, 2 * WIDTH * (HEIGHT - 1), 2 * (i + WIDTH * (HEIGHT - 1)))
      {
        var pos2 := 2 * (i + WIDTH * (HEIGHT - 1));
        videoram[pos2] := 0;
        videoram[pos2 + 1] := BLACK;
        i := i + 1;
      }
    }

    // the first `n` bytes hold what was a row further on, those up to `z` zero, the others what they did
    ghost predicate Moved(was: seq<bv8>, n: int, z: int := n)
      reads videoram
    {
      && |was| == videoram.Length
      && (forall b :: 0 <= b < n && b + 2 * WIDTH < |was| ==> videoram[b] == was[b + 2 * WIDTH])
      && (forall b :: 0 <= n <= b < z && b < |was| ==> videoram[b] == 0)
      && forall b :: 0 <= z <= b < |was| ==> videoram[b] == was[b]
    }

    // lines 38-43
    method Follow()
      requires Valid()
      modifies videoram, this`cursorY, this`page
      ensures Valid() && page == Followed(old(page)) && 0 <= cursorY < HEIGHT && 0 <= cursorX <= WIDTH
    {
      if cursorY == HEIGHT {
        ghost var p := page;
        ScrollOn();
        ScrollOn();
        ScrollOn();
        page := Followed(p);
      }
    }

    method ScrollOn()
      requires Valid() && cursorY > 0
      modifies videoram, this`cursorY, this`page
      ensures Valid() && page == old(page).(top := old(page).top + 1)
    {
      hide Window, Zeros;
      WindowScrolls(page);
      Kscroll();
      page := page.(top := page.top + 1);
    }

    // a cell at the cursor (lines 71-73 and 76-78)
    method PutCell(c: Cell)
      requires Valid() && cursorX < WIDTH && cursorY < HEIGHT
      modifies videoram, this`page
      ensures Valid() && page == Put(old(page), c)
    {
      WindowPut(page, c);
      hide Window, Ok;
      var pos := 2 * (cursorY * WIDTH + cursorX);
      assert pos == 2 * (WIDTH * (page.row - page.top) + page.col);
      videoram[pos] := c.glyph;
      videoram[pos + 1] := c.color;
      page := Put(page, c);
    }

    // lines 64-70
    method StepBack()
      requires Valid() && cursorX < WIDTH && cursorY < HEIGHT
      modifies this`cursorX, this`cursorY, this`page
      ensures Valid() && page == Back(old(page)) && cursorX < WIDTH && cursorY < HEIGHT
    {
      hide Window;
      if cursorX > 0 {
        cursorX := cursorX - 1;
        page := page.(col := page.col - 1);
      } else if cursorY > 0 {
        cursorY := cursorY - 1;
        cursorX := WIDTH - 1;
        page := page.(row := page.row - 1, col := WIDTH - 1);
      }
    }

    // lines 52-62
    method ToLineStart(next: bool)
      requires Valid() && cursorY < HEIGHT
      modifies this`cursorX, this`cursorY, this`page
      ensures Valid() && page == old(page).(row := if next then old(page).row + 1 else old(page).row, col := 0)
    {
      hide Window;
      if next {
        cursorY := cursorY + 1;
      }
      cursorX := 0;
      page := page.(row := if next then page.row + 1 else page.row, col := 0);
    }

    // lines 51-79: a character on the current line
    method Take(c: bv8)
      requires Valid() && cursorX < WIDTH && cursorY < HEIGHT
      modifies videoram, this`cursorX, this`cursorY, this`page
      ensures Valid() && page == Act(old(page), c)
    {
      hide Window, Back, Put, Ok;
      if c == '\n' as bv8 {
        ToLineStart(true);
      } else if c == '\r' as bv8 {
        ToLineStart(false);
      } else if c == 8 {
        StepBack();
        PutCell(Cell(0, WHITE));
      } else {
        PutCell(Cell(c, WHITE));
        StepOn();
      }
    }

    // line 79
    method StepOn()
      requires Valid() && cursorX < WIDTH
      modifies this`cursorX, this`page
      ensures Valid() && page == old(page).(col := old(page).col + 1)
    {
      hide Window;
      cursorX := cursorX + 1;
      page := page.(col := page.col + 1);
    }

    // lines 46-47
    method WrapLine()
      requires Valid() && cursorX == WIDTH && cursorY < HEIGHT
      modifies this`cursorX, this`cursorY, this`page
      ensures Valid() && page == old(page).(row := old(page).row + 1, col := 0)
    {
      cursorY := cursorY + 1;
      cursorX := 0;
      page := page.(row := page.row + 1, col := 0);
    }

    /** kprint: the page takes the characters one after the other, and the screen follows it. */
    method Kprint(msg: seq<bv8>)
      requires Valid() && 0 in msg
      modifies videoram, this`cursorX, this`cursorY, this`page
      ensures Valid() && page == TypedAll(old(page), Text(msg))
    {
      hide Window, Act, Put, Ok;
      ghost var n := |Text(msg)|;
      ghost var p := page;
      var i := 0;
      while msg[i] != 0
        invariant 0 <= i <= n && Valid()
        invariant page == TypedAll(p, msg[..i]) || (msg[i] != 0 && JustWrapped(TypedAll(p, msg[..i]), page))
        decreases n - i, if cursorX == WIDTH then 1 else 0
      {
        TypedNext(p, msg, i);
        Follow();
        if cursorX == WIDTH {
          WrapLine();
          i := i - 1;
        } else {
          Take(msg[i]);
        }
        i := i + 1;
      }
    }

    /** kclearScreen, on whatever the buffer holds: a new page with the prompt on it. */
    method KclearScreen()
      requires videoram.Length == 2 * WIDTH * HEIGHT
      modifies videoram, this`cursorX, this`cursorY, this`page
      ensures Valid() && page == Typed(EMPTY, '>' as bv8)
    {
      var j := 0;
      while j < HEIGHT
        invariant 0 <= j <= HEIGHT
        invariant forall b :: 0 <= b < 2 * WIDTH * j ==> videoram[b] == 0
      {
        var i := 0;
        while i < WIDTH
          invariant 0 <= i <= WIDTH
          invariant forall b :: 0 <= b < 2 * (i + WIDTH * j) ==> videoram[b] == 0
        {
          var pos := 2 * (i + j * WIDTH);
          videoram[pos] := 0;
          videoram[pos + 1] := BLACK;
          i := i + 1;
        }
        j := j + 1;
      }
      cursorX := 0;
      cursorY := 0;
      page := EMPTY;
      KprintCursor();
    }

    method KprintCursor()
      requires Valid()
      modifies videoram, this`cursorX, this`cursorY, this`page
      ensures Valid() && page == Typed(old(page), '>' as bv8)
    {
      var prompt := ['>' as bv8, 0];
      assert Text(prompt) == ['>' as bv8];
      hide Typed, Window;
      Kprint(prompt);
      assert TypedAll(old(page), ['>' as bv8]) == Typed(TypedAll(old(page), []), '>' as bv8);
    }

    /** kprintln: the text, a new line and the prompt. */
    method Kprintln(msg: seq<bv8>)
      requires Valid() && 0 in msg
      modifies videoram, this`cursorX, this`cursorY, this`page
      ensures Valid() && page == TypedAll(old(page), Text(msg) + ['\r' as bv8, '\n' as bv8, '>' as bv8])
    {
      var line := ['\r' as bv8, '\n' as bv8, 0];
      assert Text(line) == line[..2];
      hide Typed, Window;
      Kprint(msg);
      Kprint(line);
      KprintCursor();
      TypedAllAppend(old(page), Text(msg), line[..2]);
      var all := Text(msg) + line[..2] + ['>' as bv8];
      assert all[..|all| - 1] == Text(msg) + line[..2];
      assert all == Text(msg) + ['\r' as bv8, '\n' as bv8, '>' as bv8];
    }
  }

  // ----- what the page says -----

  predicate Plain(c: bv8) {
    c != 0 && c != 8 && c != '\n' as bv8 && c != '\r' as bv8
  }

  /** The cell the next character goes to; the end of a line and the start of the next are the same place. */
  function Position(p: Page): nat {
    WIDTH * p.row + p.col
  }

  lemma TypedOk(p: Page, c: bv8)
    requires Ok(p)
    ensures Ok(Typed(p, c)) && p.top <= Typed(p, c).top
    ensures forall i: nat :: i < WIDTH * p.top ==> Typed(p, c).cell(i) == p.cell(i)
  {
    var q := Wrapped(Followed(p));
    assert Ok(q) && q.row < q.top + HEIGHT && q.col < WIDTH;
    if c == 8 {
      PutOk(Back(q), Cell(0, WHITE));
    } else {
      PutOk(q, Cell(c, WHITE));
    }
  }

  lemma PutOk(p: Page, c: Cell)
    requires Ok(p) && p.row < p.top + HEIGHT && p.col < WIDTH
    ensures Ok(Put(p, c)) && forall i: nat :: i < WIDTH * p.top ==> Put(p, c).cell(i) == p.cell(i)
  {
  }

  /** The cursor stays on the screen, and what has scrolled off is never written again. */
  lemma {:induction false} ScrolledOffStays(p: Page, s: seq<bv8>)
    requires Ok(p)
    ensures Ok(TypedAll(p, s)) && p.top <= TypedAll(p, s).top
    ensures forall i: nat :: i < WIDTH * p.top ==> TypedAll(p, s).cell(i) == p.cell(i)
  {
    if s != [] {
      ScrolledOffStays(p, s[..|s| - 1]);
      TypedOk(TypedAll(p, s[..|s| - 1]), s[|s| - 1]);
    }
  }

  lemma PlainTyped(p: Page, c: bv8)
    requires Ok(p) && Plain(c)
    ensures Position(Typed(p, c)) == Position(p) + 1
    ensures forall i: nat :: Typed(p, c).cell(i) == if i == Position(p) then Cell(c, WHITE) else p.cell(i)
  {
  }

  /** Text without control characters is laid out in reading order, whatever wraps and scrolls meanwhile. */
  lemma {:induction false} PlainText(p: Page, s: seq<bv8>)
    requires Ok(p) && forall k :: 0 <= k < |s| ==> Plain(s[k])
    ensures Position(TypedAll(p, s)) == Position(p) + |s|
    ensures forall i: nat :: TypedAll(p, s).cell(i)
              == if Position(p) <= i < Position(p) + |s| then Cell(s[i - Position(p)], WHITE) else p.cell(i)
  {
    if s != [] {
      var before := s[..|s| - 1];
      PlainText(p, before);
      ScrolledOffStays(p, before);
      PlainTyped(TypedAll(p, before), s[|s| - 1]);
    }
  }

  /** A line feed goes to the start of the next line, a carriage return to the start of its own (or, at the end of
      a full line, of the next), and neither changes a cell. */
  lemma LineBreaks(p: Page)
    requires Ok(p)
    ensures Position(Typed(p, '\n' as bv8)) == WIDTH * (Position(p) / WIDTH + 1)
    ensures Position(Typed(p, '\r' as bv8)) == WIDTH * (Position(p) / WIDTH)
    ensures forall i: nat :: Typed(p, '\n' as bv8).cell(i) == Typed(p, '\r' as bv8).cell(i) == p.cell(i)
  {
    assert '\n' as bv8 == 10 && '\r' as bv8 == 13;
    assert Position(p) / WIDTH == if p.col == WIDTH then p.row + 1 else p.row;
  }

  /** The place `n` characters of text on, from place `at`: a line feed goes to the start of the next line, a
      carriage return to that of its own, anything else one place on. */
  function Place(at: nat, s: seq<bv8>, n: nat): nat
    requires n <= |s|
  {
    if n == 0 then at
    else
      var before := Place(at, s, n - 1);
      if s[n - 1] == 10 then WIDTH * (before / WIDTH + 1)
      else if s[n - 1] == 13 then WIDTH * (before / WIDTH)
      else before + 1
  }

  predicate Printed(c: bv8) {
    Plain(c) || c == 10 || c == 13
  }

  /** The last plain character of the text to be put at place `i`, or the text's length. */
  function LastAt(at: nat, s: seq<bv8>, n: nat, i: nat): nat
    requires n <= |s|
  {
    if n == 0 then |s|
    else if Plain(s[n - 1]) && Place(at, s, n - 1) == i then n - 1
    else LastAt(at, s, n - 1, i)
  }

  lemma {:induction false} LastAtIs(at: nat, s: seq<bv8>, n: nat, i: nat)
    requires n <= |s|
    ensures var k := LastAt(at, s, n, i);
            && (k < n ==> Plain(s[k]) && Place(at, s, k) == i)
            && (k < n || k == |s|)
            && forall m :: 0 <= m < n && (k < n ==> k < m) && Plain(s[m]) ==> Place(at, s, m) != i
  {
    if n > 0 {
      LastAtIs(at, s, n - 1, i);
    }
  }

  /** Text with line feeds and carriage returns in it, whatever wraps and scrolls meanwhile: each cell shows the
      last character put there, or what it showed before. */
  lemma {:induction false} TextLaid(p: Page, s: seq<bv8>, n: nat)
    requires Ok(p) && n <= |s| && forall k :: 0 <= k < |s| ==> Printed(s[k])
    ensures Ok(TypedAll(p, s[..n])) && Position(TypedAll(p, s[..n])) == Place(Position(p), s, n)
    ensures forall i: nat ::
              var k := LastAt(Position(p), s, n, i);
              TypedAll(p, s[..n]).cell(i) == if k < n then Cell(s[k], WHITE) else p.cell(i)
  {
    if n == 0 {
      assert s[..0] == [] && TypedAll(p, s[..0]) == p;
    } else {
      hide *;
      TextLaid(p, s, n - 1);
      ScrolledOffStays(p, s[..n]);
      var q := TypedAll(p, s[..n - 1]);
      TypedNext(p, s, n - 1);
      OneLaid(q, s[n - 1]);
      PlaceMore(Position(p), s, n);
      forall i: nat
        ensures var k := LastAt(Position(p), s, n, i);
                TypedAll(p, s[..n]).cell(i) == if k < n then Cell(s[k], WHITE) else p.cell(i)
      {
        LastMore(Position(p), s, n, i);
      }
    }
  }

  lemma PlaceMore(at: nat, s: seq<bv8>, n: nat)
    requires 0 < n <= |s|
    ensures var before, c := Place(at, s, n - 1), s[n - 1];
            Place(at, s, n) == if c == 10 then WIDTH * (before / WIDTH + 1)
                               else if c == 13 then WIDTH * (before / WIDTH) else before + 1
  {
  }

  lemma LastMore(at: nat, s: seq<bv8>, n: nat, i: nat)
    requires 0 < n <= |s|
    ensures LastAt(at, s, n, i)
         == if Plain(s[n - 1]) && Place(at, s, n - 1) == i then n - 1 else LastAt(at, s, n - 1, i)
    ensures LastAt(at, s, n - 1, i) != n - 1
  {
    LastAtIs(at, s, n - 1, i);
  }

  lemma OneLaid(p: Page, c: bv8)
    requires Ok(p) && Printed(c)
    ensures Position(Typed(p, c)) == if c == 10 then WIDTH * (Position(p) / WIDTH + 1)
                                     else if c == 13 then WIDTH * (Position(p) / WIDTH) else Position(p) + 1
    ensures forall i: nat ::
              Typed(p, c).cell(i) == if Plain(c) && i == Position(p) then Cell(c, WHITE) else p.cell(i)
  {
    hide Typed;
    LineBreaks(p);
    if Plain(c) {
      PlainTyped(p, c);
    }
  }

  // page `q` shows the text at place `at`, and `p` elsewhere
  ghost predicate Shows(p: Page, q: Page, s: seq<bv8>, at: nat) {
    forall i: nat :: q.cell(i) == if at <= i < at + |s| then Cell(s[i - at], WHITE) else p.cell(i)
  }

  /** Two lines of plain text: the second starts a line, the one after that on which the first has ended. */
  lemma TwoLines(p: Page, s: seq<bv8>, t: seq<bv8>)
    requires Ok(p) && (forall k :: 0 <= k < |s| ==> Plain(s[k])) && forall k :: 0 <= k < |t| ==> Plain(t[k])
    ensures var q, a := TypedAll(p, s + ['\n' as bv8] + t), Position(p);
            var b := WIDTH * ((a + |s|) / WIDTH + 1);
            && Position(q) == b + |t|
            && forall i: nat :: q.cell(i) == if a <= i < a + |s| then Cell(s[i - a], WHITE)
                                             else if b <= i < b + |t| then Cell(t[i - b], WHITE)
                                             else p.cell(i)
  {
    var q := SecondLine(p, s);
    hide *;
    PlainShown(q, t);
    TypedAllAppend(p, s + ['\n' as bv8], t);
    TwoShown(p, q, TypedAll(q, t), s, t, Position(p), Position(q));
  }

  lemma PlainShown(p: Page, s: seq<bv8>)
    requires Ok(p) && forall k :: 0 <= k < |s| ==> Plain(s[k])
    ensures Position(TypedAll(p, s)) == Position(p) + |s| && Shows(p, TypedAll(p, s), s, Position(p))
  {
    PlainText(p, s);
  }

  lemma SameShown(p: Page, q: Page, r: Page, s: seq<bv8>, at: nat)
    requires Shows(p, q, s, at) && forall i: nat :: r.cell(i) == q.cell(i)
    ensures Shows(p, r, s, at)
  {
  }

  lemma SecondLine(p: Page, s: seq<bv8>) returns (q: Page)
    requires Ok(p) && forall k :: 0 <= k < |s| ==> Plain(s[k])
    ensures Ok(q) && q == TypedAll(p, s + ['\n' as bv8]) && Shows(p, q, s, Position(p))
    ensures Position(p) + |s| < Position(q) == WIDTH * ((Position(p) + |s|) / WIDTH + 1)
  {
    hide Typed, TypedAll, Ok, Position, Shows;
    var q0 := TypedAll(p, s);
    q := Typed(q0, '\n' as bv8);
    PlainShown(p, s);
    ScrolledOffStays(p, s);
    LineBreaks(q0);
    NextLine(Position(q0));
    SameShown(p, q0, q, s, Position(p));
    OneTyped(q0, '\n' as bv8);
    ScrolledOffStays(q0, ['\n' as bv8]);
    TypedAllAppend(p, s, ['\n' as bv8]);
  }

  lemma TwoShown(p: Page, q: Page, r: Page, s: seq<bv8>, t: seq<bv8>, a: nat, b: nat)
    requires Shows(p, q, s, a) && Shows(q, r, t, b) && a + |s| <= b
    ensures forall i: nat :: r.cell(i) == if a <= i < a + |s| then Cell(s[i - a], WHITE)
                                          else if b <= i < b + |t| then Cell(t[i - b], WHITE)
                                          else p.cell(i)
  {
  }

  lemma NextLine(x: nat)
    ensures WIDTH * (x / WIDTH + 1) > x
  {
  }

  lemma OneTyped(p: Page, c: bv8)
    ensures TypedAll(p, [c]) == Typed(p, c)
  {
    assert [c][..0] == [];
    assert TypedAll(p, [c][..0]) == p;
  }

  /** The screen moves on by three rows exactly when the cursor is below its last row, or about to be because its
      line is full; otherwise it stays. */
  lemma ScreenMoves(p: Page, c: bv8)
    requires Ok(p)
    ensures Typed(p, c).top
         == p.top + if p.row + (if p.col == WIDTH then 1 else 0) >= p.top + HEIGHT then 3 else 0
  {
  }

  /** A backspace goes back one place, but not above the first row shown, and clears the cell it reaches. */
  lemma BackspaceStops(p: Page)
    requires Ok(p)
    ensures var q, top := Typed(p, 8), WIDTH * Typed(p, 8).top;
            && Position(q) == (if Position(p) > top then Position(p) - 1 else top)
            && forall i: nat :: q.cell(i) == if i == Position(q) then Cell(0, WHITE) else p.cell(i)
  {
  }

  /** ... so it takes back the plain character before it. */
  lemma BackspaceErases(p: Page, c: bv8)
    requires Ok(p) && Plain(c)
    ensures var q := Typed(Typed(p, c), 8);
            && Position(q) == Position(p)
            && forall i: nat :: q.cell(i) == if i == Position(p) then Cell(0, WHITE) else p.cell(i)
  {
    TypedOk(p, c);
    PlainTyped(p, c);
    BackspaceStops(Typed(p, c));
    assert Position(p) >= WIDTH * Typed(Typed(p, c), 8).top;
  }

  lemma {:induction false} TypedAllAppend(p: Page, s: seq<bv8>, t: seq<bv8>)
    ensures TypedAll(TypedAll(p, s), t) == TypedAll(p, s + t)
  {
    if t == [] {
      assert s + t == s;
    } else {
      TypedAllAppend(p, s, t[..|t| - 1]);
      assert (s + t)[..|s + t| - 1] == s + t[..|t| - 1];
    }
  }

  // the state between the two rounds of a character that starts a line
  ghost predicate JustWrapped(p: Page, q: Page) {
    var f := Followed(p);
    f.col == WIDTH && q == f.(row := f.row + 1, col := 0)
  }

  lemma TypedNext(p: Page, msg: seq<bv8>, i: nat)
    requires i < |msg|
    ensures TypedAll(p, msg[..i + 1]) == Typed(TypedAll(p, msg[..i]), msg[i])
  {
    assert msg[..i + 1][..i] == msg[..i];
  }
}
