/** The circuit board: a rectangular grid of cell characters with the
    positions of the two terminals, and the queries and the single mutation
    ('makeTrace') the search performs on it. */
module CircuitBoard {
  import opened Results

  /** A cell coordinate, row first. Queries accept any integers. */
  datatype Pos = Pos(row: int, col: int)

  const Open := 'O'
  const Closed := 'X'
  const Trace := 'T'
  const Start := '1'
  const End := '2'

  /** The first characters a cell token may carry. */
  const Allowed: string := "OXT12"

  /** The exceptions a board operation can raise: an array index out of
      range, 'OccupiedPositionException', and the null-pointer failure of
      copying a terminal point that was never set. */
  datatype BoardError = IndexOutOfBounds(at: Pos) | OccupiedPosition(at: Pos) | MissingTerminal

  /** 'rows' and 'cols' are the declared dimensions; 'grid' holds the
      contents; a terminal is None when its character never occurred. */
  datatype Board = Board(rows: nat, cols: nat, grid: seq<seq<char>>,
                         startPoint: Option<Pos>, endPoint: Option<Pos>)

  predicate InBounds(g: seq<seq<char>>, p: Pos) {
    0 <= p.row < |g| && 0 <= p.col < |g[p.row]|
  }

  /** 'o' records exactly where 'ch' occurs in 'g': at one in-range cell, or
      nowhere when 'o' is None. */
  ghost predicate TerminalAt(g: seq<seq<char>>, o: Option<Pos>, ch: char) {
    && (o.Some? ==> InBounds(g, o.value))
    && forall r, c :: 0 <= r < |g| && 0 <= c < |g[r]| ==> (g[r][c] == ch <==> o == Some(Pos(r, c)))
  }

  /** What every board the parser builds satisfies, and every operation keeps. */
  ghost predicate WellFormed(b: Board) {
    && |b.grid| == b.rows
    && (forall r :: 0 <= r < |b.grid| ==> |b.grid[r]| == b.cols)
    && TerminalAt(b.grid, b.startPoint, Start)
    && TerminalAt(b.grid, b.endPoint, End)
  }

  /** The content of a cell; Java indexing fails outside the array. */
  function CharAt(b: Board, p: Pos): (r: Result<char, BoardError>)
    ensures r.Success? <==> InBounds(b.grid, p)
    ensures r.Success? ==> r.value == b.grid[p.row][p.col]
    ensures r.Failure? ==> r.error == IndexOutOfBounds(p)
  {
    if InBounds(b.grid, p) then Success(b.grid[p.row][p.col]) else Failure(IndexOutOfBounds(p))
  }

  /** Bounds-safe openness test: never fails, false off the board. */
  function IsOpen(b: Board, p: Pos): (r: bool)
    ensures !InBounds(b.grid, p) ==> !r
    ensures InBounds(b.grid, p) ==> (r <==> b.grid[p.row][p.col] == Open)
  {
    InBounds(b.grid, p) && b.grid[p.row][p.col] == Open
  }

  /** 'after' is 'before' with cell 'p' set to the trace mark and nothing else changed. */
  ghost predicate MarkedAt(before: Board, after: Board, p: Pos) {
    && after.rows == before.rows && after.cols == before.cols
    && after.startPoint == before.startPoint && after.endPoint == before.endPoint
    && |after.grid| == |before.grid|
    && (forall r :: 0 <= r < |before.grid| ==> |after.grid[r]| == |before.grid[r]|)
    && InBounds(before.grid, p)
    && after.grid[p.row][p.col] == Trace
    && forall r, c :: 0 <= r < |before.grid| && 0 <= c < |before.grid[r]| && Pos(r, c) != p ==>
         after.grid[r][c] == before.grid[r][c]
  }

  /** Turns an open cell into a trace cell. A cell that is not open raises
      'OccupiedPositionException', except that off the board the exception
      message itself indexes the array and fails first. */
  function MakeTrace(b: Board, p: Pos): (r: Result<Board, BoardError>)
    ensures r.Success? <==> IsOpen(b, p)
    ensures r.Success? ==> MarkedAt(b, r.value, p)
    ensures r.Success? ==> OpenCount(r.value) + 1 == OpenCount(b) && !IsOpen(r.value, p)
    ensures r.Failure? && InBounds(b.grid, p) ==> r.error == OccupiedPosition(p)
    ensures r.Failure? && !InBounds(b.grid, p) ==> r.error == IndexOutOfBounds(p)
    ensures WellFormed(b) && r.Success? ==> WellFormed(r.value)
  {
    if IsOpen(b, p) then
      var row := b.grid[p.row][p.col := Trace];
      var g := b.grid[p.row := row];
      CountRowUpdate(b.grid[p.row], p.col);
      CountGridUpdate(b.grid, p.row, row);
      Success(b.(grid := g))
    else if InBounds(b.grid, p) then
      Failure(OccupiedPosition(p))
    else
      Failure(IndexOutOfBounds(p))
  }

  /** 'getBoard': a fresh array whose dimensions are taken from the row count
      and the length of row 0. */
  function GridCopy(g: seq<seq<char>>): (r: seq<seq<char>>)
    requires |g| > 0
    requires forall i :: 0 <= i < |g| ==> |g[i]| == |g[0]|
    ensures r == g
  {
    var copy := seq(|g|, i requires 0 <= i < |g| => seq(|g[0]|, j requires 0 <= j < |g[0]| => g[i][j]));
    assert forall i :: 0 <= i < |g| ==> copy[i] == g[i];
    copy
  }

  /** The copy constructor. Row 0 is read before the terminals are, so an
      empty grid fails on the index and a missing terminal on the null point. */
  function Copy(b: Board): (r: Result<Board, BoardError>)
    requires WellFormed(b)
    ensures r.Success? <==> b.startPoint.Some? && b.endPoint.Some?
    ensures r.Success? ==> r.value == b
    ensures r.Failure? ==> r.error == (if |b.grid| == 0 then IndexOutOfBounds(Pos(0, 0)) else MissingTerminal)
  {
    if |b.grid| == 0 then Failure(IndexOutOfBounds(Pos(0, 0)))
    else if b.startPoint.None? || b.endPoint.None? then Failure(MissingTerminal)
    else Success(Board(b.rows, b.cols, GridCopy(b.grid), b.startPoint, b.endPoint))
  }

  /** 'getStartingPoint': copying a point that was never set fails. */
  function StartingPoint(b: Board): (r: Result<Pos, BoardError>)
    requires WellFormed(b)
    ensures r.Success? <==> exists p :: CharAt(b, p) == Success(Start)
    ensures r.Success? ==> CharAt(b, r.value) == Success(Start)
    ensures r.Failure? ==> r.error == MissingTerminal
  {
    match b.startPoint
    case Some(p) =>
      assert CharAt(b, p) == Success(Start);
      Success(p)
    case None =>
      assert forall p :: CharAt(b, p) != Success(Start) by {
        forall p ensures CharAt(b, p) != Success(Start) {
          if InBounds(b.grid, p) {
            assert b.grid[p.row][p.col] != Start;
          }
        }
      }
      Failure(MissingTerminal)
  }

  /** 'getEndingPoint', as 'StartingPoint' for the second terminal. */
  function EndingPoint(b: Board): (r: Result<Pos, BoardError>)
    requires WellFormed(b)
    ensures r.Success? <==> exists p :: CharAt(b, p) == Success(End)
    ensures r.Success? ==> CharAt(b, r.value) == Success(End)
    ensures r.Failure? ==> r.error == MissingTerminal
  {
    match b.endPoint
    case Some(p) =>
      assert CharAt(b, p) == Success(End);
      Success(p)
    case None =>
      assert forall p :: CharAt(b, p) != Success(End) by {
        forall p ensures CharAt(b, p) != Success(End) {
          if InBounds(b.grid, p) {
            assert b.grid[p.row][p.col] != End;
          }
        }
      }
      Failure(MissingTerminal)
  }

  // ---------------------------------------------------------------------
  // Counting open cells: the quantity every trace step consumes.

  function CountRow(row: seq<char>): nat {
    if |row| == 0 then 0 else (if row[0] == Open then 1 else 0) + CountRow(row[1..])
  }

  function CountGrid(g: seq<seq<char>>): nat {
    if |g| == 0 then 0 else CountRow(g[0]) + CountGrid(g[1..])
  }

  /** The number of open cells on the board. */
  function OpenCount(b: Board): nat {
    CountGrid(b.grid)
  }

  lemma {:induction false} CountRowUpdate(row: seq<char>, j: int)
    requires 0 <= j < |row| && row[j] == Open
    ensures CountRow(row[j := Trace]) + 1 == CountRow(row)
    decreases j
  {
    if j > 0 {
      assert row[j := Trace][1..] == row[1..][j - 1 := Trace];
      CountRowUpdate(row[1..], j - 1);
    } else {
      assert row[j := Trace][1..] == row[1..];
    }
  }

  lemma {:induction false} CountGridUpdate(g: seq<seq<char>>, i: int, row: seq<char>)
    requires 0 <= i < |g| && CountRow(row) + 1 == CountRow(g[i])
    ensures CountGrid(g[i := row]) + 1 == CountGrid(g)
    decreases i
  {
    if i > 0 {
      assert g[i := row][1..] == g[1..][i - 1 := row];
      CountGridUpdate(g[1..], i - 1, row);
    } else {
      assert g[i := row][1..] == g[1..];
    }
  }

  lemma {:induction false} CountRowZero(row: seq<char>)
    ensures CountRow(row) == 0 <==> forall j :: 0 <= j < |row| ==> row[j] != Open
    decreases |row|
  {
    if |row| > 0 {
      CountRowZero(row[1..]);
      assert forall j :: 1 <= j < |row| ==> row[j] == row[1..][j - 1];
    }
  }

  lemma {:induction false} CountGridZero(g: seq<seq<char>>)
    ensures CountGrid(g) == 0 <==> forall i, j :: 0 <= i < |g| && 0 <= j < |g[i]| ==> g[i][j] != Open
    decreases |g|
  {
    if |g| > 0 {
      CountRowZero(g[0]);
      CountGridZero(g[1..]);
      assert forall i :: 1 <= i < |g| ==> g[i] == g[1..][i - 1];
    }
  }

  /** No open cell is left exactly when the count is zero: the count and the
      openness query agree. */
  lemma {:induction false} OpenCountZeroIff(b: Board)
    ensures OpenCount(b) == 0 <==> forall p :: !IsOpen(b, p)
  {
    CountGridZero(b.grid);
    if OpenCount(b) != 0 {
      var i, j :| 0 <= i < |b.grid| && 0 <= j < |b.grid[i]| && b.grid[i][j] == Open;
      assert IsOpen(b, Pos(i, j));
    }
  }

  // ---------------------------------------------------------------------
  // Rendering.

  /** Each cell followed by one space. */
  function RowText(row: seq<char>): string {
    if |row| == 0 then "" else [row[0], ' '] + RowText(row[1..])
  }

  /** Each row's text followed by a newline, rows in order. */
  function GridText(g: seq<seq<char>>): string {
    if |g| == 0 then "" else RowText(g[0]) + "\n" + GridText(g[1..])
  }

  /** 'toString'. */
  function ToString(b: Board): string {
    GridText(b.grid)
  }

  lemma {:induction false} RowTextLayout(row: seq<char>)
    ensures |RowText(row)| == 2 * |row|
    ensures forall j :: 0 <= j < |row| ==> RowText(row)[2 * j] == row[j] && RowText(row)[2 * j + 1] == ' '
    decreases |row|
  {
    if |row| > 0 {
      RowTextLayout(row[1..]);
      var t := RowText(row);
      assert t == [row[0], ' '] + RowText(row[1..]);
      forall j | 1 <= j < |row|
        ensures t[2 * j] == row[j] && t[2 * j + 1] == ' '
      {
        assert t[2 * j] == RowText(row[1..])[2 * (j - 1)];
        assert t[2 * j + 1] == RowText(row[1..])[2 * (j - 1) + 1];
      }
    }
  }

  /** Where row 'i' starts when every row takes 'w' characters. */
  function RowOffset(i: nat, w: nat): nat {
    if i == 0 then 0 else w + RowOffset(i - 1, w)
  }

  lemma {:induction false} RowOffsetIsProduct(i: nat, w: nat)
    ensures RowOffset(i, w) == i * w
    decreases i
  {
    if i > 0 {
      RowOffsetIsProduct(i - 1, w);
    }
  }

  lemma {:induction false} GridTextLength(g: seq<seq<char>>, w: nat, W: nat)
    requires W == 2 * w + 1
    requires forall i :: 0 <= i < |g| ==> |g[i]| == w
    ensures |GridText(g)| == RowOffset(|g|, W)
    decreases |g|
  {
    if |g| > 0 {
      RowTextLayout(g[0]);
      GridTextLength(g[1..], w, W);
    }
  }

  lemma {:induction false} RowOffsetMonotone(i: nat, n: nat, W: nat)
    requires i <= n
    ensures RowOffset(i, W) <= RowOffset(n, W)
    decreases n
  {
    if i < n {
      RowOffsetMonotone(i, n - 1, W);
    }
  }

  /** Character 'k' of row 'i' of the text is character 'k' of that row's line. */
  lemma {:induction false} GridTextAt(g: seq<seq<char>>, w: nat, W: nat, i: nat, k: nat)
    requires W == 2 * w + 1
    requires forall r :: 0 <= r < |g| ==> |g[r]| == w
    requires i < |g| && k < W
    ensures RowOffset(i, W) + k < |GridText(g)|
    ensures |RowText(g[i])| == 2 * w
    ensures GridText(g)[RowOffset(i, W) + k] == (RowText(g[i]) + "\n")[k]
    decreases i
  {
    RowTextLayout(g[0]);
    RowTextLayout(g[i]);
    GridTextLength(g[1..], w, W);
    if i > 0 {
      GridTextAt(g[1..], w, W, i - 1, k);
      assert g[1..][i - 1] == g[i];
    }
  }

  /** Where cell (i, j) is rendered when every row takes 'w' characters. */
  function CellOffset(i: nat, j: nat, w: nat): nat {
    RowOffset(i, w) + 2 * j
  }

  lemma {:induction false} CellInGridText(g: seq<seq<char>>, w: nat, W: nat, i: nat, j: nat)
    requires W == 2 * w + 1
    requires forall r :: 0 <= r < |g| ==> |g[r]| == w
    requires i < |g| && j < w
    ensures RowOffset(i, W) + W <= |GridText(g)|
    ensures GridText(g)[RowOffset(i, W) + 2 * j] == g[i][j]
    ensures GridText(g)[RowOffset(i, W) + 2 * j + 1] == ' '
  {
    var line := RowText(g[i]) + "\n";
    RowTextLayout(g[i]);
    GridTextAt(g, w, W, i, W - 1);
    GridTextAt(g, w, W, i, 2 * j);
    GridTextAt(g, w, W, i, 2 * j + 1);
    assert line[2 * j] == RowText(g[i])[2 * j];
    assert line[2 * j + 1] == RowText(g[i])[2 * j + 1];
  }

  lemma {:induction false} NewlineInGridText(g: seq<seq<char>>, w: nat, W: nat, i: nat)
    requires W == 2 * w + 1
    requires forall r :: 0 <= r < |g| ==> |g[r]| == w
    requires i < |g|
    ensures RowOffset(i, W) + W <= |GridText(g)|
    ensures GridText(g)[RowOffset(i, W) + 2 * w] == '\n'
  {
    GridTextAt(g, w, W, i, 2 * w);
  }

  lemma {:induction false} GridTextLayout(g: seq<seq<char>>, w: nat, W: nat)
    requires W == 2 * w + 1
    requires forall i :: 0 <= i < |g| ==> |g[i]| == w
    ensures |GridText(g)| == RowOffset(|g|, W)
    ensures forall i: int :: 0 <= i < |g| ==> RowOffset(i, W) + W <= |GridText(g)|
    ensures forall i: int, j: int :: 0 <= i < |g| && 0 <= j < w ==>
              CellOffset(i, j, W) + 1 < |GridText(g)| &&
              GridText(g)[CellOffset(i, j, W)] == g[i][j] &&
              GridText(g)[CellOffset(i, j, W) + 1] == ' '
    ensures forall i: int :: 0 <= i < |g| ==> GridText(g)[RowOffset(i, W) + 2 * w] == '\n'
  {
    GridTextLength(g, w, W);
    forall i: int | 0 <= i < |g|
      ensures RowOffset(i, W) + W <= |GridText(g)| && GridText(g)[RowOffset(i, W) + 2 * w] == '\n'
    {
      NewlineInGridText(g, w, W, i);
    }
    forall i: int, j: int | 0 <= i < |g| && 0 <= j < w
      ensures CellOffset(i, j, W) + 1 < |GridText(g)|
      ensures GridText(g)[CellOffset(i, j, W)] == g[i][j]
      ensures GridText(g)[CellOffset(i, j, W) + 1] == ' '
    {
      CellInGridText(g, w, W, i, j);
    }
  }

  /** The width of one rendered row: a character and a space per cell, and a newline. */
  function RowWidth(b: Board): nat {
    2 * b.cols + 1
  }

  /** 'toString' lays out the board row by row: ROWS*(2*COLS+1) characters,
      row r starting at r*(2*COLS+1), cell (r, c) at offset 2*c followed by a
      space, and a newline closing each row. */
  lemma {:induction false} ToStringLayout(b: Board)
    requires WellFormed(b)
    ensures |ToString(b)| == b.rows * RowWidth(b)
    ensures forall r, c :: 0 <= r < b.rows && 0 <= c < b.cols ==>
              CellOffset(r, c, RowWidth(b)) == r * RowWidth(b) + 2 * c &&
              CellOffset(r, c, RowWidth(b)) + 1 < |ToString(b)| &&
              ToString(b)[CellOffset(r, c, RowWidth(b))] == b.grid[r][c] &&
              ToString(b)[CellOffset(r, c, RowWidth(b)) + 1] == ' '
    ensures forall r :: 0 <= r < b.rows ==>
              RowOffset(r, RowWidth(b)) == r * RowWidth(b) &&
              RowOffset(r, RowWidth(b)) + 2 * b.cols < |ToString(b)| &&
              ToString(b)[RowOffset(r, RowWidth(b)) + 2 * b.cols] == '\n'
  {
    var W, text := RowWidth(b), ToString(b);
    GridTextLayout(b.grid, b.cols, W);
    assert text == GridText(b.grid);
    RowOffsetIsProduct(b.rows, W);
    forall r, c | 0 <= r < b.rows && 0 <= c < b.cols
      ensures CellOffset(r, c, W) == r * W + 2 * c
      ensures CellOffset(r, c, W) + 1 < |text|
      ensures text[CellOffset(r, c, W)] == b.grid[r][c] && text[CellOffset(r, c, W) + 1] == ' '
    {
      RowOffsetIsProduct(r, W);
    }
    forall r | 0 <= r < b.rows
      ensures RowOffset(r, W) == r * W
      ensures RowOffset(r, W) + 2 * b.cols < |text| && text[RowOffset(r, W) + 2 * b.cols] == '\n'
    {
      RowOffsetIsProduct(r, W);
    }
  }
}
