/** Building a board from its token stream: two dimensions, then ROWS*COLS
    cell tokens in row-major order, of which only the first character is kept.
    The scan stops at the first offending token, in reading order. */
module BoardParser {
  import opened Results
  import opened CircuitBoard
  import opened Arithmetic

  /** 'InvalidFileFormatException' and the other ways the constructor fails.
      The constructor reports too few and too many tokens with one and the
      same message ("Number of rows incorrect."); the model tells the two
      apart as 'TooFewTokens' and 'TrailingTokens'. */
  datatype ParseError =
    | NegativeSize           // array allocation with a negative dimension
    | TooFewTokens           // input exhausted before the grid is full
    | EmptyToken             // 'charAt(0)' of an empty token
    | DisallowedChar(ch: char)
    | DuplicateStart
    | DuplicateEnd
    | TrailingTokens         // tokens left after the grid is full

  predicate TokenOk(tok: string) {
    |tok| > 0 && tok[0] in Allowed
  }

  predicate Marks(tok: string, ch: char) {
    |tok| > 0 && tok[0] == ch
  }

  // ---------------------------------------------------------------------
  // Row-major layout.

  function Flatten(g: seq<seq<char>>): seq<char> {
    if |g| == 0 then [] else g[0] + Flatten(g[1..])
  }

  /** Cuts 's' into 'rows' consecutive rows of 'cols' characters. */
  function Chunk(s: seq<char>, rows: nat, cols: nat): (g: seq<seq<char>>)
    requires |s| == rows * cols
    ensures |g| == rows && forall r :: 0 <= r < rows ==> |g[r]| == cols
    decreases rows
  {
    if rows == 0 then []
    else
      assert rows * cols == cols + (rows - 1) * cols;
      [s[..cols]] + Chunk(s[cols..], rows - 1, cols)
  }

  function PosOf(k: nat, cols: nat): Pos
    requires cols > 0
  {
    Pos(k / cols, k % cols)
  }

  function Locate(o: Option<nat>, cols: nat): Option<Pos>
    requires o.Some? ==> cols > 0
  {
    match o
    case None => None
    case Some(k) => Some(PosOf(k, cols))
  }

  /** Quotient and remainder are the only such pair. */
  lemma {:induction false} DivUnique(k: int, cols: int, q: int, m: int)
    requires cols > 0 && k == q * cols + m && 0 <= m < cols
    ensures k / cols == q && k % cols == m
  {
    var q', m' := k / cols, k % cols;
    assert k == q' * cols + m';
    if q > q' {
      MulMonotone(q' + 1, q, cols);
    } else if q < q' {
      MulMonotone(q + 1, q', cols);
    }
  }

  lemma {:induction false} PosOfIndex(r: int, c: int, cols: nat)
    requires r >= 0 && 0 <= c < cols
    ensures r * cols + c >= 0
    ensures PosOf(r * cols + c, cols) == Pos(r, c)
  {
    MulMonotone(0, r, cols);
    DivUnique(r * cols + c, cols, r, c);
  }

  lemma {:induction false} PosOfInRange(k: nat, rows: nat, cols: nat)
    requires k < rows * cols
    ensures cols > 0
    ensures PosOf(k, cols).row * cols + PosOf(k, cols).col == k
    ensures 0 <= PosOf(k, cols).row < rows && 0 <= PosOf(k, cols).col < cols
  {
    var q := k / cols;
    if q >= rows {
      MulMonotone(rows, q, cols);
    }
  }

  lemma {:induction false} IndexInRange(r: int, c: int, rows: nat, cols: nat)
    requires 0 <= r < rows && 0 <= c < cols
    ensures 0 <= r * cols + c < rows * cols
  {
    assert (rows - r - 1) * cols >= 0;
    assert rows * cols == r * cols + cols + (rows - r - 1) * cols;
  }

  lemma {:induction false} FlattenChunk(s: seq<char>, rows: nat, cols: nat)
    requires |s| == rows * cols
    ensures Flatten(Chunk(s, rows, cols)) == s
    decreases rows
  {
    if rows > 0 {
      assert rows * cols == cols + (rows - 1) * cols;
      var g := Chunk(s, rows, cols);
      assert g[1..] == Chunk(s[cols..], rows - 1, cols);
      FlattenChunk(s[cols..], rows - 1, cols);
      assert s == s[..cols] + s[cols..];
    }
  }

  lemma {:induction false} FlattenLength(g: seq<seq<char>>, cols: nat)
    requires forall r :: 0 <= r < |g| ==> |g[r]| == cols
    ensures |Flatten(g)| == |g| * cols
    decreases |g|
  {
    if |g| > 0 {
      FlattenLength(g[1..], cols);
      assert |g| * cols == cols + (|g| - 1) * cols;
    }
  }

  lemma {:induction false} ChunkFlatten(g: seq<seq<char>>, cols: nat)
    requires forall r :: 0 <= r < |g| ==> |g[r]| == cols
    ensures |Flatten(g)| == |g| * cols
    ensures Chunk(Flatten(g), |g|, cols) == g
    decreases |g|
  {
    FlattenLength(g, cols);
    if |g| > 0 {
      var s := Flatten(g);
      assert |g| * cols == cols + (|g| - 1) * cols;
      assert s[..cols] == g[0];
      assert s[cols..] == Flatten(g[1..]);
      ChunkFlatten(g[1..], cols);
      assert g == [g[0]] + g[1..];
    }
  }

  lemma {:induction false} ChunkAt(s: seq<char>, rows: nat, cols: nat, r: nat, c: nat)
    requires |s| == rows * cols && r < rows && c < cols
    ensures 0 <= r * cols + c < |s|
    ensures Chunk(s, rows, cols)[r][c] == s[r * cols + c]
    decreases r
  {
    IndexInRange(r, c, rows, cols);
    assert rows * cols == cols + (rows - 1) * cols;
    if r > 0 {
      ChunkAt(s[cols..], rows - 1, cols, r - 1, c);
      assert r * cols + c == cols + ((r - 1) * cols + c);
    }
  }

  // ---------------------------------------------------------------------
  // The scan over the cell tokens.

  /** Flat indices of the '1' and '2' tokens met so far. */
  datatype Seen = Seen(start: Option<nat>, end: Option<nat>)

  /** The nested loops of the constructor, over the flat token index 'k' of
      cell (k / COLS, k % COLS), checking in the Java constructor's order: a token is
      present, its first character is allowed, a terminal is not repeated. */
  function Scan(cells: seq<string>, n: nat, k: nat, seen: Seen): (r: Result<Seen, ParseError>)
    requires k <= n && k <= |cells|
    ensures r.Success? ==> n <= |cells| && forall i :: k <= i < n ==> TokenOk(cells[i])
    decreases n - k
  {
    if k == n then Success(seen)
    else if k >= |cells| then Failure(TooFewTokens)
    else if |cells[k]| == 0 then Failure(EmptyToken)
    else
      var ch := cells[k][0];
      if ch !in Allowed then Failure(DisallowedChar(ch))
      else if ch == Start then
        if seen.start.Some? then Failure(DuplicateStart)
        else Scan(cells, n, k + 1, seen.(start := Some(k)))
      else if ch == End then
        if seen.end.Some? then Failure(DuplicateEnd)
        else Scan(cells, n, k + 1, seen.(end := Some(k)))
      else Scan(cells, n, k + 1, seen)
  }

  /** 'o' is the index of the one token among the first 'k' that marks 'ch', if any. */
  ghost predicate SoundFor(cells: seq<string>, k: nat, o: Option<nat>, ch: char)
    requires k <= |cells|
  {
    && (o.Some? ==> o.value < k && Marks(cells[o.value], ch))
    && forall i :: 0 <= i < k && Marks(cells[i], ch) ==> o == Some(i)
  }

  ghost predicate SeenSound(cells: seq<string>, k: nat, seen: Seen) {
    k <= |cells| && SoundFor(cells, k, seen.start, Start) && SoundFor(cells, k, seen.end, End)
  }

  lemma {:induction false} ScanRecordsTerminals(cells: seq<string>, n: nat, k: nat, seen: Seen)
    requires k <= n && SeenSound(cells, k, seen)
    ensures Scan(cells, n, k, seen).Success? ==> SeenSound(cells, n, Scan(cells, n, k, seen).value)
    decreases n - k
  {
    if k < n && k < |cells| && |cells[k]| > 0 {
      var ch := cells[k][0];
      if ch == Start && seen.start.None? {
        ScanRecordsTerminals(cells, n, k + 1, seen.(start := Some(k)));
      } else if ch == End && seen.end.None? {
        ScanRecordsTerminals(cells, n, k + 1, seen.(end := Some(k)));
      } else if ch != Start && ch != End {
        ScanRecordsTerminals(cells, n, k + 1, seen);
      }
    }
  }

  /** The first 'n' tokens, read row-major, are exactly the cells of 'grid'. */
  function FirstChar(tok: string): char
    requires TokenOk(tok)
  {
    tok[0]
  }

  function FirstChars(cells: seq<string>): (s: seq<char>)
    requires forall i :: 0 <= i < |cells| ==> TokenOk(cells[i])
    ensures |s| == |cells| && forall i :: 0 <= i < |cells| ==> s[i] == FirstChar(cells[i])
  {
    seq(|cells|, i requires 0 <= i < |cells| => FirstChar(cells[i]))
  }

  lemma {:induction false} LocatedTerminal(cells: seq<string>, rows: nat, cols: nat, o: Option<nat>, ch: char)
    requires |cells| == rows * cols
    requires forall i :: 0 <= i < |cells| ==> TokenOk(cells[i])
    requires SoundFor(cells, |cells|, o, ch)
    ensures o.Some? ==> cols > 0
    ensures TerminalAt(Chunk(FirstChars(cells), rows, cols), Locate(o, cols), ch)
  {
    var g := Chunk(FirstChars(cells), rows, cols);
    if o.Some? {
      PosOfInRange(o.value, rows, cols);
    }
    forall r, c | 0 <= r < |g| && 0 <= c < |g[r]|
      ensures g[r][c] == ch <==> Locate(o, cols) == Some(Pos(r, c))
    {
      ChunkAt(FirstChars(cells), rows, cols, r, c);
      var k := r * cols + c;
      PosOfIndex(r, c, cols);
      if o.Some? {
        PosOfInRange(o.value, rows, cols);
      }
    }
  }

  /** The constructor reading a board from ROWS, COLS and the cell tokens. */
  function Parse(rows: int, cols: int, cells: seq<string>): (r: Result<Board, ParseError>)
    ensures r.Success? ==> WellFormed(r.value) && r.value.rows == rows && r.value.cols == cols
    ensures r.Success? ==> |cells| == rows * cols && forall i :: 0 <= i < |cells| ==> TokenOk(cells[i])
    ensures r.Success? ==> Flatten(r.value.grid) == FirstChars(cells)
  {
    if rows < 0 || cols < 0 then Failure(NegativeSize)
    else
      match Scan(cells, rows * cols, 0, Seen(None, None))
      case Failure(e) => Failure(e)
      case Success(seen) =>
        if |cells| > rows * cols then Failure(TrailingTokens)
        else
          ScanRecordsTerminals(cells, rows * cols, 0, Seen(None, None));
          LocatedTerminal(cells, rows, cols, seen.start, Start);
          LocatedTerminal(cells, rows, cols, seen.end, End);
          FlattenChunk(FirstChars(cells), rows, cols);
          Success(Board(rows, cols, Chunk(FirstChars(cells), rows, cols),
                        Locate(seen.start, cols), Locate(seen.end, cols)))
  }

  // ---------------------------------------------------------------------
  // When parsing succeeds, and what it reports when it does not.

  ghost predicate AtMostOne(cells: seq<string>, ch: char) {
    forall i, j :: 0 <= i < j < |cells| && Marks(cells[i], ch) ==> !Marks(cells[j], ch)
  }

  /** A token stream the constructor accepts. */
  ghost predicate ValidInput(rows: int, cols: int, cells: seq<string>) {
    && rows >= 0 && cols >= 0
    && |cells| == rows * cols
    && (forall i :: 0 <= i < |cells| ==> TokenOk(cells[i]))
    && AtMostOne(cells, Start)
    && AtMostOne(cells, End)
  }

  /** Tokens k..n-1 neither repeat 'ch' nor repeat one already seen. */
  ghost predicate FreeOf(cells: seq<string>, k: nat, n: nat, o: Option<nat>, ch: char)
    requires n <= |cells|
  {
    && (forall i, j :: k <= i < j < n && Marks(cells[i], ch) ==> !Marks(cells[j], ch))
    && (o.Some? ==> forall i :: k <= i < n ==> !Marks(cells[i], ch))
  }

  ghost predicate ScanOk(cells: seq<string>, n: nat, k: nat, seen: Seen) {
    && n <= |cells|
    && (forall i :: k <= i < n ==> TokenOk(cells[i]))
    && FreeOf(cells, k, n, seen.start, Start)
    && FreeOf(cells, k, n, seen.end, End)
  }

  lemma {:induction false} ScanSucceedsIff(cells: seq<string>, n: nat, k: nat, seen: Seen)
    requires k <= n && k <= |cells|
    ensures Scan(cells, n, k, seen).Success? <==> ScanOk(cells, n, k, seen)
    decreases n - k
  {
    if k < n && k < |cells| && |cells[k]| > 0 && cells[k][0] in Allowed {
      var ch := cells[k][0];
      if ch == Start && seen.start.None? {
        ScanSucceedsIff(cells, n, k + 1, seen.(start := Some(k)));
      } else if ch == End && seen.end.None? {
        ScanSucceedsIff(cells, n, k + 1, seen.(end := Some(k)));
      } else if ch != Start && ch != End {
        ScanSucceedsIff(cells, n, k + 1, seen);
      }
    }
  }

  /** Parsing succeeds exactly on valid input: non-negative dimensions,
      exactly ROWS*COLS tokens, each starting with an allowed character, and
      no second '1' or '2'. A missing terminal is not an error. */
  lemma {:induction false} ParseSucceedsIff(rows: int, cols: int, cells: seq<string>)
    ensures Parse(rows, cols, cells).Success? <==> ValidInput(rows, cols, cells)
  {
    if rows >= 0 && cols >= 0 {
      var n := rows * cols;
      if n <= |cells| {
        ScanSucceedsIff(cells, n, 0, Seen(None, None));
      } else {
        assert Scan(cells, n, 0, Seen(None, None)).Failure?;
      }
    }
  }

  lemma {:induction false} ScanRunsOut(cells: seq<string>, n: nat, k: nat, seen: Seen)
    requires k <= |cells| < n
    requires forall i :: k <= i < |cells| ==> TokenOk(cells[i])
    requires FreeOf(cells, k, |cells|, seen.start, Start) && FreeOf(cells, k, |cells|, seen.end, End)
    ensures Scan(cells, n, k, seen) == Failure(TooFewTokens)
    decreases n - k
  {
    if k < |cells| {
      var ch := cells[k][0];
      if ch == Start {
        ScanRunsOut(cells, n, k + 1, seen.(start := Some(k)));
      } else if ch == End {
        ScanRunsOut(cells, n, k + 1, seen.(end := Some(k)));
      } else {
        ScanRunsOut(cells, n, k + 1, seen);
      }
    }
  }

  /** The tokens the constructor's loops read: at most ROWS*COLS of them. */
  function ReadPart(cells: seq<string>, n: nat): (r: seq<string>)
    ensures |r| <= n && |r| <= |cells| && r == cells[..|r|]
    ensures |r| == |cells| || |r| == n
  {
    if |cells| < n then cells else cells[..n]
  }

  /** Running out of tokens before the grid is full fails, as does a token
      left over once it is full, whenever the tokens read are themselves
      valid. Tokens past ROWS*COLS are never read, only detected. */
  lemma {:induction false} ParseCountMismatch(rows: nat, cols: nat, cells: seq<string>)
    requires |cells| != rows * cols
    requires forall i :: 0 <= i < |cells| && i < rows * cols ==> TokenOk(cells[i])
    requires AtMostOne(ReadPart(cells, rows * cols), Start) && AtMostOne(ReadPart(cells, rows * cols), End)
    ensures |cells| < rows * cols ==> Parse(rows, cols, cells) == Failure(TooFewTokens)
    ensures |cells| > rows * cols ==> Parse(rows, cols, cells) == Failure(TrailingTokens)
  {
    var n := rows * cols;
    var read := ReadPart(cells, n);
    assert forall i :: 0 <= i < |read| ==> read[i] == cells[i];
    if |cells| < n {
      ScanRunsOut(cells, n, 0, Seen(None, None));
    } else {
      ScanSucceedsIff(cells, n, 0, Seen(None, None));
    }
  }

  lemma {:induction false} ScanStopsAtBadToken(cells: seq<string>, n: nat, k: nat, seen: Seen, j: nat)
    requires k <= j < n && j < |cells|
    requires forall i :: k <= i < j ==> TokenOk(cells[i])
    requires FreeOf(cells, k, j, seen.start, Start) && FreeOf(cells, k, j, seen.end, End)
    requires !TokenOk(cells[j])
    ensures Scan(cells, n, k, seen) == Failure(if |cells[j]| == 0 then EmptyToken else DisallowedChar(cells[j][0]))
    decreases j - k
  {
    if k < j {
      var ch := cells[k][0];
      if ch == Start {
        ScanStopsAtBadToken(cells, n, k + 1, seen.(start := Some(k)), j);
      } else if ch == End {
        ScanStopsAtBadToken(cells, n, k + 1, seen.(end := Some(k)), j);
      } else {
        ScanStopsAtBadToken(cells, n, k + 1, seen, j);
      }
    }
  }

  lemma {:induction false} ScanStopsAtSecondStart(cells: seq<string>, n: nat, k: nat, seen: Seen, j: nat)
    requires k <= j < n && j < |cells|
    requires SeenSound(cells, k, seen)
    requires forall i :: k <= i < j ==> TokenOk(cells[i])
    requires FreeOf(cells, k, j, seen.start, Start) && FreeOf(cells, k, j, seen.end, End)
    requires Marks(cells[j], Start) && exists i :: 0 <= i < j && Marks(cells[i], Start)
    ensures Scan(cells, n, k, seen) == Failure(DuplicateStart)
    decreases j - k
  {
    if k == j {
      var i :| 0 <= i < j && Marks(cells[i], Start);
      assert seen.start == Some(i);
    } else {
      var ch := cells[k][0];
      var next := if ch == Start then seen.(start := Some(k)) else if ch == End then seen.(end := Some(k)) else seen;
      assert Scan(cells, n, k, seen) == Scan(cells, n, k + 1, next);
      ScanStopsAtSecondStart(cells, n, k + 1, next, j);
    }
  }


  lemma {:induction false} ScanStopsAtSecondEnd(cells: seq<string>, n: nat, k: nat, seen: Seen, j: nat)
    requires k <= j < n && j < |cells|
    requires SeenSound(cells, k, seen)
    requires forall i :: k <= i < j ==> TokenOk(cells[i])
    requires FreeOf(cells, k, j, seen.start, Start) && FreeOf(cells, k, j, seen.end, End)
    requires Marks(cells[j], End) && exists i :: 0 <= i < j && Marks(cells[i], End)
    ensures Scan(cells, n, k, seen) == Failure(DuplicateEnd)
    decreases j - k
  {
    if k == j {
      var i :| 0 <= i < j && Marks(cells[i], End);
      assert seen.end == Some(i);
    } else {
      var ch := cells[k][0];
      var next := if ch == Start then seen.(start := Some(k)) else if ch == End then seen.(end := Some(k)) else seen;
      assert Scan(cells, n, k, seen) == Scan(cells, n, k + 1, next);
      ScanStopsAtSecondEnd(cells, n, k + 1, next, j);
    }
  }


  /** The first offending token decides the error: a disallowed (or empty)
      token, or a second '1' or '2', when every token before it was valid. */
  lemma {:induction false} ParseReportsFirstFault(rows: nat, cols: nat, cells: seq<string>, j: nat)
    requires j < rows * cols && j < |cells|
    requires forall i :: 0 <= i < j ==> TokenOk(cells[i])
    requires AtMostOne(cells[..j], Start) && AtMostOne(cells[..j], End)
    ensures !TokenOk(cells[j]) ==>
      Parse(rows, cols, cells) == Failure(if |cells[j]| == 0 then EmptyToken else DisallowedChar(cells[j][0]))
    ensures Marks(cells[j], Start) && (exists i :: 0 <= i < j && Marks(cells[i], Start)) ==>
      Parse(rows, cols, cells) == Failure(DuplicateStart)
    ensures Marks(cells[j], End) && (exists i :: 0 <= i < j && Marks(cells[i], End)) ==>
      Parse(rows, cols, cells) == Failure(DuplicateEnd)
  {
    assert forall i :: 0 <= i < j ==> cells[..j][i] == cells[i];
    if !TokenOk(cells[j]) {
      ScanStopsAtBadToken(cells, rows * cols, 0, Seen(None, None), j);
    }
    if Marks(cells[j], Start) && exists i :: 0 <= i < j && Marks(cells[i], Start) {
      ScanStopsAtSecondStart(cells, rows * cols, 0, Seen(None, None), j);
    }
    if Marks(cells[j], End) && exists i :: 0 <= i < j && Marks(cells[i], End) {
      ScanStopsAtSecondEnd(cells, rows * cols, 0, Seen(None, None), j);
    }
  }

  // ---------------------------------------------------------------------
  // Round trip.

  /** The token stream that describes a board: one single-character token
      per cell, row-major. */
  function Tokens(b: Board): seq<string> {
    var s := Flatten(b.grid);
    seq(|s|, i requires 0 <= i < |s| => [s[i]])
  }

  ghost predicate CellsAllowed(b: Board) {
    forall r, c :: 0 <= r < |b.grid| && 0 <= c < |b.grid[r]| ==> b.grid[r][c] in Allowed
  }

  lemma {:induction false} FlattenAllowed(g: seq<seq<char>>)
    requires forall r, c :: 0 <= r < |g| && 0 <= c < |g[r]| ==> g[r][c] in Allowed
    ensures forall k :: 0 <= k < |Flatten(g)| ==> Flatten(g)[k] in Allowed
    decreases |g|
  {
    if |g| > 0 {
      FlattenAllowed(g[1..]);
      assert forall r :: 1 <= r < |g| ==> g[r] == g[1..][r - 1];
    }
  }

  lemma {:induction false} TerminalUnique(g: seq<seq<char>>, o1: Option<Pos>, o2: Option<Pos>, ch: char)
    requires TerminalAt(g, o1, ch) && TerminalAt(g, o2, ch)
    ensures o1 == o2
  {
    if o1.Some? {
      assert g[o1.value.row][o1.value.col] == ch;
    }
    if o2.Some? {
      assert g[o2.value.row][o2.value.col] == ch;
    }
  }

  /** Reading a flattened position back through the row-major layout. */
  lemma {:induction false} FlattenAt(b: Board, k: nat)
    requires WellFormed(b) && k < |Flatten(b.grid)|
    ensures |Flatten(b.grid)| == b.rows * b.cols
    ensures b.cols > 0 && InBounds(b.grid, PosOf(k, b.cols))
    ensures Flatten(b.grid)[k] == b.grid[k / b.cols][k % b.cols]
  {
    ChunkFlatten(b.grid, b.cols);
    PosOfInRange(k, b.rows, b.cols);
    ChunkAt(Flatten(b.grid), b.rows, b.cols, k / b.cols, k % b.cols);
  }

  lemma {:induction false} TokensMarkOnce(b: Board, ch: char, i: nat, j: nat)
    requires WellFormed(b) && (ch == Start || ch == End)
    requires i < j < |Tokens(b)| && Marks(Tokens(b)[i], ch)
    ensures !Marks(Tokens(b)[j], ch)
  {
    FlattenAt(b, i);
    FlattenAt(b, j);
    var pi := PosOf(i, b.cols);
    var pj := PosOf(j, b.cols);
    PosOfInRange(i, b.rows, b.cols);
    PosOfInRange(j, b.rows, b.cols);
    assert pi != pj;
    assert b.grid[pi.row][pi.col] == ch;
  }

  lemma {:induction false} TokensValid(b: Board)
    requires WellFormed(b) && CellsAllowed(b)
    ensures ValidInput(b.rows, b.cols, Tokens(b))
  {
    var cells := Tokens(b);
    FlattenLength(b.grid, b.cols);
    FlattenAllowed(b.grid);
    forall i, j | 0 <= i < j < |cells| && Marks(cells[i], Start)
      ensures !Marks(cells[j], Start)
    {
      TokensMarkOnce(b, Start, i, j);
    }
    forall i, j | 0 <= i < j < |cells| && Marks(cells[i], End)
      ensures !Marks(cells[j], End)
    {
      TokensMarkOnce(b, End, i, j);
    }
  }

  /** Parsing the tokens of a board whose cells are all allowed rebuilds it. */
  lemma {:induction false} ParseTokensRoundTrip(b: Board)
    requires WellFormed(b) && CellsAllowed(b)
    ensures Parse(b.rows, b.cols, Tokens(b)) == Success(b)
  {
    TokensValid(b);
    ParseSucceedsIff(b.rows, b.cols, Tokens(b));
    var r := Parse(b.rows, b.cols, Tokens(b)).value;
    ChunkFlatten(b.grid, b.cols);
    ChunkFlatten(r.grid, r.cols);
    assert FirstChars(Tokens(b)) == Flatten(b.grid);
    assert r.grid == b.grid;
    TerminalUnique(b.grid, r.startPoint, b.startPoint, Start);
    TerminalUnique(b.grid, r.endPoint, b.endPoint, End);
  }
}
