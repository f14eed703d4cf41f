/** A trace state: one candidate path together with its own snapshot of the
    board, in which the path's cells are marked. States are built only by
    seeding from the board or by extending another state, and neither
    operation changes the state it starts from. */
module Traces {
  import opened Results
  import opened CircuitBoard

  datatype TraceState = TraceState(board: Board, path: seq<Pos>)

  /** A board the search can run on: both terminals were found. */
  ghost predicate Ready(b: Board) {
    WellFormed(b) && b.startPoint.Some? && b.endPoint.Some?
  }

  predicate IsTraceCell(b: Board, p: Pos) {
    InBounds(b.grid, p) && b.grid[p.row][p.col] == Trace
  }

  /** No element occurs twice. */
  predicate NoRepeats<T(==)>(s: seq<T>) {
    forall i, j :: 0 <= i < j < |s| ==> s[i] != s[j]
  }

  /** Joining two sequences without repeats and without a common element
      gives a sequence without repeats. */
  lemma {:induction false} NoRepeatsConcat<T>(a: seq<T>, b: seq<T>)
    requires NoRepeats(a) && NoRepeats(b)
    requires forall x :: x in a ==> x !in b
    ensures NoRepeats(a + b)
  {
    forall i, j | 0 <= i < j < |a + b| ensures (a + b)[i] != (a + b)[j] {
      if j < |a| {
        assert (a + b)[i] == a[i] && (a + b)[j] == a[j];
      } else if i < |a| {
        assert (a + b)[i] == a[i] && (a + b)[j] == b[j - |a|];
        assert a[i] in a;
      } else {
        assert (a + b)[i] == b[i - |a|] && (a + b)[j] == b[j - |a|];
      }
    }
  }

  /** What seeding and extension guarantee of every state: a non-empty path
      of distinct cells, each marked in the snapshot. */
  ghost predicate Valid(t: TraceState) {
    && Ready(t.board)
    && |t.path| > 0
    && (forall i :: 0 <= i < |t.path| ==> IsTraceCell(t.board, t.path[i]))
    && NoRepeats(t.path)
  }

  function Head(t: TraceState): Pos
    requires |t.path| > 0
  {
    t.path[|t.path| - 1]
  }

  function PathLength(t: TraceState): nat {
    |t.path|
  }

  function Abs(x: int): nat {
    if x < 0 then -x else x
  }

  predicate Adjacent(p: Pos, q: Pos) {
    Abs(p.row - q.row) + Abs(p.col - q.col) == 1
  }

  /** A path is complete when its head touches the ending terminal. */
  predicate IsComplete(t: TraceState) {
    |t.path| > 0 && t.board.endPoint.Some? && Adjacent(Head(t), t.board.endPoint.value)
  }

  lemma {:induction false} MarkKeepsPath(before: Board, after: Board, path: seq<Pos>, p: Pos)
    requires MarkedAt(before, after, p) && before.grid[p.row][p.col] == Open
    requires forall i :: 0 <= i < |path| ==> IsTraceCell(before, path[i])
    requires NoRepeats(path)
    ensures forall i :: 0 <= i < |path + [p]| ==> IsTraceCell(after, (path + [p])[i])
    ensures NoRepeats(path + [p])
  {
    forall i | 0 <= i < |path|
      ensures path[i] != p && IsTraceCell(after, path[i])
    {
      assert IsTraceCell(before, path[i]);
    }
  }

  /** The first constructor: a copy of the board with 'p' marked, as a path of
      one cell. Copying fails without both terminals; marking fails unless
      'p' is open. */
  function Seed(b: Board, p: Pos): (r: Result<TraceState, BoardError>)
    requires WellFormed(b)
    ensures r.Success? <==> Ready(b) && IsOpen(b, p)
    ensures r.Success? ==> Valid(r.value) && r.value.path == [p] && MarkedAt(b, r.value.board, p)
    ensures r.Success? ==> OpenCount(r.value.board) + 1 == OpenCount(b)
    ensures !Ready(b) && |b.grid| > 0 ==> r == Failure(MissingTerminal)
    ensures Ready(b) && !IsOpen(b, p) ==>
      r == Failure(if InBounds(b.grid, p) then OccupiedPosition(p) else IndexOutOfBounds(p))
  {
    match Copy(b)
    case Failure(e) => Failure(e)
    case Success(copy) =>
      match MakeTrace(copy, p)
      case Failure(e) => Failure(e)
      case Success(marked) =>
        MarkKeepsPath(copy, marked, [], p);
        Success(TraceState(marked, [p]))
  }

  /** The second constructor: a copy of the state's snapshot with 'p' marked,
      and the path grown by 'p'. Fails unless 'p' is open in the snapshot. */
  function Extend(t: TraceState, p: Pos): (r: Result<TraceState, BoardError>)
    requires Valid(t)
    ensures r.Success? <==> IsOpen(t.board, p)
    ensures r.Success? ==> Valid(r.value) && r.value.path == t.path + [p] && MarkedAt(t.board, r.value.board, p)
    ensures r.Success? ==> OpenCount(r.value.board) + PathLength(r.value) == OpenCount(t.board) + PathLength(t)
    ensures r.Failure? ==> r.error == (if InBounds(t.board.grid, p) then OccupiedPosition(p) else IndexOutOfBounds(p))
  {
    match Copy(t.board)
    case Failure(e) => Failure(e)
    case Success(copy) =>
      match MakeTrace(copy, p)
      case Failure(e) => Failure(e)
      case Success(marked) =>
        MarkKeepsPath(copy, marked, t.path, p);
        Success(TraceState(marked, t.path + [p]))
  }
}
