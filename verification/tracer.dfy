/** The tracer's two searches as its code makes their moves, the moves it
    evidently meant, and what separates the two. */
module Tracer {
  import opened Results
  import opened CircuitBoard
  import opened Traces
  import opened PathSearch

  /** The moves as written. Seeding tries above, right, below and left of the
      start point read with row and column exchanged: the point keeps the row
      in 'x' and the column in 'y', and the seeding code reads 'y' as the row.
      Expansion tries left, below, left again and right: the block meant to
      test the cell above tests the cell to the left. */
  const AsWritten := Moves([Up, Right, Down, Left], [Left, Down, Left, Right], true)

  /** The moves the code's comments describe: the four neighbours of the
      start, then the four neighbours of each head. */
  const Intended := Moves([Up, Right, Down, Left], [Up, Down, Left, Right], false)

  /** One guarded test of the code: the cell when the guard holds and the
      cell is open. */
  function Guarded(b: Board, guard: bool, p: Pos): seq<Pos> {
    if guard then OpenCell(b, p) else []
  }

  /** The seeding tests in the code's order; 'x' and 'y' are the start
      point's fields. */
  function WrittenSeedCells(b: Board, x: int, y: int): seq<Pos> {
    Guarded(b, y != 0, Pos(y - 1, x))
    + Guarded(b, x != b.cols - 1, Pos(y, x + 1))
    + Guarded(b, y != b.rows - 1, Pos(y + 1, x))
    + Guarded(b, x != 0, Pos(y, x - 1))
  }

  /** The expansion tests in the code's order; 'x' is the head's column and
      'y' its row, 'rows' and 'cols' the board's dimensions. */
  function WrittenStepCells(b: Board, x: int, y: int, rows: int, cols: int): seq<Pos> {
    Guarded(b, x != 0, Pos(y, x - 1))
    + Guarded(b, y != rows - 1, Pos(y + 1, x))
    + Guarded(b, x != 0, Pos(y, x - 1))
    + Guarded(b, x != cols - 1, Pos(y, x + 1))
  }

  /** Each edge guard only skips cells that lie off the board, where the
      openness test is false anyway. */
  lemma {:induction false} GuardIsRedundant(b: Board, guard: bool, p: Pos)
    requires !guard ==> !InBounds(b.grid, p)
    ensures Guarded(b, guard, p) == OpenCell(b, p)
  {
  }

  /** On a well-formed board each edge guard of the code only skips cells
      off the board. */
  lemma {:induction false} EdgeGuards(b: Board, x: int, y: int)
    requires WellFormed(b)
    ensures Guarded(b, y != 0, Pos(y - 1, x)) == OpenCell(b, Pos(y - 1, x))
    ensures Guarded(b, x != b.cols - 1, Pos(y, x + 1)) == OpenCell(b, Pos(y, x + 1))
    ensures Guarded(b, y != b.rows - 1, Pos(y + 1, x)) == OpenCell(b, Pos(y + 1, x))
    ensures Guarded(b, x != 0, Pos(y, x - 1)) == OpenCell(b, Pos(y, x - 1))
  {
    GuardIsRedundant(b, y != 0, Pos(y - 1, x));
    if x == b.cols - 1 && 0 <= y < |b.grid| {
      assert |b.grid[y]| == b.cols;
    }
    GuardIsRedundant(b, x != b.cols - 1, Pos(y, x + 1));
    GuardIsRedundant(b, y != b.rows - 1, Pos(y + 1, x));
    GuardIsRedundant(b, x != 0, Pos(y, x - 1));
  }

  /** The seeding as written is the search's seeding under 'AsWritten' from
      the start point (row = x, column = y). */
  lemma {:induction false} WrittenSeedingMatches(b: Board, start: Pos)
    requires WellFormed(b)
    ensures WrittenSeedCells(b, start.row, start.col) == SeedCells(b, start, AsWritten)
  {
    var x, y := start.row, start.col;
    EdgeGuards(b, x, y);
    var o := Pos(y, x);
    assert WrittenSeedCells(b, x, y) ==
      OpenCell(b, Pos(y - 1, x)) + OpenCell(b, Pos(y, x + 1)) + OpenCell(b, Pos(y + 1, x)) + OpenCell(b, Pos(y, x - 1));
    assert Shift(o, Up) == Pos(y - 1, x) && Shift(o, Right) == Pos(y, x + 1);
    assert Shift(o, Down) == Pos(y + 1, x) && Shift(o, Left) == Pos(y, x - 1);
    CandidatesOfFour(b, o, Up, Right, Down, Left);
    assert SeedCells(b, start, AsWritten) == Candidates(b, o, [Up, Right, Down, Left]);
  }

  /** The expansion as written, around a head 'h' on a snapshot 's', with
      the edge tests reading the dimensions of the board 'b' the search
      started from, is the search's expansion under 'AsWritten'. */
  lemma {:induction false} WrittenExpansionMatches(b: Board, s: Board, h: Pos)
    requires WellFormed(s) && SameShape(b, s)
    ensures WrittenStepCells(s, h.col, h.row, b.rows, b.cols) == Candidates(s, h, AsWritten.stepOffsets)
  {
    var x, y := h.col, h.row;
    EdgeGuards(s, x, y);
    assert WrittenStepCells(s, x, y, b.rows, b.cols) ==
      OpenCell(s, Pos(y, x - 1)) + OpenCell(s, Pos(y + 1, x)) + OpenCell(s, Pos(y, x - 1)) + OpenCell(s, Pos(y, x + 1));
    assert Shift(h, Left) == Pos(y, x - 1) && Shift(h, Down) == Pos(y + 1, x) && Shift(h, Right) == Pos(y, x + 1);
    assert AsWritten.stepOffsets == [Left, Down, Left, Right];
    CandidatesOfFour(s, h, Left, Down, Left, Right);
  }

  /** The four orthogonal neighbours are exactly the adjacent cells. */
  lemma {:induction false} AdjacentIsShift(h: Pos, p: Pos)
    ensures Adjacent(h, p) <==>
      p == Shift(h, Up) || p == Shift(h, Down) || p == Shift(h, Left) || p == Shift(h, Right)
  {
  }

  /** Four cells tried in turn: exactly the open ones among them. */
  lemma {:induction false} FourCellsMembers(b: Board, q1: Pos, q2: Pos, q3: Pos, q4: Pos)
    ensures forall p :: p in OpenCell(b, q1) + OpenCell(b, q2) + OpenCell(b, q3) + OpenCell(b, q4) <==>
      (p == q1 || p == q2 || p == q3 || p == q4) && IsOpen(b, p)
  {
    var c1, c2, c3, c4 := OpenCell(b, q1), OpenCell(b, q2), OpenCell(b, q3), OpenCell(b, q4);
    forall p ensures p in c1 + c2 + c3 + c4 <==> p in c1 || p in c2 || p in c3 || p in c4 {
      InConcat(c1 + c2 + c3, c4, p);
      InConcat(c1 + c2, c3, p);
      InConcat(c1, c2, p);
    }
  }

  /** Four different cells tried in turn: none is listed twice. */
  lemma {:induction false} FourCellsDistinct(b: Board, q1: Pos, q2: Pos, q3: Pos, q4: Pos)
    requires q1 != q2 && q1 != q3 && q1 != q4 && q2 != q3 && q2 != q4 && q3 != q4
    ensures NoRepeats(OpenCell(b, q1) + OpenCell(b, q2) + OpenCell(b, q3) + OpenCell(b, q4))
  {
    var c1, c2, c3, c4 := OpenCell(b, q1), OpenCell(b, q2), OpenCell(b, q3), OpenCell(b, q4);
    NoRepeatsConcat(c1, c2);
    forall x | x in c1 + c2 ensures x == q1 || x == q2 {
      InConcat(c1, c2, x);
    }
    NoRepeatsConcat(c1 + c2, c3);
    forall x | x in c1 + c2 + c3 ensures x == q1 || x == q2 || x == q3 {
      InConcat(c1 + c2, c3, x);
    }
    NoRepeatsConcat(c1 + c2 + c3, c4);
  }

  /** Corrected expansion: it tries every open neighbour of the head. */
  lemma {:induction false} IntendedExpansionIsNeighbours(b: Board, h: Pos)
    ensures forall p :: p in Candidates(b, h, Intended.stepOffsets) <==> Adjacent(h, p) && IsOpen(b, p)
  {
    assert Intended.stepOffsets == [Up, Down, Left, Right];
    CandidatesOfFour(b, h, Up, Down, Left, Right);
    FourCellsMembers(b, Shift(h, Up), Shift(h, Down), Shift(h, Left), Shift(h, Right));
    forall p ensures Adjacent(h, p) <==> p == Shift(h, Up) || p == Shift(h, Down) || p == Shift(h, Left) || p == Shift(h, Right) {
      AdjacentIsShift(h, p);
    }
  }

  /** Corrected expansion: no neighbour is tried twice. */
  lemma {:induction false} IntendedExpansionOnce(b: Board, h: Pos)
    ensures NoRepeats(Candidates(b, h, Intended.stepOffsets))
  {
    assert Intended.stepOffsets == [Up, Down, Left, Right];
    CandidatesOfFour(b, h, Up, Down, Left, Right);
    FourCellsDistinct(b, Shift(h, Up), Shift(h, Down), Shift(h, Left), Shift(h, Right));
  }

  /** Expansion as written: the cell above the head is never tried, and an
      open cell to its left is tried twice. */
  lemma {:induction false} WrittenExpansionSkipsUp(b: Board, h: Pos)
    ensures Shift(h, Up) !in Candidates(b, h, AsWritten.stepOffsets)
    ensures IsOpen(b, Shift(h, Left)) ==> multiset(Candidates(b, h, AsWritten.stepOffsets))[Shift(h, Left)] == 2
  {
    assert AsWritten.stepOffsets == [Left, Down, Left, Right];
    CandidatesOfFour(b, h, Left, Down, Left, Right);
    FourCellsMembers(b, Shift(h, Left), Shift(h, Down), Shift(h, Left), Shift(h, Right));
  }

  /** Corrected seeding: one seed per open neighbour of the start. */
  lemma {:induction false} IntendedSeedingIsNeighbours(b: Board, start: Pos)
    ensures forall p :: p in SeedCells(b, start, Intended) <==> Adjacent(start, p) && IsOpen(b, p)
  {
    assert Intended.seedOffsets == [Up, Right, Down, Left];
    CandidatesOfFour(b, start, Up, Right, Down, Left);
    FourCellsMembers(b, Shift(start, Up), Shift(start, Right), Shift(start, Down), Shift(start, Left));
    forall p ensures Adjacent(start, p) <==> p == Shift(start, Up) || p == Shift(start, Down) || p == Shift(start, Left) || p == Shift(start, Right) {
      AdjacentIsShift(start, p);
    }
  }

  /** Seeding as written: the seeds are the open neighbours of the start's
      mirror image across the main diagonal. */
  lemma {:induction false} WrittenSeedingIsTransposed(b: Board, start: Pos)
    ensures forall p :: p in SeedCells(b, start, AsWritten) <==> Adjacent(Pos(start.col, start.row), p) && IsOpen(b, p)
  {
    var o := Pos(start.col, start.row);
    assert AsWritten.seedOffsets == [Up, Right, Down, Left];
    CandidatesOfFour(b, o, Up, Right, Down, Left);
    FourCellsMembers(b, Shift(o, Up), Shift(o, Right), Shift(o, Down), Shift(o, Left));
    forall p ensures Adjacent(o, p) <==> p == Shift(o, Up) || p == Shift(o, Down) || p == Shift(o, Left) || p == Shift(o, Right) {
      AdjacentIsShift(o, p);
    }
  }

  /** A one-row board whose only path starts right of the start terminal. */
  const SeedExample := Board(1, 4, [['X', '1', 'O', '2']], Some(Pos(0, 1)), Some(Pos(0, 3)))

  lemma {:induction false} SeedExampleWellFormed()
    ensures WellFormed(SeedExample)
  {
  }

  /** Four offsets none of which lands on an open cell give no candidates. */
  lemma {:induction false} NoOpenNeighbour(b: Board, o: Pos, o1: Offset, o2: Offset, o3: Offset, o4: Offset)
    requires !IsOpen(b, Shift(o, o1)) && !IsOpen(b, Shift(o, o2))
    requires !IsOpen(b, Shift(o, o3)) && !IsOpen(b, Shift(o, o4))
    ensures Candidates(b, o, [o1, o2, o3, o4]) == []
  {
    CandidatesOfFour(b, o, o1, o2, o3, o4);
  }

  /** On a one-row board whose first cell is not open, the seeding tests as
      written for the start (0, 1) look around (1, 0), the start read with its
      coordinates exchanged, and find no open cell: the three cells other
      than (0, 0) lie off the board. */
  lemma {:induction false} WrittenSeedsOnOneRow(b: Board, start: Pos)
    requires |b.grid| == 1 && |b.grid[0]| > 0 && b.grid[0][0] != Open
    requires start.row == 0 && start.col == 1
    ensures SeedCells(b, start, AsWritten) == []
  {
    var o := Pos(start.col, start.row);
    assert AsWritten.seedOffsets == [Up, Right, Down, Left] && AsWritten.transposeStart;
    NoOpenNeighbour(b, o, Up, Right, Down, Left);
  }

  /** On 'SeedExample' the tracer as written seeds nothing and reports no
      path, under either discipline. */
  lemma {:induction false} TransposedSeedingLosesPath(d: Discipline)
    ensures WellFormed(SeedExample)
    ensures Search(SeedExample, AsWritten, d) == Success([])
  {
    SeedExampleWellFormed();
    WrittenSeedsOnOneRow(SeedExample, Pos(0, 1));
    assert Seeding(SeedExample, AsWritten) == Success([]);
    assert Drain([], [], AsWritten.stepOffsets, d) == [];
  }

  /** On 'SeedExample' the corrected seeding tries the real neighbours of the
      start and finds the one open cell. */
  lemma {:induction false} IntendedExampleSeeds()
    ensures SeedCells(SeedExample, Pos(0, 1), Intended) == [Pos(0, 2)]
  {
    var literal := Moves([Offset(-1, 0), Offset(0, 1), Offset(1, 0), Offset(0, -1)],
                         [Offset(-1, 0), Offset(1, 0), Offset(0, -1), Offset(0, 1)], false);
    assert Intended == literal;
    assert SeedCells(SeedExample, Pos(0, 1), literal) == [Pos(0, 2)];
  }

  /** On the same board the corrected tracer reports paths, all of length 1:
      the open cell between the terminals. */
  lemma {:induction false} IntendedSeedingFindsPath(d: Discipline)
    ensures WellFormed(SeedExample)
    ensures Search(SeedExample, Intended, d).Success?
    ensures |Search(SeedExample, Intended, d).value| > 0
    ensures forall k :: 0 <= k < |Search(SeedExample, Intended, d).value| ==>
      PathLength(Search(SeedExample, Intended, d).value[k]) == 1
  {
    SeedExampleWellFormed();
    IntendedExampleSeeds();
    var seeds := Seeding(SeedExample, Intended).value;
    assert seeds[0].path == [Pos(0, 2)];
    assert MarkedAt(SeedExample, seeds[0].board, Pos(0, 2));
    assert IsComplete(seeds[0]);
    CompleteSeedIsShortest(SeedExample, Intended, d, 0);
  }
}
