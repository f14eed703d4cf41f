/** The path search: seed one state per open neighbour of the origin, then
    repeatedly take a state from the frontier, record it if complete, and
    otherwise put back one extension per open neighbour of its head. The
    stack and queue variants differ only in which end of the frontier they
    take from, so both are one definition parametrised by a discipline. */
module PathSearch {
  import opened Results
  import opened CircuitBoard
  import opened Arithmetic
  import opened Traces
  import opened Collector

  datatype Offset = Offset(dr: int, dc: int)

  function Shift(p: Pos, o: Offset): Pos {
    Pos(p.row + o.dr, p.col + o.dc)
  }

  const Up := Offset(-1, 0)
  const Down := Offset(1, 0)
  const Left := Offset(0, -1)
  const Right := Offset(0, 1)

  /** Stack: the newest state is taken next. Queue: the oldest. */
  datatype Discipline = Stack | Queue

  /** The neighbours tried around the seeding origin and around each head, in
      order, and whether the origin is the starting terminal read with its
      coordinates exchanged. */
  datatype Moves = Moves(seedOffsets: seq<Offset>, stepOffsets: seq<Offset>, transposeStart: bool)

  /** The order of neighbours the tracer tries, each checked against the board
      and against the edges of the grid. */
  function Candidates(b: Board, origin: Pos, offsets: seq<Offset>): (r: seq<Pos>)
    ensures |r| <= |offsets|
    ensures forall i :: 0 <= i < |r| ==> IsOpen(b, r[i])
  {
    if |offsets| == 0 then []
    else OpenCell(b, Shift(origin, offsets[0])) + Candidates(b, origin, offsets[1..])
  }

  /** The candidates are exactly the open cells among the shifted origins. */
  lemma {:induction false} CandidatesMembers(b: Board, origin: Pos, offsets: seq<Offset>)
    ensures forall p :: p in Candidates(b, origin, offsets) <==>
      IsOpen(b, p) && exists k :: 0 <= k < |offsets| && p == Shift(origin, offsets[k])
    decreases |offsets|
  {
    if |offsets| > 0 {
      var head, rest := OpenCell(b, Shift(origin, offsets[0])), Candidates(b, origin, offsets[1..]);
      CandidatesMembers(b, origin, offsets[1..]);
      assert Candidates(b, origin, offsets) == head + rest;
      forall p
        ensures p in head + rest <==> IsOpen(b, p) && exists k :: 0 <= k < |offsets| && p == Shift(origin, offsets[k])
      {
        if p in rest {
          var k :| 0 <= k < |offsets[1..]| && p == Shift(origin, offsets[1..][k]);
          assert p == Shift(origin, offsets[k + 1]);
        }
        if IsOpen(b, p) && exists k :: 0 <= k < |offsets| && p == Shift(origin, offsets[k]) {
          var k :| 0 <= k < |offsets| && p == Shift(origin, offsets[k]);
          if k > 0 {
            assert offsets[k] == offsets[1..][k - 1];
          }
        }
      }
    }
  }

  /** 'p' when it is open, nothing otherwise. */
  function OpenCell(b: Board, p: Pos): seq<Pos> {
    if IsOpen(b, p) then [p] else []
  }

  /** One step of the candidates: the first offset, then the rest. */
  lemma {:induction false} CandidatesCons(b: Board, origin: Pos, o: Offset, rest: seq<Offset>)
    ensures Candidates(b, origin, [o] + rest) == OpenCell(b, Shift(origin, o)) + Candidates(b, origin, rest)
  {
    assert ([o] + rest)[0] == o && ([o] + rest)[1..] == rest;
  }

  /** The candidates for four offsets, tried in order. */
  lemma {:induction false} CandidatesOfFour(b: Board, origin: Pos, o1: Offset, o2: Offset, o3: Offset, o4: Offset)
    ensures Candidates(b, origin, [o1, o2, o3, o4]) ==
      OpenCell(b, Shift(origin, o1)) + OpenCell(b, Shift(origin, o2)) + OpenCell(b, Shift(origin, o3)) + OpenCell(b, Shift(origin, o4))
  {
    var c1, c2, c3, c4 := OpenCell(b, Shift(origin, o1)), OpenCell(b, Shift(origin, o2)), OpenCell(b, Shift(origin, o3)), OpenCell(b, Shift(origin, o4));
    CandidatesCons(b, origin, o4, []);
    assert [o4] + [] == [o4];
    CandidatesCons(b, origin, o3, [o4]);
    assert [o3] + [o4] == [o3, o4];
    CandidatesCons(b, origin, o2, [o3, o4]);
    assert [o2] + [o3, o4] == [o2, o3, o4];
    CandidatesCons(b, origin, o1, [o2, o3, o4]);
    assert [o1] + [o2, o3, o4] == [o1, o2, o3, o4];
    assert Candidates(b, origin, []) == [];
    assert c4 + [] == c4;
    ConcatAssoc(c2, c3, c4);
    ConcatAssoc(c1, c2 + c3, c4);
    ConcatAssoc(c1, c2, c3);
  }

  /** The cells the search seeds from: the open neighbours of the origin. */
  function SeedCells(b: Board, start: Pos, moves: Moves): seq<Pos> {
    Candidates(b, if moves.transposeStart then Pos(start.col, start.row) else start, moves.seedOffsets)
  }

  ghost predicate AllValid(ts: seq<TraceState>) {
    forall i :: 0 <= i < |ts| ==> Valid(ts[i])
  }

  /** One seeded state per cell, in order; the first failure aborts. */
  function SeedAll(b: Board, cells: seq<Pos>): (r: Result<seq<TraceState>, BoardError>)
    requires WellFormed(b)
    ensures (forall k :: 0 <= k < |cells| ==> IsOpen(b, cells[k])) ==>
      (r.Success? <==> |cells| == 0 || Ready(b))
    ensures r.Success? ==> |r.value| == |cells| && AllValid(r.value)
    ensures r.Success? ==> forall k :: 0 <= k < |cells| ==> r.value[k].path == [cells[k]]
    ensures r.Success? ==> forall k :: 0 <= k < |cells| ==> MarkedAt(b, r.value[k].board, cells[k])
  {
    if |cells| == 0 then Success([])
    else
      match Seed(b, cells[0])
      case Failure(e) => Failure(e)
      case Success(t) =>
        match SeedAll(b, cells[1..])
        case Failure(e) => Failure(e)
        case Success(ts) =>
          ConsKeepsValid(t, ts);
          SeededCons(b, cells, t, ts);
          Success([t] + ts)
  }

  /** Prepending the state seeded from the first cell to those seeded from
      the others keeps each state paired with its cell. */
  lemma {:induction false} SeededCons(b: Board, cells: seq<Pos>, t: TraceState, ts: seq<TraceState>)
    requires |cells| > 0 && |ts| == |cells| - 1
    requires t.path == [cells[0]] && MarkedAt(b, t.board, cells[0])
    requires forall k :: 0 <= k < |cells[1..]| ==> ts[k].path == [cells[1..][k]]
    requires forall k :: 0 <= k < |cells[1..]| ==> MarkedAt(b, ts[k].board, cells[1..][k])
    ensures forall k :: 0 <= k < |cells| ==> ([t] + ts)[k].path == [cells[k]]
    ensures forall k :: 0 <= k < |cells| ==> MarkedAt(b, ([t] + ts)[k].board, cells[k])
  {
    forall k | 0 < k < |cells| ensures ([t] + ts)[k] == ts[k - 1] && cells[k] == cells[1..][k - 1] {
    }
  }

  lemma {:induction false} ConsKeepsValid(t: TraceState, ts: seq<TraceState>)
    requires Valid(t) && AllValid(ts)
    ensures AllValid([t] + ts)
  {
    forall i | 0 <= i < |[t] + ts| ensures Valid(([t] + ts)[i]) {
      if i > 0 {
        assert ([t] + ts)[i] == ts[i - 1];
      }
    }
  }

  /** The new state for 'p', extending 't'. */
  function Child(t: TraceState, p: Pos): (r: TraceState)
    requires Valid(t) && IsOpen(t.board, p)
    ensures Valid(r) && r.path == t.path + [p] && OpenCount(r.board) + 1 == OpenCount(t.board)
    ensures MarkedAt(t.board, r.board, p)
  {
    Extend(t, p).value
  }

  /** One extension of 't' per open neighbour of its head. */
  function Children(t: TraceState, offsets: seq<Offset>): (r: seq<TraceState>)
    requires Valid(t)
    ensures |r| == |Candidates(t.board, Head(t), offsets)| <= |offsets|
    ensures AllValid(r)
    ensures forall i :: 0 <= i < |r| ==> OpenCount(r[i].board) + 1 == OpenCount(t.board)
    ensures forall i :: 0 <= i < |r| ==> r[i].path == t.path + [Candidates(t.board, Head(t), offsets)[i]]
    ensures forall i :: 0 <= i < |r| ==> MarkedAt(t.board, r[i].board, Candidates(t.board, Head(t), offsets)[i])
  {
    var ps := Candidates(t.board, Head(t), offsets);
    seq(|ps|, i requires 0 <= i < |ps| => Child(t, ps[i]))
  }

  /** The termination measure. Every extension has one open cell fewer than
      its parent and a state has at most |offsets| extensions, so weighing a
      state by (|offsets| + 1) to the power of its open cells makes the
      frontier's total weight drop with every step. */
  function Base(offsets: seq<Offset>): nat {
    |offsets| + 1
  }

  function Weight(t: TraceState, base: nat): nat {
    Pow(base, OpenCount(t.board))
  }

  function Measure(ts: seq<TraceState>, base: nat): nat {
    if |ts| == 0 then 0 else Weight(ts[0], base) + Measure(ts[1..], base)
  }

  lemma {:induction false} MeasureConcat(a: seq<TraceState>, b: seq<TraceState>, base: nat)
    ensures Measure(a + b, base) == Measure(a, base) + Measure(b, base)
  {
    if |a| == 0 {
      assert a + b == b;
    } else {
      assert (a + b)[1..] == a[1..] + b;
      MeasureConcat(a[1..], b, base);
    }
  }

  lemma {:induction false} MeasureOfEqualWeights(ts: seq<TraceState>, base: nat, w: nat)
    requires forall i :: 0 <= i < |ts| ==> Weight(ts[i], base) == w
    ensures Measure(ts, base) == |ts| * w
  {
    if |ts| > 0 {
      assert forall i :: 0 <= i < |ts| - 1 ==> ts[1..][i] == ts[i + 1];
      MeasureOfEqualWeights(ts[1..], base, w);
      assert |ts| * w == w + (|ts| - 1) * w;
    }
  }

  lemma {:induction false} ChildrenWeighLess(t: TraceState, offsets: seq<Offset>)
    requires Valid(t)
    ensures Measure(Children(t, offsets), Base(offsets)) < Weight(t, Base(offsets))
  {
    var cs, base := Children(t, offsets), Base(offsets);
    FewerOpenWeighLess(cs, base, OpenCount(t.board));
  }

  lemma {:induction false} FewerOpenWeighLess(cs: seq<TraceState>, base: nat, n: nat)
    requires |cs| < base
    requires forall i :: 0 <= i < |cs| ==> OpenCount(cs[i].board) + 1 == n
    ensures Measure(cs, base) < Pow(base, n)
  {
    if |cs| > 0 {
      assert OpenCount(cs[0].board) + 1 == n;
      var w := Pow(base, n - 1);
      assert forall i :: 0 <= i < |cs| ==> Weight(cs[i], base) == w;
      MeasureOfEqualWeights(cs, base, w);
      FewerThanBase(base, |cs|, n);
    }
  }

  lemma {:induction false} FewerThanBase(base: nat, m: nat, n: nat)
    requires m < base && n > 0
    ensures m * Pow(base, n - 1) < Pow(base, n)
  {
    var w := Pow(base, n - 1);
    MulMonotone(m, base - 1, w);
    assert Pow(base, n) == base * w == (base - 1) * w + w;
  }

  /** The state taken from the frontier next. */
  function Next(front: seq<TraceState>, d: Discipline): TraceState
    requires |front| > 0
  {
    match d
    case Stack => front[|front| - 1]
    case Queue => front[0]
  }

  /** The frontier once 'Next' is taken out. */
  function Rest(front: seq<TraceState>, d: Discipline): (r: seq<TraceState>)
    requires |front| > 0
    ensures d.Stack? ==> front == r + [Next(front, d)]
    ensures d.Queue? ==> front == [Next(front, d)] + r
  {
    match d
    case Stack => front[..|front| - 1]
    case Queue => front[1..]
  }

  lemma {:induction false} NextIsValid(front: seq<TraceState>, d: Discipline)
    requires |front| > 0 && AllValid(front)
    ensures Valid(Next(front, d)) && AllValid(Rest(front, d))
  {
    var rest := Rest(front, d);
    if d.Stack? {
      assert forall i :: 0 <= i < |rest| ==> rest[i] == front[i];
    } else {
      assert forall i :: 0 <= i < |rest| ==> rest[i] == front[i + 1];
    }
  }

  /** One iteration of the search loop: take a state; a complete one is only
      recorded, any other has its extensions added to the frontier. */
  function Advance(front: seq<TraceState>, offsets: seq<Offset>, d: Discipline): (r: seq<TraceState>)
    requires |front| > 0 && AllValid(front)
    ensures AllValid(r)
  {
    NextIsValid(front, d);
    var t, rest := Next(front, d), Rest(front, d);
    if IsComplete(t) then rest else rest + Children(t, offsets)
  }

  /** The loop terminates: every iteration lowers the measure. */
  lemma {:induction false} AdvanceDecreases(front: seq<TraceState>, offsets: seq<Offset>, d: Discipline)
    requires |front| > 0 && AllValid(front)
    ensures Measure(Advance(front, offsets, d), Base(offsets)) < Measure(front, Base(offsets))
  {
    NextIsValid(front, d);
    var t, rest := Next(front, d), Rest(front, d);
    var base := Base(offsets);
    if d.Stack? {
      MeasureConcat(rest, [t], base);
    } else {
      MeasureConcat([t], rest, base);
    }
    assert Measure([t], base) == Weight(t, base) > 0;
    if !IsComplete(t) {
      ChildrenWeighLess(t, offsets);
      MeasureConcat(rest, Children(t, offsets), base);
    }
  }

  /** A snapshot with the rows, columns and terminals of the board 'b' the
      search started from. */
  ghost predicate SameShape(b: Board, s: Board) {
    s.rows == b.rows && s.cols == b.cols && s.startPoint == b.startPoint && s.endPoint == b.endPoint
  }

  ghost predicate AllShaped(b: Board, ts: seq<TraceState>) {
    forall i :: 0 <= i < |ts| ==> SameShape(b, ts[i].board)
  }

  /** The seeds are snapshots of the board itself. */
  lemma {:induction false} SeedingShaped(b: Board, moves: Moves)
    requires WellFormed(b) && Seeding(b, moves).Success?
    ensures AllShaped(b, Seeding(b, moves).value)
  {
    var seeds, cells := Seeding(b, moves).value, SeedCells(b, b.startPoint.value, moves);
    forall i | 0 <= i < |seeds| ensures SameShape(b, seeds[i].board) {
      assert MarkedAt(b, seeds[i].board, cells[i]);
    }
  }

  lemma {:induction false} ShapedConcat(b: Board, xs: seq<TraceState>, ys: seq<TraceState>)
    requires AllShaped(b, xs) && AllShaped(b, ys)
    ensures AllShaped(b, xs + ys)
  {
    forall i | 0 <= i < |xs + ys| ensures SameShape(b, (xs + ys)[i].board) {
      if i < |xs| {
        assert (xs + ys)[i] == xs[i];
      } else {
        assert (xs + ys)[i] == ys[i - |xs|];
      }
    }
  }

  /** Taking a state out leaves the others, each keeping its shape. */
  lemma {:induction false} NextShaped(b: Board, front: seq<TraceState>, d: Discipline)
    requires |front| > 0 && AllShaped(b, front)
    ensures SameShape(b, Next(front, d).board) && AllShaped(b, Rest(front, d))
  {
    var rest := Rest(front, d);
    if d.Stack? {
      assert forall i :: 0 <= i < |rest| ==> rest[i] == front[i];
    } else {
      assert forall i :: 0 <= i < |rest| ==> rest[i] == front[i + 1];
    }
  }

  /** The extensions of a state are snapshots of the same shape. */
  lemma {:induction false} ChildrenShaped(b: Board, t: TraceState, offsets: seq<Offset>)
    requires Valid(t) && SameShape(b, t.board)
    ensures AllShaped(b, Children(t, offsets))
  {
    var cs, ps := Children(t, offsets), Candidates(t.board, Head(t), offsets);
    forall i | 0 <= i < |cs| ensures SameShape(b, cs[i].board) {
      assert MarkedAt(t.board, cs[i].board, ps[i]);
    }
  }

  /** Every state the loop puts on the frontier keeps the shape of the
      board the search started from, so the dimensions the code's edge
      tests read from that board are those of every snapshot. */
  lemma {:induction false} AdvanceKeepsShape(b: Board, front: seq<TraceState>, offsets: seq<Offset>, d: Discipline)
    requires |front| > 0 && AllValid(front) && AllShaped(b, front)
    ensures AllShaped(b, Advance(front, offsets, d))
  {
    NextIsValid(front, d);
    NextShaped(b, front, d);
    var t := Next(front, d);
    if !IsComplete(t) {
      ChildrenShaped(b, t, offsets);
      ShapedConcat(b, Rest(front, d), Children(t, offsets));
    }
  }

  lemma {:induction false} ConcatKeepsValid(a: seq<TraceState>, b: seq<TraceState>)
    requires AllValid(a) && AllValid(b)
    requires forall i :: 0 <= i < |a| ==> IsComplete(a[i])
    requires forall i :: 0 <= i < |b| ==> IsComplete(b[i])
    ensures AllValid(a + b)
    ensures forall i :: 0 <= i < |a + b| ==> IsComplete((a + b)[i])
  {
    forall i | 0 <= i < |a + b|
      ensures Valid((a + b)[i]) && IsComplete((a + b)[i])
    {
      if i >= |a| {
        assert (a + b)[i] == b[i - |a|];
      }
    }
  }

  /** The completed states, in the order the loop takes them. */
  function Discovered(front: seq<TraceState>, offsets: seq<Offset>, d: Discipline): (r: seq<TraceState>)
    requires AllValid(front)
    ensures AllValid(r)
    ensures forall i :: 0 <= i < |r| ==> IsComplete(r[i])
    decreases Measure(front, Base(offsets))
  {
    if |front| == 0 then []
    else
      var t := Next(front, d);
      NextIsValid(front, d);
      AdvanceDecreases(front, offsets, d);
      var found := if IsComplete(t) then [t] else [];
      var later := Discovered(Advance(front, offsets, d), offsets, d);
      ConcatKeepsValid(found, later);
      found + later
  }

  /** The search loop with the collector: runs until the frontier is empty
      and returns the collector's contents. */
  function Drain(front: seq<TraceState>, best: seq<TraceState>, offsets: seq<Offset>, d: Discipline): (r: seq<TraceState>)
    requires AllValid(front)
    ensures Uniform(best) ==> Uniform(r)
    decreases Measure(front, Base(offsets))
  {
    if |front| == 0 then best
    else
      var t := Next(front, d);
      NextIsValid(front, d);
      AdvanceDecreases(front, offsets, d);
      Drain(Advance(front, offsets, d), if IsComplete(t) then Record(best, t) else best, offsets, d)
  }

  /** Reference definition, independent of any frontier: the complete states
      in the tree of extensions below 't'. */
  function Completions(t: TraceState, offsets: seq<Offset>): (r: seq<TraceState>)
    requires Valid(t)
    ensures AllValid(r)
    ensures forall i :: 0 <= i < |r| ==> IsComplete(r[i])
    decreases Weight(t, Base(offsets)), 1
  {
    if IsComplete(t) then [t]
    else
      var cs := Children(t, offsets);
      ChildrenWeighLess(t, offsets);
      CompletionsOf(cs, offsets)
  }

  function CompletionsOf(ts: seq<TraceState>, offsets: seq<Offset>): (r: seq<TraceState>)
    requires AllValid(ts)
    ensures AllValid(r)
    ensures forall i :: 0 <= i < |r| ==> IsComplete(r[i])
    decreases Measure(ts, Base(offsets)), 2
  {
    if |ts| == 0 then []
    else
      assert Weight(ts[0], Base(offsets)) > 0;
      Completions(ts[0], offsets) + CompletionsOf(ts[1..], offsets)
  }

  lemma {:induction false} CompletionsOfConcat(a: seq<TraceState>, b: seq<TraceState>, offsets: seq<Offset>)
    requires AllValid(a) && AllValid(b)
    ensures CompletionsOf(a + b, offsets) == CompletionsOf(a, offsets) + CompletionsOf(b, offsets)
    decreases |a|
  {
    if |a| == 0 {
      assert a + b == b;
    } else {
      var tail := a[1..];
      assert (a + b)[0] == a[0] && (a + b)[1..] == tail + b;
      assert AllValid(tail) by {
        forall i | 0 <= i < |tail| ensures Valid(tail[i]) {
          assert tail[i] == a[i + 1];
        }
      }
      CompletionsOfConcat(tail, b, offsets);
      var first := Completions(a[0], offsets);
      assert CompletionsOf(a + b, offsets) == first + (CompletionsOf(tail, offsets) + CompletionsOf(b, offsets));
      ConcatAssoc(first, CompletionsOf(tail, offsets), CompletionsOf(b, offsets));
    }
  }

  /** Taking 'Next' out of the frontier splits its completions into those
      of 'Next' and those of the rest. */
  lemma {:induction false} CompletionsOfSplit(front: seq<TraceState>, offsets: seq<Offset>, d: Discipline)
    requires |front| > 0 && AllValid(front)
    ensures Valid(Next(front, d)) && AllValid(Rest(front, d))
    ensures multiset(CompletionsOf(front, offsets)) ==
      multiset(CompletionsOf(Rest(front, d), offsets)) + multiset(Completions(Next(front, d), offsets))
  {
    NextIsValid(front, d);
    var t, rest := Next(front, d), Rest(front, d);
    assert CompletionsOf([t], offsets) == Completions(t, offsets) + CompletionsOf([], offsets);
    if d.Stack? {
      CompletionsOfConcat(rest, [t], offsets);
    } else {
      CompletionsOfConcat([t], rest, offsets);
    }
  }

  /** Whichever end the loop takes from, it finds every complete state of
      the extension trees below the frontier, each as often as the trees hold
      it. */
  lemma {:induction false} DiscoveredAreCompletions(front: seq<TraceState>, offsets: seq<Offset>, d: Discipline)
    requires AllValid(front)
    ensures multiset(Discovered(front, offsets, d)) == multiset(CompletionsOf(front, offsets))
    decreases Measure(front, Base(offsets))
  {
    if |front| > 0 {
      AdvanceDecreases(front, offsets, d);
      CompletionsOfSplit(front, offsets, d);
      var t, rest := Next(front, d), Rest(front, d);
      var next := Advance(front, offsets, d);
      DiscoveredStep(front, offsets, d);
      DiscoveredAreCompletions(next, offsets, d);
      if !IsComplete(t) {
        CompletionsOfConcat(rest, Children(t, offsets), offsets);
      }
    }
  }

  lemma {:induction false} DrainStep(front: seq<TraceState>, best: seq<TraceState>, offsets: seq<Offset>, d: Discipline)
    requires |front| > 0 && AllValid(front)
    ensures Drain(front, best, offsets, d) ==
      Drain(Advance(front, offsets, d), if IsComplete(Next(front, d)) then Record(best, Next(front, d)) else best, offsets, d)
  {
  }

  lemma {:induction false} DiscoveredStep(front: seq<TraceState>, offsets: seq<Offset>, d: Discipline)
    requires |front| > 0 && AllValid(front)
    ensures Discovered(front, offsets, d) ==
      (if IsComplete(Next(front, d)) then [Next(front, d)] else []) + Discovered(Advance(front, offsets, d), offsets, d)
  {
  }

  lemma {:induction false} CollectSnoc(done: seq<TraceState>, t: TraceState)
    ensures Collect(done + [t]) == Record(Collect(done), t)
  {
    assert (done + [t])[..|done|] == done;
  }

  lemma {:induction false} ConcatAssoc<T>(a: seq<T>, b: seq<T>, c: seq<T>)
    ensures (a + b) + c == a + (b + c)
  {
  }

  /** Running the loop with the collector holding the record of 'done'
      leaves the record of 'done' followed by everything the loop finds. */
  lemma {:induction false} DrainCollects(front: seq<TraceState>, done: seq<TraceState>, offsets: seq<Offset>, d: Discipline)
    requires AllValid(front)
    ensures Drain(front, Collect(done), offsets, d) == Collect(done + Discovered(front, offsets, d))
    decreases Measure(front, Base(offsets))
  {
    if |front| == 0 {
      assert done + [] == done;
    } else {
      AdvanceDecreases(front, offsets, d);
      var t := Next(front, d);
      var next := Advance(front, offsets, d);
      DrainStep(front, Collect(done), offsets, d);
      DiscoveredStep(front, offsets, d);
      if IsComplete(t) {
        CollectSnoc(done, t);
        DrainCollects(next, done + [t], offsets, d);
        ConcatAssoc(done, [t], Discovered(next, offsets, d));
      } else {
        DrainCollects(next, done, offsets, d);
        assert [] + Discovered(next, offsets, d) == Discovered(next, offsets, d);
      }
    }
  }

  /** The seeding phase: read the starting terminal, then seed one state per
      open neighbour of the origin. */
  function Seeding(b: Board, moves: Moves): (r: Result<seq<TraceState>, BoardError>)
    requires WellFormed(b)
    ensures r.Success? <==> b.startPoint.Some? && (b.endPoint.Some? || |SeedCells(b, b.startPoint.value, moves)| == 0)
    ensures r.Failure? ==> r.error == MissingTerminal
    ensures r.Success? ==> AllValid(r.value) && |r.value| == |SeedCells(b, b.startPoint.value, moves)|
    ensures r.Success? ==> forall i :: 0 <= i < |r.value| ==> r.value[i].path == [SeedCells(b, b.startPoint.value, moves)[i]]
    ensures r.Success? ==> forall i :: 0 <= i < |r.value| ==> MarkedAt(b, r.value[i].board, SeedCells(b, b.startPoint.value, moves)[i])
  {
    match StartingPoint(b)
    case Failure(e) => Failure(e)
    case Success(start) =>
      assert b.startPoint == Some(start);
      SeedAll(b, SeedCells(b, start, moves))
  }

  /** The whole tracer: seed, run the loop under discipline 'd', and return
      the collector's contents. */
  function Search(b: Board, moves: Moves, d: Discipline): (r: Result<seq<TraceState>, BoardError>)
    requires WellFormed(b)
    ensures r.Success? <==> Seeding(b, moves).Success?
    ensures r.Failure? ==> r.error == MissingTerminal
    ensures r.Success? ==> Uniform(r.value)
    ensures r.Success? ==> forall i :: 0 <= i < |r.value| ==> Valid(r.value[i]) && IsComplete(r.value[i])
  {
    match Seeding(b, moves)
    case Failure(e) => Failure(e)
    case Success(seeds) =>
      var best := Drain(seeds, [], moves.stepOffsets, d);
      DrainCollects(seeds, [], moves.stepOffsets, d);
      assert [] + Discovered(seeds, moves.stepOffsets, d) == Discovered(seeds, moves.stepOffsets, d);
      assert Collect([]) == [];
      CollectIsShortest(Discovered(seeds, moves.stepOffsets, d));
      Success(best)
  }

  /** The tracer returns exactly the shortest complete paths it finds, in the
      order it finds them; as a collection they are the shortest complete
      paths of the extension trees below the seeds. */
  lemma {:induction false} SearchFindsShortest(b: Board, moves: Moves, d: Discipline)
    requires WellFormed(b) && Seeding(b, moves).Success?
    ensures Search(b, moves, d).value == Shortest(Discovered(Seeding(b, moves).value, moves.stepOffsets, d))
    ensures multiset(Search(b, moves, d).value) == multiset(Shortest(CompletionsOf(Seeding(b, moves).value, moves.stepOffsets)))
  {
    var seeds := Seeding(b, moves).value;
    var found := Discovered(seeds, moves.stepOffsets, d);
    DrainCollects(seeds, [], moves.stepOffsets, d);
    assert [] + found == found;
    CollectIsShortest(found);
    DiscoveredAreCompletions(seeds, moves.stepOffsets, d);
    ShortestOfPermutation(found, CompletionsOf(seeds, moves.stepOffsets));
  }

  /** The stack and queue tracers agree: both fail or both succeed, with the
      same best paths up to order, hence the same shortest length. */
  lemma {:induction false} DisciplineIndependent(b: Board, moves: Moves)
    requires WellFormed(b)
    ensures Search(b, moves, Stack).Success? <==> Search(b, moves, Queue).Success?
    ensures Search(b, moves, Stack).Success? ==>
      multiset(Search(b, moves, Stack).value) == multiset(Search(b, moves, Queue).value)
    ensures Search(b, moves, Stack).Success? && |Search(b, moves, Stack).value| > 0 ==>
      |Search(b, moves, Queue).value| > 0 &&
      PathLength(Search(b, moves, Stack).value[0]) == PathLength(Search(b, moves, Queue).value[0])
  {
    var rs, rq := Search(b, moves, Stack), Search(b, moves, Queue);
    if rs.Success? {
      SearchFindsShortest(b, moves, Stack);
      SearchFindsShortest(b, moves, Queue);
      assert multiset(rs.value) == multiset(rq.value);
      SameLengthFirst(rs.value, rq.value);
    }
  }

  /** The completions of a non-empty frontier: those below its first state,
      then those below the rest. */
  lemma {:induction false} CompletionsOfCons(ts: seq<TraceState>, offsets: seq<Offset>)
    requires AllValid(ts) && |ts| > 0
    ensures AllValid(ts[1..]) && Valid(ts[0])
    ensures CompletionsOf(ts, offsets) == Completions(ts[0], offsets) + CompletionsOf(ts[1..], offsets)
  {
    var tail := ts[1..];
    forall k | 0 <= k < |tail| ensures Valid(tail[k]) {
      assert tail[k] == ts[k + 1];
    }
  }

  /** A complete state is its own only completion. */
  lemma {:induction false} CompletionsOfComplete(t: TraceState, offsets: seq<Offset>)
    requires Valid(t) && IsComplete(t)
    ensures Completions(t, offsets) == [t]
  {
  }

  /** A complete state of the frontier is among the completions below it. */
  lemma {:induction false} CompleteIsCompletion(ts: seq<TraceState>, i: nat, offsets: seq<Offset>)
    requires AllValid(ts) && i < |ts| && IsComplete(ts[i])
    ensures ts[i] in CompletionsOf(ts, offsets)
    decreases i
  {
    CompletionsOfCons(ts, offsets);
    var first, later := Completions(ts[0], offsets), CompletionsOf(ts[1..], offsets);
    if i == 0 {
      CompletionsOfComplete(ts[0], offsets);
      InConcat(first, later, ts[0]);
    } else {
      assert ts[1..][i - 1] == ts[i];
      CompleteIsCompletion(ts[1..], i - 1, offsets);
      InConcat(first, later, ts[i]);
    }
  }

  lemma {:induction false} InConcat<T>(a: seq<T>, b: seq<T>, x: T)
    ensures x in a + b <==> x in a || x in b
  {
  }

  /** Whichever end it takes from, the loop finds every complete state of
      the frontier. */
  lemma {:induction false} CompleteIsDiscovered(front: seq<TraceState>, i: nat, offsets: seq<Offset>, d: Discipline)
    requires AllValid(front) && i < |front| && IsComplete(front[i])
    ensures front[i] in Discovered(front, offsets, d)
  {
    CompleteIsCompletion(front, i, offsets);
    DiscoveredAreCompletions(front, offsets, d);
    assert front[i] in multiset(Discovered(front, offsets, d));
  }

  /** A complete state of length 1 in the frontier makes the shortest
      discovered paths exactly those of length 1. */
  lemma {:induction false} UnitCompletionIsShortest(front: seq<TraceState>, i: nat, offsets: seq<Offset>, d: Discipline)
    requires AllValid(front) && i < |front| && IsComplete(front[i]) && PathLength(front[i]) == 1
    ensures |Shortest(Discovered(front, offsets, d))| > 0
    ensures forall k :: 0 <= k < |Shortest(Discovered(front, offsets, d))| ==> PathLength(Shortest(Discovered(front, offsets, d))[k]) == 1
  {
    var found := Discovered(front, offsets, d);
    CompleteIsDiscovered(front, i, offsets, d);
    var j :| 0 <= j < |found| && found[j] == front[i];
    assert forall k :: 0 <= k < |found| ==> Valid(found[k]);
    ShortestHasLength(found, j, 1);
  }

  /** When a seeded state already touches the ending point, the tracer
      reports paths and every one of them has length 1. */
  lemma {:induction false} CompleteSeedIsShortest(b: Board, moves: Moves, d: Discipline, i: nat)
    requires WellFormed(b) && Seeding(b, moves).Success?
    requires i < |Seeding(b, moves).value| && IsComplete(Seeding(b, moves).value[i])
    ensures |Search(b, moves, d).value| > 0
    ensures forall k :: 0 <= k < |Search(b, moves, d).value| ==> PathLength(Search(b, moves, d).value[k]) == 1
  {
    var seeds := Seeding(b, moves).value;
    assert PathLength(seeds[i]) == 1;
    UnitCompletionIsShortest(seeds, i, moves.stepOffsets, d);
    SearchFindsShortest(b, moves, d);
  }
}
