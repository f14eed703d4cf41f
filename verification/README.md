# Circuit tracer

A model of a small Java program that connects two components on a circuit
board by the shortest trace. The board is a grid of characters: `O` is an
open cell, `X` an occupied cell, `1` and `2` are the two components, and `T`
marks a cell of a trace. The program reads the board from a whitespace-token
file (`CircuitBoard`). It then searches for every shortest trace from `1` to
`2` (`CircuitTracer`), with either a stack or a queue as the frontier of
partial traces, and keeps the shortest complete ones in a best-path list.

Modules, one per file:

- `Results` (`results.dfy`): `Option` and `Result`. They stand in for
  Java's null references and exceptions.
- `Arithmetic` (`arithmetic.dfy`): powers, used by the termination measure
  of the search.
- `CircuitBoard` (`circuit_board.dfy`): the board as a value, with its
  queries and its single update.
  - `charAt`, `isOpen`, `makeTrace`, the copy constructor, the terminal
    getters and `toString` are modelled.
  - `numRows` and `numCols` are the fields `rows` and `cols`.
- `BoardParser` (`board_parser.dfy`): the file-reading constructor, over the
  token stream that follows the two dimensions.
- `Traces` (`traces.dfy`): a partial trace. This is the board with the
  trace drawn on it, plus the cells of the trace in order.
- `Collector` (`collector.dfy`): the best-path list, plus a reference
  definition of "the shortest members".
- `PathSearch` (`search.dfy`): seeding, the search loop and the whole tracer.
  - The stack and queue variants are one definition, parametrised by a
    `Discipline`.
  - The neighbour orders are parameters too (`Moves`).
- `Tracer` (`tracer.dfy`): the neighbour orders.
  - `AsWritten` is the order the Java code actually tries.
  - `Intended` is the corrected order.
  - The module proves that the guarded Java neighbour tests are exactly the
    model's candidate lists, and holds both halves of the two findings below.

Where the prose documentation and the code disagree, the model follows the
code:

- `T` is accepted in an input file: the allowed characters are `OXT12`.
- A board without a `1` or a `2` parses successfully. The failure only
  comes later, when the missing point is copied. The model reports it as
  `MissingTerminal`.
- `makeTrace` on a cell outside the board does not raise the
  occupied-position error. It fails on the array index while building that
  error's message (`IndexOutOfBounds`).

## Model

| member | source | states |
|---|---|---|
| CircuitBoard.CharAt | CircuitBoard.java:156-158 | A cell inside the grid yields its character. Any other position fails with an index error at that position. |
| CircuitBoard.IsOpen | CircuitBoard.java:165-170 | True exactly for in-grid cells holding `O`. It never fails, and it is false everywhere off the board. |
| CircuitBoard.MakeTrace | CircuitBoard.java:177-183 | Succeeds exactly on open cells. The result differs from the board only by a `T` at that cell, has one open cell fewer, and stays well formed. Otherwise it fails with an occupied-position error inside the grid, or an index error outside it. |
| CircuitBoard.GridCopy | CircuitBoard.java:141-149 | The array copy taken with the dimensions of row 0 is equal to the original grid. |
| CircuitBoard.Copy | CircuitBoard.java:131-137 | The copy equals the original exactly when both terminals are set. An empty grid fails first, on row 0. Otherwise a missing terminal fails. |
| CircuitBoard.StartingPoint | CircuitBoard.java:186-188 | Succeeds exactly when some cell reads `1`, and then returns such a cell. Otherwise it reports the missing terminal. |
| CircuitBoard.EndingPoint | CircuitBoard.java:191-193 | The same as StartingPoint, for `2`. |
| CircuitBoard.ToStringLayout | CircuitBoard.java:208-217 | The text is ROWS*(2*COLS+1) characters long. Cell (r,c) sits at offset r*(2*COLS+1)+2c and is followed by a space. Each row ends with a newline. |
| BoardParser.Parse | CircuitBoard.java:49-125 | A board built from ROWS, COLS and the tokens is well formed, has those dimensions, and its grid read row by row is the first characters of the tokens. |
| BoardParser.ScanRecordsTerminals | CircuitBoard.java:92-113 | The recorded start (end) index is the one token marked `1` (`2`), and no other token before the stop point carries that mark. |
| BoardParser.ParseSucceedsIff | CircuitBoard.java:54-122 | Parsing succeeds if and only if both dimensions are non-negative, there are exactly ROWS*COLS tokens, each starts with an allowed character, and neither `1` nor `2` appears twice. |
| BoardParser.ParseCountMismatch | CircuitBoard.java:63-122 | When the tokens the loops read are valid, too few tokens fail with the too-few error and too many with the trailing-token error. Nothing is assumed about the tokens past ROWS*COLS, which are only detected and never read. |
| BoardParser.ParseReportsFirstFault | CircuitBoard.java:72-113 | When every earlier token was valid, the first bad token decides the error: a disallowed or empty first character, or a second `1` or `2`. |
| BoardParser.ParseTokensRoundTrip | CircuitBoard.java:49-125 | Parsing the tokens of any well-formed board with allowed cells rebuilds exactly that board, terminals included. |
| Traces.Seed | CircuitTracer.java:118-127 | Seeding succeeds exactly when both terminals are set and the cell is open. The state is then valid, its path is that one cell, and its board is the original with only that cell marked. A missing terminal fails on the copy. A cell that is not open fails with the error `makeTrace` gives. |
| Traces.Extend | CircuitTracer.java:203-211 | Extending succeeds exactly on an open cell. It appends that cell to the path and marks it on the board alone. It keeps open cells plus path length constant, and fails as `makeTrace` does. |
| Collector.Record | CircuitTracer.java:176-193 | Recording keeps the list uniform in length. The new length is the lesser of the old one and the candidate's. The candidate is kept, or the list is unchanged. |
| Collector.Collect | CircuitTracer.java:176-193 | The list after recording a sequence of completions is uniform, and empty exactly when no completion was recorded. |
| Collector.CollectIsShortest | CircuitTracer.java:171-193 | Recording completions one at a time leaves exactly the shortest of them, in arrival order. |
| Collector.ShortestOfPermutation | CircuitTracer.java:320-337 | The shortest members, as a collection, do not depend on the order the completions arrive in. |
| PathSearch.Candidates | CircuitTracer.java:201-241 | The cells tried around a head are at most one per offset, and every one of them is open. |
| PathSearch.CandidatesMembers | CircuitTracer.java:201-241 | A cell is a candidate if and only if it is open and is the head moved by one of the offsets. |
| PathSearch.SeedAll | CircuitTracer.java:117-162 | When every seed cell is open, seeding succeeds exactly when there is nothing to seed or both terminals are set. It then gives one valid state per cell, in order. Each state's path is its cell, on the original board with that cell marked. |
| PathSearch.Seeding | CircuitTracer.java:114-162 | Fails with the missing-terminal error exactly when the start is missing, or when the end is missing and there is something to seed. Otherwise it gives one valid seed per open neighbour of the origin. |
| PathSearch.Rest | CircuitTracer.java:169 | The stack takes the newest state (`pop`), the queue the oldest (`poll`, line 313). The rest of the frontier keeps its order. |
| PathSearch.Children | CircuitTracer.java:195-242 | Expanding a valid state gives one valid child per candidate cell, in candidate order. Each child extends the path by that cell. Its snapshot is the parent's with only that cell marked, so it has one open cell fewer. |
| PathSearch.AdvanceKeepsShape | CircuitTracer.java:108-109 | Every state the loop puts on the frontier has the rows, columns and terminals of the board the search started from. These are the `row` and `col` the Java edge tests read. |
| PathSearch.AdvanceDecreases | CircuitTracer.java:166-244 | One loop iteration strictly lowers a well-founded measure of the frontier, so the loop ends. |
| PathSearch.Discovered | CircuitTracer.java:166-244 | The states the loop finds complete are all valid and complete. |
| PathSearch.Drain | CircuitTracer.java:166-244 | Running the loop from a uniform best-path list leaves a uniform list. |
| PathSearch.DrainCollects | CircuitTracer.java:166-244 | The loop's best-path list is the collector applied to the completions in the order the loop finds them. |
| PathSearch.CompletionsOfSplit | CircuitTracer.java:166-244 | The completions below a frontier are those below the state taken, plus those below the rest, as a multiset, for either discipline. |
| PathSearch.DiscoveredAreCompletions | CircuitTracer.java:166-244 | The loop finds exactly the completions of the extension trees below the frontier, each once (equal multisets). |
| PathSearch.Search | CircuitTracer.java:102-244 | The tracer fails with the missing-terminal error exactly when seeding fails. Otherwise every returned state is valid, complete and of one common length. |
| PathSearch.SearchFindsShortest | CircuitTracer.java:102-244 | The result is exactly the shortest completions in discovery order. As a multiset, it is the shortest completions of the trees below the seeds. |
| PathSearch.DisciplineIndependent | CircuitTracer.java:255-387 | The queue tracer and the stack tracer both fail or both succeed. They return the same best paths up to order, so they report the same shortest length. |
| PathSearch.CompleteSeedIsShortest | CircuitTracer.java:171-193 | A seed already adjacent to the end makes the result non-empty, and every returned path then has length one. |
| Tracer.EdgeGuards | CircuitTracer.java:117-162 | Each edge test before an `isOpen` call changes nothing, because `isOpen` is already false off the board. |
| Tracer.WrittenSeedingMatches | CircuitTracer.java:114-162 | The four guarded seeding tests, as written, are exactly the candidates of `AsWritten` around the start point read with row and column exchanged. |
| Tracer.WrittenExpansionMatches | CircuitTracer.java:195-241 | On any snapshot of the original board's shape, the four guarded expansion tests as written are exactly the candidates of `AsWritten` around the head. The edge tests read the original's `row` and `col`; `isOpen` reads the snapshot. |
| Tracer.WrittenExpansionSkipsUp | CircuitTracer.java:203-231 | As written, expansion never tries the cell above the head. An open cell to its left is tried twice. |
| Tracer.IntendedExpansionIsNeighbours | CircuitTracer.java:201-241 | With the intended order, the candidates are exactly the open orthogonal neighbours of the head. |
| Tracer.IntendedExpansionOnce | CircuitTracer.java:201-241 | With the intended order, no neighbour is tried twice. |
| Tracer.WrittenSeedingIsTransposed | CircuitTracer.java:114-162 | As written, the seeds are the open neighbours of the transposed start (col, row), not of the start. |
| Tracer.IntendedSeedingIsNeighbours | CircuitTracer.java:114-162 | With the intended reading, the seeds are exactly the open orthogonal neighbours of the start. |
| Tracer.WrittenSeedsOnOneRow | CircuitTracer.java:117-162 | On a one-row board whose first cell is not open, the seeding tests as written for the start (0,1) find nothing. They look around (1,0), and three of those four cells lie off the board. |
| Tracer.TransposedSeedingLosesPath | CircuitTracer.java:114-162 | On the board `X 1 O 2`, the tracer as written returns no path at all, with either discipline. |
| Tracer.IntendedSeedingFindsPath | CircuitTracer.java:114-162 | On the same board, the intended seeding returns at least one path, and every returned path has length one. |

## Left out

- Command-line handling, the usage message and the choice between console
  and GUI output (`main`, `printUsage`) are not modelled. They are I/O. The
  search takes the discipline as a parameter.
- Reading the file is not modelled: `File`, `Scanner`, `Integer.parseInt`
  and `FileNotFoundException`. The parser takes the two dimensions as
  integers and the remaining tokens as a sequence of strings.
- A malformed dimension is a `NumberFormatException` in Java. It is outside
  the model because dimensions arrive already parsed.
- An empty token cannot come from `Scanner`. The model gives it an error of
  its own (`EmptyToken`), so that parsing is total.
- Printing the best paths is not modelled. The model returns the list. In
  stack mode the Java code prints the list twice, inside the stack branch
  (CircuitTracer.java:248-251) and again after the if/else (389-392).
- The uncaught exceptions are modelled as `Failure` values. This covers an
  invalid file format, a null point when a terminal is missing, and a bad
  array index. The Java program only catches `FileNotFoundException`, so
  any of these ends the run.
- The Java class `TraceState` is not among the files this model is built
  from. The `Traces` module models it from how the tracer uses it, as a
  board snapshot plus the path:
  - the constructor copies the board and marks the first cell;
  - the extending constructor copies, marks and appends;
  - `isComplete` means the last cell is orthogonally adjacent to the ending
    point;
  - `pathLength` is the number of cells.
- The expansion step reuses the start `Point` object as scratch storage
  (`lastPoint = starting`). This overwrites `starting` after seeding is
  done. No later code reads it, so the model leaves the aliasing out.
- Java `int` is 32 bits wide, but the model's integers are unbounded. Board
  dimensions and path lengths stay far below the limit for any board that
  fits in memory.
- Each seeding test and each expansion test constructs its `TraceState`
  twice. It discards the first one and pushes or enqueues a second, equal
  one. The exception is the queue's first seeding test
  (CircuitTracer.java:266-268): it constructs once and enqueues that state.
  Construction only copies and marks, so the model constructs once
  everywhere.
- The GUI is not modelled.

## Findings

| source | as written | input that shows it | evidently intended | confidence | as-written member | corrected member |
|---|---|---|---|---|---|---|
| CircuitTracer.java:203-231 | The expansion block commented "checking above" tests the cell to the left (column x-1), as does the later "check to the left" block. The cell above the head is never tried, and an open left neighbour is pushed twice. The queue variant repeats this at lines 347-375. | Any head whose only open neighbour is above it. The trace can never turn upward. | Try the cells above, below, left and right of the head, each once. | not executed | Tracer.WrittenExpansionSkipsUp | Tracer.IntendedExpansionIsNeighbours |
| CircuitTracer.java:114-162 | Seeding tests `isOpen(starting.y ± 1, starting.x)` and `isOpen(starting.y, starting.x ± 1)`. The point holds the row in `x` and the column in `y`, so the seeds surround the transposed start (col, row). The queue variant repeats this at lines 257-306. | The 1x4 board `X 1 O 2`: the start is (0,1) and the only open cell (0,2) lies next to both terminals. | Seed the open neighbours of the start itself. | not executed | Tracer.TransposedSeedingLosesPath | Tracer.IntendedSeedingFindsPath |

