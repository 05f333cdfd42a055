# floodfill in Dafny

A model of the Go package `floodfill`: a flood fill over a lazily loaded
directed graph, with a cap on how many visits run at once. `Floodfill(nodes,
parallelism)` seeds a visit queue with `nodes`. Each enqueued node spawns one
task. The task takes a permit, dequeues a node and marks its ID visited, calls
`Visit` and then `GetNeighbors`, and enqueues the neighbours. When the
outstanding-work counter reaches zero, the call returns nil or an
`ErrFloodfill` listing every failed visit.

The package's test file has a second, smaller part. It parses an ASCII grid
of tiles ('@' start, '.' floor, '#' wall). A `tile` is a `Node` whose `Visit`
turns the tile into 'x' and fails on a second visit. The test prints the grid
back as ASCII and compares it with an expected table.

Files:

- `strs.dfy` (module `Strs`): `strings.Split` and `strings.Join` as functions
  on sequences. They are proved to invert each other.
- `engine.dfy` (module `Engine`): the engine of one `Floodfill` call as a
  state machine on values.
  - The graph is a map from node ID to `NodeSpec`: the outcome of the first
    `Visit`, the outcome of any later `Visit`, and what `GetNeighbors`
    returns.
  - The goroutines are replaced by a sequential scheduler. It runs the
    pending tasks one at a time in spawn (FIFO) order, so the k-th task
    dequeues the k-th queued node.
  - `Step` is one task; `Run` runs tasks until the counter is zero; `Result`
    is the whole call.
- `engine_props.dfy` (module `EngineProps`): what the engine guarantees.
  - Completeness: every node reachable through successful visits is visited.
  - Soundness: only reachable nodes are visited.
  - Nil when no visit fails.
  - An ID that has been dequeued is never enqueued again.
  - With a node that fails on a repeated `Visit`, the result is nil exactly
    when no ID is visited twice.
  - The diamond graph a to {b, c}, b and c to d, whose sink d is visited
    twice, and two seeds that are each other's neighbour, the second of
    which is visited twice.
- `floodfill.dfy` (module `Floodfill`): the `floodfiller` as a class whose
  methods `Enqueue`, `Dequeue` and `VisitNext` update its fields in place.
  - The driver method `Floodfill` is proved to return `Engine.Result`.
  - `FloodfillError` is `ErrFloodfill.Error`.
- `grid.dfy` (module `Grid`): the test's grid.
  - `parseGrid` is the constructor `Grid.Parse`; `toAscii` is `ToAscii`;
    `tile.Visit` is `Visit`.
  - `GetID` and `GetNeighbors` are functions.
  - The specifications of these are `Parsed`, `AsciiOf` and `VisitTile`.
- `grid_fill.dfy` (module `GridFill`): the grid as an engine graph.
  - Running the engine from the '@' tiles fills exactly the tiles connected
    to an '@' through non-wall tiles. That is the check the test table makes
    of its expected output.
- `claim_engine.dfy` (module `ClaimEngine`): the corrected engine, which
  claims a node when it dequeues it. It is the corrected half of the finding
  below.

The engine is generic in the ID type, since the Go code only compares IDs for
equality. The grid uses tile positions as IDs. `PosIdInjective` proves that
the string IDs `"(x,y)"` of distinct positions are distinct.

The package gives `Node.GetID` the job of telling whether a node has already
been visited (floodfill.go:14). The test expects a nil error for every grid
(floodfill_test.go:186-191), while `tile.Visit` fails on a repeated visit
(floodfill_test.go:87-90). Together these require each node to be visited at
most once. The Go code does not ensure that. `enqueue` checks `visited`
before it appends (floodfill.go:104-108), but `visited` is only written by
`dequeue` (floodfill.go:133), and `visitNext` visits every node it dequeues.
The modules `Engine`, `EngineProps`, `Floodfill` and `GridFill` follow the
code, so a node can be visited twice, as in the test's own case "\n@@"
(`GridFill.TwoStartsVisitTwice`). `ClaimEngine` is the corrected engine,
which claims a node when it dequeues it. The one exception in `GridFill` is
`ClaimedGridFill`, which runs the grid on `ClaimEngine`.

## Model

| member | source | states |
|---|---|---|
| Strs.JoinSplit | floodfill_test.go:25 | joining the pieces of `strings.Split(s, c)` with `c` gives back `s` |
| Strs.SplitJoin | floodfill_test.go:25 | splitting the join of a non-empty list of pieces that do not contain `c` gives back the pieces |
| Strs.JoinAppend | floodfill.go:33-39 | joining `xs + [x]` is the join of `xs`, the separator, then `x` |
| Strs.JoinLength | floodfill.go:38 | a join is as long as its pieces plus one separator between each two |
| Engine.Unvisited | floodfill.go:104-108 | the IDs kept by `enqueue` are exactly those not in `visited`, in order; all are kept when none is visited |
| Engine.EnqueuedAll | floodfill.go:79-81 | enqueueing a list appends exactly its unvisited IDs to the queue and raises the counter by their number |
| Engine.Step | floodfill.go:113-121 | one task: the head is dequeued and marked visited, one `Visit` call is logged; a failed `Visit` or `GetNeighbors` appends that `ErrVisit` and enqueues nothing; otherwise the unvisited neighbours are appended in order and no error is recorded |
| Engine.StepKeepsInv | floodfill.go:158-160 | after a task, the counter still equals the queue length, queued and visited IDs are nodes, and visited IDs are exactly the IDs `Visit` was called on |
| Engine.StepDecreases | floodfill.go:138-162 | every task lowers (unvisited IDs, queued entries already visited) lexicographically, so the scheduler terminates |
| Engine.Run | floodfill.go:90 | the wait ends with an empty queue and a zero counter, the invariant kept, and `visited` only grown |
| Engine.InitInv | floodfill.go:79-81 | after seeding, the queue is exactly the seeds and the invariant holds |
| Engine.Finish | floodfill.go:93-97 | the result is nil exactly when no error was collected, otherwise `ErrFloodfill` with the collected errors in order |
| Engine.Result | floodfill.go:67-98 | `Floodfill` panics exactly when parallelism is negative, never returns exactly when parallelism is 0 with a seed, and returns nil for no seeds; with at least one permit it is `Finish` of the scheduler run from the seeded state |
| EngineProps.StepCovered | floodfill.go:158-160 | a node that is visited or queued stays visited or queued after a task |
| EngineProps.StepGoodClosed | floodfill.go:147-161 | after a task, every neighbour of a successfully visited node is still visited or queued |
| EngineProps.RunComplete | floodfill.go:90 | every node visited or queued before the run is visited after it |
| EngineProps.Complete | floodfill.go:62-66 | every ID reachable from the seeds through nodes whose first `Visit` and `GetNeighbors` succeed ends in `visited` |
| EngineProps.Sound | floodfill.go:62-66 | every visited ID is reachable from a seed along reported neighbour lists |
| EngineProps.RunNoErrors | floodfill.go:147-161 | if no reachable node's `Visit` (first or repeated) or `GetNeighbors` fails, the run collects no error |
| EngineProps.FaultlessIsNil | floodfill.go:93-97 | with parallelism at least 1 and no failing reachable node, `Floodfill` returns nil |
| EngineProps.RunCountsRepeats | floodfill.go:148-151 | when only repeated visits fail, every `Visit` call is either a node's first or a recorded error |
| EngineProps.NilIffNoRepeats | floodfill.go:93-97 | when only repeated visits fail, `Floodfill` returns nil exactly when no ID is visited twice (through the helper `CountDistinct`: the visited set is as large as the `Visit` log exactly when the log has no repeat) |
| EngineProps.RunRepeatErrors | floodfill.go:148-151 | when only repeated visits fail, the run collects, in call order, one error per `Visit` call on an ID called before, carrying that node's repeat error |
| EngineProps.StepNoReenqueue | floodfill.go:104-108 | a task never adds a copy of an ID visited after it, not even of the ID it has just dequeued: the new queue holds exactly the copies that were behind the head |
| EngineProps.NeverReenqueued | floodfill.go:133 | along a run, once an ID is visited it stays visited and no step adds a copy of it: each queue holds exactly the copies behind the previous head, so their number never grows |
| EngineProps.DiamondVisitsTwice | floodfill.go:104-108 | the diamond 0 to {1, 2}, 1 and 2 to 3, calls `Visit` on 0, 1, 2, 3, 3 and returns `ErrFloodfill` for the second visit of 3 |
| EngineProps.DiamondOfVisitsTwice | floodfill.go:104-108 | for any four distinct IDs a, b, c, d, the diamond a to {b, c}, b and c to d, calls `Visit` on a, b, c, d, d and returns `ErrFloodfill` for the second visit of d |
| EngineProps.PairVisitsTwice | floodfill.go:104-108 | two seeds that are each other's neighbour: `Visit` is called on a, b, b and `Floodfill` returns `ErrFloodfill` for the second visit of b |
| Floodfill.Floodfiller.constructor | floodfill.go:68-77 | a new floodfiller has an empty queue and visited set, a zero counter and `parallelism` permits |
| Floodfill.Floodfiller.Enqueue | floodfill.go:100-112 | a visited ID changes nothing; any other is appended at the tail and raises the counter by one; `visited` is unchanged |
| Floodfill.Floodfiller.EnqueueAll | floodfill.go:79-81 | enqueueing a list leaves the floodfiller in the state `Engine.EnqueuedAll` gives: its unvisited IDs appended in order, the counter raised by their number |
| Floodfill.Floodfiller.Dequeue | floodfill.go:124-136 | removes exactly the head, keeps the rest in order and adds the head's ID to `visited` |
| Floodfill.Floodfiller.VisitNext | floodfill.go:138-162 | enqueues the neighbours in order only when `Visit` and `GetNeighbors` both succeed, returns the first error otherwise, and gives back its permit |
| Floodfill.Floodfiller.RunTask | floodfill.go:113-121 | one spawned task performs exactly one engine step and keeps the invariant |
| Floodfill.Floodfiller.Wait | floodfill.go:90 | running tasks until the counter is zero leaves the floodfiller in the state `Engine.Run` gives, so the wait ends with an empty queue |
| Floodfill.Floodfill | floodfill.go:67-98 | the driver returns the outcome `Engine.Result` specifies |
| Floodfill.Messages | floodfill.go:49-51 | each `ErrVisit.Error()` is the wrapped error's string |
| Floodfill.FloodfillError | floodfill.go:33-39 | `ErrFloodfill.Error` is the visits' error strings joined with ", ", the only one for one visit |
| Floodfill.ErrorAppend | floodfill.go:33-39 | one more failed visit extends the message by ", " and that visit's error string, keeping the earlier text |
| Grid.NatString | floodfill_test.go:80 | `%d` of a natural number is a non-empty string of digits |
| Grid.NatStringInjective | floodfill_test.go:80 | distinct natural numbers print differently |
| Grid.IntStringInjective | floodfill_test.go:80 | distinct integers print differently |
| Grid.PosIdInjective | floodfill_test.go:79-81 | tiles at distinct coordinates have distinct IDs `"(x,y)"` |
| Grid.Parsed | floodfill_test.go:24-53 | empty lines are skipped; every tile's y is its row index and its x its column; rows are non-empty and hold the line's symbols |
| Grid.StartsExactly | floodfill_test.go:45-47 | `starts` holds exactly the '@' tiles, in row-major order |
| Grid.ParseThenPrint | floodfill_test.go:59-70 | printing the grid parsed from "\n" + non-empty rows joined by "\n" gives that string back |
| Grid.ParseRow | floodfill_test.go:36-48 | the loop over a line builds its tiles and its '@' positions |
| Grid.ParseRows | floodfill_test.go:30-50 | the loop over the lines skips empty ones, gives each kept line the next row index, and builds the tiles of `Parsed` with the '@' tiles in row-major order |
| Grid.Grid.Parse | floodfill_test.go:24-53 | the constructor builds the tiles of `Parsed`, the starts of `StartsOf` and an empty visited set |
| Grid.Grid.ToAscii | floodfill_test.go:59-70 | returns "" then each row's symbols, joined with "\n" |
| Grid.NeighborsExactly | floodfill_test.go:97-112 | on a rectangular grid `GetNeighbors` never indexes out of range and returns exactly the in-bounds non-wall tiles next to the tile, in the order up, down, left, right |
| Grid.Grid.Visit | floodfill_test.go:83-95 | a visited ID fails with "tile (x,y) visited before" and changes nothing; otherwise it records the ID and sets only that tile's symbol to 'x' |
| GridFill.ReplayFills | floodfill_test.go:83-95 | after any sequence of tile visits, exactly the visited tiles read 'x' and exactly their IDs are recorded |
| GridFill.ReplayErrors | floodfill_test.go:87-90 | a tile visit fails exactly when the same tile was visited before in the sequence |
| GridFill.GridEdges | floodfill_test.go:97-112 | in the grid's graph, an edge goes from an in-bounds tile to each orthogonally adjacent non-wall tile |
| GridFill.GridClosed | floodfill_test.go:55-57 | the '@' tiles are nodes of the grid's graph and every neighbour is a node |
| GridFill.WalksArePaths | floodfill_test.go:97-112 | a walk of the engine from the '@' tiles is a path of adjacent non-wall tiles from an '@' tile, and back |
| GridFill.ReachesIsConnected | floodfill_test.go:97-112 | a tile is reachable in the graph exactly when it is connected to an '@' tile through non-wall tiles |
| GridFill.VisitsConnected | floodfill_test.go:184-186 | the run from the '@' tiles visits a tile exactly when it is connected to an '@' tile |
| GridFill.FloodfillFillsGrid | floodfill_test.go:119-198 | after the run, a tile reads 'x' exactly when connected to an '@' tile through non-wall tiles; walls and cut-off floor are unchanged |
| GridFill.GridNilIffNoRepeats | floodfill_test.go:184-191 | on the grid, `Floodfill` returns nil exactly when no tile is visited twice |
| GridFill.GridErrorsReplayed | floodfill_test.go:83-95 | the errors the run collects are, in order, exactly those `tile.Visit` returns on the run's `Visit` calls, each with the tile it was called on |
| GridFill.TwoStartsVisitTwice | floodfill_test.go:126-130 | the test case "\n@@" parses to two '@' tiles; the run calls `Visit` on (0,0), (1,0), (1,0) and `Floodfill` returns the "visited before" error of (1,0), where the test expects nil |
| GridFill.ClaimedGridFill | floodfill_test.go:183-191 | with claim-at-dequeue the grid's run visits every tile once at most, visits every connected tile, and collects no error |
| ClaimEngine.ClaimStep | floodfill.go:124-136 | a task whose node is already visited drops it and marks its work done; any other task is `Step` |
| ClaimEngine.ClaimRun | floodfill.go:90 | the corrected scheduler ends with an empty queue and a zero counter |
| ClaimEngine.VisitsOnce | floodfill.go:104-108 | with claim-at-dequeue, `Visit` is never called twice on one ID |
| ClaimEngine.ClaimComplete | floodfill.go:62-66 | with claim-at-dequeue, every ID reachable through successful visits is still visited |
| ClaimEngine.ClaimRunNoErrors | floodfill.go:147-161 | with claim-at-dequeue, if every first `Visit` and every `GetNeighbors` succeeds, no error is collected |
| ClaimEngine.ClaimDiamondOnce | floodfill.go:104-108 | with claim-at-dequeue, the diamond calls `Visit` on 0, 1, 2, 3 once each and collects no error |
| ClaimEngine.ClaimDiamondOfOnce | floodfill.go:104-108 | with claim-at-dequeue, the diamond on any four distinct IDs calls `Visit` once on each, in the order a, b, c, d, and collects no error |

## Left out

- Goroutines, the `sync.WaitGroup`'s blocking, the mutex and the permit channel's blocking: a sequential scheduler runs the pending tasks one at a time in spawn order. The permit pool is a counter that each task takes from and returns to.
- Other task orders: under real concurrency, tasks may dequeue in any order. Then the node an `ErrVisit` names (the one its task enqueued) may differ from the node the task visited. The model fixes FIFO order, in which the two coincide.
- The `errCh` channel and its collector goroutine: an error is appended to a list by the task that produced it. The race between a late send and `close(errCh)` is a concurrency matter and is not modelled.
- `Floodfill` with parallelism 0 and a seed never returns, and with a negative parallelism `make` panics. Both are modelled only as the outcomes `Hangs` and `Panics`.
- Real `Node` side effects (lazy loading, I/O): a node is a fixed description of its first and later `Visit` outcomes and its neighbour list.
- `GetNeighbors` on a non-rectangular grid can index out of range. The model returns `IndexPanic` there and proves it never happens on rectangular grids; what Go does after that panic is not modelled.
- GridFill.GridGraph: neighbour lists are computed on the grid as parsed, not as filled so far. Filling only turns non-wall tiles into 'x', so the wall test of `GetNeighbors` gives the same answer either way.
- Grids are ASCII: each symbol is one `char`, so Go's rune/byte distinction and the `byte(t.symbol)` cast are not modelled.
- `fmt.Sprintf` is modelled only for the `"(%d,%d)"` and `"tile %s visited before"` formats used by the tiles. `fmt.Errorf` is modelled as the same string.
- `testing.T` reporting and the test's loop over its table are not modelled. The table's expectations are covered by `GridFill.FloodfillFillsGrid` and `GridFill.GridNilIffNoRepeats` for every grid, not row by row.
- `startingNodes` is the field `starts` itself.
- The grid's `visitLock` is not modelled, since only one task runs at a time.

## Findings

| source | as written | input that shows it | evidently intended | confidence | as-written member | corrected member |
|---|---|---|---|---|---|---|
| floodfill.go:104-108, 133 | `enqueue` checks `visited` before appending, but an ID enters `visited` only when dequeued, and `visitNext` visits whatever it dequeues, so two discoverers of a still-queued node both enqueue it and it is visited twice, even with one task at a time | seeds [0]; 0 has neighbours 1 and 2; 1 and 2 each have neighbour 3; `Visit` fails on a repeated call, as `tile.Visit` does: `Visit` is called on 0, 1, 2, 3, 3 and `Floodfill` returns `ErrFloodfill`; the test's own case "\n@@" does the same to its right tile | the test table expects a nil error for every grid (floodfill_test.go:186-191) although `tile.Visit` fails on a repeat (floodfill_test.go:87-90), so each node should be visited once; the proposed correction claims a node when it is dequeued, and a task whose node is already claimed does nothing | not executed | EngineProps.DiamondVisitsTwice | ClaimEngine.VisitsOnce |
