/**
  The flood-fill worklist engine of one `Floodfill` call, as a sequential
  state machine on values.

  The goroutines of the Go code are replaced by a scheduler that runs one
  pending task at a time, in the order the tasks were spawned. Every
  enqueue spawns exactly one task and every task dequeues exactly one node,
  so under this order the k-th task dequeues the k-th queued node.

  The graph is abstract: a map from node ID to how the node behaves when it
  is visited and asked for its neighbours. The engine compares IDs only for
  equality, so the ID type is a type parameter.
 */
module Engine {

  datatype Option<T> = None | Some(value: T)

  /** What `GetNeighbors` returns: the neighbour list, or an error. */
  datatype Neighbors<Id> = Found(ids: seq<Id>) | Failed(msg: string)

  /** How one node behaves. `visit` is the error (or nil) of the first
      `Visit` call on the node, `revisit` that of every later call (a node
      may remember that it was visited); `neighbors` is what `GetNeighbors`
      returns. */
  datatype NodeSpec<Id> = NodeSpec(visit: Option<string>, revisit: Option<string>, neighbors: Neighbors<Id>)

  type Graph<Id> = map<Id, NodeSpec<Id>>

  /** A failed visit: the node and the error of its `Visit` or `GetNeighbors`. */
  datatype ErrVisit<Id> = ErrVisit(node: Id, err: string)
  {
    /** `ErrVisit.Error`: the error string of the wrapped error. */
    function Error(): string { err }
  }

  /** What a `Floodfill` call returns (`Nil` or an `ErrFloodfill`), or that
      it never returns normally. */
  datatype Outcome<Id> = Nil | ErrFloodfill(visits: seq<ErrVisit<Id>>) | Panics | Hangs

  /** The engine's state between two scheduler steps: the visit queue, the
      set of visited IDs, the outstanding-work counter of the wait group,
      the collected errors, and the `Visit` calls made so far, in order. */
  datatype State<Id> = State(queue: seq<Id>, visited: set<Id>, pending: nat, errs: seq<ErrVisit<Id>>, calls: seq<Id>)

  /** Every neighbour a node can report is itself a node of the graph. */
  ghost predicate Closed<Id(!new)>(g: Graph<Id>)
  {
    forall v, w :: v in g && g[v].neighbors.Found? && w in g[v].neighbors.ids ==> w in g
  }

  /** Invariant between steps: the counter equals the queue length, queued
      and visited IDs are nodes, and an ID is visited exactly when `Visit`
      was called on it. */
  ghost predicate Inv<Id(!new)>(g: Graph<Id>, s: State<Id>)
  {
    && Closed(g)
    && s.pending == |s.queue|
    && (forall i :: 0 <= i < |s.queue| ==> s.queue[i] in g)
    && s.visited <= g.Keys
    && (forall x :: x in s.visited <==> x in s.calls)
  }

  /** The IDs of `ids` not in `visited`, in order. */
  function Unvisited<Id(!new)>(ids: seq<Id>, visited: set<Id>): (r: seq<Id>)
    ensures forall x :: x in r <==> x in ids && x !in visited
    ensures (forall i :: 0 <= i < |ids| ==> ids[i] !in visited) ==> r == ids
  {
    if ids == [] then []
    else
      var init := ids[..|ids| - 1];
      var last := ids[|ids| - 1];
      assert ids == init + [last];
      Unvisited(init, visited) + (if last in visited then [] else [last])
  }

  /** `enqueue`: a visited ID is dropped; any other is appended and adds one
      unit of outstanding work. */
  function Enqueued<Id(!new)>(s: State<Id>, id: Id): State<Id>
  {
    if id in s.visited then s
    else s.(queue := s.queue + [id], pending := s.pending + 1)
  }

  /** `enqueue` of each of `ids`, in order. */
  function EnqueuedAll<Id(!new)>(s: State<Id>, ids: seq<Id>): (r: State<Id>)
    ensures r == s.(queue := s.queue + Unvisited(ids, s.visited),
                    pending := s.pending + |Unvisited(ids, s.visited)|)
  {
    if ids == [] then s
    else Enqueued(EnqueuedAll(s, ids[..|ids| - 1]), ids[|ids| - 1])
  }

  /** The state after seeding the queue with `seeds`. */
  function Init<Id(!new)>(seeds: seq<Id>): State<Id>
  {
    EnqueuedAll(State([], {}, 0, [], []), seeds)
  }

  /** `visitNext`: dequeue the head and mark it visited, call `Visit`, then
      `GetNeighbors`, enqueue the neighbours if both succeeded, and finally
      mark one unit of work done. The second component is the error
      `visitNext` returns. */
  function AfterVisitNext<Id(!new)>(g: Graph<Id>, s: State<Id>): (r: (State<Id>, Option<string>))
    requires s.queue != [] && s.queue[0] in g && s.pending > 0
    ensures r.0.visited == s.visited + {s.queue[0]} && r.0.calls == s.calls + [s.queue[0]] && r.0.errs == s.errs
    ensures
      var id := s.queue[0];
      var n := g[id];
      var outcome := if id in s.calls then n.revisit else n.visit;
      && (outcome.Some? ==>
            r.0.queue == s.queue[1..] && r.0.pending == s.pending - 1 && r.1 == outcome)
      && (outcome.None? && n.neighbors.Failed? ==>
            r.0.queue == s.queue[1..] && r.0.pending == s.pending - 1 && r.1 == Some(n.neighbors.msg))
      && (outcome.None? && n.neighbors.Found? ==>
            var added := Unvisited(n.neighbors.ids, s.visited + {id});
            r.0.queue == s.queue[1..] + added && r.0.pending == s.pending - 1 + |added| && r.1 == None)
  {
    var id := s.queue[0];
    var n := g[id];
    var outcome := if id in s.calls then n.revisit else n.visit;
    var s1 := s.(queue := s.queue[1..], visited := s.visited + {id}, calls := s.calls + [id]);
    if outcome.Some? then (s1.(pending := s1.pending - 1), outcome)
    else match n.neighbors
      case Failed(msg) => (s1.(pending := s1.pending - 1), Some(msg))
      case Found(ids) =>
        var s2 := EnqueuedAll(s1, ids);
        (s2.(pending := s2.pending - 1), None)
  }

  /** One scheduler step: run the task of the queue's head node, which calls
      `visitNext` and records an `ErrVisit` for that node if it failed. */
  function Step<Id(!new)>(g: Graph<Id>, s: State<Id>): (r: State<Id>)
    requires Inv(g, s) && s.queue != []
    ensures r.visited == s.visited + {s.queue[0]}
    ensures r.calls == s.calls + [s.queue[0]]
    ensures |r.queue| >= |s.queue| - 1 && r.queue[..|s.queue| - 1] == s.queue[1..]
    ensures
      var id := s.queue[0];
      var n := g[id];
      var outcome := if id in s.visited then n.revisit else n.visit;
      && (outcome.Some? ==>
            r.queue == s.queue[1..] && r.errs == s.errs + [ErrVisit(id, outcome.value)])
      && (outcome.None? && n.neighbors.Failed? ==>
            r.queue == s.queue[1..] && r.errs == s.errs + [ErrVisit(id, n.neighbors.msg)])
      && (outcome.None? && n.neighbors.Found? ==>
            r.queue == s.queue[1..] + Unvisited(n.neighbors.ids, r.visited) && r.errs == s.errs)
  {
    var (s', err) := AfterVisitNext(g, s);
    if err.Some? then s'.(errs := s'.errs + [ErrVisit(s.queue[0], err.value)]) else s'
  }

  /** A step keeps the invariant; in particular the counter still equals the
      queue length, because neighbours are enqueued before the step's own
      unit of work is marked done. */
  lemma StepKeepsInv<Id(!new)>(g: Graph<Id>, s: State<Id>)
    requires Inv(g, s) && s.queue != []
    ensures Inv(g, Step(g, s))
  {
    var r := Step(g, s);
    var id := s.queue[0];
    var n := g[id];
    var outcome := if id in s.visited then n.revisit else n.visit;
    if outcome.None? && n.neighbors.Found? {
      var added := Unvisited(n.neighbors.ids, r.visited);
      assert r.queue == s.queue[1..] + added;
      forall i | 0 <= i < |r.queue| ensures r.queue[i] in g {
        if i >= |s.queue| - 1 {
          assert r.queue[i] == added[i - (|s.queue| - 1)];
          assert r.queue[i] in added;
        } else {
          assert r.queue[i] == s.queue[i + 1];
        }
      }
    }
  }

  /** Number of entries of `q` whose ID is in `visited`. */
  function Stale<Id(!new)>(q: seq<Id>, visited: set<Id>): nat
  {
    if q == [] then 0 else (if q[0] in visited then 1 else 0) + Stale(q[1..], visited)
  }

  lemma {:induction false} StaleAppend<Id(!new)>(a: seq<Id>, b: seq<Id>, visited: set<Id>)
    ensures Stale(a + b, visited) == Stale(a, visited) + Stale(b, visited)
  {
    if a == [] {
      assert a + b == b;
    } else {
      assert (a + b)[1..] == a[1..] + b;
      StaleAppend(a[1..], b, visited);
    }
  }

  lemma {:induction false} StaleNone<Id(!new)>(a: seq<Id>, visited: set<Id>)
    requires forall x :: x in a ==> x !in visited
    ensures Stale(a, visited) == 0
  {
    if a != [] {
      StaleNone(a[1..], visited);
    }
  }

  /** Termination measure: a step either visits a new ID or removes an entry
      whose ID was already visited (and then adds only unvisited entries). */
  lemma StepDecreases<Id(!new)>(g: Graph<Id>, s: State<Id>)
    requires Inv(g, s) && s.queue != []
    ensures
      var r := Step(g, s);
      || |g.Keys - r.visited| < |g.Keys - s.visited|
      || (|g.Keys - r.visited| == |g.Keys - s.visited| && Stale(r.queue, r.visited) < Stale(s.queue, s.visited))
  {
    if s.queue[0] !in s.visited {
      FreshStepDecreases(g, s);
    } else {
      StaleStepDecreases(g, s);
    }
  }

  lemma FreshStepDecreases<Id(!new)>(g: Graph<Id>, s: State<Id>)
    requires Inv(g, s) && s.queue != [] && s.queue[0] !in s.visited
    ensures |g.Keys - Step(g, s).visited| < |g.Keys - s.visited|
  {
    var r := Step(g, s);
    var id := s.queue[0];
    assert g.Keys - s.visited == (g.Keys - r.visited) + {id};
    assert id !in g.Keys - r.visited;
  }

  lemma StaleStepDecreases<Id(!new)>(g: Graph<Id>, s: State<Id>)
    requires Inv(g, s) && s.queue != [] && s.queue[0] in s.visited
    ensures Step(g, s).visited == s.visited
    ensures Stale(Step(g, s).queue, s.visited) < Stale(s.queue, s.visited)
  {
    var r := Step(g, s);
    var n := g[s.queue[0]];
    assert r.visited == s.visited;
    var added := if n.revisit.None? && n.neighbors.Found? then Unvisited(n.neighbors.ids, s.visited) else [];
    assert r.queue == s.queue[1..] + added;
    StaleNone(added, s.visited);
    StaleAppend(s.queue[1..], added, s.visited);
    assert Stale(s.queue, s.visited) == 1 + Stale(s.queue[1..], s.visited);
  }

  /** The scheduler: run steps until the outstanding-work counter is zero.
      It terminates on every (finite) graph, with an empty queue. */
  function Run<Id(!new)>(g: Graph<Id>, s: State<Id>): (r: State<Id>)
    requires Inv(g, s)
    ensures Inv(g, r) && r.queue == [] && r.pending == 0
    ensures s.visited <= r.visited
    decreases |g.Keys - s.visited|, Stale(s.queue, s.visited)
  {
    if s.pending == 0 then s
    else
      StepKeepsInv(g, s);
      StepDecreases(g, s);
      Run(g, Step(g, s))
  }

  /** The seeded state satisfies the invariant and queues every seed. */
  lemma InitInv<Id(!new)>(g: Graph<Id>, seeds: seq<Id>)
    requires Closed(g) && forall i :: 0 <= i < |seeds| ==> seeds[i] in g
    ensures Inv(g, Init(seeds)) && Init(seeds).queue == seeds
  {
  }

  /** The result built once the counter reaches zero. */
  function Finish<Id(!new)>(s: State<Id>): (r: Outcome<Id>)
    ensures r == Nil <==> s.errs == []
    ensures r != Nil ==> r == ErrFloodfill(s.errs)
  {
    if |s.errs| > 0 then ErrFloodfill(s.errs) else Nil
  }

  /** `Floodfill(seeds, parallelism)`: a negative parallelism makes the
      permit channel's creation panic; zero permits with a seed leave every
      task blocked, so the wait never ends; otherwise the seeds are enqueued,
      the scheduler runs to completion and the result is built. */
  function Result<Id(!new)>(g: Graph<Id>, seeds: seq<Id>, parallelism: int): (r: Outcome<Id>)
    requires Closed(g) && forall i :: 0 <= i < |seeds| ==> seeds[i] in g
    ensures r == Panics <==> parallelism < 0
    ensures r == Hangs <==> parallelism == 0 && |seeds| > 0
    ensures seeds == [] && parallelism >= 0 ==> r == Nil
    ensures parallelism >= 1 ==> (InitInv(g, seeds); r == Finish(Run(g, Init(seeds))))
  {
    if parallelism < 0 then Panics
    else
      InitInv(g, seeds);
      var s := Init(seeds);
      if parallelism == 0 && s.pending > 0 then Hangs
      else Finish(Run(g, s))
  }
}
