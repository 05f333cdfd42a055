/**
  The `floodfiller` of floodfill.go as a class whose methods update its
  fields in place, driven by the sequential scheduler of module Engine, and
  the `Floodfill` entry point and the two `Error()` methods.

  The fields mirror the Go struct: `visitQueue` and `visited`; `pending` is
  the wait group's counter, `permits` the number of tokens in the permit
  channel and `errs` what the error collector has gathered. `visitLog` is
  the sequence of `Visit` calls made so far: the only state a node's
  `Visit` outcome may depend on.
 */
module Floodfill {
  import opened Engine
  import Strs

  class Floodfiller<Id(==, !new)> {
    const graph: Graph<Id>
    const parallelism: nat
    var visitQueue: seq<Id>
    var visited: set<Id>
    var pending: nat
    var permits: nat
    var errs: seq<ErrVisit<Id>>
    var visitLog: seq<Id>

    /** The engine state the fields stand for. */
    ghost function Abs(): State<Id>
      reads this
    {
      State(visitQueue, visited, pending, errs, visitLog)
    }

    /** Between scheduler steps: the engine invariant holds and every permit
        is back in the pool. */
    ghost predicate Valid()
      reads this
    {
      Inv(graph, Abs()) && permits == parallelism
    }

    /** `Floodfill`'s set-up: an empty queue and visited set, and the permit
        channel filled with `parallelism` permits one at a time. */
    constructor (g: Graph<Id>, parallelism: nat)
      requires Closed(g)
      ensures Valid()
      ensures graph == g && this.parallelism == parallelism
      ensures Abs() == State([], {}, 0, [], [])
    {
      graph := g;
      this.parallelism := parallelism;
      visitQueue := [];
      visited := {};
      pending := 0;
      errs := [];
      visitLog := [];
      permits := 0;
      new;
      var i := 0;
      while i < parallelism
        invariant 0 <= i <= parallelism && permits == i
        invariant Abs() == State([], {}, 0, [], [])
      {
        permits := permits + 1;
        i := i + 1;
      }
    }

    /** `enqueue`: a node whose ID is already visited is dropped and nothing
        changes; otherwise it is appended at the tail and one unit of work is
        added. The visited set never changes here. */
    method Enqueue(node: Id)
      modifies this
      ensures node in old(visited) ==> Abs() == old(Abs())
      ensures node !in old(visited) ==>
        visitQueue == old(visitQueue) + [node] && pending == old(pending) + 1
      ensures visited == old(visited) && errs == old(errs) && visitLog == old(visitLog)
      ensures permits == old(permits)
      ensures Abs() == Enqueued(old(Abs()), node)
    {
      if node in visited {
        return;
      }
      visitQueue := visitQueue + [node];
      pending := pending + 1;
    }

    /** `enqueue` of each of `nodes`, in order, as `Floodfill` does with
        the seeds and `visitNext` with the neighbours. */
    method EnqueueAll(nodes: seq<Id>)
      modifies this
      ensures Abs() == EnqueuedAll(old(Abs()), nodes)
      ensures permits == old(permits)
    {
      ghost var s0 := Abs();
      for i := 0 to |nodes|
        invariant Abs() == EnqueuedAll(s0, nodes[..i])
        invariant permits == old(permits)
      {
        assert nodes[..i + 1][..i] == nodes[..i];
        Enqueue(nodes[i]);
      }
      assert nodes[..|nodes|] == nodes;
    }

    /** `dequeue`: removes exactly the head, keeps the rest in order, and
        marks the head's ID visited. */
    method Dequeue() returns (node: Id)
      requires visitQueue != []
      modifies this
      ensures node == old(visitQueue[0]) && visitQueue == old(visitQueue[1..])
      ensures visited == old(visited) + {node}
      ensures pending == old(pending) && permits == old(permits)
      ensures errs == old(errs) && visitLog == old(visitLog)
    {
      node := visitQueue[0];
      visitQueue := visitQueue[1..];
      visited := visited + {node};
    }

    /** `visitNext`: take a permit, dequeue, `Visit`, `GetNeighbors`, enqueue
        the neighbours only if both succeeded; then (the deferred calls)
        return the permit and mark this task's unit of work done. */
    method VisitNext() returns (err: Option<string>)
      requires visitQueue != [] && visitQueue[0] in graph && pending > 0 && permits > 0
      modifies this
      ensures permits == old(permits)
      ensures Abs() == AfterVisitNext(graph, old(Abs())).0
      ensures err == AfterVisitNext(graph, old(Abs())).1
    {
      ghost var s := Abs();
      permits := permits - 1;
      var node := Dequeue();
      var n := graph[node];
      var outcome := if node in visitLog then n.revisit else n.visit;
      visitLog := visitLog + [node];
      ghost var s1 := Abs();
      assert s1 == s.(queue := s.queue[1..], visited := s.visited + {node}, calls := s.calls + [node]);
      if outcome.Some? {
        err := outcome;
      } else {
        match n.neighbors
        case Failed(msg) =>
          err := Some(msg);
        case Found(ids) =>
          EnqueueAll(ids);
          err := None;
      }
      permits := permits + 1;
      pending := pending - 1;
    }

    /** The task spawned by `enqueue`: run `visitNext` and, if it failed,
        hand an `ErrVisit` for the task's node to the collector. Tasks run
        in spawn order, so that node is the head of the queue. */
    method RunTask()
      requires Valid() && visitQueue != [] && permits > 0
      modifies this
      ensures Valid()
      ensures Abs() == Step(graph, old(Abs()))
    {
      var node := visitQueue[0];
      StepKeepsInv(graph, Abs());
      var err := VisitNext();
      if err.Some? {
        errs := errs + [ErrVisit(node, err.value)];
      }
    }

    /** `wg.Wait()` under the sequential scheduler: the pending tasks, and
        the tasks they spawn, run one at a time until none is left. */
    method Wait()
      requires Valid() && (pending > 0 ==> parallelism > 0)
      modifies this
      ensures Valid()
      ensures Abs() == Run(graph, old(Abs()))
    {
      ghost var s0 := Abs();
      while pending > 0
        invariant Valid() && (pending > 0 ==> parallelism > 0)
        invariant Run(graph, Abs()) == Run(graph, s0)
        decreases |graph.Keys - visited|, Stale(visitQueue, visited)
      {
        ghost var before := Abs();
        StepDecreases(graph, before);
        RunTask();
        assert Run(graph, before) == Run(graph, Abs());
      }
    }
  }

  /** `Floodfill(nodes, parallelism)` with the sequential scheduler: its
      result is the one `Result` specifies. */
  method Floodfill<Id(==, !new)>(g: Graph<Id>, nodes: seq<Id>, parallelism: int) returns (r: Outcome<Id>)
    requires Closed(g) && forall i :: 0 <= i < |nodes| ==> nodes[i] in g
    ensures r == Result(g, nodes, parallelism)
  {
    if parallelism < 0 {
      return Panics;
    }
    var f := new Floodfiller(g, parallelism);
    f.EnqueueAll(nodes);
    InitInv(g, nodes);
    if parallelism == 0 && f.pending > 0 {
      return Hangs;
    }
    f.Wait();
    r := if |f.errs| > 0 then ErrFloodfill(f.errs) else Nil;
  }

  /** The error strings of the collected visits, in order. */
  function Messages<Id>(visits: seq<ErrVisit<Id>>): (r: seq<string>)
    ensures |r| == |visits|
    ensures forall i :: 0 <= i < |visits| ==> r[i] == visits[i].err
  {
    seq(|visits|, i requires 0 <= i < |visits| => visits[i].Error())
  }

  /** One more failed visit extends the message of `ErrFloodfill` by ", "
      and that visit's error string, leaving the earlier text as it was. */
  lemma ErrorAppend<Id>(visits: seq<ErrVisit<Id>>, v: ErrVisit<Id>)
    requires |visits| > 0
    ensures Strs.Join(Messages(visits + [v]), ", ") == Strs.Join(Messages(visits), ", ") + ", " + v.err
  {
    assert Messages(visits + [v]) == Messages(visits) + [v.err];
    Strs.JoinAppend(Messages(visits), v.err, ", ");
  }

  /** `ErrFloodfill.Error`: each visit's `Error()`, collected in a loop and
      joined with ", ". */
  method FloodfillError<Id>(visits: seq<ErrVisit<Id>>) returns (s: string)
    ensures s == Strs.Join(Messages(visits), ", ")
    ensures |visits| == 1 ==> s == visits[0].err
    ensures |visits| > 1 ==> |s| == Strs.TotalLength(Messages(visits)) + 2 * (|visits| - 1)
  {
    var errs: seq<string> := [];
    for i := 0 to |visits|
      invariant errs == Messages(visits[..i])
    {
      errs := errs + [visits[i].Error()];
    }
    assert visits[..|visits|] == visits;
    s := Strs.Join(errs, ", ");
    if |visits| > 0 {
      Strs.JoinLength(errs, ", ");
    }
  }
}
