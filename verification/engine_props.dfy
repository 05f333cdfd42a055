/**
  What the sequential engine guarantees over a whole `Floodfill` run:
  completeness, soundness, error-free runs, no re-enqueue after a visit,
  and the double visit that enqueue-time deduplication allows.
 */
module EngineProps {
  import opened Engine

  /** A node passes the fill on to its neighbours on some visit: its
      neighbour list is available and its first `Visit` succeeds (or, when
      `firstOnly` is false, a later one does). */
  predicate Expands<Id>(n: NodeSpec<Id>, firstOnly: bool)
  {
    n.neighbors.Found? && (n.visit.None? || (!firstOnly && n.revisit.None?))
  }

  ghost predicate Edge<Id(!new)>(g: Graph<Id>, v: Id, w: Id, firstOnly: bool)
  {
    v in g && Expands(g[v], firstOnly) && w in g[v].neighbors.ids
  }

  /** A walk from a seed along edges of expanding nodes. */
  ghost predicate Walk<Id(!new)>(g: Graph<Id>, seeds: seq<Id>, p: seq<Id>, firstOnly: bool)
  {
    && |p| > 0
    && p[0] in seeds
    && forall i :: 0 <= i < |p| - 1 ==> Edge(g, p[i], p[i + 1], firstOnly)
  }

  ghost predicate Reaches<Id(!new)>(g: Graph<Id>, seeds: seq<Id>, v: Id, firstOnly: bool)
  {
    exists p :: Walk(g, seeds, p, firstOnly) && p[|p| - 1] == v
  }

  /** `x` has been dequeued or is still waiting in the queue. */
  predicate Covered<Id>(s: State<Id>, x: Id)
  {
    x in s.visited || x in s.queue
  }

  /** Every neighbour of a visited node whose first visit succeeded is
      visited or queued. */
  ghost predicate GoodClosed<Id(!new)>(g: Graph<Id>, s: State<Id>)
  {
    forall v, w :: v in s.visited && Edge(g, v, w, true) ==> Covered(s, w)
  }

  /** Every visited or queued ID is reachable from the seeds. */
  ghost predicate AllReach<Id(!new)>(g: Graph<Id>, seeds: seq<Id>, s: State<Id>)
  {
    forall x :: Covered(s, x) ==> Reaches(g, seeds, x, false)
  }

  ghost predicate SeedsInGraph<Id(!new)>(g: Graph<Id>, seeds: seq<Id>)
  {
    Closed(g) && forall i :: 0 <= i < |seeds| ==> seeds[i] in g
  }

  lemma StepCovered<Id(!new)>(g: Graph<Id>, s: State<Id>, x: Id)
    requires Inv(g, s) && s.queue != [] && Covered(s, x)
    ensures Covered(Step(g, s), x)
  {
    var r := Step(g, s);
    if x !in s.visited && x != s.queue[0] {
      var i :| 0 <= i < |s.queue| && s.queue[i] == x;
      assert r.queue[i - 1] == s.queue[1..][i - 1];
    }
  }

  lemma StepGoodClosed<Id(!new)>(g: Graph<Id>, s: State<Id>)
    requires Inv(g, s) && s.queue != [] && GoodClosed(g, s)
    ensures GoodClosed(g, Step(g, s))
  {
    var r := Step(g, s);
    forall v, w | v in r.visited && Edge(g, v, w, true) ensures Covered(r, w) {
      if v in s.visited {
        StepCovered(g, s, w);
      } else {
        var n := g[v];
        var added := Unvisited(n.neighbors.ids, r.visited);
        assert r.queue == s.queue[1..] + added;
        if w !in r.visited {
          assert w in added;
        }
      }
    }
  }

  /** Running to completion keeps `GoodClosed` and visits everything that
      was covered. */
  lemma RunComplete<Id(!new)>(g: Graph<Id>, s: State<Id>)
    requires Inv(g, s) && GoodClosed(g, s)
    ensures GoodClosed(g, Run(g, s))
    ensures forall x :: Covered(s, x) ==> x in Run(g, s).visited
    decreases |g.Keys - s.visited|, Stale(s.queue, s.visited)
  {
    if s.pending > 0 {
      StepKeepsInv(g, s);
      StepDecreases(g, s);
      StepGoodClosed(g, s);
      RunComplete(g, Step(g, s));
      forall x | Covered(s, x) ensures x in Run(g, s).visited {
        StepCovered(g, s, x);
      }
    }
  }

  lemma {:induction false} WalkEndsVisited<Id(!new)>(g: Graph<Id>, seeds: seq<Id>, p: seq<Id>, r: State<Id>)
    requires Walk(g, seeds, p, true) && GoodClosed(g, r) && r.queue == []
    requires forall x :: x in seeds ==> x in r.visited
    ensures p[|p| - 1] in r.visited
  {
    if |p| > 1 {
      var q := p[..|p| - 1];
      assert Walk(g, seeds, q, true) by {
        forall i | 0 <= i < |q| - 1 ensures Edge(g, q[i], q[i + 1], true) {
          assert Edge(g, p[i], p[i + 1], true);
        }
      }
      WalkEndsVisited(g, seeds, q, r);
      assert Edge(g, p[|p| - 2], p[|p| - 1], true);
      assert Covered(r, p[|p| - 1]);
    }
  }

  /** Completeness: every ID reachable from a seed through nodes whose first
      `Visit` and `GetNeighbors` succeed ends up visited. */
  lemma Complete<Id(!new)>(g: Graph<Id>, seeds: seq<Id>, v: Id)
    requires SeedsInGraph(g, seeds)
    requires Reaches(g, seeds, v, true)
    ensures v in Run(g, Init(seeds)).visited
  {
    InitInv(g, seeds);
    var s := Init(seeds);
    RunComplete(g, s);
    var r := Run(g, s);
    forall x | x in seeds ensures x in r.visited {
      assert Covered(s, x);
    }
    var p :| Walk(g, seeds, p, true) && p[|p| - 1] == v;
    WalkEndsVisited(g, seeds, p, r);
  }

  lemma WalkExtend<Id(!new)>(g: Graph<Id>, seeds: seq<Id>, p: seq<Id>, w: Id, firstOnly: bool)
    requires Walk(g, seeds, p, firstOnly) && Edge(g, p[|p| - 1], w, firstOnly)
    ensures Walk(g, seeds, p + [w], firstOnly)
  {
    var q := p + [w];
    forall i | 0 <= i < |q| - 1 ensures Edge(g, q[i], q[i + 1], firstOnly) {
      if i < |p| - 1 {
        assert q[i] == p[i] && q[i + 1] == p[i + 1];
      }
    }
  }

  lemma StepAllReach<Id(!new)>(g: Graph<Id>, seeds: seq<Id>, s: State<Id>)
    requires Inv(g, s) && s.queue != [] && AllReach(g, seeds, s)
    ensures AllReach(g, seeds, Step(g, s))
  {
    var r := Step(g, s);
    var id := s.queue[0];
    forall x | Covered(r, x) ensures Reaches(g, seeds, x, false) {
      if !Covered(s, x) {
        StepNewlyCovered(g, s, x);
        assert Covered(s, id);
        var p :| Walk(g, seeds, p, false) && p[|p| - 1] == id;
        WalkExtend(g, seeds, p, x, false);
        assert (p + [x])[|p + [x]| - 1] == x;
      }
    }
  }

  /** An ID a step newly covers is a neighbour of the dequeued node. */
  lemma StepNewlyCovered<Id(!new)>(g: Graph<Id>, s: State<Id>, x: Id)
    requires Inv(g, s) && s.queue != [] && Covered(Step(g, s), x) && !Covered(s, x)
    ensures Edge(g, s.queue[0], x, false)
  {
    var r := Step(g, s);
    var id := s.queue[0];
    var n := g[id];
    var outcome := if id in s.visited then n.revisit else n.visit;
    assert x in r.queue && x !in s.queue[1..];
    assert outcome.None? && n.neighbors.Found?;
    var added := Unvisited(n.neighbors.ids, r.visited);
    assert r.queue == s.queue[1..] + added;
    assert x in added;
  }

  lemma RunAllReach<Id(!new)>(g: Graph<Id>, seeds: seq<Id>, s: State<Id>)
    requires Inv(g, s) && AllReach(g, seeds, s)
    ensures AllReach(g, seeds, Run(g, s))
    decreases |g.Keys - s.visited|, Stale(s.queue, s.visited)
  {
    if s.pending > 0 {
      StepKeepsInv(g, s);
      StepDecreases(g, s);
      StepAllReach(g, seeds, s);
      RunAllReach(g, seeds, Step(g, s));
    }
  }

  lemma InitAllReach<Id(!new)>(g: Graph<Id>, seeds: seq<Id>)
    requires SeedsInGraph(g, seeds)
    ensures Inv(g, Init(seeds)) && AllReach(g, seeds, Init(seeds))
  {
    InitInv(g, seeds);
    forall x | Covered(Init(seeds), x) ensures Reaches(g, seeds, x, false) {
      assert Walk(g, seeds, [x], false);
    }
  }

  /** Soundness: only IDs reachable from a seed (through nodes some visit of
      which succeeded) are ever visited. */
  lemma Sound<Id(!new)>(g: Graph<Id>, seeds: seq<Id>, v: Id)
    requires SeedsInGraph(g, seeds)
    requires v in Run(g, Init(seeds)).visited
    ensures Reaches(g, seeds, v, false)
  {
    InitAllReach(g, seeds);
    RunAllReach(g, seeds, Init(seeds));
    assert Covered(Run(g, Init(seeds)), v);
  }

  /** Every node reachable from the seeds visits and lists its neighbours
      without error, every time. */
  ghost predicate Faultless<Id(!new)>(g: Graph<Id>, seeds: seq<Id>)
  {
    forall v :: Reaches(g, seeds, v, false) ==>
      v in g && g[v].visit.None? && g[v].revisit.None? && g[v].neighbors.Found?
  }

  lemma RunNoErrors<Id(!new)>(g: Graph<Id>, seeds: seq<Id>, s: State<Id>)
    requires Inv(g, s) && AllReach(g, seeds, s) && Faultless(g, seeds) && s.errs == []
    ensures Run(g, s).errs == []
    decreases |g.Keys - s.visited|, Stale(s.queue, s.visited)
  {
    if s.pending > 0 {
      assert Covered(s, s.queue[0]);
      StepKeepsInv(g, s);
      StepDecreases(g, s);
      StepAllReach(g, seeds, s);
      RunNoErrors(g, seeds, Step(g, s));
    }
  }

  /** With at least one permit, a run in which no reachable node fails
      returns nil. */
  lemma FaultlessIsNil<Id(!new)>(g: Graph<Id>, seeds: seq<Id>, parallelism: int)
    requires SeedsInGraph(g, seeds) && parallelism >= 1 && Faultless(g, seeds)
    ensures Result(g, seeds, parallelism) == Nil
  {
    InitAllReach(g, seeds);
    RunNoErrors(g, seeds, Init(seeds));
  }

  /** No element occurs twice. */
  predicate NoRepeats<Id(==)>(xs: seq<Id>)
  {
    forall i, j :: 0 <= i < j < |xs| ==> xs[i] != xs[j]
  }

  /** A set holding exactly the elements of `xs` is as large as `xs`
      exactly when no element repeats. */
  lemma {:induction false} CountDistinct<Id(!new)>(xs: seq<Id>, elems: set<Id>)
    requires forall x :: x in elems <==> x in xs
    ensures |elems| <= |xs|
    ensures |elems| == |xs| <==> NoRepeats(xs)
  {
    if xs == [] {
      assert elems == {};
    } else {
      var init := xs[..|xs| - 1];
      var last := xs[|xs| - 1];
      assert xs == init + [last];
      if last in init {
        CountDistinct(init, elems);
        var i :| 0 <= i < |init| && init[i] == last;
        assert xs[i] == xs[|xs| - 1];
      } else {
        CountDistinct(init, elems - {last});
        assert NoRepeats(xs) <==> NoRepeats(init) by {
          if NoRepeats(init) {
            forall i, j | 0 <= i < j < |xs| ensures xs[i] != xs[j] {
              if j == |xs| - 1 {
                assert xs[i] in init;
              } else {
                assert xs[i] == init[i] && xs[j] == init[j];
              }
            }
          }
          if NoRepeats(xs) {
            forall i, j | 0 <= i < j < |init| ensures init[i] != init[j] {
              assert xs[i] == init[i] && xs[j] == init[j];
            }
          }
        }
      }
    }
  }

  /** A node that behaves like a grid tile: its first `Visit` succeeds, a
      repeated one fails, and its neighbour list is always available. */
  ghost predicate VisitOracle<Id(!new)>(g: Graph<Id>)
  {
    forall v :: v in g ==> g[v].visit.None? && g[v].revisit.Some? && g[v].neighbors.Found?
  }

  /** On such a graph every collected error is a repeated `Visit`: the
      number of errors is the number of calls beyond the first per ID. */
  lemma RunCountsRepeats<Id(!new)>(g: Graph<Id>, s: State<Id>)
    requires Inv(g, s) && VisitOracle(g) && |s.errs| + |s.visited| == |s.calls|
    ensures |Run(g, s).errs| + |Run(g, s).visited| == |Run(g, s).calls|
    decreases |g.Keys - s.visited|, Stale(s.queue, s.visited)
  {
    if s.pending > 0 {
      StepKeepsInv(g, s);
      StepDecreases(g, s);
      var r := Step(g, s);
      if s.queue[0] !in s.visited {
        assert r.visited == s.visited + {s.queue[0]};
      }
      RunCountsRepeats(g, r);
    }
  }

  /** On such a graph, the errors a run has collected after the `Visit`
      calls `calls`: one for each call on an ID called before, carrying
      that node's repeat error, in call order. */
  function RepeatErrors<Id(!new)>(g: Graph<Id>, calls: seq<Id>): seq<ErrVisit<Id>>
    requires VisitOracle(g) && forall i :: 0 <= i < |calls| ==> calls[i] in g
  {
    if calls == [] then []
    else
      var n := |calls| - 1;
      var last := calls[n];
      RepeatErrors(g, calls[..n]) + (if last in calls[..n] then [ErrVisit(last, g[last].revisit.value)] else [])
  }

  /** On such a graph a run collects exactly `RepeatErrors` of its log. */
  lemma RunRepeatErrors<Id(!new)>(g: Graph<Id>, s: State<Id>)
    requires Inv(g, s) && VisitOracle(g)
    requires s.errs == RepeatErrors(g, s.calls)
    ensures Run(g, s).errs == RepeatErrors(g, Run(g, s).calls)
    decreases |g.Keys - s.visited|, Stale(s.queue, s.visited)
  {
    if s.pending > 0 {
      StepKeepsInv(g, s);
      StepDecreases(g, s);
      StepRepeatErrors(g, s);
      RunRepeatErrors(g, Step(g, s));
    }
  }

  lemma StepRepeatErrors<Id(!new)>(g: Graph<Id>, s: State<Id>)
    requires Inv(g, s) && VisitOracle(g) && s.queue != []
    requires s.errs == RepeatErrors(g, s.calls)
    ensures Inv(g, Step(g, s))
    ensures Step(g, s).errs == RepeatErrors(g, Step(g, s).calls)
  {
    StepKeepsInv(g, s);
    var r := Step(g, s);
    var id := s.queue[0];
    assert id in s.visited <==> id in s.calls;
    assert r.calls[..|s.calls|] == s.calls;
    if id in s.calls {
      assert r.errs == s.errs + [ErrVisit(id, g[id].revisit.value)];
    } else {
      assert r.errs == s.errs;
    }
  }

  /** On such a graph `Floodfill` returns nil exactly when no node is
      visited twice. */
  lemma NilIffNoRepeats<Id(!new)>(g: Graph<Id>, seeds: seq<Id>, parallelism: int)
    requires SeedsInGraph(g, seeds) && VisitOracle(g) && parallelism >= 1
    ensures Inv(g, Init(seeds))
    ensures Result(g, seeds, parallelism) == Nil <==> NoRepeats(Run(g, Init(seeds)).calls)
  {
    InitInv(g, seeds);
    RunCountsRepeats(g, Init(seeds));
    var r := Run(g, Init(seeds));
    CountDistinct(r.calls, r.visited);
  }

  /** `ts` is a sequence of states each reached from the previous one by a
      scheduler step. */
  ghost predicate IsTrace<Id(!new)>(g: Graph<Id>, ts: seq<State<Id>>)
  {
    && |ts| > 0
    && Inv(g, ts[0])
    && forall i :: 0 <= i < |ts| - 1 ==>
         Inv(g, ts[i]) && ts[i].queue != [] && ts[i + 1] == Step(g, ts[i])
  }

  /** A step adds no copy of an ID that is visited after it, not even of
      the ID it has just dequeued: the copies of that ID in the new queue
      are exactly those behind the dequeued head. */
  lemma StepNoReenqueue<Id(!new)>(g: Graph<Id>, s: State<Id>, x: Id)
    requires Inv(g, s) && s.queue != [] && x in Step(g, s).visited
    ensures multiset(Step(g, s).queue)[x] == multiset(s.queue[1..])[x]
    ensures multiset(Step(g, s).queue)[x] <= multiset(s.queue)[x]
  {
    var r := Step(g, s);
    var added := r.queue[|s.queue| - 1..];
    assert r.queue == s.queue[1..] + added;
    assert x !in added;
    assert s.queue == [s.queue[0]] + s.queue[1..];
  }

  /** Once an ID is visited it stays visited, and no later step ever adds a
      copy of it to the queue: each step's queue holds exactly the copies
      left behind the previous head, so their number only goes down. */
  lemma {:induction false} NeverReenqueued<Id(!new)>(g: Graph<Id>, ts: seq<State<Id>>, x: Id)
    requires IsTrace(g, ts) && x in ts[0].visited
    ensures forall j :: 0 <= j < |ts| ==>
      x in ts[j].visited && multiset(ts[j].queue)[x] <= multiset(ts[0].queue)[x]
    ensures forall j :: 0 <= j < |ts| - 1 ==>
      ts[j].queue != [] && multiset(ts[j + 1].queue)[x] == multiset(ts[j].queue[1..])[x]
    decreases |ts|
  {
    if |ts| > 1 {
      var n := |ts| - 1;
      var init := ts[..n];
      assert IsTrace(g, init) by {
        forall i | 0 <= i < |init| - 1
          ensures Inv(g, init[i]) && init[i].queue != [] && init[i + 1] == Step(g, init[i])
        {
          assert init[i] == ts[i] && init[i + 1] == ts[i + 1];
        }
      }
      NeverReenqueued(g, init, x);
      assert x in ts[n - 1].visited by {
        assert init[n - 1] == ts[n - 1];
      }
      StepNoReenqueue(g, ts[n - 1], x);
      forall j | 0 <= j < |ts|
        ensures x in ts[j].visited && multiset(ts[j].queue)[x] <= multiset(ts[0].queue)[x]
      {
        if j < n {
          assert init[j] == ts[j];
        } else {
          assert init[n - 1] == ts[n - 1];
        }
      }
      forall j | 0 <= j < |ts| - 1
        ensures ts[j].queue != [] && multiset(ts[j + 1].queue)[x] == multiset(ts[j].queue[1..])[x]
      {
        if j < n - 1 {
          assert init[j] == ts[j] && init[j + 1] == ts[j + 1];
        }
      }
    }
  }

  /** The error a node of the diamond reports when it is visited again,
      as a grid tile does. */
  const Again := "visited before"

  predicate Distinct<Id(==)>(a: Id, b: Id, c: Id, d: Id)
  {
    a != b && a != c && a != d && b != c && b != d && c != d
  }

  /** The diamond a -> {b, c}, b -> {d}, c -> {d}: every first `Visit` and
      every `GetNeighbors` succeeds, a repeated `Visit` fails. */
  function DiamondOf<Id(!new)>(a: Id, b: Id, c: Id, d: Id): Graph<Id>
  {
    map[a := NodeSpec(None, Some(Again), Found([b, c])),
        b := NodeSpec(None, Some(Again), Found([d])),
        c := NodeSpec(None, Some(Again), Found([d])),
        d := NodeSpec(None, Some(Again), Found([]))]
  }

  /** The diamond on the IDs 0, 1, 2 and 3. */
  function Diamond(): Graph<int>
  {
    DiamondOf(0, 1, 2, 3)
  }

  lemma DiamondClosed<Id(!new)>(a: Id, b: Id, c: Id, d: Id)
    ensures Closed(DiamondOf(a, b, c, d))
  {
    var g := DiamondOf(a, b, c, d);
    forall v, w | v in g && g[v].neighbors.Found? && w in g[v].neighbors.ids ensures w in g {
      assert v == a || v == b || v == c || v == d;
    }
  }

  /** A step on a node visited for the first time, whose `Visit` and
      `GetNeighbors` succeed, leads to `next`. */
  lemma StepFresh<Id(!new)>(g: Graph<Id>, s: State<Id>, ids: seq<Id>, next: State<Id>)
    requires Inv(g, s) && s.queue != [] && s.queue[0] !in s.visited
    requires g[s.queue[0]].visit == None && g[s.queue[0]].neighbors == Found(ids)
    requires next.visited == s.visited + {s.queue[0]} && next.calls == s.calls + [s.queue[0]]
    requires next.queue == s.queue[1..] + Unvisited(ids, next.visited)
    requires next.pending == |next.queue| && next.errs == s.errs
    ensures Step(g, s) == next
  {
    StepKeepsInv(g, s);
  }

  // The five steps of the diamond run, one lemma each.

  lemma DiamondStep1<Id(!new)>(a: Id, b: Id, c: Id, d: Id)
    requires Distinct(a, b, c, d)
    requires Inv(DiamondOf(a, b, c, d), State([a], {}, 1, [], []))
    ensures Step(DiamondOf(a, b, c, d), State([a], {}, 1, [], [])) == State([b, c], {a}, 2, [], [a])
  {
    var g, s := DiamondOf(a, b, c, d), State([a], {}, 1, [], []);
    assert Unvisited([b, c], {a}) == [b, c];
    StepFresh(g, s, [b, c], State([b, c], {a}, 2, [], [a]));
  }

  lemma DiamondStep2<Id(!new)>(a: Id, b: Id, c: Id, d: Id)
    requires Distinct(a, b, c, d)
    requires Inv(DiamondOf(a, b, c, d), State([b, c], {a}, 2, [], [a]))
    ensures Step(DiamondOf(a, b, c, d), State([b, c], {a}, 2, [], [a])) == State([c, d], {a, b}, 2, [], [a, b])
  {
    var g, s := DiamondOf(a, b, c, d), State([b, c], {a}, 2, [], [a]);
    assert Unvisited([d], {a, b}) == [d];
    assert [b, c][1..] + [d] == [c, d];
    StepFresh(g, s, [d], State([c, d], {a, b}, 2, [], [a, b]));
  }

  lemma DiamondStep3<Id(!new)>(a: Id, b: Id, c: Id, d: Id)
    requires Distinct(a, b, c, d)
    requires Inv(DiamondOf(a, b, c, d), State([c, d], {a, b}, 2, [], [a, b]))
    ensures Step(DiamondOf(a, b, c, d), State([c, d], {a, b}, 2, [], [a, b])) == State([d, d], {a, b, c}, 2, [], [a, b, c])
  {
    var g, s := DiamondOf(a, b, c, d), State([c, d], {a, b}, 2, [], [a, b]);
    assert Unvisited([d], {a, b, c}) == [d];
    assert [c, d][1..] + [d] == [d, d];
    StepFresh(g, s, [d], State([d, d], {a, b, c}, 2, [], [a, b, c]));
  }

  lemma DiamondStep4<Id(!new)>(a: Id, b: Id, c: Id, d: Id)
    requires Distinct(a, b, c, d)
    requires Inv(DiamondOf(a, b, c, d), State([d, d], {a, b, c}, 2, [], [a, b, c]))
    ensures Step(DiamondOf(a, b, c, d), State([d, d], {a, b, c}, 2, [], [a, b, c])) == State([d], {a, b, c, d}, 1, [], [a, b, c, d])
  {
    var g, s := DiamondOf(a, b, c, d), State([d, d], {a, b, c}, 2, [], [a, b, c]);
    StepFresh(g, s, [], State([d], {a, b, c, d}, 1, [], [a, b, c, d]));
  }

  lemma DiamondStep5<Id(!new)>(a: Id, b: Id, c: Id, d: Id)
    requires Distinct(a, b, c, d)
    requires Inv(DiamondOf(a, b, c, d), State([d], {a, b, c, d}, 1, [], [a, b, c, d]))
    ensures Step(DiamondOf(a, b, c, d), State([d], {a, b, c, d}, 1, [], [a, b, c, d])) ==
      State([], {a, b, c, d}, 0, [ErrVisit(d, Again)], [a, b, c, d, d])
  {
  }

  /** Deduplicating only at enqueue time lets d in twice: both b and c are
      visited before d is dequeued, so each enqueues it, and `Visit` is
      called on d twice, even with one task at a time. The second call
      fails, so `Floodfill` returns an error although every node was
      filled. */
  lemma DiamondOfVisitsTwice<Id(!new)>(a: Id, b: Id, c: Id, d: Id)
    requires Distinct(a, b, c, d)
    ensures Closed(DiamondOf(a, b, c, d))
    ensures Run(DiamondOf(a, b, c, d), Init([a])).calls == [a, b, c, d, d]
    ensures Result(DiamondOf(a, b, c, d), [a], 1) == ErrFloodfill([ErrVisit(d, Again)])
  {
    var g := DiamondOf(a, b, c, d);
    DiamondClosed(a, b, c, d);
    InitInv(g, [a]);
    var s0 := State([a], {}, 1, [], []);
    var s1 := State([b, c], {a}, 2, [], [a]);
    var s2 := State([c, d], {a, b}, 2, [], [a, b]);
    var s3 := State([d, d], {a, b, c}, 2, [], [a, b, c]);
    var s4 := State([d], {a, b, c, d}, 1, [], [a, b, c, d]);
    assert Init([a]) == s0;
    DiamondStep1(a, b, c, d);
    StepKeepsInv(g, s0);
    DiamondStep2(a, b, c, d);
    StepKeepsInv(g, s1);
    DiamondStep3(a, b, c, d);
    StepKeepsInv(g, s2);
    DiamondStep4(a, b, c, d);
    StepKeepsInv(g, s3);
    DiamondStep5(a, b, c, d);
    StepKeepsInv(g, s4);
    var s5 := Step(g, s4);
    assert Run(g, s4) == Run(g, s5);
    assert Run(g, s3) == Run(g, s4);
    assert Run(g, s2) == Run(g, s3);
    assert Run(g, s1) == Run(g, s2);
    assert Run(g, s0) == Run(g, s1);
  }

  /** The same on the IDs 0, 1, 2 and 3. */
  lemma DiamondVisitsTwice()
    ensures Closed(Diamond())
    ensures Run(Diamond(), Init([0])).calls == [0, 1, 2, 3, 3]
    ensures Result(Diamond(), [0], 1) == ErrFloodfill([ErrVisit(3, Again)])
  {
    DiamondOfVisitsTwice(0, 1, 2, 3);
  }

  // ---------------------------------------------------------------------
  // Two seeds that are each other's neighbour

  /** Nodes a and b, each the other's only neighbour; a repeated `Visit` of
      a fails with `againA` and one of b with `againB`. */
  function PairOf<Id(!new)>(a: Id, b: Id, againA: string, againB: string): Graph<Id>
  {
    map[a := NodeSpec(None, Some(againA), Found([b])),
        b := NodeSpec(None, Some(againB), Found([a]))]
  }

  lemma PairClosed<Id(!new)>(a: Id, b: Id, againA: string, againB: string)
    ensures Closed(PairOf(a, b, againA, againB))
  {
    var g := PairOf(a, b, againA, againB);
    forall v, w | v in g && g[v].neighbors.Found? && w in g[v].neighbors.ids ensures w in g {
      assert v == a || v == b;
    }
  }

  // The three steps of the pair run, one lemma each: a is visited and
  // enqueues b behind the seeded b; b is visited and enqueues nothing; the
  // second copy of b is visited and fails with b's repeat error.

  lemma PairStep1<Id(!new)>(a: Id, b: Id, againA: string, againB: string)
    requires a != b
    requires Inv(PairOf(a, b, againA, againB), State([a, b], {}, 2, [], []))
    ensures Step(PairOf(a, b, againA, againB), State([a, b], {}, 2, [], [])) == State([b, b], {a}, 2, [], [a])
  {
    var g, s := PairOf(a, b, againA, againB), State([a, b], {}, 2, [], []);
    assert Unvisited([b], {a}) == [b];
    assert [a, b][1..] + [b] == [b, b];
    StepFresh(g, s, [b], State([b, b], {a}, 2, [], [a]));
  }

  lemma PairStep2<Id(!new)>(a: Id, b: Id, againA: string, againB: string)
    requires a != b
    requires Inv(PairOf(a, b, againA, againB), State([b, b], {a}, 2, [], [a]))
    ensures Step(PairOf(a, b, againA, againB), State([b, b], {a}, 2, [], [a])) == State([b], {a, b}, 1, [], [a, b])
  {
    var g, s := PairOf(a, b, againA, againB), State([b, b], {a}, 2, [], [a]);
    assert Unvisited([a], {a, b}) == [];
    StepFresh(g, s, [a], State([b], {a, b}, 1, [], [a, b]));
  }

  lemma PairStep3<Id(!new)>(a: Id, b: Id, againA: string, againB: string)
    requires a != b
    requires Inv(PairOf(a, b, againA, againB), State([b], {a, b}, 1, [], [a, b]))
    ensures Step(PairOf(a, b, againA, againB), State([b], {a, b}, 1, [], [a, b])) ==
      State([], {a, b}, 0, [ErrVisit(b, againB)], [a, b, b])
  {
  }

  /** Seeding both nodes lets b in twice: a is visited first and enqueues b,
      which is still queued from the seeding, so `Visit` is called on b
      twice and the second call's error makes the result an
      `ErrFloodfill`. */
  lemma PairVisitsTwice<Id(!new)>(a: Id, b: Id, againA: string, againB: string, parallelism: int)
    requires a != b && parallelism >= 1
    ensures Closed(PairOf(a, b, againA, againB))
    ensures Run(PairOf(a, b, againA, againB), Init([a, b])).calls == [a, b, b]
    ensures Result(PairOf(a, b, againA, againB), [a, b], parallelism) == ErrFloodfill([ErrVisit(b, againB)])
  {
    var g := PairOf(a, b, againA, againB);
    PairClosed(a, b, againA, againB);
    InitInv(g, [a, b]);
    var s0 := State([a, b], {}, 2, [], []);
    var s1 := State([b, b], {a}, 2, [], [a]);
    var s2 := State([b], {a, b}, 1, [], [a, b]);
    assert Init([a, b]) == s0;
    PairStep1(a, b, againA, againB);
    StepKeepsInv(g, s0);
    PairStep2(a, b, againA, againB);
    StepKeepsInv(g, s1);
    PairStep3(a, b, againA, againB);
    StepKeepsInv(g, s2);
    var s3 := Step(g, s2);
    assert Run(g, s2) == Run(g, s3);
    assert Run(g, s1) == Run(g, s2);
    assert Run(g, s0) == Run(g, s1);
  }
}
