/**
  The corrected engine, which claims a node when it dequeues it: a task
  whose node was already claimed finishes without calling `Visit`.
  Everything else is the engine of module Engine. With this change every ID
  is visited at most once, while completeness is kept, which is what the
  test table's nil error for every grid requires of `tile.Visit`, since it
  fails on a repeated visit.
 */
module ClaimEngine {
  import opened Engine
  import opened EngineProps

  /** One scheduler step with claim-at-dequeue: a task whose node is
      already visited drops it and marks its unit of work done; any other
      task runs as in `Step`. */
  function ClaimStep<Id(!new)>(g: Graph<Id>, s: State<Id>): (r: State<Id>)
    requires Inv(g, s) && s.queue != []
    ensures s.queue[0] in s.visited ==>
      r == s.(queue := s.queue[1..], pending := s.pending - 1)
    ensures s.queue[0] !in s.visited ==> r == Step(g, s)
    ensures Inv(g, r)
  {
    StepKeepsInv(g, s);
    if s.queue[0] in s.visited then s.(queue := s.queue[1..], pending := s.pending - 1)
    else Step(g, s)
  }

  lemma ClaimStepDecreases<Id(!new)>(g: Graph<Id>, s: State<Id>)
    requires Inv(g, s) && s.queue != []
    ensures
      var r := ClaimStep(g, s);
      || |g.Keys - r.visited| < |g.Keys - s.visited|
      || (|g.Keys - r.visited| == |g.Keys - s.visited| && Stale(r.queue, r.visited) < Stale(s.queue, s.visited))
  {
    if s.queue[0] in s.visited {
      assert s.queue == [s.queue[0]] + s.queue[1..];
    } else {
      StepDecreases(g, s);
    }
  }

  /** The scheduler with claim-at-dequeue. */
  function ClaimRun<Id(!new)>(g: Graph<Id>, s: State<Id>): (r: State<Id>)
    requires Inv(g, s)
    ensures Inv(g, r) && r.queue == [] && r.pending == 0
    decreases |g.Keys - s.visited|, Stale(s.queue, s.visited)
  {
    if s.pending == 0 then s
    else
      ClaimStepDecreases(g, s);
      ClaimRun(g, ClaimStep(g, s))
  }

  lemma ClaimRunNoRepeats<Id(!new)>(g: Graph<Id>, s: State<Id>)
    requires Inv(g, s) && NoRepeats(s.calls)
    ensures NoRepeats(ClaimRun(g, s).calls)
    decreases |g.Keys - s.visited|, Stale(s.queue, s.visited)
  {
    if s.pending > 0 {
      ClaimStepDecreases(g, s);
      ClaimStepNoRepeats(g, s);
      ClaimRunNoRepeats(g, ClaimStep(g, s));
    }
  }

  /** A claimed step calls `Visit` only on an ID not visited before. */
  lemma ClaimStepNoRepeats<Id(!new)>(g: Graph<Id>, s: State<Id>)
    requires Inv(g, s) && s.queue != [] && NoRepeats(s.calls)
    ensures NoRepeats(ClaimStep(g, s).calls)
  {
    var r := ClaimStep(g, s);
    if s.queue[0] !in s.visited {
      assert r.calls == s.calls + [s.queue[0]];
      assert s.queue[0] !in s.calls;
    }
  }

  /** Exactly-once: with claim-at-dequeue, `Visit` is never called twice on
      the same ID. */
  lemma VisitsOnce<Id(!new)>(g: Graph<Id>, seeds: seq<Id>)
    requires SeedsInGraph(g, seeds)
    ensures Inv(g, Init(seeds))
    ensures NoRepeats(ClaimRun(g, Init(seeds)).calls)
  {
    InitInv(g, seeds);
    ClaimRunNoRepeats(g, Init(seeds));
  }

  lemma ClaimStepGoodClosed<Id(!new)>(g: Graph<Id>, s: State<Id>)
    requires Inv(g, s) && s.queue != [] && GoodClosed(g, s)
    ensures GoodClosed(g, ClaimStep(g, s))
    ensures forall x :: Covered(s, x) ==> Covered(ClaimStep(g, s), x)
  {
    if s.queue[0] in s.visited {
      var r := ClaimStep(g, s);
      forall x | Covered(s, x) ensures Covered(r, x) {
        if x !in s.visited && x != s.queue[0] {
          var i :| 0 <= i < |s.queue| && s.queue[i] == x;
          assert r.queue[i - 1] == x;
        }
      }
    } else {
      StepGoodClosed(g, s);
      forall x | Covered(s, x) ensures Covered(ClaimStep(g, s), x) {
        StepCovered(g, s, x);
      }
    }
  }

  lemma ClaimRunComplete<Id(!new)>(g: Graph<Id>, s: State<Id>)
    requires Inv(g, s) && GoodClosed(g, s)
    ensures GoodClosed(g, ClaimRun(g, s))
    ensures forall x :: Covered(s, x) ==> x in ClaimRun(g, s).visited
    decreases |g.Keys - s.visited|, Stale(s.queue, s.visited)
  {
    if s.pending > 0 {
      ClaimStepDecreases(g, s);
      ClaimStepGoodClosed(g, s);
      ClaimRunComplete(g, ClaimStep(g, s));
    }
  }

  /** Completeness is kept: every ID reachable from a seed through nodes
      whose first `Visit` and `GetNeighbors` succeed is visited. */
  lemma ClaimComplete<Id(!new)>(g: Graph<Id>, seeds: seq<Id>, v: Id)
    requires SeedsInGraph(g, seeds)
    requires Reaches(g, seeds, v, true)
    ensures Inv(g, Init(seeds))
    ensures v in ClaimRun(g, Init(seeds)).visited
  {
    InitInv(g, seeds);
    var s := Init(seeds);
    ClaimRunComplete(g, s);
    var r := ClaimRun(g, s);
    forall x | x in seeds ensures x in r.visited {
      assert Covered(s, x);
    }
    var p :| Walk(g, seeds, p, true) && p[|p| - 1] == v;
    WalkEndsVisited(g, seeds, p, r);
  }

  /** When every first `Visit` and every `GetNeighbors` succeeds, the run
      with claim-at-dequeue collects no error, whatever a repeated `Visit`
      would return: no `Visit` is ever repeated. */
  lemma ClaimRunNoErrors<Id(!new)>(g: Graph<Id>, s: State<Id>)
    requires Inv(g, s)
    requires forall v :: v in g ==> g[v].visit.None? && g[v].neighbors.Found?
    ensures ClaimRun(g, s).errs == s.errs
    decreases |g.Keys - s.visited|, Stale(s.queue, s.visited)
  {
    if s.pending > 0 {
      ClaimStepDecreases(g, s);
      ClaimRunNoErrors(g, ClaimStep(g, s));
    }
  }

  /** The diamond of `DiamondOfVisitsTwice` with claim-at-dequeue: the
      second copy of d is dropped, so every node is visited once. */
  lemma ClaimDiamondOfOnce<Id(!new)>(a: Id, b: Id, c: Id, d: Id)
    requires Distinct(a, b, c, d)
    ensures Inv(DiamondOf(a, b, c, d), Init([a]))
    ensures ClaimRun(DiamondOf(a, b, c, d), Init([a])).calls == [a, b, c, d]
    ensures ClaimRun(DiamondOf(a, b, c, d), Init([a])).errs == []
  {
    var g := DiamondOf(a, b, c, d);
    var s0 := State([a], {}, 1, [], []);
    var s1 := State([b, c], {a}, 2, [], [a]);
    var s2 := State([c, d], {a, b}, 2, [], [a, b]);
    var s3 := State([d, d], {a, b, c}, 2, [], [a, b, c]);
    var s4 := State([d], {a, b, c, d}, 1, [], [a, b, c, d]);
    var s5 := State([], {a, b, c, d}, 0, [], [a, b, c, d]);
    DiamondClosed(a, b, c, d);
    InitInv(g, [a]);
    assert Init([a]) == s0;
    DiamondStep1(a, b, c, d);
    StepKeepsInv(g, s0);
    DiamondStep2(a, b, c, d);
    StepKeepsInv(g, s1);
    DiamondStep3(a, b, c, d);
    StepKeepsInv(g, s2);
    DiamondStep4(a, b, c, d);
    StepKeepsInv(g, s3);
    assert ClaimStep(g, s4) == s5;
    assert ClaimRun(g, s4) == ClaimRun(g, s5);
    assert ClaimRun(g, s3) == ClaimRun(g, s4);
    assert ClaimRun(g, s2) == ClaimRun(g, s3);
    assert ClaimRun(g, s1) == ClaimRun(g, s2);
    assert ClaimRun(g, s0) == ClaimRun(g, s1);
  }

  /** The same on the IDs 0, 1, 2 and 3. */
  lemma ClaimDiamondOnce()
    ensures Inv(Diamond(), Init([0]))
    ensures ClaimRun(Diamond(), Init([0])).calls == [0, 1, 2, 3]
    ensures ClaimRun(Diamond(), Init([0])).errs == []
  {
    ClaimDiamondOfOnce(0, 1, 2, 3);
  }
}
