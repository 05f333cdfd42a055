/**
  `Floodfill` run on the tile grid of floodfill_test.go: the grid as an
  engine graph keyed by tile coordinates, the effect of the `Visit` calls
  the run makes, and the fill the test table expects.
 */
module GridFill {
  import opened Engine
  import opened EngineProps
  import opened Grid
  import opened ClaimEngine

  // ---------------------------------------------------------------------
  // The grid after a sequence of tile.Visit calls

  /** `tiles` with the tiles at the positions of `filled` set to 'x'. */
  function Fill(tiles: seq<seq<Tile>>, filled: set<Pos>): seq<seq<Tile>>
  {
    seq(|tiles|, y requires 0 <= y < |tiles| =>
      seq(|tiles[y]|, x requires 0 <= x < |tiles[y]| =>
        if Pos(x, y) in filled then tiles[y][x].(symbol := Filled) else tiles[y][x]))
  }

  /** The IDs of the positions in `ps`. */
  function Ids(ps: set<Pos>): set<string>
  {
    set p | p in ps :: PosId(p)
  }

  /** The same number of rows, each of the same width. */
  predicate SameShape(a: seq<seq<Tile>>, b: seq<seq<Tile>>)
  {
    |a| == |b| && forall y :: 0 <= y < |a| ==> |a[y]| == |b[y]|
  }

  predicate AllInGrid(tiles: seq<seq<Tile>>, log: seq<Pos>)
  {
    forall i :: 0 <= i < |log| ==> InGrid(tiles, log[i].x, log[i].y)
  }

  /** The tiles and visited IDs after `tile.Visit` on each position of
      `log`, in order, starting from `tiles` and no visited ID. */
  function Replay(tiles: seq<seq<Tile>>, log: seq<Pos>): (r: (seq<seq<Tile>>, set<string>))
    requires AllInGrid(tiles, log)
    ensures SameShape(r.0, tiles)
  {
    if log == [] then (tiles, {})
    else
      var prev := Replay(tiles, log[..|log| - 1]);
      var after := VisitTile(prev.0, prev.1, log[|log| - 1]);
      (after.0, after.1)
  }

  /** The error of the `i`-th call of `log`. */
  function ReplayError(tiles: seq<seq<Tile>>, log: seq<Pos>, i: nat): Option<string>
    requires AllInGrid(tiles, log) && i < |log|
  {
    assert AllInGrid(tiles, log[..i]);
    var prev := Replay(tiles, log[..i]);
    VisitTile(prev.0, prev.1, log[i]).2
  }

  lemma FillStep(tiles: seq<seq<Tile>>, filled: set<Pos>, p: Pos)
    requires InGrid(tiles, p.x, p.y) && p !in filled
    ensures var f := Fill(tiles, filled);
      f[p.y := f[p.y][p.x := f[p.y][p.x].(symbol := Filled)]] == Fill(tiles, filled + {p})
  {
    var f: seq<seq<Tile>> := Fill(tiles, filled);
    var g: seq<seq<Tile>> := f[p.y := f[p.y][p.x := f[p.y][p.x].(symbol := Filled)]];
    var h: seq<seq<Tile>> := Fill(tiles, filled + {p});
    forall y | 0 <= y < |tiles| ensures g[y] == h[y] {
      if y == p.y {
        assert g[y] == f[y][p.x := f[y][p.x].(symbol := Filled)];
      }
    }
  }

  lemma FillNothing(tiles: seq<seq<Tile>>)
    ensures Fill(tiles, {}) == tiles
  {
    forall y | 0 <= y < |tiles| ensures Fill(tiles, {})[y] == tiles[y] {
    }
  }

  lemma IdsMember(ps: set<Pos>, p: Pos)
    ensures PosId(p) in Ids(ps) <==> p in ps
  {
    if PosId(p) in Ids(ps) {
      var q :| q in ps && PosId(q) == PosId(p);
      PosIdInjective(p, q);
    }
  }

  /** The positions on `log`. */
  function Logged(log: seq<Pos>): set<Pos>
  {
    set p | p in log
  }

  /** One `Visit` on a grid filled at `ps` whose visited IDs are those of
      `ps`. */
  lemma VisitFills(tiles: seq<seq<Tile>>, ps: set<Pos>, p: Pos)
    requires InGrid(tiles, p.x, p.y)
    ensures VisitTile(Fill(tiles, ps), Ids(ps), p).0 == Fill(tiles, ps + {p})
    ensures VisitTile(Fill(tiles, ps), Ids(ps), p).1 == Ids(ps + {p})
  {
    IdsMember(ps, p);
    if p !in ps {
      FillStep(tiles, ps, p);
    } else {
      assert ps + {p} == ps;
    }
    assert Ids(ps + {p}) == Ids(ps) + {PosId(p)};
  }

  /** Replaying the `Visit` calls of a log fills exactly the logged
      positions and records exactly their IDs. */
  lemma {:induction false} ReplayFills(tiles: seq<seq<Tile>>, log: seq<Pos>)
    requires AllInGrid(tiles, log)
    ensures Replay(tiles, log).0 == Fill(tiles, Logged(log))
    ensures Replay(tiles, log).1 == Ids(Logged(log))
    decreases |log|
  {
    if log == [] {
      assert Logged(log) == {};
      FillNothing(tiles);
    } else {
      var n := |log| - 1;
      var init := log[..n];
      assert AllInGrid(tiles, init);
      ReplayFills(tiles, init);
      assert log == init + [log[n]];
      assert Logged(log) == Logged(init) + {log[n]};
      VisitFills(tiles, Logged(init), log[n]);
    }
  }

  /** The `i`-th `Visit` call of a log fails exactly when its position was
      logged before, with the "visited before" error: the behaviour the
      grid graph gives every node. */
  lemma ReplayErrors(tiles: seq<seq<Tile>>, log: seq<Pos>, i: nat)
    requires AllInGrid(tiles, log) && i < |log|
    ensures ReplayError(tiles, log, i) == if log[i] in log[..i] then Some(VisitedBefore(PosId(log[i]))) else None
  {
    assert AllInGrid(tiles, log[..i]);
    ReplayFills(tiles, log[..i]);
    IdsMember(Logged(log[..i]), log[i]);
  }

  // ---------------------------------------------------------------------
  // The grid as an engine graph

  /** The positions of the grid. */
  function Positions(tiles: seq<seq<Tile>>): (r: set<Pos>)
    ensures forall p :: p in r <==> InGrid(tiles, p.x, p.y)
  {
    set y, x | 0 <= y < |tiles| && 0 <= x < |tiles[y]| :: Pos(x, y)
  }

  /** The positions of the tiles `ns`, in order. */
  function PosOf(ns: seq<Tile>): seq<Pos>
  {
    seq(|ns|, i requires 0 <= i < |ns| => Pos(ns[i].x, ns[i].y))
  }

  lemma PosOfMember(ns: seq<Tile>, p: Pos)
    ensures p in PosOf(ns) <==> exists n :: n in ns && p == Pos(n.x, n.y)
  {
    if p in PosOf(ns) {
      var i :| 0 <= i < |ns| && PosOf(ns)[i] == p;
      assert ns[i] in ns;
    }
    if exists n :: n in ns && p == Pos(n.x, n.y) {
      var n :| n in ns && p == Pos(n.x, n.y);
      var i :| 0 <= i < |ns| && ns[i] == n;
      assert PosOf(ns)[i] == p;
    }
  }

  /** How the tile at `p` behaves as a node: the first `Visit` succeeds, a
      later one reports "visited before", and the neighbours are those
      `GetNeighbors` finds, by position. */
  function NodeOf(tiles: seq<seq<Tile>>, p: Pos): NodeSpec<Pos>
    requires Rectangular(tiles) && WellPlaced(tiles) && InGrid(tiles, p.x, p.y)
  {
    NeighborsExactly(tiles, tiles[p.y][p.x]);
    NodeSpec(None, Some(VisitedBefore(PosId(p))), Found(PosOf(GetNeighbors(tiles, tiles[p.y][p.x]).found)))
  }

  function GridGraph(tiles: seq<seq<Tile>>): Graph<Pos>
    requires Rectangular(tiles) && WellPlaced(tiles)
  {
    map p | p in Positions(tiles) :: NodeOf(tiles, p)
  }

  /** The two positions are next to each other: up, down, left or right. */
  predicate Adjacent(p: Pos, q: Pos)
  {
    (p.x == q.x && (q.y == p.y - 1 || q.y == p.y + 1)) || (p.y == q.y && (q.x == p.x - 1 || q.x == p.x + 1))
  }

  /** A floor (non-wall) position of the grid. */
  ghost predicate Open(tiles: seq<seq<Tile>>, p: Pos)
  {
    InGrid(tiles, p.x, p.y) && tiles[p.y][p.x].symbol != Wall
  }

  /** In the grid graph, `q` is a neighbour of `p` exactly when `p` is in
      the grid and `q` is an adjacent non-wall position; every node's
      first visit succeeds and its neighbour list is found. */
  lemma GridEdges(tiles: seq<seq<Tile>>, p: Pos, q: Pos, firstOnly: bool)
    requires Rectangular(tiles) && WellPlaced(tiles)
    ensures Edge(GridGraph(tiles), p, q, firstOnly) <==> InGrid(tiles, p.x, p.y) && Open(tiles, q) && Adjacent(p, q)
  {
    var g := GridGraph(tiles);
    if InGrid(tiles, p.x, p.y) {
      var t := tiles[p.y][p.x];
      NeighborsExactly(tiles, t);
      var ns := GetNeighbors(tiles, t).found;
      assert g[p].neighbors.ids == PosOf(ns);
      PosOfMember(ns, q);
      if q in PosOf(ns) {
        var n :| n in ns && q == Pos(n.x, n.y);
        assert IsNeighbor(tiles, t, n);
      }
      if Open(tiles, q) && Adjacent(p, q) {
        assert IsNeighbor(tiles, t, tiles[q.y][q.x]);
      }
    }
  }

  lemma GridClosed(tiles: seq<seq<Tile>>)
    requires Rectangular(tiles) && WellPlaced(tiles)
    ensures SeedsInGraph(GridGraph(tiles), StartsOf(tiles))
  {
    var g := GridGraph(tiles);
    forall v, w | v in g && g[v].neighbors.Found? && w in g[v].neighbors.ids ensures w in g {
      GridEdges(tiles, v, w, true);
    }
    StartsExactly(tiles);
    forall i | 0 <= i < |StartsOf(tiles)| ensures StartsOf(tiles)[i] in g {
      assert StartsOf(tiles)[i] in StartsOf(tiles);
    }
  }

  /** A path of adjacent floor positions from an '@' tile. */
  ghost predicate GridPath(tiles: seq<seq<Tile>>, path: seq<Pos>)
  {
    && |path| > 0
    && InGrid(tiles, path[0].x, path[0].y) && tiles[path[0].y][path[0].x].symbol == Start
    && (forall i :: 0 <= i < |path| ==> Open(tiles, path[i]))
    && (forall i :: 0 <= i < |path| - 1 ==> Adjacent(path[i], path[i + 1]))
  }

  /** `p` is connected to an '@' tile through floor tiles. */
  ghost predicate Connected(tiles: seq<seq<Tile>>, p: Pos)
  {
    exists path :: GridPath(tiles, path) && path[|path| - 1] == p
  }

  /** The engine's walks from the '@' tiles are exactly the grid paths. */
  lemma WalksArePaths(tiles: seq<seq<Tile>>, path: seq<Pos>, firstOnly: bool)
    requires Rectangular(tiles) && WellPlaced(tiles)
    ensures Walk(GridGraph(tiles), StartsOf(tiles), path, firstOnly) <==> GridPath(tiles, path)
  {
    var g := GridGraph(tiles);
    StartsExactly(tiles);
    forall i | 0 <= i < |path| - 1
      ensures Edge(g, path[i], path[i + 1], firstOnly) <==>
        InGrid(tiles, path[i].x, path[i].y) && Open(tiles, path[i + 1]) && Adjacent(path[i], path[i + 1])
    {
      GridEdges(tiles, path[i], path[i + 1], firstOnly);
    }
    if Walk(g, StartsOf(tiles), path, firstOnly) {
      forall i | 0 <= i < |path| ensures Open(tiles, path[i]) {
        if i > 0 {
          assert Edge(g, path[i - 1], path[i], firstOnly);
        }
      }
    }
  }

  lemma ReachesIsConnected(tiles: seq<seq<Tile>>, p: Pos, firstOnly: bool)
    requires Rectangular(tiles) && WellPlaced(tiles)
    ensures Reaches(GridGraph(tiles), StartsOf(tiles), p, firstOnly) <==> Connected(tiles, p)
  {
    var g := GridGraph(tiles);
    if Reaches(g, StartsOf(tiles), p, firstOnly) {
      var path :| Walk(g, StartsOf(tiles), path, firstOnly) && path[|path| - 1] == p;
      WalksArePaths(tiles, path, firstOnly);
    }
    if Connected(tiles, p) {
      var path :| GridPath(tiles, path) && path[|path| - 1] == p;
      WalksArePaths(tiles, path, firstOnly);
    }
  }

  /** The final state of the sequential run of `Floodfill` from the '@'
      tiles. */
  function GridRun(tiles: seq<seq<Tile>>): State<Pos>
    requires Rectangular(tiles) && WellPlaced(tiles)
  {
    GridClosed(tiles);
    InitInv(GridGraph(tiles), StartsOf(tiles));
    Run(GridGraph(tiles), Init(StartsOf(tiles)))
  }

  /** A run from the '@' tiles visits exactly the tiles connected to one. */
  lemma VisitsConnected(tiles: seq<seq<Tile>>, p: Pos)
    requires Rectangular(tiles) && WellPlaced(tiles)
    ensures p in GridRun(tiles).visited <==> Connected(tiles, p)
  {
    var g := GridGraph(tiles);
    GridClosed(tiles);
    ReachesIsConnected(tiles, p, true);
    ReachesIsConnected(tiles, p, false);
    if Connected(tiles, p) {
      Complete(g, StartsOf(tiles), p);
    }
    if p in Run(g, Init(StartsOf(tiles))).visited {
      Sound(g, StartsOf(tiles), p);
    }
  }

  /** The test's check of the fill, for the run as written: after
      `Floodfill` from the '@' tiles of a rectangular grid, a tile reads 'x'
      exactly when it is connected to an '@' tile through floor tiles, and
      every other tile, walls included, is unchanged. */
  lemma FloodfillFillsGrid(tiles: seq<seq<Tile>>)
    requires Rectangular(tiles) && WellPlaced(tiles)
    ensures AllInGrid(tiles, GridRun(tiles).calls)
    ensures var after := Replay(tiles, GridRun(tiles).calls).0;
      && SameShape(after, tiles)
      && (forall y, x :: InGrid(tiles, x, y) ==>
            after[y][x] == if Connected(tiles, Pos(x, y)) then tiles[y][x].(symbol := Filled) else tiles[y][x])
      && (forall y, x :: InGrid(tiles, x, y) && tiles[y][x].symbol == Wall ==> after[y][x] == tiles[y][x])
  {
    var r := GridRun(tiles);
    var g := GridGraph(tiles);
    assert Inv(g, r);
    forall i | 0 <= i < |r.calls| ensures InGrid(tiles, r.calls[i].x, r.calls[i].y) {
      assert r.calls[i] in r.visited;
    }
    ReplayFills(tiles, r.calls);
    assert Logged(r.calls) == r.visited;
    var after := Replay(tiles, r.calls).0;
    forall y, x | InGrid(tiles, x, y)
      ensures after[y][x] == if Connected(tiles, Pos(x, y)) then tiles[y][x].(symbol := Filled) else tiles[y][x]
    {
      VisitsConnected(tiles, Pos(x, y));
    }
  }

  /** Every tile behaves as the engine's visit oracle: its first `Visit`
      succeeds and a repeated one fails. */
  lemma GridIsVisitOracle(tiles: seq<seq<Tile>>)
    requires Rectangular(tiles) && WellPlaced(tiles)
    ensures VisitOracle(GridGraph(tiles))
  {
  }

  /** The errors `tile.Visit` returns along `log`, each paired with the
      position it was called on, in order. */
  function ReplayErrorList(tiles: seq<seq<Tile>>, log: seq<Pos>): seq<ErrVisit<Pos>>
    requires AllInGrid(tiles, log)
  {
    if log == [] then []
    else
      var n := |log| - 1;
      assert AllInGrid(tiles, log[..n]);
      ReplayErrorList(tiles, log[..n]) + (match ReplayError(tiles, log, n) case Some(e) => [ErrVisit(log[n], e)] case None => [])
  }

  lemma {:induction false} RepeatErrorsReplayed(tiles: seq<seq<Tile>>, log: seq<Pos>)
    requires Rectangular(tiles) && WellPlaced(tiles) && AllInGrid(tiles, log)
    ensures VisitOracle(GridGraph(tiles)) && forall i :: 0 <= i < |log| ==> log[i] in GridGraph(tiles)
    ensures RepeatErrors(GridGraph(tiles), log) == ReplayErrorList(tiles, log)
    decreases |log|
  {
    if log != [] {
      var n := |log| - 1;
      assert AllInGrid(tiles, log[..n]);
      RepeatErrorsReplayed(tiles, log[..n]);
      ReplayErrors(tiles, log, n);
    }
  }

  /** The errors the run collects are, in order, exactly those that
      `tile.Visit` returns on the run's `Visit` calls, each with the tile
      it was called on. */
  lemma GridErrorsReplayed(tiles: seq<seq<Tile>>)
    requires Rectangular(tiles) && WellPlaced(tiles)
    ensures AllInGrid(tiles, GridRun(tiles).calls)
    ensures GridRun(tiles).errs == ReplayErrorList(tiles, GridRun(tiles).calls)
  {
    var g := GridGraph(tiles);
    var r := GridRun(tiles);
    GridClosed(tiles);
    InitInv(g, StartsOf(tiles));
    RunRepeatErrors(g, Init(StartsOf(tiles)));
    forall i | 0 <= i < |r.calls| ensures InGrid(tiles, r.calls[i].x, r.calls[i].y) {
      assert r.calls[i] in r.visited;
    }
    RepeatErrorsReplayed(tiles, r.calls);
  }

  /** The test's `err == nil` check, for the run as written: `Floodfill`
      from the '@' tiles returns nil exactly when no tile is visited twice. */
  lemma GridNilIffNoRepeats(tiles: seq<seq<Tile>>, parallelism: int)
    requires Rectangular(tiles) && WellPlaced(tiles) && parallelism >= 1
    ensures SeedsInGraph(GridGraph(tiles), StartsOf(tiles))
    ensures Result(GridGraph(tiles), StartsOf(tiles), parallelism) == Nil <==> NoRepeats(GridRun(tiles).calls)
  {
    GridClosed(tiles);
    GridIsVisitOracle(tiles);
    NilIffNoRepeats(GridGraph(tiles), StartsOf(tiles), parallelism);
  }

  /** With claim-at-dequeue, the run from the '@' tiles visits each tile at
      most once, visits every tile connected to an '@' tile, and collects
      no error: the outcome the test table expects of every grid. */
  lemma ClaimedGridFill(tiles: seq<seq<Tile>>, p: Pos)
    requires Rectangular(tiles) && WellPlaced(tiles)
    ensures SeedsInGraph(GridGraph(tiles), StartsOf(tiles))
    ensures Inv(GridGraph(tiles), Init(StartsOf(tiles)))
    ensures NoRepeats(ClaimRun(GridGraph(tiles), Init(StartsOf(tiles))).calls)
    ensures ClaimRun(GridGraph(tiles), Init(StartsOf(tiles))).errs == []
    ensures Connected(tiles, p) ==> p in ClaimRun(GridGraph(tiles), Init(StartsOf(tiles))).visited
  {
    var g := GridGraph(tiles);
    GridClosed(tiles);
    VisitsOnce(g, StartsOf(tiles));
    ClaimRunNoErrors(g, Init(StartsOf(tiles)));
    if Connected(tiles, p) {
      ReachesIsConnected(tiles, p, true);
      ClaimComplete(g, StartsOf(tiles), p);
    }
  }

  // ---------------------------------------------------------------------
  // The test table's second case

  /** The grid of the test case "\n@@": two '@' tiles side by side. */
  function TwoStarts(): seq<seq<Tile>>
  {
    [[Tile(Start, 0, 0), Tile(Start, 1, 0)]]
  }

  lemma TwoStartsParsed()
    ensures Parsed("\n@@") == TwoStarts()
  {
    var s := "\n@@";
    assert s[1..] == "@@" && s[1..][1..] == "@" && s[1..][1..][1..] == "";
    assert Strs.Split("", '\n') == [""];
    assert "@"[0] == '@' && "@"[1..] == "" && ['@'] + "" == "@" && [""][1..] == [];
    assert Strs.Split("@", '\n') == ["@"];
    assert "@@"[0] == '@' && "@@"[1..] == "@" && ['@'] + "@" == "@@" && ["@"][1..] == [];
    assert Strs.Split("@@", '\n') == ["@@"];
    assert Strs.Split(s, '\n') == ["", "@@"];
    assert NonEmptyLines(["", "@@"]) == ["@@"];
    var r := Parsed(s);
    assert |r| == 1 && |r[0]| == 2;
    assert "@@"[0] == Start && "@@"[1] == Start;
    assert r[0][0] == Tile(Start, 0, 0) && r[0][1] == Tile(Start, 1, 0);
    assert r[0] == [r[0][0], r[0][1]];
    assert r == [r[0]];
  }

  lemma TwoStartsStarts()
    ensures Rectangular(TwoStarts()) && WellPlaced(TwoStarts())
    ensures StartsOf(TwoStarts()) == [Pos(0, 0), Pos(1, 0)]
  {
    var t := TwoStarts();
    var row := t[0];
    assert row[..1] == [row[0]] && row[..1][..0] == [];
    assert RowStarts(row[..1]) == [Pos(0, 0)];
    assert RowStarts(row) == RowStarts(row[..1]) + [Pos(1, 0)];
    assert StartsOf(t) == StartsOf([]) + RowStarts(row);
  }

  lemma TwoStartsNodes()
    ensures Rectangular(TwoStarts()) && WellPlaced(TwoStarts())
    ensures Positions(TwoStarts()) == {Pos(0, 0), Pos(1, 0)}
    ensures NodeOf(TwoStarts(), Pos(0, 0)) == NodeSpec(None, Some(VisitedBefore(PosId(Pos(0, 0)))), Found([Pos(1, 0)]))
    ensures NodeOf(TwoStarts(), Pos(1, 0)) == NodeSpec(None, Some(VisitedBefore(PosId(Pos(1, 0)))), Found([Pos(0, 0)]))
  {
    var t := TwoStarts();
    var row := t[0];
    assert GetNeighbors(t, row[0]) == Lookup.Neighbors([row[1]]);
    assert GetNeighbors(t, row[1]) == Lookup.Neighbors([row[0]]);
    assert PosOf([row[1]]) == [Pos(1, 0)];
    assert PosOf([row[0]]) == [Pos(0, 0)];
  }

  lemma TwoStartsGraph()
    ensures Rectangular(TwoStarts()) && WellPlaced(TwoStarts())
    ensures GridGraph(TwoStarts()) ==
      PairOf(Pos(0, 0), Pos(1, 0), VisitedBefore(PosId(Pos(0, 0))), VisitedBefore(PosId(Pos(1, 0))))
  {
    TwoStartsNodes();
    var g := GridGraph(TwoStarts());
    var h := PairOf(Pos(0, 0), Pos(1, 0), VisitedBefore(PosId(Pos(0, 0))), VisitedBefore(PosId(Pos(1, 0))));
    assert g.Keys == h.Keys;
    forall p | p in g ensures g[p] == h[p] {
      assert p == Pos(0, 0) || p == Pos(1, 0);
    }
  }

  /** The test case "\n@@" expects a nil error, but both '@' tiles are
      seeds: the left one is visited first and enqueues the right one,
      which is still queued from the seeding, so the right tile is visited
      twice and `Floodfill` returns its "visited before" error. */
  lemma TwoStartsVisitTwice()
    ensures Parsed("\n@@") == TwoStarts()
    ensures Rectangular(TwoStarts()) && WellPlaced(TwoStarts())
    ensures SeedsInGraph(GridGraph(TwoStarts()), StartsOf(TwoStarts()))
    ensures GridRun(TwoStarts()).calls == [Pos(0, 0), Pos(1, 0), Pos(1, 0)]
    ensures Result(GridGraph(TwoStarts()), StartsOf(TwoStarts()), 4) ==
      ErrFloodfill([ErrVisit(Pos(1, 0), VisitedBefore(PosId(Pos(1, 0))))])
  {
    TwoStartsParsed();
    TwoStartsStarts();
    TwoStartsGraph();
    GridClosed(TwoStarts());
    PairVisitsTwice(Pos(0, 0), Pos(1, 0), VisitedBefore(PosId(Pos(0, 0))), VisitedBefore(PosId(Pos(1, 0))), 4);
  }
}
