/**
  The ASCII tile grid of floodfill_test.go: parsing, printing back, tile
  IDs, neighbour lookup and the tile's `Visit`, which fills the tile and
  reports a second visit of the same ID as an error.

  A tile is a value holding its symbol and coordinates; the grid holds the
  rows of tiles, so "setting the tile's symbol" is an update of the grid's
  `tiles` at the tile's coordinates. Grids are ASCII, so a character's
  index in its row is its column.
 */
module Grid {
  import Strs
  import opened Engine

  const Start: char := '@'
  const Floor: char := '.'
  const Filled: char := 'x'
  const Wall: char := '#'

  datatype Tile = Tile(symbol: char, x: int, y: int)

  datatype Pos = Pos(x: int, y: int)

  // ---------------------------------------------------------------------
  // Tile IDs: fmt.Sprintf("(%d,%d)", x, y)

  function DigitChar(d: nat): char
    requires d < 10
  {
    (48 + d) as char
  }

  /** Decimal digits of `n`, most significant first. */
  function NatString(n: nat): (r: string)
    ensures |r| > 0
    ensures forall i :: 0 <= i < |r| ==> '0' <= r[i] <= '9'
    ensures n >= 10 ==> |r| >= 2
  {
    if n < 10 then [DigitChar(n)] else NatString(n / 10) + [DigitChar(n % 10)]
  }

  /** `%d`: an optional minus sign, then the digits. */
  function IntString(i: int): (r: string)
    ensures |r| > 0 && ',' !in r
  {
    if i < 0 then "-" + NatString(-i) else NatString(i)
  }

  /** The ID of the tile at `p`: "(x,y)". */
  function PosId(p: Pos): string
  {
    "(" + IntString(p.x) + "," + IntString(p.y) + ")"
  }

  /** `tile.GetID`. */
  function GetID(t: Tile): string
  {
    PosId(Pos(t.x, t.y))
  }

  lemma {:induction false} NatStringInjective(a: nat, b: nat)
    requires NatString(a) == NatString(b)
    ensures a == b
  {
    if a >= 10 && b >= 10 {
      var sa, sb := NatString(a), NatString(b);
      assert sa[|sa| - 1] == DigitChar(a % 10) && sb[|sb| - 1] == DigitChar(b % 10);
      assert sa[..|sa| - 1] == NatString(a / 10) && sb[..|sb| - 1] == NatString(b / 10);
      NatStringInjective(a / 10, b / 10);
    }
  }

  /** A `%d` string starts with '-' exactly when the number is negative. */
  lemma IntStringSign(i: int)
    ensures IntString(i)[0] == '-' <==> i < 0
  {
    if i >= 0 {
      assert '0' <= NatString(i)[0] <= '9';
    }
  }

  lemma IntStringInjective(i: int, j: int)
    requires IntString(i) == IntString(j)
    ensures i == j
  {
    IntStringSign(i);
    IntStringSign(j);
    if i < 0 {
      assert IntString(i)[1..] == NatString(-i) && IntString(j)[1..] == NatString(-j);
      NatStringInjective(-i, -j);
    } else {
      NatStringInjective(i, j);
    }
  }

  /** Index of the first `c` in `s`, or `|s|` if there is none. */
  function Find(s: string, c: char): nat
  {
    if s == [] || s[0] == c then 0 else 1 + Find(s[1..], c)
  }

  lemma {:induction false} FindAfter(p: string, rest: string, c: char)
    requires c !in p
    ensures Find(p + [c] + rest, c) == |p|
  {
    if p != [] {
      assert (p + [c] + rest)[1..] == p[1..] + [c] + rest;
      FindAfter(p[1..], rest, c);
    }
  }

  /** Tiles at different coordinates have different IDs, so the visited
      set of the engine and of the grid can be keyed by coordinates. */
  lemma PosIdInjective(p: Pos, q: Pos)
    requires PosId(p) == PosId(q)
    ensures p == q
  {
    var a, b := IntString(p.x), IntString(p.y);
    var c, d := IntString(q.x), IntString(q.y);
    var s := PosId(p);
    assert s == ("(" + a) + [','] + (b + ")") == ("(" + c) + [','] + (d + ")");
    FindAfter("(" + a, b + ")", ',');
    FindAfter("(" + c, d + ")", ',');
    assert a == s[1..1 + |a|] == c;
    assert b == s[2 + |a|..|s| - 1] == d;
    IntStringInjective(p.x, q.x);
    IntStringInjective(p.y, q.y);
  }

  // ---------------------------------------------------------------------
  // parseGrid and toAscii

  /** The lines that are not empty, in order. */
  function NonEmptyLines(rows: seq<string>): seq<string>
  {
    if rows == [] then []
    else (if |rows[0]| == 0 then [] else [rows[0]]) + NonEmptyLines(rows[1..])
  }

  lemma {:induction false} NonEmptyLinesAppend(rows: seq<string>, row: string)
    ensures NonEmptyLines(rows + [row]) == NonEmptyLines(rows) + (if |row| == 0 then [] else [row])
  {
    if rows == [] {
      assert rows + [row] == [row];
    } else {
      assert (rows + [row])[1..] == rows[1..] + [row];
      NonEmptyLinesAppend(rows[1..], row);
    }
  }

  lemma NonEmptyLinesStep(rows: seq<string>, y: nat)
    requires y < |rows|
    ensures |rows[y]| == 0 ==> NonEmptyLines(rows[..y + 1]) == NonEmptyLines(rows[..y])
    ensures |rows[y]| > 0 ==> NonEmptyLines(rows[..y + 1]) == NonEmptyLines(rows[..y]) + [rows[y]]
  {
    assert rows[..y + 1] == rows[..y] + [rows[y]];
    NonEmptyLinesAppend(rows[..y], rows[y]);
    assert NonEmptyLines(rows[..y]) + [] == NonEmptyLines(rows[..y]);
  }

  lemma {:induction false} NonEmptyLinesKeepsNonEmpty(rows: seq<string>)
    requires forall i :: 0 <= i < |rows| ==> |rows[i]| > 0
    ensures NonEmptyLines(rows) == rows
  {
    if rows != [] {
      NonEmptyLinesKeepsNonEmpty(rows[1..]);
    }
  }

  /** The tiles of one line placed at row `y`. */
  function TileRow(line: string, y: int): seq<Tile>
  {
    seq(|line|, x requires 0 <= x < |line| => Tile(line[x], x, y))
  }

  /** Row `i` of the result is the `i`-th line, placed at row `i`. */
  function TileRows(lines: seq<string>): seq<seq<Tile>>
  {
    seq(|lines|, i requires 0 <= i < |lines| => TileRow(lines[i], i))
  }

  lemma TileRowsWellPlaced(lines: seq<string>)
    ensures WellPlaced(TileRows(lines))
  {
  }

  /** Every tile's coordinates are its indices in `tiles`. */
  ghost predicate WellPlaced(tiles: seq<seq<Tile>>)
  {
    forall y, x :: 0 <= y < |tiles| && 0 <= x < |tiles[y]| ==> tiles[y][x].x == x && tiles[y][x].y == y
  }

  /** The tiles `parseGrid` builds from `ascii`: empty lines are skipped and
      later rows move up, so every tile's coordinates are its indices, and
      every row comes from one non-empty line. */
  function Parsed(ascii: string): (r: seq<seq<Tile>>)
    ensures |r| == |NonEmptyLines(Strs.Split(ascii, '\n'))|
    ensures WellPlaced(r)
    ensures forall y :: 0 <= y < |r| ==> |r[y]| > 0
    ensures forall y :: 0 <= y < |r| ==> |r[y]| == |NonEmptyLines(Strs.Split(ascii, '\n'))[y]|
    ensures forall y, x :: 0 <= y < |r| && 0 <= x < |r[y]| ==>
      r[y][x].symbol == NonEmptyLines(Strs.Split(ascii, '\n'))[y][x]
  {
    var lines := NonEmptyLines(Strs.Split(ascii, '\n'));
    assert forall y :: 0 <= y < |lines| ==> |lines[y]| > 0 by {
      NonEmptyLinesAreNonEmpty(Strs.Split(ascii, '\n'));
    }
    TileRowsWellPlaced(lines);
    TileRows(lines)
  }

  lemma {:induction false} NonEmptyLinesAreNonEmpty(rows: seq<string>)
    ensures forall y :: 0 <= y < |NonEmptyLines(rows)| ==> |NonEmptyLines(rows)[y]| > 0
  {
    if rows != [] {
      NonEmptyLinesAreNonEmpty(rows[1..]);
    }
  }

  /** The '@' tiles of one row, left to right. */
  function RowStarts(row: seq<Tile>): seq<Pos>
  {
    if row == [] then []
    else
      var t := row[|row| - 1];
      RowStarts(row[..|row| - 1]) + (if t.symbol == Start then [Pos(t.x, t.y)] else [])
  }

  /** The '@' tiles of the grid, row by row. */
  function StartsOf(tiles: seq<seq<Tile>>): seq<Pos>
  {
    if tiles == [] then [] else StartsOf(tiles[..|tiles| - 1]) + RowStarts(tiles[|tiles| - 1])
  }

  /** `p` comes before `q` in row-major order. */
  predicate Before(p: Pos, q: Pos)
  {
    p.y < q.y || (p.y == q.y && p.x < q.x)
  }

  /** The '@' tiles of a row placed at row `y`, left to right. */
  lemma {:induction false} RowStartsExactly(row: seq<Tile>, y: int)
    requires forall x :: 0 <= x < |row| ==> row[x].x == x && row[x].y == y
    ensures forall p :: p in RowStarts(row) <==> p.y == y && 0 <= p.x < |row| && row[p.x].symbol == Start
    ensures forall i, j :: 0 <= i < j < |RowStarts(row)| ==> RowStarts(row)[i].x < RowStarts(row)[j].x
  {
    if row != [] {
      var init := row[..|row| - 1];
      RowStartsExactly(init, y);
      var r := RowStarts(row);
      var t := row[|row| - 1];
      assert r == RowStarts(init) + (if t.symbol == Start then [Pos(t.x, t.y)] else []);
      forall i, j | 0 <= i < j < |r| ensures r[i].x < r[j].x {
        if j >= |RowStarts(init)| {
          assert r[i] in RowStarts(init);
        }
      }
    }
  }

  /** `starts` holds exactly the '@' tiles, in row-major order. */
  lemma {:induction false} StartsExactly(tiles: seq<seq<Tile>>)
    requires WellPlaced(tiles)
    ensures forall p :: p in StartsOf(tiles) <==> InGrid(tiles, p.x, p.y) && tiles[p.y][p.x].symbol == Start
    ensures forall i, j :: 0 <= i < j < |StartsOf(tiles)| ==> Before(StartsOf(tiles)[i], StartsOf(tiles)[j])
  {
    if tiles != [] {
      var init := tiles[..|tiles| - 1];
      var last := tiles[|tiles| - 1];
      StartsExactly(init);
      RowStartsExactly(last, |tiles| - 1);
      var r := StartsOf(tiles);
      var a := StartsOf(init);
      assert r == a + RowStarts(last);
      forall i, j | 0 <= i < j < |r| ensures Before(r[i], r[j]) {
        if j >= |a| {
          if i >= |a| {
            assert r[i] == RowStarts(last)[i - |a|] && r[j] == RowStarts(last)[j - |a|];
            assert r[i].y == r[j].y;
            assert Before(r[i], r[j]);
          } else {
            assert r[i] in a && r[j] in RowStarts(last);
            assert r[i].y < |init|;
            assert Before(r[i], r[j]);
          }
        } else {
          assert r[i] == a[i] && r[j] == a[j];
          assert Before(r[i], r[j]);
        }
      }
    }
  }

  lemma TileRowSnoc(line: string, x: nat, y: int)
    requires x < |line|
    ensures TileRow(line[..x + 1], y) == TileRow(line[..x], y) + [Tile(line[x], x, y)]
  {
  }

  lemma TileRowsSnoc(lines: seq<string>, line: string)
    ensures TileRows(lines + [line]) == TileRows(lines) + [TileRow(line, |lines|)]
  {
  }

  lemma RowStartsSnoc(row: seq<Tile>, t: Tile)
    ensures RowStarts(row + [t]) == RowStarts(row) + (if t.symbol == Start then [Pos(t.x, t.y)] else [])
  {
    assert (row + [t])[..|row|] == row;
  }

  lemma StartsOfSnoc(tiles: seq<seq<Tile>>, row: seq<Tile>)
    ensures StartsOf(tiles + [row]) == StartsOf(tiles) + RowStarts(row)
  {
    assert (tiles + [row])[..|tiles|] == tiles;
  }

  /** One non-empty line added to a parsed grid. */
  lemma AppendRow(rows: seq<string>, y: nat, tiles: seq<seq<Tile>>, starts: seq<Pos>,
                  tileRow: seq<Tile>, rowStarts: seq<Pos>)
    requires y < |rows| && |rows[y]| > 0
    requires tiles == TileRows(NonEmptyLines(rows[..y])) && starts == StartsOf(tiles)
    requires tileRow == TileRow(rows[y], |tiles|) && rowStarts == RowStarts(tileRow)
    ensures tiles + [tileRow] == TileRows(NonEmptyLines(rows[..y + 1]))
    ensures starts + rowStarts == StartsOf(tiles + [tileRow])
  {
    NonEmptyLinesStep(rows, y);
    TileRowsSnoc(NonEmptyLines(rows[..y]), rows[y]);
    StartsOfSnoc(tiles, tileRow);
  }

  /** Symbols of a row, as `toAscii` writes them. */
  function RowSymbols(row: seq<Tile>): string
  {
    seq(|row|, x requires 0 <= x < |row| => row[x].symbol)
  }

  function Symbols(tiles: seq<seq<Tile>>): seq<string>
  {
    seq(|tiles|, y requires 0 <= y < |tiles| => RowSymbols(tiles[y]))
  }

  /** What `toAscii` returns: an empty first line, then one line per row. */
  function AsciiOf(tiles: seq<seq<Tile>>): string
  {
    Strs.Join([""] + Symbols(tiles), "\n")
  }

  /** Printing a freshly parsed grid gives back its text, when that text is
      a newline followed by non-empty lines, as in every test case. */
  lemma ParseThenPrint(rows: seq<string>)
    requires |rows| > 0
    requires forall i :: 0 <= i < |rows| ==> |rows[i]| > 0 && '\n' !in rows[i]
    ensures AsciiOf(Parsed("\n" + Strs.Join(rows, "\n"))) == "\n" + Strs.Join(rows, "\n")
  {
    var parts := [""] + rows;
    var s := "\n" + Strs.Join(rows, "\n");
    assert parts[1..] == rows;
    assert Strs.Join(parts, "\n") == s;
    Strs.SplitJoin(parts, '\n');
    assert NonEmptyLines(parts) == NonEmptyLines(rows);
    NonEmptyLinesKeepsNonEmpty(rows);
    assert Parsed(s) == TileRows(rows);
    SymbolsOfRows(rows);
  }

  /** The symbols of the tiles built from some lines are those lines. */
  lemma SymbolsOfRows(rows: seq<string>)
    ensures Symbols(TileRows(rows)) == rows
  {
    forall y | 0 <= y < |rows| ensures Symbols(TileRows(rows))[y] == rows[y] {
      assert RowSymbols(TileRow(rows[y], y)) == rows[y];
    }
  }

  // ---------------------------------------------------------------------
  // Tile neighbours

  predicate InGrid(tiles: seq<seq<Tile>>, x: int, y: int)
  {
    0 <= y < |tiles| && 0 <= x < |tiles[y]|
  }

  /** Every row is as wide as the first. */
  ghost predicate Rectangular(tiles: seq<seq<Tile>>)
  {
    forall y :: 0 <= y < |tiles| ==> |tiles[y]| == |tiles[0]|
  }

  /** What `GetNeighbors` does: returns the neighbour tiles (its error is
      always nil), or panics on an index out of range. */
  datatype Lookup = Neighbors(found: seq<Tile>) | IndexPanic

  /** One check of `GetNeighbors`: nothing when the bound check fails, the
      tile at (x, y) unless it is a wall, and a panic when the bound check
      let an index through that is out of range for its row. */
  function Probe(tiles: seq<seq<Tile>>, inBounds: bool, x: int, y: int): Option<seq<Tile>>
  {
    if !inBounds then Some([])
    else if !InGrid(tiles, x, y) then None
    else if tiles[y][x].symbol == Wall then Some([])
    else Some([tiles[y][x]])
  }

  /** `tile.GetNeighbors`: up, down, left, right; the right-hand bound is
      the width of row 0. */
  function GetNeighbors(tiles: seq<seq<Tile>>, t: Tile): Lookup
    requires InGrid(tiles, t.x, t.y)
  {
    var up := Probe(tiles, t.y - 1 >= 0, t.x, t.y - 1);
    var down := Probe(tiles, t.y + 1 < |tiles|, t.x, t.y + 1);
    var left := Probe(tiles, t.x - 1 >= 0, t.x - 1, t.y);
    var right := Probe(tiles, t.x + 1 < |tiles[0]|, t.x + 1, t.y);
    if up.None? || down.None? || left.None? || right.None? then IndexPanic
    else Neighbors(up.value + down.value + left.value + right.value)
  }

  /** `n` is the grid's tile at one of the four positions next to `t`, and
      not a wall. */
  ghost predicate IsNeighbor(tiles: seq<seq<Tile>>, t: Tile, n: Tile)
  {
    && InGrid(tiles, n.x, n.y)
    && tiles[n.y][n.x] == n
    && n.symbol != Wall
    && ((n.x == t.x && (n.y == t.y - 1 || n.y == t.y + 1)) || (n.y == t.y && (n.x == t.x - 1 || n.x == t.x + 1)))
  }

  /** Position of a neighbour in the check order: up, down, left, right. */
  function Rank(t: Tile, n: Tile): int
  {
    if n.y < t.y then 0 else if n.y > t.y then 1 else if n.x < t.x then 2 else 3
  }

  /** The tile at (x, y) as a one-element list, unless (x, y) is outside the
      grid or the tile is a wall. */
  function Cell(tiles: seq<seq<Tile>>, x: int, y: int): seq<Tile>
  {
    if InGrid(tiles, x, y) && tiles[y][x].symbol != Wall then [tiles[y][x]] else []
  }

  lemma CellMembers(tiles: seq<seq<Tile>>, x: int, y: int)
    requires WellPlaced(tiles)
    ensures forall n :: n in Cell(tiles, x, y) <==> InGrid(tiles, x, y) && n == tiles[y][x] && n.symbol != Wall
    ensures forall n :: n in Cell(tiles, x, y) ==> n.x == x && n.y == y
  {
  }

  /** The cells above, below, left of and right of `t`, in that order. */
  function Around(tiles: seq<seq<Tile>>, t: Tile): seq<Tile>
  {
    Cell(tiles, t.x, t.y - 1) + Cell(tiles, t.x, t.y + 1) + Cell(tiles, t.x - 1, t.y) + Cell(tiles, t.x + 1, t.y)
  }

  /** On a rectangular grid each bound check of `GetNeighbors` holds exactly
      when the probed position is in the grid, so it never panics and each
      check contributes the cell it probes. */
  lemma NeighborsCells(tiles: seq<seq<Tile>>, t: Tile)
    requires Rectangular(tiles) && InGrid(tiles, t.x, t.y)
    ensures GetNeighbors(tiles, t) == Neighbors(Around(tiles, t))
  {
    assert |tiles[t.y]| == |tiles[0]|;
    if t.y - 1 >= 0 {
      assert |tiles[t.y - 1]| == |tiles[0]|;
    }
    if t.y + 1 < |tiles| {
      assert |tiles[t.y + 1]| == |tiles[0]|;
    }
  }

  /** The cells around `t` are exactly its non-wall neighbours. */
  lemma AroundMembers(tiles: seq<seq<Tile>>, t: Tile)
    requires WellPlaced(tiles)
    ensures forall n :: n in Around(tiles, t) <==> IsNeighbor(tiles, t, n)
  {
    var up, down := Cell(tiles, t.x, t.y - 1), Cell(tiles, t.x, t.y + 1);
    var left, right := Cell(tiles, t.x - 1, t.y), Cell(tiles, t.x + 1, t.y);
    CellMembers(tiles, t.x, t.y - 1);
    CellMembers(tiles, t.x, t.y + 1);
    CellMembers(tiles, t.x - 1, t.y);
    CellMembers(tiles, t.x + 1, t.y);
    forall n ensures n in Around(tiles, t) <==> IsNeighbor(tiles, t, n) {
      if IsNeighbor(tiles, t, n) {
        if n.y == t.y - 1 {
          assert n in up;
        } else if n.y == t.y + 1 {
          assert n in down;
        } else if n.x == t.x - 1 {
          assert n in left;
        } else {
          assert n in right;
        }
      }
    }
  }

  /** The cells around `t` come in the order up, down, left, right. */
  lemma AroundRanked(tiles: seq<seq<Tile>>, t: Tile)
    requires WellPlaced(tiles)
    ensures forall i, j :: 0 <= i < j < |Around(tiles, t)| ==> Rank(t, Around(tiles, t)[i]) < Rank(t, Around(tiles, t)[j])
  {
    var up, down := Cell(tiles, t.x, t.y - 1), Cell(tiles, t.x, t.y + 1);
    var left, right := Cell(tiles, t.x - 1, t.y), Cell(tiles, t.x + 1, t.y);
    CellMembers(tiles, t.x, t.y - 1);
    CellMembers(tiles, t.x, t.y + 1);
    CellMembers(tiles, t.x - 1, t.y);
    CellMembers(tiles, t.x + 1, t.y);
    forall i, j | 0 <= i < j < |Around(tiles, t)| ensures Rank(t, Around(tiles, t)[i]) < Rank(t, Around(tiles, t)[j]) {
      RankedConcat(t, up, down, left, right, i, j);
    }
  }

  /** On a rectangular grid `GetNeighbors` never panics, returns exactly the
      non-wall tiles next to `t`, each once, in the order up, down, left,
      right. */
  lemma NeighborsExactly(tiles: seq<seq<Tile>>, t: Tile)
    requires Rectangular(tiles) && WellPlaced(tiles) && InGrid(tiles, t.x, t.y)
    ensures GetNeighbors(tiles, t).Neighbors?
    ensures forall n :: n in GetNeighbors(tiles, t).found <==> IsNeighbor(tiles, t, n)
    ensures var ns := GetNeighbors(tiles, t).found;
      forall i, j :: 0 <= i < j < |ns| ==> Rank(t, ns[i]) < Rank(t, ns[j])
  {
    NeighborsCells(tiles, t);
    AroundMembers(tiles, t);
    AroundRanked(tiles, t);
  }

  lemma RankedConcat(t: Tile, a: seq<Tile>, b: seq<Tile>, c: seq<Tile>, d: seq<Tile>, i: int, j: int)
    requires |a| <= 1 && |b| <= 1 && |c| <= 1 && |d| <= 1
    requires forall n :: n in a ==> Rank(t, n) == 0
    requires forall n :: n in b ==> Rank(t, n) == 1
    requires forall n :: n in c ==> Rank(t, n) == 2
    requires forall n :: n in d ==> Rank(t, n) == 3
    requires 0 <= i < j < |a + b + c + d|
    ensures Rank(t, (a + b + c + d)[i]) < Rank(t, (a + b + c + d)[j])
  {
    var s := a + b + c + d;
    forall k | 0 <= k < |s| ensures Rank(t, s[k]) == RankAt(a, b, c, k) {
      if k < |a| {
        assert s[k] in a;
      } else if k < |a| + |b| {
        assert s[k] == b[k - |a|];
      } else if k < |a| + |b| + |c| {
        assert s[k] == c[k - |a| - |b|];
      } else {
        assert s[k] == d[k - |a| - |b| - |c|];
      }
    }
  }

  function RankAt(a: seq<Tile>, b: seq<Tile>, c: seq<Tile>, k: int): int
  {
    if k < |a| then 0 else if k < |a| + |b| then 1 else if k < |a| + |b| + |c| then 2 else 3
  }

  // ---------------------------------------------------------------------
  // tile.Visit

  /** The error `Visit` returns for a tile visited before. */
  function VisitedBefore(id: string): string
  {
    "tile " + id + " visited before"
  }

  /** `tile.Visit` on the tile at `p`, as a function of the grid's tiles and
      visited IDs: the new tiles, the new visited IDs and the error. */
  function VisitTile(tiles: seq<seq<Tile>>, visited: set<string>, p: Pos)
    : (seq<seq<Tile>>, set<string>, Option<string>)
    requires InGrid(tiles, p.x, p.y)
  {
    var id := PosId(p);
    if id in visited then (tiles, visited, Some(VisitedBefore(id)))
    else (tiles[p.y := tiles[p.y][p.x := tiles[p.y][p.x].(symbol := Filled)]], visited + {id}, None)
  }

  /** The inner loop of `parseGrid`: the tiles of one line placed at row
      `y`, and its '@' tiles, left to right. */
  method ParseRow(line: string, y: int) returns (tileRow: seq<Tile>, rowStarts: seq<Pos>)
    ensures tileRow == TileRow(line, y) && rowStarts == RowStarts(tileRow)
  {
    tileRow, rowStarts := [], [];
    for x := 0 to |line|
      invariant tileRow == TileRow(line[..x], y)
      invariant rowStarts == RowStarts(tileRow)
    {
      var t := Tile(line[x], x, y);
      TileRowSnoc(line, x, y);
      RowStartsSnoc(tileRow, t);
      tileRow := tileRow + [t];
      if line[x] == Start {
        rowStarts := rowStarts + [Pos(t.x, t.y)];
      }
    }
    assert line[..|line|] == line;
  }

  /** The outer loop of `parseGrid`: empty lines are skipped and counted
      in `offset`, so each later row is placed `offset` rows higher. */
  method ParseRows(rows: seq<string>) returns (tiles: seq<seq<Tile>>, starts: seq<Pos>)
    ensures tiles == TileRows(NonEmptyLines(rows)) && starts == StartsOf(tiles)
  {
    tiles, starts := [], [];
    var offset := 0;
    for y := 0 to |rows|
      invariant 0 <= offset <= y
      invariant tiles == TileRows(NonEmptyLines(rows[..y]))
      invariant |tiles| == y - offset
      invariant starts == StartsOf(tiles)
    {
      var row := rows[y];
      if |row| == 0 {
        NonEmptyLinesStep(rows, y);
        offset := offset + 1;
        continue;
      }
      var tileRow, rowStarts := ParseRow(row, y - offset);
      AppendRow(rows, y, tiles, starts, tileRow, rowStarts);
      tiles := tiles + [tileRow];
      starts := starts + rowStarts;
    }
    assert rows[..|rows|] == rows;
  }

  /** The grid of the test file: its rows of tiles, the IDs visited so far
      and the '@' tiles, which are the flood fill's seeds. */
  class Grid {
    var tiles: seq<seq<Tile>>
    var visited: set<string>
    var starts: seq<Pos>

    ghost predicate Valid()
      reads this
    {
      WellPlaced(tiles)
    }

    /** `parseGrid`. */
    constructor Parse(ascii: string)
      ensures Valid()
      ensures tiles == Parsed(ascii) && starts == StartsOf(tiles) && visited == {}
    {
      var rows := Strs.Split(ascii, '\n');
      var parsed, seeds := ParseRows(rows);
      tiles, visited, starts := parsed, {}, seeds;
    }

    /** `toAscii`. */
    method ToAscii() returns (s: string)
      ensures s == AsciiOf(tiles)
    {
      var lines: seq<string> := [""];
      for y := 0 to |tiles|
        invariant lines == [""] + Symbols(tiles[..y])
      {
        var line: string := [];
        for x := 0 to |tiles[y]|
          invariant line == RowSymbols(tiles[y][..x])
        {
          line := line + [tiles[y][x].symbol];
        }
        assert tiles[y][..|tiles[y]|] == tiles[y];
        assert Symbols(tiles[..y + 1]) == Symbols(tiles[..y]) + [line];
        lines := lines + [line];
      }
      assert tiles[..|tiles|] == tiles;
      s := Strs.Join(lines, "\n");
    }

    /** `tile.Visit`: a tile whose ID was visited before is reported and
        nothing changes; otherwise its ID is recorded and its symbol becomes
        'x', and nothing else changes. */
    method Visit(t: Tile) returns (err: Option<string>)
      requires Valid() && InGrid(tiles, t.x, t.y)
      modifies this
      ensures Valid() && starts == old(starts)
      ensures (tiles, visited, err) == VisitTile(old(tiles), old(visited), Pos(t.x, t.y))
      ensures GetID(t) in old(visited) ==>
        err == Some(VisitedBefore(GetID(t))) && tiles == old(tiles) && visited == old(visited)
      ensures GetID(t) !in old(visited) ==>
        && err == None
        && visited == old(visited) + {GetID(t)}
        && tiles == old(tiles)[t.y := old(tiles)[t.y][t.x := old(tiles)[t.y][t.x].(symbol := Filled)]]
    {
      var id := GetID(t);
      if id in visited {
        return Some(VisitedBefore(id));
      }
      visited := visited + {id};
      tiles := tiles[t.y := tiles[t.y][t.x := tiles[t.y][t.x].(symbol := Filled)]];
      err := None;
    }
  }
}
