/** The move of the game: recolouring the 4-connected region of the origin
    colour that contains the origin cell (0, 0). The region is specified by
    walks from the origin; FloodFill is the breadth-first search the engine
    runs, proved to compute exactly that recolouring. */
module Flood {
  import opened Grids

  /** The four cells the search looks at from x, in the order it pushes
      them: down, up, right, left. */
  function Neighbors(x: Cell): (ns: seq<Cell>)
    ensures |ns| == 4
  {
    [(x.0 + 1, x.1), (x.0 - 1, x.1), (x.0, x.1 + 1), (x.0, x.1 - 1)]
  }

  /** x and y share a side. */
  predicate Adjacent(x: Cell, y: Cell) {
    y in Neighbors(x)
  }

  /** x is a cell of the board, inside the bounds the engine reads from the
      board itself, and holds colour o. A position past the end of a short
      row reads as undefined in the engine and never holds a colour. */
  predicate HasColor(g: Grid, o: int, x: Cell) {
    InBounds(g, x) && x.1 < |g[x.0]| && g[x.0][x.1] == o
  }

  /** p is a path from the origin through side-sharing cells of colour o. */
  predicate IsWalk(g: Grid, o: int, p: seq<Cell>) {
    && |p| > 0
    && p[0] == (0, 0)
    && (forall i :: 0 <= i < |p| ==> HasColor(g, o, p[i]))
    && (forall i :: 0 < i < |p| ==> Adjacent(p[i - 1], p[i]))
  }

  /** x belongs to the origin's region of colour o. */
  ghost predicate InRegion(g: Grid, o: int, x: Cell) {
    exists p :: IsWalk(g, o, p) && p[|p| - 1] == x
  }

  /** The cells of the origin's region of colour o. */
  ghost function Region(g: Grid, o: int): set<Cell> {
    set x | x in Cells(g) && InRegion(g, o, x)
  }

  /** The positions of the board, row by row. */
  function Cells(g: Grid): set<Cell> {
    set r, c | 0 <= r < |g| && 0 <= c < |g[r]| :: (r, c)
  }

  /** The board g with the cells of d given colour n: the board keeps its
      shape, and PaintAt gives its cells. */
  function Paint(g: Grid, d: set<Cell>, n: int): (f: Grid)
    ensures SameShape(f, g)
  {
    PaintRows(g, d, n, |g|)
  }

  /** Row r of g with the cells of d given colour n. */
  function PaintRow(g: Grid, d: set<Cell>, n: int, r: int): (row: seq<int>)
    requires 0 <= r < |g|
    ensures |row| == |g[r]|
  {
    seq(|g[r]|, c requires 0 <= c < |g[r]| => if (r, c) in d then n else g[r][c])
  }

  /** The first m rows of g, each painted. */
  function PaintRows(g: Grid, d: set<Cell>, n: int, m: nat): (f: Grid)
    requires m <= |g|
    ensures |f| == m && forall r :: 0 <= r < m ==> |f[r]| == |g[r]|
  {
    if m == 0 then [] else PaintRows(g, d, n, m - 1) + [PaintRow(g, d, n, m - 1)]
  }

  /** Row r of the first m painted rows is row r painted. */
  lemma {:induction false} PaintRowsAt(g: Grid, d: set<Cell>, n: int, m: nat, r: int)
    requires m <= |g| && 0 <= r < m
    ensures PaintRows(g, d, n, m)[r] == PaintRow(g, d, n, r)
    decreases m
  {
    if r < m - 1 {
      PaintRowsAt(g, d, n, m - 1, r);
    }
  }

  /** Painting gives the cells of d colour n and leaves every other cell
      as it was. */
  lemma PaintAt(g: Grid, d: set<Cell>, n: int)
    ensures forall r :: 0 <= r < |g| ==> Paint(g, d, n)[r] == PaintRow(g, d, n, r)
    ensures forall r, c :: 0 <= r < |g| && 0 <= c < |g[r]| ==>
      Paint(g, d, n)[r][c] == if (r, c) in d then n else g[r][c]
  {
    forall r | 0 <= r < |g|
      ensures Paint(g, d, n)[r] == PaintRow(g, d, n, r)
    {
      PaintRowsAt(g, d, n, |g|, r);
    }
  }

  /** Painting one more cell of the board is one in-place write. */
  lemma PaintOne(g: Grid, d: set<Cell>, n: int, x: Cell)
    requires 0 <= x.0 < |g| && 0 <= x.1 < |g[x.0]|
    ensures Paint(g, d, n)[x.0 := Paint(g, d, n)[x.0][x.1 := n]] == Paint(g, d + {x}, n)
  {
    var f, f' := Paint(g, d, n), Paint(g, d + {x}, n);
    PaintAt(g, d, n);
    PaintAt(g, d + {x}, n);
    forall r | 0 <= r < |g|
      ensures f[x.0 := f[x.0][x.1 := n]][r] == f'[r]
    {
    }
  }

  /** The board after a flood from colour o to colour n: the cells of the
      origin's region take colour n. */
  ghost function Flooded(g: Grid, o: int, n: int): (f: Grid)
    ensures SameShape(f, g)
  {
    Paint(g, Region(g, o), n)
  }

  // ----- facts about regions -----

  /** Every cell of the region has colour o and lies on the board. */
  lemma RegionHasColor(g: Grid, o: int, x: Cell)
    requires InRegion(g, o, x)
    ensures HasColor(g, o, x)
  {
  }

  /** The origin is in its own region exactly when it has colour o. */
  lemma OriginInRegion(g: Grid, o: int)
    ensures InRegion(g, o, (0, 0)) <==> HasColor(g, o, (0, 0))
  {
    if HasColor(g, o, (0, 0)) {
      assert IsWalk(g, o, [(0, 0)]);
    }
  }

  /** A cell of colour o next to the region is in the region. */
  lemma ExtendRegion(g: Grid, o: int, x: Cell, y: Cell)
    requires InRegion(g, o, x) && Adjacent(x, y) && HasColor(g, o, y)
    ensures InRegion(g, o, y)
  {
    var p :| IsWalk(g, o, p) && p[|p| - 1] == x;
    assert IsWalk(g, o, p + [y]);
  }

  /** No cell of colour o lies just outside D. */
  ghost predicate Closed(g: Grid, o: int, d: set<Cell>) {
    forall x, y :: x in d && Adjacent(x, y) && HasColor(g, o, y) ==> y in d
  }

  /** A walk that starts in a closed set never leaves it. */
  lemma {:induction false} WalkInside(g: Grid, o: int, d: set<Cell>, p: seq<Cell>)
    requires IsWalk(g, o, p) && (0, 0) in d && Closed(g, o, d)
    ensures p[|p| - 1] in d
    decreases |p|
  {
    if |p| > 1 {
      var init := p[..|p| - 1];
      assert IsWalk(g, o, init);
      WalkInside(g, o, d, init);
      assert Adjacent(init[|init| - 1], p[|p| - 1]);
    }
  }

  /** A closed set that holds the origin (when it has colour o) holds the
      whole region: the region is the least such set. */
  lemma RegionInside(g: Grid, o: int, d: set<Cell>)
    requires (0, 0) in d || !HasColor(g, o, (0, 0))
    requires Closed(g, o, d)
    ensures forall x :: InRegion(g, o, x) ==> x in d
  {
    forall x | InRegion(g, o, x)
      ensures x in d
    {
      var p :| IsWalk(g, o, p) && p[|p| - 1] == x;
      assert HasColor(g, o, p[0]);
      WalkInside(g, o, d, p);
    }
  }

  // ----- the search -----

  /** The cells the search may ever mark as seen: the board's bounds and the
      origin, where it starts. */
  ghost function Bound(g: Grid): set<Cell> {
    (set r, c | 0 <= r < |g| && 0 <= c < Cols(g) :: (r, c)) + {(0, 0)}
  }

  /** The test the search makes of a cell y of the working copy w: inside
      the board's bounds and still holding the origin colour o. */
  predicate Pushable(g: Grid, o: int, w: Grid, y: Cell) {
    InBounds(g, y) && y.0 < |w| && y.1 < |w[y.0]| && w[y.0][y.1] == o
  }

  /** The state of the search between two dequeues: w is the copy with the
      cells of done recoloured, q the queue, seen the visited set, count the
      number of cells recoloured so far. */
  ghost predicate SearchInv(g: Grid, o: int, n: int, w: Grid, q: seq<Cell>,
                            seen: set<Cell>, done: set<Cell>, count: int)
  {
    && o != n
    && w == Paint(g, done, n)
    && done <= seen <= Bound(g)
    && (0, 0) in seen
    && count == |done|
    && (forall x :: x in done ==> InRegion(g, o, x))
    && (forall x :: x in q ==> x in seen)
    && (forall x :: x in seen ==> x == (0, 0) || InRegion(g, o, x))
    && (forall x :: x in seen ==> x in done || x in q || !HasColor(g, o, x))
    && (forall x, y :: x in done && Adjacent(x, y) && HasColor(g, o, y) ==> y in seen)
  }

  /** A cell of the copy passes the search's test exactly when it has the
      origin colour on the board and has not been recoloured yet. */
  lemma PaintedPushable(g: Grid, o: int, n: int, d: set<Cell>, y: Cell)
    requires o != n
    ensures Pushable(g, o, Paint(g, d, n), y) <==> HasColor(g, o, y) && y !in d
  {
    PaintAt(g, d, n);
  }

  /** The state before the first dequeue. */
  lemma SearchStart(g: Grid, o: int, n: int)
    requires o != n
    ensures SearchInv(g, o, n, g, [(0, 0)], {(0, 0)}, {}, 0)
  {
    var f := Paint(g, {}, n);
    PaintAt(g, {}, n);
    forall r | 0 <= r < |g|
      ensures f[r] == g[r]
    {
    }
  }

  /** Dequeuing a cell that fails the test changes nothing else. */
  lemma SearchSkip(g: Grid, o: int, n: int, w: Grid, q: seq<Cell>,
                   seen: set<Cell>, done: set<Cell>, count: int)
    requires SearchInv(g, o, n, w, q, seen, done, count)
    requires q != [] && !Pushable(g, o, w, q[0])
    ensures SearchInv(g, o, n, w, q[1..], seen, done, count)
  {
    PaintedPushable(g, o, n, done, q[0]);
    assert q == [q[0]] + q[1..];
  }

  /** Dequeuing a cell that passes the test: it is recoloured, and its
      neighbours that pass the test are marked and appended to the queue. */
  lemma SearchVisit(g: Grid, o: int, n: int, w: Grid, q: seq<Cell>,
                    seen: set<Cell>, done: set<Cell>, count: int,
                    w': Grid, seen': set<Cell>, added: seq<Cell>)
    requires SearchInv(g, o, n, w, q, seen, done, count)
    requires q != [] && Pushable(g, o, w, q[0])
    requires w' == w[q[0].0 := w[q[0].0][q[0].1 := n]]
    requires PushedNeighbors(g, o, w', q[0], seen, seen', added)
    ensures SearchInv(g, o, n, w', q[1..] + added, seen', done + {q[0]}, count + 1)
    ensures seen' == seen ==> added == []
  {
    var x := q[0];
    assert q == [x] + q[1..];
    PaintedPushable(g, o, n, done, x);
    PaintOne(g, done, n, x);
    if x != (0, 0) {
      assert InRegion(g, o, x);
    } else {
      OriginInRegion(g, o);
    }
    NeighborsPushed(g, o, n, done + {x}, x, seen, seen', added);
    if added != [] {
      assert added[0] in added;
    }
  }

  /** The neighbours PushNeighbors marks after recolouring x, a cell of the
      region, are in the region, and every neighbour of x of colour o that
      was not recoloured yet is marked. */
  lemma NeighborsPushed(g: Grid, o: int, n: int, done: set<Cell>, x: Cell,
                        seen: set<Cell>, seen': set<Cell>, added: seq<Cell>)
    requires o != n && InRegion(g, o, x)
    requires PushedNeighbors(g, o, Paint(g, done, n), x, seen, seen', added)
    ensures forall y :: y in seen' && y !in seen ==> InRegion(g, o, y)
    ensures forall y :: Adjacent(x, y) && HasColor(g, o, y) && y !in done ==> y in seen'
  {
    forall y | y in seen' && y !in seen
      ensures InRegion(g, o, y)
    {
      PaintedPushable(g, o, n, done, y);
      ExtendRegion(g, o, x, y);
    }
    forall y | Adjacent(x, y) && HasColor(g, o, y) && y !in done
      ensures y in seen'
    {
      PaintedPushable(g, o, n, done, y);
    }
  }

  /** What one call of PushNeighbors did: seen grew by the neighbours of x
      that pass the test on w, and exactly those were queued. */
  ghost predicate PushedNeighbors(g: Grid, o: int, w: Grid, x: Cell,
                                  seen: set<Cell>, seen': set<Cell>, added: seq<Cell>)
  {
    && seen <= seen'
    && (forall y :: y in seen' && y !in seen ==> Adjacent(x, y) && Pushable(g, o, w, y))
    && (forall y :: Adjacent(x, y) && Pushable(g, o, w, y) ==> y in seen')
    && (forall y :: y in added <==> y in seen' && y !in seen)
  }

  /** The search's inner loop: look at the four neighbours of x in order and
      queue each one that is unseen and still holds the origin colour. */
  method PushNeighbors(g: Grid, o: int, w: Grid, x: Cell, seen: set<Cell>)
    returns (seen': set<Cell>, added: seq<Cell>)
    requires |w| == |g|
    ensures PushedNeighbors(g, o, w, x, seen, seen', added)
  {
    var rows := |g|;
    var cols := if rows > 0 then |g[0]| else 0;
    var ns := Neighbors(x);
    seen', added := seen, [];
    for k := 0 to 4
      invariant seen <= seen'
      invariant forall y :: y in seen' && y !in seen ==> Adjacent(x, y) && Pushable(g, o, w, y)
      invariant forall j :: 0 <= j < k && Pushable(g, o, w, ns[j]) ==> ns[j] in seen'
      invariant forall y :: y in added <==> y in seen' && y !in seen
    {
      var y := ns[k];
      if 0 <= y.0 < rows && 0 <= y.1 < cols {
        if y !in seen' && y.1 < |w[y.0]| && w[y.0][y.1] == o {
          seen' := seen' + {y};
          added := added + [y];
        }
      }
    }
  }

  /** The flood as the engine runs it on a copy of the board: returns the
      recoloured copy and the number of cells recoloured. Asking for the
      colour the region already has changes nothing and counts 0. */
  method FloodFill(g: Grid, o: int, n: int) returns (w: Grid, count: nat)
    ensures w == Flooded(g, o, n)
    ensures count == if o == n then 0 else |Region(g, o)|
  {
    if o == n {
      FloodedSameColor(g, o);
      return g, 0;
    }
    var rows := |g|;
    var cols := if rows > 0 then |g[0]| else 0;
    w := g;
    count := 0;
    var q: seq<Cell> := [(0, 0)];
    var seen: set<Cell> := {(0, 0)};
    ghost var done: set<Cell> := {};
    SearchStart(g, o, n);
    while q != []
      invariant SearchInv(g, o, n, w, q, seen, done, count)
      decreases Bound(g) - seen, |q|
    {
      var x := q[0];
      if x.0 < 0 || x.0 >= rows || x.1 < 0 || x.1 >= cols
         || x.1 >= |w[x.0]| || w[x.0][x.1] != o
      {
        SearchSkip(g, o, n, w, q, seen, done, count);
        q := q[1..];
        continue;
      }
      var w' := w[x.0 := w[x.0][x.1 := n]];
      var seen', added := PushNeighbors(g, o, w', x, seen);
      SearchVisit(g, o, n, w, q, seen, done, count, w', seen', added);
      if seen' != seen {
        SetGrows(Bound(g), seen, seen');
      }
      w, seen, q := w', seen', q[1..] + added;
      count := count + 1;
      done := done + {x};
    }
    FloodDone(g, o, n, w, done, seen);
  }

  /** Marking more cells of a set b leaves fewer of b unmarked. */
  lemma SetGrows(b: set<Cell>, s: set<Cell>, s': set<Cell>)
    requires s <= s' <= b && s != s'
    ensures b - s' < b - s
  {
    var y :| y in s' && y !in s;
    assert y in b - s;
  }

  /** What the search has established once its queue is empty: the cells it
      recoloured are exactly the region, so the board is the flooded one. */
  lemma FloodDone(g: Grid, o: int, n: int, w: Grid, done: set<Cell>, seen: set<Cell>)
    requires SearchInv(g, o, n, w, [], seen, done, |done|)
    ensures done == Region(g, o) && w == Flooded(g, o, n)
  {
    assert Closed(g, o, done);
    RegionInside(g, o, done);
    forall x | x in done
      ensures x in Region(g, o)
    {
      RegionHasColor(g, o, x);
    }
    assert done == Region(g, o);
  }

  /** Flooding with the colour the region already has changes no cell. */
  lemma FloodedSameColor(g: Grid, o: int)
    ensures Flooded(g, o, o) == g
  {
    forall r, c | 0 <= r < |g| && 0 <= c < |g[r]| && (r, c) in Region(g, o)
      ensures g[r][c] == o
    {
      RegionHasColor(g, o, (r, c));
    }
    var f := Flooded(g, o, o);
    PaintAt(g, Region(g, o), o);
    forall r | 0 <= r < |g|
      ensures f[r] == g[r]
    {
    }
  }

  // ----- properties of a flood -----

  /** Every cell on a walk, not only its end, is in the region. */
  lemma WalkInRegion(g: Grid, o: int, p: seq<Cell>, i: int)
    requires IsWalk(g, o, p) && 0 <= i < |p|
    ensures InRegion(g, o, p[i])
  {
    assert IsWalk(g, o, p[..i + 1]);
  }

  /** A flood recolours exactly the region: its cells get colour n and no
      other cell changes. */
  lemma FloodedCell(g: Grid, o: int, n: int, r: int, c: int)
    requires 0 <= r < |g| && 0 <= c < |g[r]|
    ensures InRegion(g, o, (r, c)) ==> Flooded(g, o, n)[r][c] == n
    ensures !InRegion(g, o, (r, c)) ==> Flooded(g, o, n)[r][c] == g[r][c]
  {
    PaintAt(g, Region(g, o), n);
  }

  /** When the origin does not hold colour o the region is empty and the
      flood changes nothing. */
  lemma FloodedOriginMismatch(g: Grid, o: int, n: int)
    requires !HasColor(g, o, (0, 0))
    ensures Region(g, o) == {} && Flooded(g, o, n) == g
  {
    RegionInside(g, o, {});
    var f := Flooded(g, o, n);
    PaintAt(g, Region(g, o), n);
    forall r | 0 <= r < |g|
      ensures f[r] == g[r]
    {
    }
  }

  /** When the origin holds colour o it is in the region and is recoloured. */
  lemma FloodedOrigin(g: Grid, o: int, n: int)
    requires HasColor(g, o, (0, 0))
    ensures (0, 0) in Region(g, o) && Flooded(g, o, n)[0][0] == n
  {
    OriginInRegion(g, o);
    PaintAt(g, Region(g, o), n);
  }

  /** A second flood from the same colour changes nothing: after the first,
      no cell of colour o is connected to the origin any more. */
  lemma FloodedIdempotent(g: Grid, o: int, n: int)
    requires o != n
    ensures Flooded(Flooded(g, o, n), o, n) == Flooded(g, o, n)
  {
    var f := Flooded(g, o, n);
    OriginInRegion(g, o);
    PaintAt(g, Region(g, o), n);
    assert !HasColor(f, o, (0, 0));
    FloodedOriginMismatch(f, o, n);
  }

  /** The flooded region is part of the origin's region of the new colour:
      the move can only grow the territory the player holds. */
  lemma FloodedRegionGrows(g: Grid, o: int, n: int)
    ensures Region(g, o) <= Region(Flooded(g, o, n), n)
  {
    var f := Flooded(g, o, n);
    PaintAt(g, Region(g, o), n);
    forall x | x in Region(g, o)
      ensures x in Region(f, n)
    {
      var p :| IsWalk(g, o, p) && p[|p| - 1] == x;
      forall i | 0 <= i < |p|
        ensures HasColor(f, n, p[i])
      {
        WalkInRegion(g, o, p, i);
      }
      assert IsWalk(f, n, p);
    }
  }

  /** Flooding with a colour of the palette keeps the board in the palette. */
  lemma FloodedInPalette(g: Grid, o: int, n: int, k: int)
    requires InPalette(g, k) && 0 <= n < k
    ensures InPalette(Flooded(g, o, n), k)
  {
    PaintAt(g, Region(g, o), n);
  }

  /** The board the engine's own flood test uses, and the result it expects:
      the two 0 cells of the first column join the 1 region, nothing else
      changes, and two cells are recoloured. */
  const TestBoard: Grid := [[0, 1, 1], [0, 2, 1], [2, 2, 1]]

  /** The region of colour 0 on the test board is the first column's two
      top cells. */
  lemma TestBoardRegion()
    ensures forall x :: InRegion(TestBoard, 0, x) <==> x == (0, 0) || x == (1, 0)
  {
    var g := TestBoard;
    var d := {(0, 0), (1, 0)};
    assert IsWalk(g, 0, [(0, 0), (1, 0)]);
    assert IsWalk(g, 0, [(0, 0)]);
    assert Closed(g, 0, d) by {
      forall x, y | x in d && Adjacent(x, y) && HasColor(g, 0, y)
        ensures y in d
      {
        assert x == (0, 0) || x == (1, 0);
      }
    }
    RegionInside(g, 0, d);
  }

  lemma TestBoardRegionSet()
    ensures Region(TestBoard, 0) == {(0, 0), (1, 0)}
    ensures |Region(TestBoard, 0)| == 2
  {
    var g, d := TestBoard, {(0, 0), (1, 0)};
    TestBoardRegion();
    forall x | x in Region(g, 0)
      ensures x in d
    {
    }
    assert (0, 0) in Region(g, 0) && (1, 0) in Region(g, 0);
  }

  /** The board the engine's flood test expects afterwards. */
  const TestBoardAfter: Grid := [[1, 1, 1], [1, 2, 1], [2, 2, 1]]

  lemma TestBoardRow(r: int)
    requires 0 <= r < 3
    ensures Paint(TestBoard, {(0, 0), (1, 0)}, 1)[r] == TestBoardAfter[r]
  {
    var f := Paint(TestBoard, {(0, 0), (1, 0)}, 1);
    PaintAt(TestBoard, {(0, 0), (1, 0)}, 1);
    if r == 0 {
      assert f[0] == [1, 1, 1];
    } else if r == 1 {
      assert f[1] == [1, 2, 1];
    } else {
      assert f[2] == [2, 2, 1];
    }
  }

  lemma TestBoardFlood()
    ensures Flooded(TestBoard, 0, 1) == TestBoardAfter
  {
    TestBoardRegionSet();
    forall r | 0 <= r < 3
      ensures Flooded(TestBoard, 0, 1)[r] == TestBoardAfter[r]
    {
      TestBoardRow(r);
    }
  }
}
