/** The game: the shared state object of the page and the handlers that
    change it (a move, undo, reset, a new game), with the two read-outs the
    page shows (coverage and score). */
module Game {
  import opened Prng
  import opened Grids
  import opened Flood
  import opened Estimator

  datatype Option<T> = None | Some(value: T)

  /** One entry of the undo stack: a copy of the board and the move count
      as they were before a move. */
  datatype Snapshot = Snapshot(grid: Grid, movesUsed: int)

  /** The part of the state that moves, undo and reset change. */
  datatype Play = Play(grid: Grid, history: seq<Snapshot>, movesUsed: int, lastColor: Option<int>)

  /** A board a move can be played on: it has a first cell and all rows
      have the same length. */
  predicate Playable(g: Grid) {
    NonEmpty(g) && Rectangular(g)
  }

  /** isOutOfMoves: the moves used have reached the limit. */
  predicate OutOfMoves(p: Play, limit: int) {
    p.movesUsed >= limit
  }

  /** A move of colorIdx is refused: the board is already won, the move
      limit is reached, or colorIdx is the colour the origin already has. */
  predicate Refused(p: Play, limit: int, colorIdx: int)
    requires NonEmpty(p.grid)
  {
    Uniform(p.grid) || OutOfMoves(p, limit) || colorIdx == p.grid[0][0]
  }

  /** chooseColor: a refused move changes nothing; an accepted one pushes a
      snapshot of the board and the move count, floods the origin's region
      with colorIdx and counts one more move. */
  ghost function AfterChoose(p: Play, limit: int, colorIdx: int): (q: Play)
    requires NonEmpty(p.grid)
    ensures q == p <==> Refused(p, limit, colorIdx)
    ensures SameShape(q.grid, p.grid) && (Playable(p.grid) ==> Playable(q.grid))
    ensures p.movesUsed <= limit ==> q.movesUsed <= limit
    ensures !Refused(p, limit, colorIdx) ==>
      && |q.history| == |p.history| + 1
      && q.history[..|p.history|] == p.history
      && q.history[|p.history|] == Snapshot(p.grid, p.movesUsed)
      && q.movesUsed == p.movesUsed + 1
      && q.lastColor == Some(colorIdx)
      && q.grid[0][0] == colorIdx
  {
    if Refused(p, limit, colorIdx) then p
    else
      var o := p.grid[0][0];
      FloodedOrigin(p.grid, o, colorIdx);
      Play(Flooded(p.grid, o, colorIdx), p.history + [Snapshot(p.grid, p.movesUsed)],
           p.movesUsed + 1, Some(colorIdx))
  }

  /** The undo handler: pop the last snapshot and restore its board and
      move count; with nothing to pop, nothing changes. The colour of the
      last move is not restored. */
  function AfterUndo(p: Play): (q: Play)
    ensures p.history == [] ==> q == p
    ensures p.history != [] ==>
      && |q.history| == |p.history| - 1
      && q.history == p.history[..|q.history|]
      && p.history[|q.history|] == Snapshot(q.grid, q.movesUsed)
      && q.lastColor == p.lastColor
  {
    if p.history == [] then p
    else
      var prev := p.history[|p.history| - 1];
      Play(prev.grid, p.history[..|p.history| - 1], prev.movesUsed, p.lastColor)
  }

  /** The reset handler: the move count starts over; the board and the undo
      stack are kept. */
  function AfterReset(p: Play): (q: Play)
    ensures q.grid == p.grid && q.history == p.history && q.lastColor == p.lastColor
    ensures q.movesUsed == 0
    ensures q == p <==> p.movesUsed == 0
  {
    p.(movesUsed := 0)
  }

  /** Undo takes back an accepted move exactly: the board, the move count
      and the undo stack are those before the move, so the game is neither
      won nor out of moves after it. */
  lemma UndoAfterChoose(p: Play, limit: int, colorIdx: int)
    requires NonEmpty(p.grid) && !Refused(p, limit, colorIdx)
    ensures AfterUndo(AfterChoose(p, limit, colorIdx)) == p.(lastColor := Some(colorIdx))
    ensures !Uniform(AfterUndo(AfterChoose(p, limit, colorIdx)).grid)
    ensures AfterUndo(AfterChoose(p, limit, colorIdx)).movesUsed < limit
  {
    var q := AfterChoose(p, limit, colorIdx);
    assert q.history[..|q.history| - 1] == p.history;
  }

  /** Reset does not change what undo restores: the snapshot on top of the
      stack brings back its own move count. */
  lemma UndoAfterReset(p: Play)
    requires p.history != []
    ensures AfterUndo(AfterReset(p)) == AfterUndo(p)
  {
  }

  /** An accepted move never shrinks the origin's region: every cell that
      was connected to the origin is still connected to it, now in the new
      colour. */
  lemma ChooseGrowsRegion(p: Play, limit: int, colorIdx: int)
    requires NonEmpty(p.grid) && !Refused(p, limit, colorIdx)
    ensures Region(p.grid, p.grid[0][0]) <= Region(AfterChoose(p, limit, colorIdx).grid, colorIdx)
  {
    FloodedRegionGrows(p.grid, p.grid[0][0], colorIdx);
  }

  /** A move with a colour of the palette keeps every cell in the palette. */
  lemma ChooseInPalette(p: Play, limit: int, colorIdx: int, colorCount: int)
    requires NonEmpty(p.grid) && InPalette(p.grid, colorCount) && 0 <= colorIdx < colorCount
    ensures InPalette(AfterChoose(p, limit, colorIdx).grid, colorCount)
  {
    if !Refused(p, limit, colorIdx) {
      FloodedInPalette(p.grid, p.grid[0][0], colorIdx, colorCount);
    }
  }

  /** clamp on integers: v pulled into [lo, hi]; when lo > hi the result is
      lo, as Math.max is applied last. */
  function Clamp(v: int, lo: int, hi: int): (r: int)
    ensures lo <= r
    ensures lo <= hi ==> r <= hi
    ensures lo <= v <= hi ==> r == v
    ensures v <= lo ==> r == lo
    ensures lo <= hi <= v ==> r == hi
  {
    var m := if v < hi then v else hi;
    if lo > m then lo else m
  }

  /** The score's two integer parts: the moves left and the estimate it
      divides them by, never below 1. */
  ghost function ScoreParts(g: Grid, colorCount: int, limit: int, movesUsed: int): (s: (int, int))
    ensures s.0 >= 0 && (movesUsed <= limit ==> s.0 == limit - movesUsed)
    ensures 1 <= s.1 <= Total(g) + 1
    ensures NonEmpty(g) && Uniform(g) ==> s.1 == 1
  {
    EstimateBounds(g, colorCount, 3);
    var est := Estimate(g, colorCount, 3);
    (if limit - movesUsed > 0 then limit - movesUsed else 0, if est > 1 then est else 1)
  }

  /** The generator for a seed string (a fresh seed when it is empty) and
      the board drawn from it. */
  method Deal(seed: JsString, fallback: JsString, rows: nat, cols: nat, colorCount: nat)
    returns (rng: Mulberry32, used: JsString, g: Grid)
    ensures used == if seed == [] then fallback else seed
    ensures g == GenerateGrid(rows, cols, colorCount, used)
    ensures fresh(rng) && rng.a == Advance(SeedState(used), rows * cols)
  {
    rng, used := Rnd(seed, fallback);
    g := DrawGrid(rng, rows, cols, colorCount);
  }

  /** The state object of the page. */
  class State {
    var rows: int
    var cols: int
    var colorCount: int
    var limit: int
    var seed: JsString
    var rng: Mulberry32?
    var grid: Grid
    var history: seq<Snapshot>
    var movesUsed: int
    var lastColor: Option<int>

    /** The settings are within the ranges the settings form clamps to, the
        board is empty (before the first game) or playable, and so is every
        board on the undo stack. */
    ghost predicate Valid()
      reads this
    {
      && 4 <= rows <= 20 && 4 <= cols <= 20
      && 3 <= colorCount <= 8 && 8 <= limit <= 60
      && (grid == [] || Playable(grid))
      && forall i :: 0 <= i < |history| ==> Playable(history[i].grid)
    }

    /** The state moves, undo and reset act on. */
    function Current(): Play
      reads this
    {
      Play(grid, history, movesUsed, lastColor)
    }

    /** The initial state object: 10 by 10 cells, 6 colours, 25 moves, no
        seed, no board yet. */
    constructor ()
      ensures Valid()
      ensures rows == 10 && cols == 10 && colorCount == 6 && limit == 25
      ensures seed == [] && rng == null
      ensures grid == [] && history == [] && movesUsed == 0 && lastColor == None
    {
      rows, cols, colorCount, limit := 10, 10, 6, 25;
      seed, rng := [], null;
      grid, history, movesUsed, lastColor := [], [], 0, None;
    }

    /** readSettings: each number the form holds is clamped into its range;
        the seed is taken as given. */
    method ReadSettings(rawRows: int, rawCols: int, rawColors: int, rawMoves: int, rawSeed: JsString)
      requires Valid()
      modifies this
      ensures Valid()
      ensures rows == Clamp(rawRows, 4, 20) && cols == Clamp(rawCols, 4, 20)
      ensures colorCount == Clamp(rawColors, 3, 8) && limit == Clamp(rawMoves, 8, 60)
      ensures seed == rawSeed
      ensures rng == old(rng) && Current() == old(Current())
    {
      rows := Clamp(rawRows, 4, 20);
      cols := Clamp(rawCols, 4, 20);
      colorCount := Clamp(rawColors, 3, 8);
      limit := Clamp(rawMoves, 8, 60);
      seed := rawSeed;
    }

    /** initGrid: build the generator for the seed (a fresh seed when there
        is none), draw the board from it, and start with an empty undo stack
        and no moves. */
    method InitGrid(fallback: JsString)
      requires Valid()
      modifies this
      ensures Valid()
      ensures rows == old(rows) && cols == old(cols)
      ensures colorCount == old(colorCount) && limit == old(limit)
      ensures seed == if old(seed) == [] then fallback else old(seed)
      ensures grid == GenerateGrid(rows as nat, cols as nat, colorCount as nat, seed)
      ensures history == [] && movesUsed == 0 && lastColor == Some(grid[0][0])
      ensures rng != null && fresh(rng) && rng.a == Advance(SeedState(seed), rows * cols)
    {
      var r, used, g := Deal(seed, fallback, rows as nat, cols as nat, colorCount as nat);
      rng, seed, grid := r, used, g;
      history, movesUsed := [], 0;
      lastColor := Some(grid[0][0]);
    }

    /** The New button: read the settings, then start a game with them. */
    method NewGame(rawRows: int, rawCols: int, rawColors: int, rawMoves: int,
                   rawSeed: JsString, fallback: JsString)
      requires Valid()
      modifies this
      ensures Valid()
      ensures rows == Clamp(rawRows, 4, 20) && cols == Clamp(rawCols, 4, 20)
      ensures colorCount == Clamp(rawColors, 3, 8) && limit == Clamp(rawMoves, 8, 60)
      ensures seed == if rawSeed == [] then fallback else rawSeed
      ensures grid == GenerateGrid(rows as nat, cols as nat, colorCount as nat, seed)
      ensures |grid| == rows && Cols(grid) == cols && InPalette(grid, colorCount)
      ensures history == [] && movesUsed == 0 && lastColor == Some(grid[0][0])
    {
      ReadSettings(rawRows, rawCols, rawColors, rawMoves, rawSeed);
      InitGrid(fallback);
    }

    /** isWon: every cell has the colour of the origin. The source reads
        the origin of the board first, which fails on a board with no row. */
    method IsWon() returns (won: bool)
      requires |grid| > 0
      ensures won <==> Uniform(grid)
    {
      won := AllEqual(grid);
    }

    /** isOutOfMoves. */
    method IsOutOfMoves() returns (out: bool)
      ensures out <==> OutOfMoves(Current(), limit)
    {
      out := movesUsed >= limit;
    }

    /** chooseColor. */
    method ChooseColor(colorIdx: int) returns (accepted: bool)
      requires Valid() && grid != []
      modifies this
      ensures Valid()
      ensures accepted <==> !Refused(old(Current()), limit, colorIdx)
      ensures Current() == AfterChoose(old(Current()), limit, colorIdx)
      ensures rows == old(rows) && cols == old(cols) && colorCount == old(colorCount)
      ensures limit == old(limit) && seed == old(seed) && rng == old(rng)
    {
      var won := IsWon();
      var out := IsOutOfMoves();
      if won || out {
        return false;
      }
      var originColor := grid[0][0];
      if colorIdx == originColor {
        return false;
      }
      Accept(colorIdx);
      accepted := true;
    }

    /** The accepted branch of chooseColor: push a copy of the board and
        the move count, flood the origin's region, count the move. */
    method Accept(colorIdx: int)
      requires Valid() && grid != [] && !Refused(Current(), limit, colorIdx)
      modifies this
      ensures Valid()
      ensures Current() == AfterChoose(old(Current()), limit, colorIdx)
      ensures rows == old(rows) && cols == old(cols) && colorCount == old(colorCount)
      ensures limit == old(limit) && seed == old(seed) && rng == old(rng)
    {
      var flooded, recolored := FloodFill(grid, grid[0][0], colorIdx);
      history := history + [Snapshot(grid, movesUsed)];
      grid := flooded;
      movesUsed := movesUsed + 1;
      lastColor := Some(colorIdx);
    }

    /** The Undo button. */
    method Undo() returns (undone: bool)
      requires Valid()
      modifies this
      ensures Valid()
      ensures undone <==> old(history) != []
      ensures Current() == AfterUndo(old(Current()))
      ensures rows == old(rows) && cols == old(cols) && colorCount == old(colorCount)
      ensures limit == old(limit) && seed == old(seed) && rng == old(rng)
    {
      if history == [] {
        return false;
      }
      var prev := history[|history| - 1];
      history := history[..|history| - 1];
      grid, movesUsed := prev.grid, prev.movesUsed;
      undone := true;
    }

    /** The Reset button. */
    method Reset()
      requires Valid()
      modifies this
      ensures Valid()
      ensures Current() == AfterReset(old(Current()))
      ensures rows == old(rows) && cols == old(cols) && colorCount == old(colorCount)
      ensures limit == old(limit) && seed == old(seed) && rng == old(rng)
    {
      movesUsed := 0;
    }

    /** coverage, as the pair (cells of the origin's colour, cells of the
        board) whose quotient the page shows; a board with no row or an
        empty first row has (0, 0). On a rectangular board the two are
        equal exactly when the board is won. */
    method Coverage() returns (matching: nat, total: nat)
      ensures total == Total(grid)
      ensures matching == if total == 0 then 0 else CountColor(grid, grid[0][0])
      ensures Rectangular(grid) ==> matching <= total && (matching == total <==> Uniform(grid))
    {
      var rowCount := |grid|;
      var colCount := if rowCount > 0 then |grid[0]| else 0;
      if rowCount == 0 || colCount == 0 {
        assert Rectangular(grid) ==> forall r :: 0 <= r < |grid| ==> |grid[r]| == 0;
        return 0, 0;
      }
      matching := CountMatching(grid, grid[0][0]);
      total := rowCount * colCount;
      if Rectangular(grid) {
        FullCoverageIffUniform(grid);
      }
    }

    /** computeScore's integer parts: the estimate over three trials of the
        current board, and the moves left. The estimator works on copies, so
        the state is not changed. */
    method ComputeScore() returns (remaining: int, est: int)
      ensures (remaining, est) == ScoreParts(grid, colorCount, limit, movesUsed)
    {
      var e := EstimateOptimalMoves(grid, colorCount, 3);
      est := if e > 1 then e else 1;
      remaining := if limit - movesUsed > 0 then limit - movesUsed else 0;
    }
  }
}
