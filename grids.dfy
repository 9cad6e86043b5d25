/** Boards: rows of colour indices, the queries the engine makes of them
    (is every cell one colour, how many cells match a colour) and the seeded
    construction of a new board. */
module Grids {
  import opened Prng

  /** A board, row by row. The engine reads its dimensions from the board
      itself: the number of rows and the length of the first row. */
  type Grid = seq<seq<int>>

  /** A cell coordinate: (row, column). */
  type Cell = (int, int)

  /** The column count the engine derives from a board. */
  function Cols(g: Grid): nat {
    if |g| == 0 then 0 else |g[0]|
  }

  /** Every row as long as the first one. */
  predicate Rectangular(g: Grid) {
    forall r :: 0 <= r < |g| ==> |g[r]| == Cols(g)
  }

  /** The board has an origin cell (0, 0). */
  predicate NonEmpty(g: Grid) {
    |g| > 0 && |g[0]| > 0
  }

  /** x lies in [0, rows) x [0, cols) of the board. */
  predicate InBounds(g: Grid, x: Cell) {
    0 <= x.0 < |g| && 0 <= x.1 < Cols(g)
  }

  /** Two boards with the same number of rows and the same row lengths. */
  predicate SameShape(a: Grid, b: Grid) {
    |a| == |b| && forall r :: 0 <= r < |a| ==> |a[r]| == |b[r]|
  }

  /** Every cell of every row has the origin's colour: the board is won.
      A board with no cell at all counts as uniform; a cell on a board whose
      first row is empty compares with an undefined origin and never matches. */
  predicate Uniform(g: Grid) {
    forall r, c :: 0 <= r < |g| && 0 <= c < |g[r]| ==> MatchesOrigin(g, r, c)
  }

  /** Cell (r, c) holds the colour of the origin cell (0, 0), which exists. */
  predicate MatchesOrigin(g: Grid, r: int, c: int)
    requires 0 <= r < |g| && 0 <= c < |g[r]|
  {
    |g[0]| > 0 && g[r][c] == g[0][0]
  }

  /** Every cell of every row is v. */
  predicate AllOf(g: Grid, v: int) {
    forall r, c :: 0 <= r < |g| && 0 <= c < |g[r]| ==> g[r][c] == v
  }

  /** Every cell in range [0, colorCount). */
  predicate InPalette(g: Grid, colorCount: int) {
    forall r, c :: 0 <= r < |g| && 0 <= c < |g[r]| ==> 0 <= g[r][c] < colorCount
  }

  /** The number of entries of row equal to v. */
  function CountRow(row: seq<int>, v: int): nat {
    if row == [] then 0
    else CountRow(row[..|row| - 1], v) + (if row[|row| - 1] == v then 1 else 0)
  }

  /** The number of cells of g equal to v, over every row's own length. */
  function CountColor(g: Grid, v: int): nat {
    if g == [] then 0 else CountColor(g[..|g| - 1], v) + CountRow(g[|g| - 1], v)
  }

  /** The scan isWon makes (and the estimator's `every` test): stops at the
      first cell that differs from the origin. */
  method AllEqual(g: Grid) returns (b: bool)
    ensures b <==> Uniform(g)
  {
    for r := 0 to |g|
      invariant forall i, j :: 0 <= i < r && 0 <= j < |g[i]| ==> MatchesOrigin(g, i, j)
    {
      for c := 0 to |g[r]|
        invariant forall j :: 0 <= j < c ==> MatchesOrigin(g, r, j)
      {
        if |g[0]| == 0 || g[r][c] != g[0][0] {
          assert !MatchesOrigin(g, r, c);
          return false;
        }
      }
    }
    return true;
  }

  /** The counting loop of coverage (and of the estimator's simulation). */
  method CountMatching(g: Grid, v: int) returns (n: nat)
    ensures n == CountColor(g, v)
  {
    n := 0;
    for r := 0 to |g|
      invariant n == CountColor(g[..r], v)
    {
      for c := 0 to |g[r]|
        invariant n == CountColor(g[..r], v) + CountRow(g[r][..c], v)
      {
        assert g[r][..c + 1][..c] == g[r][..c];
        if g[r][c] == v {
          n := n + 1;
        }
      }
      assert g[r][..|g[r]|] == g[r];
      assert g[..r + 1][..r] == g[..r];
    }
    assert g[..|g|] == g;
  }

  /** A row holds at most |row| entries equal to v, and exactly that many
      precisely when all of its entries are v. */
  lemma {:induction false} CountRowFull(row: seq<int>, v: int)
    ensures CountRow(row, v) <= |row|
    ensures CountRow(row, v) == |row| <==> forall c :: 0 <= c < |row| ==> row[c] == v
  {
    if row != [] {
      var init := row[..|row| - 1];
      CountRowFull(init, v);
      assert forall c :: 0 <= c < |init| ==> init[c] == row[c];
    }
  }

  /** On a board whose rows all have length w, at most |g| * w cells equal v,
      and exactly that many precisely when every cell is v. */
  lemma {:induction false} CountColorFull(g: Grid, v: int, w: nat)
    requires forall r :: 0 <= r < |g| ==> |g[r]| == w
    ensures CountColor(g, v) <= |g| * w
    ensures CountColor(g, v) == |g| * w <==> AllOf(g, v)
  {
    if g != [] {
      var init := g[..|g| - 1];
      CountColorFull(init, v, w);
      CountRowFull(g[|g| - 1], v);
      assert |g| * w == |init| * w + w;
      assert forall r :: 0 <= r < |init| ==> init[r] == g[r];
    }
  }

  /** Coverage is complete exactly on a won board: the origin's colour
      accounts for all rows x cols cells iff every cell has it. */
  lemma FullCoverageIffUniform(g: Grid)
    requires Rectangular(g) && NonEmpty(g)
    ensures CountColor(g, g[0][0]) <= |g| * Cols(g)
    ensures CountColor(g, g[0][0]) == |g| * Cols(g) <==> Uniform(g)
  {
    CountColorFull(g, g[0][0], Cols(g));
    UniformIffAllOrigin(g);
  }

  /** On a board with an origin, uniform means every cell has the origin's
      colour. */
  lemma UniformIffAllOrigin(g: Grid)
    requires NonEmpty(g)
    ensures Uniform(g) <==> AllOf(g, g[0][0])
  {
    if AllOf(g, g[0][0]) {
      forall r, c | 0 <= r < |g| && 0 <= c < |g[r]|
        ensures MatchesOrigin(g, r, c)
      {
      }
    }
    if Uniform(g) {
      forall r, c | 0 <= r < |g| && 0 <= c < |g[r]|
        ensures g[r][c] == g[0][0]
      {
        assert MatchesOrigin(g, r, c);
      }
    }
  }

  // ----- generation -----

  /** floor(u / 2^32 * colorCount) for the draw u: the float product is
      exact for any practical colour count, so the integer quotient is the
      same value. */
  function CellColor(u: bv32, colorCount: nat): (k: nat)
    ensures colorCount > 0 ==> k < colorCount
  {
    var x := u as int;
    QuotientBelow(x, colorCount);
    x * colorCount / 0x1_0000_0000
  }

  lemma QuotientBelow(x: int, k: nat)
    requires 0 <= x < 0x1_0000_0000
    ensures 0 <= x * k / 0x1_0000_0000 && (k > 0 ==> x * k / 0x1_0000_0000 < k)
  {
    assert 0 <= x * k <= 0x1_0000_0000 * k;
  }

  /** The colours of a run of draws, one cell per draw. */
  function Colors(us: seq<bv32>, colorCount: nat): (cells: seq<int>)
    ensures |cells| == |us|
    ensures colorCount > 0 ==> forall j :: 0 <= j < |cells| ==> 0 <= cells[j] < colorCount
  {
    seq(|us|, j requires 0 <= j < |us| => CellColor(us[j], colorCount))
  }

  /** Colouring works draw by draw, so it distributes over concatenation. */
  lemma ColorsConcat(xs: seq<bv32>, ys: seq<bv32>, colorCount: nat)
    ensures Colors(xs + ys, colorCount) == Colors(xs, colorCount) + Colors(ys, colorCount)
  {
  }

  /** One more draw adds its colour at the end. */
  lemma ColorsSnoc(us: seq<bv32>, u: bv32, colorCount: nat)
    ensures Colors(us + [u], colorCount) == Colors(us, colorCount) + [CellColor(u, colorCount)]
  {
  }

  /** The board whose rows are consecutive runs of cols cells, row-major:
      the first cols cells make row 0, the next cols cells row 1, and so on. */
  function Chop(cells: seq<int>, rows: nat, cols: nat): (g: Grid)
    requires |cells| == rows * cols
    ensures |g| == rows && forall r :: 0 <= r < rows ==> |g[r]| == cols
    decreases rows
  {
    if rows == 0 then []
    else
      MulSucc(rows - 1, cols);
      [cells[..cols]] + Chop(cells[cols..], rows - 1, cols)
  }

  /** (x + 1) * k == x * k + k, and the product of naturals is natural. */
  lemma MulSucc(x: nat, k: nat)
    ensures (x + 1) * k == x * k + k && x * k >= 0
  {
  }

  /** Cell (r, c) of the board is cell r * cols + c of the run. */
  lemma {:induction false} ChopCell(cells: seq<int>, rows: nat, cols: nat, r: nat, c: nat)
    requires |cells| == rows * cols && r < rows && c < cols
    ensures r * cols + c < |cells|
    ensures Chop(cells, rows, cols)[r][c] == cells[r * cols + c]
  {
    MulSucc(rows - 1, cols);
    var g := Chop(cells, rows, cols);
    assert g == [cells[..cols]] + Chop(cells[cols..], rows - 1, cols);
    if r > 0 {
      MulSucc(r - 1, cols);
      ChopCell(cells[cols..], rows - 1, cols, r - 1, c);
      assert g[r] == Chop(cells[cols..], rows - 1, cols)[r - 1];
    } else {
      assert g[0] == cells[..cols];
    }
  }

  /** Appending one more run of cols cells appends one more row. */
  lemma {:induction false} ChopSnoc(cells: seq<int>, row: seq<int>, r: nat, cols: nat)
    requires |cells| == r * cols && |row| == cols
    ensures |cells + row| == (r + 1) * cols
    ensures Chop(cells + row, r + 1, cols) == Chop(cells, r, cols) + [row]
  {
    MulSucc(r, cols);
    if r > 0 {
      MulSucc(r - 1, cols);
      assert (cells + row)[..cols] == cells[..cols];
      assert (cells + row)[cols..] == cells[cols..] + row;
      ChopSnoc(cells[cols..], row, r - 1, cols);
    } else {
      assert cells + row == row && row[..cols] == row;
    }
  }

  /** A board made of cells of the palette is in the palette. */
  lemma {:induction false} ChopInPalette(cells: seq<int>, rows: nat, cols: nat, colorCount: nat)
    requires |cells| == rows * cols
    requires forall j :: 0 <= j < |cells| ==> 0 <= cells[j] < colorCount
    ensures InPalette(Chop(cells, rows, cols), colorCount)
  {
    if rows > 0 {
      MulSucc(rows - 1, cols);
      ChopInPalette(cells[cols..], rows - 1, cols, colorCount);
    }
  }

  /** generateGrid: the board a seed string produces, one generator call per
      cell, row by row. */
  function GenerateGrid(rows: nat, cols: nat, colorCount: nat, seed: JsString): (g: Grid)
    ensures |g| == rows && Rectangular(g) && (rows > 0 ==> Cols(g) == cols)
    ensures colorCount > 0 ==> InPalette(g, colorCount)
  {
    var cells := Colors(Stream(SeedState(seed), rows * cols), colorCount);
    if colorCount > 0 then
      ChopInPalette(cells, rows, cols, colorCount);
      Chop(cells, rows, cols)
    else
      Chop(cells, rows, cols)
  }

  /** Cell (r, c) of a board drawn from a generator whose state is a is
      the colour of output r * cols + c of that generator. */
  lemma StreamGridCell(a: bv32, rows: nat, cols: nat, colorCount: nat, r: nat, c: nat)
    requires r < rows && c < cols
    ensures Chop(Colors(Stream(a, rows * cols), colorCount), rows, cols)[r][c]
         == CellColor(Mix(Advance(a, r * cols + c + 1)), colorCount)
  {
    ChopCell(Colors(Stream(a, rows * cols), colorCount), rows, cols, r, c);
    StreamAt(a, rows * cols, r * cols + c);
  }

  /** Cell (r, c) of a generated board is the colour of output r * cols + c
      of the generator the seed string starts. */
  lemma GeneratedCell(rows: nat, cols: nat, colorCount: nat, seed: JsString, r: nat, c: nat)
    requires r < rows && c < cols
    ensures GenerateGrid(rows, cols, colorCount, seed)[r][c]
         == CellColor(Mix(Advance(SeedState(seed), r * cols + c + 1)), colorCount)
  {
    StreamGridCell(SeedState(seed), rows, cols, colorCount, r, c);
  }

  /** The nested Array.from of initGrid and generateGrid: it consumes the
      generator one call per cell, row by row. */
  method DrawGrid(rng: Mulberry32, rows: nat, cols: nat, colorCount: nat) returns (g: Grid)
    modifies rng
    ensures g == Chop(Colors(Stream(old(rng.a), rows * cols), colorCount), rows, cols)
    ensures rng.a == Advance(old(rng.a), rows * cols)
  {
    ghost var a0 := rng.a;
    ghost var us: seq<bv32> := [];
    g := [];
    for r := 0 to rows
      invariant |us| == r * cols && us == Stream(a0, |us|)
      invariant rng.a == Advance(a0, |us|)
      invariant g == Chop(Colors(us, colorCount), r, cols)
    {
      ghost var drawn;
      var row;
      row, drawn := DrawRow(rng, cols, colorCount);
      StreamConcat(a0, |us|, cols);
      AdvanceAdd(a0, |us|, cols);
      ColorsConcat(us, drawn, colorCount);
      ChopSnoc(Colors(us, colorCount), row, r, cols);
      g := g + [row];
      us := us + drawn;
    }
  }

  /** One row of DrawGrid: cols calls of the generator, one cell each. */
  method DrawRow(rng: Mulberry32, cols: nat, colorCount: nat)
      returns (row: seq<int>, ghost drawn: seq<bv32>)
    modifies rng
    ensures drawn == Stream(old(rng.a), cols) && row == Colors(drawn, colorCount)
    ensures rng.a == Advance(old(rng.a), cols)
  {
    ghost var b := rng.a;
    row, drawn := [], [];
    for c := 0 to cols
      invariant drawn == Stream(b, c) && row == Colors(drawn, colorCount)
      invariant rng.a == Advance(b, c)
    {
      var u := rng.Next();
      StreamSnoc(b, c);
      ColorsSnoc(drawn, u, colorCount);
      row := row + [CellColor(u, colorCount)];
      drawn := drawn + [u];
    }
  }

  /** "seedA" and "seedB" as JavaScript strings. */
  const SeedA: JsString := [0x73, 0x65, 0x65, 0x64, 0x41]
  const SeedB: JsString := [0x73, 0x65, 0x65, 0x64, 0x42]

  /** The mulberry32 seed of "seedA": the first output of xmur3 over it. */
  lemma ExampleSeedStateA()
    ensures SeedState(SeedA) == 0xc8dcf736
  {
    var h0: bv32 := 0x6a09e662;
    assert Xmur3Start(SeedA) == h0;
    ExamplePrefix();
    assert SeedA[..4] == [0x73, 0x65, 0x65, 0x64];
    assert Absorb(h0, SeedA) == 0xb524e397;
  }

  /** The mulberry32 seed of "seedB": the first output of xmur3 over it. */
  lemma ExampleSeedStateB()
    ensures SeedState(SeedB) == 0xc8a0d188
  {
    var h0: bv32 := 0x6a09e662;
    assert Xmur3Start(SeedB) == h0;
    ExamplePrefix();
    assert SeedB[..4] == [0x73, 0x65, 0x65, 0x64];
    assert Absorb(h0, SeedB) == 0x642696dc;
  }

  /** xmur3's state after absorbing the shared prefix "seed". */
  lemma ExamplePrefix()
    ensures Absorb(0x6a09e662, [0x73, 0x65, 0x65, 0x64]) == 0x1264f0b6
  {
    var h0: bv32 := 0x6a09e662;
    var p: JsString := [0x73, 0x65, 0x65, 0x64];
    assert p[..3][..2] == p[..2] && p[..2][..1] == p[..1] && p[..1][..0] == [];
    assert p[..4] == p && p[..3] == p[..4][..3];
    assert Absorb(h0, p[..1]) == 0x190c3aa2;
    assert Absorb(h0, p[..2]) == 0xb27efdc0;
    assert Absorb(h0, p[..3]) == 0x4846ba93;
  }

  /** The origin of the 4 x 4 board with 3 colours drawn from the seed
      state of "seedA". */
  lemma ExampleOriginA()
    ensures Chop(Colors(Stream(0xc8dcf736, 16), 3), 4, 4)[0][0] == 2
  {
    StreamGridCell(0xc8dcf736, 4, 4, 3, 0, 0);
    assert Advance(0xc8dcf736, 1) == 0x3608712B;
    assert Mix(0x3608712B) == 0xb02ecce6;
    assert (0xb02ecce6 as bv32) as int == 0xb02ecce6;
  }

  /** The origin of the 4 x 4 board with 3 colours drawn from the seed
      state of "seedB". */
  lemma ExampleOriginB()
    ensures Chop(Colors(Stream(0xc8a0d188, 16), 3), 4, 4)[0][0] == 1
  {
    StreamGridCell(0xc8a0d188, 4, 4, 3, 0, 0);
    assert Advance(0xc8a0d188, 1) == 0x35cc4b7d;
    assert Mix(0x35cc4b7d) == 0x8ba5d0b3;
    assert (0x8ba5d0b3 as bv32) as int == 0x8ba5d0b3;
  }

  /** Two different seeds, two different boards: the seeds "seedA" and
      "seedB" already disagree on the origin of a 4 x 4 board with 3 colours. */
  lemma DistinctSeedsExample()
    ensures GenerateGrid(4, 4, 3, SeedA)[0][0] == 2
    ensures GenerateGrid(4, 4, 3, SeedB)[0][0] == 1
    ensures GenerateGrid(4, 4, 3, SeedA) != GenerateGrid(4, 4, 3, SeedB)
  {
    ExampleSeedStateA();
    ExampleSeedStateB();
    ExampleOriginA();
    ExampleOriginB();
  }
}
