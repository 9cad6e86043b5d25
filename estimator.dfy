/** The greedy estimate of the number of moves a board needs: from the
    board, repeatedly flood the origin region with the colour that leaves
    the most cells of the origin's new colour, until the board is one
    colour, the move count passes the number of cells, or a guard of three
    times the number of cells runs out. */
module Estimator {
  import opened Grids
  import opened Flood

  /** The number of cells the estimator reads from the board: its rows
      times the length of its first row. */
  function Total(g: Grid): (t: nat)
    ensures t > 0 <==> NonEmpty(g)
  {
    if |g| == 0 then 0
    else
      assert |g| * |g[0]| == 0 <==> |g[0]| == 0 by {
        if |g[0]| > 0 {
          assert |g| * |g[0]| >= |g[0]|;
        }
      }
      |g| * |g[0]|
  }

  /** c is a colour the estimator tries on g: in the palette [0, k) and not
      the origin's colour. */
  predicate Candidate(g: Grid, k: int, c: int)
    requires NonEmpty(g)
  {
    0 <= c < k && c != g[0][0]
  }

  /** The score of trying colour c: the number of cells of the simulated
      board that have its origin's colour. */
  ghost function Gain(g: Grid, c: int): nat
    requires NonEmpty(g)
  {
    var sim := Flooded(g, g[0][0], c);
    CountColor(sim, sim[0][0])
  }

  /** The scores of the colours [0, k) on g, in order. */
  ghost function Scores(g: Grid, k: int): (s: seq<int>)
    requires NonEmpty(g)
    ensures |s| == if k > 0 then k else 0
    decreases if k > 0 then k else 0, 0
  {
    if k <= 0 then [] else ScoresThrough(g, k - 1)
  }

  /** The scores of the colours [0, c] on g, in order. */
  ghost function ScoresThrough(g: Grid, c: nat): (s: seq<int>)
    requires NonEmpty(g)
    ensures |s| == c + 1
    decreases c, 1
  {
    Scores(g, c) + [Gain(g, c)]
  }

  /** Entry c of the scores is the score of colour c. */
  lemma {:induction false} ScoresAt(g: Grid, k: int, c: int)
    requires NonEmpty(g) && 0 <= c < k
    ensures Scores(g, k)[c] == Gain(g, c)
    decreases k
  {
    assert Scores(g, k) == Scores(g, k - 1) + [Gain(g, k - 1)];
    if c < k - 1 {
      ScoresAt(g, k - 1, c);
    }
  }

  /** The colour a scan over scores[c..] settles on, skipping colour skip,
      having settled on bestColor with score bestGain before c: a colour
      replaces the best only with a strictly greater score. */
  function ScanFrom(scores: seq<int>, skip: int, c: nat, bestColor: int, bestGain: int): int
    decreases |scores| - c
  {
    if c >= |scores| then bestColor
    else if c == skip then ScanFrom(scores, skip, c + 1, bestColor, bestGain)
    else if scores[c] > bestGain then ScanFrom(scores, skip, c + 1, c, scores[c])
    else ScanFrom(scores, skip, c + 1, bestColor, bestGain)
  }

  /** The colour the greedy step picks on g with k colours: the scan
      starts with colour 0 and score -1. */
  ghost function Pick(g: Grid, k: int): int
    requires NonEmpty(g)
  {
    ScanFrom(Scores(g, k), g[0][0], 0, 0, -1)
  }

  /** d is a colour the scan over scores tries: an index of scores other
      than skip. */
  predicate Tried(scores: seq<int>, skip: int, d: int) {
    0 <= d < |scores| && d != skip
  }

  /** The state of a scan over scores before c: nothing tried yet, or
      bestColor is the first tried colour of greatest score so far. */
  ghost predicate ScanState(scores: seq<int>, skip: int, c: nat, bestColor: int, bestGain: int) {
    if bestGain == -1 then
      bestColor == 0 && forall d :: Tried(scores, skip, d) ==> d >= c
    else
      && Tried(scores, skip, bestColor) && bestColor < c
      && bestGain == scores[bestColor]
      && (forall d :: Tried(scores, skip, d) && d < c ==> scores[d] <= bestGain)
      && (forall d :: Tried(scores, skip, d) && d < bestColor ==> scores[d] < bestGain)
  }

  /** A scan over nonnegative scores ends on the first tried colour of
      greatest score, or on colour 0 when no colour is tried. */
  lemma {:induction false} ScanFromArgmax(scores: seq<int>, skip: int, c: nat, bestColor: int, bestGain: int)
    requires forall d :: 0 <= d < |scores| ==> scores[d] >= 0
    requires ScanState(scores, skip, c, bestColor, bestGain)
    ensures var p := ScanFrom(scores, skip, c, bestColor, bestGain);
      && ((forall d :: !Tried(scores, skip, d)) ==> p == 0)
      && ((exists d :: Tried(scores, skip, d)) ==>
        && Tried(scores, skip, p)
        && (forall d :: Tried(scores, skip, d) ==> scores[d] <= scores[p])
        && (forall d :: Tried(scores, skip, d) && d < p ==> scores[d] < scores[p]))
    decreases |scores| - c
  {
    if c < |scores| {
      if c == skip {
        ScanFromArgmax(scores, skip, c + 1, bestColor, bestGain);
      } else if scores[c] > bestGain {
        ScanFromArgmax(scores, skip, c + 1, c, scores[c]);
      } else {
        ScanFromArgmax(scores, skip, c + 1, bestColor, bestGain);
      }
    }
  }

  /** The candidates on g are the colours the scan over its scores tries. */
  lemma CandidatesTried(g: Grid, k: int)
    requires NonEmpty(g)
    ensures forall d :: Candidate(g, k, d) <==> Tried(Scores(g, k), g[0][0], d)
  {
  }

  /** The greedy step picks the candidate of greatest score, the lowest one
      among equals; with no candidate at all it falls back to colour 0. */
  lemma PickIsArgmax(g: Grid, k: int)
    requires NonEmpty(g)
    ensures (forall d :: !Candidate(g, k, d)) ==> Pick(g, k) == 0
    ensures (exists d :: Candidate(g, k, d)) ==>
      && Candidate(g, k, Pick(g, k))
      && (forall d :: Candidate(g, k, d) ==> Gain(g, d) <= Gain(g, Pick(g, k)))
      && (forall d :: Candidate(g, k, d) && d < Pick(g, k) ==> Gain(g, d) < Gain(g, Pick(g, k)))
  {
    var scores := Scores(g, k);
    forall d | 0 <= d < |scores|
      ensures scores[d] == Gain(g, d)
    {
      ScoresAt(g, k, d);
    }
    ScanFromArgmax(scores, g[0][0], 0, 0, -1);
    CandidatesTried(g, k);
  }

  /** The scan over candidate colours of one greedy step. */
  method GreedyColor(g: Grid, colorCount: int) returns (bestColor: int)
    requires NonEmpty(g)
    ensures bestColor == Pick(g, colorCount)
  {
    var origin := g[0][0];
    bestColor := 0;
    var bestGain: int := -1;
    var c := 0;
    while c < colorCount
      invariant 0 <= c
      invariant ScanFrom(Scores(g, colorCount), origin, c, bestColor, bestGain) == Pick(g, colorCount)
      decreases colorCount - c
    {
      if c != origin {
        var sim, recoloured := FloodFill(g, origin, c);
        var covered := CountMatching(sim, sim[0][0]);
        ScoresAt(g, colorCount, c);
        if covered > bestGain {
          bestGain := covered;
          bestColor := c;
        }
      }
      c := c + 1;
    }
  }

  /** The move count of a trial from g that has made `moves` moves, with
      `guard` iterations of the guard left, when each move turns the board
      b into next(b). */
  ghost function Trial(g: Grid, next: Grid -> Grid, guard: nat, moves: int, total: int): int
    decreases guard
  {
    if guard == 0 || Uniform(g) then moves
    else if moves + 1 > total then moves + 1
    else Trial(next(g), next, guard - 1, moves + 1, total)
  }

  /** One greedy move: flood the origin region with the picked colour. A
      board without cells is left as it is. */
  ghost function Step(g: Grid, k: int): (next: Grid)
    ensures SameShape(next, g)
  {
    if NonEmpty(g) then Flooded(g, g[0][0], Pick(g, k)) else g
  }

  /** The greedy move with k colours, as a move function for Trial. */
  ghost function Greedy(k: int): Grid -> Grid {
    b => Step(b, k)
  }

  /** What the estimator returns for g with k colours and the given number
      of trials: every trial runs the same deterministic search, so the
      least of them is any one of them; with no trial it is the number of
      cells. */
  ghost function Estimate(g: Grid, k: int, trials: int): int {
    if trials <= 0 then Total(g)
    else if Total(g) == 0 then 0
    else Trial(g, Greedy(k), 3 * Total(g), 0, Total(g))
  }

  /** A trial ends with at least the moves already made and at most one
      more move than there are cells. */
  lemma {:induction false} TrialBound(g: Grid, next: Grid -> Grid, guard: nat, moves: int, total: int)
    requires moves <= total
    ensures moves <= Trial(g, next, guard, moves, total) <= total + 1
    decreases guard
  {
    if guard > 0 && !Uniform(g) && moves + 1 <= total {
      TrialBound(next(g), next, guard - 1, moves + 1, total);
    }
  }

  /** A trial from a fresh start makes no move exactly when the board is
      already one colour. */
  lemma TrialZeroIffUniform(g: Grid, next: Grid -> Grid, guard: nat, total: int)
    requires guard > 0 && total >= 0
    ensures Trial(g, next, guard, 0, total) == 0 <==> Uniform(g)
  {
    if !Uniform(g) && total >= 1 {
      TrialBound(next(g), next, guard - 1, 1, total);
    }
  }

  /** The estimate is between 0 and one more than the number of cells, is
      the number of cells when no trial is run, and is 0 exactly on a board
      that is already one colour (or has no cell). */
  lemma EstimateBounds(g: Grid, k: int, trials: int)
    ensures 0 <= Estimate(g, k, trials) <= Total(g) + 1
    ensures trials <= 0 ==> Estimate(g, k, trials) == Total(g)
    ensures trials > 0 ==> (Estimate(g, k, trials) == 0 <==> Total(g) == 0 || Uniform(g))
  {
    if trials > 0 && Total(g) > 0 {
      TrialBound(g, Greedy(k), 3 * Total(g), 0, Total(g));
      TrialZeroIffUniform(g, Greedy(k), 3 * Total(g), Total(g));
    }
  }

  /** One round of a greedy trial on a board of several colours: the move
      is made, and the trial stops once it passes the number of cells. */
  lemma TrialRound(w: Grid, k: int, guard: nat, moves: int, total: int)
    requires guard > 0 && !Uniform(w)
    ensures Trial(w, Greedy(k), guard, moves, total)
         == if moves + 1 > total then moves + 1
            else Trial(Step(w, k), Greedy(k), guard - 1, moves + 1, total)
  {
    assert Greedy(k)(w) == Step(w, k);
  }

  /** One greedy move of a trial on the working copy w: pick the colour,
      then flood the origin region with it. */
  method GreedyMove(w: Grid, colorCount: int) returns (w': Grid)
    requires NonEmpty(w)
    ensures w' == Step(w, colorCount)
  {
    var c := GreedyColor(w, colorCount);
    var recoloured;
    w', recoloured := FloodFill(w, w[0][0], c);
  }

  /** One iteration of a trial's loop on the working copy w, with the
      guard counted down first: stop on a board of one colour; otherwise
      make the greedy move and stop once the move count passes the number
      of cells. */
  method PlayRound(w: Grid, colorCount: int, guard: nat, moves: int, total: int)
    returns (w': Grid, guard': nat, moves': int, stop: bool)
    requires NonEmpty(w) && guard > 0
    ensures NonEmpty(w') && guard' == guard - 1
    ensures stop ==> moves' == Trial(w, Greedy(colorCount), guard, moves, total)
    ensures !stop ==>
      Trial(w', Greedy(colorCount), guard', moves', total) == Trial(w, Greedy(colorCount), guard, moves, total)
  {
    guard' := guard - 1;
    var uniform := AllEqual(w);
    if uniform {
      return w, guard', moves, true;
    }
    TrialRound(w, colorCount, guard, moves, total);
    w' := GreedyMove(w, colorCount);
    moves' := moves + 1;
    stop := moves' > total;
  }

  /** One trial: simulate greedy moves on a copy of g, which has
      total > 0 cells, for at most three times as many iterations as there
      are cells. */
  method RunTrial(g: Grid, colorCount: int, total: int) returns (moves: int)
    requires NonEmpty(g) && total == Total(g)
    ensures moves == Trial(g, Greedy(colorCount), 3 * total, 0, total)
  {
    var w := g;
    moves := 0;
    var guard: nat := 3 * total;
    var stop := false;
    while guard != 0 && !stop
      invariant NonEmpty(w)
      invariant stop ==> moves == Trial(g, Greedy(colorCount), 3 * total, 0, total)
      invariant !stop ==> Trial(w, Greedy(colorCount), guard, moves, total) == Trial(g, Greedy(colorCount), 3 * total, 0, total)
    {
      w, guard, moves, stop := PlayRound(w, colorCount, guard, moves, total);
    }
  }

  /** The estimator: the least move count over `trials` trials, or the
      number of cells when there is no trial. On a board without cells the
      guard starts at 0 and a trial makes no move. */
  method EstimateOptimalMoves(g: Grid, colorCount: int, trials: int) returns (est: int)
    ensures est == Estimate(g, colorCount, trials)
  {
    var total := Total(g);
    var hasBest := false;
    var best := 0;
    var t := 0;
    while t < trials
      invariant hasBest <==> t > 0
      invariant hasBest ==> best == Estimate(g, colorCount, trials)
      decreases trials - t
    {
      var moves := 0;
      if total > 0 {
        moves := RunTrial(g, colorCount, total);
      }
      if !hasBest || moves < best {
        best := moves;
      }
      hasBest := true;
      t := t + 1;
    }
    est := if hasBest then best else total;
  }
}
