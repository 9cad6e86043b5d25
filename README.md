# Flood-it puzzle engine, modelled in Dafny

This project models the engine of a single-page "flood-it" puzzle (`app.js`):

- A seeded random stream: the xmur3 string hash seeds mulberry32.
- Grid generation from that stream.
- The breadth-first flood fill that recolours the region connected to the top-left origin cell.
- The game state: the move, undo, reset and new-game handlers.
- Coverage.
- The greedy estimator behind the score.

The modules follow the engine's parts:

| module | file | what it holds |
|---|---|---|
| `Prng` | `prng.dfy` | xmur3 and mulberry32 as classes over `bv32` state (32-bit wrap-around, `Math.imul`, `>>>`). The stream a state produces is a function of that state. |
| `Grids` | `grids.dfy` | Boards as `seq<seq<int>>`. Uniformity, counting, and the row-major board a seed produces. |
| `Flood` | `flood.dfy` | The region of the origin, defined by walks through cells of its colour. The painted board. The BFS `FloodFill`, proved to compute exactly that board and count. |
| `Estimator` | `estimator.dfy` | The one-ply greedy choice and the bounded greedy trial as specification functions. The loops of `estimateOptimalMoves` are proved against them. |
| `Game` | `game.dfy` | The page's `state` object as a class. Its handlers are tied to pure transition functions on a `Play` value, and the properties are proved about those functions. |

Notes on how the model reads the code:

- A seed string is its UTF-16 code units, what `charCodeAt` reads.
- Cell colours are integers: `floor(u / 2^32 * colorCount)` is `(u * colorCount) / 2^32` for a 32-bit `u` and a small `colorCount`.
- The mulberry32 counter `a` is a JavaScript number grown by `+=`. It is kept modulo 2^32 here, which is all that `>>>`, `^`, `|` and `Math.imul` read of it.
- Reset only zeroes `movesUsed` (`app.js:350-355`). It keeps the board and the undo stack, so an undo after a reset restores the snapshot's move count (`Game.UndoAfterReset`).

## Model

| member | source | states |
|---|---|---|
| Prng.Xmur3.constructor | app.js:3-8 | The hash state starts at `1779033703 ^ length` and absorbs each code unit left to right (multiply, then rotate by 13). |
| Prng.Xmur3Start | app.js:4 | The hash state before any code unit is 1779033703 xor the string's length, taken mod 2^32. |
| Prng.AbsorbStep | app.js:6-7 | Absorbing one code unit xors it into the state, multiplies by 3432918353 mod 2^32, then rotates left by 13. |
| Prng.Absorb | app.js:5-8 | The state after absorbing the code units of a string from left to right. |
| Prng.Xmur3.Next | app.js:9-13 | One call of the hash closure scrambles its state and returns the state xor-shifted by 16. |
| Prng.Scramble | app.js:10-11 | The two multiply-and-xor-shift updates of the hash closure's state. |
| Prng.Emit | app.js:12 | The closure's output: the updated state xor itself shifted right by 16, unsigned. |
| Prng.SeedState | app.js:27 | The mulberry32 seed of a string is the first output of xmur3 over its code units. |
| Prng.Mulberry32.constructor | app.js:15 | The generator's state starts at the seed it is given. |
| Prng.Mulberry32.Next | app.js:16-21 | One call advances the state by `0x6d2b79f5` and returns the mix of the advanced state. |
| Prng.Mix | app.js:18-20 | The unsigned 32-bit output that the closure divides by 2^32, computed from the advanced state. |
| Prng.MixRounds | app.js:18-20 | The closure's local t after its first one, two or three assignments. |
| Prng.Advance | app.js:17 | The state after n calls: the start plus n times 0x6d2b79f5, mod 2^32. |
| Prng.Rnd | app.js:23-29 | The seed used is the given one, or the fallback when the given one is empty. The generator starts from the first hash output of the seed used. |
| Prng.StatesAt | app.js:17 | The state after call i + 1 is the start advanced i + 1 times. |
| Prng.StreamAt | app.js:15-21 | Output i of a generator mixes its state after i + 1 calls, however many outputs follow it. |
| Prng.AdvanceAdd | app.js:17 | n calls and then m calls advance the state as n + m calls do. |
| Prng.StreamConcat | app.js:15-21 | Drawing n outputs and then m more gives the first n + m outputs. |
| Grids.AllEqual | app.js:211-219 | The cell loop answers true exactly when every cell equals the origin cell. |
| Grids.Uniform | app.js:211-219 | The board is won: every cell of every row equals the origin cell. A cell compared with the missing origin of an empty first row never matches. |
| Grids.UniformIffAllOrigin | app.js:211-219 | On a board with an origin, "won" is the same as "every cell has the origin's colour". |
| Grids.CountMatching | app.js:232-236 | The cell loop counts exactly the cells equal to v. |
| Grids.CountColor | app.js:232-236 | The number of cells equal to v, over each row's own length. |
| Grids.CountColorFull | app.js:224-238 | On rows of width w, the count of v is at most rows × w. It equals rows × w exactly when every cell is v. |
| Grids.FullCoverageIffUniform | app.js:224-238 | On a rectangular board with an origin, the origin's count is at most rows × cols. It equals rows × cols exactly when the board is uniform. |
| Grids.CellColor | app.js:98 | A 32-bit output scaled by colorCount is a colour in [0, colorCount). |
| Grids.Colors | app.js:97-99 | One colour per output, each in the palette. |
| Grids.Chop | app.js:97-99 | Cutting rows × cols cells row by row gives rows rows of cols cells. |
| Grids.ChopCell | app.js:97-99 | Cell (r, c) of the cut board is cell r × cols + c of the sequence (row-major order). |
| Grids.ChopInPalette | app.js:463-468 | Cells in the palette give a board in the palette. |
| Grids.GenerateGrid | app.js:417-422 | The board of a seed has rows rows of cols cells, all in [0, colorCount). It is a function of (rows, cols, colorCount, seed), so the same seed gives the same board. |
| Grids.GeneratedCell | app.js:417-422 | Cell (r, c) of a generated board is the colour of output r × cols + c of the seed's generator. |
| Grids.DrawGrid | app.js:97-99 | The nested construction draws one output per cell, row by row, and leaves the generator rows × cols calls further on. |
| Grids.DrawRow | app.js:98 | One row consumes cols outputs, in order. |
| Grids.DistinctSeedsExample | app.js:451-457 | The 4 × 4, 3-colour boards of "seedA" and "seedB" differ: their origins are 2 and 1. |
| Flood.FloodFill | app.js:156-189 | The BFS returns the painted board. The count is 0 when the two colours are equal, and otherwise the size of the origin's region. |
| Flood.InRegion | app.js:156-189 | A cell is reached by the flood when a walk of 4-neighbour steps through in-bounds cells of the origin colour leads to it from (0, 0). |
| Flood.Region | app.js:156-189 | The set of board cells the flood reaches. |
| Flood.PushNeighbors | app.js:171-185 | The newly seen cells are exactly the unseen in-bounds neighbours that still hold the origin colour. The queued cells are exactly the newly seen ones. |
| Flood.SearchStart | app.js:161-164 | The search invariant holds with the origin queued and seen, and nothing painted. |
| Flood.SearchSkip | app.js:166-168 | Dropping a queued cell that is out of bounds or no longer of the origin colour keeps the invariant. |
| Flood.SearchVisit | app.js:165-185 | Painting a dequeued cell and queueing its neighbours keeps the invariant. The count grows by one for each painted cell. |
| Flood.FloodDone | app.js:165-188 | With the queue empty, the painted cells are exactly the region and the board is the painted board. |
| Flood.RegionInside | app.js:165-185 | Any cell set that holds the origin and is closed under same-colour neighbours contains the whole region. |
| Flood.Flooded | app.js:156-189 | The painted board keeps the dimensions of the board. |
| Flood.FloodedCell | app.js:156-189 | A cell of the region takes the new colour, and every other cell keeps its colour. |
| Flood.FloodedSameColor | app.js:157 | Flooding a colour with itself leaves the board as it is. |
| Flood.FloodedOriginMismatch | app.js:168 | When the origin does not have the origin colour, the region is empty and the board is unchanged. |
| Flood.FloodedOrigin | app.js:445-448 | When the origin has the origin colour, it is in the region and takes the new colour. |
| Flood.FloodedIdempotent | app.js:156-189 | Flooding twice with the same two colours is flooding once. |
| Flood.FloodedRegionGrows | app.js:156-189 | Every cell of the old region belongs to the new colour's region afterwards. |
| Flood.FloodedInPalette | app.js:156-189 | Flooding with a palette colour keeps the board in the palette. |
| Flood.TestBoardRegionSet | app.js:439-445 | On the 3 × 3 test board, the region of colour 0 is {(0,0), (1,0)}, so the count is 2. |
| Flood.TestBoardFlood | app.js:439-448 | Flooding the test board from 0 to 1 gives the expected board, whose origin is 1. |
| Estimator.Total | app.js:243-246 | The area is positive exactly when the board has an origin cell. |
| Estimator.Gain | app.js:259-288 | The score of a candidate colour: the origin colour's count on a copy after flooding the origin's region with it. |
| Estimator.Pick | app.js:255-293 | The colour the candidate loop settles on: the first candidate with a strictly larger score, starting from colour 0 and score -1. |
| Estimator.ScoresAt | app.js:257-292 | The score of colour c is the number of cells matching the origin after simulating c. |
| Estimator.ScanFromArgmax | app.js:255-292 | The scan skipping the origin colour returns a tried colour with the largest score. Every smaller tried colour has a strictly smaller score, so ties go to the lowest index. With no tried colour it returns 0. |
| Estimator.PickIsArgmax | app.js:253-293 | The greedy colour is a candidate with the largest gain. No smaller candidate gains as much. With no candidate the colour is 0. |
| Estimator.GreedyColor | app.js:253-293 | The candidate loop computes the greedy colour. |
| Estimator.Step | app.js:294-316 | A greedy move keeps the board's dimensions. |
| Estimator.GreedyMove | app.js:294-316 | The final BFS floods the origin's region with the greedy colour. |
| Estimator.TrialBound | app.js:250-319 | A trial ends with at least the moves already made and at most total + 1. |
| Estimator.Trial | app.js:250-319 | One trial: stop when the guard runs out or the board is uniform; otherwise make the move, count it, and stop once the count exceeds the area. |
| Estimator.Estimate | app.js:241-323 | The area when there are no trials, and otherwise the count of the greedy trial from the current board with guard 3 × area. |
| Estimator.TrialZeroIffUniform | app.js:252-254 | A trial needs 0 moves exactly when the board is already uniform. |
| Estimator.TrialRound | app.js:252-318 | One round on a non-uniform board either stops at the cap `moves > total` or continues from the greedily moved board with one more move. |
| Estimator.PlayRound | app.js:252-318 | One iteration of the guarded loop preserves the value the whole trial will return. |
| Estimator.RunTrial | app.js:249-319 | The guarded loop returns the greedy trial's move count. |
| Estimator.EstimateBounds | app.js:241-323 | The estimate lies in [0, total + 1]. It is total when there are no trials. It is 0 exactly when the board is empty or uniform. |
| Estimator.EstimateOptimalMoves | app.js:241-323 | The best over the trials is the greedy trial's count, because trials are deterministic and all equal. It is the area when there are no trials. |
| Game.AfterChoose | app.js:191-209 | A move changes nothing exactly when the board is won, the limit is reached, or the colour is the origin's. Otherwise it pushes one snapshot of the previous board and move count, keeps the dimensions, gives the origin the chosen colour, and counts exactly one more move. |
| Game.OutOfMoves | app.js:220-222 | The game is out of moves when the moves used have reached the limit. |
| Game.Refused | app.js:192-197 | A move is refused when the board is won, the game is out of moves, or the colour is the origin's. |
| Game.AfterUndo | app.js:356-367 | With an empty stack nothing changes. Otherwise the stack shrinks by one and its top is the restored board and move count. |
| Game.AfterReset | app.js:350-355 | The board, the undo stack and the last colour are kept, and the move count becomes 0. |
| Game.UndoAfterChoose | app.js:356-367 | Undo after an accepted move restores the exact board, move count and stack of before the move. After it the game is neither won nor out of moves. |
| Game.UndoAfterReset | app.js:350-367 | A reset does not change what the next undo restores. |
| Game.ChooseGrowsRegion | app.js:198-203 | An accepted move keeps every cell of the old region connected to the origin. |
| Game.ChooseInPalette | app.js:198-204 | A move with a palette colour keeps every cell in the palette. |
| Game.Clamp | app.js:381-383 | The result is at least min, and at most max when min ≤ max. It is v inside the range and the nearer end outside it. |
| Game.ScoreParts | app.js:325-329 | The moves left are never negative, and are limit − movesUsed while within the limit. The divisor lies in [1, area + 1] and is 1 on a won board. |
| Game.Deal | app.js:91-99 | The generator of the seed, and the board drawn from it, is the generated board of that seed. |
| Game.State.constructor | app.js:65-76 | The initial state: 10 × 10 cells, 6 colours, 25 moves, no seed and no board. |
| Game.State.ReadSettings | app.js:370-380 | Rows and columns are clamped to [4, 20], colours to [3, 8] and the limit to [8, 60]. The board and the stack are untouched. |
| Game.State.InitGrid | app.js:91-102 | The board is the generated board of the seed used. The stack is empty, no moves are used, and the last colour is the origin's. |
| Game.State.NewGame | app.js:346-349 | Clamped settings, then a fresh board of rows × cols palette colours with an empty stack. |
| Game.State.IsWon | app.js:211-219 | True exactly when every cell has the origin's colour. |
| Game.State.IsOutOfMoves | app.js:220-222 | True exactly when the moves used have reached the limit. |
| Game.State.ChooseColor | app.js:191-209 | The move is accepted exactly when it is not refused. The new state is `AfterChoose` of the old state. The settings are unchanged. |
| Game.State.Accept | app.js:198-204 | The accepted branch pushes the snapshot, floods, and counts the move. |
| Game.State.Undo | app.js:356-367 | It reports whether there was a snapshot. The new state is `AfterUndo` of the old state. |
| Game.State.Reset | app.js:350-355 | The new state is `AfterReset` of the old state, and nothing else changes. |
| Game.State.Coverage | app.js:224-238 | The pair is (cells of the origin's colour, rows × cols), or (0, 0) for a board with no row or an empty first row. On a rectangular board the two are equal exactly when the board is won. |
| Game.State.ComputeScore | app.js:325-329 | It returns the moves left and the estimate over three trials, floored at 1. The state is not modified. |

## Left out

- Rendering and the page: palette buttons, board drawing, seams, status texts, the win/lose announcements, event wiring and keyboard shortcuts. They hold no logic beyond the handlers modelled here.
- The random fallback seed (`Math.random().toString(36)`): it is the parameter `fallback` of `Prng.Rnd`, `Game.State.InitGrid` and `Game.State.NewGame`.
- `String.prototype.trim` on the seed: the seed is taken as already trimmed.
- Reading the form fields: `Game.State.ReadSettings` takes integers. The `+value` conversion and the `isFinite` branch of `clamp` (non-numeric input becomes the minimum) are floating-point handling and are not modelled.
- Floating-point results: the coverage ratio `n / total`, its rounding to a percentage, and the score's `remaining / est` with `toFixed(2)`. The model keeps their integer numerators and denominators.
- Prng.Mulberry32.Next: the state is kept modulo 2^32. The JavaScript number loses exactness only after about 2^53 / 0x6d2b79f5 ≈ 4.9 million calls.
- Game.State.IsWon: it requires a board with at least one row. The source throws reading the origin of an empty board, which only exists before the first game.
- Game.State.ChooseColor: it requires the class invariant and a board. The board exists from the first new game on, and the source throws before that.
- Flood.PushNeighbors: its contract gives which cells are queued, not their order. The region painted and the count do not depend on that order.
- The estimator's three BFS copies are modelled by the one `Flood.FloodFill`. They differ from `flood` in three ways, none of them observable. They keep no count, and the count is not used there. They lack the dequeue bounds check, but only in-bounds cells are ever queued. The final BFS (`app.js:294-316`) lacks the early return for equal colours (`app.js:157`), so it runs even when no candidate was tried and the picked colour is the origin's own. Flooding a region with its own colour leaves the board as it was (`Flood.FloodedSameColor`), which is also what the early return gives.
- Estimator.Step: on a board with no origin cell it is the identity. The estimator never steps such a board, because its guard is 0 there.
- `runTests` is console plumbing. Its expectations appear as lemmas: `Grids.GenerateGrid` (determinism), `Game.State.Coverage` (uniform boards), `Flood.TestBoardFlood` and `Grids.DistinctSeedsExample`.
