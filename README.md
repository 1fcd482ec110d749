# Match-3 engine model

A Dafny model of the core of a small match-3 game, written in Python and
pygame (`ai_version.py`). The game has a 6 x 6 board of tokens of 5 kinds.
The player clicks a tile, then clicks a neighbour, and the two tokens swap.
A swap that lines up three or more equal tokens in a row or column stays.
The matched tiles shrink away, the tiles above them fall, and new random
tokens drop in from above the board. This repeats as a cascade while the
refilled board has matches, and each cleared cell scores 10 points. A swap
that makes no match is swapped back.

The model follows the program's structure, one module per concern:

- `Model` (model.dfy) holds the shared definitions:
  - the constants `GRID` and `N_TYPES`;
  - cells (`Option<Token>`, where `None` is an empty cell) and positions;
  - `Snapshot`, the value view of the board.

  The board itself is an `array2<Cell>` that the operations update in
  place, as the Python list of lists is. Specification functions work on
  its value, a `Grid`.
- `Geometry` (geometry.dfy) holds the mouse-to-cell mapping and the
  adjacency test.
- `Matches` (matches.dfy) holds `find_matches`. It is modelled as a
  two-sweep imperative method and proved equal to a reference definition,
  `MatchSet`: a cell is matched when it lies inside a window of three
  equal tokens in its row or its column.
- `BoardOps` (board.dfy) holds `new_board`, `clear_matches`, `swap` and
  `drop_and_fill`. Each is an imperative method on the array, specified by
  a function on the grid (`Cleared`, `Swapped`, `Refilled`).
- `Animations` (animations.dfy) holds `make_shrink_animation` and
  `compute_fall_animation`. The fall is specified by `Fallen`, the board it
  lands on, and by `FallMoves`, the tile moves it records.
- `Cascades` (cascade.dfy) holds `resolve_cascades` and
  `make_start_stable`. Both are loops specified by the recursive function
  `Cascade`, which repeats `Round` (match, clear, drop and fill).
- `Game` (game.dfy) is the main loop as a class. It has:
  - the board, the score, the selection, the animation start time and a
    `Phase`: `Idle`, `Swapping`, `Shrinking` or `Falling`;
  - the constructor, the program start;
  - `Tick`, the completion of the running animation in each frame;
  - `Click`, the handling of a mouse click.

Randomness is an injected stream `rand: nat -> Token` plus a count of the
draws taken so far. The model keeps the program's draw order:

- `new_board` draws row by row;
- `drop_and_fill` gives the first draw of a column to its lowest empty
  row;
- `compute_fall_animation` gives the first draw of a column to its top
  row.

So the board a fall lands on holds the same surviving tokens, in the same
places, as `drop_and_fill` would give. The new tokens above them come in
the mirrored order. `FallenVsRefilled` states this exactly.

Two points of the program's control flow that the model follows:

- The program stabilises its start board with `make_start_stable`, which
  refills without scoring. `resolve_cascades` is defined but never called
  by the main loop. Both are modelled.
- In each frame the loop first finishes a due animation, and only then
  handles clicks. A frame is therefore a `Tick` followed by `Click`s.
  Clicks are ignored unless the phase is `Idle`.

## Model

| member | source | states |
|---|---|---|
| Geometry.PixelToCell | ai_version.py:78-94 | a returned cell is on the board and the pixel lies inside its tile rectangle; a pixel inside the tile of a board cell returns exactly that cell, so margins and points outside the board give None |
| Geometry.Adjacent | ai_version.py:99-102 | true exactly for the four orthogonal neighbours (same row with column differing by one, or same column with row differing by one) |
| Geometry.AdjacentSymmetric | ai_version.py:99-102 | adjacency is symmetric and no cell is adjacent to itself |
| Matches.FindMatches | ai_version.py:124-155 | returns exactly the set of cells lying in a run of three or more equal tokens in their row or column, and leaves the board unchanged |
| Matches.SweepRow | ai_version.py:128-138 | one row of the horizontal sweep adds exactly the cells of that row lying in a run of three or more equal tokens to what the earlier rows gave |
| Matches.SweepColumn | ai_version.py:142-152 | one column of the vertical sweep adds exactly the cells of that column lying in a run of three or more equal tokens to what the row sweep and the earlier columns gave |
| Matches.MatchSound | ai_version.py:124-155 | every reported cell is on the board, holds a token, and lies in a window of three equal tokens in its row or column |
| Matches.MatchComplete | ai_version.py:124-155 | all three cells of every row or column window of equal tokens are reported |
| Matches.EmptyNeverMatched | ai_version.py:135 | an empty cell is never reported, because runs of empty cells are skipped |
| Matches.NoMatchIffNoTriple | ai_version.py:124-155 | the result is empty if and only if no row and no column holds three equal tokens in a row |
| Matches.MatchSetAtLeastThree | ai_version.py:124-155 | a non-empty result holds at least three cells |
| Matches.RowWindow | ai_version.py:128-138 | the three cells of a row window of equal tokens are all reported |
| Matches.ColumnWindow | ai_version.py:142-152 | the three cells of a column window of equal tokens are all reported |
| BoardOps.NewBoard | ai_version.py:120-121 | a fresh 6 x 6 board with no empty cell whose cells are the next 36 draws, row by row |
| BoardOps.CopyBoard | ai_version.py:235 | a fresh board with the same contents, so later writes to it leave the original alone |
| BoardOps.ClearMatches | ai_version.py:160-162 | the board becomes the cleared grid: the given cells are empty and every other cell is unchanged |
| BoardOps.ClearedCells | ai_version.py:160-162 | a cell of the cleared grid is empty if it was given and otherwise keeps its token |
| BoardOps.ClearIdempotent | ai_version.py:160-162 | clearing the same cells twice is the same as clearing them once |
| BoardOps.Swap | ai_version.py:200-203 | the board becomes the grid with the two cells' contents exchanged |
| BoardOps.SwappedCells | ai_version.py:200-203 | the two cells receive each other's contents and every other cell is unchanged |
| BoardOps.SwapInvolution | ai_version.py:200-203 | swapping the same two cells twice gives the original board back |
| BoardOps.SwapKeepsFull | ai_version.py:200-203 | swapping on a board with no empty cell leaves no empty cell |
| BoardOps.Gather | ai_version.py:181-184 | the stack collected from a column, bottom first, is its tokens in reverse order |
| BoardOps.Restack | ai_version.py:187-195 | the stacked tokens go back from the bottom row up, the cells above them get new draws with the first on the lowest, other columns are untouched, and one draw is used per empty cell |
| BoardOps.SettleColumn | ai_version.py:181-195 | one column becomes its settled form: the survivors at the bottom in their order, the new draws above them; other columns are untouched |
| BoardOps.DropAndFill | ai_version.py:179-195 | the board becomes the refilled grid, every column settled in turn, using one draw per empty cell |
| BoardOps.SurvivorsKeepTokens | ai_version.py:181-190 | dropping keeps exactly the tokens of the column, as a multiset |
| BoardOps.RefilledFull | ai_version.py:179-195 | the refilled board has no empty cell |
| BoardOps.RefilledColumnOrder | ai_version.py:179-195 | read top to bottom, a refilled column holds the reversed draws followed by the column's tokens in their original order |
| BoardOps.RefilledColumnsIndependent | ai_version.py:179-195 | a refilled column depends only on that column and on where its draws start, not on the other columns |
| BoardOps.RefilledColumnSame | ai_version.py:179-195 | two boards that agree on a column and on where its draws start refill that column alike |
| BoardOps.RefilledColumnOf | ai_version.py:179-195 | each column of the refilled board is the refilled form of that column |
| BoardOps.RefilledOfFull | ai_version.py:179-195 | a board with no empty cell is left as it is and uses no draws |
| Animations.MakeShrinkAnimation | ai_version.py:165-176 | the animation holds the matched set, a snapshot of the board, and one shrinking tile per matched cell showing that cell's token |
| Animations.CollectExisting | ai_version.py:252-255 | the collected tiles of a column are its occupied cells, read from the bottom row upwards with their row and token |
| Animations.DropExisting | ai_version.py:258-270 | the i-th collected tile lands on row GRID - 1 - i of its column, the recorded moves are those drops in order, and every other cell, including the rows of the column above the dropped tiles, is untouched |
| Animations.SpawnNew | ai_version.py:273-285 | row q of the top num_new rows receives the q-th draw, the recorded moves enter num_new - q rows above the board, one draw is used per new tile, and nothing else changes |
| Animations.PlaceColumn | ai_version.py:258-285 | the existing tiles land from the bottom row up, the i-th new tile from the top lands on row i as the i-th draw, the recorded drops are the existing tiles' moves, and one draw is used per empty cell |
| Animations.FallColumn | ai_version.py:250-285 | the recorded moves of one column are its drops followed by its spawns, and the column of the result is its fallen column |
| Animations.FallAllColumns | ai_version.py:250-285 | the result board is the fallen board column by column, and the records are the column moves in column order |
| Animations.ComputeFallAnimation | ai_version.py:234-297 | the input board is unchanged, the recorded board before is it with the matches cleared, the board after is a fresh board that is the fallen board and has no empty cell, the tiles are the fall moves, and the cleared count is the number of matches |
| Animations.FallMovesCount | ai_version.py:250-285 | one move is recorded per board cell, GRID * GRID in all |
| Animations.FallMovesSlice | ai_version.py:250-285 | the moves of column c are records c * GRID to (c + 1) * GRID |
| Animations.FallMovesPrefix | ai_version.py:250-285 | the moves recorded for the first columns are a prefix of those recorded for more columns |
| Animations.FallMovesStep | ai_version.py:250-285 | each column appends its own moves to the record, in column order |
| Animations.ColumnMovesSplit | ai_version.py:258-285 | the moves of a column are the drops of its existing tiles followed by the spawns of its new ones |
| Animations.DropMoveAt | ai_version.py:258-270 | the i-th existing tile from the bottom starts on the row holding its token, ends no higher, on row GRID - 1 - i, and lands on the cell of the fallen column holding its token |
| Animations.SpawnMoveAt | ai_version.py:273-285 | the j-th new tile enters holes - j rows above the board, lands on row j as draw j, and that cell of the fallen column holds it |
| Animations.ColumnDrops | ai_version.py:258-270 | all the first GRID - holes moves of a column are drops of existing tiles as in DropMoveAt |
| Animations.ColumnSpawns | ai_version.py:273-285 | all the last holes moves of a column are the spawns of SpawnMoveAt |
| Animations.ColumnLands | ai_version.py:258-285 | every move of a column lands on the cell of the fallen column that holds its token |
| Animations.ColumnRowsDistinct | ai_version.py:258-285 | no two moves of a column land on the same row, so each row receives exactly one tile: drops fill the column from the bottom row up, spawns from the top row down |
| Animations.SettledNewRow | ai_version.py:273-285 | above the survivors, row q of the fallen column holds draw q |
| Animations.SettledOldRow | ai_version.py:258-270 | below the new tokens, each row of the fallen column holds the surviving token counted from the bottom |
| Animations.FallenFull | ai_version.py:234-297 | the board after the fall has no empty cell |
| Animations.FallenVsRefilled | ai_version.py:234-297 | the board after the fall equals the drop_and_fill result below each column's empty-cell count, and mirrors it row for row above |
| Animations.FallenColumnOrder | ai_version.py:234-297 | read top to bottom, a fallen column holds the column's draws in drawn order followed by its surviving tokens in their original order |
| Cascades.ClearAndSettle | ai_version.py:212-215 | one round: the board becomes the matches cleared and then refilled |
| Cascades.ResolveCascades | ai_version.py:208-217 | the board, total and draws are those of the cascade definition; the loop stops because no match is left, or because the fuel runs out; it reports stable exactly when no match is left, and a board with no empty cell stays so |
| Cascades.MakeStartStable | ai_version.py:222-229 | the board and draws are those of the cascade definition, without scoring; it reports stable exactly when no match is left, and a board with no empty cell stays so |
| Cascades.CascadeStable | ai_version.py:208-229 | a cascade ends stable if and only if the final board has no match |
| Cascades.ContinueStable | ai_version.py:208-229 | the same as CascadeStable, for the rest of a cascade after one round |
| Cascades.CascadeTotal | ai_version.py:208-217 | the total cleared is at least three per round, and it is zero exactly when no round ran |
| Cascades.ContinueTotal | ai_version.py:208-217 | after a round that cleared at least three cells, the total is positive and at least three per round |
| Cascades.CascadeUsesFuel | ai_version.py:208-229 | a cascade that ends unstable has used all its rounds |
| Cascades.ContinueUsesFuel | ai_version.py:208-229 | the same as CascadeUsesFuel, for the rest of a cascade after one round |
| Cascades.CascadeFull | ai_version.py:208-229 | after at least one round, or from a board with no empty cell, the final board has no empty cell |
| Cascades.ContinueFull | ai_version.py:208-229 | the rest of a cascade from a board with no empty cell ends with no empty cell |
| Cascades.CascadeOfStable | ai_version.py:208-229 | a board without three equal tokens in a row is left unchanged, with nothing cleared and nothing drawn |
| Game.StartBoard | ai_version.py:418-419 | a fresh board stabilised by the cascade, with no empty cell and no match, and the draws it used |
| Game.ClearAndFall | ai_version.py:500-502 | the matched cells are emptied in place, the fall starts from that board, lands on a fresh board with no empty cell, and uses one draw per emptied cell |
| Game.Game.constructor | ai_version.py:418-430 | the start: a new board stabilised by make_start_stable, with no match and no empty cell, score 0, nothing selected, no animation |
| Game.Game.Click | ai_version.py:514-540 | ignored during an animation and outside the tiles; otherwise it selects, deselects on a second click, moves the selection to a cell that is not adjacent, or starts a swap of adjacent cells holding their current tokens; board and score never change |
| Game.Game.Tick | ai_version.py:441-506 | nothing happens before the running animation's duration has elapsed; then the swap, shrink or fall completes as below; the game invariant holds, the selection is kept, and the score never decreases |
| Game.Game.FinishSwap | ai_version.py:459-477 | the tokens are exchanged; without a match they are put back and the game rests with the move cancelled; with matches the board stays swapped and exactly its matches shrink |
| Game.Game.StartShrink | ai_version.py:472-476 | as after a swap and again after a fall (lines 488-492), a board with matches starts the shrink of exactly its matches at the given time, with one shrinking tile per matched cell showing that cell's token (kept by the game invariant), leaving board, selection, score and draws alone |
| Game.Game.FinishShrink | ai_version.py:498-506 | the matched cells are emptied and the fall starts, landing on the fallen board with the count of matched cells |
| Game.Game.FinishFall | ai_version.py:480-495 | the board after the fall replaces the board, the score grows by 10 per cleared cell, and the game rests only when no match is left, else exactly the new matches shrink |

## Left out

- Drawing, images, fonts, the window, the event queue and `QUIT`: pygame I/O, outside the logic.
- The message text: only the `cancelled` result of `Game.Game.Tick` reports a cancelled move.
- Animation progress as a float, easing and interpolation of tile positions: they only affect drawing. A phase ends when the elapsed milliseconds reach its duration, which is when `min(1, elapsed / duration)` reaches 1.
- The clock and the mouse position are read by the program. In the model they are the `now` and `mx, my` parameters.
- `random.randrange`: replaced by the injected stream `rand` and a draw counter.
- The shake constants: declared in the program but never used.
- The iteration order of Python sets: the order of the shrinking tiles is left open, only their set of positions and their tokens are fixed.
- The key `"cleared"` that the program writes into the shrink animation is never read, so the `Shrinking` phase does not keep it; the fall that follows computes the same count, the number of matches.
- Cascades.ResolveCascades: runs at most `fuel` rounds, while the program loops until the board is stable; the `stable` result says whether it got there.
- Cascades.MakeStartStable: runs at most `fuel` rounds for the same reason.
- Game.Game.constructor: requires that the start board stabilises within `fuel` rounds, which the program takes for granted.
- Game.StartBoard: requires that the start board stabilises within `fuel` rounds, for the same reason as the constructor.
