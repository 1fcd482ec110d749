/** The animation records the game plays between board states: the shrink
    of matched tiles and the fall of the surviving and new tiles. */
module Animations {
  import opened Model
  import opened BoardOps

  // ---------------------------------------------------------------- shrink

  /** A matched tile that shrinks away in place. */
  datatype ShrinkTile = ShrinkTile(r: int, c: int, val: Cell)

  /** The shrink animation: its tiles, the cells it clears afterwards, and
      the board as it was when the animation started. */
  datatype ShrinkAnim = ShrinkAnim(tiles: seq<ShrinkTile>, matches: set<Pos>, before: Grid)

  function TilePos(t: ShrinkTile): Pos {
    Pos(t.r, t.c)
  }

  /** The cells the tiles of a shrink animation stand on. */
  function Positions(tiles: seq<ShrinkTile>): set<Pos> {
    set i | 0 <= i < |tiles| :: TilePos(tiles[i])
  }

  /** The tile stands on a cell of the board and carries its content. */
  predicate Shows(t: ShrinkTile, g: Grid)
    requires IsGrid(g)
  {
    InGrid(TilePos(t)) && t.val == g[t.r][t.c]
  }

  predicate AllShow(tiles: seq<ShrinkTile>, g: Grid)
    requires IsGrid(g)
  {
    forall i :: 0 <= i < |tiles| ==> Shows(tiles[i], g)
  }

  lemma AllShowSnoc(tiles: seq<ShrinkTile>, t: ShrinkTile, g: Grid)
    requires IsGrid(g) && AllShow(tiles, g) && Shows(t, g)
    ensures AllShow(tiles + [t], g)
  {
  }

  /** `make_shrink_animation`: one tile per matched cell, carrying the token
      the cell holds, in the iteration order of the set. */
  method MakeShrinkAnimation(board: array2<Cell>, matches: set<Pos>) returns (anim: ShrinkAnim)
    requires IsBoard(board)
    requires forall p :: p in matches ==> InGrid(p)
    ensures anim.matches == matches && anim.before == Snapshot(board)
    ensures Positions(anim.tiles) == matches && |anim.tiles| == |matches|
    ensures forall i :: 0 <= i < |anim.tiles| ==> Shows(anim.tiles[i], anim.before)
  {
    ghost var g := Snapshot(board);
    var tiles: seq<ShrinkTile> := [];
    var rest := matches;
    while rest != {}
      invariant Positions(tiles) + rest == matches && Positions(tiles) !! rest
      invariant |Positions(tiles)| == |tiles|
      invariant AllShow(tiles, g)
      decreases |rest|
    {
      var p :| p in rest;
      var tile := ShrinkTile(p.r, p.c, board[p.r, p.c]);
      AllShowSnoc(tiles, tile, g);
      PositionsSnoc(tiles, tile);
      MoveOne(Positions(tiles), rest, matches, p);
      tiles := tiles + [tile];
      rest := rest - {p};
    }
    anim := ShrinkAnim(tiles, matches, Snapshot(board));
  }

  /** Moving one element from the pending part of a partition of a set to
      its done part keeps the partition. */
  lemma MoveOne<T>(done: set<T>, rest: set<T>, all: set<T>, x: T)
    requires done + rest == all && done !! rest && x in rest
    ensures (done + {x}) + (rest - {x}) == all && (done + {x}) !! (rest - {x})
    ensures |done + {x}| == |done| + 1
  {
  }

  lemma PositionsSnoc(tiles: seq<ShrinkTile>, t: ShrinkTile)
    ensures Positions(tiles + [t]) == Positions(tiles) + {TilePos(t)}
  {
    var ext := tiles + [t];
    assert TilePos(ext[|tiles|]) == TilePos(t);
    forall p | p in Positions(tiles)
      ensures p in Positions(ext)
    {
      var i :| 0 <= i < |tiles| && TilePos(tiles[i]) == p;
      assert TilePos(ext[i]) == p;
    }
  }

  // ---------------------------------------------------------------- fall

  /** A tile falling in column c from row startR (negative: above the
      board) to row endR. */
  datatype FallTile = FallTile(startR: int, endR: int, c: int, val: Token)

  /** The fall animation: its tiles, the board with the matched cells
      emptied, and the board it lands on, which becomes the game board. */
  datatype FallAnim = FallAnim(tiles: seq<FallTile>, before: Grid, after: array2<Cell>)

  /** The occupied cells of line[r..] as (row, token) pairs, read from the
      bottom row upwards. */
  function Existing(line: seq<Cell>, r: int): (ex: seq<(int, Token)>)
    requires 0 <= r <= |line|
    ensures |ex| <= |line| - r
    ensures forall i :: 0 <= i < |ex| ==> r <= ex[i].0 < |line| && line[ex[i].0] == Some(ex[i].1)
    ensures forall i, j :: 0 <= i < j < |ex| ==> ex[i].0 > ex[j].0
    decreases |line| - r
  {
    if r == |line| then []
    else Existing(line, r + 1) + (if line[r].Some? then [(r, line[r].value)] else [])
  }

  /** The existing tiles are the surviving tokens, bottom one first. */
  lemma {:induction false} ExistingTokens(line: seq<Cell>, r: int)
    requires 0 <= r <= |line|
    ensures |Existing(line, r)| == |Survivors(line[r..])|
    ensures forall i :: 0 <= i < |Existing(line, r)| ==> Existing(line, r)[i].1 == Reverse(Survivors(line[r..]))[i]
    decreases |line| - r
  {
    if r < |line| {
      ExistingTokens(line, r + 1);
      StackStep(line, r);
    }
  }

  /** The i-th existing tile from the bottom has at least i occupied cells
      below it, so it lies no lower than row |line| - 1 - i. */
  lemma {:induction false} ExistingRowBound(line: seq<Cell>, r: int, i: int)
    requires 0 <= r <= |line| && 0 <= i < |Existing(line, r)|
    ensures Existing(line, r)[i].0 <= |line| - 1 - i
  {
    if i > 0 {
      ExistingRowBound(line, r, i - 1);
    }
  }

  /** Existing tiles dropping, the i-th of them to row bottom - i. */
  function DropMoves(ex: seq<(int, Token)>, c: int, bottom: int): (moves: seq<FallTile>)
    ensures |moves| == |ex|
  {
    seq(|ex|, i requires 0 <= i < |ex| => FallTile(ex[i].0, bottom - i, c, ex[i].1))
  }

  /** The first n of the total new tiles of a column: the i-th enters total - i
      rows above the board and lands on row i. */
  function SpawnMoves(total: int, n: nat, c: int, draws: seq<Token>): (moves: seq<FallTile>)
    requires n <= |draws|
    ensures |moves| == n
  {
    seq(n, i requires 0 <= i < n => FallTile(-(total - i), i, c, draws[i]))
  }

  /** The moves of one column, as `compute_fall_animation` lists them: the
      existing tiles from the bottom up, each dropping to the next free row
      from the bottom, then the new tiles from the top down. */
  function ColumnMoves(line: seq<Cell>, c: int, draws: seq<Token>): (moves: seq<FallTile>)
    requires |draws| == Holes(line)
    ensures |moves| == |line|
  {
    SpawnCount(line);
    var ex := Existing(line, 0);
    DropMoves(ex, c, |line| - 1) + SpawnMoves(|draws|, |draws|, c, draws)
  }

  /** The number of new tiles of a column is its number of empty cells. */
  lemma SpawnCount(line: seq<Cell>)
    ensures |line| - |Existing(line, 0)| == Holes(line)
  {
    ExistingTokens(line, 0);
    assert line[0..] == line;
  }

  /** Column c after the fall: the survivors settle as in `drop_and_fill`,
      but the new tokens are placed top-down, the first draw on row 0. */
  ghost function FallenColumn(g: Grid, c: int, rand: TokenStream, k: nat): (col: seq<Cell>)
    requires IsGrid(g) && 0 <= c < GRID
    ensures |col| == GRID
  {
    Settle(Column(g, c), Reverse(RefillDraws(g, c, rand, k)))
  }

  /** The board the fall animation lands on. */
  ghost function Fallen(g: Grid, rand: TokenStream, k: nat): (h: Grid)
    requires IsGrid(g)
    ensures IsGrid(h)
    ensures forall r, c :: 0 <= r < GRID && 0 <= c < GRID ==> h[r][c] == FallenColumn(g, c, rand, k)[r]
  {
    seq(GRID, r requires 0 <= r < GRID =>
      seq(GRID, c requires 0 <= c < GRID => FallenColumn(g, c, rand, k)[r]))
  }

  /** The moves of the columns left of c, column by column. */
  ghost function FallMoves(g: Grid, rand: TokenStream, k: nat, c: int): (moves: seq<FallTile>)
    requires IsGrid(g) && 0 <= c <= GRID
  {
    if c == 0 then []
    else FallMoves(g, rand, k, c - 1) + ColumnMoves(Column(g, c - 1), c - 1, RefillDraws(g, c - 1, rand, k))
  }

  /** The collecting loop of `compute_fall_animation` for column c: the
      occupied cells, read from the bottom row upwards. */
  method CollectExisting(work: array2<Cell>, c: int, ghost line: seq<Cell>) returns (existing: seq<(int, Token)>)
    requires IsBoard(work) && 0 <= c < GRID && |line| == GRID
    requires forall q :: 0 <= q < GRID ==> work[q, c] == line[q]
    ensures existing == Existing(line, 0)
  {
    existing := [];
    var r := GRID - 1;
    while r >= 0
      invariant -1 <= r < GRID
      invariant existing == Existing(line, r + 1)
    {
      var val := work[r, c];
      if val.Some? {
        existing := existing + [(r, val.value)];
      }
      r := r - 1;
    }
  }

  /** The dropping loop of `compute_fall_animation` for column c: the
      existing tiles, bottom one first, go to the bottom rows in turn. */
  method DropExisting(after: array2<Cell>, c: int, existing: seq<(int, Token)>) returns (moves: seq<FallTile>)
    requires IsBoard(after) && 0 <= c < GRID && |existing| <= GRID
    modifies after
    ensures moves == DropMoves(existing, c, GRID - 1)
    ensures forall q :: GRID - |existing| <= q < GRID ==> after[q, c] == Some(existing[GRID - 1 - q].1)
    ensures forall q, j :: 0 <= q < GRID && 0 <= j < GRID && (j != c || q < GRID - |existing|) ==>
      after[q, j] == old(after[q, j])
  {
    moves := [];
    var dest := GRID - 1;
    for i := 0 to |existing|
      invariant dest == GRID - 1 - i
      invariant moves == DropMoves(existing[..i], c, GRID - 1)
      invariant forall q, j :: 0 <= q < GRID && 0 <= j < GRID && (j != c || q <= dest) ==>
        after[q, j] == old(after[q, j])
      invariant forall q :: dest < q < GRID ==> after[q, c] == Some(existing[GRID - 1 - q].1)
    {
      var (startR, val) := existing[i];
      after[dest, c] := Some(val);
      assert existing[..i + 1] == existing[..i] + [existing[i]];
      moves := moves + [FallTile(startR, dest, c, val)];
      dest := dest - 1;
    }
    assert existing[..|existing|] == existing;
  }

  /** The spawning loop of `compute_fall_animation` for column c: one new
      tile per row left above the dropped tiles, top row first, each drawn
      in turn. */
  method SpawnNew(after: array2<Cell>, c: int, numNew: int, rand: TokenStream, k: nat)
    returns (moves: seq<FallTile>, k': nat)
    requires IsBoard(after) && 0 <= c < GRID && 0 <= numNew <= GRID
    modifies after
    ensures k' == k + numNew
    ensures moves == SpawnMoves(numNew, numNew, c, Draws(rand, k, numNew))
    ensures forall q :: 0 <= q < numNew ==> after[q, c] == Some(rand(k + q))
    ensures forall q, j :: 0 <= q < GRID && 0 <= j < GRID && (j != c || numNew <= q) ==>
      after[q, j] == old(after[q, j])
  {
    ghost var draws := Draws(rand, k, numNew);
    moves := [];
    k' := k;
    for i := 0 to numNew
      invariant k' == k + i
      invariant moves == SpawnMoves(numNew, i, c, draws)
      invariant forall q, j :: 0 <= q < GRID && 0 <= j < GRID && (j != c || numNew <= q) ==>
        after[q, j] == old(after[q, j])
      invariant forall q :: 0 <= q < i ==> after[q, c] == Some(rand(k + q))
    {
      var val := rand(k');
      k' := k' + 1;
      after[i, c] := Some(val);
      moves := moves + [FallTile(-(numNew - i), i, c, val)];
    }
  }

  /** The placing loops of `compute_fall_animation` for column c: drop the
      existing tiles to the bottom rows, then spawn one new tile per row
      left above them, top row first. */
  method PlaceColumn(after: array2<Cell>, c: int, existing: seq<(int, Token)>, rand: TokenStream, k: nat)
    returns (moves: seq<FallTile>, k': nat)
    requires IsBoard(after) && 0 <= c < GRID && |existing| <= GRID
    modifies after
    ensures k' == k + (GRID - |existing|)
    ensures moves == DropMoves(existing, c, GRID - 1)
      + SpawnMoves(GRID - |existing|, GRID - |existing|, c, Draws(rand, k, GRID - |existing|))
    ensures forall q :: 0 <= q < GRID - |existing| ==> after[q, c] == Some(rand(k + q))
    ensures forall q :: GRID - |existing| <= q < GRID ==> after[q, c] == Some(existing[GRID - 1 - q].1)
    ensures forall q, j :: 0 <= q < GRID && 0 <= j < GRID && j != c ==> after[q, j] == old(after[q, j])
  {
    var dropped := DropExisting(after, c, existing);
    var spawned;
    spawned, k' := SpawnNew(after, c, GRID - |existing|, rand, k);
    moves := dropped + spawned;
  }

  /** One column of `compute_fall_animation`: its moves, and the column
      of the landing board, for column c of the emptied board g whose
      draws start at draw k. */
  method FallColumn(work: array2<Cell>, after: array2<Cell>, c: int, rand: TokenStream, k: nat,
                    ghost g: Grid, ghost k0: nat)
    returns (moves: seq<FallTile>, k': nat)
    requires IsBoard(work) && IsBoard(after) && work != after && IsGrid(g) && 0 <= c < GRID
    requires forall q :: 0 <= q < GRID ==> work[q, c] == g[q][c]
    requires k == k0 + HolesBefore(g, c)
    modifies after
    ensures k' == k0 + HolesBefore(g, c + 1)
    ensures moves == ColumnMoves(Column(g, c), c, RefillDraws(g, c, rand, k0))
    ensures forall q :: 0 <= q < GRID ==> after[q, c] == FallenColumn(g, c, rand, k0)[q]
    ensures forall q, j :: 0 <= q < GRID && 0 <= j < GRID && j != c ==> after[q, j] == old(after[q, j])
  {
    ghost var line := Column(g, c);
    ghost var draws := RefillDraws(g, c, rand, k0);
    var existing := CollectExisting(work, c, line);
    ColumnMovesSplit(line, c, draws);
    moves, k' := PlaceColumn(after, c, existing, rand, k);
    assert draws == Draws(rand, k, GRID - |existing|);
    forall q | 0 <= q < GRID
      ensures after[q, c] == FallenColumn(g, c, rand, k0)[q]
    {
      if q < Holes(line) {
        SettledNewRow(line, draws, q);
      } else {
        SettledOldRow(line, draws, q);
        ExistingToken(line, GRID - 1 - q);
      }
    }
  }

  /** Every column of the grid h is the fallen column. */
  lemma FallenByColumns(g: Grid, rand: TokenStream, k: nat, h: Grid)
    requires IsGrid(g) && IsGrid(h)
    requires forall r, c :: 0 <= r < GRID && 0 <= c < GRID ==> h[r][c] == FallenColumn(g, c, rand, k)[r]
    ensures h == Fallen(g, rand, k)
  {
    GridExt(h, Fallen(g, rand, k));
  }

  /** The column loop of `compute_fall_animation`: every column of the
      emptied board `work` (whose contents are g) is settled into `after`,
      and the moves are recorded column by column. */
  method FallAllColumns(work: array2<Cell>, after: array2<Cell>, rand: TokenStream, k: nat, ghost g: Grid)
    returns (tiles: seq<FallTile>, k': nat)
    requires IsBoard(work) && IsBoard(after) && work != after && IsGrid(g)
    requires forall r, c :: 0 <= r < GRID && 0 <= c < GRID ==> work[r, c] == g[r][c]
    modifies after
    ensures k' == k + HolesBefore(g, GRID)
    ensures tiles == FallMoves(g, rand, k, GRID)
    ensures forall r, c :: 0 <= r < GRID && 0 <= c < GRID ==> after[r, c] == FallenColumn(g, c, rand, k)[r]
  {
    tiles := [];
    k' := k;
    for c := 0 to GRID
      invariant k' == k + HolesBefore(g, c)
      invariant tiles == FallMoves(g, rand, k, c)
      invariant forall r, j :: 0 <= r < GRID && 0 <= j < c ==> after[r, j] == FallenColumn(g, j, rand, k)[r]
    {
      var moves;
      moves, k' := FallColumn(work, after, c, rand, k', g, k);
      tiles := tiles + moves;
    }
  }

  /** `compute_fall_animation`: on a copy of the board with the matched
      cells emptied, drop every column's tiles and spawn new ones above
      them, recording each tile's move. The board passed in is not changed. */
  method ComputeFallAnimation(board: array2<Cell>, matches: set<Pos>, rand: TokenStream, k: nat)
    returns (anim: FallAnim, cleared: nat, k': nat)
    requires IsBoard(board)
    requires forall p :: p in matches ==> InGrid(p)
    ensures unchanged(board)
    ensures anim.before == Cleared(Snapshot(board), matches)
    ensures fresh(anim.after) && IsBoard(anim.after)
    ensures Snapshot(anim.after) == Fallen(anim.before, rand, k) && Full(Snapshot(anim.after))
    ensures anim.tiles == FallMoves(anim.before, rand, k, GRID)
    ensures cleared == |matches|
    ensures k' == k + HolesBefore(anim.before, GRID)
  {
    var work := CopyBoard(board);
    ClearMatches(work, matches);
    var after := CopyBoard(work);
    var before := Snapshot(work);
    var tiles;
    tiles, k' := FallAllColumns(work, after, rand, k, before);
    FallenByColumns(before, rand, k, Snapshot(after));
    FallenFull(before, rand, k);
    anim := FallAnim(tiles, before, after);
    cleared := |matches|;
  }

  // ---------------------------------------------------------------- fall: properties

  /** The fall animation records one move per cell of the board. */
  lemma {:induction false} FallMovesCount(g: Grid, rand: TokenStream, k: nat, c: int)
    requires IsGrid(g) && 0 <= c <= GRID
    ensures |FallMoves(g, rand, k, c)| == c * GRID
  {
    if c > 0 {
      FallMovesCount(g, rand, k, c - 1);
    }
  }

  /** The moves recorded for the columns left of c come first among the
      moves recorded for the columns left of any d >= c. */
  lemma {:induction false} FallMovesPrefix(g: Grid, rand: TokenStream, k: nat, c: int, d: int)
    requires IsGrid(g) && 0 <= c <= d <= GRID
    ensures FallMoves(g, rand, k, c) <= FallMoves(g, rand, k, d)
  {
    if c < d {
      FallMovesPrefix(g, rand, k, c, d - 1);
      var prev := FallMoves(g, rand, k, d - 1);
      var cur := ColumnMoves(Column(g, d - 1), d - 1, RefillDraws(g, d - 1, rand, k));
      assert FallMoves(g, rand, k, d) == prev + cur;
    }
  }

  /** The recorded moves come column by column: moves c * GRID up to
      (c + 1) * GRID are the moves of column c. */
  lemma FallMovesSlice(g: Grid, rand: TokenStream, k: nat, c: int, d: int)
    requires IsGrid(g) && 0 <= c < d <= GRID
    ensures |FallMoves(g, rand, k, d)| == d * GRID
    ensures FallMoves(g, rand, k, d)[c * GRID .. (c + 1) * GRID] ==
      ColumnMoves(Column(g, c), c, RefillDraws(g, c, rand, k))
  {
    FallMovesCount(g, rand, k, c);
    FallMovesCount(g, rand, k, c + 1);
    FallMovesCount(g, rand, k, d);
    FallMovesPrefix(g, rand, k, c + 1, d);
    FallMovesStep(g, rand, k, c);
    SliceOfPrefix(FallMoves(g, rand, k, c + 1), FallMoves(g, rand, k, d), c * GRID, (c + 1) * GRID);
    SliceOfBack(FallMoves(g, rand, k, c), ColumnMoves(Column(g, c), c, RefillDraws(g, c, rand, k)));
  }

  /** The moves recorded up to column c + 1 are those up to column c
      followed by the moves of column c. */
  lemma FallMovesStep(g: Grid, rand: TokenStream, k: nat, c: int)
    requires IsGrid(g) && 0 <= c < GRID
    ensures FallMoves(g, rand, k, c + 1) ==
      FallMoves(g, rand, k, c) + ColumnMoves(Column(g, c), c, RefillDraws(g, c, rand, k))
  {
  }

  /** Move m takes an existing tile of column c of the line down, never
      upwards, to row row: it starts on the row that holds its token. */
  predicate DropsTo(m: FallTile, line: seq<Cell>, c: int, row: int) {
    m.c == c && m.endR == row && 0 <= m.startR <= row < |line| && line[m.startR] == Some(m.val)
  }

  /** Move m lands on a cell of col that holds its token. */
  predicate LandsIn(m: FallTile, col: seq<Cell>) {
    0 <= m.endR < |col| && col[m.endR] == Some(m.val)
  }

  /** The moves of a column are its drops followed by its spawns. */
  lemma ColumnMovesSplit(line: seq<Cell>, c: int, draws: seq<Token>)
    requires |draws| == Holes(line)
    ensures |Existing(line, 0)| == |line| - Holes(line)
    ensures ColumnMoves(line, c, draws) ==
      DropMoves(Existing(line, 0), c, |line| - 1) + SpawnMoves(|draws|, |draws|, c, draws)
  {
    SpawnCount(line);
  }

  /** The token of the i-th existing tile from the bottom. */
  lemma ExistingToken(line: seq<Cell>, i: int)
    requires 0 <= i < |Existing(line, 0)|
    ensures |Existing(line, 0)| == |Survivors(line)|
    ensures Existing(line, 0)[i].1 == Reverse(Survivors(line))[i]
  {
    ExistingTokens(line, 0);
    assert line[0..] == line;
  }

  /** Above the survivors, row q of a column settled with the draws placed
      top-down holds draw q. */
  lemma SettledNewRow(line: seq<Cell>, draws: seq<Token>, q: int)
    requires |draws| == Holes(line) && 0 <= q < Holes(line)
    ensures Settle(line, Reverse(draws))[q] == Some(draws[q])
  {
    var h := |draws|;
    var rev := Reverse(draws);
    assert rev[h - 1 - q] == draws[q];
    assert Settle(line, rev)[q] == Some(rev[h - 1 - q]);
  }

  /** Below the new tokens, row q of a settled column holds the surviving
      token that is |line| - 1 - q from the bottom. */
  lemma SettledOldRow(line: seq<Cell>, draws: seq<Token>, q: int)
    requires |draws| == Holes(line) && Holes(line) <= q < |line|
    ensures Settle(line, Reverse(draws))[q] == Some(Reverse(Survivors(line))[|line| - 1 - q])
  {
    var survivors := Survivors(line);
    assert Settle(line, Reverse(draws))[q] == Some(survivors[q - Holes(line)]);
  }

  /** The i-th existing tile from the bottom drops to row |line| - 1 - i,
      where the settled column holds its token. */
  lemma DropMoveAt(line: seq<Cell>, c: int, draws: seq<Token>, i: int)
    requires |draws| == Holes(line) && 0 <= i < |line| - Holes(line)
    ensures DropsTo(ColumnMoves(line, c, draws)[i], line, c, |line| - 1 - i)
    ensures LandsIn(ColumnMoves(line, c, draws)[i], Settle(line, Reverse(draws)))
  {
    ColumnMovesSplit(line, c, draws);
    var ex := Existing(line, 0);
    assert ColumnMoves(line, c, draws)[i] == FallTile(ex[i].0, |line| - 1 - i, c, ex[i].1) by {
      assert ColumnMoves(line, c, draws)[i] == DropMoves(ex, c, |line| - 1)[i];
    }
    ExistingRowBound(line, 0, i);
    ExistingToken(line, i);
    SettledOldRow(line, draws, |line| - 1 - i);
  }

  /** The j-th new tile of a column enters holes - j rows above the board
      and lands on row j, where the settled column holds draw j. */
  lemma SpawnMoveAt(line: seq<Cell>, c: int, draws: seq<Token>, j: int)
    requires |draws| == Holes(line) && 0 <= j < Holes(line)
    ensures ColumnMoves(line, c, draws)[|line| - Holes(line) + j] == FallTile(-(Holes(line) - j), j, c, draws[j])
    ensures LandsIn(ColumnMoves(line, c, draws)[|line| - Holes(line) + j], Settle(line, Reverse(draws)))
  {
    ColumnMovesSplit(line, c, draws);
    assert ColumnMoves(line, c, draws)[|line| - Holes(line) + j] == SpawnMoves(|draws|, |draws|, c, draws)[j];
    SettledNewRow(line, draws, j);
  }

  /** The first |line| - h moves of a column with h empty cells are its
      existing tiles from the bottom up, the i-th starting on the row that
      holds its token and dropping, never upwards, to row |line| - 1 - i. */
  lemma ColumnDrops(line: seq<Cell>, c: int, draws: seq<Token>)
    requires |draws| == Holes(line)
    ensures forall i :: 0 <= i < |line| - Holes(line) ==>
      DropsTo(ColumnMoves(line, c, draws)[i], line, c, |line| - 1 - i)
  {
    forall i | 0 <= i < |line| - Holes(line)
      ensures DropsTo(ColumnMoves(line, c, draws)[i], line, c, |line| - 1 - i)
    {
      DropMoveAt(line, c, draws, i);
    }
  }

  /** The last h moves of a column with h empty cells are its new tiles:
      the j-th is draw j, enters h - j rows above the board and lands on
      row j. */
  lemma ColumnSpawns(line: seq<Cell>, c: int, draws: seq<Token>)
    requires |draws| == Holes(line)
    ensures forall j :: 0 <= j < Holes(line) ==>
      ColumnMoves(line, c, draws)[|line| - Holes(line) + j] == FallTile(-(Holes(line) - j), j, c, draws[j])
  {
    forall j | 0 <= j < Holes(line)
      ensures ColumnMoves(line, c, draws)[|line| - Holes(line) + j] == FallTile(-(Holes(line) - j), j, c, draws[j])
    {
      SpawnMoveAt(line, c, draws, j);
    }
  }

  /** Every move of a column lands on the cell of the fallen column that
      holds its token. */
  lemma ColumnLands(line: seq<Cell>, c: int, draws: seq<Token>)
    requires |draws| == Holes(line)
    ensures forall i :: 0 <= i < |line| ==> LandsIn(ColumnMoves(line, c, draws)[i], Settle(line, Reverse(draws)))
  {
    forall i | 0 <= i < |line|
      ensures LandsIn(ColumnMoves(line, c, draws)[i], Settle(line, Reverse(draws)))
    {
      if i < |line| - Holes(line) {
        DropMoveAt(line, c, draws, i);
      } else {
        SpawnMoveAt(line, c, draws, i - (|line| - Holes(line)));
      }
    }
  }

  /** No two moves of a column land on the same row, so every row of the
      column receives exactly one tile. */
  lemma ColumnRowsDistinct(line: seq<Cell>, c: int, draws: seq<Token>)
    requires |draws| == Holes(line)
    ensures forall i, j :: 0 <= i < j < |line| ==>
      ColumnMoves(line, c, draws)[i].endR != ColumnMoves(line, c, draws)[j].endR
  {
    var n, h := |line|, Holes(line);
    forall i, j | 0 <= i < j < n
      ensures ColumnMoves(line, c, draws)[i].endR != ColumnMoves(line, c, draws)[j].endR
    {
      // drops end on rows n - 1 - i, from the bottom up; spawns on rows
      // j - (n - h), from the top down, all above the drops
      if j < n - h {
        DropMoveAt(line, c, draws, i);
        DropMoveAt(line, c, draws, j);
      } else if i < n - h {
        DropMoveAt(line, c, draws, i);
        SpawnMoveAt(line, c, draws, j - (n - h));
      } else {
        SpawnMoveAt(line, c, draws, i - (n - h));
        SpawnMoveAt(line, c, draws, j - (n - h));
      }
    }
  }

  /** The board the fall lands on has no empty cell. */
  lemma FallenFull(g: Grid, rand: TokenStream, k: nat)
    requires IsGrid(g)
    ensures Full(Fallen(g, rand, k))
  {
    forall r, c | 0 <= r < GRID && 0 <= c < GRID
      ensures Fallen(g, rand, k)[r][c].Some?
    {
      SettleOrder(Column(g, c), Reverse(RefillDraws(g, c, rand, k)));
    }
  }

  /** The board the fall lands on places the surviving tokens exactly where
      `drop_and_fill` places them; the new tokens above them come in the
      opposite order, the first draw on the top row rather than on the
      lowest empty row. */
  lemma FallenVsRefilled(g: Grid, rand: TokenStream, k: nat, r: int, c: int)
    requires IsGrid(g) && 0 <= r < GRID && 0 <= c < GRID
    ensures r >= Holes(Column(g, c)) ==> Fallen(g, rand, k)[r][c] == Refilled(g, rand, k)[r][c]
    ensures r < Holes(Column(g, c)) ==>
      Fallen(g, rand, k)[r][c] == Refilled(g, rand, k)[Holes(Column(g, c)) - 1 - r][c]
  {
  }

  /** Read top to bottom, column c of the landing board holds the column's
      new tokens in the order they were drawn, then the tokens the column
      held, in their original order. */
  lemma FallenColumnOrder(g: Grid, rand: TokenStream, k: nat, c: int)
    requires IsGrid(g) && 0 <= c < GRID
    ensures Survivors(Column(Fallen(g, rand, k), c)) == RefillDraws(g, c, rand, k) + Survivors(Column(g, c))
  {
    var draws := RefillDraws(g, c, rand, k);
    assert Column(Fallen(g, rand, k), c) == FallenColumn(g, c, rand, k);
    SettleOrder(Column(g, c), Reverse(draws));
    ReverseReverse(draws);
  }
}
