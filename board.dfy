/** The in-place board operations: filling a new board, clearing matched
    cells, swapping two cells, and gravity with refill. */
module BoardOps {
  import opened Model

  // ---------------------------------------------------------------- new board

  /** The board `new_board` builds: one draw per cell, in row-major order. */
  ghost function FreshGrid(rand: TokenStream, k: nat): (g: Grid)
  {
    seq(GRID, r requires 0 <= r < GRID =>
      seq(GRID, c requires 0 <= c < GRID => Some(rand(k + r * GRID + c))))
  }

  /** `new_board`: a fresh board of random tokens. */
  method NewBoard(rand: TokenStream, k: nat) returns (board: array2<Cell>, k': nat)
    ensures fresh(board) && IsBoard(board)
    ensures IsGrid(FreshGrid(rand, k)) && Snapshot(board) == FreshGrid(rand, k)
    ensures Full(Snapshot(board))
    ensures k' == k + GRID * GRID
  {
    board := new Cell[GRID, GRID]((r, c) requires 0 <= r < GRID && 0 <= c < GRID =>
      Some(rand(k + r * GRID + c)));
    k' := k + GRID * GRID;
    GridExt(Snapshot(board), FreshGrid(rand, k));
  }

  /** `[row[:] for row in board]`: a fresh board with the same contents. */
  method CopyBoard(board: array2<Cell>) returns (copy: array2<Cell>)
    requires IsBoard(board)
    ensures fresh(copy) && IsBoard(copy)
    ensures Snapshot(copy) == Snapshot(board)
  {
    copy := new Cell[GRID, GRID]((r, c) reads board requires 0 <= r < GRID && 0 <= c < GRID => board[r, c]);
    GridExt(Snapshot(copy), Snapshot(board));
  }

  // ---------------------------------------------------------------- clearing

  /** The board with the given cells emptied. */
  function Cleared(g: Grid, cells: set<Pos>): (h: Grid)
    requires IsGrid(g)
    ensures IsGrid(h)
  {
    seq(GRID, r requires 0 <= r < GRID =>
      seq(GRID, c requires 0 <= c < GRID => if Pos(r, c) in cells then None else g[r][c]))
  }

  /** `clear_matches`: empty every given cell. */
  method ClearMatches(board: array2<Cell>, matches: set<Pos>)
    requires IsBoard(board)
    requires forall p :: p in matches ==> InGrid(p)
    modifies board
    ensures Snapshot(board) == Cleared(old(Snapshot(board)), matches)
  {
    ghost var g := Snapshot(board);
    var rest := matches;
    while rest != {}
      invariant rest <= matches
      invariant forall r, c :: 0 <= r < GRID && 0 <= c < GRID ==>
        board[r, c] == if Pos(r, c) in matches - rest then None else g[r][c]
      decreases |rest|
    {
      var p :| p in rest;
      board[p.r, p.c] := None;
      rest := rest - {p};
    }
    GridExt(Snapshot(board), Cleared(g, matches));
  }

  /** Clearing empties exactly the given cells and changes nothing else. */
  lemma ClearedCells(g: Grid, cells: set<Pos>, r: int, c: int)
    requires IsGrid(g) && 0 <= r < GRID && 0 <= c < GRID
    ensures Pos(r, c) in cells ==> Cleared(g, cells)[r][c] == None
    ensures Pos(r, c) !in cells ==> Cleared(g, cells)[r][c] == g[r][c]
  {
  }

  /** Clearing the same cells twice is the same as clearing them once. */
  lemma ClearIdempotent(g: Grid, cells: set<Pos>)
    requires IsGrid(g)
    ensures Cleared(Cleared(g, cells), cells) == Cleared(g, cells)
  {
    GridExt(Cleared(Cleared(g, cells), cells), Cleared(g, cells));
  }

  // ---------------------------------------------------------------- swapping

  /** The board with the contents of cells a and b exchanged. */
  function Swapped(g: Grid, a: Pos, b: Pos): (h: Grid)
    requires IsGrid(g) && InGrid(a) && InGrid(b)
    ensures IsGrid(h)
  {
    seq(GRID, r requires 0 <= r < GRID =>
      seq(GRID, c requires 0 <= c < GRID =>
        if Pos(r, c) == a then g[b.r][b.c]
        else if Pos(r, c) == b then g[a.r][a.c]
        else g[r][c]))
  }

  /** `swap`: exchange the contents of two cells. */
  method Swap(board: array2<Cell>, a: Pos, b: Pos)
    requires IsBoard(board) && InGrid(a) && InGrid(b)
    modifies board
    ensures Snapshot(board) == Swapped(old(Snapshot(board)), a, b)
  {
    ghost var g := Snapshot(board);
    var t := board[a.r, a.c];
    board[a.r, a.c] := board[b.r, b.c];
    board[b.r, b.c] := t;
    GridExt(Snapshot(board), Swapped(g, a, b));
  }

  /** Swapping exchanges exactly the two cells and leaves the others alone. */
  lemma SwappedCells(g: Grid, a: Pos, b: Pos, p: Pos)
    requires IsGrid(g) && InGrid(a) && InGrid(b) && InGrid(p)
    ensures Swapped(g, a, b)[a.r][a.c] == g[b.r][b.c]
    ensures Swapped(g, a, b)[b.r][b.c] == g[a.r][a.c]
    ensures p != a && p != b ==> Swapped(g, a, b)[p.r][p.c] == g[p.r][p.c]
  {
  }

  /** Swapping the same two cells twice restores the board. */
  lemma SwapInvolution(g: Grid, a: Pos, b: Pos)
    requires IsGrid(g) && InGrid(a) && InGrid(b)
    ensures Swapped(Swapped(g, a, b), a, b) == g
  {
    GridExt(Swapped(Swapped(g, a, b), a, b), g);
  }

  /** Swapping two cells of a full board leaves it full. */
  lemma SwapKeepsFull(g: Grid, a: Pos, b: Pos)
    requires IsGrid(g) && InGrid(a) && InGrid(b) && Full(g)
    ensures Full(Swapped(g, a, b))
  {
  }

  // ---------------------------------------------------------------- gravity

  /** The tokens of a line with its empty cells squeezed out, in their
      original order. */
  function Survivors(line: seq<Cell>): (ts: seq<Token>)
    ensures |ts| <= |line|
  {
    if line == [] then []
    else (if line[0].Some? then [line[0].value] else []) + Survivors(line[1..])
  }

  /** No token is lost or invented: each token occurs among the survivors
      as often as it occurs in the line. */
  lemma {:induction false} SurvivorsKeepTokens(line: seq<Cell>)
    ensures forall t :: multiset(Survivors(line))[t] == multiset(line)[Some(t)]
  {
    if line != [] {
      SurvivorsKeepTokens(line[1..]);
      assert line == [line[0]] + line[1..];
    }
  }

  /** The number of empty cells of a line. */
  function Holes(line: seq<Cell>): nat {
    |line| - |Survivors(line)|
  }

  /** A column after gravity: the surviving tokens of the line rest on the
      bottom row in their original top-to-bottom order, and the rows above
      them take the new draws, the first draw on the lowest empty row. */
  ghost function Settle(line: seq<Cell>, draws: seq<Token>): (col: seq<Cell>)
    requires |draws| == Holes(line)
    ensures |col| == |line|
  {
    var holes := Holes(line);
    seq(|line|, q requires 0 <= q < |line| =>
      if q < holes then Some(draws[holes - 1 - q]) else Some(Survivors(line)[q - holes]))
  }

  /** The next n draws of the stream, starting at draw k. */
  ghost function Draws(rand: TokenStream, k: nat, n: nat): (ts: seq<Token>)
    ensures |ts| == n
  {
    seq(n, i requires 0 <= i < n => rand(k + i))
  }

  /** Draws used by the columns left of c. */
  ghost function HolesBefore(g: Grid, c: int): nat
    requires IsGrid(g) && 0 <= c <= GRID
  {
    if c == 0 then 0 else HolesBefore(g, c - 1) + Holes(Column(g, c - 1))
  }

  /** The draws that refill column c, in the order they are made. */
  ghost function RefillDraws(g: Grid, c: int, rand: TokenStream, k: nat): (ts: seq<Token>)
    requires IsGrid(g) && 0 <= c < GRID
    ensures |ts| == Holes(Column(g, c))
  {
    Draws(rand, k + HolesBefore(g, c), Holes(Column(g, c)))
  }

  /** Column c after `drop_and_fill`: settled, with its refill draws placed
      from the lowest empty row upwards. */
  ghost function RefilledColumn(g: Grid, c: int, rand: TokenStream, k: nat): (col: seq<Cell>)
    requires IsGrid(g) && 0 <= c < GRID
    ensures |col| == GRID
  {
    Settle(Column(g, c), RefillDraws(g, c, rand, k))
  }

  /** The board after `drop_and_fill`: every column settled on its own. */
  ghost function Refilled(g: Grid, rand: TokenStream, k: nat): (h: Grid)
    requires IsGrid(g)
    ensures IsGrid(h)
    ensures forall r, c :: 0 <= r < GRID && 0 <= c < GRID ==> h[r][c] == RefilledColumn(g, c, rand, k)[r]
  {
    seq(GRID, r requires 0 <= r < GRID =>
      seq(GRID, c requires 0 <= c < GRID => RefilledColumn(g, c, rand, k)[r]))
  }

  /** The survivors of a line without empty cells are all its tokens. */
  lemma {:induction false} SurvivorsOfFull(line: seq<Cell>)
    requires forall i :: 0 <= i < |line| ==> line[i].Some?
    ensures |Survivors(line)| == |line|
    ensures forall i :: 0 <= i < |line| ==> Survivors(line)[i] == line[i].value
  {
    if line != [] {
      SurvivorsOfFull(line[1..]);
    }
  }

  /** A settled column has no empty cell, and read top to bottom its tokens
      are the new draws, last draw first, followed by the surviving tokens
      in their original order. */
  lemma SettleOrder(line: seq<Cell>, draws: seq<Token>)
    requires |draws| == Holes(line)
    ensures forall q :: 0 <= q < |line| ==> Settle(line, draws)[q].Some?
    ensures Survivors(Settle(line, draws)) == Reverse(draws) + Survivors(line)
  {
    var col := Settle(line, draws);
    SurvivorsOfFull(col);
    assert Survivors(col) == Reverse(draws) + Survivors(line);
  }

  /** A line without empty cells settles to itself and takes no draw. */
  lemma SettleFull(line: seq<Cell>)
    requires forall i :: 0 <= i < |line| ==> line[i].Some?
    ensures Holes(line) == 0
    ensures Settle(line, []) == line
  {
    SurvivorsOfFull(line);
  }

  /** A grid whose every column is the refilled column is the refilled board. */
  lemma RefilledByColumns(g: Grid, rand: TokenStream, k: nat, h: Grid)
    requires IsGrid(g) && IsGrid(h)
    requires forall r, c :: 0 <= r < GRID && 0 <= c < GRID ==> h[r][c] == RefilledColumn(g, c, rand, k)[r]
    ensures h == Refilled(g, rand, k)
  {
    GridExt(h, Refilled(g, rand, k));
  }

  /** After `drop_and_fill` no cell of the board is empty. */
  lemma RefilledFull(g: Grid, rand: TokenStream, k: nat)
    requires IsGrid(g)
    ensures Full(Refilled(g, rand, k))
  {
    forall r, c | 0 <= r < GRID && 0 <= c < GRID
      ensures Refilled(g, rand, k)[r][c].Some?
    {
      SettleOrder(Column(g, c), RefillDraws(g, c, rand, k));
    }
  }

  /** Gravity keeps the order of each column: read top to bottom, column c
      of the refilled board holds its refill draws, last draw first, then
      the tokens the column held before, in the same order. */
  lemma RefilledColumnOrder(g: Grid, rand: TokenStream, k: nat, c: int)
    requires IsGrid(g) && 0 <= c < GRID
    ensures Survivors(Column(Refilled(g, rand, k), c)) ==
      Reverse(RefillDraws(g, c, rand, k)) + Survivors(Column(g, c))
  {
    assert Column(Refilled(g, rand, k), c) == RefilledColumn(g, c, rand, k);
    SettleOrder(Column(g, c), RefillDraws(g, c, rand, k));
  }

  /** Each column settles on its own: column c of the refilled board depends
      only on column c of the board and on the position of its draws in the
      stream. */
  lemma RefilledColumnsIndependent(g: Grid, g': Grid, rand: TokenStream, k: nat, k2: nat, c: int)
    requires IsGrid(g) && IsGrid(g') && 0 <= c < GRID
    requires Column(g, c) == Column(g', c)
    requires k + HolesBefore(g, c) == k2 + HolesBefore(g', c)
    ensures Column(Refilled(g, rand, k), c) == Column(Refilled(g', rand, k2), c)
  {
    RefilledColumnSame(g, g', rand, k, k2, c);
    RefilledColumnOf(g, rand, k, c);
    RefilledColumnOf(g', rand, k2, c);
  }

  lemma RefilledColumnSame(g: Grid, g': Grid, rand: TokenStream, k: nat, k2: nat, c: int)
    requires IsGrid(g) && IsGrid(g') && 0 <= c < GRID
    requires Column(g, c) == Column(g', c)
    requires k + HolesBefore(g, c) == k2 + HolesBefore(g', c)
    ensures RefilledColumn(g, c, rand, k) == RefilledColumn(g', c, rand, k2)
  {
    assert RefillDraws(g, c, rand, k) == RefillDraws(g', c, rand, k2);
  }

  /** Column c of the refilled board is the refilled column c. */
  lemma RefilledColumnOf(g: Grid, rand: TokenStream, k: nat, c: int)
    requires IsGrid(g) && 0 <= c < GRID
    ensures Column(Refilled(g, rand, k), c) == RefilledColumn(g, c, rand, k)
  {
    var col := RefilledColumn(g, c, rand, k);
    forall r | 0 <= r < GRID
      ensures Column(Refilled(g, rand, k), c)[r] == col[r]
    {
    }
  }

  /** A full board is left unchanged by `drop_and_fill`, which then draws
      nothing. */
  lemma {:induction false} RefilledOfFull(g: Grid, rand: TokenStream, k: nat)
    requires IsGrid(g) && Full(g)
    ensures Refilled(g, rand, k) == g
    ensures HolesBefore(g, GRID) == 0
  {
    forall c | 0 <= c < GRID
      ensures Holes(Column(g, c)) == 0 && RefilledColumn(g, c, rand, k) == Column(g, c)
    {
      SettleFull(Column(g, c));
    }
    HolesBeforeOfFull(g, GRID);
    GridExt(Refilled(g, rand, k), g);
  }

  lemma {:induction false} HolesBeforeOfFull(g: Grid, c: int)
    requires IsGrid(g) && 0 <= c <= GRID
    requires forall j :: 0 <= j < GRID ==> Holes(Column(g, j)) == 0
    ensures HolesBefore(g, c) == 0
  {
    if c > 0 {
      HolesBeforeOfFull(g, c - 1);
    }
  }

  /** Dropping the first cell of a suffix of a line. */
  lemma SurvivorsStep(line: seq<Cell>, r: int)
    requires 0 <= r < |line|
    ensures Survivors(line[r..]) ==
      (if line[r].Some? then [line[r].value] else []) + Survivors(line[r + 1..])
  {
    assert line[r..][1..] == line[r + 1..];
  }

  /** Reading one more cell upwards pushes its token, if any, on the
      bottom-up stack of survivors. */
  lemma StackStep(line: seq<Cell>, r: int)
    requires 0 <= r < |line|
    ensures Reverse(Survivors(line[r..])) ==
      Reverse(Survivors(line[r + 1..])) + (if line[r].Some? then [line[r].value] else [])
  {
    SurvivorsStep(line, r);
    if line[r].Some? {
      ReverseCons(line[r].value, Survivors(line[r + 1..]));
    } else {
      assert Survivors(line[r..]) == Survivors(line[r + 1..]);
    }
  }

  /** The first half of a column of `drop_and_fill`: the tokens of column
      c read from the bottom row upwards. */
  method Gather(board: array2<Cell>, c: int) returns (stack: seq<Token>)
    requires IsBoard(board) && 0 <= c < GRID
    ensures stack == Reverse(Survivors(Column(Snapshot(board), c)))
  {
    ghost var col := Column(Snapshot(board), c);
    assert forall q :: 0 <= q < GRID ==> board[q, c] == col[q];
    stack := [];
    var r := GRID - 1;
    while r >= 0
      invariant -1 <= r < GRID
      invariant forall q :: 0 <= q < GRID ==> board[q, c] == col[q]
      invariant stack == Reverse(Survivors(col[r + 1..]))
    {
      StackStep(col, r);
      if board[r, c].Some? {
        stack := stack + [board[r, c].value];
      }
      r := r - 1;
    }
    assert col[0..] == col;
  }

  /** The second half of a column of `drop_and_fill`: write the stack back
      from the bottom row upwards, then fill every row above it with a new
      draw, lowest row first. */
  method Restack(board: array2<Cell>, c: int, stack: seq<Token>, rand: TokenStream, k: nat) returns (k': nat)
    requires IsBoard(board) && 0 <= c < GRID && |stack| <= GRID
    modifies board
    ensures k' == k + (GRID - |stack|)
    ensures forall q :: 0 <= q < GRID - |stack| ==> board[q, c] == Some(rand(k + (GRID - |stack| - 1 - q)))
    ensures forall q :: GRID - |stack| <= q < GRID ==> board[q, c] == Some(stack[GRID - 1 - q])
    ensures forall q, j :: 0 <= q < GRID && 0 <= j < GRID && j != c ==> board[q, j] == old(board[q, j])
  {
    ghost var g := Snapshot(board);
    var r := GRID - 1;
    for i := 0 to |stack|
      invariant r == GRID - 1 - i
      invariant forall q, j :: 0 <= q < GRID && 0 <= j < GRID && j != c ==> board[q, j] == g[q][j]
      invariant forall q :: r < q < GRID ==> board[q, c] == Some(stack[GRID - 1 - q])
    {
      board[r, c] := Some(stack[i]);
      r := r - 1;
    }
    k' := k;
    while r >= 0
      invariant -1 <= r < GRID - |stack|
      invariant k' == k + (GRID - |stack| - 1 - r)
      invariant forall q, j :: 0 <= q < GRID && 0 <= j < GRID && j != c ==> board[q, j] == g[q][j]
      invariant forall q :: GRID - |stack| <= q < GRID ==> board[q, c] == Some(stack[GRID - 1 - q])
      invariant forall q :: r < q < GRID - |stack| ==> board[q, c] == Some(rand(k + (GRID - |stack| - 1 - q)))
    {
      board[r, c] := Some(rand(k'));
      k' := k' + 1;
      r := r - 1;
    }
  }

  /** One column of `drop_and_fill`: the column settles under gravity and
      its empty rows take the next draws, lowest row first. */
  method SettleColumn(board: array2<Cell>, c: int, rand: TokenStream, k: nat, ghost col: seq<Cell>) returns (k': nat)
    requires IsBoard(board) && 0 <= c < GRID && |col| == GRID
    requires forall q :: 0 <= q < GRID ==> board[q, c] == col[q]
    modifies board
    ensures k' == k + Holes(col)
    ensures forall q :: 0 <= q < GRID ==> board[q, c] == Settle(col, Draws(rand, k, Holes(col)))[q]
    ensures forall q, j :: 0 <= q < GRID && 0 <= j < GRID && j != c ==> board[q, j] == old(board[q, j])
  {
    assert col == Column(Snapshot(board), c);
    var stack := Gather(board, c);
    k' := Restack(board, c, stack, rand, k);
  }

  /** `drop_and_fill`: settle every column in turn, left to right. */
  method DropAndFill(board: array2<Cell>, rand: TokenStream, k: nat) returns (k': nat)
    requires IsBoard(board)
    modifies board
    ensures Snapshot(board) == Refilled(old(Snapshot(board)), rand, k)
    ensures k' == k + HolesBefore(old(Snapshot(board)), GRID)
  {
    ghost var g := Snapshot(board);
    k' := k;
    for c := 0 to GRID
      invariant k' == k + HolesBefore(g, c)
      invariant forall r, j :: 0 <= r < GRID && 0 <= j < c ==> board[r, j] == RefilledColumn(g, j, rand, k)[r]
      invariant forall r, j :: 0 <= r < GRID && c <= j < GRID ==> board[r, j] == g[r][j]
    {
      k' := SettleColumn(board, c, rand, k', Column(g, c));
      assert forall q :: 0 <= q < GRID ==> board[q, c] == RefilledColumn(g, c, rand, k)[q];
    }
    RefilledByColumns(g, rand, k, Snapshot(board));
  }
}
