/** Shared data model of the match-3 engine: the board constants, token
    values, cells, coordinates, and the value view of a board. */
module Model {

  /** Width and height of the square board, in cells. */
  const GRID: int := 6
  /** Number of distinct token kinds (one per emoji image). */
  const N_TYPES: int := 5

  datatype Option<T> = None | Some(value: T)

  /** A token kind: an index into the emoji images. */
  type Token = t: int | 0 <= t < N_TYPES

  /** A board cell holds a token or is empty (`None` in the game). */
  type Cell = Option<Token>

  /** A (row, column) coordinate; row 0 is the top row. */
  datatype Pos = Pos(r: int, c: int)

  /** A board as a value: rows of cells, indexed g[row][column]. */
  type Grid = seq<seq<Cell>>

  /** An injected source of random tokens: the i-th draw is rand(i). */
  type TokenStream = nat -> Token

  predicate InGrid(p: Pos) {
    0 <= p.r < GRID && 0 <= p.c < GRID
  }

  predicate IsGrid(g: Grid) {
    |g| == GRID && forall r :: 0 <= r < GRID ==> |g[r]| == GRID
  }

  predicate IsBoard(b: array2<Cell>) {
    b.Length0 == GRID && b.Length1 == GRID
  }

  /** No cell of the board is empty. */
  predicate Full(g: Grid)
    requires IsGrid(g)
  {
    forall r, c :: 0 <= r < GRID && 0 <= c < GRID ==> g[r][c].Some?
  }

  /** The current contents of a board, as a value (`[row[:] for row in board]`). */
  function Snapshot(b: array2<Cell>): (g: Grid)
    requires IsBoard(b)
    reads b
    ensures IsGrid(g)
    ensures forall r, c :: 0 <= r < GRID && 0 <= c < GRID ==> g[r][c] == b[r, c]
  {
    seq(GRID, r reads b requires 0 <= r < GRID =>
      seq(GRID, c reads b requires 0 <= c < GRID => b[r, c]))
  }

  /** Column c of a board, top to bottom. */
  function Column(g: Grid, c: int): (col: seq<Cell>)
    requires IsGrid(g) && 0 <= c < GRID
    ensures |col| == GRID
    ensures forall r :: 0 <= r < GRID ==> col[r] == g[r][c]
  {
    seq(GRID, r requires 0 <= r < GRID => g[r][c])
  }

  /** Two grids that agree cell by cell are equal. */
  lemma GridExt(g: Grid, h: Grid)
    requires IsGrid(g) && IsGrid(h)
    requires forall r, c :: 0 <= r < GRID && 0 <= c < GRID ==> g[r][c] == h[r][c]
    ensures g == h
  {
    forall r | 0 <= r < GRID
      ensures g[r] == h[r]
    {
      assert forall c :: 0 <= c < GRID ==> g[r][c] == h[r][c];
    }
  }

  /** A slice inside a prefix of a sequence is a slice of the sequence. */
  lemma SliceOfPrefix<T>(front: seq<T>, all: seq<T>, lo: int, hi: int)
    requires front <= all && 0 <= lo <= hi <= |front|
    ensures all[lo..hi] == front[lo..hi]
  {
    assert all == front + all[|front|..];
  }

  /** The slice after the first part of a concatenation is the second part. */
  lemma SliceOfBack<T>(front: seq<T>, back: seq<T>)
    ensures (front + back)[|front|..|front| + |back|] == back
  {
  }

  /** The reverse of a sequence. */
  function Reverse<T>(s: seq<T>): (rev: seq<T>)
    ensures |rev| == |s|
    ensures forall i :: 0 <= i < |s| ==> rev[i] == s[|s| - 1 - i]
  {
    if s == [] then [] else Reverse(s[1..]) + [s[0]]
  }

  lemma ReverseCons<T>(x: T, s: seq<T>)
    ensures Reverse([x] + s) == Reverse(s) + [x]
  {
    assert ([x] + s)[1..] == s;
  }

  /** Reversing twice gives the sequence back. */
  lemma ReverseReverse<T>(s: seq<T>)
    ensures Reverse(Reverse(s)) == s
  {
    assert forall i :: 0 <= i < |s| ==> Reverse(Reverse(s))[i] == s[i];
  }
}
