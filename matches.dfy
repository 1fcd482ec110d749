/** Match detection: the cells that lie in a horizontal or vertical run of
    three or more equal tokens. */
module Matches {
  import opened Model

  /** Cells k, k+1 and k+2 of a line hold the same token. */
  predicate TripleAt(line: seq<Cell>, k: int) {
    0 <= k && k + 2 < |line| && line[k].Some?
    && line[k] == line[k + 1] && line[k + 1] == line[k + 2]
  }

  /** Cell j of a line lies in a run of at least three equal tokens,
      that is, inside some window of three equal tokens. */
  predicate InRun(line: seq<Cell>, j: int) {
    TripleAt(line, j - 2) || TripleAt(line, j - 1) || TripleAt(line, j)
  }

  /** Cell p is matched: in its row or in its column it lies in a run. */
  predicate Matched(g: Grid, p: Pos)
    requires IsGrid(g)
  {
    InGrid(p) && (InRun(g[p.r], p.c) || InRun(Column(g, p.c), p.r))
  }

  /** The reference definition of the set that `find_matches` returns. */
  ghost function MatchSet(g: Grid): set<Pos>
    requires IsGrid(g)
  {
    set r: int, c: int | 0 <= r < GRID && 0 <= c < GRID && Matched(g, Pos(r, c)) :: Pos(r, c)
  }

  /** The board has no window of three equal tokens in any row or column. */
  ghost predicate NoTriple(g: Grid)
    requires IsGrid(g)
  {
    && (forall r, k :: 0 <= r < GRID ==> !TripleAt(g[r], k))
    && (forall c, k :: 0 <= c < GRID ==> !TripleAt(Column(g, c), k))
  }

  /** Cell p is in a horizontal run and the row sweep has passed it: it
      lies in a row above r, or in row r left of column c. */
  ghost predicate RowSwept(g: Grid, p: Pos, r: int, c: int)
    requires IsGrid(g)
  {
    InGrid(p) && (p.r < r || (p.r == r && p.c < c)) && InRun(g[p.r], p.c)
  }

  /** Cell p is in a vertical run and the column sweep has passed it. */
  ghost predicate ColumnSwept(g: Grid, p: Pos, c: int, r: int)
    requires IsGrid(g)
  {
    InGrid(p) && (p.c < c || (p.c == c && p.r < r)) && InRun(Column(g, p.c), p.r)
  }

  /** The scan starting at c begins a new run: c is the first cell of its
      line or differs from the cell before it. */
  predicate RunStart(line: seq<Cell>, c: int)
    requires 0 <= c <= |line|
  {
    c == 0 || c == |line| || line[c - 1] != line[c]
  }

  /** A maximal run line[c..c+run] holds matched cells exactly when it
      holds tokens and is at least three long: no window of three that
      touches the run can reach past its ends. */
  lemma RunIsolated(line: seq<Cell>, c: int, run: int)
    requires 0 <= c && 1 <= run && c + run <= |line|
    requires c == 0 || line[c - 1] != line[c]
    requires c + run == |line| || line[c + run] != line[c]
    requires forall k :: c <= k < c + run ==> line[k] == line[c]
    ensures forall j :: c <= j < c + run ==> (InRun(line, j) <==> line[c].Some? && run >= 3)
  {
    forall j | c <= j < c + run
      ensures InRun(line, j) <==> line[c].Some? && run >= 3
    {
      if line[c].Some? && run >= 3 {
        var k := if j + 2 < c + run then j else if j + 1 < c + run then j - 1 else j - 2;
        assert TripleAt(line, k);
      }
    }
  }

  /** Once fewer than three cells remain after a run start, none of them
      is matched. */
  lemma TailUnmatched(line: seq<Cell>, c: int)
    requires |line| >= 2 && |line| - 2 <= c <= |line| && RunStart(line, c)
    ensures forall j :: c <= j < |line| ==> !InRun(line, j)
  {
  }

  /** One row of the horizontal sweep of `find_matches`: measure each run
      of equal cells of row r, left to right, and add the cells of runs of
      three or more tokens. */
  method SweepRow(board: array2<Cell>, r: int, ghost g: Grid, matches: set<Pos>) returns (matches': set<Pos>)
    requires IsBoard(board) && g == Snapshot(board) && 0 <= r < GRID
    requires forall p :: p in matches <==> RowSwept(g, p, r, 0)
    ensures forall p :: p in matches' <==> RowSwept(g, p, r + 1, 0)
  {
    matches' := matches;
    ghost var line := g[r];
    var c := 0;
    while c < GRID - 2
      invariant 0 <= c <= GRID && RunStart(line, c)
      invariant forall p :: p in matches' <==> RowSwept(g, p, r, c)
    {
      var val := board[r, c];
      var run := 1;
      while c + run < GRID && board[r, c + run] == val
        invariant 1 <= run && c + run <= GRID
        invariant forall k :: c <= k < c + run ==> line[k] == val
      {
        run := run + 1;
      }
      RunIsolated(line, c, run);
      if val.Some? && run >= 3 {
        for i := 0 to run
          invariant forall p :: p in matches' <==> RowSwept(g, p, r, c + i)
        {
          matches' := matches' + {Pos(r, c + i)};
        }
      }
      c := c + run;
    }
    TailUnmatched(line, c);
    assert forall p :: RowSwept(g, p, r, c) <==> RowSwept(g, p, r + 1, 0);
  }

  /** One column of the vertical sweep of `find_matches`: measure each run
      of equal cells of column c, top to bottom, and add the cells of runs
      of three or more tokens. The ghost set `rows` holds what the row
      sweep found. */
  method SweepColumn(board: array2<Cell>, c: int, ghost g: Grid, ghost rows: set<Pos>, matches: set<Pos>)
    returns (matches': set<Pos>)
    requires IsBoard(board) && g == Snapshot(board) && 0 <= c < GRID
    requires forall p :: p in matches <==> p in rows || ColumnSwept(g, p, c, 0)
    ensures forall p :: p in matches' <==> p in rows || ColumnSwept(g, p, c + 1, 0)
  {
    matches' := matches;
    ghost var line := Column(g, c);
    var r := 0;
    while r < GRID - 2
      invariant 0 <= r <= GRID && RunStart(line, r)
      invariant forall p :: p in matches' <==> p in rows || ColumnSwept(g, p, c, r)
    {
      var val := board[r, c];
      var run := 1;
      while r + run < GRID && board[r + run, c] == val
        invariant 1 <= run && r + run <= GRID
        invariant forall k :: r <= k < r + run ==> line[k] == val
      {
        run := run + 1;
      }
      RunIsolated(line, r, run);
      if val.Some? && run >= 3 {
        for i := 0 to run
          invariant forall p :: p in matches' <==> p in rows || ColumnSwept(g, p, c, r + i)
        {
          matches' := matches' + {Pos(r + i, c)};
        }
      }
      r := r + run;
    }
    TailUnmatched(line, r);
    assert forall p :: ColumnSwept(g, p, c, r) <==> ColumnSwept(g, p, c + 1, 0);
  }

  /** `find_matches`: sweep every row left to right and every column top to
      bottom, measuring each run of equal cells and collecting the cells of
      runs of three or more tokens. */
  method FindMatches(board: array2<Cell>) returns (matches: set<Pos>)
    requires IsBoard(board)
    ensures matches == MatchSet(Snapshot(board))
  {
    ghost var g := Snapshot(board);
    matches := {};
    // horizontal
    for r := 0 to GRID
      invariant forall p :: p in matches <==> RowSwept(g, p, r, 0)
    {
      matches := SweepRow(board, r, g, matches);
    }
    // vertical
    ghost var rows := matches;
    for c := 0 to GRID
      invariant forall p :: p in matches <==> p in rows || ColumnSwept(g, p, c, 0)
    {
      matches := SweepColumn(board, c, g, rows, matches);
    }
    forall p
      ensures p in matches <==> p in MatchSet(g)
    {
      assert p in rows <==> RowSwept(g, p, GRID, 0);
      assert p in MatchSet(g) <==> Matched(g, Pos(p.r, p.c));
    }
  }

  /** Soundness: every matched cell is on the board, holds a token, and
      sits inside a window of three equal tokens in its row or column. */
  lemma MatchSound(g: Grid, p: Pos)
    requires IsGrid(g) && p in MatchSet(g)
    ensures InGrid(p) && g[p.r][p.c].Some?
    ensures InRun(g[p.r], p.c) || InRun(Column(g, p.c), p.r)
  {
  }

  /** Completeness: the three cells of any window of equal tokens, in a
      row or in a column, are all matched. */
  lemma MatchComplete(g: Grid, r: int, c: int)
    requires IsGrid(g) && InGrid(Pos(r, c))
    ensures TripleAt(g[r], c) ==> Pos(r, c) in MatchSet(g) && Pos(r, c + 1) in MatchSet(g) && Pos(r, c + 2) in MatchSet(g)
    ensures TripleAt(Column(g, c), r) ==> Pos(r, c) in MatchSet(g) && Pos(r + 1, c) in MatchSet(g) && Pos(r + 2, c) in MatchSet(g)
  {
    if TripleAt(g[r], c) {
      assert Matched(g, Pos(r, c)) && Matched(g, Pos(r, c + 1)) && Matched(g, Pos(r, c + 2));
    }
    if TripleAt(Column(g, c), r) {
      assert Column(g, c + 0) == Column(g, c);
      assert Matched(g, Pos(r, c)) && Matched(g, Pos(r + 1, c)) && Matched(g, Pos(r + 2, c));
    }
  }

  /** An empty cell is never matched. */
  lemma EmptyNeverMatched(g: Grid, p: Pos)
    requires IsGrid(g) && InGrid(p) && g[p.r][p.c].None?
    ensures p !in MatchSet(g)
  {
  }

  /** The match set is empty exactly when no row or column holds three
      equal tokens in a row. */
  lemma NoMatchIffNoTriple(g: Grid)
    requires IsGrid(g)
    ensures MatchSet(g) == {} <==> NoTriple(g)
  {
    if MatchSet(g) == {} {
      forall r, k | 0 <= r < GRID
        ensures !TripleAt(g[r], k)
      {
        if TripleAt(g[r], k) {
          MatchComplete(g, r, k);
        }
      }
      forall c, k | 0 <= c < GRID
        ensures !TripleAt(Column(g, c), k)
      {
        if TripleAt(Column(g, c), k) {
          MatchComplete(g, k, c);
        }
      }
    } else {
      var p :| p in MatchSet(g);
      assert Matched(g, p);
    }
  }

  /** A non-empty match set holds at least three cells, the cells of one
      whole window. */
  lemma MatchSetAtLeastThree(g: Grid)
    requires IsGrid(g) && MatchSet(g) != {}
    ensures |MatchSet(g)| >= 3
  {
    var p :| p in MatchSet(g);
    assert Matched(g, p);
    var window: set<Pos>;
    if InRun(g[p.r], p.c) {
      var k := if TripleAt(g[p.r], p.c - 2) then p.c - 2
               else if TripleAt(g[p.r], p.c - 1) then p.c - 1
               else p.c;
      window := RowWindow(g, p.r, k);
    } else {
      var col := Column(g, p.c);
      var k := if TripleAt(col, p.r - 2) then p.r - 2
               else if TripleAt(col, p.r - 1) then p.r - 1
               else p.r;
      window := ColumnWindow(g, k, p.c);
    }
    SubsetCard(window, MatchSet(g));
  }

  /** The three cells of a row window of equal tokens, all matched. */
  lemma RowWindow(g: Grid, r: int, c: int) returns (window: set<Pos>)
    requires IsGrid(g) && 0 <= r < GRID && TripleAt(g[r], c)
    ensures |window| == 3 && window <= MatchSet(g)
  {
    MatchComplete(g, r, c);
    window := {Pos(r, c), Pos(r, c + 1), Pos(r, c + 2)};
  }

  /** The three cells of a column window of equal tokens, all matched. */
  lemma ColumnWindow(g: Grid, r: int, c: int) returns (window: set<Pos>)
    requires IsGrid(g) && 0 <= c < GRID && TripleAt(Column(g, c), r)
    ensures |window| == 3 && window <= MatchSet(g)
  {
    MatchComplete(g, r, c);
    window := {Pos(r, c), Pos(r + 1, c), Pos(r + 2, c)};
  }

  lemma SubsetCard<T>(a: set<T>, b: set<T>)
    requires a <= b
    ensures |a| <= |b|
  {
    assert b == a + (b - a);
  }
}
