/** Cascades without animation: repeatedly clear every match and let the
    board settle, until no match is left. Used to stabilise a fresh board. */
module Cascades {
  import opened Model
  import opened Matches
  import opened BoardOps

  /** What a run of cascades leaves: the board, the number of cells
      cleared, the stream position after the refills, the number of rounds
      run, and whether the board was left without a match. */
  datatype Outcome = Outcome(grid: Grid, total: nat, drawn: nat, rounds: nat, stable: bool)

  /** What one round leaves: the board, the number of cells it cleared,
      and the stream position after the refills. */
  datatype Step = Step(grid: Grid, cleared: nat, drawn: nat)

  /** One cascade round on board g: clear its whole match set and let the
      board settle, refilling from draw k on. */
  ghost function Round(g: Grid, rand: TokenStream, k: nat): (s: Step)
    requires IsGrid(g)
    ensures IsGrid(s.grid)
  {
    var m := MatchSet(g);
    var emptied := Cleared(g, m);
    Step(Refilled(emptied, rand, k), |m|, k + HolesBefore(emptied, GRID))
  }

  /** The reference definition of a run of at most fuel cascade rounds on
      board g, the refills drawing from the stream from draw k on: stop on
      a board without matches, or when the fuel is used up; otherwise
      clear the whole match set, let the board settle, and go on. */
  ghost function Cascade(g: Grid, rand: TokenStream, k: nat, fuel: nat): (o: Outcome)
    requires IsGrid(g)
    ensures IsGrid(o.grid)
    ensures o.rounds <= fuel
    decreases fuel, 0
  {
    if MatchSet(g) == {} then Outcome(g, 0, k, 0, true)
    else if fuel == 0 then Outcome(g, 0, k, 0, false)
    else
      var s := Round(g, rand, k);
      Continue(s.grid, rand, s.drawn, s.cleared, fuel - 1)
  }

  /** The rest of a run, from board h after a round that cleared `cleared`
      cells: that round is counted and its cells are added to the total. */
  ghost function Continue(h: Grid, rand: TokenStream, k: nat, cleared: nat, fuel: nat): (o: Outcome)
    requires IsGrid(h)
    ensures IsGrid(o.grid)
    ensures o.rounds <= fuel + 1
    decreases fuel, 2
  {
    var o := Resume(h, rand, k, fuel);
    Outcome(o.grid, cleared + o.total, o.drawn, o.rounds + 1, o.stable)
  }

  /** The run resumed from the board a round left. It is a step of its own
      in the definition so that unfolding Continue once does not also
      unfold the round that follows. */
  ghost function Resume(h: Grid, rand: TokenStream, k: nat, fuel: nat): (o: Outcome)
    requires IsGrid(h)
    ensures IsGrid(o.grid)
    ensures o.rounds <= fuel
    decreases fuel, 1
  {
    Cascade(h, rand, k, fuel)
  }

  /** Every match set lies on the board. */
  lemma MatchSetInGrid(g: Grid)
    requires IsGrid(g)
    ensures forall p :: p in MatchSet(g) ==> InGrid(p)
  {
    forall p | p in MatchSet(g)
      ensures InGrid(p)
    {
      MatchSound(g, p);
    }
  }

  /** A run with fuel left on a board with matches is one round followed
      by a run on the board the round leaves. */
  lemma CascadeUnfold(g: Grid, rand: TokenStream, k: nat, less: nat)
    requires IsGrid(g) && MatchSet(g) != {}
    ensures var s := Round(g, rand, k);
      Cascade(g, rand, k, less + 1) == Continue(s.grid, rand, s.drawn, s.cleared, less)
  {
  }

  /** The rest of a run counts the round and its cleared cells on top of
      the run resumed from the board the round left. */
  lemma ContinueUnfold(h: Grid, rand: TokenStream, k: nat, cleared: nat, fuel: nat)
    requires IsGrid(h)
    ensures var o := Cascade(h, rand, k, fuel);
      Continue(h, rand, k, cleared, fuel) == Outcome(o.grid, cleared + o.total, o.drawn, o.rounds + 1, o.stable)
  {
  }

  /** One round on the board: clear the given matches and let the board
      settle, drawing the refills from draw k on. */
  method ClearAndSettle(board: array2<Cell>, matches: set<Pos>, rand: TokenStream, k: nat)
    returns (k': nat)
    requires IsBoard(board) && matches == MatchSet(Snapshot(board))
    modifies board
    ensures Snapshot(board) == Round(old(Snapshot(board)), rand, k).grid
    ensures k' == Round(old(Snapshot(board)), rand, k).drawn
  {
    MatchSetInGrid(Snapshot(board));
    ClearMatches(board, matches);
    k' := DropAndFill(board, rand, k);
  }

  /** `resolve_cascades`: while the board has matches, add their number to
      the total, clear them and let the board settle. At most fuel rounds
      are run; stable reports whether the board was left without a match. */
  method ResolveCascades(board: array2<Cell>, rand: TokenStream, k: nat, fuel: nat)
    returns (total: nat, k': nat, stable: bool)
    requires IsBoard(board)
    modifies board
    ensures Snapshot(board) == Cascade(old(Snapshot(board)), rand, k, fuel).grid
    ensures total == Cascade(old(Snapshot(board)), rand, k, fuel).total
    ensures k' == Cascade(old(Snapshot(board)), rand, k, fuel).drawn
    ensures stable == Cascade(old(Snapshot(board)), rand, k, fuel).stable
    ensures stable <==> MatchSet(Snapshot(board)) == {}
    ensures Full(old(Snapshot(board))) ==> Full(Snapshot(board))
  {
    ghost var start := Snapshot(board);
    ghost var goal := Cascade(start, rand, k, fuel);
    total := 0;
    k' := k;
    var left := fuel;
    var matches := FindMatches(board);
    while matches != {} && left > 0
      invariant matches == MatchSet(Snapshot(board))
      invariant Cascade(Snapshot(board), rand, k', left).grid == goal.grid
      invariant Cascade(Snapshot(board), rand, k', left).drawn == goal.drawn
      invariant Cascade(Snapshot(board), rand, k', left).stable == goal.stable
      invariant total + Cascade(Snapshot(board), rand, k', left).total == goal.total
      decreases left
    {
      var less := left - 1;
      CascadeUnfold(Snapshot(board), rand, k', less);
      total := total + |matches|;
      k' := ClearAndSettle(board, matches, rand, k');
      ContinueUnfold(Snapshot(board), rand, k', |matches|, less);
      matches := FindMatches(board);
      left := less;
    }
    stable := matches == {};
    CascadeFull(start, rand, k, fuel);
  }

  /** `make_start_stable`: the cascade loop without the running total. */
  method MakeStartStable(board: array2<Cell>, rand: TokenStream, k: nat, fuel: nat)
    returns (k': nat, stable: bool)
    requires IsBoard(board)
    modifies board
    ensures Snapshot(board) == Cascade(old(Snapshot(board)), rand, k, fuel).grid
    ensures k' == Cascade(old(Snapshot(board)), rand, k, fuel).drawn
    ensures stable == Cascade(old(Snapshot(board)), rand, k, fuel).stable
    ensures stable <==> MatchSet(Snapshot(board)) == {}
    ensures Full(old(Snapshot(board))) ==> Full(Snapshot(board))
  {
    ghost var start := Snapshot(board);
    ghost var goal := Cascade(start, rand, k, fuel);
    k' := k;
    var left := fuel;
    var matches := FindMatches(board);
    while matches != {} && left > 0
      invariant matches == MatchSet(Snapshot(board))
      invariant Cascade(Snapshot(board), rand, k', left).grid == goal.grid
      invariant Cascade(Snapshot(board), rand, k', left).drawn == goal.drawn
      invariant Cascade(Snapshot(board), rand, k', left).stable == goal.stable
      decreases left
    {
      var less := left - 1;
      CascadeUnfold(Snapshot(board), rand, k', less);
      k' := ClearAndSettle(board, matches, rand, k');
      ContinueUnfold(Snapshot(board), rand, k', |matches|, less);
      matches := FindMatches(board);
      left := less;
    }
    stable := matches == {};
    CascadeFull(start, rand, k, fuel);
  }

  /** A run reports a stable board exactly when it leaves no match. */
  lemma {:induction false} CascadeStable(g: Grid, rand: TokenStream, k: nat, fuel: nat)
    requires IsGrid(g)
    ensures Cascade(g, rand, k, fuel).stable <==> MatchSet(Cascade(g, rand, k, fuel).grid) == {}
    decreases fuel, 0
  {
    if MatchSet(g) != {} && fuel > 0 {
      var s := Round(g, rand, k);
      ContinueStable(s.grid, rand, s.drawn, s.cleared, fuel - 1);
    }
  }

  /** The same, for the rest of a run after a round. */
  lemma {:induction false} ContinueStable(h: Grid, rand: TokenStream, k: nat, cleared: nat, fuel: nat)
    requires IsGrid(h)
    ensures Continue(h, rand, k, cleared, fuel).stable <==> MatchSet(Continue(h, rand, k, cleared, fuel).grid) == {}
    decreases fuel, 2
  {
    CascadeStable(h, rand, k, fuel);
  }

  /** Every round clears at least three cells, so the total counts at
      least three cells per round, and it is zero exactly when no round
      was run. */
  lemma {:induction false} CascadeTotal(g: Grid, rand: TokenStream, k: nat, fuel: nat)
    requires IsGrid(g)
    ensures Cascade(g, rand, k, fuel).total >= 3 * Cascade(g, rand, k, fuel).rounds
    ensures Cascade(g, rand, k, fuel).total == 0 <==> Cascade(g, rand, k, fuel).rounds == 0
    decreases fuel, 0
  {
    if MatchSet(g) != {} && fuel > 0 {
      var s := Round(g, rand, k);
      MatchSetAtLeastThree(g);
      ContinueTotal(s.grid, rand, s.drawn, s.cleared, fuel - 1);
    }
  }

  /** After a round of at least three cells the total is positive and still
      counts at least three cells per round. */
  lemma {:induction false} ContinueTotal(h: Grid, rand: TokenStream, k: nat, cleared: nat, fuel: nat)
    requires IsGrid(h) && cleared >= 3
    ensures Continue(h, rand, k, cleared, fuel).total >= 3 * Continue(h, rand, k, cleared, fuel).rounds
    ensures Continue(h, rand, k, cleared, fuel).total > 0
    decreases fuel, 2
  {
    CascadeTotal(h, rand, k, fuel);
  }

  /** A run stops early only on a board without matches: a run left
      unstable used up all of its fuel. */
  lemma {:induction false} CascadeUsesFuel(g: Grid, rand: TokenStream, k: nat, fuel: nat)
    requires IsGrid(g)
    ensures !Cascade(g, rand, k, fuel).stable ==> Cascade(g, rand, k, fuel).rounds == fuel
    decreases fuel, 0
  {
    if MatchSet(g) != {} && fuel > 0 {
      var s := Round(g, rand, k);
      ContinueUsesFuel(s.grid, rand, s.drawn, s.cleared, fuel - 1);
    }
  }

  /** The same, for the rest of a run after a round. */
  lemma {:induction false} ContinueUsesFuel(h: Grid, rand: TokenStream, k: nat, cleared: nat, fuel: nat)
    requires IsGrid(h)
    ensures !Continue(h, rand, k, cleared, fuel).stable ==> Continue(h, rand, k, cleared, fuel).rounds == fuel + 1
    decreases fuel, 2
  {
    CascadeUsesFuel(h, rand, k, fuel);
  }

  /** After at least one round the board is full; a full board stays full. */
  lemma {:induction false} CascadeFull(g: Grid, rand: TokenStream, k: nat, fuel: nat)
    requires IsGrid(g)
    ensures Cascade(g, rand, k, fuel).rounds > 0 || Full(g) ==> Full(Cascade(g, rand, k, fuel).grid)
    decreases fuel, 0
  {
    if MatchSet(g) != {} && fuel > 0 {
      var s := Round(g, rand, k);
      RefilledFull(Cleared(g, MatchSet(g)), rand, k);
      ContinueFull(s.grid, rand, s.drawn, s.cleared, fuel - 1);
    }
  }

  /** The rest of a run from a full board ends on a full board. */
  lemma {:induction false} ContinueFull(h: Grid, rand: TokenStream, k: nat, cleared: nat, fuel: nat)
    requires IsGrid(h) && Full(h)
    ensures Full(Continue(h, rand, k, cleared, fuel).grid)
    decreases fuel, 2
  {
    CascadeFull(h, rand, k, fuel);
  }

  /** A board without matches is left as it is, and nothing is drawn. */
  lemma CascadeOfStable(g: Grid, rand: TokenStream, k: nat, fuel: nat)
    requires IsGrid(g) && NoTriple(g)
    ensures Cascade(g, rand, k, fuel) == Outcome(g, 0, k, 0, true)
  {
    NoMatchIffNoTriple(g);
  }
}
