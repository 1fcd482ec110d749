/** The game loop: the phase machine that runs one animation at a time
    (swap, shrink of the matched tiles, fall of the survivors and the new
    tiles) and the mouse clicks that select tiles and start a swap. */
module Game {
  import opened Model
  import opened Geometry
  import opened Matches
  import opened BoardOps
  import opened Animations
  import opened Cascades

  /** Length of the swap animation, in milliseconds. */
  const ANIM_DURATION: int := 600
  /** Length of the fall animation, in milliseconds. */
  const FALL_DURATION: int := 900
  /** Length of the shrink animation of matched tiles, in milliseconds. */
  const SHRINK_DURATION: int := 150
  /** Points per cleared cell. */
  const POINTS_PER_CELL: int := 10

  /** What the loop is doing: waiting for clicks, or playing one animation.
      A swap remembers the two cells and the tokens they held when it
      started; a fall remembers how many cells the round clears. */
  datatype Phase =
    | Idle
    | Swapping(a: Pos, b: Pos, vals: (Cell, Cell))
    | Shrinking(shrink: ShrinkAnim)
    | Falling(fall: FallAnim, cleared: nat)

  /** How long the animation of a phase lasts. */
  function Duration(phase: Phase): int {
    match phase
    case Idle => 0
    case Swapping(_, _, _) => ANIM_DURATION
    case Shrinking(_) => SHRINK_DURATION
    case Falling(_, _) => FALL_DURATION
  }

  /** The arrays a phase refers to besides the board. */
  function PhaseArrays(phase: Phase): set<object> {
    if phase.Falling? then {phase.fall.after} else {}
  }

  /** The board the program starts with: a fresh random board on which
      cascades have run until no match is left. */
  method StartBoard(rand: TokenStream, fuel: nat) returns (board: array2<Cell>, k': nat)
    requires Cascade(FreshGrid(rand, 0), rand, GRID * GRID, fuel).stable
    ensures fresh(board) && IsBoard(board)
    ensures Snapshot(board) == Cascade(FreshGrid(rand, 0), rand, GRID * GRID, fuel).grid
    ensures k' == Cascade(FreshGrid(rand, 0), rand, GRID * GRID, fuel).drawn
    ensures Full(Snapshot(board)) && MatchSet(Snapshot(board)) == {}
  {
    var k;
    board, k := NewBoard(rand, 0);
    ghost var goal := Cascade(Snapshot(board), rand, k, fuel);
    var stable;
    k', stable := MakeStartStable(board, rand, k, fuel);
    assert stable == goal.stable;
  }

  /** The end of a shrink, on the board alone: the matched cells are
      emptied in place and the fall from the emptied board is computed. */
  method ClearAndFall(board: array2<Cell>, matches: set<Pos>, rand: TokenStream, k: nat)
    returns (anim: FallAnim, cleared: nat, k': nat)
    requires IsBoard(board) && matches == MatchSet(Snapshot(board))
    modifies board
    ensures Snapshot(board) == Cleared(old(Snapshot(board)), matches)
    ensures anim.before == Snapshot(board)
    ensures fresh(anim.after) && IsBoard(anim.after)
    ensures Snapshot(anim.after) == Fallen(anim.before, rand, k) && Full(Snapshot(anim.after))
    ensures anim.tiles == FallMoves(anim.before, rand, k, GRID)
    ensures cleared == |matches|
    ensures k' == k + HolesBefore(anim.before, GRID)
  {
    ghost var before := Snapshot(board);
    MatchSetInGrid(before);
    ClearMatches(board, matches);
    anim, cleared, k' := ComputeFallAnimation(board, matches, rand, k);
    ClearIdempotent(before, matches);
  }

  class Game {
    var board: array2<Cell>
    var score: nat
    var selected: Option<Pos>
    var phase: Phase
    var animStart: int
    /** The random token source, and the number of draws taken from it. */
    const rand: TokenStream
    var drawn: nat

    /** The game invariant. At rest, and while a swap plays, the board is
        full and has no match. While matched tiles shrink, the board is full
        and the animation holds exactly its match set, one tile per matched
        cell showing that cell's token. While tiles fall, the
        board has the matched cells emptied and the board to come is full.
        The score only ever grows by whole cells. */
    ghost predicate Valid()
      reads this, board, PhaseArrays(phase)
    {
      IsBoard(board)
      && (selected.Some? ==> InGrid(selected.value))
      && score % POINTS_PER_CELL == 0
      && match phase
         case Idle =>
           Full(Snapshot(board)) && MatchSet(Snapshot(board)) == {}
         case Swapping(a, b, vals) =>
           InGrid(a) && InGrid(b) && Adjacent(a, b)
           && vals == (board[a.r, a.c], board[b.r, b.c])
           && Full(Snapshot(board)) && MatchSet(Snapshot(board)) == {}
         case Shrinking(shrink) =>
           Full(Snapshot(board))
           && shrink.before == Snapshot(board)
           && shrink.matches == MatchSet(Snapshot(board)) && shrink.matches != {}
           && Positions(shrink.tiles) == shrink.matches
           && |shrink.tiles| == |shrink.matches|
           && AllShow(shrink.tiles, shrink.before)
         case Falling(fall, cleared) =>
           fall.before == Snapshot(board)
           && fall.after != board && IsBoard(fall.after)
           && Full(Snapshot(fall.after))
    }

    /** The start of the program: a fresh random board, stabilised so that
        it shows no match, with no selection, no score and no animation. */
    constructor (rand: TokenStream, fuel: nat)
      requires Cascade(FreshGrid(rand, 0), rand, GRID * GRID, fuel).stable
      ensures Valid()
      ensures Snapshot(board) == Cascade(FreshGrid(rand, 0), rand, GRID * GRID, fuel).grid
      ensures drawn == Cascade(FreshGrid(rand, 0), rand, GRID * GRID, fuel).drawn
      ensures score == 0 && selected == None && phase == Idle && this.rand == rand
    {
      var b, k' := StartBoard(rand, fuel);
      board := b;
      score := 0;
      selected := None;
      phase := Idle;
      animStart := 0;
      this.rand := rand;
      drawn := k';
    }
    /** A mouse click at pixel (mx, my) at time now. Clicks are ignored
        while an animation plays and outside the tiles. Otherwise the click
        selects a tile when none is selected, deselects the selected tile
        when it is clicked again, moves the selection to a clicked tile that
        is not next to it, and starts swapping the selected tile with a
        clicked neighbour, remembering both tokens. */
    method Click(mx: int, my: int, now: int)
      requires Valid()
      modifies this
      ensures Valid()
      ensures board == old(board) && score == old(score) && drawn == old(drawn)
      ensures !old(phase).Idle? || PixelToCell(mx, my).None? ==>
        selected == old(selected) && phase == old(phase) && animStart == old(animStart)
      ensures old(phase).Idle? && PixelToCell(mx, my).Some? ==>
        var cell := PixelToCell(mx, my).value;
        match old(selected)
        case None => selected == Some(cell) && phase == Idle && animStart == old(animStart)
        case Some(sel) =>
          if cell == sel then
            selected == None && phase == Idle && animStart == old(animStart)
          else if !Adjacent(sel, cell) then
            selected == Some(cell) && phase == Idle && animStart == old(animStart)
          else
            selected == None && animStart == now
            && phase == Swapping(sel, cell, (board[sel.r, sel.c], board[cell.r, cell.c]))
    {
      if !phase.Idle? {
        return;
      }
      var cell := PixelToCell(mx, my);
      if cell.None? {
        return;
      }
      var p := cell.value;
      match selected
      case None =>
        selected := Some(p);
      case Some(sel) =>
        if p == sel {
          selected := None;
        } else if !Adjacent(sel, p) {
          selected := Some(p);
        } else {
          phase := Swapping(sel, p, (board[sel.r, sel.c], board[p.r, p.c]));
          animStart := now;
          selected := None;
        }
    }

    /** One frame of the loop at time now: once the running animation is
        over, finish it and start what follows. An animation is over when
        the time elapsed since it started reaches its duration, which is
        when its progress `min(1, elapsed / duration)` reaches 1. A swap that makes no match
        is undone and reported as cancelled (the game shows a message for
        that frame); otherwise its matches start to shrink. Shrunk matches
        are cleared and the fall is computed. A finished fall puts the new
        board in place, scores the cleared cells, and either shrinks the
        next matches of the cascade or comes to rest. */
    method Tick(now: int) returns (cancelled: bool)
      requires Valid()
      modifies this, board
      ensures Valid()
      ensures selected == old(selected) && score >= old(score)
      ensures cancelled ==> phase == Idle
      ensures old(phase).Idle? || now - old(animStart) < Duration(old(phase)) ==>
        board == old(board) && Snapshot(board) == old(Snapshot(board)) && phase == old(phase)
        && animStart == old(animStart) && score == old(score) && drawn == old(drawn) && !cancelled
      ensures old(phase).Swapping? && now - old(animStart) >= ANIM_DURATION ==>
        var swapped := Swapped(old(Snapshot(board)), old(phase).a, old(phase).b);
        board == old(board) && score == old(score) && drawn == old(drawn)
        && (MatchSet(swapped) == {} ==>
              cancelled && phase == Idle && Snapshot(board) == old(Snapshot(board)))
        && (MatchSet(swapped) != {} ==>
              !cancelled && Snapshot(board) == swapped && animStart == now
              && phase.Shrinking? && phase.shrink.matches == MatchSet(swapped))
      ensures old(phase).Shrinking? && now - old(animStart) >= SHRINK_DURATION ==>
        var emptied := Cleared(old(Snapshot(board)), old(phase).shrink.matches);
        !cancelled && board == old(board) && score == old(score) && animStart == now
        && Snapshot(board) == emptied
        && phase.Falling? && phase.fall.before == emptied && fresh(phase.fall.after)
        && Snapshot(phase.fall.after) == Fallen(emptied, rand, old(drawn))
        && phase.fall.tiles == FallMoves(emptied, rand, old(drawn), GRID)
        && phase.cleared == |old(phase).shrink.matches|
        && drawn == old(drawn) + HolesBefore(emptied, GRID)
      ensures old(phase).Falling? && now - old(animStart) >= FALL_DURATION ==>
        !cancelled && board == old(phase).fall.after && drawn == old(drawn)
        && Snapshot(board) == old(Snapshot(phase.fall.after))
        && score == old(score) + POINTS_PER_CELL * old(phase).cleared
        && (MatchSet(Snapshot(board)) == {} ==> phase == Idle)
        && (MatchSet(Snapshot(board)) != {} ==>
              animStart == now && phase.Shrinking? && phase.shrink.matches == MatchSet(Snapshot(board)))
    {
      cancelled := false;
      if phase.Idle? || now - animStart < Duration(phase) {
        return;
      }
      match phase
      case Swapping(_, _, _) =>
        cancelled := FinishSwap(now);
      case Shrinking(_) =>
        FinishShrink(now);
      case Falling(_, _) =>
        FinishFall(now);
    }

    /** The end of a swap: exchange the two tokens; without a match, put
        them back and come to rest; otherwise start shrinking the matches. */
    method FinishSwap(now: int) returns (cancelled: bool)
      requires Valid() && phase.Swapping?
      modifies this, board
      ensures Valid()
      ensures board == old(board) && selected == old(selected)
      ensures score == old(score) && drawn == old(drawn)
      ensures var swapped := Swapped(old(Snapshot(board)), old(phase).a, old(phase).b);
        (MatchSet(swapped) == {} ==>
           cancelled && phase == Idle && Snapshot(board) == old(Snapshot(board)))
        && (MatchSet(swapped) != {} ==>
           !cancelled && Snapshot(board) == swapped && animStart == now
           && phase.Shrinking? && phase.shrink.matches == MatchSet(swapped))
    {
      var a, b := phase.a, phase.b;
      ghost var before := Snapshot(board);
      Swap(board, a, b);
      var matches := FindMatches(board);
      if matches == {} {
        Swap(board, a, b);
        SwapInvolution(before, a, b);
        phase := Idle;
        cancelled := true;
      } else {
        SwapKeepsFull(before, a, b);
        StartShrink(matches, now);
        cancelled := false;
      }
    }

    /** Start shrinking the matches of a full board. */
    method StartShrink(matches: set<Pos>, now: int)
      requires IsBoard(board) && (selected.Some? ==> InGrid(selected.value))
      requires score % POINTS_PER_CELL == 0 && Full(Snapshot(board))
      requires matches == MatchSet(Snapshot(board)) && matches != {}
      modifies this
      ensures Valid()
      ensures board == old(board) && selected == old(selected)
      ensures score == old(score) && drawn == old(drawn)
      ensures animStart == now && phase.Shrinking? && phase.shrink.matches == matches
    {
      MatchSetInGrid(Snapshot(board));
      var shrink := MakeShrinkAnimation(board, matches);
      phase := Shrinking(shrink);
      animStart := now;
    }

    /** The end of a shrink: empty the matched cells and start the fall of
        the survivors and of the new tokens. */
    method FinishShrink(now: int)
      requires Valid() && phase.Shrinking?
      modifies this, board
      ensures Valid()
      ensures board == old(board) && selected == old(selected) && score == old(score)
      ensures var emptied := Cleared(old(Snapshot(board)), old(phase).shrink.matches);
        animStart == now && Snapshot(board) == emptied
        && phase.Falling? && phase.fall.before == emptied && fresh(phase.fall.after)
        && Snapshot(phase.fall.after) == Fallen(emptied, rand, old(drawn))
        && phase.fall.tiles == FallMoves(emptied, rand, old(drawn), GRID)
        && phase.cleared == |old(phase).shrink.matches|
        && drawn == old(drawn) + HolesBefore(emptied, GRID)
    {
      var matches := phase.shrink.matches;
      assert matches == MatchSet(Snapshot(board));
      var anim, cleared, k' := ClearAndFall(board, matches, rand, drawn);
      phase := Falling(anim, cleared);
      drawn := k';
      animStart := now;
    }

    /** The end of a fall: the computed board becomes the board, the
        cleared cells are scored, and the cascade goes on while the board
        has matches. */
    method FinishFall(now: int)
      requires Valid() && phase.Falling?
      modifies this
      ensures Valid()
      ensures board == old(phase).fall.after && selected == old(selected) && drawn == old(drawn)
      ensures score == old(score) + POINTS_PER_CELL * old(phase).cleared
      ensures MatchSet(Snapshot(board)) == {} ==> phase == Idle
      ensures MatchSet(Snapshot(board)) != {} ==>
        animStart == now && phase.Shrinking? && phase.shrink.matches == MatchSet(Snapshot(board))
    {
      var cleared := phase.cleared;
      board := phase.fall.after;
      score := score + POINTS_PER_CELL * cleared;
      var matches := FindMatches(board);
      if matches != {} {
        StartShrink(matches, now);
      } else {
        phase := Idle;
      }
    }
  }
}
