/**
 * The computer's move choice (`findBestMove`): take the empty third cell of
 * the first line that already holds two equal marks, trying the pairs of
 * each line in the order (a,b), (a,c), (b,c); failing that, any empty cell;
 * failing that, -1. The pair's mark is not examined, so the same rule both
 * completes the computer's own line and blocks the player's.
 */
module Opponent {
  import opened Board

  /** Two cells of a line and the third cell the rule would take. */
  datatype Pair = Pair(p: Index, q: Index, target: Index)

  /** The three pairs of a line in the order they are tried: (a,b→c), (a,c→b), (b,c→a). */
  function Pairs(l: Line): (r: seq<Pair>)
    ensures |r| == 3
  {
    [Pair(l.a, l.b, l.c), Pair(l.a, l.c, l.b), Pair(l.b, l.c, l.a)]
  }

  /** Each pair takes two cells of the line and aims at the remaining one; the targets are c, b, a in turn. */
  lemma PairsCoverLine(l: Line, k: nat)
    requires k < 3
    ensures multiset{Pairs(l)[k].p, Pairs(l)[k].q, Pairs(l)[k].target} == multiset{l.a, l.b, l.c}
    ensures Pairs(l)[0].target == l.c && Pairs(l)[1].target == l.b && Pairs(l)[2].target == l.a
  {
  }

  /** The pair holds two equal marks, of either side, and its third cell is free. */
  predicate Completes(b: Board, pr: Pair)
    ensures Completes(b, pr) <==>
      ((b[pr.p] == X && b[pr.q] == X) || (b[pr.p] == O && b[pr.q] == O)) && b[pr.target] == Empty
  {
    b[pr.p] == b[pr.q] && b[pr.p] != Empty && b[pr.target] == Empty
  }

  /**
   * Pair `k` of line `i` is the first to apply when lines are taken in order
   * and, within a line, pairs are taken in order.
   */
  ghost predicate FirstCompletion(b: Board, lines: seq<Line>, i: int, k: int) {
    && 0 <= i < |lines| && 0 <= k < 3
    && Completes(b, Pairs(lines[i])[k])
    && (forall i', k' :: 0 <= i' < i && 0 <= k' < 3 ==> !Completes(b, Pairs(lines[i'])[k']))
    && (forall k' :: 0 <= k' < k ==> !Completes(b, Pairs(lines[i])[k']))
  }

  /** No pair of any line of `lines` applies. */
  ghost predicate NoCompletion(b: Board, lines: seq<Line>) {
    forall i, k :: 0 <= i < |lines| && 0 <= k < 3 ==> !Completes(b, Pairs(lines[i])[k])
  }

  /** The early-return scan of the `for` loop over the lines. */
  function ScanLines(b: Board, lines: seq<Line>): (r: Option<Index>)
    ensures r.None? <==> NoCompletion(b, lines)
    ensures r.Some? ==> b[r.value] == Empty
  {
    if lines == [] then None
    else
      var l := lines[0];
      if b[l.a] == b[l.b] && b[l.a] != Empty && b[l.c] == Empty then
        assert Completes(b, Pairs(lines[0])[0]);
        Some(l.c)
      else if b[l.a] == b[l.c] && b[l.a] != Empty && b[l.b] == Empty then
        assert Completes(b, Pairs(lines[0])[1]);
        Some(l.b)
      else if b[l.b] == b[l.c] && b[l.b] != Empty && b[l.a] == Empty then
        assert Completes(b, Pairs(lines[0])[2]);
        Some(l.a)
      else
        var r := ScanLines(b, lines[1..]);
        assert forall k :: 0 <= k < 3 ==> !Completes(b, Pairs(lines[0])[k]);
        assert forall i :: 1 <= i < |lines| ==> lines[i] == lines[1..][i - 1];
        r
  }

  /**
   * `findBestMove` with `Math.random()` replaced by an arbitrary `roll`:
   * the fallback takes the empty cell at position `roll % n` of the n empty
   * cells, so every empty cell is a possible pick.
   */
  function BestMove(b: Board, roll: nat): (r: int)
    ensures r == -1 <==> CheckTie(b)
    ensures r != -1 ==> 0 <= r < 9 && b[r] == Empty
  {
    match ScanLines(b, WinningConditions)
    case Some(t) => t
    case None =>
      var emptyCells := EmptyCells(b);
      if |emptyCells| > 0 then emptyCells[roll % |emptyCells|] else -1
  }

  /** The scan returns the third cell of the first applicable pair. */
  lemma {:induction false} ScanLinesFirst(b: Board, lines: seq<Line>, i: int, k: int)
    requires FirstCompletion(b, lines, i, k)
    ensures ScanLines(b, lines) == Some(Pairs(lines[i])[k].target)
  {
    if i > 0 {
      assert forall k' :: 0 <= k' < 3 ==> !Completes(b, Pairs(lines[0])[k']);
      assert FirstCompletion(b, lines[1..], i - 1, k) by {
        forall i', k' | 0 <= i' < i - 1 && 0 <= k' < 3
          ensures !Completes(b, Pairs(lines[1..][i'])[k'])
        {
          assert lines[1..][i'] == lines[i' + 1];
        }
      }
      ScanLinesFirst(b, lines[1..], i - 1, k);
      ScanLinesSkip(b, lines);
      assert lines[1..][i - 1] == lines[i];
    }
  }

  /** A line none of whose pairs applies is passed over. */
  lemma ScanLinesSkip(b: Board, lines: seq<Line>)
    requires lines != []
    requires forall k :: 0 <= k < 3 ==> !Completes(b, Pairs(lines[0])[k])
    ensures ScanLines(b, lines) == ScanLines(b, lines[1..])
  {
    var l := lines[0];
    assert !Completes(b, Pairs(l)[0]) && !Completes(b, Pairs(l)[1]) && !Completes(b, Pairs(l)[2]);
  }

  /** A pair of equal marks beside a free cell wins over the random fallback,
      and the first such pair in line order and pair order is the one taken. */
  lemma BestMovePriority(b: Board, roll: nat, i: int, k: int)
    requires FirstCompletion(b, WinningConditions, i, k)
    ensures BestMove(b, roll) == Pairs(WinningConditions[i])[k].target
  {
    ScanLinesFirst(b, WinningConditions, i, k);
  }

  /** Whenever some pair applies, there is a first one, so the scan's answer is determined. */
  lemma {:induction false} FirstCompletionExists(b: Board, lines: seq<Line>)
    requires !NoCompletion(b, lines)
    ensures exists i, k :: FirstCompletion(b, lines, i, k)
  {
    var i, k :| 0 <= i < |lines| && 0 <= k < 3 && Completes(b, Pairs(lines[i])[k]);
    if forall k' :: 0 <= k' < 3 ==> !Completes(b, Pairs(lines[0])[k']) {
      assert !NoCompletion(b, lines[1..]) by {
        assert i > 0 && lines[1..][i - 1] == lines[i];
      }
      FirstCompletionExists(b, lines[1..]);
      var i', k' :| FirstCompletion(b, lines[1..], i', k');
      assert FirstCompletion(b, lines, i' + 1, k') by {
        forall j, k'' | 0 <= j < i' + 1 && 0 <= k'' < 3
          ensures !Completes(b, Pairs(lines[j])[k''])
        {
          if j > 0 { assert lines[j] == lines[1..][j - 1]; }
        }
      }
    } else if Completes(b, Pairs(lines[0])[0]) {
      assert FirstCompletion(b, lines, 0, 0);
    } else if Completes(b, Pairs(lines[0])[1]) {
      assert FirstCompletion(b, lines, 0, 1);
    } else {
      assert FirstCompletion(b, lines, 0, 2);
    }
  }

  /** With no applicable pair, the move is a member of the empty-cell list,
      namely the one `roll` selects. */
  lemma BestMoveFallback(b: Board, roll: nat)
    requires NoCompletion(b, WinningConditions)
    requires !CheckTie(b)
    ensures BestMove(b, roll) in EmptyCells(b)
    ensures BestMove(b, roll) == EmptyCells(b)[roll % |EmptyCells(b)|]
  {
  }

  /** With no applicable pair, every empty cell is the move for some roll. */
  lemma FallbackReachesEveryEmpty(b: Board, cell: Index)
    requires NoCompletion(b, WinningConditions)
    requires b[cell] == Empty
    ensures exists roll: nat :: BestMove(b, roll) == cell
  {
    var e := EmptyCells(b);
    assert cell in e;
    var j :| 0 <= j < |e| && e[j] == cell;
    ModBelow(j, |e|);
    assert BestMove(b, j) == e[j];
  }

  lemma ModBelow(j: nat, n: nat)
    requires j < n
    ensures j % n == j
  {
  }

  /**
   * The rule does not prefer its own win: here `O` could complete the middle
   * row at 5, but the top row's pair of `X` comes first, so the move is 2.
   */
  lemma BlocksBeforeWinning(roll: nat)
    ensures var b: Board := [X, X, Empty, O, O, Empty, X, Empty, Empty];
      && BestMove(b, roll) == 2
      && Filled(b[5 := O], WinningConditions[1], O)
  {
    var b: Board := [X, X, Empty, O, O, Empty, X, Empty, Empty];
    assert FirstCompletion(b, WinningConditions, 0, 0);
    BestMovePriority(b, roll, 0, 0);
  }

  /**
   * A line completed by `O` is not a terminal state for the page, which only
   * tests the player's mark: after the computer takes 2 here, `O` holds the
   * whole top row and the game is still in progress.
   */
  lemma ComputerWinUndetected(roll: nat)
    ensures var b: Board := [O, O, Empty, X, Empty, Empty, X, Empty, X];
      && !IsTerminal(b, X)
      && BestMove(b, roll) == 2
      && Filled(b[2 := O], WinningConditions[0], O)
      && GameStatus(b[2 := O], X) == InProgress
  {
    var b: Board := [O, O, Empty, X, Empty, Empty, X, Empty, X];
    NoLineThrough(b, X);
    NoLineThrough(b[2 := O], X);
    assert FirstCompletion(b, WinningConditions, 0, 0);
    BestMovePriority(b, roll, 0, 0);
  }

  /** Every winning line passes through cell 0, 4, 5 or 7, so a side holding none of them has no line. */
  lemma NoLineThrough(b: Board, player: Mark)
    requires b[0] != player && b[4] != player && b[5] != player && b[7] != player
    ensures !CheckWinner(b, player)
  {
  }
}
