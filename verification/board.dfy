/**
 * The rules of the game: the nine cells, the eight winning lines, and the
 * pure tests the page runs after every move (`checkWinner`, `checkTie`, the
 * list of empty cells, and the win-before-tie choice of `updateGameStatus`).
 */
module Board {

  datatype Option<T> = None | Some(value: T)

  /** A cell holds nothing (the page's `''`), the player's `'X'` or the computer's `'O'`. */
  datatype Cell = Empty | X | O

  /** A side's mark: what `currentPlayer` holds and what a win is credited to. */
  type Mark = c: Cell | c != Empty witness X

  /** A cell position, row-major on the 3x3 grid. */
  type Index = i: int | 0 <= i < 9

  /** The whole board, always exactly nine cells. */
  type Board = b: seq<Cell> | |b| == 9
    witness [Empty, Empty, Empty, Empty, Empty, Empty, Empty, Empty, Empty]

  const EmptyBoard: Board := [Empty, Empty, Empty, Empty, Empty, Empty, Empty, Empty, Empty]

  /** A winning line, as the index triple `[a, b, c]`. */
  datatype Line = Line(a: Index, b: Index, c: Index)

  /** Rows, then columns, then the two diagonals, in the order the page scans them. */
  const WinningConditions: seq<Line> := [
    Line(0, 1, 2), Line(3, 4, 5), Line(6, 7, 8),
    Line(0, 3, 6), Line(1, 4, 7), Line(2, 5, 8),
    Line(0, 4, 8), Line(2, 4, 6)
  ]

  /** Three cells in a straight line on the 3x3 grid, in ascending order. */
  predicate Straight(l: Line) {
    || (l.a % 3 == 0 && l.b == l.a + 1 && l.c == l.a + 2)
    || (l.a < 3 && l.b == l.a + 3 && l.c == l.a + 6)
    || l == Line(0, 4, 8) || l == Line(2, 4, 6)
  }

  /** The eight lines are exactly the straight lines of the grid, each listed once. */
  lemma WinningConditionsAreLines()
    ensures |WinningConditions| == 8
    ensures forall i :: 0 <= i < 8 ==> Straight(WinningConditions[i])
    ensures forall l: Line :: Straight(l) ==> l in WinningConditions
    ensures forall i, j :: 0 <= i < j < 8 ==> WinningConditions[i] != WinningConditions[j]
  {
  }

  /** All three cells of `l` hold `player`. */
  predicate Filled(b: Board, l: Line, player: Mark) {
    b[l.a] == player && b[l.b] == player && b[l.c] == player
  }

  /** Some line of `lines` is filled by `player` (the `some` over the lines). */
  function AnyFilled(b: Board, lines: seq<Line>, player: Mark): (r: bool)
    ensures r <==> exists i :: 0 <= i < |lines| && Filled(b, lines[i], player)
  {
    if lines == [] then false
    else
      var l := lines[0];
      (b[l.a] == player && b[l.b] == player && b[l.c] == player) || AnyFilled(b, lines[1..], player)
  }

  /** `checkWinner`: some winning line is all `player` (the page passes `currentPlayer`). */
  function CheckWinner(b: Board, player: Mark): (r: bool)
    ensures r <==> exists i :: 0 <= i < 8 && Filled(b, WinningConditions[i], player)
  {
    AnyFilled(b, WinningConditions, player)
  }

  /** No cell of `s` is empty (the `every` over the cells). */
  function NoneEmpty(s: seq<Cell>): (r: bool)
    ensures r <==> forall i :: 0 <= i < |s| ==> s[i] != Empty
  {
    if s == [] then true else s[0] != Empty && NoneEmpty(s[1..])
  }

  /** `checkTie`: the board is full, whether or not some line is complete. */
  function CheckTie(b: Board): (r: bool)
    ensures r <==> forall i :: 0 <= i < 9 ==> b[i] != Empty
  {
    NoneEmpty(b)
  }

  /** The indices from `k` on whose cell is empty, ascending (the `map`/`filter`). */
  function EmptyFrom(b: Board, k: nat): (r: seq<Index>)
    requires k <= 9
    ensures forall j :: 0 <= j < |r| ==> k <= r[j] && b[r[j]] == Empty
    ensures forall i :: k <= i < 9 && b[i] == Empty ==> i in r
    ensures forall j, j' :: 0 <= j < j' < |r| ==> r[j] < r[j']
    decreases 9 - k
  {
    if k == 9 then []
    else if b[k] == Empty then [k as Index] + EmptyFrom(b, k + 1)
    else EmptyFrom(b, k + 1)
  }

  /** The `emptyCells` list: exactly the empty positions, in board order. */
  function EmptyCells(b: Board): (r: seq<Index>)
    ensures forall i: Index :: i in r <==> b[i] == Empty
    ensures forall j, j' :: 0 <= j < j' < |r| ==> r[j] < r[j']
    ensures |r| == 0 <==> CheckTie(b)
  {
    EmptyFrom(b, 0)
  }

  /** The outcome `updateGameStatus` shows, seen from the side `player`. */
  datatype Status = InProgress | Win(mark: Mark) | Tie

  /** `updateGameStatus`: a completed line for `player` is reported before a full board. */
  function GameStatus(b: Board, player: Mark): (r: Status)
    ensures r == Win(player) <==> exists i :: 0 <= i < 8 && Filled(b, WinningConditions[i], player)
    ensures r == Tie <==> (forall i :: 0 <= i < 9 ==> b[i] != Empty) && !CheckWinner(b, player)
    ensures r == InProgress <==> !CheckWinner(b, player) && !CheckTie(b)
  {
    if CheckWinner(b, player) then Win(player)
    else if CheckTie(b) then Tie
    else InProgress
  }

  /** The condition `checkWinner() || checkTie()` after which the page stops the turn. */
  predicate IsTerminal(b: Board, player: Mark)
    ensures IsTerminal(b, player) <==>
      (exists i :: 0 <= i < 8 && Filled(b, WinningConditions[i], player)) ||
      (forall i :: 0 <= i < 9 ==> b[i] != Empty)
  {
    CheckWinner(b, player) || CheckTie(b)
  }

  /** A full board that also completes a line for `player` is a win, never a tie. */
  lemma WinBeatsTie(b: Board, player: Mark, i: nat)
    requires i < 8 && Filled(b, WinningConditions[i], player)
    requires forall j :: 0 <= j < 9 ==> b[j] != Empty
    ensures IsTerminal(b, player)
    ensures GameStatus(b, player) == Win(player)
  {
  }

  /** Every terminal board is reported as a win or a tie, and only terminal boards are. */
  lemma StatusOfTerminal(b: Board, player: Mark)
    ensures IsTerminal(b, player) <==> GameStatus(b, player) != InProgress
    ensures GameStatus(b, player) != Win(O) || player == O
  {
  }

  /** The click guard of the page: it is the player's turn and the target cell is empty. */
  predicate ClickAccepted(b: Board, player: Mark, index: Index)
    ensures ClickAccepted(b, player, index) ==> player == X && !CheckTie(b)
    ensures !ClickAccepted(b, player, index) ==> player == O || b[index] in {X, O}
  {
    player == X && b[index] == Empty
  }

  /**
   * The guard does not look at the outcome: after the player has won with
   * cells still free, a further click is still applied. The board arises
   * from clicks on 4, 8, 2 and 6, the computer answering 1, 0 and 5.
   */
  lemma ClickAcceptedAfterWin()
    ensures var b: Board := [O, O, X, Empty, X, O, X, Empty, X];
      GameStatus(b, X) == Win(X) && ClickAccepted(b, X, 3) && ClickAccepted(b, X, 7)
  {
    var b: Board := [O, O, X, Empty, X, O, X, Empty, X];
    assert Filled(b, WinningConditions[7], X);
  }
}
