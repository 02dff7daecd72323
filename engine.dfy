/**
 * The win and draw classification of a 3x3 board: the literal table of winning
 * combinations, the first-match winner scan and the draw test.
 */
module Engine {
  import opened Types

  /** Three cell indices that win when one mark holds all of them. */
  type Combination = (Index, Index, Index)

  /** The winning combinations in scan order: rows, then columns, then diagonals. */
  const WinningCombinations: seq<Combination> := [
    (0, 1, 2), (3, 4, 5), (6, 7, 8),
    (0, 3, 6), (1, 4, 7), (2, 5, 8),
    (0, 4, 8), (2, 4, 6)
  ]

  /** The scan's test: the first cell holds a mark and the other two hold the same one. */
  predicate Filled(board: Board, t: Combination)
    requires |board| == BoardCells
  {
    board[t.0] != Nobody && board[t.0] == board[t.1] && board[t.0] == board[t.2]
  }

  /** The mark `p` holds all three cells of `t`. */
  predicate FilledBy(board: Board, t: Combination, p: Player)
    requires |board| == BoardCells
  {
    p != Nobody && board[t.0] == p && board[t.1] == p && board[t.2] == p
  }

  /** Some winning combination is held entirely by `p`. */
  predicate HasLine(board: Board, p: Player)
    requires |board| == BoardCells
  {
    exists k :: 0 <= k < |WinningCombinations| && FilledBy(board, WinningCombinations[k], p)
  }

  /** No combination from position `k` of the table on passes the scan's test. */
  predicate NoneFilledFrom(board: Board, k: nat)
    requires |board| == BoardCells
  {
    forall j :: k <= j < |WinningCombinations| ==> !Filled(board, WinningCombinations[j])
  }

  /**
   * The scan from position `k` of the table: the mark of the first combination
   * whose cells one mark holds, or `Nobody` when there is none.
   */
  function WinnerFrom(board: Board, k: nat): (w: Player)
    requires |board| == BoardCells && k <= |WinningCombinations|
    ensures w == Nobody <==> NoneFilledFrom(board, k)
    ensures w != Nobody ==>
      exists j :: k <= j < |WinningCombinations|
        && FilledBy(board, WinningCombinations[j], w)
        && forall i :: k <= i < j ==> !Filled(board, WinningCombinations[i])
    decreases |WinningCombinations| - k
  {
    if k == |WinningCombinations| then Nobody
    else
      var t := WinningCombinations[k];
      if Filled(board, t) then
        assert FilledBy(board, t, board[t.0]);
        board[t.0]
      else WinnerFrom(board, k + 1)
  }

  /** The winner of a board: the scan over the whole table. */
  function Winner(board: Board): (w: Player)
    requires |board| == BoardCells
    ensures w == Nobody <==> !HasLine(board, X) && !HasLine(board, O)
    ensures w != Nobody ==> HasLine(board, w)
  {
    WinnerFrom(board, 0)
  }

  /**
   * The winner is `Nobody` exactly when no mark holds a whole combination, and
   * otherwise it is a mark that holds one, namely the first in table order.
   */
  lemma WinnerSpec(board: Board)
    requires |board| == BoardCells
    ensures Winner(board) == Nobody <==> !HasLine(board, X) && !HasLine(board, O)
    ensures Winner(board) != Nobody ==> HasLine(board, Winner(board))
    ensures Winner(board) != Nobody ==>
      exists j :: 0 <= j < |WinningCombinations|
        && FilledBy(board, WinningCombinations[j], Winner(board))
        && forall i :: 0 <= i < j ==> !Filled(board, WinningCombinations[i])
  {
  }

  /** When only one mark holds any combination, the scan returns that mark. */
  lemma WinnerIsOnlyLineHolder(board: Board, p: Player)
    requires |board| == BoardCells
    requires HasLine(board, p)
    requires forall q :: HasLine(board, q) ==> q == p
    ensures Winner(board) == p
  {
    WinnerSpec(board);
  }

  /**
   * The `for` loop with early return over the table: returns the first
   * combination's mark that passes the test, or `Nobody` after the whole table.
   */
  method CheckWinner(board: Board) returns (w: Player)
    requires |board| == BoardCells
    ensures w == Winner(board)
    ensures w == Nobody <==> NoneFilledFrom(board, 0)
  {
    for k := 0 to |WinningCombinations|
      invariant Winner(board) == WinnerFrom(board, k)
    {
      var (a, b, c) := WinningCombinations[k];
      if board[a] != Nobody && board[a] == board[b] && board[a] == board[c] {
        return board[a];
      }
    }
    return Nobody;
  }

  /** Every cell holds a mark. */
  predicate Full(board: Board)
  {
    forall i :: 0 <= i < |board| ==> board[i] != Nobody
  }

  /** A draw: every cell holds a mark and the scan finds no winner. */
  function CheckDraw(board: Board): (r: bool)
    requires |board| == BoardCells
    ensures r <==> Full(board) && !HasLine(board, X) && !HasLine(board, O)
    ensures r ==> Count(board, Nobody) == 0
  {
    WinnerSpec(board);
    CountZero(board, Nobody);
    Full(board) && Winner(board) == Nobody
  }

  /** A board that is a draw has no winner, and a board with a winner is no draw. */
  lemma WinAndDrawExclusive(board: Board)
    requires |board| == BoardCells
    ensures !(Winner(board) != Nobody && CheckDraw(board))
    ensures !Full(board) ==> !CheckDraw(board)
  {
  }

  // The geometry of the table.

  /** Row of a cell in the row-major 3x3 grid. */
  function Row(i: Index): (r: nat)
    ensures r < 3
  {
    i / 3
  }

  /** Column of a cell in the row-major 3x3 grid. */
  function Column(i: Index): (c: nat)
    ensures c < 3
  {
    i % 3
  }

  /**
   * Three cells in increasing order that form a full line of the grid: one row,
   * one column, the main diagonal or the anti-diagonal.
   */
  predicate IsGridLine(t: Combination)
  {
    t.0 < t.1 < t.2 &&
    ( (Row(t.0) == Row(t.1) == Row(t.2))
    || (Column(t.0) == Column(t.1) == Column(t.2))
    || (Row(t.0) == Column(t.0) && Row(t.1) == Column(t.1) && Row(t.2) == Column(t.2))
    || (Row(t.0) + Column(t.0) == 2 && Row(t.1) + Column(t.1) == 2 && Row(t.2) + Column(t.2) == 2))
  }

  /** The literal table has 2*3 + 2 entries, each of three distinct in-range cells. */
  lemma TableShape()
    ensures |WinningCombinations| == 2 * 3 + 2
    ensures forall k :: 0 <= k < |WinningCombinations| ==>
      var t := WinningCombinations[k]; t.0 != t.1 && t.1 != t.2 && t.0 != t.2
  {
  }

  /** The table holds exactly the full lines of the grid: its entries are lines, and every line is an entry. */
  lemma TableIsGridLines(t: Combination)
    ensures t in WinningCombinations <==> IsGridLine(t)
  {
    var (a, b, c) := t;
    if IsGridLine(t) {
      if Row(a) == Row(b) == Row(c) {
        assert a == 3 * Row(a) && b == a + 1 && c == a + 2;
      } else if Column(a) == Column(b) == Column(c) {
        assert a == Column(a) && b == a + 3 && c == a + 6;
      } else if Row(a) == Column(a) && Row(b) == Column(b) && Row(c) == Column(c) {
        assert a == 0 && b == 4 && c == 8;
      } else {
        assert a == 2 && b == 4 && c == 6;
      }
    }
  }
}
