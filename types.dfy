/** The value types shared by the game engine and the game state. */
module Types {

  /** What a cell holds, whose turn it is, or who has won: a mark, or nobody (`null`). */
  datatype Player = X | O | Nobody

  /** Number of cells of the row-major 3x3 board. */
  const BoardCells: nat := 9

  /** A cell index, row * 3 + column. */
  type Index = i: nat | i < 9

  /** A board: one entry per cell, row-major. The game only ever builds boards of `BoardCells` cells. */
  type Board = seq<Player>

  /** The board of a fresh game: every cell empty. */
  function EmptyBoard(): (b: Board)
    ensures |b| == BoardCells
    ensures forall i :: 0 <= i < |b| ==> b[i] == Nobody
  {
    seq(BoardCells, _ => Nobody)
  }

  /** Number of cells of `b` that hold `p`. */
  function Count(b: Board, p: Player): (n: nat)
    ensures n <= |b|
  {
    if b == [] then 0 else (if b[0] == p then 1 else 0) + Count(b[1..], p)
  }

  /** Overwriting one cell changes the count of `p` only by what left and what arrived. */
  lemma {:induction false} CountUpdate(b: Board, i: nat, q: Player, p: Player)
    requires i < |b|
    ensures Count(b[i := q], p) + (if b[i] == p then 1 else 0)
         == Count(b, p) + (if q == p then 1 else 0)
  {
    if i > 0 {
      assert b[i := q][1..] == b[1..][i - 1 := q];
      CountUpdate(b[1..], i - 1, q, p);
    }
  }

  /** A board with no cell holding `p` counts no `p`; one that counts none has no `p` anywhere. */
  lemma {:induction false} CountZero(b: Board, p: Player)
    ensures Count(b, p) == 0 <==> forall i :: 0 <= i < |b| ==> b[i] != p
  {
    if b != [] {
      CountZero(b[1..], p);
      assert forall i :: 1 <= i < |b| ==> b[i] == b[1..][i - 1];
    }
  }
}
