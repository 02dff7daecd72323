/**
 * The game state held by the page and the three transitions the page offers:
 * a click on a cell, "Reset Game" and "Reset Scores". The transitions are first
 * given as functions from state to state (the specification), then as methods
 * of the class `Home`, which holds the state in fields and the board in an array.
 */
module Game {
  import opened Types
  import opened Engine

  /** The wins counted for each mark. */
  datatype Scores = Scores(x: nat, o: nat)

  /** Everything the page keeps between clicks. */
  datatype GameState = GameState(
    board: Board,
    currentPlayer: Player,
    winner: Player,
    isDraw: bool,
    scores: Scores)

  /** The state the page starts from: empty board, X to move, no result, no wins. */
  const InitialState: GameState := GameState(EmptyBoard(), X, Nobody, false, Scores(0, 0))

  /** The turn after `p` has moved: O after X, X after anything else. */
  function NextPlayer(p: Player): (r: Player)
    ensures r != Nobody && r != p
  {
    if p == X then O else X
  }

  /** The scores after a move whose resulting board has winner `w`: that mark gains one win. */
  function AddWin(s: Scores, w: Player): (r: Scores)
    ensures r.x + r.o == s.x + s.o + (if w == Nobody then 0 else 1)
    ensures w != X ==> r.x == s.x
    ensures w != O ==> r.o == s.o
  {
    match w
    case X => s.(x := s.x + 1)
    case O => s.(o := s.o + 1)
    case Nobody => s
  }

  /** A click is ignored when the cell is taken or the game is over (won or drawn). */
  predicate Ignored(s: GameState, index: Index)
    requires |s.board| == BoardCells
  {
    s.board[index] != Nobody || s.winner != Nobody || s.isDraw
  }

  /** The state after a click on cell `index`. */
  function Click(s: GameState, index: Index): (t: GameState)
    requires |s.board| == BoardCells
    ensures |t.board| == BoardCells
    ensures forall j :: 0 <= j < BoardCells && j != index ==> t.board[j] == s.board[j]
  {
    if Ignored(s, index) then s
    else
      var newBoard := s.board[index := s.currentPlayer];
      var winner := Winner(newBoard);
      GameState(newBoard, NextPlayer(s.currentPlayer), winner, CheckDraw(newBoard), AddWin(s.scores, winner))
  }

  /** "Reset Game": a fresh board and turn, the scores kept. */
  function NewGameState(s: GameState): GameState
  {
    GameState(EmptyBoard(), X, Nobody, false, s.scores)
  }

  /** "Reset Scores": both scores back to zero, the game left as it is. */
  function ZeroedScoresState(s: GameState): GameState
  {
    s.(scores := Scores(0, 0))
  }

  /**
   * The invariant of every state the page can reach: a 3x3 board; X or O to
   * move; X has moved as often as O, or once more when it is O's turn; the
   * stored winner and draw flag are those of the board; no mark other than
   * the stored winner holds a combination; and a winner is the mark that
   * moved last.
   */
  predicate Consistent(s: GameState)
  {
    |s.board| == BoardCells
    && (s.currentPlayer == X || s.currentPlayer == O)
    && Count(s.board, X) == Count(s.board, O) + (if s.currentPlayer == O then 1 else 0)
    && s.winner == Winner(s.board)
    && s.isDraw == CheckDraw(s.board)
    && (forall q :: HasLine(s.board, q) ==> q == s.winner)
    && (s.winner != Nobody ==> s.winner == NextPlayer(s.currentPlayer))
  }

  /** The initial state is consistent. */
  lemma InitialConsistent()
    ensures Consistent(InitialState)
  {
    var b := InitialState.board;
    CountZero(b, X);
    CountZero(b, O);
    assert !HasLine(b, X) && !HasLine(b, O);
  }

  /** An ignored click changes nothing at all. */
  lemma ClickIgnored(s: GameState, index: Index)
    requires |s.board| == BoardCells
    requires s.board[index] != Nobody || s.winner != Nobody || s.isDraw
    ensures Click(s, index) == s
  {
  }

  /**
   * An accepted click puts the mover's mark in the clicked cell and nowhere
   * else, leaves one empty cell fewer and passes the turn.
   */
  lemma ClickPlaces(s: GameState, index: Index)
    requires |s.board| == BoardCells
    requires !Ignored(s, index)
    ensures var t := Click(s, index);
      |t.board| == BoardCells
      && t.board[index] == s.currentPlayer
      && (forall j :: 0 <= j < BoardCells && j != index ==> t.board[j] == s.board[j])
      && (s.currentPlayer != Nobody ==> Count(t.board, Nobody) + 1 == Count(s.board, Nobody))
      && (s.currentPlayer == X ==> t.currentPlayer == O)
      && (s.currentPlayer == O ==> t.currentPlayer == X)
  {
    CountUpdate(s.board, index, s.currentPlayer, Nobody);
  }

  /**
   * After an accepted click: the new winner, if any, gains exactly one win and
   * the other score stays; with no winner both scores stay; and the stored
   * result is never both a win and a draw.
   */
  lemma ClickScores(s: GameState, index: Index)
    requires |s.board| == BoardCells
    requires !Ignored(s, index)
    ensures var t := Click(s, index);
      (t.winner == X ==> t.scores == Scores(s.scores.x + 1, s.scores.o))
      && (t.winner == O ==> t.scores == Scores(s.scores.x, s.scores.o + 1))
      && (t.winner == Nobody ==> t.scores == s.scores)
      && t.scores.x + t.scores.o == s.scores.x + s.scores.o + (if t.winner == Nobody then 0 else 1)
      && !(t.winner != Nobody && t.isDraw)
  {
  }

  /**
   * Writing mark `p` into an empty cell of a board on which nobody holds a
   * combination: any combination held afterwards is held by `p`.
   */
  lemma OnlyMoverCompletesLines(b: Board, index: Index, p: Player, nb: Board)
    requires |b| == BoardCells && b[index] == Nobody
    requires !HasLine(b, X) && !HasLine(b, O)
    requires nb == b[index := p]
    ensures forall q :: HasLine(nb, q) ==> q == p
  {
    forall q | HasLine(nb, q)
      ensures q == p
    {
      var k :| 0 <= k < |WinningCombinations| && FilledBy(nb, WinningCombinations[k], q);
    }
  }

  /**
   * A click keeps the state consistent. The heart of it: before an accepted
   * click nobody holds a combination, and the new mark is the only thing that
   * changed, so a combination held afterwards is the mover's.
   */
  lemma ClickPreservesConsistent(s: GameState, index: Index)
    requires Consistent(s)
    ensures Consistent(Click(s, index))
  {
    if !Ignored(s, index) {
      var b := s.board;
      var p := s.currentPlayer;
      var nb := b[index := p];
      CountUpdate(b, index, p, X);
      CountUpdate(b, index, p, O);
      OnlyMoverCompletesLines(b, index, p, nb);
      if HasLine(nb, p) {
        WinnerIsOnlyLineHolder(nb, p);
      }
      var t := Click(s, index);
      assert t.board == nb && t.currentPlayer == NextPlayer(p);
      assert t.winner == Winner(nb) && t.isDraw == CheckDraw(nb);
      assert t.winner != Nobody ==> t.winner == p;
    }
  }

  /** A consistent game that is still running always has an empty cell, so some click is accepted. */
  lemma NeverStuck(s: GameState)
    requires Consistent(s)
    requires s.winner == Nobody && !s.isDraw
    ensures exists i: Index :: s.board[i] == Nobody && Click(s, i) != s
  {
  }

  /**
   * In a consistent state with a winner, the winner holds a combination and
   * the other mark holds none.
   */
  lemma WinnerIsUnique(s: GameState)
    requires Consistent(s)
    requires s.winner != Nobody
    ensures HasLine(s.board, s.winner)
    ensures !HasLine(s.board, NextPlayer(s.winner))
  {
  }

  /** "Reset Game" gives an empty board with X to move and no result, keeps the scores, and is consistent. */
  lemma ResetGameSpec(s: GameState)
    ensures var t := NewGameState(s);
      |t.board| == BoardCells
      && (forall i :: 0 <= i < BoardCells ==> t.board[i] == Nobody)
      && t.currentPlayer == X && t.winner == Nobody && !t.isDraw
      && t.scores == s.scores
      && Consistent(t)
  {
    InitialConsistent();
    assert NewGameState(s) == InitialState.(scores := s.scores);
  }

  /** "Reset Scores" zeroes both scores, keeps board, turn and result, and keeps a consistent state consistent. */
  lemma ResetScoresSpec(s: GameState)
    ensures var t := ZeroedScoresState(s);
      t.scores.x == 0 && t.scores.o == 0
      && t.board == s.board && t.currentPlayer == s.currentPlayer
      && t.winner == s.winner && t.isDraw == s.isDraw
      && (Consistent(s) ==> Consistent(t))
  {
  }

  /** The page component: its state, held in fields, and its three handlers. */
  class Home {
    var board: array<Player>
    var currentPlayer: Player
    var winner: Player
    var isDraw: bool
    var scores: Scores

    ghost predicate Valid()
      reads this
    {
      board.Length == BoardCells
    }

    /** The state the fields hold. */
    ghost function State(): GameState
      reads this, board
    {
      GameState(board[..], currentPlayer, winner, isDraw, scores)
    }

    /** The page's first render: the initial state, which is consistent. */
    constructor ()
      ensures Valid() && fresh(board)
      ensures State() == InitialState
      ensures Consistent(State())
    {
      board := new Player[BoardCells](_ => Nobody);
      currentPlayer := X;
      winner := Nobody;
      isDraw := false;
      scores := Scores(0, 0);
      new;
      assert board[..] == EmptyBoard();
      InitialConsistent();
    }

    /**
     * A click on cell `index`: ignored when the cell is taken or the game is
     * over; otherwise the board is copied into a fresh array, the mover's mark
     * is written into the copy, the copy is classified, the winner's score is
     * raised and the turn passes.
     */
    method HandleCellClick(index: Index)
      requires Valid()
      modifies this
      ensures Valid()
      ensures State() == Click(old(State()), index)
      ensures Consistent(old(State())) ==> Consistent(State())
    {
      if board[index] != Nobody || winner != Nobody || isDraw {
        return;
      }
      ghost var before := State();
      ghost var nb := before.board[index := currentPlayer];
      ghost var after := Click(before, index);
      assert after == GameState(nb, NextPlayer(before.currentPlayer), Winner(nb), CheckDraw(nb),
                                AddWin(before.scores, Winner(nb)));
      var newBoard := new Player[BoardCells];
      forall j | 0 <= j < BoardCells {
        newBoard[j] := board[j];
      }
      newBoard[index] := currentPlayer;
      assert newBoard[..] == nb;

      var w := CheckWinner(newBoard[..]);
      var d := CheckDraw(newBoard[..]);
      var newScores := scores;
      if w != Nobody {
        newScores := AddWin(newScores, w);
      }
      assert newScores == after.scores;

      board := newBoard;
      currentPlayer := if currentPlayer == X then O else X;
      winner := w;
      isDraw := d;
      scores := newScores;
      assert State() == after;
      if Consistent(before) {
        ClickPreservesConsistent(before, index);
      }
    }

    /** "Reset Game". */
    method ResetGame()
      requires Valid()
      modifies this
      ensures Valid() && fresh(board)
      ensures State() == NewGameState(old(State()))
    {
      board := new Player[BoardCells](_ => Nobody);
      currentPlayer := X;
      winner := Nobody;
      isDraw := false;
      assert board[..] == EmptyBoard();
    }

    /** "Reset Scores". */
    method ResetScores()
      requires Valid()
      modifies this
      ensures Valid() && board == old(board)
      ensures State() == ZeroedScoresState(old(State()))
    {
      scores := Scores(0, 0);
    }
  }
}
