// The game session: the module-level board, current player, running flag
// and score tally that the click handler and the buttons update in place.

module Session {
  import opened Rules
  import opened Search
  import opened Strategies

  /** `'pvp'` or `'ai'` (player X against the computer playing O). */
  datatype Mode = PlayerVsPlayer | VsComputer

  datatype Difficulty = Easy | Medium | Hard

  /** The score tally `{X, O, D}`. */
  datatype Tally = Tally(x: nat, o: nat, d: nat)

  function Total(t: Tally): nat {
    t.x + t.o + t.d
  }

  /** handleResult's score update for a finished game. */
  function Recorded(t: Tally, result: Status): (t': Tally)
    requires !result.InProgress?
    ensures Total(t') == Total(t) + 1
    ensures t'.x >= t.x && t'.o >= t.o && t'.d >= t.d
    ensures result.Drawn? ==> t'.d > t.d
    ensures result.Won? && result.winner == X ==> t'.x > t.x
    ensures result.Won? && result.winner == O ==> t'.o > t.o
  {
    match result
    case Drawn => t.(d := t.d + 1)
    case Won(X, _) => t.(x := t.x + 1)
    case Won(O, _) => t.(o := t.o + 1)
  }

  /** The computer's reply for each difficulty; `u1` and `u2` are the first and second Math.random() draws. */
  function AiMove(b: Board, difficulty: Difficulty, u1: real, u2: real): (r: Option<Index>)
    requires 0.0 <= u1 < 1.0 && 0.0 <= u2 < 1.0
    ensures Judge(b).InProgress? ==> r.Some? && b[r.value] == Empty
  {
    assert Judge(b).InProgress? ==> !Full(b) by {
      if Judge(b).InProgress? { InProgressHasEmpty(b); }
    }
    match difficulty
    case Easy => EasyAI(b, u1)
    case Medium => MediumAI(b, u1, u2)
    case Hard => BestIndex(b, O)
  }

  /** Marker counts of a position reached by alternating moves from an empty board, X first. */
  predicate Alternating(b: Board) {
    Count(b, Mark(O)) <= Count(b, Mark(X)) <= Count(b, Mark(O)) + 1
  }

  class Game {
    var board: Board
    var current: Player
    var running: bool
    var scores: Tally

    /** While a game runs its board is not terminal, and X is to move exactly when both have moved equally often. */
    ghost predicate Valid()
      reads this
    {
      Alternating(board) &&
      (running ==> Judge(board).InProgress? &&
                   (current == X <==> Count(board, Mark(X)) == Count(board, Mark(O))))
    }

    /** Session start: an empty board, X to move, and a zero tally. */
    constructor ()
      ensures Valid()
      ensures board == EmptyBoard && current == X && running && scores == Tally(0, 0, 0)
    {
      board := EmptyBoard;
      current := X;
      running := true;
      scores := Tally(0, 0, 0);
      EmptyBoardInPlay();
    }

    /** makeMove: writes `p` into cell `i` and nothing else. */
    method MakeMove(i: Index, p: Player)
      modifies this`board
      ensures board[i] == Mark(p)
      ensures forall j :: 0 <= j < 9 && j != i ==> board[j] == old(board[j])
    {
      board := board[i := Mark(p)];
    }

    /** checkGame: reports the first complete line, else a draw on a full board, else that play goes on;
        a finished game stops running. */
    method CheckGame() returns (result: Status)
      modifies this`running
      ensures result == Judge(board)
      ensures running == (old(running) && result.InProgress?)
    {
      for k := 0 to |Wins|
        invariant forall j :: 0 <= j < k ==> !Complete(board, Wins[j])
        invariant running == old(running)
      {
        var combo := Wins[k];
        if board[combo.a] != Empty && board[combo.a] == board[combo.b] && board[combo.a] == board[combo.c] {
          running := false;
          assert FirstWin(board, 0) == Some(k);
          return Won(board[combo.a].player, combo);
        }
      }
      if Empty !in board {
        running := false;
        return Drawn;
      }
      return InProgress;
    }

    /** handleResult: counts a finished game once in the tally. */
    method HandleResult(result: Status)
      requires !result.InProgress?
      modifies this`scores
      ensures scores == Recorded(old(scores), result)
    {
      match result
      case Drawn =>
        scores := scores.(d := scores.d + 1);
      case Won(w, _) =>
        if w == X {
          scores := scores.(x := scores.x + 1);
        } else {
          scores := scores.(o := scores.o + 1);
        }
    }

    /** newGame: clears the board, gives X the move and restarts play; the tally is kept. */
    method NewGame()
      modifies this`board, this`current, this`running
      ensures Valid()
      ensures board == EmptyBoard && current == X && running
      ensures scores == old(scores)
    {
      board := EmptyBoard;
      current := X;
      running := true;
      EmptyBoardInPlay();
    }

    /** resetScores: zeroes all three counters; the game in progress is untouched. */
    method ResetScores()
      modifies this`scores
      ensures scores == Tally(0, 0, 0)
      ensures board == old(board) && current == old(current) && running == old(running)
    {
      scores := Tally(0, 0, 0);
    }

    /** onCellClick on cell `i`, followed at once by the computer's reply when it is O's turn against the computer. */
    method Click(i: Index, mode: Mode, difficulty: Difficulty, u1: real, u2: real)
      requires Valid()
      requires 0.0 <= u1 < 1.0 && 0.0 <= u2 < 1.0
      modifies this
      ensures Valid()
      ensures !old(running) || old(board[i]) != Empty ==>
                board == old(board) && current == old(current) && running == old(running) && scores == old(scores)
      ensures old(running) && old(board[i]) == Empty ==>
                var b1 := old(board)[i := Mark(old(current))];
                if !Judge(b1).InProgress? then
                  board == b1 && !running && current == old(current) &&
                  scores == Recorded(old(scores), Judge(b1))
                else if mode == VsComputer && Other(old(current)) == O then
                  var m := AiMove(b1, difficulty, u1, u2).value;
                  var b2 := b1[m := Mark(O)];
                  board == b2 &&
                  if Judge(b2).InProgress? then
                    running && current == X && scores == old(scores)
                  else
                    !running && current == O && scores == Recorded(old(scores), Judge(b2))
                else
                  board == b1 && running && current == Other(old(current)) && scores == old(scores)
    {
      if !running || board[i] != Empty {
        return;
      }
      ghost var b0 := board;
      CountPlace(board, i, current);
      MakeMove(i, current);
      assert board == b0[i := Mark(current)];
      var result := CheckGame();
      if !result.InProgress? {
        HandleResult(result);
        return;
      }
      current := Other(current);
      if mode == VsComputer && current == O {
        var aiMove: Option<Index>;
        if difficulty == Easy {
          aiMove := EasyAI(board, u1);
        } else if difficulty == Medium {
          aiMove := MediumAI(board, u1, u2);
        } else {
          aiMove := BestMove(board, O);
        }
        assert aiMove == AiMove(board, difficulty, u1, u2);
        ghost var b1 := board;
        CountPlace(board, aiMove.value, O);
        MakeMove(aiMove.value, O);
        assert board == b1[aiMove.value := Mark(O)];
        var result2 := CheckGame();
        if !result2.InProgress? {
          HandleResult(result2);
          return;
        }
        current := X;
      }
    }
  }
}
