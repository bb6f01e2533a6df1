// The rules of the fixed 3x3 game: the board, the eight winning lines, and
// the terminal-position judgement shared by checkGame and evaluateBoard.

module Rules {

  datatype Option<T> = None | Some(value: T)

  /** A marker; X always moves first, the computer always plays O. */
  datatype Player = X | O

  /** One cell of the board: `null`, 'X' or 'O' in the source. */
  datatype Cell = Empty | Mark(player: Player)

  /** A cell position, row-major over the 3x3 grid. */
  type Index = i: int | 0 <= i < 9

  /** The board is always exactly nine cells. */
  type Board = b: seq<Cell> | |b| == 9
    witness [Empty, Empty, Empty, Empty, Empty, Empty, Empty, Empty, Empty]

  const EmptyBoard: Board := [Empty, Empty, Empty, Empty, Empty, Empty, Empty, Empty, Empty]

  function Other(p: Player): (q: Player)
    ensures q != p
  {
    if p == X then O else X
  }

  /** An index-triple of a winning pattern. */
  datatype Line = Line(a: Index, b: Index, c: Index)

  /** The winning combinations in the order they are scanned: rows, columns, diagonals. */
  const Wins: seq<Line> := [
    Line(0, 1, 2), Line(3, 4, 5), Line(6, 7, 8),
    Line(0, 3, 6), Line(1, 4, 7), Line(2, 5, 8),
    Line(0, 4, 8), Line(2, 4, 6)
  ]

  /** The three cells of `l` hold the same marker. */
  predicate Complete(b: Board, l: Line) {
    b[l.a] != Empty && b[l.a] == b[l.b] && b[l.a] == b[l.c]
  }

  predicate HasLine(b: Board) {
    exists k :: 0 <= k < |Wins| && Complete(b, Wins[k])
  }

  /** `Wins[k]` is the first complete line in scan order. */
  predicate FirstLine(b: Board, k: int) {
    0 <= k < |Wins| && Complete(b, Wins[k]) &&
    forall j :: 0 <= j < k ==> !Complete(b, Wins[j])
  }

  /** No cell is empty (`!board.includes(null)`). */
  predicate Full(b: Board) {
    Empty !in b
  }

  /** The position of the first complete line at or after `k` in `Wins`. */
  function FirstWin(b: Board, k: nat): (r: Option<nat>)
    requires k <= |Wins|
    ensures r.Some? ==> k <= r.value < |Wins| && Complete(b, Wins[r.value])
    ensures forall j :: k <= j < (if r.Some? then r.value else |Wins|) ==> !Complete(b, Wins[j])
    decreases |Wins| - k
  {
    if k == |Wins| then None
    else if Complete(b, Wins[k]) then Some(k)
    else FirstWin(b, k + 1)
  }

  /** The outcome of a position: the `{winner, combo}`, `{draw: true}` or `null` of checkGame. */
  datatype Status = InProgress | Won(winner: Player, combo: Line) | Drawn

  /** Judges a position the way checkGame does: the first complete line wins, else a full board is a draw. */
  function Judge(b: Board): Status {
    match FirstWin(b, 0)
    case Some(k) => Won(b[Wins[k].a].player, Wins[k])
    case None => if Full(b) then Drawn else InProgress
  }

  /** checkGame reports a winner exactly when some line is complete, and then the first one in scan order
      with the marker that fills it; a draw exactly when no line is complete and no cell is empty. */
  lemma JudgeSpec(b: Board)
    ensures Judge(b).Won? <==> HasLine(b)
    ensures Judge(b).Won? ==> exists k :: FirstLine(b, k) && Wins[k] == Judge(b).combo
    ensures Judge(b).Won? ==> Judge(b).combo in Wins && Complete(b, Judge(b).combo)
    ensures Judge(b).Won? ==> b[Judge(b).combo.a] == Mark(Judge(b).winner)
    ensures Judge(b).Drawn? <==> !HasLine(b) && Full(b)
    ensures Judge(b).InProgress? <==> !HasLine(b) && !Full(b)
  {
    match FirstWin(b, 0)
    case Some(k) =>
      assert FirstLine(b, k);
    case None =>
  }

  /** evaluateBoard: 10 for an O line, -10 for an X line, 0 for a draw, None while play continues. */
  function Evaluate(b: Board): (r: Option<int>)
    ensures r.None? <==> Judge(b).InProgress?
    ensures r.Some? ==> r.value == -10 || r.value == 0 || r.value == 10
  {
    match Judge(b)
    case Won(p, _) => Some(if p == O then 10 else -10)
    case Drawn => Some(0)
    case InProgress => None
  }

  /** evaluateBoard in terms of the board: null exactly while no line is complete and a cell is free,
      0 for a full board without a line, and otherwise the sign of the first complete line's marker. */
  lemma EvaluateSpec(b: Board)
    ensures Evaluate(b).None? <==> !HasLine(b) && !Full(b)
    ensures Evaluate(b) == Some(0) <==> !HasLine(b) && Full(b)
    ensures Evaluate(b) == Some(10) <==> exists k :: FirstLine(b, k) && b[Wins[k].a] == Mark(O)
    ensures Evaluate(b) == Some(-10) <==> exists k :: FirstLine(b, k) && b[Wins[k].a] == Mark(X)
  {
    JudgeSpec(b);
    if Judge(b).Won? {
      var k :| FirstLine(b, k) && Wins[k] == Judge(b).combo;
      forall k' | FirstLine(b, k') ensures k' == k {
        FirstLineUnique(b, k, k');
      }
    }
  }

  /** The scan for a first complete line finds at most one. */
  lemma FirstLineUnique(b: Board, k: int, k': int)
    requires FirstLine(b, k) && FirstLine(b, k')
    ensures k == k'
  {
  }

  /** evaluateBoard is non-null exactly when checkGame is, and its sign names the winner. */
  lemma EvaluateAgreesWithJudge(b: Board)
    ensures Evaluate(b).None? <==> Judge(b).InProgress?
    ensures Evaluate(b) == Some(0) <==> Judge(b).Drawn?
    ensures Evaluate(b) == Some(10) <==> Judge(b).Won? && Judge(b).winner == O
    ensures Evaluate(b) == Some(-10) <==> Judge(b).Won? && Judge(b).winner == X
  {
  }

  /** Strictly increasing, so the first hit of a scan is the lowest index. */
  predicate Ascending(s: seq<Index>) {
    forall m, n :: 0 <= m < n < |s| ==> s[m] < s[n]
  }

  /** The cells of `cells` that are empty, in the same order (`filter(i => b[i] === null)`). */
  function EmptyAmong(b: Board, cells: seq<Index>): seq<Index> {
    if cells == [] then []
    else if b[cells[0]] == Empty then [cells[0]] + EmptyAmong(b, cells[1..])
    else EmptyAmong(b, cells[1..])
  }

  /** Filtering keeps exactly the empty cells of the list. */
  lemma {:induction false} EmptyAmongMembers(b: Board, cells: seq<Index>)
    ensures forall i :: i in EmptyAmong(b, cells) <==> i in cells && b[i] == Empty
  {
    if cells != [] {
      EmptyAmongMembers(b, cells[1..]);
      assert forall i :: i in cells <==> i == cells[0] || i in cells[1..];
    }
  }

  /** Filtering keeps the order of the cells it keeps. */
  lemma {:induction false} EmptyAmongAscending(b: Board, cells: seq<Index>)
    requires Ascending(cells)
    ensures Ascending(EmptyAmong(b, cells))
  {
    if cells != [] {
      var rest := EmptyAmong(b, cells[1..]);
      assert Ascending(cells[1..]);
      EmptyAmongAscending(b, cells[1..]);
      EmptyAmongMembers(b, cells[1..]);
      forall x | x in rest ensures cells[0] < x {
        var j :| 0 <= j < |cells[1..]| && cells[1..][j] == x;
        assert cells[j + 1] == x;
      }
      if b[cells[0]] == Empty {
        var r := [cells[0]] + rest;
        forall m, n | 0 <= m < n < |r| ensures r[m] < r[n] {
          assert r[n] == rest[n - 1] && rest[n - 1] in rest;
          if m > 0 { assert r[m] == rest[m - 1]; }
        }
      }
    }
  }

  const AllCells: seq<Index> := [0, 1, 2, 3, 4, 5, 6, 7, 8]

  /** The empty cells in ascending order (`avail` in the source). */
  function Available(b: Board): seq<Index> {
    EmptyAmong(b, AllCells)
  }

  /** `avail` lists every empty cell and nothing else. */
  lemma AvailableMembers(b: Board)
    ensures forall i: Index :: i in Available(b) <==> b[i] == Empty
  {
    EmptyAmongMembers(b, AllCells);
    forall i: Index ensures i in AllCells { assert AllCells[i] == i; }
  }

  /** `avail` holds empty cells in ascending index order, and is empty exactly on a full board. */
  lemma AvailableShape(b: Board)
    ensures forall n :: 0 <= n < |Available(b)| ==> b[Available(b)[n]] == Empty
    ensures Ascending(Available(b))
    ensures |Available(b)| > 0 <==> !Full(b)
  {
    EmptyAmongAscending(b, AllCells);
    AvailableMembers(b);
    var r := Available(b);
    assert forall n :: 0 <= n < |r| ==> r[n] in r;
    if |r| > 0 {
      assert b[r[0]] == Empty && b[r[0]] in b;
    }
    assert !Full(b) ==> exists i: Index :: b[i] == Empty && i in r;
  }

  /** A full board is terminal whatever the lines, so a position still in play has a free cell. */
  lemma InProgressHasEmpty(b: Board)
    requires Judge(b).InProgress?
    ensures !Full(b) && exists i: Index :: b[i] == Empty
  {
    JudgeSpec(b);
  }

  /** A new game's board is in play and holds no marker. */
  lemma EmptyBoardInPlay()
    ensures Judge(EmptyBoard) == InProgress
    ensures Count(EmptyBoard, Mark(X)) == 0 && Count(EmptyBoard, Mark(O)) == 0
  {
    assert EmptyBoard[0] == Empty;
  }

  /** Number of cells holding `c`. */
  function Count(b: Board, c: Cell): nat {
    multiset(b)[c]
  }

  /** Placing a marker in an empty cell adds one of it and removes one empty cell. */
  lemma CountPlace(b: Board, i: Index, p: Player)
    requires b[i] == Empty
    ensures Count(b[i := Mark(p)], Mark(p)) == Count(b, Mark(p)) + 1
    ensures Count(b[i := Mark(p)], Mark(Other(p))) == Count(b, Mark(Other(p)))
    ensures Count(b[i := Mark(p)], Empty) == Count(b, Empty) - 1
  {
  }

  /** X takes the top row after X 0, O 4, X 1, O 7, X 2: checkGame names X and the line [0,1,2]. */
  lemma TopRowWin()
    ensures Judge([Mark(X), Mark(X), Mark(X), Empty, Mark(O), Empty, Empty, Mark(O), Empty]) == Won(X, Line(0, 1, 2))
  {
  }

  /** X,O,X / X,O,O / O,X,X, reached by X 0, O 4, X 8, O 1, X 7, O 6, X 2, O 5, X 3, has five X's, four O's,
      no complete line and no empty cell: a draw. */
  lemma FullBoardDraw()
    ensures var b: Board := [Mark(X), Mark(O), Mark(X), Mark(X), Mark(O), Mark(O), Mark(O), Mark(X), Mark(X)];
            Count(b, Mark(X)) == 5 && Count(b, Mark(O)) == 4 && Judge(b) == Drawn
  {
  }

  /** X's last move at 0 (after X 1, O 4, X 2, O 5, X 3, O 7, X 6, O 8) completes the top row and the left
      column at once; checkGame reports the row because rows are scanned first. */
  lemma TwoLinesAtOnce()
    ensures var b: Board := [Mark(X), Mark(X), Mark(X), Mark(X), Mark(O), Mark(O), Mark(X), Mark(O), Mark(O)];
            Complete(b, Line(0, 1, 2)) && Complete(b, Line(0, 3, 6)) && Judge(b) == Won(X, Line(0, 1, 2))
  {
  }
}
