// Exhaustive minimax search over the game tree and the move chooser built on
// it (the "hard" computer opponent). Scores are always from O's side:
// O maximises, X minimises.

module Search {
  import opened Rules

  predicate IsScore(v: int) {
    v == -10 || v == 0 || v == 10
  }

  /** Score `s` is at least as good as `t` for player `p`. */
  predicate AtLeastAsGood(p: Player, s: int, t: int) {
    if p == O then s >= t else s <= t
  }

  /** The strict comparison bestMove uses to replace its current choice: `>` for O, `<` for X. */
  predicate Improves(p: Player, s: int, t: int) {
    if p == O then s > t else s < t
  }

  /** The starting accumulator, standing in for -Infinity (O) and +Infinity (X). */
  function Sentinel(p: Player): int {
    if p == O then -11 else 11
  }

  /** The minimax value of `b` with `p` to move. */
  function Minimax(b: Board, p: Player): (r: int)
    ensures IsScore(r)
    decreases Count(b, Empty), 1, 0
  {
    match Evaluate(b)
    case Some(v) => v
    case None =>
      InProgressHasEmpty(b);
      BestFrom(b, p, 0)
  }

  /** Folds max (for O) or min (for X) over the children reached by playing an empty cell at or after `i`. */
  function BestFrom(b: Board, p: Player, i: nat): (r: int)
    requires i <= 9
    ensures (exists j :: i <= j < 9 && b[j] == Empty) ==> IsScore(r)
    ensures (forall j :: i <= j < 9 ==> b[j] != Empty) ==> r == Sentinel(p)
    decreases Count(b, Empty), 0, 9 - i
  {
    if i == 9 then Sentinel(p)
    else if b[i] != Empty then BestFrom(b, p, i + 1)
    else
      var s := ChildScore(b, p, i);
      var rest := BestFrom(b, p, i + 1);
      if p == O then (if s > rest then s else rest)
      else (if s < rest then s else rest)
  }

  /** The score of the position reached when `p` plays the empty cell `i`. */
  function ChildScore(b: Board, p: Player, i: Index): (r: int)
    requires b[i] == Empty
    ensures IsScore(r)
    decreases Count(b, Empty), 0, 0
  {
    CountPlace(b, i, p);
    Minimax(b[i := Mark(p)], Other(p))
  }

  /** BestFrom is the best child score among the empty cells at or after `i`, and one of them attains it. */
  lemma {:induction false} BestFromIsBest(b: Board, p: Player, i: nat)
    requires i <= 9
    ensures forall j :: i <= j < 9 && b[j] == Empty ==> AtLeastAsGood(p, BestFrom(b, p, i), ChildScore(b, p, j))
    ensures (exists j :: i <= j < 9 && b[j] == Empty) ==>
              exists j :: i <= j < 9 && b[j] == Empty && ChildScore(b, p, j) == BestFrom(b, p, i)
    decreases 9 - i
  {
    if i < 9 {
      BestFromIsBest(b, p, i + 1);
      var rest := BestFrom(b, p, i + 1);
      if b[i] != Empty {
        assert BestFrom(b, p, i) == rest;
      } else {
        var s := ChildScore(b, p, i);
        assert IsScore(s);
        assert BestFrom(b, p, i) == if p == O then (if s > rest then s else rest) else (if s < rest then s else rest);
      }
    }
  }

  /** A terminal position scores its evaluation; otherwise O takes the largest child score and X the smallest. */
  lemma MinimaxCharacterised(b: Board, p: Player)
    ensures Evaluate(b).Some? ==> Minimax(b, p) == Evaluate(b).value
    ensures Evaluate(b).None? ==>
              forall j :: 0 <= j < 9 && b[j] == Empty ==> AtLeastAsGood(p, Minimax(b, p), ChildScore(b, p, j))
    ensures Evaluate(b).None? ==>
              exists j :: 0 <= j < 9 && b[j] == Empty && ChildScore(b, p, j) == Minimax(b, p)
  {
    if Evaluate(b).None? {
      BestFromIsBest(b, p, 0);
      InProgressHasEmpty(b);
    }
  }

  /** The lowest empty cell at or after `i` whose child score is `target`. */
  function FirstScoring(b: Board, p: Player, target: int, i: nat): (r: Option<Index>)
    requires i <= 9
    ensures r.Some? ==> i <= r.value && b[r.value] == Empty && ChildScore(b, p, r.value) == target
    ensures forall j :: i <= j < (if r.Some? then r.value else 9) && b[j] == Empty ==> ChildScore(b, p, j) != target
    decreases 9 - i
  {
    if i == 9 then None
    else if b[i] == Empty && ChildScore(b, p, i) == target then Some(i)
    else FirstScoring(b, p, target, i + 1)
  }

  /** The move bestMove picks: none on a terminal board, else the lowest empty cell with an optimal child score. */
  function BestIndex(b: Board, p: Player): (r: Option<Index>)
    ensures r.None? <==> Evaluate(b).Some?
    ensures r.Some? ==> b[r.value] == Empty && ChildScore(b, p, r.value) == Minimax(b, p)
    ensures r.Some? ==>
              forall j :: 0 <= j < 9 && b[j] == Empty ==> AtLeastAsGood(p, ChildScore(b, p, r.value), ChildScore(b, p, j))
    ensures r.Some? ==>
              forall j :: 0 <= j < r.value && b[j] == Empty ==> !AtLeastAsGood(p, ChildScore(b, p, j), ChildScore(b, p, r.value))
  {
    if Evaluate(b).Some? then None
    else
      MinimaxCharacterised(b, p);
      FirstScoring(b, p, Minimax(b, p), 0)
  }

  /** The child scores of `cells`, in order. */
  function ScoresOf(b: Board, p: Player, cells: seq<Index>): (r: seq<int>)
    requires forall n :: 0 <= n < |cells| ==> b[cells[n]] == Empty
    ensures |r| == |cells|
  {
    if cells == [] then [] else ScoresOf(b, p, cells[..|cells| - 1]) + [ChildScore(b, p, cells[|cells| - 1])]
  }

  lemma {:induction false} ScoresOfAt(b: Board, p: Player, cells: seq<Index>)
    requires forall n :: 0 <= n < |cells| ==> b[cells[n]] == Empty
    ensures forall n :: 0 <= n < |cells| ==> ScoresOf(b, p, cells)[n] == ChildScore(b, p, cells[n])
  {
    if cells != [] {
      var init := cells[..|cells| - 1];
      ScoresOfAt(b, p, init);
      forall n | 0 <= n < |cells| ensures ScoresOf(b, p, cells)[n] == ChildScore(b, p, cells[n]) {
        if n < |cells| - 1 {
          assert ScoresOf(b, p, cells)[n] == ScoresOf(b, p, init)[n];
          assert cells[n] == init[n];
        }
      }
    }
  }

  /** bestMove: scans the empty cells in order and keeps a move only on a strict improvement. */
  method BestMove(b: Board, p: Player) returns (move: Option<Index>)
    ensures move == BestIndex(b, p)
  {
    if Evaluate(b).Some? {
      return None;
    }
    var avail := Available(b);
    AvailableShape(b);
    InProgressHasEmpty(b);
    var bestScore := Sentinel(p);
    var m := avail[0];
    ghost var mi := 0;
    ghost var seen: seq<int> := [];
    for k := 0 to |avail|
      invariant seen == ScoresOf(b, p, avail[..k])
      invariant k == 0 ==> bestScore == Sentinel(p)
      invariant k > 0 ==> 0 <= mi < k && avail[mi] == m && seen[mi] == bestScore
      invariant forall n :: 0 <= n < k ==> AtLeastAsGood(p, bestScore, seen[n])
      invariant forall n :: 0 <= n < k && avail[n] < m ==> seen[n] != bestScore
    {
      var i := avail[k];
      var score := ChildScore(b, p, i);
      assert avail[..k + 1][..k] == avail[..k];
      seen := seen + [score];
      assert k > 0 ==> m < i;
      if Improves(p, score, bestScore) {
        bestScore, m, mi := score, i, k;
      }
    }
    assert avail[..|avail|] == avail;
    ScanFindsBestIndex(b, p, avail, seen, mi, bestScore);
    return Some(m);
  }

  /** What the scan of bestMove has established once every empty cell was tried: its move is BestIndex's. */
  lemma ScanFindsBestIndex(b: Board, p: Player, avail: seq<Index>, seen: seq<int>, mi: nat, bestScore: int)
    requires Evaluate(b).None?
    requires avail == Available(b)
    requires forall n :: 0 <= n < |avail| ==> b[avail[n]] == Empty
    requires seen == ScoresOf(b, p, avail)
    requires mi < |avail| && seen[mi] == bestScore
    requires forall n :: 0 <= n < |avail| ==> AtLeastAsGood(p, bestScore, seen[n])
    requires forall n :: 0 <= n < |avail| && avail[n] < avail[mi] ==> seen[n] != bestScore
    ensures BestIndex(b, p) == Some(avail[mi])
  {
    var m := avail[mi];
    ScoresOfAt(b, p, avail);
    AvailableMembers(b);
    MinimaxCharacterised(b, p);
    var w :| 0 <= w < 9 && b[w] == Empty && ChildScore(b, p, w) == Minimax(b, p);
    assert w in avail;
    var nw :| 0 <= nw < |avail| && avail[nw] == w;
    assert seen[nw] == Minimax(b, p);
    assert seen[mi] == ChildScore(b, p, m);
    assert bestScore == Minimax(b, p);
    forall j | 0 <= j < m && b[j] == Empty
      ensures ChildScore(b, p, j) != Minimax(b, p)
    {
      assert j in avail;
      var nj :| 0 <= nj < |avail| && avail[nj] == j;
      assert seen[nj] == ChildScore(b, p, j);
    }
    FirstScoringFinds(b, p, Minimax(b, p), m, 0);
  }

  /** A cell that scores `target` with no lower empty cell doing so is what FirstScoring returns. */
  lemma {:induction false} FirstScoringFinds(b: Board, p: Player, target: int, m: Index, i: nat)
    requires i <= m && b[m] == Empty && ChildScore(b, p, m) == target
    requires forall j :: i <= j < m && b[j] == Empty ==> ChildScore(b, p, j) != target
    ensures FirstScoring(b, p, target, i) == Some(m)
    decreases m - i
  {
    if i < m {
      FirstScoringFinds(b, p, target, m, i + 1);
    }
  }

  /** When O can complete a line at once, the search values the position as a win and keeps a winning move. */
  lemma WinNowIsKept(b: Board, i: Index)
    requires Evaluate(b).None? && b[i] == Empty
    requires Evaluate(b[i := Mark(O)]) == Some(10)
    ensures Minimax(b, O) == 10
    ensures BestIndex(b, O).Some? && ChildScore(b, O, BestIndex(b, O).value) == 10
  {
    assert ChildScore(b, O, i) == 10;
    MinimaxCharacterised(b, O);
  }

  /** Symmetrically, when X can complete a line at once the search values the position as lost for O. */
  lemma XWinNowIsKept(b: Board, i: Index)
    requires Evaluate(b).None? && b[i] == Empty
    requires Evaluate(b[i := Mark(X)]) == Some(-10)
    ensures Minimax(b, X) == -10
    ensures BestIndex(b, X).Some? && ChildScore(b, X, BestIndex(b, X).value) == -10
  {
    assert ChildScore(b, X, i) == -10;
    MinimaxCharacterised(b, X);
  }
}
