// The two weaker computer opponents: a random empty cell ("easy"), and a
// fixed rule cascade that is followed only on some turns ("medium"). Each
// call of Math.random() is an explicit argument u with 0 <= u < 1.

module Strategies {
  import opened Rules

  /** `Math.floor(u * n)`: a position in a list of length `n`. */
  function Pick(u: real, n: nat): (k: int)
    requires 0.0 <= u < 1.0 && n > 0
    ensures 0 <= k < n
  {
    assert u * (n as real) < n as real by {
      assert (1.0 - u) * (n as real) > 0.0;
    }
    (u * (n as real)).Floor
  }

  /** easyAI: the empty cell at position `floor(u * |avail|)`; none when the board is full. */
  function EasyAI(b: Board, u: real): (r: Option<Index>)
    requires 0.0 <= u < 1.0
    ensures r.Some? <==> !Full(b)
    ensures r.Some? ==> b[r.value] == Empty
  {
    var avail := Available(b);
    AvailableShape(b);
    if |avail| == 0 then None else Some(avail[Pick(u, |avail|)])
  }

  /** Every empty cell is the easy opponent's choice for some draw of the random number. */
  lemma EasyAIReachesEveryCell(b: Board, i: Index)
    requires b[i] == Empty
    ensures exists u: real :: 0.0 <= u < 1.0 && EasyAI(b, u) == Some(i)
  {
    var avail := Available(b);
    AvailableMembers(b);
    var n :| 0 <= n < |avail| && avail[n] == i;
    var len := |avail| as real;
    var u := (n as real) / len;
    assert u * len == n as real;
    assert 0.0 <= u < 1.0;
    assert Pick(u, |avail|) == n;
    assert EasyAI(b, u) == Some(i);
  }

  /** Playing `p` in cell `i` makes evaluateBoard return `target`. */
  predicate Completes(b: Board, i: Index, p: Player, target: int) {
    Evaluate(b[i := Mark(p)]) == Some(target)
  }

  /** The lowest empty cell at or after `i` where `p` gets evaluation `target` (the early return of a scan of `avail`). */
  function FirstCompleting(b: Board, p: Player, target: int, i: nat): (r: Option<Index>)
    requires i <= 9
    ensures r.Some? ==> i <= r.value && b[r.value] == Empty && Completes(b, r.value, p, target)
    ensures forall j :: i <= j < (if r.Some? then r.value else 9) && b[j] == Empty ==> !Completes(b, j, p, target)
    decreases 9 - i
  {
    if i == 9 then None
    else if b[i] == Empty && Completes(b, i, p, target) then Some(i)
    else FirstCompleting(b, p, target, i + 1)
  }

  const Corners: seq<Index> := [0, 2, 6, 8]

  /** mediumAI: with `smart < 0.6` win now, else block, else take the centre, else a random empty corner;
      otherwise, or when no rule applies, a random empty cell. */
  function MediumAI(b: Board, smart: real, u: real): (r: Option<Index>)
    requires 0.0 <= smart < 1.0 && 0.0 <= u < 1.0
    ensures r.Some? <==> !Full(b)
    ensures r.Some? ==> b[r.value] == Empty
  {
    if smart < 0.6 then
      match FirstCompleting(b, O, 10, 0)
      case Some(i) => Some(i)
      case None =>
        match FirstCompleting(b, X, -10, 0)
        case Some(i) => Some(i)
        case None =>
          if b[4] == Empty then Some(4)
          else
            var corners := EmptyAmong(b, Corners);
            EmptyAmongMembers(b, Corners);
            if |corners| > 0 then
              assert corners[Pick(u, |corners|)] in corners;
              Some(corners[Pick(u, |corners|)])
            else EasyAI(b, u)
    else EasyAI(b, u)
  }

  /** The cascade, rule by rule: what each step of mediumAI's smart branch picks when the rules before it do not apply,
      and the random pick it falls back to when none applies or the smart branch is not taken. */
  lemma MediumAICascade(b: Board, smart: real, u: real)
    requires 0.0 <= smart < 1.0 && 0.0 <= u < 1.0
    ensures smart < 0.6 && (exists i :: 0 <= i < 9 && b[i] == Empty && Completes(b, i, O, 10)) ==>
              var r := MediumAI(b, smart, u);
              r.Some? && Completes(b, r.value, O, 10) &&
              forall j :: 0 <= j < r.value && b[j] == Empty ==> !Completes(b, j, O, 10)
    ensures smart < 0.6 && (forall i :: 0 <= i < 9 && b[i] == Empty ==> !Completes(b, i, O, 10)) &&
            (exists i :: 0 <= i < 9 && b[i] == Empty && Completes(b, i, X, -10)) ==>
              var r := MediumAI(b, smart, u);
              r.Some? && Completes(b, r.value, X, -10) &&
              forall j :: 0 <= j < r.value && b[j] == Empty ==> !Completes(b, j, X, -10)
    ensures smart < 0.6 && (forall i :: 0 <= i < 9 && b[i] == Empty ==> !Completes(b, i, O, 10)) &&
            (forall i :: 0 <= i < 9 && b[i] == Empty ==> !Completes(b, i, X, -10)) ==>
              (b[4] == Empty ==> MediumAI(b, smart, u) == Some(4)) &&
              (b[4] != Empty && (exists c :: c in Corners && b[c] == Empty) ==>
                 MediumAI(b, smart, u).Some? && MediumAI(b, smart, u).value in Corners)
    ensures smart < 0.6 && (forall i :: 0 <= i < 9 && b[i] == Empty ==> !Completes(b, i, O, 10)) &&
            (forall i :: 0 <= i < 9 && b[i] == Empty ==> !Completes(b, i, X, -10)) &&
            b[4] != Empty && (forall c :: c in Corners ==> b[c] != Empty) ==>
              MediumAI(b, smart, u) == EasyAI(b, u)
    ensures smart >= 0.6 ==> MediumAI(b, smart, u) == EasyAI(b, u)
  {
    if smart < 0.6 {
      var win := FirstCompleting(b, O, 10, 0);
      var block := FirstCompleting(b, X, -10, 0);
      EmptyAmongMembers(b, Corners);
      if b[4] != Empty && (exists c :: c in Corners && b[c] == Empty) {
        var c :| c in Corners && b[c] == Empty;
        assert c in EmptyAmong(b, Corners);
      }
    }
  }
}
