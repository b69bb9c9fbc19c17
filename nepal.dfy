/**
 * The alpha-beta strategy NepPlayer. From the cards already played it
 * builds its own game tree: the root tries every card of the hand, and
 * below the root the two sides alternately take a card from the list of
 * played cards. Its scoring rule differs from the engine's: it tests
 * perfect squares including 0, never clears the running total, and the
 * minimizing side resets its count for the rest of the loop once a square
 * is hit.
 *
 * The search is proved against the plain minimax value of that same tree:
 * whenever the minimax value lies strictly inside the (alpha, beta)
 * window, the pruned search returns it exactly, and outside the window it
 * returns a bound on the correct side (fail-soft alpha-beta).
 */
module NepalN {
  import opened Cards
  import opened Rules

  /** Integer.MIN_VALUE and Integer.MAX_VALUE, the search's infinities. */
  const IntMin: int := -0x8000_0000
  const IntMax: int := 0x7fff_ffff

  /** The integer square root: what (int) Math.sqrt(n) gives for n >= 0. */
  function ISqrt(n: nat): (r: nat)
    ensures Sq(r) <= n < Sq(r + 1)
  {
    if n == 0 then 0
    else
      var s := ISqrt(n - 1);
      if Sq(s + 1) <= n then s + 1 else s
  }

  /** isPerfectSquare: the truncated root squared gives the number back;
      a negative number has no root (the cast of NaN is 0). */
  function IsPerfectSquare(n: int): bool
  {
    n >= 0 && Sq(ISqrt(n)) == n
  }

  /** The test is exact, and, unlike the engine's, it accepts 0. */
  lemma IsPerfectSquareMeaning(n: int)
    ensures IsPerfectSquare(n) <==> PerfectSquare(n)
  {
    if IsPerfectSquare(n) {
      assert Sq(ISqrt(n)) == n;
    }
    if PerfectSquare(n) {
      var k: nat :| Sq(k) == n;
      var r := ISqrt(n);
      if k < r {
        SqMonotone(k + 1, r);
      } else if k > r {
        SqMonotone(r + 1, k);
      }
    }
  }

  /** On the totals a hand can produce the two square tests agree; they
      differ on 0, which NepPlayer counts as a square. */
  lemma SquareTestsAgree(n: int)
    ensures 0 < n < 144 ==> (IsPerfectSquare(n) <==> IsSquare(n))
    ensures IsPerfectSquare(0) && !IsSquare(0)
  {
    IsPerfectSquareMeaning(n);
    if 0 < n < 144 {
      SquareTestIsExact(n);
    }
    assert ISqrt(0) == 0;
  }

  /** isTerminal: the search stops when its list of cards is used up. */
  predicate IsTerminal(cards: seq<Card>, onTable: int)
  {
    |cards| == 0
  }

  /** calculateUtility: the score difference, from the first side's view. */
  function Utility(score1: int, score2: int): int
  {
    score1 - score2
  }

  /** A node of the search: the list of cards the side to move picks
      from, and the table and scores. */
  datatype Position = Position(cards: seq<Card>, numOnTable: int, onTable: int, score1: int, score2: int)

  /** The list a child receives: a copy of the parent's with the first card
      equal to cards[k] cut out, which is what removing cards[k] by value
      leaves. */
  function Without(cards: seq<Card>, k: int): (r: seq<Card>)
    requires 0 <= k < |cards|
    ensures |r| == |cards| - 1
  {
    var f := FirstIndex(cards, cards[k]);
    cards[..f] + cards[f + 1..]
  }

  lemma RemoveFirstIsWithout(cards: seq<Card>, k: int)
    requires 0 <= k < |cards|
    ensures RemoveFirst(cards, cards[k]) == Without(cards, k)
  {
    RemoveFirstCuts(cards, cards[k]);
  }

  /**
   * The maximizing side plays cards[k]: the card leaves the list, the
   * total grows by its value and the count by one; on a perfect square
   * score1 takes the count and the count restarts at 0, while the total is
   * kept.
   */
  function MaxChild(p: Position, k: int): (q: Position)
    requires 0 <= k < |p.cards|
    ensures |q.cards| == |p.cards| - 1
  {
    var c := p.cards[k];
    var onTable := p.onTable + CardValue(c);
    if IsPerfectSquare(onTable) then
      Position(Without(p.cards, k), 0, onTable, p.score1 + p.numOnTable + 1, p.score2)
    else
      Position(Without(p.cards, k), p.numOnTable + 1, onTable, p.score1, p.score2)
  }

  /** The maximizing loop's local variables for cards[k] make up MaxChild(p, k). */
  lemma MaxChildIs(p: Position, k: int, cards: seq<Card>, numOnTable: int, onTable: int, score1: int)
    requires 0 <= k < |p.cards|
    requires cards == Without(p.cards, k) && onTable == p.onTable + CardValue(p.cards[k])
    requires IsPerfectSquare(onTable) ==> numOnTable == 0 && score1 == p.score1 + p.numOnTable + 1
    requires !IsPerfectSquare(onTable) ==> numOnTable == p.numOnTable + 1 && score1 == p.score1
    ensures MaxChild(p, k) == Position(cards, numOnTable, onTable, score1, p.score2)
  {
  }

  /** The count the minimizing side's loop holds when it reaches cards[k]:
      0 once any earlier card of the loop made a square. */
  function ThreadedNum(p: Position, k: int): int
    requires 0 <= k <= |p.cards|
  {
    if k == 0 then p.numOnTable
    else if MakesSquare(p, k - 1) then 0
    else ThreadedNum(p, k - 1)
  }

  /** Playing cards[j] onto the position's total makes a perfect square. */
  predicate MakesSquare(p: Position, j: int)
    requires 0 <= j < |p.cards|
  {
    IsPerfectSquare(p.onTable + CardValue(p.cards[j]))
  }

  /** Until a card of minValue's loop makes a square, the count is the one
      minValue received. */
  lemma {:induction false} ThreadedNumKeeps(p: Position, k: int)
    requires 0 <= k <= |p.cards|
    requires forall j :: 0 <= j < k ==> !MakesSquare(p, j)
    ensures ThreadedNum(p, k) == p.numOnTable
  {
    if k > 0 {
      ThreadedNumKeeps(p, k - 1);
    }
  }

  /** Once a card of minValue's loop has made a square, the count is 0. */
  lemma {:induction false} ThreadedNumResets(p: Position, k: int, j: int)
    requires 0 <= j < k <= |p.cards|
    requires MakesSquare(p, j)
    ensures ThreadedNum(p, k) == 0
  {
    if j < k - 1 {
      ThreadedNumResets(p, k - 1, j);
    }
  }

  /**
   * The minimizing side plays cards[k] holding count n: on a perfect square
   * score2 takes n plus one and the count becomes 0; otherwise n is passed
   * on unchanged. The total is never cleared.
   */
  function MinChild(p: Position, k: int, n: int): (q: Position)
    requires 0 <= k < |p.cards|
    ensures |q.cards| == |p.cards| - 1
  {
    var onTable := p.onTable + CardValue(p.cards[k]);
    if IsPerfectSquare(onTable) then
      Position(Without(p.cards, k), 0, onTable, p.score1, p.score2 + n + 1)
    else
      Position(Without(p.cards, k), n, onTable, p.score1, p.score2)
  }

  /** The minimizing loop's local variables for cards[k] make up its child. */
  lemma MinChildIs(p: Position, k: int, n: int, cards: seq<Card>, numOnTable: int, onTable: int, score2: int)
    requires 0 <= k < |p.cards|
    requires cards == Without(p.cards, k) && onTable == p.onTable + CardValue(p.cards[k])
    requires IsPerfectSquare(onTable) ==> numOnTable == 0 && score2 == p.score2 + n + 1
    requires !IsPerfectSquare(onTable) ==> numOnTable == n && score2 == p.score2
    ensures MinChild(p, k, n) == Position(cards, numOnTable, onTable, p.score1, score2)
  {
  }

  /** The minimax value of a position with the maximizing side to move. */
  function MaxVal(p: Position): int
    decreases |p.cards|, 2, 0
  {
    if IsTerminal(p.cards, p.onTable) then Utility(p.score1, p.score2) else MaxOver(p, |p.cards|)
  }

  /** The value of the child reached by playing cards[k]. */
  function MaxChildValue(p: Position, k: int): int
    requires 0 <= k < |p.cards|
    decreases |p.cards|, 0, 0
  {
    MinVal(MaxChild(p, k))
  }

  /** The value of the child reached by the minimizing side playing cards[k]. */
  function MinChildValue(p: Position, k: int): int
    requires 0 <= k < |p.cards|
    decreases |p.cards|, 0, 0
  {
    MaxVal(MinChild(p, k, ThreadedNum(p, k)))
  }

  /** The largest value among the first i children, taken in loop order. */
  function MaxOver(p: Position, i: int): int
    requires 1 <= i <= |p.cards|
    decreases |p.cards|, 1, i
  {
    var v := MaxChildValue(p, i - 1);
    if i == 1 then v else Max(MaxOver(p, i - 1), v)
  }

  /** The minimax value of a position with the minimizing side to move. */
  function MinVal(p: Position): int
    decreases |p.cards|, 2, 0
  {
    if IsTerminal(p.cards, p.onTable) then Utility(p.score1, p.score2) else MinOver(p, |p.cards|)
  }

  /** The smallest value among the first i children, taken in loop order. */
  function MinOver(p: Position, i: int): int
    requires 1 <= i <= |p.cards|
    decreases |p.cards|, 1, i
  {
    var v := MinChildValue(p, i - 1);
    if i == 1 then v else Min(MinOver(p, i - 1), v)
  }

  /** No child of a maximizing position is worth more than the position. */
  lemma {:induction false} MaxOverBound(p: Position, j: int, i: int)
    requires 0 <= j < i <= |p.cards|
    ensures MaxChildValue(p, j) <= MaxOver(p, i)
    decreases i
  {
    if j < i - 1 {
      MaxOverBound(p, j, i - 1);
    }
  }

  /** No child of a minimizing position is worth less than the position. */
  lemma {:induction false} MinOverBound(p: Position, j: int, i: int)
    requires 0 <= j < i <= |p.cards|
    ensures MinChildValue(p, j) >= MinOver(p, i)
    decreases i
  {
    if j < i - 1 {
      MinOverBound(p, j, i - 1);
    }
  }

  /** The value of a maximizing position is the value of one of its children. */
  lemma {:induction false} MaxOverReached(p: Position, i: int) returns (j: int)
    requires 1 <= i <= |p.cards|
    ensures 0 <= j < i && MaxChildValue(p, j) == MaxOver(p, i)
    decreases i
  {
    j := i - 1;
    if i > 1 && MaxOver(p, i - 1) >= MaxChildValue(p, i - 1) {
      j := MaxOverReached(p, i - 1);
    }
  }

  /** The value of a minimizing position is the value of one of its children. */
  lemma {:induction false} MinOverReached(p: Position, i: int) returns (j: int)
    requires 1 <= i <= |p.cards|
    ensures 0 <= j < i && MinChildValue(p, j) == MinOver(p, i)
    decreases i
  {
    j := i - 1;
    if i > 1 && MinOver(p, i - 1) <= MinChildValue(p, i - 1) {
      j := MinOverReached(p, i - 1);
    }
  }

  /** The window is a proper sub-range of the 32-bit integers. */
  predicate InWindow(alpha: int, beta: int)
  {
    IntMin <= alpha < beta <= IntMax
  }

  /**
   * Fail-soft alpha-beta: a result at or below alpha bounds the true value
   * from above, one at or above beta bounds it from below, and one strictly
   * inside the window is the true value.
   */
  predicate FailSoft(r: int, v: int, alpha: int, beta: int)
  {
    (r <= alpha ==> v <= r) && (r >= beta ==> v >= r) && (alpha < r < beta ==> r == v)
  }

  /** The largest of a non-empty run of values, taken left to right. */
  function MaxOf(vs: seq<int>): int
    requires |vs| > 0
  {
    if |vs| == 1 then vs[0] else Max(MaxOf(vs[..|vs| - 1]), vs[|vs| - 1])
  }

  /** The smallest of a non-empty run of values, taken left to right. */
  function MinOf(vs: seq<int>): int
    requires |vs| > 0
  {
    if |vs| == 1 then vs[0] else Min(MinOf(vs[..|vs| - 1]), vs[|vs| - 1])
  }

  /** The values of the first i children of a maximizing position. */
  ghost function MaxChildValues(p: Position, i: int): (vs: seq<int>)
    requires 0 <= i <= |p.cards|
    ensures |vs| == i
  {
    if i == 0 then [] else MaxChildValues(p, i - 1) + [MaxChildValue(p, i - 1)]
  }

  /** The values of the first i children of a minimizing position. */
  ghost function MinChildValues(p: Position, i: int): (vs: seq<int>)
    requires 0 <= i <= |p.cards|
    ensures |vs| == i
  {
    if i == 0 then [] else MinChildValues(p, i - 1) + [MinChildValue(p, i - 1)]
  }

  /** Folding the child values left to right gives MaxOver. */
  lemma {:induction false} MaxOverIsMaxOf(p: Position, i: int)
    requires 1 <= i <= |p.cards|
    ensures MaxOver(p, i) == MaxOf(MaxChildValues(p, i))
  {
    var vs := MaxChildValues(p, i);
    assert vs[..i - 1] == MaxChildValues(p, i - 1);
    if i > 1 {
      MaxOverIsMaxOf(p, i - 1);
    }
  }

  /** Folding the child values left to right gives MinOver. */
  lemma {:induction false} MinOverIsMinOf(p: Position, i: int)
    requires 1 <= i <= |p.cards|
    ensures MinOver(p, i) == MinOf(MinChildValues(p, i))
  {
    var vs := MinChildValues(p, i);
    assert vs[..i - 1] == MinChildValues(p, i - 1);
    if i > 1 {
      MinOverIsMinOf(p, i - 1);
    }
  }

  /**
   * One pass of maxValue's loop keeps its invariant: after another child
   * value cv the running value bounds the values seen from above and
   * equals their maximum once it exceeds alpha.
   */
  lemma MaxStep(vs: seq<int>, cv: int, alpha: int, beta: int, value: int, a: int, v: int)
    requires InWindow(alpha, beta) && value < beta
    requires |vs| == 0 ==> value == IntMin && a == alpha
    requires |vs| > 0 ==> a == Max(alpha, value) && MaxOf(vs) <= value
    requires |vs| > 0 && value > alpha ==> MaxOf(vs) == value
    requires FailSoft(v, cv, a, beta)
    ensures Max(value, v) >= beta ==> cv >= Max(value, v)
    ensures Max(value, v) < beta ==> MaxOf(vs + [cv]) <= Max(value, v)
    ensures Max(value, v) < beta && Max(value, v) > alpha ==> MaxOf(vs + [cv]) == Max(value, v)
  {
    assert (vs + [cv])[..|vs|] == vs;
  }

  /**
   * One pass of minValue's loop keeps its invariant: after another child
   * value cv the running value bounds the values seen from below and
   * equals their minimum once it is under beta.
   */
  lemma MinStep(vs: seq<int>, cv: int, alpha: int, beta: int, value: int, b: int, v: int)
    requires InWindow(alpha, beta) && value > alpha
    requires |vs| == 0 ==> value == IntMax && b == beta
    requires |vs| > 0 ==> b == Min(beta, value) && MinOf(vs) >= value
    requires |vs| > 0 && value < beta ==> MinOf(vs) == value
    requires FailSoft(v, cv, alpha, b)
    ensures Min(value, v) <= alpha ==> cv <= Min(value, v)
    ensures Min(value, v) > alpha ==> MinOf(vs + [cv]) >= Min(value, v)
    ensures Min(value, v) > alpha && Min(value, v) < beta ==> MinOf(vs + [cv]) == Min(value, v)
  {
    assert (vs + [cv])[..|vs|] == vs;
  }

  /**
   * The body of maxValue's loop for hand[i]: the card is removed from a
   * copy of the list, the total grows by its value, and a square pays
   * score1 the count plus one and restarts the count; minValue then scores
   * the child within (alpha, beta).
   */
  method MaxTry(hand: seq<Card>, numOnTable: int, onTable: int, score1: int, score2: int,
                i: int, alpha: int, beta: int) returns (v: int)
    requires 0 <= i < |hand|
    ensures InWindow(alpha, beta) ==>
              FailSoft(v, MaxChildValue(Position(hand, numOnTable, onTable, score1, score2), i), alpha, beta)
    decreases |hand|, 0
  {
    ghost var p := Position(hand, numOnTable, onTable, score1, score2);
    var card := hand[i];
    var newOnTable := onTable + CardValue(card);
    var newNumOnTable := numOnTable + 1;
    var tempScore1 := score1;
    if IsPerfectSquare(newOnTable) {
      tempScore1 := tempScore1 + newNumOnTable;
      newNumOnTable := 0;
    }
    var newHand := RemoveFirst(hand, card);
    RemoveFirstIsWithout(hand, i);
    MaxChildIs(p, i, newHand, newNumOnTable, newOnTable, tempScore1);
    v := MinValue(newHand, newNumOnTable, newOnTable, alpha, beta, tempScore1, score2);
  }

  /**
   * The body of minValue's loop for playedCards[i], holding the loop's
   * count: a square pays score2 the count plus one and clears the count,
   * which stays cleared for the rest of the loop; maxValue then scores the
   * child within (alpha, beta).
   */
  method MinTry(playedCards: seq<Card>, numOnTable: int, onTable: int, score1: int, score2: int,
                i: int, count: int, alpha: int, beta: int) returns (v: int, newCount: int)
    requires 0 <= i < |playedCards|
    requires count == ThreadedNum(Position(playedCards, numOnTable, onTable, score1, score2), i)
    ensures newCount == ThreadedNum(Position(playedCards, numOnTable, onTable, score1, score2), i + 1)
    ensures InWindow(alpha, beta) ==>
              FailSoft(v, MinChildValue(Position(playedCards, numOnTable, onTable, score1, score2), i), alpha, beta)
    decreases |playedCards|, 0
  {
    ghost var p := Position(playedCards, numOnTable, onTable, score1, score2);
    var card := playedCards[i];
    var newOnTable := onTable + CardValue(card);
    var newHand := RemoveFirst(playedCards, card);
    RemoveFirstIsWithout(playedCards, i);
    var tempScore2 := score2;
    newCount := count;
    if IsPerfectSquare(newOnTable) {
      tempScore2 := tempScore2 + newCount + 1;
      newCount := 0;
    }
    MinChildIs(p, i, count, newHand, newCount, newOnTable, tempScore2);
    v := MaxValue(newHand, newCount, newOnTable, alpha, beta, score1, tempScore2);
  }

  /**
   * maxValue: the maximizing side tries every card of its list in order,
   * narrowing alpha as it goes and returning as soon as a child reaches
   * beta. Against the minimax value of the same tree it is fail-soft
   * alpha-beta, and so exact whenever that value lies inside the window.
   */
  method MaxValue(hand: seq<Card>, numOnTable: int, onTable: int, alpha: int, beta: int,
                  score1: int, score2: int) returns (value: int)
    ensures IsTerminal(hand, onTable) ==> value == Utility(score1, score2)
    ensures InWindow(alpha, beta) ==>
              FailSoft(value, MaxVal(Position(hand, numOnTable, onTable, score1, score2)), alpha, beta)
    ensures InWindow(alpha, beta) && alpha < MaxVal(Position(hand, numOnTable, onTable, score1, score2)) < beta ==>
              value == MaxVal(Position(hand, numOnTable, onTable, score1, score2))
    decreases |hand|, 1
  {
    if IsTerminal(hand, onTable) {
      return Utility(score1, score2);
    }
    ghost var p := Position(hand, numOnTable, onTable, score1, score2);
    ghost var window := InWindow(alpha, beta);
    ghost var vs: seq<int> := [];
    var a := alpha;
    value := IntMin;
    var i := 0;
    while i < |hand|
      invariant 0 <= i <= |hand|
      invariant i == 0 ==> value == IntMin && a == alpha
      invariant i > 0 ==> a == Max(alpha, value)
      invariant vs == MaxChildValues(p, i)
      invariant window ==> value < beta
      invariant window && i > 0 ==> MaxOf(vs) <= value
      invariant window && i > 0 && value > alpha ==> MaxOf(vs) == value
    {
      var v := MaxTry(hand, numOnTable, onTable, score1, score2, i, a, beta);
      ghost var cv := MaxChildValue(p, i);
      if window {
        MaxStep(vs, cv, alpha, beta, value, a, v);
      }
      value := Max(value, v);
      if value >= beta {
        MaxOverBound(p, i, |hand|);
        return;
      }
      vs := vs + [cv];
      a := Max(a, value);
      i := i + 1;
    }
    MaxOverIsMaxOf(p, i);
  }

  /**
   * minValue: the minimizing side tries every card of its list in order,
   * narrowing beta as it goes and returning as soon as a child reaches
   * alpha; its count parameter is cleared for good at the first square.
   */
  method MinValue(playedCards: seq<Card>, numOnTable: int, onTable: int, alpha: int, beta: int,
                  score1: int, score2: int) returns (value: int)
    ensures IsTerminal(playedCards, onTable) ==> value == Utility(score1, score2)
    ensures InWindow(alpha, beta) ==>
              FailSoft(value, MinVal(Position(playedCards, numOnTable, onTable, score1, score2)), alpha, beta)
    ensures InWindow(alpha, beta) && alpha < MinVal(Position(playedCards, numOnTable, onTable, score1, score2)) < beta ==>
              value == MinVal(Position(playedCards, numOnTable, onTable, score1, score2))
    decreases |playedCards|, 1
  {
    if IsTerminal(playedCards, onTable) {
      return Utility(score1, score2);
    }
    ghost var p := Position(playedCards, numOnTable, onTable, score1, score2);
    ghost var window := InWindow(alpha, beta);
    ghost var vs: seq<int> := [];
    var b := beta;
    var count := numOnTable;
    value := IntMax;
    var i := 0;
    while i < |playedCards|
      invariant 0 <= i <= |playedCards|
      invariant count == ThreadedNum(p, i)
      invariant i == 0 ==> value == IntMax && b == beta
      invariant i > 0 ==> b == Min(beta, value)
      invariant vs == MinChildValues(p, i)
      invariant window ==> value > alpha
      invariant window && i > 0 ==> MinOf(vs) >= value
      invariant window && i > 0 && value < beta ==> MinOf(vs) == value
    {
      var v;
      v, count := MinTry(playedCards, numOnTable, onTable, score1, score2, i, count, alpha, b);
      ghost var cv := MinChildValue(p, i);
      if window {
        MinStep(vs, cv, alpha, beta, value, b, v);
      }
      value := Min(value, v);
      if value <= alpha {
        MinOverBound(p, i, |playedCards|);
        return;
      }
      vs := vs + [cv];
      b := Min(b, value);
      i := i + 1;
    }
    MinOverIsMinOf(p, i);
  }

  /** The position minValue receives when playCard tries hand[k]: the card
      joins the played cards, and the total, count and score1 move as in a
      maximizing turn. */
  function RootChild(hand: seq<Card>, p: Position, k: int): (q: Position)
    requires 0 <= k < |hand|
    ensures |q.cards| == |p.cards| + 1 && q.cards[|p.cards|] == hand[k]
  {
    var onTable := p.onTable + CardValue(hand[k]);
    if IsPerfectSquare(onTable) then
      Position(p.cards + [hand[k]], 0, onTable, p.score1 + p.numOnTable + 1, p.score2)
    else
      Position(p.cards + [hand[k]], p.numOnTable + 1, onTable, p.score1, p.score2)
  }

  /** playCard's local variables for hand[k] make up RootChild(hand, p, k). */
  lemma RootChildIs(hand: seq<Card>, p: Position, k: int, numOnTable: int, onTable: int, score1: int)
    requires 0 <= k < |hand| && onTable == p.onTable + CardValue(hand[k])
    requires IsPerfectSquare(onTable) ==> numOnTable == 0 && score1 == p.score1 + p.numOnTable + 1
    requires !IsPerfectSquare(onTable) ==> numOnTable == p.numOnTable + 1 && score1 == p.score1
    ensures RootChild(hand, p, k) == Position(p.cards + [hand[k]], numOnTable, onTable, score1, p.score2)
  {
  }

  /** The minimax value of trying hand[k] at the root. */
  function RootValue(hand: seq<Card>, p: Position, k: int): int
    requires 0 <= k < |hand|
  {
    MinVal(RootChild(hand, p, k))
  }

  /** The values of trying the first i cards of the hand. */
  ghost function RootValues(hand: seq<Card>, p: Position, i: int): (vs: seq<int>)
    requires 0 <= i <= |hand|
    ensures |vs| == i && forall k :: 0 <= k < i ==> vs[k] == RootValue(hand, p, k)
  {
    if i == 0 then [] else RootValues(hand, p, i - 1) + [RootValue(hand, p, i - 1)]
  }

  /** The first position holding the largest value. */
  function ArgMax(vs: seq<int>): (k: int)
    requires |vs| > 0
    ensures 0 <= k < |vs| && vs[k] == MaxOf(vs)
    ensures forall j :: 0 <= j < |vs| ==> vs[j] <= vs[k]
    ensures forall j :: 0 <= j < k ==> vs[j] < vs[k]
  {
    if |vs| == 1 then 0
    else
      var k := ArgMax(vs[..|vs| - 1]);
      if vs[|vs| - 1] > vs[k] then |vs| - 1 else k
  }

  /** bestValue after a pass over values vs: the largest of them, but never
      below Integer.MIN_VALUE, its starting point. */
  function BestValue(vs: seq<int>): int
  {
    if |vs| == 0 then IntMin else Max(IntMin, MaxOf(vs))
  }

  /** bestCard after a pass over values vs: the first card of largest
      value, or none when no value beats Integer.MIN_VALUE. */
  function Choice(hand: seq<Card>, vs: seq<int>): Option<Card>
    requires |vs| <= |hand|
  {
    if |vs| == 0 || MaxOf(vs) <= IntMin then None else Some(hand[ArgMax(vs)])
  }

  /** The choice is a card of largest value, ahead of every other card of
      that value, and there is none exactly when no value beats
      Integer.MIN_VALUE. */
  lemma ChoiceIsFirstBest(hand: seq<Card>, vs: seq<int>)
    requires |vs| == |hand|
    ensures Choice(hand, vs) == None <==> forall j :: 0 <= j < |vs| ==> vs[j] <= IntMin
    ensures Choice(hand, vs) != None ==>
              exists k :: 0 <= k < |vs| && Choice(hand, vs) == Some(hand[k]) &&
                (forall j :: 0 <= j < |vs| ==> vs[j] <= vs[k]) && (forall j :: 0 <= j < k ==> vs[j] < vs[k])
  {
    if |vs| > 0 {
      var k := ArgMax(vs);
      assert vs[k] == MaxOf(vs);
    }
  }

  /**
   * One card of playCard's first pass: with alpha equal to the best value
   * so far, the child's fail-soft result raises bestValue and takes the
   * card exactly when the child's true value beats every earlier one.
   */
  lemma FirstPassStep(hand: seq<Card>, vs: seq<int>, cv: int, r: int)
    requires |vs| < |hand|
    requires cv < IntMax && forall j :: 0 <= j < |vs| ==> vs[j] < IntMax
    requires InWindow(BestValue(vs), IntMax) ==> FailSoft(r, cv, BestValue(vs), IntMax)
    ensures InWindow(BestValue(vs), IntMax)
    ensures (if r > BestValue(vs) then r else BestValue(vs)) == BestValue(vs + [cv])
    ensures Choice(hand[..|vs| + 1], vs + [cv]) ==
              if r > BestValue(vs) then Some(hand[|vs|]) else Choice(hand[..|vs|], vs)
  {
    var ws := vs + [cv];
    assert ws[..|vs|] == vs;
    if |vs| > 0 {
      var k := ArgMax(vs);
      assert hand[..|vs| + 1][k] == hand[..|vs|][k];
    }
  }

  /** A later pass starts with alpha at the best value of all the cards, so
      no child's result can beat it and nothing changes. */
  lemma LaterPassStep(vs: seq<int>, i: int, r: int)
    requires 0 <= i < |vs| && forall j :: 0 <= j < |vs| ==> vs[j] < IntMax
    requires InWindow(BestValue(vs), IntMax) ==> FailSoft(r, vs[i], BestValue(vs), IntMax)
    ensures InWindow(BestValue(vs), IntMax) && r <= BestValue(vs)
  {
    var k := ArgMax(vs);
  }

  /** Every root child's minimax value lies below Integer.MAX_VALUE. */
  ghost predicate Bounded(hand: seq<Card>, p: Position)
  {
    forall k :: 0 <= k < |hand| ==> RootValue(hand, p, k) < IntMax
  }

  /** A cap on the sizes a hand of the game reaches: at most fourteen cards
      are ever played, so counts and list lengths stay far below it. */
  const Cap: int := 1000

  /** The count plus the cards still to play stays within Cap, which every
      node below a game position keeps. */
  predicate Small(p: Position)
  {
    0 <= p.numOnTable && p.numOnTable + |p.cards| <= Cap
  }

  /** A value of node p differs from its score difference by at most Cap + 1
      per card still to play. */
  predicate InBand(v: int, p: Position)
  {
    -(Cap + 1) * |p.cards| <= v - (p.score1 - p.score2) <= (Cap + 1) * |p.cards|
  }

  /** The count the minimizing loop holds never exceeds the one it received. */
  lemma {:induction false} ThreadedNumRange(p: Position, k: int)
    requires 0 <= k <= |p.cards| && 0 <= p.numOnTable
    ensures 0 <= ThreadedNum(p, k) <= p.numOnTable
  {
    if k > 0 {
      ThreadedNumRange(p, k - 1);
    }
  }

  /** Each move pays at most the count plus one, so the minimax values of a
      small node stay in its band. */
  lemma {:induction false} ValueBounds(p: Position)
    requires Small(p)
    ensures InBand(MaxVal(p), p) && InBand(MinVal(p), p)
    decreases |p.cards|, 1
  {
    if |p.cards| > 0 {
      OverBounds(p, |p.cards|);
    }
  }

  lemma {:induction false} OverBounds(p: Position, i: int)
    requires Small(p) && 1 <= i <= |p.cards|
    ensures InBand(MaxOver(p, i), p) && InBand(MinOver(p, i), p)
    decreases |p.cards|, 0, i
  {
    var k := i - 1;
    ValueBounds(MaxChild(p, k));
    ThreadedNumRange(p, k);
    ValueBounds(MinChild(p, k, ThreadedNum(p, k)));
    if i > 1 {
      OverBounds(p, i - 1);
    }
  }

  /**
   * Every position a hand of the game hands to playCard (fewer than Cap
   * cards played, a non-negative count, scores within Cap of each other)
   * has its root values below Integer.MAX_VALUE, so the optimality of
   * PlayCard holds there without condition.
   */
  lemma GamePositionsAreBounded(hand: seq<Card>, p: Position)
    requires 0 <= p.numOnTable && p.numOnTable + |p.cards| + 2 <= Cap
    requires -Cap <= p.score1 - p.score2 <= Cap
    ensures Bounded(hand, p)
  {
    forall k | 0 <= k < |hand| ensures RootValue(hand, p, k) < IntMax {
      var q := RootChild(hand, p, k);
      ValueBounds(q);
    }
  }

  /** In a position a game can reach, the first card of the hand already
      scores above the sentinel, so playCard always picks a card. */
  lemma GameChoiceExists(hand: seq<Card>, p: Position)
    requires 0 < |hand|
    requires 0 <= p.numOnTable && p.numOnTable + |p.cards| + 2 <= Cap
    requires -Cap <= p.score1 - p.score2 <= Cap
    ensures Choice(hand, RootValues(hand, p, |hand|)) != None
  {
    var vs := RootValues(hand, p, |hand|);
    FirstRootValue(hand, p);
    ChoiceIsFirstBest(hand, vs);
  }

  /** On a position a game can reach, the first card of the hand is worth
      more than Integer.MIN_VALUE. */
  lemma FirstRootValue(hand: seq<Card>, p: Position)
    requires 0 < |hand|
    requires 0 <= p.numOnTable && p.numOnTable + |p.cards| + 2 <= Cap
    requires -Cap <= p.score1 - p.score2 <= Cap
    ensures RootValue(hand, p, 0) > IntMin
  {
    ValueBounds(RootChild(hand, p, 0));
  }

  /** The best value playCard holds before trying the card of value vs[i]:
      that of the cards before it in the first pass, that of all the cards
      in a later one. */
  function HeldBest(vs: seq<int>, i: int, first: bool): int
    requires 0 <= i <= |vs|
  {
    if first then BestValue(vs[..i]) else BestValue(vs)
  }

  /**
   * One card of a pass over cards of values vs, all below
   * Integer.MAX_VALUE: alpha is inside the 32-bit range, the first pass
   * keeps bestValue and bestCard equal to the best over the cards tried so
   * far, and a later pass never beats the best value.
   */
  lemma PassStep(hand: seq<Card>, vs: seq<int>, i: int, first: bool, r: int)
    requires |vs| == |hand| && 0 <= i < |vs| && forall j :: 0 <= j < |vs| ==> vs[j] < IntMax
    requires InWindow(HeldBest(vs, i, first), IntMax) ==> FailSoft(r, vs[i], HeldBest(vs, i, first), IntMax)
    ensures InWindow(HeldBest(vs, i, first), IntMax)
    ensures first ==>
              (if r > HeldBest(vs, i, first) then r else HeldBest(vs, i, first)) == HeldBest(vs, i + 1, first)
              && Choice(hand[..i + 1], vs[..i + 1]) ==
                 if r > HeldBest(vs, i, first) then Some(hand[i]) else Choice(hand[..i], vs[..i])
    ensures !first ==> r <= HeldBest(vs, i, first)
  {
    if first {
      assert vs[..i] + [vs[i]] == vs[..i + 1];
      FirstPassStep(hand, vs[..i], vs[i], r);
    } else {
      LaterPassStep(vs, i, r);
    }
  }

  /**
   * The body of playCard's loop for hand[i]: the card joins a copy of the
   * played cards, the count, total and score1 move as in a maximizing
   * turn, and minValue scores the result within (alpha, beta).
   */
  method TryCard(hand: seq<Card>, playedCards: seq<Card>, numOnTable: int, onTable: int,
                 score1: int, score2: int, i: int, alpha: int, beta: int) returns (value: int)
    requires 0 <= i < |hand|
    ensures InWindow(alpha, beta) ==>
              FailSoft(value, RootValue(hand, Position(playedCards, numOnTable, onTable, score1, score2), i), alpha, beta)
  {
    ghost var p := Position(playedCards, numOnTable, onTable, score1, score2);
    var card := hand[i];
    var newOnTable := onTable + CardValue(card);
    var newPlayedCards := playedCards + [card];
    var newNumOnTable := numOnTable + 1;
    var tempScore1 := score1;
    if IsPerfectSquare(newOnTable) {
      tempScore1 := tempScore1 + newNumOnTable;
      newNumOnTable := 0;
    }
    RootChildIs(hand, p, i, newNumOnTable, newOnTable, tempScore1);
    value := MinValue(newPlayedCards, newNumOnTable, newOnTable, alpha, beta, tempScore1, score2);
  }

  /**
   * One pass of playCard's loop over the hand: every card is scored by
   * minValue within (alpha, Integer.MAX_VALUE), and a card whose result
   * beats bestValue becomes bestCard. From the empty start the pass leaves
   * the best value and first best card of the hand; from there on it
   * changes nothing (when the root children are bounded).
   */
  method PlayPass(hand: seq<Card>, playedCards: seq<Card>, numOnTable: int, onTable: int,
                  score1: int, score2: int, first: bool, alpha0: int, bestValue0: int, bestCard0: Option<Card>)
    returns (alpha: int, bestValue: int, bestCard: Option<Card>)
    requires alpha0 == bestValue0
    requires bestCard0 != None ==> bestCard0.value in hand
    requires |hand| == 0 ==> bestCard0 == None
    requires first ==> bestCard0 == None && bestValue0 == IntMin
    requires !first && Bounded(hand, Position(playedCards, numOnTable, onTable, score1, score2)) ==>
               bestValue0 == BestValue(RootValues(hand, Position(playedCards, numOnTable, onTable, score1, score2), |hand|)) &&
               bestCard0 == Choice(hand, RootValues(hand, Position(playedCards, numOnTable, onTable, score1, score2), |hand|))
    ensures alpha == bestValue && bestValue >= bestValue0
    ensures bestCard != None ==> bestCard.value in hand
    ensures |hand| == 0 ==> bestCard == None
    ensures Bounded(hand, Position(playedCards, numOnTable, onTable, score1, score2)) ==>
              bestValue == BestValue(RootValues(hand, Position(playedCards, numOnTable, onTable, score1, score2), |hand|)) &&
              bestCard == Choice(hand, RootValues(hand, Position(playedCards, numOnTable, onTable, score1, score2), |hand|))
  {
    ghost var p := Position(playedCards, numOnTable, onTable, score1, score2);
    ghost var vs := RootValues(hand, p, |hand|);
    ghost var bounded := Bounded(hand, p);
    assert bounded ==> forall j :: 0 <= j < |vs| ==> vs[j] < IntMax;
    alpha, bestValue, bestCard := alpha0, bestValue0, bestCard0;
    var beta := IntMax;
    for i := 0 to |hand|
      invariant alpha == bestValue && bestValue >= bestValue0
      invariant bestCard != None ==> bestCard.value in hand
      invariant |hand| == 0 ==> bestCard == None
      invariant bounded ==> bestValue == HeldBest(vs, i, first)
      invariant first && bounded ==> bestCard == Choice(hand[..i], vs[..i])
      invariant !first && bounded ==> bestCard == bestCard0
    {
      var value := TryCard(hand, playedCards, numOnTable, onTable, score1, score2, i, alpha, beta);
      if bounded {
        assert vs[i] == RootValue(hand, p, i);
        PassStep(hand, vs, i, first, value);
      }
      if value > bestValue {
        bestValue := value;
        bestCard := Some(hand[i]);
      }
      alpha := Max(alpha, value);
    }
    assert hand[..|hand|] == hand && vs[..|hand|] == vs;
  }

  /**
   * playCard: each pass tries every card of the hand, scoring it with
   * minValue over the played cards plus that card, with alpha the best
   * value found so far; the first card whose result beats bestValue
   * becomes bestCard. The wall clock becomes the number of passes it
   * allows. When the true values of the root children fit below
   * Integer.MAX_VALUE, the choice is the first card of largest minimax
   * value, whatever the number of passes beyond the first.
   */
  method PlayCard(hand: seq<Card>, playedCards: seq<Card>, numOnTable: int, onTable: int,
                  score1: int, score2: int, passes: nat) returns (bestCard: Option<Card>)
    ensures bestCard != None ==> bestCard.value in hand
    ensures passes == 0 || |hand| == 0 ==> bestCard == None
    ensures passes > 0 && Bounded(hand, Position(playedCards, numOnTable, onTable, score1, score2)) ==>
              bestCard == Choice(hand, RootValues(hand, Position(playedCards, numOnTable, onTable, score1, score2), |hand|))
    ensures passes > 0 && 0 <= numOnTable && numOnTable + |playedCards| + 2 <= Cap && -Cap <= score1 - score2 <= Cap ==>
              bestCard == Choice(hand, RootValues(hand, Position(playedCards, numOnTable, onTable, score1, score2), |hand|))
    ensures passes > 0 && 0 < |hand| && 0 <= numOnTable && numOnTable + |playedCards| + 2 <= Cap && -Cap <= score1 - score2 <= Cap ==>
              bestCard != None
  {
    ghost var p := Position(playedCards, numOnTable, onTable, score1, score2);
    if 0 <= numOnTable && numOnTable + |playedCards| + 2 <= Cap && -Cap <= score1 - score2 <= Cap {
      GamePositionsAreBounded(hand, p);
      if 0 < |hand| {
        GameChoiceExists(hand, p);
      }
    }
    ghost var bounded := Bounded(hand, p);
    var alpha := IntMin;
    var bestValue := IntMin;
    bestCard := None;
    var pass := 0;
    while pass < passes
      invariant 0 <= pass <= passes
      invariant alpha == bestValue
      invariant bestCard != None ==> bestCard.value in hand
      invariant |hand| == 0 ==> bestCard == None
      invariant pass == 0 ==> bestCard == None && bestValue == IntMin
      invariant pass > 0 && bounded ==>
                  bestValue == BestValue(RootValues(hand, p, |hand|)) && bestCard == Choice(hand, RootValues(hand, p, |hand|))
    {
      alpha, bestValue, bestCard := PlayPass(hand, playedCards, numOnTable, onTable, score1, score2,
                                             pass == 0, alpha, bestValue, bestCard);
      pass := pass + 1;
    }
  }
}
