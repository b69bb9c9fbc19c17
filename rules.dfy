/**
 * The rules of one hand as the match engine applies them: the square
 * test, what laying a card does to the table, how a strategy's answer is
 * turned into a move (or into "no move"), and a reference definition of a
 * whole hand from the deal to its end. The imperative engine in module
 * Tournament is proved to compute exactly what Finish defines here.
 */
module Rules {
  import opened Cards

  /** Cards dealt to each player. */
  const HandSize: int := 7

  /**
   * The engine's square test: the squares of 1..11 and nothing else, so
   * 0 is not a square here.
   */
  predicate IsSquare(i: int)
  {
    i == 1 || i == 4 || i == 9 || i == 16 || i == 25 || i == 36 || i == 49 || i == 64 || i == 81
    || i == 100 || i == 121
  }

  lemma SquaresOneToEleven(k: int)
    requires 1 <= k <= 11
    ensures IsSquare(Sq(k))
  {
    SqIsProduct(k);
  }

  /** The listed totals are exactly the positive perfect squares up to 121. */
  lemma IsSquareMeaning(n: int)
    ensures IsSquare(n) <==> 0 < n <= 121 && PerfectSquare(n)
  {
    if IsSquare(n) {
      var k: nat := if n == 1 then 1 else if n == 4 then 2 else if n == 9 then 3 else if n == 16 then 4
                    else if n == 25 then 5 else if n == 36 then 6 else if n == 49 then 7 else if n == 64 then 8
                    else if n == 81 then 9 else if n == 100 then 10 else 11;
      SqIsProduct(k);
      assert Sq(k) == n;
    }
    if 0 < n <= 121 && PerfectSquare(n) {
      var k: nat :| Sq(k) == n;
      if k >= 12 {
        SqMonotone(12, k);
        SqIsProduct(12);
      }
      assert k != 0;
      SquaresOneToEleven(k);
    }
  }

  /**
   * No total in 1..143 is misjudged: there the engine's list agrees with
   * perfect-squareness (the first square it leaves out is 144).
   */
  lemma SquareTestIsExact(n: int)
    requires 0 < n < 144
    ensures IsSquare(n) <==> PerfectSquare(n)
  {
    IsSquareMeaning(n);
    if PerfectSquare(n) && n > 121 {
      var k: nat :| Sq(k) == n;
      if k <= 11 {
        SqMonotone(k, 11);
      } else {
        SqMonotone(12, k);
      }
    }
  }

  /** numOnTable: cards laid since the last score; onTable: their total. */
  datatype Table = Table(numOnTable: int, onTable: int)

  /** The table after a card is laid, and the points the mover gains. */
  datatype Laid = Laid(table: Table, points: int)

  /**
   * Laying card c: when the new total is a square the mover is paid one
   * point per card on the table, this one included, and the table is
   * cleared; otherwise the card stays on the table and nobody scores.
   */
  function Lay(t: Table, c: Card): (r: Laid)
    ensures r.points + r.table.numOnTable == t.numOnTable + 1
    ensures IsSquare(t.onTable + CardValue(c)) ==> r.table == Table(0, 0)
    ensures !IsSquare(t.onTable + CardValue(c)) ==> r.points == 0 && r.table.onTable == t.onTable + CardValue(c)
  {
    if IsSquare(t.onTable + CardValue(c)) then Laid(Table(0, 0), t.numOnTable + 1)
    else Laid(Table(t.numOnTable + 1, t.onTable + CardValue(c)), 0)
  }

  /** Worked case: 3 then 1 reaches 4, so the second card pays 2 points. */
  lemma ThreeThenOne(a: Card, b: Card)
    requires CardValue(a) == 3 && CardValue(b) == 1
    ensures Lay(Table(0, 0), a) == Laid(Table(1, 3), 0)
    ensures Lay(Lay(Table(0, 0), a).table, b) == Laid(Table(0, 0), 2)
  {
  }

  /** What a strategy is shown: copies of its hand and of the cards played,
      the table, and both scores. */
  datatype View = View(hand: seq<Card>, played: seq<Card>, numOnTable: int, onTable: int,
                       score1: int, score2: int)

  /**
   * How one call of a strategy ended: it returned (a card or null), it
   * threw, or it missed the per-move deadline; in the last case `stopped`
   * says whether it then terminated within the overtime allowance.
   */
  datatype Run = Returned(card: Option<Card>) | Threw | TimedOut(stopped: bool)

  /** A contestant's strategy: the always-null LOSER, or a decision oracle. */
  datatype Player = Loser | Live(decide: View -> Run)

  function Decide(p: Player, v: View): (run: Run)
    ensures p.Loser? ==> run == Returned(None)
  {
    match p
    case Loser => Returned(None)
    case Live(f) => f(v)
  }

  /**
   * The move the engine accepts from a run: the returned card when it is in
   * the engine's own hand, and "no move" for null, for a card not in the
   * hand, for an exception and for a timeout.
   */
  function Validate(run: Run, hand: seq<Card>): (m: Option<Card>)
    ensures m.Some? <==> run.Returned? && run.card.Some? && run.card.value in hand
    ensures m.Some? ==> m == run.card
  {
    match run
    case Returned(Some(c)) => if c in hand then Some(c) else None
    case _ => None
  }

  /**
   * The strategy a contestant keeps after a run: it becomes LOSER for good
   * when a timed-out call did not terminate within the overtime allowance,
   * and is kept otherwise.
   */
  function AfterRun(p: Player, run: Run): (q: Player)
    ensures q.Loser? <==> p.Loser? || run == TimedOut(false)
    ensures q.Live? ==> q == p
  {
    if run == TimedOut(false) then Loser else p
  }

  /** The state of a hand between turns. */
  datatype HandState = HandState(hand1: seq<Card>, hand2: seq<Card>, played: seq<Card>,
                                 table: Table, score1: int, score2: int, p1: Player, p2: Player)

  /** The state a hand starts from, given the two dealt hands. */
  function Start(hand1: seq<Card>, hand2: seq<Card>, p1: Player, p2: Player): HandState
  {
    HandState(hand1, hand2, [], Table(0, 0), 0, 0, p1, p2)
  }

  function ViewOf(g: HandState, hand: seq<Card>): View
  {
    View(hand, g.played, g.table.numOnTable, g.table.onTable, g.score1, g.score2)
  }

  /** A turn either ends the hand by forfeit or moves on to the next state. */
  datatype Turn = Forfeit(g: HandState) | Moved(g: HandState)

  /** Player 1 lays card c and goes on as p1: the card leaves hand1 and
      joins the played cards, and the table and score1 move as Lay says. */
  function Play1(g: HandState, c: Card, p1: Player): HandState
  {
    var l := Lay(g.table, c);
    g.(hand1 := RemoveFirst(g.hand1, c), played := g.played + [c], table := l.table,
       score1 := g.score1 + l.points, p1 := p1)
  }

  /** Player 2 lays card c and goes on as p2. */
  function Play2(g: HandState, c: Card, p2: Player): HandState
  {
    var l := Lay(g.table, c);
    g.(hand2 := RemoveFirst(g.hand2, c), played := g.played + [c], table := l.table,
       score2 := g.score2 + l.points, p2 := p2)
  }

  /**
   * Player 1's turn: on "no move" the hand ends 0-1 with the table and the
   * hands untouched; otherwise the card is laid, scored, removed from
   * hand1 and appended to the played cards.
   */
  function Turn1(g: HandState): (r: Turn)
    ensures r.g.hand2 == g.hand2
  {
    var run := Decide(g.p1, ViewOf(g, g.hand1));
    var p1 := AfterRun(g.p1, run);
    match Validate(run, g.hand1)
    case None => Forfeit(g.(p1 := p1, score1 := 0, score2 := 1))
    case Some(c) => Moved(Play1(g, c, p1))
  }

  /** Player 2's turn, symmetric; "no move" ends the hand 1-0. */
  function Turn2(g: HandState): (r: Turn)
    ensures r.Moved? ==> |r.g.hand2| == |g.hand2| - 1
  {
    var run := Decide(g.p2, ViewOf(g, g.hand2));
    var p2 := AfterRun(g.p2, run);
    match Validate(run, g.hand2)
    case None => Forfeit(g.(p2 := p2, score1 := 1, score2 := 0))
    case Some(c) => Moved(Play2(g, c, p2))
  }

  /** Player 1's turn when its strategy gives no card of its hand. */
  lemma Turn1Forfeits(g: HandState)
    requires Validate(Decide(g.p1, ViewOf(g, g.hand1)), g.hand1) == None
    ensures Turn1(g) == Forfeit(g.(p1 := AfterRun(g.p1, Decide(g.p1, ViewOf(g, g.hand1))), score1 := 0, score2 := 1))
  {
  }

  /** Player 2's turn when its strategy gives no card of its hand. */
  lemma Turn2Forfeits(g: HandState)
    requires Validate(Decide(g.p2, ViewOf(g, g.hand2)), g.hand2) == None
    ensures Turn2(g) == Forfeit(g.(p2 := AfterRun(g.p2, Decide(g.p2, ViewOf(g, g.hand2))), score1 := 1, score2 := 0))
  {
  }

  /** Player 1's turn when its strategy gives a card of its hand. */
  lemma Turn1Plays(g: HandState, c: Card)
    requires Validate(Decide(g.p1, ViewOf(g, g.hand1)), g.hand1) == Some(c)
    ensures Turn1(g) == Moved(Play1(g, c, AfterRun(g.p1, Decide(g.p1, ViewOf(g, g.hand1)))))
  {
  }

  /** Player 2's turn when its strategy gives a card of its hand. */
  lemma Turn2Plays(g: HandState, c: Card)
    requires Validate(Decide(g.p2, ViewOf(g, g.hand2)), g.hand2) == Some(c)
    ensures Turn2(g) == Moved(Play2(g, c, AfterRun(g.p2, Decide(g.p2, ViewOf(g, g.hand2)))))
  {
  }

  /** The rest of a hand: rounds of player 1 then player 2 until hand2 is
      empty or someone forfeits. */
  function Finish(g: HandState): HandState
    decreases |g.hand2|, 2
  {
    if g.hand2 == [] then g else Round(g)
  }

  /** One round: player 1's turn, then player 2's reply and the rest of the hand. */
  function Round(g: HandState): HandState
    requires g.hand2 != []
    decreases |g.hand2|, 1
  {
    match Turn1(g)
    case Forfeit(f) => f
    case Moved(g1) => Reply(g1)
  }

  /** Player 2's turn in a round, and the rest of the hand after it. */
  function Reply(g1: HandState): HandState
    requires g1.hand2 != []
    decreases |g1.hand2|, 0
  {
    match Turn2(g1)
    case Forfeit(f) => f
    case Moved(g2) => Finish(g2)
  }

  /** One round of Finish, spelled out. */
  lemma FinishRound(g: HandState)
    requires g.hand2 != []
    ensures Finish(g) == Round(g)
    ensures Turn1(g).Forfeit? ==> Finish(g) == Turn1(g).g
    ensures Turn1(g).Moved? && Turn2(Turn1(g).g).Forfeit? ==> Finish(g) == Turn2(Turn1(g).g).g
    ensures Turn1(g).Moved? && Turn2(Turn1(g).g).Moved? ==> Finish(g) == Finish(Turn2(Turn1(g).g).g)
  {
    if Turn1(g).Moved? {
      assert Round(g) == Reply(Turn1(g).g);
    }
  }

  /** 1 when player 1 outscored player 2, -1 for the converse, 0 for a tie. */
  function Verdict(score1: int, score2: int): (r: int)
    ensures r == 1 <==> score1 > score2
    ensures r == -1 <==> score2 > score1
    ensures r == 0 <==> score1 == score2
  {
    if score1 > score2 then 1 else if score2 > score1 then -1 else 0
  }

  /**
   * Table bookkeeping of a hand in progress: every played card is either
   * paid out or still on the table (s1 + s2 + numOnTable counts them), and
   * onTable is the total of the numOnTable cards laid last.
   */
  ghost predicate TableConsistent(g: HandState)
  {
    Accounted(g.played, g.table, g.score1, g.score2)
  }

  ghost predicate Accounted(played: seq<Card>, table: Table, score1: int, score2: int)
  {
    0 <= score1 && 0 <= score2 && 0 <= table.numOnTable
    && score1 + score2 + table.numOnTable == |played|
    && table.onTable == Total(played[|played| - table.numOnTable..])
  }

  /** A hand between rounds: equal hands, fourteen cards in all, all from
      the deck, and consistent table bookkeeping. */
  ghost predicate InPlay(g: HandState)
  {
    |g.hand1| == |g.hand2| && |g.hand1| + |g.hand2| + |g.played| == 2 * HandSize
    && AllDeckCards(g.hand1) && AllDeckCards(g.hand2) && AllDeckCards(g.played)
    && TableConsistent(g)
  }

  lemma StartInPlay(hand1: seq<Card>, hand2: seq<Card>, p1: Player, p2: Player)
    requires |hand1| == |hand2| == HandSize && AllDeckCards(hand1) && AllDeckCards(hand2)
    ensures InPlay(Start(hand1, hand2, p1, p2))
  {
  }

  function AllCards(g: HandState): multiset<Card>
  {
    multiset(g.hand1) + multiset(g.hand2) + multiset(g.played)
  }

  /**
   * Every total the engine tests during a hand lies in 1..140, where its
   * square list is exact: the rule agrees with true perfect-squareness.
   */
  lemma {:induction false} TestedTotalsAreExact(g: HandState, c: Card)
    requires TableConsistent(g) && AllDeckCards(g.played) && |g.played| < 2 * HandSize
    requires IsDeckCard(c)
    ensures 0 < g.table.onTable + CardValue(c) <= 140
    ensures IsSquare(g.table.onTable + CardValue(c)) <==> PerfectSquare(g.table.onTable + CardValue(c))
  {
    var onTable := g.played[|g.played| - g.table.numOnTable..];
    assert AllDeckCards(onTable) by {
      forall i | 0 <= i < |onTable| ensures IsDeckCard(onTable[i]) {
        assert onTable[i] == g.played[|g.played| - g.table.numOnTable + i];
      }
    }
    TotalBounds(onTable);
    SquareTestIsExact(g.table.onTable + CardValue(c));
  }

  /** Laying a card keeps the bookkeeping of the played cards and the
      table, with the points going to either player. */
  lemma {:induction false} LayKeeps(g: HandState, c: Card)
    requires TableConsistent(g)
    ensures var l := Lay(g.table, c);
            Accounted(g.played + [c], l.table, g.score1 + l.points, g.score2)
            && Accounted(g.played + [c], l.table, g.score1, g.score2 + l.points)
  {
    var p := g.played + [c];
    if !IsSquare(g.table.onTable + CardValue(c)) {
      var n := g.table.numOnTable;
      assert p[|p| - (n + 1)..] == g.played[|g.played| - n..] + [c];
      TotalAppend(g.played[|g.played| - n..], c);
    } else {
      assert p[|p| - 0..] == [];
    }
  }

  /** Moving card c from a hand onto the played cards loses no card and
      keeps every card a deck card. */
  lemma MoveCard(hand: seq<Card>, played: seq<Card>, c: Card)
    requires c in hand && AllDeckCards(hand) && AllDeckCards(played)
    ensures AllDeckCards(RemoveFirst(hand, c)) && AllDeckCards(played + [c])
    ensures multiset(RemoveFirst(hand, c)) + multiset(played + [c]) == multiset(hand) + multiset(played)
  {
    RemoveFirstKeepsDeckCards(hand, c);
    var p := played + [c];
    forall j | 0 <= j < |p| ensures IsDeckCard(p[j]) {
      if j < |played| { assert p[j] == played[j]; }
    }
  }

  /** Player 1 laying a card of its hand keeps every card and the
      bookkeeping, and leaves player 2 one card more to play. */
  lemma Play1Keeps(g: HandState, c: Card, p1: Player)
    requires InPlay(g) && g.hand2 != [] && c in g.hand1
    ensures var g1 := Play1(g, c, p1);
            AllCards(g1) == AllCards(g)
            && |g1.hand1| + 1 == |g1.hand2| && |g1.hand1| + |g1.hand2| + |g1.played| == 2 * HandSize
            && AllDeckCards(g1.hand1) && AllDeckCards(g1.hand2) && AllDeckCards(g1.played)
            && TableConsistent(g1)
  {
    var g1 := Play1(g, c, p1);
    MoveCard(g.hand1, g.played, c);
    LayKeeps(g, c);
    assert AllCards(g1) == AllCards(g);
  }

  /** Player 2 laying a card of its hand keeps every card and brings the
      hand back in play. */
  lemma Play2Keeps(g: HandState, c: Card, p2: Player)
    requires |g.hand1| + 1 == |g.hand2| && |g.hand1| + |g.hand2| + |g.played| == 2 * HandSize
    requires AllDeckCards(g.hand1) && AllDeckCards(g.hand2) && AllDeckCards(g.played)
    requires TableConsistent(g) && c in g.hand2
    ensures AllCards(Play2(g, c, p2)) == AllCards(g) && InPlay(Play2(g, c, p2))
  {
    var g2 := Play2(g, c, p2);
    MoveCard(g.hand2, g.played, c);
    LayKeeps(g, c);
    assert AllCards(g2) == AllCards(g);
  }

  lemma {:induction false} Turn1Keeps(g: HandState)
    requires InPlay(g) && g.hand2 != []
    ensures AllCards(Turn1(g).g) == AllCards(g)
    ensures Turn1(g).Moved? ==> var g1 := Turn1(g).g;
              |g1.hand1| + 1 == |g1.hand2| && |g1.hand1| + |g1.hand2| + |g1.played| == 2 * HandSize
              && AllDeckCards(g1.hand1) && AllDeckCards(g1.hand2) && AllDeckCards(g1.played)
              && TableConsistent(g1)
  {
    var run := Decide(g.p1, ViewOf(g, g.hand1));
    var m := Validate(run, g.hand1);
    if m.Some? {
      Play1Keeps(g, m.value, AfterRun(g.p1, run));
    }
  }

  lemma {:induction false} Turn2Keeps(g: HandState)
    requires |g.hand1| + 1 == |g.hand2| && |g.hand1| + |g.hand2| + |g.played| == 2 * HandSize
    requires AllDeckCards(g.hand1) && AllDeckCards(g.hand2) && AllDeckCards(g.played)
    requires TableConsistent(g)
    ensures AllCards(Turn2(g).g) == AllCards(g)
    ensures Turn2(g).Moved? ==> InPlay(Turn2(g).g)
  {
    var run := Decide(g.p2, ViewOf(g, g.hand2));
    var m := Validate(run, g.hand2);
    if m.Some? {
      Play2Keeps(g, m.value, AfterRun(g.p2, run));
    }
  }

  /**
   * How a hand ends. No card is created, duplicated or lost. Either all
   * fourteen cards were played with the bookkeeping intact, or a player
   * gave no move and the hand ended 0-1 (player 1 failed) or 1-0 (player
   * 2 failed). A LOSER stays LOSER, a live strategy is kept or becomes
   * LOSER, and a hand whose first player is already LOSER ends 0-1. A
   * LOSER second player loses 1-0 unless the first player forfeits before
   * it is asked for a card, in which case the LOSER wins 0-1.
   */
  lemma {:induction false} FinishOutcome(g: HandState)
    requires InPlay(g)
    ensures var f := Finish(g);
            AllCards(f) == AllCards(g)
            && ((f.hand1 == [] && f.hand2 == [] && InPlay(f) && f.score1 + f.score2 + f.table.numOnTable == 2 * HandSize)
                || (f.score1 == 0 && f.score2 == 1) || (f.score1 == 1 && f.score2 == 0))
            && (f.p1 == g.p1 || f.p1 == Loser) && (f.p2 == g.p2 || f.p2 == Loser)
            && (g.p1.Loser? && g.hand2 != [] ==> f.score1 == 0 && f.score2 == 1)
            && (g.p2.Loser? && g.hand2 != [] && Turn1(g).Moved? ==> f.score1 == 1 && f.score2 == 0)
            && (g.p2.Loser? && g.hand2 != [] && Turn1(g).Forfeit? ==> f.score1 == 0 && f.score2 == 1)
    decreases |g.hand2|
  {
    if g.hand2 != [] {
      Turn1Keeps(g);
      match Turn1(g)
      case Forfeit(f) =>
      case Moved(g1) =>
        assert Finish(g) == Reply(g1);
        Turn2Keeps(g1);
        match Turn2(g1)
        case Forfeit(f) =>
        case Moved(g2) =>
          assert Reply(g1) == Finish(g2);
          FinishOutcome(g2);
    }
  }

  /** Two LOSERs meet: the first one is asked first and forfeits, so the
      second one wins the hand 0-1. */
  lemma LosersMeet(hand1: seq<Card>, hand2: seq<Card>)
    requires hand2 != []
    ensures Finish(Start(hand1, hand2, Loser, Loser)).score1 == 0
    ensures Finish(Start(hand1, hand2, Loser, Loser)).score2 == 1
  {
    var g := Start(hand1, hand2, Loser, Loser);
    assert Turn1(g).Forfeit?;
  }
}
