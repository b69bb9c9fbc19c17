/**
 * The tournament: contestants and their win counters, the move scheduler
 * reduced to its outcome rule, the match engine's hand loop, the games
 * between two contestants and the round robin with the final ranking.
 */
module Tournament {
  import opened Cards
  import opened Decks
  import opened Rules

  /** Hands played by each side moving first, per pairing. */
  const NumMatches: int := 50

  class Contestant {
    var player: Player
    /** Set once, by the constructor: no statement of the program renames a contestant. */
    const name: string
    var wins: int
    var matchWins: int

    constructor (player: Player, name: string)
      ensures this.player == player && this.name == name && wins == 0 && matchWins == 0
    {
      this.player := player;
      this.name := name;
      wins := 0;
      matchWins := 0;
    }

    /** Ordering for the final ranking: negative when this contestant has
        more wins than the other, so ascending order ranks by wins first. */
    function CompareTo(other: Contestant): (r: int)
      reads this, other
      ensures r < 0 <==> wins > other.wins
      ensures r == 0 <==> wins == other.wins
    {
      other.wins - wins
    }

    /** A hand won counts in both the tournament and the pairing. */
    method Won()
      modifies this`wins, this`matchWins
      ensures wins == old(wins) + 1 && matchWins == old(matchWins) + 1
    {
      wins := wins + 1;
      matchWins := matchWins + 1;
    }

    /** Start of a new pairing: only the pairing counter is cleared. */
    method Reset()
      modifies this`matchWins
      ensures matchWins == 0
    {
      matchWins := 0;
    }
  }

  /**
   * One call of a contestant's strategy under the scheduler. The strategy
   * sees copies of the hand and of the played cards (sequences are values);
   * its run is accepted only when it returned a card of `hand`, and a
   * contestant whose timed-out call did not terminate within the overtime
   * allowance plays as LOSER from then on.
   */
  method TimePlayer(contestant: Contestant, hand: seq<Card>, playedCards: seq<Card>,
                    numOnTable: int, onTable: int, score1: int, score2: int)
    returns (card: Option<Card>)
    modifies contestant`player
    ensures var run := Decide(old(contestant.player), View(hand, playedCards, numOnTable, onTable, score1, score2));
            card == Validate(run, hand) && contestant.player == AfterRun(old(contestant.player), run)
    ensures card.Some? ==> card.value in hand
  {
    var handCopy := hand;
    var playedCopy := playedCards;
    var run := Decide(contestant.player, View(handCopy, playedCopy, numOnTable, onTable, score1, score2));
    match run
    case Returned(c) =>
      if c.Some? && c.value !in hand {
        card := None;
      } else {
        card := c;
      }
    case Threw =>
      card := None;
    case TimedOut(_) =>
      card := None;
    if run == TimedOut(false) {
      contestant.player := Loser;
    }
  }

  /** The hand dealt from positions parity, parity + 2, ..., parity + 12. */
  function Dealt(deck: seq<Card>, parity: int): (h: seq<Card>)
    requires |deck| >= 2 * HandSize && (parity == 0 || parity == 1)
    ensures |h| == HandSize
    ensures forall k :: 0 <= k < HandSize ==> h[k] == deck[2 * k + parity]
  {
    seq(HandSize, k requires 0 <= k < HandSize => deck[2 * k + parity])
  }

  /** The deal comes from the shuffled full deck, so both hands hold deck
      cards and the hand starts in play. */
  lemma DealInPlay(draws: seq<int>, p1: Player, p2: Player)
    requires ValidDraws(draws, Length)
    ensures var deck := Shuffled(FullDeck(), draws);
            |deck| == Length && InPlay(Start(Dealt(deck, 0), Dealt(deck, 1), p1, p2))
  {
    var deck := Shuffled(FullDeck(), draws);
    FullDeckCards();
    ShuffledIsPermutation(FullDeck(), draws);
    PermutationKeepsDeckCards(FullDeck(), deck);
    var h1, h2 := Dealt(deck, 0), Dealt(deck, 1);
    assert AllDeckCards(h1) && AllDeckCards(h2);
    StartInPlay(h1, h2, p1, p2);
  }

  /** The deal: the cards at even positions 0..12 to player 1, those at
      odd positions 1..13 to player 2. */
  method Deal(deck: Deck) returns (hand1: seq<Card>, hand2: seq<Card>)
    requires deck.Valid()
    ensures hand1 == Dealt(deck.cards[..], 0) && hand2 == Dealt(deck.cards[..], 1)
  {
    hand1, hand2 := [], [];
    for i := 0 to HandSize
      invariant |hand1| == i && |hand2| == i
      invariant forall k :: 0 <= k < i ==> hand1[k] == deck.cards[2 * k] && hand2[k] == deck.cards[2 * k + 1]
    {
      var a := deck.Get(2 * i);
      hand1 := hand1 + [a];
      var b := deck.Get(2 * i + 1);
      hand2 := hand2 + [b];
    }
  }

  /** A card is laid on the table: on a square the mover scores a point per
      card laid since the last score, this one included, and the table is
      cleared; otherwise the card joins the table. */
  method LayCard(numOnTable: int, onTable: int, score: int, c: Card)
    returns (newNumOnTable: int, newOnTable: int, newScore: int)
    ensures var l := Lay(Table(numOnTable, onTable), c);
            Table(newNumOnTable, newOnTable) == l.table && newScore == score + l.points
  {
    var v := CardValue(c);
    if IsSquare(onTable + v) {
      newScore := score + numOnTable + 1;
      newNumOnTable := 0;
      newOnTable := 0;
    } else {
      newScore := score;
      newNumOnTable := numOnTable + 1;
      newOnTable := onTable + v;
    }
  }

  /**
   * The rounds of a hand from the deal on: player 1 then player 2 play a
   * card each until hand2 is empty, and a player giving no move ends the
   * hand at once. The scores and strategies it leaves are those Finish
   * defines.
   */
  method PlayRounds(c1: Contestant, c2: Contestant, hand1: seq<Card>, hand2: seq<Card>)
    returns (score1: int, score2: int)
    requires c1 != c2
    modifies c1`player, c2`player
    ensures var f := Finish(Start(hand1, hand2, old(c1.player), old(c2.player)));
            score1 == f.score1 && score2 == f.score2 && c1.player == f.p1 && c2.player == f.p2
  {
    var hand1, hand2 := hand1, hand2;
    var playedCards: seq<Card> := [];
    var numOnTable := 0;
    var onTable := 0;
    score1, score2 := 0, 0;
    ghost var start := Start(hand1, hand2, c1.player, c2.player);
    while hand2 != []
      invariant Finish(HandState(hand1, hand2, playedCards, Table(numOnTable, onTable), score1, score2,
                                 c1.player, c2.player)) == Finish(start)
      decreases |hand2|
    {
      ghost var g := HandState(hand1, hand2, playedCards, Table(numOnTable, onTable), score1, score2,
                               c1.player, c2.player);
      FinishRound(g);
      var card1 := TimePlayer(c1, hand1, playedCards, numOnTable, onTable, score1, score2);
      if card1.None? {
        Turn1Forfeits(g);
        score1 := 0; score2 := 1;
        break;
      }
      Turn1Plays(g, card1.value);
      numOnTable, onTable, score1 := LayCard(numOnTable, onTable, score1, card1.value);
      hand1 := RemoveFirst(hand1, card1.value);
      playedCards := playedCards + [card1.value];
      ghost var g1 := Play1(g, card1.value, c1.player);
      assert g1 == HandState(hand1, hand2, playedCards, Table(numOnTable, onTable), score1, score2,
                             c1.player, c2.player);
      var card2 := TimePlayer(c2, hand2, playedCards, numOnTable, onTable, score1, score2);
      if card2.None? {
        Turn2Forfeits(g1);
        score1 := 1; score2 := 0;
        break;
      }
      Turn2Plays(g1, card2.value);
      numOnTable, onTable, score2 := LayCard(numOnTable, onTable, score2, card2.value);
      hand2 := RemoveFirst(hand2, card2.value);
      playedCards := playedCards + [card2.value];
      ghost var g2 := Play2(g1, card2.value, c2.player);
      assert g2 == HandState(hand1, hand2, playedCards, Table(numOnTable, onTable), score1, score2,
                             c1.player, c2.player);
    }
    assert HandState(hand1, hand2, playedCards, Table(numOnTable, onTable), score1, score2,
                     c1.player, c2.player) == Finish(start);
  }

  /** How a hand between p1 and p2 ends when the deck is shuffled with
      draws: the rounds Finish defines, from the deal of that deck. */
  ghost function HandPlayed(draws: seq<int>, p1: Player, p2: Player): HandState
    requires ValidDraws(draws, Length)
  {
    var deck := Shuffled(FullDeck(), draws);
    ShuffledIsPermutation(FullDeck(), draws);
    Finish(Start(Dealt(deck, 0), Dealt(deck, 1), p1, p2))
  }

  /** A hand leaves each contestant's player as it was, or downgrades it
      to LOSER. */
  lemma HandPlayedPlayers(draws: seq<int>, p1: Player, p2: Player)
    requires ValidDraws(draws, Length)
    ensures var f := HandPlayed(draws, p1, p2);
            (f.p1 == p1 || f.p1 == Loser) && (f.p2 == p2 || f.p2 == Loser)
  {
    DealInPlay(draws, p1, p2);
    var deck := Shuffled(FullDeck(), draws);
    FinishOutcome(Start(Dealt(deck, 0), Dealt(deck, 1), p1, p2));
  }

  /**
   * One hand between c1 (moving first) and c2: deal from a freshly
   * shuffled deck and play the rounds; the winner is credited with a win
   * and the result is 1, -1 or 0.
   */
  method PlayHand(c1: Contestant, c2: Contestant, draws: seq<int>) returns (result: int)
    requires c1 != c2 && ValidDraws(draws, Length)
    modifies c1, c2
    ensures var f := HandPlayed(draws, old(c1.player), old(c2.player));
            result == Verdict(f.score1, f.score2) && c1.player == f.p1 && c2.player == f.p2
    ensures c1.wins == old(c1.wins) + (if result == 1 then 1 else 0)
    ensures c1.matchWins == old(c1.matchWins) + (if result == 1 then 1 else 0)
    ensures c2.wins == old(c2.wins) + (if result == -1 then 1 else 0)
    ensures c2.matchWins == old(c2.matchWins) + (if result == -1 then 1 else 0)
  {
    var hand1, hand2 := DealShuffled(draws);
    var score1, score2 := PlayRounds(c1, c2, hand1, hand2);
    result := Credit(c1, c2, score1, score2);
  }

  /** The start of a hand: a new deck, shuffled with draws, dealt. */
  method DealShuffled(draws: seq<int>) returns (hand1: seq<Card>, hand2: seq<Card>)
    requires ValidDraws(draws, Length)
    ensures |Shuffled(FullDeck(), draws)| == Length
    ensures hand1 == Dealt(Shuffled(FullDeck(), draws), 0) && hand2 == Dealt(Shuffled(FullDeck(), draws), 1)
  {
    var deck := new Deck();
    deck.Shuffle(draws);
    hand1, hand2 := Deal(deck);
  }

  /** The end of a hand: the higher score wins the hand and is credited
      with it; the result is 1, -1 or 0 as the scores compare. */
  method Credit(c1: Contestant, c2: Contestant, score1: int, score2: int) returns (result: int)
    requires c1 != c2
    modifies c1`wins, c1`matchWins, c2`wins, c2`matchWins
    ensures result == Verdict(score1, score2)
    ensures c1.wins == old(c1.wins) + (if result == 1 then 1 else 0)
    ensures c1.matchWins == old(c1.matchWins) + (if result == 1 then 1 else 0)
    ensures c2.wins == old(c2.wins) + (if result == -1 then 1 else 0)
    ensures c2.matchWins == old(c2.matchWins) + (if result == -1 then 1 else 0)
  {
    if score1 > score2 {
      c1.Won();
      result := 1;
    } else if score2 > score1 {
      c2.Won();
      result := -1;
    } else {
      result := 0;
    }
  }

  /** The random source of a run of hands: shuffles(h) drives hand h. */
  ghost predicate ValidShuffles(shuffles: nat -> seq<int>)
  {
    forall h :: ValidDraws(shuffles(h), Length)
  }

  /** The hands each side of a pairing has won, and the strategies both
      sides then play with. */
  datatype Tally = Tally(wins1: int, wins2: int, p1: Player, p2: Player)

  /**
   * One pair of hands between the sides of t: the first side moves first
   * on draws1, then the second side moves first on draws2, each playing
   * with the strategy the hand before left it.
   */
  ghost function PairOfHands(t: Tally, draws1: seq<int>, draws2: seq<int>): Tally
    requires ValidDraws(draws1, Length) && ValidDraws(draws2, Length)
  {
    var f1 := HandPlayed(draws1, t.p1, t.p2);
    var r1 := Verdict(f1.score1, f1.score2);
    var f2 := HandPlayed(draws2, f1.p2, f1.p1);
    var r2 := Verdict(f2.score1, f2.score2);
    Tally(t.wins1 + (if r1 == 1 then 1 else 0) + (if r2 == -1 then 1 else 0),
          t.wins2 + (if r1 == -1 then 1 else 0) + (if r2 == 1 then 1 else 0),
          f2.p2, f2.p1)
  }

  /** The first m pairs of hands between p1 and p2: pair n is dealt from
      shuffles(2n) and shuffles(2n + 1). */
  ghost function GamesUpTo(p1: Player, p2: Player, shuffles: nat -> seq<int>, m: nat): Tally
    requires ValidShuffles(shuffles)
  {
    if m == 0 then Tally(0, 0, p1, p2)
    else PairOfHands(GamesUpTo(p1, p2, shuffles, m - 1), shuffles(2 * m - 2), shuffles(2 * m - 1))
  }

  /** A pair of hands gives out at most two wins, and leaves each side
      with the strategy it had or with LOSER. */
  lemma PairOfHandsKeeps(t: Tally, draws1: seq<int>, draws2: seq<int>)
    requires ValidDraws(draws1, Length) && ValidDraws(draws2, Length)
    ensures var u := PairOfHands(t, draws1, draws2);
            t.wins1 <= u.wins1 && t.wins2 <= u.wins2 && u.wins1 + u.wins2 <= t.wins1 + t.wins2 + 2
            && (u.p1 == t.p1 || u.p1 == Loser) && (u.p2 == t.p2 || u.p2 == Loser)
  {
    HandPlayedPlayers(draws1, t.p1, t.p2);
    var f1 := HandPlayed(draws1, t.p1, t.p2);
    HandPlayedPlayers(draws2, f1.p2, f1.p1);
  }

  /** Over m pairs of hands the two sides win at most 2m hands, and each
      keeps its strategy or ends with LOSER. */
  lemma {:induction false} GamesUpToKeeps(p1: Player, p2: Player, shuffles: nat -> seq<int>, m: nat)
    requires ValidShuffles(shuffles)
    ensures var t := GamesUpTo(p1, p2, shuffles, m);
            0 <= t.wins1 && 0 <= t.wins2 && t.wins1 + t.wins2 <= 2 * m
            && (t.p1 == p1 || t.p1 == Loser) && (t.p2 == p2 || t.p2 == Loser)
  {
    if m > 0 {
      GamesUpToKeeps(p1, p2, shuffles, m - 1);
      PairOfHandsKeeps(GamesUpTo(p1, p2, shuffles, m - 1), shuffles(2 * m - 2), shuffles(2 * m - 1));
    }
  }

  /** Two hands between the contestants, c1 moving first and then c2;
      w1 and w2 count on from w10 and w20 the hands each of them won. */
  method PlayPair(c1: Contestant, c2: Contestant, draws1: seq<int>, draws2: seq<int>, w10: int, w20: int)
    returns (w1: int, w2: int)
    requires c1 != c2 && ValidDraws(draws1, Length) && ValidDraws(draws2, Length)
    modifies c1, c2
    ensures PairOfHands(Tally(w10, w20, old(c1.player), old(c2.player)), draws1, draws2)
              == Tally(w1, w2, c1.player, c2.player)
    ensures w1 - w10 == c1.wins - old(c1.wins) == c1.matchWins - old(c1.matchWins)
    ensures w2 - w20 == c2.wins - old(c2.wins) == c2.matchWins - old(c2.matchWins)
  {
    w1, w2 := w10, w20;
    var win1 := PlayHand(c1, c2, draws1);
    if win1 == 1 {
      w1 := w1 + 1;
    } else if win1 == -1 {
      w2 := w2 + 1;
    }
    var win2 := PlayHand(c2, c1, draws2);
    if win2 == 1 {
      w2 := w2 + 1;
    } else if win2 == -1 {
      w1 := w1 + 1;
    }
  }

  /**
   * numMatches pairs of hands between two contestants, each moving first
   * once per pair; c1wins and c2wins are the hands each of them won in the
   * hands GamesUpTo defines, which are exactly the wins credited to them
   * meanwhile and to their match tallies. Names are kept, and a player is
   * kept or downgraded to LOSER as those hands say.
   */
  method Games(contestant1: Contestant, contestant2: Contestant, shuffles: nat -> seq<int>)
    returns (c1wins: int, c2wins: int)
    requires contestant1 != contestant2 && ValidShuffles(shuffles)
    modifies contestant1, contestant2
    ensures GamesUpTo(old(contestant1.player), old(contestant2.player), shuffles, NumMatches)
              == Tally(c1wins, c2wins, contestant1.player, contestant2.player)
    ensures c1wins == contestant1.wins - old(contestant1.wins)
    ensures c2wins == contestant2.wins - old(contestant2.wins)
    ensures c1wins == contestant1.matchWins - old(contestant1.matchWins)
    ensures c2wins == contestant2.matchWins - old(contestant2.matchWins)
    ensures 0 <= c1wins && 0 <= c2wins && c1wins + c2wins <= 2 * NumMatches
    ensures contestant1.player == old(contestant1.player) || contestant1.player == Loser
    ensures contestant2.player == old(contestant2.player) || contestant2.player == Loser
  {
    c1wins, c2wins := 0, 0;
    for n := 0 to NumMatches
      invariant GamesUpTo(old(contestant1.player), old(contestant2.player), shuffles, n)
                  == Tally(c1wins, c2wins, contestant1.player, contestant2.player)
      invariant c1wins == contestant1.wins - old(contestant1.wins)
      invariant c2wins == contestant2.wins - old(contestant2.wins)
      invariant c1wins == contestant1.matchWins - old(contestant1.matchWins)
      invariant c2wins == contestant2.matchWins - old(contestant2.matchWins)
    {
      assert ValidDraws(shuffles(2 * n), Length) && ValidDraws(shuffles(2 * n + 1), Length);
      c1wins, c2wins := PlayPair(contestant1, contestant2, shuffles(2 * n), shuffles(2 * n + 1), c1wins, c2wins);
    }
    GamesUpToKeeps(old(contestant1.player), old(contestant2.player), shuffles, NumMatches);
  }

  /** The pairings (i, j) with j = i+1, ..., n-1, in order. */
  function Row(i: int, n: int): (r: seq<(int, int)>)
    requires 0 <= i < n
    ensures |r| == n - i - 1
    ensures forall k :: 0 <= k < |r| ==> r[k] == (i, i + 1 + k)
  {
    seq(n - i - 1, k requires 0 <= k < n - i - 1 => (i, i + 1 + k))
  }

  /** Row i up to pairing (i, j) extends row i up to the pairing before it. */
  lemma RowGrows(i: int, j: int, n: int)
    requires 0 <= i < j < n
    ensures Row(i, n)[..j - i] == Row(i, n)[..j - i - 1] + [(i, j)]
  {
  }

  /** The pairings of the rows 0..i-1, in the order the round robin plays them. */
  function PairsBefore(i: int, n: int): seq<(int, int)>
    requires 0 <= i <= n
    decreases i
  {
    if i == 0 then [] else PairsBefore(i - 1, n) + Row(i - 1, n)
  }

  function AllPairs(n: nat): seq<(int, int)>
  {
    PairsBefore(n, n)
  }

  lemma {:induction false} PairsBeforeMembers(i: int, n: int)
    requires 0 <= i <= n
    ensures forall p: (int, int) :: p in PairsBefore(i, n) <==> 0 <= p.0 < i && p.0 < p.1 < n
    decreases i
  {
    if i > 0 {
      PairsBeforeMembers(i - 1, n);
      var r := Row(i - 1, n);
      forall p: (int, int) | 0 <= p.0 < i && p.0 < p.1 < n ensures p in PairsBefore(i, n) {
        if p.0 == i - 1 {
          assert r[p.1 - i] == p;
        }
      }
    }
  }

  lemma {:induction false} PairsBeforeCount(i: int, n: int)
    requires 0 <= i <= n
    ensures 2 * |PairsBefore(i, n)| == i * (2 * n - i - 1)
    decreases i
  {
    if i > 0 {
      PairsBeforeCount(i - 1, n);
      assert 2 * |PairsBefore(i, n)| == (i - 1) * (2 * n - i) + 2 * (n - i);
      assert (i - 1) * (2 * n - i) == i * (2 * n - i) - (2 * n - i);
      assert i * (2 * n - i - 1) == i * (2 * n - i) - i;
    }
  }

  /** Pairings come in strictly increasing (row, column) order. */
  predicate PairLess(p: (int, int), q: (int, int))
  {
    p.0 < q.0 || (p.0 == q.0 && p.1 < q.1)
  }

  lemma {:induction false} PairsBeforeIncreasing(i: int, n: int)
    requires 0 <= i <= n
    ensures forall a, b :: 0 <= a < b < |PairsBefore(i, n)| ==> PairLess(PairsBefore(i, n)[a], PairsBefore(i, n)[b])
    decreases i
  {
    if i > 0 {
      PairsBeforeIncreasing(i - 1, n);
      PairsBeforeMembers(i - 1, n);
      var prev := PairsBefore(i - 1, n);
      var all := PairsBefore(i, n);
      forall a, b | 0 <= a < b < |all| ensures PairLess(all[a], all[b]) {
        if b < |prev| {
          assert all[a] == prev[a] && all[b] == prev[b];
        } else if a < |prev| {
          assert all[a] == prev[a] && all[a] in prev;
        }
      }
    }
  }

  /**
   * The round robin meets every pair i < j of n contestants exactly once:
   * n(n-1)/2 pairings, each listed once.
   */
  lemma RoundRobinComplete(n: nat)
    ensures forall p: (int, int) :: p in AllPairs(n) <==> 0 <= p.0 < p.1 < n
    ensures forall a, b :: 0 <= a < b < |AllPairs(n)| ==> AllPairs(n)[a] != AllPairs(n)[b]
    ensures |AllPairs(n)| == n * (n - 1) / 2
  {
    PairsBeforeMembers(n, n);
    PairsBeforeIncreasing(n, n);
    PairsBeforeCount(n, n);
  }

  ghost predicate RankedByWins(a: seq<Contestant>)
    reads set i | 0 <= i < |a| :: a[i]
  {
    forall i, j :: 0 <= i < j < |a| ==> a[i].wins >= a[j].wins
  }

  /** Exchanges a[j - 1] and a[j]. */
  method SwapDown(a: array<Contestant>, j: int)
    requires 0 < j < a.Length
    modifies a
    ensures a[..] == old(a[..])[j - 1 := old(a[j])][j := old(a[j - 1])]
    ensures multiset(a[..]) == multiset(old(a[..]))
  {
    a[j - 1], a[j] := a[j], a[j - 1];
  }

  /** Moves a[i] down past the contestants of a[..i] with fewer wins,
      so that a[..i + 1] is ranked when a[..i] was. */
  method InsertDown(a: array<Contestant>, i: int)
    requires 0 <= i < a.Length
    requires forall p, q :: 0 <= p < q < i ==> a[p].wins >= a[q].wins
    modifies a
    ensures forall p, q :: 0 <= p < q <= i ==> a[p].wins >= a[q].wins
    ensures multiset(a[..]) == multiset(old(a[..]))
    ensures a[i + 1..] == old(a[i + 1..])
  {
    var j := i;
    while j > 0 && a[j - 1].CompareTo(a[j]) > 0
      invariant 0 <= j <= i
      invariant forall p, q :: 0 <= p < q <= i && q != j ==> a[p].wins >= a[q].wins
      invariant 0 < j < i ==> a[j - 1].wins >= a[j + 1].wins
      invariant multiset(a[..]) == multiset(old(a[..]))
      invariant a[i + 1..] == old(a[i + 1..])
    {
      SwapDown(a, j);
      j := j - 1;
    }
  }

  /**
   * The final ranking: a stable insertion sort by CompareTo, leaving the
   * contestants in non-increasing order of wins.
   */
  method SortByWins(a: array<Contestant>)
    modifies a
    ensures RankedByWins(a[..])
    ensures multiset(a[..]) == multiset(old(a[..]))
  {
    for i := 0 to a.Length
      invariant forall p, q :: 0 <= p < q < i ==> a[p].wins >= a[q].wins
      invariant multiset(a[..]) == multiset(old(a[..]))
    {
      InsertDown(a, i);
    }
  }

  /** What the tournament does to the contestants, by index: a pairing
      counter cleared, or a hand between two seats, dealt from a deck
      shuffled with draws, with its result. */
  datatype Event = Cleared(who: int) | Played(first: int, second: int, draws: seq<int>, result: int)

  /** An event with its outcome forgotten: what the schedule fixes. */
  datatype Fixture = Clear(who: int) | Meet(first: int, second: int)

  function FixtureOf(e: Event): Fixture
  {
    match e
    case Cleared(x) => Clear(x)
    case Played(a, b, _, _) => Meet(a, b)
  }

  function Fixtures(log: seq<Event>): seq<Fixture>
  {
    if log == [] then [] else Fixtures(log[..|log| - 1]) + [FixtureOf(log[|log| - 1])]
  }

  /** m pairs of hands between i and j, each moving first once per pair. */
  function Rounds(i: int, j: int, m: nat): (r: seq<Fixture>)
    ensures |r| == 2 * m
  {
    if m == 0 then [] else Rounds(i, j, m - 1) + [Meet(i, j), Meet(j, i)]
  }

  /** One pairing: both counters cleared, then numMatches pairs of hands. */
  function Pairing(i: int, j: int): seq<Fixture>
  {
    [Clear(i), Clear(j)] + Rounds(i, j, NumMatches)
  }

  /** The pairings ps met in order. */
  function Schedule(ps: seq<(int, int)>): (r: seq<Fixture>)
    ensures |r| == (2 + 2 * NumMatches) * |ps|
  {
    if ps == [] then [] else Schedule(ps[..|ps| - 1]) + Pairing(ps[|ps| - 1].0, ps[|ps| - 1].1)
  }

  /** Seat x won the hand e. */
  predicate WonBy(e: Event, x: int)
  {
    e.Played? && ((e.first == x && e.result == 1) || (e.second == x && e.result == -1))
  }

  /** The tournament wins of seat x after log, starting from w0. */
  function WinsAfter(log: seq<Event>, x: int, w0: int): int
  {
    if log == [] then w0
    else WinsAfter(log[..|log| - 1], x, w0) + (if WonBy(log[|log| - 1], x) then 1 else 0)
  }

  /** The pairing wins of seat x after log, starting from m0: cleared by
      its resets, raised by the hands it wins. */
  function MatchWinsAfter(log: seq<Event>, x: int, m0: int): int
  {
    if log == [] then m0
    else if log[|log| - 1] == Cleared(x) then 0
    else MatchWinsAfter(log[..|log| - 1], x, m0) + (if WonBy(log[|log| - 1], x) then 1 else 0)
  }

  /** The last event of log is a hand between two different seats of ps,
      dealt from valid draws. */
  predicate LastIsHand(log: seq<Event>, ps: seq<Player>)
  {
    log != [] && var e := log[|log| - 1];
    e.Played? && 0 <= e.first < |ps| && 0 <= e.second < |ps| && e.first != e.second
    && ValidDraws(e.draws, Length)
  }

  /**
   * Replays log from the strategies ps: a reset changes no strategy, and a
   * hand must be between two different seats, dealt from valid draws, with
   * the result of the hand Finish defines for the strategies the seats then
   * held; it leaves both seats with the strategies that hand ends with.
   * None when some hand of log was not played that way.
   */
  ghost function Replay(log: seq<Event>, ps: seq<Player>): (r: Option<seq<Player>>)
    ensures r.Some? ==> |r.value| == |ps|
    decreases |log|, 2
  {
    if log == [] then Some(ps)
    else if Replay(log[..|log| - 1], ps).None? then None
    else if log[|log| - 1].Cleared? then Replay(log[..|log| - 1], ps)
    else if LastIsHand(log, ps) && log[|log| - 1].result == LastVerdict(log, ps) then Some(NextSeats(log, ps))
    else None
  }

  /** The verdict of the last hand of log. */
  ghost function LastVerdict(log: seq<Event>, ps: seq<Player>): int
    requires LastIsHand(log, ps) && Replay(log[..|log| - 1], ps).Some?
    decreases |log|, 1
  {
    Verdict(LastHand(log, ps).score1, LastHand(log, ps).score2)
  }

  /** The strategies of the seats after the last hand of log: its two
      seats take the strategies the hand ends with. */
  ghost function NextSeats(log: seq<Event>, ps: seq<Player>): seq<Player>
    requires LastIsHand(log, ps) && Replay(log[..|log| - 1], ps).Some?
    decreases |log|, 1
  {
    var e := log[|log| - 1];
    Replay(log[..|log| - 1], ps).value[e.first := LastHand(log, ps).p1][e.second := LastHand(log, ps).p2]
  }

  /** The last hand of log as Finish defines it, played by the strategies
      its two seats held before it. */
  ghost function LastHand(log: seq<Event>, ps: seq<Player>): HandState
    requires LastIsHand(log, ps) && Replay(log[..|log| - 1], ps).Some?
    decreases |log|, 0
  {
    var e := log[|log| - 1];
    var qs := Replay(log[..|log| - 1], ps).value;
    HandPlayed(e.draws, qs[e.first], qs[e.second])
  }

  /** Every hand of log was really played, as Replay checks. */
  ghost predicate Honest(log: seq<Event>, ps: seq<Player>)
  {
    Replay(log, ps).Some?
  }

  /** The strategies of the seats after an honest log. */
  ghost function SeatsAfter(log: seq<Event>, ps: seq<Player>): (qs: seq<Player>)
    requires Honest(log, ps)
    ensures |qs| == |ps|
  {
    Replay(log, ps).value
  }

  /** A reset keeps a log honest and changes no strategy. */
  lemma ClearReplayed(log: seq<Event>, ps: seq<Player>, a: int)
    ensures Replay(log + [Cleared(a)], ps) == Replay(log, ps)
  {
    assert (log + [Cleared(a)])[..|log|] == log;
  }

  /** A hand played as Finish defines it, by the strategies its seats hold
      after an honest log, keeps the log honest and leaves both seats with
      the strategies the hand ends with. */
  lemma HandReplayed(log: seq<Event>, ps: seq<Player>, a: int, b: int, draws: seq<int>, result: int)
    requires Honest(log, ps) && 0 <= a < |ps| && 0 <= b < |ps| && a != b && ValidDraws(draws, Length)
    requires var qs := SeatsAfter(log, ps);
             var f := HandPlayed(draws, qs[a], qs[b]);
             result == Verdict(f.score1, f.score2)
    ensures var qs := SeatsAfter(log, ps);
            var f := HandPlayed(draws, qs[a], qs[b]);
            Replay(log + [Played(a, b, draws, result)], ps) == Some(qs[a := f.p1][b := f.p2])
  {
    var log' := log + [Played(a, b, draws, result)];
    assert log'[..|log|] == log;
    var qs := SeatsAfter(log, ps);
    assert LastHand(log', ps) == HandPlayed(draws, qs[a], qs[b]);
    assert LastVerdict(log', ps) == result;
    assert NextSeats(log', ps) == qs[a := LastHand(log', ps).p1][b := LastHand(log', ps).p2];
  }

  /** One more event: wins and pairing wins move as that event says. */
  lemma TallyStep(log: seq<Event>, e: Event, x: int, w0: int, m0: int)
    ensures (log + [e])[..|log|] == log
    ensures WinsAfter(log + [e], x, w0) == WinsAfter(log, x, w0) + (if WonBy(e, x) then 1 else 0)
    ensures MatchWinsAfter(log + [e], x, m0) ==
              if e == Cleared(x) then 0 else MatchWinsAfter(log, x, m0) + (if WonBy(e, x) then 1 else 0)
  {
    assert (log + [e])[..|log|] == log;
  }

  /** The clears that open a pairing follow the schedule. */
  lemma FixturesCleared(log: seq<Event>, i: int, j: int)
    ensures Fixtures(log + [Cleared(i)] + [Cleared(j)]) == Fixtures(log) + [Clear(i), Clear(j)] + Rounds(i, j, 0)
  {
    assert (log + [Cleared(i)] + [Cleared(j)])[..|log| + 1] == log + [Cleared(i)];
    assert (log + [Cleared(i)])[..|log|] == log;
  }

  /** A pair of hands, i first then j first, follows the schedule. */
  lemma FixturesPlayed(log: seq<Event>, opening: seq<Fixture>, i: int, j: int, m: nat, e1: Event, e2: Event)
    requires Fixtures(log) == opening + Rounds(i, j, m)
    requires FixtureOf(e1) == Meet(i, j) && FixtureOf(e2) == Meet(j, i)
    ensures Fixtures(log + [e1] + [e2]) == opening + Rounds(i, j, m + 1)
  {
    assert (log + [e1] + [e2])[..|log| + 1] == log + [e1];
    assert (log + [e1])[..|log|] == log;
  }

  /** A seat's wins never fall, and grow by at most one per event. */
  lemma {:induction false} WinsAfterGrows(log: seq<Event>, x: int, w0: int)
    ensures w0 <= WinsAfter(log, x, w0) <= w0 + |log|
  {
    if log != [] {
      WinsAfterGrows(log[..|log| - 1], x, w0);
    }
  }

  /** The contestant in seat x has the counters log makes of w0 and m0,
      and the strategy qs gives that seat. */
  ghost predicate SeatAgrees(c: Contestant, x: int, log: seq<Event>, w0: int, m0: int, qs: seq<Player>)
    reads c
  {
    c.wins == WinsAfter(log, x, w0) && c.matchWins == MatchWinsAfter(log, x, m0)
    && 0 <= x < |qs| && c.player == qs[x]
  }

  /** The first n seats of cs agree with log. */
  ghost predicate SeatsAgree(cs: seq<Contestant>, log: seq<Event>, ws: seq<int>, ms: seq<int>, qs: seq<Player>, n: int)
    requires n <= |cs| && |ws| == |cs| && |ms| == |cs|
    reads cs
    decreases n
  {
    n <= 0 || (SeatsAgree(cs, log, ws, ms, qs, n - 1) && SeatAgrees(cs[n - 1], n - 1, log, ws[n - 1], ms[n - 1], qs))
  }

  lemma {:induction false} SeatsAgreeAll(cs: seq<Contestant>, log: seq<Event>, ws: seq<int>, ms: seq<int>,
                                         qs: seq<Player>, n: int)
    requires 0 <= n <= |cs| && |ws| == |cs| && |ms| == |cs|
    ensures SeatsAgree(cs, log, ws, ms, qs, n) <==>
              forall x :: 0 <= x < n ==> SeatAgrees(cs[x], x, log, ws[x], ms[x], qs)
    decreases n
  {
    if n > 0 {
      SeatsAgreeAll(cs, log, ws, ms, qs, n - 1);
    }
  }

  /** log is honest from the strategies ps, and the counters and
      strategies of the seats cs are what it makes of ws, ms and ps. */
  ghost predicate Tallied(cs: seq<Contestant>, log: seq<Event>, ws: seq<int>, ms: seq<int>, ps: seq<Player>)
    requires |ws| == |cs| && |ms| == |cs| && |ps| == |cs|
    reads cs
  {
    Honest(log, ps) && SeatsAgree(cs, log, ws, ms, SeatsAfter(log, ps), |cs|)
  }

  /** The counters of the seats cs, as they stand. */
  ghost function WinsOf(cs: seq<Contestant>): (ws: seq<int>)
    reads cs
    ensures |ws| == |cs| && forall x :: 0 <= x < |cs| ==> ws[x] == cs[x].wins
  {
    if cs == [] then [] else WinsOf(cs[..|cs| - 1]) + [cs[|cs| - 1].wins]
  }

  ghost function PlayersOf(cs: seq<Contestant>): (ps: seq<Player>)
    reads cs
    ensures |ps| == |cs| && forall x :: 0 <= x < |cs| ==> ps[x] == cs[x].player
  {
    if cs == [] then [] else PlayersOf(cs[..|cs| - 1]) + [cs[|cs| - 1].player]
  }

  ghost function MatchWinsOf(cs: seq<Contestant>): (ms: seq<int>)
    reads cs
    ensures |ms| == |cs| && forall x :: 0 <= x < |cs| ==> ms[x] == cs[x].matchWins
  {
    if cs == [] then [] else MatchWinsOf(cs[..|cs| - 1]) + [cs[|cs| - 1].matchWins]
  }

  /** Seat a clears its pairing counter; the log records it. */
  method ClearLogged(contestants: array<Contestant>, a: int, ghost log0: seq<Event>,
                     ghost ws: seq<int>, ghost ms: seq<int>, ghost ps: seq<Player>) returns (ghost log: seq<Event>)
    requires 0 <= a < contestants.Length
    requires forall p, q :: 0 <= p < q < contestants.Length ==> contestants[p] != contestants[q]
    requires |ws| == contestants.Length && |ms| == contestants.Length && |ps| == contestants.Length
    requires Tallied(contestants[..], log0, ws, ms, ps)
    modifies contestants[a]
    ensures log == log0 + [Cleared(a)]
    ensures Tallied(contestants[..], log, ws, ms, ps)
  {
    ghost var qs := SeatsAfter(log0, ps);
    SeatsAgreeAll(contestants[..], log0, ws, ms, qs, contestants.Length);
    label before:
    contestants[a].Reset();
    log := log0 + [Cleared(a)];
    ClearReplayed(log0, ps, a);
    forall x | 0 <= x < contestants.Length
      ensures SeatAgrees(contestants[x], x, log, ws[x], ms[x], qs)
    {
      TallyStep(log0, Cleared(a), x, ws[x], ms[x]);
      assert old@before(SeatAgrees(contestants[x], x, log0, ws[x], ms[x], qs));
    }
    SeatsAgreeAll(contestants[..], log, ws, ms, qs, contestants.Length);
  }

  /** Seats a and b play a hand, a moving first; the log records it. */
  method PlayLogged(contestants: array<Contestant>, a: int, b: int, draws: seq<int>,
                    ghost log0: seq<Event>, ghost ws: seq<int>, ghost ms: seq<int>, ghost ps: seq<Player>)
    returns (result: int, ghost log: seq<Event>)
    requires 0 <= a < contestants.Length && 0 <= b < contestants.Length && a != b
    requires forall p, q :: 0 <= p < q < contestants.Length ==> contestants[p] != contestants[q]
    requires ValidDraws(draws, Length)
    requires |ws| == contestants.Length && |ms| == contestants.Length && |ps| == contestants.Length
    requires Tallied(contestants[..], log0, ws, ms, ps)
    modifies contestants[a], contestants[b]
    ensures log == log0 + [Played(a, b, draws, result)]
    ensures Tallied(contestants[..], log, ws, ms, ps)
  {
    ghost var qs := SeatsAfter(log0, ps);
    SeatsAgreeAll(contestants[..], log0, ws, ms, qs, contestants.Length);
    ghost var f := HandPlayed(draws, qs[a], qs[b]);
    label before:
    result := PlayHand(contestants[a], contestants[b], draws);
    log := log0 + [Played(a, b, draws, result)];
    HandReplayed(log0, ps, a, b, draws, result);
    ghost var qs' := qs[a := f.p1][b := f.p2];
    forall x | 0 <= x < contestants.Length
      ensures SeatAgrees(contestants[x], x, log, ws[x], ms[x], qs')
    {
      TallyStep(log0, Played(a, b, draws, result), x, ws[x], ms[x]);
      assert old@before(SeatAgrees(contestants[x], x, log0, ws[x], ms[x], qs));
    }
    SeatsAgreeAll(contestants[..], log, ws, ms, qs', contestants.Length);
  }

  /** The pairing of seats i and j: both counters cleared, then numMatches
      pairs of hands, k0 counting the hand pairs played before. */
  method PlayPairing(contestants: array<Contestant>, i: int, j: int, shuffles: nat -> seq<int>, k0: nat,
                     ghost log0: seq<Event>, ghost ws: seq<int>, ghost ms: seq<int>, ghost ps: seq<Player>)
    returns (k: nat, ghost log: seq<Event>)
    requires 0 <= i < j < contestants.Length
    requires forall p, q :: 0 <= p < q < contestants.Length ==> contestants[p] != contestants[q]
    requires ValidShuffles(shuffles)
    requires |ws| == contestants.Length && |ms| == contestants.Length && |ps| == contestants.Length
    requires Tallied(contestants[..], log0, ws, ms, ps)
    modifies contestants[i], contestants[j]
    ensures k == k0 + NumMatches
    ensures Fixtures(log) == Fixtures(log0) + Pairing(i, j)
    ensures Tallied(contestants[..], log, ws, ms, ps)
  {
    ghost var opening := Fixtures(log0) + [Clear(i), Clear(j)];
    log := ClearLogged(contestants, i, log0, ws, ms, ps);
    log := ClearLogged(contestants, j, log, ws, ms, ps);
    FixturesCleared(log0, i, j);
    k := k0;
    for m := 0 to NumMatches
      invariant k == k0 + m
      invariant Fixtures(log) == opening + Rounds(i, j, m)
      invariant Tallied(contestants[..], log, ws, ms, ps)
    {
      k := k + 1;
      ghost var log1 := log;
      var r1, r2;
      r1, log := PlayLogged(contestants, i, j, shuffles(2 * k - 2), log, ws, ms, ps);
      r2, log := PlayLogged(contestants, j, i, shuffles(2 * k - 1), log, ws, ms, ps);
      FixturesPlayed(log1, opening, i, j, m, Played(i, j, shuffles(2 * k - 2), r1), Played(j, i, shuffles(2 * k - 1), r2));
    }
  }

  /** Row i of the round robin: seat i meets each later seat in turn. */
  method PlayRow(contestants: array<Contestant>, i: int, shuffles: nat -> seq<int>,
                 pairings0: seq<(int, int)>, k0: nat,
                 ghost log0: seq<Event>, ghost ws: seq<int>, ghost ms: seq<int>, ghost ps: seq<Player>)
    returns (pairings: seq<(int, int)>, k: nat, ghost log: seq<Event>)
    requires 0 <= i < contestants.Length
    requires forall p, q :: 0 <= p < q < contestants.Length ==> contestants[p] != contestants[q]
    requires ValidShuffles(shuffles)
    requires |ws| == contestants.Length && |ms| == contestants.Length && |ps| == contestants.Length
    requires pairings0 == PairsBefore(i, contestants.Length) && k0 == NumMatches * |pairings0|
    requires Fixtures(log0) == Schedule(pairings0) && Tallied(contestants[..], log0, ws, ms, ps)
    modifies contestants[..]
    ensures pairings == PairsBefore(i + 1, contestants.Length) && k == NumMatches * |pairings|
    ensures Fixtures(log) == Schedule(pairings) && Tallied(contestants[..], log, ws, ms, ps)
  {
    var n := contestants.Length;
    pairings, k, log := pairings0, k0, log0;
    for j := i + 1 to n
      invariant pairings == PairsBefore(i, n) + Row(i, n)[..j - i - 1]
      invariant k == NumMatches * |pairings|
      invariant Fixtures(log) == Schedule(pairings)
      invariant Tallied(contestants[..], log, ws, ms, ps)
    {
      ghost var before := pairings;
      pairings := pairings + [(i, j)];
      RowGrows(i, j, n);
      assert pairings[..|pairings| - 1] == before;
      k, log := PlayPairing(contestants, i, j, shuffles, k, log, ws, ms, ps);
    }
    assert Row(i, n)[..n - i - 1] == Row(i, n);
  }

  /** Every row of the round robin in order, the seats staying in place. */
  method PlayRoundRobin(contestants: array<Contestant>, shuffles: nat -> seq<int>)
    returns (pairings: seq<(int, int)>, k: nat, ghost log: seq<Event>)
    requires forall p, q :: 0 <= p < q < contestants.Length ==> contestants[p] != contestants[q]
    requires ValidShuffles(shuffles)
    modifies contestants[..]
    ensures pairings == AllPairs(contestants.Length) && k == NumMatches * |pairings|
    ensures Fixtures(log) == Schedule(pairings)
    ensures Tallied(contestants[..], log, old(WinsOf(contestants[..])), old(MatchWinsOf(contestants[..])),
                    old(PlayersOf(contestants[..])))
  {
    var n := contestants.Length;
    ghost var ws := WinsOf(contestants[..]);
    ghost var ms := MatchWinsOf(contestants[..]);
    ghost var ps := PlayersOf(contestants[..]);
    pairings, k, log := [], 0, [];
    assert SeatsAfter(log, ps) == ps;
    SeatsAgreeAll(contestants[..], log, ws, ms, ps, n);
    for i := 0 to n
      invariant pairings == PairsBefore(i, n) && k == NumMatches * |pairings|
      invariant Fixtures(log) == Schedule(pairings) && Tallied(contestants[..], log, ws, ms, ps)
    {
      pairings, k, log := PlayRow(contestants, i, shuffles, pairings, k, log, ws, ms, ps);
    }
  }

  /**
   * The tournament: every pair i < j meets once, in order, with both
   * pairing counters reset first and numMatches pairs of hands played;
   * then the contestants are ranked by wins. `pairings` lists the pairs in
   * the order they met and k counts the hand pairs played. The ghost `log`
   * records every reset and hand by seat: it follows the schedule of the
   * pairings, each of its hands is the hand Finish defines for the
   * strategies the seats then held, and each contestant's final counters
   * and strategy are what it says.
   */
  method RunTournament(contestants: array<Contestant>, shuffles: nat -> seq<int>)
    returns (pairings: seq<(int, int)>, k: nat, ghost log: seq<Event>)
    requires forall i, j :: 0 <= i < j < contestants.Length ==> contestants[i] != contestants[j]
    requires ValidShuffles(shuffles)
    modifies contestants, contestants[..]
    ensures pairings == AllPairs(contestants.Length)
    ensures k == NumMatches * |pairings|
    ensures Fixtures(log) == Schedule(pairings)
    ensures Honest(log, old(PlayersOf(contestants[..])))
    ensures forall x :: 0 <= x < contestants.Length ==>
              old(contestants[x]).wins == WinsAfter(log, x, old(contestants[x].wins)) &&
              old(contestants[x]).matchWins == MatchWinsAfter(log, x, old(contestants[x].matchWins)) &&
              old(contestants[x]).player == SeatsAfter(log, old(PlayersOf(contestants[..])))[x]
    ensures RankedByWins(contestants[..])
    ensures multiset(contestants[..]) == multiset(old(contestants[..]))
  {
    pairings, k, log := PlayRoundRobin(contestants, shuffles);
    ghost var seats := contestants[..];
    ghost var ps := old(PlayersOf(contestants[..]));
    assert Tallied(seats, log, old(WinsOf(contestants[..])), old(MatchWinsOf(contestants[..])), ps);
    SeatsAgreeAll(seats, log, old(WinsOf(contestants[..])), old(MatchWinsOf(contestants[..])), SeatsAfter(log, ps),
                  |seats|);
    SortByWins(contestants);
  }
}
