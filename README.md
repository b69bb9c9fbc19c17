# Square-total card tournament, modelled in Dafny

This project models the core of a round-robin tournament for a
two-player card game. The players take turns laying a card on a shared
table. A card that brings the table total to a perfect square pays its
player one point for every card laid since the last score, this one
included, and clears the table. The model covers three parts:

- **The match engine** (`Tournament.java`). It deals two 7-card hands
  from a shuffled 40-card deck and alternates the players until the
  second hand is empty. A move that is not a card of the mover's hand
  (null, a foreign card, an exception, a timeout) ends the hand 0-1 or
  1-0 against the mover. The winner is credited in the contestants'
  counters. Around the engine sit the contestant counters, the games
  between two contestants, the round robin over all pairs and the final
  ranking by wins.
- **The deck** (`Deck.java`): forty cards, one per (value, suit) pair
  over TWO..TEN and ACE. They are held in an array and shuffled in place
  by a Fisher-Yates pass.
- **The alpha-beta strategy `NepalN.NepPlayer`** (`NepalN.java`). It
  searches a game tree of its own: the root tries each card of the hand,
  and below the root the two sides alternately take cards from the list
  of played cards. Its scoring rule is not the engine's:
  - `isPerfectSquare` accepts 0;
  - the running total is never cleared;
  - in `minValue` a square clears the count parameter for every later
    card of the loop, not only for that child;
  - a non-square card there passes the count on without adding one.

  The model keeps all of these as written.

The Dafny modules follow the program:

- `Cards` (cards.dfy): card values, perfect squares, and removal by
  value (`ArrayList.remove(Object)`).
- `Decks` (deck.dfy): class `Deck` over an `array`, and the shuffle proved
  against a pure definition `Shuffled`.
- `Rules` (rules.dfy): the engine's square test and table update, the
  strategy oracle with its validation rule, and `Finish`, a pure
  reference definition of a whole hand.
- `Tournament` (tournament.dfy):
  - class `Contestant`. Its `name` is a `const`: the source sets it in
    the constructor (Tournament.java:24) and no statement assigns it
    again, so no operation can rename a contestant;
  - the imperative hand loop, proved to compute what `Finish` defines;
  - `games`, the round robin and the insertion sort used for the ranking;
  - a ghost log of the round robin's resets and hands, by seat, each
    hand with its shuffle draws and result. The round robin is proved to
    follow a fixed schedule of resets and hands. Replaying the log from
    the starting strategies, every result is the verdict of the hand
    `Finish` defines for the strategies the two seats hold at that point.
    Every contestant's final strategy is the one the replay ends with, and
    its final counters are a fold over the log.
- `NepalN` (nepal.dfy):
  - `MaxVal`/`MinVal`, the plain minimax value of the strategy's own tree;
  - the imperative `MaxValue`/`MinValue`, proved to be fail-soft
    alpha-beta against it, hence exact whenever the minimax value lies
    inside the window;
  - `PlayCard`, proved to pick the first card of largest minimax value.

A strategy is an oracle `View -> Run`. A `Run` says whether the call
returned a card or null, threw, or timed out, and whether a timed-out
call then stopped within the overtime allowance. The random indices of
the shuffle are an input sequence (`draws`), one per swap. The wall
clock of `playCard` becomes a number of passes.

A forfeit overwrites both scores with 0-1 or 1-0, discarding the points
already scored. A strategy downgraded to LOSER does not lose every later
hand. As the first player it loses 0-1. As the second player it loses
1-0, unless the first player forfeits before it is asked; when two
LOSERs meet, the second one wins 0-1. The ranking sort is stated only as
non-increasing in wins, plus a permutation.

## Model

| member | source | states |
|---|---|---|
| Cards.CardValue | Tournament.java:136-138 | a deck card is worth 1..10: ACE exactly 1, every other value its ordinal plus two |
| Cards.TotalBounds | Tournament.java:131-133 | n deck cards total between n and 10n, which bounds every table total |
| Cards.RemoveFirst | Tournament.java:169 | removing a card of the list drops exactly one copy of it (length minus one, multiset minus that card); a card not in the list leaves it unchanged |
| Cards.RemoveFirstCuts | NepalN.java:71-72 | removal by value cuts out the first element equal to the card |
| Decks.CardAt | Deck.java:14-17 | the card the constructor's nested loops put at position k: rank k % 10 for the first nine of each suit, ACE for the tenth, suit k / 10 |
| Decks.FullDeck | Deck.java:11-19 | the deck as constructed, CardAt(k) at each position k < 40 |
| Decks.FullDeckExactlyOnce | Deck.java:11-19 | the constructed deck has 40 deck cards, pairwise distinct, and every (value, suit) pair sits at its own position |
| Decks.FullDeckCards | Deck.java:6-8 | the deck holds length = numValues * numSuits cards, all deck cards |
| Decks.ShuffleUpTo | Deck.java:28-31 | the array after the swap loop has run for i = 1 .. n - 1, each step exchanging position i with the drawn position |
| Decks.Shuffled | Deck.java:27-32 | the whole swap loop over the array, one draw per step |
| Decks.ShuffleUpToPermutes | Deck.java:28-31 | every prefix of the swap loop leaves a permutation of the input |
| Decks.ShuffledIsPermutation | Deck.java:27-32 | the shuffle keeps the length and the multiset of cards |
| Decks.ShuffleUpToKeepsTail | Deck.java:28-31 | before the step at position i, positions i and above still hold their original cards |
| Decks.SwapSelf | Deck.java:30 | swapping a position with itself changes nothing |
| Decks.ShuffleUpToIdentity | Deck.java:29-30 | when every draw equals its own position, each prefix of the loop leaves the array unchanged |
| Decks.ShuffledIdentity | Deck.java:27-32 | when every draw equals its own position, the shuffle is the identity |
| Decks.ShuffleCards | Deck.java:27-32 | the in-place swap loop leaves the array equal to Shuffled of its old contents, a permutation of them |
| Decks.Deck.constructor | Deck.java:11-19 | a new deck's array holds FullDeck(), ranks 0..8 then ACE for each suit in turn |
| Decks.Deck.Copy | Deck.java:21-23 | the copy holds the same cards in the same order, in a fresh array |
| Decks.Deck.Get | Deck.java:25 | returns the card at position i |
| Decks.Deck.Shuffle | Deck.java:34 | shuffles the deck's own array as Shuffled defines |
| Decks.ShuffledCopy | Deck.java:21-23 | shuffling a copy gives the shuffled cards and leaves the original deck unchanged |
| Rules.IsSquare | Tournament.java:131-134 | the engine's square test, true on the eleven listed totals 1, 4, ..., 121 and on nothing else |
| Rules.SquaresOneToEleven | Tournament.java:131-134 | the square of each of 1..11 passes the engine's square test |
| Rules.IsSquareMeaning | Tournament.java:131-134 | isSquare(n) holds exactly for the perfect squares in 1..121, so not for 0 |
| Rules.SquareTestIsExact | Tournament.java:131-134 | on 1..143 the engine's list agrees with true perfect-squareness |
| Rules.TestedTotalsAreExact | Tournament.java:160 | every total the engine tests during a hand lies in 1..140, where its square test is exact |
| Rules.Lay | Tournament.java:160-168 | a square pays the mover numOnTable + 1 and clears both counters; otherwise the count grows by one, the card's value joins the total and nobody scores |
| Rules.ThreeThenOne | Tournament.java:160-168 | worked case: 3 then ACE reaches 4, and the ACE pays 2 points |
| Rules.Decide | Tournament.java:15 | the LOSER strategy always returns null |
| Rules.Validate | Tournament.java:102-107 | a run yields a move exactly when it returned a card that is in the engine's hand, and then that card |
| Rules.AfterRun | Tournament.java:121-124 | the strategy becomes LOSER exactly when it was LOSER already or a timed-out call did not stop in time; otherwise it is kept |
| Rules.Turn1 | Tournament.java:155-170 | player 1's turn never touches hand2 |
| Rules.Turn2 | Tournament.java:171-186 | a move by player 2 takes exactly one card from hand2 |
| Rules.Finish | Tournament.java:154-187 | the rest of a hand from a state between rounds: over once hand2 is empty, otherwise one Round |
| Rules.Round | Tournament.java:155-170 | player 1's turn of a round: "no move" ends the hand, a move goes on to player 2's Reply |
| Rules.Reply | Tournament.java:171-187 | player 2's turn of a round: "no move" ends the hand, a move goes back to Finish for the next round |
| Rules.Verdict | Tournament.java:188-201 | the result is 1, -1 or 0 exactly as score1 is above, below or equal to score2 |
| Rules.StartInPlay | Tournament.java:141-153 | two dealt hands of 7 deck cards with an empty table form a consistent hand |
| Rules.LayKeeps | Tournament.java:160-168 | every played card is either paid out or still counted on the table, and the total is that of the cards on the table |
| Rules.MoveCard | Tournament.java:169-170 | moving a card from a hand to the played cards loses and creates no card |
| Rules.Play1Keeps | Tournament.java:160-170 | player 1's play keeps every card and the bookkeeping, with 14 cards in all |
| Rules.Play2Keeps | Tournament.java:176-186 | player 2's play keeps every card and brings the hand back in play |
| Rules.Turn1Keeps | Tournament.java:155-170 | player 1's turn, move or forfeit, keeps every card |
| Rules.Turn2Keeps | Tournament.java:171-186 | player 2's turn, move or forfeit, keeps every card, and a move leaves the hand in play |
| Rules.FinishOutcome | Tournament.java:154-187 | a hand ends with no card lost, either fully played with all 14 cards accounted for or 0-1 / 1-0 by forfeit; strategies stay or become LOSER; a LOSER first player loses 0-1; a LOSER second player loses 1-0 when the first player moves, and wins 0-1 when the first player forfeits |
| Rules.LosersMeet | Tournament.java:154-159 | when two LOSERs meet, the first forfeits and the second wins the hand 0-1 |
| Tournament.Contestant.constructor | Tournament.java:23-25 | a new contestant has its strategy and name and both counters at 0 |
| Tournament.Contestant.CompareTo | Tournament.java:26 | negative exactly when this contestant has more wins, zero exactly on equal wins |
| Tournament.Contestant.Won | Tournament.java:27 | a won hand adds one to both wins and matchWins |
| Tournament.Contestant.Reset | Tournament.java:28 | clears matchWins only |
| Tournament.TimePlayer | Tournament.java:85-129 | the card is the validated move of the strategy's run on a copy of the state, and the contestant's strategy is updated as AfterRun says |
| Tournament.Dealt | Tournament.java:147-150 | a dealt hand holds the 7 cards at positions parity, parity + 2, ..., parity + 12 |
| Tournament.Deal | Tournament.java:147-150 | the deal loop gives hand1 the even positions 0..12 and hand2 the odd positions 1..13 |
| Tournament.DealInPlay | Tournament.java:141-150 | the deal from a shuffled full deck starts a consistent hand of deck cards |
| Tournament.DealShuffled | Tournament.java:141-150 | a new deck shuffled with draws and dealt gives the hands Dealt defines on Shuffled(FullDeck(), draws) |
| Tournament.LayCard | Tournament.java:160-168 | the engine's table update equals Lay |
| Tournament.PlayRounds | Tournament.java:151-187 | the hand loop leaves the scores and strategies Finish defines from the deal |
| Tournament.Credit | Tournament.java:188-201 | the result is the Verdict of the scores and only the winner's two counters grow, by one |
| Tournament.PlayHand | Tournament.java:140-202 | the result is the Verdict of the hand Finish defines from the shuffled deal, and both strategies are the ones that hand ends with; only the winner is credited |
| Tournament.HandPlayedPlayers | Tournament.java:121-124 | after a hand each contestant's strategy is the one it had or LOSER |
| Tournament.PairOfHandsKeeps | Tournament.java:209-218 | a pair of hands adds to each side's wins, at most two in all, and each strategy is kept or becomes LOSER |
| Tournament.GamesUpToKeeps | Tournament.java:206-219 | after m pairs of hands the wins are non-negative and at most 2m in all, and each strategy is kept or becomes LOSER |
| Tournament.PlayPair | Tournament.java:209-218 | one iteration of the loop plays contestant1 first, then contestant2 first, as Finish defines both hands from the strategies they hold; c1wins and c2wins grow by the verdicts, and so do the winners' wins and matchWins |
| Tournament.Games | Tournament.java:204-224 | c1wins, c2wins and the final strategies are those of numMatches pairs of hands as Finish defines them, each hand's result counted for its winner; the wins credited to each contestant, in wins and in matchWins, are exactly c1wins and c2wins, at most 2 * numMatches in all; each strategy is kept or becomes LOSER |
| Tournament.Row | Tournament.java:230 | the inner loop meets (i, i+1), ..., (i, n-1) in order |
| Tournament.PairsBeforeMembers | Tournament.java:229-230 | the first i rows hold exactly the pairs (a, b) with a < i and a < b < n |
| Tournament.PairsBeforeCount | Tournament.java:229-230 | the first i rows hold i(2n - i - 1)/2 pairs |
| Tournament.PairsBeforeIncreasing | Tournament.java:229-230 | the pairs are met in strictly increasing order |
| Tournament.RoundRobinComplete | Tournament.java:229-239 | every pair i < j meets exactly once, n(n-1)/2 pairings in all |
| Tournament.SwapDown | Tournament.java:240 | exchanges two neighbours, a permutation |
| Tournament.InsertDown | Tournament.java:240 | inserting a[i] into a ranked prefix leaves a[..i+1] ranked, as a permutation, and a[i+1..] as it was |
| Tournament.SortByWins | Tournament.java:240 | the sort leaves the contestants in non-increasing order of wins, as a permutation |
| Tournament.RowGrows | Tournament.java:230 | the inner loop's pairings up to (i, j) extend those before it by (i, j) |
| Tournament.TallyStep | Tournament.java:27-28 | one more event moves a seat's counters as the event says: a won hand adds one to wins and matchWins, a reset of that seat clears matchWins only |
| Tournament.WinsAfterGrows | Tournament.java:27 | a seat's wins never fall and rise by at most one per event |
| Tournament.FixturesCleared | Tournament.java:232 | the two resets that open a pairing follow the schedule |
| Tournament.FixturesPlayed | Tournament.java:234-236 | a pair of hands, i moving first then j moving first, follows the schedule |
| Tournament.ClearReplayed | Tournament.java:232 | a reset changes no strategy and keeps the log honest |
| Tournament.HandReplayed | Tournament.java:235-236 | a hand whose result is the verdict Finish gives for the seats' current strategies keeps the log honest and leaves the two seats with the strategies that hand ends with |
| Tournament.ClearLogged | Tournament.java:232 | a reset clears one seat's matchWins, and the log extended by that reset stays honest, with the counters and strategies of all seats in agreement with it |
| Tournament.PlayLogged | Tournament.java:235-236 | a hand between two seats is the one Finish defines for the strategies the replayed log gives them; the log extended by that hand, its draws and its result stays honest, and every seat's counters and strategy agree with it |
| Tournament.PlayPairing | Tournament.java:232-237 | one pairing resets both seats, then plays numMatches pairs of hands: the log grows by exactly that schedule, stays honest, and the counters and strategies follow it |
| Tournament.PlayRow | Tournament.java:229-238 | row i of the round robin extends the pairings by (i, i+1), ..., (i, n-1), the log by their schedule, and keeps the log honest and the counters and strategies in agreement with it |
| Tournament.PlayRoundRobin | Tournament.java:228-239 | all pairs meet in AllPairs order with numMatches hand pairs each; the log of resets and hands follows that schedule, each result is the verdict of the hand Finish defines for the seats' strategies at that point, every seat's strategy is the one the replay ends with and its counters are its starting counters moved by the log |
| Tournament.RunTournament | Tournament.java:227-243 | pairs meet in the order AllPairs lists, numMatches hand pairs each; the log of every reset and hand follows Schedule(pairings) and is honest, each result being the verdict of the hand Finish defines for the strategies the seats hold then; each contestant's final strategy is the one the replay ends with and its final wins and matchWins are what the log gives from its starting counters; then the array is ranked by wins as a permutation |
| NepalN.ISqrt | NepalN.java:60 | the integer root r of n satisfies r*r <= n < (r+1)*(r+1) |
| NepalN.IsPerfectSquareMeaning | NepalN.java:59-62 | isPerfectSquare(n) holds exactly when n = k*k for a natural k, 0 included |
| NepalN.SquareTestsAgree | NepalN.java:59-62 | the strategy's test and the engine's agree on 1..143 and differ on 0 |
| NepalN.IsPerfectSquare | NepalN.java:59-62 | the strategy's square test: n is non-negative and the square of its integer root |
| NepalN.IsTerminal | NepalN.java:111-113 | a node is terminal exactly when its list of cards is empty |
| NepalN.Utility | NepalN.java:114-116 | the value of a terminal node, score1 - score2 |
| NepalN.MaxVal | NepalN.java:87-109 | the unpruned minimax value with the maximizing side to move: Utility at a terminal node, otherwise the largest value of a child over the cards in loop order |
| NepalN.MinVal | NepalN.java:64-85 | the unpruned minimax value with the minimizing side to move: Utility at a terminal node, otherwise the smallest value of a child, the count carried as minValue's loop carries it |
| NepalN.RemoveFirstIsWithout | NepalN.java:71-72 | the copied list with the card removed is the parent's list without its first equal card, one shorter |
| NepalN.MaxChild | NepalN.java:93-101 | a child of a maximizing node has one card fewer |
| NepalN.ThreadedNumKeeps | NepalN.java:73-77 | until a card of minValue's loop makes a square, the count is the one minValue received |
| NepalN.ThreadedNumResets | NepalN.java:73-77 | once a card of minValue's loop has made a square, the count is 0 for every later card |
| NepalN.MinChild | NepalN.java:70-77 | a child of a minimizing node has one card fewer |
| NepalN.MaxOverBound | NepalN.java:92-108 | no child of a maximizing node is worth more than the node |
| NepalN.MinOverBound | NepalN.java:69-84 | no child of a minimizing node is worth less than the node |
| NepalN.MaxOverReached | NepalN.java:92-108 | a maximizing node is worth as much as one of its children |
| NepalN.MinOverReached | NepalN.java:69-84 | a minimizing node is worth as much as one of its children |
| NepalN.MaxOverIsMaxOf | NepalN.java:92-108 | the value of a maximizing node is the maximum of its child values |
| NepalN.MinOverIsMinOf | NepalN.java:69-84 | the value of a minimizing node is the minimum of its child values |
| NepalN.MaxStep | NepalN.java:102-106 | one iteration of maxValue's loop keeps the fail-soft invariant |
| NepalN.MinStep | NepalN.java:78-82 | one iteration of minValue's loop keeps the fail-soft invariant |
| NepalN.MaxTry | NepalN.java:93-102 | the child search for one card of maxValue's loop is fail-soft against that child's minimax value |
| NepalN.MinTry | NepalN.java:70-78 | the child search for one card of minValue's loop is fail-soft against that child's minimax value, and the count moves on as the loop carries it |
| NepalN.MaxValue | NepalN.java:87-109 | on an empty list the utility score1 - score2; within a 32-bit window, fail-soft alpha-beta against the minimax value, so exact when that value is strictly inside the window |
| NepalN.MinValue | NepalN.java:64-85 | on an empty list the utility score1 - score2; within a 32-bit window, fail-soft alpha-beta against the minimax value, so exact when that value is strictly inside the window |
| NepalN.RootChild | NepalN.java:34-43 | the card tried at the root is appended to the played cards |
| NepalN.ArgMax | NepalN.java:47-50 | the first position holding the largest value |
| NepalN.ChoiceIsFirstBest | NepalN.java:47-50 | the chosen card has the largest value and comes before every other card of that value; there is none exactly when no value beats Integer.MIN_VALUE |
| NepalN.FirstPassStep | NepalN.java:45-52 | in the first pass a card becomes bestCard exactly when its true value beats all earlier ones |
| NepalN.LaterPassStep | NepalN.java:45-52 | in a later pass no card beats the best value, so nothing changes |
| NepalN.PassStep | NepalN.java:33-53 | one card of a pass: alpha stays in the 32-bit range, and bestValue and bestCard follow the best over the cards tried |
| NepalN.TryCard | NepalN.java:34-45 | minValue on the root child is fail-soft against that child's minimax value |
| NepalN.PlayPass | NepalN.java:33-53 | a pass never lowers bestValue (equal to alpha); from the start it leaves the best value and first best card of the hand, and later passes keep them |
| NepalN.ThreadedNumRange | NepalN.java:73-77 | the count minValue's loop carries stays between 0 and the count it received |
| NepalN.ValueBounds | NepalN.java:64-109 | the minimax values of a node differ from its score difference by at most Cap + 1 per card left, since a move pays at most the count plus one |
| NepalN.OverBounds | NepalN.java:64-109 | every child value folded into a node's value stays in the node's band |
| NepalN.GamePositionsAreBounded | NepalN.java:24-45 | on every position a hand of the game can give playCard, each root card's minimax value is below Integer.MAX_VALUE |
| NepalN.GameChoiceExists | NepalN.java:24-52 | on a position a game can reach, a non-empty hand always has a chosen card: the first card already scores above Integer.MIN_VALUE |
| NepalN.PlayCard | NepalN.java:24-57 | the result is null for an empty hand or no pass, otherwise a card of the hand; on every game-sized position (and whenever the root values are below Integer.MAX_VALUE) it is the first card of largest minimax value, and with a non-empty hand and at least one pass it is never null |

## Left out

- All printing, the `toString` of contestants and the hand counter's output.
- The concurrency of `timePlayer`: the executor, `Future.get` with its deadline, `shutdownNow` and `awaitTermination`. A call's outcome is an input `Run` (returned, threw, timed out, stopped in time or not). The rule that turns it into a move and into the LOSER downgrade is modelled.
- The `first` argument of `timePlayer`, used only in a message.
- The wall clock of `playCard`: the number of passes is an input.
- `Math.sqrt` is floating point. `isPerfectSquare` uses the exact integer root, which is what the truncated double root gives on the small totals a hand reaches.
- `java.util.Random`: the shuffle's indices are an input sequence, and the hands of a run take one sequence each.
- RandyP.java and the contestant roster name strategies whose code is not part of this model. LoserP is the `Loser` strategy, which always returns null.
- `Card` is not part of this model. A card is a (rank, suit) pair compared by value, which `indexOf` and `remove` rely on.
- 32-bit wrap-around. No score or total of a hand comes near it. The search's infinities are Integer.MIN_VALUE and Integer.MAX_VALUE as constants.
- Tournament.PlayHand: requires two distinct contestants, as every caller passes.
- Decks.Deck.Get: requires an index inside the array; Java would throw otherwise.
- Tournament.SortByWins: the order among contestants with equal wins is not stated; `Arrays.sort` is modelled as a stable insertion sort through CompareTo.
- A strategy is a deterministic function of what it is shown. A strategy that changes its own state between calls is not modelled.
- NepalN.MaxValue: its guarantee is stated for windows inside the 32-bit range (IntMin <= alpha < beta <= IntMax), the only ones the search creates.
- NepalN.MinValue: its guarantee is stated for windows inside the 32-bit range, the only ones the search creates.
- NepalN.PlayCard: optimality is stated under one of two conditions. Either every root value is below Integer.MAX_VALUE, or the position is game-sized: a non-negative count, count plus played cards at most Cap - 2 (Cap = 1000), and scores within Cap of each other. Every hand of the game meets the second. Other inputs are not covered.
- The bodies of `playHand`, `playCard`, `maxValue` and `minValue` are split into helper methods, one per loop body or per stage: `DealShuffled`, `LayCard`, `PlayRounds` and `Credit` for `playHand`; `PlayPass` and `TryCard` for `playCard`; `MaxTry` for `maxValue` and `MinTry` for `minValue`. The statements keep the source's order.
