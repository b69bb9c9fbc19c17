/**
 * The deck: forty cards, one per (value, suit) pair over the ten values
 * TWO..TEN and ACE and the four suits, held in an array and shuffled in
 * place by a Fisher-Yates pass. The random indices are an input: draws[k]
 * is the index drawn when the pass is at position k + 1.
 */
module Decks {
  import opened Cards

  const NumValues: int := 10
  const NumSuits: int := 4
  const Length: int := NumValues * NumSuits

  /** The card the constructor writes at position k: suit k / 10, and
      ranks 0..8 then ACE within each block of ten. */
  function CardAt(k: int): Card
  {
    Card(if k % 10 < 9 then k % 10 else AceRank, k / 10)
  }

  /** The freshly constructed deck, in construction order. */
  function FullDeck(): seq<Card>
  {
    seq(Length, k => CardAt(k))
  }

  /** Position of a deck card in FullDeck(). */
  function PositionOf(c: Card): int
  {
    10 * c.suit + (if c.rank == AceRank then 9 else c.rank)
  }

  lemma FullDeckCards()
    ensures |FullDeck()| == Length && AllDeckCards(FullDeck())
  {
  }

  /** FullDeck() holds forty deck cards, each (rank, suit) pair exactly once. */
  lemma FullDeckExactlyOnce()
    ensures |FullDeck()| == 40
    ensures AllDeckCards(FullDeck())
    ensures forall i, j :: 0 <= i < j < |FullDeck()| ==> FullDeck()[i] != FullDeck()[j]
    ensures forall c :: IsDeckCard(c) ==> 0 <= PositionOf(c) < 40 && FullDeck()[PositionOf(c)] == c
  {
    var d := FullDeck();
    forall c | IsDeckCard(c) ensures 0 <= PositionOf(c) < 40 && d[PositionOf(c)] == c {
      var p := PositionOf(c);
      assert p / 10 == c.suit && p % 10 == (if c.rank == AceRank then 9 else c.rank);
    }
  }

  /**
   * The random source: one index per position of the pass, each within the
   * bound nextInt(i + 1) gives, for an array of n cards.
   */
  predicate ValidDraws(draws: seq<int>, n: int)
  {
    |draws| + 1 >= n && forall k :: 0 <= k < |draws| ==> 0 <= draws[k] <= k + 1
  }

  function Swap(s: seq<Card>, r: int, i: int): (t: seq<Card>)
    requires 0 <= r < |s| && 0 <= i < |s|
    ensures |t| == |s|
  {
    s[r := s[i]][i := s[r]]
  }

  /**
   * The array after the shuffle loop ran with loop variable 1, ..., i - 1:
   * the step at position p swaps positions draws[p - 1] and p.
   */
  function ShuffleUpTo(s: seq<Card>, draws: seq<int>, i: int): (t: seq<Card>)
    requires ValidDraws(draws, |s|) && 0 <= i && (i <= 1 || i <= |s|)
    ensures |t| == |s|
    decreases i
  {
    if i <= 1 then s else Swap(ShuffleUpTo(s, draws, i - 1), draws[i - 2], i - 1)
  }

  function Shuffled(s: seq<Card>, draws: seq<int>): seq<Card>
    requires ValidDraws(draws, |s|)
  {
    ShuffleUpTo(s, draws, |s|)
  }

  lemma {:induction false} ShuffleUpToPermutes(s: seq<Card>, draws: seq<int>, i: int)
    requires ValidDraws(draws, |s|) && 0 <= i && (i <= 1 || i <= |s|)
    ensures multiset(ShuffleUpTo(s, draws, i)) == multiset(s)
    decreases i
  {
    if i > 1 {
      ShuffleUpToPermutes(s, draws, i - 1);
    }
  }

  /** The shuffle only rearranges: same length, same multiset of cards. */
  lemma ShuffledIsPermutation(s: seq<Card>, draws: seq<int>)
    requires ValidDraws(draws, |s|)
    ensures |Shuffled(s, draws)| == |s|
    ensures multiset(Shuffled(s, draws)) == multiset(s)
  {
    ShuffleUpToPermutes(s, draws, |s|);
  }

  /** Before the step at position i, positions i and above still hold their
      original cards. */
  lemma {:induction false} ShuffleUpToKeepsTail(s: seq<Card>, draws: seq<int>, i: int)
    requires ValidDraws(draws, |s|) && 0 <= i && (i <= 1 || i <= |s|)
    ensures forall k :: i <= k < |s| ==> ShuffleUpTo(s, draws, i)[k] == s[k]
    decreases i
  {
    if i > 1 {
      ShuffleUpToKeepsTail(s, draws, i - 1);
    }
  }

  lemma SwapSelf(s: seq<Card>, r: int)
    requires 0 <= r < |s|
    ensures Swap(s, r, r) == s
  {
  }

  /** A step whose draw equals its own position swaps a card with itself,
      so drawing r == i at every step leaves the deck as it was. */
  lemma {:induction false} ShuffleUpToIdentity(s: seq<Card>, draws: seq<int>, i: int)
    requires ValidDraws(draws, |s|) && 0 <= i && (i <= 1 || i <= |s|)
    requires forall k :: 0 <= k < |draws| ==> draws[k] == k + 1
    ensures ShuffleUpTo(s, draws, i) == s
    decreases i
  {
    if i > 1 {
      ShuffleUpToIdentity(s, draws, i - 1);
      var r := draws[i - 2];
      assert r == i - 1;
      SwapSelf(s, r);
    }
  }

  lemma ShuffledIdentity(s: seq<Card>, draws: seq<int>)
    requires ValidDraws(draws, |s|)
    requires forall k :: 0 <= k < |draws| ==> draws[k] == k + 1
    ensures Shuffled(s, draws) == s
  {
    ShuffleUpToIdentity(s, draws, |s|);
  }

  /** Deck.shuffle(Card[]): one pass of swaps from position 1 upward. */
  method ShuffleCards(cards: array<Card>, draws: seq<int>)
    requires ValidDraws(draws, cards.Length)
    modifies cards
    ensures cards[..] == Shuffled(old(cards[..]), draws)
    ensures multiset(cards[..]) == multiset(old(cards[..]))
  {
    ghost var s := cards[..];
    var i := 1;
    while i < cards.Length
      invariant 1 <= i && (i <= cards.Length || i == 1)
      invariant cards[..] == ShuffleUpTo(s, draws, i)
    {
      var r := draws[i - 1];
      ghost var before := cards[..];
      var t := cards[r]; cards[r] := cards[i]; cards[i] := t;
      assert cards[..] == before[r := before[i]][i := before[r]];
      i := i + 1;
    }
    ShuffledIsPermutation(s, draws);
  }

  class Deck {
    var cards: array<Card>

    ghost predicate Valid()
      reads this
    {
      cards.Length == Length
    }

    /** A new deck: the forty cards of FullDeck(), in that order. */
    constructor ()
      ensures Valid() && fresh(cards)
      ensures cards[..] == FullDeck()
    {
      var a := new Card[Length];
      var k := 0;
      var j := 0;
      while j < NumSuits
        invariant 0 <= j <= NumSuits && k == 10 * j
        invariant forall m :: 0 <= m < k ==> a[m] == CardAt(m)
      {
        var i := 0;
        while i < 9
          invariant 0 <= i <= 9 && k == 10 * j + i
          invariant forall m :: 0 <= m < k ==> a[m] == CardAt(m)
        {
          a[k] := Card(i, j);
          k := k + 1;
          i := i + 1;
        }
        a[k] := Card(AceRank, j);
        k := k + 1;
        j := j + 1;
      }
      cards := a;
    }

    /** The copy constructor: the same cards in the same order, in an
        array of its own. */
    constructor Copy(deck: Deck)
      ensures fresh(cards)
      ensures cards[..] == deck.cards[..]
      ensures deck.Valid() ==> Valid()
    {
      var src := deck.cards;
      cards := new Card[src.Length](k reads src requires 0 <= k < src.Length => src[k]);
    }

    method Get(i: int) returns (c: Card)
      requires 0 <= i < cards.Length
      ensures c == cards[i]
    {
      c := cards[i];
    }

    /** Deck.shuffle(): shuffles this deck's own array. */
    method Shuffle(draws: seq<int>)
      requires Valid() && ValidDraws(draws, Length)
      modifies cards
      ensures Valid()
      ensures cards[..] == Shuffled(old(cards[..]), draws)
    {
      ShuffleCards(cards, draws);
    }
  }

  /** Shuffling a copy leaves the original deck as it was. */
  method ShuffledCopy(deck: Deck, draws: seq<int>) returns (copy: Deck)
    requires deck.Valid() && ValidDraws(draws, Length)
    ensures fresh(copy) && fresh(copy.cards) && copy.Valid()
    ensures copy.cards[..] == Shuffled(deck.cards[..], draws)
    ensures deck.cards[..] == old(deck.cards[..])
  {
    copy := new Deck.Copy(deck);
    copy.Shuffle(draws);
  }
}
