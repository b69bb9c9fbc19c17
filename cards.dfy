/**
 * Cards and the small arithmetic shared by the match engine and the
 * search strategy: the value of a card, the perfect-square predicate the
 * scoring rule is about, and list removal by value equality.
 */
module Cards {

  /** The "no move" sentinel (Java's null card) is None. */
  datatype Option<+T> = None | Some(value: T)

  /**
   * A card compared by value: `rank` is the ordinal of the card's value in
   * the enum TWO, THREE, ..., KING, ACE and `suit` the ordinal of its suit.
   */
  datatype Card = Card(rank: int, suit: int)

  /** Ordinal of ACE; the deck holds ranks 0..8 (TWO..TEN) and this one. */
  const AceRank: int := 12

  /** The ranks a deck holds: TWO..TEN and ACE. */
  predicate IsDeckRank(rank: int) {
    0 <= rank < 9 || rank == AceRank
  }

  predicate IsDeckCard(c: Card) {
    IsDeckRank(c.rank) && 0 <= c.suit < 4
  }

  predicate AllDeckCards(s: seq<Card>) {
    forall i :: 0 <= i < |s| ==> IsDeckCard(s[i])
  }

  /**
   * Points a card adds to the table total: ACE counts 1, every other value
   * its ordinal plus two (TWO counts 2, ..., TEN counts 10).
   */
  function CardValue(c: Card): (v: int)
    ensures IsDeckCard(c) ==> 1 <= v <= 10
    ensures IsDeckCard(c) ==> (v == 1 <==> c.rank == AceRank)
    ensures IsDeckCard(c) && c.rank != AceRank ==> v == c.rank + 2
  {
    if c.rank == AceRank then 1 else c.rank + 2
  }

  /** Sum of the values of a run of cards. */
  function Total(s: seq<Card>): int
  {
    if s == [] then 0 else Total(s[..|s| - 1]) + CardValue(s[|s| - 1])
  }

  lemma {:induction false} TotalBounds(s: seq<Card>)
    requires AllDeckCards(s)
    ensures |s| <= Total(s) <= 10 * |s|
  {
    if s != [] {
      TotalBounds(s[..|s| - 1]);
    }
  }

  lemma TotalAppend(s: seq<Card>, c: Card)
    ensures Total(s + [c]) == Total(s) + CardValue(c)
  {
    assert (s + [c])[..|s|] == s;
  }

  lemma PermutationKeepsDeckCards(s: seq<Card>, t: seq<Card>)
    requires multiset(s) == multiset(t) && AllDeckCards(s)
    ensures AllDeckCards(t)
  {
    forall i | 0 <= i < |t| ensures IsDeckCard(t[i]) {
      assert t[i] in multiset(s);
    }
  }

  /** k * k, built up as the sum of the first k odd numbers. */
  function Sq(k: nat): nat
  {
    if k == 0 then 0 else Sq(k - 1) + 2 * k - 1
  }

  lemma {:induction false} SqIsProduct(k: nat)
    ensures Sq(k) == k * k
  {
    if k > 0 {
      SqIsProduct(k - 1);
    }
  }

  /** n is the square of some natural number (0 included). */
  ghost predicate PerfectSquare(n: int) {
    exists k: nat :: Sq(k) == n
  }

  lemma {:induction false} SqMonotone(a: nat, b: nat)
    requires a <= b
    ensures Sq(a) <= Sq(b)
    decreases b
  {
    if a < b {
      SqMonotone(a, b - 1);
    }
  }

  /**
   * ArrayList.remove(Object): drops the first element equal to c, and
   * leaves the list as it is when there is none.
   */
  function RemoveFirst(s: seq<Card>, c: Card): (r: seq<Card>)
    ensures c in s ==> |r| == |s| - 1 && multiset(r) == multiset(s) - multiset{c}
    ensures c !in s ==> r == s
  {
    if s == [] then []
    else if s[0] == c then
      assert s == [s[0]] + s[1..];
      s[1..]
    else
      assert s == [s[0]] + s[1..];
      [s[0]] + RemoveFirst(s[1..], c)
  }

  /** Index of the first element equal to c. */
  function FirstIndex(s: seq<Card>, c: Card): (i: int)
    requires c in s
    ensures 0 <= i < |s| && s[i] == c
  {
    if s[0] == c then 0 else 1 + FirstIndex(s[1..], c)
  }

  /** Removing by value cuts out the first equal element. */
  lemma {:induction false} RemoveFirstCuts(s: seq<Card>, c: Card)
    requires c in s
    ensures RemoveFirst(s, c) == s[..FirstIndex(s, c)] + s[FirstIndex(s, c) + 1..]
  {
    if s[0] != c {
      RemoveFirstCuts(s[1..], c);
      var i := FirstIndex(s[1..], c);
      assert s[1..][..i] == s[1..i + 1];
      assert s[1..][i + 1..] == s[i + 2..];
      assert s[..i + 1] == [s[0]] + s[1..i + 1];
    }
  }

  lemma RemoveFirstKeepsDeckCards(s: seq<Card>, c: Card)
    requires AllDeckCards(s)
    ensures AllDeckCards(RemoveFirst(s, c))
  {
    var r := RemoveFirst(s, c);
    forall i | 0 <= i < |r| ensures IsDeckCard(r[i]) {
      assert r[i] in multiset(r);
      assert r[i] in multiset(s);
    }
  }

  function Max(a: int, b: int): int { if a >= b then a else b }

  function Min(a: int, b: int): int { if a <= b then a else b }
}
