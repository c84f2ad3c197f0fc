/** The card model of `lib/poker/deck.ts`: the 52-card deck in rank-major,
    suit-minor order, the Fisher–Yates shuffle and the two display helpers. */
module Deck {
  import opened Wrappers
  import opened Seqs
  import opened Random

  /** Ranks from low to high; `T` is the ten. */
  const RANKS: string := "23456789TJQKA"
  /** Spades, hearts, diamonds, clubs. */
  const SUITS: string := "shdc"

  type RankIdx = r: nat | r < 13
  type SuitIdx = s: nat | s < 4

  /** A card, as positions in `RANKS` and `SUITS`; its code is the
      two-character string `Code(c)`, e.g. "As". Every value is one of the 52
      cards. */
  datatype Card = Card(rank: RankIdx, suit: SuitIdx)

  /** Two hole cards in the order the generator produced them. */
  type Hand = (Card, Card)

  const ACE: RankIdx := 12

  function Code(c: Card): string {
    [RANKS[c.rank], SUITS[c.suit]]
  }

  /** Cards and their codes are interchangeable: the source keeps card codes
      in its exclusion sets, the model keeps cards. */
  lemma CodeInjective(a: Card, b: Card)
    requires Code(a) == Code(b)
    ensures a == b
  {
    assert RANKS[a.rank] == Code(a)[0] == Code(b)[0] == RANKS[b.rank];
    assert SUITS[a.suit] == Code(a)[1] == Code(b)[1] == SUITS[b.suit];
  }

  /** The position of a rank character, e.g. for the kicker lists. */
  function RankOf(ch: char): (r: RankIdx)
    requires ch in RANKS
    ensures RANKS[r] == ch
  {
    match ch
    case '2' => 0 case '3' => 1 case '4' => 2 case '5' => 3 case '6' => 4
    case '7' => 5 case '8' => 6 case '9' => 7 case 'T' => 8 case 'J' => 9
    case 'Q' => 10 case 'K' => 11 case _ => 12
  }

  /** Place of a card in the unshuffled full deck. */
  function Ordinal(c: Card): (n: nat)
    ensures n < 52
  {
    4 * c.rank + c.suit
  }

  /** One iteration of the outer loop of `createDeck`: the cards of `rank`
      whose suit is `SUITS[k]` or later, skipping excluded cards. */
  function SuitsFrom(rank: RankIdx, k: nat, exclude: seq<Card>): (row: seq<Card>)
    requires k <= 4
    ensures forall c :: c in row <==> c.rank == rank && k <= c.suit && c !in exclude
    ensures forall i :: 0 <= i < |row| ==> row[i].rank == rank && k <= row[i].suit
    ensures forall i, j :: 0 <= i < j < |row| ==> row[i].suit < row[j].suit
    ensures exclude == [] ==> |row| == 4 - k
    decreases 4 - k
  {
    if k == 4 then []
    else
      var card := Card(rank, k);
      (if card in exclude then [] else [card]) + SuitsFrom(rank, k + 1, exclude)
  }

  /** The outer loop of `createDeck` from rank `RANKS[k]` on. */
  function RanksFrom(k: nat, exclude: seq<Card>): (deck: seq<Card>)
    requires k <= 13
    ensures forall c :: c in deck <==> k <= c.rank && c !in exclude
    ensures forall i :: 0 <= i < |deck| ==> 4 * k <= Ordinal(deck[i])
    ensures forall i, j :: 0 <= i < j < |deck| ==> Ordinal(deck[i]) < Ordinal(deck[j])
    ensures exclude == [] ==> |deck| == 4 * (13 - k)
    decreases 13 - k
  {
    if k == 13 then []
    else
      var row := SuitsFrom(k, 0, exclude);
      var rest := RanksFrom(k + 1, exclude);
      RowThenRest(k, exclude, row, rest);
      row + rest
  }

  lemma RowThenRest(k: nat, exclude: seq<Card>, row: seq<Card>, rest: seq<Card>)
    requires k < 13
    requires forall c :: c in row <==> c.rank == k && c !in exclude
    requires forall i :: 0 <= i < |row| ==> row[i].rank == k
    requires forall i, j :: 0 <= i < j < |row| ==> row[i].suit < row[j].suit
    requires forall c :: c in rest <==> k + 1 <= c.rank && c !in exclude
    requires forall i :: 0 <= i < |rest| ==> 4 * (k + 1) <= Ordinal(rest[i])
    requires forall i, j :: 0 <= i < j < |rest| ==> Ordinal(rest[i]) < Ordinal(rest[j])
    ensures forall c :: c in row + rest <==> k <= c.rank && c !in exclude
    ensures forall i :: 0 <= i < |row + rest| ==> 4 * k <= Ordinal((row + rest)[i])
    ensures forall i, j :: 0 <= i < j < |row + rest| ==>
              Ordinal((row + rest)[i]) < Ordinal((row + rest)[j])
  {
    var deck := row + rest;
    forall i | 0 <= i < |row| ensures deck[i] == row[i] && Ordinal(row[i]) < 4 * (k + 1) {
    }
    forall i | |row| <= i < |deck| ensures deck[i] == rest[i - |row|] {
    }
  }

  /** `createDeck(excludeCards)`: every card not in `exclude`, in rank-major,
      suit-minor order (strictly increasing `Ordinal`). */
  function CreateDeck(exclude: seq<Card>): (deck: seq<Card>)
    ensures forall c :: c in deck <==> c !in exclude
    ensures forall i, j :: 0 <= i < j < |deck| ==> Ordinal(deck[i]) < Ordinal(deck[j])
  {
    RanksFrom(0, exclude)
  }

  /** No card is dealt twice: with the membership clause of `CreateDeck`,
      every non-excluded card occurs exactly once. */
  lemma CreateDeckDistinct(exclude: seq<Card>)
    ensures Distinct(CreateDeck(exclude))
  {
  }

  /** `createDeck()` has the full 52 cards, and its `i`-th card is rank
      `i / 4`, suit `i % 4`. */
  lemma FullDeck()
    ensures |CreateDeck([])| == 52
    ensures forall i :: 0 <= i < 52 ==> CreateDeck([])[i] == Card(i / 4, i % 4)
  {
    NothingExcluded([]);
  }

  lemma NothingExcluded(exclude: seq<Card>)
    requires exclude == []
    ensures |CreateDeck(exclude)| == 52
    ensures forall i :: 0 <= i < 52 ==> CreateDeck(exclude)[i] == Card(i / 4, i % 4)
  {
    var d := CreateDeck(exclude);
    assert |d| == 52;
    SortedFullDeck(d);
  }

  /** 52 cards in strictly increasing `Ordinal` are the full deck in order. */
  lemma SortedFullDeck(d: seq<Card>)
    requires |d| == 52
    requires forall a, b :: 0 <= a < b < |d| ==> Ordinal(d[a]) < Ordinal(d[b])
    ensures forall i :: 0 <= i < 52 ==> d[i] == Card(i / 4, i % 4)
  {
    forall i | 0 <= i < 52 ensures d[i] == Card(i / 4, i % 4) {
      AtLeastIndex(d, i);
      AtMostIndex(d, i);
      CardOfOrdinal(d[i], i);
    }
  }

  lemma {:induction false} AtLeastIndex(d: seq<Card>, k: nat)
    requires forall a, b :: 0 <= a < b < |d| ==> Ordinal(d[a]) < Ordinal(d[b])
    requires k < |d|
    ensures Ordinal(d[k]) >= k
  {
    if k > 0 {
      AtLeastIndex(d, k - 1);
    }
  }

  lemma {:induction false} AtMostIndex(d: seq<Card>, k: nat)
    requires |d| == 52
    requires forall a, b :: 0 <= a < b < |d| ==> Ordinal(d[a]) < Ordinal(d[b])
    requires k < |d|
    ensures Ordinal(d[k]) <= k
    decreases 52 - k
  {
    if k < 51 {
      AtMostIndex(d, k + 1);
    }
  }

  lemma CardOfOrdinal(c: Card, k: nat)
    requires Ordinal(c) == k
    ensures c == Card(k / 4, k % 4)
  {
  }

  function Swap<T>(s: seq<T>, i: nat, j: nat): (r: seq<T>)
    requires i < |s| && j < |s|
    ensures |r| == |s|
    ensures multiset(r) == multiset(s)
  {
    s[i := s[j]][j := s[i]]
  }

  /** The loop of `shuffleDeck` from index `i` down to 1; `rand(next)` is the
      draw for index `i`, which swaps position `i` with `floor(u * (i + 1))`. */
  function ShuffleFrom<T>(s: seq<T>, i: nat, rand: nat -> Draw, next: nat): (r: seq<T>)
    requires i < |s|
    ensures |r| == |s|
    ensures multiset(r) == multiset(s)
    decreases i
  {
    if i == 0 then s
    else
      var j := Scale(rand(next), i + 1);
      ShuffleFrom(Swap(s, i, j), i - 1, rand, next + 1)
  }

  /** `shuffleDeck(deck)`: Fisher–Yates on a copy of the input. The result is
      a permutation of `deck` whatever the draws are. */
  function ShuffleDeck<T>(deck: seq<T>, rand: nat -> Draw): (r: seq<T>)
    ensures |r| == |deck|
    ensures multiset(r) == multiset(deck)
  {
    if |deck| <= 1 then deck else ShuffleFrom(deck, |deck| - 1, rand, 0)
  }

  /** `card[k]` in JavaScript: `undefined` past the end. */
  function CharAt(s: string, k: nat): Option<char> {
    if k < |s| then Some(s[k]) else None
  }

  /** Template-literal rendering of a rank looked up in `rankMap`. */
  function RankText(rank: Option<char>): string {
    match rank
    case None => "undefined"
    case Some(r) => if r == 'T' then "10" else [r]
  }

  /** Template-literal rendering of a suit looked up in `suitMap`. */
  function SuitText(suit: Option<char>): string {
    match suit
    case None => "undefined"
    case Some(s) =>
      if s == 's' then "\U{2660}"
      else if s == 'h' then "\U{2665}"
      else if s == 'd' then "\U{2666}"
      else if s == 'c' then "\U{2663}"
      else [s]
  }

  /** `cardToDisplay(card)`: e.g. "Ts" becomes "10♠". */
  function CardToDisplay(card: string): string {
    RankText(CharAt(card, 0)) + SuitText(CharAt(card, 1))
  }

  /** `isRedSuit(card)`. */
  predicate IsRedSuit(card: string) {
    CharAt(card, 1) == Some('h') || CharAt(card, 1) == Some('d')
  }

  /** The suit symbols in `SUITS` order: spade, heart, diamond, club. */
  const SUIT_SYMBOLS: string := "\U{2660}\U{2665}\U{2666}\U{2663}"

  /** The display of a card: the ten becomes "10", every other rank is its
      own character, and the suit becomes its symbol. */
  lemma DisplayOfCard(c: Card)
    ensures CardToDisplay(Code(c))
         == (if c.rank == 8 then "10" else [RANKS[c.rank]]) + [SUIT_SYMBOLS[c.suit]]
  {
  }

  /** Different cards are displayed differently. */
  lemma DisplayInjective(c: Card, d: Card)
    requires CardToDisplay(Code(c)) == CardToDisplay(Code(d))
    ensures c == d
  {
    DisplayOfCard(c);
    DisplayOfCard(d);
    var x, y := CardToDisplay(Code(c)), CardToDisplay(Code(d));
    assert SUIT_SYMBOLS[c.suit] == x[|x| - 1] == y[|y| - 1] == SUIT_SYMBOLS[d.suit];
    assert x[0] == y[0];
  }

  /** A card is red exactly when its suit is hearts or diamonds, which are
      the suits displayed with the heart and diamond symbols. */
  lemma RedIffRedSymbol(c: Card)
    ensures IsRedSuit(Code(c)) <==> SUITS[c.suit] in "hd"
    ensures IsRedSuit(Code(c)) <==> SUIT_SYMBOLS[c.suit] in "\U{2665}\U{2666}"
  {
  }

  /** Characters outside the maps pass through unchanged, and a missing
      character renders as the text "undefined", as the template literal does. */
  lemma DisplayPassThrough(card: string)
    requires |card| == 2
    requires card[0] != 'T' && card[1] !in SUITS
    ensures CardToDisplay(card) == card
  {
  }
}
