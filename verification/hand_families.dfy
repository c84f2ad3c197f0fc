/** The hand generator of `lib/poker/hand-families.ts`: eight named families
    of two-card hands, weighted sampling of a family, and the search for four
    hands that share no card. Card codes are modelled by `Deck.Card`; an
    exclusion set of codes is a `set<Card>`. */
module HandFamilies {
  import opened Wrappers
  import opened Seqs
  import opened Strings
  import opened Random
  import opened Deck

  datatype Family =
    | AllAx | K4sK6o | Q6sQ8o | J8sJ10o | Connectors | SuitedOneGappers
    | PocketPairs | RandomHands

  /** The key of a family in a weight table. */
  function FamilyName(f: Family): string {
    match f
    case AllAx => "all_ax"
    case K4sK6o => "k4s_k6o"
    case Q6sQ8o => "q6s_q8o"
    case J8sJ10o => "j8s_j10o"
    case Connectors => "connectors"
    case SuitedOneGappers => "suited_one_gappers"
    case PocketPairs => "pocket_pairs"
    case RandomHands => "random"
  }

  /** The family a weight-table key names, if any. A key outside the eight
      names selects none of the `if (family === …)` blocks. */
  function ParseFamily(name: string): (r: Option<Family>)
    ensures r.Some? ==> FamilyName(r.value) == name
  {
    if name == "all_ax" then Some(AllAx)
    else if name == "k4s_k6o" then Some(K4sK6o)
    else if name == "q6s_q8o" then Some(Q6sQ8o)
    else if name == "j8s_j10o" then Some(J8sJ10o)
    else if name == "connectors" then Some(Connectors)
    else if name == "suited_one_gappers" then Some(SuitedOneGappers)
    else if name == "pocket_pairs" then Some(PocketPairs)
    else if name == "random" then Some(RandomHands)
    else None
  }

  /** Every family is found again from its name. */
  lemma ParseFamilyName(f: Family)
    ensures ParseFamily(FamilyName(f)) == Some(f)
  {
  }

  /** A weight table: `Object.entries` of a `Record<string, number>`, keys
      distinct, in insertion order. */
  type Weights = seq<(string, real)>

  /** `DEFAULT_HAND_FAMILY_WEIGHTS`. */
  const DEFAULT_WEIGHTS: Weights := [
    ("all_ax", 15.0), ("k4s_k6o", 12.0), ("q6s_q8o", 12.0), ("j8s_j10o", 10.0),
    ("connectors", 15.0), ("suited_one_gappers", 12.0), ("pocket_pairs", 18.0),
    ("random", 6.0)]

  const KING: RankIdx := 11
  const QUEEN: RankIdx := 10
  const JACK: RankIdx := 9

  /** The suits and ranks in the order the source iterates them. */
  const SUIT_IDS: seq<SuitIdx> := [0, 1, 2, 3]
  const RANK_IDS: seq<RankIdx> := [0, 1, 2, 3, 4, 5, 6, 7, 8, 9, 10, 11, 12]

  lemma SuitListed(s: SuitIdx)
    ensures s in SUIT_IDS
  {
  }

  lemma RankListed(r: RankIdx)
    ensures r in RANK_IDS
  {
  }

  /** Kicker lists of the three high-card families, as rank positions. */
  const K_SUITED: seq<RankIdx> := [2, 3, 4, 5, 6, 7, 8, 9, 10, 12]
  const K_OFFSUIT: seq<RankIdx> := [4, 5, 6, 7, 8, 9, 10, 12]
  const Q_SUITED: seq<RankIdx> := [4, 5, 6, 7, 8, 9, 11, 12]
  const Q_OFFSUIT: seq<RankIdx> := [6, 7, 8, 9, 11, 12]
  const J_SUITED: seq<RankIdx> := [6, 7, 8, 10, 11, 12]
  const J_OFFSUIT: seq<RankIdx> := [8, 10, 11, 12]

  /** The kicker lists spelled as the rank characters the source writes. */
  lemma KickerCharacters()
    ensures seq(|K_SUITED|, i requires 0 <= i < |K_SUITED| => RANKS[K_SUITED[i]]) == "456789TJQA"
    ensures seq(|K_OFFSUIT|, i requires 0 <= i < |K_OFFSUIT| => RANKS[K_OFFSUIT[i]]) == "6789TJQA"
    ensures seq(|Q_SUITED|, i requires 0 <= i < |Q_SUITED| => RANKS[Q_SUITED[i]]) == "6789TJKA"
    ensures seq(|Q_OFFSUIT|, i requires 0 <= i < |Q_OFFSUIT| => RANKS[Q_OFFSUIT[i]]) == "89TJKA"
    ensures seq(|J_SUITED|, i requires 0 <= i < |J_SUITED| => RANKS[J_SUITED[i]]) == "89TQKA"
    ensures seq(|J_OFFSUIT|, i requires 0 <= i < |J_OFFSUIT| => RANKS[J_OFFSUIT[i]]) == "TQKA"
  {
  }

  /** Both cards of a hand are available. */
  predicate Avoids(h: Hand, exclude: set<Card>) {
    h.0 !in exclude && h.1 !in exclude
  }

  /* Each loop of `getHandCandidates` is a `FlatMap` over the list it walks;
     its body, one iteration, is the function value returned by a `…Step`
     function of the loop's free variables. */

  /** `all_ax`, innermost loop body: `ace` with the card of `rank` in `s2`. */
  function AceKickerStep(ace: Card, rank: RankIdx, exclude: set<Card>): SuitIdx -> seq<Hand> {
    (s2: SuitIdx) =>
      var c2 := Card(rank, s2);
      if c2 !in exclude && c2 != ace then [(ace, c2)] else []
  }

  /** `all_ax`, middle loop body: every rank but the ace. */
  function AceRankStep(ace: Card, exclude: set<Card>): RankIdx -> seq<Hand> {
    (rank: RankIdx) =>
      if rank == ACE then [] else FlatMap(SUIT_IDS, AceKickerStep(ace, rank, exclude))
  }

  /** `all_ax`, outer loop body: the ace of `suit`, if available. */
  function AceSuitStep(exclude: set<Card>): SuitIdx -> seq<Hand> {
    (suit: SuitIdx) =>
      var ace := Card(ACE, suit);
      if ace in exclude then [] else FlatMap(RANK_IDS, AceRankStep(ace, exclude))
  }

  /** `all_ax`. */
  function AllAxCandidates(exclude: set<Card>): seq<Hand> {
    FlatMap(SUIT_IDS, AceSuitStep(exclude))
  }

  /** Suited-kicker loop body of a high-card family. */
  function SuitedStep(top: Card, high: RankIdx, exclude: set<Card>): RankIdx -> seq<Hand> {
    (kr: RankIdx) =>
      var c2 := Card(kr, top.suit);
      if kr != high && c2 !in exclude then [(top, c2)] else []
  }

  /** Offsuit-kicker inner loop body: kicker `kr` in suit `s2`. */
  function OffsuitSuitStep(top: Card, high: RankIdx, kr: RankIdx, exclude: set<Card>): SuitIdx -> seq<Hand> {
    (s2: SuitIdx) =>
      var c2 := Card(kr, s2);
      if s2 == top.suit then []
      else if c2 !in exclude && kr != high then [(top, c2)] else []
  }

  /** Offsuit-kicker outer loop body: kicker `kr` in the other suits. */
  function OffsuitStep(top: Card, high: RankIdx, exclude: set<Card>): RankIdx -> seq<Hand> {
    (kr: RankIdx) => FlatMap(SUIT_IDS, OffsuitSuitStep(top, high, kr, exclude))
  }

  /** Outer loop body of a high-card family: the card of rank `high` in
      `suit`, if available, with its suited kickers, then its offsuit ones. */
  function HighStep(high: RankIdx, suited: seq<RankIdx>, offsuit: seq<RankIdx>,
                    exclude: set<Card>): SuitIdx -> seq<Hand>
  {
    (suit: SuitIdx) =>
      var top := Card(high, suit);
      if top in exclude then []
      else FlatMap(suited, SuitedStep(top, high, exclude)) + FlatMap(offsuit, OffsuitStep(top, high, exclude))
  }

  /** The shape shared by `k4s_k6o`, `q6s_q8o` and `j8s_j10o`. */
  function HighCardCandidates(high: RankIdx, suited: seq<RankIdx>, offsuit: seq<RankIdx>,
                              exclude: set<Card>): seq<Hand>
  {
    FlatMap(SUIT_IDS, HighStep(high, suited, offsuit, exclude))
  }

  /** The lower rank of a connector (`r < RANKS.length - 1`) and of a
      one-gapper (`r < RANKS.length - 2`). */
  type ConnectorLow = r: nat | r < 12
  type GapperLow = r: nat | r < 11

  const CONNECTOR_LOWS: seq<ConnectorLow> := [0, 1, 2, 3, 4, 5, 6, 7, 8, 9, 10, 11]
  const GAPPER_LOWS: seq<GapperLow> := [0, 1, 2, 3, 4, 5, 6, 7, 8, 9, 10]

  lemma ConnectorLowListed(r: ConnectorLow)
    ensures r in CONNECTOR_LOWS
  {
  }

  lemma GapperLowListed(r: GapperLow)
    ensures r in GAPPER_LOWS
  {
  }

  function ConnectorSuit2Step(r: ConnectorLow, s1: SuitIdx, exclude: set<Card>): SuitIdx -> seq<Hand> {
    (s2: SuitIdx) =>
      var c1 := Card(r, s1);
      var c2 := Card(r + 1, s2);
      if c1 !in exclude && c2 !in exclude then [(c1, c2)] else []
  }

  function ConnectorSuit1Step(r: ConnectorLow, exclude: set<Card>): SuitIdx -> seq<Hand> {
    (s1: SuitIdx) => FlatMap(SUIT_IDS, ConnectorSuit2Step(r, s1, exclude))
  }

  function ConnectorRankStep(exclude: set<Card>): ConnectorLow -> seq<Hand> {
    (r: ConnectorLow) => FlatMap(SUIT_IDS, ConnectorSuit1Step(r, exclude))
  }

  /** `connectors`: ranks `r` and `r + 1`, any suits. */
  function ConnectorCandidates(exclude: set<Card>): seq<Hand> {
    FlatMap(CONNECTOR_LOWS, ConnectorRankStep(exclude))
  }

  function GapperSuitStep(r: GapperLow, exclude: set<Card>): SuitIdx -> seq<Hand> {
    (suit: SuitIdx) =>
      var c1 := Card(r, suit);
      var c2 := Card(r + 2, suit);
      if c1 !in exclude && c2 !in exclude then [(c1, c2)] else []
  }

  function GapperRankStep(exclude: set<Card>): GapperLow -> seq<Hand> {
    (r: GapperLow) => FlatMap(SUIT_IDS, GapperSuitStep(r, exclude))
  }

  /** `suited_one_gappers`: ranks `r` and `r + 2` in one suit. */
  function GapperCandidates(exclude: set<Card>): seq<Hand> {
    FlatMap(GAPPER_LOWS, GapperRankStep(exclude))
  }

  function PairSuit2Step(rank: RankIdx, s1: SuitIdx, exclude: set<Card>): SuitIdx -> seq<Hand> {
    (s2: SuitIdx) =>
      var pair := (Card(rank, s1), Card(rank, s2));
      if s1 != s2 && Avoids(pair, exclude) then [pair] else []
  }

  function PairSuit1Step(rank: RankIdx, exclude: set<Card>): SuitIdx -> seq<Hand> {
    (s1: SuitIdx) => FlatMap(SUIT_IDS, PairSuit2Step(rank, s1, exclude))
  }

  /** One rank of `pocket_pairs`: the `cands` list (both orders of every two
      suits) with the unavailable pairs dropped. Filtering each pair where it
      is produced keeps the same pairs in the same order. */
  function PairRankStep(exclude: set<Card>): RankIdx -> seq<Hand> {
    (rank: RankIdx) => FlatMap(SUIT_IDS, PairSuit1Step(rank, exclude))
  }

  /** `pocket_pairs`. */
  function PairCandidates(exclude: set<Card>): seq<Hand> {
    FlatMap(RANK_IDS, PairRankStep(exclude))
  }

  /** Card-code string order, as JavaScript compares `c1 >= c2`. */
  predicate CodeLess(a: Card, b: Card) {
    LexLess(Code(a), Code(b))
  }

  /* The `random` family walks the deck `RANKS.flatMap(r => SUITS.map(…))`,
     i.e. ranks, then suits, once for the first card and once for the
     second. */

  function RandomSecondSuitStep(c1: Card, r2: RankIdx, exclude: set<Card>): SuitIdx -> seq<Hand> {
    (s2: SuitIdx) =>
      var c2 := Card(r2, s2);
      if !CodeLess(c1, c2) then []
      else if c2 !in exclude then [(c1, c2)] else []
  }

  function RandomSecondRankStep(c1: Card, exclude: set<Card>): RankIdx -> seq<Hand> {
    (r2: RankIdx) => FlatMap(SUIT_IDS, RandomSecondSuitStep(c1, r2, exclude))
  }

  function RandomFirstSuitStep(r1: RankIdx, exclude: set<Card>): SuitIdx -> seq<Hand> {
    (s1: SuitIdx) =>
      var c1 := Card(r1, s1);
      if c1 in exclude then [] else FlatMap(RANK_IDS, RandomSecondRankStep(c1, exclude))
  }

  function RandomFirstRankStep(exclude: set<Card>): RankIdx -> seq<Hand> {
    (r1: RankIdx) => FlatMap(SUIT_IDS, RandomFirstSuitStep(r1, exclude))
  }

  /** `random`: every available pair whose first code sorts before the
      second, the first card walking the deck in order. */
  function RandomCandidates(exclude: set<Card>): seq<Hand> {
    FlatMap(RANK_IDS, RandomFirstRankStep(exclude))
  }

  /** The `if (family === …)` block of each family, as a function of the
      exclusion set. */
  function Generator(f: Family): set<Card> -> seq<Hand> {
    match f
    case AllAx => AllAxCandidates
    case K4sK6o => (exclude: set<Card>) => HighCardCandidates(KING, K_SUITED, K_OFFSUIT, exclude)
    case Q6sQ8o => (exclude: set<Card>) => HighCardCandidates(QUEEN, Q_SUITED, Q_OFFSUIT, exclude)
    case J8sJ10o => (exclude: set<Card>) => HighCardCandidates(JACK, J_SUITED, J_OFFSUIT, exclude)
    case Connectors => ConnectorCandidates
    case SuitedOneGappers => GapperCandidates
    case PocketPairs => PairCandidates
    case RandomHands => RandomCandidates
  }

  /** `getHandCandidates(family, exclude)` for a known family. */
  function FamilyCandidates(f: Family, exclude: set<Card>): seq<Hand> {
    Generator(f)(exclude)
  }

  /** `getHandCandidates(family, exclude)` for any weight-table key: a key
      that names no family yields no candidates. */
  function Candidates(name: string, exclude: set<Card>): seq<Hand> {
    match ParseFamily(name)
    case None => []
    case Some(f) => FamilyCandidates(f, exclude)
  }

  /** The hands a family stands for, stated by rank and suit. The three
      high-card families are "K4s+ / K6o+", "Q6s+ / Q8o+" and "J8s+ / JTo+":
      the kicker is at least the named rank, never the high card itself. */
  predicate InFamily(f: Family, h: Hand) {
    match f
    case AllAx => IsAceHand(h)
    case K4sK6o => HighHand(KING, 2, 4, h)
    case Q6sQ8o => HighHand(QUEEN, 4, 6, h)
    case J8sJ10o => HighHand(JACK, 6, 8, h)
    case Connectors => IsConnector(h)
    case SuitedOneGappers => IsSuitedGapper(h)
    case PocketPairs => IsPocketPair(h)
    case RandomHands => CodeLess(h.0, h.1)
  }

  /** An ace and a non-ace kicker. */
  predicate IsAceHand(h: Hand) {
    h.0.rank == ACE && h.1.rank != ACE
  }

  /** The second card is one rank above the first, any suits. */
  predicate IsConnector(h: Hand) {
    h.1.rank == h.0.rank + 1
  }

  /** The second card is two ranks above the first, same suit. */
  predicate IsSuitedGapper(h: Hand) {
    h.1.rank == h.0.rank + 2 && h.0.suit == h.1.suit
  }

  /** Two cards of one rank and different suits. */
  predicate IsPocketPair(h: Hand) {
    h.0.rank == h.1.rank && h.0.suit != h.1.suit
  }

  /** The first card has rank `high`; the kicker is not of rank `high` and is
      at least `minSuited` (same suit) or `minOffsuit` (other suit). */
  predicate HighHand(high: RankIdx, minSuited: nat, minOffsuit: nat, h: Hand) {
    && h.0.rank == high && h.1.rank != high
    && (if h.0.suit == h.1.suit then h.1.rank >= minSuited else h.1.rank >= minOffsuit)
  }

  lemma AceKickersMembers(ace: Card, rank: RankIdx, exclude: set<Card>, h: Hand)
    ensures h in FlatMap(SUIT_IDS, AceKickerStep(ace, rank, exclude))
        <==> h.0 == ace && h.1.rank == rank && h.1 !in exclude && h.1 != ace
  {
    var f := AceKickerStep(ace, rank, exclude);
    if h in FlatMap(SUIT_IDS, f) {
      var s2 := FlatMapElim(SUIT_IDS, f, h);
    }
    if h.0 == ace && h.1.rank == rank && h.1 !in exclude && h.1 != ace {
      SuitListed(h.1.suit);
      FlatMapIntro(SUIT_IDS, f, h.1.suit, h);
    }
  }

  lemma AceHandsFwd(ace: Card, exclude: set<Card>, h: Hand)
    requires h in FlatMap(RANK_IDS, AceRankStep(ace, exclude))
    ensures h.0 == ace && h.1.rank != ACE && h.1 !in exclude && h.1 != ace
  {
    var rank := FlatMapElim(RANK_IDS, AceRankStep(ace, exclude), h);
    AceKickersMembers(ace, rank, exclude, h);
  }

  lemma AceHandsBwd(ace: Card, exclude: set<Card>, h: Hand)
    requires h.0 == ace && h.1.rank != ACE && h.1 !in exclude && h.1 != ace
    ensures h in FlatMap(RANK_IDS, AceRankStep(ace, exclude))
  {
    AceKickersMembers(ace, h.1.rank, exclude, h);
    RankListed(h.1.rank);
    FlatMapIntro(RANK_IDS, AceRankStep(ace, exclude), h.1.rank, h);
  }

  lemma AllAxFwd(exclude: set<Card>, h: Hand)
    requires h in FlatMap(SUIT_IDS, AceSuitStep(exclude))
    ensures IsAceHand(h) && Avoids(h, exclude)
  {
    var suit := FlatMapElim(SUIT_IDS, AceSuitStep(exclude), h);
    AceHandsFwd(Card(ACE, suit), exclude, h);
  }

  lemma AllAxBwd(exclude: set<Card>, h: Hand)
    requires h.0.rank == ACE && h.1.rank != ACE && h.0 !in exclude && h.1 !in exclude
    ensures h in FlatMap(SUIT_IDS, AceSuitStep(exclude))
  {
    AceHandsBwd(h.0, exclude, h);
    AceSuitStepAt(exclude, h.0);
    SuitListed(h.0.suit);
    FlatMapIntro(SUIT_IDS, AceSuitStep(exclude), h.0.suit, h);
  }

  lemma AceSuitStepAt(exclude: set<Card>, ace: Card)
    requires ace.rank == ACE && ace !in exclude
    ensures AceSuitStep(exclude)(ace.suit) == FlatMap(RANK_IDS, AceRankStep(ace, exclude))
  {
  }

  lemma AllAxIn(exclude: set<Card>, h: Hand)
    requires h in AllAxCandidates(exclude)
    ensures h in FlatMap(SUIT_IDS, AceSuitStep(exclude))
  {
  }

  lemma AllAxOut(exclude: set<Card>, h: Hand)
    requires h in FlatMap(SUIT_IDS, AceSuitStep(exclude))
    ensures h in AllAxCandidates(exclude)
  {
  }

  lemma AllAxMembers(exclude: set<Card>, h: Hand)
    ensures h in AllAxCandidates(exclude) <==> IsAceHand(h) && Avoids(h, exclude)
  {
    if h in AllAxCandidates(exclude) {
      AllAxIn(exclude, h);
      AllAxFwd(exclude, h);
    }
    if IsAceHand(h) && Avoids(h, exclude) {
      AllAxBwd(exclude, h);
      AllAxOut(exclude, h);
    }
  }

  lemma SuitedMembers(top: Card, high: RankIdx, suited: seq<RankIdx>, exclude: set<Card>, h: Hand)
    ensures h in FlatMap(suited, SuitedStep(top, high, exclude))
        <==> && h.0 == top && h.1.suit == top.suit && h.1.rank in suited
             && h.1.rank != high && h.1 !in exclude
  {
    var f := SuitedStep(top, high, exclude);
    if h in FlatMap(suited, f) {
      var kr := FlatMapElim(suited, f, h);
    }
    if h.0 == top && h.1.suit == top.suit && h.1.rank in suited && h.1.rank != high && h.1 !in exclude {
      FlatMapIntro(suited, f, h.1.rank, h);
    }
  }

  lemma OffsuitKickerMembers(top: Card, high: RankIdx, kr: RankIdx, exclude: set<Card>, h: Hand)
    ensures h in FlatMap(SUIT_IDS, OffsuitSuitStep(top, high, kr, exclude))
        <==> h.0 == top && h.1.rank == kr && h.1.suit != top.suit && h.1 !in exclude && kr != high
  {
    var f := OffsuitSuitStep(top, high, kr, exclude);
    if h in FlatMap(SUIT_IDS, f) {
      var s2 := FlatMapElim(SUIT_IDS, f, h);
    }
    if h.0 == top && h.1.rank == kr && h.1.suit != top.suit && h.1 !in exclude && kr != high {
      SuitListed(h.1.suit);
      FlatMapIntro(SUIT_IDS, f, h.1.suit, h);
    }
  }

  lemma OffsuitMembers(top: Card, high: RankIdx, offsuit: seq<RankIdx>, exclude: set<Card>, h: Hand)
    ensures h in FlatMap(offsuit, OffsuitStep(top, high, exclude))
        <==> && h.0 == top && h.1.suit != top.suit && h.1.rank in offsuit
             && h.1.rank != high && h.1 !in exclude
  {
    var f := OffsuitStep(top, high, exclude);
    if h in FlatMap(offsuit, f) {
      var kr := FlatMapElim(offsuit, f, h);
      OffsuitKickerMembers(top, high, kr, exclude, h);
    }
    if h.0 == top && h.1.suit != top.suit && h.1.rank in offsuit && h.1.rank != high && h.1 !in exclude {
      OffsuitKickerMembers(top, high, h.1.rank, exclude, h);
      FlatMapIntro(offsuit, f, h.1.rank, h);
    }
  }

  ghost predicate HighCardHand(high: RankIdx, suited: seq<RankIdx>, offsuit: seq<RankIdx>,
                                exclude: set<Card>, h: Hand)
  {
    && h.0.rank == high && h.1.rank != high && Avoids(h, exclude)
    && (if h.0.suit == h.1.suit then h.1.rank in suited else h.1.rank in offsuit)
  }

  lemma HighCardFwd(high: RankIdx, suited: seq<RankIdx>, offsuit: seq<RankIdx>,
                    exclude: set<Card>, h: Hand)
    requires h in FlatMap(SUIT_IDS, HighStep(high, suited, offsuit, exclude))
    ensures HighCardHand(high, suited, offsuit, exclude, h)
  {
    var suit := FlatMapElim(SUIT_IDS, HighStep(high, suited, offsuit, exclude), h);
    SuitedMembers(Card(high, suit), high, suited, exclude, h);
    OffsuitMembers(Card(high, suit), high, offsuit, exclude, h);
  }

  lemma HighCardBwd(high: RankIdx, suited: seq<RankIdx>, offsuit: seq<RankIdx>,
                    exclude: set<Card>, h: Hand)
    requires HighCardHand(high, suited, offsuit, exclude, h)
    ensures h in FlatMap(SUIT_IDS, HighStep(high, suited, offsuit, exclude))
  {
    SuitedMembers(h.0, high, suited, exclude, h);
    OffsuitMembers(h.0, high, offsuit, exclude, h);
    SuitListed(h.0.suit);
    FlatMapIntro(SUIT_IDS, HighStep(high, suited, offsuit, exclude), h.0.suit, h);
  }

  lemma HighCardIn(high: RankIdx, suited: seq<RankIdx>, offsuit: seq<RankIdx>, exclude: set<Card>, h: Hand)
    requires h in HighCardCandidates(high, suited, offsuit, exclude)
    ensures h in FlatMap(SUIT_IDS, HighStep(high, suited, offsuit, exclude))
  {
  }

  lemma HighCardOut(high: RankIdx, suited: seq<RankIdx>, offsuit: seq<RankIdx>, exclude: set<Card>, h: Hand)
    requires h in FlatMap(SUIT_IDS, HighStep(high, suited, offsuit, exclude))
    ensures h in HighCardCandidates(high, suited, offsuit, exclude)
  {
  }

  lemma HighCardMembers(high: RankIdx, suited: seq<RankIdx>, offsuit: seq<RankIdx>,
                        exclude: set<Card>, h: Hand)
    ensures h in HighCardCandidates(high, suited, offsuit, exclude)
        <==> HighCardHand(high, suited, offsuit, exclude, h)
  {
    if h in HighCardCandidates(high, suited, offsuit, exclude) {
      HighCardIn(high, suited, offsuit, exclude, h);
      HighCardFwd(high, suited, offsuit, exclude, h);
    }
    if HighCardHand(high, suited, offsuit, exclude, h) {
      HighCardBwd(high, suited, offsuit, exclude, h);
      HighCardOut(high, suited, offsuit, exclude, h);
    }
  }

  /** The three kicker lists are the rank ranges the family names promise. */
  lemma KingKickers()
    ensures forall r: RankIdx :: r in K_SUITED <==> r >= 2 && r != KING
    ensures forall r: RankIdx :: r in K_OFFSUIT <==> r >= 4 && r != KING
  {
  }

  lemma QueenKickers()
    ensures forall r: RankIdx :: r in Q_SUITED <==> r >= 4 && r != QUEEN
    ensures forall r: RankIdx :: r in Q_OFFSUIT <==> r >= 6 && r != QUEEN
  {
  }

  lemma JackKickers()
    ensures forall r: RankIdx :: r in J_SUITED <==> r >= 6 && r != JACK
    ensures forall r: RankIdx :: r in J_OFFSUIT <==> r >= 8 && r != JACK
  {
  }

  /** A high-card family whose kicker lists are the ranges `minSuited..`
      and `minOffsuit..` without `high` has exactly its `HighHand`s. */
  lemma HighFamilyMembers(high: RankIdx, minSuited: nat, minOffsuit: nat,
                          suited: seq<RankIdx>, offsuit: seq<RankIdx>, exclude: set<Card>, h: Hand)
    requires forall r: RankIdx :: r in suited <==> r >= minSuited && r != high
    requires forall r: RankIdx :: r in offsuit <==> r >= minOffsuit && r != high
    ensures h in HighCardCandidates(high, suited, offsuit, exclude)
        <==> HighHand(high, minSuited, minOffsuit, h) && Avoids(h, exclude)
  {
    HighCardMembers(high, suited, offsuit, exclude, h);
  }

  lemma ConnectorPairMembers(r: ConnectorLow, s1: SuitIdx, exclude: set<Card>, h: Hand)
    ensures h in FlatMap(SUIT_IDS, ConnectorSuit2Step(r, s1, exclude))
        <==> h.0 == Card(r, s1) && h.1.rank == r + 1 && Avoids(h, exclude)
  {
    var f := ConnectorSuit2Step(r, s1, exclude);
    if h in FlatMap(SUIT_IDS, f) {
      var s2 := FlatMapElim(SUIT_IDS, f, h);
    }
    if h.0 == Card(r, s1) && h.1.rank == r + 1 && Avoids(h, exclude) {
      SuitListed(h.1.suit);
      FlatMapIntro(SUIT_IDS, f, h.1.suit, h);
    }
  }

  lemma ConnectorRankMembers(r: ConnectorLow, exclude: set<Card>, h: Hand)
    ensures h in FlatMap(SUIT_IDS, ConnectorSuit1Step(r, exclude))
        <==> h.0.rank == r && h.1.rank == r + 1 && Avoids(h, exclude)
  {
    var f := ConnectorSuit1Step(r, exclude);
    if h in FlatMap(SUIT_IDS, f) {
      var s1 := FlatMapElim(SUIT_IDS, f, h);
      ConnectorPairMembers(r, s1, exclude, h);
    }
    if h.0.rank == r && h.1.rank == r + 1 && Avoids(h, exclude) {
      ConnectorPairMembers(r, h.0.suit, exclude, h);
      SuitListed(h.0.suit);
      FlatMapIntro(SUIT_IDS, f, h.0.suit, h);
    }
  }

  lemma ConnectorFwd(exclude: set<Card>, h: Hand)
    requires h in FlatMap(CONNECTOR_LOWS, ConnectorRankStep(exclude))
    ensures IsConnector(h) && Avoids(h, exclude)
  {
    var r := FlatMapElim(CONNECTOR_LOWS, ConnectorRankStep(exclude), h);
    ConnectorRankMembers(r, exclude, h);
  }

  lemma ConnectorBwd(exclude: set<Card>, h: Hand)
    requires IsConnector(h) && Avoids(h, exclude)
    ensures h in FlatMap(CONNECTOR_LOWS, ConnectorRankStep(exclude))
  {
    ConnectorBwdAt(h.0.rank, exclude, h);
  }

  lemma ConnectorBwdAt(r: ConnectorLow, exclude: set<Card>, h: Hand)
    requires h.0.rank == r && h.1.rank == r + 1 && Avoids(h, exclude)
    ensures h in FlatMap(CONNECTOR_LOWS, ConnectorRankStep(exclude))
  {
    ConnectorRankMembers(r, exclude, h);
    ConnectorLowListed(r);
    FlatMapIntro(CONNECTOR_LOWS, ConnectorRankStep(exclude), r, h);
  }

  lemma ConnectorIn(exclude: set<Card>, h: Hand)
    requires h in ConnectorCandidates(exclude)
    ensures h in FlatMap(CONNECTOR_LOWS, ConnectorRankStep(exclude))
  {
  }

  lemma ConnectorOut(exclude: set<Card>, h: Hand)
    requires h in FlatMap(CONNECTOR_LOWS, ConnectorRankStep(exclude))
    ensures h in ConnectorCandidates(exclude)
  {
  }

  lemma ConnectorMembers(exclude: set<Card>, h: Hand)
    ensures h in ConnectorCandidates(exclude) <==> IsConnector(h) && Avoids(h, exclude)
  {
    if h in ConnectorCandidates(exclude) {
      ConnectorIn(exclude, h);
      ConnectorFwd(exclude, h);
    }
    if IsConnector(h) && Avoids(h, exclude) {
      ConnectorBwd(exclude, h);
      ConnectorOut(exclude, h);
    }
  }

  lemma GapperRankMembers(r: GapperLow, exclude: set<Card>, h: Hand)
    ensures h in FlatMap(SUIT_IDS, GapperSuitStep(r, exclude))
        <==> h.0.rank == r && h.1.rank == r + 2 && h.0.suit == h.1.suit && Avoids(h, exclude)
  {
    var f := GapperSuitStep(r, exclude);
    if h in FlatMap(SUIT_IDS, f) {
      var suit := FlatMapElim(SUIT_IDS, f, h);
    }
    if h.0.rank == r && h.1.rank == r + 2 && h.0.suit == h.1.suit && Avoids(h, exclude) {
      SuitListed(h.0.suit);
      FlatMapIntro(SUIT_IDS, f, h.0.suit, h);
    }
  }

  lemma GapperFwd(exclude: set<Card>, h: Hand)
    requires h in FlatMap(GAPPER_LOWS, GapperRankStep(exclude))
    ensures IsSuitedGapper(h) && Avoids(h, exclude)
  {
    var r := FlatMapElim(GAPPER_LOWS, GapperRankStep(exclude), h);
    GapperRankMembers(r, exclude, h);
  }

  lemma GapperBwd(exclude: set<Card>, h: Hand)
    requires IsSuitedGapper(h) && Avoids(h, exclude)
    ensures h in FlatMap(GAPPER_LOWS, GapperRankStep(exclude))
  {
    GapperBwdAt(h.0.rank, exclude, h);
  }

  lemma GapperBwdAt(r: GapperLow, exclude: set<Card>, h: Hand)
    requires h.0.rank == r && h.1.rank == r + 2 && h.0.suit == h.1.suit && Avoids(h, exclude)
    ensures h in FlatMap(GAPPER_LOWS, GapperRankStep(exclude))
  {
    GapperRankMembers(r, exclude, h);
    GapperLowListed(r);
    FlatMapIntro(GAPPER_LOWS, GapperRankStep(exclude), r, h);
  }

  lemma GapperIn(exclude: set<Card>, h: Hand)
    requires h in GapperCandidates(exclude)
    ensures h in FlatMap(GAPPER_LOWS, GapperRankStep(exclude))
  {
  }

  lemma GapperOut(exclude: set<Card>, h: Hand)
    requires h in FlatMap(GAPPER_LOWS, GapperRankStep(exclude))
    ensures h in GapperCandidates(exclude)
  {
  }

  lemma GapperMembers(exclude: set<Card>, h: Hand)
    ensures h in GapperCandidates(exclude) <==> IsSuitedGapper(h) && Avoids(h, exclude)
  {
    if h in GapperCandidates(exclude) {
      GapperIn(exclude, h);
      GapperFwd(exclude, h);
    }
    if IsSuitedGapper(h) && Avoids(h, exclude) {
      GapperBwd(exclude, h);
      GapperOut(exclude, h);
    }
  }

  lemma PairSuitMembers(rank: RankIdx, s1: SuitIdx, exclude: set<Card>, h: Hand)
    ensures h in FlatMap(SUIT_IDS, PairSuit2Step(rank, s1, exclude))
        <==> h.0 == Card(rank, s1) && h.1.rank == rank && h.1.suit != s1 && Avoids(h, exclude)
  {
    var f := PairSuit2Step(rank, s1, exclude);
    if h in FlatMap(SUIT_IDS, f) {
      var s2 := FlatMapElim(SUIT_IDS, f, h);
    }
    if h.0 == Card(rank, s1) && h.1.rank == rank && h.1.suit != s1 && Avoids(h, exclude) {
      SuitListed(h.1.suit);
      FlatMapIntro(SUIT_IDS, f, h.1.suit, h);
    }
  }

  lemma PairsOfRankMembers(rank: RankIdx, exclude: set<Card>, h: Hand)
    ensures h in FlatMap(SUIT_IDS, PairSuit1Step(rank, exclude))
        <==> h.0.rank == rank && h.1.rank == rank && h.0.suit != h.1.suit && Avoids(h, exclude)
  {
    var f := PairSuit1Step(rank, exclude);
    if h in FlatMap(SUIT_IDS, f) {
      var s1 := FlatMapElim(SUIT_IDS, f, h);
      PairSuitMembers(rank, s1, exclude, h);
    }
    if h.0.rank == rank && h.1.rank == rank && h.0.suit != h.1.suit && Avoids(h, exclude) {
      PairSuitMembers(rank, h.0.suit, exclude, h);
      SuitListed(h.0.suit);
      FlatMapIntro(SUIT_IDS, f, h.0.suit, h);
    }
  }

  lemma PairFwd(exclude: set<Card>, h: Hand)
    requires h in FlatMap(RANK_IDS, PairRankStep(exclude))
    ensures IsPocketPair(h) && Avoids(h, exclude)
  {
    var rank := FlatMapElim(RANK_IDS, PairRankStep(exclude), h);
    PairsOfRankMembers(rank, exclude, h);
  }

  lemma PairBwd(exclude: set<Card>, h: Hand)
    requires IsPocketPair(h) && Avoids(h, exclude)
    ensures h in FlatMap(RANK_IDS, PairRankStep(exclude))
  {
    PairsOfRankMembers(h.0.rank, exclude, h);
    RankListed(h.0.rank);
    FlatMapIntro(RANK_IDS, PairRankStep(exclude), h.0.rank, h);
  }

  lemma PairIn(exclude: set<Card>, h: Hand)
    requires h in PairCandidates(exclude)
    ensures h in FlatMap(RANK_IDS, PairRankStep(exclude))
  {
  }

  lemma PairOut(exclude: set<Card>, h: Hand)
    requires h in FlatMap(RANK_IDS, PairRankStep(exclude))
    ensures h in PairCandidates(exclude)
  {
  }

  lemma PairMembers(exclude: set<Card>, h: Hand)
    ensures h in PairCandidates(exclude) <==> IsPocketPair(h) && Avoids(h, exclude)
  {
    if h in PairCandidates(exclude) {
      PairIn(exclude, h);
      PairFwd(exclude, h);
    }
    if IsPocketPair(h) && Avoids(h, exclude) {
      PairBwd(exclude, h);
      PairOut(exclude, h);
    }
  }

  lemma RandomSuitMembers(c1: Card, r2: RankIdx, exclude: set<Card>, h: Hand)
    ensures h in FlatMap(SUIT_IDS, RandomSecondSuitStep(c1, r2, exclude))
        <==> h.0 == c1 && h.1.rank == r2 && CodeLess(c1, h.1) && h.1 !in exclude
  {
    var f := RandomSecondSuitStep(c1, r2, exclude);
    if h in FlatMap(SUIT_IDS, f) {
      var s2 := FlatMapElim(SUIT_IDS, f, h);
    }
    if h.0 == c1 && h.1.rank == r2 && CodeLess(c1, h.1) && h.1 !in exclude {
      SuitListed(h.1.suit);
      FlatMapIntro(SUIT_IDS, f, h.1.suit, h);
    }
  }

  lemma RandomRowMembers(c1: Card, exclude: set<Card>, h: Hand)
    ensures h in FlatMap(RANK_IDS, RandomSecondRankStep(c1, exclude))
        <==> h.0 == c1 && CodeLess(c1, h.1) && h.1 !in exclude
  {
    var f := RandomSecondRankStep(c1, exclude);
    if h in FlatMap(RANK_IDS, f) {
      var r2 := FlatMapElim(RANK_IDS, f, h);
      RandomSuitMembers(c1, r2, exclude, h);
    }
    if h.0 == c1 && CodeLess(c1, h.1) && h.1 !in exclude {
      RandomSuitMembers(c1, h.1.rank, exclude, h);
      RankListed(h.1.rank);
      FlatMapIntro(RANK_IDS, f, h.1.rank, h);
    }
  }

  lemma RandomFirstMembers(r1: RankIdx, exclude: set<Card>, h: Hand)
    ensures h in FlatMap(SUIT_IDS, RandomFirstSuitStep(r1, exclude))
        <==> h.0.rank == r1 && CodeLess(h.0, h.1) && Avoids(h, exclude)
  {
    if h in FlatMap(SUIT_IDS, RandomFirstSuitStep(r1, exclude)) {
      RandomFirstFwd(r1, exclude, h);
    }
    if h.0.rank == r1 && CodeLess(h.0, h.1) && Avoids(h, exclude) {
      RandomFirstBwd(r1, exclude, h);
    }
  }

  lemma RandomFirstFwd(r1: RankIdx, exclude: set<Card>, h: Hand)
    requires h in FlatMap(SUIT_IDS, RandomFirstSuitStep(r1, exclude))
    ensures h.0.rank == r1 && CodeLess(h.0, h.1) && Avoids(h, exclude)
  {
    var f := RandomFirstSuitStep(r1, exclude);
    var s1 := FlatMapElim(SUIT_IDS, f, h);
    var c1 := Card(r1, s1);
    assert c1 !in exclude && h in FlatMap(RANK_IDS, RandomSecondRankStep(c1, exclude));
    RandomRowMembers(c1, exclude, h);
  }

  lemma RandomFirstBwd(r1: RankIdx, exclude: set<Card>, h: Hand)
    requires h.0.rank == r1 && CodeLess(h.0, h.1) && Avoids(h, exclude)
    ensures h in FlatMap(SUIT_IDS, RandomFirstSuitStep(r1, exclude))
  {
    var f := RandomFirstSuitStep(r1, exclude);
    RandomRowMembers(h.0, exclude, h);
    assert f(h.0.suit) == FlatMap(RANK_IDS, RandomSecondRankStep(h.0, exclude));
    SuitListed(h.0.suit);
    FlatMapIntro(SUIT_IDS, f, h.0.suit, h);
  }

  lemma RandomFwd(exclude: set<Card>, h: Hand)
    requires h in FlatMap(RANK_IDS, RandomFirstRankStep(exclude))
    ensures CodeLess(h.0, h.1) && Avoids(h, exclude)
  {
    var r1 := FlatMapElim(RANK_IDS, RandomFirstRankStep(exclude), h);
    RandomFirstMembers(r1, exclude, h);
  }

  lemma RandomBwd(exclude: set<Card>, h: Hand)
    requires CodeLess(h.0, h.1) && Avoids(h, exclude)
    ensures h in FlatMap(RANK_IDS, RandomFirstRankStep(exclude))
  {
    RandomFirstMembers(h.0.rank, exclude, h);
    RankListed(h.0.rank);
    FlatMapIntro(RANK_IDS, RandomFirstRankStep(exclude), h.0.rank, h);
  }

  lemma RandomIn(exclude: set<Card>, h: Hand)
    requires h in RandomCandidates(exclude)
    ensures h in FlatMap(RANK_IDS, RandomFirstRankStep(exclude))
  {
  }

  lemma RandomOut(exclude: set<Card>, h: Hand)
    requires h in FlatMap(RANK_IDS, RandomFirstRankStep(exclude))
    ensures h in RandomCandidates(exclude)
  {
  }

  lemma RandomMembers(exclude: set<Card>, h: Hand)
    ensures h in RandomCandidates(exclude) <==> CodeLess(h.0, h.1) && Avoids(h, exclude)
  {
    if h in RandomCandidates(exclude) {
      RandomIn(exclude, h);
      RandomFwd(exclude, h);
    }
    if CodeLess(h.0, h.1) && Avoids(h, exclude) {
      RandomBwd(exclude, h);
      RandomOut(exclude, h);
    }
  }

  lemma AllAxExact(f: Family, exclude: set<Card>, h: Hand)
    requires f.AllAx?
    ensures h in FamilyCandidates(f, exclude) <==> InFamily(f, h) && Avoids(h, exclude)
  {
    AllAxMembers(exclude, h);
  }

  lemma K4sK6oExact(f: Family, exclude: set<Card>, h: Hand)
    requires f.K4sK6o?
    ensures h in FamilyCandidates(f, exclude) <==> InFamily(f, h) && Avoids(h, exclude)
  {
    KingKickers();
    HighFamilyMembers(KING, 2, 4, K_SUITED, K_OFFSUIT, exclude, h);
  }

  lemma Q6sQ8oExact(f: Family, exclude: set<Card>, h: Hand)
    requires f.Q6sQ8o?
    ensures h in FamilyCandidates(f, exclude) <==> InFamily(f, h) && Avoids(h, exclude)
  {
    QueenKickers();
    HighFamilyMembers(QUEEN, 4, 6, Q_SUITED, Q_OFFSUIT, exclude, h);
  }

  lemma J8sJ10oExact(f: Family, exclude: set<Card>, h: Hand)
    requires f.J8sJ10o?
    ensures h in FamilyCandidates(f, exclude) <==> InFamily(f, h) && Avoids(h, exclude)
  {
    JackKickers();
    HighFamilyMembers(JACK, 6, 8, J_SUITED, J_OFFSUIT, exclude, h);
  }

  lemma ConnectorsExact(f: Family, exclude: set<Card>, h: Hand)
    requires f.Connectors?
    ensures h in FamilyCandidates(f, exclude) <==> InFamily(f, h) && Avoids(h, exclude)
  {
    ConnectorMembers(exclude, h);
  }

  lemma SuitedOneGappersExact(f: Family, exclude: set<Card>, h: Hand)
    requires f.SuitedOneGappers?
    ensures h in FamilyCandidates(f, exclude) <==> InFamily(f, h) && Avoids(h, exclude)
  {
    GapperMembers(exclude, h);
  }

  lemma PocketPairsExact(f: Family, exclude: set<Card>, h: Hand)
    requires f.PocketPairs?
    ensures h in FamilyCandidates(f, exclude) <==> InFamily(f, h) && Avoids(h, exclude)
  {
    PairMembers(exclude, h);
  }

  lemma RandomHandsExact(f: Family, exclude: set<Card>, h: Hand)
    requires f.RandomHands?
    ensures h in FamilyCandidates(f, exclude) <==> InFamily(f, h) && Avoids(h, exclude)
  {
    RandomMembers(exclude, h);
  }

  /** Each family's candidates are exactly the hands of that family that
      avoid the excluded cards. */
  lemma CandidatesExact(f: Family, exclude: set<Card>, h: Hand)
    ensures h in FamilyCandidates(f, exclude) <==> InFamily(f, h) && Avoids(h, exclude)
  {
    match f
    case AllAx => AllAxExact(f, exclude, h);
    case K4sK6o => K4sK6oExact(f, exclude, h);
    case Q6sQ8o => Q6sQ8oExact(f, exclude, h);
    case J8sJ10o => J8sJ10oExact(f, exclude, h);
    case Connectors => ConnectorsExact(f, exclude, h);
    case SuitedOneGappers => SuitedOneGappersExact(f, exclude, h);
    case PocketPairs => PocketPairsExact(f, exclude, h);
    case RandomHands => RandomHandsExact(f, exclude, h);
  }

  /** Every family hand has two different cards, so a candidate never
      repeats a card. */
  lemma FamilyHandCardsDiffer(f: Family, h: Hand)
    requires InFamily(f, h)
    ensures h.0 != h.1
  {
    if f.RandomHands? {
      LexLessIrreflexive(Code(h.0));
    }
  }

  /** Two different cards form exactly one `random` hand: the one whose
      first code sorts first. */
  lemma RandomHandsOneOrder(a: Card, b: Card)
    requires a != b
    ensures InFamily(RandomHands, (a, b)) != InFamily(RandomHands, (b, a))
  {
    if Code(a) == Code(b) {
      CodeInjective(a, b);
    }
    LexLessTotal(Code(a), Code(b));
  }

  /** `name` is a known family and `h` is one of its hands. */
  predicate FamilyHand(name: string, h: Hand) {
    match ParseFamily(name)
    case None => false
    case Some(f) => InFamily(f, h)
  }

  /** A candidate of a weight-table key avoids the excluded cards, has two
      different cards and belongs to the family the key names. */
  lemma CandidateSound(name: string, exclude: set<Card>, h: Hand)
    requires h in Candidates(name, exclude)
    ensures Avoids(h, exclude) && h.0 != h.1 && FamilyHand(name, h)
  {
    var f := ParseFamily(name).value;
    CandidatesExact(f, exclude, h);
    FamilyHandCardsDiffer(f, h);
  }

  /** `pickHandFromFamily(family, exclude)`: `None` exactly when there is no
      candidate; otherwise the candidate at `floor(u * length)`. */
  function PickHandFromFamily(name: string, exclude: set<Card>, u: Draw): (r: Option<Hand>)
    ensures r.None? <==> Candidates(name, exclude) == []
    ensures r.Some? ==> r.value in Candidates(name, exclude)
  {
    var candidates := Candidates(name, exclude);
    if |candidates| == 0 then None else Some(candidates[Scale(u, |candidates|)])
  }

  /** `all_ax` has nothing to pick exactly when all four aces, or all the
      other cards, are excluded. */
  lemma AllAxEmptyIff(exclude: set<Card>, u: Draw)
    ensures PickHandFromFamily(FamilyName(AllAx), exclude, u).None?
        <==> (forall c: Card :: c.rank == ACE ==> c in exclude) || (forall c: Card :: c.rank != ACE ==> c in exclude)
  {
    ParseFamilyName(AllAx);
    var candidates := Candidates(FamilyName(AllAx), exclude);
    if candidates != [] {
      CandidatesExact(AllAx, exclude, candidates[0]);
    } else if exists a: Card, c: Card :: a.rank == ACE && a !in exclude && c.rank != ACE && c !in exclude {
      var a: Card, c: Card :| a.rank == ACE && a !in exclude && c.rank != ACE && c !in exclude;
      CandidatesExact(AllAx, exclude, (a, c));
    }
  }

  /** Total weight of a table. */
  function WeightSum(entries: Weights): real {
    if entries == [] then 0.0 else entries[0].1 + WeightSum(entries[1..])
  }

  /** The weight of entries `0..j`: the amount subtracted from `r` once the
      loop has passed entry `j`. */
  function SumThrough(entries: Weights, j: nat): real
    requires j < |entries|
  {
    WeightSum(entries[..j + 1])
  }

  lemma SumThroughShift(entries: Weights, j: nat)
    requires j + 1 < |entries|
    ensures SumThrough(entries, j + 1) == entries[0].1 + SumThrough(entries[1..], j)
  {
    assert entries[..j + 2][1..] == entries[1..][..j + 1];
  }

  lemma SumThroughFirst(entries: Weights)
    requires |entries| > 0
    ensures SumThrough(entries, 0) == entries[0].1
  {
    var one := entries[..1];
    assert one[0] == entries[0] && one[1..] == [];
    assert WeightSum(one) == one[0].1 + WeightSum(one[1..]);
  }

  /** The loop of `sampleFamily` on the running value `r`: the index of the
      entry returned. Characterised by prefix sums: the sum through every
      earlier entry is below `r`, and unless the loop falls through to the
      last entry the sum through the chosen entry reaches `r`. */
  function SampleIndex(entries: Weights, r: real): (i: nat)
    requires |entries| > 0
    ensures i < |entries|
    ensures forall j :: 0 <= j < i ==> SumThrough(entries, j) < r
    ensures i < |entries| - 1 ==> r <= SumThrough(entries, i)
  {
    SumThroughFirst(entries);
    var rest := r - entries[0].1;
    if rest <= 0.0 then 0
    else if |entries| == 1 then 0
    else
      var k := SampleIndex(entries[1..], rest);
      forall j | 0 <= j < k + 1 ensures SumThrough(entries, j) < r {
        if j > 0 {
          SumThroughShift(entries, j - 1);
          assert SumThrough(entries[1..], j - 1) < rest;
        }
      }
      SumThroughShift(entries, k);
      k + 1
  }

  /** `sampleFamily(weights)`: `u` is the draw of `Math.random()`. The source
      reads `entries[entries.length - 1]` on fall-through, so it needs a
      non-empty table. */
  function SampleFamily(entries: Weights, u: Draw): (name: string)
    requires |entries| > 0
    ensures exists i :: 0 <= i < |entries| && entries[i].0 == name
  {
    entries[SampleIndex(entries, u * WeightSum(entries))].0
  }

  /** The cards of a list of hands, in order. */
  function CardsOf(hands: seq<Hand>): (cards: seq<Card>)
    ensures |cards| == 2 * |hands|
  {
    if hands == [] then []
    else CardsOf(hands[..|hands| - 1]) + [hands[|hands| - 1].0, hands[|hands| - 1].1]
  }

  /** What `generateFourHandsWithFamilies` promises of a non-null result:
      four hands, eight different cards, each hand from a family named in
      the table. */
  ghost predicate ValidDeal(entries: Weights, hands: seq<Hand>) {
    && |hands| == 4
    && Distinct(CardsOf(hands))
    && forall i :: 0 <= i < |hands| ==> exists k :: 0 <= k < |entries| && FamilyHand(entries[k].0, hands[i])
  }

  /** Result of a run of the generator, with the index of the next unread
      draw. */
  datatype Dealt = Dealt(hands: Option<seq<Hand>>, next: nat)

  /** The inner `for (let i = 0; i < 4; i++)` loop from `hands` on, `used`
      holding their cards. Each hand reads one draw to sample a family and,
      when that family has candidates, one more to pick the hand. */
  function DealFour(entries: Weights, rand: nat -> Draw, next: nat, hands: seq<Hand>, used: set<Card>): (d: Dealt)
    requires |entries| > 0 && |hands| <= 4
    requires DealState(entries, hands, used)
    ensures next <= d.next
    ensures d.hands.Some? ==> ValidDeal(entries, d.hands.value) && d.hands.value[..|hands|] == hands
    decreases 4 - |hands|
  {
    if |hands| == 4 then Dealt(Some(hands), next)
    else
      var name := SampleFamily(entries, rand(next));
      match PickHandFromFamily(name, used, rand(next + 1))
      case None => Dealt(None, next + 1)
      case Some(h) =>
        DealStep(entries, hands, used, name, h);
        var hands' := hands + [h];
        var d := DealFour(entries, rand, next + 2, hands', used + {h.0, h.1});
        assert d.hands.Some? ==> d.hands.value[..|hands|] == d.hands.value[..|hands'|][..|hands|];
        d
  }

  /** What the inner loop keeps: `used` holds exactly the cards dealt, no
      card is dealt twice and each hand is from a family of the table. */
  ghost predicate DealState(entries: Weights, hands: seq<Hand>, used: set<Card>) {
    && (forall c :: c in used <==> c in CardsOf(hands))
    && Distinct(CardsOf(hands))
    && forall i :: 0 <= i < |hands| ==> exists k :: 0 <= k < |entries| && FamilyHand(entries[k].0, hands[i])
  }

  /** A hand picked from a listed family, avoiding the used cards, keeps
      what the inner loop maintains. */
  lemma DealStep(entries: Weights, hands: seq<Hand>, used: set<Card>, name: string, h: Hand)
    requires DealState(entries, hands, used)
    requires exists k :: 0 <= k < |entries| && entries[k].0 == name
    requires h in Candidates(name, used)
    ensures DealState(entries, hands + [h], used + {h.0, h.1})
  {
    CandidateSound(name, used, h);
    var hs := hands + [h];
    assert hs[..|hs| - 1] == hands;
    assert CardsOf(hs) == CardsOf(hands) + [h.0, h.1];
    AppendDistinct(CardsOf(hands), h.0, h.1);
    var k :| 0 <= k < |entries| && entries[k].0 == name;
    forall i | 0 <= i < |hs|
      ensures exists k :: 0 <= k < |entries| && FamilyHand(entries[k].0, hs[i])
    {
      if i < |hands| {
        assert hs[i] == hands[i];
      } else {
        assert FamilyHand(entries[k].0, hs[i]);
      }
    }
  }

  lemma AppendDistinct(s: seq<Card>, x: Card, y: Card)
    requires Distinct(s) && x !in s && y !in s && x != y
    ensures Distinct(s + [x, y])
  {
  }

  /** `generateFourHandsWithFamilies(weights, maxAttempts)`: up to
      `maxAttempts` runs of the inner loop, each starting with no used card;
      `None` when all of them stop early. */
  function GenerateFourHands(entries: Weights, maxAttempts: int, rand: nat -> Draw, next: nat): (d: Dealt)
    requires |entries| > 0
    ensures next <= d.next
    ensures d.hands.Some? ==> ValidDeal(entries, d.hands.value)
    ensures maxAttempts <= 0 ==> d.hands.None?
    ensures maxAttempts > 0 ==>
              (DealStateEmpty(entries);
               var first := DealFour(entries, rand, next, [], {});
               && (first.hands.Some? ==> d == first)
               && (first.hands.None? ==> d == GenerateFourHands(entries, maxAttempts - 1, rand, first.next)))
    decreases maxAttempts
  {
    if maxAttempts <= 0 then Dealt(None, next)
    else
      assert DealState(entries, [], {});
      var d := DealFour(entries, rand, next, [], {});
      if d.hands.Some? then d else GenerateFourHands(entries, maxAttempts - 1, rand, d.next)
  }

  /** One round of the inner loop: it stops when the sampled family has no
      hand left and otherwise goes on two draws later with one more hand. */
  lemma DealFourStep(entries: Weights, rand: nat -> Draw, next: nat, hands: seq<Hand>, used: set<Card>)
    requires |entries| > 0 && |hands| < 4
    requires DealState(entries, hands, used)
    ensures var name := SampleFamily(entries, rand(next));
            var pick := PickHandFromFamily(name, used, rand(next + 1));
            && (pick.None? ==> Candidates(name, used) == [] && DealFour(entries, rand, next, hands, used) == Dealt(None, next + 1))
            && (pick.Some? ==>
                  && FamilyHand(name, pick.value)
                  && DealState(entries, hands + [pick.value], used + {pick.value.0, pick.value.1})
                  && DealFour(entries, rand, next, hands, used)
                     == DealFour(entries, rand, next + 2, hands + [pick.value], used + {pick.value.0, pick.value.1}))
  {
    var name := SampleFamily(entries, rand(next));
    var pick := PickHandFromFamily(name, used, rand(next + 1));
    if pick.Some? {
      CandidateSound(name, used, pick.value);
      DealStep(entries, hands, used, name, pick.value);
    }
  }

  lemma DealFourDone(entries: Weights, rand: nat -> Draw, next: nat, hands: seq<Hand>, used: set<Card>)
    requires |entries| > 0 && |hands| == 4
    requires DealState(entries, hands, used)
    ensures DealFour(entries, rand, next, hands, used) == Dealt(Some(hands), next)
  {
  }

  /** The family sampled by draw `at` has no hand left once some cards
      including `used` are dealt. */
  ghost predicate NoHandLeft(entries: Weights, rand: nat -> Draw, at: nat, used: set<Card>)
    requires |entries| > 0
  {
    exists u: set<Card> :: used <= u && Candidates(SampleFamily(entries, rand(at)), u) == []
  }

  lemma NoHandLeftFewer(entries: Weights, rand: nat -> Draw, at: nat, used: set<Card>, more: set<Card>)
    requires |entries| > 0 && used <= more
    requires NoHandLeft(entries, rand, at, more)
    ensures NoHandLeft(entries, rand, at, used)
  {
    var u :| more <= u && Candidates(SampleFamily(entries, rand(at)), u) == [];
    assert used <= u;
  }

  /** How a run of the inner loop from draw `next`, with `left` hands to
      deal and the cards `used` dealt, can end: complete after two draws per
      hand, or just after the family draw of one of those hands, that family
      having no hand left once the cards dealt by then are excluded. */
  ghost predicate Outcome(entries: Weights, rand: nat -> Draw, next: nat, left: nat, used: set<Card>, d: Dealt)
    requires |entries| > 0
  {
    && (d.hands.Some? ==> d.next == FamilyDraw(next, left))
    && (d.hands.None? ==>
          exists k: nat :: k < left && d.next == FamilyDraw(next, k) + 1 &&
            NoHandLeft(entries, rand, FamilyDraw(next, k), used))
  }

  /** A stop at the first family draw. */
  lemma OutcomeStop(entries: Weights, rand: nat -> Draw, next: nat, left: nat, used: set<Card>, d: Dealt)
    requires |entries| > 0 && left > 0
    requires d == Dealt(None, next + 1)
    requires Candidates(SampleFamily(entries, rand(next)), used) == []
    ensures Outcome(entries, rand, next, left, used, d)
  {
    assert FamilyDraw(next, 0) == next;
    assert NoHandLeft(entries, rand, FamilyDraw(next, 0), used) by {
      assert used <= used;
    }
  }

  /** A deal that needs no more hand reads no draw. */
  lemma OutcomeDone(entries: Weights, rand: nat -> Draw, next: nat, used: set<Card>, d: Dealt)
    requires |entries| > 0
    requires d.hands.Some? && d.next == next
    ensures Outcome(entries, rand, next, 0, used, d)
  {
    assert FamilyDraw(next, 0) == next;
  }

  /** Dealing one more hand first shifts the outcome by two draws. */
  lemma OutcomeAfterHand(entries: Weights, rand: nat -> Draw, next: nat, left: nat, used: set<Card>, used': set<Card>, d: Dealt)
    requires |entries| > 0 && used <= used'
    requires Outcome(entries, rand, next + 2, left, used', d)
    ensures Outcome(entries, rand, next, left + 1, used, d)
  {
    if d.hands.None? {
      var k: nat :| k < left && d.next == FamilyDraw(next + 2, k) + 1 &&
        NoHandLeft(entries, rand, FamilyDraw(next + 2, k), used');
      assert FamilyDraw(next + 2, k) == FamilyDraw(next, k + 1);
      NoHandLeftFewer(entries, rand, FamilyDraw(next, k + 1), used, used');
    } else {
      assert FamilyDraw(next + 2, left) == FamilyDraw(next, left + 1);
    }
  }

  /** How the inner loop ends. A complete deal reads two draws per hand. An
      early stop comes right after the draw that samples the family of some
      hand, and that family has no hand left avoiding the cards dealt so
      far. */
  lemma {:induction false} DealFourOutcome(entries: Weights, rand: nat -> Draw, next: nat, hands: seq<Hand>, used: set<Card>)
    requires |entries| > 0 && |hands| <= 4
    requires DealState(entries, hands, used)
    ensures Outcome(entries, rand, next, 4 - |hands|, used, DealFour(entries, rand, next, hands, used))
    decreases 4 - |hands|, 1
  {
    if |hands| == 4 {
      DealFourDone(entries, rand, next, hands, used);
      OutcomeDone(entries, rand, next, used, DealFour(entries, rand, next, hands, used));
    } else {
      DealFourStep(entries, rand, next, hands, used);
      var pick := PickHandFromFamily(SampleFamily(entries, rand(next)), used, rand(next + 1));
      if pick.Some? {
        OutcomeOfHand(entries, rand, next, hands, used, pick.value);
      } else {
        OutcomeStop(entries, rand, next, 4 - |hands|, used, DealFour(entries, rand, next, hands, used));
      }
    }
  }

  /** The outcome after the loop deals hand `h`. */
  lemma {:induction false} OutcomeOfHand(entries: Weights, rand: nat -> Draw, next: nat, hands: seq<Hand>, used: set<Card>, h: Hand)
    requires |entries| > 0 && |hands| < 4
    requires DealState(entries, hands + [h], used + {h.0, h.1})
    ensures Outcome(entries, rand, next, 4 - |hands|, used,
                    DealFour(entries, rand, next + 2, hands + [h], used + {h.0, h.1}))
    decreases 4 - |hands|, 0
  {
    var used' := used + {h.0, h.1};
    DealFourOutcome(entries, rand, next + 2, hands + [h], used');
    OutcomeAfterHand(entries, rand, next, 4 - |hands| - 1, used, used', DealFour(entries, rand, next + 2, hands + [h], used'));
  }

  /** Hand `h` belongs to the family sampled by draw `at`. */
  ghost predicate FromDraw(entries: Weights, rand: nat -> Draw, at: nat, h: Hand)
    requires |entries| > 0
  {
    FamilyHand(SampleFamily(entries, rand(at)), h)
  }

  /** The hands from index `from` on are each from the family sampled for
      them, the first of them by draw `next`. */
  ghost predicate FromDraws(entries: Weights, rand: nat -> Draw, next: nat, from: nat, hs: seq<Hand>)
    requires |entries| > 0
  {
    forall i :: from <= i < |hs| ==> FromDraw(entries, rand, FamilyDraw(next, i - from), hs[i])
  }

  lemma FromDrawsAfterHand(entries: Weights, rand: nat -> Draw, next: nat, from: nat, hs: seq<Hand>)
    requires |entries| > 0 && from < |hs|
    requires FromDraw(entries, rand, next, hs[from])
    requires FromDraws(entries, rand, next + 2, from + 1, hs)
    ensures FromDraws(entries, rand, next, from, hs)
  {
    forall i | from <= i < |hs|
      ensures FromDraw(entries, rand, FamilyDraw(next, i - from), hs[i])
    {
      if i > from {
        assert FamilyDraw(next, i - from) == FamilyDraw(next + 2, i - (from + 1));
      }
    }
  }

  lemma PrefixLast<T>(s: seq<T>, prefix: seq<T>, x: T)
    requires |prefix| < |s| && s[..|prefix| + 1] == prefix + [x]
    ensures s[|prefix|] == x
  {
    assert s[..|prefix| + 1][|prefix|] == x;
  }

  /** In a complete deal every new hand is from the family sampled for it,
      so each of those families had a hand left. */
  lemma {:induction false} DealFourFamilies(entries: Weights, rand: nat -> Draw, next: nat, hands: seq<Hand>, used: set<Card>)
    requires |entries| > 0 && |hands| <= 4
    requires DealState(entries, hands, used)
    ensures var d := DealFour(entries, rand, next, hands, used);
            d.hands.Some? ==> FromDraws(entries, rand, next, |hands|, d.hands.value)
    decreases 4 - |hands|, 1
  {
    if |hands| == 4 {
      DealFourDone(entries, rand, next, hands, used);
    } else {
      DealFourStep(entries, rand, next, hands, used);
      var pick := PickHandFromFamily(SampleFamily(entries, rand(next)), used, rand(next + 1));
      if pick.Some? {
        assert FromDraw(entries, rand, next, pick.value);
        FamiliesOfHand(entries, rand, next, hands, used, pick.value);
      }
    }
  }

  /** The families of a complete deal after the loop deals hand `h`. */
  lemma {:induction false} FamiliesOfHand(entries: Weights, rand: nat -> Draw, next: nat, hands: seq<Hand>, used: set<Card>, h: Hand)
    requires |entries| > 0 && |hands| < 4
    requires DealState(entries, hands + [h], used + {h.0, h.1})
    requires FromDraw(entries, rand, next, h)
    ensures var d := DealFour(entries, rand, next + 2, hands + [h], used + {h.0, h.1});
            d.hands.Some? ==> FromDraws(entries, rand, next, |hands|, d.hands.value)
    decreases 4 - |hands|, 0
  {
    var hands', used' := hands + [h], used + {h.0, h.1};
    DealFourFamilies(entries, rand, next + 2, hands', used');
    var d := DealFour(entries, rand, next + 2, hands', used');
    if d.hands.Some? {
      var hs := d.hands.value;
      PrefixLast(hs, hands, h);
      FromDrawsAfterHand(entries, rand, next, |hands|, hs);
    }
  }

  /** The draw that samples the family of the `k`-th hand dealt from
      `next` on. */
  function FamilyDraw(next: nat, k: nat): nat {
    next + 2 * k
  }

  lemma DealStateEmpty(entries: Weights)
    ensures DealState(entries, [], {})
  {
  }

  /** The outcomes of `n` runs of the inner loop, each starting with no used
      card at the draw where the one before it ended. */
  function Attempts(entries: Weights, rand: nat -> Draw, next: nat, n: nat): (s: seq<Dealt>)
    requires |entries| > 0
    ensures |s| == n
    decreases n
  {
    if n == 0 then []
    else
      DealStateEmpty(entries);
      var d := DealFour(entries, rand, next, [], {});
      [d] + Attempts(entries, rand, d.next, n - 1)
  }

  /** `d` is the first complete outcome of `s`, or incomplete when none of
      them is complete. */
  ghost predicate FirstComplete(s: seq<Dealt>, d: Dealt) {
    && (d.hands.Some? <==> exists k :: 0 <= k < |s| && s[k].hands.Some?)
    && (d.hands.Some? ==> exists k :: 0 <= k < |s| && d == s[k] && forall j :: 0 <= j < k ==> s[j].hands.None?)
  }

  lemma FirstCompleteEmpty(d: Dealt)
    requires d.hands.None?
    ensures FirstComplete([], d)
  {
  }

  lemma FirstCompleteCons(x: Dealt, rest: seq<Dealt>, d: Dealt)
    requires x.hands.Some? ==> d == x
    requires x.hands.None? ==> FirstComplete(rest, d)
    ensures FirstComplete([x] + rest, d)
  {
    var s := [x] + rest;
    assert s[0] == x;
    if x.hands.None? {
      assert forall k :: 0 < k < |s| ==> s[k] == rest[k - 1];
      if d.hands.Some? {
        var k :| 0 <= k < |rest| && d == rest[k] && forall j :: 0 <= j < k ==> rest[j].hands.None?;
        assert d == s[k + 1];
      } else {
        forall k | 0 <= k < |s|
          ensures s[k].hands.None?
        {
          if k > 0 {
            assert s[k] == rest[k - 1];
          }
        }
      }
    }
  }

  /** The generator answers exactly when one of its attempts completes, and
      its answer is the first complete attempt. */
  lemma {:induction false} GenerateFindsFirstComplete(entries: Weights, maxAttempts: int, rand: nat -> Draw, next: nat)
    requires |entries| > 0
    ensures FirstComplete(Attempts(entries, rand, next, if maxAttempts > 0 then maxAttempts else 0),
                          GenerateFourHands(entries, maxAttempts, rand, next))
    decreases maxAttempts
  {
    var d := GenerateFourHands(entries, maxAttempts, rand, next);
    if maxAttempts <= 0 {
      FirstCompleteEmpty(d);
    } else {
      DealStateEmpty(entries);
      var d0 := DealFour(entries, rand, next, [], {});
      var rest := Attempts(entries, rand, d0.next, maxAttempts - 1);
      assert Attempts(entries, rand, next, maxAttempts) == [d0] + rest;
      if d0.hands.None? {
        assert d == GenerateFourHands(entries, maxAttempts - 1, rand, d0.next);
        GenerateFindsFirstComplete(entries, maxAttempts - 1, rand, d0.next);
      }
      FirstCompleteCons(d0, rest, d);
    }
  }
}
