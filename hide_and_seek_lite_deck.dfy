/** The lite game's hider deck: the cards still to draw, the hider's hand, the discard pile
    and the fixed catalogue of every card the deck was built from. */
module LiteDeck {
  import opened Exceptions
  import opened LiteCards

  /** DEFAULT_MAX_HAND_SIZE is read from hide_and_seek.cfg, which is not part of this model.
      The value below is a placeholder: no proof depends on it. */
  const DEFAULT_MAX_HAND_SIZE: int := 6

  /** The time bonuses of the starting deck, with their copies. */
  function BonusPairs(): seq<(Card, nat)>
  {
    [(TimeBonus(3), 25), (TimeBonus(6), 15), (TimeBonus(9), 10), (TimeBonus(12), 3),
     (TimeBonus(18), 2)]
  }

  /** The powerups of the starting deck, with their copies. */
  function PowerupPairs(): seq<(Card, nat)>
  {
    [(Randomise, 4), (Veto, 4), (Duplicate, 2), (DiscardDraw(1, 2), 4), (DiscardDraw(2, 3), 4),
     (DrawExpand(1, 1), 2)]
  }

  /** Every curse, in the order the starting deck lists them. */
  function AllCurses(): seq<CurseKind>
  {
    [ Zoologist, UnguidedTourist, EndlessTumble, Hangman, Chalice, MediocreTravelAgent,
      LuxuryCar, UTurn, BridgeTroll, Water, JammedDoor, Cairn, UrbanExplorer, DistantCuisine,
      RightTurn, Labyrinth, BirdGuide, DrainedBrain, Ransom, GamblersFeet, ProsperousHome, Void,
      ExpressTrain, ZippedLip, PlaguedWord, Queue, Rewind, TinyHome ]
  }

  /** The curses of the starting deck, one copy each. */
  function CursePairs(): seq<(Card, nat)>
  {
    seq(|AllCurses()|, k requires 0 <= k < |AllCurses()| => (Curse(AllCurses()[k]), 1))
  }

  /** The starting deck: each card with the number of copies the deck holds. */
  function StartingDeck(): seq<(Card, nat)>
  {
    BonusPairs() + PowerupPairs() + CursePairs()
  }

  /** `n` copies of `c`. */
  function Repeat(c: Card, n: nat): (r: seq<Card>)
    ensures |r| == n
    ensures forall k :: 0 <= k < n ==> r[k] == c
  {
    seq(n, _ => c)
  }

  /** The pairs written out card by card, in order. */
  function Expand(pairs: seq<(Card, nat)>): seq<Card>
  {
    if pairs == [] then [] else Repeat(pairs[0].0, pairs[0].1) + Expand(pairs[1..])
  }

  /** Every card of a new deck, in the order the constructor appends them. */
  function Catalogue(): seq<Card>
  {
    Expand(StartingDeck())
  }

  lemma {:induction false} ExpandAppend(p: seq<(Card, nat)>, q: seq<(Card, nat)>)
    ensures Expand(p + q) == Expand(p) + Expand(q)
  {
    if p == [] {
      assert p + q == q;
    } else {
      assert (p + q)[1..] == p[1..] + q;
      ExpandAppend(p[1..], q);
    }
  }

  /** Extending a prefix of the pairs by one pair extends its expansion by that pair's
      copies. */
  lemma ExpandStep(pairs: seq<(Card, nat)>, k: nat)
    requires k < |pairs|
    ensures Expand(pairs[..k + 1]) == Expand(pairs[..k]) + Repeat(pairs[k].0, pairs[k].1)
  {
    assert pairs[..k + 1] == pairs[..k] + [pairs[k]];
    ExpandAppend(pairs[..k], [pairs[k]]);
    assert Expand([pairs[k]]) == Repeat(pairs[k].0, pairs[k].1) + Expand([]);
  }

  /** How many cards of `s` have the given colour: red for time bonuses, blue for powerups
      and purple for curses. */
  function CountColour(s: seq<Card>, colour: Colour): (n: nat)
    ensures n <= |s|
  {
    if s == [] then 0
    else (if GetColour(s[0]) == colour then 1 else 0) + CountColour(s[1..], colour)
  }

  lemma {:induction false} CountColourAppend(s: seq<Card>, t: seq<Card>, colour: Colour)
    ensures CountColour(s + t, colour) == CountColour(s, colour) + CountColour(t, colour)
  {
    if s == [] {
      assert s + t == t;
    } else {
      assert (s + t)[1..] == s[1..] + t;
      CountColourAppend(s[1..], t, colour);
    }
  }

  lemma {:induction false} CountColourRepeat(c: Card, n: nat, colour: Colour)
    ensures CountColour(Repeat(c, n), colour) == if GetColour(c) == colour then n else 0
  {
    if n > 0 {
      assert Repeat(c, n)[1..] == Repeat(c, n - 1);
      CountColourRepeat(c, n - 1, colour);
    }
  }

  /** The copies of the pairs of the given colour. */
  function PairsOfColour(pairs: seq<(Card, nat)>, colour: Colour): nat
  {
    if pairs == [] then 0
    else (if GetColour(pairs[0].0) == colour then pairs[0].1 else 0) + PairsOfColour(pairs[1..], colour)
  }

  /** The copies of all the pairs. */
  function PairsTotal(pairs: seq<(Card, nat)>): nat
  {
    if pairs == [] then 0 else pairs[0].1 + PairsTotal(pairs[1..])
  }

  lemma {:induction false} ExpandCounts(pairs: seq<(Card, nat)>, colour: Colour)
    ensures |Expand(pairs)| == PairsTotal(pairs)
    ensures CountColour(Expand(pairs), colour) == PairsOfColour(pairs, colour)
  {
    if pairs != [] {
      ExpandCounts(pairs[1..], colour);
      CountColourAppend(Repeat(pairs[0].0, pairs[0].1), Expand(pairs[1..]), colour);
      CountColourRepeat(pairs[0].0, pairs[0].1, colour);
    }
  }

  lemma {:induction false} PairsAppend(p: seq<(Card, nat)>, q: seq<(Card, nat)>, colour: Colour)
    ensures PairsTotal(p + q) == PairsTotal(p) + PairsTotal(q)
    ensures PairsOfColour(p + q, colour) == PairsOfColour(p, colour) + PairsOfColour(q, colour)
  {
    if p == [] {
      assert p + q == q;
    } else {
      assert (p + q)[1..] == p[1..] + q;
      PairsAppend(p[1..], q, colour);
    }
  }

  lemma PairsAppend3(p: seq<(Card, nat)>, q: seq<(Card, nat)>, r: seq<(Card, nat)>, colour: Colour)
    ensures PairsTotal(p + q + r) == PairsTotal(p) + PairsTotal(q) + PairsTotal(r)
    ensures PairsOfColour(p + q + r, colour) ==
      PairsOfColour(p, colour) + PairsOfColour(q, colour) + PairsOfColour(r, colour)
  {
    PairsAppend(p + q, r, colour);
    PairsAppend(p, q, colour);
  }

  /** Pairs that are all single purple cards count one each, all of them purple. */
  lemma {:induction false} SingleCurses(p: seq<(Card, nat)>, colour: Colour)
    requires forall k :: 0 <= k < |p| ==> p[k].0.Curse? && p[k].1 == 1
    ensures PairsTotal(p) == |p|
    ensures PairsOfColour(p, colour) == if colour == Purple then |p| else 0
  {
    if p != [] {
      SingleCurses(p[1..], colour);
    }
  }

  lemma BonusPairsCounts(colour: Colour)
    ensures PairsTotal(BonusPairs()) == 55
    ensures PairsOfColour(BonusPairs(), colour) == if colour == Red then 55 else 0
  {
  }

  lemma PowerupPairsCounts(colour: Colour)
    ensures PairsTotal(PowerupPairs()) == 20
    ensures PairsOfColour(PowerupPairs(), colour) == if colour == Blue then 20 else 0
  {
  }

  lemma CursePairsCounts(colour: Colour)
    ensures PairsTotal(CursePairs()) == 28
    ensures PairsOfColour(CursePairs(), colour) == if colour == Purple then 28 else 0
  {
    SingleCurses(CursePairs(), colour);
  }

  /** How many cards of the catalogue have the given colour. */
  lemma {:induction false} CatalogueColour(colour: Colour)
    ensures |Catalogue()| == 103
    ensures CountColour(Catalogue(), colour) ==
      if colour == Red then 55 else if colour == Blue then 20 else 28
  {
    ExpandCounts(StartingDeck(), colour);
    StartingDeckCounts(colour);
  }

  lemma {:induction false} StartingDeckCounts(colour: Colour)
    ensures PairsTotal(StartingDeck()) == 103
    ensures PairsOfColour(StartingDeck(), colour) ==
      if colour == Red then 55 else if colour == Blue then 20 else 28
  {
    BonusPairsCounts(colour);
    PowerupPairsCounts(colour);
    CursePairsCounts(colour);
    PiecesCounts(BonusPairs(), PowerupPairs(), CursePairs(), colour);
  }

  /** Pieces of 55 red, 20 blue and 28 purple cards make 103 cards of those colours. */
  lemma PiecesCounts(b: seq<(Card, nat)>, p: seq<(Card, nat)>, c: seq<(Card, nat)>, colour: Colour)
    requires PairsTotal(b) == 55 && PairsOfColour(b, colour) == if colour == Red then 55 else 0
    requires PairsTotal(p) == 20 && PairsOfColour(p, colour) == if colour == Blue then 20 else 0
    requires PairsTotal(c) == 28 && PairsOfColour(c, colour) == if colour == Purple then 28 else 0
    ensures PairsTotal(b + p + c) == 103
    ensures PairsOfColour(b + p + c, colour) ==
      if colour == Red then 55 else if colour == Blue then 20 else 28
  {
    PairsAppend3(b, p, c, colour);
  }

  /** A new deck holds 103 cards: 55 time bonuses, 20 powerups and 28 curses. */
  lemma CatalogueCounts()
    ensures |Catalogue()| == 103
    ensures CountColour(Catalogue(), Red) == 55
    ensures CountColour(Catalogue(), Blue) == 20
    ensures CountColour(Catalogue(), Purple) == 28
  {
    CatalogueColour(Red);
    CatalogueColour(Blue);
    CatalogueColour(Purple);
  }

  /** Every card of the expansion is the card of some pair. */
  lemma {:induction false} ExpandMember(pairs: seq<(Card, nat)>, c: Card)
    requires c in Expand(pairs)
    ensures exists k :: 0 <= k < |pairs| && pairs[k].0 == c
  {
    if c in Expand(pairs[1..]) {
      ExpandMember(pairs[1..], c);
      var k :| 0 <= k < |pairs| - 1 && pairs[1..][k].0 == c;
      assert pairs[k + 1].0 == c;
    } else {
      assert c in Repeat(pairs[0].0, pairs[0].1);
      assert pairs[0].0 == c;
    }
  }

  /** Every time bonus of the catalogue is worth a positive number of minutes. */
  lemma CatalogueBonusesPositive(c: Card)
    requires c in Catalogue()
    ensures c.TimeBonus? ==> c.minutes > 0
  {
    ExpandAppend(BonusPairs() + PowerupPairs(), CursePairs());
    ExpandAppend(BonusPairs(), PowerupPairs());
    if c in Expand(BonusPairs()) {
      BonusPieceMember(c);
    } else if c in Expand(PowerupPairs()) {
      PowerupPieceMember(c);
    } else {
      CursePieceMember(c);
    }
  }

  lemma BonusPieceMember(c: Card)
    requires c in Expand(BonusPairs())
    ensures c.TimeBonus? && c.minutes > 0
  {
    ExpandMember(BonusPairs(), c);
  }

  lemma PowerupPieceMember(c: Card)
    requires c in Expand(PowerupPairs())
    ensures IsPowerup(c)
  {
    ExpandMember(PowerupPairs(), c);
  }

  lemma CursePieceMember(c: Card)
    requires c in Expand(CursePairs())
    ensures c.Curse?
  {
    ExpandMember(CursePairs(), c);
  }

  /** The seconds the time bonuses of `s` grant together. */
  function BonusSeconds(s: seq<Card>): int
  {
    if s == [] then 0 else BonusSeconds(s[..|s| - 1]) + TimeBonusSeconds(s[|s| - 1])
  }

  /** The minutes written on the time bonuses of `s`; every other card counts nothing. */
  function BonusMinutes(s: seq<Card>): int
  {
    if s == [] then 0
    else (if s[0].TimeBonus? then s[0].minutes else 0) + BonusMinutes(s[1..])
  }

  lemma {:induction false} BonusMinutesAppend(s: seq<Card>, c: Card)
    ensures BonusMinutes(s + [c]) == BonusMinutes(s) + (if c.TimeBonus? then c.minutes else 0)
  {
    if s != [] {
      assert (s + [c])[1..] == s[1..] + [c];
      BonusMinutesAppend(s[1..], c);
    }
  }

  /** The seconds granted are sixty times the minutes written on the time bonuses. */
  lemma {:induction false} BonusSecondsAreMinutes(s: seq<Card>)
    ensures BonusSeconds(s) == 60 * BonusMinutes(s)
  {
    if s != [] {
      BonusSecondsAreMinutes(s[..|s| - 1]);
      assert s == s[..|s| - 1] + [s[|s| - 1]];
      BonusMinutesAppend(s[..|s| - 1], s[|s| - 1]);
    }
  }

  /** Cards whose time bonuses are all non-negative grant a non-negative total. */
  lemma {:induction false} BonusSecondsNonNegative(s: seq<Card>)
    requires forall k :: 0 <= k < |s| && s[k].TimeBonus? ==> s[k].minutes >= 0
    ensures BonusSeconds(s) >= 0
  {
    if s != [] {
      BonusSecondsNonNegative(s[..|s| - 1]);
    }
  }

  /** The index of the first occurrence of `c`. */
  function FirstIndex(s: seq<Card>, c: Card): (i: nat)
    requires c in s
    ensures i < |s| && s[i] == c && c !in s[..i]
  {
    if s[0] == c then 0
    else
      var i := FirstIndex(s[1..], c);
      assert s[..i + 1] == [s[0]] + s[1..][..i];
      i + 1
  }

  /** `list.remove`: drops the first occurrence of `c`, and nothing else. */
  function RemoveFirst(s: seq<Card>, c: Card): (r: seq<Card>)
    requires c in s
    ensures |r| == |s| - 1
    ensures multiset(r) == multiset(s) - multiset{c}
  {
    var i := FirstIndex(s, c);
    assert s == s[..i] + [c] + s[i + 1..];
    s[..i] + s[i + 1..]
  }

  /** Taking out the card at index `i` takes one copy of it out of the multiset. */
  lemma RemoveAtMultiset(s: seq<Card>, i: nat)
    requires i < |s|
    ensures multiset(s[..i] + s[i + 1..]) + multiset{s[i]} == multiset(s)
  {
    assert s == s[..i] + [s[i]] + s[i + 1..];
  }

  /** Removing one card from a hand takes exactly its seconds off the total. */
  lemma {:induction false} BonusSecondsRemoveFirst(s: seq<Card>, c: Card)
    requires c in s
    ensures BonusSeconds(RemoveFirst(s, c)) == BonusSeconds(s) - TimeBonusSeconds(c)
  {
    var i := FirstIndex(s, c);
    assert s == (s[..i] + [c]) + s[i + 1..];
    BonusSecondsAppend(s[..i] + [c], s[i + 1..]);
    BonusSecondsAppend(s[..i], s[i + 1..]);
    assert (s[..i] + [c])[..i] == s[..i];
  }

  lemma {:induction false} BonusSecondsAppend(s: seq<Card>, t: seq<Card>)
    ensures BonusSeconds(s + t) == BonusSeconds(s) + BonusSeconds(t)
  {
    if t == [] {
      assert s + t == s;
    } else {
      assert (s + t)[..|s + t| - 1] == s + t[..|t| - 1];
      BonusSecondsAppend(s, t[..|t| - 1]);
    }
  }

  /** `fetch_card_by_name`: the first card of `cards` with the given display name, or an
      assertion failure when no card has it. */
  function FirstNamed(cards: seq<Card>, name: string): (r: Result<Card>)
    ensures r.Err? <==> forall k :: 0 <= k < |cards| ==> GetCardName(cards[k]) != name
    ensures r.Err? ==> r.error == AssertionFailed
    ensures r.Ok? ==> GetCardName(r.value) == name
    ensures r.Ok? ==> exists i :: (0 <= i < |cards| && cards[i] == r.value
      && forall j :: 0 <= j < i ==> GetCardName(cards[j]) != name)
  {
    if cards == [] then Err(AssertionFailed)
    else if GetCardName(cards[0]) == name then
      Ok(cards[0])
    else
      var r := FirstNamed(cards[1..], name);
      if r.Ok? then
        var i :| 0 <= i < |cards[1..]| && cards[1..][i] == r.value && GetCardName(r.value) == name
          && forall j :: 0 <= j < i ==> GetCardName(cards[1..][j]) != name;
        assert cards[i + 1] == r.value;
        assert forall j :: 0 <= j < i + 1 ==> GetCardName(cards[j]) != name by {
          forall j | 0 <= j < i + 1
            ensures GetCardName(cards[j]) != name
          {
            if j > 0 {
              assert cards[j] == cards[1..][j - 1];
            }
          }
        }
        r
      else
        assert forall k :: 0 <= k < |cards| ==> GetCardName(cards[k]) != name by {
          forall k | 0 <= k < |cards|
            ensures GetCardName(cards[k]) != name
          {
            if k > 0 {
              assert cards[k] == cards[1..][k - 1];
            }
          }
        }
        r
  }

  /** A card's name finds that very card again: no two cards share a name. */
  lemma FirstNamedRoundTrip(cards: seq<Card>, c: Card)
    requires c in cards
    ensures FirstNamed(cards, GetCardName(c)) == Ok(c)
  {
    var r := FirstNamed(cards, GetCardName(c));
    var k :| 0 <= k < |cards| && cards[k] == c;
    assert GetCardName(cards[k]) == GetCardName(c);
    GetCardNameInjective(r.value, c);
  }

  /** Moving one copy of a hand card to the discard pile keeps every card accounted for. */
  lemma DiscardConserves(deck: seq<Card>, hand: seq<Card>, discardPile: seq<Card>,
                         popped: multiset<Card>, card: Card)
    requires card in hand
    ensures multiset(deck) + multiset(RemoveFirst(hand, card)) + multiset(discardPile + [card]) + popped
         == multiset(deck) + multiset(hand) + multiset(discardPile) + popped
  {
    assert card in multiset(hand);
    assert multiset(discardPile + [card]) == multiset(discardPile) + multiset{card};
  }

  /** Removing a card from the hand takes its seconds off the hand's time bonuses. */
  lemma DiscardBonus(hand: seq<Card>, card: Card)
    requires card in hand
    ensures 60 * BonusMinutes(RemoveFirst(hand, card)) == 60 * BonusMinutes(hand) - TimeBonusSeconds(card)
  {
    BonusSecondsRemoveFirst(hand, card);
    BonusSecondsAreMinutes(hand);
    BonusSecondsAreMinutes(RemoveFirst(hand, card));
  }

  /** What the proofs use of the catalogue: its size and that every time bonus is worth a
      positive number of minutes. */
  ghost predicate CatalogueFacts(cards: seq<Card>)
  {
    |cards| == 103 && forall c :: c in cards && c.TimeBonus? ==> c.minutes > 0
  }

  class HiderDeck {
    var hand: seq<Card>
    var deck: seq<Card>
    var cards: seq<Card>
    var discardPile: seq<Card>
    var maxHandSize: int
    /** The cards `pop_deck` has taken out of the deck: they are in no pile. */
    ghost var popped: multiset<Card>

    /** The catalogue is the new deck's, and every catalogue card is in exactly one of the
        deck, the hand, the discard pile or the popped cards. */
    ghost predicate Valid()
      reads this
    {
      CatalogueFacts(cards)
      && multiset(deck) + multiset(hand) + multiset(discardPile) + popped == multiset(cards)
    }

    /** `__init__`: every card of the starting deck, in order, into both the deck and the
        catalogue; empty hand and discard pile. */
    constructor ()
      ensures Valid()
      ensures deck == Catalogue() && cards == Catalogue()
      ensures hand == [] && discardPile == [] && popped == multiset{}
      ensures maxHandSize == DEFAULT_MAX_HAND_SIZE
    {
      hand := [];
      deck := [];
      cards := [];
      maxHandSize := DEFAULT_MAX_HAND_SIZE;
      popped := multiset{};
      discardPile := [];
      new;
      AppendPairs(StartingDeck());
      CatalogueCounts();
      forall c | c in cards && c.TimeBonus?
        ensures c.minutes > 0
      {
        CatalogueBonusesPositive(c);
      }
    }

    /** The outer loop of `__init__`: each card of the pairs, with its copies, in order,
        onto both the deck and the catalogue. */
    method AppendPairs(pairs: seq<(Card, nat)>)
      modifies this
      ensures deck == old(deck) + Expand(pairs) && cards == old(cards) + Expand(pairs)
      ensures hand == old(hand) && discardPile == old(discardPile) && popped == old(popped)
      ensures maxHandSize == old(maxHandSize)
    {
      var k := 0;
      while k < |pairs|
        invariant 0 <= k <= |pairs|
        invariant deck == old(deck) + Expand(pairs[..k]) && cards == old(cards) + Expand(pairs[..k])
        invariant hand == old(hand) && discardPile == old(discardPile) && popped == old(popped)
        invariant maxHandSize == old(maxHandSize)
      {
        var (card, num) := pairs[k];
        AppendCopies(card, num);
        ExpandStep(pairs, k);
        k := k + 1;
      }
      assert pairs[..k] == pairs;
    }

    /** The inner loop of `__init__`: `num` copies of one card onto both the deck and the
        catalogue. */
    method AppendCopies(card: Card, num: nat)
      modifies this
      ensures deck == old(deck) + Repeat(card, num) && cards == old(cards) + Repeat(card, num)
      ensures hand == old(hand) && discardPile == old(discardPile) && popped == old(popped)
      ensures maxHandSize == old(maxHandSize)
    {
      var i := 0;
      while i < num
        invariant 0 <= i <= num
        invariant deck == old(deck) + Repeat(card, i) && cards == old(cards) + Repeat(card, i)
        invariant hand == old(hand) && discardPile == old(discardPile) && popped == old(popped)
        invariant maxHandSize == old(maxHandSize)
      {
        assert Repeat(card, i + 1) == Repeat(card, i) + [card];
        deck := deck + [card];
        cards := cards + [card];
        i := i + 1;
      }
    }

    /** `count_time_bonuses`: the seconds the time bonuses in the hand grant, sixty per
        minute written on them; other cards grant none, and a valid deck's total is never
        negative. */
    function CountTimeBonuses(): (seconds: int)
      reads this
      ensures seconds == 60 * BonusMinutes(hand)
      ensures Valid() ==> seconds >= 0
    {
      BonusSecondsAreMinutes(hand);
      HandBonusesNonNegative();
      BonusSeconds(hand)
    }

    lemma HandBonusesNonNegative()
      ensures Valid() ==> BonusSeconds(hand) >= 0
    {
      if !Valid() {
        return;
      }
      forall k | 0 <= k < |hand| && hand[k].TimeBonus?
        ensures hand[k].minutes >= 0
      {
        assert hand[k] in multiset(cards);
      }
      BonusSecondsNonNegative(hand);
    }

    /** `get_hand_size` */
    function GetHandSize(): nat
      reads this
    {
      |hand|
    }

    /** No card is created or lost: the piles and the popped cards always hold the 103
        cards of the catalogue between them. */
    lemma CardsConserved()
      requires Valid()
      ensures |deck| + |hand| + |discardPile| + |popped| == 103
    {
      assert |multiset(cards)| == 103;
    }

    /** `fetch_card_by_name`: looks the name up in the catalogue, not in the piles. The
        assertion fails exactly when no catalogue card has the name; otherwise the result is
        a catalogue card with that name. */
    function FetchCardByName(name: string): (r: Result<Card>)
      reads this
      ensures r.Err? <==> forall c :: c in cards ==> GetCardName(c) != name
      ensures r.Ok? ==> r.value in cards && GetCardName(r.value) == name
    {
      FirstNamed(cards, name)
    }

    /** `is_legal_hand`: the hand holds no more cards than the maximum hand size. */
    predicate IsLegalHand()
      reads this
    {
      GetHandSize() <= maxHandSize
    }

    /** `discard`: a card not in the hand is a ValueError and changes nothing. Otherwise
        its first occurrence leaves the hand and the card goes on top of the discard pile;
        the deck is not touched, and the time bonuses lose exactly that card's seconds. */
    method Discard(card: Card) returns (outcome: Outcome)
      requires Valid()
      modifies this
      ensures Valid()
      ensures card !in old(hand) ==> outcome == Fail(ValueError) && unchanged(this)
      ensures card in old(hand) ==>
        outcome == Pass && hand == RemoveFirst(old(hand), card)
        && discardPile == old(discardPile) + [card]
        && deck == old(deck) && cards == old(cards) && maxHandSize == old(maxHandSize)
        && popped == old(popped)
      ensures card in old(hand) ==>
        CountTimeBonuses() == old(CountTimeBonuses()) - TimeBonusSeconds(card)
        && GetHandSize() == old(GetHandSize()) - 1
      ensures old(IsLegalHand()) ==> IsLegalHand()
    {
      if card !in hand {
        return Fail(ValueError);
      }
      DiscardConserves(deck, hand, discardPile, popped, card);
      DiscardBonus(hand, card);
      hand := RemoveFirst(hand, card);
      discardPile := discardPile + [card];
      return Pass;
    }

    /** `play` as the code does it: the same moves as `discard`, from the hand to the
        discard pile, and ValueError for a card not in the hand. It returns nothing. */
    method Play(card: Card) returns (outcome: Outcome)
      requires Valid()
      modifies this
      ensures Valid()
      ensures card !in old(hand) ==> outcome == Fail(ValueError) && unchanged(this)
      ensures card in old(hand) ==>
        outcome == Pass && hand == RemoveFirst(old(hand), card)
        && discardPile == old(discardPile) + [card]
        && deck == old(deck) && cards == old(cards) && maxHandSize == old(maxHandSize)
        && popped == old(popped)
    {
      outcome := Discard(card);
    }

    /** `pop_deck`: an empty deck is a ValueError (an empty range for the random index) and
        changes nothing. Otherwise one card chosen at random leaves the deck and is handed
        back; it joins no pile. */
    method PopDeck() returns (r: Result<Card>)
      requires Valid()
      modifies this
      ensures Valid()
      ensures hand == old(hand) && discardPile == old(discardPile) && cards == old(cards)
      ensures maxHandSize == old(maxHandSize)
      ensures old(deck) == [] ==> r == Err(ValueError) && deck == [] && popped == old(popped)
      ensures old(deck) != [] ==>
        r.Ok? && popped == old(popped) + multiset{r.value}
        && exists i :: (0 <= i < |old(deck)| && old(deck)[i] == r.value
             && deck == old(deck)[..i] + old(deck)[i + 1..])
    {
      if deck == [] {
        return Err(ValueError);
      }
      var i :| 0 <= i < |deck|;
      var card := deck[i];
      RemoveAtMultiset(deck, i);
      deck := deck[..i] + deck[i + 1..];
      popped := popped + multiset{card};
      return Ok(card);
    }

    /** `draw`: an empty deck is a ValueError and changes nothing. Otherwise one card chosen
        at random moves from the deck to the end of the hand; the discard pile is never
        shuffled back in. */
    method Draw() returns (outcome: Outcome)
      requires Valid()
      modifies this
      ensures Valid()
      ensures discardPile == old(discardPile) && cards == old(cards) && popped == old(popped)
      ensures maxHandSize == old(maxHandSize)
      ensures old(deck) == [] ==> outcome == Fail(ValueError) && deck == [] && hand == old(hand)
      ensures old(deck) != [] ==>
        outcome == Pass && |hand| == |old(hand)| + 1 && hand[..|old(hand)|] == old(hand)
        && exists i :: (0 <= i < |old(deck)| && old(deck)[i] == hand[|hand| - 1]
             && deck == old(deck)[..i] + old(deck)[i + 1..])
    {
      if deck == [] {
        return Fail(ValueError);
      }
      var i :| 0 <= i < |deck|;
      var card := deck[i];
      RemoveAtMultiset(deck, i);
      deck := deck[..i] + deck[i + 1..];
      hand := hand + [card];
      assert hand[..|old(hand)|] == old(hand);
      return Pass;
    }
  }
}
