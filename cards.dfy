/**
 * Cards, seats and players of the card-game library.  Card.java and
 * Player.java are not part of this model; they are kept to what Trick and
 * SingleHandWhist use: a card's suit and rank with `compareTo`, and the
 * four seats of the table in the cyclic order of `Direction.next()`.
 */
module Cards {

  datatype Suit = Hearts | Clubs | Diamonds | Spades

  type Rank = r: int | 2 <= r <= 14 witness 2

  datatype Card = Card(suit: Suit, rank: Rank)

  function SuitIndex(s: Suit): nat
  {
    match s
    case Hearts => 0
    case Clubs => 1
    case Diamonds => 2
    case Spades => 3
  }

  /** `Card.compareTo`: by suit first, then by rank; only its sign matters. */
  function CompareTo(a: Card, b: Card): (r: int)
    ensures a.suit == b.suit ==> (r >= 0 <==> a.rank >= b.rank)
    ensures r == 0 <==> a == b
  {
    if a.suit != b.suit then SuitIndex(a.suit) - SuitIndex(b.suit) else a.rank - b.rank
  }

  datatype Direction = North | East | South | West

  /** The seats in the order of `Direction.values()`. */
  const Directions: seq<Direction> := [North, East, South, West]

  /** `Direction.ordinal()`: the position of a seat in `Directions`. */
  function Ordinal(d: Direction): (k: nat)
    ensures k < |Directions| && Directions[k] == d
  {
    match d
    case North => 0
    case East => 1
    case South => 2
    case West => 3
  }

  /** `Direction.next()`: the seat to the left, round the table. */
  function Next(d: Direction): Direction
  {
    match d
    case North => East
    case East => South
    case South => West
    case West => North
  }

  /** `d` advanced `n` times by `next()`. */
  function Advance(d: Direction, n: nat): Direction
  {
    if n == 0 then d else Next(Advance(d, n - 1))
  }

  /** `next()` is a 4-cycle: four steps come back to the start, fewer never do. */
  lemma NextIsFourCycle(d: Direction)
    ensures Advance(d, 4) == d
    ensures forall k :: 0 < k < 4 ==> Advance(d, k) != d
  {
  }

  /** Advancing is periodic with period four. */
  lemma {:induction false} AdvanceModFour(d: Direction, n: nat)
    ensures Advance(d, n) == Advance(d, n % 4)
  {
    if n >= 4 {
      AdvanceSplit(d, n - 4, 4);
      NextIsFourCycle(Advance(d, n - 4));
      AdvanceModFour(d, n - 4);
    }
  }

  lemma {:induction false} AdvanceSplit(d: Direction, m: nat, k: nat)
    ensures Advance(d, m + k) == Advance(Advance(d, m), k)
  {
    if k > 0 {
      AdvanceSplit(d, m, k - 1);
    }
  }

  /** The number of `next()` steps from `from` to `to`: the unique such count below four. */
  function Steps(from: Direction, to: Direction): (k: nat)
    ensures k < 4 && Advance(from, k) == to
    ensures forall j :: 0 <= j < k ==> Advance(from, j) != to
  {
    if from == to then 0
    else if Next(from) == to then 1
    else if Next(Next(from)) == to then 2
    else 3
  }

  /** A player sits at a fixed seat and holds a hand of cards. */
  class Player {
    const direction: Direction
    var hand: set<Card>

    constructor (direction: Direction)
      ensures this.direction == direction && hand == {}
    {
      this.direction := direction;
      hand := {};
    }
  }
}

/** One trick of four cards (cardGame/core/Trick.java). */
module Tricks {
  import opened Wrappers
  import opened Cards

  datatype IllegalMove = NotInHand | NotYourTurn | MustFollowSuit

  /** The exception Java raises on a method call through a null card. */
  datatype NullDereference = NullPointerException

  /** The index of the first empty slot, or the number of slots when none is empty. */
  function FirstEmpty(slots: seq<Option<Card>>): (k: nat)
    ensures k <= |slots|
    ensures forall j :: 0 <= j < k ==> slots[j].Some?
    ensures k < |slots| ==> slots[k].None?
  {
    if slots == [] || slots[0].None? then 0 else 1 + FirstEmpty(slots[1..])
  }

  /** The cards before the first empty slot, in play order. */
  function PlayedPrefix(slots: seq<Option<Card>>): (cs: seq<Card>)
    ensures |cs| == FirstEmpty(slots)
    ensures forall j :: 0 <= j < |cs| ==> slots[j] == Some(cs[j])
  {
    if slots == [] || slots[0].None? then [] else [slots[0].value] + PlayedPrefix(slots[1..])
  }

  /** Cards are only ever placed in the first empty slot, so no card follows an empty slot. */
  ghost predicate FilledFromTheFront(slots: seq<Option<Card>>)
  {
    forall j :: FirstEmpty(slots) <= j < |slots| ==> slots[j].None?
  }

  /** The seat due to play: the lead advanced once per card played, or none when all four have played. */
  function NextToPlay(slots: seq<Option<Card>>, lead: Direction): (d: Option<Direction>)
    requires |slots| == 4
    ensures d.None? <==> FirstEmpty(slots) == 4
  {
    var k := FirstEmpty(slots);
    if k < 4 then Some(Advance(lead, k)) else None
  }

  /** Whether `c`, played after the current winner `w`, takes the trick over (one step of `getWinner`). */
  predicate Beats(c: Card, w: Card, trumps: Option<Suit>)
  {
    (c.suit == w.suit && CompareTo(c, w) >= 0) || (trumps == Some(c.suit) && w.suit != c.suit)
  }

  /** The index of the winning card among the first `n` cards, as `getWinner` scans them. */
  function WinnerUpTo(cs: seq<Card>, trumps: Option<Suit>, n: nat): (w: nat)
    requires 1 <= n <= |cs|
    ensures w < n
  {
    if n == 1 then 0
    else
      var w := WinnerUpTo(cs, trumps, n - 1);
      if Beats(cs[n - 1], cs[w], trumps) then n - 1 else w
  }

  /** Whether a trump is among the first `n` cards. */
  predicate TrumpPlayed(cs: seq<Card>, trumps: Option<Suit>, n: nat)
    requires n <= |cs|
  {
    trumps.Some? && exists j :: 0 <= j < n && cs[j].suit == trumps.value
  }

  /** The suit that wins: trumps once a trump has been played, the lead card's suit otherwise. */
  function WinningSuit(cs: seq<Card>, trumps: Option<Suit>, n: nat): Suit
    requires 1 <= n <= |cs|
  {
    if TrumpPlayed(cs, trumps, n) then trumps.value else cs[0].suit
  }

  /**
   * The winner holds the highest trump when a trump was played, and the
   * highest card of the lead suit otherwise.
   */
  lemma {:induction false} WinnerHoldsHighestOfWinningSuit(cs: seq<Card>, trumps: Option<Suit>, n: nat)
    requires 1 <= n <= |cs|
    ensures var w := WinnerUpTo(cs, trumps, n);
      cs[w].suit == WinningSuit(cs, trumps, n) &&
      forall j :: 0 <= j < n && cs[j].suit == WinningSuit(cs, trumps, n) ==> cs[j].rank <= cs[w].rank
  {
    if n > 1 {
      WinnerHoldsHighestOfWinningSuit(cs, trumps, n - 1);
      var w := WinnerUpTo(cs, trumps, n - 1);
      var c := cs[n - 1];
      if TrumpPlayed(cs, trumps, n - 1) {
        assert TrumpPlayed(cs, trumps, n);
      } else if trumps == Some(c.suit) {
        assert TrumpPlayed(cs, trumps, n);
        assert forall j :: 0 <= j < n - 1 ==> cs[j].suit != c.suit;
      } else {
        assert !TrumpPlayed(cs, trumps, n);
      }
    }
  }

  class Trick {
    const cards: array<Option<Card>>
    const lead: Direction
    const trumps: Option<Suit>

    ghost predicate Valid()
      reads this, cards
    {
      cards.Length == 4 && FilledFromTheFront(cards[..])
    }

    constructor (lead: Direction, trumps: Option<Suit>)
      ensures Valid() && fresh(cards)
      ensures this.lead == lead && this.trumps == trumps
      ensures cards[..] == [None, None, None, None]
    {
      this.lead := lead;
      this.trumps := trumps;
      cards := new Option<Card>[4](_ => None);
    }

    /** `getCardsPlayed`: the cards before the first empty slot, in play order. */
    method GetCardsPlayed() returns (cs: seq<Card>)
      requires Valid()
      ensures cs == PlayedPrefix(cards[..])
    {
      cs := [];
      var i := 0;
      while i != 4
        invariant 0 <= i <= FirstEmpty(cards[..])
        invariant cs == PlayedPrefix(cards[..])[..i]
      {
        if cards[i].Some? {
          cs := cs + [cards[i].value];
        } else {
          break;
        }
        i := i + 1;
      }
    }

    /** `getCardPlayed(p)`: the slot as many places from the front as `p` sits `next()` steps from the lead. */
    method GetCardPlayed(p: Direction) returns (c: Option<Card>)
      requires Valid()
      ensures c == cards[Steps(lead, p)]
    {
      var player := lead;
      var i := 0;
      while i != 4
        invariant 0 <= i <= Steps(lead, p)
        invariant player == Advance(lead, i)
      {
        if player == p {
          return cards[i];
        }
        player := Next(player);
        i := i + 1;
      }
      // dead code: every seat is reached within four steps
      assert false;
      c := None;
    }

    /** `getNextToPlay`: the lead advanced once per card played, or null once four cards are down. */
    method GetNextToPlay() returns (d: Option<Direction>)
      requires Valid()
      ensures d == NextToPlay(cards[..], lead)
    {
      var dir := lead;
      var i := 0;
      while i != 4
        invariant 0 <= i <= FirstEmpty(cards[..])
        invariant dir == Advance(lead, i)
      {
        if cards[i].None? {
          return Some(dir);
        }
        dir := Next(dir);
        i := i + 1;
      }
      d := None;
    }

    /**
     * `getWinner`: the seat of the winning card once all four cards are
     * down; on an unfinished trick Java dereferences the first empty slot
     * and throws `NullPointerException`.
     */
    method GetWinner() returns (r: Result<Direction, NullDereference>)
      requires Valid()
      ensures FirstEmpty(cards[..]) < 4 <==> r == Err(NullPointerException)
      ensures FirstEmpty(cards[..]) == 4 ==> r == Ok(Advance(lead, WinnerUpTo(PlayedPrefix(cards[..]), trumps, 4)))
    {
      ghost var cs := PlayedPrefix(cards[..]);
      if cards[0].None? {
        return Err(NullPointerException);
      }
      var player := lead;
      var winningPlayer: Option<Direction> := None;
      var winningCard := cards[0].value;
      var i := 0;
      while i != 4
        invariant 0 <= i <= FirstEmpty(cards[..])
        invariant player == Advance(lead, i)
        invariant i == 0 ==> winningCard == cs[0] && winningPlayer == None
        invariant i > 0 ==> winningCard == cs[WinnerUpTo(cs, trumps, i)]
        invariant i > 0 ==> winningPlayer == Some(Advance(lead, WinnerUpTo(cs, trumps, i)))
      {
        if cards[i].None? {
          return Err(NullPointerException);
        }
        var card := cards[i].value;
        if card.suit == winningCard.suit && CompareTo(card, winningCard) >= 0 {
          winningPlayer := Some(player);
          winningCard := card;
        } else if trumps.Some? && card.suit == trumps.value && winningCard.suit != trumps.value {
          // a trump takes over from a card of another suit
          winningPlayer := Some(player);
          winningCard := card;
        }
        player := Next(player);
        i := i + 1;
      }
      r := Ok(winningPlayer.value);
    }

    /**
     * `play(player, card)`: refuses a card the player does not hold, a
     * player who is not next, and a card off the lead suit from a player
     * who holds that suit; otherwise the card goes into the first empty
     * slot and leaves the player's hand.
     */
    method Play(player: Player, card: Card) returns (err: Option<IllegalMove>)
      requires Valid()
      modifies cards, player`hand
      ensures Valid()
      ensures err == PlayError(old(cards[..]), lead, player.direction, old(player.hand), card)
      ensures err.Some? ==> cards[..] == old(cards[..]) && player.hand == old(player.hand)
      ensures err.None? ==>
        var k := FirstEmpty(old(cards[..]));
        k < 4 && cards[..] == old(cards[..])[k := Some(card)] && player.hand == old(player.hand) - {card}
    {
      if card !in player.hand {
        return Some(NotInHand);
      }
      var next := GetNextToPlay();
      if next != Some(player.direction) {
        return Some(NotYourTurn);
      }
      if player.direction != lead {
        var leadCard := GetCardPlayed(lead);
        assert Steps(lead, lead) == 0;
        var leadSuit := leadCard.value.suit;
        var cardsMatchingLead := set c | c in player.hand && c.suit == leadSuit;
        assert cardsMatchingLead != {} <==> exists c :: c in player.hand && c.suit == leadSuit by {
          if exists c :: c in player.hand && c.suit == leadSuit {
            var c :| c in player.hand && c.suit == leadSuit;
            assert c in cardsMatchingLead;
          }
        }
        if cardsMatchingLead != {} && card !in cardsMatchingLead {
          return Some(MustFollowSuit);
        }
      }
      ghost var k := FirstEmpty(cards[..]);
      var i := 0;
      while i != 4
        invariant 0 <= i <= k
        invariant cards[..] == old(cards[..])
        decreases 4 - i
      {
        if cards[i].None? {
          cards[i] := Some(card);
          player.hand := player.hand - {card};
          break;
        }
        i := i + 1;
      }
      FillingFirstEmptyKeepsFront(old(cards[..]), card);
      err := None;
    }
  }

  /** The outcome of `play`'s three checks, in the order it makes them. */
  function PlayError(slots: seq<Option<Card>>, lead: Direction, seat: Direction, hand: set<Card>, card: Card)
    : (err: Option<IllegalMove>)
    requires |slots| == 4 && FilledFromTheFront(slots)
    ensures err == Some(NotInHand) <==> card !in hand
    ensures err == Some(NotYourTurn) <==> card in hand && NextToPlay(slots, lead) != Some(seat)
    ensures err.None? ==> NextToPlay(slots, lead) == Some(seat) && FirstEmpty(slots) < 4
    ensures err.None? && seat != lead ==> FirstEmpty(slots) > 0
    ensures err.None? && seat != lead && (exists c :: c in hand && c.suit == slots[0].value.suit) ==>
      card.suit == slots[0].value.suit
    ensures err == Some(MustFollowSuit) <==>
      card in hand && NextToPlay(slots, lead) == Some(seat) && seat != lead &&
      (exists c :: c in hand && c.suit == slots[0].value.suit) && card.suit != slots[0].value.suit
    ensures err.None? <==>
      card in hand && NextToPlay(slots, lead) == Some(seat) &&
      (seat == lead || !(exists c :: c in hand && c.suit == slots[0].value.suit) || card.suit == slots[0].value.suit)
  {
    if card !in hand then Some(NotInHand)
    else if NextToPlay(slots, lead) != Some(seat) then Some(NotYourTurn)
    else if seat != lead && (exists c :: c in hand && c.suit == slots[0].value.suit) && card.suit != slots[0].value.suit
    then Some(MustFollowSuit)
    else None
  }

  /** Filling the first empty slot keeps the slots filled from the front, with one more card played. */
  lemma FillingFirstEmptyKeepsFront(slots: seq<Option<Card>>, card: Card)
    requires FilledFromTheFront(slots) && FirstEmpty(slots) < |slots|
    ensures FilledFromTheFront(slots[FirstEmpty(slots) := Some(card)])
    ensures FirstEmpty(slots[FirstEmpty(slots) := Some(card)]) == FirstEmpty(slots) + 1
  {
    var k := FirstEmpty(slots);
    var after := slots[k := Some(card)];
    FirstEmptyIsFirst(after, k + 1);
  }

  lemma {:induction false} FirstEmptyIsFirst(slots: seq<Option<Card>>, k: nat)
    requires k <= |slots|
    requires forall j :: 0 <= j < k ==> slots[j].Some?
    requires k < |slots| ==> slots[k].None?
    ensures FirstEmpty(slots) == k
  {
    if k > 0 {
      FirstEmptyIsFirst(slots[1..], k - 1);
    }
  }
}

/** The deal and the end-of-game test of single-hand whist (cardGame/variations/SingleHandWhist.java). */
module Whist {
  import opened Wrappers
  import opened Cards
  import opened Tricks

  /** The seat that deck card `i` is dealt to: North advanced `i` times. */
  function DealtTo(i: nat): Direction
  {
    Advance(North, i)
  }

  /** The cards among the first `n` of `deck` that are dealt to seat `d`. */
  function DealtCards(deck: seq<Card>, n: nat, d: Direction): set<Card>
    requires n <= |deck|
  {
    set i | 0 <= i < n && DealtTo(i) == d :: deck[i]
  }

  lemma DealtCardsStep(deck: seq<Card>, n: nat, d: Direction)
    requires n < |deck|
    ensures DealtCards(deck, n + 1, d) ==
      DealtCards(deck, n, d) + (if DealtTo(n) == d then {deck[n]} else {})
  {
    var later := DealtCards(deck, n + 1, d);
    var extra := if DealtTo(n) == d then {deck[n]} else {};
    forall c | c in later ensures c in DealtCards(deck, n, d) + extra {
      var i :| 0 <= i < n + 1 && DealtTo(i) == d && deck[i] == c;
      if i < n {
        assert c in DealtCards(deck, n, d);
      }
    }
  }

  /** The deal is round robin: card `i` goes to the seat `i mod 4` places after North. */
  lemma DealIsRoundRobin(i: nat)
    ensures DealtTo(i) == Advance(North, i % 4)
    ensures DealtTo(i + 4) == DealtTo(i)
  {
    AdvanceModFour(North, i);
    AdvanceModFour(North, i + 4);
  }

  /**
   * With no card twice in the deck, every deck card lands in exactly one
   * hand: the hand of the seat it is dealt to.
   */
  lemma EachCardInExactlyOneHand(deck: seq<Card>, i: nat, d: Direction)
    requires forall a, b :: 0 <= a < b < |deck| ==> deck[a] != deck[b]
    requires i < |deck|
    ensures deck[i] in DealtCards(deck, |deck|, d) <==> d == DealtTo(i)
  {
    if deck[i] in DealtCards(deck, |deck|, d) {
      var j :| 0 <= j < |deck| && DealtTo(j) == d && deck[j] == deck[i];
      assert j == i;
    }
  }

  class SingleHandWhist {
    var currentTrick: Trick?
    var scores: map<Direction, int>
    const players: map<Direction, Player>

    /** Every seat has a score and a player, and the four players are four different objects. */
    ghost predicate Valid()
      reads this
    {
      && (forall d :: d in scores && d in players)
      && (forall d, e :: d != e ==> players[d] != players[e])
    }

    constructor (players: map<Direction, Player>)
      requires forall d :: d in players
      requires forall d, e :: d != e ==> players[d] != players[e]
      ensures Valid() && this.players == players && currentTrick == null
      ensures forall d :: scores[d] == 0
    {
      this.players := players;
      currentTrick := null;
      scores := map[North := 0, East := 0, South := 0, West := 0];
    }

    /** `isGameFinished`: some seat's score equals 1. */
    method IsGameFinished() returns (finished: bool)
      requires Valid()
      ensures finished <==> exists d :: scores[d] == 1
    {
      var i := 0;
      while i < |Directions|
        invariant 0 <= i <= |Directions|
        invariant forall k :: 0 <= k < i ==> scores[Directions[k]] != 1
      {
        if scores[Directions[i]] == 1 {
          return true;
        }
        i := i + 1;
      }
      forall d ensures scores[d] != 1 {
        assert Directions[Ordinal(d)] == d;
      }
      return false;
    }

    /**
     * `deal(deck)`: drop the current trick, empty every hand, then hand out
     * the deck one card at a time, starting at North and moving on by `next()`.
     */
    method Deal(deck: seq<Card>)
      requires Valid()
      modifies this, players.Values
      ensures Valid() && scores == old(scores)
      ensures currentTrick == null
      ensures forall d :: players[d].hand == DealtCards(deck, |deck|, d)
    {
      currentTrick := null;
      var k := 0;
      while k < |Directions|
        invariant 0 <= k <= |Directions|
        invariant Valid() && scores == old(scores) && currentTrick == null
        invariant forall j :: 0 <= j < k ==> players[Directions[j]].hand == {}
      {
        players[Directions[k]].hand := {};
        k := k + 1;
      }
      forall e ensures players[e].hand == DealtCards(deck, 0, e) {
        assert players[Directions[Ordinal(e)]].hand == {};
      }
      var d := North;
      var i := 0;
      while i < |deck|
        invariant 0 <= i <= |deck|
        invariant Valid() && scores == old(scores) && currentTrick == null
        invariant d == DealtTo(i)
        invariant forall e :: players[e].hand == DealtCards(deck, i, e)
      {
        var card := deck[i];
        forall e ensures DealtCards(deck, i + 1, e) == DealtCards(deck, i, e) + (if DealtTo(i) == e then {card} else {}) {
          DealtCardsStep(deck, i, e);
        }
        players[d].hand := players[d].hand + {card};
        d := Next(d);
        i := i + 1;
      }
    }
  }
}
