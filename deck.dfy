/** The deck navigator (src/components/CardDeck.tsx): a cursor over either
    the page's cards in insertion order or a shuffled copy of them. */
module Deck {
  import opened Cards
  import opened Library

  /** `goToNext`'s new cursor over a view of `len` cards: one step forward,
      wrapping from the last card to the first. */
  function NextIndex(i: int, len: int): (r: int)
    ensures 0 <= i < len ==> 0 <= r < len && r == (i + 1) % len
  {
    if i < len - 1 then i + 1 else 0
  }

  /** `goToPrevious`'s new cursor: one step back, wrapping from the first
      card to the last. */
  function PrevIndex(i: int, len: int): (r: int)
    ensures 0 <= i < len ==> 0 <= r < len && r == (i - 1 + len) % len
  {
    if i > 0 then i - 1 else len - 1
  }

  /** Previous undoes next and next undoes previous. */
  lemma NextPrevInverse(i: int, len: int)
    requires 0 <= i < len
    ensures PrevIndex(NextIndex(i, len), len) == i
    ensures NextIndex(PrevIndex(i, len), len) == i
  {
  }

  /** The cursor after pressing "Next" `k` times. */
  function NextTimes(i: int, len: int, k: nat): int
  {
    if k == 0 then i else NextIndex(NextTimes(i, len, k - 1), len)
  }

  /** Up to a full round, `k` presses of "Next" move the cursor `k` places
      forward, wrapping once past the end. */
  lemma {:induction false} NextTimesAdvances(i: int, len: int, k: nat)
    requires 0 <= i < len && k <= len
    ensures NextTimes(i, len, k) == if i + k < len then i + k else i + k - len
  {
    if k > 0 {
      NextTimesAdvances(i, len, k - 1);
    }
  }

  /** Pressing "Next" as many times as there are cards comes back to the
      starting card. */
  lemma FullRound(i: int, len: int)
    requires 0 <= i < len
    ensures NextTimes(i, len, len) == i
  {
    NextTimesAdvances(i, len, len);
  }

  /** One exchange of two positions. */
  function Swap(s: seq<Card>, i: nat, j: nat): (r: seq<Card>)
    requires i < |s| && j < |s|
    ensures |r| == |s| && r[i] == s[j] && r[j] == s[i]
    ensures forall k :: 0 <= k < |s| && k != i && k != j ==> r[k] == s[k]
    ensures multiset(r) == multiset(s)
  {
    s[i := s[j]][j := s[i]]
  }

  /** Every exchange names two positions of a list of `n` cards. */
  predicate SwapsInRange(swaps: seq<(nat, nat)>, n: nat)
  {
    forall k :: 0 <= k < |swaps| ==> swaps[k].0 < n && swaps[k].1 < n
  }

  /** The order the random sort leaves behind, described as a product of
      exchanges: the result is a permutation of `s`. */
  function ApplySwaps(s: seq<Card>, swaps: seq<(nat, nat)>): (r: seq<Card>)
    requires SwapsInRange(swaps, |s|)
    ensures |r| == |s| && multiset(r) == multiset(s)
    decreases |swaps|
  {
    if swaps == [] then s
    else
      var last := swaps[|swaps| - 1];
      Swap(ApplySwaps(s, swaps[..|swaps| - 1]), last.0, last.1)
  }

  /** The audio prop handed to the card on screen,
      `currentCard.audioUrl || undefined`: the card's reference when it is
      present and non-empty, absent otherwise. */
  function ShownAudio(card: Card): (url: Option<string>)
    ensures HasAudio(url) == HasAudio(card.audioUrl)
    ensures url.Some? ==> url == card.audioUrl && url.value != ""
  {
    if HasAudio(card.audioUrl) then card.audioUrl else None
  }

  class CardDeck {
    var currentIndex: int
    var isShuffled: bool
    var shuffledCards: seq<Card>
    /** The page that passes its `cards` as a prop and its `deleteCard` as
        `onDeleteCard`. */
    const owner: IndexPage

    /** `displayCards`: the shuffled copy in shuffled mode, the page's cards
        otherwise. */
    function DisplayCards(): (view: seq<Card>)
      reads this, owner
      ensures isShuffled ==> view == shuffledCards
      ensures !isShuffled ==> view == owner.cards
    {
      if isShuffled then shuffledCards else owner.cards
    }

    /** `currentCard`: the card under the cursor, `None` standing for
        `undefined` when the cursor is outside the view. Whenever the
        controls are shown (the page has cards) there is one. */
    function CurrentCard(): (r: Option<Card>)
      reads this, owner
      ensures r.Some? <==> 0 <= currentIndex < |DisplayCards()|
      ensures r.Some? ==> r.value == DisplayCards()[currentIndex]
      ensures Valid() && owner.cards != [] ==> r.Some?
    {
      if 0 <= currentIndex < |DisplayCards()| then Some(DisplayCards()[currentIndex]) else None
    }

    /** The cursor is never negative and lies inside a non-empty view; in
        shuffled mode the shuffled copy still holds every card of the page
        (and possibly cards deleted since the shuffle). */
    ghost predicate Valid()
      reads this, owner
    {
      && 0 <= currentIndex
      && (DisplayCards() != [] ==> currentIndex < |DisplayCards()|)
      // The length bound follows from the multiset inclusion; it is kept
      // because the verifier does not derive lengths from multisets.
      && (isShuffled ==> |owner.cards| <= |shuffledCards| && multiset(owner.cards) <= multiset(shuffledCards))
    }

    /** Mounting: first card, insertion order, no shuffled copy. */
    constructor (owner: IndexPage)
      ensures this.owner == owner
      ensures currentIndex == 0 && !isShuffled && shuffledCards == []
      ensures Valid()
    {
      this.owner := owner;
      currentIndex := 0;
      isShuffled := false;
      shuffledCards := [];
    }

    /** `goToNext`: only the cursor moves, one step forward with wrap-around
        over the active view. */
    method Next()
      requires Valid()
      modifies this`currentIndex
      ensures Valid()
      ensures currentIndex == NextIndex(old(currentIndex), |DisplayCards()|)
      ensures DisplayCards() == old(DisplayCards())
    {
      if currentIndex < |DisplayCards()| - 1 {
        currentIndex := currentIndex + 1;
      } else {
        currentIndex := 0;
      }
    }

    /** `goToPrevious`: only the cursor moves, one step back with wrap-around
        over the active view. Its button exists only while the page has
        cards. */
    method Previous()
      requires Valid() && owner.cards != []
      modifies this`currentIndex
      ensures Valid()
      ensures currentIndex == PrevIndex(old(currentIndex), |DisplayCards()|)
      ensures DisplayCards() == old(DisplayCards())
    {
      if currentIndex > 0 {
        currentIndex := currentIndex - 1;
      } else {
        currentIndex := |DisplayCards()| - 1;
      }
    }

    /** `shuffleDeck`: copies the page's cards into a fresh array, reorders
        the copy in place into the order the random sort leaves, given as a
        product of exchanges, installs it
        as the shuffled view and returns to the first card. The page's own
        list is not touched. */
    method Shuffle(swaps: seq<(nat, nat)>)
      requires Valid() && SwapsInRange(swaps, |owner.cards|)
      modifies this
      ensures Valid()
      ensures shuffledCards == ApplySwaps(owner.cards, swaps)
      ensures |shuffledCards| == |owner.cards| && multiset(shuffledCards) == multiset(owner.cards)
      ensures isShuffled && currentIndex == 0
      ensures owner.cards == old(owner.cards)
    {
      var src := owner.cards;
      var copy := new Card[|src|](k requires 0 <= k < |src| => src[k]);
      assert copy[..] == src;
      ExchangeAll(copy, swaps);
      shuffledCards := copy[..];
      isShuffled := true;
      currentIndex := 0;
    }

    /** `resetOrder`: back to insertion order at the first card. The shuffled
        copy is kept, only no longer shown. */
    method ResetOrder()
      requires Valid()
      modifies this`isShuffled, this`currentIndex
      ensures Valid()
      ensures !isShuffled && currentIndex == 0
      ensures shuffledCards == old(shuffledCards)
      ensures DisplayCards() == owner.cards
    {
      isShuffled := false;
      currentIndex := 0;
    }

    /** `deleteCurrentCard`: with no current card nothing happens. Otherwise
        the page is asked to delete the current card's id, and when the
        cursor stood at or past the last position of the page's list as it
        was before the deletion (in either mode) it moves to
        `max(0, len - 2)`. The view mode and the shuffled copy are never
        touched, so in shuffled mode the deleted card stays in the shuffled
        view until the next shuffle (the clamp may move the cursor off it). */
    method DeleteCurrent() returns (requested: Option<string>)
      requires Valid() && DistinctIds(owner.cards)
      modifies this`currentIndex, owner`cards
      ensures Valid() && DistinctIds(owner.cards)
      ensures isShuffled == old(isShuffled) && shuffledCards == old(shuffledCards)
      ensures old(CurrentCard()).None? ==>
        requested == None && owner.cards == old(owner.cards) && currentIndex == old(currentIndex)
      ensures old(CurrentCard()).Some? ==>
        && requested == Some(old(CurrentCard()).value.id)
        && owner.cards == RemoveById(old(owner.cards), requested.value)
        && currentIndex == (if old(currentIndex) >= |old(owner.cards)| - 1
                            then (if |old(owner.cards)| - 2 > 0 then |old(owner.cards)| - 2 else 0)
                            else old(currentIndex))
      ensures old(CurrentCard()).Some? && !isShuffled ==>
        |owner.cards| == |old(owner.cards)| - 1
      ensures old(CurrentCard()).Some? && isShuffled ==>
        old(CurrentCard()).value in DisplayCards()
    {
      var current := CurrentCard();
      if current.Some? {
        var oldLen := |owner.cards|;
        assert !isShuffled ==> owner.cards[currentIndex] == current.value;
        owner.DeleteCard(current.value.id);
        if currentIndex >= oldLen - 1 {
          currentIndex := if oldLen - 2 > 0 then oldLen - 2 else 0;
        }
        requested := Some(current.value.id);
      } else {
        requested := None;
      }
    }
  }

  /** Every card of the page is in the active view, as often as it occurs in
      the page's list: in insertion order trivially, in shuffled mode because
      the shuffled copy was taken from the list and only cards are deleted
      since. */
  lemma ViewHoldsPage(deck: CardDeck)
    requires deck.Valid()
    ensures multiset(deck.owner.cards) <= multiset(deck.DisplayCards())
    ensures forall c :: c in deck.owner.cards ==> c in deck.DisplayCards()
  {
    forall c | c in deck.owner.cards
      ensures c in deck.DisplayCards()
    {
      assert c in multiset(deck.owner.cards);
    }
  }

  /** The in-place reordering: performs the exchanges one after another
      on `a`, leaving it in the order `ApplySwaps` describes. */
  method ExchangeAll(a: array<Card>, swaps: seq<(nat, nat)>)
    requires SwapsInRange(swaps, a.Length)
    modifies a
    ensures a[..] == ApplySwaps(old(a[..]), swaps)
  {
    var t := 0;
    while t < |swaps|
      invariant 0 <= t <= |swaps|
      invariant a[..] == ApplySwaps(old(a[..]), swaps[..t])
    {
      var (i, j) := swaps[t];
      assert swaps[..t + 1][..t] == swaps[..t];
      var held := a[i];
      a[i] := a[j];
      a[j] := held;
      t := t + 1;
    }
    assert swaps[..|swaps|] == swaps;
  }

  /** A press of one of the deck's controls. */
  datatype Control = PressNext | PressPrevious | PressShuffle(swaps: seq<(nat, nat)>) | PressReset | PressDelete

  /** A study session: the user presses controls one after another. The
      controls are drawn only while the page has cards, "Reset" only in
      shuffled mode, and a shuffle only ever exchanges positions of the list
      it copies, so other presses are not possible and are skipped. With distinct ids the cursor stays inside
      the view throughout, and there is a current card to show whenever the
      page has cards. */
  method Session(deck: CardDeck, presses: seq<Control>)
    requires deck.Valid() && DistinctIds(deck.owner.cards)
    modifies deck, deck.owner`cards
    ensures deck.Valid() && DistinctIds(deck.owner.cards)
    ensures deck.owner.cards != [] ==> deck.CurrentCard().Some?
  {
    var t := 0;
    while t < |presses|
      invariant deck.Valid() && DistinctIds(deck.owner.cards)
    {
      if deck.owner.cards != [] {
        match presses[t]
        case PressNext => deck.Next();
        case PressPrevious => deck.Previous();
        case PressShuffle(swaps) =>
          if SwapsInRange(swaps, |deck.owner.cards|) {
            deck.Shuffle(swaps);
          }
        case PressReset =>
          if deck.isShuffled {
            deck.ResetOrder();
          }
        case PressDelete => var _ := deck.DeleteCurrent();
      }
      t := t + 1;
    }
  }

  /** Two cards "cat" and "dog": "Next" shows "dog", deleting it leaves one
      card and the cursor back on "cat". */
  method CatDogScenario()
  {
    var cat := Card("1", "cat", None, 0);
    var dog := Card("2", "dog", Some("blob:dog"), 1);
    var page := new IndexPage(Some([cat, dog]));
    var deck := new CardDeck(page);
    deck.Next();
    assert deck.CurrentCard() == Some(dog);
    var requested := deck.DeleteCurrent();
    assert requested == Some("2");
    assert page.cards == [cat];
    assert deck.currentIndex == 0 && deck.CurrentCard() == Some(cat);
  }

  /** Three cards, shuffled with no exchange, "Next" twice, then delete: the
      page keeps the first two cards and the clamp moves the cursor to the
      second one, so the deleted card is no longer on screen, though it stays
      in the shuffled view. */
  method ShuffledDeleteAtEnd()
  {
    var a := Card("1", "a", None, 0);
    var b := Card("2", "b", None, 1);
    var c := Card("3", "c", None, 2);
    var page := new IndexPage(Some([a, b, c]));
    var deck := new CardDeck(page);
    deck.Shuffle([]);
    assert deck.shuffledCards == [a, b, c];
    deck.Next();
    deck.Next();
    DeleteLastShuffled(deck, a, b, c);
  }

  /** In shuffled mode with the view equal to the page's three cards and the
      cursor on the last one, deleting keeps the first two, moves the cursor
      onto the second, and leaves the deleted card in the view. */
  method DeleteLastShuffled(deck: CardDeck, a: Card, b: Card, c: Card)
    requires deck.isShuffled && deck.currentIndex == 2
    requires deck.shuffledCards == [a, b, c] && deck.owner.cards == [a, b, c]
    requires a.id != b.id && a.id != c.id && b.id != c.id
    modifies deck, deck.owner
    ensures deck.owner.cards == [a, b]
    ensures deck.currentIndex == 1 && deck.CurrentCard() == Some(b)
    ensures c in deck.DisplayCards()
  {
    assert DistinctIds(deck.owner.cards);
    var requested := deck.DeleteCurrent();
    assert requested == Some(c.id);
    assert RemoveById([a, b, c], c.id) == [a] + RemoveById([b, c], c.id);
  }

  /** Two cards whose shuffled view is the reverse of the page's list, the
      cursor on the first shown: deleting it leaves the cursor where it was,
      so the deleted card is still on screen, and deleting it again removes
      nothing and moves nothing. */
  method DeleteStaleShuffled(deck: CardDeck, a: Card, b: Card)
    requires deck.isShuffled && deck.currentIndex == 0
    requires deck.shuffledCards == [b, a] && deck.owner.cards == [a, b]
    requires a.id != b.id
    modifies deck, deck.owner
    ensures deck.owner.cards == [a]
    ensures deck.currentIndex == 0 && deck.CurrentCard() == Some(b)
  {
    assert DistinctIds(deck.owner.cards);
    var first := deck.DeleteCurrent();
    assert first == Some(b.id);
    assert RemoveById([a, b], b.id) == [a] + RemoveById([b], b.id);
    assert deck.owner.cards == [a] && deck.currentIndex == 0;
    var second := deck.DeleteCurrent();
    assert second == Some(b.id);
    assert RemoveById([a], b.id) == [a] + RemoveById([], b.id);
  }

  /** "Shuffle" then "Reset" shows the page's cards in their original order
      again. */
  method ShuffleThenReset(deck: CardDeck, swaps: seq<(nat, nat)>)
    requires deck.Valid() && SwapsInRange(swaps, |deck.owner.cards|)
    modifies deck
    ensures deck.Valid()
    ensures deck.DisplayCards() == old(deck.owner.cards) && deck.currentIndex == 0
  {
    deck.Shuffle(swaps);
    deck.ResetOrder();
  }
}
