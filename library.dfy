/** The page that owns the card list (src/pages/Index.tsx): adding and
    deleting cards, the selected tab and the statistics footer. */
module Library {
  import opened Cards

  datatype Tab = Study | Create

  /** No two cards share an id. The id generator (`Date.now()`) does not
      guarantee it, so the operations that rely on it ask for it. */
  predicate DistinctIds(cards: seq<Card>)
  {
    forall i, j :: 0 <= i < j < |cards| ==> cards[i].id != cards[j].id
  }

  /** Some card carries `id`. */
  predicate HasId(cards: seq<Card>, id: string)
  {
    exists k :: 0 <= k < |cards| && cards[k].id == id
  }

  /** How many cards carry `id`. */
  function CountId(cards: seq<Card>, id: string): (n: nat)
    ensures n <= |cards|
    ensures n == 0 <==> !HasId(cards, id)
  {
    if cards == [] then 0
    else (if cards[0].id == id then 1 else 0) + CountId(cards[1..], id)
  }

  /** `prev.filter(card => card.id !== cardId)`: no card with `id` is left,
      every other card keeps its number of occurrences, and exactly the
      cards carrying `id` are gone. */
  function RemoveById(cards: seq<Card>, id: string): (r: seq<Card>)
    ensures |r| == |cards| - CountId(cards, id)
    ensures forall k :: 0 <= k < |r| ==> r[k].id != id
    ensures multiset(r) <= multiset(cards)
  {
    if cards == [] then []
    else
      assert cards == [cards[0]] + cards[1..];
      (if cards[0].id == id then [] else [cards[0]]) + RemoveById(cards[1..], id)
  }

  /** Every card with another id keeps all its occurrences. */
  lemma {:induction false} RemoveByIdKeepsOthers(cards: seq<Card>, id: string, c: Card)
    requires c.id != id
    ensures multiset(RemoveById(cards, id))[c] == multiset(cards)[c]
  {
    if cards != [] {
      assert cards == [cards[0]] + cards[1..];
      RemoveByIdKeepsOthers(cards[1..], id, c);
    }
  }

  /** `a` keeps some of the elements of `b`, in their order in `b`. */
  predicate IsSubsequence(a: seq<Card>, b: seq<Card>)
    decreases |b|
  {
    a == [] || (b != [] && ((a[0] == b[0] && IsSubsequence(a[1..], b[1..])) || IsSubsequence(a, b[1..])))
  }

  /** Filtering keeps the relative order of the cards it keeps. */
  lemma {:induction false} RemoveByIdIsSubsequence(cards: seq<Card>, id: string)
    ensures IsSubsequence(RemoveById(cards, id), cards)
  {
    if cards != [] {
      RemoveByIdIsSubsequence(cards[1..], id);
      var rest := RemoveById(cards[1..], id);
      if cards[0].id != id {
        assert RemoveById(cards, id) == [cards[0]] + rest;
        assert ([cards[0]] + rest)[1..] == rest;
      } else {
        assert RemoveById(cards, id) == rest;
      }
    }
  }

  /** The filter distributes over concatenation: whatever surrounds a card
      does not change whether it is kept. */
  lemma {:induction false} RemoveByIdAppend(a: seq<Card>, b: seq<Card>, id: string)
    ensures RemoveById(a + b, id) == RemoveById(a, id) + RemoveById(b, id)
  {
    if a != [] {
      assert (a + b)[1..] == a[1..] + b;
      RemoveByIdAppend(a[1..], b, id);
    } else {
      assert a + b == b;
    }
  }

  /** Deleting an id no card carries leaves the list as it is. */
  lemma {:induction false} RemoveAbsentId(cards: seq<Card>, id: string)
    requires !HasId(cards, id)
    ensures RemoveById(cards, id) == cards
  {
    if cards != [] {
      assert !HasId(cards[1..], id) by {
        forall k | 0 <= k < |cards[1..]| ensures cards[1..][k].id != id {
          assert cards[1..][k] == cards[k + 1];
        }
      }
      RemoveAbsentId(cards[1..], id);
    }
  }

  /** Deleting the same id twice is deleting it once. */
  lemma RemoveByIdIdempotent(cards: seq<Card>, id: string)
    ensures RemoveById(RemoveById(cards, id), id) == RemoveById(cards, id)
  {
    RemoveAbsentId(RemoveById(cards, id), id);
  }

  /** With distinct ids, deleting an id that is present removes exactly one
      card. */
  lemma {:induction false} RemovePresentDistinct(cards: seq<Card>, id: string)
    requires DistinctIds(cards) && HasId(cards, id)
    ensures |RemoveById(cards, id)| == |cards| - 1
  {
    assert CountId(cards, id) == 1 by { CountDistinct(cards, id); }
  }

  /** With distinct ids, an id occurs at most once. */
  lemma {:induction false} CountDistinct(cards: seq<Card>, id: string)
    requires DistinctIds(cards)
    ensures CountId(cards, id) <= 1
  {
    if cards != [] {
      var tail := cards[1..];
      assert DistinctIds(tail) by {
        forall i, j | 0 <= i < j < |tail| ensures tail[i].id != tail[j].id {
          assert tail[i] == cards[i + 1] && tail[j] == cards[j + 1];
        }
      }
      CountDistinct(tail, id);
      if cards[0].id == id {
        assert !HasId(tail, id) by {
          forall k | 0 <= k < |tail| ensures tail[k].id != id {
            assert tail[k] == cards[k + 1];
          }
        }
      }
    }
  }

  /** Deleting cards never makes two ids equal. */
  lemma RemoveKeepsDistinct(cards: seq<Card>, id: string)
    requires DistinctIds(cards)
    ensures DistinctIds(RemoveById(cards, id))
  {
    var r := RemoveById(cards, id);
    forall i, j | 0 <= i < j < |r| ensures r[i].id != r[j].id {
      RemoveByIdIsSubsequence(cards, id);
      SubsequenceDistinct(r, cards, i, j);
    }
  }

  /** Two positions of a subsequence come from two positions of the whole,
      so a subsequence of a list with distinct ids has distinct ids. */
  lemma {:induction false} SubsequenceDistinct(a: seq<Card>, b: seq<Card>, i: nat, j: nat)
    requires IsSubsequence(a, b) && DistinctIds(b) && i < j < |a|
    ensures a[i].id != a[j].id
    decreases |b|
  {
    var tail := b[1..];
    assert DistinctIds(tail) by {
      forall x, y | 0 <= x < y < |tail| ensures tail[x].id != tail[y].id {
        assert tail[x] == b[x + 1] && tail[y] == b[y + 1];
      }
    }
    if a[0] == b[0] && IsSubsequence(a[1..], tail) {
      if i == 0 {
        var k := SubsequenceMember(a[1..], tail, j - 1);
        assert b[k + 1] == a[j];
      } else {
        SubsequenceDistinct(a[1..], tail, i - 1, j - 1);
      }
    } else {
      SubsequenceDistinct(a, tail, i, j);
    }
  }

  /** Every element of a subsequence occurs in the whole, at position `k`. */
  lemma {:induction false} SubsequenceMember(a: seq<Card>, b: seq<Card>, i: nat) returns (k: nat)
    requires IsSubsequence(a, b) && i < |a|
    ensures k < |b| && b[k] == a[i]
    decreases |b|
  {
    if a[0] == b[0] && IsSubsequence(a[1..], b[1..]) {
      if i == 0 {
        k := 0;
      } else {
        k := SubsequenceMember(a[1..], b[1..], i - 1);
        k := k + 1;
      }
    } else {
      k := SubsequenceMember(a, b[1..], i);
      k := k + 1;
    }
  }

  /** `cards.filter(card => card.audioUrl).length`: the footer's "With
      Audio" count. It never exceeds the total, it equals the total exactly
      when every card has audio and it is zero exactly when none has. */
  function WithAudio(cards: seq<Card>): (n: nat)
    ensures n <= |cards|
    ensures n == |cards| <==> forall k :: 0 <= k < |cards| ==> HasAudio(cards[k].audioUrl)
    ensures n == 0 <==> forall k :: 0 <= k < |cards| ==> !HasAudio(cards[k].audioUrl)
  {
    if cards == [] then 0
    else
      assert forall k :: 1 <= k < |cards| ==> cards[k] == cards[1..][k - 1];
      (if HasAudio(cards[0].audioUrl) then 1 else 0) + WithAudio(cards[1..])
  }

  /** The count adds up over concatenation; in particular adding a card
      raises it by one exactly when the new card has audio. */
  lemma {:induction false} WithAudioAppend(a: seq<Card>, b: seq<Card>)
    ensures WithAudio(a + b) == WithAudio(a) + WithAudio(b)
  {
    if a != [] {
      assert (a + b)[1..] == a[1..] + b;
      WithAudioAppend(a[1..], b);
    } else {
      assert a + b == b;
    }
  }

  /** The footer's "Audio Coverage": the with-audio share of the deck as a
      whole percentage, rounded half up, with `max(len, 1)` as divisor so that
      an empty deck shows 0. The result is the whole number nearest to
      100 * withAudio / max(len, 1). */
  function Coverage(cards: seq<Card>): (pct: int)
    ensures 0 <= pct <= 100
    ensures cards == [] ==> pct == 0
    ensures WithAudio(cards) == 0 ==> pct == 0
    ensures cards != [] && WithAudio(cards) == |cards| ==> pct == 100
    ensures var d := if |cards| > 1 then |cards| else 1;
      200 * WithAudio(cards) - d < 2 * d * pct <= 200 * WithAudio(cards) + d
  {
    var d := if |cards| > 1 then |cards| else 1;
    var x := WithAudio(cards);
    var pct := (200 * x + d) / (2 * d);
    RoundedShare(x, d, pct);
    pct
  }

  /** The arithmetic of `Coverage` on whole numbers: `x` out of `d` as a
      percentage rounded half up lies in 0..100, hits both ends exactly at
      `x == 0` and `x == d`, and is within half a point of the exact share. */
  lemma RoundedShare(x: int, d: int, pct: int)
    requires d >= 1 && 0 <= x <= d && pct == (200 * x + d) / (2 * d)
    ensures 0 <= pct <= 100
    ensures x == 0 ==> pct == 0
    ensures x == d ==> pct == 100
    ensures 200 * x - d < 2 * d * pct <= 200 * x + d
  {
    DivBrackets(200 * x + d, 2 * d);
    NearestIsUnique(d, pct, 0);
    NearestIsUnique(d, pct, 100);
  }

  /** Floor division brackets its dividend. */
  lemma DivBrackets(n: int, m: int)
    requires m > 0
    ensures m * (n / m) <= n < m * (n / m) + m
  {
  }

  /** Within `d` of `2d * lo` the only multiple `2d * p` is `2d * lo`;
      below `2d * lo + d` means at most `lo`, above `2d * lo - d` at least `lo`. */
  lemma NearestIsUnique(d: int, p: int, lo: int)
    requires d > 0
    ensures 2 * d * p <= 2 * d * lo + d ==> p <= lo
    ensures 2 * d * p > 2 * d * lo - d ==> p >= lo
  {
    var m := 2 * d;
    if p > lo {
      MulStep(m, p - lo);
      assert m * p == m * lo + m * (p - lo);
    } else if p < lo {
      MulStep(m, lo - p);
      assert m * lo == m * p + m * (lo - p);
    }
  }

  /** A positive multiple of `m` is at least `m`. */
  lemma MulStep(m: int, e: int)
    requires m > 0 && e >= 1
    ensures m * e >= m
  {
  }

  /** The Index page's own state: the card list and the selected tab. */
  class IndexPage {
    var cards: seq<Card>
    var activeTab: Tab

    /** Mounting: the page starts on the study tab with the list read back
        from storage, or with no cards when nothing usable was stored. */
    constructor (stored: Option<seq<Card>>)
      ensures activeTab == Study
      ensures cards == (if stored.Some? then stored.value else [])
    {
      activeTab := Study;
      cards := [];
      if stored.Some? {
        cards := stored.value;
      }
    }

    /** `addCard`: appends the new card and switches to the study tab. */
    method AddCard(newCard: Card)
      modifies this
      ensures cards == old(cards) + [newCard]
      ensures |cards| == |old(cards)| + 1 && cards[|cards| - 1] == newCard
      ensures cards[..|old(cards)|] == old(cards)
      ensures activeTab == Study
    {
      cards := cards + [newCard];
      activeTab := Study;
    }

    /** `deleteCard`: drops every card carrying `cardId`; the tab stays. */
    method DeleteCard(cardId: string)
      modifies this`cards
      ensures cards == RemoveById(old(cards), cardId)
      ensures forall k :: 0 <= k < |cards| ==> cards[k].id != cardId
      ensures IsSubsequence(cards, old(cards))
      ensures !HasId(old(cards), cardId) ==> cards == old(cards)
      ensures DistinctIds(old(cards)) ==> DistinctIds(cards)
      ensures DistinctIds(old(cards)) && HasId(old(cards), cardId) ==> |cards| == |old(cards)| - 1
    {
      RemoveByIdIsSubsequence(cards, cardId);
      if !HasId(cards, cardId) {
        RemoveAbsentId(cards, cardId);
      }
      if DistinctIds(cards) {
        RemoveKeepsDistinct(cards, cardId);
        if HasId(cards, cardId) {
          RemovePresentDistinct(cards, cardId);
        }
      }
      cards := RemoveById(cards, cardId);
    }

    /** The tab widget's `onValueChange`. */
    method SelectTab(tab: Tab)
      modifies this`activeTab
      ensures activeTab == tab
    {
      activeTab := tab;
    }
  }
}
