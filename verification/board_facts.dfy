/**
 * What the board store's operations promise about the whole board: which
 * cards they keep, add, move or lose, and that they keep the board
 * invariant `WellFormed` (unique list ids, every card id once).
 */
module BoardFacts {
  import opened Collections
  import opened Types
  import opened BoardStore

  // ------------------------------------------------ how the flattening behaves

  lemma {:induction false} FlattenAppend(a: seq<List>, b: seq<List>)
    ensures Flatten(a + b) == Flatten(a) + Flatten(b)
  {
    if a == [] {
      assert a + b == b;
    } else {
      assert (a + b)[1..] == a[1..] + b;
      FlattenAppend(a[1..], b);
    }
  }

  lemma {:induction false} CardIdsAppend(a: seq<List>, b: seq<List>)
    ensures CardIds(a + b) == CardIds(a) + CardIds(b)
  {
    if a == [] {
      assert a + b == b;
    } else {
      assert (a + b)[1..] == a[1..] + b;
      CardIdsAppend(a[1..], b);
    }
  }

  /** A board split around the list at `i`. */
  lemma FlattenSplit(lists: seq<List>, i: nat)
    requires i < |lists|
    ensures Flatten(lists) == Flatten(lists[..i]) + lists[i].cards + Flatten(lists[i + 1..])
  {
    var front, back := lists[..i], lists[i..];
    assert lists == front + back;
    FlattenAppend(front, back);
    assert back[1..] == lists[i + 1..];
    assert Flatten(back) == lists[i].cards + Flatten(lists[i + 1..]);
  }

  /** The board's card ids split around the list at `i`. */
  lemma CardIdsSplit(lists: seq<List>, i: nat)
    requires i < |lists|
    ensures CardIds(lists) == CardIds(lists[..i]) + Keys(lists[i].cards, CardKey) + CardIds(lists[i + 1..])
  {
    var front, back := lists[..i], lists[i..];
    assert lists == front + back;
    CardIdsAppend(front, back);
    assert back[1..] == lists[i + 1..];
    assert CardIds(back) == Keys(lists[i].cards, CardKey) + CardIds(lists[i + 1..]);
  }

  /** Replacing one list changes the board's cards by exactly that list's cards. */
  lemma FlattenUpdate(lists: seq<List>, i: nat, l: List)
    requires i < |lists|
    ensures multiset(Flatten(lists[i := l])) + multiset(lists[i].cards) == multiset(Flatten(lists)) + multiset(l.cards)
  {
    var m := lists[i := l];
    FlattenSplit(lists, i);
    FlattenSplit(m, i);
    assert m[..i] == lists[..i] && m[i + 1..] == lists[i + 1..];
  }

  /** ... and the board's card ids by exactly that list's card ids. */
  lemma CardIdsUpdate(lists: seq<List>, i: nat, l: List)
    requires i < |lists|
    ensures multiset(CardIds(lists[i := l])) + multiset(Keys(lists[i].cards, CardKey))
         == multiset(CardIds(lists)) + multiset(Keys(l.cards, CardKey))
  {
    var m := lists[i := l];
    CardIdsSplit(lists, i);
    CardIdsSplit(m, i);
    assert m[..i] == lists[..i] && m[i + 1..] == lists[i + 1..];
  }

  /** The card ids of one list are among the card ids of the board. */
  lemma CardIdsOfList(lists: seq<List>, i: nat)
    requires i < |lists|
    ensures multiset(Keys(lists[i].cards, CardKey)) <= multiset(CardIds(lists))
  {
    CardIdsSplit(lists, i);
  }

  /** Boards whose lists hold the same cards, position by position, hold the same cards overall. */
  lemma {:induction false} SameCards(a: seq<List>, b: seq<List>)
    requires |a| == |b|
    requires forall i :: 0 <= i < |a| ==> a[i].cards == b[i].cards
    ensures Flatten(a) == Flatten(b) && CardIds(a) == CardIds(b)
  {
    if a != [] {
      SameCards(a[1..], b[1..]);
    }
  }

  /** Boards whose lists hold the same card ids, position by position, hold the same card ids overall. */
  lemma {:induction false} SameCardIds(a: seq<List>, b: seq<List>)
    requires |a| == |b|
    requires forall i :: 0 <= i < |a| ==> Keys(a[i].cards, CardKey) == Keys(b[i].cards, CardKey)
    ensures CardIds(a) == CardIds(b)
  {
    if a != [] {
      SameCardIds(a[1..], b[1..]);
    }
  }

  /** With unique list ids, an update addressed to the list at `i` changes that list alone. */
  lemma OnlyAt(lists: seq<List>, r: seq<List>, i: nat)
    requires UniqueKeys(lists, ListKey)
    requires i < |lists| == |r|
    requires forall j :: 0 <= j < |lists| && lists[j].id != lists[i].id ==> r[j] == lists[j]
    ensures r == lists[i := r[i]]
  {
    forall j | 0 <= j < |lists| && j != i ensures r[j] == lists[j] {
      if lists[j].id == lists[i].id {
        UniqueKeysAt(lists, ListKey, i, j);
      }
    }
  }

  /** With unique list ids, the list found under an id is the one at its position. */
  lemma FindListAt(lists: seq<List>, i: nat)
    requires UniqueKeys(lists, ListKey) && i < |lists|
    ensures Find(lists, ListKey, lists[i].id) == Some(lists[i])
  {
    var k := FirstIndex(lists, ListKey, lists[i].id).value;
    UniqueKeysAt(lists, ListKey, i, k);
  }

  // ------------------------------------------------ lists

  /** `addList` with a fresh id keeps the invariant and adds no card. */
  lemma AddListKeeps(lists: seq<List>, freshId: Id, title: string)
    requires WellFormed(lists) && freshId !in Keys(lists, ListKey)
    ensures WellFormed(AddList(lists, freshId, title))
    ensures Flatten(AddList(lists, freshId, title)) == Flatten(lists)
  {
    var l := List(freshId, title, []);
    FlattenAppend(lists, [l]);
    CardIdsAppend(lists, [l]);
    KeysAppend(lists, [l], ListKey);
    assert Keys([l], ListKey) == [freshId];
    assert multiset(Keys(lists, ListKey))[freshId] == 0;
  }

  /** Renaming keeps the invariant and every card where it was. */
  lemma UpdateListTitleKeeps(lists: seq<List>, listId: Id, title: string)
    requires WellFormed(lists)
    ensures WellFormed(UpdateListTitle(lists, listId, title))
    ensures Flatten(UpdateListTitle(lists, listId, title)) == Flatten(lists)
  {
    var r := UpdateListTitle(lists, listId, title);
    SameCards(r, lists);
    assert Keys(r, ListKey) == Keys(lists, ListKey);
  }

  /** Deleting a list removes that list only: the others keep their order. */
  lemma DeleteListAt(lists: seq<List>, i: nat)
    requires UniqueKeys(lists, ListKey) && i < |lists|
    ensures DeleteList(lists, lists[i].id) == RemoveAt(lists, i)
  {
    forall j | 0 <= j < |lists| && j != i ensures lists[j].id != lists[i].id {
      if lists[j].id == lists[i].id {
        UniqueKeysAt(lists, ListKey, i, j);
      }
    }
    WithoutAt(lists, ListKey, i);
  }

  /** Deleting a list keeps the invariant and discards exactly that list's cards. */
  lemma DeleteListKeeps(lists: seq<List>, i: nat)
    requires WellFormed(lists) && i < |lists|
    ensures WellFormed(DeleteList(lists, lists[i].id))
    ensures multiset(Flatten(DeleteList(lists, lists[i].id))) + multiset(lists[i].cards) == multiset(Flatten(lists))
  {
    DeleteListAt(lists, i);
    var r := RemoveAt(lists, i);
    FlattenAppend(lists[..i], lists[i + 1..]);
    CardIdsAppend(lists[..i], lists[i + 1..]);
    FlattenSplit(lists, i);
    CardIdsSplit(lists, i);
    DistinctSub(CardIds(r), CardIds(lists));
    KeysRemoveAt(lists, ListKey, i);
    DistinctSub(Keys(r, ListKey), Keys(lists, ListKey));
  }

  // ------------------------------------------------ cards

  /** With unique list ids, `addCard` changes the list it addresses alone. */
  lemma AddCardAt(lists: seq<List>, i: nat, draft: Card, freshId: Id, now: int)
    requires UniqueKeys(lists, ListKey) && i < |lists|
    ensures AddCard(lists, lists[i].id, draft, freshId, now)
         == lists[i := lists[i].(cards := lists[i].cards + [draft.(id := freshId, created := now)])]
  {
    var r := AddCard(lists, lists[i].id, draft, freshId, now);
    OnlyAt(lists, r, i);
  }

  /** `addCard` into an existing list puts exactly the new card on the board. */
  lemma AddCardAdds(lists: seq<List>, i: nat, draft: Card, freshId: Id, now: int)
    requires UniqueKeys(lists, ListKey) && i < |lists|
    ensures var r := AddCard(lists, lists[i].id, draft, freshId, now);
      multiset(Flatten(r)) == multiset(Flatten(lists)) + multiset{draft.(id := freshId, created := now)} &&
      multiset(CardIds(r)) == multiset(CardIds(lists)) + multiset{freshId}
  {
    AddCardAt(lists, i, draft, freshId, now);
    AppendCardCounts(lists, i, draft.(id := freshId, created := now));
  }

  /** Appending one card to one list adds exactly that card and its id to the board. */
  lemma AppendCardCounts(lists: seq<List>, i: nat, card: Card)
    requires i < |lists|
    ensures var r := lists[i := lists[i].(cards := lists[i].cards + [card])];
      multiset(Flatten(r)) == multiset(Flatten(lists)) + multiset{card} &&
      multiset(CardIds(r)) == multiset(CardIds(lists)) + multiset{card.id}
  {
    var l := lists[i].(cards := lists[i].cards + [card]);
    assert multiset(Flatten(lists[i := l])) == multiset(Flatten(lists)) + multiset{card} by {
      FlattenUpdate(lists, i, l);
      MultisetCancel(multiset(Flatten(lists[i := l])), multiset(Flatten(lists)), multiset(lists[i].cards), multiset{card});
    }
    assert multiset(CardIds(lists[i := l])) == multiset(CardIds(lists)) + multiset{card.id} by {
      CardIdsUpdate(lists, i, l);
      KeysAppend(lists[i].cards, [card], CardKey);
      assert Keys([card], CardKey) == [card.id];
      MultisetCancel(multiset(CardIds(lists[i := l])), multiset(CardIds(lists)), multiset(Keys(lists[i].cards, CardKey)), multiset{card.id});
    }
  }

  /** `addCard` into an existing list with a fresh card id keeps the invariant. */
  lemma AddCardKeeps(lists: seq<List>, i: nat, draft: Card, freshId: Id, now: int)
    requires WellFormed(lists) && i < |lists| && freshId !in CardIds(lists)
    ensures WellFormed(AddCard(lists, lists[i].id, draft, freshId, now))
  {
    var r := AddCard(lists, lists[i].id, draft, freshId, now);
    AddCardAdds(lists, i, draft, freshId, now);
    DistinctAdd(CardIds(r), CardIds(lists), freshId);
    assert Keys(r, ListKey) == Keys(lists, ListKey);
  }

  /** `updateCard` keeps every card id where it was, so it keeps the invariant. */
  lemma UpdateCardKeeps(lists: seq<List>, listId: Id, updated: Card)
    requires WellFormed(lists)
    ensures WellFormed(UpdateCard(lists, listId, updated))
    ensures CardIds(UpdateCard(lists, listId, updated)) == CardIds(lists)
  {
    var r := UpdateCard(lists, listId, updated);
    SameCardIds(r, lists);
    assert Keys(r, ListKey) == Keys(lists, ListKey);
  }

  /** In a well-formed board, the card at (`i`, `j`) is the only one in its list with its id. */
  lemma CardUniqueInList(lists: seq<List>, i: nat, j: nat)
    requires WellFormed(lists) && i < |lists| && j < |lists[i].cards|
    ensures forall k :: 0 <= k < |lists[i].cards| && k != j ==> lists[i].cards[k].id != lists[i].cards[j].id
  {
    var cards := lists[i].cards;
    CardIdsOfList(lists, i);
    DistinctSub(Keys(cards, CardKey), CardIds(lists));
    forall k | 0 <= k < |cards| && k != j ensures cards[k].id != cards[j].id {
      if cards[k].id == cards[j].id {
        UniqueKeysAt(cards, CardKey, j, k);
      }
    }
  }

  /**
   * Deleting the card at (`i`, `j`) removes exactly that card from exactly
   * that list; the other cards keep their order.
   */
  lemma DeleteCardAt(lists: seq<List>, i: nat, j: nat)
    requires WellFormed(lists) && i < |lists| && j < |lists[i].cards|
    ensures DeleteCard(lists, lists[i].id, lists[i].cards[j].id)
         == lists[i := lists[i].(cards := RemoveAt(lists[i].cards, j))]
  {
    var cards := lists[i].cards;
    var r := DeleteCard(lists, lists[i].id, cards[j].id);
    OnlyAt(lists, r, i);
    CardUniqueInList(lists, i, j);
    WithoutAt(cards, CardKey, j);
  }

  /** Deleting the card at (`i`, `j`) takes exactly that card, and its id, off the board. */
  lemma DeleteCardRemoves(lists: seq<List>, i: nat, j: nat)
    requires WellFormed(lists) && i < |lists| && j < |lists[i].cards|
    ensures var r := DeleteCard(lists, lists[i].id, lists[i].cards[j].id);
      multiset(Flatten(r)) + multiset{lists[i].cards[j]} == multiset(Flatten(lists)) &&
      multiset(CardIds(r)) + multiset{lists[i].cards[j].id} == multiset(CardIds(lists))
  {
    var cards := lists[i].cards;
    var l := lists[i].(cards := RemoveAt(cards, j));
    var r := lists[i := l];
    var c := cards[j];
    DeleteCardAt(lists, i, j);
    FlattenUpdate(lists, i, l);
    assert multiset(Flatten(r)) + multiset{c} + multiset(l.cards) == multiset(Flatten(lists)) + multiset(l.cards);
    MultisetCancelBoth(multiset(Flatten(r)) + multiset{c}, multiset(Flatten(lists)), multiset(l.cards));
    CardIdsUpdate(lists, i, l);
    KeysRemoveAt(cards, CardKey, j);
    var ks := multiset(Keys(l.cards, CardKey));
    assert multiset(CardIds(r)) + multiset{c.id} + ks == multiset(CardIds(lists)) + ks;
    MultisetCancelBoth(multiset(CardIds(r)) + multiset{c.id}, multiset(CardIds(lists)), ks);
  }

  /**
   * Deleting keeps the invariant, whatever the ids: the card may sit in the
   * addressed list, in another list, or nowhere.
   */
  lemma DeleteCardKeeps(lists: seq<List>, listId: Id, cardId: Id)
    requires WellFormed(lists)
    ensures WellFormed(DeleteCard(lists, listId, cardId))
  {
    var r := DeleteCard(lists, listId, cardId);
    assert Keys(r, ListKey) == Keys(lists, ListKey);
    if listId in Keys(lists, ListKey) {
      var i := FirstIndex(lists, ListKey, listId).value;
      var l := lists[i].(cards := Without(lists[i].cards, CardKey, cardId));
      assert r == lists[i := l] by {
        OnlyAt(lists, r, i);
      }
      assert multiset(CardIds(lists[i := l])) <= multiset(CardIds(lists)) by {
        CardIdsUpdate(lists, i, l);
        WithoutKeysSub(lists[i].cards, CardKey, cardId);
        MultisetShrink(multiset(CardIds(lists[i := l])), multiset(CardIds(lists)),
          multiset(Keys(lists[i].cards, CardKey)), multiset(Keys(l.cards, CardKey)));
      }
      DistinctSub(CardIds(r), CardIds(lists));
    }
  }

  /** Deleting a card id that is on no list leaves the board as it was. */
  lemma DeleteCardAbsent(lists: seq<List>, listId: Id, cardId: Id)
    requires cardId !in CardIds(lists)
    ensures DeleteCard(lists, listId, cardId) == lists
  {
    var r := DeleteCard(lists, listId, cardId);
    forall i | 0 <= i < |lists| ensures r[i] == lists[i] {
      if lists[i].id == listId {
        assert cardId !in Keys(lists[i].cards, CardKey) by {
          CardIdsOfList(lists, i);
          assert multiset(Keys(lists[i].cards, CardKey))[cardId] <= multiset(CardIds(lists))[cardId];
        }
        WithoutNone(lists[i].cards, CardKey, cardId);
      }
    }
  }

  // ------------------------------------------------ moving a card

  /** With unique list ids, the splice changes the target list alone. */
  lemma InsertCardAt(lists: seq<List>, t: nat, position: int, card: Card)
    requires UniqueKeys(lists, ListKey) && t < |lists|
    ensures InsertCard(lists, lists[t].id, position, card)
         == lists[t := lists[t].(cards := InsertAt(lists[t].cards, position, card))]
  {
    var r := InsertCard(lists, lists[t].id, position, card);
    OnlyAt(lists, r, t);
  }

  /** The splice into an existing list puts exactly `card`, and its id, on the board. */
  lemma InsertCardAdds(lists: seq<List>, t: nat, position: int, card: Card)
    requires UniqueKeys(lists, ListKey) && t < |lists|
    ensures var r := InsertCard(lists, lists[t].id, position, card);
      multiset(Flatten(r)) == multiset(Flatten(lists)) + multiset{card} &&
      multiset(CardIds(r)) == multiset(CardIds(lists)) + multiset{card.id}
  {
    var l := lists[t].(cards := InsertAt(lists[t].cards, position, card));
    InsertCardAt(lists, t, position, card);
    FlattenUpdate(lists, t, l);
    MultisetCancel(multiset(Flatten(lists[t := l])), multiset(Flatten(lists)), multiset(lists[t].cards), multiset{card});
    CardIdsUpdate(lists, t, l);
    KeysInsertAt(lists[t].cards, position, card, CardKey);
    MultisetCancel(multiset(CardIds(lists[t := l])), multiset(CardIds(lists)), multiset(Keys(lists[t].cards, CardKey)), multiset{card.id});
  }

  /**
   * In a well-formed board, moving the card at (`s`, `j`) is the removal
   * from its list followed by the splice into the target: both lookups succeed.
   */
  lemma MoveCardSteps(lists: seq<List>, s: nat, j: nat, targetListId: Id, position: int)
    requires WellFormed(lists) && s < |lists| && j < |lists[s].cards|
    ensures MoveCard(lists, lists[s].cards[j].id, lists[s].id, targetListId, position)
         == InsertCard(DeleteCard(lists, lists[s].id, lists[s].cards[j].id), targetListId, position, lists[s].cards[j])
  {
    FindListAt(lists, s);
    CardUniqueInList(lists, s, j);
    FindAt(lists[s].cards, CardKey, j);
  }

  /**
   * Moving a card between two lists of the board, at any position, keeps
   * every card, and every card id, on the board exactly as often as before.
   */
  lemma MoveCardConserves(lists: seq<List>, s: nat, j: nat, t: nat, position: int)
    requires WellFormed(lists) && s < |lists| && j < |lists[s].cards| && t < |lists|
    ensures var r := MoveCard(lists, lists[s].cards[j].id, lists[s].id, lists[t].id, position);
      multiset(Flatten(r)) == multiset(Flatten(lists)) && multiset(CardIds(r)) == multiset(CardIds(lists))
  {
    var c := lists[s].cards[j];
    var d := DeleteCard(lists, lists[s].id, c.id);
    MoveCardSteps(lists, s, j, lists[t].id, position);
    DeleteCardRemoves(lists, s, j);
    assert Keys(d, ListKey) == Keys(lists, ListKey);
    InsertCardAdds(d, t, position, c);
  }

  /** ... so moving a card keeps the board invariant. */
  lemma MoveCardKeeps(lists: seq<List>, s: nat, j: nat, t: nat, position: int)
    requires WellFormed(lists) && s < |lists| && j < |lists[s].cards| && t < |lists|
    ensures WellFormed(MoveCard(lists, lists[s].cards[j].id, lists[s].id, lists[t].id, position))
  {
    var r := MoveCard(lists, lists[s].cards[j].id, lists[s].id, lists[t].id, position);
    MoveCardConserves(lists, s, j, t, position);
    DistinctSub(CardIds(r), CardIds(lists));
    assert Keys(r, ListKey) == Keys(lists, ListKey);
  }

  /**
   * Where the card lands within one list: it is taken out and spliced back
   * in at `position`, counted among the list's remaining cards. Every other
   * list is untouched.
   */
  lemma MoveCardWithinList(lists: seq<List>, s: nat, j: nat, position: int)
    requires WellFormed(lists) && s < |lists| && j < |lists[s].cards|
    ensures MoveCard(lists, lists[s].cards[j].id, lists[s].id, lists[s].id, position)
         == lists[s := lists[s].(cards := InsertAt(RemoveAt(lists[s].cards, j), position, lists[s].cards[j]))]
  {
    var c := lists[s].cards[j];
    var d := DeleteCard(lists, lists[s].id, c.id);
    var rest := RemoveAt(lists[s].cards, j);
    var l := lists[s].(cards := InsertAt(rest, position, c));
    assert d == lists[s := lists[s].(cards := rest)] by {
      DeleteCardAt(lists, s, j);
    }
    calc {
      MoveCard(lists, c.id, lists[s].id, lists[s].id, position);
      { MoveCardSteps(lists, s, j, lists[s].id, position); }
      InsertCard(d, lists[s].id, position, c);
      { assert Keys(d, ListKey) == Keys(lists, ListKey);
        InsertCardAt(d, s, position, c); }
      d[s := l];
      lists[s := l];
    }
  }

  /**
   * Where the card lands across lists: the source list loses the card, the
   * target list gets it spliced in at `position`. Every other list is
   * untouched.
   */
  lemma MoveCardAcrossLists(lists: seq<List>, s: nat, j: nat, t: nat, position: int)
    requires WellFormed(lists) && s < |lists| && j < |lists[s].cards| && t < |lists| && s != t
    ensures MoveCard(lists, lists[s].cards[j].id, lists[s].id, lists[t].id, position)
         == lists[s := lists[s].(cards := RemoveAt(lists[s].cards, j))]
                 [t := lists[t].(cards := InsertAt(lists[t].cards, position, lists[s].cards[j]))]
  {
    var c := lists[s].cards[j];
    var d := DeleteCard(lists, lists[s].id, c.id);
    assert d == lists[s := lists[s].(cards := RemoveAt(lists[s].cards, j))] by {
      DeleteCardAt(lists, s, j);
    }
    calc {
      MoveCard(lists, c.id, lists[s].id, lists[t].id, position);
      { MoveCardSteps(lists, s, j, lists[t].id, position); }
      InsertCard(d, lists[t].id, position, c);
      { assert Keys(d, ListKey) == Keys(lists, ListKey);
        InsertCardAt(d, t, position, c); }
      d[t := lists[t].(cards := InsertAt(lists[t].cards, position, c))];
    }
  }

  /**
   * Moving a card to index `k` of a list shifts the card that was at `k`:
   * one place up when the card moves down its own list, one place down
   * otherwise.
   */
  lemma MoveCardHovered(lists: seq<List>, s: nat, j: nat, t: nat, k: nat)
    requires WellFormed(lists) && s < |lists| && j < |lists[s].cards| && t < |lists|
    requires k < |lists[t].cards| && (s == t ==> k != j)
    ensures var cards := MoveCard(lists, lists[s].cards[j].id, lists[s].id, lists[t].id, k)[t].cards;
      var shifted := if s == t && j < k then k - 1 else k + 1;
      k < |cards| && cards[k] == lists[s].cards[j] &&
      shifted < |cards| && cards[shifted] == lists[t].cards[k]
  {
    var c := lists[s].cards[j];
    var r := MoveCard(lists, c.id, lists[s].id, lists[t].id, k);
    if s == t {
      assert r[t].cards == InsertAt(RemoveAt(lists[s].cards, j), k, c) by {
        MoveCardWithinList(lists, s, j, k);
      }
      MoveShifts(lists[s].cards, j, k);
    } else {
      assert r[t].cards == InsertAt(lists[t].cards, k, c) by {
        MoveCardAcrossLists(lists, s, j, t, k);
      }
      InsertShifts(lists[t].cards, k, c);
    }
  }

  /**
   * The card lands at `position` itself whenever that is a valid index of
   * the target as it is after the removal.
   */
  lemma MoveCardLandsAt(lists: seq<List>, s: nat, j: nat, t: nat, position: nat)
    requires WellFormed(lists) && s < |lists| && j < |lists[s].cards| && t < |lists|
    requires position <= |lists[t].cards| - (if s == t then 1 else 0)
    ensures var r := MoveCard(lists, lists[s].cards[j].id, lists[s].id, lists[t].id, position);
      position < |r[t].cards| && r[t].cards[position] == lists[s].cards[j]
  {
    if s == t {
      MoveCardWithinList(lists, s, j, position);
    } else {
      MoveCardAcrossLists(lists, s, j, t, position);
    }
  }

  /**
   * A position at or past the end of the target, as it is after the
   * removal, puts the card last.
   */
  lemma MoveCardToEnd(lists: seq<List>, s: nat, j: nat, t: nat, position: int)
    requires WellFormed(lists) && s < |lists| && j < |lists[s].cards| && t < |lists|
    requires position >= |lists[t].cards| - (if s == t then 1 else 0)
    ensures var cards := MoveCard(lists, lists[s].cards[j].id, lists[s].id, lists[t].id, position)[t].cards;
      |cards| > 0 && cards[|cards| - 1] == lists[s].cards[j]
  {
    var c := lists[s].cards[j];
    var cards := MoveCard(lists, c.id, lists[s].id, lists[t].id, position)[t].cards;
    if s == t {
      var rest := RemoveAt(lists[s].cards, j);
      assert cards == InsertAt(rest, position, c) by {
        MoveCardWithinList(lists, s, j, position);
      }
      InsertAtEnd(rest, position, c);
    } else {
      assert cards == InsertAt(lists[t].cards, position, c) by {
        MoveCardAcrossLists(lists, s, j, t, position);
      }
      InsertAtEnd(lists[t].cards, position, c);
    }
  }

  /** Dropping a card back on its own slot leaves the board as it was. */
  lemma MoveCardInPlace(lists: seq<List>, s: nat, j: nat)
    requires WellFormed(lists) && s < |lists| && j < |lists[s].cards|
    ensures MoveCard(lists, lists[s].cards[j].id, lists[s].id, lists[s].id, j) == lists
  {
    var cards := lists[s].cards;
    MoveCardWithinList(lists, s, j, j);
    InsertRemoveAt(cards, j);
    assert lists[s := lists[s].(cards := cards)] == lists;
  }

  /**
   * A target id that names no list loses the card: it is removed from the
   * source and spliced nowhere. The invariant still holds.
   */
  lemma MoveCardLosesCard(lists: seq<List>, s: nat, j: nat, targetListId: Id, position: int)
    requires WellFormed(lists) && s < |lists| && j < |lists[s].cards|
    requires targetListId !in Keys(lists, ListKey)
    ensures var r := MoveCard(lists, lists[s].cards[j].id, lists[s].id, targetListId, position);
      multiset(Flatten(r)) + multiset{lists[s].cards[j]} == multiset(Flatten(lists)) &&
      |Flatten(r)| + 1 == |Flatten(lists)| &&
      WellFormed(r)
  {
    var c := lists[s].cards[j];
    var d := DeleteCard(lists, lists[s].id, c.id);
    assert MoveCard(lists, c.id, lists[s].id, targetListId, position) == d by {
      MoveCardSteps(lists, s, j, targetListId, position);
      assert Keys(d, ListKey) == Keys(lists, ListKey);
    }
    assert multiset(Flatten(d)) + multiset{c} == multiset(Flatten(lists)) by {
      DeleteCardRemoves(lists, s, j);
    }
    assert |multiset(Flatten(d))| + 1 == |multiset(Flatten(lists))|;
    DeleteCardKeeps(lists, lists[s].id, c.id);
  }

  /** A card id that is not in the source list leaves the board as it was. */
  lemma MoveCardUnknownCard(lists: seq<List>, s: nat, cardId: Id, targetListId: Id, position: int)
    requires UniqueKeys(lists, ListKey) && s < |lists| && cardId !in Keys(lists[s].cards, CardKey)
    ensures MoveCard(lists, cardId, lists[s].id, targetListId, position) == lists
  {
    FindListAt(lists, s);
  }
}
