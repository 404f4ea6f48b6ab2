/**
 * The board store: the ordered lists of one board and the seven operations
 * that compute a new list-of-lists from the previous one. Each operation is a
 * pure function of the previous board; fresh ids and creation times are
 * supplied by the caller.
 *
 * The board invariant is `WellFormed`: list ids are unique and every card id
 * occurs once in the whole board.
 */
module BoardStore {
  import opened Collections
  import opened Types

  /** Every card of the board, list after list. */
  function Flatten(lists: seq<List>): seq<Card> {
    if lists == [] then [] else lists[0].cards + Flatten(lists[1..])
  }

  /** The ids of every card of the board, list after list. */
  function CardIds(lists: seq<List>): seq<Id> {
    if lists == [] then [] else Keys(lists[0].cards, CardKey) + CardIds(lists[1..])
  }

  ghost predicate WellFormed(lists: seq<List>) {
    UniqueKeys(lists, ListKey) && Distinct(CardIds(lists))
  }

  // ---------------------------------------------------------------- lists

  /** `addList`: a new empty list with the given title at the end. */
  function AddList(lists: seq<List>, freshId: Id, title: string): (r: seq<List>)
    ensures |r| == |lists| + 1
    ensures r[..|lists|] == lists
    ensures r[|lists|].id == freshId && r[|lists|].title == title && r[|lists|].cards == []
  {
    lists + [List(freshId, title, [])]
  }

  /** `updateListTitle`: renames every list with that id; ids, cards and order are kept. */
  function UpdateListTitle(lists: seq<List>, listId: Id, title: string): (r: seq<List>)
    ensures |r| == |lists|
    ensures forall i :: 0 <= i < |lists| ==> r[i].id == lists[i].id && r[i].cards == lists[i].cards
    ensures forall i :: 0 <= i < |lists| ==> r[i].title == if lists[i].id == listId then title else lists[i].title
    ensures listId !in Keys(lists, ListKey) ==> r == lists
  {
    seq(|lists|, i requires 0 <= i < |lists| =>
      if lists[i].id == listId then lists[i].(title := title) else lists[i])
  }

  /** `deleteList`: drops every list with that id, and its cards with it. */
  function DeleteList(lists: seq<List>, listId: Id): (r: seq<List>)
    ensures |r| <= |lists|
    ensures listId !in Keys(r, ListKey)
    ensures listId !in Keys(lists, ListKey) ==> r == lists
  {
    WithoutKeysSub(lists, ListKey, listId);
    var r := Without(lists, ListKey, listId);
    assert listId !in Keys(lists, ListKey) ==> r == lists by {
      if listId !in Keys(lists, ListKey) {
        WithoutNone(lists, ListKey, listId);
      }
    }
    r
  }

  // ---------------------------------------------------------------- cards

  /** `addCard`: the draft, given the fresh id and creation time, goes to the end of each list with that id. */
  function AddCard(lists: seq<List>, listId: Id, draft: Card, freshId: Id, now: int): (r: seq<List>)
    ensures |r| == |lists|
    ensures forall i :: 0 <= i < |lists| ==> r[i].id == lists[i].id && r[i].title == lists[i].title
    ensures forall i :: 0 <= i < |lists| && lists[i].id != listId ==> r[i] == lists[i]
    ensures forall i :: 0 <= i < |lists| && lists[i].id == listId ==>
      |r[i].cards| == |lists[i].cards| + 1 &&
      r[i].cards[..|lists[i].cards|] == lists[i].cards &&
      r[i].cards[|lists[i].cards|] == draft.(id := freshId, created := now)
    ensures listId !in Keys(lists, ListKey) ==> r == lists
  {
    var card := draft.(id := freshId, created := now);
    seq(|lists|, i requires 0 <= i < |lists| =>
      if lists[i].id == listId then lists[i].(cards := lists[i].cards + [card]) else lists[i])
  }

  /** The cards with `updated`'s id replaced by `updated`, in place. */
  function ReplaceCard(cards: seq<Card>, updated: Card): (r: seq<Card>)
    ensures |r| == |cards|
    ensures Keys(r, CardKey) == Keys(cards, CardKey)
    ensures forall j :: 0 <= j < |cards| && cards[j].id != updated.id ==> r[j] == cards[j]
    ensures forall j :: 0 <= j < |cards| && cards[j].id == updated.id ==> r[j] == updated
  {
    seq(|cards|, j requires 0 <= j < |cards| => if cards[j].id == updated.id then updated else cards[j])
  }

  /** `updateCard`: replaces the card with `updated`'s id inside the lists with that id. */
  function UpdateCard(lists: seq<List>, listId: Id, updated: Card): (r: seq<List>)
    ensures |r| == |lists|
    ensures forall i :: 0 <= i < |lists| ==> r[i].id == lists[i].id && r[i].title == lists[i].title
    ensures forall i :: 0 <= i < |lists| && lists[i].id != listId ==> r[i] == lists[i]
    ensures forall i :: 0 <= i < |lists| && lists[i].id == listId ==> r[i].cards == ReplaceCard(lists[i].cards, updated)
    ensures forall i :: 0 <= i < |lists| ==> Keys(r[i].cards, CardKey) == Keys(lists[i].cards, CardKey)
    ensures listId !in Keys(lists, ListKey) ==> r == lists
  {
    seq(|lists|, i requires 0 <= i < |lists| =>
      if lists[i].id == listId then lists[i].(cards := ReplaceCard(lists[i].cards, updated)) else lists[i])
  }

  /** `deleteCard`: drops the cards with that id from the lists with `listId`, and from no other list. */
  function DeleteCard(lists: seq<List>, listId: Id, cardId: Id): (r: seq<List>)
    ensures |r| == |lists|
    ensures forall i :: 0 <= i < |lists| ==> r[i].id == lists[i].id && r[i].title == lists[i].title
    ensures forall i :: 0 <= i < |lists| && lists[i].id != listId ==> r[i] == lists[i]
    ensures forall i :: 0 <= i < |lists| && lists[i].id == listId ==>
      r[i].cards == Without(lists[i].cards, CardKey, cardId) && cardId !in Keys(r[i].cards, CardKey)
    ensures listId !in Keys(lists, ListKey) ==> r == lists
  {
    var r := seq(|lists|, i requires 0 <= i < |lists| =>
      if lists[i].id == listId then lists[i].(cards := Without(lists[i].cards, CardKey, cardId)) else lists[i]);
    assert forall i :: 0 <= i < |lists| && lists[i].id == listId ==> cardId !in Keys(r[i].cards, CardKey) by {
      forall i | 0 <= i < |lists| && lists[i].id == listId ensures cardId !in Keys(r[i].cards, CardKey) {
        WithoutKeysSub(lists[i].cards, CardKey, cardId);
      }
    }
    r
  }

  /** The second half of `moveCard`: `card` spliced in at `position` in each list with that id. */
  function InsertCard(lists: seq<List>, listId: Id, position: int, card: Card): (r: seq<List>)
    ensures |r| == |lists|
    ensures forall i :: 0 <= i < |lists| ==> r[i].id == lists[i].id && r[i].title == lists[i].title
    ensures forall i :: 0 <= i < |lists| && lists[i].id != listId ==> r[i] == lists[i]
    ensures forall i :: 0 <= i < |lists| && lists[i].id == listId ==> r[i].cards == InsertAt(lists[i].cards, position, card)
    ensures listId !in Keys(lists, ListKey) ==> r == lists
  {
    seq(|lists|, i requires 0 <= i < |lists| =>
      if lists[i].id == listId then lists[i].(cards := InsertAt(lists[i].cards, position, card)) else lists[i])
  }

  /**
   * `moveCard`: when the source list and the card in it are found, the card
   * is removed from the source list and then spliced into the target list at
   * `position`, counted in the target as it is after the removal. A stale
   * source list or card id leaves the board as it was.
   */
  function MoveCard(lists: seq<List>, cardId: Id, sourceListId: Id, targetListId: Id, position: int): (r: seq<List>)
    ensures |r| == |lists|
    ensures forall i :: 0 <= i < |lists| ==> r[i].id == lists[i].id && r[i].title == lists[i].title
    ensures sourceListId !in Keys(lists, ListKey) ==> r == lists
  {
    match Find(lists, ListKey, sourceListId)
    case None => lists
    case Some(source) =>
      match Find(source.cards, CardKey, cardId)
      case None => lists
      case Some(card) => InsertCard(DeleteCard(lists, sourceListId, cardId), targetListId, position, card)
  }
}
