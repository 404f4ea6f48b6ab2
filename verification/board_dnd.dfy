/**
 * The board's drag-and-drop controller: it records the card being dragged
 * and the list and card index under the pointer, resolves a drop into one
 * `moveCard` call, reorders whole lists through a separate order of list
 * ids, and displays the lists sorted by that order.
 *
 * The DOM is not modelled: a drag-over receives the list id and card index
 * already resolved from the element under the pointer, and a drop returns
 * the `moveCard` call it issues instead of performing it.
 */
module DragAndDrop {
  import opened Collections
  import opened Types
  import opened BoardStore
  import opened BoardFacts

  /** The card being dragged and the list it was picked up from. */
  datatype DragCard = DragCard(cardId: Id, sourceListId: Id)

  /** The arguments of one `moveCard` call. */
  datatype MoveCall = MoveCall(cardId: Id, sourceListId: Id, targetListId: Id, position: int)

  /** The board after the store has performed `call`. */
  function Apply(lists: seq<List>, call: MoveCall): seq<List> {
    MoveCard(lists, call.cardId, call.sourceListId, call.targetListId, call.position)
  }

  // ---------------------------------------------------------------- card drops

  /**
   * Where a drop inserts the card: the card index recorded while dragging
   * over, or the drop list's card count when none was recorded (0 when the
   * list is not there); a negative index becomes the front.
   */
  function DropPosition(overIndex: Option<int>, lists: seq<List>, listId: Id): (p: nat)
    ensures overIndex.Some? ==> p == if overIndex.value >= 0 then overIndex.value else 0
    ensures overIndex.None? && listId !in Keys(lists, ListKey) ==> p == 0
    ensures overIndex.None? && listId in Keys(lists, ListKey) ==> p == |Find(lists, ListKey, listId).value.cards|
  {
    var index := match overIndex
      case Some(k) => k
      case None => (match Find(lists, ListKey, listId) case None => 0 case Some(l) => |l.cards|);
    if index >= 0 then index else 0
  }

  /** The `moveCard` call a drop on `listId` issues, if any: only when no id involved is empty. */
  function DropCall(drag: DragCard, overIndex: Option<int>, lists: seq<List>, listId: Id): (r: Option<MoveCall>)
    ensures r.Some? <==> drag.cardId != "" && drag.sourceListId != "" && listId != ""
    ensures r.Some? ==> r.value.cardId == drag.cardId && r.value.sourceListId == drag.sourceListId
    ensures r.Some? ==> r.value.targetListId == listId && r.value.position == DropPosition(overIndex, lists, listId)
  {
    if drag.cardId != "" && drag.sourceListId != "" && listId != "" then
      Some(MoveCall(drag.cardId, drag.sourceListId, listId, DropPosition(overIndex, lists, listId)))
    else
      None
  }

  /**
   * A card picked up at (`s`, `j`) and dropped on list `t` of a well-formed
   * board is moved there, and the board keeps every card exactly once.
   */
  lemma DropConserves(lists: seq<List>, s: nat, j: nat, t: nat, overIndex: Option<int>)
    requires WellFormed(lists) && s < |lists| && j < |lists[s].cards| && t < |lists|
    requires lists[s].cards[j].id != "" && lists[s].id != "" && lists[t].id != ""
    ensures var call := DropCall(DragCard(lists[s].cards[j].id, lists[s].id), overIndex, lists, lists[t].id);
      call.Some? && multiset(Flatten(Apply(lists, call.value))) == multiset(Flatten(lists)) &&
      WellFormed(Apply(lists, call.value))
  {
    var p := DropPosition(overIndex, lists, lists[t].id);
    MoveCardConserves(lists, s, j, t, p);
    MoveCardKeeps(lists, s, j, t, p);
  }

  /** Dropping with no card hovered puts the card last in the drop list, whether or not it is its own list. */
  lemma DropWithoutHoverAppends(lists: seq<List>, s: nat, j: nat, t: nat)
    requires WellFormed(lists) && s < |lists| && j < |lists[s].cards| && t < |lists|
    requires lists[s].cards[j].id != "" && lists[s].id != "" && lists[t].id != ""
    ensures var call := DropCall(DragCard(lists[s].cards[j].id, lists[s].id), None, lists, lists[t].id);
      call.Some? &&
      var cards := Apply(lists, call.value)[t].cards;
      |cards| > 0 && cards[|cards| - 1] == lists[s].cards[j]
  {
    assert DropPosition(None, lists, lists[t].id) == |lists[t].cards| by {
      FindListAt(lists, t);
    }
    MoveCardToEnd(lists, s, j, t, |lists[t].cards|);
  }

  /**
   * Dropping with card index `k` recorded puts the dragged card at index `k`
   * of the drop list. `k` is the hovered card's index as drawn, the dragged
   * card included when it is the same list; where the hovered card ends up is
   * stated by DropOverCardHovered.
   */
  lemma DropOverCard(lists: seq<List>, s: nat, j: nat, t: nat, k: nat)
    requires WellFormed(lists) && s < |lists| && j < |lists[s].cards| && t < |lists|
    requires lists[s].cards[j].id != "" && lists[s].id != "" && lists[t].id != ""
    requires k <= |lists[t].cards| - (if s == t then 1 else 0)
    ensures var call := DropCall(DragCard(lists[s].cards[j].id, lists[s].id), Some(k), lists, lists[t].id);
      call.Some? &&
      var cards := Apply(lists, call.value)[t].cards;
      k < |cards| && cards[k] == lists[s].cards[j]
  {
    MoveCardLandsAt(lists, s, j, t, k);
  }

  /**
   * Where the hovered card goes: dragging down its own list, the dragged card
   * lands just after the hovered card, which moves up one place; in every
   * other case, it lands just before it, and the hovered card moves down one.
   */
  lemma DropOverCardHovered(lists: seq<List>, s: nat, j: nat, t: nat, k: nat)
    requires WellFormed(lists) && s < |lists| && j < |lists[s].cards| && t < |lists|
    requires lists[s].cards[j].id != "" && lists[s].id != "" && lists[t].id != ""
    requires k < |lists[t].cards| && (s == t ==> k != j)
    ensures var call := DropCall(DragCard(lists[s].cards[j].id, lists[s].id), Some(k), lists, lists[t].id);
      call.Some? &&
      var cards := Apply(lists, call.value)[t].cards;
      var hovered := if s == t && j < k then k - 1 else k + 1;
      k < |cards| && cards[k] == lists[s].cards[j] &&
      hovered < |cards| && cards[hovered] == lists[t].cards[k]
  {
    var drag := DragCard(lists[s].cards[j].id, lists[s].id);
    assert DropCall(drag, Some(k), lists, lists[t].id) == Some(MoveCall(drag.cardId, drag.sourceListId, lists[t].id, k));
    MoveCardHovered(lists, s, j, t, k);
  }

  /** Dropping over a negative card index (no card element under the pointer) puts the card first in the drop list. */
  lemma DropOnEmptySpaceFront(lists: seq<List>, s: nat, j: nat, t: nat, index: int)
    requires WellFormed(lists) && s < |lists| && j < |lists[s].cards| && t < |lists| && index < 0
    requires lists[s].cards[j].id != "" && lists[s].id != "" && lists[t].id != ""
    ensures var call := DropCall(DragCard(lists[s].cards[j].id, lists[s].id), Some(index), lists, lists[t].id);
      call.Some? && call.value.position == 0 &&
      var cards := Apply(lists, call.value)[t].cards;
      |cards| > 0 && cards[0] == lists[s].cards[j]
  {
    if s == t {
      MoveCardWithinList(lists, s, j, 0);
    } else {
      MoveCardAcrossLists(lists, s, j, t, 0);
    }
  }

  // ---------------------------------------------------------------- list order

  /** The two splices of a list drop: the id at `from` taken out and put back at `to`. */
  function Reorder(order: seq<Id>, from: nat, to: int): (r: seq<Id>)
    requires from < |order|
    ensures |r| == |order|
    ensures multiset(r) == multiset(order)
    ensures r[SpliceStart(|order| - 1, to)] == order[from]
  {
    InsertAt(RemoveAt(order, from), to, order[from])
  }

  /**
   * The dragged id ends up at the drop index counted before the removal,
   * and the other ids keep their relative order.
   */
  lemma ReorderPlaces(order: seq<Id>, from: nat, to: nat)
    requires from < |order| && to < |order|
    ensures Reorder(order, from, to)[to] == order[from]
    ensures RemoveAt(Reorder(order, from, to), to) == RemoveAt(order, from)
  {
    var rest := RemoveAt(order, from);
    var r := Reorder(order, from, to);
    assert r == rest[..to] + [order[from]] + rest[to..];
    assert r[..to] == rest[..to] && r[to + 1..] == rest[to..];
  }

  /** In place: `a.splice(i, 1)` on an array whose last slot then is free. */
  method SpliceOut(a: array<Id>, i: nat)
    requires i < a.Length
    modifies a
    ensures a[..a.Length - 1] == RemoveAt(old(a[..]), i)
  {
    ghost var s := a[..];
    var k := i;
    while k < a.Length - 1
      invariant i <= k <= a.Length - 1
      invariant forall m :: 0 <= m < i ==> a[m] == s[m]
      invariant forall m :: i <= m < k ==> a[m] == s[m + 1]
      invariant forall m :: k <= m < a.Length ==> a[m] == s[m]
    {
      a[k] := a[k + 1];
      k := k + 1;
    }
    assert a[..a.Length - 1] == s[..i] + s[i + 1..] by {
      forall m | 0 <= m < a.Length - 1 ensures a[m] == (s[..i] + s[i + 1..])[m] {
        if m < i {
        } else {
        }
      }
    }
  }

  /** In place: `a.splice(j, 0, x)` on an array whose last slot is free. */
  method SpliceIn(a: array<Id>, j: nat, x: Id)
    requires j < a.Length
    modifies a
    ensures a[..] == InsertAt(old(a[..a.Length - 1]), j, x)
  {
    ghost var s := a[..a.Length - 1];
    var k := a.Length - 1;
    while k > j
      invariant j <= k <= a.Length - 1
      invariant forall m :: 0 <= m <= k && m < a.Length - 1 ==> a[m] == s[m]
      invariant forall m :: k < m < a.Length ==> a[m] == s[m - 1]
    {
      a[k] := a[k - 1];
      k := k - 1;
    }
    a[j] := x;
    assert a[..] == s[..j] + [x] + s[j..] by {
      forall m | 0 <= m < a.Length ensures a[m] == (s[..j] + [x] + s[j..])[m] {
        if m < j {
        } else if m == j {
        } else {
        }
      }
    }
  }

  /** `a.splice(from, 1)` then `a.splice(to, 0, moved)`, in place; the length is the same afterwards. */
  method SpliceMove(a: array<Id>, from: nat, to: nat)
    requires from < a.Length && to < a.Length
    modifies a
    ensures a[..] == Reorder(old(a[..]), from, to)
  {
    var moved := a[from];
    SpliceOut(a, from);
    SpliceIn(a, to, moved);
  }

  /**
   * The order after a list drop on `target`: changed only when a list other
   * than the target is dragged and both are in the order; then the dragged
   * id is spliced out and back in at the target's index.
   */
  function ListDropOrder(order: seq<Id>, dragged: Option<Id>, target: Id): (r: seq<Id>)
    ensures |r| == |order|
    ensures multiset(r) == multiset(order)
  {
    if dragged.Some? && dragged.value != "" && dragged.value != target then
      var dragIndex, dropIndex := IndexOf(order, dragged.value), IndexOf(order, target);
      if dragIndex != -1 && dropIndex != -1 then Reorder(order, dragIndex, dropIndex) else order
    else order
  }

  /** A list drop that does reorder moves the dragged id to the target's old index, keeping all ids. */
  lemma ListDropMoves(order: seq<Id>, dragged: Id, target: Id)
    requires dragged != "" && dragged != target && dragged in order && target in order
    ensures var r := ListDropOrder(order, Some(dragged), target);
      multiset(r) == multiset(order) &&
      r[IndexOf(order, target)] == dragged &&
      RemoveAt(r, IndexOf(order, target)) == RemoveAt(order, IndexOf(order, dragged))
  {
    ReorderPlaces(order, IndexOf(order, dragged), IndexOf(order, target));
  }

  /** Nothing dragged, an empty id dragged, the target itself dragged, or either id missing: the order stays. */
  lemma ListDropNoChange(order: seq<Id>, dragged: Option<Id>, target: Id)
    requires dragged.None? || dragged.value == "" || dragged.value == target || dragged.value !in order || target !in order
    ensures ListDropOrder(order, dragged, target) == order
  {
  }

  // ---------------------------------------------------------------- display order

  /** The position of a list in the order of list ids, -1 when it is not there. */
  function Rank(order: seq<Id>, l: List): (r: int)
    ensures -1 <= r < |order|
    ensures r == -1 <==> l.id !in order
    ensures r >= 0 ==> order[r] == l.id
  {
    IndexOf(order, l.id)
  }

  /** `l` put in front of the first list ranked at or above it. */
  function InsertByRank(order: seq<Id>, l: List, sorted: seq<List>): (r: seq<List>)
    ensures |r| == |sorted| + 1
    ensures multiset(r) == multiset(sorted) + multiset{l}
  {
    if sorted == [] || Rank(order, l) <= Rank(order, sorted[0]) then
      [l] + sorted
    else
      assert sorted == [sorted[0]] + sorted[1..];
      [sorted[0]] + InsertByRank(order, l, sorted[1..])
  }

  /**
   * `sortedLists`: the lists sorted by their position in the order, with the
   * stable sort of JavaScript arrays.
   */
  function SortByRank(lists: seq<List>, order: seq<Id>): (r: seq<List>)
    ensures |r| == |lists|
    ensures multiset(r) == multiset(lists)
  {
    if lists == [] then []
    else
      assert lists == [lists[0]] + lists[1..];
      InsertByRank(order, lists[0], SortByRank(lists[1..], order))
  }

  ghost predicate Sorted(order: seq<Id>, s: seq<List>) {
    forall i, j :: 0 <= i < j < |s| ==> Rank(order, s[i]) <= Rank(order, s[j])
  }

  /** The lists of `s` that have rank `k`, in order. */
  function WithRank(order: seq<Id>, s: seq<List>, k: int): seq<List> {
    if s == [] then []
    else (if Rank(order, s[0]) == k then [s[0]] else []) + WithRank(order, s[1..], k)
  }

  lemma {:induction false} InsertAbove(order: seq<Id>, l: List, sorted: seq<List>, b: int)
    requires b <= Rank(order, l)
    requires forall i :: 0 <= i < |sorted| ==> b <= Rank(order, sorted[i])
    ensures forall i :: 0 <= i < |sorted| + 1 ==> b <= Rank(order, InsertByRank(order, l, sorted)[i])
  {
    if sorted != [] && Rank(order, l) > Rank(order, sorted[0]) {
      InsertAbove(order, l, sorted[1..], b);
    }
  }

  lemma {:induction false} InsertKeepsSorted(order: seq<Id>, l: List, sorted: seq<List>)
    requires Sorted(order, sorted)
    ensures Sorted(order, InsertByRank(order, l, sorted))
  {
    var r := InsertByRank(order, l, sorted);
    if sorted != [] && Rank(order, l) > Rank(order, sorted[0]) {
      var tail := sorted[1..];
      var rt := InsertByRank(order, l, tail);
      assert r == [sorted[0]] + rt;
      InsertKeepsSorted(order, l, tail);
      InsertAbove(order, l, tail, Rank(order, sorted[0]));
      forall i, j | 0 <= i < j < |r| ensures Rank(order, r[i]) <= Rank(order, r[j]) {
        assert r[j] == rt[j - 1];
        if i > 0 {
          assert r[i] == rt[i - 1];
        }
      }
    } else {
      assert r == [l] + sorted;
      forall i, j | 0 <= i < j < |r| ensures Rank(order, r[i]) <= Rank(order, r[j]) {
        assert r[j] == sorted[j - 1];
        if i > 0 {
          assert r[i] == sorted[i - 1];
        } else {
          assert Rank(order, sorted[0]) <= Rank(order, sorted[j - 1]);
        }
      }
    }
  }

  /** `sortedLists` is ordered by position in the order. */
  lemma {:induction false} SortByRankSorted(lists: seq<List>, order: seq<Id>)
    ensures Sorted(order, SortByRank(lists, order))
  {
    if lists != [] {
      SortByRankSorted(lists[1..], order);
      InsertKeepsSorted(order, lists[0], SortByRank(lists[1..], order));
    }
  }

  /** Lists missing from the order (rank -1) are shown before all others. */
  lemma UnorderedFirst(lists: seq<List>, order: seq<Id>)
    ensures var r := SortByRank(lists, order);
      forall i, j :: 0 <= i < j < |r| && r[j].id !in order ==> r[i].id !in order
  {
    SortByRankSorted(lists, order);
  }

  lemma {:induction false} WithRankInsert(order: seq<Id>, l: List, sorted: seq<List>, k: int)
    ensures WithRank(order, InsertByRank(order, l, sorted), k)
         == (if Rank(order, l) == k then [l] else []) + WithRank(order, sorted, k)
  {
    if sorted == [] || Rank(order, l) <= Rank(order, sorted[0]) {
      assert ([l] + sorted)[1..] == sorted;
    } else {
      var tail := sorted[1..];
      WithRankInsert(order, l, tail, k);
      assert ([sorted[0]] + InsertByRank(order, l, tail))[1..] == InsertByRank(order, l, tail);
    }
  }

  /**
   * The sort is stable: the lists of any one rank, in particular those
   * missing from the order, keep their relative order.
   */
  lemma {:induction false} SortByRankStable(lists: seq<List>, order: seq<Id>, k: int)
    ensures WithRank(order, SortByRank(lists, order), k) == WithRank(order, lists, k)
  {
    if lists != [] {
      SortByRankStable(lists[1..], order, k);
      WithRankInsert(order, lists[0], SortByRank(lists[1..], order), k);
    }
  }

  /** Lists already in order are left as they are. */
  lemma {:induction false} SortedUnchanged(lists: seq<List>, order: seq<Id>)
    requires Sorted(order, lists)
    ensures SortByRank(lists, order) == lists
  {
    if lists != [] {
      var tail := lists[1..];
      assert Sorted(order, tail);
      SortedUnchanged(tail, order);
      assert lists == [lists[0]] + tail;
      if tail != [] {
        assert Rank(order, lists[0]) <= Rank(order, tail[0]);
      }
    }
  }

  /** With the order taken from the lists themselves, as on mount, the display order is the store's order. */
  lemma InitialOrderUnchanged(lists: seq<List>)
    requires UniqueKeys(lists, ListKey)
    ensures SortByRank(lists, Keys(lists, ListKey)) == lists
  {
    var order := Keys(lists, ListKey);
    forall i | 0 <= i < |lists| ensures Rank(order, lists[i]) == i {
      var k := IndexOf(order, lists[i].id);
      UniqueKeysAt(lists, ListKey, i, k);
    }
    SortedUnchanged(lists, order);
  }

  // ---------------------------------------------------------------- the controller

  class DragController {
    var dragCard: Option<DragCard>
    var dragOverListId: Option<Id>
    var dragOverCardIndex: Option<int>
    var draggedList: Option<Id>
    var listsOrder: seq<Id>

    /** Nothing dragged; the list order is taken from the lists on mount. */
    constructor(lists: seq<List>)
      ensures dragCard.None? && dragOverListId.None? && dragOverCardIndex.None? && draggedList.None?
      ensures listsOrder == Keys(lists, ListKey)
    {
      dragCard := None;
      dragOverListId := None;
      dragOverCardIndex := None;
      draggedList := None;
      listsOrder := Keys(lists, ListKey);
    }

    /** `handleDragStart`: records exactly the card and its list. */
    method DragStart(cardId: Id, listId: Id)
      modifies this
      ensures dragCard == Some(DragCard(cardId, listId))
      ensures dragOverListId == old(dragOverListId) && dragOverCardIndex == old(dragOverCardIndex)
      ensures draggedList == old(draggedList) && listsOrder == old(listsOrder)
    {
      dragCard := Some(DragCard(cardId, listId));
    }

    /**
     * `handleDragOver`, with the list under the pointer (None when there is
     * none) and the index of the card under the pointer (None when there is
     * none) already resolved. Only entering a different list is recorded.
     */
    method DragOver(targetListId: Option<Id>, cardIndex: Option<int>)
      modifies this
      ensures targetListId.None? || targetListId.value == "" || old(dragOverListId) == targetListId ==>
        dragOverListId == old(dragOverListId) && dragOverCardIndex == old(dragOverCardIndex)
      ensures targetListId.Some? && targetListId.value != "" && old(dragOverListId) != targetListId ==>
        dragOverListId == targetListId &&
        dragOverCardIndex == Some(if cardIndex.Some? then cardIndex.value else -1)
      ensures dragCard == old(dragCard) && draggedList == old(draggedList) && listsOrder == old(listsOrder)
    {
      if targetListId.None? {
        return;
      }
      var target := targetListId.value;
      if target == "" || dragOverListId == Some(target) {
        return;
      }
      dragOverListId := Some(target);
      if cardIndex.Some? {
        dragOverCardIndex := cardIndex;
      } else {
        dragOverCardIndex := Some(-1);
      }
    }

    /**
     * `handleDrop` on the list `listId` of `lists`: with no card dragged
     * nothing happens; otherwise the drop issues at most one `moveCard` call
     * and the card-drag state is cleared.
     */
    method Drop(lists: seq<List>, listId: Id) returns (call: Option<MoveCall>)
      modifies this
      ensures old(dragCard).None? ==> (call.None? &&
        dragCard == old(dragCard) && dragOverListId == old(dragOverListId) && dragOverCardIndex == old(dragOverCardIndex))
      ensures old(dragCard).Some? ==> (
        call == DropCall(old(dragCard).value, old(dragOverCardIndex), lists, listId) &&
        dragCard.None? && dragOverListId.None? && dragOverCardIndex.None?)
      ensures draggedList == old(draggedList) && listsOrder == old(listsOrder)
    {
      if dragCard.None? {
        return None;
      }
      var drag := dragCard.value;
      var index: int;
      if dragOverCardIndex.Some? {
        index := dragOverCardIndex.value;
      } else {
        match Find(lists, ListKey, listId)
        case None => index := 0;
        case Some(l) => index := |l.cards|;
      }
      if drag.cardId != "" && drag.sourceListId != "" && listId != "" {
        call := Some(MoveCall(drag.cardId, drag.sourceListId, listId, if index >= 0 then index else 0));
      } else {
        call := None;
      }
      dragCard := None;
      dragOverListId := None;
      dragOverCardIndex := None;
    }

    /** `handleListDragStart`: records the dragged list. */
    method ListDragStart(listId: Id)
      modifies this
      ensures draggedList == Some(listId)
      ensures dragCard == old(dragCard) && dragOverListId == old(dragOverListId)
      ensures dragOverCardIndex == old(dragOverCardIndex) && listsOrder == old(listsOrder)
    {
      draggedList := Some(listId);
    }

    /**
     * `handleListDrop` on `targetListId`: the order becomes `ListDropOrder`
     * and the dragged list is cleared in every case.
     */
    method ListDrop(targetListId: Id)
      modifies this
      ensures listsOrder == ListDropOrder(old(listsOrder), old(draggedList), targetListId)
      ensures draggedList.None?
      ensures dragCard == old(dragCard) && dragOverListId == old(dragOverListId) && dragOverCardIndex == old(dragOverCardIndex)
    {
      if draggedList.Some? && draggedList.value != "" && draggedList.value != targetListId {
        var order := listsOrder;
        var dragIndex := IndexOf(order, draggedList.value);
        var dropIndex := IndexOf(order, targetListId);
        if dragIndex != -1 && dropIndex != -1 {
          var newOrder := new Id[|order|](i requires 0 <= i < |order| => order[i]);
          assert newOrder[..] == order;
          SpliceMove(newOrder, dragIndex, dropIndex);
          listsOrder := newOrder[..];
        }
      }
      draggedList := None;
    }

    /** `handleListDragEnd`: clears the dragged list. */
    method ListDragEnd()
      modifies this
      ensures draggedList.None?
      ensures dragCard == old(dragCard) && dragOverListId == old(dragOverListId)
      ensures dragOverCardIndex == old(dragOverCardIndex) && listsOrder == old(listsOrder)
    {
      draggedList := None;
    }

  }
}
