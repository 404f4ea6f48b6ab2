/**
 * What the card face shows: checklist progress counts, comment and
 * attachment counts, and which cover band, if any, is drawn.
 */
module CardView {
  import opened Collections
  import opened Types

  /** The checked items of `items`, in order. */
  function Checked(items: seq<ChecklistItem>): (r: seq<ChecklistItem>)
    ensures |r| <= |items|
    ensures multiset(r) <= multiset(items)
    ensures forall i :: 0 <= i < |r| ==> r[i].checked
    ensures (forall i :: 0 <= i < |items| ==> items[i].checked) ==> r == items
    ensures (forall i :: 0 <= i < |items| ==> !items[i].checked) ==> r == []
  {
    if items == [] then []
    else
      assert items == [items[0]] + items[1..];
      (if items[0].checked then [items[0]] else []) + Checked(items[1..])
  }

  /** Every item of every checklist, checklist after checklist (`flatMap`). */
  function AllItems(checklists: seq<Checklist>): (r: seq<ChecklistItem>)
    ensures |r| == ItemCount(checklists)
    ensures forall k :: 0 <= k < |checklists| ==> multiset(checklists[k].items) <= multiset(r)
  {
    if checklists == [] then []
    else
      var rest := AllItems(checklists[1..]);
      assert forall k :: 1 <= k < |checklists| ==> checklists[k] == checklists[1..][k - 1];
      checklists[0].items + rest
  }

  /** The item count of each checklist, summed. */
  function ItemCount(checklists: seq<Checklist>): nat {
    if checklists == [] then 0 else |checklists[0].items| + ItemCount(checklists[1..])
  }

  /** The number of checked items of each checklist, summed. */
  function CheckedCount(checklists: seq<Checklist>): nat {
    if checklists == [] then 0 else |Checked(checklists[0].items)| + CheckedCount(checklists[1..])
  }

  /** The checked items are every checked item, each as often as it occurs in `items`, and no other. */
  lemma {:induction false} CheckedCounts(items: seq<ChecklistItem>)
    ensures forall x :: multiset(Checked(items))[x] == if x.checked then multiset(items)[x] else 0
  {
    if items != [] {
      var t := items[1..];
      CheckedCounts(t);
      assert multiset(items) == multiset{items[0]} + multiset(t) by {
        assert items == [items[0]] + t;
      }
      assert Checked(items) == (if items[0].checked then [items[0]] else []) + Checked(t);
    }
  }

  lemma {:induction false} CheckedAppend(a: seq<ChecklistItem>, b: seq<ChecklistItem>)
    ensures Checked(a + b) == Checked(a) + Checked(b)
  {
    if a == [] {
      assert a + b == b;
    } else {
      assert (a + b)[0] == a[0];
      assert (a + b)[1..] == a[1..] + b;
      CheckedAppend(a[1..], b);
    }
  }

  /** The flattened items are as many as the checklists hold together. */
  lemma {:induction false} AllItemsCount(checklists: seq<Checklist>)
    ensures |AllItems(checklists)| == ItemCount(checklists)
    ensures |Checked(AllItems(checklists))| == CheckedCount(checklists)
  {
    if checklists != [] {
      AllItemsCount(checklists[1..]);
      CheckedAppend(checklists[0].items, AllItems(checklists[1..]));
    }
  }

  /** `totalItems`: the number of items across all checklists; 0 without checklists. */
  function TotalItems(card: Card): (r: nat)
    ensures card.checklists.None? ==> r == 0
    ensures card.checklists.Some? ==> r == ItemCount(card.checklists.value)
  {
    match card.checklists
    case None => 0
    case Some(checklists) => AllItemsCount(checklists); |AllItems(checklists)|
  }

  /** `completedItems`: the number of checked items across all checklists; 0 without checklists. */
  function CompletedItems(card: Card): (r: nat)
    ensures card.checklists.None? ==> r == 0
    ensures card.checklists.Some? ==> r == CheckedCount(card.checklists.value)
    ensures r <= TotalItems(card)
  {
    match card.checklists
    case None => 0
    case Some(checklists) => AllItemsCount(checklists); |Checked(AllItems(checklists))|
  }

  /** `commentsCount`: the number of comments; 0 when the card has none. */
  function CommentsCount(card: Card): (r: nat)
    ensures card.comments.None? ==> r == 0
    ensures card.comments.Some? ==> r == |card.comments.value|
  {
    match card.comments
    case None => 0
    case Some(comments) => |comments|
  }

  /** `attachmentsCount`: the number of attachments; 0 when the card has none. */
  function AttachmentsCount(card: Card): (r: nat)
    ensures card.attachments.None? ==> r == 0
    ensures card.attachments.Some? ==> r == |card.attachments.value|
  {
    match card.attachments
    case None => 0
    case Some(attachments) => |attachments|
  }

  /** What the top of the card shows. */
  datatype CoverView = NoCover | ImageBand(url: string) | ColorBand(color: string)

  /** A string field that JavaScript treats as true: present and not empty. */
  predicate Truthy(s: Option<string>) {
    s.Some? && s.value != ""
  }

  /**
   * `renderCover`: an image url wins over a colour; a cover with neither (or
   * with empty strings) draws nothing, as does a card without a cover.
   */
  function RenderCover(card: Card): (r: CoverView)
    ensures r.ImageBand? <==> card.cover.Some? && Truthy(card.cover.value.url)
    ensures r.ImageBand? ==> r.url == card.cover.value.url.value
    ensures r.ColorBand? <==> card.cover.Some? && !Truthy(card.cover.value.url) && Truthy(card.cover.value.color)
    ensures r.ColorBand? ==> r.color == card.cover.value.color.value
    ensures r.NoCover? <==> card.cover.None? || (!Truthy(card.cover.value.url) && !Truthy(card.cover.value.color))
  {
    match card.cover
    case None => NoCover
    case Some(cover) =>
      if Truthy(cover.url) then ImageBand(cover.url.value)
      else if Truthy(cover.color) then ColorBand(cover.color.value)
      else NoCover
  }

  /** With every item checked, the card shows all items completed. */
  lemma {:induction false} AllCheckedComplete(checklists: seq<Checklist>)
    requires forall k, i :: 0 <= k < |checklists| && 0 <= i < |checklists[k].items| ==> checklists[k].items[i].checked
    ensures CheckedCount(checklists) == ItemCount(checklists)
  {
    if checklists != [] {
      AllCheckedComplete(checklists[1..]);
    }
  }
}
