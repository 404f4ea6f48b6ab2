# Kanban board core in Dafny

This project models the core of a Trello-style kanban board written in
TypeScript and React:

- **The board store.** A board is an ordered sequence of lists, and each
  list holds an ordered sequence of cards. The store has seven operations:
  add, rename and delete a list; add, update and delete a card; move a card.
  Each one computes the next board from the previous one.
- **The board's drag-and-drop controller.**
  - It records the card being dragged, plus the list and card index under the
    pointer.
  - It turns a drop into one `moveCard` call.
  - It reorders whole lists through a separate order of list ids.
  - It shows the lists sorted by that order.
- **The workspace store.** It holds the workspaces, each with its boards,
  plus a snapshot of the current workspace. The snapshot must be kept in step
  with its entry in the workspaces.
- **The computed parts of the card and card-detail views:**
  - checklist progress counts and the progress percentage;
  - comment and attachment counts;
  - the cover band;
  - attachment icons;
  - the add-item form, which ignores blank text;
  - the avatar initials;
  - the mobile workspace switcher, which shows four buttons, puts the rest
    under "More" and highlights the current workspace.

Each store operation is a function on values: `seq` for arrays and
datatypes for records. Where the source holds state in a component and
changes it from event handlers, the model uses classes whose methods state
the whole new state:

- `DragAndDrop.DragController` models the drag state of `Board.tsx`.
- `WorkspaceStore.Store` models the workspace provider.
- `ChecklistPanel.ItemForm` models the checklist's input field.

When a list is dropped, the list order is reordered in place in an array
(`DragAndDrop.SpliceMove`).

The central properties are these:

- **Board invariant.** `BoardStore.WellFormed` holds when list ids are unique
  and every card id occurs once on the board. Every store operation keeps it,
  given fresh ids for new lists and cards. Deleting a card id that is on no
  list leaves the board as it was.
- **Moves conserve cards.** Moving a card between two lists that exist keeps
  every card on the board exactly as often as before, as a multiset.
- **Where a moved card lands.** Within one list, the card is taken out and
  spliced back in. Across two lists, the source loses the card and the target
  gains it at the requested position. JavaScript's `splice` clamps the
  position.
- **Drops.** A drop issues exactly the `moveCard` call the handler builds.
  With no card hovered, the card goes last; over empty space, it goes first.
  Over the card drawn at index `k`, the dragged card goes to index `k`. That
  is just after the hovered card when a card is dragged down its own list,
  and just before it otherwise.
- **List drops.** Dropping a list moves its id to the target's index and
  keeps every id.
- **Display order.** The lists are shown stably sorted by their index in the
  order.
- **Workspace snapshot.** Every workspace operation keeps the current-workspace
  snapshot in step with its entry in the workspaces (`WorkspaceStore.Synced`).

`src/context/WorkspaceContext.tsx` and
`src/context/workspace/WorkspaceProvider.tsx` contain the same provider,
line for line. One model serves both; rows cite whichever file is clearer.

## Model

| member | source | states |
|---|---|---|
| Collections.Find | src/context/BoardContext.tsx:157 | `find` by id: None exactly when no record has the id, otherwise the record at the first index holding the id |
| Collections.FirstIndex | src/context/BoardContext.tsx:160 | the first index holding the id (no earlier record has it), None exactly when the id is absent |
| Collections.IndexOf | src/components/Board.tsx:115-116 | `indexOf`: -1 exactly when absent, otherwise a position holding the id with no earlier occurrence |
| Collections.SpliceStart | src/context/BoardContext.tsx:180 | where `splice` starts: negative starts count back from the end and stop at 0, starts past the end stop at the end |
| Collections.InsertAt | src/context/BoardContext.tsx:179-180 | `splice(start, 0, x)`: one longer, `x` at the clamped start, the elements before it kept in place and those after it shifted one place down; the multiset gains exactly `x` |
| Collections.RemoveAt | src/components/Board.tsx:120 | `splice(i, 1)`: one shorter, the elements before `i` kept in place and those after it shifted one place up; the multiset loses exactly the element at `i` |
| Collections.InsertAtEnd | src/context/BoardContext.tsx:179-180 | a `splice` start at or past the end appends |
| Collections.Without | src/context/BoardContext.tsx:98 | `filter` by id, never longer; what it drops and keeps, and in which order, is stated by WithoutCounts and WithoutAppend |
| Collections.WithoutCounts | src/context/BoardContext.tsx:98 | the filter drops every record with the id and keeps every other record exactly as often as it occurs, duplicates included |
| Collections.WithoutAppend | src/context/workspace/WorkspaceProvider.tsx:88 | the filter works piecewise over concatenation, so the records it keeps stay in their order |
| Collections.WithoutAt | src/context/BoardContext.tsx:98 | filtering out an id held by one record only is the removal of that record; the others keep their order |
| Collections.WithoutSingle | src/context/BoardContext.tsx:145 | filtering out an id held once removes exactly the record `find` returns, as a multiset |
| Collections.WithoutNone | src/context/BoardContext.tsx:98 | filtering out an absent id keeps the sequence as it is |
| Collections.WithoutKeysSub | src/context/BoardContext.tsx:98 | after filtering, the id is gone and the remaining ids are a sub-multiset of the old ones |
| Collections.FindWithout | src/context/workspace/WorkspaceProvider.tsx:45 | filtering out one id does not change what `find` returns for any other id |
| Collections.InsertRemoveAt | src/context/BoardContext.tsx:164-187 | removing the element at `i` and splicing it back in at `i` restores the sequence |
| BoardStore.AddList | src/context/BoardContext.tsx:70-83 | one new list at the end with the fresh id, the title and no cards; the old lists kept as a prefix |
| BoardStore.UpdateListTitle | src/context/BoardContext.tsx:85-93 | every list with the id gets the title; ids, cards and order kept; an unknown id changes nothing |
| BoardStore.DeleteList | src/context/BoardContext.tsx:95-101 | no list with the id remains; an unknown id changes nothing |
| BoardStore.AddCard | src/context/BoardContext.tsx:103-119 | each list with the id gets the draft, with the fresh id and creation time, appended last; other lists unchanged; unknown id changes nothing |
| BoardStore.ReplaceCard | src/context/BoardContext.tsx:128-130 | the cards with the updated card's id are replaced by it, the others kept; the ids are unchanged |
| BoardStore.UpdateCard | src/context/BoardContext.tsx:121-136 | only the lists with the id change, and only by replacing the card; card ids kept everywhere |
| BoardStore.DeleteCard | src/context/BoardContext.tsx:138-151 | the lists with the id lose every card with the card id, the others are unchanged; unknown list changes nothing |
| BoardStore.InsertCard | src/context/BoardContext.tsx:177-187 | the card spliced in at the position in each list with the target id; other lists unchanged |
| BoardStore.MoveCard | src/context/BoardContext.tsx:153-189 | list ids and titles kept; an unknown source list leaves the board unchanged |
| BoardFacts.AddListKeeps | src/context/BoardContext.tsx:70-83 | with a fresh list id the invariant holds afterwards and no card changes |
| BoardFacts.UpdateListTitleKeeps | src/context/BoardContext.tsx:85-93 | renaming keeps the invariant and every card in place |
| BoardFacts.DeleteListAt | src/context/BoardContext.tsx:95-101 | with unique list ids, deleting the list at `i` is exactly its removal |
| BoardFacts.DeleteListKeeps | src/context/BoardContext.tsx:95-101 | deleting a list keeps the invariant and discards exactly that list's cards |
| BoardFacts.AddCardAt | src/context/BoardContext.tsx:110-117 | with unique list ids, adding a card changes the addressed list alone |
| BoardFacts.AddCardAdds | src/context/BoardContext.tsx:103-119 | adding a card puts exactly the new card, and its id, on the board |
| BoardFacts.AddCardKeeps | src/context/BoardContext.tsx:103-119 | with a fresh card id the invariant holds afterwards |
| BoardFacts.UpdateCardKeeps | src/context/BoardContext.tsx:121-136 | updating keeps every card id in place and the invariant |
| BoardFacts.CardUniqueInList | src/context/BoardContext.tsx:160 | in a well-formed board no other card of the list shares the card's id |
| BoardFacts.DeleteCardAt | src/context/BoardContext.tsx:138-151 | deleting the card at (`i`, `j`) removes exactly that card from exactly that list |
| BoardFacts.DeleteCardRemoves | src/context/BoardContext.tsx:138-151 | deleting takes exactly that card, and its id, off the board |
| BoardFacts.DeleteCardAbsent | src/context/BoardContext.tsx:138-151 | deleting a card id that is on no list leaves the board unchanged |
| BoardFacts.DeleteCardKeeps | src/context/BoardContext.tsx:138-151 | deleting keeps the invariant for any list id and card id: the card in the addressed list, in another list, or nowhere |
| BoardFacts.InsertCardAt | src/context/BoardContext.tsx:177-187 | with unique list ids, the splice changes the target list alone |
| BoardFacts.InsertCardAdds | src/context/BoardContext.tsx:177-187 | the splice puts exactly the card, and its id, on the board |
| BoardFacts.MoveCardSteps | src/context/BoardContext.tsx:155-188 | in a well-formed board both lookups succeed and the move is removal then splice |
| BoardFacts.MoveCardConserves | src/context/BoardContext.tsx:153-189 | a move between existing lists keeps the board's cards and card ids as multisets |
| BoardFacts.MoveCardKeeps | src/context/BoardContext.tsx:153-189 | a move between existing lists keeps the invariant |
| BoardFacts.MoveCardWithinList | src/context/BoardContext.tsx:164-187 | within one list: the card is removed and spliced back in at the position; other lists unchanged |
| BoardFacts.MoveCardAcrossLists | src/context/BoardContext.tsx:164-187 | across lists: the source loses the card, the target gets it spliced in; other lists unchanged |
| BoardFacts.MoveCardLandsAt | src/context/BoardContext.tsx:179-180 | a position that is an index of the target after the removal is where the card ends up |
| BoardFacts.MoveCardHovered | src/context/BoardContext.tsx:164-187 | moving a card to index `k`: the card that was at `k` ends at `k - 1` when the card moves down its own list, at `k + 1` otherwise |
| BoardFacts.MoveCardToEnd | src/context/BoardContext.tsx:179-180 | a position at or past the end of the target after the removal puts the card last |
| BoardFacts.MoveCardInPlace | src/context/BoardContext.tsx:153-189 | moving a card to its own index in its own list leaves the board unchanged |
| BoardFacts.MoveCardLosesCard | src/context/BoardContext.tsx:175-188 | an unknown target list loses the card: one card fewer on the board, invariant kept |
| BoardFacts.MoveCardUnknownCard | src/context/BoardContext.tsx:160-161 | a card id absent from the source list leaves the board unchanged |
| DragAndDrop.DropPosition | src/components/Board.tsx:78-84 | the hovered index, or the drop list's card count when none was recorded (0 for an unknown list), negatives becoming 0 |
| DragAndDrop.DropCall | src/components/Board.tsx:83-85 | a call exactly when the card, source and drop list ids are all non-empty, with those ids and the drop position |
| DragAndDrop.DropConserves | src/components/Board.tsx:68-91 | dropping a card of the board on one of its lists issues a call that keeps every card exactly once and the invariant |
| DragAndDrop.DropWithoutHoverAppends | src/components/Board.tsx:78-80 | with no hovered index the card goes last in the drop list, same list or another |
| DragAndDrop.DropOverCard | src/components/Board.tsx:40-44 | a recorded card index `k` (the hovered card's index as drawn) puts the dragged card at index `k` of the drop list |
| DragAndDrop.DropOverCardHovered | src/components/Board.tsx:40-44 | the dragged card lands at `k`; the hovered card moves to `k - 1` (dragged card after it) when dragging down its own list, and to `k + 1` (dragged card before it) otherwise |
| DragAndDrop.DropOnEmptySpaceFront | src/components/Board.tsx:44-46 | a recorded index of -1 becomes position 0 and the card goes first |
| DragAndDrop.Reorder | src/components/Board.tsx:120-121 | the two splices of a list drop keep the length and every id, and put the dragged id at the clamped drop index |
| DragAndDrop.ReorderPlaces | src/components/Board.tsx:120-121 | the dragged id lands at the drop index, the other ids keep their relative order |
| DragAndDrop.SpliceOut | src/components/Board.tsx:120 | the array's first n-1 slots become `splice(i, 1)` of its old contents |
| DragAndDrop.SpliceIn | src/components/Board.tsx:121 | the array becomes `splice(j, 0, x)` of its old first n-1 slots |
| DragAndDrop.SpliceMove | src/components/Board.tsx:114-121 | the array's contents become the reordered old contents |
| DragAndDrop.ListDropOrder | src/components/Board.tsx:113-124 | a list drop only permutes the order: same length, same ids |
| DragAndDrop.ListDropMoves | src/components/Board.tsx:113-123 | a list drop that reorders keeps every id, puts the dragged id at the target's old index, and keeps the others in order |
| DragAndDrop.ListDropNoChange | src/components/Board.tsx:113-118 | nothing dragged, an empty id dragged, the target itself dragged, or an id missing from the order: the order stays |
| DragAndDrop.Rank | src/components/Board.tsx:146-147 | a list's index in the order: -1 exactly when its id is missing, otherwise a slot holding its id |
| DragAndDrop.InsertByRank | src/components/Board.tsx:145-149 | one insertion step of the sort, adding exactly the list |
| DragAndDrop.SortByRank | src/components/Board.tsx:145-149 | `sortedLists` is a permutation of the lists |
| DragAndDrop.InsertKeepsSorted | src/components/Board.tsx:145-149 | an insertion step keeps the lists sorted by their index in the order |
| DragAndDrop.SortByRankSorted | src/components/Board.tsx:145-149 | `sortedLists` is ordered by each list's index in the order |
| DragAndDrop.UnorderedFirst | src/components/Board.tsx:146-148 | lists missing from the order (index -1) are shown before all others |
| DragAndDrop.SortByRankStable | src/components/Board.tsx:145-149 | the sort is stable: the lists with any one index keep their relative order |
| DragAndDrop.SortedUnchanged | src/components/Board.tsx:145-149 | lists already sorted are shown as they are |
| DragAndDrop.InitialOrderUnchanged | src/components/Board.tsx:16 | with the order taken from the lists on mount, the lists are shown in the store's order |
| DragAndDrop.DragController.constructor | src/components/Board.tsx:10-16 | nothing dragged or hovered; the list order is the lists' ids |
| DragAndDrop.DragController.DragStart | src/components/Board.tsx:18-22 | the dragged card and its list are recorded; nothing else changes |
| DragAndDrop.DragController.DragOver | src/components/Board.tsx:24-47 | no list, an empty id or the same list: nothing changes; a new list: it and the card index (-1 when none) are recorded |
| DragAndDrop.DragController.Drop | src/components/Board.tsx:68-91 | no dragged card: no call and no change; otherwise the call is `DropCall` and the card-drag state is cleared |
| DragAndDrop.DragController.ListDragStart | src/components/Board.tsx:94-103 | the dragged list is recorded; nothing else changes |
| DragAndDrop.DragController.ListDrop | src/components/Board.tsx:110-132 | the order becomes `ListDropOrder` of the old order and the dragged list is cleared |
| DragAndDrop.DragController.ListDragEnd | src/components/Board.tsx:134-142 | the dragged list is cleared; nothing else changes |
| WorkspaceStore.UpdateWorkspaces | src/context/workspace/WorkspaceProvider.tsx:28-34 | the workspaces with the id get title and description, others unchanged; ids and boards kept |
| WorkspaceStore.AddBoardTo | src/context/workspace/WorkspaceProvider.tsx:63-69 | the workspaces with the id get the board appended, others unchanged; ids kept |
| WorkspaceStore.DeleteBoardFrom | src/context/workspace/WorkspaceProvider.tsx:83-92 | the workspaces with the id lose the board id, others unchanged; ids kept |
| WorkspaceStore.CurrentAfterDelete | src/context/workspace/WorkspaceProvider.tsx:47-51 | deleting the current workspace selects the first remaining one (none if none); otherwise current is kept |
| WorkspaceStore.SyncedAfterAdd | src/context/WorkspaceContext.tsx:55-64 | appending a workspace keeps the snapshot in step |
| WorkspaceStore.SyncedAfterUpdate | src/context/WorkspaceContext.tsx:66-81 | mirroring the update into the snapshot keeps it in step |
| WorkspaceStore.SyncedAfterAddBoard | src/context/WorkspaceContext.tsx:95-119 | mirroring the new board into the snapshot keeps it in step |
| WorkspaceStore.SyncedAfterDeleteBoard | src/context/WorkspaceContext.tsx:121-142 | mirroring the board deletion into the snapshot keeps it in step |
| WorkspaceStore.SyncedAfterDelete | src/context/WorkspaceContext.tsx:83-93 | the re-selected or kept snapshot stays in step after a deletion |
| WorkspaceStore.SyncedAfterSelect | src/context/WorkspaceContext.tsx:51-53 | with unique ids, selecting one of the workspaces is in step |
| WorkspaceStore.AddKeepsUnique | src/context/workspace/WorkspaceProvider.tsx:16-25 | a fresh id keeps workspace ids unique |
| WorkspaceStore.DeleteKeepsUnique | src/context/workspace/WorkspaceProvider.tsx:45 | deletion keeps ids unique and leaves no workspace with the id |
| WorkspaceStore.Store.constructor | src/context/workspace/WorkspaceProvider.tsx:9-10 | the initial workspaces, the first current (none when empty), in step |
| WorkspaceStore.Store.SetCurrentWorkspace | src/context/workspace/WorkspaceProvider.tsx:12-14 | the workspace becomes current, workspaces untouched; in step when it is one of them |
| WorkspaceStore.Store.AddWorkspace | src/context/workspace/WorkspaceProvider.tsx:16-25 | one workspace without boards appended, current untouched; keeps the snapshot in step and, with a fresh id, ids unique |
| WorkspaceStore.Store.UpdateWorkspace | src/context/workspace/WorkspaceProvider.tsx:27-42 | the new state is the update of both fields; keeps the snapshot in step |
| WorkspaceStore.Store.DeleteWorkspace | src/context/workspace/WorkspaceProvider.tsx:44-54 | the id filtered out, current as `CurrentAfterDelete`; keeps the snapshot in step |
| WorkspaceStore.Store.AddBoard | src/context/workspace/WorkspaceProvider.tsx:56-80 | the board appended in the workspace and in the snapshot when it is current; keeps them in step |
| WorkspaceStore.Store.DeleteBoard | src/context/workspace/WorkspaceProvider.tsx:82-103 | the board filtered out of the workspace and of the snapshot when it is current; keeps them in step |
| CardView.Checked | src/components/Card.tsx:19 | only checked items, drawn from the items; all of them when all are checked, none when none are |
| CardView.CheckedCounts | src/components/Card.tsx:19 | every checked item, as often as it occurs in the items, and no unchecked one |
| CardView.AllItems | src/components/Card.tsx:18-19 | `flatMap` of the items: as many as all checklists hold, every checklist's items included |
| CardView.AllItemsCount | src/components/Card.tsx:18-22 | the flattened items number the items of all checklists, and the checked ones the checked count |
| CardView.TotalItems | src/components/Card.tsx:22 | the total item count of all checklists, 0 without checklists |
| CardView.CompletedItems | src/components/Card.tsx:18-20 | the checked item count of all checklists, 0 without checklists, never above the total |
| CardView.AllCheckedComplete | src/components/Card.tsx:18-22 | with every item checked, completed equals total |
| CardView.CommentsCount | src/components/Card.tsx:24 | the number of comments, 0 when absent |
| CardView.AttachmentsCount | src/components/Card.tsx:25 | the number of attachments, 0 when absent |
| CardView.RenderCover | src/components/Card.tsx:32-52 | an image band exactly when the url is non-empty; a colour band exactly when not but the colour is; otherwise nothing |
| ChecklistPanel.Progress | src/components/card-detail/CardChecklist.tsx:34-38 | 0 for an empty checklist |
| ChecklistPanel.RoundHalfUp | src/components/card-detail/CardChecklist.tsx:37 | the integer `r` with 2·den·r ≤ 2·num + den < 2·den·(r + 1): `num / den` rounded to the nearest integer, halves up |
| ChecklistPanel.ProgressRounds | src/components/card-detail/CardChecklist.tsx:37 | the percentage is the checked share times 100 rounded to the nearest integer, halves up |
| ChecklistPanel.ProgressAtMost100 | src/components/card-detail/CardChecklist.tsx:34-38 | the percentage never exceeds 100 |
| ChecklistPanel.ProgressAllChecked | src/components/card-detail/CardChecklist.tsx:34-38 | all items checked gives 100 |
| ChecklistPanel.ProgressNoneChecked | src/components/card-detail/CardChecklist.tsx:34-38 | no item checked gives 0 |
| ChecklistPanel.IsTrimmed | src/components/card-detail/CardChecklist.tsx:42 | the white space `trim` removes: on ASCII exactly tab, line feed, vertical tab, form feed, carriage return and space; never a letter or a digit |
| ChecklistPanel.TrimStart | src/components/card-detail/CardChecklist.tsx:42 | a suffix of the text, starting at a non-white-space character, after only white space |
| ChecklistPanel.TrimEnd | src/components/card-detail/CardChecklist.tsx:42 | a prefix of the text, ending at a non-white-space character, before only white space |
| ChecklistPanel.Trim | src/components/card-detail/CardChecklist.tsx:42 | no longer than the text, no white space at either end |
| ChecklistPanel.TrimPadded | src/components/card-detail/CardChecklist.tsx:42 | the trimmed text is a contiguous part of the text with only white space before and after it |
| ChecklistPanel.TrimEmpty | src/components/card-detail/CardChecklist.tsx:42 | the trimmed text is empty exactly when every character is white space |
| ChecklistPanel.ItemForm.constructor | src/components/card-detail/CardChecklist.tsx:32 | the input starts empty |
| ChecklistPanel.ItemForm.Type | src/components/card-detail/CardChecklist.tsx:81 | the input holds the typed text |
| ChecklistPanel.ItemForm.Submit | src/components/card-detail/CardChecklist.tsx:40-46 | non-blank text is handed on untrimmed and the input cleared; blank text changes nothing and adds nothing |
| Avatar.Split | src/components/UserAvatar.tsx:50 | `split(' ')`: at least one piece, no piece holds a space, and the pieces joined with single spaces give the text back |
| Avatar.SplitJoin | src/components/UserAvatar.tsx:50 | splitting the join of space-free pieces gives the pieces back |
| Avatar.Upper | src/components/UserAvatar.tsx:53 | same length, each character upper-cased |
| Avatar.Initials | src/components/UserAvatar.tsx:47-54 | "U" for an empty name, never more than two characters |
| Avatar.HeadsAreWordStarts | src/components/UserAvatar.tsx:49-52 | the first characters of the pieces are exactly the characters that begin a word |
| Avatar.InitialsOfWords | src/components/UserAvatar.tsx:47-54 | the initials are the first two upper-cased word-initial characters |
| Avatar.OnlySpaces | src/components/UserAvatar.tsx:48-54 | a name of spaces only gives empty initials, not "U" |
| Avatar.NoWordStarts | src/components/UserAvatar.tsx:51 | text of spaces only begins no word |
| Avatar.DefaultName | src/components/UserAvatar.tsx:20-22 | the default name "User" shows "U" |
| AttachmentIcons.IconOf | src/components/card-detail/CardAttachments.tsx:14-34 | each of the six icons exactly under its condition: media prefix for data urls, `type` for other urls |
| AttachmentIcons.MediaPrefixes | src/components/card-detail/CardAttachments.tsx:16-22 | the media prefixes are data-url prefixes and exclude one another |
| AttachmentIcons.DataUrlIgnoresKind | src/components/card-detail/CardAttachments.tsx:16-26 | for a data url the attachment's type does not matter |
| AttachmentIcons.RenderAttachments | src/components/card-detail/CardAttachments.tsx:12-43 | nothing drawn exactly when attachments are absent or empty; otherwise one icon per attachment, in order |
| MobileWorkspaces.Visible | src/components/MobileWorkspaceList.tsx:13-14 | the first min(4, n) workspaces |
| MobileWorkspaces.Overflow | src/components/MobileWorkspaceList.tsx:15 | the rest: visible followed by overflow is all the workspaces |
| MobileWorkspaces.ShowMore | src/components/MobileWorkspaceList.tsx:30 | "More" is drawn exactly when there are more than four workspaces |
| MobileWorkspaces.Highlighted | src/components/MobileWorkspaceList.tsx:23 | nothing is highlighted without a current workspace; the current workspace itself always is |
| MobileWorkspaces.HighlightExactlyCurrent | src/components/MobileWorkspaceList.tsx:23-43 | with unique ids, exactly the current workspace is highlighted, among the buttons or in the menu |

## Left out

- DOM work is not modelled: walking up to the list or card element, toggling
  the `drag-over` and `opacity-50` classes, `dataTransfer`, and the list
  drag-over handler that only sets the drop effect. A drag-over receives the
  list id and card index already resolved from the element under the pointer.
- Event propagation between the card and list drag handlers is not modelled.
  In the source, a card's `dragstart` and `drop` also bubble up to the list
  panel's handlers, which record a dragged list and may reorder the list
  order. The model treats card drags and list drags as independent events.
- Toast notifications are not modelled.
- Navigation on card click is not modelled.
- The stores' use of `Date.now()` and `new Date()` is not modelled. Ids and
  creation times are parameters. Freshness is a hypothesis of the lemmas that
  need it, because the source does not check it.
- React state batching is not modelled. Updaters are applied in call order.
  `deleteWorkspace` filters `workspaces` twice, once through the updater and
  once through the closure; the model treats both as the same state.
- `Board.tsx` reads `lists` from the board context, which provides only
  `board`. The drop handlers and the display order take the lists as a
  parameter.
- `DragController.Drop` returns the `moveCard` call instead of performing it.
  `DragAndDrop.Apply` and the drop lemmas connect the call to the store.
- `listsOrder` is taken from the lists once, on mount. The model keeps that:
  lists added later are missing from the order and are shown first
  (`UnorderedFirst`).
- `parseInt` of the `data-card-index` attribute is not modelled. The index
  arrives as an integer, so the NaN case is outside the model.
- ChecklistPanel.Progress: `Math.round` of a floating-point quotient is
  modelled as exact rounding half up on integers. Float rounding of the
  quotient itself is not modelled.
- Avatar.Upper: `toUpperCase` is modelled for ASCII letters only. Other
  characters, and multi-character upper-case forms, are kept as they are.
- Strings are sequences of characters, not UTF-16 code units.
- localStorage, the profile dialog, and the avatar upload through
  FileReader are not modelled.
- `src/types/index.ts` declares only id, title, description and created for
  a card. The checklists, comments, attachments and cover that the card views
  read are modelled as optional fields of `Card`. Labels, due dates and
  assigned users are not modelled.
- Rendering is not modelled beyond the value that decides what is drawn: the
  cover band, the icon, the count, and whether an element appears.
- MoveCard: its own contract states only that list ids and titles are kept
  and that an unknown source leaves the board unchanged. Where the card lands, and
  what happens with an unknown target or card, are stated as the `BoardFacts`
  lemmas about it.
