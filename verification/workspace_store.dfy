/**
 * The workspace store: the workspaces with their boards, and a snapshot of
 * the current workspace that the store keeps in step with its entry in the
 * workspaces. Fresh ids are supplied by the caller.
 */
module WorkspaceStore {
  import opened Collections
  import opened Types

  /** The workspaces after renaming and redescribing the ones with id `id`. */
  function UpdateWorkspaces(ws: seq<Workspace>, id: Id, title: string, description: string): (r: seq<Workspace>)
    ensures |r| == |ws| && Keys(r, WorkspaceKey) == Keys(ws, WorkspaceKey)
    ensures forall i :: 0 <= i < |ws| ==> r[i].boards == ws[i].boards
    ensures forall i :: 0 <= i < |ws| && ws[i].id == id ==> r[i].title == title && r[i].description == description
    ensures forall i :: 0 <= i < |ws| && ws[i].id != id ==> r[i] == ws[i]
    ensures id !in Keys(ws, WorkspaceKey) ==> r == ws
  {
    seq(|ws|, i requires 0 <= i < |ws| =>
      if ws[i].id == id then ws[i].(title := title, description := description) else ws[i])
  }

  /** The workspaces after appending `board` to the ones with id `workspaceId`. */
  function AddBoardTo(ws: seq<Workspace>, workspaceId: Id, board: Board): (r: seq<Workspace>)
    ensures |r| == |ws| && Keys(r, WorkspaceKey) == Keys(ws, WorkspaceKey)
    ensures forall i :: 0 <= i < |ws| ==> r[i].title == ws[i].title && r[i].description == ws[i].description
    ensures forall i :: 0 <= i < |ws| && ws[i].id != workspaceId ==> r[i] == ws[i]
    ensures forall i :: 0 <= i < |ws| && ws[i].id == workspaceId ==>
      |r[i].boards| == |ws[i].boards| + 1 && r[i].boards[..|ws[i].boards|] == ws[i].boards &&
      r[i].boards[|ws[i].boards|] == board
    ensures workspaceId !in Keys(ws, WorkspaceKey) ==> r == ws
  {
    seq(|ws|, i requires 0 <= i < |ws| =>
      if ws[i].id == workspaceId then ws[i].(boards := ws[i].boards + [board]) else ws[i])
  }

  /** The workspaces after filtering the board `boardId` out of the ones with id `workspaceId`. */
  function DeleteBoardFrom(ws: seq<Workspace>, workspaceId: Id, boardId: Id): (r: seq<Workspace>)
    ensures |r| == |ws| && Keys(r, WorkspaceKey) == Keys(ws, WorkspaceKey)
    ensures forall i :: 0 <= i < |ws| ==> r[i].title == ws[i].title && r[i].description == ws[i].description
    ensures forall i :: 0 <= i < |ws| && ws[i].id != workspaceId ==> r[i] == ws[i]
    ensures forall i :: 0 <= i < |ws| && ws[i].id == workspaceId ==>
      r[i].boards == Without(ws[i].boards, BoardKey, boardId) && boardId !in Keys(r[i].boards, BoardKey)
    ensures workspaceId !in Keys(ws, WorkspaceKey) ==> r == ws
  {
    var r := seq(|ws|, i requires 0 <= i < |ws| =>
      if ws[i].id == workspaceId then ws[i].(boards := Without(ws[i].boards, BoardKey, boardId)) else ws[i]);
    assert forall i :: 0 <= i < |ws| && ws[i].id == workspaceId ==> boardId !in Keys(r[i].boards, BoardKey) by {
      forall i | 0 <= i < |ws| && ws[i].id == workspaceId ensures boardId !in Keys(r[i].boards, BoardKey) {
        WithoutKeysSub(ws[i].boards, BoardKey, boardId);
      }
    }
    r
  }

  /** The current workspace after deleting `id`: the first remaining one if it was current, else as it was. */
  function CurrentAfterDelete(ws: seq<Workspace>, current: Option<Workspace>, id: Id): (r: Option<Workspace>)
    ensures current.Some? && current.value.id != id ==> r == current
    ensures current.None? ==> r.None?
    ensures current.Some? && current.value.id == id ==>
      (r.None? <==> Without(ws, WorkspaceKey, id) == []) &&
      (r.Some? ==> r.value == Without(ws, WorkspaceKey, id)[0] && r.value.id != id)
  {
    if current.Some? && current.value.id == id then
      var remaining := Without(ws, WorkspaceKey, id);
      WithoutKeysSub(ws, WorkspaceKey, id);
      if |remaining| > 0 then
        assert Keys(remaining, WorkspaceKey)[0] == remaining[0].id;
        Some(remaining[0])
      else None
    else current
  }

  /**
   * The current workspace is in step with the workspaces: it is absent, or
   * it is the entry with its id that `find` returns.
   */
  ghost predicate Synced(ws: seq<Workspace>, current: Option<Workspace>) {
    current.None? || Find(ws, WorkspaceKey, current.value.id) == current
  }

  lemma SyncedAfterAdd(ws: seq<Workspace>, current: Option<Workspace>, w: Workspace)
    requires Synced(ws, current)
    ensures Synced(ws + [w], current)
  {
    if current.Some? {
      FirstIndexAppend(ws, [w], WorkspaceKey, current.value.id);
    }
  }

  /** `updateWorkspace` mirrors the change into the current workspace, so they stay in step. */
  lemma SyncedAfterUpdate(ws: seq<Workspace>, current: Option<Workspace>, id: Id, title: string, description: string)
    requires Synced(ws, current)
    ensures Synced(UpdateWorkspaces(ws, id, title, description),
      if current.Some? && current.value.id == id then Some(current.value.(title := title, description := description)) else current)
  {
    if current.Some? {
      FirstIndexSameKeys(ws, UpdateWorkspaces(ws, id, title, description), WorkspaceKey, current.value.id);
    }
  }

  /** `addBoard` appends the board to the current workspace too, so they stay in step. */
  lemma SyncedAfterAddBoard(ws: seq<Workspace>, current: Option<Workspace>, workspaceId: Id, board: Board)
    requires Synced(ws, current)
    ensures Synced(AddBoardTo(ws, workspaceId, board),
      if current.Some? && current.value.id == workspaceId then Some(current.value.(boards := current.value.boards + [board])) else current)
  {
    if current.Some? {
      FirstIndexSameKeys(ws, AddBoardTo(ws, workspaceId, board), WorkspaceKey, current.value.id);
    }
  }

  /** `deleteBoard` filters the board out of the current workspace too, so they stay in step. */
  lemma SyncedAfterDeleteBoard(ws: seq<Workspace>, current: Option<Workspace>, workspaceId: Id, boardId: Id)
    requires Synced(ws, current)
    ensures Synced(DeleteBoardFrom(ws, workspaceId, boardId),
      if current.Some? && current.value.id == workspaceId
      then Some(current.value.(boards := Without(current.value.boards, BoardKey, boardId)))
      else current)
  {
    if current.Some? {
      FirstIndexSameKeys(ws, DeleteBoardFrom(ws, workspaceId, boardId), WorkspaceKey, current.value.id);
    }
  }

  /** `deleteWorkspace` re-selects a remaining workspace or keeps an undeleted one, so they stay in step. */
  lemma SyncedAfterDelete(ws: seq<Workspace>, current: Option<Workspace>, id: Id)
    requires Synced(ws, current)
    ensures Synced(Without(ws, WorkspaceKey, id), CurrentAfterDelete(ws, current, id))
  {
    var remaining := Without(ws, WorkspaceKey, id);
    if current.Some? && current.value.id != id {
      FindWithout(ws, WorkspaceKey, id, current.value.id);
    } else if current.Some? && remaining != [] {
      assert Keys(remaining, WorkspaceKey)[0] == remaining[0].id;
    }
  }

  /** With unique ids, selecting one of the workspaces puts the current workspace in step. */
  lemma SyncedAfterSelect(ws: seq<Workspace>, w: Workspace)
    requires UniqueKeys(ws, WorkspaceKey) && w in ws
    ensures Synced(ws, Some(w))
  {
    var k :| 0 <= k < |ws| && ws[k] == w;
    forall j | 0 <= j < |ws| && j != k ensures ws[j].id != ws[k].id {
      if ws[j].id == ws[k].id {
        UniqueKeysAt(ws, WorkspaceKey, j, k);
      }
    }
    FindAt(ws, WorkspaceKey, k);
  }

  /** Adding a workspace under a fresh id keeps workspace ids unique. */
  lemma AddKeepsUnique(ws: seq<Workspace>, w: Workspace)
    requires UniqueKeys(ws, WorkspaceKey) && w.id !in Keys(ws, WorkspaceKey)
    ensures UniqueKeys(ws + [w], WorkspaceKey)
  {
    KeysAppend(ws, [w], WorkspaceKey);
    assert Keys([w], WorkspaceKey) == [w.id];
    DistinctAdd(Keys(ws + [w], WorkspaceKey), Keys(ws, WorkspaceKey), w.id);
  }

  /** Deleting a workspace removes every workspace with that id and keeps ids unique. */
  lemma DeleteKeepsUnique(ws: seq<Workspace>, id: Id)
    requires UniqueKeys(ws, WorkspaceKey)
    ensures UniqueKeys(Without(ws, WorkspaceKey, id), WorkspaceKey)
    ensures id !in Keys(Without(ws, WorkspaceKey, id), WorkspaceKey)
  {
    WithoutKeysSub(ws, WorkspaceKey, id);
    DistinctSub(Keys(Without(ws, WorkspaceKey, id), WorkspaceKey), Keys(ws, WorkspaceKey));
  }

  class Store {
    var workspaces: seq<Workspace>
    var current: Option<Workspace>

    /** The initial workspaces, the first of them current (none when there is none). */
    constructor(initial: seq<Workspace>)
      ensures workspaces == initial
      ensures current == if initial == [] then None else Some(initial[0])
      ensures Synced(workspaces, current)
    {
      workspaces := initial;
      if initial == [] {
        current := None;
      } else {
        current := Some(initial[0]);
      }
    }

    /**
     * `setCurrentWorkspace`: any workspace becomes current; the workspaces
     * are untouched. Selecting one of the workspaces puts the two in step.
     */
    method SetCurrentWorkspace(w: Workspace)
      modifies this
      ensures current == Some(w) && workspaces == old(workspaces)
      ensures UniqueKeys(workspaces, WorkspaceKey) && w in workspaces ==> Synced(workspaces, current)
    {
      if UniqueKeys(workspaces, WorkspaceKey) && w in workspaces {
        SyncedAfterSelect(workspaces, w);
      }
      current := Some(w);
    }

    /** `addWorkspace`: one new workspace without boards at the end; current untouched. */
    method AddWorkspace(freshId: Id, title: string, description: string)
      modifies this
      ensures workspaces == old(workspaces) + [Workspace(freshId, title, description, [])]
      ensures current == old(current)
      ensures Synced(old(workspaces), old(current)) ==> Synced(workspaces, current)
      ensures UniqueKeys(old(workspaces), WorkspaceKey) && freshId !in Keys(old(workspaces), WorkspaceKey) ==>
        UniqueKeys(workspaces, WorkspaceKey)
    {
      var w := Workspace(freshId, title, description, []);
      if Synced(workspaces, current) {
        SyncedAfterAdd(workspaces, current, w);
      }
      if UniqueKeys(workspaces, WorkspaceKey) && freshId !in Keys(workspaces, WorkspaceKey) {
        AddKeepsUnique(workspaces, w);
      }
      workspaces := workspaces + [w];
    }

    /** `updateWorkspace`: renames the workspaces with that id, and the current one when it has that id. */
    method UpdateWorkspace(id: Id, title: string, description: string)
      modifies this
      ensures workspaces == UpdateWorkspaces(old(workspaces), id, title, description)
      ensures current == if old(current).Some? && old(current).value.id == id
        then Some(old(current).value.(title := title, description := description))
        else old(current)
      ensures Synced(old(workspaces), old(current)) ==> Synced(workspaces, current)
    {
      if Synced(workspaces, current) {
        SyncedAfterUpdate(workspaces, current, id, title, description);
      }
      workspaces := UpdateWorkspaces(workspaces, id, title, description);
      if current.Some? && current.value.id == id {
        current := Some(current.value.(title := title, description := description));
      }
    }

    /** `deleteWorkspace`: filters the id out; a deleted current workspace gives way to the first remaining one. */
    method DeleteWorkspace(id: Id)
      modifies this
      ensures workspaces == Without(old(workspaces), WorkspaceKey, id)
      ensures current == CurrentAfterDelete(old(workspaces), old(current), id)
      ensures Synced(old(workspaces), old(current)) ==> Synced(workspaces, current)
    {
      if Synced(workspaces, current) {
        SyncedAfterDelete(workspaces, current, id);
      }
      var remaining := Without(workspaces, WorkspaceKey, id);
      if current.Some? && current.value.id == id {
        if |remaining| > 0 {
          current := Some(remaining[0]);
        } else {
          current := None;
        }
      }
      workspaces := remaining;
    }

    /** `addBoard`: a new board without lists at the end of the workspace's boards, and of current's when it is that workspace. */
    method AddBoard(workspaceId: Id, freshBoardId: Id, title: string)
      modifies this
      ensures workspaces == AddBoardTo(old(workspaces), workspaceId, Board(freshBoardId, title, []))
      ensures current == if old(current).Some? && old(current).value.id == workspaceId
        then Some(old(current).value.(boards := old(current).value.boards + [Board(freshBoardId, title, [])]))
        else old(current)
      ensures Synced(old(workspaces), old(current)) ==> Synced(workspaces, current)
    {
      var board := Board(freshBoardId, title, []);
      if Synced(workspaces, current) {
        SyncedAfterAddBoard(workspaces, current, workspaceId, board);
      }
      workspaces := AddBoardTo(workspaces, workspaceId, board);
      if current.Some? && current.value.id == workspaceId {
        current := Some(current.value.(boards := current.value.boards + [board]));
      }
    }

    /** `deleteBoard`: filters the board out of the workspace, and out of current when it is that workspace. */
    method DeleteBoard(workspaceId: Id, boardId: Id)
      modifies this
      ensures workspaces == DeleteBoardFrom(old(workspaces), workspaceId, boardId)
      ensures current == if old(current).Some? && old(current).value.id == workspaceId
        then Some(old(current).value.(boards := Without(old(current).value.boards, BoardKey, boardId)))
        else old(current)
      ensures Synced(old(workspaces), old(current)) ==> Synced(workspaces, current)
    {
      if Synced(workspaces, current) {
        SyncedAfterDeleteBoard(workspaces, current, workspaceId, boardId);
      }
      workspaces := DeleteBoardFrom(workspaces, workspaceId, boardId);
      if current.Some? && current.value.id == workspaceId {
        current := Some(current.value.(boards := Without(current.value.boards, BoardKey, boardId)));
      }
    }
  }
}
