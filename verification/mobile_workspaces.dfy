/**
 * The workspace switcher on small screens: the first four workspaces as
 * buttons, the rest behind a "More" menu, the current one highlighted.
 */
module MobileWorkspaces {
  import opened Collections
  import opened Types

  const MaxVisible: nat := 4

  /** `workspaces.slice(0, maxVisible)`. */
  function Visible(ws: seq<Workspace>): (r: seq<Workspace>)
    ensures |r| == if |ws| < MaxVisible then |ws| else MaxVisible
    ensures r == ws[..|r|]
  {
    if |ws| < MaxVisible then ws else ws[..MaxVisible]
  }

  /** `workspaces.slice(maxVisible)`. */
  function Overflow(ws: seq<Workspace>): (r: seq<Workspace>)
    ensures |r| == if |ws| < MaxVisible then 0 else |ws| - MaxVisible
    ensures Visible(ws) + r == ws
  {
    if |ws| < MaxVisible then [] else ws[MaxVisible..]
  }

  /** The "More" menu is drawn when there is overflow. */
  predicate ShowMore(ws: seq<Workspace>)
    ensures ShowMore(ws) <==> |ws| > MaxVisible
  {
    |Overflow(ws)| > 0
  }

  /** A workspace is highlighted when it has the current workspace's id; nothing is without a current one. */
  predicate Highlighted(w: Workspace, current: Option<Workspace>)
    ensures current.None? ==> !Highlighted(w, current)
    ensures current == Some(w) ==> Highlighted(w, current)
  {
    current.Some? && w.id == current.value.id
  }

  /**
   * With unique ids and the current workspace among the workspaces, exactly
   * one entry, the current one, is highlighted, in the buttons or in the menu.
   */
  lemma HighlightExactlyCurrent(ws: seq<Workspace>, current: Option<Workspace>, k: nat)
    requires UniqueKeys(ws, WorkspaceKey) && k < |ws| && current == Some(ws[k])
    ensures forall i :: 0 <= i < |ws| ==> (Highlighted(ws[i], current) <==> i == k)
    ensures k < MaxVisible ==> Highlighted(Visible(ws)[k], current)
    ensures k >= MaxVisible ==> Highlighted(Overflow(ws)[k - MaxVisible], current)
  {
    forall i | 0 <= i < |ws| && Highlighted(ws[i], current) ensures i == k {
      UniqueKeysAt(ws, WorkspaceKey, i, k);
    }
  }
}
