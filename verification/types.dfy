/**
 * The records of the board: workspace -> board -> list -> card, each owning
 * its children by value, and the card's optional sub-records read by the
 * card face. Timestamps are integers supplied by the caller.
 */
module Types {
  import opened Collections

  datatype ChecklistItem = ChecklistItem(id: Id, text: string, checked: bool)

  datatype Checklist = Checklist(id: Id, title: string, items: seq<ChecklistItem>)

  datatype Comment = Comment(id: Id, text: string, author: string, createdAt: int)

  /** `kind` is the attachment's `type` field ('file' for uploads, anything else for links). */
  datatype Attachment = Attachment(id: Id, name: string, url: string, kind: string)

  /** A cover: an image url, a colour, both or neither. */
  datatype Cover = Cover(url: Option<string>, color: Option<string>)

  datatype Card = Card(
    id: Id,
    title: string,
    description: string,
    created: int,
    checklists: Option<seq<Checklist>>,
    comments: Option<seq<Comment>>,
    attachments: Option<seq<Attachment>>,
    cover: Option<Cover>)

  datatype List = List(id: Id, title: string, cards: seq<Card>)

  datatype Board = Board(id: Id, title: string, lists: seq<List>)

  datatype Workspace = Workspace(id: Id, title: string, description: string, boards: seq<Board>)

  // The id of each kind of record, as a function value for the keyed helpers.

  function CardKey(c: Card): Id { c.id }
  function ListKey(l: List): Id { l.id }
  function BoardKey(b: Board): Id { b.id }
  function WorkspaceKey(w: Workspace): Id { w.id }
}
