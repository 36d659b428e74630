/** The stored documents of the backend (workspaces, boards, lists, cards, users and their
    embedded sub-documents) and the errors its services raise. Ids stand for MongoDB
    ObjectIds; dates are instants in milliseconds. */
module Documents {
  import opened Wrappers
  import opened Positions

  type Id = nat
  type Date = int

  /** The `{ userId, username, fullname }` snapshot embedded as owner, member, assignee
      and comment author. */
  datatype UserRef = UserRef(userId: Id, username: string, fullname: string)

  datatype User = User(id: Id, username: string, fullname: string)

  datatype Comment = Comment(id: Id, author: UserRef, text: string, isEdited: bool)

  datatype Attachment = Attachment(id: Id, url: string, name: string, publicId: string)

  datatype Card = Card(
    id: Id,
    boardId: Id,
    listId: Id,
    title: string,
    description: Option<string>,
    position: Key,
    labelIds: seq<Id>,
    assignees: seq<UserRef>,
    comments: seq<Comment>,
    attachments: seq<Attachment>,
    startDate: Option<Date>,
    dueDate: Option<Date>)

  datatype ListDoc = ListDoc(
    id: Id,
    boardId: Id,
    title: string,
    description: Option<string>,
    position: Key,
    archivedAt: Option<Date>)

  datatype Label = Label(id: Id, title: string, color: string)

  /** `appearance.background` is the only appearance field a board stores (`null` = `None`). */
  datatype Board = Board(
    id: Id,
    title: string,
    description: string,
    workspaceId: Id,
    background: Option<string>,
    labels: seq<Label>,
    owner: UserRef,
    members: seq<UserRef>)

  datatype Workspace = Workspace(
    id: Id,
    title: string,
    description: string,
    owner: UserRef,
    members: seq<UserRef>)

  /** What the services throw: `http-errors` 404 and 400, and everything else (a plain
      `Error`, a `TypeError` on a `null` document, a key-generation error), which the
      error handler turns into a 500. */
  datatype Failure = NotFound(message: string) | BadRequest(message: string) | Unexpected(message: string)

  function Status(f: Failure): (code: nat)
    ensures code == 404 <==> f.NotFound?
    ensures code == 400 <==> f.BadRequest?
    ensures code == 500 <==> f.Unexpected?
  {
    match f
    case NotFound(_) => 404
    case BadRequest(_) => 400
    case Unexpected(_) => 500
  }

  function CardPosition(c: Card): Key { c.position }
  function CardId(c: Card): Id { c.id }
  function ListPosition(l: ListDoc): Key { l.position }
  function ListId(l: ListDoc): Id { l.id }

  /** `Card.find({ listId })`: the cards of one list, in store order. */
  function InList(listId: Id): Card -> bool { (c: Card) => c.listId == listId }

  /** `Card.find({ listId, _id: { $ne: cardId } })`. */
  function InListExcept(listId: Id, cardId: Id): Card -> bool {
    (c: Card) => c.listId == listId && c.id != cardId
  }

  /** `List.find({ boardId })`. */
  function OnBoard(boardId: Id): ListDoc -> bool { (l: ListDoc) => l.boardId == boardId }

  /** `List.find({ boardId, _id: { $ne: listId } })`. */
  function OnBoardExcept(boardId: Id, listId: Id): ListDoc -> bool {
    (l: ListDoc) => l.boardId == boardId && l.id != listId
  }

  /** `some(m => m.userId.toString() === userId)`. */
  predicate HasUser(refs: seq<UserRef>, userId: Id) {
    exists i :: 0 <= i < |refs| && refs[i].userId == userId
  }
}
