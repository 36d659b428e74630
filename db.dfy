/** The backend's persistent state as one value: the MongoDB collections as sequences in
    insertion order, and the source of fresh ObjectIds. The services are specified as
    functions from a `Db` to an `Outcome`: what they return and the database afterwards. */
module Database {
  import opened Wrappers
  import opened Seqs
  import opened Positions
  import opened Documents

  datatype Db = Db(
    workspaces: seq<Workspace>,
    boards: seq<Board>,
    lists: seq<ListDoc>,
    cards: seq<Card>,
    users: seq<User>,
    nextId: Id)

  /** What a service call returns (or throws), and the database after it. */
  datatype Outcome<+X> = Outcome(result: Result<X, Failure>, db: Db)

  function Max(a: nat, b: nat): (m: nat)
    ensures m >= a && m >= b && (m == a || m == b)
  {
    if a >= b then a else b
  }

  /** ObjectIds are unique: every card, list and board id was handed out below `nextId`
      and no two documents of one collection share one. A card's `listId` is below
      `nextId` too, so a freshly created list has no cards, and so are the ids of the
      comments and attachments embedded in cards. */
  ghost predicate Valid(db: Db) {
    && (forall i :: 0 <= i < |db.cards| ==> db.cards[i].id < db.nextId && db.cards[i].listId < db.nextId)
    && (forall i, k :: 0 <= i < |db.cards| && 0 <= k < |db.cards[i].comments| ==>
          db.cards[i].comments[k].id < db.nextId)
    && (forall i, k :: 0 <= i < |db.cards| && 0 <= k < |db.cards[i].attachments| ==>
          db.cards[i].attachments[k].id < db.nextId)
    && (forall i, j :: 0 <= i < j < |db.cards| ==> db.cards[i].id != db.cards[j].id)
    && (forall i :: 0 <= i < |db.lists| ==> db.lists[i].id < db.nextId)
    && (forall i, j :: 0 <= i < j < |db.lists| ==> db.lists[i].id != db.lists[j].id)
    && (forall i :: 0 <= i < |db.boards| ==> db.boards[i].id < db.nextId)
    && (forall i, j :: 0 <= i < j < |db.boards| ==> db.boards[i].id != db.boards[j].id)
  }

  /** Between `before` and `after` only the cards and the id counter changed. */
  ghost predicate OnlyCardsChanged(before: Db, after: Db) {
    && after.workspaces == before.workspaces && after.boards == before.boards
    && after.lists == before.lists && after.users == before.users
  }

  /** `Card.findById`: where the card with that id is stored. */
  function FindCard(cards: seq<Card>, id: Id): (r: Option<nat>)
    ensures r.Some? ==> r.value < |cards| && cards[r.value].id == id
    ensures r.Some? ==> forall j :: 0 <= j < r.value ==> cards[j].id != id
    ensures r.None? <==> forall j :: 0 <= j < |cards| ==> cards[j].id != id
  {
    FindIndex(cards, (c: Card) => c.id == id)
  }

  function FindList(lists: seq<ListDoc>, id: Id): (r: Option<nat>)
    ensures r.Some? ==> r.value < |lists| && lists[r.value].id == id
    ensures r.Some? ==> forall j :: 0 <= j < r.value ==> lists[j].id != id
    ensures r.None? <==> forall j :: 0 <= j < |lists| ==> lists[j].id != id
  {
    FindIndex(lists, (l: ListDoc) => l.id == id)
  }

  function FindBoard(boards: seq<Board>, id: Id): (r: Option<nat>)
    ensures r.Some? ==> r.value < |boards| && boards[r.value].id == id
    ensures r.Some? ==> forall j :: 0 <= j < r.value ==> boards[j].id != id
    ensures r.None? <==> forall j :: 0 <= j < |boards| ==> boards[j].id != id
  {
    FindIndex(boards, (b: Board) => b.id == id)
  }

  function FindUser(users: seq<User>, id: Id): (r: Option<nat>)
    ensures r.Some? ==> r.value < |users| && users[r.value].id == id
    ensures r.Some? ==> forall j :: 0 <= j < r.value ==> users[j].id != id
    ensures r.None? <==> forall j :: 0 <= j < |users| ==> users[j].id != id
  {
    FindIndex(users, (u: User) => u.id == id)
  }

  function FindWorkspace(workspaces: seq<Workspace>, id: Id): (r: Option<nat>)
    ensures r.Some? ==> r.value < |workspaces| && workspaces[r.value].id == id
    ensures r.Some? ==> forall j :: 0 <= j < r.value ==> workspaces[j].id != id
    ensures r.None? <==> forall j :: 0 <= j < |workspaces| ==> workspaces[j].id != id
  {
    FindIndex(workspaces, (w: Workspace) => w.id == id)
  }

  /** With distinct ids, the card found for an id is the only one carrying it. */
  lemma FindCardUnique(db: Db, id: Id, j: nat)
    requires Valid(db) && j < |db.cards| && db.cards[j].id == id
    ensures FindCard(db.cards, id) == Some(j)
  {
  }

  /** Appending documents leaves what `findById` finds among the old ones unchanged. */
  lemma FindCardAppend(cards: seq<Card>, extra: seq<Card>, id: Id)
    requires FindCard(cards, id).Some?
    ensures FindCard(cards + extra, id) == FindCard(cards, id)
  {
    var i := FindCard(cards, id).value;
    assert (cards + extra)[i] == cards[i];
    assert forall j :: 0 <= j < i ==> (cards + extra)[j] == cards[j];
  }

  /** Rewriting the card found for an id, keeping the id, leaves it where it is found. */
  lemma FindCardReplace(cards: seq<Card>, i: nat, c: Card)
    requires i < |cards| && FindCard(cards, c.id) == Some(i)
    ensures FindCard(cards[i := c], c.id) == Some(i)
  {
    assert forall j :: 0 <= j < i ==> cards[i := c][j] == cards[j];
    assert cards[i := c][i] == c;
  }

  /** Storing a new card whose id and sub-document ids lie in `[nextId, n)` and whose list
      id lies below `n`, and moving `nextId` up to `n`, keeps the ids unique. */
  lemma ValidAppendCard(db: Db, card: Card, n: Id)
    requires Valid(db)
    requires db.nextId <= card.id < n && card.listId < n
    requires forall k :: 0 <= k < |card.comments| ==> card.comments[k].id < n
    requires forall k :: 0 <= k < |card.attachments| ==> card.attachments[k].id < n
    ensures Valid(db.(cards := db.cards + [card], nextId := n))
  {
  }

  /** Rewriting a stored card in place, keeping its id, with its list id and sub-document ids
      below the new `nextId`, keeps the ids unique. */
  lemma ValidReplaceCard(db: Db, i: nat, card: Card, n: Id)
    requires Valid(db) && i < |db.cards| && card.id == db.cards[i].id && db.nextId <= n
    requires card.listId < n
    requires forall k :: 0 <= k < |card.comments| ==> card.comments[k].id < n
    requires forall k :: 0 <= k < |card.attachments| ==> card.attachments[k].id < n
    ensures Valid(db.(cards := db.cards[i := card], nextId := n))
  {
  }

  /** The same without moving `nextId`. */
  lemma ValidRewriteCard(db: Db, i: nat, card: Card)
    requires Valid(db) && i < |db.cards| && card.id == db.cards[i].id && card.listId < db.nextId
    requires forall k :: 0 <= k < |card.comments| ==> card.comments[k].id < db.nextId
    requires forall k :: 0 <= k < |card.attachments| ==> card.attachments[k].id < db.nextId
    ensures Valid(db.(cards := db.cards[i := card]))
  {
    ValidReplaceCard(db, i, card, db.nextId);
    assert db.(cards := db.cards[i := card], nextId := db.nextId) == db.(cards := db.cards[i := card]);
  }

  /** The ids of the sub-documents of a stored card lie below `nextId`. */
  lemma SubdocIdsBelow(db: Db, i: nat)
    requires Valid(db) && i < |db.cards|
    ensures forall k :: 0 <= k < |db.cards[i].comments| ==> db.cards[i].comments[k].id < db.nextId
    ensures forall k :: 0 <= k < |db.cards[i].attachments| ==> db.cards[i].attachments[k].id < db.nextId
  {
  }

  /** Pushing a comment with the id `nextId` onto a stored card, and moving `nextId` past it,
      keeps the ids unique. */
  lemma ValidPushComment(db: Db, i: nat, m: Comment)
    requires Valid(db) && i < |db.cards| && m.id == db.nextId
    ensures Valid(db.(cards := db.cards[i := db.cards[i].(comments := db.cards[i].comments + [m])],
                      nextId := db.nextId + 1))
  {
    SubdocIdsBelow(db, i);
    var card := db.cards[i].(comments := db.cards[i].comments + [m]);
    assert forall k :: 0 <= k < |card.attachments| ==> card.attachments[k].id < db.nextId + 1;
    assert forall k :: 0 <= k < |card.comments| ==> card.comments[k].id < db.nextId + 1;
    ValidReplaceCard(db, i, card, db.nextId + 1);
  }

  /** The same for an attachment. */
  lemma ValidPushAttachment(db: Db, i: nat, a: Attachment)
    requires Valid(db) && i < |db.cards| && a.id == db.nextId
    ensures Valid(db.(cards := db.cards[i := db.cards[i].(attachments := db.cards[i].attachments + [a])],
                      nextId := db.nextId + 1))
  {
    SubdocIdsBelow(db, i);
    var card := db.cards[i].(attachments := db.cards[i].attachments + [a]);
    assert forall k :: 0 <= k < |card.attachments| ==> card.attachments[k].id < db.nextId + 1;
    assert forall k :: 0 <= k < |card.comments| ==> card.comments[k].id < db.nextId + 1;
    ValidReplaceCard(db, i, card, db.nextId + 1);
  }

  lemma FindListReplace(lists: seq<ListDoc>, i: nat, l: ListDoc)
    requires i < |lists| && FindList(lists, l.id) == Some(i)
    ensures FindList(lists[i := l], l.id) == Some(i)
  {
    assert forall j :: 0 <= j < i ==> lists[i := l][j] == lists[j];
    assert lists[i := l][i] == l;
  }

  lemma FindBoardReplace(boards: seq<Board>, i: nat, b: Board)
    requires i < |boards| && FindBoard(boards, b.id) == Some(i)
    ensures FindBoard(boards[i := b], b.id) == Some(i)
  {
    assert forall j :: 0 <= j < i ==> boards[i := b][j] == boards[j];
    assert boards[i := b][i] == b;
  }

  /** Storing a list whose id is `nextId`, and moving `nextId` past it, keeps the ids unique. */
  lemma ValidAppendList(db: Db, list: ListDoc)
    requires Valid(db) && list.id == db.nextId
    ensures Valid(db.(lists := db.lists + [list], nextId := db.nextId + 1))
  {
  }

  /** Rewriting a stored list in place, keeping its id, keeps the ids unique. */
  lemma ValidReplaceList(db: Db, i: nat, list: ListDoc)
    requires Valid(db) && i < |db.lists| && list.id == db.lists[i].id
    ensures Valid(db.(lists := db.lists[i := list]))
  {
  }

  /** Rewriting a stored board in place, keeping its id, keeps the ids unique. */
  lemma ValidReplaceBoard(db: Db, i: nat, board: Board)
    requires Valid(db) && i < |db.boards| && board.id == db.boards[i].id
    ensures Valid(db.(boards := db.boards[i := board]))
  {
  }

  /** The message `fractional-indexing` throws with, surfacing as a 500. */
  function KeyFailure(e: KeyError): Failure {
    match e
    case InvalidKey => Unexpected("invalid order key")
    case OrderingViolation => Unexpected("lower bound is not below upper bound")
  }
}
