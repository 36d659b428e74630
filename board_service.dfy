/** The board service of the backend: creating and updating boards (keeping only the
    background of a supplied appearance), the full-board query, and the board's labels. */
module BoardService {
  import opened Wrappers
  import opened Seqs
  import opened Positions
  import opened Documents
  import opened Database
  import opened ListService

  /** An `appearance` object as a caller may pass it: its `background`, if present, and the
      names of any other keys it carries. */
  datatype Appearance = Appearance(background: Option<string>, otherKeys: seq<string>)

  /** `if (data.appearance) data.appearance = { background }`: a supplied appearance is cut
      down to its background; an absent one stays absent. */
  function NormalizeAppearance(a: Option<Appearance>): (r: Option<Appearance>)
    ensures r.None? <==> a.None?
    ensures r.Some? ==> r.value.background == a.value.background && r.value.otherKeys == []
  {
    match a
    case None => None
    case Some(app) => Some(Appearance(app.background, []))
  }

  /** Normalising twice is normalising once. */
  lemma NormalizeAppearanceIdempotent(a: Option<Appearance>)
    ensures NormalizeAppearance(NormalizeAppearance(a)) == NormalizeAppearance(a)
  {
  }

  /** The body of `createBoard`. */
  datatype NewBoard = NewBoard(
    title: string,
    description: Option<string>,
    workspaceId: Id,
    appearance: Option<Appearance>,
    owner: UserRef,
    members: seq<UserRef>)

  /** The fields of `updateBoard` that a body may set; `None` leaves a field as it is. */
  datatype BoardPatch = BoardPatch(
    title: Option<string>,
    description: Option<string>,
    appearance: Option<Appearance>)

  /** The background a normalised appearance stores (`null` when it has none). */
  function StoredBackground(a: Option<Appearance>): Option<string> {
    match NormalizeAppearance(a)
    case None => None
    case Some(app) => app.background
  }

  /** `createBoard`: the description defaults to "", the background to `null`, and the board
      starts without labels. */
  function CreateBoard(db: Db, data: NewBoard): Outcome<Board>
  {
    var board := Board(db.nextId, data.title, data.description.GetOr(""), data.workspaceId,
                       StoredBackground(data.appearance), [], data.owner, data.members);
    Outcome(Success(board), db.(boards := db.boards + [board], nextId := db.nextId + 1))
  }

  /** `createBoard` stores one new board with a fresh id, the supplied fields, the
      appearance's background only, and no labels; ids stay unique. */
  lemma CreateBoardStores(db: Db, data: NewBoard)
    requires Valid(db)
    ensures var o := CreateBoard(db, data);
      && o.result.Success? && Valid(o.db)
      && var b := o.result.value;
      && (forall k :: 0 <= k < |db.boards| ==> db.boards[k].id != b.id)
      && o.db == db.(boards := db.boards + [b], nextId := o.db.nextId)
      && FindBoard(o.db.boards, b.id) == Some(|db.boards|)
      && b.title == data.title && b.workspaceId == data.workspaceId
      && b.owner == data.owner && b.members == data.members && b.labels == []
      && (data.description.None? ==> b.description == "")
      && (data.description.Some? ==> b.description == data.description.value)
      && (data.appearance.None? ==> b.background.None?)
      && (data.appearance.Some? ==> b.background == data.appearance.value.background)
  {
    var o := CreateBoard(db, data);
    var b := o.result.value;
    assert forall k :: 0 <= k < |db.boards| ==> o.db.boards[k] == db.boards[k];
    assert o.db.boards[|db.boards|] == b;
  }

  /** `updateBoard`: `findByIdAndUpdate` with the normalised body; `null` for an unknown id. */
  function UpdateBoard(db: Db, id: Id, patch: BoardPatch): Outcome<Option<Board>>
  {
    match FindBoard(db.boards, id)
    case None => Outcome(Success(None), db)
    case Some(i) =>
      var prev := db.boards[i];
      var board := prev.(title := patch.title.GetOr(prev.title),
                        description := patch.description.GetOr(prev.description),
                        background := if patch.appearance.Some? then StoredBackground(patch.appearance)
                                      else prev.background);
      Outcome(Success(Some(board)), db.(boards := db.boards[i := board]))
  }

  /** `updateBoard` returns `null` and writes nothing for an unknown board; otherwise it sets
      exactly the supplied title, description and background (an appearance replaced by its
      background alone) and leaves labels, owner, members and workspace as they were. */
  lemma UpdateBoardEffect(db: Db, id: Id, patch: BoardPatch)
    ensures var o := UpdateBoard(db, id, patch);
      && o.result.Success?
      && (FindBoard(db.boards, id).None? <==> o.result.value.None?)
      && (FindBoard(db.boards, id).None? ==> o.db == db)
      && (FindBoard(db.boards, id).Some? ==>
            var i := FindBoard(db.boards, id).value;
            var b := o.result.value.value;
            && o.db == db.(boards := db.boards[i := b])
            && b.id == id && b.workspaceId == db.boards[i].workspaceId
            && b.labels == db.boards[i].labels && b.owner == db.boards[i].owner
            && b.members == db.boards[i].members
            && b.title == (if patch.title.Some? then patch.title.value else db.boards[i].title)
            && b.description == (if patch.description.Some? then patch.description.value
                                 else db.boards[i].description)
            && (patch.appearance.Some? ==> b.background == patch.appearance.value.background)
            && (patch.appearance.None? ==> b.background == db.boards[i].background))
  {
  }

  /** Updating a board keeps the store's ids unique. */
  lemma UpdateBoardValid(db: Db, id: Id, patch: BoardPatch)
    requires Valid(db)
    ensures Valid(UpdateBoard(db, id, patch).db)
  {
  }

  // ---------------------------------------------------------------------------------------
  // getFullBoardById

  /** The board with its lists and cards, as `getFullBoardById` returns it. */
  datatype FullBoard = FullBoard(board: Board, lists: seq<ListDoc>, cards: seq<Card>)

  /** `Card.find({ listId: { $in: listIds }, ...query })`, with `query` the card filter the
      request's filters compile to (`None` when there are none). */
  function InListsMatching(listIds: seq<Id>, query: Option<Card -> bool>): Card -> bool {
    (c: Card) => c.listId in listIds && (query.None? || query.value(c))
  }

  function ListIds(lists: seq<ListDoc>): (ids: seq<Id>)
    ensures |ids| == |lists| && forall k :: 0 <= k < |lists| ==> ids[k] == lists[k].id
  {
    seq(|lists|, k requires 0 <= k < |lists| => lists[k].id)
  }

  /** `getFullBoardById`: `null` for an unknown board; otherwise the board, its lists sorted by
      position, and the cards of those lists that match the filter, sorted by position. */
  function GetFullBoard(db: Db, id: Id, query: Option<Card -> bool>): Option<FullBoard>
  {
    match FindBoard(db.boards, id)
    case None => None
    case Some(i) =>
      var lists := SortByPosition(BoardLists(db, id), ListPosition);
      var cards := SortByPosition(Filter(db.cards, InListsMatching(ListIds(lists), query)), CardPosition);
      Some(FullBoard(db.boards[i], lists, cards))
  }

  /** `getFullBoardById` returns `null` exactly for an unknown board. Otherwise it returns
      that board and exactly the lists stored on it (as a permutation) in ascending
      position. */
  lemma GetFullBoardLists(db: Db, id: Id, query: Option<Card -> bool>)
    ensures var r := GetFullBoard(db, id, query);
      && (r.None? <==> FindBoard(db.boards, id).None?)
      && (r.Some? ==>
            var f := r.value;
            && f.board == db.boards[FindBoard(db.boards, id).value]
            && multiset(f.lists) == multiset(BoardLists(db, id))
            && (forall l :: l in f.lists <==> l in db.lists && l.boardId == id)
            && (forall a, b :: 0 <= a < b < |f.lists| ==> !Less(f.lists[b].position, f.lists[a].position)))
  {
    if FindBoard(db.boards, id).Some? {
      var onBoard := BoardLists(db, id);
      SortByPositionSorted(onBoard, ListPosition);
      SortedMembers(onBoard, ListPosition);
      FilterMembersExactly(db.lists, OnBoard(id));
    }
  }

  /** The cards `getFullBoardById` returns are exactly the stored cards that lie in one of
      the returned lists and match the filter (without filters, every card of those lists),
      in ascending position. */
  lemma GetFullBoardCards(db: Db, id: Id, query: Option<Card -> bool>)
    requires GetFullBoard(db, id, query).Some?
    ensures var f := GetFullBoard(db, id, query).value;
      && (forall c :: c in f.cards <==>
            && c in db.cards
            && (exists l :: l in f.lists && l.id == c.listId)
            && (query.None? || query.value(c)))
      && (forall a, b :: 0 <= a < b < |f.cards| ==> !Less(f.cards[b].position, f.cards[a].position))
  {
    var f := GetFullBoard(db, id, query).value;
    var ids := ListIds(f.lists);
    var matching := Filter(db.cards, InListsMatching(ids, query));
    assert f.cards == SortByPosition(matching, CardPosition);
    SortByPositionSorted(matching, CardPosition);
    SortedMembers(matching, CardPosition);
    FilterMembersExactly(db.cards, InListsMatching(ids, query));
    forall c: Card ensures c.listId in ids <==> exists l :: l in f.lists && l.id == c.listId {
      ListIdsMembers(f.lists, c.listId);
    }
  }

  /** An id is among `ListIds(lists)` exactly when one of the lists carries it. */
  lemma ListIdsMembers(lists: seq<ListDoc>, id: Id)
    ensures id in ListIds(lists) <==> exists l :: l in lists && l.id == id
  {
    var ids := ListIds(lists);
    if id in ids {
      var k :| 0 <= k < |ids| && ids[k] == id;
      assert lists[k] in lists;
    }
    if l :| l in lists && l.id == id {
      var k :| 0 <= k < |lists| && lists[k] == l;
      assert ids[k] == id;
    }
  }

  /** Membership in a sorted copy is membership in the original. */
  lemma SortedMembers<T>(s: seq<T>, pos: T -> Key)
    ensures forall x :: x in SortByPosition(s, pos) <==> x in s
  {
    SortWithMembers(s, PositionLe(pos));
  }

  /** Membership in a filter, stated on values. */
  lemma FilterMembersExactly<T>(s: seq<T>, p: T -> bool)
    ensures forall x :: x in Filter(s, p) <==> x in s && p(x)
  {
    FilterMembers(s, p);
    var r := Filter(s, p);
    forall x | x in r ensures x in s && p(x) {
      var k :| 0 <= k < |r| && r[k] == x;
    }
    forall x | x in s && p(x) ensures x in r {
      var k :| 0 <= k < |s| && s[k] == x;
    }
  }

  /** The full-board query reads the store and writes nothing: its result depends only on
      the boards, lists and cards. */
  lemma GetFullBoardReadsOnly(db: Db, db2: Db, id: Id, query: Option<Card -> bool>)
    requires db2.boards == db.boards && db2.lists == db.lists && db2.cards == db.cards
    ensures GetFullBoard(db2, id, query) == GetFullBoard(db, id, query)
  {
  }

  // ---------------------------------------------------------------------------------------
  // Labels

  /** `getBoardLabels`: the board itself; a plain `Error` for an unknown board. */
  function GetBoardLabels(db: Db, boardId: Id): (r: Result<Board, Failure>)
    ensures r.Failure? <==> FindBoard(db.boards, boardId).None?
    ensures r.Failure? ==> r.error == Unexpected("Board not found")
    ensures r.Success? ==> r.value.id == boardId && r.value in db.boards
  {
    match FindBoard(db.boards, boardId)
    case None => Failure(Unexpected("Board not found"))
    case Some(i) => Success(db.boards[i])
  }

  /** Reading `.labels` of the `null` an update of a missing document returns. */
  const NullLabels := Unexpected("Cannot read properties of null (reading 'labels')")

  /** `addLabelToBoard`: `$push` the label (given a fresh id) and return `labels.at(-1)`; the
      update of an unknown board returns `null`, whose `labels` throws. */
  function AddLabelToBoard(db: Db, boardId: Id, title: string, color: string): Outcome<Label>
  {
    match FindBoard(db.boards, boardId)
    case None => Outcome(Failure(NullLabels), db)
    case Some(i) =>
      var labels := db.boards[i].labels + [Label(db.nextId, title, color)];
      var board := db.boards[i].(labels := labels);
      Outcome(Success(labels[|labels| - 1]), db.(boards := db.boards[i := board], nextId := db.nextId + 1))
  }

  /** Adding a label to an existing board appends exactly that label, under a fresh id, to
      that board's labels and returns it; nothing else about the board changes. An unknown
      board is a 500 and nothing is written. */
  lemma AddLabelEffect(db: Db, boardId: Id, title: string, color: string)
    ensures var o := AddLabelToBoard(db, boardId, title, color);
      && (FindBoard(db.boards, boardId).None? <==> o.result.Failure?)
      && (o.result.Failure? ==> o.result.error == NullLabels && o.db == db)
      && (o.result.Success? ==>
            var i := FindBoard(db.boards, boardId).value;
            var newLabel := o.result.value;
            && newLabel == Label(db.nextId, title, color)
            && o.db == db.(boards := db.boards[i := db.boards[i].(labels := db.boards[i].labels + [newLabel])],
                           nextId := db.nextId + 1))
  {
  }

  /** Adding a label keeps the store's ids unique. */
  lemma AddLabelValid(db: Db, boardId: Id, title: string, color: string)
    requires Valid(db)
    ensures Valid(AddLabelToBoard(db, boardId, title, color).db)
  {
  }

  /** `updateLabelInBoard`'s body: a field left out is not set. */
  datatype LabelPatch = LabelPatch(title: Option<string>, color: Option<string>)

  function LabelIndex(labels: seq<Label>, labelId: Id): (r: Option<nat>)
    ensures r.Some? ==> r.value < |labels| && labels[r.value].id == labelId
    ensures r.Some? ==> forall j :: 0 <= j < r.value ==> labels[j].id != labelId
    ensures r.None? <==> forall j :: 0 <= j < |labels| ==> labels[j].id != labelId
  {
    FindIndex(labels, (l: Label) => l.id == labelId)
  }

  /** `updateLabelInBoard`: `findOneAndUpdate` on the board holding a label with that id sets
      the title and colour of the first such label (`labels.$`) and returns it
      (`labels.id(labelId)`); when no board matches, the `null` result throws. */
  function UpdateLabelInBoard(db: Db, boardId: Id, labelId: Id, patch: LabelPatch): Outcome<Label>
  {
    match FindBoard(db.boards, boardId)
    case None => Outcome(Failure(NullLabels), db)
    case Some(i) =>
      match LabelIndex(db.boards[i].labels, labelId)
      case None => Outcome(Failure(NullLabels), db)
      case Some(k) =>
        var prev := db.boards[i].labels[k];
        var newLabel := prev.(title := patch.title.GetOr(prev.title), color := patch.color.GetOr(prev.color));
        var board := db.boards[i].(labels := db.boards[i].labels[k := newLabel]);
        Outcome(Success(newLabel), db.(boards := db.boards[i := board]))
  }

  /** Updating a label of an existing board changes only the `title` and `color` supplied of
      the first label with that id, keeps its id, leaves every other label and every other
      field of the board as it was, and returns the updated label; a missing board or label
      is a 500 and nothing is written. */
  lemma UpdateLabelEffect(db: Db, boardId: Id, labelId: Id, patch: LabelPatch)
    ensures var o := UpdateLabelInBoard(db, boardId, labelId, patch);
      && (o.result.Failure? <==>
            FindBoard(db.boards, boardId).None?
            || LabelIndex(db.boards[FindBoard(db.boards, boardId).value].labels, labelId).None?)
      && (o.result.Failure? ==> o.result.error == NullLabels && o.db == db)
      && (o.result.Success? ==>
            var i := FindBoard(db.boards, boardId).value;
            var k := LabelIndex(db.boards[i].labels, labelId).value;
            var newLabel := o.result.value;
            && newLabel.id == labelId
            && newLabel.title == (if patch.title.Some? then patch.title.value else db.boards[i].labels[k].title)
            && newLabel.color == (if patch.color.Some? then patch.color.value else db.boards[i].labels[k].color)
            && o.db == db.(boards := db.boards[i := db.boards[i].(labels := db.boards[i].labels[k := newLabel])]))
  {
  }

  /** The label `labels.id(labelId)` finds after the update is the one returned. */
  lemma UpdateLabelFindsUpdated(db: Db, boardId: Id, labelId: Id, patch: LabelPatch)
    requires UpdateLabelInBoard(db, boardId, labelId, patch).result.Success?
    ensures var o := UpdateLabelInBoard(db, boardId, labelId, patch);
      var i := FindBoard(db.boards, boardId).value;
      && FindBoard(o.db.boards, boardId) == Some(i)
      && LabelIndex(o.db.boards[i].labels, labelId).Some?
      && o.db.boards[i].labels[LabelIndex(o.db.boards[i].labels, labelId).value] == o.result.value
  {
    var o := UpdateLabelInBoard(db, boardId, labelId, patch);
    var i := FindBoard(db.boards, boardId).value;
    var k := LabelIndex(db.boards[i].labels, labelId).value;
    var labels := o.db.boards[i].labels;
    FindBoardReplace(db.boards, i, o.db.boards[i]);
    LabelIndexReplace(db.boards[i].labels, k, o.result.value);
  }

  lemma LabelIndexReplace(labels: seq<Label>, k: nat, l: Label)
    requires k < |labels| && LabelIndex(labels, l.id) == Some(k)
    ensures LabelIndex(labels[k := l], l.id) == Some(k)
  {
    assert forall j :: 0 <= j < k ==> labels[k := l][j] == labels[j];
    assert labels[k := l][k] == l;
  }

  /** `$pull: { labels: { _id: labelId } }`. */
  function OtherLabel(labelId: Id): Label -> bool { (l: Label) => l.id != labelId }

  /** `removeLabelFromBoard`: pull every label with that id; `null` for an unknown board. */
  function RemoveLabelFromBoard(db: Db, boardId: Id, labelId: Id): Outcome<Option<Board>>
  {
    match FindBoard(db.boards, boardId)
    case None => Outcome(Success(None), db)
    case Some(i) =>
      var board := db.boards[i].(labels := Filter(db.boards[i].labels, OtherLabel(labelId)));
      Outcome(Success(Some(board)), db.(boards := db.boards[i := board]))
  }

  /** Removing a label from an existing board leaves exactly the other labels, in their
      order, and nothing else changes; an unknown board yields `null` and no write. */
  lemma RemoveLabelEffect(db: Db, boardId: Id, labelId: Id)
    ensures var o := RemoveLabelFromBoard(db, boardId, labelId);
      && o.result.Success?
      && (FindBoard(db.boards, boardId).None? <==> o.result.value.None?)
      && (FindBoard(db.boards, boardId).None? ==> o.db == db)
      && (FindBoard(db.boards, boardId).Some? ==>
            var i := FindBoard(db.boards, boardId).value;
            var b := o.result.value.value;
            && b == db.boards[i].(labels := b.labels)
            && o.db == db.(boards := db.boards[i := b])
            && (forall k :: 0 <= k < |b.labels| ==> b.labels[k].id != labelId)
            && (forall l :: l in b.labels <==> l in db.boards[i].labels && l.id != labelId))
  {
    if FindBoard(db.boards, boardId).Some? {
      var i := FindBoard(db.boards, boardId).value;
      FilterMembersExactly(db.boards[i].labels, OtherLabel(labelId));
    }
  }

  /** Removing a label twice is removing it once. */
  lemma RemoveLabelTwice(db: Db, boardId: Id, labelId: Id)
    ensures var first := RemoveLabelFromBoard(db, boardId, labelId);
      RemoveLabelFromBoard(first.db, boardId, labelId) == first
  {
    var first := RemoveLabelFromBoard(db, boardId, labelId);
    if FindBoard(db.boards, boardId).Some? {
      var i := FindBoard(db.boards, boardId).value;
      var pulled := Filter(db.boards[i].labels, OtherLabel(labelId));
      FilterKeepsAll(pulled, OtherLabel(labelId));
      FindBoardReplace(db.boards, i, first.db.boards[i]);
      UpdateSame(first.db.boards, i, first.db.boards[i], first.db.boards[i]);
    }
  }

  /** A label added and then removed leaves the board's labels as removing that id alone
      would, when no label had the fresh id before. */
  lemma AddThenRemoveLabel(db: Db, boardId: Id, title: string, color: string)
    requires FindBoard(db.boards, boardId).Some?
    requires var i := FindBoard(db.boards, boardId).value;
      forall k :: 0 <= k < |db.boards[i].labels| ==> db.boards[i].labels[k].id != db.nextId
    ensures var added := AddLabelToBoard(db, boardId, title, color);
      var i := FindBoard(db.boards, boardId).value;
      var removed := RemoveLabelFromBoard(added.db, boardId, db.nextId);
      removed.db.boards[i].labels == db.boards[i].labels
  {
    var i := FindBoard(db.boards, boardId).value;
    var added := AddLabelToBoard(db, boardId, title, color);
    var newLabel := Label(db.nextId, title, color);
    FindBoardReplace(db.boards, i, added.db.boards[i]);
    FilterConcat(db.boards[i].labels, [newLabel], OtherLabel(db.nextId));
    FilterSingle(newLabel, OtherLabel(db.nextId));
    FilterKeepsAll(db.boards[i].labels, OtherLabel(db.nextId));
  }

  /** Updating a label keeps the store's ids unique. */
  lemma UpdateLabelValid(db: Db, boardId: Id, labelId: Id, patch: LabelPatch)
    requires Valid(db)
    ensures Valid(UpdateLabelInBoard(db, boardId, labelId, patch).db)
  {
    var o := UpdateLabelInBoard(db, boardId, labelId, patch);
    match FindBoard(db.boards, boardId)
    case None =>
    case Some(i) =>
      match LabelIndex(db.boards[i].labels, labelId)
      case None =>
      case Some(k) =>
        var prev := db.boards[i].labels[k];
        var newLabel := prev.(title := patch.title.GetOr(prev.title), color := patch.color.GetOr(prev.color));
        var board := db.boards[i].(labels := db.boards[i].labels[k := newLabel]);
        assert o.db == db.(boards := db.boards[i := board]);
        ValidReplaceBoard(db, i, board);
  }

  /** Removing a label keeps the store's ids unique. */
  lemma RemoveLabelValid(db: Db, boardId: Id, labelId: Id)
    requires Valid(db)
    ensures Valid(RemoveLabelFromBoard(db, boardId, labelId).db)
  {
    var o := RemoveLabelFromBoard(db, boardId, labelId);
    match FindBoard(db.boards, boardId)
    case None =>
    case Some(i) =>
      var board := db.boards[i].(labels := Filter(db.boards[i].labels, OtherLabel(labelId)));
      assert o.db == db.(boards := db.boards[i := board]);
      ValidReplaceBoard(db, i, board);
  }
}
