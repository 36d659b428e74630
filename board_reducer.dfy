/** The board slice of the client store and the `boardReducer` SUCCESS handlers for cards,
    lists and labels. The current board holds its lists, each list its cards; every handler
    returns a new state built from the old one. A handler that reads `state.board.lists` or
    `state.board._id` while no board is loaded throws a TypeError, which is the `Failure`
    of `Reduce`. */
module BoardReducer {
  import opened Wrappers
  import opened Seqs
  import opened Positions
  import opened Documents

  /** A list as the board page holds it: the list document and its cards. */
  datatype UiList = UiList(doc: ListDoc, cards: seq<Card>)

  /** The loaded board: the board document (with its labels) and its lists. */
  datatype BoardView = BoardView(info: Board, lists: seq<UiList>)

  /** The slice: the board summaries, the loaded board (`null` = `None`), the normalised
      lists and cards, and the per-request loading flags and error messages. */
  datatype BoardState = BoardState(
    boards: seq<Board>,
    board: Option<BoardView>,
    lists: seq<ListDoc>,
    cards: seq<Card>,
    loading: map<string, bool>,
    errors: map<string, Option<string>>)

  /** The actions this model handles; `Unhandled` is any type without a handler. */
  datatype BoardAction =
    | AddCardSuccess(card: Card)
    | CopyCardSuccess(card: Card)
    | MoveCardSuccess(card: Card)
    | DeleteCardSuccess(cardId: Id)
    | MoveListSuccess(list: ListDoc)
    | CopyListSuccess(copy: UiList)
    | ArchiveListSuccess(list: ListDoc)
    | DeleteListSuccess(listId: Id)
    | DeleteLabelSuccess(labelId: Id)
    | SetLoading(key: string, isLoading: bool)
    | SetError(key: string, error: Option<string>)
    | Unhandled(actionType: string)

  /** The `KEY` of each asynchronous action type, under which its loading flag is kept. */
  const AddCardKey := "ADD_CARD"
  const CopyCardKey := "COPY_CARD"
  const MoveCardKey := "MOVE_CARD"
  const DeleteCardKey := "DELETE_CARD"
  const CopyListKey := "COPY_LIST"
  const ArchiveListKey := "ARCHIVE_LIST"
  const DeleteListKey := "DELETE_LIST"
  const DeleteLabelKey := "DELETE_LABEL"

  const NoBoard := "TypeError: Cannot read properties of null"

  /** The handlers that read the loaded board. */
  predicate ReadsBoard(action: BoardAction) {
    !(action.SetLoading? || action.SetError? || action.Unhandled?)
  }

  function UiListPosition(l: UiList): Key { l.doc.position }

  /** `card => card._id !== cardId`. */
  function NotCard(cardId: Id): Card -> bool { (c: Card) => c.id != cardId }

  /** `list => list._id !== listId`. */
  function NotList(listId: Id): UiList -> bool { (l: UiList) => l.doc.id != listId }

  /** `l => l._id !== labelId`. */
  function NotLabel(labelId: Id): Label -> bool { (l: Label) => l.id != labelId }

  /** `id => id !== labelId`. */
  function NotId(labelId: Id): Id -> bool { (id: Id) => id != labelId }

  /** ADD_CARD / COPY_CARD on one list: the card joins the list it names, which is re-sorted. */
  function WithCard(card: Card): UiList -> UiList {
    (l: UiList) =>
      if l.doc.id != card.listId then l
      else l.(cards := SortByPosition(l.cards + [card], CardPosition))
  }

  /** MOVE_CARD on one list: the card's id is dropped everywhere and the card re-added, and
      the list re-sorted, where its `listId` points. */
  function WithMovedCard(card: Card): UiList -> UiList {
    (l: UiList) =>
      var rest := Filter(l.cards, NotCard(card.id));
      if l.doc.id == card.listId then l.(cards := SortByPosition(rest + [card], CardPosition))
      else l.(cards := rest)
  }

  /** DELETE_CARD on one list. */
  function WithoutCard(cardId: Id): UiList -> UiList {
    (l: UiList) => l.(cards := Filter(l.cards, NotCard(cardId)))
  }

  /** MOVE_LIST on the current board: `{ ...list, ...payload }` keeps the list's cards. */
  function MergedList(payload: ListDoc): UiList -> UiList {
    (l: UiList) => if l.doc.id == payload.id then UiList(payload, l.cards) else l
  }

  /** DELETE_LABEL on one card. */
  function WithoutLabelOnCard(labelId: Id): Card -> Card {
    (c: Card) => c.(labelIds := Filter(c.labelIds, NotId(labelId)))
  }

  /** DELETE_LABEL on one list. */
  function WithoutLabel(labelId: Id): UiList -> UiList {
    (l: UiList) => l.(cards := Map(l.cards, WithoutLabelOnCard(labelId)))
  }

  /** The common tail of a SUCCESS handler: its loading flag cleared and the new board. */
  function Settle(state: BoardState, key: string, board: BoardView): BoardState {
    state.(loading := state.loading[key := false], board := Some(board))
  }

  /** The handlers that need the loaded board. */
  function OnBoard(state: BoardState, board: BoardView, action: BoardAction): BoardState
    requires ReadsBoard(action)
  {
    match action
    case AddCardSuccess(card) =>
      Settle(state, AddCardKey, board.(lists := Map(board.lists, WithCard(card))))
    case CopyCardSuccess(card) =>
      Settle(state, CopyCardKey, board.(lists := Map(board.lists, WithCard(card))))
    case MoveCardSuccess(card) =>
      Settle(state, MoveCardKey, board.(lists := Map(board.lists, WithMovedCard(card))))
    case DeleteCardSuccess(cardId) =>
      Settle(state, DeleteCardKey, board.(lists := Map(board.lists, WithoutCard(cardId))))
    case MoveListSuccess(list) =>
      var lists :=
        if board.info.id != list.boardId then Filter(board.lists, NotList(list.id))
        else SortByPosition(Map(board.lists, MergedList(list)), UiListPosition);
      state.(board := Some(board.(lists := lists)))
    case CopyListSuccess(copy) =>
      if board.info.id == copy.doc.boardId then
        Settle(state, CopyListKey, board.(lists := SortByPosition(board.lists + [copy], UiListPosition)))
      else state
    case ArchiveListSuccess(list) =>
      Settle(state, ArchiveListKey, board.(lists := Filter(board.lists, NotList(list.id))))
    case DeleteListSuccess(listId) =>
      Settle(state, DeleteListKey, board.(lists := Filter(board.lists, NotList(listId))))
    case DeleteLabelSuccess(labelId) =>
      Settle(state, DeleteLabelKey,
             BoardView(board.info.(labels := Filter(board.info.labels, NotLabel(labelId))),
                       Map(board.lists, WithoutLabel(labelId))))
  }

  /** `boardReducer`: the handler for the action's type, or the state itself when there is
      none. It fails exactly when the handler reads a board that is not loaded; no handler
      here touches the board summaries or the normalised lists and cards. */
  function Reduce(state: BoardState, action: BoardAction): (r: Result<BoardState, string>)
    ensures r.Failure? <==> ReadsBoard(action) && state.board.None?
    ensures r.Success? ==>
      r.value.boards == state.boards && r.value.lists == state.lists && r.value.cards == state.cards
    ensures action.Unhandled? ==> r == Success(state)
    ensures r.Success? && !action.SetError? ==> r.value.errors == state.errors
    ensures r.Success? && ReadsBoard(action) ==> r.value.board.Some?
    ensures r.Success? && ReadsBoard(action) && !action.DeleteLabelSuccess? ==>
      r.value.board.value.info == state.board.value.info
  {
    match action
    case SetLoading(key, isLoading) => Success(state.(loading := state.loading[key := isLoading]))
    case SetError(key, error) => Success(state.(errors := state.errors[key := error]))
    case Unhandled(_) => Success(state)
    case _ =>
      match state.board
      case None => Failure(NoBoard)
      case Some(board) => Success(OnBoard(state, board, action))
  }

  // ----- per-list facts -----

  /** Dropping a card id keeps every other card as often as before and no card with that id. */
  lemma DropCardCounts(cards: seq<Card>, cardId: Id)
    ensures forall x ::
      multiset(Filter(cards, NotCard(cardId)))[x] == if x.id == cardId then 0 else multiset(cards)[x]
  {
    FilterMultiset(cards, NotCard(cardId));
  }

  lemma MovedCardInList(card: Card, l: UiList)
    ensures WithMovedCard(card)(l).doc == l.doc
    ensures l.doc.id != card.listId ==>
      forall x :: multiset(WithMovedCard(card)(l).cards)[x] ==
        if x.id == card.id then 0 else multiset(l.cards)[x]
    ensures l.doc.id == card.listId ==>
      && InKeyOrder(WithMovedCard(card)(l).cards, CardPosition)
      && forall x :: multiset(WithMovedCard(card)(l).cards)[x] ==
           if x == card then 1 else if x.id == card.id then 0 else multiset(l.cards)[x]
  {
    var rest := Filter(l.cards, NotCard(card.id));
    DropCardCounts(l.cards, card.id);
    if l.doc.id == card.listId {
      SortByPositionSorted(rest + [card], CardPosition);
      assert multiset(rest + [card]) == multiset(rest) + multiset{card};
    }
  }

  lemma AddedCardInList(card: Card, l: UiList)
    ensures WithCard(card)(l).doc == l.doc
    ensures l.doc.id != card.listId ==> WithCard(card)(l) == l
    ensures l.doc.id == card.listId ==>
      && InKeyOrder(WithCard(card)(l).cards, CardPosition)
      && multiset(WithCard(card)(l).cards) == multiset(l.cards) + multiset{card}
  {
    if l.doc.id == card.listId {
      SortByPositionSorted(l.cards + [card], CardPosition);
      assert multiset(l.cards + [card]) == multiset(l.cards) + multiset{card};
    }
  }

  // ----- the handlers -----

  /** MOVE_CARD: every list keeps its document; the lists the card does not name lose the
      card's id and keep their other cards in order; the list it names holds the card exactly
      once, no other card with its id, its own other cards, and is in position order. */
  lemma MoveCardEffect(state: BoardState, card: Card)
    requires state.board.Some?
    ensures var r := Reduce(state, MoveCardSuccess(card));
      var before := state.board.value.lists;
      r.Success? &&
      var after := r.value.board.value.lists;
      && r.value.loading == state.loading[MoveCardKey := false]
      && |after| == |before|
      && (forall k :: 0 <= k < |before| ==> after[k].doc == before[k].doc)
      && (forall k :: 0 <= k < |before| && before[k].doc.id != card.listId ==>
            && after[k].cards == Filter(before[k].cards, NotCard(card.id))
            && forall x :: multiset(after[k].cards)[x] ==
                 if x.id == card.id then 0 else multiset(before[k].cards)[x])
      && (forall k :: 0 <= k < |before| && before[k].doc.id == card.listId ==>
            && InKeyOrder(after[k].cards, CardPosition)
            && forall x :: multiset(after[k].cards)[x] ==
                 if x == card then 1 else if x.id == card.id then 0 else multiset(before[k].cards)[x])
  {
    var before := state.board.value.lists;
    var after := Map(before, WithMovedCard(card));
    forall k | 0 <= k < |before|
      ensures after[k].doc == before[k].doc
      ensures before[k].doc.id != card.listId ==> forall x ::
        multiset(after[k].cards)[x] == if x.id == card.id then 0 else multiset(before[k].cards)[x]
      ensures before[k].doc.id == card.listId ==>
        && InKeyOrder(after[k].cards, CardPosition)
        && forall x :: multiset(after[k].cards)[x] ==
             if x == card then 1 else if x.id == card.id then 0 else multiset(before[k].cards)[x]
    {
      MovedCardInList(card, before[k]);
    }
  }

  /** After MOVE_CARD no list holds a card with the moved id other than the payload itself,
      and only the list the payload names holds it. */
  lemma MoveCardUnique(state: BoardState, card: Card)
    requires state.board.Some?
    ensures var after := Reduce(state, MoveCardSuccess(card)).value.board.value.lists;
      forall k, m :: 0 <= k < |after| && 0 <= m < |after[k].cards| && after[k].cards[m].id == card.id ==>
        after[k].cards[m] == card && after[k].doc.id == card.listId
  {
    MoveCardEffect(state, card);
    var after := Reduce(state, MoveCardSuccess(card)).value.board.value.lists;
    var before := state.board.value.lists;
    forall k, m | 0 <= k < |after| && 0 <= m < |after[k].cards| && after[k].cards[m].id == card.id
      ensures after[k].cards[m] == card && after[k].doc.id == card.listId
    {
      var x := after[k].cards[m];
      assert multiset(after[k].cards)[x] > 0;
    }
  }

  /** DELETE_CARD: every list keeps its document and loses exactly the cards with that id. */
  lemma DeleteCardEffect(state: BoardState, cardId: Id)
    requires state.board.Some?
    ensures var r := Reduce(state, DeleteCardSuccess(cardId));
      var before := state.board.value.lists;
      r.Success? &&
      var after := r.value.board.value.lists;
      && r.value.loading == state.loading[DeleteCardKey := false]
      && |after| == |before|
      && forall k :: 0 <= k < |before| ==>
           && after[k].doc == before[k].doc
           && (forall x :: x in after[k].cards <==> x in before[k].cards && x.id != cardId)
           && forall x :: multiset(after[k].cards)[x] ==
                if x.id == cardId then 0 else multiset(before[k].cards)[x]
  {
    var before := state.board.value.lists;
    var after := Map(before, WithoutCard(cardId));
    forall k | 0 <= k < |before|
      ensures forall x :: x in after[k].cards <==> x in before[k].cards && x.id != cardId
      ensures forall x ::
        multiset(after[k].cards)[x] == if x.id == cardId then 0 else multiset(before[k].cards)[x]
    {
      DropCardCounts(before[k].cards, cardId);
      forall x ensures x in after[k].cards <==> x in before[k].cards && x.id != cardId {
        assert x in after[k].cards <==> multiset(after[k].cards)[x] > 0;
        assert x in before[k].cards <==> multiset(before[k].cards)[x] > 0;
      }
    }
  }

  /** ADD_CARD and COPY_CARD: the list the card names gains it and is in position order;
      every other list is the same list as before. */
  lemma AddCardEffect(state: BoardState, action: BoardAction)
    requires state.board.Some? && (action.AddCardSuccess? || action.CopyCardSuccess?)
    ensures var r := Reduce(state, action);
      var card := action.card;
      var before := state.board.value.lists;
      r.Success? &&
      var after := r.value.board.value.lists;
      && r.value.loading == state.loading[(if action.AddCardSuccess? then AddCardKey else CopyCardKey) := false]
      && |after| == |before|
      && (forall k :: 0 <= k < |before| && before[k].doc.id != card.listId ==> after[k] == before[k])
      && forall k :: 0 <= k < |before| && before[k].doc.id == card.listId ==>
           && after[k].doc == before[k].doc
           && InKeyOrder(after[k].cards, CardPosition)
           && multiset(after[k].cards) == multiset(before[k].cards) + multiset{card}
  {
    var before := state.board.value.lists;
    forall k | 0 <= k < |before| {
      AddedCardInList(action.card, before[k]);
    }
  }

  /** MOVE_LIST to another board: exactly the list with the payload's id leaves the board. */
  lemma MoveListAwayEffect(state: BoardState, list: ListDoc)
    requires state.board.Some? && state.board.value.info.id != list.boardId
    ensures var r := Reduce(state, MoveListSuccess(list));
      var before := state.board.value.lists;
      r.Success? &&
      var after := r.value.board.value.lists;
      && r.value.loading == state.loading
      && (forall x :: x in after <==> x in before && x.doc.id != list.id)
      && forall x :: multiset(after)[x] == if x.doc.id == list.id then 0 else multiset(before)[x]
  {
    RemoveListCounts(state.board.value.lists, list.id);
  }

  /** Sorting keeps the members and puts them in key order. */
  lemma SortedSameMembers<T(!new)>(items: seq<T>, pos: T -> Key)
    ensures |SortByPosition(items, pos)| == |items|
    ensures InKeyOrder(SortByPosition(items, pos), pos)
    ensures forall x :: x in SortByPosition(items, pos) <==> x in items
  {
    SortByPositionSorted(items, pos);
    var sorted := SortByPosition(items, pos);
    forall x ensures x in sorted <==> x in items {
      assert x in sorted <==> multiset(sorted)[x] > 0;
      assert x in items <==> multiset(items)[x] > 0;
    }
  }

  /** The lists after a MOVE_LIST within the board, in position order. */
  lemma MergedListsSorted(before: seq<UiList>, list: ListDoc)
    ensures var after := SortByPosition(Map(before, MergedList(list)), UiListPosition);
      && |after| == |before|
      && InKeyOrder(after, UiListPosition)
      && (forall x :: x in before && x.doc.id != list.id ==> x in after)
      && (forall x :: x in after && x.doc.id == list.id ==> x.doc == list)
      && forall k :: 0 <= k < |before| && before[k].doc.id == list.id ==>
           UiList(list, before[k].cards) in after
  {
    var merged := Map(before, MergedList(list));
    var after := SortByPosition(merged, UiListPosition);
    SortedSameMembers(merged, UiListPosition);
    forall x | x in before && x.doc.id != list.id ensures x in after {
      var k :| 0 <= k < |before| && before[k] == x;
      assert merged[k] == x;
    }
    forall x | x in after && x.doc.id == list.id ensures x.doc == list {
      var k :| 0 <= k < |merged| && merged[k] == x;
    }
    forall k | 0 <= k < |before| && before[k].doc.id == list.id
      ensures UiList(list, before[k].cards) in after
    {
      assert merged[k] == UiList(list, before[k].cards);
    }
  }

  /** MOVE_LIST within the board: the same lists, the moved one carrying the payload's
      document and its old cards, in position order. */
  lemma MoveListHereEffect(state: BoardState, list: ListDoc)
    requires state.board.Some? && state.board.value.info.id == list.boardId
    ensures var r := Reduce(state, MoveListSuccess(list));
      var before := state.board.value.lists;
      r.Success? &&
      var after := r.value.board.value.lists;
      && r.value.loading == state.loading
      && |after| == |before|
      && InKeyOrder(after, UiListPosition)
      && (forall x :: x in before && x.doc.id != list.id ==> x in after)
      && (forall x :: x in after && x.doc.id == list.id ==> x.doc == list)
      && forall k :: 0 <= k < |before| && before[k].doc.id == list.id ==>
           UiList(list, before[k].cards) in after
  {
    MergedListsSorted(state.board.value.lists, list);
  }

  /** COPY_LIST: a copy on the loaded board joins its lists, in position order; a copy on
      another board leaves the whole state as it was. */
  lemma CopyListEffect(state: BoardState, copy: UiList)
    requires state.board.Some?
    ensures var r := Reduce(state, CopyListSuccess(copy));
      var before := state.board.value.lists;
      r.Success? &&
      if state.board.value.info.id != copy.doc.boardId then r.value == state
      else
        var after := r.value.board.value.lists;
        && r.value.loading == state.loading[CopyListKey := false]
        && InKeyOrder(after, UiListPosition)
        && multiset(after) == multiset(before) + multiset{copy}
  {
    if state.board.value.info.id == copy.doc.boardId {
      AppendedListSorted(state.board.value.lists, copy);
    }
  }

  lemma AppendedListSorted(lists: seq<UiList>, copy: UiList)
    ensures InKeyOrder(SortByPosition(lists + [copy], UiListPosition), UiListPosition)
    ensures multiset(SortByPosition(lists + [copy], UiListPosition)) == multiset(lists) + multiset{copy}
  {
    SortByPositionSorted(lists + [copy], UiListPosition);
    assert multiset(lists + [copy]) == multiset(lists) + multiset{copy};
  }

  lemma RemoveListCounts(lists: seq<UiList>, listId: Id)
    ensures forall x ::
      multiset(Filter(lists, NotList(listId)))[x] == if x.doc.id == listId then 0 else multiset(lists)[x]
    ensures forall x :: x in Filter(lists, NotList(listId)) <==> x in lists && x.doc.id != listId
  {
    FilterMultiset(lists, NotList(listId));
    var after := Filter(lists, NotList(listId));
    forall x ensures x in after <==> x in lists && x.doc.id != listId {
      assert x in after <==> multiset(after)[x] > 0;
      assert x in lists <==> multiset(lists)[x] > 0;
    }
  }

  /** ARCHIVE_LIST and DELETE_LIST: exactly the lists with that id leave the board, the
      others stay as often as they were. */
  lemma RemoveListEffect(state: BoardState, action: BoardAction)
    requires state.board.Some? && (action.ArchiveListSuccess? || action.DeleteListSuccess?)
    ensures var r := Reduce(state, action);
      var listId := if action.ArchiveListSuccess? then action.list.id else action.listId;
      var before := state.board.value.lists;
      r.Success? &&
      var after := r.value.board.value.lists;
      && r.value.loading == state.loading[(if action.ArchiveListSuccess? then ArchiveListKey else DeleteListKey) := false]
      && (forall x :: x in after <==> x in before && x.doc.id != listId)
      && forall x :: multiset(after)[x] == if x.doc.id == listId then 0 else multiset(before)[x]
  {
    var listId := if action.ArchiveListSuccess? then action.list.id else action.listId;
    RemoveListCounts(state.board.value.lists, listId);
  }

  lemma WithoutLabelOnCardEffect(labelId: Id, c: Card)
    ensures forall x :: x in WithoutLabelOnCard(labelId)(c).labelIds <==> x in c.labelIds && x != labelId
    ensures WithoutLabelOnCard(labelId)(c).(labelIds := c.labelIds) == c
  {
    FilterMembers(c.labelIds, NotId(labelId));
  }

  /** DELETE_LABEL: the board loses exactly the labels with that id; every card, in every
      list, loses that id from its labels and nothing else; lists and cards keep their places. */
  lemma DeleteLabelEffect(state: BoardState, labelId: Id)
    requires state.board.Some?
    ensures var r := Reduce(state, DeleteLabelSuccess(labelId));
      var before := state.board.value;
      r.Success? &&
      var after := r.value.board.value;
      && r.value.loading == state.loading[DeleteLabelKey := false]
      && after.info.(labels := before.info.labels) == before.info
      && (forall x :: x in after.info.labels <==> x in before.info.labels && x.id != labelId)
      && |after.lists| == |before.lists|
      && forall k :: 0 <= k < |before.lists| ==>
           && after.lists[k].doc == before.lists[k].doc
           && |after.lists[k].cards| == |before.lists[k].cards|
           && forall m :: 0 <= m < |before.lists[k].cards| ==>
                && after.lists[k].cards[m].(labelIds := before.lists[k].cards[m].labelIds) == before.lists[k].cards[m]
                && forall x :: x in after.lists[k].cards[m].labelIds <==>
                     x in before.lists[k].cards[m].labelIds && x != labelId
  {
    var before := state.board.value;
    FilterMembers(before.info.labels, NotLabel(labelId));
    forall k, m | 0 <= k < |before.lists| && 0 <= m < |before.lists[k].cards| {
      WithoutLabelOnCardEffect(labelId, before.lists[k].cards[m]);
    }
  }

  /** SET_LOADING and SET_ERROR change their map at the given key only, and nothing else. */
  lemma SetFlagEffect(state: BoardState, action: BoardAction)
    requires action.SetLoading? || action.SetError?
    ensures var r := Reduce(state, action);
      r.Success? &&
      if action.SetLoading? then
        && r.value == state.(loading := r.value.loading)
        && action.key in r.value.loading && r.value.loading[action.key] == action.isLoading
        && forall k :: k != action.key ==>
             (k in r.value.loading <==> k in state.loading) &&
             (k in state.loading ==> r.value.loading[k] == state.loading[k])
      else
        && r.value == state.(errors := r.value.errors)
        && action.key in r.value.errors && r.value.errors[action.key] == action.error
        && forall k :: k != action.key ==>
             (k in r.value.errors <==> k in state.errors) &&
             (k in state.errors ==> r.value.errors[k] == state.errors[k])
  {
  }
}
