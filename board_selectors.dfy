/** The selectors over the normalised lists and cards of the board slice. They sort with
    `a.position.localeCompare(b.position)`; the locale's collation is a parameter `collate`
    (`collate(x, y)`: key `x` may stay in front of key `y`). */
module BoardSelectors {
  import opened Wrappers
  import opened Seqs
  import opened Positions
  import opened Documents
  import opened BoardReducer

  /** The comparator of the selectors' `sort`, lifted from keys to items. */
  function ByPosition<T>(collate: (Key, Key) -> bool, pos: T -> Key): (T, T) -> bool {
    (a: T, b: T) => collate(pos(a), pos(b))
  }

  function ListOnBoard(boardId: Id): ListDoc -> bool { (l: ListDoc) => l.boardId == boardId }

  function CardInList(listId: Id): Card -> bool { (c: Card) => c.listId == listId }

  /** `listIds.includes(card.listId)`. */
  function CardInLists(listIds: seq<Id>): Card -> bool { (c: Card) => c.listId in listIds }

  /** `selectBoardLists`: no board, no lists; otherwise the stored lists of the loaded board,
      sorted by position. */
  function BoardLists(state: BoardState, collate: (Key, Key) -> bool): (r: seq<ListDoc>)
    ensures state.board.None? ==> r == []
    ensures state.board.Some? ==>
      forall l :: l in r <==> l in state.lists && l.boardId == state.board.value.info.id
    ensures state.board.Some? ==>
      multiset(r) == multiset(Filter(state.lists, ListOnBoard(state.board.value.info.id)))
  {
    match state.board
    case None => []
    case Some(board) =>
      var onBoard := Filter(state.lists, ListOnBoard(board.info.id));
      FilterMembers(state.lists, ListOnBoard(board.info.id));
      SortWithPermutation(onBoard, ByPosition(collate, ListPosition));
      SortWithMembers(onBoard, ByPosition(collate, ListPosition));
      SortWith(onBoard, ByPosition(collate, ListPosition))
  }

  /** `selectCardsByListId`: the stored cards of the list, sorted by position. */
  function CardsByListId(state: BoardState, listId: Id, collate: (Key, Key) -> bool): (r: seq<Card>)
    ensures forall c :: c in r <==> c in state.cards && c.listId == listId
    ensures multiset(r) == multiset(Filter(state.cards, CardInList(listId)))
  {
    var inList := Filter(state.cards, CardInList(listId));
    FilterMembers(state.cards, CardInList(listId));
    SortWithPermutation(inList, ByPosition(collate, CardPosition));
    SortWithMembers(inList, ByPosition(collate, CardPosition));
    SortWith(inList, ByPosition(collate, CardPosition))
  }

  function IsCard(cardId: Id): Card -> bool { (c: Card) => c.id == cardId }

  function IsList(listId: Id): ListDoc -> bool { (l: ListDoc) => l.id == listId }

  /** `selectCardById`: the card stored under that id, or `undefined`. */
  function CardById(state: BoardState, cardId: Id): (r: Option<Card>)
    ensures r.Some? ==> r.value in state.cards && r.value.id == cardId
    ensures r.None? <==> forall k :: 0 <= k < |state.cards| ==> state.cards[k].id != cardId
  {
    Find(state.cards, IsCard(cardId))
  }

  /** `selectListById`: the list stored under that id, or `undefined`. */
  function ListById(state: BoardState, listId: Id): (r: Option<ListDoc>)
    ensures r.Some? ==> r.value in state.lists && r.value.id == listId
    ensures r.None? <==> forall k :: 0 <= k < |state.lists| ==> state.lists[k].id != listId
  {
    Find(state.lists, IsList(listId))
  }

  /** A stored list of the board has that id. */
  predicate IsBoardList(lists: seq<ListDoc>, boardId: Id, listId: Id) {
    exists l :: l in lists && l.boardId == boardId && l.id == listId
  }

  /** The ids of the board's lists are the ids `IsBoardList` accepts. */
  lemma BoardListIds(lists: seq<ListDoc>, boardId: Id)
    ensures forall listId :: listId in Map(Filter(lists, ListOnBoard(boardId)), ListId) <==>
      IsBoardList(lists, boardId, listId)
  {
    var boardLists := Filter(lists, ListOnBoard(boardId));
    var listIds := Map(boardLists, ListId);
    FilterMembers(lists, ListOnBoard(boardId));
    forall listId ensures listId in listIds <==> IsBoardList(lists, boardId, listId) {
      if listId in listIds {
        var k :| 0 <= k < |listIds| && listIds[k] == listId;
        assert boardLists[k] in lists;
      }
      if IsBoardList(lists, boardId, listId) {
        var l :| l in lists && l.boardId == boardId && l.id == listId;
        assert l in boardLists;
        var k :| 0 <= k < |boardLists| && boardLists[k] == l;
        assert listIds[k] == listId;
      }
    }
  }

  /** `selectAllCardsForBoard`: no board, no cards; otherwise the stored cards whose list is
      a stored list of the loaded board, sorted by position. */
  function AllCardsForBoard(state: BoardState, collate: (Key, Key) -> bool): (r: seq<Card>)
    ensures state.board.None? ==> r == []
    ensures state.board.Some? ==> forall c :: c in r <==>
      c in state.cards && IsBoardList(state.lists, state.board.value.info.id, c.listId)
  {
    match state.board
    case None => []
    case Some(board) =>
      var boardLists := Filter(state.lists, ListOnBoard(board.info.id));
      var listIds := Map(boardLists, ListId);
      var cards := Filter(state.cards, CardInLists(listIds));
      BoardListIds(state.lists, board.info.id);
      FilterMembers(state.cards, CardInLists(listIds));
      SortWithMembers(cards, ByPosition(collate, CardPosition));
      SortWith(cards, ByPosition(collate, CardPosition))
  }

  /** With a collation that orders all keys, each selector's result is sorted by it. */
  lemma SelectorsSorted(state: BoardState, listId: Id, collate: (Key, Key) -> bool)
    requires TotalPreorder(collate)
    ensures SortedBy(BoardLists(state, collate), ByPosition(collate, ListPosition))
    ensures SortedBy(CardsByListId(state, listId, collate), ByPosition(collate, CardPosition))
    ensures SortedBy(AllCardsForBoard(state, collate), ByPosition(collate, CardPosition))
  {
    LiftedTotalPreorder(collate, ListPosition);
    LiftedTotalPreorder(collate, CardPosition);
    if state.board.Some? {
      var boardId := state.board.value.info.id;
      SortWithSorted(Filter(state.lists, ListOnBoard(boardId)), ByPosition(collate, ListPosition));
      var listIds := Map(Filter(state.lists, ListOnBoard(boardId)), ListId);
      SortWithSorted(Filter(state.cards, CardInLists(listIds)), ByPosition(collate, CardPosition));
    }
    SortWithSorted(Filter(state.cards, CardInList(listId)), ByPosition(collate, CardPosition));
  }

  lemma LiftedTotalPreorder<T(!new)>(collate: (Key, Key) -> bool, pos: T -> Key)
    requires TotalPreorder(collate)
    ensures TotalPreorder(ByPosition(collate, pos))
  {
    var le := ByPosition(collate, pos);
    forall a, b ensures le(a, b) || le(b, a) {
      assert collate(pos(a), pos(b)) || collate(pos(b), pos(a));
    }
    forall a, b, c | le(a, b) && le(b, c) ensures le(a, c) {
      assert collate(pos(a), pos(b)) && collate(pos(b), pos(c));
    }
  }

  /** The board's cards are exactly the cards of the board's lists, list by list. */
  lemma AllCardsAreListCards(state: BoardState, collate: (Key, Key) -> bool)
    requires state.board.Some?
    ensures forall c :: c in AllCardsForBoard(state, collate) <==>
      exists l :: l in BoardLists(state, collate) && c in CardsByListId(state, l.id, collate)
  {
    forall c ensures c in AllCardsForBoard(state, collate) <==>
      exists l :: l in BoardLists(state, collate) && c in CardsByListId(state, l.id, collate)
    {
      if c in AllCardsForBoard(state, collate) {
        assert IsBoardList(state.lists, state.board.value.info.id, c.listId);
        var l :| l in state.lists && l.boardId == state.board.value.info.id && l.id == c.listId;
        assert l in BoardLists(state, collate) && c in CardsByListId(state, l.id, collate);
      }
    }
  }
}
