/** The list service of the backend: creating, moving, archiving and copying lists, the
    copy including its loop of per-card copies. */
module ListService {
  import opened Wrappers
  import opened Seqs
  import opened Positions
  import opened Documents
  import opened CardCopy
  import opened Database
  import opened CardService

  /** `List.find({ boardId })`: the lists of one board, in store order. */
  function BoardLists(db: Db, boardId: Id): seq<ListDoc>
  {
    Filter(db.lists, OnBoard(boardId))
  }

  /** Appending a list to the store appends it to the lists of its own board. */
  lemma BoardListsAppend(db: Db, list: ListDoc, n: Id)
    ensures BoardLists(db.(lists := db.lists + [list], nextId := n), list.boardId)
         == BoardLists(db, list.boardId) + [list]
  {
    FilterConcat(db.lists, [list], OnBoard(list.boardId));
    FilterSingle(list, OnBoard(list.boardId));
  }

  /** No stored card belongs to the list id `nextId` hands out next. */
  lemma NoCardsInFreshList(db: Db)
    requires Valid(db)
    ensures ListCards(db, db.nextId) == []
  {
    FilterNone(db.cards, InList(db.nextId));
  }

  // ---------------------------------------------------------------------------------------
  // createList

  /** `createList` as the strict create schema admits it (no `targetIndex`): the list goes
      after every list of its board. The schema's `description` is not stored. */
  function CreateList(db: Db, boardId: Id, title: string): Outcome<ListDoc>
  {
    var siblings := BoardLists(db, boardId);
    match CalculateNewPosition(siblings, |siblings|, None, ListId, ListPosition)
    case Failure(e) => Outcome(Failure(KeyFailure(e)), db)
    case Success(position) =>
      var list := ListDoc(db.nextId, boardId, title, None, position, None);
      Outcome(Success(list), db.(lists := db.lists + [list], nextId := db.nextId + 1))
  }

  /** Where `createList` succeeds, it stores the list it returns under the id `nextId`, with the
      key computed for the end of the board. */
  lemma CreateListSucceeds(db: Db, boardId: Id, title: string)
    requires WellKeyed(BoardLists(db, boardId), ListPosition)
    ensures var o := CreateList(db, boardId, title);
      var siblings := BoardLists(db, boardId);
      && o.result.Success?
      && var list := o.result.value;
      && list == ListDoc(db.nextId, boardId, title, None, list.position, None)
      && CalculateNewPosition(siblings, |siblings|, None, ListId, ListPosition) == Success(list.position)
      && o.db == db.(lists := db.lists + [list], nextId := db.nextId + 1)
  {
    var siblings := BoardLists(db, boardId);
    CalculateNewPositionRank(siblings, |siblings|, None, ListId, ListPosition);
  }

  /** `createList` on a board whose lists carry distinct valid keys succeeds and stores one
      new empty list with a fresh id, the given board and title, no description and not
      archived. */
  lemma CreateListStores(db: Db, boardId: Id, title: string)
    requires Valid(db) && WellKeyed(BoardLists(db, boardId), ListPosition)
    ensures var o := CreateList(db, boardId, title);
      && o.result.Success? && Valid(o.db)
      && var list := o.result.value;
      && list == ListDoc(list.id, boardId, title, None, list.position, None)
      && (forall k :: 0 <= k < |db.lists| ==> db.lists[k].id != list.id)
      && o.db == db.(lists := db.lists + [list], nextId := o.db.nextId)
      && ListCards(o.db, list.id) == []
  {
    CreateListSucceeds(db, boardId, title);
    var o := CreateList(db, boardId, title);
    ValidAppendList(db, o.result.value);
    NoCardsInFreshList(db);
  }

  /** The new list sorts after every list already on its board. */
  lemma CreateListPlacesLast(db: Db, boardId: Id, title: string)
    requires WellKeyed(BoardLists(db, boardId), ListPosition)
    ensures var o := CreateList(db, boardId, title);
      && o.result.Success?
      && var list := o.result.value;
      && (forall k :: 0 <= k < |BoardLists(db, boardId)| ==>
            Less(BoardLists(db, boardId)[k].position, list.position))
      && SortByPosition(BoardLists(o.db, boardId), ListPosition)
         == SortByPosition(BoardLists(db, boardId), ListPosition) + [list]
  {
    var siblings := BoardLists(db, boardId);
    CreateListSucceeds(db, boardId, title);
    CalculateNewPositionRank(siblings, |siblings|, None, ListId, ListPosition);
    var o := CreateList(db, boardId, title);
    var list := o.result.value;
    var sorted := SortByPosition(siblings, ListPosition);
    CalculateNewPositionInserts(siblings, |siblings|, None, ListId, ListPosition, list);
    assert sorted[..|sorted|] == sorted && sorted[|sorted|..] == [];
    BoardListsAppend(db, list, o.db.nextId);
    AboveAll(siblings, ListPosition, list.position);
  }

  // ---------------------------------------------------------------------------------------
  // moveList

  /** `moveList`: the target board must exist; the key is computed among that board's other
      lists; an unknown list id is no error and yields `null`. */
  function MoveList(db: Db, listId: Id, boardId: Id, targetIndex: int): Outcome<Option<ListDoc>>
  {
    if FindBoard(db.boards, boardId).None? then
      Outcome(Failure(NotFound("Board not found")), db)
    else
      var siblings := Filter(db.lists, OnBoardExcept(boardId, listId));
      match CalculateNewPosition(siblings, targetIndex, None, ListId, ListPosition)
      case Failure(e) => Outcome(Failure(KeyFailure(e)), db)
      case Success(position) =>
        match FindList(db.lists, listId)
        case None => Outcome(Success(None), db)
        case Some(i) =>
          var moved := db.lists[i].(position := position, boardId := boardId);
          Outcome(Success(Some(moved)), db.(lists := db.lists[i := moved]))
  }

  /** `moveList` fails with a 404 for a missing board, checks nothing about the list itself
      (an unknown list yields `null`), and writes nothing unless it moves a list. */
  lemma MoveListFailures(db: Db, listId: Id, boardId: Id, targetIndex: int)
    ensures var o := MoveList(db, listId, boardId, targetIndex);
      && (FindBoard(db.boards, boardId).None? <==> o.result == Failure(NotFound("Board not found")))
      && (FindBoard(db.boards, boardId).Some? && FindList(db.lists, listId).None?
          ==> o.result.Failure? || o.result == Success(None))
      && (o.result.Failure? || o.result == Success(None) ==> o.db == db)
  {
  }

  /** The moved list is left out of its own sibling set: its current position has no
      influence on where it goes. */
  lemma MoveListIgnoresOwnPosition(db: Db, listId: Id, boardId: Id, targetIndex: int, i: nat, p: Key)
    requires i < |db.lists| && FindList(db.lists, listId) == Some(i)
    ensures var db2 := db.(lists := db.lists[i := db.lists[i].(position := p)]);
      MoveList(db2, listId, boardId, targetIndex).result
        == MoveList(db, listId, boardId, targetIndex).result
  {
    var x := db.lists[i].(position := p);
    var db2 := db.(lists := db.lists[i := x]);
    FilterReplaceRejected(db.lists, i, x, OnBoardExcept(boardId, listId));
    FindListReplace(db.lists, i, x);
    var siblings := Filter(db.lists, OnBoardExcept(boardId, listId));
    assert Filter(db2.lists, OnBoardExcept(boardId, listId)) == siblings;
    var key := CalculateNewPosition(siblings, targetIndex, None, ListId, ListPosition);
    if FindBoard(db.boards, boardId).Some? && key.Success? {
      var moved := db.lists[i].(position := key.value, boardId := boardId);
      assert x.(position := key.value, boardId := boardId) == moved;
      assert MoveList(db, listId, boardId, targetIndex).result == Success(Some(moved));
      assert MoveList(db2, listId, boardId, targetIndex).result == Success(Some(moved));
    }
  }

  /** A successful move changes only the list's `position` and `boardId`, leaves every other
      list as it was, and the list then sits at rank `clamp(targetIndex)` among the other
      lists of the target board. */
  lemma MoveListPlaces(db: Db, listId: Id, boardId: Id, targetIndex: int)
    requires Valid(db)
    requires FindBoard(db.boards, boardId).Some? && FindList(db.lists, listId).Some?
    requires WellKeyed(Filter(db.lists, OnBoardExcept(boardId, listId)), ListPosition)
    ensures var o := MoveList(db, listId, boardId, targetIndex);
      var i := FindList(db.lists, listId).value;
      var sorted := SortByPosition(Filter(db.lists, OnBoardExcept(boardId, listId)), ListPosition);
      var c := Clamp(targetIndex, |sorted|);
      && o.result.Success? && o.result.value.Some?
      && var moved := o.result.value.value;
      && moved == db.lists[i].(position := moved.position, boardId := boardId)
      && o.db == db.(lists := db.lists[i := moved])
      && Valid(o.db)
      && SortByPosition(BoardLists(o.db, boardId), ListPosition) == sorted[..c] + [moved] + sorted[c..]
  {
    var siblings := Filter(db.lists, OnBoardExcept(boardId, listId));
    CalculateNewPositionRank(siblings, targetIndex, None, ListId, ListPosition);
    var o := MoveList(db, listId, boardId, targetIndex);
    var i := FindList(db.lists, listId).value;
    var moved := o.result.value.value;
    ReplaceInGroupPlaces(db.lists, i, moved, OnBoard(boardId), OnBoardExcept(boardId, listId),
                         targetIndex, ListId, ListPosition);
    ValidReplaceList(db, i, moved);
  }

  // ---------------------------------------------------------------------------------------
  // archiveList

  /** `archiveList`, with the clock reading `now`. */
  function ArchiveList(db: Db, id: Id, now: Date): Outcome<Option<ListDoc>>
  {
    match FindList(db.lists, id)
    case None => Outcome(Failure(NotFound("List not found")), db)
    case Some(i) =>
      if db.lists[i].archivedAt.Some? then Outcome(Success(None), db)
      else
        var list := db.lists[i].(archivedAt := Some(now));
        Outcome(Success(Some(list)), db.(lists := db.lists[i := list]))
  }

  /** `archiveList` fails with a 404 for an unknown list, returns `null` and changes nothing
      for a list already archived, and otherwise sets only `archivedAt` of that list. */
  lemma ArchiveListEffect(db: Db, id: Id, now: Date)
    ensures var o := ArchiveList(db, id, now);
      && (FindList(db.lists, id).None? <==> o.result == Failure(NotFound("List not found")))
      && (FindList(db.lists, id).Some? ==>
            var i := FindList(db.lists, id).value;
            && (db.lists[i].archivedAt.Some? <==> o.result == Success(None))
            && (db.lists[i].archivedAt.Some? ==> o.db == db)
            && (db.lists[i].archivedAt.None? ==>
                  && o.result == Success(Some(db.lists[i].(archivedAt := Some(now))))
                  && o.db == db.(lists := db.lists[i := db.lists[i].(archivedAt := Some(now))])))
      && (o.result.Failure? ==> o.db == db)
  {
  }

  /** Archiving is idempotent: a second archive, at any later time, returns `null` and keeps
      the first archive date. */
  lemma ArchiveListTwice(db: Db, id: Id, now: Date, later: Date)
    requires FindList(db.lists, id).Some?
    ensures var first := ArchiveList(db, id, now);
      var second := ArchiveList(first.db, id, later);
      && second.result == Success(None) && second.db == first.db
  {
    var i := FindList(db.lists, id).value;
    var first := ArchiveList(db, id, now);
    if db.lists[i].archivedAt.None? {
      var list := db.lists[i].(archivedAt := Some(now));
      assert first.db == db.(lists := db.lists[i := list]);
      FindListReplace(db.lists, i, list);
    }
  }

  // ---------------------------------------------------------------------------------------
  // copyList

  /** The `copyOptions` of `copyList`: `copyCards` defaults to false, the rest to `null`. */
  datatype ListCopyOptions = ListCopyOptions(
    copyCards: bool,
    targetBoardId: Option<Id>,
    targetIndex: Option<int>,
    title: Option<string>)

  /** A list document populated with its cards in position order. */
  datatype PopulatedList = PopulatedList(list: ListDoc, cards: seq<Card>)

  /** The options of the `i`-th per-card copy: every flag set, into the new list on the final
      board, at index `i`. */
  function LoopOptions(newListId: Id, boardId: Id, i: nat): (opts: CopyOptions)
    ensures opts.copyLabels && opts.copyAssignees && opts.copyComments && opts.copyDates
    ensures opts.targetListId == Some(newListId) && opts.targetBoardId == Some(boardId)
    ensures opts.targetIndex == Some(i) && opts.title.None?
  {
    CopyOptions(true, true, true, true, Some(newListId), Some(boardId), Some(i), None)
  }

  /** The per-card copy loop from round `i` on, starting from the store `db`: round `i`
      copies `sources[i]` into the new list at index `i`. A round that throws ends the loop,
      and the rounds before it stay written; nothing but cards is written. */
  function CopyRounds(db: Db, sources: seq<Card>, newListId: Id, boardId: Id, i: nat): (r: Outcome<()>)
    requires i <= |sources|
    ensures OnlyCardsChanged(db, r.db)
    decreases |sources| - i
  {
    if i == |sources| then Outcome(Success(()), db)
    else
      var o := CopyCard(db, sources[i].id, LoopOptions(newListId, boardId, i));
      if o.result.Failure? then Outcome(Failure(o.result.error), o.db)
      else CopyRounds(o.db, sources, newListId, boardId, i + 1)
  }

  /** `copyList`. The target board is looked up only when one is supplied that differs from
      the source's board. Every write before a failure in the card loop stays. */
  function CopyList(db: Db, listId: Id, opts: ListCopyOptions): Outcome<PopulatedList>
  {
    match FindList(db.lists, listId)
    case None => Outcome(Failure(NotFound("Source list not found")), db)
    case Some(l) =>
      var source := db.lists[l];
      if opts.targetBoardId.Some? && opts.targetBoardId.value != source.boardId
         && FindBoard(db.boards, opts.targetBoardId.value).None? then
        Outcome(Failure(NotFound("Target board not found")), db)
      else
        match ListCopyDoc(db, source, opts)
        case Failure(e) => Outcome(Failure(KeyFailure(e)), db)
        case Success(copied) =>
          FillListCopy(db.(lists := db.lists + [copied], nextId := db.nextId + 1), source.id, copied,
                       opts.copyCards)
  }

  /** The board the copy goes to. */
  function FinalBoardId(source: ListDoc, opts: ListCopyOptions): Id {
    opts.targetBoardId.GetOr(source.boardId)
  }

  /** The document `List.create` stores for the copy: its key at the target index among the
      lists of the final board (by default after all of them), its title by default the
      source's with " (copy)" appended, the source's description. */
  function ListCopyDoc(db: Db, source: ListDoc, opts: ListCopyOptions): Result<ListDoc, KeyError>
  {
    var targetLists := BoardLists(db, FinalBoardId(source, opts));
    match CalculateNewPosition(targetLists, opts.targetIndex.GetOr(|targetLists|), None,
                               ListId, ListPosition)
    case Failure(e) => Failure(e)
    case Success(position) =>
      Success(ListDoc(db.nextId, FinalBoardId(source, opts), opts.title.GetOr(source.title + " (copy)"),
                      source.description, position, None))
  }

  /** The source cards the loop copies: all cards of the source list in position order, or
      none without `copyCards`. */
  function CopySources(db: Db, sourceId: Id, copyCards: bool): seq<Card>
  {
    if copyCards then SortByPosition(ListCards(db, sourceId), CardPosition) else []
  }

  /** After `List.create`: the card loop, then the re-read of the new list with its cards
      sorted by position. */
  function FillListCopy(created: Db, sourceId: Id, copied: ListDoc, copyCards: bool): Outcome<PopulatedList>
  {
    var sources := CopySources(created, sourceId, copyCards);
    var loop := CopyRounds(created, sources, copied.id, copied.boardId, 0);
    match loop.result
    case Failure(f) => Outcome(Failure(f), loop.db)
    case Success(_) =>
      Outcome(Success(PopulatedList(copied, SortByPosition(ListCards(loop.db, copied.id), CardPosition))),
              loop.db)
  }

  /** `copyList` fails with a 404 for a missing source list, then with a 404 for a supplied
      target board other than the source's that does not exist, writing nothing. */
  lemma CopyListFailures(db: Db, listId: Id, opts: ListCopyOptions)
    ensures var o := CopyList(db, listId, opts);
      && (FindList(db.lists, listId).None? ==> o == Outcome(Failure(NotFound("Source list not found")), db))
      && (FindList(db.lists, listId).Some? && opts.targetBoardId.Some?
          && opts.targetBoardId.value != db.lists[FindList(db.lists, listId).value].boardId
          && FindBoard(db.boards, opts.targetBoardId.value).None? ==>
            o == Outcome(Failure(NotFound("Target board not found")), db))
  {
  }

  /** Where the loop stands after `n` rounds: the store is still valid and only has cards
      appended, and the new list holds, in store order and strictly ascending by position,
      exactly the copies of the first `n` sources, the `k`-th carrying over everything from
      `sources[k]` under `LoopOptions(k)`. */
  ghost predicate CopiedSoFar(db0: Db, sources: seq<Card>, newListId: Id, board: Board, db: Db, n: nat)
  {
    var copies := ListCards(db, newListId);
    && Valid(db)
    && OnlyCardsChanged(db0, db)
    && db0.cards <= db.cards
    && n <= |sources| && |copies| == n
    && Ascending(copies, CardPosition)
    && (forall k :: 0 <= k < n ==> ValidKey(copies[k].position))
    && (forall k :: 0 <= k < n ==>
          copies[k] == CopiedCard(sources[k], LoopOptions(newListId, board.id, k), copies[k].id,
                                  copies[k].position, db0.users, Some(board)))
  }

  /** What the loop needs of its start: a valid store whose new list is still empty, sources
      that are stored cards, and a final board that exists. */
  ghost predicate LoopReady(db0: Db, sources: seq<Card>, newListId: Id, board: Board)
  {
    && Valid(db0)
    && ListCards(db0, newListId) == []
    && (forall k :: 0 <= k < |sources| ==> sources[k] in db0.cards)
    && FindBoard(db0.boards, board.id).Some?
    && db0.boards[FindBoard(db0.boards, board.id).value] == board
  }

  /** The `n`-th source card is found by its id in any store that extends the starting one. */
  lemma SourceFound(db0: Db, sources: seq<Card>, db: Db, n: nat)
    requires Valid(db) && db0.cards <= db.cards
    requires n < |sources| && sources[n] in db0.cards
    ensures FindCard(db.cards, sources[n].id).Some?
    ensures db.cards[FindCard(db.cards, sources[n].id).value] == sources[n]
  {
    var j :| 0 <= j < |db0.cards| && db0.cards[j] == sources[n];
    assert db.cards[j] == sources[n];
    FindCardUnique(db, sources[n].id, j);
  }

  /** What one round writes: the copy of source `n` is appended to the store, carries over
      everything from it under `LoopOptions(n)`, and sorts after the copies so far. */
  lemma RoundAppends(db0: Db, sources: seq<Card>, newListId: Id, board: Board, db: Db, n: nat)
    requires LoopReady(db0, sources, newListId, board)
    requires CopiedSoFar(db0, sources, newListId, board, db, n) && n < |sources|
    ensures var o := CopyCard(db, sources[n].id, LoopOptions(newListId, board.id, n));
      var copies := ListCards(db, newListId);
      && o.result.Success? && Valid(o.db)
      && var card := o.result.value;
      && o.db == db.(cards := db.cards + [card], nextId := o.db.nextId)
      && card == CopiedCard(sources[n], LoopOptions(newListId, board.id, n), card.id, card.position,
                            db0.users, Some(board))
      && card.listId == newListId && ValidKey(card.position)
      && (forall j :: 0 <= j < n ==> Less(copies[j].position, card.position))
  {
    var opts := LoopOptions(newListId, board.id, n);
    var copies := ListCards(db, newListId);
    SourceFound(db0, sources, db, n);
    AscendingWellKeyed(copies, CardPosition);
    assert db.boards == db0.boards && db.users == db0.users;
    assert TargetBoardLookup(db, opts.targetBoardId) == Success(Some(board));
    CopyCardWrites(db, sources[n].id, opts);
    AscendingSortsToItself(copies, CardPosition);
  }

  /** One round of the loop: copying source `n` at index `n` appends its copy after the
      copies so far. */
  lemma CopyRound(db0: Db, sources: seq<Card>, newListId: Id, board: Board, db: Db, n: nat)
    requires LoopReady(db0, sources, newListId, board)
    requires CopiedSoFar(db0, sources, newListId, board, db, n) && n < |sources|
    ensures var o := CopyCard(db, sources[n].id, LoopOptions(newListId, board.id, n));
      o.result.Success? && CopiedSoFar(db0, sources, newListId, board, o.db, n + 1)
  {
    RoundAppends(db0, sources, newListId, board, db, n);
    var o := CopyCard(db, sources[n].id, LoopOptions(newListId, board.id, n));
    RoundKeepsInvariant(db0, sources, newListId, board, db, n, o.result.value, o.db.nextId);
  }

  /** The invariant carries over from the store `db` to the store with `card` appended,
      when `card` is the copy of source `n` and sorts after the copies so far. */
  lemma RoundKeepsInvariant(db0: Db, sources: seq<Card>, newListId: Id, board: Board, db: Db, n: nat,
                            card: Card, next: Id)
    requires CopiedSoFar(db0, sources, newListId, board, db, n) && n < |sources|
    requires Valid(db.(cards := db.cards + [card], nextId := next))
    requires card == CopiedCard(sources[n], LoopOptions(newListId, board.id, n), card.id, card.position,
                                db0.users, Some(board))
    requires card.listId == newListId && ValidKey(card.position)
    requires var copies := ListCards(db, newListId);
      forall j :: 0 <= j < n ==> Less(copies[j].position, card.position)
    ensures CopiedSoFar(db0, sources, newListId, board, db.(cards := db.cards + [card], nextId := next), n + 1)
  {
    var copies := ListCards(db, newListId);
    ListCardsAppend(db, card, next);
    AscendingSplice(copies, card, n, CardPosition);
    assert copies[..n] + [card] + copies[n..] == copies + [card] by {
      assert copies[..n] == copies && copies[n..] == [];
    }
    RoundCopies(db0, sources, newListId, board, copies, card, n);
    assert db0.cards <= db.cards + [card];
  }

  /** The bookkeeping of `CopyRound`: the copies so far plus the new copy of source `n` are
      the copies of the first `n + 1` sources, all with valid keys. */
  lemma RoundCopies(db0: Db, sources: seq<Card>, newListId: Id, board: Board, copies: seq<Card>,
                    card: Card, n: nat)
    requires n < |sources| && |copies| == n
    requires forall k :: 0 <= k < n ==>
      copies[k] == CopiedCard(sources[k], LoopOptions(newListId, board.id, k), copies[k].id,
                              copies[k].position, db0.users, Some(board))
    requires card == CopiedCard(sources[n], LoopOptions(newListId, board.id, n), card.id,
                                card.position, db0.users, Some(board))
    requires forall k :: 0 <= k < n ==> ValidKey(copies[k].position)
    requires ValidKey(card.position)
    ensures var all := copies + [card];
      forall k :: 0 <= k < n + 1 ==> ValidKey(all[k].position)
    ensures var all := copies + [card];
      forall k :: 0 <= k < n + 1 ==>
        all[k] == CopiedCard(sources[k], LoopOptions(newListId, board.id, k), all[k].id,
                             all[k].position, db0.users, Some(board))
  {
    var all := copies + [card];
    assert forall k :: 0 <= k < n ==> all[k] == copies[k];
    forall k | 0 <= k < n + 1
      ensures all[k] == CopiedCard(sources[k], LoopOptions(newListId, board.id, k), all[k].id,
                                   all[k].position, db0.users, Some(board))
    {
      if k < n {
        assert all[k] == copies[k];
      }
    }
  }

  /** From a store where the invariant holds after `n` rounds, the remaining rounds all
      succeed and the invariant holds after the last one. */
  lemma {:induction false} CopyRoundsKeepOrder(db0: Db, sources: seq<Card>, newListId: Id, board: Board,
                                               db: Db, n: nat)
    requires LoopReady(db0, sources, newListId, board)
    requires CopiedSoFar(db0, sources, newListId, board, db, n)
    ensures var o := CopyRounds(db, sources, newListId, board.id, n);
      o.result.Success? && CopiedSoFar(db0, sources, newListId, board, o.db, |sources|)
    decreases |sources| - n
  {
    if n < |sources| {
      CopyRound(db0, sources, newListId, board, db, n);
      var o := CopyCard(db, sources[n].id, LoopOptions(newListId, board.id, n));
      CopyRoundsKeepOrder(db0, sources, newListId, board, o.db, n + 1);
      assert CopyRounds(db, sources, newListId, board.id, n) == CopyRounds(o.db, sources, newListId, board.id, n + 1);
    }
  }

  // The copy-list theorems.

  /** On a final board whose lists carry distinct valid keys, the copy's document gets the
      id `nextId`, the final board, the default or given title, the source's description,
      and a key that places it at rank `clamp(targetIndex)` (by default last) among that
      board's lists. */
  lemma ListCopyDocPlaces(db: Db, source: ListDoc, opts: ListCopyOptions)
    requires WellKeyed(BoardLists(db, FinalBoardId(source, opts)), ListPosition)
    ensures var r := ListCopyDoc(db, source, opts);
      var b := FinalBoardId(source, opts);
      var sorted := SortByPosition(BoardLists(db, b), ListPosition);
      var c := Clamp(opts.targetIndex.GetOr(|sorted|), |sorted|);
      && r.Success?
      && r.value == ListDoc(db.nextId, b, opts.title.GetOr(source.title + " (copy)"),
                            source.description, r.value.position, None)
      && (opts.targetIndex.None? ==> c == |sorted|)
      && SortByPosition(BoardLists(db.(lists := db.lists + [r.value], nextId := db.nextId + 1), b), ListPosition)
         == sorted[..c] + [r.value] + sorted[c..]
  {
    var b := FinalBoardId(source, opts);
    var targetLists := BoardLists(db, b);
    var index := opts.targetIndex.GetOr(|targetLists|);
    CalculateNewPositionRank(targetLists, index, None, ListId, ListPosition);
    var copied := ListCopyDoc(db, source, opts).value;
    CalculateNewPositionInserts(targetLists, index, None, ListId, ListPosition, copied);
    BoardListsAppend(db, copied, db.nextId + 1);
  }

  /** Without `copyCards` the new list is returned with no cards, and nothing but the new
      list is written. */
  lemma CopyListWithoutCards(db: Db, sourceId: Id, copied: ListDoc)
    requires Valid(db) && copied.id == db.nextId
    ensures var created := db.(lists := db.lists + [copied], nextId := db.nextId + 1);
      FillListCopy(created, sourceId, copied, false) == Outcome(Success(PopulatedList(copied, [])), created)
  {
    NoCardsInFreshList(db);
  }

  /** The loop is ready to start on the store just after `List.create`. */
  lemma CopyLoopReady(db: Db, sourceId: Id, copied: ListDoc, board: Board)
    requires Valid(db) && copied.id == db.nextId
    requires FindBoard(db.boards, board.id).Some? && db.boards[FindBoard(db.boards, board.id).value] == board
    ensures var created := db.(lists := db.lists + [copied], nextId := db.nextId + 1);
      LoopReady(created, CopySources(created, sourceId, true), copied.id, board)
  {
    var created := db.(lists := db.lists + [copied], nextId := db.nextId + 1);
    var cards := ListCards(created, sourceId);
    NoCardsInFreshList(db);
    ValidAppendList(db, copied);
    SortWithMembers(cards, PositionLe(CardPosition));
    FilterMembers(created.cards, InList(sourceId));
    var sources := CopySources(created, sourceId, true);
    assert forall k :: 0 <= k < |sources| ==> sources[k] in cards;
    assert created.boards == db.boards;
  }

  /** The copy succeeded and returned the list `copied` holding, strictly ascending by
      position, exactly one copy of each source card, the `k`-th source copied `k`-th with
      every carry-over flag set. */
  ghost predicate CopiedInOrder(sources: seq<Card>, copied: ListDoc, board: Board, users: seq<User>,
                                o: Outcome<PopulatedList>)
  {
    && o.result.Success?
    && var p := o.result.value;
    && p.list == copied
    && |p.cards| == |sources|
    && Ascending(p.cards, CardPosition)
    && (forall k :: 0 <= k < |p.cards| ==>
          p.cards[k] == CopiedCard(sources[k], LoopOptions(copied.id, board.id, k), p.cards[k].id,
                                   p.cards[k].position, users, Some(board)))
  }

  /** With `copyCards`, onto a final board that exists: the copy succeeds and the new list
      holds the copies of the source cards in their position order. Only cards are written
      beyond the new list, and ids stay unique. */
  lemma CopyListKeepsOrder(db: Db, sourceId: Id, copied: ListDoc, board: Board)
    requires Valid(db) && copied.id == db.nextId && copied.boardId == board.id
    requires FindBoard(db.boards, board.id).Some? && db.boards[FindBoard(db.boards, board.id).value] == board
    ensures var created := db.(lists := db.lists + [copied], nextId := db.nextId + 1);
      var o := FillListCopy(created, sourceId, copied, true);
      && CopiedInOrder(SortByPosition(ListCards(db, sourceId), CardPosition), copied, board, db.users, o)
      && Valid(o.db) && OnlyCardsChanged(created, o.db) && db.cards <= o.db.cards
  {
    var created := db.(lists := db.lists + [copied], nextId := db.nextId + 1);
    var sources := CopySources(created, sourceId, true);
    assert ListCards(created, sourceId) == ListCards(db, sourceId);
    CopyLoopReady(db, sourceId, copied, board);
    assert CopiedSoFar(created, sources, copied.id, board, created, 0);
    CopyRoundsKeepOrder(created, sources, copied.id, board, created, 0);
    var loop := CopyRounds(created, sources, copied.id, board.id, 0);
    AscendingSortsToItself(ListCards(loop.db, copied.id), CardPosition);
  }

  /** Past both lookups and the key, `copyList` stores the new list document and fills it. */
  lemma CopyListUnfolds(db: Db, listId: Id, opts: ListCopyOptions)
    requires FindList(db.lists, listId).Some?
    requires var source := db.lists[FindList(db.lists, listId).value];
      && (opts.targetBoardId.Some? && opts.targetBoardId.value != source.boardId
          ==> FindBoard(db.boards, opts.targetBoardId.value).Some?)
      && ListCopyDoc(db, source, opts).Success?
    ensures var source := db.lists[FindList(db.lists, listId).value];
      var copied := ListCopyDoc(db, source, opts).value;
      CopyList(db, listId, opts)
        == FillListCopy(db.(lists := db.lists + [copied], nextId := db.nextId + 1), source.id, copied,
                        opts.copyCards)
  {
  }

  /** `copyList` of an existing list onto an existing final board whose lists carry
      distinct valid keys succeeds and returns the new list document (see
      `ListCopyDocPlaces`) holding in order the copies of the source cards when `copyCards`
      is set, and no cards otherwise. Beyond the new list only cards are written, and ids
      stay unique. */
  lemma CopyListCopies(db: Db, listId: Id, opts: ListCopyOptions)
    requires Valid(db) && FindList(db.lists, listId).Some?
    requires var b := FinalBoardId(db.lists[FindList(db.lists, listId).value], opts);
      FindBoard(db.boards, b).Some? && WellKeyed(BoardLists(db, b), ListPosition)
    ensures var source := db.lists[FindList(db.lists, listId).value];
      var b := FinalBoardId(source, opts);
      var board := db.boards[FindBoard(db.boards, b).value];
      var r := ListCopyDoc(db, source, opts);
      var o := CopyList(db, listId, opts);
      && r.Success?
      && CopiedInOrder(CopySources(db, source.id, opts.copyCards), r.value, board, db.users, o)
      && Valid(o.db) && db.cards <= o.db.cards
      && OnlyCardsChanged(db.(lists := db.lists + [r.value]), o.db)
  {
    var source := db.lists[FindList(db.lists, listId).value];
    var b := FinalBoardId(source, opts);
    var board := db.boards[FindBoard(db.boards, b).value];
    ListCopyDocPlaces(db, source, opts);
    var copied := ListCopyDoc(db, source, opts).value;
    CopyListUnfolds(db, listId, opts);
    var created := db.(lists := db.lists + [copied], nextId := db.nextId + 1);
    assert CopySources(created, source.id, opts.copyCards) == CopySources(db, source.id, opts.copyCards);
    if opts.copyCards {
      CopyListKeepsOrder(db, source.id, copied, board);
    } else {
      CopyListWithoutCards(db, source.id, copied);
      ValidAppendList(db, copied);
    }
  }

  /** The new list then sits at rank `clamp(targetIndex)` among the final board's lists, by
      default after all of them. */
  lemma CopyListPlaces(db: Db, listId: Id, opts: ListCopyOptions)
    requires Valid(db) && FindList(db.lists, listId).Some?
    requires var b := FinalBoardId(db.lists[FindList(db.lists, listId).value], opts);
      FindBoard(db.boards, b).Some? && WellKeyed(BoardLists(db, b), ListPosition)
    ensures var source := db.lists[FindList(db.lists, listId).value];
      var b := FinalBoardId(source, opts);
      var r := ListCopyDoc(db, source, opts);
      var o := CopyList(db, listId, opts);
      var sorted := SortByPosition(BoardLists(db, b), ListPosition);
      var c := Clamp(opts.targetIndex.GetOr(|sorted|), |sorted|);
      && r.Success? && o.result.Success?
      && SortByPosition(BoardLists(o.db, b), ListPosition) == sorted[..c] + [r.value] + sorted[c..]
  {
    var source := db.lists[FindList(db.lists, listId).value];
    var b := FinalBoardId(source, opts);
    ListCopyDocPlaces(db, source, opts);
    CopyListCopies(db, listId, opts);
    var copied := ListCopyDoc(db, source, opts).value;
    var o := CopyList(db, listId, opts);
    assert o.db.lists == db.lists + [copied];
    assert BoardLists(o.db, b) == BoardLists(db.(lists := db.lists + [copied], nextId := db.nextId + 1), b);
  }

  // ---------------------------------------------------------------------------------------
  // Every list write keeps the ids of the store unique

  lemma CreateListValid(db: Db, boardId: Id, title: string)
    requires Valid(db)
    ensures Valid(CreateList(db, boardId, title).db)
  {
    var o := CreateList(db, boardId, title);
    if o.result.Success? {
      ValidAppendList(db, o.result.value);
    }
  }

  lemma MoveListValid(db: Db, listId: Id, boardId: Id, targetIndex: int)
    requires Valid(db)
    ensures Valid(MoveList(db, listId, boardId, targetIndex).db)
  {
    var o := MoveList(db, listId, boardId, targetIndex);
    if o.result.Success? && o.result.value.Some? {
      ValidReplaceList(db, FindList(db.lists, listId).value, o.result.value.value);
    }
  }

  lemma ArchiveListValid(db: Db, id: Id, now: Date)
    requires Valid(db)
    ensures Valid(ArchiveList(db, id, now).db)
  {
    var o := ArchiveList(db, id, now);
    if o.result.Success? && o.result.value.Some? {
      ValidReplaceList(db, FindList(db.lists, id).value, o.result.value.value);
    }
  }

  /** Each round of the card loop keeps the ids unique, whatever the keys. */
  lemma {:induction false} CopyRoundsValid(db: Db, sources: seq<Card>, newListId: Id, boardId: Id, i: nat)
    requires Valid(db) && i <= |sources|
    ensures Valid(CopyRounds(db, sources, newListId, boardId, i).db)
    decreases |sources| - i
  {
    if i < |sources| {
      var o := CopyCard(db, sources[i].id, LoopOptions(newListId, boardId, i));
      CopyCardValid(db, sources[i].id, LoopOptions(newListId, boardId, i));
      if o.result.Success? {
        CopyRoundsValid(o.db, sources, newListId, boardId, i + 1);
      }
    }
  }

  /** Filling the new list keeps the ids unique, also when a round of its card loop throws. */
  lemma FillListCopyValid(created: Db, sourceId: Id, copied: ListDoc, copyCards: bool)
    requires Valid(created)
    ensures Valid(FillListCopy(created, sourceId, copied, copyCards).db)
  {
    var sources := CopySources(created, sourceId, copyCards);
    CopyRoundsValid(created, sources, copied.id, copied.boardId, 0);
  }

  /** `copyList` keeps the ids unique. */
  lemma CopyListValid(db: Db, listId: Id, opts: ListCopyOptions)
    requires Valid(db)
    ensures Valid(CopyList(db, listId, opts).db)
  {
    CopyListFailures(db, listId, opts);
    if FindList(db.lists, listId).Some? {
      var source := db.lists[FindList(db.lists, listId).value];
      if !(opts.targetBoardId.Some? && opts.targetBoardId.value != source.boardId
           && FindBoard(db.boards, opts.targetBoardId.value).None?) && ListCopyDoc(db, source, opts).Success? {
        var copied := ListCopyDoc(db, source, opts).value;
        CopyListUnfolds(db, listId, opts);
        ValidAppendList(db, copied);
        FillListCopyValid(db.(lists := db.lists + [copied], nextId := db.nextId + 1), source.id, copied,
                          opts.copyCards);
      }
    }
  }
}
