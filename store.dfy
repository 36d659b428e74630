/** The backend's collections as one mutable object, with the service operations as methods
    that read and write its fields step by step as the services do through the models. Each
    method is proved against the service function of the same name: the pair of what it
    returns and the collections afterwards is what that function gives for the collections
    before the call. Every method keeps the ids unique. */
module Backend {
  import opened Wrappers
  import opened Text
  import opened Positions
  import opened Documents
  import opened CardCopy
  import opened Database
  import CardService
  import ListService
  import BoardService
  import WorkspaceService

  class Store {
    var workspaces: seq<Workspace>
    var boards: seq<Board>
    var lists: seq<ListDoc>
    var cards: seq<Card>
    var users: seq<User>
    var nextId: Id

    /** The collections as a value. */
    function Snap(): Db
      reads this
    {
      Db(workspaces, boards, lists, cards, users, nextId)
    }

    ghost predicate Valid()
      reads this
    {
      Database.Valid(Snap())
    }

    /** An empty store over the registered users. */
    constructor(registered: seq<User>)
      ensures Snap() == Db([], [], [], [], registered, 0)
      ensures Valid()
    {
      workspaces, boards, lists, cards := [], [], [], [];
      users, nextId := registered, 0;
    }

    // -------------------------------------------------------------------------------------
    // Cards

    method CreateCard(boardId: Id, listId: Id, title: string, description: Option<string>)
      returns (r: Result<Card, Failure>)
      requires Valid()
      modifies this
      ensures Valid()
      ensures Outcome(r, Snap()) == CardService.CreateCard(old(Snap()), boardId, listId, title, description)
    {
      ghost var spec := CardService.CreateCard(Snap(), boardId, listId, title, description);
      CardService.CreateCardValid(Snap(), boardId, listId, title, description);
      var siblings := CardService.ListCards(Snap(), listId);
      var position := CalculateNewPosition(siblings, |siblings|, None, CardId, CardPosition);
      if position.Failure? {
        return Failure(KeyFailure(position.error));
      }
      var id := Max(nextId, listId + 1);
      var card := Card(id, boardId, listId, title, description, position.value, [], [], [], [], None, None);
      cards := cards + [card];
      nextId := id + 1;
      assert spec == Outcome(Success(card), Snap());
      return Success(card);
    }

    method MoveCard(cardId: Id, listId: Id, boardId: Id, targetIndex: int)
      returns (r: Result<Option<Card>, Failure>)
      requires Valid()
      modifies this
      ensures Valid()
      ensures Outcome(r, Snap()) == CardService.MoveCard(old(Snap()), cardId, listId, boardId, targetIndex)
    {
      ghost var spec := CardService.MoveCard(Snap(), cardId, listId, boardId, targetIndex);
      CardService.MoveCardValid(Snap(), cardId, listId, boardId, targetIndex);
      if FindBoard(boards, boardId).None? {
        return Failure(NotFound("Board not found"));
      }
      var l := FindList(lists, listId);
      if l.None? {
        return Failure(NotFound("List not found"));
      }
      if lists[l.value].boardId != boardId {
        return Failure(BadRequest("List does not belong to the specified board"));
      }
      var siblings := Seqs.Filter(cards, InListExcept(listId, cardId));
      var position := CalculateNewPosition(siblings, targetIndex, None, CardId, CardPosition);
      if position.Failure? {
        return Failure(KeyFailure(position.error));
      }
      var i := FindCard(cards, cardId);
      if i.None? {
        assert spec == Outcome(Success(None), Snap());
        return Success(None);
      }
      var moved := cards[i.value].(position := position.value, listId := listId, boardId := boardId);
      cards := cards[i.value := moved];
      assert spec == Outcome(Success(Some(moved)), Snap());
      return Success(Some(moved));
    }

    method AddComment(cardId: Id, user: User, text: string) returns (r: Result<Card, Failure>)
      requires Valid()
      modifies this
      ensures Valid()
      ensures Outcome(r, Snap()) == CardService.AddComment(old(Snap()), cardId, user, text)
    {
      ghost var spec := CardService.AddComment(Snap(), cardId, user, text);
      CardService.AddCommentValid(Snap(), cardId, user, text);
      var i := FindCard(cards, cardId);
      if i.None? {
        return Failure(NotFound("Card not found"));
      }
      var comment := Comment(nextId, UserRef(user.id, user.username, user.fullname), Trim(text), false);
      var card := cards[i.value];
      card := card.(comments := card.comments + [comment]);
      cards := cards[i.value := card];
      nextId := nextId + 1;
      assert spec == Outcome(Success(card), Snap());
      return Success(card);
    }

    method UpdateComment(cardId: Id, commentId: Id, text: string) returns (r: Result<Card, Failure>)
      requires Valid()
      modifies this
      ensures Valid()
      ensures Outcome(r, Snap()) == CardService.UpdateComment(old(Snap()), cardId, commentId, text)
    {
      ghost var spec := CardService.UpdateComment(Snap(), cardId, commentId, text);
      CardService.UpdateCommentValid(Snap(), cardId, commentId, text);
      var i := FindCard(cards, cardId);
      if i.None? {
        return Failure(NotFound("Card not found"));
      }
      var card := cards[i.value];
      var k := CardService.FindComment(card.comments, commentId);
      if k.None? {
        return Failure(NotFound("Comment not found"));
      }
      var comment := card.comments[k.value];
      var trimmed := Trim(text);
      if comment.text != trimmed {
        comment := comment.(text := trimmed, isEdited := true);
      }
      card := card.(comments := card.comments[k.value := comment]);
      cards := cards[i.value := card];
      assert spec == Outcome(Success(card), Snap());
      return Success(card);
    }

    method DeleteComment(cardId: Id, commentId: Id) returns (r: Result<Card, Failure>)
      requires Valid()
      modifies this
      ensures Valid()
      ensures Outcome(r, Snap()) == CardService.DeleteComment(old(Snap()), cardId, commentId)
    {
      ghost var spec := CardService.DeleteComment(Snap(), cardId, commentId);
      CardService.DeleteCommentValid(Snap(), cardId, commentId);
      var i := FindCard(cards, cardId);
      if i.None? {
        return Failure(NotFound("Card not found"));
      }
      var card := cards[i.value];
      if CardService.FindComment(card.comments, commentId).None? {
        return Failure(NotFound("Comment not found"));
      }
      card := card.(comments := Seqs.Filter(card.comments, CardService.OtherComment(commentId)));
      cards := cards[i.value := card];
      assert spec == Outcome(Success(card), Snap());
      return Success(card);
    }

    method AddAttachment(cardId: Id, url: Option<string>, name: Option<string>, publicId: Option<string>)
      returns (r: Result<Card, Failure>)
      requires Valid()
      modifies this
      ensures Valid()
      ensures Outcome(r, Snap()) == CardService.AddAttachment(old(Snap()), cardId, url, name, publicId)
    {
      ghost var spec := CardService.AddAttachment(Snap(), cardId, url, name, publicId);
      CardService.AddAttachmentValid(Snap(), cardId, url, name, publicId);
      if url.None? || |url.value| == 0 {
        return Failure(BadRequest("url is required"));
      }
      var i := FindCard(cards, cardId);
      if i.None? {
        return Failure(NotFound("Card not found"));
      }
      var card := cards[i.value];
      card := card.(attachments := card.attachments + [CardService.NewAttachment(nextId, url.value, name, publicId)]);
      cards := cards[i.value := card];
      nextId := nextId + 1;
      assert spec == Outcome(Success(card), Snap());
      return Success(card);
    }

    method RemoveAttachment(cardId: Id, attachmentId: Id) returns (r: Result<Card, Failure>)
      requires Valid()
      modifies this
      ensures Valid()
      ensures Outcome(r, Snap()) == CardService.RemoveAttachment(old(Snap()), cardId, attachmentId)
    {
      ghost var spec := CardService.RemoveAttachment(Snap(), cardId, attachmentId);
      CardService.RemoveAttachmentValid(Snap(), cardId, attachmentId);
      var i := FindCard(cards, cardId);
      if i.None? {
        return Failure(NotFound("Card not found"));
      }
      var card := cards[i.value];
      if CardService.FindAttachment(card.attachments, attachmentId).None? {
        return Failure(NotFound("Attachment not found"));
      }
      card := card.(attachments := Seqs.Filter(card.attachments, CardService.OtherAttachment(attachmentId)));
      cards := cards[i.value := card];
      assert spec == Outcome(Success(card), Snap());
      return Success(card);
    }

    method AddCardAssignee(cardId: Id, userId: Id) returns (r: Result<Card, Failure>)
      requires Valid()
      modifies this
      ensures Valid()
      ensures Outcome(r, Snap()) == CardService.AddCardAssignee(old(Snap()), cardId, userId)
    {
      ghost var spec := CardService.AddCardAssignee(Snap(), cardId, userId);
      CardService.AddCardAssigneeValid(Snap(), cardId, userId);
      var i := FindCard(cards, cardId);
      if i.None? {
        return Failure(NotFound("Card not found"));
      }
      var b := FindBoard(boards, cards[i.value].boardId);
      if b.None? {
        return Failure(NotFound("Board not found"));
      }
      var u := FindUser(users, userId);
      if u.None? {
        return Failure(NotFound("User not found"));
      }
      if !HasUser(boards[b.value].members, userId) {
        return Failure(BadRequest("User is not a board member"));
      }
      if HasUser(cards[i.value].assignees, userId) {
        return Failure(BadRequest("User is already assigned to this card"));
      }
      var user := users[u.value];
      var card := cards[i.value];
      card := card.(assignees := card.assignees + [UserRef(userId, user.username, user.fullname)]);
      cards := cards[i.value := card];
      assert spec == Outcome(Success(card), Snap());
      return Success(card);
    }

    /** `copyCard`: the source card and, when a target board is supplied, that board must
        exist; then the copy is written. */
    method CopyCard(cardId: Id, opts: CopyOptions) returns (r: Result<Card, Failure>)
      requires Valid()
      modifies this
      ensures Valid()
      ensures Outcome(r, Snap()) == CardService.CopyCard(old(Snap()), cardId, opts)
    {
      var s := FindCard(cards, cardId);
      if s.None? {
        return Failure(NotFound("Source card not found"));
      }
      var targetBoard := CardService.TargetBoardLookup(Snap(), opts.targetBoardId);
      if targetBoard.Failure? {
        return Failure(targetBoard.error);
      }
      ghost var db0 := Snap();
      CardService.CopyCardValid(db0, cardId, opts);
      r := WriteCopy(cards[s.value], opts, targetBoard.value);
    }

    /** The writing half of `copyCard`: the key at the target index of the final list, the
        id, then the two saves. */
    method WriteCopy(source: Card, opts: CopyOptions, targetBoard: Option<Board>) returns (r: Result<Card, Failure>)
      modifies this
      ensures Outcome(r, Snap()) == CardService.WriteCopy(old(Snap()), source, opts, targetBoard)
    {
      var position := CardService.CopyKey(Snap(), source, opts);
      if position.Failure? {
        return Failure(KeyFailure(position.error));
      }
      ghost var db0 := Snap();
      var id := Max(nextId, opts.targetListId.GetOr(source.listId) + 1);
      CardService.WriteCopyAt(db0, source, opts, targetBoard, position.value);
      var copied := InsertCopy(source, opts, id, position.value, targetBoard);
      return Success(copied);
    }

    /** The two saves of `copyCard`: `Card.create` of the copy without comments under `id`,
        then, when comments are copied, the save that gives them the ids after it. */
    method InsertCopy(source: Card, opts: CopyOptions, id: Id, position: Key, targetBoard: Option<Board>)
      returns (copied: Card)
      modifies this
      ensures copied == CopiedCard(source, opts, id, position, old(users), targetBoard)
      ensures Snap() == old(Snap()).(cards := old(cards) + [copied], nextId := id + 1 + |copied.comments|)
    {
      copied := CopiedCard(source, opts.(copyComments := false), id, position, users, targetBoard);
      cards := cards + [copied];
      nextId := id + 1;
      if opts.copyComments && |source.comments| > 0 {
        copied := copied.(comments := CopiedComments(source.comments, nextId));
        cards := cards[|cards| - 1 := copied];
        assert cards == old(cards) + [copied];
        nextId := nextId + |copied.comments|;
      }
    }

    // -------------------------------------------------------------------------------------
    // Lists

    method CreateList(boardId: Id, title: string) returns (r: Result<ListDoc, Failure>)
      requires Valid()
      modifies this
      ensures Valid()
      ensures Outcome(r, Snap()) == ListService.CreateList(old(Snap()), boardId, title)
    {
      ghost var spec := ListService.CreateList(Snap(), boardId, title);
      ListService.CreateListValid(Snap(), boardId, title);
      var siblings := ListService.BoardLists(Snap(), boardId);
      var position := CalculateNewPosition(siblings, |siblings|, None, ListId, ListPosition);
      if position.Failure? {
        return Failure(KeyFailure(position.error));
      }
      var list := ListDoc(nextId, boardId, title, None, position.value, None);
      lists := lists + [list];
      nextId := nextId + 1;
      assert spec == Outcome(Success(list), Snap());
      return Success(list);
    }

    method MoveList(listId: Id, boardId: Id, targetIndex: int) returns (r: Result<Option<ListDoc>, Failure>)
      requires Valid()
      modifies this
      ensures Valid()
      ensures Outcome(r, Snap()) == ListService.MoveList(old(Snap()), listId, boardId, targetIndex)
    {
      ghost var spec := ListService.MoveList(Snap(), listId, boardId, targetIndex);
      ListService.MoveListValid(Snap(), listId, boardId, targetIndex);
      if FindBoard(boards, boardId).None? {
        return Failure(NotFound("Board not found"));
      }
      var siblings := Seqs.Filter(lists, OnBoardExcept(boardId, listId));
      var position := CalculateNewPosition(siblings, targetIndex, None, ListId, ListPosition);
      if position.Failure? {
        return Failure(KeyFailure(position.error));
      }
      var i := FindList(lists, listId);
      if i.None? {
        assert spec == Outcome(Success(None), Snap());
        return Success(None);
      }
      var moved := lists[i.value].(position := position.value, boardId := boardId);
      lists := lists[i.value := moved];
      assert spec == Outcome(Success(Some(moved)), Snap());
      return Success(Some(moved));
    }

    /** `archiveList`, with the clock reading `now`. */
    method ArchiveList(id: Id, now: Date) returns (r: Result<Option<ListDoc>, Failure>)
      requires Valid()
      modifies this
      ensures Valid()
      ensures Outcome(r, Snap()) == ListService.ArchiveList(old(Snap()), id, now)
    {
      ghost var spec := ListService.ArchiveList(Snap(), id, now);
      ListService.ArchiveListValid(Snap(), id, now);
      var i := FindList(lists, id);
      if i.None? {
        return Failure(NotFound("List not found"));
      }
      var list := lists[i.value];
      if list.archivedAt.Some? {
        assert spec == Outcome(Success(None), Snap());
        return Success(None);
      }
      list := list.(archivedAt := Some(now));
      lists := lists[i.value := list];
      assert spec == Outcome(Success(Some(list)), Snap());
      return Success(Some(list));
    }

    /** The `for` loop of `copyList`: copy each source card, in order, into the new list at
        the index of its round; a copy that throws ends the loop. */
    method CopyCardsInto(sources: seq<Card>, newListId: Id, boardId: Id) returns (r: Result<(), Failure>)
      requires Valid()
      modifies this
      ensures Valid()
      ensures Outcome(r, Snap()) == ListService.CopyRounds(old(Snap()), sources, newListId, boardId, 0)
    {
      var i := 0;
      while i < |sources|
        invariant i <= |sources| && Valid()
        invariant ListService.CopyRounds(old(Snap()), sources, newListId, boardId, 0)
               == ListService.CopyRounds(Snap(), sources, newListId, boardId, i)
      {
        ghost var before := Snap();
        var copied := CopyCard(sources[i].id, ListService.LoopOptions(newListId, boardId, i));
        if copied.Failure? {
          assert ListService.CopyRounds(before, sources, newListId, boardId, i)
              == Outcome(Failure(copied.error), Snap());
          return Failure(copied.error);
        }
        assert ListService.CopyRounds(before, sources, newListId, boardId, i)
            == ListService.CopyRounds(Snap(), sources, newListId, boardId, i + 1);
        i := i + 1;
      }
      return Success(());
    }

    /** `copyList`: the lookups and `List.create` of the copy, then the filling of the new
        list. */
    method CopyList(listId: Id, opts: ListService.ListCopyOptions) returns (r: Result<ListService.PopulatedList, Failure>)
      requires Valid()
      modifies this
      ensures Valid()
      ensures Outcome(r, Snap()) == ListService.CopyList(old(Snap()), listId, opts)
    {
      ghost var db0 := Snap();
      var l := FindList(lists, listId);
      if l.None? {
        return Failure(NotFound("Source list not found"));
      }
      var source := lists[l.value];
      if opts.targetBoardId.Some? && opts.targetBoardId.value != source.boardId
         && FindBoard(boards, opts.targetBoardId.value).None? {
        return Failure(NotFound("Target board not found"));
      }
      var doc := ListService.ListCopyDoc(Snap(), source, opts);
      if doc.Failure? {
        return Failure(KeyFailure(doc.error));
      }
      assert source == db0.lists[FindList(db0.lists, listId).value];
      assert doc == ListService.ListCopyDoc(db0, source, opts);
      ListService.CopyListUnfolds(db0, listId, opts);
      ghost var created := db0.(lists := db0.lists + [doc.value], nextId := db0.nextId + 1);
      assert ListService.CopyList(db0, listId, opts)
          == ListService.FillListCopy(created, source.id, doc.value, opts.copyCards);
      assert Snap().(lists := lists + [doc.value], nextId := nextId + 1) == created;
      r := CreateListCopy(source.id, doc.value, opts.copyCards);
    }

    /** From `List.create` in `copyList` on: the new list document is stored, then the card
        loop fills it and the new list is re-read with its cards sorted by position. */
    method CreateListCopy(sourceId: Id, copied: ListDoc, copyCards: bool)
      returns (r: Result<ListService.PopulatedList, Failure>)
      requires Valid() && copied.id == nextId
      modifies this
      ensures Valid()
      ensures Outcome(r, Snap())
        == ListService.FillListCopy(old(Snap()).(lists := old(lists) + [copied], nextId := old(nextId) + 1),
                                    sourceId, copied, copyCards)
    {
      ValidAppendList(Snap(), copied);
      lists := lists + [copied];
      nextId := nextId + 1;
      assert Snap() == old(Snap()).(lists := old(lists) + [copied], nextId := old(nextId) + 1);
      ghost var spec := ListService.FillListCopy(Snap(), sourceId, copied, copyCards);
      var sources := ListService.CopySources(Snap(), sourceId, copyCards);
      var loop := CopyCardsInto(sources, copied.id, copied.boardId);
      if loop.Failure? {
        return Failure(loop.error);
      }
      var populated := SortByPosition(CardService.ListCards(Snap(), copied.id), CardPosition);
      return Success(ListService.PopulatedList(copied, populated));
    }

    // -------------------------------------------------------------------------------------
    // Boards

    /** `createBoard`: the appearance is cut down to its background before the write. */
    method CreateBoard(data: BoardService.NewBoard) returns (r: Result<Board, Failure>)
      requires Valid()
      modifies this
      ensures Valid()
      ensures Outcome(r, Snap()) == BoardService.CreateBoard(old(Snap()), data)
    {
      ghost var spec := BoardService.CreateBoard(Snap(), data);
      BoardService.CreateBoardStores(Snap(), data);
      var background := BoardService.StoredBackground(data.appearance);
      var board := Board(nextId, data.title, data.description.GetOr(""), data.workspaceId, background, [],
                         data.owner, data.members);
      boards := boards + [board];
      nextId := nextId + 1;
      assert spec == Outcome(Success(board), Snap());
      return Success(board);
    }

    method UpdateBoard(id: Id, patch: BoardService.BoardPatch) returns (r: Result<Option<Board>, Failure>)
      requires Valid()
      modifies this
      ensures Valid()
      ensures Outcome(r, Snap()) == BoardService.UpdateBoard(old(Snap()), id, patch)
    {
      ghost var spec := BoardService.UpdateBoard(Snap(), id, patch);
      BoardService.UpdateBoardValid(Snap(), id, patch);
      var i := FindBoard(boards, id);
      if i.None? {
        assert spec == Outcome(Success(None), Snap());
        return Success(None);
      }
      var board := boards[i.value];
      if patch.title.Some? {
        board := board.(title := patch.title.value);
      }
      if patch.description.Some? {
        board := board.(description := patch.description.value);
      }
      if patch.appearance.Some? {
        board := board.(background := BoardService.StoredBackground(patch.appearance));
      }
      boards := boards[i.value := board];
      assert spec == Outcome(Success(Some(board)), Snap());
      return Success(Some(board));
    }

    method AddLabelToBoard(boardId: Id, title: string, color: string) returns (r: Result<Label, Failure>)
      requires Valid()
      modifies this
      ensures Valid()
      ensures Outcome(r, Snap()) == BoardService.AddLabelToBoard(old(Snap()), boardId, title, color)
    {
      ghost var spec := BoardService.AddLabelToBoard(Snap(), boardId, title, color);
      BoardService.AddLabelValid(Snap(), boardId, title, color);
      var i := FindBoard(boards, boardId);
      if i.None? {
        return Failure(BoardService.NullLabels);
      }
      var labels := boards[i.value].labels + [Label(nextId, title, color)];
      boards := boards[i.value := boards[i.value].(labels := labels)];
      nextId := nextId + 1;
      assert spec == Outcome(Success(labels[|labels| - 1]), Snap());
      return Success(labels[|labels| - 1]);
    }

    method UpdateLabelInBoard(boardId: Id, labelId: Id, patch: BoardService.LabelPatch)
      returns (r: Result<Label, Failure>)
      requires Valid()
      modifies this
      ensures Valid()
      ensures Outcome(r, Snap()) == BoardService.UpdateLabelInBoard(old(Snap()), boardId, labelId, patch)
    {
      ghost var spec := BoardService.UpdateLabelInBoard(Snap(), boardId, labelId, patch);
      BoardService.UpdateLabelValid(Snap(), boardId, labelId, patch);
      var i := FindBoard(boards, boardId);
      if i.None? {
        return Failure(BoardService.NullLabels);
      }
      var k := BoardService.LabelIndex(boards[i.value].labels, labelId);
      if k.None? {
        return Failure(BoardService.NullLabels);
      }
      var updated := boards[i.value].labels[k.value];
      if patch.title.Some? {
        updated := updated.(title := patch.title.value);
      }
      if patch.color.Some? {
        updated := updated.(color := patch.color.value);
      }
      boards := boards[i.value := boards[i.value].(labels := boards[i.value].labels[k.value := updated])];
      assert spec == Outcome(Success(updated), Snap());
      return Success(updated);
    }

    method RemoveLabelFromBoard(boardId: Id, labelId: Id) returns (r: Result<Option<Board>, Failure>)
      requires Valid()
      modifies this
      ensures Valid()
      ensures Outcome(r, Snap()) == BoardService.RemoveLabelFromBoard(old(Snap()), boardId, labelId)
    {
      ghost var spec := BoardService.RemoveLabelFromBoard(Snap(), boardId, labelId);
      BoardService.RemoveLabelValid(Snap(), boardId, labelId);
      var i := FindBoard(boards, boardId);
      if i.None? {
        assert spec == Outcome(Success(None), Snap());
        return Success(None);
      }
      var board := boards[i.value].(labels := Seqs.Filter(boards[i.value].labels, BoardService.OtherLabel(labelId)));
      boards := boards[i.value := board];
      assert spec == Outcome(Success(Some(board)), Snap());
      return Success(Some(board));
    }

    // -------------------------------------------------------------------------------------
    // Workspaces

    method UpdateWorkspace(id: Id, patch: WorkspaceService.WorkspacePatch)
      returns (r: Result<Option<Workspace>, Failure>)
      requires Valid()
      modifies this
      ensures Valid()
      ensures Outcome(r, Snap()) == WorkspaceService.UpdateWorkspace(old(Snap()), id, patch)
    {
      ghost var spec := WorkspaceService.UpdateWorkspace(Snap(), id, patch);
      var i := FindWorkspace(workspaces, id);
      if i.None? {
        assert spec == Outcome(Success(None), Snap());
        return Success(None);
      }
      var w := workspaces[i.value];
      if patch.title.Some? {
        w := w.(title := patch.title.value);
      }
      if patch.description.Some? {
        w := w.(description := patch.description.value);
      }
      workspaces := workspaces[i.value := w];
      assert spec == Outcome(Success(Some(w)), Snap());
      return Success(Some(w));
    }

    method DeleteWorkspace(id: Id) returns (r: Result<Option<Workspace>, Failure>)
      requires Valid()
      modifies this
      ensures Valid()
      ensures Outcome(r, Snap()) == WorkspaceService.DeleteWorkspace(old(Snap()), id)
    {
      ghost var spec := WorkspaceService.DeleteWorkspace(Snap(), id);
      var i := FindWorkspace(workspaces, id);
      if i.None? {
        assert spec == Outcome(Success(None), Snap());
        return Success(None);
      }
      var w := workspaces[i.value];
      workspaces := workspaces[..i.value] + workspaces[i.value + 1..];
      assert spec == Outcome(Success(Some(w)), Snap());
      return Success(Some(w));
    }

    method AddMember(workspaceId: Id, member: UserRef) returns (r: Result<UserRef, Failure>)
      requires Valid()
      modifies this
      ensures Valid()
      ensures Outcome(r, Snap()) == WorkspaceService.AddMember(old(Snap()), workspaceId, member)
    {
      ghost var spec := WorkspaceService.AddMember(Snap(), workspaceId, member);
      var i := FindWorkspace(workspaces, workspaceId);
      if i.None? {
        return Failure(WorkspaceService.NullMembers);
      }
      var members := workspaces[i.value].members + [member];
      workspaces := workspaces[i.value := workspaces[i.value].(members := members)];
      assert spec == Outcome(Success(members[|members| - 1]), Snap());
      return Success(members[|members| - 1]);
    }

    method RemoveMember(workspaceId: Id, userId: Id) returns (r: Result<Option<Workspace>, Failure>)
      requires Valid()
      modifies this
      ensures Valid()
      ensures Outcome(r, Snap()) == WorkspaceService.RemoveMember(old(Snap()), workspaceId, userId)
    {
      ghost var spec := WorkspaceService.RemoveMember(Snap(), workspaceId, userId);
      var i := FindWorkspace(workspaces, workspaceId);
      if i.None? {
        assert spec == Outcome(Success(None), Snap());
        return Success(None);
      }
      var w := workspaces[i.value].(members := Seqs.Filter(workspaces[i.value].members,
                                                           WorkspaceService.OtherUser(userId)));
      workspaces := workspaces[i.value := w];
      assert spec == Outcome(Success(Some(w)), Snap());
      return Success(Some(w));
    }
  }
}
