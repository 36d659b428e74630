/** What a copied card carries over from its source (`copyCard` in the card service): the
    option record, the assignee filter and the card the copy writes. */
module CardCopy {
  import opened Wrappers
  import opened Seqs
  import opened Positions
  import opened Documents

  /** The `copyOptions` of `copyCard`; every flag defaults to false and every target to
      `null`. */
  datatype CopyOptions = CopyOptions(
    copyLabels: bool,
    copyAssignees: bool,
    copyComments: bool,
    copyDates: bool,
    targetListId: Option<Id>,
    targetBoardId: Option<Id>,
    targetIndex: Option<int>,
    title: Option<string>)

  const NoOptions := CopyOptions(false, false, false, false, None, None, None, None)

  predicate UserExists(users: seq<User>, userId: Id) {
    exists i :: 0 <= i < |users| && users[i].id == userId
  }

  /** An assignee survives the copy when their user still exists and, when a target board
      was loaded, they are one of its members. */
  predicate KeepAssignee(a: UserRef, users: seq<User>, targetBoard: Option<Board>) {
    && UserExists(users, a.userId)
    && (targetBoard.Some? ==> HasUser(targetBoard.value.members, a.userId))
  }

  function CopiedAssignees(source: Card, copyAssignees: bool, users: seq<User>,
                           targetBoard: Option<Board>): (r: seq<UserRef>)
  {
    if copyAssignees && |source.assignees| > 0 then
      Filter(source.assignees, (a: UserRef) => KeepAssignee(a, users, targetBoard))
    else []
  }

  /** The assignee filter: with `copyAssignees` the copy holds exactly the source assignees
      that pass `KeepAssignee`, in their order; without it, nobody. */
  lemma CopiedAssigneesExactly(source: Card, copyAssignees: bool, users: seq<User>,
                               targetBoard: Option<Board>)
    ensures var r := CopiedAssignees(source, copyAssignees, users, targetBoard);
      && (!copyAssignees ==> r == [])
      && (forall k :: 0 <= k < |r| ==>
            r[k] in source.assignees && KeepAssignee(r[k], users, targetBoard))
      && (forall k :: 0 <= k < |source.assignees| && copyAssignees
            && KeepAssignee(source.assignees[k], users, targetBoard)
            ==> source.assignees[k] in r)
  {
    FilterMembers(source.assignees, (a: UserRef) => KeepAssignee(a, users, targetBoard));
  }

  /** A copy keeps every assignee when every assignee's user exists and either no target
      board was loaded or all of them are its members. */
  lemma CopiedAssigneesAll(source: Card, users: seq<User>, targetBoard: Option<Board>)
    requires forall k :: 0 <= k < |source.assignees| ==>
      KeepAssignee(source.assignees[k], users, targetBoard)
    ensures CopiedAssignees(source, true, users, targetBoard) == source.assignees
  {
    if |source.assignees| > 0 {
      FilterKeepsAll(source.assignees, (a: UserRef) => KeepAssignee(a, users, targetBoard));
    }
  }

  /** The copied comments: same author and text, not edited, new ids from `firstId` on. */
  function CopiedComments(comments: seq<Comment>, firstId: Id): (r: seq<Comment>)
    ensures |r| == |comments|
    ensures forall k :: 0 <= k < |r| ==>
      r[k] == Comment(firstId + k, comments[k].author, comments[k].text, false)
  {
    if comments == [] then
      []
    else
      [Comment(firstId, comments[0].author, comments[0].text, false)]
        + CopiedComments(comments[1..], firstId + 1)
  }

  /** The card `copyCard` writes for `source`: first `Card.create(copiedCardData)` with id
      `id`, then, when comments are copied, the second save with comment ids after it. */
  function CopiedCard(source: Card, opts: CopyOptions, id: Id, position: Key, users: seq<User>,
                      targetBoard: Option<Board>): (r: Card)
  {
    Card(
      id := id,
      boardId := opts.targetBoardId.GetOr(source.boardId),
      listId := opts.targetListId.GetOr(source.listId),
      title := opts.title.GetOr(source.title),
      description := source.description,
      position := position,
      labelIds := if opts.copyLabels && |source.labelIds| > 0 then source.labelIds else [],
      assignees := CopiedAssignees(source, opts.copyAssignees, users, targetBoard),
      comments := if opts.copyComments && |source.comments| > 0
                  then CopiedComments(source.comments, id + 1) else [],
      attachments := [],
      startDate := if opts.copyDates then source.startDate else None,
      dueDate := if opts.copyDates then source.dueDate else None)
  }

  /** The carry-over matrix: each flag decides exactly one group of fields, whatever the
      other flags say. Labels and dates are the source's with their flag and absent
      without it; comments keep author and text (never the edited mark) with their flag;
      attachments are never carried over; title, description, list and board always come
      from the options or the source. */
  lemma CarryOverMatrix(source: Card, opts: CopyOptions, id: Id, position: Key,
                        users: seq<User>, targetBoard: Option<Board>)
    ensures var r := CopiedCard(source, opts, id, position, users, targetBoard);
      && r.id == id && r.position == position
      && r.labelIds == (if opts.copyLabels then source.labelIds else [])
      && (r.startDate, r.dueDate) == (if opts.copyDates then (source.startDate, source.dueDate) else (None, None))
      && |r.comments| == (if opts.copyComments then |source.comments| else 0)
      && (forall k :: 0 <= k < |r.comments| ==>
            r.comments[k].author == source.comments[k].author
            && r.comments[k].text == source.comments[k].text && !r.comments[k].isEdited)
      && r.attachments == []
      && r.description == source.description
      && (opts.title.None? ==> r.title == source.title)
      && (opts.targetListId.None? ==> r.listId == source.listId)
      && (opts.targetBoardId.None? ==> r.boardId == source.boardId)
  {
  }

  /** Copying with no options writes the source's title, description, list and board at the
      new position, and nothing else. */
  lemma PlainCopy(source: Card, id: Id, position: Key, users: seq<User>, targetBoard: Option<Board>)
    ensures CopiedCard(source, NoOptions, id, position, users, targetBoard)
      == Card(id, source.boardId, source.listId, source.title, source.description, position,
              [], [], [], [], None, None)
  {
  }

  /** Copying with every flag set and no targets, when every assignee passes the filter,
      gives the source back apart from the id, the position, the attachments and the
      comments, which are fresh unedited copies. */
  lemma FullCopy(source: Card, id: Id, position: Key, users: seq<User>, targetBoard: Option<Board>)
    requires forall k :: 0 <= k < |source.assignees| ==>
      KeepAssignee(source.assignees[k], users, targetBoard)
    ensures CopiedCard(source, CopyOptions(true, true, true, true, None, None, None, None),
                       id, position, users, targetBoard)
      == source.(id := id, position := position, attachments := [],
                 comments := CopiedComments(source.comments, id + 1))
  {
    CopiedAssigneesAll(source, users, targetBoard);
  }
}
