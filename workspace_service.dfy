/** The workspace service of the backend: update and delete by id, membership, and the
    boards of a workspace. */
module WorkspaceService {
  import opened Wrappers
  import opened Seqs
  import opened Documents
  import opened Database

  /** The fields of `updateWorkspace` that a body may set; `None` leaves a field as it is. */
  datatype WorkspacePatch = WorkspacePatch(title: Option<string>, description: Option<string>)

  /** `updateWorkspace`: `findByIdAndUpdate`, `null` for an unknown id. */
  function UpdateWorkspace(db: Db, id: Id, patch: WorkspacePatch): Outcome<Option<Workspace>>
  {
    match FindWorkspace(db.workspaces, id)
    case None => Outcome(Success(None), db)
    case Some(i) =>
      var w := db.workspaces[i].(title := patch.title.GetOr(db.workspaces[i].title),
                                 description := patch.description.GetOr(db.workspaces[i].description));
      Outcome(Success(Some(w)), db.(workspaces := db.workspaces[i := w]))
  }

  /** `updateWorkspace` returns `null` and writes nothing for an unknown id; otherwise it sets
      exactly the supplied title and description and returns the updated workspace. */
  lemma UpdateWorkspaceEffect(db: Db, id: Id, patch: WorkspacePatch)
    ensures var o := UpdateWorkspace(db, id, patch);
      && o.result.Success?
      && (FindWorkspace(db.workspaces, id).None? <==> o.result.value.None?)
      && (FindWorkspace(db.workspaces, id).None? ==> o.db == db)
      && (FindWorkspace(db.workspaces, id).Some? ==>
            var i := FindWorkspace(db.workspaces, id).value;
            var w := o.result.value.value;
            && o.db == db.(workspaces := db.workspaces[i := w])
            && w.id == id && w.owner == db.workspaces[i].owner && w.members == db.workspaces[i].members
            && w.title == (if patch.title.Some? then patch.title.value else db.workspaces[i].title)
            && w.description == (if patch.description.Some? then patch.description.value
                                 else db.workspaces[i].description))
  {
  }

  /** `deleteWorkspace`: `findByIdAndDelete` removes the first workspace with that id and
      returns it, or returns `null`. Its boards are left in place. */
  function DeleteWorkspace(db: Db, id: Id): Outcome<Option<Workspace>>
  {
    match FindWorkspace(db.workspaces, id)
    case None => Outcome(Success(None), db)
    case Some(i) =>
      Outcome(Success(Some(db.workspaces[i])),
              db.(workspaces := db.workspaces[..i] + db.workspaces[i + 1..]))
  }

  /** No two workspaces share an id. */
  ghost predicate DistinctWorkspaces(ws: seq<Workspace>) {
    forall a, b :: 0 <= a < b < |ws| ==> ws[a].id != ws[b].id
  }

  /** `deleteWorkspace` returns `null` and writes nothing for an unknown id; otherwise it
      returns the workspace it removes, keeps the others in order, and, with distinct ids,
      the id is gone afterwards. */
  lemma DeleteWorkspaceEffect(db: Db, id: Id)
    ensures var o := DeleteWorkspace(db, id);
      && o.result.Success?
      && (FindWorkspace(db.workspaces, id).None? <==> o.result.value.None?)
      && (FindWorkspace(db.workspaces, id).None? ==> o.db == db)
      && (FindWorkspace(db.workspaces, id).Some? ==>
            var i := FindWorkspace(db.workspaces, id).value;
            && o.result.value.value.id == id
            && o.db == db.(workspaces := db.workspaces[..i] + db.workspaces[i + 1..])
            && (DistinctWorkspaces(db.workspaces) ==> FindWorkspace(o.db.workspaces, id).None?))
  {
    if FindWorkspace(db.workspaces, id).Some? {
      var i := FindWorkspace(db.workspaces, id).value;
      var ws := db.workspaces;
      var rest := ws[..i] + ws[i + 1..];
      if DistinctWorkspaces(ws) {
        forall j | 0 <= j < |rest| ensures rest[j].id != id {
          if j < i {
            assert rest[j] == ws[j];
          } else {
            assert rest[j] == ws[j + 1];
          }
        }
      }
    }
  }

  /** Reading `.members` of the `null` an update of a missing document returns. */
  const NullMembers := Unexpected("Cannot read properties of null (reading 'members')")

  /** `addMemberToWorkspace`: `$push` the member and return `members.at(-1)`; for an unknown
      workspace the update returns `null`, whose `members` throws. */
  function AddMember(db: Db, workspaceId: Id, member: UserRef): Outcome<UserRef>
  {
    match FindWorkspace(db.workspaces, workspaceId)
    case None => Outcome(Failure(NullMembers), db)
    case Some(i) =>
      var members := db.workspaces[i].members + [member];
      Outcome(Success(members[|members| - 1]),
              db.(workspaces := db.workspaces[i := db.workspaces[i].(members := members)]))
  }

  /** Adding a member appends exactly it to the workspace's members and returns it, also when
      a member with that user id is already there; nothing else changes. An unknown
      workspace is a 500 and nothing is written. */
  lemma AddMemberEffect(db: Db, workspaceId: Id, member: UserRef)
    ensures var o := AddMember(db, workspaceId, member);
      && (FindWorkspace(db.workspaces, workspaceId).None? <==> o.result.Failure?)
      && (o.result.Failure? ==> o.result.error == NullMembers && o.db == db)
      && (o.result.Success? ==>
            var i := FindWorkspace(db.workspaces, workspaceId).value;
            && o.result.value == member
            && o.db == db.(workspaces := db.workspaces[i := db.workspaces[i].(members := db.workspaces[i].members + [member])]))
  {
  }

  /** `$pull: { members: { userId } }`. */
  function OtherUser(userId: Id): UserRef -> bool { (m: UserRef) => m.userId != userId }

  /** `removeMemberFromWorkspace`: pull every member with that user id; `null` for an unknown
      workspace. */
  function RemoveMember(db: Db, workspaceId: Id, userId: Id): Outcome<Option<Workspace>>
  {
    match FindWorkspace(db.workspaces, workspaceId)
    case None => Outcome(Success(None), db)
    case Some(i) =>
      var w := db.workspaces[i].(members := Filter(db.workspaces[i].members, OtherUser(userId)));
      Outcome(Success(Some(w)), db.(workspaces := db.workspaces[i := w]))
  }

  /** Removing a member leaves exactly the members with other user ids, in their order, so no
      member with that user id remains; an unknown workspace yields `null` and no write. */
  lemma RemoveMemberEffect(db: Db, workspaceId: Id, userId: Id)
    ensures var o := RemoveMember(db, workspaceId, userId);
      && o.result.Success?
      && (FindWorkspace(db.workspaces, workspaceId).None? <==> o.result.value.None?)
      && (FindWorkspace(db.workspaces, workspaceId).None? ==> o.db == db)
      && (FindWorkspace(db.workspaces, workspaceId).Some? ==>
            var i := FindWorkspace(db.workspaces, workspaceId).value;
            var w := o.result.value.value;
            && w == db.workspaces[i].(members := w.members)
            && o.db == db.(workspaces := db.workspaces[i := w])
            && !HasUser(w.members, userId)
            && (forall m :: m in w.members <==> m in db.workspaces[i].members && m.userId != userId))
  {
    if FindWorkspace(db.workspaces, workspaceId).Some? {
      var i := FindWorkspace(db.workspaces, workspaceId).value;
      var pulled := Filter(db.workspaces[i].members, OtherUser(userId));
      FilterMembers(db.workspaces[i].members, OtherUser(userId));
      forall m | m in pulled ensures m in db.workspaces[i].members && m.userId != userId {
        var k :| 0 <= k < |pulled| && pulled[k] == m;
      }
      forall m | m in db.workspaces[i].members && m.userId != userId ensures m in pulled {
        var k :| 0 <= k < |db.workspaces[i].members| && db.workspaces[i].members[k] == m;
      }
    }
  }

  lemma FindWorkspaceReplace(ws: seq<Workspace>, i: nat, w: Workspace)
    requires i < |ws| && FindWorkspace(ws, w.id) == Some(i)
    ensures FindWorkspace(ws[i := w], w.id) == Some(i)
  {
    assert forall j :: 0 <= j < i ==> ws[i := w][j] == ws[j];
    assert ws[i := w][i] == w;
  }

  /** A member added and then removed by its user id leaves the members as removing that user
      id alone would: a re-added member does not survive its removal. */
  lemma AddThenRemoveMember(db: Db, workspaceId: Id, member: UserRef)
    requires FindWorkspace(db.workspaces, workspaceId).Some?
    ensures var added := AddMember(db, workspaceId, member);
      var i := FindWorkspace(db.workspaces, workspaceId).value;
      RemoveMember(added.db, workspaceId, member.userId).db.workspaces[i].members
        == Filter(db.workspaces[i].members, OtherUser(member.userId))
  {
    var i := FindWorkspace(db.workspaces, workspaceId).value;
    var added := AddMember(db, workspaceId, member);
    FindWorkspaceReplace(db.workspaces, i, added.db.workspaces[i]);
    FilterConcat(db.workspaces[i].members, [member], OtherUser(member.userId));
    FilterSingle(member, OtherUser(member.userId));
  }

  /** `Board.find({ workspaceId })`. */
  function InWorkspace(workspaceId: Id): Board -> bool { (b: Board) => b.workspaceId == workspaceId }

  /** `getWorkspaceBoards`: a plain `Error` for an unknown workspace, otherwise the boards of
      the workspace in store order. */
  function GetWorkspaceBoards(db: Db, workspaceId: Id): Result<seq<Board>, Failure>
  {
    match FindWorkspace(db.workspaces, workspaceId)
    case None => Failure(Unexpected("Workspace not found"))
    case Some(_) => Success(Filter(db.boards, InWorkspace(workspaceId)))
  }

  /** `getWorkspaceBoards` fails exactly for an unknown workspace and otherwise returns exactly
      the stored boards with that `workspaceId`. */
  lemma GetWorkspaceBoardsExactly(db: Db, workspaceId: Id)
    ensures var r := GetWorkspaceBoards(db, workspaceId);
      && (r.Failure? <==> FindWorkspace(db.workspaces, workspaceId).None?)
      && (r.Failure? ==> r.error == Unexpected("Workspace not found"))
      && (r.Success? ==> forall b :: b in r.value <==> b in db.boards && b.workspaceId == workspaceId)
  {
    var r := GetWorkspaceBoards(db, workspaceId);
    if r.Success? {
      var bs := r.value;
      FilterMembers(db.boards, InWorkspace(workspaceId));
      forall b | b in bs ensures b in db.boards && b.workspaceId == workspaceId {
        var k :| 0 <= k < |bs| && bs[k] == b;
      }
      forall b | b in db.boards && b.workspaceId == workspaceId ensures b in bs {
        var k :| 0 <= k < |db.boards| && db.boards[k] == b;
      }
    }
  }
}
