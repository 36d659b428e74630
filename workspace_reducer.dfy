/** The workspace slice of the client store and `workspaceReducer`: the workspaces the user
    can see, the open workspace, its boards, and the per-request loading flags and errors.
    Every handler returns a new state; an action type without a handler returns the state. */
module WorkspaceReducer {
  import opened Wrappers
  import opened Seqs
  import opened Documents

  datatype WorkspaceState = WorkspaceState(
    workspaces: seq<Workspace>,
    workspace: Option<Workspace>,
    workspaceBoards: seq<Board>,
    loading: map<string, bool>,
    errors: map<string, Option<string>>)

  datatype WorkspaceAction =
    | SetWorkspacesSuccess(all: seq<Workspace>)
    | SetWorkspaceSuccess(current: Option<Workspace>)
    | AddWorkspaceSuccess(added: Workspace)
    | UpdateWorkspaceSuccess(updated: Workspace)
    | DeleteWorkspaceSuccess(deletedId: Id)
    | AddMemberSuccess(workspaceId: Id, member: UserRef)
    | RemoveMemberSuccess(workspaceId: Id, memberId: Id)
    | SetWorkspaceBoardsSuccess(boards: seq<Board>)
    | SetLoading(key: string, isLoading: bool)
    | SetError(key: string, error: Option<string>)
    | Unknown(actionType: string)

  /** `state.workspace?._id === id`: false when no workspace is open. */
  predicate IsOpen(current: Option<Workspace>, id: Id) {
    current.Some? && current.value.id == id
  }

  /** `ws => ws._id === payload._id ? payload : ws`. */
  function Replacing(updated: Workspace): Workspace -> Workspace {
    (ws: Workspace) => if ws.id == updated.id then updated else ws
  }

  /** `ws => ws._id !== id`. */
  function NotWorkspace(id: Id): Workspace -> bool { (ws: Workspace) => ws.id != id }

  /** `m => m.userId !== memberId`. */
  function NotMember(memberId: Id): UserRef -> bool { (m: UserRef) => m.userId != memberId }

  function WithMember(ws: Workspace, member: UserRef): Workspace {
    ws.(members := ws.members + [member])
  }

  function WithoutMember(ws: Workspace, memberId: Id): Workspace {
    ws.(members := Filter(ws.members, NotMember(memberId)))
  }

  /** ADD_MEMBER on one workspace of the list. */
  function AddingMember(workspaceId: Id, member: UserRef): Workspace -> Workspace {
    (ws: Workspace) => if ws.id == workspaceId then WithMember(ws, member) else ws
  }

  /** REMOVE_MEMBER on one workspace of the list. */
  function RemovingMember(workspaceId: Id, memberId: Id): Workspace -> Workspace {
    (ws: Workspace) => if ws.id == workspaceId then WithoutMember(ws, memberId) else ws
  }

  /** `workspaceReducer`. No handler throws: the open workspace is only read behind `?.`. */
  function Reduce(state: WorkspaceState, action: WorkspaceAction): (r: WorkspaceState)
    ensures action.Unknown? ==> r == state
    ensures !action.SetLoading? ==> r.loading == state.loading
    ensures !action.SetError? ==> r.errors == state.errors
    ensures !action.SetWorkspaceBoardsSuccess? ==> r.workspaceBoards == state.workspaceBoards
    ensures action.SetWorkspacesSuccess? ==> r == state.(workspaces := action.all)
    ensures action.SetWorkspaceSuccess? ==> r == state.(workspace := action.current)
    ensures action.SetWorkspaceBoardsSuccess? ==> r == state.(workspaceBoards := action.boards)
  {
    match action
    case SetWorkspacesSuccess(all) => state.(workspaces := all)
    case SetWorkspaceSuccess(current) => state.(workspace := current)
    case AddWorkspaceSuccess(added) => state.(workspaces := state.workspaces + [added])
    case UpdateWorkspaceSuccess(updated) =>
      state.(workspaces := Map(state.workspaces, Replacing(updated)),
             workspace := if IsOpen(state.workspace, updated.id) then Some(updated) else state.workspace)
    case DeleteWorkspaceSuccess(id) =>
      state.(workspaces := Filter(state.workspaces, NotWorkspace(id)),
             workspace := if IsOpen(state.workspace, id) then None else state.workspace)
    case AddMemberSuccess(workspaceId, member) =>
      state.(workspaces := Map(state.workspaces, AddingMember(workspaceId, member)),
             workspace := if IsOpen(state.workspace, workspaceId)
                          then Some(WithMember(state.workspace.value, member))
                          else state.workspace)
    case RemoveMemberSuccess(workspaceId, memberId) =>
      state.(workspaces := Map(state.workspaces, RemovingMember(workspaceId, memberId)),
             workspace := if IsOpen(state.workspace, workspaceId)
                          then Some(WithoutMember(state.workspace.value, memberId))
                          else state.workspace)
    case SetWorkspaceBoardsSuccess(boards) => state.(workspaceBoards := boards)
    case SetLoading(key, isLoading) => state.(loading := state.loading[key := isLoading])
    case SetError(key, error) => state.(errors := state.errors[key := error])
    case Unknown(_) => state
  }

  /** ADD_WORKSPACE: the list gains the new workspace at its end and keeps the others. */
  lemma AddWorkspaceEffect(state: WorkspaceState, added: Workspace)
    ensures var r := Reduce(state, AddWorkspaceSuccess(added));
      && r.workspace == state.workspace
      && |r.workspaces| == |state.workspaces| + 1
      && r.workspaces[..|state.workspaces|] == state.workspaces
      && r.workspaces[|state.workspaces|] == added
  {
    var r := Reduce(state, AddWorkspaceSuccess(added));
    assert r.workspaces == state.workspaces + [added];
  }

  /** UPDATE_WORKSPACE: every workspace with the payload's id, and the open workspace when it
      has that id, becomes the payload; all others keep their place and value. */
  lemma {:induction false} UpdateWorkspaceEffect(state: WorkspaceState, updated: Workspace)
    ensures var r := Reduce(state, UpdateWorkspaceSuccess(updated));
      && |r.workspaces| == |state.workspaces|
      && (forall k :: 0 <= k < |state.workspaces| && state.workspaces[k].id != updated.id ==>
            r.workspaces[k] == state.workspaces[k])
      && (forall k :: 0 <= k < |state.workspaces| && state.workspaces[k].id == updated.id ==>
            r.workspaces[k] == updated)
      && (updated in r.workspaces <==> updated in state.workspaces || exists k :: 0 <= k < |state.workspaces| && state.workspaces[k].id == updated.id)
      && (IsOpen(state.workspace, updated.id) ==> r.workspace == Some(updated))
      && (!IsOpen(state.workspace, updated.id) ==> r.workspace == state.workspace)
  {
    var r := Reduce(state, UpdateWorkspaceSuccess(updated));
    if updated in state.workspaces {
      var k :| 0 <= k < |state.workspaces| && state.workspaces[k] == updated;
      assert r.workspaces[k] == updated;
    }
    if exists k :: 0 <= k < |state.workspaces| && state.workspaces[k].id == updated.id {
      var k :| 0 <= k < |state.workspaces| && state.workspaces[k].id == updated.id;
      assert r.workspaces[k] == updated;
    }
    if updated in r.workspaces {
      var k :| 0 <= k < |r.workspaces| && r.workspaces[k] == updated;
      if state.workspaces[k].id != updated.id {
        assert state.workspaces[k] == updated;
      }
    }
  }

  /** DELETE_WORKSPACE: exactly the workspaces with that id leave the list, and the open one is
      closed exactly when it has that id. */
  lemma DeleteWorkspaceEffect(state: WorkspaceState, id: Id)
    ensures var r := Reduce(state, DeleteWorkspaceSuccess(id));
      && (forall ws :: ws in r.workspaces <==> ws in state.workspaces && ws.id != id)
      && (r.workspace.None? <==> state.workspace.None? || state.workspace.value.id == id)
      && (r.workspace.Some? ==> r.workspace == state.workspace)
  {
    FilterMembers(state.workspaces, NotWorkspace(id));
  }

  /** ADD_MEMBER: the workspaces with that id, listed or open, gain the member at the end of
      their members and change in nothing else; the other workspaces are untouched. */
  lemma AddMemberEffect(state: WorkspaceState, workspaceId: Id, member: UserRef)
    ensures var r := Reduce(state, AddMemberSuccess(workspaceId, member));
      && |r.workspaces| == |state.workspaces|
      && (forall k :: 0 <= k < |state.workspaces| && state.workspaces[k].id != workspaceId ==>
            r.workspaces[k] == state.workspaces[k])
      && (forall k :: 0 <= k < |state.workspaces| && state.workspaces[k].id == workspaceId ==>
            MemberAdded(state.workspaces[k], r.workspaces[k], member))
      && (IsOpen(state.workspace, workspaceId) ==>
            r.workspace.Some? && MemberAdded(state.workspace.value, r.workspace.value, member))
      && (!IsOpen(state.workspace, workspaceId) ==> r.workspace == state.workspace)
  {
    var r := Reduce(state, AddMemberSuccess(workspaceId, member));
    forall k | 0 <= k < |state.workspaces| && state.workspaces[k].id == workspaceId
      ensures MemberAdded(state.workspaces[k], r.workspaces[k], member)
    {
      WithMemberAdds(state.workspaces[k], member);
    }
    if IsOpen(state.workspace, workspaceId) {
      WithMemberAdds(state.workspace.value, member);
    }
  }

  /** `after` is `before` with `member` appended to its members and nothing else changed. */
  ghost predicate MemberAdded(before: Workspace, after: Workspace, member: UserRef) {
    && after.(members := before.members) == before
    && |after.members| == |before.members| + 1
    && after.members[..|before.members|] == before.members
    && after.members[|before.members|] == member
    && HasUser(after.members, member.userId)
  }

  lemma WithMemberAdds(ws: Workspace, member: UserRef)
    ensures MemberAdded(ws, WithMember(ws, member), member)
  {
    var after := WithMember(ws, member);
    assert after.members[|ws.members|] == member;
  }

  /** `after` is `before` without the members with `memberId`, the others kept, and nothing
      else changed. */
  ghost predicate MemberRemoved(before: Workspace, after: Workspace, memberId: Id) {
    && after.(members := before.members) == before
    && !HasUser(after.members, memberId)
    && forall m :: m in after.members <==> m in before.members && m.userId != memberId
  }

  lemma WithoutMemberRemoves(ws: Workspace, memberId: Id)
    ensures MemberRemoved(ws, WithoutMember(ws, memberId), memberId)
  {
    FilterMembers(ws.members, NotMember(memberId));
  }

  /** REMOVE_MEMBER: the workspaces with that id, listed or open, lose every member with that
      user id and change in nothing else; the other workspaces are untouched. */
  lemma RemoveMemberEffect(state: WorkspaceState, workspaceId: Id, memberId: Id)
    ensures var r := Reduce(state, RemoveMemberSuccess(workspaceId, memberId));
      && |r.workspaces| == |state.workspaces|
      && (forall k :: 0 <= k < |state.workspaces| && state.workspaces[k].id != workspaceId ==>
            r.workspaces[k] == state.workspaces[k])
      && (forall k :: 0 <= k < |state.workspaces| && state.workspaces[k].id == workspaceId ==>
            MemberRemoved(state.workspaces[k], r.workspaces[k], memberId))
      && (IsOpen(state.workspace, workspaceId) ==>
            r.workspace.Some? && MemberRemoved(state.workspace.value, r.workspace.value, memberId))
      && (!IsOpen(state.workspace, workspaceId) ==> r.workspace == state.workspace)
  {
    var r := Reduce(state, RemoveMemberSuccess(workspaceId, memberId));
    forall k | 0 <= k < |state.workspaces| && state.workspaces[k].id == workspaceId
      ensures MemberRemoved(state.workspaces[k], r.workspaces[k], memberId)
    {
      WithoutMemberRemoves(state.workspaces[k], memberId);
    }
    if IsOpen(state.workspace, workspaceId) {
      WithoutMemberRemoves(state.workspace.value, memberId);
    }
  }

  /** SET_LOADING and SET_ERROR change their map at the given key only, and nothing else. */
  lemma SetFlagEffect(state: WorkspaceState, action: WorkspaceAction)
    requires action.SetLoading? || action.SetError?
    ensures var r := Reduce(state, action);
      if action.SetLoading? then
        && r == state.(loading := r.loading)
        && action.key in r.loading && r.loading[action.key] == action.isLoading
        && forall k :: k != action.key ==>
             (k in r.loading <==> k in state.loading) &&
             (k in state.loading ==> r.loading[k] == state.loading[k])
      else
        && r == state.(errors := r.errors)
        && action.key in r.errors && r.errors[action.key] == action.error
        && forall k :: k != action.key ==>
             (k in r.errors <==> k in state.errors) &&
             (k in state.errors ==> r.errors[k] == state.errors[k])
  {
  }
}
