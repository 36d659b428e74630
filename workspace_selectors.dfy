/** The selectors over the workspace slice: lookup by id, the owned / member / accessible
    filters, the ownership and membership tests, and the loading and error defaults.

    The client's workspace objects are the JSON of the stored workspace documents: they carry
    the owner as `owner.userId` and have no `ownerId` property. The selectors as written read
    `workspace.ownerId`, which is therefore always `undefined`; `OwnerIdAsWritten` models that
    read, and the members suffixed `AsWritten` model the selectors as they are. The members
    without the suffix compare `owner.userId`, which is the evidently intended test.

    A user id argument is `currentUser?._id` at the call sites, so it is an `Option`. */
module WorkspaceSelectors {
  import opened Wrappers
  import opened Seqs
  import opened Documents
  import opened WorkspaceReducer

  /** `workspace.ownerId` on a client workspace object: the property does not exist. */
  function OwnerIdAsWritten(ws: Workspace): Option<Id> { None }

  /** `workspace.owner.userId`, as `===` sees it against an optional user id. */
  function OwnerId(ws: Workspace): Option<Id> { Some(ws.owner.userId) }

  /** `members.some(m => m.userId === userId)`. */
  predicate HasMember(ws: Workspace, userId: Option<Id>) {
    userId.Some? && HasUser(ws.members, userId.value)
  }

  function IdIs(workspaceId: Id): Workspace -> bool { (ws: Workspace) => ws.id == workspaceId }

  /** `selectWorkspaceById`: the first workspace with that id, or `undefined`. */
  function WorkspaceById(state: WorkspaceState, workspaceId: Id): (r: Option<Workspace>)
    ensures r.Some? ==> r.value in state.workspaces && r.value.id == workspaceId
    ensures r.None? <==> forall k :: 0 <= k < |state.workspaces| ==> state.workspaces[k].id != workspaceId
    ensures r.Some? ==> exists k :: 0 <= k < |state.workspaces| && state.workspaces[k] == r.value &&
                                    forall j :: 0 <= j < k ==> state.workspaces[j].id != workspaceId
  {
    match FindIndex(state.workspaces, IdIs(workspaceId))
    case None => None
    case Some(k) => Some(state.workspaces[k])
  }

  function OwnedAsWrittenBy(userId: Option<Id>): Workspace -> bool {
    (ws: Workspace) => OwnerIdAsWritten(ws) == userId
  }

  function OwnedBy(userId: Option<Id>): Workspace -> bool {
    (ws: Workspace) => OwnerId(ws) == userId
  }

  function MemberIs(userId: Option<Id>): Workspace -> bool {
    (ws: Workspace) => HasMember(ws, userId)
  }

  function AccessibleAsWrittenTo(userId: Option<Id>): Workspace -> bool {
    (ws: Workspace) => OwnerIdAsWritten(ws) == userId || HasMember(ws, userId)
  }

  function AccessibleTo(userId: Option<Id>): Workspace -> bool {
    (ws: Workspace) => OwnerId(ws) == userId || HasMember(ws, userId)
  }

  /** `selectOwnedWorkspaces` as written: no workspace for a logged-in user, every workspace
      while no one is logged in. */
  function OwnedWorkspacesAsWritten(state: WorkspaceState, userId: Option<Id>): (r: seq<Workspace>)
    ensures userId.Some? ==> r == []
    ensures userId.None? ==> r == state.workspaces
  {
    var r := Filter(state.workspaces, OwnedAsWrittenBy(userId));
    if userId.Some? then
      FilterNone(state.workspaces, OwnedAsWrittenBy(userId));
      r
    else
      FilterKeepsAll(state.workspaces, OwnedAsWrittenBy(userId));
      r
  }

  /** `selectOwnedWorkspaces` comparing `owner.userId`: exactly the workspaces the user owns. */
  function OwnedWorkspaces(state: WorkspaceState, userId: Option<Id>): (r: seq<Workspace>)
    ensures forall ws :: ws in r <==> ws in state.workspaces && OwnerId(ws) == userId
    ensures userId.None? ==> r == []
  {
    var r := Filter(state.workspaces, OwnedBy(userId));
    FilterMembers(state.workspaces, OwnedBy(userId));
    if userId.None? then
      FilterNone(state.workspaces, OwnedBy(userId));
      r
    else r
  }

  /** `selectMemberWorkspaces`: exactly the workspaces listing the user among their members. */
  function MemberWorkspaces(state: WorkspaceState, userId: Option<Id>): (r: seq<Workspace>)
    ensures forall ws :: ws in r <==> ws in state.workspaces && HasMember(ws, userId)
  {
    FilterMembers(state.workspaces, MemberIs(userId));
    Filter(state.workspaces, MemberIs(userId))
  }

  /** `selectAccessibleWorkspaces` as written: owner or member. */
  function AccessibleWorkspacesAsWritten(state: WorkspaceState, userId: Option<Id>): (r: seq<Workspace>)
    ensures forall ws :: ws in r <==>
      ws in state.workspaces && (OwnerIdAsWritten(ws) == userId || HasMember(ws, userId))
  {
    FilterMembers(state.workspaces, AccessibleAsWrittenTo(userId));
    Filter(state.workspaces, AccessibleAsWrittenTo(userId))
  }

  /** `selectAccessibleWorkspaces` comparing `owner.userId`. */
  function AccessibleWorkspaces(state: WorkspaceState, userId: Option<Id>): (r: seq<Workspace>)
    ensures forall ws :: ws in r <==>
      ws in state.workspaces && (OwnerId(ws) == userId || HasMember(ws, userId))
  {
    FilterMembers(state.workspaces, AccessibleTo(userId));
    Filter(state.workspaces, AccessibleTo(userId))
  }

  /** For a logged-in user the accessible workspaces as written are just the member ones,
      in the same order: owning a workspace gives no access. */
  lemma {:induction false} AccessibleAsWrittenIsMember(state: WorkspaceState, userId: Option<Id>)
    requires userId.Some?
    ensures AccessibleWorkspacesAsWritten(state, userId) == MemberWorkspaces(state, userId)
  {
    FilterAgree(state.workspaces, AccessibleAsWrittenTo(userId), MemberIs(userId));
  }

  /** The accessible workspaces are the owned ones together with the member ones, each
      once, in store order. */
  lemma AccessibleIsUnion(state: WorkspaceState, userId: Option<Id>)
    ensures forall ws :: ws in AccessibleWorkspaces(state, userId) <==>
      ws in OwnedWorkspaces(state, userId) || ws in MemberWorkspaces(state, userId)
    ensures |AccessibleWorkspaces(state, userId)| <=
      |OwnedWorkspaces(state, userId)| + |MemberWorkspaces(state, userId)|
  {
    FilterUnionLength(state.workspaces, OwnedBy(userId), MemberIs(userId), AccessibleTo(userId));
  }

  /** A filter by `p || q` is no longer than the filters by `p` and by `q` together. */
  lemma {:induction false} FilterUnionLength<T>(s: seq<T>, p: T -> bool, q: T -> bool, pq: T -> bool)
    requires forall x :: pq(x) == (p(x) || q(x))
    ensures |Filter(s, pq)| <= |Filter(s, p)| + |Filter(s, q)|
  {
    if s != [] {
      FilterUnionLength(s[1..], p, q, pq);
      FilterAt(s, 0, pq);
      FilterAt(s, 0, p);
      FilterAt(s, 0, q);
    }
  }

  /** `selectIsWorkspaceOwner` as written: `workspace?.ownerId === userId` holds exactly when
      no one is logged in, whichever workspace is asked about. */
  function IsOwnerAsWritten(state: WorkspaceState, workspaceId: Id, userId: Option<Id>): (r: bool)
    ensures r <==> userId.None?
  {
    var found := WorkspaceById(state, workspaceId);
    (if found.Some? then OwnerIdAsWritten(found.value) else None) == userId
  }

  /** `selectIsWorkspaceOwner` comparing `owner.userId`: for a logged-in user, the workspace
      exists and the user owns it; while no one is logged in, `undefined === undefined` holds
      for a workspace that is not there. */
  function IsOwner(state: WorkspaceState, workspaceId: Id, userId: Option<Id>): (r: bool)
    ensures userId.Some? ==> (r <==> WorkspaceById(state, workspaceId).Some? &&
                                     WorkspaceById(state, workspaceId).value.owner.userId == userId.value)
    ensures userId.None? ==> (r <==> WorkspaceById(state, workspaceId).None?)
  {
    var found := WorkspaceById(state, workspaceId);
    (if found.Some? then OwnerId(found.value) else None) == userId
  }

  /** `selectIsWorkspaceMember`: `undefined` when the workspace is not there, otherwise
      whether the user is among its members. */
  function IsMember(state: WorkspaceState, workspaceId: Id, userId: Option<Id>): (r: Option<bool>)
    ensures r.None? <==> WorkspaceById(state, workspaceId).None?
    ensures r == Some(true) <==>
      WorkspaceById(state, workspaceId).Some? && HasMember(WorkspaceById(state, workspaceId).value, userId)
  {
    match WorkspaceById(state, workspaceId)
    case None => None
    case Some(ws) => Some(HasMember(ws, userId))
  }

  /** A workspace found by id is owned (or joined) by the user exactly when the owned (or
      member) selector lists it. */
  lemma TestsAgreeWithFilters(state: WorkspaceState, workspaceId: Id, userId: Option<Id>)
    requires userId.Some? && WorkspaceById(state, workspaceId).Some?
    ensures IsOwner(state, workspaceId, userId) <==>
      WorkspaceById(state, workspaceId).value in OwnedWorkspaces(state, userId)
    ensures IsMember(state, workspaceId, userId) == Some(true) <==>
      WorkspaceById(state, workspaceId).value in MemberWorkspaces(state, userId)
  {
  }

  /** `selectIsLoading`: `loading[key] || false`. */
  function IsLoading(state: WorkspaceState, key: string): (r: bool)
    ensures r <==> key in state.loading && state.loading[key]
  {
    if key in state.loading then state.loading[key] else false
  }

  /** `selectError`: `errors[key] || null`; an empty message is falsy and reads as `null`. */
  function Error(state: WorkspaceState, key: string): (r: Option<string>)
    ensures r.Some? <==> key in state.errors && state.errors[key].Some? && state.errors[key].value != ""
    ensures r.Some? ==> r == state.errors[key]
  {
    if key in state.errors && state.errors[key].Some? && state.errors[key].value != "" then state.errors[key]
    else None
  }

  /** The owner of a workspace, logged in, asks for their workspaces: the selectors as written
      return none and deny ownership; the corrected ones return it and confirm ownership. */
  lemma OwnerNotRecognised()
    ensures var owner := UserRef(7, "ada", "Ada Lovelace");
      var ws := Workspace(1, "Team", "", owner, []);
      var state := WorkspaceState([ws], None, [], map[], map[]);
      && OwnedWorkspacesAsWritten(state, Some(7)) == []
      && OwnedWorkspaces(state, Some(7)) == [ws]
      && AccessibleWorkspacesAsWritten(state, Some(7)) == []
      && AccessibleWorkspaces(state, Some(7)) == [ws]
      && !IsOwnerAsWritten(state, 1, Some(7))
      && IsOwner(state, 1, Some(7))
  {
    var owner := UserRef(7, "ada", "Ada Lovelace");
    var ws := Workspace(1, "Team", "", owner, []);
    var state := WorkspaceState([ws], None, [], map[], map[]);
    assert !HasMember(ws, Some(7));
    FilterSingle(ws, OwnedBy(Some(7)));
    FilterSingle(ws, AccessibleTo(Some(7)));
    FilterSingle(ws, AccessibleAsWrittenTo(Some(7)));
    assert WorkspaceById(state, 1) == Some(ws);
  }
}
