/** The user slice of the client store and `userReducer`: the user list of the admin page,
    the logged-in user, the user whose profile is shown, a loading flag and an error. */
module UserReducer {
  import opened Wrappers
  import opened Seqs
  import opened Documents

  datatype UserState = UserState(
    users: seq<User>,
    currentUser: Option<User>,
    watchedUser: Option<User>,
    isLoading: bool,
    error: Option<string>)

  datatype UserAction =
    | SetUsers(users: seq<User>)
    | SetUser(user: Option<User>)
    | SetWatchedUser(user: Option<User>)
    | DeleteUser(userId: Id)
    | SetLoading(isLoading: bool)
    | SetError(error: Option<string>)
    | Other(actionType: string)

  /** `user => user._id !== userId`. */
  function NotUser(userId: Id): User -> bool { (u: User) => u.id != userId }

  /** `userReducer`: each case replaces one field of the state; any other action type
      returns the state itself. */
  function Reduce(state: UserState, action: UserAction): (r: UserState)
    ensures action.Other? ==> r == state
    ensures action.SetUsers? ==> r.(users := state.users) == state && r.users == action.users
    ensures action.SetUser? ==> r.(currentUser := state.currentUser) == state && r.currentUser == action.user
    ensures action.SetWatchedUser? ==>
      r.(watchedUser := state.watchedUser) == state && r.watchedUser == action.user
    ensures action.SetLoading? ==> r.(isLoading := state.isLoading) == state && r.isLoading == action.isLoading
    ensures action.SetError? ==> r.(error := state.error) == state && r.error == action.error
    ensures action.DeleteUser? ==> r.(users := state.users) == state
  {
    match action
    case SetUsers(users) => state.(users := users)
    case SetUser(user) => state.(currentUser := user)
    case SetWatchedUser(user) => state.(watchedUser := user)
    case DeleteUser(userId) => state.(users := Filter(state.users, NotUser(userId)))
    case SetLoading(isLoading) => state.(isLoading := isLoading)
    case SetError(error) => state.(error := error)
    case Other(_) => state
  }

  /** DELETE_USER: every user with that id leaves the list, every other user stays, as often
      and in the same order as before. */
  lemma DeleteUserEffect(state: UserState, userId: Id)
    ensures var r := Reduce(state, DeleteUser(userId));
      && (forall u :: u in r.users <==> u in state.users && u.id != userId)
      && (forall u :: multiset(r.users)[u] == if u.id == userId then 0 else multiset(state.users)[u])
      && (forall k :: 0 <= k < |r.users| ==> r.users[k].id != userId)
  {
    FilterMembers(state.users, NotUser(userId));
    FilterMultiset(state.users, NotUser(userId));
  }
}
