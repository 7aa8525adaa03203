/**
 * The user store: the state it holds, the reducer that is its only way of
 * changing that state, the pagination derived from it on every read, the
 * lookup by id, and the store object whose operations dispatch actions to
 * the reducer.
 */
module UsersContext {
  import opened Wrappers

  /** A user record, as the remote service returns it and the store keeps it. */
  datatype User = User(id: int, firstName: string, lastName: string, email: string, avatar: string)

  /** The editable part of a user: a user without its id and its avatar. */
  datatype UserData = UserData(firstName: string, lastName: string, email: string)

  /** What the store holds; `error` is `None` where the program has `null`. */
  datatype State = State(allUsers: seq<User>, currentPage: int, loading: bool, error: Option<string>)

  /** The seven actions the reducer understands. */
  datatype Action =
    | SetUsers(users: seq<User>)
    | SetPage(page: int)
    | SetLoading(isLoading: bool)
    | SetError(message: Option<string>)
    | AddUser(user: User)
    | UpdateUser(user: User)
    | DeleteUser(id: int)

  const UsersPerPage: nat := 6

  /** The state the store starts from: no users, first page, loading. */
  const Initial: State := State([], 1, true, None)

  /** The message recorded when the initial fetch fails. */
  const LoadErrorMessage: string := "Error al cargar los usuarios. Inténtalo de nuevo."

  function DataOf(u: User): UserData {
    UserData(u.firstName, u.lastName, u.email)
  }

  /** The ids present in a list of users. */
  function Ids(users: seq<User>): set<int> {
    set u | u in users :: u.id
  }

  /** No two users of the list share an id. */
  predicate UniqueIds(users: seq<User>) {
    forall i, j :: 0 <= i < j < |users| ==> users[i].id != users[j].id
  }

  lemma {:induction false} IdsCons(users: seq<User>)
    requires users != []
    ensures Ids(users) == {users[0].id} + Ids(users[1..])
  {
    assert users == [users[0]] + users[1..];
    forall x | x in Ids(users) ensures x in {users[0].id} + Ids(users[1..]) {
      var u :| u in users && u.id == x;
      if u != users[0] {
        assert u in users[1..];
      }
    }
  }

  // ---------------------------------------------------------------------------
  // List operations used by the reducer
  // ---------------------------------------------------------------------------

  /** Every user whose id is `user.id` is replaced by `user`; the others stay where they were. */
  function ReplaceById(users: seq<User>, user: User): (r: seq<User>)
    ensures |r| == |users|
    ensures forall i :: 0 <= i < |users| ==> r[i] == (if users[i].id == user.id then user else users[i])
  {
    if users == [] then []
    else [if users[0].id == user.id then user else users[0]] + ReplaceById(users[1..], user)
  }

  /** The users whose id is not `id`, in their original order. */
  function RemoveById(users: seq<User>, id: int): (r: seq<User>)
    ensures |r| <= |users|
    ensures forall u :: u in r <==> u in users && u.id != id
    ensures id !in Ids(users) ==> r == users
  {
    if users == [] then []
    else
      IdsCons(users);
      if users[0].id == id then RemoveById(users[1..], id)
      else [users[0]] + RemoveById(users[1..], id)
  }

  /** The first user with the given id, if there is one. */
  function GetUserById(users: seq<User>, id: int): (r: Option<User>)
    ensures r.None? <==> id !in Ids(users)
    ensures r.Some? ==> r.value in users && r.value.id == id
  {
    if users == [] then None
    else
      IdsCons(users);
      if users[0].id == id then Some(users[0]) else GetUserById(users[1..], id)
  }

  // ---------------------------------------------------------------------------
  // The reducer
  // ---------------------------------------------------------------------------

  function Reduce(s: State, a: Action): State {
    match a
    case SetUsers(users) => s.(allUsers := users, loading := false)
    case SetPage(page) => s.(currentPage := page)
    case SetLoading(isLoading) => s.(loading := isLoading)
    case AddUser(user) => s.(allUsers := [user] + s.allUsers)
    case UpdateUser(user) => s.(allUsers := ReplaceById(s.allUsers, user))
    case DeleteUser(id) => s.(allUsers := RemoveById(s.allUsers, id))
    case SetError(message) => s.(error := message, loading := false)
  }

  /** Each action changes only the fields it names; a page, a fetched list and an error are stored exactly as given. */
  lemma ReduceFrame(s: State, a: Action)
    ensures var r := Reduce(s, a);
      && (a.SetPage? ==> r == s.(currentPage := a.page))
      && (a.SetUsers? ==> r.allUsers == a.users)
      && (a.SetError? ==> r.error == a.message)
      && (!a.SetPage? ==> r.currentPage == s.currentPage)
      && (!(a.SetUsers? || a.AddUser? || a.UpdateUser? || a.DeleteUser?) ==> r.allUsers == s.allUsers)
      && (!a.SetError? ==> r.error == s.error)
      && r.loading == (if a.SetUsers? || a.SetError? then false else if a.SetLoading? then a.isLoading else s.loading)
  {
  }

  /** Adding puts the new user first and keeps every other user, in order, behind it. */
  lemma ReduceAddUser(s: State, u: User)
    ensures var r := Reduce(s, Action.AddUser(u));
      && |r.allUsers| == |s.allUsers| + 1
      && r.allUsers[0] == u
      && r.allUsers[1..] == s.allUsers
      && r.currentPage == s.currentPage && r.loading == s.loading && r.error == s.error
  {
  }

  /** Deleting removes every user with the id, keeps all others, and a second delete changes nothing. */
  lemma {:induction false} ReduceDeleteUser(s: State, id: int)
    ensures var r := Reduce(s, Action.DeleteUser(id));
      && id !in Ids(r.allUsers)
      && (forall u :: u in s.allUsers && u.id != id ==> u in r.allUsers)
      && (id !in Ids(s.allUsers) ==> r == s)
      && Reduce(r, Action.DeleteUser(id)) == r
      && r.currentPage == s.currentPage && r.loading == s.loading && r.error == s.error
  {
    var r := Reduce(s, Action.DeleteUser(id));
    assert forall u :: u in r.allUsers ==> u.id != id;
  }

  /** Removing by id distributes over concatenation: the kept users keep their relative order. */
  lemma {:induction false} RemoveByIdAppend(a: seq<User>, b: seq<User>, id: int)
    ensures RemoveById(a + b, id) == RemoveById(a, id) + RemoveById(b, id)
  {
    if a == [] {
      assert a + b == b;
    } else {
      assert (a + b)[1..] == a[1..] + b;
      RemoveByIdAppend(a[1..], b, id);
    }
  }

  /** Removing a present id from a list with unique ids shortens it by exactly one. */
  lemma {:induction false} RemoveByIdPresent(users: seq<User>, id: int)
    requires UniqueIds(users) && id in Ids(users)
    ensures |RemoveById(users, id)| == |users| - 1
  {
    IdsCons(users);
    if users[0].id == id {
      forall u | u in users[1..] ensures u.id != id {
        var k :| 0 <= k < |users[1..]| && users[1..][k] == u;
        assert users[k + 1] == u;
      }
    } else {
      RemoveByIdPresent(users[1..], id);
    }
  }

  /** Removing by id keeps ids unique. */
  lemma {:induction false} RemoveByIdUnique(users: seq<User>, id: int)
    requires UniqueIds(users)
    ensures UniqueIds(RemoveById(users, id))
  {
    if users != [] {
      RemoveByIdUnique(users[1..], id);
      var rest := RemoveById(users[1..], id);
      if users[0].id != id {
        var r := [users[0]] + rest;
        forall i, j | 0 <= i < j < |r| ensures r[i].id != r[j].id {
          if i == 0 {
            assert r[j] in rest;
            assert r[j] in users[1..];
            var k :| 0 <= k < |users[1..]| && users[1..][k] == r[j];
            assert users[k + 1] == r[j];
          }
        }
      }
    }
  }

  /** `GetUserById` finds the first user carrying the id. */
  lemma {:induction false} GetUserByIdFirst(users: seq<User>, i: nat)
    requires i < |users|
    requires forall j :: 0 <= j < i ==> users[j].id != users[i].id
    ensures GetUserById(users, users[i].id) == Some(users[i])
  {
    if i > 0 {
      GetUserByIdFirst(users[1..], i - 1);
    }
  }

  /** With unique ids, the user at any position is the one found by its id. */
  lemma GetUserByIdUnique(users: seq<User>, i: nat)
    requires UniqueIds(users) && i < |users|
    ensures GetUserById(users, users[i].id) == Some(users[i])
  {
    GetUserByIdFirst(users, i);
  }

  /** Every action keeps ids unique, given a fresh id for an added user and a unique fetched list. */
  lemma ReduceKeepsUniqueIds(s: State, a: Action)
    requires UniqueIds(s.allUsers)
    requires a.AddUser? ==> a.user.id !in Ids(s.allUsers)
    requires a.SetUsers? ==> UniqueIds(a.users)
    ensures UniqueIds(Reduce(s, a).allUsers)
  {
    match a
    case AddUser(u) =>
      var r := [u] + s.allUsers;
      forall i, j | 0 <= i < j < |r| ensures r[i].id != r[j].id {
        if i == 0 {
          assert r[j] == s.allUsers[j - 1];
          assert r[j] in s.allUsers;
        }
      }
    case DeleteUser(id) =>
      RemoveByIdUnique(s.allUsers, id);
    case _ =>
  }

  // ---------------------------------------------------------------------------
  // Pagination derived from the state
  // ---------------------------------------------------------------------------

  /** The number of pages: the user count divided by the page size, rounded up. */
  function TotalPages(s: State): (r: nat)
    ensures r * UsersPerPage >= |s.allUsers|
    ensures (r - 1) * UsersPerPage < |s.allUsers|
  {
    (|s.allUsers| + UsersPerPage - 1) / UsersPerPage
  }

  /** Where a bound given to an array slice lands: a negative bound counts back from the end, and the result is clamped to the list. */
  function SliceBound(k: int, len: nat): (r: nat)
    ensures r <= len
  {
    if k < 0 then Max(len + k, 0) else Min(k, len)
  }

  /** An array slice from `start` up to but excluding `end`, with the language's treatment of negative and out-of-range bounds. */
  function Slice<T>(xs: seq<T>, start: int, end: int): seq<T> {
    var from, to := SliceBound(start, |xs|), SliceBound(end, |xs|);
    if from < to then xs[from..to] else []
  }

  /** The users shown on the current page. */
  function Visible(s: State): seq<User> {
    Slice(s.allUsers, (s.currentPage - 1) * UsersPerPage, s.currentPage * UsersPerPage)
  }

  /** From the first page on, the visible users are the page's contiguous window of the list. */
  lemma VisibleWindow(s: State)
    requires s.currentPage >= 1
    ensures var lo, n := (s.currentPage - 1) * UsersPerPage, |s.allUsers|;
      && (lo <= n ==> Visible(s) == s.allUsers[lo..Min(lo + UsersPerPage, n)])
      && (lo >= n ==> Visible(s) == [])
      && |Visible(s)| == Min(UsersPerPage, Max(0, n - lo))
  {
  }

  /** A page below the first is not rejected: page 0 shows nothing, and a negative page shows a window counted back from the end. */
  lemma VisibleBelowFirstPage(s: State)
    requires s.currentPage <= 0
    ensures var lo, hi, n := (s.currentPage - 1) * UsersPerPage, s.currentPage * UsersPerPage, |s.allUsers|;
      && (s.currentPage == 0 ==> Visible(s) == [])
      && (s.currentPage < 0 ==> Visible(s) == s.allUsers[Max(n + lo, 0)..Max(n + hi, 0)])
      && |Visible(s)| <= UsersPerPage
  {
  }

  /** On the first page of a non-empty list there is at least one page, and the page shows min(6, n) users. */
  lemma FirstPageView(s: State)
    requires s.currentPage == 1 && |s.allUsers| >= 1
    ensures TotalPages(s) >= 1
    ensures |Visible(s)| == Min(UsersPerPage, |s.allUsers|)
    ensures Visible(s) == s.allUsers[..|Visible(s)|]
  {
    VisibleWindow(s);
  }

  // ---------------------------------------------------------------------------
  // Records built by the store's write operations
  // ---------------------------------------------------------------------------

  /** The optional avatar argument takes effect only when given and non-empty. */
  predicate HasOverride(avatarUrl: Option<string>) {
    avatarUrl.Some? && avatarUrl.value != ""
  }

  function PickAvatar(avatarUrl: Option<string>, fallback: string): string {
    if HasOverride(avatarUrl) then avatarUrl.value else fallback
  }

  /** The placeholder avatar address generated from a name. */
  function DefaultAvatar(firstName: string, lastName: string): (r: string)
    ensures |r| > 0
  {
    "https://ui-avatars.com/api/?name=" + firstName + "+" + lastName + "&background=random&color=fff"
  }

  /** The user `addUser` creates: the given fields, the given id, and an avatar that is never empty. */
  function NewUser(newId: int, data: UserData, avatarUrl: Option<string>): (u: User)
    ensures u.id == newId && DataOf(u) == data
    ensures u.avatar != ""
    ensures HasOverride(avatarUrl) ==> u.avatar == avatarUrl.value
    ensures !HasOverride(avatarUrl) ==> u.avatar == DefaultAvatar(data.firstName, data.lastName)
  {
    User(newId, data.firstName, data.lastName, data.email, PickAvatar(avatarUrl, DefaultAvatar(data.firstName, data.lastName)))
  }

  /** The record `editUser` dispatches: the existing id, the new fields, and the old avatar unless overridden. */
  function EditedUser(existing: User, data: UserData, avatarUrl: Option<string>): (u: User)
    ensures u.id == existing.id && DataOf(u) == data
    ensures HasOverride(avatarUrl) ==> u.avatar == avatarUrl.value
    ensures !HasOverride(avatarUrl) ==> u.avatar == existing.avatar
  {
    User(existing.id, data.firstName, data.lastName, data.email, PickAvatar(avatarUrl, existing.avatar))
  }

  /** The state after `editUser`: unchanged when no user has the id, else the update of the first such user. */
  function EditUserState(s: State, id: int, data: UserData, avatarUrl: Option<string>): (r: State)
    ensures |r.allUsers| == |s.allUsers|
    ensures r.currentPage == s.currentPage && r.loading == s.loading && r.error == s.error
    ensures id !in Ids(s.allUsers) ==> r == s
  {
    match GetUserById(s.allUsers, id)
    case None => s
    case Some(existing) => Reduce(s, Action.UpdateUser(EditedUser(existing, data, avatarUrl)))
  }

  /** Editing a present user with unique ids rewrites that user in place and nothing else. */
  lemma EditUserInPlace(s: State, i: nat, data: UserData, avatarUrl: Option<string>)
    requires UniqueIds(s.allUsers) && i < |s.allUsers|
    ensures var old_ := s.allUsers[i];
      var r := EditUserState(s, old_.id, data, avatarUrl);
      && r.allUsers[i] == User(old_.id, data.firstName, data.lastName, data.email, PickAvatar(avatarUrl, old_.avatar))
      && (forall j :: 0 <= j < |s.allUsers| && j != i ==> r.allUsers[j] == s.allUsers[j])
      && UniqueIds(r.allUsers)
  {
    GetUserByIdUnique(s.allUsers, i);
  }

  // ---------------------------------------------------------------------------
  // The store
  // ---------------------------------------------------------------------------

  /** The store object: its fields are the reducer state, and every operation dispatches to the reducer. */
  class Store {
    var allUsers: seq<User>
    var currentPage: int
    var loading: bool
    var error: Option<string>

    function Snapshot(): State
      reads this
    {
      State(allUsers, currentPage, loading, error)
    }

    constructor ()
      ensures Snapshot() == Initial
    {
      allUsers, currentPage, loading, error := [], 1, true, None;
    }

    /** Replaces the state by the reducer's answer to the action. */
    method Dispatch(action: Action)
      modifies this
      ensures Snapshot() == Reduce(old(Snapshot()), action)
    {
      var next := Reduce(Snapshot(), action);
      allUsers, currentPage, loading, error := next.allUsers, next.currentPage, next.loading, next.error;
    }

    /** The initial load, given what the remote service answered (`None` for a failure). */
    method Load(fetched: Option<seq<User>>)
      modifies this
      ensures !loading && currentPage == old(currentPage)
      ensures fetched.Some? ==> allUsers == fetched.value && error == old(error)
      ensures fetched.None? ==> allUsers == old(allUsers) && error == Some(LoadErrorMessage)
    {
      Dispatch(Action.SetLoading(true));
      match fetched
      case Some(users) => Dispatch(Action.SetUsers(users));
      case None => Dispatch(Action.SetError(Some(LoadErrorMessage)));
    }

    /** Prepends a new user carrying `newId`; a fresh id keeps ids unique. */
    method AddUser(newId: int, data: UserData, avatarUrl: Option<string>)
      modifies this
      ensures Snapshot() == Reduce(old(Snapshot()), Action.AddUser(NewUser(newId, data, avatarUrl)))
      ensures GetUserById(allUsers, newId) == Some(NewUser(newId, data, avatarUrl))
      ensures UniqueIds(old(allUsers)) && newId !in Ids(old(allUsers)) ==> UniqueIds(allUsers)
    {
      var user := NewUser(newId, data, avatarUrl);
      ghost var before := Snapshot();
      Dispatch(Action.AddUser(user));
      if UniqueIds(before.allUsers) && newId !in Ids(before.allUsers) {
        ReduceKeepsUniqueIds(before, Action.AddUser(user));
      }
    }

    /** Rewrites the first user with `id`, if any; otherwise does nothing. */
    method EditUser(id: int, data: UserData, avatarUrl: Option<string>)
      modifies this
      ensures Snapshot() == EditUserState(old(Snapshot()), id, data, avatarUrl)
      ensures UniqueIds(old(allUsers)) ==> UniqueIds(allUsers)
    {
      var existing := GetUserById(allUsers, id);
      if existing.None? {
        return;
      }
      ghost var before := Snapshot();
      Dispatch(Action.UpdateUser(EditedUser(existing.value, data, avatarUrl)));
      if UniqueIds(before.allUsers) {
        ReduceKeepsUniqueIds(before, Action.UpdateUser(EditedUser(existing.value, data, avatarUrl)));
      }
    }

    /** Removes every user with `id`; the id is then not found. */
    method RemoveUser(id: int)
      modifies this
      ensures Snapshot() == Reduce(old(Snapshot()), Action.DeleteUser(id))
      ensures GetUserById(allUsers, id).None?
      ensures UniqueIds(old(allUsers)) && id in Ids(old(allUsers)) ==> |allUsers| == |old(allUsers)| - 1
      ensures UniqueIds(old(allUsers)) ==> UniqueIds(allUsers)
    {
      ghost var before := Snapshot();
      Dispatch(Action.DeleteUser(id));
      ReduceDeleteUser(before, id);
      if UniqueIds(before.allUsers) {
        RemoveByIdUnique(before.allUsers, id);
        if id in Ids(before.allUsers) {
          RemoveByIdPresent(before.allUsers, id);
        }
      }
    }

    /** Stores the page exactly as given: the store does not clamp it. */
    method SetPage(page: int)
      modifies this
      ensures currentPage == page
      ensures allUsers == old(allUsers) && loading == old(loading) && error == old(error)
    {
      Dispatch(Action.SetPage(page));
    }
  }
}
