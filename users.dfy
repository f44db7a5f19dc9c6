/** The user store: listing the other users and look-up-or-create by name. */
module UserStore {
  import opened Items
  import opened Ids

  /** The identifiers of the stored users, in store order. */
  function UserIds(us: seq<User>): (ids: seq<int>)
    ensures |ids| == |us| && forall i :: 0 <= i < |us| ==> ids[i] == us[i].id
  {
    seq(|us|, i requires 0 <= i < |us| => us[i].id)
  }

  /** The identifier `createUserID` hands out next. */
  function NextUserId(us: seq<User>): int {
    MaxId(UserIds(us)) + 1
  }

  /** The users whose identifier differs from `id`, in store order (`getOnlineUser`). */
  function Others(us: seq<User>, id: int): seq<User> {
    if us == [] then []
    else Others(us[..|us| - 1], id) + (if us[|us| - 1].id != id then [us[|us| - 1]] else [])
  }

  /** The index of the first stored user called `name`, if any. */
  function FindByName(us: seq<User>, name: string): (r: Option<nat>)
    ensures r.Some? ==> r.value < |us| && us[r.value].username == name &&
                        forall j :: 0 <= j < r.value ==> us[j].username != name
    ensures r.None? ==> forall j :: 0 <= j < |us| ==> us[j].username != name
  {
    if us == [] then None
    else if us[0].username == name then Some(0)
    else match FindByName(us[1..], name)
      case Some(k) => Some(k + 1)
      case None => None
  }

  /** `addUser`: the user it returns and the user list afterwards. */
  function AddUser(us: seq<User>, name: string): (User, seq<User>) {
    match FindByName(us, name)
    case Some(i) => (us[i], us)
    case None =>
      var u := User(NextUserId(us), name, false);
      (u, us + [u])
  }

  /** The store invariant: identifiers strictly increase along the list (so they are
      pairwise distinct and never reused) and user names are unique. */
  predicate UsersValid(us: seq<User>) {
    Increasing(UserIds(us)) &&
    forall i, j :: 0 <= i < j < |us| ==> us[i].username != us[j].username
  }

  lemma SeedUsersValid()
    ensures UsersValid(SeedUsers)
  {
  }

  /** `getOnlineUser` returns exactly the users numbered differently from the caller. */
  lemma {:induction false} OthersMembers(us: seq<User>, id: int, u: User)
    ensures u in Others(us, id) <==> u in us && u.id != id
  {
    if us != [] {
      var init := us[..|us| - 1];
      OthersMembers(init, id, u);
      assert us == init + [us[|us| - 1]];
    }
  }

  /** `getOnlineUser` for a caller that is not stored returns every user. */
  lemma {:induction false} OthersOfUnknown(us: seq<User>, id: int)
    requires forall i :: 0 <= i < |us| ==> us[i].id != id
    ensures Others(us, id) == us
  {
    if us != [] {
      OthersOfUnknown(us[..|us| - 1], id);
      assert us == us[..|us| - 1] + [us[|us| - 1]];
    }
  }

  /** `addUser` with a stored name returns the first user with that name and changes
      nothing; with a new name it appends one offline user whose identifier exceeds
      every earlier one. Either way the invariant is kept and the name now leads to
      the returned user. */
  lemma AddUserSpec(us: seq<User>, name: string)
    requires UsersValid(us)
    ensures var (u, us') := AddUser(us, name);
      UsersValid(us') && u.username == name &&
      FindByName(us', name).Some? && us'[FindByName(us', name).value] == u &&
      match FindByName(us, name)
      case Some(i) => u == us[i] && us' == us
      case None =>
        us' == us + [u] && !u.isOnline && u.id == NextUserId(us) &&
        forall j :: 0 <= j < |us| ==> us[j].id < u.id
  {
    var (u, us') := AddUser(us, name);
    if FindByName(us, name).None? {
      AllocateKeepsIncreasing(UserIds(us));
      assert UserIds(us') == UserIds(us) + [NextUserId(us)];
      FindByNameAppend(us, u);
    }
  }

  lemma {:induction false} FindByNameAppend(us: seq<User>, u: User)
    requires forall j :: 0 <= j < |us| ==> us[j].username != u.username
    ensures FindByName(us + [u], u.username) == Some(|us|)
  {
    if us != [] {
      assert (us + [u])[1..] == us[1..] + [u];
      FindByNameAppend(us[1..], u);
    }
  }

  /** Adding the same name twice yields the same user and the second call adds nothing. */
  lemma AddUserIdempotent(us: seq<User>, name: string)
    requires UsersValid(us)
    ensures var (u1, us1) := AddUser(us, name);
            var (u2, us2) := AddUser(us1, name);
            u2 == u1 && us2 == us1
  {
    AddUserSpec(us, name);
  }

  /** The first user added to the seeded store is numbered 2. */
  lemma FirstAddedUserIsTwo(name: string)
    requires name != "Admin"
    ensures AddUser(SeedUsers, name).0.id == 2
  {
    assert UserIds(SeedUsers) == [1];
    assert MaxId([1]) == 1 by { assert [1][..0] == []; }
  }
}
