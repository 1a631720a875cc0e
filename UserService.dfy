/** `UserService` (src/services/userService.ts) against an in-memory `users`
    collection. `getAllUsers` and `getUserById` are functions of the
    collection's contents; `updateUserById` and `deleteUserById` are methods
    that change it. */
module UserService {
  import opened Wrappers
  import opened Errors
  import opened Records
  import opened Pagination
  import opened Collaborators
  import opened UserModel

  const InvalidUserId: ServiceError := ValidationError("Invalid user Id")
  const UserNotFound: ServiceError := NotFoundError("User not found")

  /** `getAllUsers(page = 1, limit = 1)`: the page of all users in store order,
      with the total count and `Math.ceil(total / limit)` pages. An argument
      the caller leaves out is `None`. */
  function GetAllUsers(users: seq<User>, page: Option<int>, limit: Option<int>): (r: Listing<User>)
    requires page.GetOr(1) >= 1 && limit.GetOr(1) >= 1
    ensures var p, l := page.GetOr(1), limit.GetOr(1);
      && |r.items| <= l
      && |r.items| == (if (p - 1) * l >= |users| then 0 else Min(l, |users| - (p - 1) * l))
      && (forall k :: 0 <= k < |r.items| ==> r.items[k] == users[(p - 1) * l + k])
      && r.pagination == PageInfo(|users|, p, l, CeilDiv(|users|, l))
  {
    Paginate(users, page.GetOr(1), limit.GetOr(1))
  }

  /** `getUserById`: the identifier is checked before the store is read. */
  function GetUserById(users: seq<User>, id: string, isValidId: IdCheck): (r: Result<User, ServiceError>)
    ensures !isValidId(id) ==> r == Failure(InvalidUserId)
    ensures isValidId(id) && id !in Ids(users) ==> r == Failure(UserNotFound)
    ensures isValidId(id) && id in Ids(users) ==> r.Success? && r.value in users && r.value.id == id
  {
    if !isValidId(id) then Failure(InvalidUserId)
    else
      match IndexOf(Ids(users), id)
      case None => Failure(UserNotFound)
      case Some(i) => Success(users[i])
  }

  /** The request body of an update: `{name?, password?}`. */
  datatype UserData = UserData(name: Option<string>, password: Option<string>)

  /** The `updateData` object `updateUserById` builds: a field is copied only
      when it was supplied and is truthy (a non-empty string). */
  function UpdateData(data: UserData): (patch: UserData)
    ensures patch.name.Some? <==> data.name.Some? && data.name.value != []
    ensures patch.name.Some? ==> patch.name == data.name
    ensures patch.password.Some? <==> data.password.Some? && data.password.value != []
    ensures patch.password.Some? ==> patch.password == data.password
  {
    var withName := if data.name.Some? && data.name.value != [] then UserData(data.name, None) else UserData(None, None);
    if data.password.Some? && data.password.value != [] then withName.(password := data.password) else withName
  }

  /** The user after `findByIdAndUpdate(id, updateData, {new: true})`. The
      password is stored exactly as supplied, without hashing, and update
      validators do not run. */
  function PatchedUser(u: User, patch: UserData): (v: User)
    ensures v.id == u.id && v.email == u.email && v.role == u.role
    ensures v.name == patch.name.GetOr(u.name)
    ensures v.password == patch.password.GetOr(u.password)
  {
    u.(name := patch.name.GetOr(u.name), password := patch.password.GetOr(u.password))
  }

  /** An update whose body supplies no non-empty field leaves the user as it was. */
  lemma EmptyUpdateChangesNothing(u: User, data: UserData)
    requires data.name.None? || data.name.value == []
    requires data.password.None? || data.password.value == []
    ensures PatchedUser(u, UpdateData(data)) == u
  {
  }

  /** `updateUserById(id, data)`: identifier check, then the patch built by
      UpdateData; email and role never change, other users are untouched. */
  method UpdateUserById(store: UserCollection, id: string, data: UserData, isValidId: IdCheck)
    returns (r: Result<User, ServiceError>)
    requires store.Valid()
    modifies store
    ensures store.Valid()
    ensures !isValidId(id) ==> r == Failure(InvalidUserId) && store.users == old(store.users)
    ensures isValidId(id) && id !in Ids(old(store.users)) ==>
      r == Failure(UserNotFound) && store.users == old(store.users)
    ensures isValidId(id) && id in Ids(old(store.users)) ==>
      var i := IndexOf(Ids(old(store.users)), id).value;
      && r == Success(PatchedUser(old(store.users)[i], UpdateData(data)))
      && store.users == old(store.users)[i := r.value]
  {
    if !isValidId(id) {
      return Failure(InvalidUserId);
    }
    var updateData := UserData(None, None);
    if data.name.Some? && data.name.value != [] {
      updateData := updateData.(name := data.name);
    }
    if data.password.Some? && data.password.value != [] {
      updateData := updateData.(password := data.password);
    }
    match IndexOf(Ids(store.users), id) {
      case None =>
        return Failure(UserNotFound);
      case Some(i) =>
        var updated := PatchedUser(store.users[i], updateData);
        assert Ids(store.users[i := updated]) == Ids(store.users);
        assert Emails(store.users[i := updated]) == Emails(store.users);
        store.users := store.users[i := updated];
        r := Success(updated);
    }
  }

  /** `deleteUserById(id)`: identifier check, then removal; the removed user
      is returned and the others keep their order. */
  method DeleteUserById(store: UserCollection, id: string, isValidId: IdCheck)
    returns (r: Result<User, ServiceError>)
    requires store.Valid()
    modifies store
    ensures store.Valid()
    ensures !isValidId(id) ==> r == Failure(InvalidUserId) && store.users == old(store.users)
    ensures isValidId(id) && id !in Ids(old(store.users)) ==>
      r == Failure(UserNotFound) && store.users == old(store.users)
    ensures isValidId(id) && id in Ids(old(store.users)) ==>
      var i := IndexOf(Ids(old(store.users)), id).value;
      && r == Success(old(store.users)[i])
      && store.users == RemoveAt(old(store.users), i)
  {
    if !isValidId(id) {
      return Failure(InvalidUserId);
    }
    match IndexOf(Ids(store.users), id) {
      case None =>
        return Failure(UserNotFound);
      case Some(i) =>
        var removed := store.users[i];
        DeleteKeepsOthers(store.users, i);
        store.users := RemoveAt(store.users, i);
        r := Success(removed);
    }
  }

  /** Deleting position i of a well-formed collection leaves a well-formed
      collection without that identifier and with every other user. */
  lemma DeleteKeepsOthers(users: seq<User>, i: nat)
    requires Distinct(Ids(users)) && Distinct(Emails(users)) && i < |users|
    requires forall j :: 0 <= j < |users| ==> users[j].id != []
    ensures Distinct(Ids(RemoveAt(users, i))) && Distinct(Emails(RemoveAt(users, i)))
    ensures users[i].id !in Ids(RemoveAt(users, i))
    ensures multiset(RemoveAt(users, i)) + multiset{users[i]} == multiset(users)
    ensures forall j :: 0 <= j < |RemoveAt(users, i)| ==> RemoveAt(users, i)[j].id != []
  {
    assert Ids(RemoveAt(users, i)) == RemoveAt(Ids(users), i);
    assert Emails(RemoveAt(users, i)) == RemoveAt(Emails(users), i);
    DistinctRemoveAt(Ids(users), i);
    DistinctRemoveAt(Emails(users), i);
    RemoveAtMultiset(users, i);
  }
}
