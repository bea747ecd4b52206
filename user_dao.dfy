/** The in-memory user table of the storage generation (`UserDaoImpl`): a
    `TempStorage` of users that refuses an email another user already has. */
module UserDao {
  import opened Common
  import opened Model
  import opened Storage

  /** The test `checkDuplicateEmail` applies to each stored user `u`: same email
      (two absent emails are equal), different id. */
  predicate Clashes(u: User, user: User) {
    u.email == user.email && u.id != user.id
  }

  class UserDao {
    const store: TempStorage<User>

    /** Besides the table's own invariant, every user sits under its own id. */
    ghost predicate Valid()
      reads this, store
    {
      store.Valid() && forall k :: k in store.storage ==> store.storage[k].id == Some(k)
    }

    constructor (isValid: User -> bool)
      ensures Valid() && fresh(store)
      ensures store.isValid == isValid && store.storage == map[] && store.counter == 0
    {
      store := new TempStorage(isValid);
    }

    /** `checkDuplicateEmail`: Conflict exactly when some stored user with another
        id has the same email. */
    function CheckDuplicateEmail(user: User): (r: Outcome)
      reads this, store
      requires Valid()
      ensures r.Failed? <==> exists k :: k in store.storage && Clashes(store.storage[k], user)
      ensures r.Failed? ==> r.error == Conflict
    {
      var all := store.GetAll();
      var clashing := Filter(all, (u: User) => Clashes(u, user));
      assert clashing != [] <==> exists k :: k in store.storage && Clashes(store.storage[k], user) by {
        if clashing != [] {
          assert clashing[0] in clashing;
          var i :| 0 <= i < |all| && all[i] == clashing[0];
          var k :| k in store.storage && store.storage[k] == all[i];
        }
        forall k | k in store.storage && Clashes(store.storage[k], user) ensures clashing != [] {
          assert store.storage[k] in clashing;
        }
      }
      if clashing == [] then Done else Failed(Conflict)
    }

    /** `getById`: the user stored under `id`, or NotFound. */
    function GetById(id: int): (r: Result<User>)
      reads this, store
      requires Valid()
      ensures r.Success? <==> id in store.storage
      ensures r.Success? ==> r.value == store.storage[id] && r.value.id == Some(id)
      ensures r.Failure? ==> r.error == NotFound
    {
      store.GetById(id)
    }

    /** `create`: the duplicate check runs on the incoming user, then the user
        is stored with the next id in place of its own, keeping name and email. */
    method Create(user: User) returns (r: Result<User>)
      requires Valid()
      modifies store
      ensures Valid()
      ensures old(CheckDuplicateEmail(user)).Failed? ==>
                r == Failure(Conflict) && store.storage == old(store.storage) && store.counter == old(store.counter)
      ensures old(CheckDuplicateEmail(user)) == Done ==>
                var created := User(Some(old(store.counter) + 1), user.name, user.email);
                if store.isValid(created) then
                  r == Success(created) && store.counter == old(store.counter) + 1 &&
                  store.counter !in old(store.storage) && store.storage == old(store.storage)[store.counter := created]
                else
                  r == Failure(Validation) && store.storage == old(store.storage) && store.counter == old(store.counter)
    {
      var c := CheckDuplicateEmail(user);
      if c.Failed? {
        return Failure(c.error);
      }
      var next := store.GetNext();
      r := store.Create(User(Some(next), user.name, user.email));
    }

    /** `update`: the duplicate check, then the user replaces the one stored
        under its own id; an absent id is BadRequest, a null id throws. */
    method Update(user: User) returns (r: Result<User>)
      requires Valid()
      modifies store
      ensures Valid()
      ensures store.counter == old(store.counter)
      ensures old(CheckDuplicateEmail(user)).Failed? ==> r == Failure(Conflict) && store.storage == old(store.storage)
      ensures old(CheckDuplicateEmail(user)) == Done && user.id.None? ==>
                r == Failure(InternalError) && store.storage == old(store.storage)
      ensures old(CheckDuplicateEmail(user)) == Done && user.id.Some? ==>
                if user.id.value !in old(store.storage) then
                  r == Failure(BadRequest) && store.storage == old(store.storage)
                else if !store.isValid(user) then
                  r == Failure(Validation) && store.storage == old(store.storage)
                else
                  r == Success(user) && store.storage == old(store.storage)[user.id.value := user]
    {
      var c := CheckDuplicateEmail(user);
      if c.Failed? {
        return Failure(c.error);
      }
      if user.id.None? {
        return Failure(InternalError);
      }
      r := store.Update(user.id.value, user);
    }

    /** `remove`: BadRequest for an absent id, otherwise that one user goes. */
    method Remove(id: int) returns (r: Outcome)
      requires Valid()
      modifies store
      ensures Valid()
      ensures store.counter == old(store.counter)
      ensures id !in old(store.storage) ==> r == Failed(BadRequest) && store.storage == old(store.storage)
      ensures id in old(store.storage) ==> r == Done && store.storage == old(store.storage) - {id}
    {
      r := store.Remove(id);
    }
  }

  /** A user may keep their own email on update, as long as no other user has it. */
  lemma OwnEmailAllowed(dao: UserDao, k: int, user: User)
    requires dao.Valid() && k in dao.store.storage
    requires user.id == Some(k) && user.email == dao.store.storage[k].email
    requires forall j :: j in dao.store.storage && j != k ==> dao.store.storage[j].email != user.email
    ensures dao.CheckDuplicateEmail(user) == Done
  {
  }

  /** The duplicate check on create looks at the incoming user's id, so a new user
      that carries the id of the stored user whose email it repeats is let through
      and stored under a fresh id beside it. */
  lemma CreateExcusesIncomingId(dao: UserDao, k: int, user: User)
    requires dao.Valid() && k in dao.store.storage
    requires user.id == Some(k) && user.email == dao.store.storage[k].email
    requires forall j :: j in dao.store.storage && j != k ==> dao.store.storage[j].email != user.email
    ensures dao.CheckDuplicateEmail(user) == Done
    ensures Clashes(dao.store.storage[k], User(Some(dao.store.GetNext()), user.name, user.email))
  {
    OwnEmailAllowed(dao, k, user);
  }
}
