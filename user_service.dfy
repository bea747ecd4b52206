/** The earlier generation's `UserServiceImpl` over its user table. */
module UserService {
  import opened Common
  import opened Model
  import UserMapper

  /** `patchUser`: the recipient's id, and each of name and email from the donor
      where the donor has one, from the recipient otherwise. */
  function PatchUser(recipient: UserDto, donor: UserDto): (p: UserDto)
    ensures p.id == recipient.id
    ensures p.name == (if donor.name.Some? then donor.name else recipient.name)
    ensures p.email == (if donor.email.Some? then donor.email else recipient.email)
  {
    UserDto(recipient.id, if donor.name.Some? then donor.name else recipient.name,
            if donor.email.Some? then donor.email else recipient.email)
  }

  /** A donor with no fields changes nothing; a donor with both fields replaces
      both; patching twice with the same donor is patching once. */
  lemma PatchUserLaws(recipient: UserDto, donor: UserDto)
    ensures PatchUser(recipient, donor.(name := None, email := None)) == recipient
    ensures donor.name.Some? && donor.email.Some? ==>
              PatchUser(recipient, donor) == donor.(id := recipient.id)
    ensures PatchUser(PatchUser(recipient, donor), donor) == PatchUser(recipient, donor)
  {
  }

  class UserService {
    /** Bean validation of a user transfer object (`ModelValidator<UserDto>`). */
    const isValid: UserDto -> bool
    var users: map<int, User>
    /** The last id the users table handed out. */
    var lastUserId: int

    /** Every user sits under its own id, which the table handed out. */
    ghost predicate Valid()
      reads this
    {
      lastUserId >= 0 && forall k :: k in users ==> 1 <= k <= lastUserId && users[k].id == Some(k)
    }

    constructor (isValid: UserDto -> bool)
      ensures Valid()
      ensures this.isValid == isValid && users == map[] && lastUserId == 0
    {
      this.isValid := isValid;
      users := map[];
      lastUserId := 0;
    }

    /** `checkUserId`: NotFound for an absent id. */
    function CheckUserId(id: int): (r: Outcome)
      reads this
      ensures r.Done? <==> id in users
      ensures r.Failed? ==> r.error == NotFound
    {
      if id in users then Done else Failed(NotFound)
    }

    /** `getAllUsers`: every user, in id order, and nothing else. */
    function GetAllUsers(): (r: seq<UserDto>)
      reads this
      requires Valid()
      ensures forall k :: k in users ==> UserMapper.ToUserDto(users[k]) in r
      ensures forall i :: 0 <= i < |r| ==>
                r[i].id.Some? && r[i].id.value in users && users[r[i].id.value] == UserMapper.FromUserDto(r[i])
    {
      var all := TableOrder(users, lastUserId);
      var r := UserMapper.ToUsersDto(all);
      forall k | k in users ensures UserMapper.ToUserDto(users[k]) in r {
        assert users[k] in all;
        var i :| 0 <= i < |all| && all[i] == users[k];
        assert r[i] == UserMapper.ToUserDto(users[k]);
      }
      forall i | 0 <= i < |r|
        ensures r[i].id.Some? && r[i].id.value in users && users[r[i].id.value] == UserMapper.FromUserDto(r[i])
      {
        var k :| 1 <= k <= lastUserId && k in users && users[k] == all[i];
      }
      r
    }

    /** `getUserById`: NotFound for an absent id, otherwise that user. */
    function GetUserById(id: int): (r: Result<UserDto>)
      reads this
      requires Valid()
      ensures r.Success? <==> id in users
      ensures r.Failure? ==> r.error == NotFound
      ensures r.Success? ==> r.value.id == Some(id) && UserMapper.FromUserDto(r.value) == users[id]
    {
      if CheckUserId(id).Failed? then Failure(NotFound) else Success(UserMapper.ToUserDto(users[id]))
    }

    /** `createUser`: validates the transfer object, then saves the user it
        describes under a fresh id; a rejected one saves nothing. */
    method CreateUser(dto: UserDto) returns (r: Result<UserDto>)
      requires Valid()
      modifies this
      ensures Valid()
      ensures !isValid(dto) ==> r == Failure(Validation) && users == old(users) && lastUserId == old(lastUserId)
      ensures isValid(dto) ==>
                var id := old(lastUserId) + 1;
                id !in old(users) && lastUserId == id &&
                users == old(users)[id := User(Some(id), dto.name, dto.email)] &&
                r == Success(dto.(id := Some(id)))
    {
      if !isValid(dto) {
        return Failure(Validation);
      }
      var id := lastUserId + 1;
      var saved := UserMapper.FromUserDto(dto).(id := Some(id));
      users := users[id := saved];
      lastUserId := id;
      r := Success(UserMapper.ToUserDto(saved));
    }

    /** `updateUser`: NotFound for an absent id; then the stored user patched
        with the transfer object is validated, not the transfer object itself,
        and replaces that one user. */
    method UpdateUser(id: int, dto: UserDto) returns (r: Result<UserDto>)
      requires Valid()
      modifies this`users
      ensures Valid()
      ensures id !in old(users) ==> r == Failure(NotFound) && users == old(users)
      ensures id in old(users) ==>
                var patched := PatchUser(UserMapper.ToUserDto(old(users)[id]), dto);
                if !isValid(patched) then
                  r == Failure(Validation) && users == old(users)
                else
                  r == Success(patched) && patched.id == Some(id) &&
                  users == old(users)[id := UserMapper.FromUserDto(patched)]
    {
      if CheckUserId(id).Failed? {
        return Failure(NotFound);
      }
      var recipient := UserMapper.ToUserDto(users[id]);
      var patched := PatchUser(recipient, dto);
      if !isValid(patched) {
        return Failure(Validation);
      }
      var saved := UserMapper.FromUserDto(patched);
      users := users[id := saved];
      r := Success(UserMapper.ToUserDto(saved));
    }

    /** `removeUser`: NotFound for an absent id, otherwise exactly that user goes. */
    method RemoveUser(id: int) returns (r: Outcome)
      requires Valid()
      modifies this`users
      ensures Valid()
      ensures id !in old(users) ==> r == Failed(NotFound) && users == old(users)
      ensures id in old(users) ==> r == Done && users == old(users) - {id}
    {
      r := CheckUserId(id);
      if r.Failed? {
        return;
      }
      users := users - {id};
    }

    /** `getAllUsers` lists each user once: as many entries as users, no two
        with the same id. */
    lemma GetAllUsersOnce()
      requires Valid()
      ensures |GetAllUsers()| == |users|
      ensures var r := GetAllUsers(); forall a, b :: 0 <= a < b < |r| ==> r[a].id != r[b].id
    {
      var all := TableOrder(users, lastUserId);
      var r := GetAllUsers();
      TableOrderOnce(users, lastUserId);
      forall a, b | 0 <= a < b < |r| ensures r[a].id != r[b].id {
        var ka :| 1 <= ka <= lastUserId && ka in users && users[ka] == all[a];
        var kb :| 1 <= kb <= lastUserId && kb in users && users[kb] == all[b];
        assert r[a].id == Some(ka) && r[b].id == Some(kb);
      }
    }
  }
}
