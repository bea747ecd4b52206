/** Conversions between the `User` entity and its transfer object. */
module UserMapper {
  import opened Common
  import opened Model

  /** `toUserDto`: copies id, name and e-mail. */
  function ToUserDto(u: User): (d: UserDto)
    ensures d.id == u.id && d.name == u.name && d.email == u.email
  {
    UserDto(u.id, u.name, u.email)
  }

  /** `fromUserDto`: copies id, name and e-mail. */
  function FromUserDto(d: UserDto): (u: User)
    ensures u.id == d.id && u.name == d.name && u.email == d.email
  {
    User(d.id, d.name, d.email)
  }

  /** `toUsersDto`: each user converted, in the same order. */
  function ToUsersDto(us: seq<User>): (ds: seq<UserDto>)
    ensures |ds| == |us|
    ensures forall i :: 0 <= i < |us| ==> ds[i] == ToUserDto(us[i])
  {
    if us == [] then [] else [ToUserDto(us[0])] + ToUsersDto(us[1..])
  }

  /** The two conversions are inverse to each other. */
  lemma UserRoundTrip(u: User, d: UserDto)
    ensures FromUserDto(ToUserDto(u)) == u
    ensures ToUserDto(FromUserDto(d)) == d
  {
  }
}
