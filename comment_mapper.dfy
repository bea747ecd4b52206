/** Conversions between the `Comment` entity and its transfer object. */
module CommentMapper {
  import opened Common
  import opened Model

  /** `toCommentDto`: copies id, text and creation time, and shows the author by
      name, or by the empty name when the comment has no author. */
  function ToCommentDto(c: Comment): (d: CommentDto)
    ensures d.id == c.id && d.text == c.text && d.created == c.created
    ensures c.author.None? ==> d.authorName == Some("")
    ensures c.author.Some? ==> d.authorName == c.author.value.name
  {
    CommentDto(c.id, c.text, if c.author.Some? then c.author.value.name else Some(""), c.created)
  }

  /** `fromCommentDto`: the comment on `item` written by `user`; a missing
      creation time becomes `now`, the moment of the call. */
  function FromCommentDto(d: CommentDto, item: Item, user: User, now: int): (c: Comment)
    ensures c.id == d.id && c.text == d.text && c.item == item && c.author == Some(user)
    ensures d.created.Some? ==> c.created == d.created
    ensures d.created.None? ==> c.created == Some(now)
  {
    Comment(d.id, d.text, item, Some(user), Some(d.created.GetOr(now)))
  }

  /** `toCommentsDto`: each comment converted, in the same order. */
  function ToCommentsDto(cs: seq<Comment>): (ds: seq<CommentDto>)
    ensures |ds| == |cs|
    ensures forall k :: 0 <= k < |cs| ==> ds[k] == ToCommentDto(cs[k])
  {
    if cs == [] then [] else [ToCommentDto(cs[0])] + ToCommentsDto(cs[1..])
  }

  /** A comment built from a transfer object shows, converted back, the same id
      and text, its author's name and a creation time. */
  lemma CommentRoundTrip(d: CommentDto, item: Item, user: User, now: int)
    ensures ToCommentDto(FromCommentDto(d, item, user, now)) ==
            d.(authorName := user.name, created := Some(d.created.GetOr(now)))
  {
  }
}
