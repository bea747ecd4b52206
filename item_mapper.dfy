/** Conversions between the `Item` entity and its transfer objects. */
module ItemMapper {
  import opened Common
  import opened Model
  import CommentMapper

  /** `toItemDto`: copies id, name, description and availability, and names the
      request by its id, or by nothing when the item answers no request. */
  function ToItemDto(i: Item): (d: ItemDto)
    ensures d.id == i.id && d.name == i.name && d.description == i.description
    ensures d.available == Some(i.available)
    ensures i.request.None? ==> d.requestId.None?
    ensures i.request.Some? ==> d.requestId == i.request.value.id
  {
    ItemDto(i.id, i.name, i.description, Some(i.available),
            if i.request.Some? then i.request.value.id else None)
  }

  /** `toItemsDto`: each item converted, in the same order. */
  function ToItemsDto(items: seq<Item>): (ds: seq<ItemDto>)
    ensures |ds| == |items|
    ensures forall k :: 0 <= k < |items| ==> ds[k] == ToItemDto(items[k])
  {
    if items == [] then [] else [ToItemDto(items[0])] + ToItemsDto(items[1..])
  }

  /** `fromItemDto(itemDto, userId, request)`: the item owned by `userId` that
      answers `request`. An absent availability reads as `false`. */
  function FromItemDto(d: ItemDto, userId: int, request: Option<ItemRequest>): (i: Item)
    ensures i.id == d.id && i.name == d.name && i.description == d.description
    ensures i.available <==> d.available == Some(true)
    ensures i.ownerId == userId && i.request == request
  {
    Item(d.id, d.name, d.description, d.available.GetOr(false), userId, request)
  }

  /** `fromItemDto(itemDto, userId)`: as above, with no request. */
  function FromItemDtoWithoutRequest(d: ItemDto, userId: int): (i: Item)
    ensures i == FromItemDto(d, userId, None)
    ensures i.ownerId == userId && i.request.None?
  {
    FromItemDto(d, userId, None)
  }

  /** An item survives the trip through its transfer object and back when it is
      given its owner and its request again; without them it loses the request. */
  lemma ItemRoundTrip(i: Item)
    ensures FromItemDto(ToItemDto(i), i.ownerId, i.request) == i
    ensures FromItemDtoWithoutRequest(ToItemDto(i), i.ownerId) == i.(request := None)
  {
  }

  /** A transfer object with a stated availability survives the trip through the
      entity and back when the request given has the id it names. */
  lemma ItemDtoRoundTrip(d: ItemDto, userId: int, request: Option<ItemRequest>)
    requires d.available.Some?
    requires request.None? ==> d.requestId.None?
    requires request.Some? ==> request.value.id == d.requestId
    ensures ToItemDto(FromItemDto(d, userId, request)) == d
  {
  }

  /** `ItemGetDto.BookingDto.of(id, booker id, start, end)` for a present booking. */
  function ToShortBooking(b: Option<Booking>): (r: Option<BookingShortDto>)
    ensures b.None? <==> r.None?
    ensures b.Some? ==> r.value.id == b.value.id && r.value.bookerId == b.value.booker.id &&
                        r.value.start == b.value.start && r.value.end == b.value.end
  {
    match b
    case None => None
    case Some(v) => Some(BookingShortDto(v.id, v.booker.id, v.start, v.end))
  }

  /** `toItemGetDto`: the item's own fields, its last and next booking in short
      form (absent when there is none) and its comments in order. */
  function ToItemGetDto(i: Item, last: Option<Booking>, next: Option<Booking>,
                        comments: seq<Comment>): (g: ItemGetDto)
    ensures g.id == i.id && g.name == i.name && g.description == i.description
    ensures g.available == i.available
    ensures g.lastBooking == ToShortBooking(last) && g.nextBooking == ToShortBooking(next)
    ensures |g.comments| == |comments|
    ensures forall k :: 0 <= k < |comments| ==> g.comments[k] == CommentMapper.ToCommentDto(comments[k])
  {
    ItemGetDto(i.id, i.name, i.description, i.available, ToShortBooking(last), ToShortBooking(next),
               CommentMapper.ToCommentsDto(comments))
  }
}
