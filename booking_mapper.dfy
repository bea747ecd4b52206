/** Conversions between the `Booking` entity and its transfer object. */
module BookingMapper {
  import opened Common
  import opened Model
  import UserMapper
  import ItemMapper

  /** `toBookingDto`: `null` for `null`; otherwise copies id, period and status,
      converts booker and item, and leaves `itemId` empty. */
  function ToBookingDto(b: Option<Booking>): (d: Option<BookingDto>)
    ensures b.None? <==> d.None?
    ensures b.Some? ==> var v, w := b.value, d.value;
      w.id == v.id && w.start == v.start && w.end == v.end && w.status == Some(v.status) &&
      w.booker == Some(UserMapper.ToUserDto(v.booker)) && w.item == Some(ItemMapper.ToItemDto(v.item)) &&
      w.itemId.None?
  {
    match b
    case None => None
    case Some(v) =>
      Some(BookingDto(v.id, v.start, v.end, Some(v.status), Some(UserMapper.ToUserDto(v.booker)),
                      Some(ItemMapper.ToItemDto(v.item)), None))
  }

  /** `toBookingsDto`: each booking converted, in the same order. */
  function ToBookingsDto(bs: seq<Booking>): (ds: seq<BookingDto>)
    ensures |ds| == |bs|
    ensures forall k :: 0 <= k < |bs| ==> Some(ds[k]) == ToBookingDto(Some(bs[k]))
  {
    if bs == [] then [] else [ToBookingDto(Some(bs[0])).value] + ToBookingsDto(bs[1..])
  }

  /** `fromBookingDto(bookingDto, userDto, itemDto)`: copies id and period, makes
      the user the booker, builds the item from `itemDto` with the booker's id as
      its owner and no request, and keeps a present status or starts at WAITING. */
  function FromBookingDto(d: BookingDto, user: UserDto, item: ItemDto): (b: Booking)
    ensures b.id == d.id && b.start == d.start && b.end == d.end
    ensures b.booker == UserMapper.FromUserDto(user)
    ensures b.item == ItemMapper.FromItemDtoWithoutRequest(item, user.id.GetOr(0))
    ensures d.status.Some? ==> b.status == d.status.value
    ensures d.status.None? ==> b.status == WAITING
  {
    Booking(d.id, d.start, d.end, ItemMapper.FromItemDtoWithoutRequest(item, user.id.GetOr(0)),
            UserMapper.FromUserDto(user), d.status.GetOr(WAITING))
  }

  /** Converting a booking built from a transfer object gives back the id, the
      period, the booker and the item of the conversion, with the status made explicit. */
  lemma BookingRoundTrip(d: BookingDto, user: UserDto, item: ItemDto)
    requires item.available.Some? && item.requestId.None?
    ensures ToBookingDto(Some(FromBookingDto(d, user, item))) ==
            Some(d.(status := Some(d.status.GetOr(WAITING)), booker := Some(user), item := Some(item),
                    itemId := None))
  {
    UserMapper.UserRoundTrip(UserMapper.FromUserDto(user), user);
    ItemMapper.ItemDtoRoundTrip(item, user.id.GetOr(0), None);
  }
}
