/** The booking service of the earlier generation (`BookingServiceImpl` of the
    single-application version). It follows the same rules as the final one,
    with three differences: creation also rejects a booking that ends before it
    starts, an unknown state is answered with a fixed BadRequest, and listings
    are not paged. */
module LegacyBookingService {
  import opened Common
  import opened Model
  import BookingStates
  import opened BookingStore
  import opened BookingRepository
  import BookingMapper
  import BookingService

  /** The fixed message of `convertState`, which does not repeat the input. */
  const UnknownState := "Unknown state: UNSUPPORTED_STATUS"

  /** `convertState`: `valueOf`, with its exception turned into BadRequest. */
  function ConvertState(state: string): (r: Result<BookingStates.BookingState>)
    ensures r.Success? <==> exists v: BookingStates.BookingState :: BookingStates.Name(v) == state
    ensures r.Success? ==> BookingStates.Name(r.value) == state
    ensures r.Failure? ==> r.error == UnsupportedState(UnknownState)
  {
    match BookingStates.ValueOf(state)
    case Some(v) => Success(v)
    case None => Failure(UnsupportedState(UnknownState))
  }

  /** What `createBooking` does before saving: the user, then the item, then the
      period (ValidationException when the end is strictly before the start),
      then the owner and the availability as in the final generation. */
  function Creation(users: map<int, User>, items: map<int, Item>, dto: BookingDto, userId: int)
    : (r: Result<Booking>)
    requires userId in users ==> users[userId].id == Some(userId)
    ensures userId !in users ==> r == Failure(NotFound)
    ensures userId in users && dto.itemId.None? ==> r == Failure(InternalError)
    ensures userId in users && dto.itemId.Some? && dto.itemId.value !in items ==> r == Failure(NotFound)
    ensures (userId in users && dto.itemId.Some? && dto.itemId.value in items && dto.end < dto.start) ==>
            r == Failure(Validation)
    ensures dto.start <= dto.end ==> r == BookingService.Creation(users, items, dto, userId)
    ensures r.Success? <==> BookingService.Creation(users, items, dto, userId).Success? && dto.start <= dto.end
  {
    if userId !in users then Failure(NotFound)
    else if dto.itemId.None? then Failure(InternalError)   // existsById(null)
    else if dto.itemId.value !in items then Failure(NotFound)
    else if dto.end < dto.start then Failure(Validation)
    else BookingService.Creation(users, items, dto, userId)
  }

  /** An unpaged query: the whole result on one page. */
  function Unpaged(bs: seq<Booking>): Pageable { Pageable(0, |bs|) }

  class LegacyBookingService {
    const users: map<int, User>
    const items: map<int, Item>
    var bookings: map<int, BookingRow>
    var lastBookingId: int

    ghost predicate Valid()
      reads this
    {
      Consistent(users, items, bookings, lastBookingId) && lastBookingId >= 0
    }

    constructor (users: map<int, User>, items: map<int, Item>)
      requires Consistent(users, items, map[], 0)
      ensures Valid()
      ensures this.users == users && this.items == items && bookings == map[] && lastBookingId == 0
    {
      this.users := users;
      this.items := items;
      bookings := map[];
      lastBookingId := 0;
    }

    /** `checkUser`. */
    function CheckUser(userId: int): (r: Outcome)
      reads this
      ensures r == Done <==> userId in users
      ensures r.Failed? ==> r.error == NotFound
    {
      if userId in users then Done else Failed(NotFound)
    }

    function AllBookings(): (bs: seq<Booking>)
      reads this
      requires Valid()
      ensures forall k :: k in bookings ==> Load(users, items, bookings[k]) in bs
      ensures forall i :: 0 <= i < |bs| ==> Loaded(users, items, bookings, bs[i])
    {
      LoadAll(users, items, bookings, lastBookingId)
    }

    /** `createBooking`: on success, saves exactly one new booking under a fresh
        id and returns it; on failure, saves nothing. */
    method CreateBooking(dto: BookingDto, userId: int) returns (r: Result<BookingDto>)
      requires Valid()
      modifies this
      ensures Valid()
      ensures Creation(users, items, dto, userId).Failure? ==>
        r == Failure(Creation(users, items, dto, userId).error) &&
        bookings == old(bookings) && lastBookingId == old(lastBookingId)
      ensures Creation(users, items, dto, userId).Success? ==>
        var b := Creation(users, items, dto, userId).value;
        var id := old(lastBookingId) + 1;
        id !in old(bookings) && lastBookingId == id &&
        bookings == old(bookings)[id := BookingRow(id, b.start, b.end, b.item.id, userId, b.status)] &&
        r.Success? && Some(r.value) == BookingMapper.ToBookingDto(Some(b.(id := Some(id))))
    {
      var c := Creation(users, items, dto, userId);
      if c.Failure? {
        return Failure(c.error);
      }
      var b := c.value;
      var id := lastBookingId + 1;
      assert b.item.id == dto.itemId.value && b.item.id in items && userId in users;
      bookings := bookings[id := BookingRow(id, b.start, b.end, b.item.id, userId, b.status)];
      lastBookingId := id;
      r := Success(BookingMapper.ToBookingDto(Some(b.(id := Some(id)))).value);
    }

    /** `approveRejectBooking`: the same checks and the same change as in the
        final generation. */
    method ApproveRejectBooking(bookingId: int, userId: int, approved: bool) returns (r: Result<BookingDto>)
      requires Valid()
      modifies this
      ensures Valid()
      ensures lastBookingId == old(lastBookingId)
      ensures old(BookingService.Approval(users, items, bookings, lastBookingId, bookingId, userId, approved)).Failure? ==>
        r == Failure(old(BookingService.Approval(users, items, bookings, lastBookingId, bookingId, userId, approved)).error) &&
        bookings == old(bookings)
      ensures old(BookingService.Approval(users, items, bookings, lastBookingId, bookingId, userId, approved)).Success? ==>
        var row := old(BookingService.Approval(users, items, bookings, lastBookingId, bookingId, userId, approved)).value;
        bookings == old(bookings)[bookingId := row] &&
        r.Success? && Some(r.value) == BookingMapper.ToBookingDto(Some(Load(users, items, row)))
    {
      var a := BookingService.Approval(users, items, bookings, lastBookingId, bookingId, userId, approved);
      if a.Failure? {
        return Failure(a.error);
      }
      bookings := bookings[bookingId := a.value];
      r := Success(BookingMapper.ToBookingDto(Some(Load(users, items, a.value))).value);
    }

    /** `getBookingById`: the same rule as in the final generation. */
    function GetBookingById(bookingId: int, userId: int): (r: Result<BookingDto>)
      reads this
      requires Valid()
      ensures r == BookingService.View(users, items, bookings, lastBookingId, bookingId, userId)
    {
      BookingService.View(users, items, bookings, lastBookingId, bookingId, userId)
    }

    /** `getAllBookingsByBookerAndState`: every booking of the user in that
        state, latest start first, unpaged. */
    function GetAllBookingsByBookerAndState(userId: int, state: string, now: int): (r: Result<seq<BookingDto>>)
      reads this
      requires Valid()
      ensures userId !in users ==> r == Failure(NotFound)
      ensures userId in users && ConvertState(state).Failure? ==> r == Failure(UnsupportedState(UnknownState))
      ensures r.Success? <==> userId in users && ConvertState(state).Success?
      ensures r.Success? ==> r.value == BookingMapper.ToBookingsDto(
        BookingService.BookerQuery(AllBookings(), users[userId], ConvertState(state).value, now, Unpaged(AllBookings())))
    {
      if userId !in users then Failure(NotFound)
      else
        var st := ConvertState(state);
        if st.Failure? then Failure(st.error)
        else
          var all := AllBookings();
          Success(BookingMapper.ToBookingsDto(BookingService.BookerQuery(all, users[userId], st.value, now, Unpaged(all))))
    }

    /** `getAllBookingsByOwnerAndState`: every booking of the user's items in
        that state, latest start first, unpaged. */
    function GetAllBookingsByOwnerAndState(userId: int, state: string, now: int): (r: Result<seq<BookingDto>>)
      reads this
      requires Valid()
      ensures userId !in users ==> r == Failure(NotFound)
      ensures userId in users && ConvertState(state).Failure? ==> r == Failure(UnsupportedState(UnknownState))
      ensures r.Success? <==> userId in users && ConvertState(state).Success?
      ensures r.Success? ==> r.value == BookingMapper.ToBookingsDto(
        BookingService.OwnerQuery(AllBookings(), userId, ConvertState(state).value, now, Unpaged(AllBookings())))
    {
      if userId !in users then Failure(NotFound)
      else
        var st := ConvertState(state);
        if st.Failure? then Failure(st.error)
        else
          var all := AllBookings();
          Success(BookingMapper.ToBookingsDto(BookingService.OwnerQuery(all, userId, st.value, now, Unpaged(all))))
    }
  }

  /** Unpaged, a listing holds exactly the bookings in that state: all of its
      entries match, every matching booking appears, and the listing is the
      whole selection, latest start first. */
  lemma {:induction false} UnpagedQueryIsExact(bs: seq<Booking>, ownerId: int, st: BookingStates.BookingState,
                                               now: int, b: Booking)
    ensures var r := BookingService.OwnerQuery(bs, ownerId, st, now, Unpaged(bs));
      r == Ordered(bs, BookingService.OwnerSelects(ownerId, st, now), StartDescending) &&
      (b in r <==> b in bs && OwnedBy(b, ownerId) && BookingService.InState(b, st, now))
  {
    var o := Ordered(bs, BookingService.OwnerSelects(ownerId, st, now), StartDescending);
    var r := BookingService.OwnerQuery(bs, ownerId, st, now, Unpaged(bs));
    PageProperties(r, o, Unpaged(bs), StartDescending);
  }
}
