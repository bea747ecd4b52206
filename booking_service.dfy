/** The booking service of the final generation (`BookingServiceImpl` of the
    server): it creates bookings, lets the owner decide on them, shows one
    booking and lists bookings by state, a page at a time. */
module BookingService {
  import opened Common
  import opened Model
  import BookingStates
  import opened BookingStore
  import opened BookingRepository
  import BookingMapper
  import UserMapper
  import ItemMapper

  /** A booking is in state `st` at time `now`. The time-based states ignore the
      status; WAITING and REJECTED look at the status only. */
  predicate InState(b: Booking, st: BookingStates.BookingState, now: int) {
    match st
    case ALL => true
    case CURRENT => IsCurrent(b, now)
    case FUTURE => StartsAfter(b, now)
    case PAST => EndsBefore(b, now)
    case WAITING => b.status == BookingStatus.WAITING
    case REJECTED => b.status == BookingStatus.REJECTED
  }

  /** The bookings a booker's listing in state `st` selects. */
  function BookerSelects(booker: User, st: BookingStates.BookingState, now: int): Booking -> bool {
    (b: Booking) => BookedBy(b, booker) && InState(b, st, now)
  }

  /** The bookings an owner's listing in state `st` selects. */
  function OwnerSelects(ownerId: int, st: BookingStates.BookingState, now: int): Booking -> bool {
    (b: Booking) => OwnedBy(b, ownerId) && InState(b, st, now)
  }

  /** Two selections that agree on every booking pick the same bookings in the
      same order. */
  lemma SameSelection(bs: seq<Booking>, p: Booking -> bool, q: Booking -> bool)
    requires forall b :: b in bs ==> p(b) == q(b)
    ensures Filter(bs, p) == Filter(bs, q)
    ensures Ordered(bs, p, StartDescending) == Ordered(bs, q, StartDescending)
  {
    FilterAgrees(bs, p, q);
    OrderedAgrees(bs, p, q, StartDescending);
  }

  /** Converting each booking commutes with paging. */
  lemma DtosOfPage(r: seq<Booking>, o: seq<Booking>, pg: Pageable)
    requires IsPage(r, o, pg)
    ensures IsPage(BookingMapper.ToBookingsDto(r), BookingMapper.ToBookingsDto(o), pg)
  {
    PageConverted(r, o, pg, BookingMapper.ToBookingsDto(r), BookingMapper.ToBookingsDto(o),
                  (b: Booking) => BookingMapper.ToBookingDto(Some(b)).value);
  }

  /** The `switch` of `getAllBookingsByBookerAndState`: each state sent to its
      query, which returns page `pg` of the booker's bookings in that state,
      latest start first. */
  function BookerQuery(bs: seq<Booking>, booker: User, st: BookingStates.BookingState, now: int, pg: Pageable)
    : (r: seq<Booking>)
    ensures IsPage(r, Ordered(bs, BookerSelects(booker, st, now), StartDescending), pg)
    ensures forall b :: b in r ==> b in bs && BookedBy(b, booker) && InState(b, st, now)
    ensures pg.page == 0 && |Filter(bs, BookerSelects(booker, st, now))| <= pg.size ==>
      forall b :: b in bs && BookedBy(b, booker) && InState(b, st, now) ==> b in r
    ensures forall i, j :: 0 <= i < j < |r| ==> r[i].start >= r[j].start
    ensures |r| <= pg.size
  {
    var q := BookerSelects(booker, st, now);
    match st
    case ALL =>
      SameSelection(bs, (b: Booking) => BookedBy(b, booker), q);
      FindAllByBooker(bs, booker, pg)
    case CURRENT =>
      SameSelection(bs, (b: Booking) => BookedBy(b, booker) && IsCurrent(b, now), q);
      FindAllByBookerStateCurrent(bs, booker, now, pg)
    case FUTURE =>
      SameSelection(bs, (b: Booking) => BookedBy(b, booker) && StartsAfter(b, now), q);
      FindAllByBookerAndStartAfter(bs, booker, now, pg)
    case PAST =>
      SameSelection(bs, (b: Booking) => BookedBy(b, booker) && EndsBefore(b, now), q);
      FindAllByBookerAndEndBefore(bs, booker, now, pg)
    case WAITING =>
      SameSelection(bs, (b: Booking) => BookedBy(b, booker) && b.status == BookingStatus.WAITING, q);
      FindAllByBookerAndStatus(bs, booker, BookingStatus.WAITING, pg)
    case REJECTED =>
      SameSelection(bs, (b: Booking) => BookedBy(b, booker) && b.status == BookingStatus.REJECTED, q);
      FindAllByBookerAndStatus(bs, booker, BookingStatus.REJECTED, pg)
  }

  /** The `switch` of `getAllBookingsByOwnerAndState`. */
  function OwnerQuery(bs: seq<Booking>, ownerId: int, st: BookingStates.BookingState, now: int, pg: Pageable)
    : (r: seq<Booking>)
    ensures IsPage(r, Ordered(bs, OwnerSelects(ownerId, st, now), StartDescending), pg)
    ensures forall b :: b in r ==> b in bs && OwnedBy(b, ownerId) && InState(b, st, now)
    ensures pg.page == 0 && |Filter(bs, OwnerSelects(ownerId, st, now))| <= pg.size ==>
      forall b :: b in bs && OwnedBy(b, ownerId) && InState(b, st, now) ==> b in r
    ensures forall i, j :: 0 <= i < j < |r| ==> r[i].start >= r[j].start
    ensures |r| <= pg.size
  {
    var q := OwnerSelects(ownerId, st, now);
    match st
    case ALL =>
      SameSelection(bs, (b: Booking) => OwnedBy(b, ownerId), q);
      FindAllByItemOwnerId(bs, ownerId, pg)
    case CURRENT =>
      SameSelection(bs, (b: Booking) => OwnedBy(b, ownerId) && IsCurrent(b, now), q);
      FindAllByItemOwnerIdStateCurrent(bs, ownerId, now, pg)
    case FUTURE =>
      SameSelection(bs, (b: Booking) => OwnedBy(b, ownerId) && StartsAfter(b, now), q);
      FindAllByItemOwnerIdAndStartAfter(bs, ownerId, now, pg)
    case PAST =>
      SameSelection(bs, (b: Booking) => OwnedBy(b, ownerId) && EndsBefore(b, now), q);
      FindAllByItemOwnerIdAndEndBefore(bs, ownerId, now, pg)
    case WAITING =>
      SameSelection(bs, (b: Booking) => OwnedBy(b, ownerId) && b.status == BookingStatus.WAITING, q);
      FindAllByItemOwnerIdAndStatus(bs, ownerId, BookingStatus.WAITING, pg)
    case REJECTED =>
      SameSelection(bs, (b: Booking) => OwnedBy(b, ownerId) && b.status == BookingStatus.REJECTED, q);
      FindAllByItemOwnerIdAndStatus(bs, ownerId, BookingStatus.REJECTED, pg)
  }

  /** What `createBooking` does before saving: checks the user, the item, that
      the user does not own it, and that it is available, in this order; then
      the booking the mapper builds, which is the one saved. */
  function Creation(users: map<int, User>, items: map<int, Item>, dto: BookingDto, userId: int)
    : (r: Result<Booking>)
    requires userId in users ==> users[userId].id == Some(userId)
    ensures userId !in users ==> r == Failure(NotFound)
    ensures userId in users && dto.itemId.None? ==> r == Failure(InternalError)
    ensures userId in users && dto.itemId.Some? && dto.itemId.value !in items ==> r == Failure(NotFound)
    ensures (userId in users && dto.itemId.Some? && dto.itemId.value in items &&
             items[dto.itemId.value].ownerId == userId) ==> r == Failure(NotFound)
    ensures (userId in users && dto.itemId.Some? && dto.itemId.value in items &&
             items[dto.itemId.value].ownerId != userId && !items[dto.itemId.value].available) ==>
            r == Failure(BadRequest)
    ensures r.Success? <==> userId in users && dto.itemId.Some? && dto.itemId.value in items &&
                            items[dto.itemId.value].ownerId != userId && items[dto.itemId.value].available
    ensures r.Success? ==> var item := items[dto.itemId.value];
      r.value.booker == users[userId] && r.value.start == dto.start && r.value.end == dto.end &&
      r.value.status == dto.status.GetOr(BookingStatus.WAITING) &&
      r.value.item == ItemMapper.FromItemDtoWithoutRequest(ItemMapper.ToItemDto(item), userId) &&
      r.value.item == item.(ownerId := userId, request := None)
  {
    if userId !in users then Failure(NotFound)
    else if dto.itemId.None? then Failure(InternalError)   // findById(null)
    else if dto.itemId.value !in items then Failure(NotFound)
    else
      var user := users[userId];
      var item := items[dto.itemId.value];
      var booking := BookingMapper.FromBookingDto(dto, UserMapper.ToUserDto(user), ItemMapper.ToItemDto(item));
      UserMapper.UserRoundTrip(user, UserMapper.ToUserDto(user));
      ItemMapper.ItemRoundTrip(item);
      if item.ownerId == userId then Failure(NotFound)
      else if !booking.item.available then Failure(BadRequest)
      else Success(booking)
  }

  /** What `approveRejectBooking` checks, in this order: the user exists, the
      booking exists, the user owns the booked item (NotFound otherwise), and
      the booking is not APPROVED yet (BadRequest otherwise); then the row with
      its new status. REJECTED and CANCELED bookings may be decided again. */
  function Approval(users: map<int, User>, items: map<int, Item>, bookings: map<int, BookingRow>, last: int,
                    bookingId: int, userId: int, approved: bool): (r: Result<BookingRow>)
    requires Consistent(users, items, bookings, last)
    ensures userId !in users ==> r == Failure(NotFound)
    ensures userId in users && bookingId !in bookings ==> r == Failure(NotFound)
    ensures userId in users && bookingId in bookings && items[bookings[bookingId].itemId].ownerId != userId ==>
            r == Failure(NotFound)
    ensures (userId in users && bookingId in bookings && items[bookings[bookingId].itemId].ownerId == userId &&
             bookings[bookingId].status == APPROVED) ==> r == Failure(BadRequest)
    ensures r.Success? <==> userId in users && bookingId in bookings &&
                            items[bookings[bookingId].itemId].ownerId == userId &&
                            bookings[bookingId].status != APPROVED
    ensures r.Success? ==> r.value == bookings[bookingId].(status := if approved then APPROVED else BookingStatus.REJECTED)
  {
    if userId !in users || bookingId !in bookings then Failure(NotFound)
    else
      var row := bookings[bookingId];
      if items[row.itemId].ownerId != userId then Failure(NotFound)
      else if row.status == APPROVED then Failure(BadRequest)
      else Success(row.(status := if approved then APPROVED else BookingStatus.REJECTED))
  }

  /** What `getBookingById` answers: the booking, for its booker or the owner of its item
      only; NotFound for anybody else. */
  function View(users: map<int, User>, items: map<int, Item>, bookings: map<int, BookingRow>, last: int,
                bookingId: int, userId: int): (r: Result<BookingDto>)
    requires Consistent(users, items, bookings, last)
    ensures r.Success? <==> (userId in users && bookingId in bookings &&
      (bookings[bookingId].bookerId == userId || items[bookings[bookingId].itemId].ownerId == userId))
    ensures r.Failure? ==> r.error == NotFound
    ensures r.Success? ==> Some(r.value) == BookingMapper.ToBookingDto(Some(Load(users, items, bookings[bookingId])))
  {
    if userId !in users || bookingId !in bookings then Failure(NotFound)
    else
      var b := Load(users, items, bookings[bookingId]);
      if b.booker.id != Some(userId) && b.item.ownerId != userId then Failure(NotFound)
      else Success(BookingMapper.ToBookingDto(Some(b)).value)
  }

  class BookingService {
    const users: map<int, User>
    const items: map<int, Item>
    var bookings: map<int, BookingRow>
    /** The last id the bookings table handed out. */
    var lastBookingId: int

    ghost predicate Valid()
      reads this
    {
      Consistent(users, items, bookings, lastBookingId) && lastBookingId >= 0
    }

    constructor (users: map<int, User>, items: map<int, Item>)
      requires Consistent(users, items, map[], 0)
      ensures Valid()
      ensures this.users == users && this.items == items && bookings == map[] && lastBookingId == 0
    {
      this.users := users;
      this.items := items;
      bookings := map[];
      lastBookingId := 0;
    }

    /** All bookings, joined with their items and bookers, by id. */
    function AllBookings(): (bs: seq<Booking>)
      reads this
      requires Valid()
      ensures forall k :: k in bookings ==> Load(users, items, bookings[k]) in bs
      ensures forall i :: 0 <= i < |bs| ==> Loaded(users, items, bookings, bs[i])
    {
      LoadAll(users, items, bookings, lastBookingId)
    }

    /** `createBooking`: on success, saves exactly one new booking under a fresh
        id and returns it; on failure, saves nothing. Start and end are not compared. */
    method CreateBooking(dto: BookingDto, userId: int) returns (r: Result<BookingDto>)
      requires Valid()
      modifies this
      ensures Valid()
      ensures Creation(users, items, dto, userId).Failure? ==>
        r == Failure(Creation(users, items, dto, userId).error) &&
        bookings == old(bookings) && lastBookingId == old(lastBookingId)
      ensures Creation(users, items, dto, userId).Success? ==>
        var b := Creation(users, items, dto, userId).value;
        var id := old(lastBookingId) + 1;
        id !in old(bookings) && lastBookingId == id &&
        bookings == old(bookings)[id := BookingRow(id, b.start, b.end, b.item.id, userId, b.status)] &&
        r.Success? && Some(r.value) == BookingMapper.ToBookingDto(Some(b.(id := Some(id))))
    {
      var c := Creation(users, items, dto, userId);
      if c.Failure? {
        return Failure(c.error);
      }
      var b := c.value;
      var id := lastBookingId + 1;
      assert b.item.id == dto.itemId.value && b.item.id in items && userId in users;
      bookings := bookings[id := BookingRow(id, b.start, b.end, b.item.id, userId, b.status)];
      lastBookingId := id;
      r := Success(BookingMapper.ToBookingDto(Some(b.(id := Some(id)))).value);
    }

    /** `approveRejectBooking`: sets the status of that one booking and nothing else. */
    method ApproveRejectBooking(bookingId: int, userId: int, approved: bool) returns (r: Result<BookingDto>)
      requires Valid()
      modifies this
      ensures Valid()
      ensures lastBookingId == old(lastBookingId)
      ensures old(Approval(users, items, bookings, lastBookingId, bookingId, userId, approved)).Failure? ==>
        r == Failure(old(Approval(users, items, bookings, lastBookingId, bookingId, userId, approved)).error) && bookings == old(bookings)
      ensures old(Approval(users, items, bookings, lastBookingId, bookingId, userId, approved)).Success? ==>
        var row := old(Approval(users, items, bookings, lastBookingId, bookingId, userId, approved)).value;
        bookings == old(bookings)[bookingId := row] &&
        r.Success? && Some(r.value) == BookingMapper.ToBookingDto(Some(Load(users, items, row)))
    {
      var a := Approval(users, items, bookings, lastBookingId, bookingId, userId, approved);
      if a.Failure? {
        return Failure(a.error);
      }
      bookings := bookings[bookingId := a.value];
      r := Success(BookingMapper.ToBookingDto(Some(Load(users, items, a.value))).value);
    }

    /** `getBookingById`. */
    function GetBookingById(bookingId: int, userId: int): (r: Result<BookingDto>)
      reads this
      requires Valid()
      ensures r == View(users, items, bookings, lastBookingId, bookingId, userId)
    {
      View(users, items, bookings, lastBookingId, bookingId, userId)
    }

    /** `getAllBookingsByBookerAndState`: the user's check first, then the page,
        then `valueOf`, which accepts the exact upper-case name only and throws
        for anything else. */
    function GetAllBookingsByBookerAndState(userId: int, state: string, from: int, size: int, now: int)
      : (r: Result<seq<BookingDto>>)
      reads this
      requires Valid()
      ensures userId !in users ==> r == Failure(NotFound)
      ensures userId in users && (PageFor(from, size).Failure? || BookingStates.ValueOf(state).None?) ==>
              r == Failure(InternalError)
      ensures r.Success? <==> userId in users && size > 0 && from > -size && BookingStates.ValueOf(state).Some?
      ensures r.Success? ==>
        r.value == BookingMapper.ToBookingsDto(
          BookerQuery(AllBookings(), users[userId], BookingStates.ValueOf(state).value, now, Pageable(JavaDiv(from, size), size))) &&
        |r.value| <= size
    ensures r.Success? ==>
      IsPage(r.value, BookingMapper.ToBookingsDto(
               Ordered(AllBookings(), BookerSelects(users[userId], BookingStates.ValueOf(state).value, now), StartDescending)),
             Pageable(JavaDiv(from, size), size))
    {
      if userId !in users then Failure(NotFound)
      else
        var pg := PageFor(from, size);
        if pg.Failure? then Failure(pg.error)
        else
          var st := BookingStates.ValueOf(state);
          if st.None? then Failure(InternalError)
          else
            var q := BookerSelects(users[userId], st.value, now);
            var all := AllBookings();
            DtosOfPage(BookerQuery(all, users[userId], st.value, now, pg.value), Ordered(all, q, StartDescending), pg.value);
            Success(BookingMapper.ToBookingsDto(BookerQuery(all, users[userId], st.value, now, pg.value)))
    }

    /** `getAllBookingsByOwnerAndState`: as above, over the bookings of the
        user's items. */
    function GetAllBookingsByOwnerAndState(userId: int, state: string, from: int, size: int, now: int)
      : (r: Result<seq<BookingDto>>)
      reads this
      requires Valid()
      ensures userId !in users ==> r == Failure(NotFound)
      ensures userId in users && (PageFor(from, size).Failure? || BookingStates.ValueOf(state).None?) ==>
              r == Failure(InternalError)
      ensures r.Success? <==> userId in users && size > 0 && from > -size && BookingStates.ValueOf(state).Some?
      ensures r.Success? ==>
        r.value == BookingMapper.ToBookingsDto(
          OwnerQuery(AllBookings(), userId, BookingStates.ValueOf(state).value, now, Pageable(JavaDiv(from, size), size))) &&
        |r.value| <= size
    ensures r.Success? ==>
      IsPage(r.value, BookingMapper.ToBookingsDto(
               Ordered(AllBookings(), OwnerSelects(userId, BookingStates.ValueOf(state).value, now), StartDescending)),
             Pageable(JavaDiv(from, size), size))
    {
      if userId !in users then Failure(NotFound)
      else
        var pg := PageFor(from, size);
        if pg.Failure? then Failure(pg.error)
        else
          var st := BookingStates.ValueOf(state);
          if st.None? then Failure(InternalError)
          else
            var q := OwnerSelects(userId, st.value, now);
            var all := AllBookings();
            DtosOfPage(OwnerQuery(all, userId, st.value, now, pg.value), Ordered(all, q, StartDescending), pg.value);
            Success(BookingMapper.ToBookingsDto(OwnerQuery(all, userId, st.value, now, pg.value)))
    }
  }

  /** With the whole table on the first page, the booker's listing holds every
      booking of that booker in the state asked for, and only those. */
  lemma {:induction false} BookerListingIsComplete(s: BookingService, userId: int, st: BookingStates.BookingState, now: int,
                                                   size: int, k: int)
    requires s.Valid() && userId in s.users && k in s.bookings
    requires |s.AllBookings()| <= size
    ensures var r := s.GetAllBookingsByBookerAndState(userId, BookingStates.Name(st), 0, size, now);
      var b := Load(s.users, s.items, s.bookings[k]);
      r.Success? &&
      (s.bookings[k].bookerId == userId && InState(b, st, now) ==>
         BookingMapper.ToBookingDto(Some(b)).value in r.value)
  {
    var all := s.AllBookings();
    var b := Load(s.users, s.items, s.bookings[k]);
    BookingStates.ValueOfName(st);
    assert size > 0 by { assert b in all; }
    var q := BookerQuery(all, s.users[userId], st, now, Pageable(0, size));
    if s.bookings[k].bookerId == userId && InState(b, st, now) {
      assert b in q;
      var i :| 0 <= i < |q| && q[i] == b;
      var ds := BookingMapper.ToBookingsDto(q);
      assert Some(ds[i]) == BookingMapper.ToBookingDto(Some(b));
    }
  }
}
