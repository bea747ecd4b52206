/** The checks the gateway's `BookingController` makes before it forwards a
    booking request to the server. */
module BookingGateway {
  import opened Common
  import opened Model
  import BookingStates
  import BookingService

  /** What the gateway does with a request. */
  datatype Response =
    | ForwardCreate(userId: int, booking: BookingDto)
    | ForwardList(userId: int, state: BookingStates.BookingState, from: int, size: int)
    | InvalidBody         // the request body fails its bean validation (`@Valid`)
    | ConstraintViolation // a request parameter fails `@PositiveOrZero` or `@Positive`
    | ErrorBody(error: string) // the handler's 400 answer with `{"error": message}`

  const StartAfterEnd := "Начало аренды не может быть позже окончания"

  /** `LocalDateTime.isBefore`: strictly earlier. */
  predicate IsBefore(a: int, b: int) { a < b }

  /** `create`: a body that fails validation is refused first; then a booking
      that ends strictly before it starts. One that ends when it starts passes. */
  function Create(userId: int, dto: BookingDto, valid: BookingDto -> bool): (r: Response)
    ensures !valid(dto) ==> r == InvalidBody
    ensures valid(dto) && dto.end < dto.start ==> r == ErrorBody(StartAfterEnd)
    ensures r.ForwardCreate? <==> valid(dto) && dto.start <= dto.end
    ensures r.ForwardCreate? ==> r.userId == userId && r.booking == dto
  {
    if !valid(dto) then InvalidBody
    else if IsBefore(dto.end, dto.start) then ErrorBody(StartAfterEnd)
    else ForwardCreate(userId, dto)
  }

  /** The `state` parameter as the handler receives it: a request parameter
      with a default takes the default both when it is absent and when it is
      given with an empty value. */
  function StateParam(state: Option<string>): (s: string)
    ensures state.None? || state == Some("") ==> s == "ALL"
    ensures state.Some? && state.value != "" ==> s == state.value
  {
    if state.None? || state.value == "" then "ALL" else state.value
  }

  /** The shared checks of the two listings. Absent parameters take their
      defaults (state ALL, from 0, size 10); `from` must not be negative and
      `size` must be positive; then the state is parsed ignoring case, and the
      parsed state, not the text, goes on. */
  function Listing(userId: int, state: Option<string>, from: Option<int>, size: Option<int>): (r: Response)
    ensures var s, f, z := StateParam(state), from.GetOr(0), size.GetOr(10);
      (f < 0 || z <= 0 ==> r == ConstraintViolation) &&
      (f >= 0 && z > 0 && BookingStates.From(s).None? ==> r == ErrorBody("Unknown state: " + s)) &&
      (r.ForwardList? <==> f >= 0 && z > 0 && BookingStates.From(s).Some?) &&
      (r.ForwardList? ==> r.userId == userId && r.from == f && r.size == z && BookingStates.Matches(r.state, s))
  {
    var s, f, z := StateParam(state), from.GetOr(0), size.GetOr(10);
    if f < 0 || z <= 0 then ConstraintViolation
    else
      match BookingStates.From(s)
      case None => ErrorBody("Unknown state: " + s)
      case Some(st) => ForwardList(userId, st, f, z)
  }

  /** `getByBookerIdAndState`. */
  function GetByBookerIdAndState(userId: int, state: Option<string>, from: Option<int>, size: Option<int>)
    : (r: Response)
    ensures r == Listing(userId, state, from, size)
    ensures (state.None? || state == Some("")) && from.None? && size.None? ==>
              r == ForwardList(userId, BookingStates.ALL, 0, 10)
  {
    BookingStates.FromName(BookingStates.ALL);
    Listing(userId, state, from, size)
  }

  /** `getByOwnerIdAndState`. */
  function GetByOwnerIdAndState(userId: int, state: Option<string>, from: Option<int>, size: Option<int>)
    : (r: Response)
    ensures r == Listing(userId, state, from, size)
    ensures (state.None? || state == Some("")) && from.None? && size.None? ==>
              r == ForwardList(userId, BookingStates.ALL, 0, 10)
  {
    BookingStates.FromName(BookingStates.ALL);
    Listing(userId, state, from, size)
  }

  /** An empty state is no state: both list every state. */
  lemma EmptyStateIsAll(userId: int, from: Option<int>, size: Option<int>)
    ensures Listing(userId, Some(""), from, size) == Listing(userId, None, from, size)
    ensures from.GetOr(0) >= 0 && size.GetOr(10) > 0 ==>
              Listing(userId, Some(""), from, size) == ForwardList(userId, BookingStates.ALL, from.GetOr(0), size.GetOr(10))
  {
    BookingStates.FromName(BookingStates.ALL);
  }

  /** A listing the gateway forwards, by the state's name, can fail at the
      server only because the user does not exist: the page and the state are
      always acceptable there. */
  lemma {:induction false} ForwardedListingIsAccepted(s: BookingService.BookingService, userId: int,
                                                      state: Option<string>, from: Option<int>,
                                                      size: Option<int>, now: int)
    requires s.Valid()
    requires Listing(userId, state, from, size).ForwardList?
    ensures var fw := Listing(userId, state, from, size);
      var owner := s.GetAllBookingsByOwnerAndState(fw.userId, BookingStates.Name(fw.state), fw.from, fw.size, now);
      var booker := s.GetAllBookingsByBookerAndState(fw.userId, BookingStates.Name(fw.state), fw.from, fw.size, now);
      (booker.Success? <==> userId in s.users) && (owner.Success? <==> userId in s.users) &&
      (booker.Failure? ==> booker.error == NotFound) && (owner.Failure? ==> owner.error == NotFound)
  {
    var fw := Listing(userId, state, from, size);
    BookingStates.ValueOfName(fw.state);
  }
}
