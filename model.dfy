/** The entities and transfer objects of ShareIt as values. A Java field that
    may hold `null` is an `Option`; times are integers. */
module Model {
  import opened Common

  /** The life cycle of a booking (`BookingStatus`). */
  datatype BookingStatus = WAITING | APPROVED | REJECTED | CANCELED

  /** A registered user (`User` entity); the id is absent before the first save. */
  datatype User = User(id: Option<int>, name: Option<string>, email: Option<string>)

  datatype UserDto = UserDto(id: Option<int>, name: Option<string>, email: Option<string>)

  /** A request for an item nobody offers yet. */
  datatype ItemRequest = ItemRequest(id: Option<int>, description: Option<string>, requestor: User,
                                     created: Option<int>)

  /** An item offered for rent; `ownerId` is the id of the user who offers it. */
  datatype Item = Item(id: int, name: Option<string>, description: Option<string>, available: bool,
                       ownerId: int, request: Option<ItemRequest>)

  datatype ItemDto = ItemDto(id: int, name: Option<string>, description: Option<string>,
                             available: Option<bool>, requestId: Option<int>)

  /** A booking of `item` by `booker` for the period from `start` to `end`. */
  datatype Booking = Booking(id: Option<int>, start: int, end: int, item: Item, booker: User,
                             status: BookingStatus)

  /** The booking as the API exchanges it: a new booking names its item by `itemId`,
      a returned one carries the item and the booker as nested objects. */
  datatype BookingDto = BookingDto(id: Option<int>, start: int, end: int, status: Option<BookingStatus>,
                                   booker: Option<UserDto>, item: Option<ItemDto>, itemId: Option<int>)

  /** `ItemGetDto.BookingDto`: the last or next booking shown with an item. */
  datatype BookingShortDto = BookingShortDto(id: Option<int>, bookerId: Option<int>, start: int, end: int)

  /** A review of an item, written by a user who has rented it. */
  datatype Comment = Comment(id: Option<int>, text: Option<string>, item: Item, author: Option<User>,
                             created: Option<int>)

  datatype CommentDto = CommentDto(id: Option<int>, text: Option<string>, authorName: Option<string>,
                                   created: Option<int>)

  /** An item with its last and next booking and its comments, as its owner or another user sees it. */
  datatype ItemGetDto = ItemGetDto(id: int, name: Option<string>, description: Option<string>,
                                   available: bool, lastBooking: Option<BookingShortDto>,
                                   nextBooking: Option<BookingShortDto>, comments: seq<CommentDto>)

  datatype ItemRequestDto = ItemRequestDto(id: Option<int>, description: Option<string>,
                                           requestor: Option<UserDto>, created: Option<int>,
                                           items: seq<ItemDto>)
}
