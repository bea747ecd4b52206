# ShareIt rules in Dafny

ShareIt is a service for lending things. Users put items up for lending, and
other users book them for a period of time. The owner approves or rejects each
booking. After a finished booking the booker may leave a comment on the item.
A user who cannot find an item may post a request, and other users answer it
with items. The repository holds three generations of the service:

- **The storage generation.** In-memory tables (`TempStorage`, `UserDaoImpl`,
  `ItemDaoImpl`) with an id counter.
- **The single-application generation** (`src/`). Services over JPA
  repositories.
- **The final generation**, split in two. The `gateway/` checks the requests
  and forwards them. The `server/` holds the booking service, the repositories
  and the mappers.

This project models the rules of those services, repositories, tables and
mappers, and proves what they promise.

- **Error kinds.** Every exception the code throws and a handler answers
  becomes an error kind: NotFound, BadRequest, Validation, Forbidden, Conflict
  and UnsupportedState. An exception that no handler maps becomes
  InternalError. Examples are `PageRequest.of` with bad arguments, a division
  by a zero page size, and a query on a null id.
- **Time.** Times are integers. The moment of a call, `now`, is a parameter.
- **Validators.** Bean validation and `ModelValidator` are opaque to the
  model. Each becomes a validity predicate that the model's object is given.
- **Queries** are pure functions over the table's contents. Each filters, then
  sorts by its key, then skips `page * size` entries and takes `size`.
- **State-changing operations** are methods of classes that hold the tables as
  maps. Each method's `ensures` gives the whole new state as a function of the
  old one.
- **Checks before a write** live in separate specification functions, such as
  `BookingService.Creation`, `BookingService.Approval` and
  `ItemService.ItemUpdate`. Each method is proved against its function.

Behaviour modelled as coded, where it may surprise a reader:

- A booking request may name its own initial status. Without one it starts
  WAITING.
- Only an APPROVED booking is final. A REJECTED or CANCELED booking can be
  decided again.
- The final server never compares start with end. Only the gateway does, with
  a strict `isBefore`, so a booking that ends when it starts is accepted.
- The "next booking" query orders by start descending, so it returns the
  latest future booking. `BookingRepository.NextBookingIsLatest` exhibits
  this.
- The server reads a state with `valueOf`, which accepts only the exact
  upper-case name. Anything else is an unmapped exception (InternalError).
  The gateway reads the state ignoring case and forwards its name, so what it
  forwards is always accepted (`BookingGateway.ForwardedListingIsAccepted`).
- The single-application service answers an unknown state with a fixed
  message that does not repeat the input.
- Item listings and search use the page index `from / size`. The listing of
  other users' requests uses `from` itself as the page index.
- The item sort constant is named after the start time but sorts by id.
- `updateItem` saves through the two-argument `fromItemDto`, so an updated
  item loses its request.
- `searchItemsBySubstring` skips the query only for the empty string. A
  string of blanks is searched for. The storage generation's
  `searchBySubstring` returns nothing for any blank string, blank in the sense
  of `Character.isWhitespace`, so Unicode spaces such as U+3000 count and the
  no-break spaces do not.
- `createComment` needs one booking of the item by the user that ended before
  `now`, in any status.
- `UserDaoImpl.create` checks for a duplicate email against the incoming
  user's id. A new user who carries the id of the email's owner passes the
  check, and is stored under a fresh id beside that owner
  (`UserDao.CreateExcusesIncomingId`). So email uniqueness is not an invariant
  of the table, and the model does not claim it.
- `getUser` and `getBookingDtoById` of the server's booking service are the
  NotFound branches inside `BookingService.Creation`, `BookingService.Approval`
  and `BookingService.View`.
- `UserDaoImpl.getAll` answers with the table's own `getAll`, which is
  `Storage.TempStorage.GetAll`.

Source paths below are relative to the repository root.

## Model

| member | source | states |
|---|---|---|
| BookingStates.Ordinal | common/src/main/java/ru/practicum/shareit/dto/BookingState.java:7 | each state sits at its position in the declared order of `values()` |
| BookingStates.From | common/src/main/java/ru/practicum/shareit/dto/BookingState.java:9-13 | a state is returned only if its name equals the text ignoring case; none is returned exactly when no name matches |
| BookingStates.FirstMatch | common/src/main/java/ru/practicum/shareit/dto/BookingState.java:10-12 | the filter-and-findAny returns a matching member of the list, or none exactly when no member matches |
| BookingStates.ValueOf | server/src/main/java/ru/practicum/shareit/booking/service/BookingServiceImpl.java:106 | `valueOf` returns the state whose name is exactly the text, or none exactly when no name is |
| BookingStates.AtMostOneMatch | common/src/main/java/ru/practicum/shareit/dto/BookingState.java:9-13 | two states that both match one text, ignoring case, are the same state |
| BookingStates.FromName | common/src/main/java/ru/practicum/shareit/dto/BookingState.java:9-13 | `from` reads every state back from its own name |
| BookingStates.FromUnique | common/src/main/java/ru/practicum/shareit/dto/BookingState.java:9-13 | any text that a state matches makes `from` return that state |
| BookingStates.LowerCaseName | common/src/main/java/ru/practicum/shareit/dto/BookingState.java:9-13 | "all" is accepted by `from` but refused by `valueOf` |
| BookingStates.ValueOfName | server/src/main/java/ru/practicum/shareit/booking/service/BookingServiceImpl.java:106 | `valueOf` reads every state back from its own name |
| BookingRepository.OnSomePage | server/src/main/java/ru/practicum/shareit/booking/repository/BookingRepository.java:17 | paging loses nothing: for a positive size, every matching booking is on some page |
| BookingRepository.FindAllByBooker | server/src/main/java/ru/practicum/shareit/booking/repository/BookingRepository.java:17 | exactly page `pg` of that booker's bookings, latest start first: as many entries as are left after skipping `page * size` of them, at most `size`, the entry at position `i` being the selection's entry at `page * size + i`; all of them on page 0 when they number at most `size` |
| BookingRepository.FindAllByBookerStateCurrent | server/src/main/java/ru/practicum/shareit/booking/repository/BookingRepository.java:19-25 | exactly page `pg` of the booker's bookings with start <= now <= end (both ends inclusive), latest start first: as many entries as are left after skipping `page * size` of them, at most `size`, the entry at position `i` being the selection's entry at `page * size + i`; all of them on page 0 when they number at most `size` |
| BookingRepository.FindAllByBookerAndStartAfter | server/src/main/java/ru/practicum/shareit/booking/repository/BookingRepository.java:27 | exactly page `pg` of the booker's bookings that start strictly after the time, latest start first: as many entries as are left after skipping `page * size` of them, at most `size`, the entry at position `i` being the selection's entry at `page * size + i`; all of them on page 0 when they number at most `size` |
| BookingRepository.FindAllByBookerAndEndBefore | server/src/main/java/ru/practicum/shareit/booking/repository/BookingRepository.java:29 | exactly page `pg` of the booker's bookings that end strictly before the time, latest start first: as many entries as are left after skipping `page * size` of them, at most `size`, the entry at position `i` being the selection's entry at `page * size + i`; all of them on page 0 when they number at most `size` |
| BookingRepository.FindAllByBookerAndStatus | server/src/main/java/ru/practicum/shareit/booking/repository/BookingRepository.java:31 | exactly page `pg` of the booker's bookings with that status, latest start first: as many entries as are left after skipping `page * size` of them, at most `size`, the entry at position `i` being the selection's entry at `page * size + i`; all of them on page 0 when they number at most `size` |
| BookingRepository.FindAllByItemOwnerId | server/src/main/java/ru/practicum/shareit/booking/repository/BookingRepository.java:33 | exactly page `pg` of the bookings of items the user owns, latest start first: as many entries as are left after skipping `page * size` of them, at most `size`, the entry at position `i` being the selection's entry at `page * size + i`; all of them on page 0 when they number at most `size` |
| BookingRepository.FindAllByItemOwnerIdStateCurrent | server/src/main/java/ru/practicum/shareit/booking/repository/BookingRepository.java:35-41 | exactly page `pg` of the current bookings of the owner's items, both ends inclusive, latest start first: as many entries as are left after skipping `page * size` of them, at most `size`, the entry at position `i` being the selection's entry at `page * size + i`; all of them on page 0 when they number at most `size` |
| BookingRepository.FindAllByItemOwnerIdAndStartAfter | server/src/main/java/ru/practicum/shareit/booking/repository/BookingRepository.java:43 | exactly page `pg` of the bookings of the owner's items that start strictly after the time, latest start first: as many entries as are left after skipping `page * size` of them, at most `size`, the entry at position `i` being the selection's entry at `page * size + i`; all of them on page 0 when they number at most `size` |
| BookingRepository.FindAllByItemOwnerIdAndEndBefore | server/src/main/java/ru/practicum/shareit/booking/repository/BookingRepository.java:45 | exactly page `pg` of the bookings of the owner's items that end strictly before the time, latest start first: as many entries as are left after skipping `page * size` of them, at most `size`, the entry at position `i` being the selection's entry at `page * size + i`; all of them on page 0 when they number at most `size` |
| BookingRepository.FindAllByItemOwnerIdAndStatus | server/src/main/java/ru/practicum/shareit/booking/repository/BookingRepository.java:47 | exactly page `pg` of the bookings of the owner's items with that status, latest start first: as many entries as are left after skipping `page * size` of them, at most `size`, the entry at position `i` being the selection's entry at `page * size + i`; all of them on page 0 when they number at most `size` |
| BookingRepository.FindAllByItemIdAndBookerIdAndEndBefore | server/src/main/java/ru/practicum/shareit/booking/repository/BookingRepository.java:49 | a booking is in the result exactly when it is of that item, by that booker, and ends strictly before the time |
| BookingRepository.FindFirstByItemAndEndBeforeOrderByEndDesc | server/src/main/java/ru/practicum/shareit/booking/repository/BookingRepository.java:51 | none exactly when no booking of the item has ended; otherwise a finished booking of the item whose end is the latest of them |
| BookingRepository.FindFirstByItemAndStartAfterOrderByStartDesc | server/src/main/java/ru/practicum/shareit/booking/repository/BookingRepository.java:53 | none exactly when no booking of the item starts later; otherwise a future booking of the item whose start is the latest of them |
| BookingRepository.NextBookingIsLatest | server/src/main/java/ru/practicum/shareit/booking/repository/BookingRepository.java:53 | of two future bookings, the "next booking" query returns the one that starts later |
| BookingMapper.ToBookingDto | server/src/main/java/ru/practicum/shareit/booking/service/BookingMapper.java:16-27 | null for null; otherwise id, period and status copied, booker and item converted, and no item id |
| BookingMapper.ToBookingsDto | server/src/main/java/ru/practicum/shareit/booking/service/BookingMapper.java:29-31 | same length and order, each booking converted |
| BookingMapper.FromBookingDto | server/src/main/java/ru/practicum/shareit/booking/service/BookingMapper.java:33-42 | id and period copied; the user is the booker; the item is built with the booker's id as owner and no request; the status is kept, or WAITING when absent |
| BookingMapper.BookingRoundTrip | server/src/main/java/ru/practicum/shareit/booking/service/BookingMapper.java:16-42 | converting back a booking built from a transfer object gives that object with its status made explicit, its booker and item, and no item id |
| Common.PageFor | server/src/main/java/ru/practicum/shareit/booking/service/BookingServiceImpl.java:104 | `PageRequest.of(from / size, size)` succeeds exactly when size > 0 and from > -size; the page is `from / size` truncated toward zero, and it is 0 when 0 <= from < size |
| BookingService.BookerQuery | server/src/main/java/ru/practicum/shareit/booking/service/BookingServiceImpl.java:106-119 | each state goes to its query, and the result is exactly page `pg` of the booker's bookings in that state, latest start first; all of them on page 0 when they number at most `size` |
| BookingService.OwnerQuery | server/src/main/java/ru/practicum/shareit/booking/service/BookingServiceImpl.java:127-140 | the same over the bookings of the owner's items |
| BookingService.Creation | server/src/main/java/ru/practicum/shareit/booking/service/BookingServiceImpl.java:53-70 | NotFound for a missing user, then for a missing item, then for the item's owner; BadRequest for an unavailable item; otherwise the booking with that booker and period, the requested status or WAITING, and the item with the booker as owner |
| BookingService.Approval | server/src/main/java/ru/practicum/shareit/booking/service/BookingServiceImpl.java:73-86 | NotFound for a missing user, a missing booking, or a user who does not own the item; BadRequest only for an APPROVED booking; otherwise the row with APPROVED or REJECTED |
| BookingService.View | server/src/main/java/ru/practicum/shareit/booking/service/BookingServiceImpl.java:89-99 | succeeds exactly for the booker and for the item's owner, with the stored booking converted; NotFound for everybody else |
| BookingService.BookingService.CreateBooking | server/src/main/java/ru/practicum/shareit/booking/service/BookingServiceImpl.java:53-70 | on a failed check nothing changes; otherwise exactly one row is added under a fresh id and returned converted; the table invariant is kept |
| BookingService.BookingService.ApproveRejectBooking | server/src/main/java/ru/practicum/shareit/booking/service/BookingServiceImpl.java:73-86 | on a failed check nothing changes; otherwise only that booking's status changes, and the result is the updated booking |
| BookingService.BookingService.GetBookingById | server/src/main/java/ru/practicum/shareit/booking/service/BookingServiceImpl.java:89-99 | the answer of `View` on the current tables |
| BookingService.BookingService.GetAllBookingsByBookerAndState | server/src/main/java/ru/practicum/shareit/booking/service/BookingServiceImpl.java:102-120 | NotFound for a missing user; InternalError for a bad page or a state that is not an exact name; otherwise the booker's query on page `from / size`, which is exactly that page of the converted bookings of the booker in that state, latest start first |
| BookingService.BookingService.GetAllBookingsByOwnerAndState | server/src/main/java/ru/practicum/shareit/booking/service/BookingServiceImpl.java:123-141 | the same for the bookings of the user's items |
| BookingService.BookerListingIsComplete | server/src/main/java/ru/practicum/shareit/booking/service/BookingServiceImpl.java:102-120 | with all of the table on page 0, every booking of the user in the state asked for is listed |
| BookingGateway.Create | gateway/src/main/java/ru/practicum/shareit/booking/BookingController.java:27-35 | an invalid body is refused first; then an end strictly before the start gives the 400 message; an end equal to the start is forwarded unchanged |
| BookingGateway.StateParam | gateway/src/main/java/ru/practicum/shareit/booking/BookingController.java:53 | the `state` parameter's default ALL replaces both an absent and an empty value; any other text is kept |
| BookingGateway.Listing | gateway/src/main/java/ru/practicum/shareit/booking/BookingController.java:51-61 | an absent or empty state is ALL, and absent `from` and `size` are 0 and 10; a negative `from` or a non-positive `size` is a constraint violation; an unknown state gives "Unknown state: " and the text; otherwise the state matching the text ignoring case is forwarded |
| BookingGateway.GetByBookerIdAndState | gateway/src/main/java/ru/practicum/shareit/booking/BookingController.java:51-61 | the shared checks; with no parameters, or an empty state and no others, it forwards ALL, 0, 10 |
| BookingGateway.GetByOwnerIdAndState | gateway/src/main/java/ru/practicum/shareit/booking/BookingController.java:63-73 | the shared checks; with no parameters, or an empty state and no others, it forwards ALL, 0, 10 |
| BookingGateway.EmptyStateIsAll | gateway/src/main/java/ru/practicum/shareit/booking/BookingController.java:51-73 | an empty state gives the same answer as none, which with an acceptable page is the listing of ALL |
| BookingGateway.ForwardedListingIsAccepted | gateway/src/main/java/ru/practicum/shareit/booking/BookingController.java:51-73 | a forwarded listing fails at the server only with NotFound, and only for a missing user |
| LegacyBookingService.ConvertState | src/main/java/ru/practicum/shareit/booking/service/BookingServiceImpl.java:45-51 | succeeds exactly for an exact state name; otherwise the fixed UNSUPPORTED_STATUS message |
| LegacyBookingService.Creation | src/main/java/ru/practicum/shareit/booking/service/BookingServiceImpl.java:60-83 | NotFound for a missing user or item, then Validation for an end strictly before the start, before the owner and availability checks; otherwise the same as the final generation |
| LegacyBookingService.LegacyBookingService.CheckUser | src/main/java/ru/practicum/shareit/booking/service/BookingServiceImpl.java:38-43 | done exactly when the user exists; otherwise NotFound |
| LegacyBookingService.LegacyBookingService.CreateBooking | src/main/java/ru/practicum/shareit/booking/service/BookingServiceImpl.java:60-83 | on a failed check nothing changes; otherwise one row is added under a fresh id and returned |
| LegacyBookingService.LegacyBookingService.ApproveRejectBooking | src/main/java/ru/practicum/shareit/booking/service/BookingServiceImpl.java:85-99 | the same checks and change as the final generation |
| LegacyBookingService.LegacyBookingService.GetBookingById | src/main/java/ru/practicum/shareit/booking/service/BookingServiceImpl.java:101-112 | the same visibility rule as the final generation |
| LegacyBookingService.LegacyBookingService.GetAllBookingsByBookerAndState | src/main/java/ru/practicum/shareit/booking/service/BookingServiceImpl.java:114-130 | NotFound, then the fixed unknown-state message; otherwise the booker's query over the whole table on one page |
| LegacyBookingService.LegacyBookingService.GetAllBookingsByOwnerAndState | src/main/java/ru/practicum/shareit/booking/service/BookingServiceImpl.java:132-148 | the same for the bookings of the user's items |
| LegacyBookingService.UnpagedQueryIsExact | src/main/java/ru/practicum/shareit/booking/service/BookingServiceImpl.java:132-148 | unpaged, the listing is the whole selection of the owner's bookings in that state, latest start first, and a booking is listed exactly when it is the owner's and in that state |
| Storage.TempStorage.GetNext | src/main/java/ru/practicum/shareit/common/TempStorage.java:20-22 | the counter plus one, above every key in use |
| Storage.TempStorage.GetAll | src/main/java/ru/practicum/shareit/common/TempStorage.java:23-25 | every stored value is listed, and nothing else is |
| Storage.TempStorage.GetAllOncePerKey | src/main/java/ru/practicum/shareit/common/TempStorage.java:23-25 | the listing has exactly one entry per stored key |
| Storage.TempStorage.GetById | src/main/java/ru/practicum/shareit/common/TempStorage.java:27-32 | the stored value exactly when the key is present; NotFound otherwise |
| Storage.TempStorage.Create | src/main/java/ru/practicum/shareit/common/TempStorage.java:34-38 | an invalid value changes nothing; otherwise the counter goes up by one and the value is stored under it, an id that was never used |
| Storage.TempStorage.Update | src/main/java/ru/practicum/shareit/common/TempStorage.java:40-47 | BadRequest for an absent key, then Validation, without change; otherwise only that entry is replaced |
| Storage.TempStorage.Remove | src/main/java/ru/practicum/shareit/common/TempStorage.java:49-53 | BadRequest for an absent key, without change; otherwise only that key is removed |
| UserDao.UserDao.CheckDuplicateEmail | src/main/java/ru/practicum/shareit/user/dao/UserDaoImpl.java:17-22 | Conflict exactly when a stored user with another id has the same email |
| UserDao.UserDao.GetById | src/main/java/ru/practicum/shareit/user/dao/UserDaoImpl.java:30-32 | the user stored under the id, whose own id it is; NotFound otherwise |
| UserDao.UserDao.Create | src/main/java/ru/practicum/shareit/user/dao/UserDaoImpl.java:35-39 | Conflict without change for a duplicate; otherwise the user is stored under the next id with its name and email, or Validation without change |
| UserDao.UserDao.Update | src/main/java/ru/practicum/shareit/user/dao/UserDaoImpl.java:42-45 | Conflict, then an exception for a null id, then BadRequest or Validation, all without change; otherwise only that user is replaced |
| UserDao.UserDao.Remove | src/main/java/ru/practicum/shareit/user/dao/UserDaoImpl.java:48-50 | BadRequest without change for an absent id; otherwise only that user goes |
| UserDao.OwnEmailAllowed | src/main/java/ru/practicum/shareit/user/dao/UserDaoImpl.java:19 | a user may keep their own email when no other user has it |
| UserDao.CreateExcusesIncomingId | src/main/java/ru/practicum/shareit/user/dao/UserDaoImpl.java:35-39 | a new user carrying the id of the email's owner passes the check and clashes with that owner once stored |
| ItemDao.ItemDao.GetByUserId | src/main/java/ru/practicum/shareit/item/dao/ItemDaoImpl.java:18-20 | exactly the stored items with that owner, none of them twice |
| ItemDao.ItemDao.GetById | src/main/java/ru/practicum/shareit/item/dao/ItemDaoImpl.java:23-25 | the item stored under the id, whose own id it is; NotFound otherwise |
| ItemDao.ItemDao.SearchBySubstring | src/main/java/ru/practicum/shareit/item/dao/ItemDaoImpl.java:47-54 | nothing for blank text, where blank is Java's `isWhitespace` throughout, Unicode spaces included; otherwise exactly the stored available items whose lower-cased name or description contains the lower-cased text |
| ItemDao.ItemDao.SearchBySubstringOnce | src/main/java/ru/practicum/shareit/item/dao/ItemDaoImpl.java:49-52 | the search lists no item twice |
| ItemDao.ItemDao.UnicodeBlankQueries | src/main/java/ru/practicum/shareit/item/dao/ItemDaoImpl.java:47 | a query of the ideographic space, or of a line separator and a tab, finds nothing; the no-break space is not blank |
| ItemDao.ItemDao.Create | src/main/java/ru/practicum/shareit/item/dao/ItemDaoImpl.java:28-39 | the item is stored under the next id with its other fields copied, or Validation without change |
| ItemDao.ItemDao.Update | src/main/java/ru/practicum/shareit/item/dao/ItemDaoImpl.java:42-44 | BadRequest or Validation without change; otherwise only that item is replaced |
| ItemRepository.FindAllByOwnerId | src/main/java/ru/practicum/shareit/item/repository/ItemRepository.java:14 | exactly page `pg` of that owner's items by ascending id: at most `size`, the entry at position `i` being the owner's item at `page * size + i`; all of them on page 0 when they number at most `size`, and none for an owner without items |
| ItemRepository.FindAllByRequest | src/main/java/ru/practicum/shareit/item/repository/ItemRepository.java:16 | an item is in the result exactly when it answers that request |
| ItemRepository.SearchSubstring | src/main/java/ru/practicum/shareit/item/repository/ItemRepository.java:18-25 | exactly page `pg`, by ascending id, of the available items whose upper-cased name or description contains the upper-cased text; all of them on page 0 when they number at most `size` |
| ItemRepository.SearchIgnoresCase | src/main/java/ru/practicum/shareit/item/repository/ItemRepository.java:18-22 | an item matches a text exactly when it matches the text in capitals |
| ItemRequestRepository.FindAllByRequestorOrderByCreated | src/main/java/ru/practicum/shareit/requests/repository/ItemRequestRepository.java:13 | exactly the user's requests, each as often as stored, in ascending creation time |
| ItemRequestRepository.FindAllByNotRequestorOrderByCreated | src/main/java/ru/practicum/shareit/requests/repository/ItemRequestRepository.java:15-21 | exactly page `pg` of the other users' requests in ascending creation time; all of them on page 0 when they number at most `size` |
| ItemRequestRepository.OwnAndOthers | src/main/java/ru/practicum/shareit/requests/repository/ItemRequestRepository.java:13-21 | on one page, every request is in exactly one of the two listings |
| UserMapper.ToUserDto | server/src/main/java/ru/practicum/shareit/user/dto/UserMapper.java:10-12 | id, name and email copied |
| UserMapper.ToUsersDto | server/src/main/java/ru/practicum/shareit/user/dto/UserMapper.java:14-16 | same length and order, each user converted |
| UserMapper.FromUserDto | server/src/main/java/ru/practicum/shareit/user/dto/UserMapper.java:18-20 | id, name and email copied |
| UserMapper.UserRoundTrip | server/src/main/java/ru/practicum/shareit/user/dto/UserMapper.java:10-20 | the two conversions are inverse to each other, both ways |
| ItemMapper.ToItemDto | server/src/main/java/ru/practicum/shareit/item/dto/ItemMapper.java:17-25 | id, name, description and availability copied; the request is named by its id, or absent |
| ItemMapper.ToItemsDto | server/src/main/java/ru/practicum/shareit/item/dto/ItemMapper.java:27-29 | same length and order, each item converted |
| ItemMapper.FromItemDto | server/src/main/java/ru/practicum/shareit/item/dto/ItemMapper.java:31-40 | fields copied, owner and request as given, available only when stated true |
| ItemMapper.FromItemDtoWithoutRequest | server/src/main/java/ru/practicum/shareit/item/dto/ItemMapper.java:42-44 | the given owner and no request |
| ItemMapper.ItemRoundTrip | server/src/main/java/ru/practicum/shareit/item/dto/ItemMapper.java:17-44 | an item comes back whole given its owner and request, and without its request from the two-argument form |
| ItemMapper.ItemDtoRoundTrip | server/src/main/java/ru/practicum/shareit/item/dto/ItemMapper.java:17-40 | a transfer object with a stated availability comes back given a request with the id it names |
| ItemMapper.ToShortBooking | server/src/main/java/ru/practicum/shareit/item/dto/ItemMapper.java:53-64 | absent exactly for an absent booking; otherwise its id, booker's id, start and end |
| ItemMapper.ToItemGetDto | server/src/main/java/ru/practicum/shareit/item/dto/ItemMapper.java:46-67 | the item's fields, both bookings in short form, and the comments converted in order |
| CommentMapper.ToCommentDto | src/main/java/ru/practicum/shareit/item/dto/CommentMapper.java:13-20 | id, text and creation time copied; the author's name, or "" without an author |
| CommentMapper.FromCommentDto | src/main/java/ru/practicum/shareit/item/dto/CommentMapper.java:22-30 | the given item and user; a present creation time kept, an absent one set to now |
| CommentMapper.ToCommentsDto | src/main/java/ru/practicum/shareit/item/dto/CommentMapper.java:32-34 | same length and order, each comment converted |
| CommentMapper.CommentRoundTrip | src/main/java/ru/practicum/shareit/item/dto/CommentMapper.java:13-30 | a comment built from a transfer object converts back to it, with the author's name and the creation time filled in |
| ItemRequestMapper.ToItemRequestDto | src/main/java/ru/practicum/shareit/requests/dto/ItemRequestMapper.java:17-25 | id, description and creation time copied, the requestor converted, and the items converted in order |
| ItemRequestMapper.ToItemRequestDtoWithoutItems | src/main/java/ru/practicum/shareit/requests/dto/ItemRequestMapper.java:27-29 | the same with an empty item list |
| ItemRequestMapper.ToItemRequestsDto | src/main/java/ru/practicum/shareit/requests/dto/ItemRequestMapper.java:31-36 | same length and order, each request converted with the items found for it |
| ItemRequestMapper.FromItemRequestDto | src/main/java/ru/practicum/shareit/requests/dto/ItemRequestMapper.java:38-45 | id, description and creation time copied and the requestor converted back |
| ItemRequestMapper.ItemRequestRoundTrip | src/main/java/ru/practicum/shareit/requests/dto/ItemRequestMapper.java:17-45 | a request comes back whole from its transfer object |
| UserService.PatchUser | src/main/java/ru/practicum/shareit/user/service/UserServiceImpl.java:26-32 | the id kept; name and email taken from the donor where present, kept otherwise |
| UserService.PatchUserLaws | src/main/java/ru/practicum/shareit/user/service/UserServiceImpl.java:26-32 | an empty donor changes nothing, a full donor replaces both fields, and patching twice is patching once |
| UserService.UserService.CheckUserId | src/main/java/ru/practicum/shareit/user/service/UserServiceImpl.java:34-39 | done exactly when the user exists; NotFound otherwise |
| UserService.UserService.GetAllUsers | src/main/java/ru/practicum/shareit/user/service/UserServiceImpl.java:41-44 | every stored user is listed, converted, and every entry is the stored user with that id |
| UserService.UserService.GetAllUsersOnce | src/main/java/ru/practicum/shareit/user/service/UserServiceImpl.java:41-44 | the listing has one entry per user, no two with the same id |
| UserService.UserService.GetUserById | src/main/java/ru/practicum/shareit/user/service/UserServiceImpl.java:46-50 | NotFound for an absent id; otherwise the stored user with that id |
| UserService.UserService.CreateUser | src/main/java/ru/practicum/shareit/user/service/UserServiceImpl.java:52-58 | Validation without change; otherwise the user is stored under a fresh id with the object's name and email, and returned with that id |
| UserService.UserService.UpdateUser | src/main/java/ru/practicum/shareit/user/service/UserServiceImpl.java:60-68 | NotFound first; then the patched user, not the input, is validated; on success only that user is replaced by the patched one |
| UserService.UserService.RemoveUser | src/main/java/ru/practicum/shareit/user/service/UserServiceImpl.java:70-74 | NotFound without change; otherwise exactly that id is removed |
| ItemRequestService.Shown | src/main/java/ru/practicum/shareit/requests/service/ItemRequestServiceImpl.java:84-86 | a request shown with the items that answer it, every such item included |
| ItemRequestService.ShownAll | src/main/java/ru/practicum/shareit/requests/service/ItemRequestServiceImpl.java:52-60 | same length and order, each request shown with its requestor, creation time and items |
| ItemRequestService.ItemRequestService.CreateItemRequest | src/main/java/ru/practicum/shareit/requests/service/ItemRequestServiceImpl.java:35-50 | NotFound without change; otherwise the request is stored under a fresh id with the caller as requestor and `now` as creation time, and returned without items |
| ItemRequestService.ItemRequestService.GetItemRequestsByRequestorId | src/main/java/ru/practicum/shareit/requests/service/ItemRequestServiceImpl.java:52-60 | NotFound for a missing user; otherwise the repository's listing of the user's requests, each shown one-to-one with its items in the same order; every entry shows a stored request of the user, every such request is shown, in ascending creation time |
| ItemRequestService.ItemRequestService.RequestorListingOnce | src/main/java/ru/practicum/shareit/requests/service/ItemRequestServiceImpl.java:52-60 | the user's listing has one entry per stored request of the user, and no two entries share an id |
| ItemRequestService.ItemRequestService.GetItemRequestsByNotRequestorId | src/main/java/ru/practicum/shareit/requests/service/ItemRequestServiceImpl.java:62-72 | NotFound, then an exception for a negative `from` or a size below 1; otherwise exactly page `from` of the other users' requests shown, in ascending creation time, each entry a stored request; all of them on page 0 when they number at most `size`, and none when `from * size` passes the table |
| ItemRequestService.ItemRequestService.OthersPage | src/main/java/ru/practicum/shareit/requests/service/ItemRequestServiceImpl.java:69-71 | page `pg` of the other users' requests, each shown with its items, is that page of all of them shown, in ascending creation time, each a stored request |
| ItemRequestService.ItemRequestService.GetRequestById | src/main/java/ru/practicum/shareit/requests/service/ItemRequestServiceImpl.java:74-87 | NotFound for a missing user, then for a missing request; otherwise that request shown with its items |
| ItemService.PatchItemDto | src/main/java/ru/practicum/shareit/item/service/ItemServiceImpl.java:54-62 | id and request id kept; name, description and availability from the donor where present, kept otherwise |
| ItemService.PatchItemLaws | src/main/java/ru/practicum/shareit/item/service/ItemServiceImpl.java:54-62 | an empty donor changes nothing, a full donor replaces all three fields, and patching twice is patching once |
| ItemService.CommentsOf | src/main/java/ru/practicum/shareit/item/service/ItemServiceImpl.java:75 | exactly the item's comments, each as often as stored, in ascending creation time |
| ItemService.ItemView | src/main/java/ru/practicum/shareit/item/service/ItemServiceImpl.java:64-78 | the item's fields and comments; the last and next bookings for the owner only, both absent for anybody else |
| ItemService.LastBookingForOwnerOnly | src/main/java/ru/practicum/shareit/item/service/ItemServiceImpl.java:64-73 | a viewer who is not the owner sees no bookings; the owner sees the latest finished one whenever there is one |
| ItemService.ViewAll | src/main/java/ru/practicum/shareit/item/service/ItemServiceImpl.java:89-91 | same length and order, each item viewed by the user |
| ItemService.ItemsOfOwner | src/main/java/ru/practicum/shareit/item/service/ItemServiceImpl.java:80-92 | NotFound, then an exception for a bad page; otherwise the owner's page `from / size` |
| ItemService.OwnerPage | src/main/java/ru/practicum/shareit/item/service/ItemServiceImpl.java:86-91 | exactly page `pg` of the views of the user's items by ascending id: at most `size`, each a view of one of the user's items; all of them on page 0 when they number at most `size` |
| ItemService.OwnerPageSpec | src/main/java/ru/practicum/shareit/item/service/ItemServiceImpl.java:86-91 | the views of the owner's page are that page of the views of all the owner's items, in id order, and complete on page 0 when they fit |
| ItemService.ViewsOfOwned | src/main/java/ru/practicum/shareit/item/service/ItemServiceImpl.java:87-91 | the views of a listing are the views of the items in it, both ways |
| ItemService.ItemById | src/main/java/ru/practicum/shareit/item/service/ItemServiceImpl.java:94-106 | NotFound for a missing user, then for a missing item; otherwise the item viewed by the user |
| ItemService.ItemCreation | src/main/java/ru/practicum/shareit/item/service/ItemServiceImpl.java:108-123 | NotFound, then Validation, then NotFound for a named request that does not exist; otherwise the object's item owned by the user, with that request or none |
| ItemService.ItemUpdate | src/main/java/ru/practicum/shareit/item/service/ItemServiceImpl.java:125-144 | NotFound for the user, NotFound for the item, Forbidden for a non-owner, then Validation of the patched object; otherwise the item with id and owner kept, each field from the donor or kept, and no request |
| ItemService.Search | src/main/java/ru/practicum/shareit/item/service/ItemServiceImpl.java:146-155 | nothing for the empty string, with no query; otherwise an exception for a bad page, or the search on page `from / size` |
| ItemService.SearchPage | src/main/java/ru/practicum/shareit/item/service/ItemServiceImpl.java:152-154 | exactly page `pg` of the matching items converted, by ascending id, each entry a matching item; all of them on page 0 when they number at most `size` |
| ItemService.SearchedFound | src/main/java/ru/practicum/shareit/item/repository/ItemRepository.java:18-25 | every item on a search page matches the text |
| ItemService.CommentCreation | src/main/java/ru/practicum/shareit/item/service/ItemServiceImpl.java:157-172 | NotFound for the user, then for the item; BadRequest exactly when the user has no booking of the item that ended before now; otherwise the comment built from the object |
| ItemService.ItemService.GetItemsByUserId | src/main/java/ru/practicum/shareit/item/service/ItemServiceImpl.java:80-92 | the owner's listing over the current tables; success exactly for an existing user and a valid page |
| ItemService.ItemService.GetItemById | src/main/java/ru/practicum/shareit/item/service/ItemServiceImpl.java:94-106 | the item view over the current tables; success exactly when user and item exist |
| ItemService.ItemService.SearchItemsBySubstring | src/main/java/ru/practicum/shareit/item/service/ItemServiceImpl.java:146-155 | the search over the current items; nothing for the empty string |
| ItemService.ItemService.CreateItem | src/main/java/ru/practicum/shareit/item/service/ItemServiceImpl.java:108-123 | on a failed check nothing changes; otherwise the created item is stored under a fresh id and returned converted |
| ItemService.ItemService.UpdateItem | src/main/java/ru/practicum/shareit/item/service/ItemServiceImpl.java:125-144 | on a failed check nothing changes; otherwise only that item is replaced by the updated one |
| ItemService.ItemService.CreateComment | src/main/java/ru/practicum/shareit/item/service/ItemServiceImpl.java:157-172 | on a failed check nothing changes; otherwise the comment is stored under a fresh id and returned converted |

## Left out

- HTTP, Spring and JPA machinery is not modelled. This covers the controllers
  other than the gateway's booking checks, the gateway's forwarding clients,
  the error handlers and logging. Messages are kept only where they are part
  of the answer: the gateway's 400 bodies and the fixed unknown-state message.
- Paging, sorting and derived queries are modelled by their meaning, not
  their machinery: filter, sort by the key, skip `page * size`, take `size`.
- The gateway's `from` and `size` are modelled once converted to `int`. An
  absent value and an empty one both arrive as no value and take the default.
  Text that is not a number is refused by Spring before the handler runs, and
  that refusal is not modelled.
- The clock is a parameter. The source reads `LocalDateTime.now()` once per
  query, and the CURRENT queries use the database's CURRENT_TIMESTAMP. The
  model uses one `now` per call and does not model clock skew.
- Bean validation and `ModelValidator` are outside code. They are modelled as
  a validity predicate given to each object, so the model does not know which
  fields they check. Null start or end times of a booking are left to
  validation, and times are always integers.
- Unsorted results are listed in ascending key order. This covers a
  `HashMap`'s `values()` and a JPA query without `ORDER BY`, whose real order
  is unspecified. Sorting keeps that order among ties.
- `LIKE` wildcards are not modelled: `%` and `_` in a search text count as
  plain characters.
- Case mapping covers ASCII letters only in `Lower`, `Upper` and
  `toLowerCase(Locale.ROOT)`. `BookingState.from` also covers the four
  non-ASCII characters that Java's `equalsIgnoreCase` folds onto I, K and S.
- JPA `save` is modelled as an insert under a fresh id wherever the services
  create an entity. The merge that a transfer object carrying an id would
  cause is not modelled.
- Database constraints are not modelled, for example a unique email in the
  JPA generation.
- In each service class the tables that the service only reads are constant
  fields: users and items in both booking services and in the request
  service, and users, requests and bookings in the item service. Writes to
  them by other services between two calls are not modelled.
- UserDao.UserDao.CheckDuplicateEmail: compares ids by value. The source
  compares boxed `Long` ids with `!=`, which agrees with that only for ids in
  Java's small-value cache, or when both come from the same box.
- ItemDao.ItemDao.SearchBySubstring: only covers a table whose validator
  demands a name and a description. The source would throw on a stored item
  that lacks either one.
- ItemRequestRepository.FindAllByRequestorOrderByCreated: states the order
  only between requests that have a creation time. A missing time sorts as 0
  in the model, while the database's placement of nulls is not modelled.
- ItemRequestRepository.FindAllByNotRequestorOrderByCreated: states the order
  only between requests that have a creation time, as above.
- ItemService.CommentsOf: states the order only between comments that have a
  creation time, as above.
- ItemRepository.FindAllByRequest: returns a `Set` in the source. The model
  lists it in table order and states membership only.
- BookingRepository.FindAllByItemIdAndBookerIdAndEndBefore: returns a `Set`
  in the source, and the model returns a Dafny `set`. Membership is all a set
  has, and the model states it in both directions. An order is neither given
  nor promised.
- A null `available` is modelled as a `bool`. An absent availability in a
  transfer object is read as false, where Java's unboxing would throw.
- A user transfer object with no id owns the booked item with owner id 0 in
  `BookingMapper.FromBookingDto`. The source's unboxing of a null id is not
  modelled.
- These files are not part of this model, because modelled files already
  cover their behaviour:
  - the single-application `BookingRepository`, `BookingMapper`,
    `ItemMapper`, `UserMapper` and `BookingState`;
  - the server's `ItemRequestRepository` (the same queries, returned as a
    `Set`);
  - the service interfaces.
- `CommentRepository` is modelled only by its one derived query,
  `ItemService.CommentsOf`. `UserRepository` is modelled as a map of users.
- Tests are not modelled.
- There is no concurrency and there are no transactions: the model is
  sequential.
