/** The earlier generation's `ItemServiceImpl`: items with their bookings and
    comments. The service reads the user, request and booking tables and writes
    the item and comment tables. Each operation reads the clock; the model takes
    that moment as `now`. */
module ItemService {
  import opened Common
  import opened Model
  import ItemMapper
  import CommentMapper
  import opened BookingRepository
  import opened ItemRepository

  /** `patchItemDto`: the recipient's id and request, and each of name,
      description and availability from the donor where the donor has one, from
      the recipient otherwise. */
  function PatchItemDto(recipient: ItemDto, donor: ItemDto): (p: ItemDto)
    ensures p.id == recipient.id && p.requestId == recipient.requestId
    ensures p.name == (if donor.name.Some? then donor.name else recipient.name)
    ensures p.description == (if donor.description.Some? then donor.description else recipient.description)
    ensures p.available == (if donor.available.Some? then donor.available else recipient.available)
  {
    ItemDto(recipient.id,
            if donor.name.Some? then donor.name else recipient.name,
            if donor.description.Some? then donor.description else recipient.description,
            if donor.available.Some? then donor.available else recipient.available,
            recipient.requestId)
  }

  /** A donor with no fields changes nothing; a donor with every field replaces
      them all but id and request; patching twice with the same donor is
      patching once. */
  lemma PatchItemLaws(recipient: ItemDto, donor: ItemDto)
    ensures PatchItemDto(recipient, donor.(name := None, description := None, available := None)) == recipient
    ensures donor.name.Some? && donor.description.Some? && donor.available.Some? ==>
              PatchItemDto(recipient, donor) == donor.(id := recipient.id, requestId := recipient.requestId)
    ensures PatchItemDto(PatchItemDto(recipient, donor), donor) == PatchItemDto(recipient, donor)
  {
  }

  /** Sort key of `findAllByItemOrderByCreated`; a comment without a creation
      time is read as time 0. */
  function CommentCreated(c: Comment): int { c.created.GetOr(0) }

  /** `commentRepository.findAllByItemOrderByCreated(item)`: exactly the item's
      comments, oldest first. */
  function CommentsOf(comments: seq<Comment>, item: Item): (r: seq<Comment>)
    ensures forall c :: c in r <==> c in comments && c.item.id == item.id
    ensures multiset(r) == multiset(Filter(comments, (c: Comment) => c.item.id == item.id))
    ensures forall a, b :: (0 <= a < b < |r| && r[a].created.Some? && r[b].created.Some?) ==>
                           r[a].created.value <= r[b].created.value
  {
    Ordered(comments, (c: Comment) => c.item.id == item.id, CommentCreated)
  }

  /** `toItemGetDto(item, user)`: the item with its comments, and with its last
      and next booking only when `user` owns it. (The source reads the clock
      once for each of the two booking queries.) */
  function ItemView(item: Item, user: User, bookings: seq<Booking>, comments: seq<Comment>, now: int)
    : (g: ItemGetDto)
    ensures g.id == item.id && g.name == item.name && g.description == item.description
    ensures g.available == item.available
    ensures user.id != Some(item.ownerId) ==> g.lastBooking.None? && g.nextBooking.None?
    ensures user.id == Some(item.ownerId) ==>
              g.lastBooking == ItemMapper.ToShortBooking(FindFirstByItemAndEndBeforeOrderByEndDesc(bookings, item, now)) &&
              g.nextBooking == ItemMapper.ToShortBooking(FindFirstByItemAndStartAfterOrderByStartDesc(bookings, item, now))
    ensures g.comments == CommentMapper.ToCommentsDto(CommentsOf(comments, item))
  {
    var owner := user.id == Some(item.ownerId);
    var last := if owner then FindFirstByItemAndEndBeforeOrderByEndDesc(bookings, item, now) else None;
    var next := if owner then FindFirstByItemAndStartAfterOrderByStartDesc(bookings, item, now) else None;
    ItemMapper.ToItemGetDto(item, last, next, CommentsOf(comments, item))
  }

  /** The owner sees a last booking exactly when one of the item's bookings has
      ended, whatever its status, and it is one that ended last; nobody else
      sees one. */
  lemma {:induction false} LastBookingForOwnerOnly(item: Item, user: User, bookings: seq<Booking>,
                                                   comments: seq<Comment>, now: int)
    ensures var g := ItemView(item, user, bookings, comments, now);
            g.lastBooking.Some? <==>
              user.id == Some(item.ownerId) && exists b :: b in bookings && b.item.id == item.id && b.end < now
    ensures var g := ItemView(item, user, bookings, comments, now);
            g.lastBooking.Some? ==>
              exists b :: b in bookings && b.item.id == item.id && b.end < now && g.lastBooking.value.end == b.end &&
                          forall c :: c in bookings && c.item.id == item.id && c.end < now ==> c.end <= b.end
  {
    var g := ItemView(item, user, bookings, comments, now);
    if user.id == Some(item.ownerId) {
      var last := FindFirstByItemAndEndBeforeOrderByEndDesc(bookings, item, now);
      if last.Some? {
        assert g.lastBooking.value.end == last.value.end;
        assert last.value in bookings && last.value.item.id == item.id && last.value.end < now;
      }
    }
  }

  /** Each item viewed by `user`, in the same order. */
  function ViewAll(items: seq<Item>, user: User, bookings: seq<Booking>, comments: seq<Comment>, now: int)
    : (gs: seq<ItemGetDto>)
    ensures |gs| == |items|
    ensures forall j :: 0 <= j < |items| ==> gs[j] == ItemView(items[j], user, bookings, comments, now)
  {
    if items == [] then []
    else [ItemView(items[0], user, bookings, comments, now)] + ViewAll(items[1..], user, bookings, comments, now)
  }

  /** `getItemsByUserId`: NotFound for an absent user; then the page
      `from / size` of the user's items in id order, each with its bookings and
      comments as its owner sees them. */
  function ItemsOfOwner(users: map<int, User>, items: seq<Item>, bookings: seq<Booking>, comments: seq<Comment>,
                        userId: int, from: int, size: int, now: int): (r: Result<seq<ItemGetDto>>)
    requires userId in users ==> users[userId].id == Some(userId)
    ensures userId !in users ==> r == Failure(NotFound)
    ensures userId in users && PageFor(from, size).Failure? ==> r == Failure(InternalError)
    ensures r.Success? <==> userId in users && size > 0 && from > -size
    ensures r.Success? ==> r.value == OwnerPage(items, userId, users[userId], bookings, comments,
                                                PageFor(from, size).value, now)
    ensures r.Success? && 0 <= from < size ==> r.value == OwnerPage(items, userId, users[userId], bookings, comments,
                                                                   Pageable(0, size), now)
  {
    if userId !in users then Failure(NotFound)
    else
      var pg := PageFor(from, size);
      if pg.Failure? then Failure(pg.error)
      else Success(OwnerPage(items, userId, users[userId], bookings, comments, pg.value, now))
  }

  /** `g` is the view, by `user`, of one of the items of `userId`. */
  predicate ViewOfOwned(items: seq<Item>, userId: int, user: User, bookings: seq<Booking>, comments: seq<Comment>,
                        now: int, g: ItemGetDto) {
    exists i :: i in items && i.ownerId == userId && g == ItemView(i, user, bookings, comments, now)
  }

  /** One page of the owner's items in id order, each as the owner sees it. */
  function OwnerPage(items: seq<Item>, userId: int, user: User, bookings: seq<Booking>, comments: seq<Comment>,
                     pg: Pageable, now: int): (gs: seq<ItemGetDto>)
    ensures IsPage(gs, ViewAll(Ordered(items, (i: Item) => i.ownerId == userId, ById), user, bookings, comments, now), pg)
    ensures |gs| <= pg.size
    ensures forall j :: 0 <= j < |gs| ==>
              ViewOfOwned(items, userId, user, bookings, comments, now, gs[j])
    ensures forall a, b :: 0 <= a < b < |gs| ==> gs[a].id <= gs[b].id
    ensures pg.page == 0 && |Filter(items, (i: Item) => i.ownerId == userId)| <= pg.size ==>
              forall i :: i in items && i.ownerId == userId ==> ItemView(i, user, bookings, comments, now) in gs
  {
    OwnerPageSpec(items, userId, user, bookings, comments, pg, now);
    ViewAll(FindAllByOwnerId(items, userId, pg), user, bookings, comments, now)
  }

  /** The facts `OwnerPage` promises, about the views of the owner's page. */
  lemma OwnerPageSpec(items: seq<Item>, userId: int, user: User, bookings: seq<Booking>, comments: seq<Comment>,
                      pg: Pageable, now: int)
    ensures var gs := ViewAll(FindAllByOwnerId(items, userId, pg), user, bookings, comments, now);
      IsPage(gs, ViewAll(Ordered(items, (i: Item) => i.ownerId == userId, ById), user, bookings, comments, now), pg) &&
      |gs| <= pg.size &&
      (forall j :: 0 <= j < |gs| ==>
         ViewOfOwned(items, userId, user, bookings, comments, now, gs[j])) &&
      (forall a, b :: 0 <= a < b < |gs| ==> gs[a].id <= gs[b].id) &&
      (pg.page == 0 && |Filter(items, (i: Item) => i.ownerId == userId)| <= pg.size ==>
         forall i :: i in items && i.ownerId == userId ==> ItemView(i, user, bookings, comments, now) in gs)
  {
    var own := FindAllByOwnerId(items, userId, pg);
    var o := Ordered(items, (i: Item) => i.ownerId == userId, ById);
    ViewsOfPage(own, o, pg, user, bookings, comments, now);
    ViewsOfOwned(items, own, userId, user, bookings, comments, now,
                 pg.page == 0 && |Filter(items, (i: Item) => i.ownerId == userId)| <= pg.size);
  }

  /** Viewing each item commutes with paging. */
  lemma ViewsOfPage(r: seq<Item>, o: seq<Item>, pg: Pageable, user: User, bookings: seq<Booking>,
                    comments: seq<Comment>, now: int)
    requires IsPage(r, o, pg)
    ensures IsPage(ViewAll(r, user, bookings, comments, now), ViewAll(o, user, bookings, comments, now), pg)
  {
    PageConverted(r, o, pg, ViewAll(r, user, bookings, comments, now), ViewAll(o, user, bookings, comments, now),
                  (i: Item) => ItemView(i, user, bookings, comments, now));
  }

  /** The views of a page of the owner's items are views of the owner's items,
      in id order, and all of them when the page holds them all. */
  lemma ViewsOfOwned(items: seq<Item>, own: seq<Item>, userId: int, user: User, bookings: seq<Booking>,
                     comments: seq<Comment>, now: int, whole: bool)
    requires forall i :: i in own ==> i in items && i.ownerId == userId
    requires forall a, b :: 0 <= a < b < |own| ==> own[a].id <= own[b].id
    requires whole ==> forall i :: i in items && i.ownerId == userId ==> i in own
    ensures var gs := ViewAll(own, user, bookings, comments, now);
            (forall j :: 0 <= j < |gs| ==>
               ViewOfOwned(items, userId, user, bookings, comments, now, gs[j])) &&
            (forall a, b :: 0 <= a < b < |gs| ==> gs[a].id <= gs[b].id) &&
            (whole ==> forall i :: i in items && i.ownerId == userId ==> ItemView(i, user, bookings, comments, now) in gs)
  {
    var gs := ViewAll(own, user, bookings, comments, now);
    forall j | 0 <= j < |gs|
      ensures ViewOfOwned(items, userId, user, bookings, comments, now, gs[j])
    {
      assert own[j] in own;
    }
    forall i | whole && i in items && i.ownerId == userId
      ensures ItemView(i, user, bookings, comments, now) in gs
    {
      var j :| 0 <= j < |own| && own[j] == i;
      assert gs[j] == ItemView(i, user, bookings, comments, now);
    }
  }

  /** `getItemById`: NotFound for an absent user, then for an absent item;
      otherwise the item as that user sees it. */
  function ItemById(users: map<int, User>, items: map<int, Item>, bookings: seq<Booking>, comments: seq<Comment>,
                    itemId: int, userId: int, now: int): (r: Result<ItemGetDto>)
    ensures userId !in users ==> r == Failure(NotFound)
    ensures userId in users && itemId !in items ==> r == Failure(NotFound)
    ensures r.Success? <==> userId in users && itemId in items
    ensures r.Success? ==> r.value == ItemView(items[itemId], users[userId], bookings, comments, now)
  {
    if userId !in users then Failure(NotFound)
    else if itemId !in items then Failure(NotFound)
    else Success(ItemView(items[itemId], users[userId], bookings, comments, now))
  }

  /** What `createItem` does before saving: NotFound for an absent user, then
      bean validation of the transfer object, then NotFound for a request id
      that names no request; the item built has the user as owner and the
      request, if any. */
  function ItemCreation(users: map<int, User>, requests: map<int, ItemRequest>, dto: ItemDto, userId: int,
                        isValid: ItemDto -> bool): (r: Result<Item>)
    ensures userId !in users ==> r == Failure(NotFound)
    ensures userId in users && !isValid(dto) ==> r == Failure(Validation)
    ensures userId in users && isValid(dto) && dto.requestId.Some? && dto.requestId.value !in requests ==>
              r == Failure(NotFound)
    ensures r.Success? <==> userId in users && isValid(dto) && (dto.requestId.Some? ==> dto.requestId.value in requests)
    ensures r.Success? ==> r.value.ownerId == userId && r.value.name == dto.name &&
                           r.value.description == dto.description && (r.value.available <==> dto.available == Some(true))
    ensures r.Success? && dto.requestId.None? ==> r.value.request.None?
    ensures r.Success? && dto.requestId.Some? ==> r.value.request == Some(requests[dto.requestId.value])
  {
    if userId !in users then Failure(NotFound)
    else if !isValid(dto) then Failure(Validation)
    else if dto.requestId.Some? && dto.requestId.value !in requests then Failure(NotFound)
    else
      var request := if dto.requestId.Some? then Some(requests[dto.requestId.value]) else None;
      Success(ItemMapper.FromItemDto(dto, userId, request))
  }

  /** What `updateItem` does before saving: NotFound for an absent user, then
      for an absent item, then Forbidden for a user who does not own it; then
      bean validation of the stored item patched with the transfer object. The
      item saved keeps its id and owner and loses its request, because the
      two-argument `fromItemDto` sets none. */
  function ItemUpdate(users: map<int, User>, items: map<int, Item>, dto: ItemDto, itemId: int, userId: int,
                      isValid: ItemDto -> bool): (r: Result<Item>)
    ensures userId !in users ==> r == Failure(NotFound)
    ensures userId in users && itemId !in items ==> r == Failure(NotFound)
    ensures userId in users && itemId in items && items[itemId].ownerId != userId ==> r == Failure(Forbidden)
    ensures (userId in users && itemId in items && items[itemId].ownerId == userId &&
             !isValid(PatchItemDto(ItemMapper.ToItemDto(items[itemId]), dto))) ==> r == Failure(Validation)
    ensures r.Success? <==> userId in users && itemId in items && items[itemId].ownerId == userId &&
                            isValid(PatchItemDto(ItemMapper.ToItemDto(items[itemId]), dto))
    ensures r.Success? ==>
              var stored := items[itemId];
              r.value.id == stored.id && r.value.ownerId == userId && r.value.request.None? &&
              r.value.name == (if dto.name.Some? then dto.name else stored.name) &&
              r.value.description == (if dto.description.Some? then dto.description else stored.description) &&
              r.value.available == (if dto.available.Some? then dto.available.value else stored.available)
  {
    if userId !in users then Failure(NotFound)
    else if itemId !in items then Failure(NotFound)
    else if items[itemId].ownerId != userId then Failure(Forbidden)
    else
      var patched := PatchItemDto(ItemMapper.ToItemDto(items[itemId]), dto);
      if !isValid(patched) then Failure(Validation)
      else Success(ItemMapper.FromItemDtoWithoutRequest(patched, userId))
  }

  /** `searchItemsBySubstring`: the empty query finds nothing, before any page is
      computed; otherwise the page `from / size` of the search. A query of
      blanks is searched for. */
  function Search(items: seq<Item>, substring: string, from: int, size: int): (r: Result<seq<ItemDto>>)
    ensures substring == "" ==> r == Success([])
    ensures substring != "" ==> (r.Success? <==> size > 0 && from > -size)
    ensures r.Failure? ==> r.error == InternalError
    ensures r.Success? && substring != "" ==> r.value == SearchPage(items, substring, PageFor(from, size).value)
    ensures r.Success? && substring != "" && 0 <= from < size ==>
              r.value == SearchPage(items, substring, Pageable(0, size))
  {
    if substring == "" then Success([])
    else
      var pg := PageFor(from, size);
      if pg.Failure? then Failure(pg.error)
      else Success(SearchPage(items, substring, pg.value))
  }

  /** `d` is the transfer object of an item of `items` that the search for `q` matches. */
  predicate DtoOfMatch(items: seq<Item>, q: string, d: ItemDto) {
    exists i :: i in items && Searched(i, q) && d == ItemMapper.ToItemDto(i)
  }

  /** One page, in id order, of the available items whose name or description
      contains the query, ignoring case. */
  function SearchPage(items: seq<Item>, substring: string, pg: Pageable): (ds: seq<ItemDto>)
    ensures IsPage(ds, ItemMapper.ToItemsDto(Ordered(items, (i: Item) => Searched(i, substring), ById)), pg)
    ensures |ds| <= pg.size
    ensures forall j :: 0 <= j < |ds| ==> DtoOfMatch(items, substring, ds[j])
    ensures forall a, b :: 0 <= a < b < |ds| ==> ds[a].id <= ds[b].id
    ensures pg.page == 0 && |Filter(items, (i: Item) => Searched(i, substring))| <= pg.size ==>
              forall i :: i in items && Searched(i, substring) ==> ItemMapper.ToItemDto(i) in ds
  {
    var found := SearchSubstring(items, substring, pg);
    var ds := ItemMapper.ToItemsDto(found);
    var o := Ordered(items, (i: Item) => Searched(i, substring), ById);
    PageConverted(found, o, pg, ds, ItemMapper.ToItemsDto(o), ItemMapper.ToItemDto);
    forall i | i in found ensures i in items && Searched(i, substring) {
      SearchedFound(items, substring, pg, i);
    }
    FoundDtosSound(items, substring, found, ds);
    FoundDtosComplete(found, ds);
    ds
  }

  /** The transfer objects of found items are those of matching items. */
  lemma FoundDtosSound(items: seq<Item>, q: string, found: seq<Item>, ds: seq<ItemDto>)
    requires forall i :: i in found ==> i in items && Searched(i, q)
    requires |ds| == |found| && forall j :: 0 <= j < |found| ==> ds[j] == ItemMapper.ToItemDto(found[j])
    ensures forall j :: 0 <= j < |ds| ==> DtoOfMatch(items, q, ds[j])
  {
    forall j | 0 <= j < |ds| ensures DtoOfMatch(items, q, ds[j]) {
      assert found[j] in found;
    }
  }

  /** Every found item's transfer object is listed. */
  lemma FoundDtosComplete(found: seq<Item>, ds: seq<ItemDto>)
    requires |ds| == |found| && forall j :: 0 <= j < |found| ==> ds[j] == ItemMapper.ToItemDto(found[j])
    ensures forall i :: i in found ==> ItemMapper.ToItemDto(i) in ds
  {
    forall i | i in found ensures ItemMapper.ToItemDto(i) in ds {
      var j :| 0 <= j < |found| && found[j] == i;
      assert ds[j] == ItemMapper.ToItemDto(i);
    }
  }

  /** Whatever `searchSubstring` returns meets its own condition. */
  lemma SearchedFound(items: seq<Item>, q: string, pg: Pageable, i: Item)
    requires i in SearchSubstring(items, q, pg)
    ensures Searched(i, q)
  {
  }

  /** What `createComment` does before saving: NotFound for an absent user, then
      for an absent item, then BadRequest unless the user has a booking of that
      item that ended before `now`, whatever its status; the comment built is by
      that user on that item. */
  function CommentCreation(users: map<int, User>, items: map<int, Item>, bookings: seq<Booking>, dto: CommentDto,
                           itemId: int, userId: int, now: int): (r: Result<Comment>)
    ensures userId !in users ==> r == Failure(NotFound)
    ensures userId in users && itemId !in items ==> r == Failure(NotFound)
    ensures userId in users && itemId in items ==>
              (r.Success? <==> exists b :: b in bookings && b.item.id == itemId && b.booker.id == Some(userId) && b.end < now)
    ensures r.Failure? && userId in users && itemId in items ==> r.error == BadRequest
    ensures r.Success? ==> r == Success(CommentMapper.FromCommentDto(dto, items[itemId], users[userId], now))
  {
    if userId !in users then Failure(NotFound)
    else if itemId !in items then Failure(NotFound)
    else if FindAllByItemIdAndBookerIdAndEndBefore(bookings, itemId, userId, now) == {} then Failure(BadRequest)
    else
      Success(CommentMapper.FromCommentDto(dto, items[itemId], users[userId], now))
  }

  class ItemService {
    /** Bean validation of an item transfer object (`ModelValidator<ItemDto>`). */
    const isValid: ItemDto -> bool
    const users: map<int, User>
    const requests: map<int, ItemRequest>
    /** The booking table, each booking with its item and booker. */
    const bookings: seq<Booking>
    var items: map<int, Item>
    /** The last id the items table handed out. */
    var lastItemId: int
    var comments: map<int, Comment>
    /** The last id the comments table handed out. */
    var lastCommentId: int

    /** Users, items and comments sit under their own ids, handed out by their tables. */
    ghost predicate Valid()
      reads this
    {
      (forall k :: k in users ==> users[k].id == Some(k)) &&
      lastItemId >= 0 && (forall k :: k in items ==> 1 <= k <= lastItemId && items[k].id == k) &&
      lastCommentId >= 0 && (forall k :: k in comments ==> 1 <= k <= lastCommentId && comments[k].id == Some(k))
    }

    constructor (isValid: ItemDto -> bool, users: map<int, User>, requests: map<int, ItemRequest>,
                 bookings: seq<Booking>)
      requires forall k :: k in users ==> users[k].id == Some(k)
      ensures Valid()
      ensures this.isValid == isValid && this.users == users && this.requests == requests
      ensures this.bookings == bookings
      ensures items == map[] && lastItemId == 0 && comments == map[] && lastCommentId == 0
    {
      this.isValid := isValid;
      this.users := users;
      this.requests := requests;
      this.bookings := bookings;
      items := map[];
      lastItemId := 0;
      comments := map[];
      lastCommentId := 0;
    }

    /** The item table in id order. */
    function AllItems(): (r: seq<Item>)
      reads this
      requires Valid()
      ensures forall k :: k in items ==> items[k] in r
      ensures forall i :: 0 <= i < |r| ==> exists k :: k in items && items[k] == r[i]
    {
      TableOrder(items, lastItemId)
    }

    /** The comment table in id order. */
    function AllComments(): (r: seq<Comment>)
      reads this
      requires Valid()
      ensures forall k :: k in comments ==> comments[k] in r
      ensures forall i :: 0 <= i < |r| ==> exists k :: k in comments && comments[k] == r[i]
    {
      TableOrder(comments, lastCommentId)
    }

    /** `getItemsByUserId`. */
    function GetItemsByUserId(userId: int, from: int, size: int, now: int): (r: Result<seq<ItemGetDto>>)
      reads this
      requires Valid()
      ensures r == ItemsOfOwner(users, AllItems(), bookings, AllComments(), userId, from, size, now)
      ensures r.Success? <==> userId in users && size > 0 && from > -size
    {
      ItemsOfOwner(users, AllItems(), bookings, AllComments(), userId, from, size, now)
    }

    /** `getItemById`. */
    function GetItemById(itemId: int, userId: int, now: int): (r: Result<ItemGetDto>)
      reads this
      requires Valid()
      ensures r == ItemById(users, items, bookings, AllComments(), itemId, userId, now)
      ensures r.Success? <==> userId in users && itemId in items
    {
      ItemById(users, items, bookings, AllComments(), itemId, userId, now)
    }

    /** `searchItemsBySubstring`. */
    function SearchItemsBySubstring(substring: string, from: int, size: int): (r: Result<seq<ItemDto>>)
      reads this
      requires Valid()
      ensures r == Search(AllItems(), substring, from, size)
      ensures substring == "" ==> r == Success([])
    {
      Search(AllItems(), substring, from, size)
    }

    /** `createItem`: on success, saves the item under a fresh id and returns it;
        on failure, saves nothing. */
    method CreateItem(dto: ItemDto, userId: int) returns (r: Result<ItemDto>)
      requires Valid()
      modifies this`items, this`lastItemId
      ensures Valid()
      ensures ItemCreation(users, requests, dto, userId, isValid).Failure? ==>
                r == Failure(ItemCreation(users, requests, dto, userId, isValid).error) &&
                items == old(items) && lastItemId == old(lastItemId)
      ensures ItemCreation(users, requests, dto, userId, isValid).Success? ==>
                var id := old(lastItemId) + 1;
                var saved := ItemCreation(users, requests, dto, userId, isValid).value.(id := id);
                id !in old(items) && lastItemId == id && items == old(items)[id := saved] &&
                r == Success(ItemMapper.ToItemDto(saved))
    {
      var c := ItemCreation(users, requests, dto, userId, isValid);
      if c.Failure? {
        return Failure(c.error);
      }
      var id := lastItemId + 1;
      var saved := c.value.(id := id);
      items := items[id := saved];
      lastItemId := id;
      r := Success(ItemMapper.ToItemDto(saved));
    }

    /** `updateItem`: on success, replaces that one item and returns it; on
        failure, changes nothing. */
    method UpdateItem(dto: ItemDto, itemId: int, userId: int) returns (r: Result<ItemDto>)
      requires Valid()
      modifies this`items
      ensures Valid()
      ensures old(ItemUpdate(users, items, dto, itemId, userId, isValid)).Failure? ==>
                r == Failure(old(ItemUpdate(users, items, dto, itemId, userId, isValid)).error) && items == old(items)
      ensures old(ItemUpdate(users, items, dto, itemId, userId, isValid)).Success? ==>
                var saved := old(ItemUpdate(users, items, dto, itemId, userId, isValid)).value;
                items == old(items)[itemId := saved] && r == Success(ItemMapper.ToItemDto(saved))
    {
      var c := ItemUpdate(users, items, dto, itemId, userId, isValid);
      if c.Failure? {
        return Failure(c.error);
      }
      items := items[itemId := c.value];
      r := Success(ItemMapper.ToItemDto(c.value));
    }

    /** `createComment`: on success, saves the comment under a fresh id and
        returns it; on failure, saves nothing. */
    method CreateComment(dto: CommentDto, itemId: int, userId: int, now: int) returns (r: Result<CommentDto>)
      requires Valid()
      modifies this`comments, this`lastCommentId
      ensures Valid()
      ensures old(CommentCreation(users, items, bookings, dto, itemId, userId, now)).Failure? ==>
                r == Failure(old(CommentCreation(users, items, bookings, dto, itemId, userId, now)).error) &&
                comments == old(comments) && lastCommentId == old(lastCommentId)
      ensures old(CommentCreation(users, items, bookings, dto, itemId, userId, now)).Success? ==>
                var id := old(lastCommentId) + 1;
                var saved := old(CommentCreation(users, items, bookings, dto, itemId, userId, now)).value.(id := Some(id));
                id !in old(comments) && lastCommentId == id && comments == old(comments)[id := saved] &&
                r == Success(CommentMapper.ToCommentDto(saved))
    {
      var c := CommentCreation(users, items, bookings, dto, itemId, userId, now);
      if c.Failure? {
        return Failure(c.error);
      }
      var id := lastCommentId + 1;
      var saved := c.value.(id := Some(id));
      comments := comments[id := saved];
      lastCommentId := id;
      r := Success(CommentMapper.ToCommentDto(saved));
    }
  }
}
