/** The earlier generation's `ItemRequestServiceImpl`: requests for items, each
    listed with the items offered in answer to it. The service reads the user
    and item tables and writes only the request table. */
module ItemRequestService {
  import opened Common
  import opened Model
  import UserMapper
  import ItemMapper
  import ItemRequestMapper
  import opened ItemRepository
  import opened ItemRequestRepository

  /** A request as the API shows it: with the items of `items` that answer it. */
  function Shown(items: seq<Item>, r: ItemRequest): (d: ItemRequestDto)
    ensures d == ItemRequestMapper.ToItemRequestDto(r, FindAllByRequest(items, r))
    ensures forall j :: 0 <= j < |d.items| ==> d.items[j].requestId == r.id
    ensures forall i :: i in items && Answers(i, r) ==> ItemMapper.ToItemDto(i) in d.items
  {
    var answers := FindAllByRequest(items, r);
    var d := ItemRequestMapper.ToItemRequestDto(r, answers);
    forall j | 0 <= j < |d.items| ensures d.items[j].requestId == r.id {
      assert answers[j] in answers;
    }
    forall i | i in items && Answers(i, r) ensures ItemMapper.ToItemDto(i) in d.items {
      var j :| 0 <= j < |answers| && answers[j] == i;
      assert d.items[j] == ItemMapper.ToItemDto(i);
    }
    d
  }

  /** `toItemRequestsDto(requests, itemRepository::findAllByRequest)`: each
      request shown, in the same order. */
  function ShownAll(items: seq<Item>, rs: seq<ItemRequest>): (ds: seq<ItemRequestDto>)
    ensures |ds| == |rs|
    ensures forall j :: 0 <= j < |rs| ==> ds[j] == Shown(items, rs[j])
    ensures forall j :: 0 <= j < |rs| ==> ds[j].requestor == Some(UserMapper.ToUserDto(rs[j].requestor))
    ensures forall j :: 0 <= j < |rs| ==> ds[j].created == rs[j].created
    ensures forall r :: r in rs ==> Shown(items, r) in ds
  {
    var ds := ItemRequestMapper.ToItemRequestsDto(rs, (q: ItemRequest) => FindAllByRequest(items, q));
    forall r | r in rs ensures Shown(items, r) in ds {
      var j :| 0 <= j < |rs| && rs[j] == r;
      assert ds[j] == Shown(items, r);
    }
    ds
  }

  /** `d` shows one of the stored requests, with the items that answer it. */
  ghost predicate ShowsStored(items: seq<Item>, requests: map<int, ItemRequest>, d: ItemRequestDto) {
    exists k :: k in requests && d == Shown(items, requests[k])
  }

  class ItemRequestService {
    const users: map<int, User>
    /** The item table in id order. */
    const items: seq<Item>
    var requests: map<int, ItemRequest>
    /** The last id the requests table handed out. */
    var lastRequestId: int

    /** Users and requests sit under their own ids, handed out by their tables. */
    ghost predicate Valid()
      reads this
    {
      (forall k :: k in users ==> users[k].id == Some(k)) &&
      lastRequestId >= 0 &&
      forall k :: k in requests ==> 1 <= k <= lastRequestId && requests[k].id == Some(k)
    }

    constructor (users: map<int, User>, items: seq<Item>)
      requires forall k :: k in users ==> users[k].id == Some(k)
      ensures Valid()
      ensures this.users == users && this.items == items && requests == map[] && lastRequestId == 0
    {
      this.users := users;
      this.items := items;
      requests := map[];
      lastRequestId := 0;
    }

    /** The request table in id order. */
    function AllRequests(): (rs: seq<ItemRequest>)
      reads this
      requires Valid()
      ensures forall k :: k in requests ==> requests[k] in rs
      ensures forall i :: 0 <= i < |rs| ==> exists k :: k in requests && requests[k] == rs[i]
    {
      TableOrder(requests, lastRequestId)
    }

    /** `createItemRequest`: NotFound for an absent user; otherwise the request is
        saved under a fresh id with the caller as requestor and `now` as its
        creation time, whatever the transfer object said, and is returned
        without items. */
    method CreateItemRequest(dto: ItemRequestDto, userId: int, now: int) returns (r: Result<ItemRequestDto>)
      requires Valid()
      modifies this
      ensures Valid()
      ensures userId !in users ==> r == Failure(NotFound) && requests == old(requests) && lastRequestId == old(lastRequestId)
      ensures userId in users ==>
                var id := old(lastRequestId) + 1;
                var saved := ItemRequest(Some(id), dto.description, users[userId], Some(now));
                id !in old(requests) && lastRequestId == id && requests == old(requests)[id := saved] &&
                r == Success(ItemRequestMapper.ToItemRequestDtoWithoutItems(saved))
    {
      if userId !in users {
        return Failure(NotFound);
      }
      var requestor := UserMapper.ToUserDto(users[userId]);
      var stamped := dto.(requestor := Some(requestor), created := Some(now));
      var request := ItemRequestMapper.FromItemRequestDto(stamped);
      UserMapper.UserRoundTrip(users[userId], requestor);
      var id := lastRequestId + 1;
      var saved := request.(id := Some(id));
      requests := requests[id := saved];
      lastRequestId := id;
      r := Success(ItemRequestMapper.ToItemRequestDtoWithoutItems(saved));
    }

    /** `getItemRequestsByRequestorId`: NotFound for an absent user; otherwise
        exactly the user's requests, oldest first, each with its items. */
    function GetItemRequestsByRequestorId(userId: int): (r: Result<seq<ItemRequestDto>>)
      reads this
      requires Valid()
      ensures r.Success? <==> userId in users
      ensures r.Failure? ==> r.error == NotFound
      ensures r.Success? ==> r.value == ShownAll(items, FindAllByRequestorOrderByCreated(AllRequests(), users[userId]))
      ensures r.Success? ==> forall j :: 0 <= j < |r.value| ==>
                ShowsStored(items, requests, r.value[j]) &&
                r.value[j].requestor.Some? && r.value[j].requestor.value.id == Some(userId)
      ensures r.Success? ==> forall k :: k in requests && requests[k].requestor.id == Some(userId) ==>
                Shown(items, requests[k]) in r.value
      ensures r.Success? ==> forall a, b ::
                (0 <= a < b < |r.value| && r.value[a].created.Some? && r.value[b].created.Some?) ==>
                r.value[a].created.value <= r.value[b].created.value
    {
      if userId !in users then Failure(NotFound)
      else
        var all := AllRequests();
        var user := users[userId];
        var own := FindAllByRequestorOrderByCreated(all, user);
        var ds := ShownAll(items, own);
        forall j | 0 <= j < |ds|
          ensures ShowsStored(items, requests, ds[j])
          ensures ds[j].requestor.Some? && ds[j].requestor.value.id == Some(userId)
        {
          assert own[j] in own;
          var k :| k in requests && requests[k] == own[j];
          assert ds[j] == Shown(items, requests[k]);
        }
        forall k | k in requests && requests[k].requestor.id == Some(userId) ensures Shown(items, requests[k]) in ds {
          assert requests[k] in all;
          assert requests[k] in own;
        }
        Success(ds)
    }

    /** The user's listing shows each of the user's stored requests once: one
        entry per request, and no two entries with the same id. */
    lemma RequestorListingOnce(userId: int)
      requires Valid() && userId in users
      ensures var ds := GetItemRequestsByRequestorId(userId).value;
        |ds| == |Filter(AllRequests(), (x: ItemRequest) => RequestedBy(x, users[userId]))| &&
        forall a, b :: 0 <= a < b < |ds| ==> ds[a].id != ds[b].id
    {
      var all := AllRequests();
      var p := (x: ItemRequest) => RequestedBy(x, users[userId]);
      var own := FindAllByRequestorOrderByCreated(all, users[userId]);
      var ds := GetItemRequestsByRequestorId(userId).value;
      assert Injective(requests);
      TableOrderOnce(requests, lastRequestId);
      FilterDistinct(all, p);
      PermutationDistinct(own, Filter(all, p));
      forall a, b | 0 <= a < b < |ds| ensures ds[a].id != ds[b].id {
        assert own[a] in own && own[b] in own;
        var ka :| ka in requests && requests[ka] == own[a];
        var kb :| kb in requests && requests[kb] == own[b];
        assert ds[a].id == Some(ka) && ds[b].id == Some(kb);
      }
    }

    /** `getItemRequestsByNotRequestorId`: NotFound for an absent user; then
        `PageRequest.of(from, size)`, which takes `from` itself as the page
        number; page `from` of the other users' requests, oldest first, each
        with its items. */
    function GetItemRequestsByNotRequestorId(userId: int, from: int, size: int): (r: Result<seq<ItemRequestDto>>)
      reads this
      requires Valid()
      ensures userId !in users ==> r == Failure(NotFound)
      ensures userId in users && (from < 0 || size < 1) ==> r == Failure(InternalError)
      ensures r.Success? <==> userId in users && from >= 0 && size >= 1
      ensures r.Success? ==>
                IsPage(r.value, ShownAll(items, Ordered(AllRequests(), (x: ItemRequest) => !RequestedBy(x, users[userId]), ByCreated)),
                       Pageable(from, size))
      ensures r.Success? ==> |r.value| <= size
      ensures r.Success? ==> forall j :: 0 <= j < |r.value| ==>
                ShowsStored(items, requests, r.value[j]) &&
                r.value[j].requestor.Some? && r.value[j].requestor.value.id != Some(userId)
      ensures r.Success? ==> forall a, b ::
                (0 <= a < b < |r.value| && r.value[a].created.Some? && r.value[b].created.Some?) ==>
                r.value[a].created.value <= r.value[b].created.value
      ensures r.Success? && from == 0 &&
              |Filter(AllRequests(), (x: ItemRequest) => x.requestor.id != Some(userId))| <= size ==>
                forall k :: k in requests && requests[k].requestor.id != Some(userId) ==> Shown(items, requests[k]) in r.value
      ensures r.Success? && lastRequestId <= from * size ==> r.value == []
    {
      if userId !in users then Failure(NotFound)
      else
        var pg := PageRequest(from, size);
        if pg.Failure? then Failure(pg.error)
        else
          OthersPage(userId, pg.value);
          Success(ShownAll(items, FindAllByNotRequestorOrderByCreated(AllRequests(), users[userId], pg.value)))
    }

    /** The facts `getItemRequestsByNotRequestorId` promises, about page `pg`
        of the other users' requests. */
    lemma OthersPage(userId: int, pg: Pageable)
      requires Valid() && userId in users
      ensures var ds := ShownAll(items, FindAllByNotRequestorOrderByCreated(AllRequests(), users[userId], pg));
        IsPage(ds, ShownAll(items, Ordered(AllRequests(), (x: ItemRequest) => !RequestedBy(x, users[userId]), ByCreated)), pg) &&
        |ds| <= pg.size &&
        (forall j :: 0 <= j < |ds| ==>
           ShowsStored(items, requests, ds[j]) && ds[j].requestor.Some? && ds[j].requestor.value.id != Some(userId)) &&
        (forall a, b :: (0 <= a < b < |ds| && ds[a].created.Some? && ds[b].created.Some?) ==>
           ds[a].created.value <= ds[b].created.value) &&
        (pg.page == 0 && |Filter(AllRequests(), (x: ItemRequest) => x.requestor.id != Some(userId))| <= pg.size ==>
           forall k :: k in requests && requests[k].requestor.id != Some(userId) ==> Shown(items, requests[k]) in ds) &&
        (lastRequestId <= pg.page * pg.size ==> ds == [])
    {
      var all := AllRequests();
      var user := users[userId];
      var page := FindAllByNotRequestorOrderByCreated(all, user, pg);
      var ds := ShownAll(items, page);
      var o := Ordered(all, (x: ItemRequest) => !RequestedBy(x, user), ByCreated);
      PageConverted(page, o, pg, ds, ShownAll(items, o), (q: ItemRequest) => Shown(items, q));
      FilterAgrees(all, (x: ItemRequest) => x.requestor.id != Some(userId), (x: ItemRequest) => !RequestedBy(x, user));
      forall j | 0 <= j < |ds|
        ensures ShowsStored(items, requests, ds[j])
        ensures ds[j].requestor.Some? && ds[j].requestor.value.id != Some(userId)
      {
        assert page[j] in page;
        var k :| k in requests && requests[k] == page[j];
        assert ds[j] == Shown(items, requests[k]);
      }
      forall k | pg.page == 0 && |Filter(all, (x: ItemRequest) => x.requestor.id != Some(userId))| <= pg.size &&
                 k in requests && requests[k].requestor.id != Some(userId)
        ensures Shown(items, requests[k]) in ds
      {
        assert requests[k] in all;
        assert requests[k] in page;
      }
    }

    /** `getRequestById`: NotFound for an absent user, then for an absent request;
        otherwise the request with the items that answer it. */
    function GetRequestById(userId: int, requestId: int): (r: Result<ItemRequestDto>)
      reads this
      requires Valid()
      ensures userId !in users ==> r == Failure(NotFound)
      ensures userId in users && requestId !in requests ==> r == Failure(NotFound)
      ensures r.Success? <==> userId in users && requestId in requests
      ensures r.Success? ==> r.value == Shown(items, requests[requestId]) && r.value.id == Some(requestId)
    {
      if userId !in users then Failure(NotFound)
      else if requestId !in requests then Failure(NotFound)
      else Success(Shown(items, requests[requestId]))
    }
  }
}
