/** Conversions between the `ItemRequest` entity and its transfer object. */
module ItemRequestMapper {
  import opened Common
  import opened Model
  import UserMapper
  import ItemMapper

  /** `toItemRequestDto(itemRequest, items)`: copies id, description and creation
      time, converts the requestor, and lists the given items in order. */
  function ToItemRequestDto(r: ItemRequest, items: seq<Item>): (d: ItemRequestDto)
    ensures d.id == r.id && d.description == r.description && d.created == r.created
    ensures d.requestor == Some(UserMapper.ToUserDto(r.requestor))
    ensures |d.items| == |items|
    ensures forall k :: 0 <= k < |items| ==> d.items[k] == ItemMapper.ToItemDto(items[k])
  {
    ItemRequestDto(r.id, r.description, Some(UserMapper.ToUserDto(r.requestor)), r.created,
                   ItemMapper.ToItemsDto(items))
  }

  /** `toItemRequestDto(itemRequest)`: the same with no items. */
  function ToItemRequestDtoWithoutItems(r: ItemRequest): (d: ItemRequestDto)
    ensures d == ToItemRequestDto(r, [])
    ensures d.items == []
  {
    ToItemRequestDto(r, [])
  }

  /** `toItemRequestsDto(itemRequests, getItems)`: each request converted with
      the items `getItems` finds for it, in the same order. */
  function ToItemRequestsDto(rs: seq<ItemRequest>, getItems: ItemRequest -> seq<Item>): (ds: seq<ItemRequestDto>)
    ensures |ds| == |rs|
    ensures forall k :: 0 <= k < |rs| ==> ds[k] == ToItemRequestDto(rs[k], getItems(rs[k]))
  {
    if rs == [] then [] else [ToItemRequestDto(rs[0], getItems(rs[0]))] + ToItemRequestsDto(rs[1..], getItems)
  }

  /** `fromItemRequestDto`: copies id, description and creation time and converts
      the requestor back. The requestor must be present: the source dereferences it. */
  function FromItemRequestDto(d: ItemRequestDto): (r: ItemRequest)
    requires d.requestor.Some?
    ensures r.id == d.id && r.description == d.description && r.created == d.created
    ensures r.requestor == UserMapper.FromUserDto(d.requestor.value)
  {
    ItemRequest(d.id, d.description, UserMapper.FromUserDto(d.requestor.value), d.created)
  }

  /** A request survives the trip through its transfer object and back. */
  lemma ItemRequestRoundTrip(r: ItemRequest, items: seq<Item>)
    ensures FromItemRequestDto(ToItemRequestDto(r, items)) == r
  {
    UserMapper.UserRoundTrip(r.requestor, UserMapper.ToUserDto(r.requestor));
  }
}
