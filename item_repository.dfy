/** The queries of the earlier generation's `ItemRepository` by what they
    select, over the item table listed in id order. The only sort the services
    pass with a page is by id ascending, so pages here are ordered that way. */
module ItemRepository {
  import opened Common
  import opened Model

  /** Sort key of `Sort.by("id").ascending()`. */
  function ById(i: Item): int { i.id }

  /** `upper(field) like upper(concat('%', q, '%'))`: the upper-cased query occurs
      in the upper-cased field. A null field is never like anything. */
  predicate Like(field: Option<string>, q: string) {
    field.Some? && Contains(Upper(field.value), Upper(q))
  }

  /** The condition of `searchSubstring`. */
  predicate Searched(i: Item, q: string) {
    (Like(i.name, q) || Like(i.description, q)) && i.available
  }

  /** `i.request = :itemRequest`: entities compare by primary key. */
  predicate Answers(i: Item, request: ItemRequest) {
    i.request.Some? && i.request.value.id == request.id
  }

  /** `findAllByOwnerId`: one page of the owner's items in id order; an owner
      with no items gets none. */
  function FindAllByOwnerId(items: seq<Item>, ownerId: int, pg: Pageable): (r: seq<Item>)
    ensures IsPage(r, Ordered(items, (i: Item) => i.ownerId == ownerId, ById), pg)
    ensures forall i :: i in r ==> i in items && i.ownerId == ownerId
    ensures forall a, b :: 0 <= a < b < |r| ==> r[a].id <= r[b].id
    ensures |r| <= pg.size
    ensures pg.page == 0 && |Filter(items, (i: Item) => i.ownerId == ownerId)| <= pg.size ==>
      forall i :: i in items && i.ownerId == ownerId ==> i in r
    ensures (forall i :: i in items ==> i.ownerId != ownerId) ==> r == []
  {
    var r := PagedQuery(items, (i: Item) => i.ownerId == ownerId, ById, pg);
    assert r != [] ==> r[0] in r;
    r
  }

  /** `findAllByRequest`: exactly the items that answer `request`. The source
      returns a `Set`; the model lists it in table order. */
  function FindAllByRequest(items: seq<Item>, request: ItemRequest): (r: seq<Item>)
    ensures forall i :: i in r <==> i in items && Answers(i, request)
  {
    Filter(items, (i: Item) => Answers(i, request))
  }

  /** `searchSubstring`: one page, in id order, of the available items whose name
      or description contains the query, ignoring case. */
  function SearchSubstring(items: seq<Item>, q: string, pg: Pageable): (r: seq<Item>)
    ensures IsPage(r, Ordered(items, (i: Item) => Searched(i, q), ById), pg)
    ensures forall i :: i in r ==> i in items && i.available
    ensures forall i :: i in r ==> (i.name.Some? && Contains(Upper(i.name.value), Upper(q))) ||
                                   (i.description.Some? && Contains(Upper(i.description.value), Upper(q)))
    ensures forall a, b :: 0 <= a < b < |r| ==> r[a].id <= r[b].id
    ensures |r| <= pg.size
    ensures pg.page == 0 && |Filter(items, (i: Item) => Searched(i, q))| <= pg.size ==>
      forall i :: i in items && Searched(i, q) ==> i in r
  {
    PagedQuery(items, (i: Item) => Searched(i, q), ById, pg)
  }

  /** The search ignores case: a query finds an item exactly when its upper-cased
      form does. */
  lemma SearchIgnoresCase(i: Item, q: string)
    ensures Searched(i, q) <==> Searched(i, Upper(q))
  {
    UpperIdempotent(q);
  }
}
