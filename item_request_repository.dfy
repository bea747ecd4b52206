/** The queries of the earlier generation's `ItemRequestRepository` by what
    they select, over the request table listed in id order. */
module ItemRequestRepository {
  import opened Common
  import opened Model

  /** Sort key of `order by ir.created`. The service always sets the creation
      time; where the database puts a request without one is left open, and the
      model reads it as time 0. */
  function ByCreated(r: ItemRequest): int { r.created.GetOr(0) }

  /** `ir.requestor = :requestor`: entities compare by primary key. */
  predicate RequestedBy(r: ItemRequest, requestor: User) { r.requestor.id == requestor.id }

  /** `findAllByRequestorOrderByCreated`: exactly the user's requests, oldest first. */
  function FindAllByRequestorOrderByCreated(rs: seq<ItemRequest>, requestor: User): (r: seq<ItemRequest>)
    ensures forall x :: x in r <==> x in rs && RequestedBy(x, requestor)
    ensures multiset(r) == multiset(Filter(rs, (x: ItemRequest) => RequestedBy(x, requestor)))
    ensures forall a, b :: 0 <= a < b < |r| && r[a].created.Some? && r[b].created.Some? ==>
                           r[a].created.value <= r[b].created.value
  {
    Ordered(rs, (x: ItemRequest) => RequestedBy(x, requestor), ByCreated)
  }

  /** `findAllByNotRequestorOrderByCreated`: one page of the other users'
      requests, oldest first. */
  function FindAllByNotRequestorOrderByCreated(rs: seq<ItemRequest>, requestor: User, pg: Pageable)
    : (r: seq<ItemRequest>)
    ensures IsPage(r, Ordered(rs, (x: ItemRequest) => !RequestedBy(x, requestor), ByCreated), pg)
    ensures forall x :: x in r ==> x in rs && !RequestedBy(x, requestor)
    ensures forall a, b :: 0 <= a < b < |r| && r[a].created.Some? && r[b].created.Some? ==>
                           r[a].created.value <= r[b].created.value
    ensures |r| <= pg.size
    ensures pg.page == 0 && |Filter(rs, (x: ItemRequest) => !RequestedBy(x, requestor))| <= pg.size ==>
      forall x :: x in rs && !RequestedBy(x, requestor) ==> x in r
  {
    PagedQuery(rs, (x: ItemRequest) => !RequestedBy(x, requestor), ByCreated, pg)
  }

  /** The two queries split the table: a request is either one of the user's own
      or, when all requests fit on the first page, among the others. */
  lemma {:induction false} OwnAndOthers(rs: seq<ItemRequest>, requestor: User, size: nat)
    requires |rs| <= size
    ensures forall x :: x in rs ==>
              (x in FindAllByRequestorOrderByCreated(rs, requestor) <==>
               x !in FindAllByNotRequestorOrderByCreated(rs, requestor, Pageable(0, size)))
  {
  }
}
