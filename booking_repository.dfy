/** The queries of `BookingRepository` by what they select. Each list query
    filters the bookings, orders them by start, latest first, and returns one
    page; the database order of bookings with equal start is left open, and this
    model keeps their table order. */
module BookingRepository {
  import opened Common
  import opened Model

  /** `b.booker = :booker`: entities compare by primary key. */
  predicate BookedBy(b: Booking, booker: User) { b.booker.id == booker.id }

  /** `b.item.ownerId = :ownerId`. */
  predicate OwnedBy(b: Booking, ownerId: int) { b.item.ownerId == ownerId }

  /** `CURRENT_TIMESTAMP between b.start and b.end`: both ends included. */
  predicate IsCurrent(b: Booking, now: int) { b.start <= now <= b.end }

  /** `StartAfter`: strictly after. */
  predicate StartsAfter(b: Booking, t: int) { b.start > t }

  /** `EndBefore`: strictly before. */
  predicate EndsBefore(b: Booking, t: int) { b.end < t }

  /** Sort key of `Sort.by("start").descending()`. */
  function StartDescending(b: Booking): int { -b.start }

  function EndDescending(b: Booking): int { -b.end }

  /** One page of the bookings that satisfy `p`, latest start first. */
  function Query(bs: seq<Booking>, p: Booking -> bool, pg: Pageable): (r: seq<Booking>)
    ensures IsPage(r, Ordered(bs, p, StartDescending), pg)
    ensures forall b :: b in r ==> b in bs && p(b)
    ensures forall i, j :: 0 <= i < j < |r| ==> r[i].start >= r[j].start
    ensures |r| <= pg.size
    ensures pg.page == 0 && |Filter(bs, p)| <= pg.size ==> forall b :: b in bs && p(b) ==> b in r
  {
    var r := PagedQuery(bs, p, StartDescending, pg);
    assert forall i, j :: 0 <= i < j < |r| ==> StartDescending(r[i]) <= StartDescending(r[j]);
    r
  }

  /** Paging loses nothing: every matching booking is on some page. */
  lemma {:induction false} OnSomePage(bs: seq<Booking>, p: Booking -> bool, size: nat, b: Booking)
    requires size > 0 && b in bs && p(b)
    ensures exists k: nat :: b in Query(bs, p, Pageable(k, size))
  {
    var s := Ordered(bs, p, StartDescending);
    assert b in s;
    var i :| 0 <= i < |s| && s[i] == b;
    var k := PageHolding(i, size);
    var q := Query(bs, p, Pageable(k, size));
    OnPage(q, s, size, k, i);
    assert b in q;
  }

  /** `findAllByBooker`. */
  function FindAllByBooker(bs: seq<Booking>, booker: User, pg: Pageable): (r: seq<Booking>)
    ensures IsPage(r, Ordered(bs, (b: Booking) => BookedBy(b, booker), StartDescending), pg)
    ensures forall b :: b in r ==> b in bs && BookedBy(b, booker)
    ensures pg.page == 0 && |Filter(bs, (b: Booking) => BookedBy(b, booker))| <= pg.size ==>
      forall b :: b in bs && BookedBy(b, booker) ==> b in r
    ensures forall i, j :: 0 <= i < j < |r| ==> r[i].start >= r[j].start
    ensures |r| <= pg.size
  {
    Query(bs, (b: Booking) => BookedBy(b, booker), pg)
  }

  /** `findAllByBookerStateCurrent`: whatever the status. */
  function FindAllByBookerStateCurrent(bs: seq<Booking>, booker: User, now: int, pg: Pageable): (r: seq<Booking>)
    ensures IsPage(r, Ordered(bs, (b: Booking) => BookedBy(b, booker) && IsCurrent(b, now), StartDescending), pg)
    ensures forall b :: b in r ==> b in bs && BookedBy(b, booker) && IsCurrent(b, now)
    ensures pg.page == 0 && |Filter(bs, (b: Booking) => BookedBy(b, booker) && IsCurrent(b, now))| <= pg.size ==>
      forall b :: b in bs && BookedBy(b, booker) && IsCurrent(b, now) ==> b in r
    ensures forall i, j :: 0 <= i < j < |r| ==> r[i].start >= r[j].start
    ensures |r| <= pg.size
  {
    Query(bs, (b: Booking) => BookedBy(b, booker) && IsCurrent(b, now), pg)
  }

  /** `findAllByBookerAndStartAfter`: whatever the status. */
  function FindAllByBookerAndStartAfter(bs: seq<Booking>, booker: User, t: int, pg: Pageable): (r: seq<Booking>)
    ensures IsPage(r, Ordered(bs, (b: Booking) => BookedBy(b, booker) && StartsAfter(b, t), StartDescending), pg)
    ensures forall b :: b in r ==> b in bs && BookedBy(b, booker) && StartsAfter(b, t)
    ensures pg.page == 0 && |Filter(bs, (b: Booking) => BookedBy(b, booker) && StartsAfter(b, t))| <= pg.size ==>
      forall b :: b in bs && BookedBy(b, booker) && StartsAfter(b, t) ==> b in r
    ensures forall i, j :: 0 <= i < j < |r| ==> r[i].start >= r[j].start
    ensures |r| <= pg.size
  {
    Query(bs, (b: Booking) => BookedBy(b, booker) && StartsAfter(b, t), pg)
  }

  /** `findAllByBookerAndEndBefore`: whatever the status. */
  function FindAllByBookerAndEndBefore(bs: seq<Booking>, booker: User, t: int, pg: Pageable): (r: seq<Booking>)
    ensures IsPage(r, Ordered(bs, (b: Booking) => BookedBy(b, booker) && EndsBefore(b, t), StartDescending), pg)
    ensures forall b :: b in r ==> b in bs && BookedBy(b, booker) && EndsBefore(b, t)
    ensures pg.page == 0 && |Filter(bs, (b: Booking) => BookedBy(b, booker) && EndsBefore(b, t))| <= pg.size ==>
      forall b :: b in bs && BookedBy(b, booker) && EndsBefore(b, t) ==> b in r
    ensures forall i, j :: 0 <= i < j < |r| ==> r[i].start >= r[j].start
    ensures |r| <= pg.size
  {
    Query(bs, (b: Booking) => BookedBy(b, booker) && EndsBefore(b, t), pg)
  }

  /** `findAllByBookerAndStatus`: exactly that status, CANCELED included. */
  function FindAllByBookerAndStatus(bs: seq<Booking>, booker: User, status: BookingStatus,
                                    pg: Pageable): (r: seq<Booking>)
    ensures IsPage(r, Ordered(bs, (b: Booking) => BookedBy(b, booker) && b.status == status, StartDescending), pg)
    ensures forall b :: b in r ==> b in bs && BookedBy(b, booker) && b.status == status
    ensures pg.page == 0 && |Filter(bs, (b: Booking) => BookedBy(b, booker) && b.status == status)| <= pg.size ==>
      forall b :: b in bs && BookedBy(b, booker) && b.status == status ==> b in r
    ensures forall i, j :: 0 <= i < j < |r| ==> r[i].start >= r[j].start
    ensures |r| <= pg.size
  {
    Query(bs, (b: Booking) => BookedBy(b, booker) && b.status == status, pg)
  }

  /** `findAllByItemOwnerId`. */
  function FindAllByItemOwnerId(bs: seq<Booking>, ownerId: int, pg: Pageable): (r: seq<Booking>)
    ensures IsPage(r, Ordered(bs, (b: Booking) => OwnedBy(b, ownerId), StartDescending), pg)
    ensures forall b :: b in r ==> b in bs && OwnedBy(b, ownerId)
    ensures pg.page == 0 && |Filter(bs, (b: Booking) => OwnedBy(b, ownerId))| <= pg.size ==>
      forall b :: b in bs && OwnedBy(b, ownerId) ==> b in r
    ensures forall i, j :: 0 <= i < j < |r| ==> r[i].start >= r[j].start
    ensures |r| <= pg.size
  {
    Query(bs, (b: Booking) => OwnedBy(b, ownerId), pg)
  }

  /** `findAllByItemOwnerIdStateCurrent`. */
  function FindAllByItemOwnerIdStateCurrent(bs: seq<Booking>, ownerId: int, now: int, pg: Pageable): (r: seq<Booking>)
    ensures IsPage(r, Ordered(bs, (b: Booking) => OwnedBy(b, ownerId) && IsCurrent(b, now), StartDescending), pg)
    ensures forall b :: b in r ==> b in bs && OwnedBy(b, ownerId) && IsCurrent(b, now)
    ensures pg.page == 0 && |Filter(bs, (b: Booking) => OwnedBy(b, ownerId) && IsCurrent(b, now))| <= pg.size ==>
      forall b :: b in bs && OwnedBy(b, ownerId) && IsCurrent(b, now) ==> b in r
    ensures forall i, j :: 0 <= i < j < |r| ==> r[i].start >= r[j].start
    ensures |r| <= pg.size
  {
    Query(bs, (b: Booking) => OwnedBy(b, ownerId) && IsCurrent(b, now), pg)
  }

  /** `findAllByItemOwnerIdAndStartAfter`. */
  function FindAllByItemOwnerIdAndStartAfter(bs: seq<Booking>, ownerId: int, t: int, pg: Pageable): (r: seq<Booking>)
    ensures IsPage(r, Ordered(bs, (b: Booking) => OwnedBy(b, ownerId) && StartsAfter(b, t), StartDescending), pg)
    ensures forall b :: b in r ==> b in bs && OwnedBy(b, ownerId) && StartsAfter(b, t)
    ensures pg.page == 0 && |Filter(bs, (b: Booking) => OwnedBy(b, ownerId) && StartsAfter(b, t))| <= pg.size ==>
      forall b :: b in bs && OwnedBy(b, ownerId) && StartsAfter(b, t) ==> b in r
    ensures forall i, j :: 0 <= i < j < |r| ==> r[i].start >= r[j].start
    ensures |r| <= pg.size
  {
    Query(bs, (b: Booking) => OwnedBy(b, ownerId) && StartsAfter(b, t), pg)
  }

  /** `findAllByItemOwnerIdAndEndBefore`. */
  function FindAllByItemOwnerIdAndEndBefore(bs: seq<Booking>, ownerId: int, t: int, pg: Pageable): (r: seq<Booking>)
    ensures IsPage(r, Ordered(bs, (b: Booking) => OwnedBy(b, ownerId) && EndsBefore(b, t), StartDescending), pg)
    ensures forall b :: b in r ==> b in bs && OwnedBy(b, ownerId) && EndsBefore(b, t)
    ensures pg.page == 0 && |Filter(bs, (b: Booking) => OwnedBy(b, ownerId) && EndsBefore(b, t))| <= pg.size ==>
      forall b :: b in bs && OwnedBy(b, ownerId) && EndsBefore(b, t) ==> b in r
    ensures forall i, j :: 0 <= i < j < |r| ==> r[i].start >= r[j].start
    ensures |r| <= pg.size
  {
    Query(bs, (b: Booking) => OwnedBy(b, ownerId) && EndsBefore(b, t), pg)
  }

  /** `findAllByItemOwnerIdAndStatus`. */
  function FindAllByItemOwnerIdAndStatus(bs: seq<Booking>, ownerId: int, status: BookingStatus,
                                         pg: Pageable): (r: seq<Booking>)
    ensures IsPage(r, Ordered(bs, (b: Booking) => OwnedBy(b, ownerId) && b.status == status, StartDescending), pg)
    ensures forall b :: b in r ==> b in bs && OwnedBy(b, ownerId) && b.status == status
    ensures pg.page == 0 && |Filter(bs, (b: Booking) => OwnedBy(b, ownerId) && b.status == status)| <= pg.size ==>
      forall b :: b in bs && OwnedBy(b, ownerId) && b.status == status ==> b in r
    ensures forall i, j :: 0 <= i < j < |r| ==> r[i].start >= r[j].start
    ensures |r| <= pg.size
  {
    Query(bs, (b: Booking) => OwnedBy(b, ownerId) && b.status == status, pg)
  }

  /** `findAllByItemIdAndBookerIdAndEndBefore`: the finished bookings of one item
      by one booker, whatever their status, as a set. */
  function FindAllByItemIdAndBookerIdAndEndBefore(bs: seq<Booking>, itemId: int, bookerId: int, t: int)
    : (r: set<Booking>)
    ensures forall b :: b in r <==> b in bs && b.item.id == itemId && b.booker.id == Some(bookerId) && EndsBefore(b, t)
  {
    var f := Filter(bs, (b: Booking) => b.item.id == itemId && b.booker.id == Some(bookerId) && EndsBefore(b, t));
    set b | b in f
  }

  /** `findFirstByItemAndEndBeforeOrderByEndDesc`: of the item's bookings that
      ended before `t`, one that ended last. */
  function FindFirstByItemAndEndBeforeOrderByEndDesc(bs: seq<Booking>, item: Item, t: int): (r: Option<Booking>)
    ensures r.None? <==> forall b :: b in bs ==> !(b.item.id == item.id && EndsBefore(b, t))
    ensures r.Some? ==> r.value in bs && r.value.item.id == item.id && EndsBefore(r.value, t)
    ensures r.Some? ==> forall b :: b in bs && b.item.id == item.id && EndsBefore(b, t) ==> b.end <= r.value.end
  {
    FirstBy(Filter(bs, (b: Booking) => b.item.id == item.id && EndsBefore(b, t)), EndDescending)
  }

  /** `findFirstByItemAndStartAfterOrderByStartDesc`: of the item's bookings that
      start after `t`, one that starts LAST, the future booking furthest away. */
  function FindFirstByItemAndStartAfterOrderByStartDesc(bs: seq<Booking>, item: Item, t: int): (r: Option<Booking>)
    ensures r.None? <==> forall b :: b in bs ==> !(b.item.id == item.id && StartsAfter(b, t))
    ensures r.Some? ==> r.value in bs && r.value.item.id == item.id && StartsAfter(r.value, t)
    ensures r.Some? ==> forall b :: b in bs && b.item.id == item.id && StartsAfter(b, t) ==> b.start <= r.value.start
  {
    FirstBy(Filter(bs, (b: Booking) => b.item.id == item.id && StartsAfter(b, t)), StartDescending)
  }

  /** With two future bookings of an item, the "next booking" query returns the
      one that starts later, not the one that starts sooner. */
  lemma NextBookingIsLatest(item: Item, booker: User, now: int, soon: int, later: int)
    requires now < soon < later
    ensures var bs := [Booking(Some(1), soon, later, item, booker, APPROVED),
                       Booking(Some(2), later, later + 1, item, booker, APPROVED)];
            FindFirstByItemAndStartAfterOrderByStartDesc(bs, item, now) == Some(bs[1])
  {
    var bs := [Booking(Some(1), soon, later, item, booker, APPROVED),
               Booking(Some(2), later, later + 1, item, booker, APPROVED)];
    var r := FindFirstByItemAndStartAfterOrderByStartDesc(bs, item, now);
    assert bs[1] in bs;
    assert r.value == bs[0] || r.value == bs[1];
  }
}
