/** The tables behind the booking services. A booking row names its item and
    its booker by id; reading a booking joins the row with the current item and
    user, as the persistence layer does. */
module BookingStore {
  import opened Common
  import opened Model

  /** A row of the `bookings` table. */
  datatype BookingRow = BookingRow(id: int, start: int, end: int, itemId: int, bookerId: int,
                                   status: BookingStatus)

  /** Every key is its row's id, every reference resolves, and every booking key
      was drawn from the id counter `last`. */
  predicate Consistent(users: map<int, User>, items: map<int, Item>, rows: map<int, BookingRow>, last: int) {
    (forall k :: k in users ==> users[k].id == Some(k)) &&
    (forall k :: k in items ==> items[k].id == k) &&
    (forall k :: k in rows ==> rows[k].id == k && 1 <= k <= last &&
                               rows[k].itemId in items && rows[k].bookerId in users)
  }

  /** The booking entity a row stands for. */
  function Load(users: map<int, User>, items: map<int, Item>, row: BookingRow): (b: Booking)
    requires row.itemId in items && row.bookerId in users
    ensures b.id == Some(row.id) && b.start == row.start && b.end == row.end && b.status == row.status
    ensures b.item == items[row.itemId] && b.booker == users[row.bookerId]
  {
    Booking(Some(row.id), row.start, row.end, items[row.itemId], users[row.bookerId], row.status)
  }

  /** `b` is the join of the row stored under `b`'s own id. */
  predicate Loaded(users: map<int, User>, items: map<int, Item>, rows: map<int, BookingRow>, b: Booking) {
    b.id.Some? && b.id.value in rows && rows[b.id.value].itemId in items && rows[b.id.value].bookerId in users &&
    b == Load(users, items, rows[b.id.value])
  }

  /** The bookings stored under the keys `ks`, in that order. */
  function LoadKeys(users: map<int, User>, items: map<int, Item>, rows: map<int, BookingRow>,
                    ks: seq<int>): (bs: seq<Booking>)
    requires forall i :: 0 <= i < |ks| ==> ks[i] in rows && rows[ks[i]].itemId in items &&
                                           rows[ks[i]].bookerId in users
    ensures |bs| == |ks|
    ensures forall i :: 0 <= i < |ks| ==> bs[i] == Load(users, items, rows[ks[i]])
  {
    if ks == [] then [] else [Load(users, items, rows[ks[0]])] + LoadKeys(users, items, rows, ks[1..])
  }

  /** All bookings, in the order of their ids: each row appears, joined, and
      every booking listed is the row stored under its id. */
  function LoadAll(users: map<int, User>, items: map<int, Item>, rows: map<int, BookingRow>, last: int)
    : (bs: seq<Booking>)
    requires Consistent(users, items, rows, last)
    ensures forall k :: k in rows ==> Load(users, items, rows[k]) in bs
    ensures forall i :: 0 <= i < |bs| ==> Loaded(users, items, rows, bs[i])
  {
    var ks := KeysUpTo(rows, last);
    assert forall i :: 0 <= i < |ks| ==> ks[i] in ks;
    var bs := LoadKeys(users, items, rows, ks);
    LoadKeysComplete(users, items, rows, last, ks, bs);
    LoadKeysSound(users, items, rows, last, ks, bs);
    bs
  }

  /** Loading every key of the table loads every row. */
  lemma LoadKeysComplete(users: map<int, User>, items: map<int, Item>, rows: map<int, BookingRow>, last: int,
                         ks: seq<int>, bs: seq<Booking>)
    requires Consistent(users, items, rows, last)
    requires forall k :: k in ks <==> 1 <= k <= last && k in rows
    requires |bs| == |ks|
    requires forall i :: 0 <= i < |ks| ==> ks[i] in rows && rows[ks[i]].itemId in items &&
                                           rows[ks[i]].bookerId in users && bs[i] == Load(users, items, rows[ks[i]])
    ensures forall k :: k in rows ==> Load(users, items, rows[k]) in bs
  {
    forall k | k in rows ensures Load(users, items, rows[k]) in bs {
      var i :| 0 <= i < |ks| && ks[i] == k;
      assert bs[i] == Load(users, items, rows[k]);
    }
  }

  /** Everything loaded is the row stored under its own id. */
  lemma LoadKeysSound(users: map<int, User>, items: map<int, Item>, rows: map<int, BookingRow>, last: int,
                      ks: seq<int>, bs: seq<Booking>)
    requires Consistent(users, items, rows, last)
    requires |bs| == |ks|
    requires forall i :: 0 <= i < |ks| ==> ks[i] in rows && rows[ks[i]].itemId in items &&
                                           rows[ks[i]].bookerId in users && bs[i] == Load(users, items, rows[ks[i]])
    ensures forall i :: 0 <= i < |bs| ==> Loaded(users, items, rows, bs[i])
  {
    forall i | 0 <= i < |bs| ensures bs[i].id == Some(ks[i]) {
      assert rows[ks[i]].id == ks[i];
    }
  }
}
