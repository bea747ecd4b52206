/** Vocabulary shared by every part of the model: optional values, results
    carrying the services' error kinds, Java's integer division, Spring
    Data's paging, a stable sort by an integer key, filtering, the
    key-ordered view of a table, and the few string operations the
    searches use. */
module Common {

  /** A Java reference that may be null. */
  datatype Option<+T> = None | Some(value: T) {
    function GetOr(default: T): T {
      match this
      case Some(v) => v
      case None => default
    }
  }

  /** The exceptions the services throw, each answered with a fixed HTTP status. */
  datatype Error =
    | NotFound                          // NotFoundException, 404
    | BadRequest                        // BadRequestException, 400
    | UnsupportedState(message: string) // BadRequestException for an unknown state, 400
    | Validation                        // ValidationException from ModelValidator or a time check, 400
    | Forbidden                         // ForbiddenException, 403
    | Conflict                          // ConflictException, 409
    | InternalError                     // an uncaught runtime exception (division by zero,
                                        // IllegalArgumentException, null argument), 500

  datatype Result<+T> = Success(value: T) | Failure(error: Error)

  /** The result of an operation that returns nothing (a Java `void` method). */
  datatype Outcome = Done | Failed(error: Error)

  function Min(a: int, b: int): int { if a <= b then a else b }

  function Max(a: int, b: int): int { if a <= b then b else a }

  /** Java's `a / b` on `int`, which truncates toward zero (Dafny's `/` is Euclidean). */
  function JavaDiv(a: int, b: int): (q: int)
    requires b > 0
    ensures a >= 0 ==> q == a / b
    ensures a < 0 ==> q == -((-a) / b)
  {
    if a >= 0 then a / b else -((-a) / b)
  }

  /** With a positive page size, the page index `from / size` is negative
      exactly when `from <= -size`: offsets between `-size` and `0` land on page 0. */
  lemma JavaDivNonNegative(from: int, size: int)
    requires size > 0
    ensures JavaDiv(from, size) >= 0 <==> from > -size
    ensures -size < from < 0 ==> JavaDiv(from, size) == 0
  {
    if from >= 0 {
      DivNonNegative(from, size);
    } else if from <= -size {
      DivAtLeastOne(-from, size);
    } else {
      DivSmall(-from, size);
    }
  }

  lemma DivNonNegative(a: int, b: int)
    requires a >= 0 && b > 0
    ensures a / b >= 0
  {
    var q, m := a / b, a % b;
    assert a == q * b + m && 0 <= m < b;
    if q < 0 {
      MulNonPositive(q + 1, b);
    }
  }

  lemma DivAtLeastOne(a: int, b: int)
    requires a >= b > 0
    ensures a / b >= 1
  {
    var q, m := a / b, a % b;
    assert a == q * b + m && 0 <= m < b;
    if q <= 0 {
      MulNonPositive(q, b);
    }
  }

  lemma MulNonPositive(q: int, b: int)
    requires q <= 0 && b > 0
    ensures q * b <= 0
  {
  }

  lemma DivSmall(a: int, b: int)
    requires 0 <= a < b
    ensures a / b == 0
  {
  }

  /** A page request: page number and page size. */
  datatype Pageable = Pageable(page: nat, size: nat)

  /** `PageRequest.of(page, size)`, which throws for a negative page or a size
      below 1; the services do not catch it. */
  function PageRequest(page: int, size: int): (r: Result<Pageable>)
    ensures r.Success? <==> page >= 0 && size >= 1
    ensures r.Failure? ==> r.error == InternalError
    ensures r.Success? ==> r.value.page == page && r.value.size == size
  {
    if page < 0 || size < 1 then Failure(InternalError) else Success(Pageable(page, size))
  }

  /** The page a listing asks for: `PageRequest.of(from / size, size)`. Division
      by zero throws as well, so a size of 0 fails like a negative one. */
  function PageFor(from: int, size: int): (r: Result<Pageable>)
    ensures r.Success? <==> size > 0 && from > -size
    ensures r.Failure? ==> r.error == InternalError
    ensures r.Success? ==> r.value.size == size && r.value.page == JavaDiv(from, size)
    ensures r.Success? && 0 <= from < size ==> r.value.page == 0
  {
    if size <= 0 then Failure(InternalError)
    else
      JavaDivNonNegative(from, size);
      PageRequest(JavaDiv(from, size), size)
  }

  /** Page number `page` of an ordered result, as Spring Data cuts it: skip
      `page * size` elements and take at most `size`. */
  function PageOf<T>(s: seq<T>, page: nat, size: nat): (r: seq<T>)
    ensures |r| == Max(0, Min(size, |s| - page * size))
    ensures forall i :: 0 <= i < |r| ==> r[i] == s[page * size + i]
  {
    var lo := page * size;
    if lo >= |s| then [] else s[lo..Min(|s|, lo + size)]
  }

  /** The number of the page of size `size` that holds position `i`. */
  lemma PageHolding(i: nat, size: nat) returns (k: nat)
    requires size > 0
    ensures k * size <= i < k * size + size
  {
    k := i / size;
  }

  /** Element `i` of `s` is on the page that holds position `i`. */
  lemma OnPage<T>(r: seq<T>, s: seq<T>, size: nat, k: nat, i: nat)
    requires i < |s| && k * size <= i < k * size + size
    requires IsPage(r, s, Pageable(k, size))
    ensures s[i] in r
  {
    assert |r| == Min(size, |s| - k * size);
    assert r[i - k * size] == s[i];
  }

  /** `s` is ordered by ascending `key`. */
  predicate SortedBy<T>(s: seq<T>, key: T -> int) {
    forall i, j :: 0 <= i < j < |s| ==> key(s[i]) <= key(s[j])
  }

  /** Inserts `x` before the first element whose key is not smaller. */
  function InsertBy<T>(x: T, s: seq<T>, key: T -> int): (r: seq<T>)
    requires SortedBy(s, key)
    ensures multiset(r) == multiset(s) + multiset{x}
    ensures SortedBy(r, key)
    ensures |r| == |s| + 1
  {
    if s == [] then [x]
    else if key(x) <= key(s[0]) then [x] + s
    else
      var rest := InsertBy(x, s[1..], key);
      assert s == [s[0]] + s[1..];
      HeadBeforeInsert(s[0], x, s[1..], rest, key);
      [s[0]] + rest
  }

  /** Putting back the head `h` of a sorted sequence in front of its tail with
      `x` inserted keeps the order, when `h` does not come after `x`. */
  lemma HeadBeforeInsert<T>(h: T, x: T, t: seq<T>, rest: seq<T>, key: T -> int)
    requires SortedBy([h] + t, key) && key(h) <= key(x)
    requires multiset(rest) == multiset(t) + multiset{x}
    requires SortedBy(rest, key)
    ensures SortedBy([h] + rest, key)
  {
    forall i | 0 <= i < |rest| ensures key(h) <= key(rest[i]) {
      assert rest[i] in multiset(rest);
      if rest[i] != x {
        assert rest[i] in multiset(t);
        var j :| 0 <= j < |t| && t[j] == rest[i];
        assert ([h] + t)[0] == h && ([h] + t)[j + 1] == t[j];
      }
    }
    var r := [h] + rest;
    forall i, j | 0 <= i < j < |r| ensures key(r[i]) <= key(r[j]) {
      assert r[j] == rest[j - 1];
      if i == 0 {
        assert r[i] == h && key(h) <= key(rest[j - 1]);
      } else {
        assert r[i] == rest[i - 1];
      }
    }
  }

  /** A stable sort by ascending `key`: the result is ordered and is a
      permutation of the input. The database leaves the order of equal keys
      open; this model keeps them in input order. */
  function SortBy<T>(s: seq<T>, key: T -> int): (r: seq<T>)
    ensures multiset(r) == multiset(s)
    ensures SortedBy(r, key)
    ensures |r| == |s|
  {
    if s == [] then []
    else
      assert s == [s[0]] + s[1..];
      InsertBy(s[0], SortBy(s[1..], key), key)
  }

  lemma SortByMembers<T>(s: seq<T>, key: T -> int)
    ensures forall x :: x in SortBy(s, key) <==> x in s
  {
    var r := SortBy(s, key);
    forall x ensures x in r <==> x in s {
      assert x in r <==> x in multiset(r);
      assert x in s <==> x in multiset(s);
    }
  }

  /** An element of `s` with the least key, if `s` has any: what a query for
      the first row by some order returns. */
  function FirstBy<T(!new)>(s: seq<T>, key: T -> int): (r: Option<T>)
    ensures r.None? <==> s == []
    ensures r.Some? ==> r.value in s && forall x :: x in s ==> key(r.value) <= key(x)
  {
    var t := SortBy(s, key);
    SortByMembers(s, key);
    if t == [] then None
    else
      assert forall x :: x in t ==> key(t[0]) <= key(x) by {
        forall x | x in t ensures key(t[0]) <= key(x) {
          var i :| 0 <= i < |t| && t[i] == x;
          if i > 0 { assert SortedBy(t, key); }
        }
      }
      Some(t[0])
  }

  /** The elements of `s` that satisfy `p`, in order; each with its full multiplicity. */
  function Filter<T(!new)>(s: seq<T>, p: T -> bool): (r: seq<T>)
    ensures forall x :: x in r <==> x in s && p(x)
    ensures |r| <= |s|
  {
    if s == [] then []
    else
      var rest := Filter(s[1..], p);
      assert s == [s[0]] + s[1..];
      if p(s[0]) then [s[0]] + rest else rest
  }

  /** The filter keeps every element that satisfies `p` as often as it occurs,
      and no other. */
  lemma {:induction false} FilterCounts<T(!new)>(s: seq<T>, p: T -> bool)
    ensures forall x :: multiset(Filter(s, p))[x] == if p(x) then multiset(s)[x] else 0
  {
    if s != [] {
      FilterCounts(s[1..], p);
      assert s == [s[0]] + s[1..];
    }
  }

  /** The filter decides by `p` alone: two tests that agree on the elements
      of `s` keep the same elements. */
  lemma {:induction false} FilterAgrees<T(!new)>(s: seq<T>, p: T -> bool, q: T -> bool)
    requires forall x :: x in s ==> p(x) == q(x)
    ensures Filter(s, p) == Filter(s, q)
  {
    if s != [] {
      assert s == [s[0]] + s[1..];
      FilterAgrees(s[1..], p, q);
    }
  }

  /** The filter keeps distinct elements distinct. */
  lemma {:induction false} FilterDistinct<T(!new)>(s: seq<T>, p: T -> bool)
    ensures Distinct(s) ==> Distinct(Filter(s, p))
  {
    if s != [] && Distinct(s) {
      assert s == [s[0]] + s[1..];
      assert Distinct(s[1..]) by {
        forall i, j | 0 <= i < j < |s[1..]| ensures s[1..][i] != s[1..][j] {
          assert s[1..][i] == s[i + 1] && s[1..][j] == s[j + 1];
        }
      }
      FilterDistinct(s[1..], p);
      var rest := Filter(s[1..], p);
      if p(s[0]) {
        assert s[0] !in s[1..] by {
          forall i | 0 <= i < |s[1..]| ensures s[1..][i] != s[0] {
            assert s[1..][i] == s[i + 1];
          }
        }
        var r := [s[0]] + rest;
        forall i, j | 0 <= i < j < |r| ensures r[i] != r[j] {
          assert r[j] == rest[j - 1] && rest[j - 1] in rest;
          if i > 0 {
            assert r[i] == rest[i - 1];
          }
        }
      }
    }
  }

  /** No element occurs twice in `s`. */
  ghost predicate Distinct<T>(s: seq<T>) {
    forall i, j :: 0 <= i < j < |s| ==> s[i] != s[j]
  }

  /** A rearrangement of a sequence without repeats has none either. */
  lemma PermutationDistinct<T>(r: seq<T>, t: seq<T>)
    requires multiset(r) == multiset(t)
    ensures Distinct(t) ==> Distinct(r)
  {
    if Distinct(t) {
      forall i, j | 0 <= i < j < |r| ensures r[i] != r[j] {
        if r[i] == r[j] {
          var x := r[i];
          assert r == r[..i] + [x] + r[i + 1..j] + [x] + r[j + 1..];
          assert multiset(t)[x] >= 2;
          DistinctOnce(t, x);
          assert false;
        }
      }
    }
  }

  /** A sequence without repeats holds each value at most once. */
  lemma DistinctOnce<T>(t: seq<T>, x: T)
    requires Distinct(t)
    ensures multiset(t)[x] <= 1
  {
    if x in t {
      var k :| 0 <= k < |t| && t[k] == x;
      assert t == t[..k] + [x] + t[k + 1..];
      assert x !in t[..k] by {
        forall m | 0 <= m < k ensures t[..k][m] != x {
          assert t[..k][m] == t[m];
        }
      }
      var after := t[k + 1..];
      assert x !in after by {
        forall m | 0 <= m < |after| ensures after[m] != x {
          assert after[m] == t[k + 1 + m];
        }
      }
      assert multiset(t[..k])[x] == 0 && multiset(after)[x] == 0;
    }
  }

  /** A query's matches in result order: the elements of `s` that satisfy `p`,
      each as often as it occurs in `s`, ordered by ascending `key` (ties keep
      the order of `s`). */
  function Ordered<T(!new)>(s: seq<T>, p: T -> bool, key: T -> int): (o: seq<T>)
    ensures multiset(o) == multiset(Filter(s, p))
    ensures forall x :: x in o <==> x in s && p(x)
    ensures SortedBy(o, key)
    ensures |o| == |Filter(s, p)| <= |s|
  {
    var f := Filter(s, p);
    SortByMembers(f, key);
    SortBy(f, key)
  }

  /** Queries that select the same elements of `s` order them alike. */
  lemma OrderedAgrees<T(!new)>(s: seq<T>, p: T -> bool, q: T -> bool, key: T -> int)
    requires forall x :: x in s ==> p(x) == q(x)
    ensures Ordered(s, p, key) == Ordered(s, q, key)
  {
    FilterAgrees(s, p, q);
  }

  /** `r` is page `pg` of the ordered result `o`, as Spring Data cuts it: the
      `pg.size` elements, or fewer at the end, that follow the first
      `pg.page * pg.size`. */
  ghost predicate IsPage<T>(r: seq<T>, o: seq<T>, pg: Pageable) {
    |r| == Max(0, Min(pg.size, |o| - pg.page * pg.size)) &&
    forall i :: 0 <= i < |r| ==> r[i] == o[pg.page * pg.size + i]
  }

  /** A page holds elements of the whole only, in the same order, and on page 0
      all of them when they fit. */
  lemma PageProperties<T>(r: seq<T>, o: seq<T>, pg: Pageable, key: T -> int)
    requires IsPage(r, o, pg)
    ensures forall x :: x in r ==> x in o
    ensures SortedBy(o, key) ==> SortedBy(r, key)
    ensures |r| <= pg.size
    ensures pg.page == 0 && |o| <= pg.size ==> r == o
  {
    var lo := pg.page * pg.size;
    forall x | x in r ensures x in o {
      var i :| 0 <= i < |r| && r[i] == x;
      assert o[lo + i] == x;
    }
    if SortedBy(o, key) {
      forall i, j | 0 <= i < j < |r| ensures key(r[i]) <= key(r[j]) {
        assert r[i] == o[lo + i] && r[j] == o[lo + j];
      }
    }
  }

  /** Converting each element commutes with paging: the converted page is the
      same page of the converted whole. */
  lemma PageConverted<T, U>(r: seq<T>, o: seq<T>, pg: Pageable, cr: seq<U>, co: seq<U>, f: T -> U)
    requires IsPage(r, o, pg)
    requires |cr| == |r| && forall i :: 0 <= i < |r| ==> cr[i] == f(r[i])
    requires |co| == |o| && forall i :: 0 <= i < |o| ==> co[i] == f(o[i])
    ensures IsPage(cr, co, pg)
  {
    var lo := pg.page * pg.size;
    forall i | 0 <= i < |cr| ensures cr[i] == co[lo + i] {
      assert r[i] == o[lo + i];
    }
  }

  /** A query over a table: page `pg` of the query's matches in result order. */
  function PagedQuery<T(!new)>(s: seq<T>, p: T -> bool, key: T -> int, pg: Pageable): (r: seq<T>)
    ensures IsPage(r, Ordered(s, p, key), pg)
    ensures forall x :: x in r ==> x in s && p(x)
    ensures SortedBy(r, key)
    ensures |r| <= pg.size
    ensures pg.page == 0 && |Filter(s, p)| <= pg.size ==> forall x :: x in s && p(x) ==> x in r
  {
    var o := Ordered(s, p, key);
    var r := PageOf(o, pg.page, pg.size);
    PageProperties(r, o, pg, key);
    assert pg.page == 0 && |Filter(s, p)| <= pg.size ==> r == o;
    r
  }

  /** The keys of `m` between 1 and `n`, ascending. Every table of the
      model draws its keys from an id counter, so with `n` the counter this
      is the whole table in the order of its primary key. */
  function KeysUpTo<V>(m: map<int, V>, n: int): (ks: seq<int>)
    ensures forall k :: k in ks <==> 1 <= k <= n && k in m
    ensures forall i, j :: 0 <= i < j < |ks| ==> ks[i] < ks[j]
    ensures n >= 0 ==> |ks| <= n
    decreases n
  {
    if n < 1 then []
    else
      var front := KeysUpTo(m, n - 1);
      assert forall i :: 0 <= i < |front| ==> front[i] < n by {
        forall i | 0 <= i < |front| ensures front[i] < n {
          assert front[i] in front;
        }
      }
      front + (if n in m then [n] else [])
  }

  /** The values stored under `ks`, in the order of `ks`. */
  function ValuesAt<V>(m: map<int, V>, ks: seq<int>): (r: seq<V>)
    requires forall i :: 0 <= i < |ks| ==> ks[i] in m
    ensures |r| == |ks|
    ensures forall i :: 0 <= i < |ks| ==> r[i] == m[ks[i]]
  {
    if ks == [] then [] else [m[ks[0]]] + ValuesAt(m, ks[1..])
  }

  /** The values of a table whose keys lie in `1..n`, in ascending key order:
      how the model lists a `HashMap<Long, T>` filled by an id counter, or a
      table scanned by primary key. */
  function TableOrder<V>(m: map<int, V>, n: int): (r: seq<V>)
    ensures forall k :: 1 <= k <= n && k in m ==> m[k] in r
    ensures forall i :: 0 <= i < |r| ==> exists k :: 1 <= k <= n && k in m && m[k] == r[i]
    ensures n >= 0 ==> |r| <= n
  {
    var ks := KeysUpTo(m, n);
    assert forall i :: 0 <= i < |ks| ==> ks[i] in ks;
    var r := ValuesAt(m, ks);
    ValuesAtComplete(m, n, ks, r);
    ValuesAtSound(m, n, ks, r);
    r
  }

  /** The listing holds each key's value once: one entry per key when every
      key lies in `1..n`, and no value twice when no two keys share a value. */
  lemma TableOrderOnce<V>(m: map<int, V>, n: int)
    ensures (forall k :: k in m ==> 1 <= k <= n) ==> |TableOrder(m, n)| == |m|
    ensures Injective(m) ==> Distinct(TableOrder(m, n))
  {
    var ks := KeysUpTo(m, n);
    var r := ValuesAt(m, ks);
    assert TableOrder(m, n) == r;
    ValuesAtDistinct(m, ks, r);
    KeysCount(m, n, ks);
  }

  /** No two keys of `m` hold the same value. Every table whose rows carry
      their own id is such a table. */
  ghost predicate Injective<V>(m: map<int, V>) {
    forall k, k' :: k in m && k' in m && m[k] == m[k'] ==> k == k'
  }

  /** Values stored under distinct keys of an injective table are distinct. */
  lemma ValuesAtDistinct<V>(m: map<int, V>, ks: seq<int>, r: seq<V>)
    requires forall i, j :: 0 <= i < j < |ks| ==> ks[i] < ks[j]
    requires |r| == |ks| && forall i :: 0 <= i < |ks| ==> ks[i] in m && r[i] == m[ks[i]]
    ensures Injective(m) ==> Distinct(r)
  {
    if Injective(m) {
      forall i, j | 0 <= i < j < |r| ensures r[i] != r[j] {
        assert ks[i] != ks[j];
      }
    }
  }

  /** Listing the keys of a table drawn from `1..n` lists them all, once each. */
  lemma KeysCount<V>(m: map<int, V>, n: int, ks: seq<int>)
    requires forall k :: k in ks <==> 1 <= k <= n && k in m
    requires forall i, j :: 0 <= i < j < |ks| ==> ks[i] < ks[j]
    ensures (forall k :: k in m ==> 1 <= k <= n) ==> |ks| == |m|
  {
    AscendingCount(ks);
    if forall k :: k in m ==> 1 <= k <= n {
      assert (set k | k in ks) == m.Keys;
    }
  }

  /** An ascending sequence of keys has as many keys as elements. */
  lemma {:induction false} AscendingCount(ks: seq<int>)
    requires forall i, j :: 0 <= i < j < |ks| ==> ks[i] < ks[j]
    ensures |set k | k in ks| == |ks|
  {
    if ks != [] {
      var tail := ks[1..];
      AscendingCount(tail);
      assert ks[0] !in tail by {
        forall i | 0 <= i < |tail| ensures tail[i] != ks[0] {
          assert tail[i] == ks[i + 1];
        }
      }
      assert (set k | k in ks) == {ks[0]} + (set k | k in tail) by {
        assert ks == [ks[0]] + tail;
      }
    }
  }

  /** Every value of the table stored under one of the keys `ks` is listed. */
  lemma ValuesAtComplete<V>(m: map<int, V>, n: int, ks: seq<int>, r: seq<V>)
    requires forall k :: k in ks <==> 1 <= k <= n && k in m
    requires |r| == |ks| && forall i :: 0 <= i < |ks| ==> ks[i] in m && r[i] == m[ks[i]]
    ensures forall k :: 1 <= k <= n && k in m ==> m[k] in r
  {
    forall k | 1 <= k <= n && k in m ensures m[k] in r {
      var i :| 0 <= i < |ks| && ks[i] == k;
      assert r[i] == m[k];
    }
  }

  /** Every value listed is stored under a key in `1..n`. */
  lemma ValuesAtSound<V>(m: map<int, V>, n: int, ks: seq<int>, r: seq<V>)
    requires forall k :: k in ks <==> 1 <= k <= n && k in m
    requires |r| == |ks| && forall i :: 0 <= i < |ks| ==> ks[i] in m && r[i] == m[ks[i]]
    ensures forall i :: 0 <= i < |r| ==> exists k :: 1 <= k <= n && k in m && m[k] == r[i]
  {
    forall i | 0 <= i < |r| ensures exists k :: 1 <= k <= n && k in m && m[k] == r[i] {
      var k := ks[i];
      assert k in ks;
      assert 1 <= k <= n && k in m && m[k] == r[i];
    }
    // A ground key term, from which the solver reaches the witnesses above.
    assert |ks| == 0 || ks[0] in m;
  }

  /** The values of such a table that satisfy `p`, in ascending key order: a
      stream filter over the table. */
  function TableFilter<V(!new)>(m: map<int, V>, n: int, p: V -> bool): (r: seq<V>)
    ensures forall k :: 1 <= k <= n && k in m && p(m[k]) ==> m[k] in r
    ensures forall i :: 0 <= i < |r| ==> p(r[i]) && exists k :: 1 <= k <= n && k in m && m[k] == r[i]
  {
    var all := TableOrder(m, n);
    var r := Filter(all, p);
    FilteredTableSound(m, n, p, all, r);
    r
  }

  /** No value is kept twice when no two keys share a value. */
  lemma TableFilterOnce<V(!new)>(m: map<int, V>, n: int, p: V -> bool)
    ensures Injective(m) ==> Distinct(TableFilter(m, n, p))
  {
    var all := TableOrder(m, n);
    TableOrderOnce(m, n);
    FilterDistinct(all, p);
  }

  /** What a filter keeps of a listed table is stored in the table and satisfies `p`. */
  lemma FilteredTableSound<V>(m: map<int, V>, n: int, p: V -> bool, all: seq<V>, r: seq<V>)
    requires forall i :: 0 <= i < |all| ==> exists k :: 1 <= k <= n && k in m && m[k] == all[i]
    requires forall x :: x in r <==> x in all && p(x)
    ensures forall i :: 0 <= i < |r| ==> p(r[i]) && exists k :: 1 <= k <= n && k in m && m[k] == r[i]
  {
    forall i | 0 <= i < |r| ensures p(r[i]) && exists k :: 1 <= k <= n && k in m && m[k] == r[i] {
      assert r[i] in r;
      var j :| 0 <= j < |all| && all[j] == r[i];
    }
  }

  /** `Character.isWhitespace`: the controls U+0009 to U+000D and U+001C to
      U+001F, and the Unicode space, line and paragraph separators except the
      no-break spaces U+00A0, U+2007 and U+202F. */
  predicate IsWhitespace(c: char) {
    ('\t' <= c <= '\r') || ('\U{1C}' <= c <= '\U{1F}') || c == ' ' || c == '\U{1680}' ||
    ('\U{2000}' <= c <= '\U{2006}') || ('\U{2008}' <= c <= '\U{200A}') ||
    c == '\U{2028}' || c == '\U{2029}' || c == '\U{205F}' || c == '\U{3000}'
  }

  /** `String.isBlank`: empty, or made only of white space. */
  predicate IsBlank(s: string) {
    forall i :: 0 <= i < |s| ==> IsWhitespace(s[i])
  }

  function LowerChar(c: char): char {
    if 'A' <= c <= 'Z' then (c as int + 32) as char else c
  }

  function UpperChar(c: char): char {
    if 'a' <= c <= 'z' then (c as int - 32) as char else c
  }

  /** `toLowerCase(Locale.ROOT)` on the ASCII letters. */
  function Lower(s: string): (r: string)
    ensures |r| == |s|
    ensures forall i :: 0 <= i < |s| ==> r[i] == LowerChar(s[i])
  {
    if s == [] then [] else [LowerChar(s[0])] + Lower(s[1..])
  }

  /** SQL `upper` on the ASCII letters. */
  function Upper(s: string): (r: string)
    ensures |r| == |s|
    ensures forall i :: 0 <= i < |s| ==> r[i] == UpperChar(s[i])
  {
    if s == [] then [] else [UpperChar(s[0])] + Upper(s[1..])
  }

  /** Upper-casing twice is upper-casing once. */
  lemma UpperIdempotent(s: string)
    ensures Upper(Upper(s)) == Upper(s)
  {
    var u := Upper(s);
    assert forall i :: 0 <= i < |u| ==> UpperChar(u[i]) == u[i];
  }

  /** `sub` occurs in `s` starting at position `i`. */
  predicate OccursAt(s: string, sub: string, i: int) {
    0 <= i <= |s| - |sub| && s[i..i + |sub|] == sub
  }

  /** `s.contains(sub)`: `sub` occurs in `s` at some position. */
  predicate Contains(s: string, sub: string) {
    exists i | 0 <= i <= |s| - |sub| :: OccursAt(s, sub, i)
  }
}
