/** The booking states a listing can ask for (`BookingState`) and the two ways
    the services read a state from text. */
module BookingStates {
  import opened Common

  datatype BookingState = ALL | CURRENT | FUTURE | PAST | REJECTED | WAITING

  /** The states in declaration order, as `values()` returns them. */
  const AllStates: seq<BookingState> := [ALL, CURRENT, FUTURE, PAST, REJECTED, WAITING]

  /** `ordinal()`: the position of `v` among the declared states. */
  function Ordinal(v: BookingState): (k: nat)
    ensures k < |AllStates| && AllStates[k] == v
  {
    match v
    case ALL => 0
    case CURRENT => 1
    case FUTURE => 2
    case PAST => 3
    case REJECTED => 4
    case WAITING => 5
  }

  /** `name()`. */
  function Name(v: BookingState): string {
    match v
    case ALL => "ALL"
    case CURRENT => "CURRENT"
    case FUTURE => "FUTURE"
    case PAST => "PAST"
    case REJECTED => "REJECTED"
    case WAITING => "WAITING"
  }

  /** Java's `equalsIgnoreCase` applied to the ASCII capital `u` and the character
      `c`: `c` is `u` itself, its small letter, or one of the four characters
      whose upper- or lower-case mapping lands on `I`, `K` or `S`. */
  predicate FoldsTo(c: char, u: char)
    requires 'A' <= u <= 'Z'
  {
    c == u || c as int == u as int + 32 ||
    (u == 'I' && (c == 'İ' || c == 'ı')) ||
    (u == 'K' && c == 'K') ||
    (u == 'S' && c == 'ſ')
  }

  /** `name.equalsIgnoreCase(s)` for a name made of capital letters. */
  predicate EqualsIgnoreCase(name: string, s: string)
    requires forall i :: 0 <= i < |name| ==> 'A' <= name[i] <= 'Z'
  {
    |s| == |name| && forall i :: 0 <= i < |s| ==> FoldsTo(s[i], name[i])
  }

  predicate Matches(v: BookingState, s: string) {
    EqualsIgnoreCase(Name(v), s)
  }

  /** `BookingState.from(s)`: the first state, in declaration order, whose name
      equals `s` ignoring case; none when no name does. */
  function From(s: string): (r: Option<BookingState>)
    ensures r.Some? ==> Matches(r.value, s)
    ensures r.None? <==> forall v: BookingState :: !Matches(v, s)
  {
    var r := FirstMatch(AllStates, s);
    assert r.None? ==> forall v: BookingState :: !Matches(v, s) by {
      if r.None? {
        forall v: BookingState ensures !Matches(v, s) {
          assert !Matches(AllStates[Ordinal(v)], s);
        }
      }
    }
    r
  }

  /** The first state of `vs` that matches `s`: the stream's `filter` and `findAny`. */
  function FirstMatch(vs: seq<BookingState>, s: string): (r: Option<BookingState>)
    ensures r.Some? ==> r.value in vs && Matches(r.value, s)
    ensures r.None? <==> forall k :: 0 <= k < |vs| ==> !Matches(vs[k], s)
  {
    if vs == [] then None
    else if Matches(vs[0], s) then Some(vs[0])
    else FirstMatch(vs[1..], s)
  }

  /** `BookingState.valueOf(s)`: the state whose name is exactly `s`; the source
      throws `IllegalArgumentException` when there is none. */
  function ValueOf(s: string): (r: Option<BookingState>)
    ensures r.Some? ==> Name(r.value) == s
    ensures r.None? <==> forall v: BookingState :: Name(v) != s
  {
    if s == "ALL" then Some(ALL)
    else if s == "CURRENT" then Some(CURRENT)
    else if s == "FUTURE" then Some(FUTURE)
    else if s == "PAST" then Some(PAST)
    else if s == "REJECTED" then Some(REJECTED)
    else if s == "WAITING" then Some(WAITING)
    else None
  }

  /** No two states match the same text, so `findAny` has one candidate at most. */
  lemma {:induction false} AtMostOneMatch(v: BookingState, w: BookingState, s: string)
    requires Matches(v, s) && Matches(w, s)
    ensures v == w
  {
    assert |Name(v)| == |s| == |Name(w)|;
    if |s| == 7 {
      // CURRENT and WAITING, told apart by the first letter.
      assert FoldsTo(s[0], Name(v)[0]);
      assert FoldsTo(s[0], Name(w)[0]);
    }
  }

  /** Every state is read back from its own name, and from that name in any mix of cases. */
  lemma {:induction false} FromName(v: BookingState)
    ensures From(Name(v)) == Some(v)
  {
    var n := Name(v);
    assert Matches(v, n);
    var r := From(n);
    AtMostOneMatch(r.value, v, n);
  }

  /** Whatever `from` accepts is the one state that matches. */
  lemma FromUnique(s: string, v: BookingState)
    requires Matches(v, s)
    ensures From(s) == Some(v)
  {
    AtMostOneMatch(From(s).value, v, s);
  }

  /** A lower-case name is accepted by `from` but not by `valueOf`. */
  lemma {:induction false} LowerCaseName()
    ensures From("all") == Some(ALL)
    ensures ValueOf("all").None?
  {
    assert Matches(ALL, "all");
    FromUnique("all", ALL);
  }

  /** `valueOf` of a state's own name gives that state back: what the gateway
      forwards is always understood by the server. */
  lemma ValueOfName(v: BookingState)
    ensures ValueOf(Name(v)) == Some(v)
  {
  }
}
