/** The in-memory item table of the storage generation (`ItemDaoImpl`): a
    `TempStorage` of items with an owner filter and a text search. */
module ItemDao {
  import opened Common
  import opened Model
  import opened Storage

  /** Bean validation (`@NotBlank`) admits no item without a name or a description. */
  ghost predicate RequiresText(isValid: Item -> bool) {
    forall i :: isValid(i) ==> i.name.Some? && i.description.Some?
  }

  /** The search test for one item: available, and the lower-cased query occurs in
      its lower-cased name or description. */
  predicate Found(i: Item, query: string)
    requires i.name.Some? && i.description.Some?
  {
    i.available && (Contains(Lower(i.name.value), query) || Contains(Lower(i.description.value), query))
  }

  class ItemDao {
    const store: TempStorage<Item>

    /** Besides the table's own invariant, every item sits under its own id, and
        every stored item has a name and a description. */
    ghost predicate Valid()
      reads this, store
    {
      store.Valid() && RequiresText(store.isValid) &&
      forall k :: k in store.storage ==> store.storage[k].id == k
    }

    constructor (isValid: Item -> bool)
      requires RequiresText(isValid)
      ensures Valid() && fresh(store)
      ensures store.isValid == isValid && store.storage == map[] && store.counter == 0
    {
      store := new TempStorage(isValid);
    }

    /** `getByUserId`: exactly the stored items of that owner, each once. */
    function GetByUserId(userId: int): (r: seq<Item>)
      reads this, store
      requires Valid()
      ensures forall k :: k in store.storage && store.storage[k].ownerId == userId ==> store.storage[k] in r
      ensures forall i :: 0 <= i < |r| ==> r[i].ownerId == userId &&
                                           exists k :: k in store.storage && store.storage[k] == r[i]
      ensures Distinct(r)
    {
      var owned := (i: Item) => i.ownerId == userId;
      var r := TableFilter(store.storage, store.counter, owned);
      StoredInjective();
      TableFilterOnce(store.storage, store.counter, owned);
      forall k | k in store.storage && store.storage[k].ownerId == userId ensures store.storage[k] in r {
        assert 1 <= k <= store.counter && owned(store.storage[k]);
      }
      forall i | 0 <= i < |r| ensures r[i].ownerId == userId && exists k :: k in store.storage && store.storage[k] == r[i] {
        assert owned(r[i]);
      }
      r
    }

    /** `getById`: the item stored under `id`, or NotFound. */
    function GetById(id: int): (r: Result<Item>)
      reads this, store
      requires Valid()
      ensures r.Success? <==> id in store.storage
      ensures r.Success? ==> r.value == store.storage[id] && r.value.id == id
      ensures r.Failure? ==> r.error == NotFound
    {
      store.GetById(id)
    }

    /** Distinct keys hold distinct items, since each item carries its key. */
    lemma StoredInjective()
      requires Valid()
      ensures Injective(store.storage)
    {
      forall k, k' | k in store.storage && k' in store.storage && store.storage[k] == store.storage[k']
        ensures k == k'
      {
        assert store.storage[k].id == k && store.storage[k'].id == k';
      }
    }

    /** `searchBySubstring`: nothing for a blank query; otherwise exactly the stored
        items `Found` by the lower-cased query. */
    function SearchBySubstring(text: string): (r: seq<Item>)
      reads this, store
      requires Valid()
      ensures IsBlank(text) ==> r == []
      ensures forall i :: 0 <= i < |r| ==>
                (exists k :: k in store.storage && store.storage[k] == r[i]) &&
                r[i].name.Some? && r[i].description.Some? && Found(r[i], Lower(text))
      ensures !IsBlank(text) ==>
                forall k :: k in store.storage && Found(store.storage[k], Lower(text)) ==> store.storage[k] in r
    {
      if IsBlank(text) then []
      else
        var query := Lower(text);
        TableFilter(store.storage, store.counter, (i: Item) => i.name.Some? && i.description.Some? && Found(i, query))
    }

    /** Blank is `Character.isWhitespace` throughout: a query of the ideographic
        space, or of a line separator and a tab, finds nothing, while the
        no-break space is not blank. */
    lemma UnicodeBlankQueries()
      requires Valid()
      ensures SearchBySubstring("\U{3000}") == []
      ensures SearchBySubstring("\U{2028}\t") == []
      ensures !IsBlank("\U{A0}")
    {
      assert IsWhitespace("\U{2028}\t"[0]) && IsWhitespace("\U{2028}\t"[1]);
      assert !IsWhitespace("\U{A0}"[0]);
    }

    /** The search lists no item twice. */
    lemma SearchBySubstringOnce(text: string)
      requires Valid()
      ensures Distinct(SearchBySubstring(text))
    {
      if !IsBlank(text) {
        var query := Lower(text);
        StoredInjective();
        TableFilterOnce(store.storage, store.counter, (i: Item) => i.name.Some? && i.description.Some? && Found(i, query));
      }
    }

    /** `create`: the item is stored under the next id, every other field copied. */
    method Create(item: Item) returns (r: Result<Item>)
      requires Valid()
      modifies store
      ensures Valid()
      ensures var created := item.(id := old(store.counter) + 1);
              if store.isValid(created) then
                r == Success(created) && store.counter == old(store.counter) + 1 &&
                store.counter !in old(store.storage) && store.storage == old(store.storage)[store.counter := created]
              else
                r == Failure(Validation) && store.storage == old(store.storage) && store.counter == old(store.counter)
    {
      var next := store.GetNext();
      r := store.Create(item.(id := next));
    }

    /** `update`: the item replaces the one stored under its own id; an absent
        id is BadRequest. */
    method Update(item: Item) returns (r: Result<Item>)
      requires Valid()
      modifies store
      ensures Valid()
      ensures store.counter == old(store.counter)
      ensures item.id !in old(store.storage) ==> r == Failure(BadRequest) && store.storage == old(store.storage)
      ensures item.id in old(store.storage) && !store.isValid(item) ==>
                r == Failure(Validation) && store.storage == old(store.storage)
      ensures item.id in old(store.storage) && store.isValid(item) ==>
                r == Success(item) && store.storage == old(store.storage)[item.id := item]
    {
      r := store.Update(item.id, item);
    }
  }
}
