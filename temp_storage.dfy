/** The in-memory table of the storage generation (`TempStorage<T>`): a map
    from id to value and a counter that hands out the ids. */
module Storage {
  import opened Common

  class TempStorage<T> {
    /** `ModelValidator.apply`: whether a value passes its bean validation. */
    const isValid: T -> bool
    var storage: map<int, T>
    /** The last id handed out; never decreases. */
    var counter: int

    /** Every stored key was handed out by the counter, and every stored value
        passed validation. */
    ghost predicate Valid()
      reads this
    {
      counter >= 0 && forall k :: k in storage ==> 1 <= k <= counter && isValid(storage[k])
    }

    constructor (isValid: T -> bool)
      ensures Valid()
      ensures this.isValid == isValid && storage == map[] && counter == 0
    {
      this.isValid := isValid;
      storage := map[];
      counter := 0;
    }

    /** `getNext`: the id the next `create` will use, above every stored key. */
    function GetNext(): (id: int)
      reads this
      requires Valid()
      ensures id == counter + 1
      ensures id >= 1 && forall k :: k in storage ==> k < id
    {
      counter + 1
    }

    /** `getAll`: every stored value and nothing else, in ascending key order. */
    function GetAll(): (vs: seq<T>)
      reads this
      requires Valid()
      ensures forall k :: k in storage ==> storage[k] in vs
      ensures forall i :: 0 <= i < |vs| ==> exists k :: k in storage && storage[k] == vs[i]
    {
      TableOrder(storage, counter)
    }

    /** `getAll` lists each key's value once: as many entries as keys. */
    lemma GetAllOncePerKey()
      requires Valid()
      ensures |GetAll()| == |storage|
    {
      TableOrderOnce(storage, counter);
    }

    /** `getById`: the stored value, or NotFound. */
    function GetById(id: int): (r: Result<T>)
      reads this
      ensures r.Success? <==> id in storage
      ensures r.Success? ==> r.value == storage[id]
      ensures r.Failure? ==> r.error == NotFound
    {
      if id in storage then Success(storage[id]) else Failure(NotFound)
    }

    /** `create`: validates first, then stores the value under the next id. A
        rejected value changes nothing; an accepted one takes an id that no
        earlier value ever had, removed or not. */
    method Create(t: T) returns (r: Result<T>)
      requires Valid()
      modifies this
      ensures Valid()
      ensures !isValid(t) ==> r == Failure(Validation) && storage == old(storage) && counter == old(counter)
      ensures isValid(t) ==> r == Success(t) && counter == old(counter) + 1 && counter !in old(storage) &&
                             storage == old(storage)[counter := t]
    {
      if !isValid(t) {
        return Failure(Validation);
      }
      counter := counter + 1;
      storage := storage[counter := t];
      r := Success(storage[counter]);
    }

    /** `update`: an absent id is BadRequest; otherwise validates, then replaces
        that one entry. */
    method Update(id: int, t: T) returns (r: Result<T>)
      requires Valid()
      modifies this`storage
      ensures Valid()
      ensures id !in old(storage) ==> r == Failure(BadRequest) && storage == old(storage)
      ensures id in old(storage) && !isValid(t) ==> r == Failure(Validation) && storage == old(storage)
      ensures id in old(storage) && isValid(t) ==> r == Success(t) && storage == old(storage)[id := t]
    {
      if id !in storage {
        return Failure(BadRequest);
      }
      if !isValid(t) {
        return Failure(Validation);
      }
      storage := storage[id := t];
      r := Success(t);
    }

    /** `remove`: an absent id is BadRequest; otherwise removes that one key. */
    method Remove(id: int) returns (r: Outcome)
      requires Valid()
      modifies this`storage
      ensures Valid()
      ensures id !in old(storage) ==> r == Failed(BadRequest) && storage == old(storage)
      ensures id in old(storage) ==> r == Done && storage == old(storage) - {id}
    {
      if id !in storage {
        return Failed(BadRequest);
      }
      storage := storage - {id};
      r := Done;
    }
  }
}
