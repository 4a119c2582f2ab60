/**
 The two containers of the fork-join accumulate-then-drain pattern. Each public
 operation of the source runs entirely under one private mutex, so each is
 modelled here as one atomic step on the single field `data`. No method
 returns a reference into `data`: Consume hands out the whole collection, and
 Dafny maps and sets are values, so nothing a caller holds can alias the
 storage or be invalidated by a later insert.

 Each class keeps, as a ghost field, the inserts made since construction or
 since the last Consume; Valid() ties `data` to the fold of those inserts over
 the empty collection (module Accumulation), so what Consume hands out is
 exactly that fold.
 */
module ConcurrentContainers {
  import opened Accumulation

  /** Accumulates key/value pairs; a later write to a key overwrites the earlier one. */
  class ConcurrentUnorderedMap<K(==), V> {
    var data: map<K, V>
    /** The writes made since construction or the last Consume, oldest first. */
    ghost var pending: seq<(K, V)>

    ghost predicate Valid()
      reads this
    {
      data == AssignAll(map[], pending)
    }

    /** A new map holds no entries. */
    constructor ()
      ensures Valid()
      ensures data == map[] && pending == []
    {
      data := map[];
      pending := [];
    }

    /** Creates the entry for `key`, or overwrites it; every other entry is kept. */
    method InsertOrAssign(key: K, value: V)
      requires Valid()
      modifies this
      ensures Valid()
      ensures pending == old(pending) + [(key, value)]
      ensures data == old(data)[key := value]
      ensures key in data && data[key] == value
      ensures forall k :: k in old(data) && k != key ==> k in data && data[k] == old(data)[k]
      ensures data.Keys == old(data).Keys + {key}
      ensures |data| == if key in old(data) then |old(data)| else |old(data)| + 1
    {
      AssignAllSnoc(map[], pending, key, value);
      data := data[key := value];
      pending := pending + [(key, value)];
    }

    /** Whether no entry is stored; the container itself is left as it is. */
    method Empty() returns (r: bool)
      requires Valid()
      ensures r <==> data == map[]
      ensures r <==> |data| == 0
      ensures r <==> pending == []
    {
      assert pending != [] ==> pending[0].0 in data;
      r := |data| == 0;
    }

    /** The number of stored entries; the container itself is left as it is. */
    method Size() returns (n: nat)
      requires Valid()
      ensures n == |data|
      ensures n == 0 <==> data == map[]
    {
      n := |data|;
    }

    /** Hands every accumulated entry to the caller and leaves the container empty. */
    method Consume() returns (r: map<K, V>)
      requires Valid()
      modifies this
      ensures Valid()
      ensures r == old(data) && r == AssignAll(map[], old(pending))
      ensures data == map[] && pending == []
    {
      r := data;
      data := map[];
      pending := [];
    }
  }

  /** Accumulates unique elements; inserting one already present does nothing. */
  class ConcurrentUnorderedSet<T(==)> {
    var data: set<T>
    /** The values inserted since construction or the last Consume, oldest first. */
    ghost var pending: seq<T>

    ghost predicate Valid()
      reads this
    {
      data == InsertAll({}, pending)
    }

    /** A new set holds no elements. */
    constructor ()
      ensures Valid()
      ensures data == {} && pending == []
    {
      data := {};
      pending := [];
    }

    /** Adds `value` (the overload taking a const reference). */
    method Insert(value: T)
      requires Valid()
      modifies this
      ensures Valid()
      ensures pending == old(pending) + [value]
      ensures data == old(data) + {value}
      ensures value in old(data) ==> data == old(data)
      ensures |data| == if value in old(data) then |old(data)| else |old(data)| + 1
    {
      InsertAllSnoc({}, pending, value);
      data := data + {value};
      pending := pending + [value];
    }

    /** Adds `value` (the overload taking an rvalue reference); same effect as Insert. */
    method InsertMoved(value: T)
      requires Valid()
      modifies this
      ensures Valid()
      ensures pending == old(pending) + [value]
      ensures data == old(data) + {value}
      ensures value in old(data) ==> data == old(data)
      ensures |data| == if value in old(data) then |old(data)| else |old(data)| + 1
    {
      InsertAllSnoc({}, pending, value);
      data := data + {value};
      pending := pending + [value];
    }

    /** Whether no element is stored; the container itself is left as it is. */
    method Empty() returns (r: bool)
      requires Valid()
      ensures r <==> data == {}
      ensures r <==> |data| == 0
      ensures r <==> pending == []
    {
      assert pending != [] ==> pending[0] in data;
      r := |data| == 0;
    }

    /** The number of stored elements; the container itself is left as it is. */
    method Size() returns (n: nat)
      requires Valid()
      ensures n == |data|
      ensures n == 0 <==> data == {}
    {
      n := |data|;
    }

    /** Hands every accumulated element to the caller and leaves the container empty. */
    method Consume() returns (r: set<T>)
      requires Valid()
      modifies this
      ensures Valid()
      ensures r == old(data) && r == InsertAll({}, old(pending))
      ensures data == {} && pending == []
    {
      r := data;
      data := {};
      pending := [];
    }
  }
}
