/**
 Sequential client runs of the two containers: one thread, or several threads
 whose operations are ordered by happens-before, so each operation is one atomic
 step in a known order. What each run promises follows from the method
 contracts of module ConcurrentContainers and the lemmas of module Accumulation.
 */
module Scenarios {
  import opened Accumulation
  import opened ConcurrentContainers

  /** A fresh map reports empty and size 0, and draining it yields nothing. */
  method FreshMapIsEmpty<K(==), V>() returns (isEmpty: bool, size: nat, drained: map<K, V>)
    ensures isEmpty && size == 0 && drained == map[]
  {
    var c := new ConcurrentUnorderedMap<K, V>();
    isEmpty := c.Empty();
    size := c.Size();
    drained := c.Consume();
  }

  /**
   Two writes to one key, the first completing before the second starts, then a
   drain: the second value wins, and the container is empty again afterwards, so
   a second drain yields nothing.
   */
  method LastWriteWins<K(==), V>(key: K, first: V, second: V)
    returns (drained: map<K, V>, isEmpty: bool, size: nat, drainedAgain: map<K, V>)
    ensures drained == map[key := second]
    ensures isEmpty && size == 0 && drainedAgain == map[]
  {
    var c := new ConcurrentUnorderedMap<K, V>();
    c.InsertOrAssign(key, first);
    c.InsertOrAssign(key, second);
    drained := c.Consume();
    isEmpty := c.Empty();
    size := c.Size();
    drainedAgain := c.Consume();
  }

  /**
   Writes to distinct keys, then a drain: nothing written is lost, and the
   drained map has one entry per write.
   */
  method DistinctWritesAllSurvive<K(==), V>(k1: K, v1: V, k2: K, v2: V, k3: K, v3: V)
    returns (drained: map<K, V>)
    requires k1 != k2 && k1 != k3 && k2 != k3
    ensures |drained| == 3
    ensures drained == map[k1 := v1, k2 := v2, k3 := v3]
  {
    var c := new ConcurrentUnorderedMap<K, V>();
    c.InsertOrAssign(k1, v1);
    c.InsertOrAssign(k2, v2);
    c.InsertOrAssign(k3, v3);
    drained := c.Consume();
  }

  /** A fresh set reports empty and size 0, and draining it yields nothing. */
  method FreshSetIsEmpty<T(==)>() returns (isEmpty: bool, size: nat, drained: set<T>)
    ensures isEmpty && size == 0 && drained == {}
  {
    var c := new ConcurrentUnorderedSet<T>();
    isEmpty := c.Empty();
    size := c.Size();
    drained := c.Consume();
  }

  /**
   Inserting a value twice, once through each overload: the size stays 1 after
   the duplicate, and the drain yields exactly that value.
   */
  method DuplicateInsertIsIgnored<T(==)>(value: T)
    returns (sizeAfterFirst: nat, sizeAfterSecond: nat, drained: set<T>)
    ensures sizeAfterFirst == 1 && sizeAfterSecond == 1
    ensures drained == {value}
  {
    var c := new ConcurrentUnorderedSet<T>();
    c.Insert(value);
    sizeAfterFirst := c.Size();
    c.InsertMoved(value);
    sizeAfterSecond := c.Size();
    drained := c.Consume();
  }
}
