# Concurrent accumulate-then-drain containers

A Dafny model of `cswinrt::concurrent_unordered_map` and
`cswinrt::concurrent_unordered_set`, the two containers CsWinRT provides for
fork-join parallel patterns. While the parallel phase runs, worker
threads only insert. After the join, one owner calls `consume()`. That call
moves the whole accumulated collection out and leaves the container empty.

Every public method of the source takes the container's one mutex once. Each
method is therefore one atomic step on the private field `m_data`. The model
is sequential and has three modules:

- `ConcurrentContainers` (`concurrent_containers.dfy`): one class per
  container. Each class has a single field `data` (a `map` or a `set`) and
  methods `InsertOrAssign` / `Insert` / `InsertMoved`, `Empty`, `Size` and
  `Consume`. No method returns a reference into `data`: `Consume` hands out
  the whole collection, and Dafny maps and sets are values, so nothing a
  caller holds can alias the storage or be invalidated by a later insert. A
  ghost field `pending` records the inserts made since construction
  or since the last `Consume`. The object invariant `Valid()` states that
  `data` is the fold of `pending` over the empty collection.
- `Accumulation` (`accumulation.dfy`): that fold as pure functions (`AssignAll`
  for the map, `InsertAll` for the set), with lemmas for the promises of the
  source:
  - one more insert extends the fold by one step;
  - for the map, the last write to a key wins;
  - a key that nobody writes keeps its value;
  - writes to pairwise distinct keys, none already present, are all kept,
    one entry per write, whatever order the lock put them in
    (`AssignAllDistinct`);
  - for the set, the fold is a union (`InsertAll`). As a corollary, inserting
    the same run again changes nothing (`InsertAllIdempotent`, which follows
    from the union alone).
- `Scenarios` (`scenarios.dfy`): short client runs built only from the method
  contracts. They cover a fresh container, last write wins followed by two
  drains, distinct writes that all survive, and a duplicate set insert through
  both overloads.

## Model

| member | source | states |
|---|---|---|
| `ConcurrentContainers.ConcurrentUnorderedMap.constructor` | src/cswinrt/concurrent_containers.h:35 | a new map has no entries and no pending writes |
| `ConcurrentContainers.ConcurrentUnorderedMap.InsertOrAssign` | src/cswinrt/concurrent_containers.h:37-41 | afterwards `key` maps to `value` and every other key keeps its mapping. Size grows by 1 exactly when the key is new. The write is appended to the pending writes and the invariant is kept |
| `ConcurrentContainers.ConcurrentUnorderedMap.Empty` | src/cswinrt/concurrent_containers.h:43-47 | true exactly when no entry is stored, which is exactly when size is 0 and no write happened since the last drain. The container is not changed |
| `ConcurrentContainers.ConcurrentUnorderedMap.Size` | src/cswinrt/concurrent_containers.h:49-53 | the number of stored entries, 0 exactly when the map is empty. The container is not changed |
| `ConcurrentContainers.ConcurrentUnorderedMap.Consume` | src/cswinrt/concurrent_containers.h:55-61 | returns every entry held before the call, which is the fold of the writes since the last drain. Afterwards the container is empty with no pending writes |
| `ConcurrentContainers.ConcurrentUnorderedSet.constructor` | src/cswinrt/concurrent_containers.h:78 | a new set has no elements and no pending inserts |
| `ConcurrentContainers.ConcurrentUnorderedSet.Insert` | src/cswinrt/concurrent_containers.h:80-84 | afterwards the contents are the old contents plus `value`. A duplicate changes neither the contents nor the size; otherwise size grows by exactly 1 |
| `ConcurrentContainers.ConcurrentUnorderedSet.InsertMoved` | src/cswinrt/concurrent_containers.h:86-90 | the rvalue overload, with the same contract as `Insert` |
| `ConcurrentContainers.ConcurrentUnorderedSet.Empty` | src/cswinrt/concurrent_containers.h:92-96 | true exactly when no element is stored, which is exactly when size is 0 and no insert happened since the last drain. The container is not changed |
| `ConcurrentContainers.ConcurrentUnorderedSet.Size` | src/cswinrt/concurrent_containers.h:98-102 | the number of stored elements, 0 exactly when the set is empty. The container is not changed |
| `ConcurrentContainers.ConcurrentUnorderedSet.Consume` | src/cswinrt/concurrent_containers.h:104-110 | returns every element held before the call, which is the union of the inserts since the last drain. Afterwards the container is empty with no pending inserts |
| `Accumulation.AssignAll` | src/cswinrt/concurrent_containers.h:37-41 | the keys after a run of insert_or_assign calls are the earlier keys plus every key written |
| `Accumulation.AssignAllSnoc` | src/cswinrt/concurrent_containers.h:37-41 | one more insert_or_assign after a run applies exactly that one write to the run's result |
| `Accumulation.AssignAllUntouched` | src/cswinrt/concurrent_containers.h:40 | a key that no write in the run names keeps its earlier mapping, or stays absent |
| `Accumulation.AssignAllLastWriteWins` | src/cswinrt/concurrent_containers.h:37-41 | after a run of writes, a key maps to the value of its last write |
| `Accumulation.AssignAllDistinct` | src/cswinrt/concurrent_containers.h:37-41 | writes to distinct new keys are all kept: one more entry per write, and each written pair is present |
| `Accumulation.InsertAll` | src/cswinrt/concurrent_containers.h:80-90 | a run of set inserts gives the old set united with every inserted value |
| `Accumulation.InsertAllSnoc` | src/cswinrt/concurrent_containers.h:80-90 | one more insert after a run adds exactly that value to the run's result |
| `Accumulation.InsertAllIdempotent` | src/cswinrt/concurrent_containers.h:80-90 | inserting the same run a second time changes nothing; a direct corollary of `InsertAll`'s union form |
| `Accumulation.InsertAllDistinctSize` | src/cswinrt/concurrent_containers.h:80-90 | distinct new values are all kept: the set grows by one element per insert |
| `Scenarios.FreshMapIsEmpty` | src/cswinrt/concurrent_containers.h:35 | a fresh map reports empty and size 0, and draining it yields nothing |
| `Scenarios.LastWriteWins` | src/cswinrt/concurrent_containers.h:37-61 | after two ordered writes to one key, the drain yields only the second value. Afterwards the map reports empty and size 0, and a second drain yields nothing |
| `Scenarios.DistinctWritesAllSurvive` | src/cswinrt/concurrent_containers.h:37-61 | three writes to distinct keys and a drain yield exactly those three pairs |
| `Scenarios.FreshSetIsEmpty` | src/cswinrt/concurrent_containers.h:78 | a fresh set reports empty and size 0, and draining it yields nothing |
| `Scenarios.DuplicateInsertIsIgnored` | src/cswinrt/concurrent_containers.h:80-90 | inserting one value through each overload leaves size 1 after both, and the drain yields just that value |

## Left out

- The mutex and `std::lock_guard` (lines 21, 39, 65, 114) and thread interleaving. Each method is one atomic step. Which of two racing writes wins is unspecified in the source and is not modelled.
- The hash and equality template parameters `H` and `E` (lines 31 and 74). Keys and elements use Dafny's built-in equality.
- Privacy of the storage: `m_data` is private in the source (lines 63-64 and 112-113), but the model's `data` and `pending` fields are visible to every module. The model does not enforce that only the class's own methods read or change `data`; a client that writes the field directly can break `Valid()`.
- Rehashing and iterator invalidation (lines 6-8 and 15-17). The classes simply expose no accessor into `data`.
- Move versus copy semantics and allocation failure. `consume()` returns `std::move(m_data)` (lines 60 and 109). The model resets the field to the empty collection explicitly, as the comments at lines 29, 55 and 72 describe, and does not model the state of a C++ moved-from container.
- Size: returns a `nat` rather than a `size_t`. A container cannot hold more elements than `size_t` counts, so there is no wrap-around to model.
