# LRU caches and a load balancer, modelled in Dafny

This project models two parts of a small Python repository.

- **The LRU caches of `lru_cache/`.** There are five variants of one least-recently-used cache,
  each behind a different locking discipline, plus a sharded cache built from the first variant:
  - `ThreadSafeLRUCache`, an OrderedDict under one lock;
  - `ReadWriteLRUCache`, an OrderedDict under a reader/writer lock, whose `get` checks the key
    again after taking the write lock;
  - `TimeoutLRUCache`, an OrderedDict whose lock acquisition can time out;
  - `ManualLRUCache`, a hand-made doubly linked list with sentinels plus a dict from key to node;
  - the improved read/write `LRUCache`, a linked list with a `size` counter that inserts first and
    evicts after, and never validates its capacity;
  - `SegmentedLRUCache`, which routes every key by its hash to one of several `ThreadSafeLRUCache`
    segments.
- **`ThreadSafeLoadBalancer` of `load_balancer/balancer.py`.** It holds a dict of servers and the
  list of their names. It picks servers by round robin or by least connections among the healthy
  ones, falling back to the first server when none is healthy. It adds and removes servers and
  keeps per-server connection counts that never go below zero.

How the model is built:

- **One abstract cache.** `LruModel.LruState` is an OrderedDict of ints, meaning a recency order
  (least recent first) next to a key-to-value table. `get` and both kinds of `put` are functions on
  it: `AfterGet`, `PutEvictFirst` (evict, then insert) and `PutEvictLast` (insert, then evict). The
  cache properties are lemmas about these functions.
- **The caches are classes.** Each cache is a `class` whose methods change its fields. Each
  method's postcondition ties the new state to the abstract function applied to the old state.
- **Node arena for the linked lists.** The two linked-list caches keep their nodes in a sequence
  that only grows. A node is referred to by its index, which is never reused. Index 0 is the head
  sentinel and index 1 the tail sentinel, and `prev`/`next` are indices, with -1 for `None`.
- **Linking invariant.** A ghost list of the data nodes, least recent first, ties the arena to the
  abstract state. The invariant says that `prev` and `next` mirror each other. It also says that
  walking `next` from the head meets every key exactly once, most recent first.
- **The balancer is a class too.** `Balancer.ThreadSafeLoadBalancer` has the same fields as the
  Python class (`servers`, `serversList`, `rrNextIndex`). It keeps the invariant that the list has
  no duplicates and holds exactly the dict's keys.

Locks are not modelled: each locked section is one atomic step. Concurrency is modelled in
exactly two places, and the `put`s other threads complete there are passed in as a parameter `raced`:

- the gap in the read/write caches' `get` between releasing the read lock and taking the write lock;
- the same gap in the improved cache's `get`.

Two more inputs come from outside the code:

- lock acquisition with a timeout is a boolean parameter `acquired`;
- Python's `hash` is a function-valued constant of the segmented cache.

## Model

| member | source | states |
|---|---|---|
| LruModel.LruState.Pop | lru_cache/thread_safe_lru_cache.py:31 | `pop(k)`: the key leaves the table and the order, every other key keeps its value and its place, and the state stays well formed |
| LruModel.LruState.Set | lru_cache/thread_safe_lru_cache.py:32 | `od[k] = v`: the table maps `k` to `v`; an existing key keeps its place in the order and a new key is appended at the most-recent end |
| LruModel.LruState.PopFirst | lru_cache/thread_safe_lru_cache.py:46 | `popitem(last=False)`: exactly the least recent key leaves the order and the table, the rest keep their values and order |
| LruModel.AfterGet | lru_cache/thread_safe_lru_cache.py:27-33 | a miss changes nothing; a hit keeps the table, moves the key to the most-recent end and keeps the other keys' order |
| LruModel.PutEvictFirst | lru_cache/thread_safe_lru_cache.py:35-48 | after evict-then-insert `put`, every key is the new key or an old one |
| LruModel.PutEvictFirstBounded | lru_cache/thread_safe_lru_cache.py:42-48 | `put` keeps the number of entries within the capacity |
| LruModel.PutThenGet | lru_cache/thread_safe_lru_cache.py:24-48 | `put(k, v)` then `get(k)` returns `v` |
| LruModel.PutExisting | lru_cache/thread_safe_lru_cache.py:38-41 | updating an existing key replaces its value and moves it to the most-recent end; the size is unchanged, nothing is evicted and the others keep their order |
| LruModel.PutNewWithRoom | lru_cache/thread_safe_lru_cache.py:42-48 | a new key with room is appended and nothing is evicted |
| LruModel.PutNewWhenFull | lru_cache/thread_safe_lru_cache.py:44-48 | a new key into a full cache evicts exactly the least recent key and keeps every other entry in order |
| LruModel.ScenarioEvictsLeastRecent | lru_cache/thread_safe_lru_cache.py:24-48 | capacity 2, `put 1, put 2, get 1, put 3`: key 2 is evicted and the order is 1, 3 |
| LruModel.ScenarioMinimumCapacity | lru_cache/thread_safe_lru_cache.py:35-48 | capacity 1: `put(1,10)`, `get(1)` is 10, then `put(2,20)` evicts key 1 |
| LruModel.StoredMinusOneLooksLikeMiss | lru_cache/thread_safe_lru_cache.py:27-28 | a stored -1 cannot be told from a miss |
| LruModel.PutEvictLast | lru_cache/read_write_lock_improved_cache.py:105-121 | after insert-then-evict `put`, every key is the new key or an old one |
| LruModel.PutEvictLastBounded | lru_cache/read_write_lock_improved_cache.py:112-121 | if the size is within `max(capacity, 0)` before `put`, it is after, and it changes by at most one |
| LruModel.PutEvictLastKeepsKey | lru_cache/read_write_lock_improved_cache.py:112-121 | with capacity at least 1, the evicted key is never the key just put |
| LruModel.EvictLastAgreesWithEvictFirst | lru_cache/read_write_lock_improved_cache.py:105-121 | on a reachable state with capacity at least 1, insert-then-evict equals evict-then-insert |
| LruModel.PutEvictLastNonPositive | lru_cache/read_write_lock_improved_cache.py:72-80 | with capacity 0 or less, a new key evicts itself and the cache stays empty |
| LruModel.PutAll | lru_cache/read_write_lock_cache.py:79-91 | evict-first puts applied in order keep the cache within capacity |
| LruModel.RacedGet | lru_cache/read_write_lock_cache.py:55-77 | the double-checked `get`: a miss under the read lock changes nothing; otherwise, after the other threads' puts in the gap, a key gone by then is a miss and a key still present is promoted; the value returned is always what the final state holds, and the cache stays well formed and within capacity |
| LruModel.RacedGetSequential | lru_cache/read_write_lock_cache.py:55-77 | with no put in the gap, the double-checked `get` is the plain `get` |
| LruModel.RacedGetEvicted | lru_cache/read_write_lock_cache.py:69-70 | a key evicted in the gap gives -1 at the re-check |
| LruModel.PutAllLast | lru_cache/read_write_lock_improved_cache.py:105-121 | insert-then-evict puts applied in order keep the cache well formed |
| LruModel.StaysThrough | lru_cache/read_write_lock_improved_cache.py:128-131 | a key that stays through the puts is present before and after them |
| LruModel.EscalatedGet | lru_cache/read_write_lock_improved_cache.py:124-131 | the improved `get` as written: a miss changes nothing; for a present key it raises AttributeError exactly when the key does not stay through the puts in the gap, leaving the state those puts made, and otherwise leaves `AfterGet` of that state; any value it returns is what the cache holds for the key afterwards |
| LruModel.EscalatedGetSequential | lru_cache/read_write_lock_improved_cache.py:124-131 | with no put in the gap, the improved `get` is the plain `get` |
| LruModel.EscalatedGetEvictedRaises | lru_cache/read_write_lock_improved_cache.py:88-101 | capacity 1 holding key 1, with another thread's `put(2,2)` in the gap: `get(1)` raises AttributeError |
| LruModel.RecheckedGet | lru_cache/read_write_lock_cache.py:66-75 | the improved `get` with the re-check: it never fails, a miss changes nothing; for a present key gone after the puts in the gap it returns -1 and leaves the state those puts made, and for one still there it leaves `AfterGet` of that state; it returns what the cache then holds for the key |
| LruModel.RecheckedGetAgrees | lru_cache/read_write_lock_improved_cache.py:124-131 | where the improved `get` does not fail, the re-checking one returns the same value and state |
| LruModel.RecheckedGetSequential | lru_cache/read_write_lock_improved_cache.py:124-131 | with no put in the gap, the re-checking `get` is the plain `get` |
| LruModel.AfterGetOfMostRecent | lru_cache/read_write_lock_improved_cache.py:88-90 | promoting the key that is already the most recent changes nothing |
| LruModel.AfterGetOfSet | lru_cache/manual_double_linked_list_cache.py:75-79 | storing a new value under a present key and then promoting it is popping and re-setting the key |
| LruModel.PutAllLastStep | lru_cache/read_write_lock_improved_cache.py:105-121 | one more write is one more insert-then-evict put, and the key stays through it exactly when it stayed before and is present after |
| ThreadSafeCache.ThreadSafeLruCache.Get | lru_cache/thread_safe_lru_cache.py:24-33 | returns the value or -1 and leaves the state `AfterGet` |
| ThreadSafeCache.ThreadSafeLruCache.Put | lru_cache/thread_safe_lru_cache.py:35-48 | the new state is `PutEvictFirst` of the old, within capacity |
| ThreadSafeCache.ThreadSafeLruCache.GetAll | lru_cache/thread_safe_lru_cache.py:50-53 | returns exactly the table and changes nothing |
| ThreadSafeCache.ThreadSafeLruCache.Size | lru_cache/thread_safe_lru_cache.py:55-58 | returns the number of keys, between 0 and the capacity |
| ThreadSafeCache.NewThreadSafeLruCache | lru_cache/thread_safe_lru_cache.py:16-22 | ValueError exactly for a capacity of 0 or less, else an empty cache |
| ReadWriteCache.ReadWriteLruCache.Get | lru_cache/read_write_lock_cache.py:55-77 | result and new state are those of `RacedGet` |
| ReadWriteCache.ReadWriteLruCache.Put | lru_cache/read_write_lock_cache.py:79-91 | the new state is `PutEvictFirst` of the old, within capacity |
| ReadWriteCache.ReadWriteLruCache.GetAll | lru_cache/read_write_lock_cache.py:93-99 | returns exactly the table and changes nothing |
| ReadWriteCache.NewReadWriteLruCache | lru_cache/read_write_lock_cache.py:47-53 | ValueError exactly for a capacity of 0 or less, else an empty cache |
| TimeoutCache.TimeoutLruCache.Get | lru_cache/timeout_cache.py:23-36 | TimeoutError with nothing changed when the lock is not acquired; otherwise the plain `get`, with the lock released |
| TimeoutCache.TimeoutLruCache.Put | lru_cache/timeout_cache.py:38-52 | TimeoutError with nothing changed when the lock is not acquired; otherwise `PutEvictFirst`, with the lock released |
| TimeoutCache.TimeoutLruCache.GetAll | lru_cache/timeout_cache.py:54-62 | TimeoutError when the lock is not acquired; otherwise the table; the cache never changes |
| TimeoutCache.NewTimeoutLruCache | lru_cache/timeout_cache.py:14-21 | ValueError exactly for a capacity of 0 or less, else an empty, unlocked cache |
| SegmentedCache.SegmentCapacity | lru_cache/segmented_cache.py:20 | every segment gets at least 1; with no more segments than capacity, the segments together hold at most `capacity` and fewer than `num_segments` slots (less than one per segment) are unused |
| SegmentedCache.SegmentIndex | lru_cache/segmented_cache.py:29 | `hash % n` lies in [0, n), also for a negative hash |
| SegmentedCache.MergeAll | lru_cache/segmented_cache.py:39-44 | the merge holds exactly the keys of the merged maps |
| SegmentedCache.MergeAllValue | lru_cache/segmented_cache.py:39-44 | merging disjoint maps keeps every value |
| SegmentedCache.MergeAllSize | lru_cache/segmented_cache.py:39-44 | merging disjoint maps gives as many entries as the maps together |
| SegmentedCache.SumSizesBounded | lru_cache/segmented_cache.py:20-25 | maps each within a bound have at most count times bound entries together |
| SegmentedCache.SegmentedLruCache.Route | lru_cache/segmented_cache.py:27-29 | every key routes to one segment index in [0, n) |
| SegmentedCache.SegmentedLruCache.ViewsDisjoint | lru_cache/segmented_cache.py:27-37 | no key is held by two segments |
| SegmentedCache.SegmentedLruCache.MergedViews | lru_cache/segmented_cache.py:39-44 | `get_all` holds every segment's entries unchanged: as many as the segments together, at most segments times segment capacity |
| SegmentedCache.SegmentedLruCache.constructor | lru_cache/segmented_cache.py:15-25 | `num_segments` fresh, distinct, empty segments, each of capacity `SegmentCapacity` |
| SegmentedCache.SegmentedLruCache.Get | lru_cache/segmented_cache.py:31-33 | the key's segment does the plain `get`; every other segment is unchanged |
| SegmentedCache.SegmentedLruCache.Put | lru_cache/segmented_cache.py:35-37 | the key's segment does `PutEvictFirst`; every other segment is unchanged |
| SegmentedCache.SegmentedLruCache.GetAll | lru_cache/segmented_cache.py:39-44 | returns the merge of the segments' tables in segment order |
| SegmentedCache.NewSegmentedLruCache | lru_cache/segmented_cache.py:15-25 | ValueError for a capacity of 0 or less, ZeroDivisionError for zero segments, else a valid cache of fresh, empty segments |
| LinkedList.WalkNoDups | lru_cache/manual_double_linked_list_cache.py:33-37 | no node occurs twice on the list, sentinels included |
| LinkedList.Unlink | lru_cache/manual_double_linked_list_cache.py:46-49 | linking a node's neighbours to each other leaves a list of the other nodes in their old order, without the node |
| LinkedList.Append | lru_cache/manual_double_linked_list_cache.py:39-44 | linking a node after the head makes it the most recent and keeps the rest |
| LinkedList.WalkFromHead | lru_cache/manual_double_linked_list_cache.py:33-49 | following `next` from the head visits the data nodes most recent first, then the tail |
| LinkedList.RepresentsPromote | lru_cache/manual_double_linked_list_cache.py:75-79 | moving a node to the front with a new value is popping and re-setting its key |
| LinkedList.RepresentsDropFirst | lru_cache/manual_double_linked_list_cache.py:84-87 | dropping the node before the tail and its dict entry is `popitem(last=False)` |
| LinkedList.RepresentsAppend | lru_cache/manual_double_linked_list_cache.py:82-90 | a new node at the front for a new key is setting that key |
| LinkedList.RepresentsGrow | lru_cache/manual_double_linked_list_cache.py:82 | a newly created node is off the list and leaves the list and the dict as they were |
| LinkedList.RepresentsSetValue | lru_cache/manual_double_linked_list_cache.py:77-78 | a new value in a present key's node keeps the list and is setting that key, with as many entries |
| LinkedList.ListedPrev | lru_cache/read_write_lock_improved_cache.py:88-93 | a present key's node is on the list, so `node.prev` is a node |
| LinkedList.ListOrder | lru_cache/manual_double_linked_list_cache.py:33-49 | walking `next` from the head meets each key exactly once, most recent first, and then the tail |
| ManualCache.ManualLruCache.constructor | lru_cache/manual_double_linked_list_cache.py:25-37 | an empty cache with head and tail linked to each other |
| ManualCache.ManualLruCache.AddToHead | lru_cache/manual_double_linked_list_cache.py:39-44 | the node becomes the first after the head; keys and values are unchanged |
| ManualCache.ManualLruCache.RemoveNode | lru_cache/manual_double_linked_list_cache.py:46-49 | the node leaves the list and the others keep their order |
| ManualCache.ManualLruCache.MoveToHead | lru_cache/manual_double_linked_list_cache.py:51-54 | the node becomes the most recent and every other node keeps its place |
| ManualCache.ManualLruCache.RemoveTail | lru_cache/manual_double_linked_list_cache.py:56-60 | unlinks and returns the least recent node |
| ManualCache.ManualLruCache.Get | lru_cache/manual_double_linked_list_cache.py:62-70 | returns the value or -1 and leaves the state `AfterGet`, keeping the linking invariant |
| ManualCache.ManualLruCache.Put | lru_cache/manual_double_linked_list_cache.py:72-90 | the new state is `PutEvictFirst` of the old, keeping the linking invariant and the capacity |
| ManualCache.ManualLruCache.PutNew | lru_cache/manual_double_linked_list_cache.py:80-90 | a new key's node is linked after an eviction when the dict is full |
| ManualCache.ManualLruCache.LinkNew | lru_cache/manual_double_linked_list_cache.py:89-90 | with room left, the new node enters the dict and the head, and the state is the key set |
| ManualCache.ManualLruCache.SetValue | lru_cache/manual_double_linked_list_cache.py:77-78 | the key's node gets the new value; the state is the key set, the order unchanged |
| ManualCache.ManualLruCache.Promote | lru_cache/manual_double_linked_list_cache.py:68-69 | `_move_to_head` of the key's node leaves the state `AfterGet` and the node's value unchanged |
| ManualCache.PromoteShape | lru_cache/manual_double_linked_list_cache.py:51-54 | relinking a node right after the head, keeping keys and values, keeps the invariant with its key the most recent |
| ManualCache.ManualLruCache.EvictTail | lru_cache/manual_double_linked_list_cache.py:84-87 | the least recent key leaves both list and dict |
| ManualCache.ManualLruCache.GetAll | lru_cache/manual_double_linked_list_cache.py:92-95 | returns exactly the table: each key with its node's value |
| ManualCache.NewManualLruCache | lru_cache/manual_double_linked_list_cache.py:25-27 | ValueError exactly for a capacity of 0 or less, else an empty cache |
| ReadWriteImprovedCache.LruCache.constructor | lru_cache/read_write_lock_improved_cache.py:72-80 | an empty cache for any capacity, including 0 and negative ones |
| ReadWriteImprovedCache.LruCache.AddToFront | lru_cache/read_write_lock_improved_cache.py:82-86 | the node becomes the first after the head; no other node off the list changes |
| ReadWriteImprovedCache.LruCache.MoveToFront | lru_cache/read_write_lock_improved_cache.py:88-95 | no change when the node is already first; otherwise it becomes first and the others keep their order |
| ReadWriteImprovedCache.LruCache.DelLastNode | lru_cache/read_write_lock_improved_cache.py:97-103 | unlinks and returns the least recent node, relinks the tail and clears both of the node's links |
| ReadWriteImprovedCache.LruCache.Put | lru_cache/read_write_lock_improved_cache.py:105-121 | the new state is `PutEvictLast` of the old; `size` equals the number of listed nodes and keys and stays within `max(capacity, 0)`; surviving keys keep their nodes |
| ReadWriteImprovedCache.LruCache.Insert | lru_cache/read_write_lock_improved_cache.py:107-115 | the insert half of `put`: the state is the key popped and set again when present, set when new; `size` grows by at most one and surviving keys keep their nodes |
| ReadWriteImprovedCache.LruCache.UpdateNode | lru_cache/read_write_lock_improved_cache.py:107-110 | an existing key gets the new value and moves to the front; size unchanged |
| ReadWriteImprovedCache.LruCache.SetValue | lru_cache/read_write_lock_improved_cache.py:108-109 | the key's node gets the new value; the state is the key set, the order and `size` unchanged |
| ReadWriteImprovedCache.LruCache.AddNode | lru_cache/read_write_lock_improved_cache.py:111-115 | a new node for a new key is linked at the front and entered in the dict, `size` one more; the state is the key set to the value |
| ReadWriteImprovedCache.LruCache.EvictLast | lru_cache/read_write_lock_improved_cache.py:117-121 | the least recent key leaves list and dict, `size` one less |
| ReadWriteImprovedCache.LruCache.OtherThreadsPut | lru_cache/read_write_lock_improved_cache.py:105-121 | the other threads' puts in the gap; the found node still holds the key exactly when the key stayed, and is off the list otherwise |
| ReadWriteImprovedCache.LruCache.Get | lru_cache/read_write_lock_improved_cache.py:124-131 | result and new state are those of `EscalatedGet`, including AttributeError for a node evicted in the gap |
| ReadWriteImprovedCache.LruCache.WriteSection | lru_cache/read_write_lock_improved_cache.py:129-131 | moving the found node to the front returns its value and leaves the state `AfterGet` |
| ReadWriteImprovedCache.LruCache.Promote | lru_cache/read_write_lock_improved_cache.py:88-95 | `_move_to_front` of the key's node leaves the state `AfterGet`; no node is added to the list |
| ReadWriteImprovedCache.PromoteShape | lru_cache/read_write_lock_improved_cache.py:88-95 | relinking a node right after the head, keeping keys and values and the other nodes detached, keeps the invariant with its key the most recent |
| ReadWriteImprovedCache.AddShape | lru_cache/read_write_lock_improved_cache.py:111-115 | a created node for a new key, linked after the head with the rest only relinked, keeps the invariant with the key set and `size` one more |
| ReadWriteImprovedCache.DelLastShape | lru_cache/read_write_lock_improved_cache.py:97-103 | bypassing the last node and clearing its links lists the others in order and leaves every node off the list detached |
| ReadWriteImprovedCache.LruCache.GetRechecked | lru_cache/read_write_lock_cache.py:66-75 | result and new state are those of `RecheckedGet` |
| Balancer.RoundRobinStep | load_balancer/balancer.py:91-96 | the index served is `cursor % n` and the next cursor follows it by one, wrapping to 0, both in [0, n); a cursor in range is served as is |
| Balancer.RoundRobinPicks | load_balancer/balancer.py:91-96 | the servers successive round-robin requests get, one per request; `RoundRobinCycles` states which they are |
| Balancer.RoundRobinCycles | load_balancer/balancer.py:91-96 | from any cursor `c >= 0`, including one left past the end by `remove_server`, request `j` is served `servers_list[(c + j) % n]` |
| Balancer.ScenarioRoundRobin | load_balancer/tests.py:7-14 | six requests to server1..3 give server1, 2, 3, 1, 2, 3 |
| Balancer.LeastLoaded | load_balancer/balancer.py:98-109 | the scan selects a healthy server if it selects one at all |
| Balancer.LeastLoadedIsLeast | load_balancer/balancer.py:103-109 | nothing is selected exactly when no server is healthy; otherwise the selected server has the fewest connections among the healthy ones, and strictly fewer than every healthy server before it |
| Balancer.LeastConnectionsChoice | load_balancer/balancer.py:98-115 | the choice is a listed server, healthy exactly when some server is healthy; then it has the fewest connections among the healthy servers and every healthy server listed before it has strictly more; with none healthy it is `servers_list[0]` |
| Balancer.ScenarioLeastConnections | load_balancer/tests.py:16-47 | with 2, 1, 0 connections server3 is chosen; after the changes, server3 wins its tie with server4 |
| Balancer.HealthyNames | load_balancer/balancer.py:161-167 | exactly the healthy listed servers, without duplicates when the list has none |
| Balancer.Disconnected | load_balancer/balancer.py:144 | one connection fewer, never below zero |
| Balancer.DisconnectUndoesConnect | load_balancer/balancer.py:131-144 | a disconnection undoes a connection on any count the balancer can reach |
| Balancer.ThreadSafeLoadBalancer.constructor | load_balancer/balancer.py:68-75 | one fresh server per name, list in the given order, cursor 0; valid for distinct names |
| Balancer.ThreadSafeLoadBalancer.GetServer | load_balancer/balancer.py:80-89 | None for no servers; the round-robin or least-connections choice; ValueError for any other algorithm |
| Balancer.ThreadSafeLoadBalancer.RoundRobin | load_balancer/balancer.py:91-96 | serves and advances the cursor as `RoundRobinStep` says |
| Balancer.ThreadSafeLoadBalancer.LeastConnections | load_balancer/balancer.py:98-115 | returns `LeastConnectionsChoice` of the list |
| Balancer.ThreadSafeLoadBalancer.AddServer | load_balancer/balancer.py:117-121 | a new name gets a fresh healthy server with 0 connections at the end of the list; a known name changes nothing |
| Balancer.ThreadSafeLoadBalancer.RemoveServer | load_balancer/balancer.py:123-129 | returns true and removes the name from dict and list exactly when it was known |
| Balancer.ThreadSafeLoadBalancer.RecordConnection | load_balancer/balancer.py:131-137 | one more connection for a known server; unknown names are ignored |
| Balancer.ThreadSafeLoadBalancer.RecordDisconnection | load_balancer/balancer.py:139-144 | one fewer, never below zero, for a known server; unknown names are ignored |
| Balancer.ThreadSafeLoadBalancer.GetServerStats | load_balancer/balancer.py:146-152 | exactly the known names, each with its connection count |
| Balancer.ThreadSafeLoadBalancer.SetServerHealthy | load_balancer/balancer.py:154-159 | sets the flag of a known server; unknown names are ignored |
| Balancer.ThreadSafeLoadBalancer.GetHealthyServers | load_balancer/balancer.py:161-167 | returns the healthy servers in list order |

## Left out

- Locks: the locks, the reader/writer monitors (`ReadWriteLock`, `RWLock`) and the per-server locks are not modelled. Each locked section is one atomic step. The only interleavings modelled are the `put`s that other threads complete in the `get` gap of the two read/write caches.
- Other threads' `get`s in that gap: `raced` holds puts only. A `get` of another thread that completes in the gap also writes, since it moves its key to the most-recent end, and that changes which key a later put in the gap evicts. The model does not capture those reorderings, so a state reached through them, and an eviction or AttributeError caused by one, is not covered.
- Timeouts: the float `timeout` of the timeout cache is not modelled; whether `acquire` succeeded is the `acquired` parameter.
- Hashing: Python's `hash` is not computed; the segmented cache takes it as a function of the key.
- SegmentedCache.NewSegmentedLruCache: the default `num_segments=16` is not modelled; the segment count is always passed explicitly, which loses no behaviour.
- SegmentedCache.NewSegmentedLruCache: a negative segment count is excluded by its precondition. In Python that gives an empty segment list, whose `get` and `put` then raise IndexError.
- Node references: nodes are modelled as a sequence that only grows, indexed by node number, so a node once created keeps its number. Python would free an evicted node; this model keeps it.
- ManualCache.ManualLruCache.PutNew, ManualCache.ManualLruCache.LinkNew, ManualCache.ManualLruCache.EvictTail, ManualCache.ManualLruCache.SetValue, ManualCache.ManualLruCache.Promote, ReadWriteImprovedCache.LruCache.Insert, ReadWriteImprovedCache.LruCache.UpdateNode, ReadWriteImprovedCache.LruCache.SetValue, ReadWriteImprovedCache.LruCache.AddNode, ReadWriteImprovedCache.LruCache.EvictLast, ReadWriteImprovedCache.LruCache.OtherThreadsPut, ReadWriteImprovedCache.LruCache.WriteSection and ReadWriteImprovedCache.LruCache.Promote: each is one branch or section of `put` or `get`, split out as a method of its own; Python has them inline.
- The -1 miss value: it is kept as in Python, so a stored -1 reads as a miss (`LruModel.StoredMinusOneLooksLikeMiss`).
- Balancer.ThreadSafeLoadBalancer.constructor: with duplicate names, Python keeps the duplicates in the list and one dict entry. The model builds the same state but promises `Valid()` only for distinct names.
- Balancer.ThreadSafeLoadBalancer.GetServerStats and Balancer.ThreadSafeLoadBalancer.GetHealthyServers: they walk the list where Python walks the dict. Under `Valid()` the dict's insertion order is the list's order, since both grow at the end and lose the same name.
- Balancer.ThreadSafeLoadBalancer.LeastConnections: the `return` on load_balancer/balancer.py:115 is mis-indented in the source, which would not parse. The model returns `selected_server` at the end of the method, as evidently intended. The initial `float('inf')` minimum is an `Option` that starts empty.
- Servers: each `Server` is a value in the dict and is replaced on every update. Python mutates the object in place; nobody else holds a reference to it, so nothing can observe the difference.
- Test harnesses: both `tests.py` files, with their timing, random workloads and thread pools, are left out. Only their deterministic scenarios appear, as lemmas.

## Findings

| source | as written | input that shows it | evidently intended | confidence | as-written member | corrected member |
|---|---|---|---|---|---|---|
| lru_cache/read_write_lock_improved_cache.py:124-131 | `get` leaves the read lock holding the node it found. It takes the write lock and calls `_move_to_front` on that node without looking the key up again. A node evicted in between has `prev = None` (line 101), and `prevNode.next = nextNode` (line 93), with `prevNode = node.prev` taken on line 91, raises AttributeError. | capacity 1 after `put(1, 1)`; `get(1)` with another thread's `put(2, 2)` completing between the two lock sections | look the key up again under the write lock, as `ReadWriteLRUCache.get` does, and return -1 for a key gone by then | high; not executed | LruModel.EscalatedGetEvictedRaises, ReadWriteImprovedCache.LruCache.Get | LruModel.RecheckedGet, ReadWriteImprovedCache.LruCache.GetRechecked |
