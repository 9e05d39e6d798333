# LFU cache, modelled and verified in Dafny

This project models `LFUCache`, a fixed-capacity cache of `int` keys and `int`
values that evicts the least frequently used entry, and among entries used
equally often the least recently used one. The Java class is
`src/main/java/com/wjy/simple/lfu/LFUCache.java`; the model is in the three
`.dfy` files below.

The Java object keeps three maps:
- `nodeMap`: key -> node. A node holds its key, its value and its use count.
- `useCountDeQueMap`: use count -> a doubly linked deque of the nodes with that count, between two sentinels, oldest first. It is a `TreeMap`, so its first entry is the least use count.
- `dequeLengthMap`: use count -> length of that deque.

`get` and a `put` on a stored key both "flush" the node: they unlink it from its deque, add one to its use count, and append it at the tail of the deque for the new count. That deque is created if it is missing, and a deque that becomes empty is dropped. A `put` of a new key into a full cache first removes the head of the deque with the least count. A cache of capacity 0 ignores every call.

The project has three modules:

- `LfuModel` (`lfu_model.dfy`) defines the state as a value.
  - `State` has the same fields as the object.
  - Each deque is a `seq` of keys, oldest first.
  - Nodes are `Node` values in the key map.
  - Two history variables record when each key was last touched: `touched` (key -> logical time) and `clock`. They exist only to say what "least recently used" means.
  - `Valid` is the object invariant.
  - Each private helper of the class has a function (the mapping is below). `Get` and `Put` compose those functions exactly as the Java methods compose the helpers.
- `LfuProperties` (`lfu_properties.dfy`) proves what the cache promises:
  - `get` and `put` keep the invariant.
  - A hit touches exactly the entry it hits.
  - A new key lands at the newest end of the deque for count 1.
  - A full cache evicts exactly the least frequently, then least recently, used key.
  - The number of stored keys never exceeds the capacity, over any sequence of calls.
  - `put(k, v)` followed by `get(k)` returns `v`.
  - A cache of capacity 0 stays empty.
- `LfuCache` (`lfu_cache.dfy`) is the class `LFUCache`.
  - Its fields are the Java fields, updated in place.
  - Each method is proved to change the object exactly as its `LfuModel` function (the mapping is below) changes a `State`. So every lemma of `LfuProperties` holds of the object.

| Java | class method | `LfuModel` function |
|---|---|---|
| constructor | `LFUCache.constructor` | `Empty` |
| `get` | `Get` | `Get` |
| `put` | `Put` | `Put` |
| eviction step of `put` (lines 61-65) | `EvictLeastUsed` | `Evict` (`RemoveHead`, then `Forget`) |
| new-node tail of `put` (lines 67-80) | `AddNode` | `Insert` (`NewNode`, then `AppendTail`) |
| `newDeque` | `NewDeque` | `NewDeque` |
| `add2Tail` | `Add2Tail` | `Add2Tail` |
| `move2Tail` | `Move2Tail` | `Add2Tail` (no function of its own) |
| `remove` | `Remove` | `Unlink` |
| `removeHead` | `RemoveHead` | `RemoveHead` |
| `flushNode` | `FlushNode` | `Touch` (`Unlink`, then `Bump`, then `AppendTail`) |

## Model

| member | source | states |
|---|---|---|
| LfuModel.Empty | src/main/java/com/wjy/simple/lfu/LFUCache.java:22-30 | a new cache stores the given capacity, holds no node, no deque and no deque length, has size 0, and satisfies the invariant when the capacity is not negative |
| LfuModel.Without | src/main/java/com/wjy/simple/lfu/LFUCache.java:118-120 | unlinking a node from a deque removes exactly that key; every other key stays; the deque does not grow |
| LfuModel.MinKey | src/main/java/com/wjy/simple/lfu/LFUCache.java:63 | `firstEntry` of the frequency map: a key of the map no greater than any other key |
| LfuModel.MinKeyExists | src/main/java/com/wjy/simple/lfu/LFUCache.java:63 | every non-empty set of use counts has a least element, so `firstEntry` is well defined |
| LfuModel.StoredKeyHasBucket | src/main/java/com/wjy/simple/lfu/LFUCache.java:61-64 | in a valid state with a stored key, the frequency map is non-empty, so `firstEntry()` on a full cache is never null |
| LfuModel.NewDeque | src/main/java/com/wjy/simple/lfu/LFUCache.java:83-94 | both frequency maps gain exactly the use count, with an empty deque of length 0; every other deque and length, the node map and the size are unchanged |
| LfuModel.Evict | src/main/java/com/wjy/simple/lfu/LFUCache.java:63-65 | after the eviction step both frequency maps still have the same keys |
| LfuModel.Get | src/main/java/com/wjy/simple/lfu/LFUCache.java:32-43 | disabled cache or absent key: returns -1 and changes nothing; hit: returns the stored value, raises that key's use count by exactly 1, and keeps the stored keys, the size and the capacity |
| LfuModel.Put | src/main/java/com/wjy/simple/lfu/LFUCache.java:45-48 | a cache of capacity 0 ignores every `put` |
| LfuProperties.WithoutAbsent | src/main/java/com/wjy/simple/lfu/LFUCache.java:118-120 | unlinking a key that is not in the deque leaves the deque as it is |
| LfuProperties.IncreasingTail | src/main/java/com/wjy/simple/lfu/LFUCache.java:133-136 | the head of a deque is touched before every other key in it, and the rest stays in order |
| LfuProperties.WithoutIncreasing | src/main/java/com/wjy/simple/lfu/LFUCache.java:118-122 | unlinking keeps a deque oldest-first and shortens it by exactly one when the key was in it, so the length map stays exact |
| LfuProperties.HeadUnlinked | src/main/java/com/wjy/simple/lfu/LFUCache.java:133-136 | removing the head of a deque leaves exactly the rest of the deque |
| LfuProperties.IncreasingAppend | src/main/java/com/wjy/simple/lfu/LFUCache.java:97-104 | appending before the tail sentinel a key touched after all others keeps the deque oldest-first |
| LfuProperties.IncreasingFrame | src/main/java/com/wjy/simple/lfu/LFUCache.java:148-163 | a deque's recency order depends only on the touch times of its own keys |
| LfuProperties.UnlinkEffect | src/main/java/com/wjy/simple/lfu/LFUCache.java:118-128 | `remove`: the node leaves its deque, which is dropped from both maps exactly when it held only that node; every other deque and all nodes are unchanged |
| LfuProperties.UnlinkedAbsent | src/main/java/com/wjy/simple/lfu/LFUCache.java:150-161 | after `remove` the node is in no deque, which is what makes the re-unlink in `move2Tail` change nothing |
| LfuProperties.AppendTailEffect | src/main/java/com/wjy/simple/lfu/LFUCache.java:154-162 | lookup-or-`newDeque`, then `add2Tail`: the key is appended to its count's deque, which gains one in length, and nothing else changes |
| LfuProperties.TouchEffect | src/main/java/com/wjy/simple/lfu/LFUCache.java:148-163 | `flushNode`: the count rises by exactly 1; the key becomes the newest of the deque for the new count; the old deque loses it and disappears if it held only it; no key enters or leaves; other nodes, other deques and the value are unchanged |
| LfuProperties.TouchedValid | src/main/java/com/wjy/simple/lfu/LFUCache.java:148-163 | a touch of a stored key keeps the whole object invariant |
| LfuProperties.TouchedPlaced | src/main/java/com/wjy/simple/lfu/LFUCache.java:148-163 | after a touch, every stored node sits in the deque of its current use count |
| LfuProperties.TouchedHold | src/main/java/com/wjy/simple/lfu/LFUCache.java:148-163 | after a touch, every key in a deque is stored with that deque's use count |
| LfuProperties.TouchedRecency | src/main/java/com/wjy/simple/lfu/LFUCache.java:148-163 | after a touch, every deque still runs from least to most recently touched |
| LfuProperties.VictimIsLfu | src/main/java/com/wjy/simple/lfu/LFUCache.java:61-65 | the head of the least-count deque has the fewest uses of all stored keys; among keys with that count it was touched longest ago; it is the only key with both properties |
| LfuProperties.EvictShape | src/main/java/com/wjy/simple/lfu/LFUCache.java:63-65 | eviction removes exactly the victim from the store and from its deque; other keys keep their order; that deque disappears if it held only the victim; no other deque changes |
| LfuProperties.EvictEffect | src/main/java/com/wjy/simple/lfu/LFUCache.java:57-66 | at full capacity, the eviction step frees exactly one slot and leaves the structure ready for the new key |
| LfuProperties.EvictedReady | src/main/java/com/wjy/simple/lfu/LFUCache.java:60-66 | after eviction every invariant but the size count holds, and the size already counts the key about to be added |
| LfuProperties.EvictedPlaced | src/main/java/com/wjy/simple/lfu/LFUCache.java:63-65 | after eviction every remaining node still sits in the deque of its use count |
| LfuProperties.EvictedHold | src/main/java/com/wjy/simple/lfu/LFUCache.java:63-65 | after eviction every key in a deque is still stored with that deque's count |
| LfuProperties.EvictedRecency | src/main/java/com/wjy/simple/lfu/LFUCache.java:63-65 | after eviction every deque is still oldest-first |
| LfuProperties.InsertEffect | src/main/java/com/wjy/simple/lfu/LFUCache.java:67-80 | a new key gets a node with one use and its value, and becomes the newest key of the deque for count 1, which is created if missing; no other node or deque changes; the invariant holds again |
| LfuProperties.InsertedValid | src/main/java/com/wjy/simple/lfu/LFUCache.java:67-80 | the new-key path restores the whole object invariant |
| LfuProperties.InsertedPlaced | src/main/java/com/wjy/simple/lfu/LFUCache.java:67-80 | after the new-key path every node sits in the deque of its use count |
| LfuProperties.InsertedHold | src/main/java/com/wjy/simple/lfu/LFUCache.java:67-80 | after the new-key path every key in a deque is stored with that deque's count |
| LfuProperties.InsertedRecency | src/main/java/com/wjy/simple/lfu/LFUCache.java:67-80 | after the new-key path every deque is oldest-first, and touch times exist exactly for the stored keys |
| LfuProperties.InsertedIncreasing | src/main/java/com/wjy/simple/lfu/LFUCache.java:74-80 | the deque the new key is appended to, and every other deque, stay oldest-first |
| LfuProperties.InsertedBuckets | src/main/java/com/wjy/simple/lfu/LFUCache.java:74-80 | after the new-key path, deque 1 is the old deque 1 followed by the new key, and every other deque is as before |
| LfuProperties.GetValid | src/main/java/com/wjy/simple/lfu/LFUCache.java:32-43 | every `get` keeps the object invariant |
| LfuProperties.GetHit | src/main/java/com/wjy/simple/lfu/LFUCache.java:36-41 | a hit returns the stored value and touches exactly that entry, whose value does not change |
| LfuProperties.SetValValid | src/main/java/com/wjy/simple/lfu/LFUCache.java:52 | overwriting a stored node's value keeps the invariant |
| LfuProperties.PutHit | src/main/java/com/wjy/simple/lfu/LFUCache.java:49-54 | `put` on a stored key stores the new value, touches exactly that entry and keeps the invariant |
| LfuProperties.TouchedSetVal | src/main/java/com/wjy/simple/lfu/LFUCache.java:52-53 | changing only the value before a touch does not change what the touch does to the structure |
| LfuProperties.PutNewBelow | src/main/java/com/wjy/simple/lfu/LFUCache.java:57-80 | a new key below capacity: size grows by 1; the store gains exactly the node (key, value, 1 use); deque 1 gains the key at its newest end; nothing else changes |
| LfuProperties.GrowReady | src/main/java/com/wjy/simple/lfu/LFUCache.java:57-59 | `size++` below capacity leaves the structure ready for exactly one new key |
| LfuProperties.PutNewFull | src/main/java/com/wjy/simple/lfu/LFUCache.java:57-80 | a new key at capacity: exactly the LFU (then LRU) victim leaves; the new node joins deque 1 at its newest end; size stays; every deque keeps the order of the keys that remain |
| LfuProperties.PutValid | src/main/java/com/wjy/simple/lfu/LFUCache.java:45-81 | every `put` keeps the invariant, so the number of stored keys equals `size` and never exceeds the capacity |
| LfuProperties.PutStores | src/main/java/com/wjy/simple/lfu/LFUCache.java:45-81 | after `put(k, v)` on an enabled cache, `k` is stored with value `v` |
| LfuProperties.RoundTrip | src/main/java/com/wjy/simple/lfu/LFUCache.java:32-81 | `put(k, v)` directly followed by `get(k)` on an enabled cache returns `v` |
| LfuProperties.DisabledStaysEmpty | src/main/java/com/wjy/simple/lfu/LFUCache.java:32-48 | with capacity 0 the cache is empty, `put` changes nothing and `get` returns -1 |
| LfuProperties.Run | src/main/java/com/wjy/simple/lfu/LFUCache.java:32-81 | over any sequence of `get` and `put` calls the invariant holds and the stored keys never exceed the capacity |
| LfuProperties.DisabledRun | src/main/java/com/wjy/simple/lfu/LFUCache.java:32-48 | with capacity 0, any interleaving of calls leaves the cache as it was, and every `get` returns -1 |
| LfuProperties.EvictStep | src/main/java/com/wjy/simple/lfu/LFUCache.java:61-65 | on a valid non-empty cache, the least deque exists and is non-empty, and its head is stored with a recorded length, so `removeHead` at line 64 is defined |
| LfuCache.LFUCache.constructor | src/main/java/com/wjy/simple/lfu/LFUCache.java:22-30 | a new object is valid and equals the empty state |
| LfuCache.LFUCache.Get | src/main/java/com/wjy/simple/lfu/LFUCache.java:32-43 | the object moves and answers as `LfuModel.Get` says, and stays valid |
| LfuCache.LFUCache.Put | src/main/java/com/wjy/simple/lfu/LFUCache.java:45-81 | the object moves as `LfuModel.Put` says, and stays valid |
| LfuCache.LFUCache.EvictLeastUsed | src/main/java/com/wjy/simple/lfu/LFUCache.java:61-65 | `removeHead` on the deque from `firstEntry`, then `nodeMap.remove` of the returned key, is `LfuModel.Evict` |
| LfuCache.LFUCache.AddNode | src/main/java/com/wjy/simple/lfu/LFUCache.java:67-80 | the new node with one use is stored and appended to deque 1, which is created if missing |
| LfuCache.LFUCache.NewDeque | src/main/java/com/wjy/simple/lfu/LFUCache.java:83-94 | both frequency maps map the count to an empty deque of length 0 |
| LfuCache.LFUCache.Add2Tail | src/main/java/com/wjy/simple/lfu/LFUCache.java:97-107 | the key is appended to its count's deque, whose length rises by one |
| LfuCache.LFUCache.Move2Tail | src/main/java/com/wjy/simple/lfu/LFUCache.java:110-115 | on a node that is in no deque (a checked precondition, which `FlushNode` establishes after `remove`), the same as `add2Tail` |
| LfuCache.LFUCache.Remove | src/main/java/com/wjy/simple/lfu/LFUCache.java:118-128 | the node is unlinked; the length falls by one; the deque is dropped from both maps when the length is 0 |
| LfuCache.LFUCache.RemoveHead | src/main/java/com/wjy/simple/lfu/LFUCache.java:131-145 | returns the oldest key of the deque and unlinks it; the deque of the node's count is dropped from both maps when it empties |
| LfuCache.LFUCache.FlushNode | src/main/java/com/wjy/simple/lfu/LFUCache.java:148-163 | `remove`, one more use, then `add2Tail` into a new deque or `move2Tail` into an existing one |

The inner class `Node` (lines 165-171) is the datatype `LfuModel.Node`. Its `preNode` and `nextNode` links are replaced by the positions of keys in the deque sequences.

## Left out

- Pointer structure: the deques are sequences of keys, not linked nodes with head and tail sentinels. Sentinel wiring, aliasing between the node in `nodeMap` and the node in its deque, and constant-time splicing are not modelled. Because a node is a map value, updating its fields in place is a map update.
- LfuCache.LFUCache.Move2Tail: lines 112-113 re-unlink a node that `remove` has already unlinked. Call the node's old neighbours P and N. Lines 119-120 stored `P.nextNode = N` and `N.preNode = P`, and nothing changes those links before `move2Tail` runs. Lines 112-113 store the same two links again, so they change nothing, and the model treats `move2Tail` as `add2Tail` alone. Its precondition, that the key is in no deque, states that `remove` has already run; `LfuProperties.UnlinkedAbsent` proves it at the only call site.
- LfuModel.Put: its own contract states only the disabled case. The other cases are stated by `LfuProperties.PutHit`, `LfuProperties.PutNewBelow`, `LfuProperties.PutNewFull` and `LfuProperties.PutValid`.
- LfuModel.Get: on a hit, its own contract states the returned value, the use count raised by one, and the unchanged keys, size and capacity. Where the key moves among the deques is stated by `LfuProperties.GetHit` (through `Touched`), and invariant preservation by `LfuProperties.GetValid`.
- LfuModel.Evict: its own contract states only that the frequency maps keep equal key sets. What eviction removes is stated by `LfuProperties.EvictShape` and `LfuProperties.VictimIsLfu`.
- Java `int` overflow: `useCount++` and `size++` are unbounded in the model. After about 2^31 hits to one key, Java wraps the count to a negative number, which the `TreeMap` would then order first.
- Negative capacity: the constructor requires `capacity >= 0`. With a negative capacity the Java class would reach `firstEntry()` on an empty map in the first `put` and fail on a null entry at line 64.
- LfuCache.LFUCache.EvictLeastUsed and LfuCache.LFUCache.AddNode are not Java methods. They are the eviction step (lines 61-65) and the new-node tail (lines 67-80) of `put`, split out so that each proof stays small.
- `touched` and `clock` are history variables, ghost in the class. Java has no such fields; the recency order they describe is the order of each deque.
- `TreeMap` and `HashMap` are Dafny maps; `firstEntry` is the least key (`LfuModel.MinKey`). Their internals, hashing and balancing are not modelled.
- The -1 returned for a miss cannot be told apart from a stored value of -1; the model returns what the class returns.
- The claim that the deque lengths sum to `size` is not stated as a sum. It follows from the invariant: every stored key is in exactly one deque, and every deque length is exact.
- Concurrency and I/O: the class is single-threaded and has neither.
