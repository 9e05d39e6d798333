/**
  The abstract state of the LFU cache and its transitions, as values.

  A `State` holds exactly the fields of one `LFUCache` object: `size`,
  `capacity`, the key -> node map, the frequency -> bucket map (each bucket
  is the sequence of keys between its two sentinels, oldest first) and the
  frequency -> bucket length map.  Two history variables, `touched` and
  `clock`, record when each key was last touched; the cache itself does not
  keep them, they only serve to state what "least recently used" means.

  Each private helper of the class has a function here that says what it
  does to the state: `newDeque`, `add2Tail` and `removeHead` under their own
  names, `remove` as `Unlink` and `flushNode` as `Touch`; `move2Tail` is
  `Add2Tail`, since the node it moves is already unlinked.  `Get` and `Put`
  compose them exactly as the class does.
*/
module LfuModel {

  /** The value `get` returns for a miss or a disabled cache. */
  const Miss: int := -1

  /** A cache entry; in the class it is an object whose fields are updated in place. */
  datatype Node = Node(key: int, val: int, useCount: int)

  datatype State = State(
    capacity: int,
    size: int,
    nodeMap: map<int, Node>,       // key -> node
    buckets: map<int, seq<int>>,   // use count -> keys of its deque, oldest first
    lens: map<int, int>,           // use count -> length of its deque
    touched: map<int, nat>,        // history: logical time of each key's last touch
    clock: nat)                    // history: next logical time

  /** The state right after construction. */
  function Empty(capacity: int): (s: State)
    ensures s.capacity == capacity && s.size == 0
    ensures s.nodeMap == map[] && s.buckets == map[] && s.lens == map[]
    ensures capacity >= 0 ==> Valid(s)
  {
    State(capacity, 0, map[], map[], map[], map[], 0)
  }

  // ---------------------------------------------------------------------
  // The object invariant

  /** The keys of `b` were touched in strictly increasing order (so `b` has no duplicates). */
  ghost predicate Increasing(b: seq<int>, t: map<int, nat>)
  {
    && (forall i :: 0 <= i < |b| ==> b[i] in t)
    && (forall i, j :: 0 <= i < j < |b| ==> t[b[i]] < t[b[j]])
  }

  /** `size` counts the stored keys and never exceeds `capacity`. */
  ghost predicate SizeOk(s: State)
  {
    0 <= s.size <= s.capacity && s.size == |s.nodeMap|
  }

  /** Both frequency maps have the same keys; every bucket is non-empty and its length is recorded. */
  ghost predicate BucketsAgree(s: State)
  {
    && s.buckets.Keys == s.lens.Keys
    && (forall f :: f in s.buckets ==> 1 <= f && s.lens[f] == |s.buckets[f]| > 0)
  }

  /** Every stored node is filed under its own key and sits in the bucket of its use count. */
  ghost predicate NodesPlaced(s: State)
  {
    forall k :: k in s.nodeMap ==>
      && s.nodeMap[k].key == k
      && s.nodeMap[k].useCount in s.buckets
      && k in s.buckets[s.nodeMap[k].useCount]
  }

  /** Every key in a bucket is stored, with the bucket's use count. */
  ghost predicate BucketsHold(s: State)
  {
    forall f, i :: f in s.buckets && 0 <= i < |s.buckets[f]| ==>
      s.buckets[f][i] in s.nodeMap && s.nodeMap[s.buckets[f][i]].useCount == f
  }

  /** Each bucket runs from the least to the most recently touched key. */
  ghost predicate Recency(s: State)
  {
    && s.touched.Keys == s.nodeMap.Keys
    && (forall k :: k in s.touched ==> s.touched[k] < s.clock)
    && (forall f :: f in s.buckets ==> Increasing(s.buckets[f], s.touched))
  }

  ghost predicate Valid(s: State)
  {
    SizeOk(s) && BucketsAgree(s) && NodesPlaced(s) && BucketsHold(s) && Recency(s)
  }

  // ---------------------------------------------------------------------
  // Helpers

  /** `b` with every occurrence of `k` unlinked. */
  function Without(b: seq<int>, k: int): (r: seq<int>)
    ensures forall x :: x in r <==> x in b && x != k
    ensures |r| <= |b|
  {
    if b == [] then []
    else if b[0] == k then Without(b[1..], k)
    else [b[0]] + Without(b[1..], k)
  }

  lemma NonEmptySet(keys: set<int>)
    requires keys != {}
    ensures exists x :: x in keys
  {
    if forall x :: x !in keys { assert false; }
  }

  lemma NonEmptyMap<V>(m: map<int, V>)
    requires |m| > 0
    ensures exists x :: x in m
  {
    if forall x :: x !in m { assert false; }
  }

  lemma {:induction false} MinKeyExists(keys: set<int>)
    requires keys != {}
    ensures exists m :: m in keys && forall f :: f in keys ==> m <= f
  {
    NonEmptySet(keys);
    var x :| x in keys;
    if keys != {x} {
      MinKeyExists(keys - {x});
      var m :| m in keys - {x} && forall f :: f in keys - {x} ==> m <= f;
      var least := if x < m then x else m;
      forall f | f in keys ensures least <= f {
        if f != x { assert f in keys - {x}; }
      }
    } else {
      assert forall f :: f in keys ==> x <= f;
    }
  }

  /** The least key of a non-empty key set (`TreeMap.firstEntry().getKey()`). */
  function MinKey(keys: set<int>): (m: int)
    requires keys != {}
    ensures m in keys && forall f :: f in keys ==> m <= f
  {
    MinKeyExists(keys);
    var m :| m in keys && forall f :: f in keys ==> m <= f;
    m
  }

  // ---------------------------------------------------------------------
  // The private helpers of the class

  /** `newDeque(f)`: registers an empty bucket for use count `f`. */
  function NewDeque(s: State, f: int): (r: State)
    ensures r.buckets.Keys == s.buckets.Keys + {f} && r.buckets[f] == []
    ensures r.lens.Keys == s.lens.Keys + {f} && r.lens[f] == 0
    ensures forall g :: g in s.buckets && g != f ==> r.buckets[g] == s.buckets[g]
    ensures forall g :: g in s.lens && g != f ==> r.lens[g] == s.lens[g]
    ensures r.nodeMap == s.nodeMap && r.size == s.size && r.capacity == s.capacity
    ensures r.touched == s.touched && r.clock == s.clock
  {
    s.(buckets := s.buckets[f := []], lens := s.lens[f := 0])
  }

  /** `add2Tail`: appends `k` to the bucket of its use count, one more in its length. */
  function Add2Tail(s: State, k: int): State
    requires k in s.nodeMap
    requires s.nodeMap[k].useCount in s.buckets && s.nodeMap[k].useCount in s.lens
  {
    var f := s.nodeMap[k].useCount;
    s.(buckets := s.buckets[f := s.buckets[f] + [k]], lens := s.lens[f := s.lens[f] + 1])
  }

  /** Looks up the bucket for `k`'s use count, creating it if absent, then `add2Tail`. */
  function AppendTail(s: State, k: int): State
    requires k in s.nodeMap
    requires s.nodeMap[k].useCount in s.buckets ==> s.nodeMap[k].useCount in s.lens
  {
    var f := s.nodeMap[k].useCount;
    Add2Tail(if f in s.buckets then s else NewDeque(s, f), k)
  }

  /** `remove(node)`: unlinks `k` from its bucket and drops the bucket when its length reaches 0. */
  function Unlink(s: State, k: int): State
    requires k in s.nodeMap
    requires s.nodeMap[k].useCount in s.buckets && s.nodeMap[k].useCount in s.lens
  {
    var f := s.nodeMap[k].useCount;
    var n := s.lens[f] - 1;
    if n <= 0 then s.(buckets := s.buckets - {f}, lens := s.lens - {f})
    else s.(buckets := s.buckets[f := Without(s.buckets[f], k)], lens := s.lens[f := n])
  }

  /** `removeHead(head of bucket f)`: unlinks the oldest key of bucket `f` and returns it. */
  function RemoveHead(s: State, f: int): (State, int)
    requires f in s.buckets && s.buckets[f] != []
    requires s.buckets[f][0] in s.nodeMap && s.nodeMap[s.buckets[f][0]].useCount in s.lens
  {
    var key := s.buckets[f][0];
    var g := s.nodeMap[key].useCount;
    var s1 := s.(buckets := s.buckets[f := s.buckets[f][1..]], lens := s.lens[g := s.lens[g] - 1]);
    var s2 := if s1.lens[g] <= 0 then s1.(buckets := s1.buckets - {g}, lens := s1.lens - {g}) else s1;
    (s2, key)
  }

  /** `node.useCount++`, recorded in the history as a touch of `k`. */
  function Bump(s: State, k: int): State
    requires k in s.nodeMap
  {
    var n := s.nodeMap[k];
    s.(nodeMap := s.nodeMap[k := n.(useCount := n.useCount + 1)],
       touched := s.touched[k := s.clock], clock := s.clock + 1)
  }

  /** `flushNode`: unlink, one more use, append at the tail of the bucket for the new count. */
  function Touch(s: State, k: int): State
    requires k in s.nodeMap && s.buckets.Keys == s.lens.Keys
    requires s.nodeMap[k].useCount in s.buckets
  {
    AppendTail(Bump(Unlink(s, k), k), k)
  }

  // ---------------------------------------------------------------------
  // Eviction

  lemma StoredKeyHasBucket(s: State)
    requires Valid(s) && |s.nodeMap| > 0
    ensures s.buckets.Keys != {}
  {
    NonEmptyMap(s.nodeMap);
    var k :| k in s.nodeMap;
    assert s.nodeMap[k].useCount in s.buckets;
  }

  /** The key `put` evicts: the head (oldest) of the bucket with the least use count. */
  function Victim(s: State): int
    requires Valid(s) && |s.nodeMap| > 0
  {
    StoredKeyHasBucket(s);
    s.buckets[MinKey(s.buckets.Keys)][0]
  }

  /** `removeHead` on the least bucket, then `nodeMap.remove` of the returned key. */
  function Evict(s: State): (r: State)
    requires Valid(s) && |s.nodeMap| > 0
    ensures r.buckets.Keys == r.lens.Keys
  {
    StoredKeyHasBucket(s);
    var (s1, key) := RemoveHead(s, MinKey(s.buckets.Keys));
    Forget(s1, key)
  }

  /** `nodeMap.remove(key)`, and the key's history entry with it. */
  function Forget(s: State, k: int): State
  {
    s.(nodeMap := s.nodeMap - {k}, touched := s.touched - {k})
  }

  // ---------------------------------------------------------------------
  // The public operations

  /** `get(key)`: the new state and the returned value. */
  function Get(s: State, k: int): (r: (State, int))
    requires Valid(s)
    ensures s.capacity == 0 || k !in s.nodeMap ==> r == (s, Miss)
    ensures s.capacity != 0 && k in s.nodeMap ==>
      && r.1 == s.nodeMap[k].val
      && r.0.nodeMap.Keys == s.nodeMap.Keys
      && r.0.nodeMap[k].useCount == s.nodeMap[k].useCount + 1
      && r.0.size == s.size && r.0.capacity == s.capacity
  {
    if s.capacity == 0 || k !in s.nodeMap then (s, Miss)
    else (Touch(s, k), s.nodeMap[k].val)
  }

  /** `size++` of `put` below capacity. */
  function Grow(s: State): State
  {
    s.(size := s.size + 1)
  }

  /** `node.val = value` of `put` on a stored key. */
  function SetVal(s: State, k: int, v: int): State
    requires k in s.nodeMap
  {
    s.(nodeMap := s.nodeMap[k := s.nodeMap[k].(val := v)])
  }

  /** `nodeMap.put` of a fresh node with one use, recorded in the history as a touch of `k`. */
  function NewNode(s: State, k: int, v: int): State
  {
    s.(nodeMap := s.nodeMap[k := Node(k, v, 1)], touched := s.touched[k := s.clock], clock := s.clock + 1)
  }

  /** The new-key path of `put` once there is room: a fresh node appended to bucket 1. */
  function Insert(s: State, k: int, v: int): State
    requires s.buckets.Keys == s.lens.Keys
  {
    AppendTail(NewNode(s, k, v), k)
  }

  /** `put(key, value)`: the new state. */
  function Put(s: State, k: int, v: int): (r: State)
    requires Valid(s)
    ensures s.capacity == 0 ==> r == s
  {
    if s.capacity == 0 then s
    else if k in s.nodeMap then Touch(SetVal(s, k, v), k)
    else if s.size < s.capacity then Insert(Grow(s), k, v)
    else Insert(Evict(s), k, v)
  }
}
