/**
  What the LFU cache promises, proved about the transitions of `LfuModel`:
  every `get` and `put` keeps the object invariant, a hit touches exactly
  the entry it hits, a new key lands at the newest end of bucket 1, a full
  cache evicts exactly the least frequently, then least recently, used key,
  and `put` followed by `get` returns the stored value.
*/
module LfuProperties {
  import opened LfuModel

  // ---------------------------------------------------------------------
  // Buckets as sequences

  lemma {:induction false} WithoutAbsent(b: seq<int>, k: int)
    requires k !in b
    ensures Without(b, k) == b
  {
    if b != [] {
      assert k !in b[1..];
      WithoutAbsent(b[1..], k);
      assert b == [b[0]] + b[1..];
    }
  }

  lemma IncreasingTail(b: seq<int>, t: map<int, nat>)
    requires Increasing(b, t) && b != []
    ensures Increasing(b[1..], t)
    ensures forall x :: x in b[1..] ==> t[b[0]] < t[x]
  {
    forall x | x in b[1..] ensures t[b[0]] < t[x] {
      var j :| 0 <= j < |b[1..]| && b[1..][j] == x;
      assert b[j + 1] == x;
    }
  }

  /** Unlinking keeps a bucket in recency order and, when `k` is in it, shortens it by one. */
  lemma {:induction false} WithoutIncreasing(b: seq<int>, k: int, t: map<int, nat>)
    requires Increasing(b, t)
    ensures Increasing(Without(b, k), t)
    ensures k in b ==> |Without(b, k)| == |b| - 1
  {
    if b != [] {
      IncreasingTail(b, t);
      WithoutIncreasing(b[1..], k, t);
      var rest := Without(b[1..], k);
      if b[0] == k {
        assert k !in b[1..];
        WithoutAbsent(b[1..], k);
      } else {
        var r := Without(b, k);
        assert r == [b[0]] + rest;
        forall i, j | 0 <= i < j < |r| ensures t[r[i]] < t[r[j]] {
          if i == 0 {
            assert r[j] == rest[j - 1] && rest[j - 1] in rest;
          } else {
            assert r[i] == rest[i - 1] && r[j] == rest[j - 1];
          }
        }
        if k in b {
          assert k in b[1..];
        }
      }
    }
  }

  /** Unlinking the oldest key of a bucket leaves the rest of it. */
  lemma HeadUnlinked(b: seq<int>, t: map<int, nat>)
    requires Increasing(b, t) && b != []
    ensures Without(b, b[0]) == b[1..]
  {
    IncreasingTail(b, t);
    assert b[0] !in b[1..];
    WithoutAbsent(b[1..], b[0]);
  }

  /** Appending a key touched after every key of the bucket keeps the bucket in recency order. */
  lemma IncreasingAppend(b: seq<int>, k: int, t: map<int, nat>)
    requires Increasing(b, t) && k in t
    requires forall x :: x in b ==> t[x] < t[k]
    ensures Increasing(b + [k], t)
  {
    var r := b + [k];
    forall i, j | 0 <= i < j < |r| ensures t[r[i]] < t[r[j]] {
      if j == |b| {
        assert r[i] == b[i] && b[i] in b;
      } else {
        assert r[i] == b[i] && r[j] == b[j];
      }
    }
  }

  /** Recency order within a bucket only depends on the times of its own keys. */
  lemma IncreasingFrame(b: seq<int>, t: map<int, nat>, t': map<int, nat>)
    requires Increasing(b, t)
    requires forall x :: x in b ==> x in t' && t'[x] == t[x]
    ensures Increasing(b, t')
  {
    forall i | 0 <= i < |b| ensures b[i] in t' && t'[b[i]] == t[b[i]] {
      var x := b[i];
      assert x in b;
      assert x in t' && t'[x] == t[x];
    }
  }

  // ---------------------------------------------------------------------
  // The touch step shared by a hit `get` and a hit `put`

  /** The bucket for use count `f`, or an empty one when there is none. */
  function BucketOf(s: State, f: int): seq<int>
  {
    if f in s.buckets then s.buckets[f] else []
  }

  /**
    What a touch of key `k` does: its use count rises by exactly one, it
    becomes the newest key of the bucket for its new count, it leaves its old
    bucket (which disappears if it held only `k`), no key enters or leaves,
    every other node and every other bucket keep their contents and order,
    and both frequency maps stay in step.
  */
  ghost predicate Touched(s: State, r: State, k: int)
    requires k in s.nodeMap
  {
    var f := s.nodeMap[k].useCount;
    && r.capacity == s.capacity && r.size == s.size
    && r.nodeMap.Keys == s.nodeMap.Keys
    && r.nodeMap[k].key == k && r.nodeMap[k].useCount == f + 1
    && (forall x :: x in s.nodeMap && x != k ==> r.nodeMap[x] == s.nodeMap[x])
    && f + 1 in r.buckets && r.buckets[f + 1] == BucketOf(s, f + 1) + [k]
    && (f in r.buckets <==> |BucketOf(s, f)| > 1)
    && (f in r.buckets ==> r.buckets[f] == Without(s.buckets[f], k))
    && (forall g :: g != f && g != f + 1 ==> (g in r.buckets <==> g in s.buckets))
    && (forall g :: g != f && g != f + 1 && g in s.buckets ==> r.buckets[g] == s.buckets[g])
    && r.buckets.Keys == r.lens.Keys
    && (forall g :: g in r.buckets ==> r.lens[g] == |r.buckets[g]|)
    && r.touched == s.touched[k := s.clock] && r.clock == s.clock + 1
  }

  /** Frequency maps that agree on their keys and record every bucket's length. */
  ghost predicate LensTrack(s: State)
  {
    s.buckets.Keys == s.lens.Keys && forall g :: g in s.buckets ==> s.lens[g] == |s.buckets[g]|
  }

  lemma UnlinkEffect(s: State, k: int)
    requires Valid(s) && k in s.nodeMap
    ensures var s1 := Unlink(s, k); var f := s.nodeMap[k].useCount;
      && s1.nodeMap == s.nodeMap && s1.touched == s.touched && s1.clock == s.clock
      && s1.size == s.size && s1.capacity == s.capacity
      && LensTrack(s1)
      && (f in s1.buckets <==> |s.buckets[f]| > 1)
      && (f in s1.buckets ==> s1.buckets[f] == Without(s.buckets[f], k))
      && (forall g :: g != f ==> (g in s1.buckets <==> g in s.buckets))
      && (forall g :: g != f && g in s.buckets ==> s1.buckets[g] == s.buckets[g])
  {
    var f := s.nodeMap[k].useCount;
    var b := s.buckets[f];
    WithoutIncreasing(b, k, s.touched);
  }

  /** After `remove` a stored key is in no deque at all, so re-unlinking it can change nothing. */
  lemma UnlinkedAbsent(s: State, k: int)
    requires Valid(s) && k in s.nodeMap
    ensures var s1 := Unlink(s, k); forall g :: g in s1.buckets ==> k !in s1.buckets[g]
  {
    UnlinkEffect(s, k);
  }

  lemma AppendTailEffect(s: State, k: int)
    requires k in s.nodeMap && LensTrack(s)
    ensures var r := AppendTail(s, k); var f := s.nodeMap[k].useCount;
      && r == s.(buckets := s.buckets[f := BucketOf(s, f) + [k]], lens := s.lens[f := |BucketOf(s, f)| + 1])
      && LensTrack(r)
  {
  }

  lemma TouchEffect(s: State, k: int)
    requires Valid(s) && k in s.nodeMap
    ensures Touched(s, Touch(s, k), k)
    ensures Touch(s, k).nodeMap[k].val == s.nodeMap[k].val
  {
    var f := s.nodeMap[k].useCount;
    UnlinkEffect(s, k);
    var s1 := Unlink(s, k);
    var s2 := Bump(s1, k);
    AppendTailEffect(s2, k);
    assert BucketOf(s2, f + 1) == BucketOf(s, f + 1);
    var r := Touch(s, k);
    assert r == AppendTail(s2, k);
  }

  /** A touch keeps the object invariant. */
  lemma TouchedValid(s: State, r: State, k: int)
    requires Valid(s) && k in s.nodeMap && Touched(s, r, k)
    ensures Valid(r)
  {
    var f := s.nodeMap[k].useCount;
    var b := s.buckets[f];
    WithoutIncreasing(b, k, s.touched);
    if |b| == 1 {
      assert b[0] == k;
    }
    var tb := BucketOf(s, f + 1);
    forall g | g in r.buckets ensures 1 <= g && |r.buckets[g]| > 0 {
      if g == f {
        assert |b| > 1;
      }
    }
    assert SizeOk(r) && BucketsAgree(r);
    TouchedPlaced(s, r, k);
    TouchedHold(s, r, k);
    TouchedRecency(s, r, k);
  }

  lemma TouchedPlaced(s: State, r: State, k: int)
    requires Valid(s) && k in s.nodeMap && Touched(s, r, k)
    ensures NodesPlaced(r)
  {
    var f := s.nodeMap[k].useCount;
    var b := s.buckets[f];
    forall x | x in r.nodeMap
      ensures r.nodeMap[x].key == x && r.nodeMap[x].useCount in r.buckets
      ensures x in r.buckets[r.nodeMap[x].useCount]
    {
      if x != k {
        var g := s.nodeMap[x].useCount;
        assert x in s.buckets[g];
      }
    }
  }

  lemma TouchedHold(s: State, r: State, k: int)
    requires Valid(s) && k in s.nodeMap && Touched(s, r, k)
    ensures BucketsHold(r)
  {
    var f := s.nodeMap[k].useCount;
    var b := s.buckets[f];
    var tb := BucketOf(s, f + 1);
    forall g, i | g in r.buckets && 0 <= i < |r.buckets[g]|
      ensures r.buckets[g][i] in r.nodeMap && r.nodeMap[r.buckets[g][i]].useCount == g
    {
      var x := r.buckets[g][i];
      if g == f + 1 {
        if i < |tb| {
          assert x == s.buckets[g][i];
        }
      } else if g == f {
        assert x in Without(b, k);
        var j :| 0 <= j < |b| && b[j] == x;
      } else {
        assert x == s.buckets[g][i];
      }
    }
  }

  lemma TouchedRecency(s: State, r: State, k: int)
    requires Valid(s) && k in s.nodeMap && Touched(s, r, k)
    ensures Recency(r)
  {
    var f := s.nodeMap[k].useCount;
    var b := s.buckets[f];
    var t, t' := s.touched, r.touched;
    WithoutIncreasing(b, k, t);
    var tb := BucketOf(s, f + 1);
    forall g | g in r.buckets ensures Increasing(r.buckets[g], t') {
      if g == f + 1 {
        if f + 1 in s.buckets {
          IncreasingFrame(tb, t, t');
        }
        forall x | x in tb ensures t'[x] < t'[k] {
          var i :| 0 <= i < |tb| && tb[i] == x;
        }
        IncreasingAppend(tb, k, t');
      } else if g == f {
        IncreasingFrame(Without(b, k), t, t');
      } else {
        forall x | x in r.buckets[g] ensures x in t' && t'[x] == t[x] {
          var i :| 0 <= i < |r.buckets[g]| && r.buckets[g][i] == x;
          assert x in s.buckets[g];
        }
        IncreasingFrame(r.buckets[g], t, t');
      }
    }
  }

  // ---------------------------------------------------------------------
  // Eviction and insertion of a new key

  /** The eviction order: fewer uses first, and among equal uses the earlier last touch. */
  ghost predicate EvictsBefore(s: State, v: int, x: int)
    requires v in s.nodeMap && x in s.nodeMap && v in s.touched && x in s.touched
  {
    || s.nodeMap[v].useCount < s.nodeMap[x].useCount
    || (s.nodeMap[v].useCount == s.nodeMap[x].useCount && s.touched[v] < s.touched[x])
  }

  /** `v` is the least frequently used stored key and, among those, the least recently used. */
  ghost predicate IsLfuVictim(s: State, v: int)
    requires Recency(s)
  {
    v in s.nodeMap && forall x :: x in s.nodeMap && x != v ==> EvictsBefore(s, v, x)
  }

  /** The key the cache evicts is the LFU victim, and the LFU victim is unique. */
  lemma VictimIsLfu(s: State)
    requires Valid(s) && |s.nodeMap| > 0
    ensures IsLfuVictim(s, Victim(s))
    ensures forall y :: IsLfuVictim(s, y) ==> y == Victim(s)
  {
    StoredKeyHasBucket(s);
    var f := MinKey(s.buckets.Keys);
    var b := s.buckets[f];
    var v := b[0];
    assert v == Victim(s);
    forall x | x in s.nodeMap && x != v ensures EvictsBefore(s, v, x) {
      var g := s.nodeMap[x].useCount;
      if g == f {
        IncreasingTail(b, s.touched);
        assert x in b;
        assert x in b[1..] by {
          var i :| 0 <= i < |b| && b[i] == x;
          assert i != 0;
          assert b[1..][i - 1] == x;
        }
      }
    }
  }

  /**
    What eviction does: exactly the victim leaves the store and its bucket,
    whose other keys keep their order; the bucket disappears if the victim
    was alone in it; no other bucket changes.
  */
  ghost predicate Evicted(s: State, e: State, v: int)
    requires v in s.nodeMap
  {
    var f := s.nodeMap[v].useCount;
    && e.capacity == s.capacity && e.size == s.size && e.clock == s.clock
    && e.nodeMap == s.nodeMap - {v} && e.touched == s.touched - {v}
    && (forall g :: g in e.buckets <==> g in s.buckets && (g != f || |s.buckets[f]| > 1))
    && (forall g :: BucketOf(e, g) == Without(BucketOf(s, g), v))
    && e.buckets.Keys == e.lens.Keys
    && (forall g :: g in e.buckets ==> e.lens[g] == |e.buckets[g]|)
  }

  /** A state about to receive new key `k`: valid except that `size` already counts `k`. */
  ghost predicate ReadyFor(p: State, k: int)
  {
    && 0 < p.size <= p.capacity && p.size == |p.nodeMap| + 1 && k !in p.nodeMap
    && BucketsAgree(p) && NodesPlaced(p) && BucketsHold(p) && Recency(p)
  }

  lemma EvictEffect(s: State, k: int)
    requires Valid(s) && |s.nodeMap| > 0 && k !in s.nodeMap && s.size == s.capacity
    ensures Victim(s) in s.nodeMap && Evicted(s, Evict(s), Victim(s))
    ensures ReadyFor(Evict(s), k)
  {
    EvictShape(s);
    var v := Victim(s);
    var e := Evict(s);
    assert (s.nodeMap - {v}).Keys == s.nodeMap.Keys - {v};
    EvictedReady(s, e, v, k);
  }

  lemma EvictShape(s: State)
    requires Valid(s) && |s.nodeMap| > 0
    ensures Victim(s) in s.nodeMap && Evicted(s, Evict(s), Victim(s))
  {
    StoredKeyHasBucket(s);
    var f := MinKey(s.buckets.Keys);
    var b := s.buckets[f];
    var v := b[0];
    var e := Evict(s);
    HeadUnlinked(b, s.touched);
    IncreasingTail(b, s.touched);
    forall g ensures BucketOf(e, g) == Without(BucketOf(s, g), v) {
      if g != f {
        if g in s.buckets {
          assert v !in s.buckets[g];
          WithoutAbsent(s.buckets[g], v);
        }
      }
    }
  }

  lemma EvictedReady(s: State, e: State, v: int, k: int)
    requires Valid(s) && v in s.nodeMap && Evicted(s, e, v) && k !in s.nodeMap && s.size == s.capacity
    ensures ReadyFor(e, k)
  {
    var f := s.nodeMap[v].useCount;
    WithoutIncreasing(s.buckets[f], v, s.touched);
    assert |e.nodeMap| == |s.nodeMap| - 1;
    forall g | g in e.buckets ensures 1 <= g && |e.buckets[g]| > 0 {
      assert BucketOf(e, g) == Without(s.buckets[g], v);
      if g != f {
        assert v !in s.buckets[g];
        WithoutAbsent(s.buckets[g], v);
      }
    }
    EvictedPlaced(s, e, v);
    EvictedHold(s, e, v);
    EvictedRecency(s, e, v);
  }

  lemma EvictedPlaced(s: State, e: State, v: int)
    requires Valid(s) && v in s.nodeMap && Evicted(s, e, v)
    ensures NodesPlaced(e)
  {
    forall x | x in e.nodeMap ensures e.nodeMap[x].useCount in e.buckets && x in e.buckets[e.nodeMap[x].useCount] {
      var g := s.nodeMap[x].useCount;
      assert x in s.buckets[g];
      assert x in Without(BucketOf(s, g), v);
    }
  }

  lemma EvictedHold(s: State, e: State, v: int)
    requires Valid(s) && v in s.nodeMap && Evicted(s, e, v)
    ensures BucketsHold(e)
  {
    forall g, i | g in e.buckets && 0 <= i < |e.buckets[g]|
      ensures e.buckets[g][i] in e.nodeMap && e.nodeMap[e.buckets[g][i]].useCount == g
    {
      var x := e.buckets[g][i];
      assert BucketOf(e, g) == Without(s.buckets[g], v);
      assert x in s.buckets[g] && x != v;
      var j :| 0 <= j < |s.buckets[g]| && s.buckets[g][j] == x;
    }
  }

  lemma EvictedRecency(s: State, e: State, v: int)
    requires Valid(s) && v in s.nodeMap && Evicted(s, e, v)
    ensures Recency(e)
  {
    forall g | g in e.buckets ensures Increasing(e.buckets[g], e.touched) {
      assert BucketOf(e, g) == Without(s.buckets[g], v);
      WithoutIncreasing(s.buckets[g], v, s.touched);
      forall x | x in e.buckets[g] ensures x in e.touched && e.touched[x] == s.touched[x] {
        var i :| 0 <= i < |e.buckets[g]| && e.buckets[g][i] == x;
      }
      IncreasingFrame(e.buckets[g], s.touched, e.touched);
    }
  }

  /** What the new-key path does: a node with one use at the newest end of bucket 1, nothing else changes. */
  ghost predicate Inserted(p: State, r: State, k: int, v: int)
  {
    && r.capacity == p.capacity && r.size == p.size
    && r.nodeMap == p.nodeMap[k := Node(k, v, 1)]
    && 1 in r.buckets && r.buckets[1] == BucketOf(p, 1) + [k]
    && (forall g :: g != 1 ==> (g in r.buckets <==> g in p.buckets))
    && (forall g :: g != 1 ==> BucketOf(r, g) == BucketOf(p, g))
    && LensTrack(r)
    && r.touched == p.touched[k := p.clock] && r.clock == p.clock + 1
  }

  lemma InsertEffect(p: State, k: int, v: int)
    requires ReadyFor(p, k)
    ensures Inserted(p, Insert(p, k, v), k, v)
    ensures Valid(Insert(p, k, v))
  {
    var q := NewNode(p, k, v);
    assert LensTrack(p);
    AppendTailEffect(q, k);
    var r := Insert(p, k, v);
    assert BucketOf(q, 1) == BucketOf(p, 1);
    assert Inserted(p, r, k, v);
    InsertedValid(p, r, k, v);
  }

  lemma InsertedValid(p: State, r: State, k: int, v: int)
    requires ReadyFor(p, k) && Inserted(p, r, k, v)
    ensures Valid(r)
  {
    assert k !in BucketOf(p, 1) by {
      var b1 := BucketOf(p, 1);
      if 1 in p.buckets {
        assert forall i :: 0 <= i < |b1| ==> b1[i] in p.nodeMap;
      }
    }
    assert r.nodeMap.Keys == p.nodeMap.Keys + {k};
    assert SizeOk(r);
    forall g | g in r.buckets ensures 1 <= g && |r.buckets[g]| > 0 {
      if g != 1 {
        assert BucketOf(r, g) == BucketOf(p, g);
      }
    }
    InsertedPlaced(p, r, k, v);
    InsertedHold(p, r, k, v);
    InsertedRecency(p, r, k, v);
  }

  lemma InsertedPlaced(p: State, r: State, k: int, v: int)
    requires ReadyFor(p, k) && Inserted(p, r, k, v)
    ensures NodesPlaced(r)
  {
    forall x | x in r.nodeMap
      ensures r.nodeMap[x].key == x && r.nodeMap[x].useCount in r.buckets
      ensures x in r.buckets[r.nodeMap[x].useCount]
    {
      if x != k {
        var g := p.nodeMap[x].useCount;
        assert x in p.buckets[g];
        assert BucketOf(r, g) == if g == 1 then BucketOf(p, 1) + [k] else BucketOf(p, g);
      }
    }
  }

  lemma InsertedHold(p: State, r: State, k: int, v: int)
    requires ReadyFor(p, k) && Inserted(p, r, k, v)
    requires k !in BucketOf(p, 1)
    ensures BucketsHold(r)
  {
    var b1 := BucketOf(p, 1);
    forall g, i | g in r.buckets && 0 <= i < |r.buckets[g]|
      ensures r.buckets[g][i] in r.nodeMap && r.nodeMap[r.buckets[g][i]].useCount == g
    {
      var x := r.buckets[g][i];
      if g == 1 {
        if i < |b1| {
          assert x == p.buckets[g][i];
        }
      } else {
        assert BucketOf(r, g) == BucketOf(p, g);
        assert x == p.buckets[g][i];
      }
    }
  }

  lemma InsertedRecency(p: State, r: State, k: int, v: int)
    requires ReadyFor(p, k) && Inserted(p, r, k, v)
    requires r.nodeMap.Keys == p.nodeMap.Keys + {k}
    ensures Recency(r)
  {
    forall g | g in r.buckets ensures Increasing(r.buckets[g], r.touched) {
      InsertedIncreasing(p, r, k, v, g);
    }
  }

  lemma InsertedIncreasing(p: State, r: State, k: int, v: int, g: int)
    requires ReadyFor(p, k) && Inserted(p, r, k, v) && g in r.buckets
    ensures Increasing(r.buckets[g], r.touched)
  {
    var b := BucketOf(p, g);
    if g in p.buckets {
      forall x | x in b ensures x in r.touched && r.touched[x] == p.touched[x] {
        var i :| 0 <= i < |b| && b[i] == x;
      }
      IncreasingFrame(b, p.touched, r.touched);
    }
    if g == 1 {
      forall x | x in b ensures r.touched[x] < r.touched[k] {
        var i :| 0 <= i < |b| && b[i] == x;
      }
      IncreasingAppend(b, k, r.touched);
    } else {
      assert BucketOf(r, g) == b;
    }
  }

  // ---------------------------------------------------------------------
  // get and put

  /** A `get` keeps the object invariant. */
  lemma GetValid(s: State, k: int)
    requires Valid(s)
    ensures Valid(Get(s, k).0)
  {
    if s.capacity != 0 && k in s.nodeMap {
      TouchEffect(s, k);
      TouchedValid(s, Touch(s, k), k);
    }
  }

  /** A hit `get` returns the stored value and touches the entry, leaving its value alone. */
  lemma GetHit(s: State, k: int)
    requires Valid(s) && s.capacity != 0 && k in s.nodeMap
    ensures Get(s, k).1 == s.nodeMap[k].val
    ensures Touched(s, Get(s, k).0, k) && Get(s, k).0.nodeMap[k].val == s.nodeMap[k].val
  {
    TouchEffect(s, k);
  }

  /** Overwriting the value of a stored node keeps the object invariant. */
  lemma SetValValid(s: State, k: int, v: int)
    requires Valid(s) && k in s.nodeMap
    ensures Valid(SetVal(s, k, v))
  {
    var s' := SetVal(s, k, v);
    assert s'.nodeMap.Keys == s.nodeMap.Keys;
    assert forall x :: x in s.nodeMap ==> s'.nodeMap[x].useCount == s.nodeMap[x].useCount;
  }

  /** A hit `put` stores the new value and touches the entry. */
  lemma PutHit(s: State, k: int, v: int)
    requires Valid(s) && s.capacity != 0 && k in s.nodeMap
    ensures Touched(s, Put(s, k, v), k) && Put(s, k, v).nodeMap[k].val == v
    ensures Valid(Put(s, k, v))
  {
    var s' := SetVal(s, k, v);
    SetValValid(s, k, v);
    TouchEffect(s', k);
    var r := Touch(s', k);
    TouchedValid(s', r, k);
    assert Put(s, k, v) == r;
    TouchedSetVal(s, s', r, k);
  }

  lemma TouchedSetVal(s: State, s': State, r: State, k: int)
    requires k in s.nodeMap && s'.nodeMap.Keys == s.nodeMap.Keys
    requires s' == s.(nodeMap := s'.nodeMap) && s'.nodeMap[k].useCount == s.nodeMap[k].useCount
    requires forall x :: x in s.nodeMap && x != k ==> s'.nodeMap[x] == s.nodeMap[x]
    requires Touched(s', r, k)
    ensures Touched(s, r, k)
  {
  }

  /**
    `put` of a new key below capacity: the key is stored with one use at the
    newest end of bucket 1, `size` grows by one, and nothing else changes.
  */
  lemma PutNewBelow(s: State, k: int, v: int)
    requires Valid(s) && s.capacity != 0 && k !in s.nodeMap && s.size < s.capacity
    ensures var r := Put(s, k, v);
      && Valid(r) && r.size == s.size + 1
      && r.nodeMap == s.nodeMap[k := Node(k, v, 1)]
      && (forall g :: BucketOf(r, g) == BucketOf(s, g) + (if g == 1 then [k] else []))
  {
    var p := Grow(s);
    GrowReady(s, k);
    InsertEffect(p, k, v);
    var r := Insert(p, k, v);
    assert Put(s, k, v) == r;
    InsertedBuckets(p, r, k, v);
  }

  lemma InsertedBuckets(p: State, r: State, k: int, v: int)
    requires Inserted(p, r, k, v)
    ensures forall g :: BucketOf(r, g) == BucketOf(p, g) + (if g == 1 then [k] else [])
  {
    assert BucketOf(r, 1) == r.buckets[1];
  }

  lemma GrowReady(s: State, k: int)
    requires Valid(s) && k !in s.nodeMap && s.size < s.capacity
    ensures ReadyFor(Grow(s), k)
  {
    var p := Grow(s);
    assert p.nodeMap == s.nodeMap && p.buckets == s.buckets && p.lens == s.lens && p.touched == s.touched;
    assert BucketsAgree(p) && NodesPlaced(p) && BucketsHold(p) && Recency(p);
  }

  /**
    `put` of a new key at capacity: exactly the LFU victim leaves, the key is
    stored with one use at the newest end of bucket 1, `size` stays, and
    every bucket keeps the order of the keys that stay in it.
  */
  lemma PutNewFull(s: State, k: int, v: int)
    requires Valid(s) && s.capacity != 0 && k !in s.nodeMap && s.size >= s.capacity
    ensures |s.nodeMap| > 0 && IsLfuVictim(s, Victim(s))
    ensures var r := Put(s, k, v);
      && Valid(r) && r.size == s.size
      && r.nodeMap == (s.nodeMap - {Victim(s)})[k := Node(k, v, 1)]
      && (forall g :: BucketOf(r, g) == Without(BucketOf(s, g), Victim(s)) + (if g == 1 then [k] else []))
  {
    assert |s.nodeMap| > 0;
    VictimIsLfu(s);
    EvictEffect(s, k);
    var e := Evict(s);
    InsertEffect(e, k, v);
    var r := Insert(e, k, v);
    assert Put(s, k, v) == r;
    InsertedBuckets(e, r, k, v);
  }

  /** A `put` keeps the object invariant; in particular `size` never exceeds `capacity`. */
  lemma PutValid(s: State, k: int, v: int)
    requires Valid(s)
    ensures Valid(Put(s, k, v))
    ensures |Put(s, k, v).nodeMap| == Put(s, k, v).size <= s.capacity
  {
    if s.capacity != 0 {
      if k in s.nodeMap {
        PutHit(s, k, v);
      } else if s.size < s.capacity {
        PutNewBelow(s, k, v);
      } else {
        PutNewFull(s, k, v);
      }
    }
  }

  /** After `put(k, v)` on an enabled cache, `k` is stored with value `v`. */
  lemma PutStores(s: State, k: int, v: int)
    requires Valid(s) && s.capacity != 0
    ensures k in Put(s, k, v).nodeMap && Put(s, k, v).nodeMap[k].val == v
    ensures Put(s, k, v).capacity == s.capacity
  {
    if k in s.nodeMap {
      PutHit(s, k, v);
    } else if s.size < s.capacity {
      PutNewBelow(s, k, v);
    } else {
      PutNewFull(s, k, v);
    }
  }

  /** `put(k, v)` directly followed by `get(k)` returns `v` on an enabled cache. */
  lemma RoundTrip(s: State, k: int, v: int)
    requires Valid(s) && s.capacity != 0
    ensures Valid(Put(s, k, v))
    ensures Get(Put(s, k, v), k).1 == v
  {
    PutValid(s, k, v);
    PutStores(s, k, v);
  }

  /** A cache built with capacity 0 stays empty and every `get` misses. */
  lemma DisabledStaysEmpty(s: State, k: int, v: int)
    requires Valid(s) && s.capacity == 0
    ensures s.nodeMap == map[] && Put(s, k, v) == s && Get(s, k) == (s, Miss)
  {
    assert |s.nodeMap| == 0;
  }

  // ---------------------------------------------------------------------
  // Sequences of calls

  /** One call a client makes on the cache. */
  datatype Call = GetCall(key: int) | PutCall(key: int, value: int)

  /** Runs `calls` in order from `s`: the final state and the value of each `get`, in order. */
  function Run(s: State, calls: seq<Call>): (r: (State, seq<int>))
    requires Valid(s)
    ensures Valid(r.0) && r.0.capacity == s.capacity
    ensures |r.0.nodeMap| <= s.capacity
    decreases |calls|
  {
    if calls == [] then (s, [])
    else match calls[0]
      case GetCall(k) =>
        GetValid(s, k);
        var (s1, x) := Get(s, k);
        var (s2, xs) := Run(s1, calls[1..]);
        (s2, [x] + xs)
      case PutCall(k, v) =>
        PutValid(s, k, v);
        Run(Put(s, k, v), calls[1..])
  }

  /** With capacity 0, any interleaving of calls leaves the cache as it was, and every `get` misses. */
  lemma {:induction false} DisabledRun(s: State, calls: seq<Call>)
    requires Valid(s) && s.capacity == 0
    ensures Run(s, calls).0 == s && s.nodeMap == map[]
    ensures forall i :: 0 <= i < |Run(s, calls).1| ==> Run(s, calls).1[i] == Miss
  {
    DisabledStaysEmpty(s, 0, 0);
    if calls != [] {
      DisabledRun(s, calls[1..]);
    }
  }

  // ---------------------------------------------------------------------
  // Facts the class needs to call its private helpers

  /** On a valid non-empty cache, `removeHead` of the least deque's head is defined (its preconditions hold). */
  lemma EvictStep(s: State)
    requires Valid(s) && |s.nodeMap| > 0
    ensures s.buckets.Keys != {}
    ensures var f := MinKey(s.buckets.Keys);
      && f in s.buckets && s.buckets[f] != []
      && s.buckets[f][0] in s.nodeMap && s.nodeMap[s.buckets[f][0]].useCount in s.lens
  {
    StoredKeyHasBucket(s);
  }
}
