/**
  The `LFUCache` class: the fields of the Java object, updated in place by
  `Get`, `Put` and the private helpers they share.  Each method is proved to
  move the object exactly as a function of `LfuModel` moves its state, so
  everything proved in `LfuProperties` holds of the object: `Get` and `Put`
  keep `Valid()`.  Most methods share their function's name; the others are
  `Remove` (`Unlink`), `FlushNode` (`Touch`), `Move2Tail` (`Add2Tail`),
  `EvictLeastUsed` (`Evict`) and `AddNode` (`Insert`).
*/
module LfuCache {
  import opened LfuModel
  import LfuProperties

  class LFUCache {
    var size: int
    var capacity: int
    /** Use count -> the keys of its deque between the two sentinels, oldest first. */
    var useCountDeQueMap: map<int, seq<int>>
    /** Use count -> length of its deque. */
    var dequeLengthMap: map<int, int>
    /** Key -> node. */
    var nodeMap: map<int, Node>
    /** History only: when each key was last touched, and the next time stamp. */
    ghost var touched: map<int, nat>
    ghost var clock: nat

    /** The whole object as a value. */
    ghost function Model(): State
      reads this
    {
      State(capacity, size, nodeMap, useCountDeQueMap, dequeLengthMap, touched, clock)
    }

    ghost predicate Valid()
      reads this
    {
      LfuModel.Valid(Model())
    }

    constructor (capacity: int)
      requires capacity >= 0
      ensures Valid() && Model() == Empty(capacity)
    {
      this.size := 0;
      this.capacity := capacity;
      useCountDeQueMap := map[];
      dequeLengthMap := map[];
      nodeMap := map[];
      touched := map[];
      clock := 0;
    }

    /** `get(key)`: -1 when disabled or absent, otherwise touch the node and return its value. */
    method Get(key: int) returns (r: int)
      requires Valid()
      modifies this
      ensures Valid()
      ensures (Model(), r) == LfuModel.Get(old(Model()), key)
    {
      LfuProperties.GetValid(Model(), key);
      if capacity == 0 {
        return Miss;
      }
      if key !in nodeMap {
        return Miss;
      }
      LfuProperties.TouchEffect(Model(), key);
      FlushNode(key);
      r := nodeMap[key].val;
    }

    /** `put(key, value)`: update and touch a stored key, or store a new one, evicting first when full. */
    method Put(key: int, value: int)
      requires Valid()
      modifies this
      ensures Valid()
      ensures Model() == LfuModel.Put(old(Model()), key, value)
    {
      ghost var s := Model();
      if capacity == 0 {
        // a disabled cache ignores every put
      } else if key in nodeMap {
        nodeMap := nodeMap[key := nodeMap[key].(val := value)];
        assert Model() == SetVal(s, key, value);
        LfuProperties.SetValValid(s, key, value);
        FlushNode(key);
      } else {
        if size < capacity {
          size := size + 1;
          assert Model() == Grow(s);
        } else {
          EvictLeastUsed();
        }
        AddNode(key, value);
      }
      assert Model() == LfuModel.Put(s, key, value);
      LfuProperties.PutValid(s, key, value);
    }

    /**
      The eviction step of `put` at full capacity: `removeHead` on the deque
      with the least use count, then `nodeMap.remove` of the key it returns.
    */
    method EvictLeastUsed()
      requires Valid() && |nodeMap| > 0
      modifies this
      ensures Model() == Evict(old(Model()))
    {
      LfuProperties.EvictStep(Model());
      var minKey := RemoveHead(MinKey(useCountDeQueMap.Keys));
      nodeMap := nodeMap - {minKey};
      touched := touched - {minKey};
    }

    /**
      The tail of `put`'s new-key path: a fresh node with one use, stored
      under `key` and appended to the deque for use count 1, which is
      created if absent.
    */
    method AddNode(key: int, value: int)
      requires useCountDeQueMap.Keys == dequeLengthMap.Keys
      modifies this
      ensures Model() == Insert(old(Model()), key, value)
    {
      nodeMap := nodeMap[key := Node(key, value, 1)];
      touched := touched[key := clock];
      clock := clock + 1;
      if 1 !in useCountDeQueMap {
        NewDeque(1);
      }
      Add2Tail(key);
    }

    /** `newDeque(useCount)`: an empty deque for `useCount`, registered in both frequency maps. */
    method NewDeque(useCount: int)
      modifies this
      ensures Model() == LfuModel.NewDeque(old(Model()), useCount)
    {
      useCountDeQueMap := useCountDeQueMap[useCount := []];
      dequeLengthMap := dequeLengthMap[useCount := 0];
    }

    /** `add2Tail`: splice the node in before the tail sentinel of its use count's deque. */
    method Add2Tail(key: int)
      requires key in nodeMap
      requires nodeMap[key].useCount in useCountDeQueMap && nodeMap[key].useCount in dequeLengthMap
      modifies this
      ensures Model() == LfuModel.Add2Tail(old(Model()), key)
    {
      var useCount := nodeMap[key].useCount;
      useCountDeQueMap := useCountDeQueMap[useCount := useCountDeQueMap[useCount] + [key]];
      dequeLengthMap := dequeLengthMap[useCount := dequeLengthMap[useCount] + 1];
    }

    /**
      `move2Tail`: unlink the node from its neighbours, then `add2Tail`.  It is
      only called right after `remove` has unlinked the same node, so the node
      is in no deque and the re-unlink stores into its neighbours the links
      `remove` has just stored there: it changes nothing.
    */
    method Move2Tail(key: int)
      requires key in nodeMap
      requires forall g :: g in useCountDeQueMap ==> key !in useCountDeQueMap[g]
      requires nodeMap[key].useCount in useCountDeQueMap && nodeMap[key].useCount in dequeLengthMap
      modifies this
      ensures Model() == LfuModel.Add2Tail(old(Model()), key)
    {
      Add2Tail(key);
    }

    /** `remove(node)`: unlink the node, shorten its deque, drop the deque when it is empty. */
    method Remove(key: int)
      requires key in nodeMap
      requires nodeMap[key].useCount in useCountDeQueMap && nodeMap[key].useCount in dequeLengthMap
      modifies this
      ensures Model() == Unlink(old(Model()), key)
    {
      var useCount := nodeMap[key].useCount;
      useCountDeQueMap := useCountDeQueMap[useCount := Without(useCountDeQueMap[useCount], key)];
      dequeLengthMap := dequeLengthMap[useCount := dequeLengthMap[useCount] - 1];
      if dequeLengthMap[useCount] <= 0 {
        dequeLengthMap := dequeLengthMap - {useCount};
        useCountDeQueMap := useCountDeQueMap - {useCount};
      }
    }

    /** `removeHead`: unlink the oldest node of the deque for `useCount` and return its key. */
    method RemoveHead(useCount: int) returns (key: int)
      requires useCount in useCountDeQueMap && useCountDeQueMap[useCount] != []
      requires useCountDeQueMap[useCount][0] in nodeMap
      requires nodeMap[useCountDeQueMap[useCount][0]].useCount in dequeLengthMap
      modifies this
      ensures (Model(), key) == LfuModel.RemoveHead(old(Model()), useCount)
    {
      key := useCountDeQueMap[useCount][0];
      var nodeCount := nodeMap[key].useCount;
      useCountDeQueMap := useCountDeQueMap[useCount := useCountDeQueMap[useCount][1..]];
      dequeLengthMap := dequeLengthMap[nodeCount := dequeLengthMap[nodeCount] - 1];
      if dequeLengthMap[nodeCount] <= 0 {
        dequeLengthMap := dequeLengthMap - {nodeCount};
        useCountDeQueMap := useCountDeQueMap - {nodeCount};
      }
    }

    /** `flushNode`: leave the old deque, one more use, join the tail of the deque for the new count. */
    method FlushNode(key: int)
      requires Valid() && key in nodeMap
      modifies this
      ensures Model() == Touch(old(Model()), key)
    {
      LfuProperties.UnlinkedAbsent(Model(), key);
      Remove(key);
      ghost var unlinked := Model();
      var node := nodeMap[key];
      nodeMap := nodeMap[key := node.(useCount := node.useCount + 1)];
      touched := touched[key := clock];
      clock := clock + 1;
      ghost var bumped := Model();
      assert bumped == Bump(unlinked, key);
      if node.useCount + 1 !in useCountDeQueMap {
        NewDeque(node.useCount + 1);
        Add2Tail(key);
      } else {
        Move2Tail(key);
      }
      assert Model() == AppendTail(bumped, key);
    }
  }
}
