/**
 The cache in the program's own form: nodes with reference counts, two lists, an index, and guards that null their
 own fields.  The ghost field `model` is the cache as a value; every operation is proved to do to it what the
 operation of the same name in `LruModel` does.
 */
module LruCache {
  import opened Common
  import opened LruModel

  class Node<K(==), V> {
    const key: K
    var value: V
    var refs: nat
    /** The cache the node was made for. */
    ghost const owner: object

    constructor (key: K, value: V, ghost owner: object)
      ensures this.key == key && this.value == value && refs == 1 && this.owner == owner
    {
      this.key, this.value, this.refs, this.owner := key, value, 1, owner;
    }
  }

  class HandleGuard<K(==), V> {
    var node: Node?<K, V>
    var cache: LRUCache?<K, V>

    constructor Empty()
      ensures !IsValid() && node == null && cache == null
    {
      node, cache := null, null;
    }

    /** A guard on a node of a cache, which counts it. */
    constructor Pinning(cache: LRUCache<K, V>, node: Node<K, V>)
      requires cache.Good() && node.key in cache.cache && cache.cache[node.key] == node
      modifies cache`notUse, cache`inUse, cache`model, cache`guards, cache`guardsOn, node`refs
      ensures this.cache == cache && this.node == node && this !in old(cache.guards)
      ensures node.key in old(cache.model.pins)
      ensures cache.Good() && cache.model == Pin(old(cache.model), node.key)
      ensures cache.guards == old(cache.guards)[this := node.key]
    {
      hide LRUCache.ValidFor, Books;
      this.node, this.cache := node, cache;
      new;
      cache.Cached(node.key);
      PinHolds(cache.model, cache.guards, cache.guardsOn, this, node.key);
      cache.RefNode(node, this);
    }

    predicate IsValid()
      reads this
    {
      cache != null && node != null
    }

    /** Move construction: the new guard takes the other one's place, which is left empty. */
    constructor MovedFrom(other: HandleGuard<K, V>)
      requires other.Settled()
      modifies other
      modifies if other.cache == null then {} else {other.cache}
      ensures !other.IsValid() && node == old(other.node) && cache == old(other.cache)
      ensures IsValid() == old(other.IsValid())
      ensures IsValid() ==> cache.Good() && cache.model == old(other.cache.model)
      ensures IsValid() ==> cache.guards == old(other.cache.guards)[this := old(other.cache.guards[other])] - {other}
    {
      node, cache := null, null;
      new;
      if other.IsValid() {
        other.cache.Transfer(other, this);
      }
    }

    /**
     Move assignment: what this guard held is let go first, then it takes the other one's place.  Assigning a guard to
     itself does nothing.
     */
    method MoveFrom(other: HandleGuard<K, V>)
      requires Settled() && other.Settled()
      modifies this, other
      modifies if cache == null then {} else {cache}
      modifies if other.cache == null then {} else {other.cache}
      modifies if node == null then {} else {node}
      ensures this == other ==> node == old(node) && cache == old(cache)
      ensures this != other ==> other.cache == null && other.node == null
      ensures this != other ==> node == old(other.node) && cache == old(other.cache)
      ensures this != other && old(cache) != null ==>
                old(cache).Good() && old(cache).model == Release(old(cache.model), old(cache.guards[this]))
      ensures this != other && cache != null ==>
                cache.Good() && this in cache.guards && cache.guards[this] == old(other.cache.guards[other])
    {
      hide LRUCache.Good;
      if this != other {
        if other.IsValid() {
          TakeOver(other);
        } else {
          Reset();
        }
      }
    }

    /** Registered with its cache, which is in order, or empty. */
    ghost predicate Settled()
      reads this, if cache == null then {} else {cache}
      reads if cache == null then {} else cache.nodes
      reads if cache == null then {} else cache.guards.Keys
    {
      if cache == null then node == null else node != null && cache.Good() && this in cache.guards
    }

    /** Guards of two caches are unknown to each other's, and so is the node. */
    lemma Apart(other: HandleGuard<K, V>)
      requires Settled() && other.Settled() && other.cache != null && cache != other.cache
      ensures this !in other.cache.guards && (node != null ==> node !in other.cache.nodes)
      ensures cache != null ==> other !in cache.guards
    {
    }

    /** Move assignment from a valid guard, of the same cache or another one. */
    method TakeOver(other: HandleGuard<K, V>)
      requires this != other && Settled() && other.Settled() && other.cache != null
      modifies this, other, other.cache
      modifies if cache == null then {} else {cache}
      modifies if node == null then {} else {node}
      ensures other.node == null && other.cache == null && node == old(other.node) && cache == old(other.cache)
      ensures cache.Good() && this in cache.guards && cache.guards[this] == old(other.cache.guards[other])
      ensures old(cache) != null ==>
                old(cache).Good() && old(cache).model == Release(old(cache.model), old(cache.guards[this]))
    {
      hide LRUCache.Good;
      ResetBeside(other);
      other.cache.Transfer(other, this);
    }

    /** Letting go leaves a guard on another node, of the same cache or another one, as it was. */
    method ResetBeside(other: HandleGuard<K, V>)
      requires this != other && Settled() && other.Settled() && other.cache != null
      modifies this, if cache == null then {} else {cache}, if node == null then {} else {node}
      ensures cache == null && node == null && other.cache == old(other.cache) && other.node == old(other.node)
      ensures other.cache.Good() && other in other.cache.guards && this !in other.cache.guards
      ensures other.cache.guards[other] == old(other.cache.guards[other])
      ensures old(cache) != null ==>
                old(cache).Good() && old(cache).model == Release(old(cache.model), old(cache.guards[this]))
      ensures old(cache) != null && old(cache) != other.cache ==>
                this !in old(cache).guards && other !in old(cache).guards
    {
      hide LRUCache.Good;
      if cache != other.cache { Apart(other); }
      Reset();
    }

    /** Letting go: the cache counts one guard less, and the guard nulls its own fields. */
    method Reset()
      requires Settled()
      modifies this, if cache == null then {} else {cache}, if node == null then {} else {node}
      ensures cache == null && node == null
      ensures old(cache) == null ==> unchanged(this)
      ensures old(cache) != null ==>
                var c, k := old(cache), old(cache.guards[this]);
                && c.Good() && c.model == Release(old(cache.model), k) && c.guards == old(cache.guards) - {this}
                && c.deleted == old(cache.deleted)
    {
      hide LRUCache.ValidFor, Books;
      if IsValid() {
        ReleaseHolds(cache.model, cache.guards, cache.guardsOn, this);
        cache.LetGo(this);
      }
    }
  }

  class LRUCache<K(==), V> {
    const capacity: nat
    var size: nat
    var notUse: seq<Node<K, V>>
    var inUse: seq<Node<K, V>>
    var cache: map<K, Node<K, V>>
    /** Values handed to the value deleter, in order. */
    var deleted: seq<V>
    /** The valid guards: the key each one pins, and the guards of each cached key. */
    ghost var guards: map<HandleGuard<K, V>, K>
    ghost var guardsOn: map<K, set<HandleGuard<K, V>>>
    ghost var model: Lru<K, V>
    /** The nodes the index may hold. */
    ghost var nodes: set<Node<K, V>>

    /** The index and the lists: `notUse` holds the nodes of the idle keys, `inUse` those of the busy ones. */
    ghost predicate ListsOk(m: Lru<K, V>)
      reads this
    {
      Keyed(cache) && Parallel(notUse, m.idle, cache) && Parallel(inUse, m.busy, cache) && size == |m.values|
    }

    /** What each node of the index holds. */
    ghost predicate NodesOk()
      reads this, nodes
    {
      && (forall k :: k in model.pins ==> k in cache)
      && (forall node :: node in nodes ==> node.owner == this)
      && forall k :: k in cache ==>
           k in model.pins && k in model.values && cache[k] in nodes &&
           cache[k].value == model.values[k] && cache[k].refs == 1 + model.pins[k]
    }

    /** Every guard points at the node of its key. */
    ghost predicate GuardsOk()
      reads this, guards.Keys
    {
      forall g :: g in guards ==> guards[g] in cache && g.cache == this && g.node == cache[guards[g]]
    }

    /** Everything agrees; the lists are already those of `m`. */
    ghost predicate ValidFor(m: Lru<K, V>)
      reads this, nodes, guards.Keys
    {
      match m
      case Lru(cap, _, _, _, _, _, _) => cap == model.cap == capacity && ListsOk(m) && NodesOk() && GuardsOk()
    }

    ghost predicate Valid()
      reads this, nodes, guards.Keys
    {
      ValidFor(model)
    }

    /** The whole invariant: the reference counts are the numbers of valid guards. */
    ghost predicate Good()
      reads this, nodes, guards.Keys
    {
      Valid() && Books(model, guards, guardsOn)
    }

    constructor (capacity: nat)
      ensures Good() && model == LruModel.Empty(capacity) && deleted == [] && guards == map[] && guardsOn == map[]
    {
      this.capacity := capacity;
      size, notUse, inUse, cache, deleted := 0, [], [], map[], [];
      guards, guardsOn, model, nodes := map[], map[], LruModel.Empty(capacity), {};
    }

    /** One more guard: the first one moves the node to the nodes in use. */
    method RefNode(node: Node<K, V>, ghost g: HandleGuard<K, V>)
      requires Valid() && node.key in cache && cache[node.key] == node
      requires g !in guards && g.node == node && g.cache == this
      modifies this`notUse, this`inUse, this`model, this`guards, this`guardsOn, node`refs
      ensures Valid() && model == Pin(old(model), node.key)
      ensures guards == old(guards)[g := node.key] && guardsOn == AddGuard(old(guardsOn), node.key, g)
    {
      SpliceToInUse(node);
      CountUp(node);
      Register(node.key, g);
    }

    /** The first guard on a node moves it to the nodes in use. */
    method SpliceToInUse(node: Node<K, V>)
      requires Valid() && node.key in cache && cache[node.key] == node
      modifies this`notUse, this`inUse
      ensures ValidFor(Pin(model, node.key))
    {
      ParallelWithout(notUse, model.idle, cache, node.key);
      if node.refs == 1 {
        notUse := Without(notUse, node);
        inUse := inUse + [node];
      }
    }

    ghost method Register(k: K, g: HandleGuard<K, V>)
      requires Valid() && k in cache && g.node == cache[k] && g.cache == this
      modifies this`guards, this`guardsOn
      ensures Valid() && guards == old(guards)[g := k] && guardsOn == AddGuard(old(guardsOn), k, g)
    {
      guards, guardsOn := guards[g := k], AddGuard(guardsOn, k, g);
    }

    method CountUp(node: Node<K, V>)
      requires node.key in cache && cache[node.key] == node && node.key in model.pins
      requires ValidFor(Pin(model, node.key))
      modifies this`model, node`refs
      ensures Valid() && model == Pin(old(model), node.key)
    {
      node.refs := node.refs + 1;
      model := Pin(model, node.key);
    }

    /** One guard less: the last one moves the node to the end of the nodes not in use. */
    method UnrefNode(node: Node<K, V>)
      requires Valid() && node.key in cache && cache[node.key] == node && node.refs > 1
      modifies this`notUse, this`inUse, this`model, node`refs
      ensures Valid() && model == Unpin(old(model), node.key)
    {
      ghost var m := model;
      CountDown(node);
      SpliceToNotUse(node, m);
    }

    /** A registered guard is unreferenced, and nulls its fields. */
    method LetGo(g: HandleGuard<K, V>)
      requires Valid() && g in guards && guards[g] in model.pins && model.pins[guards[g]] > 0
      modifies this`notUse, this`inUse, this`model, this`guards, this`guardsOn, g.node`refs, g
      ensures Valid() && model == Unpin(old(model), old(guards[g])) && guards == old(guards) - {g}
      ensures guardsOn == DropGuard(old(guardsOn), old(guards[g]), g)
      ensures g.node == null && g.cache == null
    {
      ghost var k := guards[g];
      UnrefNode(g.node);
      Forget(k, g);
    }

    method Forget(ghost k: K, g: HandleGuard<K, V>)
      requires Valid()
      modifies this`guards, this`guardsOn, g
      ensures Valid() && guards == old(guards) - {g} && guardsOn == DropGuard(old(guardsOn), k, g)
      ensures g.node == null && g.cache == null
    {
      g.cache := null;
      g.node := null;
      guards, guardsOn := guards - {g}, DropGuard(guardsOn, k, g);
    }

    method CountDown(node: Node<K, V>)
      requires Valid() && node.key in cache && cache[node.key] == node && node.refs > 1
      modifies this`model, node`refs
      ensures ValidFor(old(model)) && node.refs == old(node.refs) - 1 && model == Unpin(old(model), node.key)
    {
      node.refs := node.refs - 1;
      model := Unpin(model, node.key);
    }

    method SpliceToNotUse(node: Node<K, V>, ghost m: Lru<K, V>)
      requires ValidFor(m) && node.key in cache && cache[node.key] == node
      requires node.key in m.pins && m.pins[node.key] > 0 && model == Unpin(m, node.key)
      modifies this`notUse, this`inUse
      ensures Valid()
    {
      ParallelWithout(inUse, m.busy, cache, node.key);
      if node.refs == 1 {
        inUse := Without(inUse, node);
        notUse := notUse + [node];
      }
    }

    /** A lookup pins what it finds. */
    method Get(key: K) returns (g: HandleGuard<K, V>)
      requires Good()
      modifies this`notUse, this`inUse, this`model, this`guards, this`guardsOn, nodes`refs
      ensures Good() && model == LruModel.Get(old(model), key)
      ensures fresh(g) && (g.IsValid() <==> key in old(model.values))
      ensures g.IsValid() ==> g.node.value == old(model.values)[key] && guards == old(guards)[g := key]
      ensures !g.IsValid() ==> guards == old(guards)
    {
      Cached(key);
      if key in cache {
        g := new HandleGuard<K, V>.Pinning(this, cache[key]);
      } else {
        g := new HandleGuard<K, V>.Empty();
      }
    }

    /** An existing key gets the new value in place; a new one is inserted, pinned, and then others are evicted. */
    method Put(key: K, value: V) returns (g: HandleGuard<K, V>)
      requires Good()
      modifies this, nodes
      ensures Good() && model == LruModel.Put(old(model), key, value)
      ensures fresh(g) && g.IsValid() && guards == old(guards)[g := key]
      ensures deleted == old(deleted) + DeletedBy(old(model), key, value)
      ensures key in old(model).pins ==> deleted == old(deleted)
    {
      Cached(key);
      hide Good;
      if key in cache {
        g := PutOld(key, value);
      } else {
        g := PutNew(key, value);
      }
    }

    lemma Cached(key: K)
      requires Good()
      ensures key in cache ==> cache[key].key == key && cache[key].value == model.values[key] && cache[key] in nodes
      ensures key in cache <==> key in model.pins
      ensures key in cache <==> key in model.values
    {
    }

    method PutNew(key: K, value: V) returns (g: HandleGuard<K, V>)
      requires Good() && key !in cache && key !in model.pins
      modifies this
      ensures Good() && model == LruModel.Evict(Pin(Insert(old(model), key, value), key))
      ensures fresh(g) && g.IsValid() && guards == old(guards)[g := key]
      ensures deleted == old(deleted) + Purged(Pin(Insert(old(model), key, value), key))
    {
      hide *;
      g := InsertPinned(key, value);
      Evict();
    }

    method InsertPinned(key: K, value: V) returns (g: HandleGuard<K, V>)
      requires Good() && key !in cache && key !in model.pins
      modifies this`size, this`notUse, this`inUse, this`cache, this`model, this`nodes, this`guards, this`guardsOn
      ensures Good() && model == Pin(Insert(old(model), key, value), key)
      ensures fresh(g) && g.IsValid() && guards == old(guards)[g := key]
    {
      hide Good;
      var node := InsertNode(key, value);
      g := new HandleGuard<K, V>.Pinning(this, node);
    }

    method PutOld(key: K, value: V) returns (g: HandleGuard<K, V>)
      requires Good() && key in cache && key in model.pins
      modifies this`notUse, this`inUse, this`model, this`guards, this`guardsOn, nodes
      ensures Good() && model == Pin(old(model).(values := old(model.values)[key := value]), key)
      ensures fresh(g) && g.IsValid() && guards == old(guards)[g := key]
    {
      Cached(key);
      hide Good;
      Overwrite(cache[key], value);
      g := new HandleGuard<K, V>.Pinning(this, cache[key]);
    }

    method Overwrite(node: Node<K, V>, value: V)
      requires Good() && node.key in cache && cache[node.key] == node
      modifies this`model, node`value
      ensures Good() && node.key in old(model.pins)
      ensures model == old(model).(values := old(model.values)[node.key := value])
    {
      Cached(node.key);
      hide ValidFor, Books;
      UpdateHolds(model, guards, guardsOn, node.key, value);
      SetValue(node, value);
    }

    method InsertNode(key: K, value: V) returns (node: Node<K, V>)
      requires Good() && key !in cache
      modifies this`size, this`notUse, this`cache, this`model, this`nodes
      ensures Good() && fresh(node) && node.key == key && key in cache && cache[key] == node
      ensures model == Insert(old(model), key, value)
    {
      Cached(key);
      hide ValidFor, Books;
      InsertHolds(model, guards, guardsOn, key, value);
      node := AddNode(key, value);
    }

    method SetValue(node: Node<K, V>, value: V)
      requires Valid() && node.key in cache && cache[node.key] == node
      modifies this`model, node`value
      ensures Valid() && model == old(model).(values := old(model.values)[node.key := value])
    {
      SizeWith(model.values, node.key, value);
      node.value := value;
      model := model.(values := model.values[node.key := value]);
    }

    /** A new node enters at the end of the nodes not in use, with one reference. */
    method AddNode(key: K, value: V) returns (node: Node<K, V>)
      requires Valid() && key !in cache && key !in model.values
      modifies this`size, this`notUse, this`cache, this`model, this`nodes
      ensures Valid() && model == Insert(old(model), key, value)
      ensures fresh(node) && node.key == key && key in cache && cache[key] == node
    {
      SizeWith(model.values, key, value);
      node := new Node(key, value, this);
      ParallelInsert(notUse, model.idle, cache, key, node);
      ParallelInsert(inUse, model.busy, cache, key, node);
      StoreNode(node);
    }

    method StoreNode(node: Node<K, V>)
      requires Valid() && node.key !in cache && node.refs == 1 && node.owner == this
      requires Keyed(cache[node.key := node]) && Parallel(notUse + [node], model.idle + [node.key], cache[node.key := node])
      requires Parallel(inUse, model.busy, cache[node.key := node])
      requires |model.values[node.key := node.value]| == |model.values| + 1
      modifies this`size, this`notUse, this`cache, this`model, this`nodes
      ensures Valid() && cache == old(cache)[node.key := node] && nodes == old(nodes) + {node}
      ensures model == Insert(old(model), node.key, node.value)
    {
      notUse := notUse + [node];
      cache := cache[node.key := node];
      size := size + 1;
      model := Insert(model, node.key, node.value);
      nodes := nodes + {node};
    }

    /** Nodes leave from the front of the nodes not in use while the cache is over its capacity. */
    method Evict()
      requires Good()
      modifies this`size, this`notUse, this`cache, this`model, this`deleted
      ensures Good() && model == LruModel.Evict(old(model))
      ensures deleted == old(deleted) + Purged(old(model))
    {
      hide Good;
      ghost var m := model;
      ghost var j := EvictExcess();
      EvictDone(m, j);
    }

    method EvictExcess() returns (ghost j: nat)
      requires Good()
      modifies this`size, this`notUse, this`cache, this`model, this`deleted
      ensures Good() && EvictedSoFar(old(model), old(deleted), j, model, deleted)
      ensures j > 0 ==> capacity > 0 && |old(model).values| - j >= capacity
      ensures capacity > 0 ==> |old(model).values| - j <= capacity || j == |old(model).idle|
      ensures old(model).cap == capacity
    {
      ghost var m, was := model, deleted;
      j := 0;
      EvictNone(m, was);
      if capacity > 0 {
        while size > capacity && notUse != []
          invariant Good() && EvictedSoFar(m, was, j, model, deleted)
          invariant size == |m.values| - j && |notUse| == |m.idle| - j && (j > 0 ==> size >= capacity)
          decreases |notUse|
        {
          EvictMore(m, was, j, model, deleted);
          EvictFront();
          j := j + 1;
        }
      }
    }

    lemma GoodIs()
      ensures Good() <==> Valid() && Books(model, guards, guardsOn)
    {
    }

    lemma FrontIsFirst()
      requires Valid()
      ensures |notUse| == |model.idle| && size == |model.values| && capacity == model.cap
    {
    }

    method EvictFront()
      requires Good() && notUse != []
      modifies this`size, this`notUse, this`cache, this`model, this`deleted
      ensures Good() && model == EvictFirst(old(model), 1) && |notUse| == |old(notUse)| - 1 && size == old(size) - 1
      ensures deleted == old(deleted) + Values(old(model).values, old(model).idle[..1])
    {
      hide *;
      GoodIs();
      FrontIsFirst();
      EvictHolds(model, guards, guardsOn);
      DropFirst();
      GoodIs();
    }

    /** The front node leaves the index and the list, and its value goes to the deleter. */
    method DropFirst()
      requires Valid() && notUse != [] && CanDrop(model, guards)
      modifies this`size, this`notUse, this`cache, this`model, this`deleted
      ensures Valid() && model == EvictFirst(old(model), 1) && notUse == old(notUse)[1..] && size == old(size) - 1
      ensures deleted == old(deleted) + Values(old(model).values, old(model).idle[..1])
    {
      ghost var k := model.idle[0];
      ParallelRemove(notUse[1..], model.idle[1..], cache, k);
      ParallelRemove(inUse, model.busy, cache, k);
      FirstValue(model);
      var node := notUse[0];
      deleted := deleted + [node.value];
      Unlink(node);
    }

    method Unlink(node: Node<K, V>)
      requires Valid() && notUse != [] && CanDrop(model, guards) && node == notUse[0]
      requires Keyed(cache - {node.key}) && Parallel(notUse[1..], model.idle[1..], cache - {node.key})
      requires Parallel(inUse, model.busy, cache - {node.key})
      modifies this`size, this`notUse, this`cache, this`model
      ensures Valid() && model == EvictFirst(old(model), 1) && notUse == old(notUse)[1..] && size == old(size) - 1
    {
      cache := cache - {node.key};
      notUse := notUse[1..];
      size := size - 1;
      model := EvictFirst(model, 1);
    }

    /** A guard moves: the other guard takes its place, and the cache is as it was. */
    method Transfer(from: HandleGuard<K, V>, to: HandleGuard<K, V>)
      requires Good() && from in guards && to !in guards
      modifies this`guards, this`guardsOn, from, to
      ensures Good() && from.node == null && from.cache == null
      ensures to.cache == this && to.node == old(from.node) && to.IsValid()
      ensures guards == old(guards)[to := old(guards[from])] - {from}
      ensures to in guards && guards[to] == old(guards[from])
    {
      hide ValidFor, Books;
      HeldMove(model, guards, guardsOn, from, to);
      Swap(from, to);
    }

    method Swap(from: HandleGuard<K, V>, to: HandleGuard<K, V>)
      requires Valid() && from in guards && to !in guards
      modifies this`guards, this`guardsOn, from, to
      ensures Valid() && from.node == null && from.cache == null
      ensures to.cache == this && to.node == old(from.node) && to.IsValid()
      ensures guards == old(guards)[to := old(guards[from])] - {from}
      ensures guardsOn == var k := old(guards[from]); DropGuard(AddGuard(old(guardsOn), k, to), k, from)
    {
      ghost var k := guards[from];
      Repoint(from, to);
      Forget(k, from);
    }

    method Repoint(from: HandleGuard<K, V>, to: HandleGuard<K, V>)
      requires Valid() && from in guards && to !in guards
      modifies this`guards, this`guardsOn, to
      ensures Valid() && to.cache == this && to.node == from.node && to.IsValid()
      ensures guards == old(guards)[to := old(guards[from])]
      ensures guardsOn == AddGuard(old(guardsOn), old(guards[from]), to)
    {
      to.node := from.node;
      to.cache := from.cache;
      Register(guards[from], to);
    }

    /** Destroying the cache, when no guard is left, hands every value to the deleter. */
    method Destroy()
      requires Good() && guards == map[]
      modifies this`size, this`notUse, this`cache, this`model, this`deleted
      ensures Good() && notUse == [] && model.values == map[] && size == 0
      ensures deleted == old(deleted) + Values(old(model).values, old(model).idle)
    {
      EvictAll();
      NothingLeft(model, guards, guardsOn);
    }

    method EvictAll()
      requires Good()
      modifies this`size, this`notUse, this`cache, this`model, this`deleted
      ensures Good() && notUse == [] && model.idle == []
      ensures deleted == old(deleted) + Values(old(model).values, old(model).idle)
    {
      FrontIsFirst();
      ghost var m, was, j := model, deleted, 0;
      EvictNone(m, was);
      hide Good;
      while notUse != []
        invariant Good() && EvictedSoFar(m, was, j, model, deleted) && |notUse| == |m.idle| - j
        decreases |notUse|
      {
        EvictMore(m, was, j, model, deleted);
        EvictFront();
        j := j + 1;
      }
      assert m.idle[..j] == m.idle;
    }
  }

  // ---------- The lists ----------

  ghost predicate Keyed<K, V>(cache: map<K, Node<K, V>>) {
    forall k :: k in cache ==> cache[k].key == k
  }

  /** `nodes` are the nodes of `keys`, in order. */
  ghost predicate Parallel<K, V>(nodes: seq<Node<K, V>>, keys: seq<K>, cache: map<K, Node<K, V>>) {
    |nodes| == |keys| && forall i :: 0 <= i < |keys| ==> keys[i] in cache && nodes[i] == cache[keys[i]]
  }

  /** A node leaves its list as its key leaves the list of keys. */
  lemma {:induction false} ParallelWithout<K, V>(nodes: seq<Node<K, V>>, keys: seq<K>, cache: map<K, Node<K, V>>, k: K)
    requires Keyed(cache) && Parallel(nodes, keys, cache) && k in cache
    ensures Parallel(Without(nodes, cache[k]), Without(keys, k), cache)
  {
    if nodes != [] {
      assert keys == [keys[0]] + keys[1..];
      assert (nodes[0] == cache[k]) <==> (keys[0] == k);
      ParallelWithout(nodes[1..], keys[1..], cache, k);
    }
  }

  lemma ParallelInsert<K, V>(nodes: seq<Node<K, V>>, keys: seq<K>, cache: map<K, Node<K, V>>, k: K, node: Node<K, V>)
    requires Keyed(cache) && Parallel(nodes, keys, cache) && k !in cache && node.key == k
    ensures Keyed(cache[k := node])
    ensures Parallel(nodes, keys, cache[k := node]) && Parallel(nodes + [node], keys + [k], cache[k := node])
  {
  }

  lemma ParallelRemove<K, V>(nodes: seq<Node<K, V>>, keys: seq<K>, cache: map<K, Node<K, V>>, k: K)
    requires Keyed(cache) && Parallel(nodes, keys, cache) && k !in keys
    ensures Keyed(cache - {k}) && Parallel(nodes, keys, cache - {k})
  {
  }

  // ---------- Counting guards ----------

  /** A key is pinned as often as there are valid guards on it. */
  ghost predicate Held<K, V>(pins: map<K, nat>, guards: map<HandleGuard<K, V>, K>,
                             guardsOn: map<K, set<HandleGuard<K, V>>>) {
    && (forall k :: k in guardsOn ==> |guardsOn[k]| == if k in pins then pins[k] else 0)
    && (forall k :: k in pins && pins[k] > 0 ==> k in guardsOn)
    && (forall g :: g in guards ==> guards[g] in guardsOn && g in guardsOn[guards[g]])
    && (forall k, g :: k in guardsOn && g in guardsOn[k] ==> g in guards && guards[g] == k)
  }

  /** Every key is on the list its pins say, and the pins are the numbers of guards. */
  ghost predicate Books<K, V>(m: Lru<K, V>, guards: map<HandleGuard<K, V>, K>, guardsOn: map<K, set<HandleGuard<K, V>>>) {
    Filed(m) && Held(m.pins, guards, guardsOn)
  }

  ghost function OnKey<K, V>(guardsOn: map<K, set<HandleGuard<K, V>>>, k: K): set<HandleGuard<K, V>> {
    if k in guardsOn then guardsOn[k] else {}
  }

  ghost function AddGuard<K, V>(guardsOn: map<K, set<HandleGuard<K, V>>>, k: K, g: HandleGuard<K, V>)
    : map<K, set<HandleGuard<K, V>>>
  {
    guardsOn[k := OnKey(guardsOn, k) + {g}]
  }

  ghost function DropGuard<K, V>(guardsOn: map<K, set<HandleGuard<K, V>>>, k: K, g: HandleGuard<K, V>)
    : map<K, set<HandleGuard<K, V>>>
  {
    guardsOn[k := OnKey(guardsOn, k) - {g}]
  }

  lemma HeldPin<K, V>(pins: map<K, nat>, guards: map<HandleGuard<K, V>, K>,
                      guardsOn: map<K, set<HandleGuard<K, V>>>, g: HandleGuard<K, V>, k: K)
    requires Held(pins, guards, guardsOn) && g !in guards && k in pins
    ensures Held(pins[k := pins[k] + 1], guards[g := k], AddGuard(guardsOn, k, g))
  {
    assert g !in OnKey(guardsOn, k);
  }

  /** Taking a guard keeps the books. */
  lemma PinHolds<K, V>(m: Lru<K, V>, guards: map<HandleGuard<K, V>, K>,
                       guardsOn: map<K, set<HandleGuard<K, V>>>, g: HandleGuard<K, V>, k: K)
    requires Books(m, guards, guardsOn) && g !in guards && k in m.pins
    ensures Books(Pin(m, k), guards[g := k], AddGuard(guardsOn, k, g))
  {
    PinFiled(m, k);
    HeldPin(m.pins, guards, guardsOn, g, k);
  }

  lemma HeldUnpin<K, V>(pins: map<K, nat>, guards: map<HandleGuard<K, V>, K>,
                        guardsOn: map<K, set<HandleGuard<K, V>>>, g: HandleGuard<K, V>, k: K)
    requires Held(pins, guards, guardsOn) && g in guards && guards[g] == k && k in pins
    ensures pins[k] > 0 && Held(pins[k := pins[k] - 1], guards - {g}, DropGuard(guardsOn, k, g))
  {
    assert g in guardsOn[k];
  }

  /** A guarded key is in the cache and not idle. */
  lemma Guarded<K, V>(m: Lru<K, V>, guards: map<HandleGuard<K, V>, K>,
                      guardsOn: map<K, set<HandleGuard<K, V>>>, g: HandleGuard<K, V>)
    requires Filed(m) && Held(m.pins, guards, guardsOn) && g in guards
    ensures guards[g] in m.pins && m.pins[guards[g]] > 0 && guards[g] !in m.idle
  {
    assert g in guardsOn[guards[g]];
  }

  /** Letting go of a guard keeps the books. */
  lemma ReleaseHolds<K, V>(m: Lru<K, V>, guards: map<HandleGuard<K, V>, K>,
                           guardsOn: map<K, set<HandleGuard<K, V>>>, g: HandleGuard<K, V>)
    requires Books(m, guards, guardsOn) && g in guards
    ensures guards[g] in m.pins && m.pins[guards[g]] > 0
    ensures Books(Unpin(m, guards[g]), guards - {g}, DropGuard(guardsOn, guards[g], g))
  {
    Guarded(m, guards, guardsOn, g);
    UnpinFiled(m, guards[g]);
    HeldUnpin(m.pins, guards, guardsOn, g, guards[g]);
  }

  /** A new key, unpinned, keeps the books. */
  lemma InsertHolds<K, V>(m: Lru<K, V>, guards: map<HandleGuard<K, V>, K>,
                          guardsOn: map<K, set<HandleGuard<K, V>>>, k: K, v: V)
    requires Books(m, guards, guardsOn) && k !in m.pins
    ensures Books(Insert(m, k, v), guards, guardsOn)
  {
    InsertFiled(m, k, v);
  }

  /** The first idle key is on no other list, no guard is on it, and dropping it makes the cache smaller by one. */
  ghost predicate CanDrop<K, V>(m: Lru<K, V>, guards: map<HandleGuard<K, V>, K>) {
    && m.idle != [] && m.idle[0] !in m.busy && m.idle[0] !in m.idle[1..]
    && (forall g :: g in guards ==> guards[g] != m.idle[0])
    && |EvictFirst(m, 1).values| == |m.values| - 1
    && EvictFirst(m, 1).values == m.values - {m.idle[0]} && EvictFirst(m, 1).pins == m.pins - {m.idle[0]}
  }

  lemma EvictFirstIs<K, V>(m: Lru<K, V>)
    requires m.idle != [] && m.idle[0] in m.values
    ensures EvictFirst(m, 1).values == m.values - {m.idle[0]} && EvictFirst(m, 1).pins == m.pins - {m.idle[0]}
    ensures |EvictFirst(m, 1).values| == |m.values| - 1
  {
    assert m.idle[..1] == [m.idle[0]];
    MinusSize(m.values, m.idle[..1]);
  }

  lemma NoGuardOnIdle<K, V>(m: Lru<K, V>, guards: map<HandleGuard<K, V>, K>, guardsOn: map<K, set<HandleGuard<K, V>>>)
    requires Filed(m) && Held(m.pins, guards, guardsOn) && m.idle != []
    ensures forall g :: g in guards ==> guards[g] != m.idle[0]
  {
    forall g | g in guards ensures guards[g] != m.idle[0] {
      Guarded(m, guards, guardsOn, g);
    }
  }

  lemma FirstIdle<K, V>(m: Lru<K, V>)
    requires Filed(m) && m.idle != []
    ensures m.idle[0] !in m.busy && m.idle[0] !in m.idle[1..]
    ensures m.idle[0] in m.values && m.idle[0] in m.pins && m.pins[m.idle[0]] == 0
  {
    assert m.idle[0] in m.idle;
  }

  /** So does a new value for a cached key. */
  lemma UpdateHolds<K, V>(m: Lru<K, V>, guards: map<HandleGuard<K, V>, K>,
                          guardsOn: map<K, set<HandleGuard<K, V>>>, k: K, v: V)
    requires Books(m, guards, guardsOn) && k in m.values
    ensures Books(m.(values := m.values[k := v]), guards, guardsOn)
  {
    assert m.values[k := v].Keys == m.values.Keys;
  }

  /** Evicting the first idle key keeps the books. */
  lemma EvictHolds<K, V>(m: Lru<K, V>, guards: map<HandleGuard<K, V>, K>, guardsOn: map<K, set<HandleGuard<K, V>>>)
    requires Books(m, guards, guardsOn) && m.idle != []
    ensures CanDrop(m, guards) && Books(EvictFirst(m, 1), guards, guardsOn)
  {
    FirstIdle(m);
    EvictFirstIs(m);
    NoGuardOnIdle(m, guards, guardsOn);
    EvictFiled(m, 1);
    HeldDrop(m.pins, guards, guardsOn, m.idle[0]);
  }

  lemma HeldDrop<K, V>(pins: map<K, nat>, guards: map<HandleGuard<K, V>, K>,
                       guardsOn: map<K, set<HandleGuard<K, V>>>, k: K)
    requires Held(pins, guards, guardsOn) && k in pins && pins[k] == 0
    ensures Held(pins - {k}, guards, guardsOn)
  {
  }

  lemma FirstValue<K, V>(m: Lru<K, V>)
    requires m.idle != [] && m.idle[0] in m.values
    ensures Values(m.values, m.idle[..1]) == [m.values[m.idle[0]]]
  {
    assert m.idle[..1] == [m.idle[0]];
    assert Values(m.values, m.idle[..1][..0]) == [];
  }

  // ---------- Evicting one by one ----------

  /** The values of `keys`, in order. */
  ghost function Values<K, V>(values: map<K, V>, keys: seq<K>): seq<V> {
    if keys == [] then []
    else
      var rest, k := keys[..|keys| - 1], keys[|keys| - 1];
      Values(values, rest) + if k in values then [values[k]] else []
  }

  /** What an eviction hands to the deleter. */
  ghost function Purged<K, V>(m: Lru<K, V>): seq<V> {
    Values(m.values, m.idle[..Excess(m)])
  }

  /** What a put hands to the deleter. */
  ghost function DeletedBy<K, V>(m: Lru<K, V>, k: K, v: V): seq<V> {
    if k in m.pins then []
    else Purged(Pin(Insert(m, k, v), k))
  }

  /** A put of a new key hands exactly the values of the evicted keys to the deleter, in the order of eviction. */
  lemma EvictedValuesAreDeleted<K, V>(m: Lru<K, V>, k: K, v: V)
    requires Filed(m) && k !in m.pins
    ensures DeletedBy(m, k, v) == Values(m.values, Evicted(m, k, v))
  {
    Inserted(m, k, v);
    assert forall x :: x in Evicted(m, k, v) ==> x in m.idle;
    OtherValues(m.values, k, v, Evicted(m, k, v));
  }

  lemma {:induction false} OtherValues<K, V>(values: map<K, V>, k: K, v: V, keys: seq<K>)
    requires k !in keys
    ensures Values(values[k := v], keys) == Values(values, keys)
  {
    if keys != [] { OtherValues(values, k, v, keys[..|keys| - 1]); }
  }

  /** The first `j` idle keys of `m` are gone, and their values were handed to the deleter. */
  ghost predicate EvictedSoFar<K, V>(m: Lru<K, V>, was: seq<V>, j: nat, model: Lru<K, V>, deleted: seq<V>) {
    Distinct(m.idle) && j <= |m.idle| && model == EvictFirst(m, j) && deleted == was + Values(m.values, m.idle[..j])
  }

  lemma EvictNone<K, V>(m: Lru<K, V>, was: seq<V>)
    ensures Distinct(m.idle) ==> EvictedSoFar(m, was, 0, m, was)
    ensures EvictFirst(m, 0) == m && was == was + Values(m.values, m.idle[..0])
  {
    assert m.idle[0..] == m.idle && Minus(m.values, []) == m.values && Minus(m.pins, []) == m.pins;
  }

  lemma EvictMore<K, V>(m: Lru<K, V>, was: seq<V>, j: nat, model: Lru<K, V>, deleted: seq<V>)
    requires j < |m.idle| && EvictedSoFar(m, was, j, model, deleted)
    ensures model.idle != []
    ensures EvictedSoFar(m, was, j + 1, EvictFirst(model, 1), deleted + Values(model.values, model.idle[..1]))
  {
    assert m.idle[..j + 1] == m.idle[..j] + [m.idle[j]];
    assert m.idle[j..][..1] == [m.idle[j]] && m.idle[j..][1..] == m.idle[j + 1..];
    assert Values(model.values, model.idle[..1]) == Values(model.values, []) +
                                                    if m.idle[j] in model.values then [model.values[m.idle[j]]] else [];
  }

  /** When the loop stops, it has evicted as many as the excess. */
  lemma EvictDone<K, V>(m: Lru<K, V>, j: nat)
    requires j <= |m.idle| && (j > 0 ==> m.cap > 0 && |m.values| - j >= m.cap)
    requires m.cap > 0 ==> |m.values| - j <= m.cap || j == |m.idle|
    ensures j == Excess(m) && EvictFirst(m, j) == Evict(m)
  {
  }

  lemma HeldMove<K, V>(m: Lru<K, V>, guards: map<HandleGuard<K, V>, K>,
                       guardsOn: map<K, set<HandleGuard<K, V>>>, from: HandleGuard<K, V>, to: HandleGuard<K, V>)
    requires Books(m, guards, guardsOn) && from in guards && to !in guards
    ensures var k := guards[from];
            Books(m, guards[to := k] - {from}, DropGuard(AddGuard(guardsOn, k, to), k, from))
  {
    var k := guards[from];
    assert from in guardsOn[k] && to !in guardsOn[k];
    assert |guardsOn[k] + {to} - {from}| == |guardsOn[k]|;
  }

  lemma NothingLeft<K, V>(m: Lru<K, V>, guards: map<HandleGuard<K, V>, K>, guardsOn: map<K, set<HandleGuard<K, V>>>)
    requires Filed(m) && Held(m.pins, guards, guardsOn) && guards == map[] && m.idle == []
    ensures m.pins == map[] && m.values == map[]
  {
    forall k | k in guardsOn ensures guardsOn[k] == {} {
      assert forall g :: g in guardsOn[k] ==> g in guards;
    }
    assert forall k :: k in m.pins.Keys ==> k in m.busy && k in guardsOn;
  }
}
