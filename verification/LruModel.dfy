/** The cache as a value: what is cached, what is pinned, and in which order unpinned keys were released. */
module LruModel {
  import opened Common

  /**
   `idle` lists the unpinned keys, the next one to evict first, and `busy` the pinned ones; `pins` counts the valid
   guards of each cached key.  `released` and `clock` are history: when each key was last released.
   */
  datatype Lru<K, V> = Lru(cap: nat, values: map<K, V>, idle: seq<K>, busy: seq<K>, pins: map<K, nat>,
                           released: map<K, nat>, clock: nat)

  function Empty<K, V>(cap: nat): Lru<K, V> {
    Lru(cap, map[], [], [], map[], map[], 0)
  }

  function Without<A(==)>(xs: seq<A>, x: A): seq<A> {
    if xs == [] then [] else if xs[0] == x then xs[1..] else [xs[0]] + Without(xs[1..], x)
  }

  /** One more guard on a cached key; the first one moves the key to the busy list. */
  function Pin<K, V>(s: Lru<K, V>, k: K): Lru<K, V>
    requires k in s.pins
  {
    var s1 := s.(pins := s.pins[k := s.pins[k] + 1]);
    if s.pins[k] == 0 then s1.(idle := Without(s.idle, k), busy := s.busy + [k]) else s1
  }

  /** One guard less; the last one puts the key at the end of the idle list. */
  function Unpin<K, V>(s: Lru<K, V>, k: K): Lru<K, V>
    requires k in s.pins && s.pins[k] > 0
  {
    var s1 := s.(pins := s.pins[k := s.pins[k] - 1]);
    if s.pins[k] > 1 then s1
    else s1.(busy := Without(s.busy, k), idle := s.idle + [k], released := s.released[k := s.clock], clock := s.clock + 1)
  }

  function Minus<K, V>(m: map<K, V>, gone: seq<K>): map<K, V> {
    map k | k in m && k !in gone :: m[k]
  }

  /** How many keys an eviction removes. */
  function Excess<K, V>(s: Lru<K, V>): (n: nat)
    ensures n <= |s.idle|
  {
    var over := |s.values| - s.cap;
    if s.cap == 0 || over <= 0 then 0 else if over < |s.idle| then over else |s.idle|
  }

  function EvictFirst<K, V>(s: Lru<K, V>, n: nat): Lru<K, V>
    requires n <= |s.idle|
  {
    s.(idle := s.idle[n..], values := Minus(s.values, s.idle[..n]), pins := Minus(s.pins, s.idle[..n]))
  }

  function Evict<K, V>(s: Lru<K, V>): Lru<K, V> {
    EvictFirst(s, Excess(s))
  }

  /** A new key enters at the end of the idle list, as if just released. */
  function Insert<K, V>(s: Lru<K, V>, k: K, v: V): Lru<K, V> {
    s.(values := s.values[k := v], idle := s.idle + [k], pins := s.pins[k := 0],
       released := s.released[k := s.clock], clock := s.clock + 1)
  }

  function Get<K, V>(s: Lru<K, V>, k: K): Lru<K, V> {
    if k in s.pins then Pin(s, k) else s
  }

  /** A new key is pinned before anything is evicted. */
  function Put<K, V>(s: Lru<K, V>, k: K, v: V): Lru<K, V> {
    if k in s.pins then Pin(s.(values := s.values[k := v]), k) else Evict(Pin(Insert(s, k, v), k))
  }

  function Release<K, V>(s: Lru<K, V>, k: K): Lru<K, V> {
    if k in s.pins && s.pins[k] > 0 then Unpin(s, k) else s
  }

  datatype Op<K, V> = OpGet(k: K) | OpPut(k: K, v: V) | OpRelease(k: K)

  function Apply<K, V>(s: Lru<K, V>, op: Op<K, V>): Lru<K, V> {
    match op
    case OpGet(k) => Get(s, k)
    case OpPut(k, v) => Put(s, k, v)
    case OpRelease(k) => Release(s, k)
  }

  function Run<K, V>(s: Lru<K, V>, ops: seq<Op<K, V>>): Lru<K, V> {
    if ops == [] then s else Apply(Run(s, ops[..|ops| - 1]), ops[|ops| - 1])
  }

  // ---------- The invariant ----------

  predicate Distinct<A(==)>(xs: seq<A>) {
    forall i, j :: 0 <= i < j < |xs| ==> xs[i] != xs[j]
  }

  /** Cached keys are on exactly one list, once: the idle list exactly when nothing pins them. */
  ghost predicate Filed<K, V>(s: Lru<K, V>) {
    && s.pins.Keys == s.values.Keys
    && (forall k :: k in s.pins ==> if s.pins[k] == 0 then k in s.idle else k in s.busy)
    && (forall k :: k in s.idle ==> k in s.pins && s.pins[k] == 0)
    && (forall k :: k in s.busy ==> k in s.pins && s.pins[k] > 0)
    && Distinct(s.idle) && Distinct(s.busy)
  }

  ghost predicate ByRelease<K>(idle: seq<K>, released: map<K, nat>) {
    forall i, j :: 0 <= i < j < |idle| && idle[i] in released && idle[j] in released ==>
      released[idle[i]] < released[idle[j]]
  }

  /** Idle keys are in the order of their last release. */
  ghost predicate Inv<K, V>(s: Lru<K, V>) {
    && Filed(s)
    && (forall k :: k in s.idle ==> k in s.released && s.released[k] < s.clock)
    && ByRelease(s.idle, s.released)
  }

  /** Removing an element of a list without duplicates: the rest keeps its order. */
  lemma {:induction false} WithoutIs<A>(xs: seq<A>, x: A) returns (i: nat)
    requires Distinct(xs) && x in xs
    ensures i < |xs| && xs[i] == x && Without(xs, x) == xs[..i] + xs[i + 1..]
    ensures forall y :: y in Without(xs, x) <==> y in xs && y != x
  {
    if xs[0] == x {
      i := 0;
    } else {
      assert xs == [xs[0]] + xs[1..];
      i := WithoutIs(xs[1..], x);
      i := i + 1;
    }
    assert Without(xs, x) == xs[..i] + xs[i + 1..];
    assert xs == xs[..i] + [x] + xs[i + 1..];
  }

  /** Moving a key from one list to the end of the other. */
  lemma MoveKey<K>(from: seq<K>, to: seq<K>, k: K)
    requires Distinct(from) && Distinct(to) && k in from && k !in to
    ensures Distinct(Without(from, k)) && Distinct(to + [k])
    ensures forall y :: y in from && y != k ==> y in Without(from, k)
    ensures forall y :: y in Without(from, k) ==> y in from && y != k
    ensures forall y :: y in to + [k] <==> y in to || y == k
  {
    var i := WithoutIs(from, k);
  }

  lemma AppendDistinct<A>(xs: seq<A>, x: A)
    requires Distinct(xs) && x !in xs
    ensures Distinct(xs + [x])
    ensures forall y :: y in xs + [x] <==> y in xs || y == x
  {
  }

  lemma PinFiled<K, V>(s: Lru<K, V>, k: K)
    requires Filed(s) && k in s.pins
    ensures Filed(Pin(s, k))
  {
    if s.pins[k] == 0 {
      MoveKey(s.idle, s.busy, k);
    }
  }

  lemma PinInv<K, V>(s: Lru<K, V>, k: K)
    requires Inv(s) && k in s.pins
    ensures Inv(Pin(s, k))
  {
    PinFiled(s, k);
    if s.pins[k] == 0 { PinOrder(s.idle, s.released, k); }
  }

  lemma PinOrder<K>(idle: seq<K>, released: map<K, nat>, k: K)
    requires Distinct(idle) && k in idle && ByRelease(idle, released)
    ensures ByRelease(Without(idle, k), released)
    ensures forall x :: x in Without(idle, k) ==> x in idle
  {
    var i := WithoutIs(idle, k);
    var rest := Without(idle, k);
    forall a, b | 0 <= a < b < |rest| && rest[a] in released && rest[b] in released
      ensures released[rest[a]] < released[rest[b]]
    {
      var a', b' := if a < i then a else a + 1, if b < i then b else b + 1;
      assert rest[a] == idle[a'] && rest[b] == idle[b'];
    }
  }

  lemma UnpinFiled<K, V>(s: Lru<K, V>, k: K)
    requires Filed(s) && k in s.pins && s.pins[k] > 0
    ensures Filed(Unpin(s, k))
  {
    if s.pins[k] == 1 {
      MoveKey(s.busy, s.idle, k);
    }
  }

  lemma UnpinInv<K, V>(s: Lru<K, V>, k: K)
    requires Inv(s) && k in s.pins && s.pins[k] > 0
    ensures Inv(Unpin(s, k))
  {
    UnpinFiled(s, k);
    if s.pins[k] == 1 { AppendDistinct(s.idle, k); }
  }

  lemma SplitMembers<A>(xs: seq<A>, n: nat)
    requires Distinct(xs) && n <= |xs|
    ensures forall x :: x in xs <==> x in xs[..n] || x in xs[n..]
    ensures forall x :: x in xs[..n] ==> x !in xs[n..]
    ensures Distinct(xs[..n]) && Distinct(xs[n..])
  {
    assert xs == xs[..n] + xs[n..];
  }

  lemma ByReleaseTail<K>(idle: seq<K>, released: map<K, nat>, n: nat)
    requires ByRelease(idle, released) && n <= |idle|
    ensures ByRelease(idle[n..], released)
  {
  }

  lemma EvictFiled<K, V>(s: Lru<K, V>, n: nat)
    requires Filed(s) && n <= |s.idle|
    ensures Filed(EvictFirst(s, n))
  {
    SplitMembers(s.idle, n);
  }

  lemma EvictInv<K, V>(s: Lru<K, V>, n: nat)
    requires Inv(s) && n <= |s.idle|
    ensures Inv(EvictFirst(s, n))
  {
    EvictFiled(s, n);
    SplitMembers(s.idle, n);
    ByReleaseTail(s.idle, s.released, n);
  }

  lemma InsertFiled<K, V>(s: Lru<K, V>, k: K, v: V)
    requires Filed(s) && k !in s.pins
    ensures Filed(Insert(s, k, v))
  {
    AppendDistinct(s.idle, k);
  }

  lemma InsertInv<K, V>(s: Lru<K, V>, k: K, v: V)
    requires Inv(s) && k !in s.pins
    ensures Inv(Insert(s, k, v))
  {
    InsertFiled(s, k, v);
    AppendDistinct(s.idle, k);
  }

  lemma {:induction false} WithoutLast<A>(xs: seq<A>, x: A)
    requires x !in xs
    ensures Without(xs + [x], x) == xs
  {
    if xs != [] {
      WithoutLast(xs[1..], x);
      assert (xs + [x])[1..] == xs[1..] + [x];
    }
  }

  /** Inserting and pinning a new key leaves the idle list as it was. */
  lemma Inserted<K, V>(s: Lru<K, V>, k: K, v: V)
    requires Filed(s) && k !in s.pins
    ensures Pin(Insert(s, k, v), k) ==
            s.(values := s.values[k := v], pins := s.pins[k := 1], busy := s.busy + [k],
               released := s.released[k := s.clock], clock := s.clock + 1)
  {
    WithoutLast(s.idle, k);
    assert s.pins[k := 0][k := 1] == s.pins[k := 1];
  }

  lemma ApplyInv<K, V>(s: Lru<K, V>, op: Op<K, V>)
    requires Inv(s)
    ensures Inv(Apply(s, op))
  {
    match op
    case OpGet(k) => if k in s.pins { PinInv(s, k); }
    case OpPut(k, v) =>
      if k in s.pins {
        assert s.values[k := v].Keys == s.values.Keys;
        PinInv(s.(values := s.values[k := v]), k);
      } else {
        InsertInv(s, k, v);
        PinInv(Insert(s, k, v), k);
        var s1 := Pin(Insert(s, k, v), k);
        EvictInv(s1, Excess(s1));
      }
    case OpRelease(k) => if k in s.pins && s.pins[k] > 0 { UnpinInv(s, k); }
  }

  lemma {:induction false} RunInv<K, V>(s: Lru<K, V>, ops: seq<Op<K, V>>)
    requires Inv(s)
    ensures Inv(Run(s, ops))
  {
    if ops != [] {
      RunInv(s, ops[..|ops| - 1]);
      ApplyInv(Run(s, ops[..|ops| - 1]), ops[|ops| - 1]);
    }
  }

  // ---------- Main results ----------

  /** The keys a put of the new key `k` evicts. */
  function Evicted<K, V>(s: Lru<K, V>, k: K, v: V): seq<K> {
    var s1 := Pin(Insert(s, k, v), k);
    s1.idle[..Excess(s1)]
  }

  lemma EvictedAreOldest<K, V>(s: Lru<K, V>, n: nat, x: K, y: K)
    requires Inv(s) && n <= |s.idle| && x in s.idle[..n] && y in s.idle[n..]
    ensures x in s.released && y in s.released && s.released[x] < s.released[y]
  {
    var i :| 0 <= i < n && s.idle[i] == x;
    var j :| 0 <= j < |s.idle| - n && s.idle[n..][j] == y;
    assert s.idle[i] in s.idle && s.idle[n + j] in s.idle;
  }

  /**
   After any operations, a put of a new key evicts exactly the first min(|idle|, size - capacity) idle keys: they leave
   the cache and nothing else does, none of them is pinned, and each was released before every idle key that stays.
   Afterwards the cache fits its capacity or nothing is idle.  Capacity 0 means no limit: nothing is evicted.
   */
  lemma EvictsLeastRecentlyReleased<K, V>(cap: nat, ops: seq<Op<K, V>>, k: K, v: V)
    requires k !in Run(Empty(cap), ops).pins
    ensures var s := Run(Empty<K, V>(cap), ops);
            var over, gone, s' := |s.values| + 1 - cap, Evicted(s, k, v), Put(s, k, v);
            && |gone| == (if cap == 0 || over <= 0 then 0 else if over < |s.idle| then over else |s.idle|)
            && s.idle == gone + s'.idle
            && (forall x :: x in s'.values <==> (x in s.values || x == k) && x !in gone)
            && (forall x :: x in gone ==> x in s.pins && s.pins[x] == 0)
            && (forall x, y :: x in gone && y in s'.idle ==>
                                 x in s.released && y in s.released && s.released[x] < s.released[y])
            && (cap == 0 || |s'.values| <= cap || s'.idle == [])
  {
    RunInv(Empty<K, V>(cap), ops);
    RunCap(Empty<K, V>(cap), ops);
    EvictedCount(Run(Empty<K, V>(cap), ops), k, v);
    EvictedKeys(Run(Empty<K, V>(cap), ops), k, v);
    EvictedOrder(Run(Empty<K, V>(cap), ops), k, v);
  }

  lemma EvictedKeys<K, V>(s: Lru<K, V>, k: K, v: V)
    requires Filed(s) && k !in s.pins
    ensures var gone, s' := Evicted(s, k, v), Put(s, k, v);
            && s.idle == gone + s'.idle
            && (forall x :: x in s'.values <==> (x in s.values || x == k) && x !in gone)
            && (forall x :: x in gone ==> x in s.pins && s.pins[x] == 0)
  {
    Inserted(s, k, v);
    var gone := Evicted(s, k, v);
    assert forall x :: x in gone ==> x in s.idle;
  }

  lemma EvictedCount<K, V>(s: Lru<K, V>, k: K, v: V)
    requires Filed(s) && k !in s.pins
    ensures var over, gone, s' := |s.values| + 1 - s.cap, Evicted(s, k, v), Put(s, k, v);
            && |gone| == (if s.cap == 0 || over <= 0 then 0 else if over < |s.idle| then over else |s.idle|)
            && (s.cap == 0 || |s'.values| <= s.cap || s'.idle == [])
  {
    Inserted(s, k, v);
    SizeWith(s.values, k, v);
    SplitMembers(s.idle, |Evicted(s, k, v)|);
    MinusSize(s.values[k := v], Evicted(s, k, v));
  }

  lemma EvictedOrder<K, V>(s: Lru<K, V>, k: K, v: V)
    requires Inv(s) && k !in s.pins
    ensures forall x, y :: x in Evicted(s, k, v) && y in Put(s, k, v).idle ==>
              x in s.released && y in s.released && s.released[x] < s.released[y]
  {
    var n := |Evicted(s, k, v)|;
    Inserted(s, k, v);
    assert Put(s, k, v).idle == s.idle[n..];
    forall x, y | x in s.idle[..n] && y in s.idle[n..]
      ensures x in s.released && y in s.released && s.released[x] < s.released[y]
    {
      EvictedAreOldest(s, n, x, y);
    }
  }

  /** Removing distinct keys of a map shrinks it by their number. */
  lemma {:induction false} MinusSize<K, V>(m: map<K, V>, gone: seq<K>)
    requires Distinct(gone) && forall k :: k in gone ==> k in m
    ensures |Minus(m, gone)| == |m| - |gone|
  {
    if gone == [] {
      assert Minus(m, gone) == m;
    } else {
      var rest := gone[1..];
      assert gone == [gone[0]] + rest;
      MinusSize(m, rest);
      assert gone[0] !in rest && gone[0] in Minus(m, rest);
      assert Minus(m, gone) == Minus(m, rest) - {gone[0]};
    }
  }

  lemma {:induction false} RunCap<K, V>(s: Lru<K, V>, ops: seq<Op<K, V>>)
    ensures Run(s, ops).cap == s.cap
  {
    if ops != [] { RunCap(s, ops[..|ops| - 1]); }
  }

  /** The operation puts a new key and its eviction removes `k`. */
  ghost predicate EvictedBy<K, V>(s: Lru<K, V>, op: Op<K, V>, k: K) {
    op.OpPut? && op.k !in s.pins && k in Evicted(s, op.k, op.v)
  }

  /** The value of the latest put of `k`, unless `k` was evicted since. */
  ghost function Latest<K, V>(cap: nat, ops: seq<Op<K, V>>, k: K): Option<V> {
    if ops == [] then None
    else
      var before, op := ops[..|ops| - 1], ops[|ops| - 1];
      if op.OpPut? && op.k == k then Some(op.v)
      else if EvictedBy(Run(Empty<K, V>(cap), before), op, k) then None
      else Latest(cap, before, k)
  }

  /** A lookup finds a key exactly if it was put and not evicted since, and then with its latest value. */
  lemma {:induction false} GetFindsTheLatestPut<K, V>(cap: nat, ops: seq<Op<K, V>>, k: K)
    ensures var s := Run(Empty<K, V>(cap), ops);
            Latest(cap, ops, k) == if k in s.values then Some(s.values[k]) else None
  {
    if ops != [] {
      var before := ops[..|ops| - 1];
      GetFindsTheLatestPut(cap, before, k);
      RunInv(Empty<K, V>(cap), before);
      ApplyValues(Run(Empty<K, V>(cap), before), ops[|ops| - 1], k);
    }
  }

  /** An operation puts its own value in for its key, removes what it evicts, and leaves every other key as it was. */
  lemma ApplyValues<K, V>(s: Lru<K, V>, op: Op<K, V>, k: K)
    requires Filed(s)
    ensures var s' := Apply(s, op);
            if op.OpPut? && op.k == k then k in s'.values && s'.values[k] == op.v
            else if EvictedBy(s, op, k) then k !in s'.values
            else (k in s'.values <==> k in s.values) && (k in s.values ==> s'.values[k] == s.values[k])
  {
    if op.OpPut? && op.k !in s.pins {
      Inserted(s, op.k, op.v);
      EvictedKeys(s, op.k, op.v);
    }
  }
}
