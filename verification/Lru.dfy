/**
 What the in-memory cache is meant to be: a list of items, least recently used first, with no second
 copy of anything. Time is an integer clock; sizes are those the size estimate gives.
 */
module Lru {
  import opened Prelude

  datatype Item<V> = Item(key: string, value: V, size: nat, createdAt: int, ttl: int) {
    predicate Expired(now: int) { ttl > 0 && now - createdAt > ttl }
  }

  type List<V> = seq<Item<V>>

  ghost predicate Distinct<V>(l: List<V>) {
    forall i, j :: 0 <= i < j < |l| ==> l[i].key != l[j].key
  }

  /** The position of a key's item, or the length of the list. */
  function IndexOf<V>(l: List<V>, key: string): (i: nat)
    ensures i <= |l|
    ensures i < |l| ==> l[i].key == key
    ensures forall j :: 0 <= j < i ==> l[j].key != key
  {
    if l == [] || l[0].key == key then 0 else 1 + IndexOf(l[1..], key)
  }

  predicate Has<V>(l: List<V>, key: string) { IndexOf(l, key) < |l| }

  function Memory<V>(l: List<V>): nat {
    if l == [] then 0 else Memory(l[..|l| - 1]) + l[|l| - 1].size
  }

  function Without<V>(l: List<V>, key: string): List<V> {
    var i := IndexOf(l, key);
    if i < |l| then l[..i] + l[i + 1..] else l
  }

  /** Moves a key's item to the most recently used end. */
  function Touch<V>(l: List<V>, key: string): List<V> {
    if Has(l, key) then Without(l, key) + [l[IndexOf(l, key)]] else l
  }

  predicate Overfull<V>(l: List<V>, size: nat, maxSize: nat) {
    |l| >= maxSize || Memory(l) + size > maxSize * 1024
  }

  /** Drops least recently used items until the guard lets an item of `size` in, or nothing is left. */
  function Evict<V>(l: List<V>, size: nat, maxSize: nat): List<V> {
    if l != [] && Overfull(l, size, maxSize) then Evict(l[1..], size, maxSize) else l
  }

  function Store<V>(l: List<V>, item: Item<V>, maxSize: nat): List<V> {
    Without(Evict(l, item.size, maxSize), item.key) + [item]
  }

  function DropExpired<V>(l: List<V>, now: int): List<V> {
    if l == [] then []
    else
      var front := DropExpired(l[..|l| - 1], now);
      if l[|l| - 1].Expired(now) then front else front + [l[|l| - 1]]
  }

  function DropKeys<V>(l: List<V>, keys: seq<string>): List<V> {
    if l == [] then []
    else
      var front := DropKeys(l[..|l| - 1], keys);
      if l[|l| - 1].key in keys then front else front + [l[|l| - 1]]
  }

  // ---------- Laws of the list ----------

  lemma {:induction false} IndexOfAppend<V>(l: List<V>, item: Item<V>, key: string)
    ensures IndexOf(l + [item], key) ==
      if Has(l, key) then IndexOf(l, key) else if item.key == key then |l| else |l| + 1
  {
    if l != [] {
      IndexOfAppend(l[1..], item, key);
      assert (l + [item])[1..] == l[1..] + [item];
    }
  }

  lemma WithoutAppend<V>(l: List<V>, item: Item<V>, key: string)
    ensures Without(l + [item], key) ==
      if Has(l, key) then Without(l, key) + [item] else if item.key == key then l else l + [item]
  {
    IndexOfAppend(l, item, key);
    var longer, i := l + [item], IndexOf(l, key);
    if Has(l, key) {
      assert longer[..i] == l[..i] && longer[i + 1..] == l[i + 1..] + [item];
      assert Without(longer, key) == l[..i] + (l[i + 1..] + [item]);
      assert l[..i] + (l[i + 1..] + [item]) == l[..i] + l[i + 1..] + [item];
    } else if item.key == key {
      assert longer[..|l|] == l && longer[|l| + 1..] == [];
    }
  }

  lemma {:induction false} DropKeysIn<V>(l: List<V>, keys: seq<string>)
    ensures forall i :: 0 <= i < |DropKeys(l, keys)| ==> DropKeys(l, keys)[i] in l
  {
    if l != [] {
      DropKeysIn(l[..|l| - 1], keys);
      assert l == l[..|l| - 1] + [l[|l| - 1]];
    }
  }

  /** Removing one more key from a list some keys were dropped from. */
  lemma {:induction false} DropOneMore<V>(l: List<V>, keys: seq<string>, key: string)
    requires Distinct(l)
    ensures Without(DropKeys(l, keys), key) == DropKeys(l, keys + [key])
  {
    if l != [] {
      var n := |l| - 1;
      DropOneMore(l[..n], keys, key);
      DropKeysIn(l[..n], keys);
      var front := DropKeys(l[..n], keys);
      if l[n].key !in keys { WithoutAppend(front, l[n], key); }
      forall i | 0 <= i < |front| ensures front[i].key != l[n].key { assert front[i] in l[..n]; }
    }
  }

  lemma DropNext<V>(l: List<V>, keys: seq<string>, i: nat)
    requires Distinct(l) && i < |keys|
    ensures Without(DropKeys(l, keys[..i]), keys[i]) == DropKeys(l, keys[..i + 1])
  {
    DropOneMore(l, keys[..i], keys[i]);
    assert keys[..i] + [keys[i]] == keys[..i + 1];
  }

  lemma {:induction false} DropNothing<V>(l: List<V>)
    ensures DropKeys(l, []) == l
  {
    if l != [] { DropNothing(l[..|l| - 1]); }
  }

  lemma {:induction false} DropExpiredKeys<V>(l: List<V>, keys: seq<string>, now: int)
    requires forall i :: 0 <= i < |l| ==> (l[i].key in keys <==> l[i].Expired(now))
    ensures DropKeys(l, keys) == DropExpired(l, now)
  {
    if l != [] { DropExpiredKeys(l[..|l| - 1], keys, now); }
  }

  lemma {:induction false} MemoryConcat<V>(a: List<V>, b: List<V>)
    ensures Memory(a + b) == Memory(a) + Memory(b)
  {
    if b == [] {
      assert a + b == a;
    } else {
      MemoryConcat(a, b[..|b| - 1]);
      assert (a + b)[..|a + b| - 1] == a + b[..|b| - 1];
    }
  }

  lemma MemoryMiddle<V>(l: List<V>, a: List<V>, item: Item<V>, b: List<V>)
    requires l == a + [item] + b
    ensures Memory(l) == Memory(a + b) + item.size
  {
    MemoryConcat(a + [item], b);
    MemoryConcat(a, b);
    assert (a + [item])[..|a|] == a;
  }

  lemma MemorySplit<V>(l: List<V>, i: nat)
    requires i < |l|
    ensures Memory(l) == Memory(l[..i] + l[i + 1..]) + l[i].size
  {
    AroundIndex(l, i);
    MemoryMiddle(l, l[..i], l[i], l[i + 1..]);
  }

  /** There is room for one more item of some size: fewer items than the maximum, and the budget not exceeded. */
  predicate HasRoom<V>(l: List<V>, size: nat, maxSize: nat) {
    |l| < maxSize && Memory(l) + size <= maxSize * 1024
  }

  /** What is evicted is the shortest prefix after which there is room, or everything if there never is. */
  lemma {:induction false} EvictsShortestPrefix<V>(l: List<V>, size: nat, maxSize: nat) returns (k: nat)
    ensures k <= |l| && Evict(l, size, maxSize) == l[k..]
    ensures forall j :: 0 <= j < k ==> !HasRoom(l[j..], size, maxSize)
    ensures k == |l| || HasRoom(l[k..], size, maxSize)
  {
    if l != [] && !HasRoom(l, size, maxSize) {
      k := EvictsShortestPrefix(l[1..], size, maxSize);
      forall j | 0 <= j < k + 1 ensures !HasRoom(l[j..], size, maxSize) {
        if j == 0 { assert l[0..] == l; } else { assert l[1..][j - 1..] == l[j..]; }
      }
      k := k + 1;
      assert l[1..][k - 1..] == l[k..];
    } else {
      k := 0;
      assert l[0..] == l;
    }
  }

  lemma RoomKeeps<V>(l: List<V>, size: nat, maxSize: nat)
    requires HasRoom(l, size, maxSize)
    ensures Evict(l, size, maxSize) == l
  {
    var k := EvictsShortestPrefix(l, size, maxSize);
    assert l[0..] == l && HasRoom(l[0..], size, maxSize);
  }

  /** While there is room nothing is evicted: a store only puts its item last, in place of any under its key. */
  lemma StoreKeepsOthers<V>(l: List<V>, item: Item<V>, maxSize: nat)
    requires |l| < maxSize && Memory(l) + item.size <= maxSize * 1024
    ensures Store(l, item, maxSize) == Without(l, item.key) + [item]
  {
    RoomKeeps(l, item.size, maxSize);
  }

  lemma WithoutForgets<V>(l: List<V>, key: string)
    requires Distinct(l)
    ensures Distinct(Without(l, key)) && !Has(Without(l, key), key)
  {
    if Has(l, key) {
      var i := IndexOf(l, key);
      var r := Without(l, key);
      forall j | 0 <= j < |r| ensures r[j] == l[if j < i then j else j + 1] && r[j].key != key {
        assert l[if j < i then j else j + 1].key != l[i].key;
      }
    }
  }

  lemma WithoutFirst<V>(l: List<V>)
    requires l != []
    ensures Without(l, l[0].key) == l[1..]
  {
    assert l[..0] + l[1..] == l[1..];
  }

  lemma WithoutShrinks<V>(l: List<V>, key: string)
    ensures var r := Without(l, key); Memory(r) <= Memory(l) && |r| == if Has(l, key) then |l| - 1 else |l|
  {
    if Has(l, key) { MemorySplit(l, IndexOf(l, key)); }
  }

  lemma {:induction false} EvictLeavesRoom<V>(l: List<V>, size: nat, maxSize: nat)
    requires Distinct(l) && maxSize > 0
    ensures var kept := Evict(l, size, maxSize);
      Distinct(kept) && |kept| < maxSize && (kept != [] ==> Memory(kept) + size <= maxSize * 1024)
  {
    if l != [] && Overfull(l, size, maxSize) { EvictLeavesRoom(l[1..], size, maxSize); }
  }

  /**
   After storing an item the cache holds at most `maxSize` items and at most maxSize*1024 units of
   memory, except that an item larger than the whole budget is stored anyway, and is then alone.
   */
  lemma StoreBounds<V>(l: List<V>, item: Item<V>, maxSize: nat)
    requires Distinct(l) && maxSize > 0
    ensures var r := Store(l, item, maxSize);
      |r| <= maxSize &&
      (Memory(r) > maxSize * 1024 <==> item.size > maxSize * 1024) &&
      (item.size > maxSize * 1024 ==> r == [item])
  {
    var kept := Evict(l, item.size, maxSize);
    EvictLeavesRoom(l, item.size, maxSize);
    WithoutShrinks(kept, item.key);
    MemoryConcat(Without(kept, item.key), [item]);
    assert Memory([item]) == item.size;
  }

  /** An item is in force for ever without a time to live, and otherwise until that is over. */
  predicate InForce<V>(item: Item<V>, now: int) { item.ttl <= 0 || now <= item.createdAt + item.ttl }

  /** Exactly the items in force stay. */
  lemma {:induction false} DropExpiredKeeps<V>(l: List<V>, now: int)
    requires Distinct(l)
    ensures Distinct(DropExpired(l, now))
    ensures forall i :: 0 <= i < |DropExpired(l, now)| ==>
      DropExpired(l, now)[i] in l && InForce(DropExpired(l, now)[i], now)
    ensures forall i :: 0 <= i < |l| && InForce(l[i], now) ==> l[i] in DropExpired(l, now)
  {
    if l != [] {
      assert l == l[..|l| - 1] + [l[|l| - 1]];
      DropExpiredKeeps(l[..|l| - 1], now);
    }
  }

  // ---------- Runs ----------

  /** Every critical section of the cache, as seen on the list. `Look` does not change it. */
  datatype Op<V> =
    | Look(key: string)
    | TouchKey(key: string)
    | Put(item: Item<V>)
    | Remove(key: string)
    | ClearAll
    | Cleanup(now: int)

  function Step<V>(l: List<V>, op: Op<V>, maxSize: nat): List<V> {
    match op
    case Look(_) => l
    case TouchKey(key) => Touch(l, key)
    case Put(item) => Store(l, item, maxSize)
    case Remove(key) => Without(l, key)
    case ClearAll => []
    case Cleanup(now) => DropExpired(l, now)
  }

  function RunOps<V>(ops: seq<Op<V>>, maxSize: nat): List<V> {
    if ops == [] then [] else Step(RunOps(ops[..|ops| - 1], maxSize), ops[|ops| - 1], maxSize)
  }

  /** A run goes on with its next operation; one that ends with a store has that item, most recently used. */
  lemma JustStored<V>(ops: seq<Op<V>>, item: Item<V>, maxSize: nat)
    ensures var l := RunOps(ops + [Put(item)], maxSize);
      l == Store(RunOps(ops, maxSize), item, maxSize) && l != [] && l[|l| - 1] == item
  {
    assert (ops + [Put(item)])[..|ops|] == ops;
  }

  predicate Uses<V>(op: Op<V>, key: string) {
    (op.TouchKey? && op.key == key) || (op.Put? && op.item.key == key)
  }

  /** When a key was last used: the position after its last touch or store, 0 if never. */
  function LastUse<V>(ops: seq<Op<V>>, key: string): nat {
    if ops == [] then 0
    else if Uses(ops[|ops| - 1], key) then |ops|
    else LastUse(ops[..|ops| - 1], key)
  }

  lemma {:induction false} LastUseBound<V>(ops: seq<Op<V>>, key: string)
    ensures LastUse(ops, key) <= |ops|
  {
    if ops != [] { LastUseBound(ops[..|ops| - 1], key); }
  }

  ghost predicate ByLastUse<V>(l: List<V>, ops: seq<Op<V>>) {
    forall i, j :: 0 <= i < j < |l| ==> LastUse(ops, l[i].key) < LastUse(ops, l[j].key)
  }

  lemma RemoveKeepsOrder<V>(l: List<V>, ops: seq<Op<V>>, key: string)
    requires Distinct(l) && ByLastUse(l, ops)
    ensures Distinct(Without(l, key)) && ByLastUse(Without(l, key), ops) && !Has(Without(l, key), key)
  {
    WithoutForgets(l, key);
    if Has(l, key) {
      var i := IndexOf(l, key);
      var r := Without(l, key);
      forall j | 0 <= j < |r| ensures r[j] == l[if j < i then j else j + 1] {}
    }
  }

  lemma RemoveThenAppend<V>(l: List<V>, ops: seq<Op<V>>, op: Op<V>, item: Item<V>)
    requires Distinct(l) && ByLastUse(l, ops)
    requires (op.TouchKey? && op.key == item.key) || (op.Put? && op.item.key == item.key)
    ensures Distinct(Without(l, item.key) + [item]) && ByLastUse(Without(l, item.key) + [item], ops + [op])
  {
    assert (ops + [op])[..|ops|] == ops;
    RemoveKeepsOrder(l, ops, item.key);
    var r := Without(l, item.key);
    forall i | 0 <= i < |r| ensures r[i].key != item.key && LastUse(ops + [op], r[i].key) <= |ops| {
      LastUseBound(ops, r[i].key);
    }
  }

  lemma {:induction false} DropKeepsOrder<V>(l: List<V>, ops: seq<Op<V>>, now: int)
    requires Distinct(l) && ByLastUse(l, ops)
    ensures ByLastUse(DropExpired(l, now), ops)
  {
    if l != [] {
      var n := |l| - 1;
      DropKeepsOrder(l[..n], ops, now);
      DropExpiredKeeps(l[..n], now);
      var front := DropExpired(l[..n], now);
      forall i | 0 <= i < |front| ensures LastUse(ops, front[i].key) < LastUse(ops, l[n].key) {
        assert front[i] in l[..n];
      }
    }
  }

  lemma NoUseKeepsOrder<V>(l: List<V>, ops: seq<Op<V>>, op: Op<V>)
    requires ByLastUse(l, ops) && !op.TouchKey? && !op.Put?
    ensures ByLastUse(l, ops + [op])
  {
    assert (ops + [op])[..|ops|] == ops;
  }

  lemma OtherUseKeepsOrder<V>(l: List<V>, ops: seq<Op<V>>, op: Op<V>, key: string)
    requires ByLastUse(l, ops) && op == TouchKey(key) && !Has(l, key)
    ensures ByLastUse(l, ops + [op])
  {
    assert (ops + [op])[..|ops|] == ops;
  }

  /** One step on a list ordered by last use, when the steps so far are `ops`. */
  lemma StepKeepsOrder<V>(l: List<V>, ops: seq<Op<V>>, op: Op<V>, maxSize: nat)
    requires Distinct(l) && ByLastUse(l, ops)
    ensures Distinct(Step(l, op, maxSize)) && ByLastUse(Step(l, op, maxSize), ops + [op])
  {
    match op
    case Look(_) => NoUseKeepsOrder(l, ops, op);
    case TouchKey(key) =>
      if Has(l, key) { RemoveThenAppend(l, ops, op, l[IndexOf(l, key)]); } else { OtherUseKeepsOrder(l, ops, op, key); }
    case Put(item) =>
      var k := EvictsShortestPrefix(l, item.size, maxSize);
      RemoveThenAppend(l[k..], ops, op, item);
    case Remove(key) =>
      RemoveKeepsOrder(l, ops, key);
      NoUseKeepsOrder(Without(l, key), ops, op);
    case ClearAll =>
    case Cleanup(now) =>
      DropKeepsOrder(l, ops, now);
      DropExpiredKeeps(l, now);
      NoUseKeepsOrder(DropExpired(l, now), ops, op);
  }

  lemma WithoutKeepsOthers<V>(l: List<V>, key: string, x: Item<V>)
    requires x in l && x.key != key
    ensures x in Without(l, key)
  {
    if Has(l, key) {
      var i := IndexOf(l, key);
      AroundIndex(l, i);
      assert x in l[..i] + l[i + 1..];
    }
  }

  /** Touching loses no item, adds none, and puts the key's last without changing the order of the others. */
  lemma TouchMovesOne<V>(l: List<V>, key: string)
    requires Distinct(l)
    ensures var t := Touch(l, key);
      multiset(t) == multiset(l) && Without(t, key) == Without(l, key) &&
      (Has(l, key) ==> t != [] && t[|t| - 1].key == key)
  {
    if Has(l, key) {
      var i := IndexOf(l, key);
      OneAside(l, i);
      WithoutForgets(l, key);
      WithoutAppend(Without(l, key), l[i], key);
    }
  }

  lemma TouchKeeps<V>(l: List<V>, key: string, x: Item<V>)
    requires Distinct(l) && x in l
    ensures x in Touch(l, key)
  {
    TouchMovesOne(l, key);
    assert x in multiset(l);
  }

  lemma OneAside<V>(l: List<V>, i: nat)
    requires i < |l|
    ensures multiset(l[..i] + l[i + 1..] + [l[i]]) == multiset(l)
  {
    AroundIndex(l, i);
    assert multiset(l) == multiset(l[..i] + l[i + 1..]) + multiset{l[i]};
  }

  /**
   Why an item can be gone: its key was removed or stored anew, a store did not find room, the cache was cleared, or a
   cleanup came after its time. No look and no touch loses any.
   */
  lemma VanishesOnlyWhen<V>(l: List<V>, op: Op<V>, maxSize: nat, x: Item<V>)
    requires Distinct(l) && x in l && x !in Step(l, op, maxSize)
    ensures match op
      case Put(item) => item.key == x.key || !HasRoom(l, item.size, maxSize)
      case Remove(key) => key == x.key
      case ClearAll => true
      case Cleanup(now) => !InForce(x, now)
      case _ => false
  {
    match op
    case Put(item) =>
      if HasRoom(l, item.size, maxSize) && item.key != x.key {
        StoreKeepsOthers(l, item, maxSize);
        WithoutKeepsOthers(l, item.key, x);
      }
    case Remove(key) => if key != x.key { WithoutKeepsOthers(l, key, x); }
    case TouchKey(key) => TouchKeeps(l, key, x);
    case Cleanup(now) =>
      DropExpiredKeeps(l, now);
      var i :| 0 <= i < |l| && l[i] == x;
    case _ =>
  }

  ghost predicate Bounded<V>(l: List<V>, maxSize: nat) {
    |l| <= maxSize && (Memory(l) > maxSize * 1024 ==> |l| == 1)
  }

  lemma {:induction false} DropExpiredShrinks<V>(l: List<V>, now: int)
    ensures |DropExpired(l, now)| <= |l| && Memory(DropExpired(l, now)) <= Memory(l)
  {
    if l != [] { DropExpiredShrinks(l[..|l| - 1], now); }
  }

  lemma TouchKeepsMemory<V>(l: List<V>, key: string)
    requires Has(l, key)
    ensures Memory(Touch(l, key)) == Memory(l) && |Touch(l, key)| == |l|
  {
    var i := IndexOf(l, key);
    MemorySplit(l, i);
    MemoryConcat(Without(l, key), [l[i]]);
    assert Memory([l[i]]) == l[i].size;
  }

  lemma StepKeepsBounds<V>(l: List<V>, op: Op<V>, maxSize: nat)
    requires Distinct(l) && Bounded(l, maxSize) && maxSize > 0
    ensures Bounded(Step(l, op, maxSize), maxSize)
  {
    match op
    case Look(_) =>
    case TouchKey(key) =>
      if Has(l, key) { TouchKeepsMemory(l, key); }
    case Put(item) => StoreBounds(l, item, maxSize);
    case Remove(key) => WithoutShrinks(l, key);
    case ClearAll =>
    case Cleanup(now) => DropExpiredShrinks(l, now);
  }

  /** The item a key should have: the last one stored, unless it was removed, cleared or cleaned up since. */
  function Current<V>(ops: seq<Op<V>>, key: string): Option<Item<V>> {
    if ops == [] then None
    else
      var earlier := Current(ops[..|ops| - 1], key);
      match ops[|ops| - 1]
      case Put(item) => if item.key == key then Some(item) else earlier
      case Remove(k) => if k == key then None else earlier
      case ClearAll => None
      case Cleanup(now) => if earlier.Some? && earlier.value.Expired(now) then None else earlier
      case _ => earlier
  }

  ghost predicate AllCurrent<V>(l: List<V>, ops: seq<Op<V>>) {
    forall i :: 0 <= i < |l| ==> Current(ops, l[i].key) == Some(l[i])
  }

  lemma WithoutKeepsCurrent<V>(l: List<V>, ops: seq<Op<V>>, key: string)
    requires AllCurrent(l, ops)
    ensures AllCurrent(Without(l, key), ops)
  {
  }

  lemma {:induction false} NotAnywhere<V>(l: List<V>, key: string, i: nat)
    requires !Has(l, key) && i < |l|
    ensures l[i].key != key
  {
  }

  lemma PutKeepsCurrent<V>(l: List<V>, ops: seq<Op<V>>, item: Item<V>, maxSize: nat)
    requires Distinct(l) && AllCurrent(l, ops)
    ensures AllCurrent(Store(l, item, maxSize), ops + [Put(item)])
  {
    assert (ops + [Put(item)])[..|ops|] == ops;
    var k := EvictsShortestPrefix(l, item.size, maxSize);
    assert AllCurrent(l[k..], ops);
    WithoutKeepsCurrent(l[k..], ops, item.key);
    assert !Has(Without(l[k..], item.key), item.key) by { WithoutForgets(l[k..], item.key); }
    var r := Without(l[k..], item.key);
    forall j | 0 <= j < |r| ensures r[j].key != item.key {
      NotAnywhere(r, item.key, j);
    }
  }

  lemma TouchKeepsCurrent<V>(l: List<V>, ops: seq<Op<V>>, key: string)
    requires AllCurrent(l, ops)
    ensures AllCurrent(Touch(l, key), ops)
  {
    if Has(l, key) {
      WithoutKeepsCurrent(l, ops, key);
      assert Current(ops, l[IndexOf(l, key)].key) == Some(l[IndexOf(l, key)]);
    }
  }

  lemma StepKeepsCurrent<V>(l: List<V>, ops: seq<Op<V>>, op: Op<V>, maxSize: nat)
    requires Distinct(l) && AllCurrent(l, ops)
    ensures AllCurrent(Step(l, op, maxSize), ops + [op])
  {
    assert (ops + [op])[..|ops|] == ops;
    match op
    case Look(_) =>
    case TouchKey(key) => TouchKeepsCurrent(l, ops, key);
    case Put(item) => PutKeepsCurrent(l, ops, item, maxSize);
    case Remove(key) => WithoutForgets(l, key); WithoutKeepsCurrent(l, ops, key);
    case ClearAll =>
    case Cleanup(now) =>
      DropExpiredKeeps(l, now);
      var r := DropExpired(l, now);
      forall i | 0 <= i < |r| ensures Current(ops + [op], r[i].key) == Some(r[i]) {
        assert r[i] in l;
      }
  }

  /**
   After any sequence of critical sections, `Get` split into its two included: no key twice, the items
   ordered exactly by when their keys were last touched or stored, each the one stored last under its
   key, and within both limits.
   */
  lemma {:induction false} EveryRun<V>(ops: seq<Op<V>>, maxSize: nat)
    requires maxSize > 0
    ensures var l := RunOps(ops, maxSize);
      Distinct(l) && ByLastUse(l, ops) && AllCurrent(l, ops) && Bounded(l, maxSize)
  {
    if ops != [] {
      var n := |ops| - 1;
      EveryRun(ops[..n], maxSize);
      assert ops == ops[..n] + [ops[n]];
      StepKeepsOrder(RunOps(ops[..n], maxSize), ops[..n], ops[n], maxSize);
      StepKeepsCurrent(RunOps(ops[..n], maxSize), ops[..n], ops[n], maxSize);
      StepKeepsBounds(RunOps(ops[..n], maxSize), ops[n], maxSize);
    }
  }
}
