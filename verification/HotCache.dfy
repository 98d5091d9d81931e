/**
 The in-memory cache: a map from keys to entries, the access order as a list of keys, and the index of
 every key in that list, with running totals beside them. Each method is one critical section and is
 proved to act on the contents as the list of module Lru does. The eviction loop ends only because
 the first key of the access order is always a key of the map.
 */
module HotCaches {
  import opened Prelude
  import opened Lru

  class Entry<V> {
    const key: string
    const value: V
    const size: nat
    const createdAt: int
    const ttl: int
    var lastAccess: int
    var accessCount: int

    constructor (key: string, value: V, size: nat, now: int, ttl: int)
      ensures AsItem() == Item(key, value, size, now, ttl)
      ensures lastAccess == now && accessCount == 1
    {
      this.key, this.value, this.size, this.createdAt, this.ttl := key, value, size, now, ttl;
      lastAccess, accessCount := now, 1;
    }

    function AsItem(): Item<V> { Item(key, value, size, createdAt, ttl) }
  }

  /** `index` gives each key its position in `order`, and has no other key. */
  ghost predicate Inverse(order: seq<string>, index: map<string, int>) {
    (forall i :: 0 <= i < |order| ==> order[i] in index && index[order[i]] == i) &&
    (forall k {:trigger index[k]} :: k in index ==> 0 <= index[k] < |order| && order[index[k]] == k)
  }

  lemma {:induction false} InverseSize(order: seq<string>, index: map<string, int>)
    requires Inverse(order, index)
    ensures |index| == |order|
  {
    if order == [] {
      assert index == map[];
    } else {
      var n := |order| - 1;
      var k := order[n];
      var rest := index - {k};
      forall j | j in rest ensures 0 <= rest[j] < n {}
      InverseSize(order[..n], rest);
      assert index.Keys == rest.Keys + {k};
      assert |index.Keys| == |rest.Keys| + 1;
    }
  }

  /** An order that lists every key once, each where its index says, is the inverse of the index. */
  lemma InverseIfCovers(order: seq<string>, index: map<string, int>)
    requires forall i :: 0 <= i < |order| ==> order[i] in index && index[order[i]] == i
    requires forall k :: k in index ==> k in order
    ensures Inverse(order, index)
  {
  }

  lemma RemovedCovers(order: seq<string>, index: map<string, int>, key: string, k: string)
    requires Inverse(order, index) && key in index && k in index && k != key
    ensures k in order[..index[key]] + order[index[key] + 1..]
  {
    var i := index[key];
    var rest := order[..i] + order[i + 1..];
    if index[k] < i { assert rest[index[k]] == k; } else { assert rest[index[k] - 1] == k; }
  }

  /** No key is listed twice, with one taken out or moved to the end. */
  lemma NoneTwice(order: seq<string>, index: map<string, int>, key: string)
    requires Inverse(order, index) && key in index
    ensures var rest := order[..index[key]] + order[index[key] + 1..];
      (forall j :: 0 <= j < |rest| ==> rest[j] in index && rest[j] != key) &&
      (forall j :: 0 <= j < index[key] ==> index[rest[j]] == j) &&
      forall j, k :: 0 <= j < k < |rest| ==> rest[j] != rest[k]
  {
    var i := index[key];
    var rest := order[..i] + order[i + 1..];
    forall j | 0 <= j < |rest| ensures rest[j] in index && index[rest[j]] == if j < i then j else j + 1 {
      assert rest[j] == order[if j < i then j else j + 1];
    }
  }

  /** The order without a key is the inverse of any index that numbers it anew. */
  lemma RestInverse(order: seq<string>, index: map<string, int>, key: string,
                    rest: seq<string>, index': map<string, int>)
    requires Inverse(order, index) && key in index && index'.Keys == index.Keys - {key}
    requires rest == order[..index[key]] + order[index[key] + 1..]
    requires forall j :: 0 <= j < |rest| ==> rest[j] in index' && index'[rest[j]] == j
    ensures Inverse(rest, index')
  {
    forall k | k in index' ensures k in rest { RemovedCovers(order, index, key, k); }
    InverseIfCovers(rest, index');
  }

  /** So is the order with a key moved to its end. */
  lemma MovedInverse(order: seq<string>, index: map<string, int>, key: string,
                     moved: seq<string>, index': map<string, int>)
    requires Inverse(order, index) && key in index && index'.Keys == index.Keys
    requires moved == order[..index[key]] + order[index[key] + 1..] + [key]
    requires forall j :: 0 <= j < |moved| ==> moved[j] in index' && index'[moved[j]] == j
    ensures Inverse(moved, index')
  {
    assert key in moved;
    forall k | k in index' && k != key ensures k in moved { RemovedCovers(order, index, key, k); }
    InverseIfCovers(moved, index');
  }

  lemma {:induction false} IndexOfAt<V>(l: List<V>, i: nat)
    requires i < |l| && Distinct(l)
    ensures IndexOf(l, l[i].key) == i
  {
    if i > 0 { IndexOfAt(l[1..], i - 1); }
  }

  /** The order and its index agree, and list exactly the keys of the map. */
  ghost predicate Indexed<V>(order: seq<string>, index: map<string, int>, data: map<string, Entry<V>>) {
    Inverse(order, index) && index.Keys == data.Keys && forall k :: k in data ==> data[k].key == k
  }

  /** The items of the keys in `order`. */
  ghost function ItemsOf<V>(order: seq<string>, data: map<string, Entry<V>>): (l: List<V>)
    requires forall i :: 0 <= i < |order| ==> order[i] in data
    ensures |l| == |order| && forall i :: 0 <= i < |l| ==> l[i] == data[order[i]].AsItem()
  {
    seq(|order|, i requires 0 <= i < |order| => data[order[i]].AsItem())
  }

  lemma ItemsDistinct<V>(order: seq<string>, index: map<string, int>, data: map<string, Entry<V>>)
    requires Indexed(order, index, data)
    ensures Distinct(ItemsOf(order, data))
  {
    forall i, j | 0 <= i < j < |order| ensures order[i] != order[j] {
      assert index[order[i]] == i && index[order[j]] == j;
    }
  }

  lemma {:induction false} ItemsIndex<V>(order: seq<string>, index: map<string, int>, data: map<string, Entry<V>>,
                                         key: string)
    requires Indexed(order, index, data)
    ensures Has(ItemsOf(order, data), key) <==> key in data
    ensures key in data ==> IndexOf(ItemsOf(order, data), key) == index[key]
  {
    ItemsDistinct(order, index, data);
    if key in data { IndexOfAt(ItemsOf(order, data), index[key]); }
  }

  lemma FirstKey<V>(order: seq<string>, index: map<string, int>, data: map<string, Entry<V>>)
    requires Indexed(order, index, data) && order != []
    ensures order[0] in data && ItemsOf(order, data)[0].key == order[0]
  {
    assert order[0] in index;
  }

  lemma RestLacks<V>(order: seq<string>, index: map<string, int>, data: map<string, Entry<V>>, key: string,
                     rest: seq<string>, j: nat)
    requires Indexed(order, index, data) && key in data && j < |rest|
    requires rest == order[..index[key]] + order[index[key] + 1..]
    ensures rest[j] in data && rest[j] != key && rest[j] == order[if j < index[key] then j else j + 1]
  {
    assert index[rest[j]] != index[key];
  }

  lemma CutAt<T>(r: seq<T>, l: seq<T>, i: nat)
    requires i < |l| && |r| == |l| - 1
    requires forall j :: 0 <= j < |r| ==> r[j] == l[if j < i then j else j + 1]
    ensures r == l[..i] + l[i + 1..]
  {
  }

  /** Taking a key out of the map and the order takes its item out of the contents. */
  lemma ItemsRemoved<V>(order: seq<string>, index: map<string, int>, data: map<string, Entry<V>>, key: string,
                        rest: seq<string>)
    requires Indexed(order, index, data) && key in data
    requires rest == order[..index[key]] + order[index[key] + 1..]
    ensures forall j :: 0 <= j < |rest| ==> rest[j] in data && rest[j] != key
    ensures ItemsOf(rest, data) == Without(ItemsOf(order, data), key)
    ensures Memory(ItemsOf(rest, data)) == Memory(ItemsOf(order, data)) - data[key].size
  {
    var l, i := ItemsOf(order, data), index[key];
    forall j | 0 <= j < |rest|
      ensures rest[j] in data && rest[j] != key && rest[j] == order[if j < i then j else j + 1]
    {
      RestLacks(order, index, data, key, rest, j);
    }
    ItemsIndex(order, index, data, key);
    assert ItemsOf(rest, data) == l[..i] + l[i + 1..] by { CutAt(ItemsOf(rest, data), l, i); }
    MemorySplit(l, i);
  }

  /** Items depend only on the entries of the listed keys. */
  lemma ItemsAgree<V>(order: seq<string>, a: map<string, Entry<V>>, b: map<string, Entry<V>>)
    requires forall i :: 0 <= i < |order| ==> order[i] in a && order[i] in b && a[order[i]] == b[order[i]]
    ensures ItemsOf(order, a) == ItemsOf(order, b)
  {
  }

  lemma ItemsAppended<V>(order: seq<string>, data: map<string, Entry<V>>, key: string)
    requires (forall i :: 0 <= i < |order| ==> order[i] in data) && key in data
    ensures ItemsOf(order + [key], data) == ItemsOf(order, data) + [data[key].AsItem()]
    ensures Memory(ItemsOf(order + [key], data)) == Memory(ItemsOf(order, data)) + data[key].size
  {
    MemoryConcat(ItemsOf(order, data), [data[key].AsItem()]);
    assert Memory([data[key].AsItem()]) == data[key].size;
  }

  /** The three structures and the two totals describe the list `l`. */
  ghost predicate Holds<V>(order: seq<string>, index: map<string, int>, data: map<string, Entry<V>>,
                           count: int, memory: int, l: List<V>) {
    Indexed(order, index, data) && l == ItemsOf(order, data) && count == |l| && memory == Memory(l)
  }

  lemma ItemsMoved<V>(order: seq<string>, index: map<string, int>, data: map<string, Entry<V>>, key: string,
                      moved: seq<string>)
    requires Indexed(order, index, data) && key in index
    requires moved == order[..index[key]] + order[index[key] + 1..] + [key]
    ensures forall i :: 0 <= i < |moved| ==> moved[i] in data
    ensures ItemsOf(moved, data) == Touch(ItemsOf(order, data), key)
    ensures Memory(ItemsOf(moved, data)) == Memory(ItemsOf(order, data)) && |moved| == |order|
  {
    ItemsIndex(order, index, data, key);
    var rest := order[..index[key]] + order[index[key] + 1..];
    ItemsRemoved(order, index, data, key, rest);
    ItemsAppended(rest, data, key);
  }

  /** A key taken out of the order and put back at its end is an item touched. */
  lemma ItemsTouched<V>(order: seq<string>, index: map<string, int>, data: map<string, Entry<V>>, key: string,
                        count: int, memory: int, l: List<V>, moved: seq<string>, index': map<string, int>)
    requires Holds(order, index, data, count, memory, l)
    requires Inverse(moved, index') && index'.Keys == index.Keys
    requires moved == if key in index then order[..index[key]] + order[index[key] + 1..] + [key] else order
    ensures Holds(moved, index', data, count, memory, Touch(l, key))
  {
    if key in index { ItemsMoved(order, index, data, key, moved); } else { ItemsIndex(order, index, data, key); }
  }

  /** The order without a key, if it lists it. */
  ghost function RestOf(order: seq<string>, index: map<string, int>, key: string): seq<string>
    requires Inverse(order, index)
  {
    if key in index then order[..index[key]] + order[index[key] + 1..] else order
  }

  lemma RestItems<V>(order: seq<string>, index: map<string, int>, data: map<string, Entry<V>>, key: string)
    requires Indexed(order, index, data)
    ensures var rest := RestOf(order, index, key); var l := ItemsOf(order, data);
      (forall i :: 0 <= i < |rest| ==> rest[i] in data && rest[i] != key) &&
      ItemsOf(rest, data) == Without(l, key) &&
      Memory(ItemsOf(rest, data)) == Memory(l) - if key in data then data[key].size else 0
  {
    ItemsIndex(order, index, data, key);
    if key in index { ItemsRemoved(order, index, data, key, RestOf(order, index, key)); }
  }

  /** Moving the key just added to the end changes nothing. */
  lemma LastStays(order: seq<string>, key: string)
    ensures var added := order + [key]; added[..|order|] + added[|order| + 1..] + [key] == added
  {
  }

  lemma ItemsElsewhere<V>(rest: seq<string>, data: map<string, Entry<V>>, entry: Entry<V>)
    requires forall i :: 0 <= i < |rest| ==> rest[i] in data && rest[i] != entry.key
    ensures forall i :: 0 <= i < |rest| ==> rest[i] in data[entry.key := entry]
    ensures ItemsOf(rest, data[entry.key := entry]) == ItemsOf(rest, data)
  {
    ItemsAgree(rest, data, data[entry.key := entry]);
  }

  lemma ItemsStored<V>(order: seq<string>, index: map<string, int>, data: map<string, Entry<V>>, entry: Entry<V>,
                       order': seq<string>)
    requires Indexed(order, index, data)
    requires order' == RestOf(order, index, entry.key) + [entry.key]
    ensures var data' := data[entry.key := entry]; var l := ItemsOf(order, data);
      (forall i :: 0 <= i < |order'| ==> order'[i] in data') &&
      ItemsOf(order', data') == Without(l, entry.key) + [entry.AsItem()] &&
      Memory(ItemsOf(order', data')) == Memory(l) + entry.size - if entry.key in data then data[entry.key].size else 0
  {
    var key := entry.key;
    var rest := RestOf(order, index, key);
    RestItems(order, index, data, key);
    ItemsElsewhere(rest, data, entry);
    ItemsAppended(rest, data[key := entry], key);
  }

  /** A key's entry stored or replaced, with its key last in the order. */
  lemma StoredHolds<V>(order: seq<string>, index: map<string, int>, data: map<string, Entry<V>>,
                       count: int, memory: int, l: List<V>, entry: Entry<V>,
                       order': seq<string>, index': map<string, int>, data': map<string, Entry<V>>, count': int,
                         memory': int)
    requires Holds(order, index, data, count, memory, l)
    requires Inverse(order', index') && index'.Keys == index.Keys + {entry.key}
    requires order' == RestOf(order, index, entry.key) + [entry.key] && data' == data[entry.key := entry]
    requires count' == if entry.key in data then count else count + 1
    requires memory' == memory + entry.size - if entry.key in data then data[entry.key].size else 0
    ensures Holds(order', index', data', count', memory', Without(l, entry.key) + [entry.AsItem()])
  {
    assert Indexed(order', index', data');
    ItemsStored(order, index, data, entry, order');
    ItemsIndex(order, index, data, entry.key);
  }

  /** A key's entry taken out of the map and the order. */
  lemma RemovedHolds<V>(order: seq<string>, index: map<string, int>, data: map<string, Entry<V>>,
                        count: int, memory: int, l: List<V>, key: string,
                        order': seq<string>, index': map<string, int>, data': map<string, Entry<V>>, count': int,
                          memory': int)
    requires Holds(order, index, data, count, memory, l) && key in data
    requires Inverse(order', index') && index'.Keys == index.Keys - {key}
    requires order' == order[..index[key]] + order[index[key] + 1..] && data' == data - {key}
    requires count' == count - 1 && memory' == memory - data[key].size
    ensures Holds(order', index', data', count', memory', Without(l, key))
  {
    ItemsRemoved(order, index, data, key, order');
    ItemsAgree(order', data, data');
  }

  /** Dropping the keys of the expired entries drops the expired items. */
  lemma ExpiredDropped<V>(order: seq<string>, index: map<string, int>, data: map<string, Entry<V>>,
                          keys: seq<string>, now: int)
    requires Indexed(order, index, data)
    requires forall k :: k in keys <==> k in data && data[k].AsItem().Expired(now)
    ensures DropKeys(ItemsOf(order, data), keys) == DropExpired(ItemsOf(order, data), now)
  {
    var l := ItemsOf(order, data);
    forall i | 0 <= i < |l| ensures l[i].key in keys <==> l[i].Expired(now) {
      assert order[i] in data && l[i] == data[order[i]].AsItem() && l[i].key == order[i];
    }
    DropExpiredKeys(l, keys, now);
  }

  class HotCache<V> {
    var data: map<string, Entry<V>>
    var accessOrder: seq<string>
    var accessMap: map<string, int>
    var count: int
    var memoryUsage: int
    const maxSize: nat
    const defaultTTL: int

    ghost predicate Valid()
      reads this
    {
      maxSize > 0 && Indexed(accessOrder, accessMap, data) && Represents(ItemsOf(accessOrder, data))
    }

    ghost predicate Represents(l: List<V>)
      reads this
    {
      Holds(accessOrder, accessMap, data, count, memoryUsage, l)
    }

    /** The items in access order. */
    ghost function Contents(): (l: List<V>)
      requires Valid()
      reads this
      ensures Represents(l)
    {
      ItemsOf(accessOrder, data)
    }

    /** The running count is the true number of entries. */
    lemma CountIsCardinality()
      requires Valid()
      ensures count == |data|
    {
      InverseSize(accessOrder, accessMap);
      assert data.Keys == accessMap.Keys;
      assert |data| == |data.Keys| == |accessMap.Keys| == |accessMap|;
    }

    constructor (maxSize: nat, defaultTTL: int)
      requires maxSize > 0
      ensures Valid() && Contents() == [] && this.maxSize == maxSize && this.defaultTTL == defaultTTL
    {
      this.maxSize, this.defaultTTL := maxSize, defaultTTL;
      data, accessOrder, accessMap, count, memoryUsage := map[], [], map[], 0, 0;
    }

    // ---------- The access order ----------

    method UpdateAccessOrder(key: string)
      requires Inverse(accessOrder, accessMap)
      modifies this`accessOrder, this`accessMap
      ensures Inverse(accessOrder, accessMap) && accessMap.Keys == old(accessMap.Keys)
      ensures key in old(accessMap) ==>
        var i := old(accessMap)[key]; accessOrder == old(accessOrder)[..i] + old(accessOrder)[i + 1..] + [key]
      ensures key !in old(accessMap) ==> accessOrder == old(accessOrder)
    {
      if key in accessMap {
        var index := accessMap[key];
        NoneTwice(accessOrder, accessMap, key);
        accessOrder := accessOrder[..index] + accessOrder[index + 1..];
        accessOrder := accessOrder + [key];
        ghost var order := accessOrder;
        for i := index to |accessOrder|
          invariant accessOrder == order && accessMap.Keys == old(accessMap.Keys)
          invariant forall j :: 0 <= j < |order| ==> order[j] in accessMap
          invariant forall j :: 0 <= j < i ==> accessMap[order[j]] == j
        {
          accessMap := accessMap[accessOrder[i] := i];
        }
        MovedInverse(old(accessOrder), old(accessMap), key, accessOrder, accessMap);
      }
    }

    method AddToAccessOrder(key: string)
      requires Inverse(accessOrder, accessMap) && key !in accessMap
      modifies this`accessOrder, this`accessMap
      ensures Inverse(accessOrder, accessMap)
      ensures accessOrder == old(accessOrder) + [key] && accessMap == old(accessMap)[key := |old(accessOrder)|]
    {
      accessOrder := accessOrder + [key];
      accessMap := accessMap[key := |accessOrder| - 1];
    }

    method RemoveFromAccessOrder(key: string)
      requires Inverse(accessOrder, accessMap)
      modifies this`accessOrder, this`accessMap
      ensures Inverse(accessOrder, accessMap) && accessMap.Keys == old(accessMap.Keys) - {key}
      ensures key in old(accessMap) ==>
        var i := old(accessMap)[key]; accessOrder == old(accessOrder)[..i] + old(accessOrder)[i + 1..]
      ensures key !in old(accessMap) ==> accessOrder == old(accessOrder)
    {
      if key in accessMap {
        var index := accessMap[key];
        NoneTwice(accessOrder, accessMap, key);
        accessOrder := accessOrder[..index] + accessOrder[index + 1..];
        accessMap := accessMap - {key};
        ghost var order := accessOrder;
        for i := index to |accessOrder|
          invariant accessOrder == order && accessMap.Keys == old(accessMap.Keys) - {key}
          invariant forall j :: 0 <= j < |order| ==> order[j] in accessMap
          invariant forall j :: 0 <= j < i ==> accessMap[order[j]] == j
        {
          accessMap := accessMap[accessOrder[i] := i];
        }
        RestInverse(old(accessOrder), old(accessMap), key, accessOrder, accessMap);
      }
    }

    // ---------- Critical sections ----------

    /** First half of a get: the entry, read under the lock and used after it is released. */
    method Look(key: string) returns (entry: Entry?<V>)
      requires Valid()
      ensures entry == null <==> !Has(Contents(), key)
      ensures entry != null ==>
        key in data && entry == data[key] && entry.AsItem() == Contents()[IndexOf(Contents(), key)]
    {
      ItemsIndex(accessOrder, accessMap, data, key);
      entry := if key in data then data[key] else null;
    }

    /** Second half of a hit: by now the key may be gone or hold another entry. */
    method TouchEntry(entry: Entry<V>, key: string, now: int)
      requires Valid()
      modifies this`accessOrder, this`accessMap, entry
      ensures Valid() && Contents() == Touch(old(Contents()), key) && data == old(data)
      ensures entry.lastAccess == now && entry.accessCount == old(entry.accessCount) + 1
    {
      ghost var before := Contents();
      entry.lastAccess := now;
      entry.accessCount := entry.accessCount + 1;
      UpdateAccessOrder(key);
      ItemsTouched(old(accessOrder), old(accessMap), data, key, count, memoryUsage, before, accessOrder, accessMap);
    }

    method Delete(key: string) returns (existed: bool)
      requires Valid()
      modifies this
      ensures Valid() && Contents() == Without(old(Contents()), key)
      ensures existed == Has(old(Contents()), key)
    {
      ItemsIndex(accessOrder, accessMap, data, key);
      if key !in data { return false; }
      DeletePresent(key);
      return true;
    }

    /** The steps that delete, evict and clean up share. */
    method DeletePresent(key: string)
      requires Valid() && key in data
      modifies this
      ensures Valid() && Contents() == Without(old(Contents()), key)
      ensures data == old(data) - {key} && |accessOrder| == |old(accessOrder)| - 1
    {
      ghost var order, index, before, n, memory, l := accessOrder, accessMap, data, count, memoryUsage, Contents();
      var entry := data[key];
      data := data - {key};
      RemoveFromAccessOrder(key);
      count := count - 1;
      memoryUsage := memoryUsage - entry.size;
      RemovedHolds(order, index, before, n, memory, l, key, accessOrder, accessMap, data, count, memoryUsage);
    }

    /** Both halves with nothing in between. An expired entry is deleted and reported as a miss. */
    method Get(key: string, now: int) returns (value: Option<V>)
      requires Valid()
      modifies this, set k | k in data :: data[k]
      ensures Valid()
      ensures var l := old(Contents());
        if !Has(l, key) then value == None && Contents() == l
        else if !InForce(l[IndexOf(l, key)], now) then value == None && Contents() == Without(l, key)
        else value == Some(l[IndexOf(l, key)].value) && Contents() == Touch(l, key)
    {
      var entry := Look(key);
      if entry == null { return None; }
      if entry.ttl > 0 && now - entry.createdAt > entry.ttl {
        var _ := Delete(key);
        return None;
      }
      TouchEntry(entry, key, now);
      return Some(entry.value);
    }

    /** The least recently used key and its item go; the key is always in the map. */
    method EvictFirst()
      requires Valid() && accessOrder != []
      modifies this
      ensures Valid() && Contents() == old(Contents())[1..] && |accessOrder| == |old(accessOrder)| - 1
    {
      var lruKey := accessOrder[0];
      FirstKey(accessOrder, accessMap, data);
      WithoutFirst(Contents());
      if lruKey in data { DeletePresent(lruKey); }
    }

    /** Evicts from the front of the access order; ends because each round removes the key it found there. */
    method EnsureCapacity(size: nat)
      requires Valid()
      modifies this
      ensures Valid() && Contents() == Evict(old(Contents()), size, maxSize)
      ensures HasRoom(old(Contents()), size, maxSize) ==> Contents() == old(Contents())
    {
      ghost var before := Contents();
      if HasRoom(before, size, maxSize) { RoomKeeps(before, size, maxSize); }
      while count >= maxSize || memoryUsage + size > maxSize * 1024
        invariant Valid() && Evict(Contents(), size, maxSize) == Evict(before, size, maxSize)
        decreases |accessOrder|
      {
        if |accessOrder| == 0 { break; }
        EvictFirst();
      }
    }

    /** Makes room first, then stores or replaces, and moves the key to the most recently used end. */
    method Set(key: string, value: V, size: nat, ttl: int, now: int)
      requires Valid()
      modifies this
      ensures Valid()
      ensures Contents() ==
        Store(old(Contents()), Item(key, value, size, now, if ttl == 0 then defaultTTL else ttl), maxSize)
      ensures var l := old(Contents());
        HasRoom(l, size, maxSize) ==>
          Contents() == Without(l, key) + [Item(key, value, size, now, if ttl == 0 then defaultTTL else ttl)]
      ensures count <= maxSize
      ensures memoryUsage > maxSize * 1024 <==> size > maxSize * 1024
      ensures size > maxSize * 1024 ==> count == 1
    {
      var entry := new Entry(key, value, size, now, if ttl == 0 then defaultTTL else ttl);
      ghost var item := entry.AsItem();
      assert Distinct(Contents()) by { ItemsDistinct(accessOrder, accessMap, data); }
      StoreBounds(Contents(), item, maxSize);
      if HasRoom(Contents(), size, maxSize) { StoreKeepsOthers(Contents(), item, maxSize); }
      EnsureCapacity(size);
      StoreEntry(entry);
      assert Represents(Store(old(Contents()), item, maxSize));
    }

    method StoreEntry(entry: Entry<V>)
      requires Valid()
      modifies this
      ensures Valid() && Contents() == Without(old(Contents()), entry.key) + [entry.AsItem()]
    {
      var key := entry.key;
      ghost var order, index, before, n, memory, l := accessOrder, accessMap, data, count, memoryUsage, Contents();
      assert Holds(order, index, before, n, memory, l);
      var existed := key in data;
      if existed {
        memoryUsage := memoryUsage - data[key].size + entry.size;
      } else {
        count := count + 1;
        memoryUsage := memoryUsage + entry.size;
      }
      data := data[key := entry];
      MakeLast(key, existed);
      StoredHolds(order, index, before, n, memory, l, entry, accessOrder, accessMap, data, count, memoryUsage);
    }

    /** A new key joins the access order; then any key stored goes to the most recently used end. */
    method MakeLast(key: string, existed: bool)
      requires Inverse(accessOrder, accessMap) && (existed <==> key in accessMap)
      modifies this`accessOrder, this`accessMap
      ensures Inverse(accessOrder, accessMap) && accessMap.Keys == old(accessMap.Keys) + {key}
      ensures accessOrder == RestOf(old(accessOrder), old(accessMap), key) + [key]
    {
      if !existed {
        AddToAccessOrder(key);
        LastStays(old(accessOrder), key);
      }
      UpdateAccessOrder(key);
    }

    /** The background pass: expired keys are collected in the map's own order, then deleted one by one. */
    method CleanupExpiredEntries(now: int)
      requires Valid()
      modifies this
      ensures Valid() && Contents() == DropExpired(old(Contents()), now)
    {
      ghost var before := Contents();
      ItemsDistinct(accessOrder, accessMap, data);
      var keysToDelete := ExpiredKeys(now);
      ExpiredDropped(accessOrder, accessMap, data, keysToDelete, now);
      DropNothing(before);
      for i := 0 to |keysToDelete|
        invariant Valid() && Contents() == DropKeys(before, keysToDelete[..i])
      {
        DropNext(before, keysToDelete, i);
        var _ := Delete(keysToDelete[i]);
      }
      assert keysToDelete[..|keysToDelete|] == keysToDelete;
    }

    method ExpiredKeys(now: int) returns (keys: seq<string>)
      ensures forall k :: k in keys <==> k in data && !InForce(data[k].AsItem(), now)
    {
      keys := [];
      var rest := data.Keys;
      while rest != {}
        invariant rest <= data.Keys
        invariant forall k :: k in keys <==> k in data.Keys - rest && data[k].AsItem().Expired(now)
        decreases |rest|
      {
        var k :| k in rest;
        rest := rest - {k};
        if data[k].ttl > 0 && now - data[k].createdAt > data[k].ttl { keys := keys + [k]; }
      }
    }

    method Clear()
      requires Valid()
      modifies this
      ensures Valid() && Contents() == []
    {
      data, accessOrder, accessMap := map[], [], map[];
      count, memoryUsage := 0, 0;
    }
  }
}
