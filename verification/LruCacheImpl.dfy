// The cache as the source keeps it: a list of items and an index of iterators into that list.
module LruCacheImpl {
  import opened LruCache

  /** One element of the list; the index and the references that get returns point to it. */
  class Item {
    const key: Key
    var value: Value

    constructor (key: Key, value: Value)
      ensures this.key == key && this.value == value
    {
      this.key, this.value := key, value;
    }
  }

  ghost function Pool(items: seq<Item>): (pool: seq<(Key, Value)>)
    reads items`value
    ensures |pool| == |items|
  {
    if items == [] then [] else [(items[0].key, items[0].value)] + Pool(items[1..])
  }

  lemma {:induction false} PoolAt(items: seq<Item>)
    ensures forall i :: 0 <= i < |items| ==> Pool(items)[i] == (items[i].key, items[i].value)
  {
    if items != [] {
      PoolAt(items[1..]);
      forall i | 0 <= i < |items| ensures Pool(items)[i] == (items[i].key, items[i].value) {
        if i > 0 {
          assert items[i] == items[1..][i - 1];
        }
      }
    }
  }

  twostate lemma SamePool(items: seq<Item>)
    requires forall i :: 0 <= i < |items| ==> items[i].value == old(items[i].value)
    ensures Pool(items) == old(Pool(items))
  {
    if items != [] {
      SamePool(items[1..]);
    }
  }

  twostate lemma FirstWritten(items: seq<Item>)
    requires items != [] && forall i :: 0 < i < |items| ==> items[i].value == old(items[i].value)
    ensures Pool(items) == old(Pool(items))[0 := (items[0].key, items[0].value)]
  {
    SamePool(items[1..]);
    assert Pool(items) == [(items[0].key, items[0].value)] + Pool(items[1..]);
  }

  /** list::erase at an iterator. */
  function Unlinked(items: seq<Item>, item: Item): (rest: seq<Item>)
  {
    if items == [] then [] else if items[0] == item then items[1..] else [items[0]] + Unlinked(items[1..], item)
  }

  lemma {:induction false} UnlinkedHolds(items: seq<Item>, item: Item)
    ensures forall x :: x in Unlinked(items, item) ==> x in items
    ensures forall x :: x in items && x != item ==> x in Unlinked(items, item)
  {
    if items != [] {
      assert items == [items[0]] + items[1..];
      if items[0] != item {
        UnlinkedHolds(items[1..], item);
      }
    }
  }

  ghost predicate UniqueItems(items: seq<Item>) {
    forall i, j :: 0 <= i < j < |items| ==> items[i].key != items[j].key
  }

  lemma ConsIsUnique(item: Item, items: seq<Item>)
    requires UniqueItems(items) && forall i :: 0 <= i < |items| ==> items[i].key != item.key
    ensures UniqueItems([item] + items)
  {
    var longer := [item] + items;
    assert forall j :: 0 < j < |longer| ==> longer[j] == items[j - 1];
  }

  lemma {:induction false} UnlinkedOk(items: seq<Item>, item: Item)
    requires UniqueItems(items) && item in items
    ensures var rest := Unlinked(items, item);
      UniqueItems(rest) && forall i :: 0 <= i < |rest| ==> rest[i].key != item.key
  {
    if items[0] == item {
    } else {
      UnlinkedOk(items[1..], item);
      UnlinkedHolds(items[1..], item);
      var rest := Unlinked(items[1..], item);
      forall i | 0 <= i < |rest| ensures rest[i].key != items[0].key {
        assert rest[i] in items[1..];
        var j :| 0 <= j < |items[1..]| && items[1..][j] == rest[i];
        assert items[j + 1] == rest[i];
      }
      ConsIsUnique(items[0], rest);
      var k :| 0 <= k < |items| && items[k] == item;
      assert items[0].key != items[k].key;
    }
  }

  /** The index holds the keys of the list, each once, and points to their items. */
  ghost predicate Indexed(items: seq<Item>, index: map<Key, Item>) {
    && UniqueItems(items)
    && (forall i :: 0 <= i < |items| ==> items[i].key in index && index[items[i].key] == items[i])
    && (forall k :: k in index ==> index[k] in items && index[k].key == k)
  }

  lemma IndexedFront(items: seq<Item>, index: map<Key, Item>, item: Item)
    requires Indexed(items, index) && item.key !in index
    ensures Indexed([item] + items, index[item.key := item])
  {
    ConsIsUnique(item, items);
  }

  lemma IndexedWithoutLast(items: seq<Item>, index: map<Key, Item>)
    requires Indexed(items, index) && items != []
    ensures Indexed(items[..|items| - 1], index - {items[|items| - 1].key})
  {
    var last := items[|items| - 1];
    assert items == items[..|items| - 1] + [last];
  }

  lemma LinkedOk(items: seq<Item>, index: map<Key, Item>, item: Item, longer: seq<Item>, wider: map<Key, Item>)
    requires Indexed(items, index) && item.key !in index
    requires longer == [item] + items && wider == index[item.key := item]
    ensures Indexed(longer, wider) && Pool(longer) == [(item.key, item.value)] + Pool(items)
    ensures longer != [] && longer[0] == item
  {
    IndexedFront(items, index, item);
    FrontPool(item, items);
  }

  lemma FrontPool(item: Item, items: seq<Item>)
    ensures Pool([item] + items) == [(item.key, item.value)] + Pool(items)
  {
    assert ([item] + items)[1..] == items;
  }

  lemma IndexedUnlinked(items: seq<Item>, index: map<Key, Item>, item: Item)
    requires Indexed(items, index) && item in items
    ensures Indexed(Unlinked(items, item), index - {item.key})
  {
    UnlinkedOk(items, item);
    UnlinkedHolds(items, item);
    var rest, less := Unlinked(items, item), index - {item.key};
    forall i | 0 <= i < |rest|
      ensures rest[i].key in less && less[rest[i].key] == rest[i]
    {
      assert rest[i] in rest;
      var j :| 0 <= j < |items| && items[j] == rest[i];
      assert items[j].key in index;
    }
    forall k | k in less
      ensures less[k] in rest && less[k].key == k
    {
      assert index[k] in items && index[k] != item;
    }
  }

  lemma {:induction false} PoolCut(items: seq<Item>, n: nat)
    requires n <= |items|
    ensures Pool(items[..n]) == Pool(items)[..n]
  {
    PoolAt(items);
    PoolAt(items[..n]);
  }

  lemma {:induction false} PoolUnlinked(items: seq<Item>, item: Item)
    requires UniqueItems(items) && item in items
    ensures Pool(Unlinked(items, item)) == Without(Pool(items), item.key)
  {
    if items[0] != item {
      assert items == [items[0]] + items[1..];
      PoolUnlinked(items[1..], item);
    }
  }

  lemma {:induction false} ValueOfItem(items: seq<Item>, item: Item)
    requires UniqueItems(items) && item in items
    ensures Has(Pool(items), item.key) && ValueAt(Pool(items), item.key) == item.value
  {
    var i :| 0 <= i < |items| && items[i] == item;
    PoolAt(items);
    assert Pool(items)[i].0 == item.key;
    if items[0] != item {
      assert items == [items[0]] + items[1..];
      ValueOfItem(items[1..], item);
    }
  }

  lemma Relinked(items: seq<Item>, index: map<Key, Item>, it: Item, item: Item, longer: seq<Item>, wider: map<Key, Item>)
    requires Indexed(items, index) && it in items && item.key == it.key && item.value == it.value
    requires longer == [item] + Unlinked(items, it) && wider == index[it.key := item]
    ensures Indexed(longer, wider)
    ensures Has(Pool(items), it.key)
    ensures Pool(longer) == [(it.key, ValueAt(Pool(items), it.key))] + Without(Pool(items), it.key)
  {
    ValueOfItem(items, it);
    IndexedUnlinked(items, index, it);
    PoolUnlinked(items, it);
    assert (index - {it.key})[it.key := item] == wider;
    LinkedOk(Unlinked(items, it), index - {it.key}, item, longer, wider);
  }

  class LruCacheObject {
    var itemPool: seq<Item>
    var indexMap: map<Key, Item>
    var cacheSize: nat

    ghost predicate Valid()
      reads this
    {
      Indexed(itemPool, indexMap)
    }

    ghost function State(): Cache
      reads this`itemPool, this`cacheSize, itemPool`value
    {
      Cache(Pool(itemPool), cacheSize)
    }

    constructor ()
      ensures Valid() && State() == Cache([], 10000)
    {
      itemPool, indexMap, cacheSize := [], map[], 10000;
    }

    lemma IndexIsHas(key: Key)
      requires Valid()
      ensures key in indexMap <==> Has(State().pool, key)
    {
      PoolAt(itemPool);
      if key in indexMap {
        var i :| 0 <= i < |itemPool| && itemPool[i] == indexMap[key];
        assert State().pool[i].0 == key;
      }
    }

    method DropLast()
      requires Valid() && itemPool != []
      modifies this`itemPool, this`indexMap
      ensures Valid() && itemPool == old(itemPool)[..|old(itemPool)| - 1]
    {
      var last := itemPool[|itemPool| - 1];
      IndexedWithoutLast(itemPool, indexMap);
      indexMap := indexMap - {last.key};
      itemPool := itemPool[..|itemPool| - 1];
    }

    /** The loop that throws out the last items. */
    method Evict()
      requires Valid()
      modifies this`itemPool, this`indexMap
      ensures Valid() && State() == Cut(old(State()))
      ensures cacheSize >= 1 && old(itemPool) != [] ==> itemPool != [] && itemPool[0] == old(itemPool)[0]
    {
      ghost var all, pool := itemPool, Pool(itemPool);
      assert pool[..|pool|] == pool;
      while |itemPool| > cacheSize
        invariant Valid() && |itemPool| <= |all| && itemPool == all[..|itemPool|]
        invariant |itemPool| == |all| || |itemPool| >= cacheSize
        decreases |itemPool|
      {
        DropOne(all);
      }
      PoolCut(all, |itemPool|);
    }

    /** One turn of the loop, seen from the list as it was before the first. */
    method DropOne(ghost all: seq<Item>)
      requires Valid() && itemPool != [] && |itemPool| <= |all| && itemPool == all[..|itemPool|]
      modifies this`itemPool, this`indexMap
      ensures Valid() && |itemPool| == |old(itemPool)| - 1 && itemPool == all[..|itemPool|]
    {
      DropLast();
      assert all[..|itemPool| + 1][..|itemPool|] == all[..|itemPool|];
    }

    method LinkFront(item: Item)
      requires Valid() && item.key !in indexMap
      modifies this`itemPool, this`indexMap
      ensures Valid() && itemPool != [] && itemPool[0] == item
      ensures Pool(itemPool) == [(item.key, item.value)] + old(Pool(itemPool))
    {
      var longer, wider := [item] + itemPool, indexMap[item.key := item];
      LinkedOk(itemPool, indexMap, item, longer, wider);
      itemPool, indexMap := longer, wider;
      SamePool(longer);
    }

    /** A new item at the front of the list; items at the end may have to go. */
    method AddFront(key: Key, value: Value) returns (item: Item)
      requires Valid() && key !in indexMap && cacheSize >= 1
      modifies this`itemPool, this`indexMap
      ensures Valid() && State() == Insert(old(State()), key, value)
      ensures fresh(item) && itemPool != [] && itemPool[0] == item && item.key == key
    {
      item := new Item(key, value);
      LinkFront(item);
      Evict();
      item := indexMap[key];
    }

    /** A key that is there: its item is made anew at the front. */
    method Reorder(key: Key) returns (item: Item)
      requires Valid() && key in indexMap
      modifies this`itemPool, this`indexMap
      ensures Valid() && Has(old(State()).pool, key) && State() == MoveToFront(old(State()), key)
      ensures fresh(item) && itemPool != [] && itemPool[0] == item && item.key == key
    {
      var it := indexMap[key];
      item := new Item(key, it.value);
      Relink(it, item);
    }

    /** The item of a key gives way to a new one at the front with the same key and value. */
    method Relink(it: Item, item: Item)
      requires Valid() && it in itemPool && item.key == it.key && item.value == it.value
      modifies this`itemPool, this`indexMap
      ensures Valid() && itemPool != [] && itemPool[0] == item
      ensures Has(old(State()).pool, it.key) && State() == MoveToFront(old(State()), it.key)
    {
      var longer, index := [item] + Unlinked(itemPool, it), indexMap[it.key := item];
      Relinked(itemPool, indexMap, it, item, longer, index);
      itemPool, indexMap := longer, index;
      SamePool(longer);
    }

    /** get without a fetch action. */
    method GetOrMake(key: Key) returns (item: Item)
      requires Valid() && cacheSize >= 1
      modifies this
      ensures Valid() && State() == Touch(old(State()), key)
      ensures fresh(item) && itemPool != [] && itemPool[0] == item && item.key == key
    {
      IndexIsHas(key);
      if key !in indexMap {
        item := AddFront(key, EMPTY_VALUE);
      } else {
        item := Reorder(key);
      }
    }

    method Get(key: Key, fetch: Fetch, ghost high: nat) returns (item: Item)
      requires Valid() && Fits(State(), 1, high) && (fetch.Fetch? ==> SizesIn(fetch.ops, 1, high))
      modifies this
      ensures Valid() && State() == GetIn(old(State()), key, fetch)
      ensures item in itemPool && item.key == key
      decreases fetch, 1
    {
      IndexIsHas(key);
      if key !in indexMap && fetch.Fetch? {
        RunFits(State(), fetch.ops, 1, high);
        RunAll(fetch.ops, high);
        IndexIsHas(key);
        if key in indexMap {
          return indexMap[key];
        }
        item := AddFront(key, fetch.value);
      } else {
        item := GetOrMake(key);
      }
    }

    method Put(key: Key, value: Value)
      requires Valid() && cacheSize >= 1
      modifies this
      ensures Valid() && State() == PutIn(old(State()), key, value)
    {
      var item := GetOrMake(key);
      label written:
      item.value := value;
      FirstWritten@written(itemPool);
    }

    method EraseKey(key: Key)
      requires Valid()
      modifies this
      ensures Valid() && State() == old(State()).(pool := Without(old(State()).pool, key))
    {
      IndexIsHas(key);
      if key in indexMap {
        Unlink(indexMap[key]);
      } else {
        WithoutNothing(State().pool, key);
      }
    }

    method Unlink(it: Item)
      requires Valid() && it in itemPool
      modifies this`itemPool, this`indexMap
      ensures Valid() && Pool(itemPool) == Without(old(Pool(itemPool)), it.key)
    {
      IndexedUnlinked(itemPool, indexMap, it);
      PoolUnlinked(itemPool, it);
      var rest := Unlinked(itemPool, it);
      itemPool := rest;
      indexMap := indexMap - {it.key};
      SamePool(rest);
    }

    method Contains(key: Key) returns (found: bool)
      requires Valid()
      ensures found <==> Has(State().pool, key)
    {
      IndexIsHas(key);
      found := key in indexMap;
    }

    method ClearAll()
      requires Valid()
      modifies this
      ensures Valid() && State() == old(State()).(pool := [])
    {
      itemPool, indexMap := [], map[];
    }

    method SetCacheSize(size: nat)
      requires Valid()
      modifies this
      ensures Valid() && State() == old(State()).(size := size)
    {
      cacheSize := size;
    }

    method ApplyOne(op: Op, ghost high: nat)
      requires Valid() && Fits(State(), 1, high) && OpSizesIn(op, 1, high)
      modifies this
      ensures Valid() && State() == Apply(old(State()), op)
      decreases op, 0
    {
      match op {
        case Get(key, fetch) => var _ := Get(key, fetch, high);
        case Put(key, value) => Put(key, value);
        case Erase(key) => EraseKey(key);
        case Clear => ClearAll();
        case SetSize(size) => SetCacheSize(size);
      }
    }

    /** What a fetch action does to the cache before it returns its value. */
    method RunAll(ops: seq<Op>, ghost high: nat)
      requires Valid() && Fits(State(), 1, high) && SizesIn(ops, 1, high)
      modifies this
      ensures Valid() && State() == Run(old(State()), ops)
      decreases ops, 0
    {
      if ops != [] {
        ApplyFits(State(), ops[0], 1, high);
        ApplyOne(ops[0], high);
        RunAll(ops[1..], high);
      }
    }
  }
}
