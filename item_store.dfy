/**
  The item writer a converter hands its items to. `createItem` hands out a
  fresh identifier; `store` sends the item, as it is at that moment, to the
  target database, which the model records as an append to `stored`.
 */
module ItemStore {
  import opened JavaText
  import opened Items

  /** One call of `store`: the item's id and its content when it was stored. */
  datatype Stored = Stored(id: ItemId, item: Item)

  /** `cache.get(key)`: null when the key is missing. */
  function Lookup<K>(cache: map<K, ItemId>, key: K): Option<ItemId> {
    if key in cache then Some(cache[key]) else None
  }

  /** Every cached id names an existing item of the cache's class. */
  predicate CachedAs<K>(cache: map<K, ItemId>, items: map<ItemId, Item>, className: string) {
    forall k :: k in cache ==> cache[k] in items && items[cache[k]].className == className
  }

  /** A cache only grows, and an entry, once made, is never replaced. */
  ghost predicate Extends<K>(before: map<K, ItemId>, after: map<K, ItemId>) {
    forall k :: k in before ==> k in after && after[k] == before[k]
  }

  /** Every item survives, unchanged. */
  ghost predicate Kept(before: map<ItemId, Item>, after: map<ItemId, Item>) {
    forall id :: id in before ==> id in after && after[id] == before[id]
  }

  /** What a run of first-write-wins calls leaves, call `j` asking for key
      `calls[j].0` with `calls[j].1` as the item to create: each key holds
      the item of the first call that asked for it. */
  function FirstOf<K>(calls: seq<(K, Item)>): map<K, Item>
    decreases |calls|
  {
    if calls == [] then map[]
    else
      var before := FirstOf(calls[..|calls| - 1]);
      var last := calls[|calls| - 1];
      if last.0 in before then before else before[last.0 := last.1]
  }

  /** The keys are exactly those asked for. */
  lemma {:induction false} FirstOfKeys<K>(calls: seq<(K, Item)>, k: K)
    ensures k in FirstOf(calls) <==> exists j :: 0 <= j < |calls| && calls[j].0 == k
    decreases |calls|
  {
    if calls != [] {
      var init := calls[..|calls| - 1];
      FirstOfKeys(init, k);
      if k in FirstOf(init) {
        var j :| 0 <= j < |init| && init[j].0 == k;
        assert calls[j].0 == k;
      }
      if exists j :: 0 <= j < |calls| && calls[j].0 == k {
        var j :| 0 <= j < |calls| && calls[j].0 == k;
        if j < |init| {
          assert init[j].0 == k;
        }
      }
    }
  }

  /** A key holds the item of the first call that asked for it; later calls
      with the same key change nothing. */
  lemma {:induction false} FirstOfFirst<K>(calls: seq<(K, Item)>, j: nat)
    requires j < |calls| && forall i :: 0 <= i < j ==> calls[i].0 != calls[j].0
    ensures calls[j].0 in FirstOf(calls) && FirstOf(calls)[calls[j].0] == calls[j].1
    decreases |calls|
  {
    var init := calls[..|calls| - 1];
    if j < |calls| - 1 {
      assert init[j] == calls[j];
      FirstOfFirst(init, j);
    } else {
      FirstOfKeys(init, calls[j].0);
      assert forall i :: 0 <= i < |init| ==> init[i].0 == calls[i].0;
    }
  }

  /** A first-write-wins cache after a run of calls whose first items are
      `first`: every key asked for is cached, no entry is replaced, and a key
      new to the cache holds a fresh item, the one its first call made. */
  ghost predicate FirstWins<K>(cache0: map<K, ItemId>, items0: map<ItemId, Item>,
                               cache: map<K, ItemId>, items: map<ItemId, Item>, first: map<K, Item>)
  {
    Extends(cache0, cache)
    && (forall k :: k in first ==> k in cache)
    && (forall k :: k in cache && k !in cache0 ==>
          k in first && cache[k] !in items0 && cache[k] in items && items[cache[k]] == first[k])
  }

  /** No call yet: the cache is as it was. */
  lemma FirstWinsStart<K>(cache0: map<K, ItemId>, items0: map<ItemId, Item>)
    ensures FirstWins(cache0, items0, cache0, items0, FirstOf<K>([]))
  {
  }

  /** One more call: a cached key changes nothing; a new key caches a fresh
      item made from the call. */
  lemma FirstWinsStep<K>(cache0: map<K, ItemId>, items0: map<ItemId, Item>, cache: map<K, ItemId>,
                         items: map<ItemId, Item>, cache2: map<K, ItemId>, items2: map<ItemId, Item>,
                         calls: seq<(K, Item)>, key: K, item: Item, id: ItemId)
    requires FirstWins(cache0, items0, cache, items, FirstOf(calls))
    requires key in cache ==> cache2 == cache && items2 == items
    requires key !in cache ==>
               id !in items && (forall x :: x in items0 ==> x in items)
               && cache2 == cache[key := id] && items2 == items[id := item]
    ensures FirstWins(cache0, items0, cache2, items2, FirstOf(calls + [(key, item)]))
  {
    var calls2 := calls + [(key, item)];
    assert calls2[..|calls2| - 1] == calls;
    var first := FirstOf(calls);
    if key in cache {
      assert FirstOf(calls2) == if key in first then first else first[key := item];
    } else {
      assert FirstOf(calls2) == first[key := item];
    }
  }

  /** Items that all survive leave the cache's story as it was. */
  lemma FirstWinsKept<K>(cache0: map<K, ItemId>, items0: map<ItemId, Item>, cache: map<K, ItemId>,
                         items: map<ItemId, Item>, items2: map<ItemId, Item>, first: map<K, Item>)
    requires FirstWins(cache0, items0, cache, items, first) && Kept(items, items2)
    ensures FirstWins(cache0, items0, cache, items2, first)
  {
  }

  /** Writing into an item that existed before the calls leaves the cache's
      story as it was: every item the calls created is new. */
  lemma FirstWinsUpdate<K>(cache0: map<K, ItemId>, items0: map<ItemId, Item>, cache: map<K, ItemId>,
                           items: map<ItemId, Item>, first: map<K, Item>, id: ItemId, item: Item)
    requires FirstWins(cache0, items0, cache, items, first) && id in items0
    ensures FirstWins(cache0, items0, cache, items[id := item], first)
  {
  }

  /** Every reference of an item points at an item of `ids`. */
  predicate RefsWithin(item: Item, ids: set<ItemId>) {
    forall n :: n in item.refs ==> item.refs[n] in ids
  }

  /** Every entry of a cache names an existing item. */
  predicate CachedIn<K>(cache: map<K, ItemId>, items: map<ItemId, Item>) {
    forall k :: k in cache ==> cache[k] in items
  }

  /** `order` lists every key of `keys` exactly once. */
  ghost predicate Enumerates<K(!new)>(order: seq<K>, keys: set<K>) {
    (forall i, j :: 0 <= i < j < |order| ==> order[i] != order[j])
    && (forall k :: k in order <==> k in keys)
  }

  /** What a flush of a cache stores when it visits the keys in `order`. */
  function Flushed<K>(items: map<ItemId, Item>, cache: map<K, ItemId>, order: seq<K>): (r: seq<Stored>)
    requires forall k :: k in order ==> k in cache && cache[k] in items
    ensures |r| == |order|
    ensures forall i :: 0 <= i < |order| ==> r[i] == Stored(cache[order[i]], items[cache[order[i]]])
  {
    if order == [] then []
    else Flushed(items, cache, order[..|order| - 1]) + [Stored(cache[order[|order| - 1]], items[cache[order[|order| - 1]]])]
  }

  lemma FlushedSnoc<K>(items: map<ItemId, Item>, cache: map<K, ItemId>, order: seq<K>, k: K)
    requires forall x :: x in order ==> x in cache && cache[x] in items
    requires k in cache && cache[k] in items
    ensures Flushed(items, cache, order + [k]) == Flushed(items, cache, order) + [Stored(cache[k], items[cache[k]])]
  {
    assert (order + [k])[..|order|] == order;
  }

  /** A flush part-way: the keys in `order` are stored, each once, after
      `log0`, and `left` holds the keys still to visit. */
  ghost predicate Flushing<K(!new)>(log0: seq<Stored>, log: seq<Stored>, items: map<ItemId, Item>,
                                    cache: map<K, ItemId>, order: seq<K>, left: set<K>)
  {
    && CachedIn(cache, items) && left <= cache.Keys
    && (forall i, j :: 0 <= i < j < |order| ==> order[i] != order[j])
    && (forall k :: k in order <==> k in cache.Keys && k !in left)
    && log == log0 + Flushed(items, cache, order)
  }

  /** Storing one more key of `left` moves it from `left` to `order`. */
  lemma FlushingStep<K(!new)>(log0: seq<Stored>, log: seq<Stored>, log2: seq<Stored>, items: map<ItemId, Item>,
                              cache: map<K, ItemId>, order: seq<K>, left: set<K>, k: K)
    requires Flushing(log0, log, items, cache, order, left) && k in left
    requires log2 == log + [Stored(cache[k], items[cache[k]])]
    ensures Flushing(log0, log2, items, cache, order + [k], left - {k})
  {
    FlushedSnoc(items, cache, order, k);
  }

  /** The records of items stored one after the other, created with
      consecutive ids from `first`. */
  function Records(first: ItemId, xs: seq<Item>): (r: seq<Stored>)
    ensures |r| == |xs|
    ensures forall i :: 0 <= i < |xs| ==> r[i] == Stored(first + i, xs[i])
  {
    seq(|xs|, i requires 0 <= i < |xs| => Stored(first + i, xs[i]))
  }

  lemma RecordsSnoc(first: ItemId, xs: seq<Item>, x: Item)
    ensures Records(first, xs + [x]) == Records(first, xs) + [Stored(first + |xs|, x)]
  {
  }

  lemma RecordsAppend(first: ItemId, xs: seq<Item>, ys: seq<Item>)
    ensures Records(first, xs + ys) == Records(first, xs) + Records(first + |xs|, ys)
  {
  }

  /** A log that recorded `xs` and then `x` has recorded `xs + [x]`. */
  lemma RecordsLogSnoc(log0: seq<Stored>, log1: seq<Stored>, log2: seq<Stored>, first: ItemId,
                       xs: seq<Item>, id: ItemId, x: Item)
    requires log1 == log0 + Records(first, xs) && id == first + |xs| && log2 == log1 + [Stored(id, x)]
    ensures log2 == log0 + Records(first, xs + [x])
  {
    RecordsSnoc(first, xs, x);
  }

  /** A log that recorded `xs` and then `ys` has recorded `xs + ys`. */
  lemma RecordsExtend(log0: seq<Stored>, log1: seq<Stored>, log2: seq<Stored>, first: ItemId,
                      xs: seq<Item>, mid: ItemId, ys: seq<Item>)
    requires log1 == log0 + Records(first, xs) && mid == first + |xs| && log2 == log1 + Records(mid, ys)
    ensures log2 == log0 + Records(first, xs + ys)
  {
    RecordsAppend(first, xs, ys);
  }

  class Writer {
    var items: map<ItemId, Item>
    var nextId: ItemId
    var stored: seq<Stored>

    /** Ids are handed out in increasing order, no reference dangles, and
        only existing items are stored. */
    ghost predicate Valid()
      reads this
    {
      (forall id :: id in items ==> id < nextId)
      && (forall id :: id in items ==> RefsWithin(items[id], items.Keys))
      && (forall k :: 0 <= k < |stored| ==> stored[k].id in items)
    }

    constructor()
      ensures Valid()
      ensures items == map[] && nextId == 0 && stored == []
    {
      items := map[];
      nextId := 0;
      stored := [];
    }

    /** `createItem` followed by the attribute and reference setters: the item
        gets the next id and nothing is stored. */
    method Create(item: Item) returns (id: ItemId)
      requires Valid() && RefsWithin(item, items.Keys)
      modifies this
      ensures Valid()
      ensures id == old(nextId) && id !in old(items)
      ensures items == old(items)[id := item] && nextId == id + 1
      ensures stored == old(stored)
    {
      id := nextId;
      items := items[id := item];
      nextId := nextId + 1;
    }

    /** `createItem` alone: the id is taken before the item's values are known. */
    method Reserve() returns (id: ItemId)
      requires Valid()
      modifies this
      ensures Valid()
      ensures id == old(nextId) && id !in items && nextId == id + 1
      ensures items == old(items) && stored == old(stored)
    {
      id := nextId;
      nextId := nextId + 1;
    }

    /** The setters of an item whose id was reserved. */
    method Fill(id: ItemId, item: Item)
      requires Valid() && id < nextId && id !in items && RefsWithin(item, items.Keys + {id})
      modifies this
      ensures Valid()
      ensures items == old(items)[id := item]
      ensures nextId == old(nextId) && stored == old(stored)
    {
      items := items[id := item];
    }

    /** Setters called on an item that already exists. */
    method Update(id: ItemId, item: Item)
      requires Valid() && id in items && RefsWithin(item, items.Keys)
      modifies this
      ensures Valid()
      ensures items == old(items)[id := item]
      ensures nextId == old(nextId) && stored == old(stored)
    {
      items := items[id := item];
    }

    /** `store(item)`: exactly one append, of the item as it is now. */
    method Store(id: ItemId)
      requires Valid() && id in items
      modifies this
      ensures Valid()
      ensures items == old(items) && nextId == old(nextId)
      ensures stored == old(stored) + [Stored(id, items[id])]
    {
      stored := stored + [Stored(id, items[id])];
    }

    /** `for (Item item : cache.values()) store(item)`: one store per entry, in
        the map's iteration order, which the model leaves open. */
    method StoreAll<K(!new)>(cache: map<K, ItemId>) returns (order: seq<K>)
      requires Valid() && CachedIn(cache, items)
      modifies this
      ensures Valid()
      ensures items == old(items) && nextId == old(nextId)
      ensures Enumerates(order, cache.Keys)
      ensures stored == old(stored) + Flushed(items, cache, order)
    {
      order := [];
      var left := cache.Keys;
      while left != {}
        invariant Valid() && items == old(items) && nextId == old(nextId)
        invariant Flushing(old(stored), stored, items, cache, order, left)
        decreases left
      {
        var k :| k in left;
        ghost var log := stored;
        Store(cache[k]);
        FlushingStep(old(stored), log, stored, items, cache, order, left, k);
        order := order + [k];
        left := left - {k};
      }
    }
  }
}
