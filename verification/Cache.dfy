/** The client cache: a hash map of items and a deque of ids, proved against LruSpec. */
module LruCache {
  import opened Wrappers
  import opened LruSpec
  import opened Sets

  /** Pairs of an id listing and the items they index. */
  function Pairs<T>(lru: seq<int>, items: map<int, T>): (r: Listing<T>)
    requires forall i :: 0 <= i < |lru| ==> lru[i] in items
    ensures |r| == |lru|
  {
    seq(|lru|, i requires 0 <= i < |lru| => Entry(lru[i], items[lru[i]]))
  }

  ghost predicate Lists<T>(lru: seq<int>, items: map<int, T>) {
    && Distinct(lru)
    && (forall i :: 0 <= i < |lru| ==> lru[i] in items)
    && (forall id :: id in items ==> id in lru)
  }

  function Erased(lru: seq<int>, i: nat): seq<int>
    requires i < |lru|
  {
    lru[..i] + lru[i + 1..]
  }

  lemma {:induction false} ErasedIsWithout<T>(lru: seq<int>, items: map<int, T>, i: nat)
    requires i < |lru| && Distinct(lru)
    requires forall j :: 0 <= j < |lru| ==> lru[j] in items
    ensures Pairs(Erased(lru, i), items) == Without(Pairs(lru, items), lru[i])
  {
    var l := Pairs(lru, items);
    assert l[1..] == Pairs(lru[1..], items);
    if i == 0 {
      assert Erased(lru, 0) == lru[1..];
      NotListed(l[1..], lru[0]);
    } else {
      assert Erased(lru, i) == [lru[0]] + Erased(lru[1..], i - 1);
      ErasedIsWithout(lru[1..], items, i - 1);
      assert Pairs(Erased(lru, i), items) == [l[0]] + Pairs(Erased(lru[1..], i - 1), items);
    }
  }

  lemma NotListed<T>(l: Listing<T>, id: int)
    requires forall j :: 0 <= j < |l| ==> l[j].id != id
    ensures Without(l, id) == l
  {
    WithoutMembers(l, id);
  }

  lemma {:induction false} LookupListed<T>(lru: seq<int>, items: map<int, T>, id: int)
    requires forall j :: 0 <= j < |lru| ==> lru[j] in items
    ensures Lookup(Pairs(lru, items), id) == if id in lru then Some(items[id]) else None
  {
    if lru != [] {
      assert Pairs(lru, items)[1..] == Pairs(lru[1..], items);
      LookupListed(lru[1..], items, id);
      assert lru == [lru[0]] + lru[1..];
    }
  }

  lemma ListsSize<T>(lru: seq<int>, items: map<int, T>)
    requires Lists(lru, items)
    ensures |lru| == |items|
  {
    forall id: int | id in items.Keys ensures id in lru {
      assert id in items;
    }
    EnumerationSize(lru, items.Keys);
  }

  lemma EraseKeeps<T>(lru: seq<int>, items: map<int, T>, i: nat)
    requires Lists(lru, items) && i < |lru|
    ensures Distinct(Erased(lru, i))
    ensures forall id :: id in items && id != lru[i] <==> id in Erased(lru, i)
  {
    var r := Erased(lru, i);
    forall id | id in lru && id != lru[i] ensures id in r {
      var j :| 0 <= j < |lru| && lru[j] == id;
      if j < i {
        assert r[j] == id;
      } else {
        assert r[j - 1] == id;
      }
    }
  }

  lemma FrontLists<T>(rest: seq<int>, items: map<int, T>, id: int)
    requires Distinct(rest) && id !in rest
    requires forall k :: k in items <==> k == id || k in rest
    ensures Lists([id] + rest, items)
  {
    var lru := [id] + rest;
    forall i | 0 <= i < |lru| ensures lru[i] in items {
      if i > 0 {
        assert lru[i] == rest[i - 1];
        assert lru[i] in rest;
      }
    }
    forall i, j | 0 <= i < j < |lru| ensures lru[i] != lru[j] {
      assert lru[j] == rest[j - 1];
      if i > 0 {
        assert lru[i] == rest[i - 1];
      }
    }
  }

  lemma SizeWith<T>(items: map<int, T>, id: int, item: T)
    ensures |items[id := item]| == |items| + if id in items then 0 else 1
  {
    if id in items {
      assert items[id := item].Keys == items.Keys;
    } else {
      assert items[id := item].Keys == items.Keys + {id};
    }
  }

  lemma PushedIs<T>(l: Listing<T>, id: int, item: T)
    ensures Pushed(l, id, item) == [Entry(id, item)] + Without(l, id)
  {
  }

  lemma StoredIs<T>(l: Listing<T>, id: int, item: T, maxSize: nat)
    ensures var m := Pushed(l, id, item);
            Stored(l, id, item, maxSize) == if |m| > maxSize then m[..|m| - 1] else m
  {
  }

  /** The items after the victim of a put, if there is one, has left. */
  function Released<T>(items: map<int, T>, victim: Option<int>): map<int, T> {
    match victim
    case None => items
    case Some(v) => items - {v}
  }

  class Cache<T> {
    const maxSize: nat
    /** `T(0, -1)`, what a miss hands out. */
    const nothing: T
    var cacheItems: map<int, T>
    var lruTable: seq<int>

    /** `lru_table` lists exactly the keys of `cache_items`, once each. */
    ghost predicate Valid()
      reads this
    {
      Lists(lruTable, cacheItems) && |lruTable| <= maxSize
    }

    /** The cache as a list, most recent first. */
    ghost function Contents(): Listing<T>
      requires Lists(lruTable, cacheItems)
      reads this
    {
      Pairs(lruTable, cacheItems)
    }

    /** The id that a put of `id` pushes out: none for a cached id or with a slot free, and
        the new id itself where there is no slot at all. */
    ghost function Victim(id: int): Option<int>
      reads this
    {
      if id in cacheItems || |cacheItems| < maxSize then None
      else if lruTable == [] then Some(id)
      else Some(lruTable[|lruTable| - 1])
    }

    constructor (maxSize: nat, nothing: T)
      ensures Valid() && this.maxSize == maxSize && this.nothing == nothing
      ensures Contents() == [] && cacheItems == map[]
    {
      this.maxSize, this.nothing := maxSize, nothing;
      cacheItems, lruTable := map[], [];
    }

    /** std::find_if over the deque. */
    method FindInTable(id: int) returns (it: nat)
      ensures it <= |lruTable|
      ensures it < |lruTable| ==> lruTable[it] == id
      ensures it == |lruTable| ==> id !in lruTable
    {
      it := 0;
      while it < |lruTable| && lruTable[it] != id
        invariant it <= |lruTable| && id !in lruTable[..it]
      {
        it := it + 1;
      }
    }

    method Get(id: int) returns (item: T)
      requires Valid()
      modifies this`lruTable
      ensures Valid() && Contents() == Touched(old(Contents()), id)
      ensures item == if id in cacheItems then cacheItems[id] else nothing
      ensures id !in cacheItems ==> lruTable == old(lruTable)
    {
      LookupListed(lruTable, cacheItems, id);
      if id !in cacheItems {
        return nothing;
      }
      var it := FindInTable(id);
      ErasedIsWithout(lruTable, cacheItems, it);
      EraseKeeps(lruTable, cacheItems, it);
      var itemId := lruTable[it];
      lruTable := lruTable[..it] + lruTable[it + 1..];
      FrontLists(lruTable, cacheItems, id);
      ghost var rest := Pairs(lruTable, cacheItems);
      lruTable := [itemId] + lruTable;
      assert Contents() == [Entry(id, cacheItems[id])] + rest;
      ListsSize(lruTable, cacheItems);
      ListsSize(old(lruTable), cacheItems);
      item := cacheItems[id];
    }

    /** The two erasures at the head of put. */
    method Forget(id: int)
      requires Valid()
      modifies this
      ensures Lists(lruTable, cacheItems) && id !in lruTable
      ensures cacheItems == old(cacheItems) - {id}
      ensures Contents() == Without(old(Contents()), id) && |lruTable| <= |old(lruTable)|
      ensures id !in old(cacheItems) ==> lruTable == old(lruTable)
    {
      var it := FindInTable(id);
      if it != |lruTable| && id in cacheItems {
        ErasedIsWithout(lruTable, cacheItems, it);
        EraseKeeps(lruTable, cacheItems, it);
        ghost var l := Pairs(Erased(lruTable, it), cacheItems);
        cacheItems := cacheItems - {id};
        lruTable := lruTable[..it] + lruTable[it + 1..];
        assert Contents() == l;
      } else {
        assert cacheItems - {id} == cacheItems;
        NotListed(Contents(), id);
      }
    }

    method Put(id: int, item: T) returns (evicted: T)
      requires Valid()
      modifies this
      ensures Valid() && Contents() == Stored(old(Contents()), id, item, maxSize)
      ensures var m := Pushed(old(Contents()), id, item);
              evicted == if |m| > maxSize then m[|m| - 1].item else nothing
      ensures cacheItems == Released(old(cacheItems)[id := item], old(Victim(id)))
    {
      hide Lists, Pairs, Pushed, Stored, Contents, Released, Victim;
      StoredIs(Contents(), id, item, maxSize);
      ghost var out;
      PushFront(id, item);
      evicted, out := Trim();
    }

    /** Everything of put up to the eviction. */
    method PushFront(id: int, item: T)
      requires Valid()
      modifies this
      ensures Lists(lruTable, cacheItems) && 1 <= |lruTable| <= maxSize + 1
      ensures Contents() == Pushed(old(Contents()), id, item) && cacheItems == old(cacheItems)[id := item]
      ensures old(Victim(id)) == if |cacheItems| <= maxSize then None else Some(lruTable[|lruTable| - 1])
    {
      hide Lists, Pairs, Without, Pushed, Contents;
      PushedIs(Contents(), id, item);
      ListsSize(lruTable, cacheItems);
      SizeWith(cacheItems, id, item);
      Forget(id);
      Front(id, item);
      ListsSize(lruTable, cacheItems);
    }

    /** Evicts if that is needed. */
    method Trim() returns (evicted: T, ghost out: Option<int>)
      requires Lists(lruTable, cacheItems) && 1 <= |lruTable| <= maxSize + 1
      modifies this
      ensures Valid()
      ensures var m := old(Contents());
              && Contents() == (if |m| > maxSize then m[..|m| - 1] else m)
              && evicted == if |m| > maxSize then m[|m| - 1].item else nothing
      ensures out == if |old(cacheItems)| <= maxSize then None else Some(old(lruTable)[|old(lruTable)| - 1])
      ensures cacheItems == Released(old(cacheItems), out)
    {
      hide Lists, Pairs;
      ListsSize(lruTable, cacheItems);
      if |cacheItems| > maxSize {
        out := Some(lruTable[|lruTable| - 1]);
        evicted := EvictBack();
      } else {
        out := None;
        evicted := nothing;
      }
    }

    method Front(id: int, item: T)
      requires Lists(lruTable, cacheItems) && id !in lruTable
      modifies this
      ensures Lists(lruTable, cacheItems) && lruTable == [id] + old(lruTable)
      ensures cacheItems == old(cacheItems)[id := item]
      ensures Contents() == [Entry(id, item)] + old(Contents())
    {
      lruTable := [id] + lruTable;
      cacheItems := cacheItems[id := item];
      FrontLists(old(lruTable), cacheItems, id);
    }

    method EvictBack() returns (evicted: T)
      requires Lists(lruTable, cacheItems) && lruTable != []
      modifies this
      ensures Lists(lruTable, cacheItems) && lruTable == old(lruTable)[..|old(lruTable)| - 1]
      ensures Contents() == old(Contents())[..|old(lruTable)| - 1]
      ensures evicted == old(Contents())[|old(lruTable)| - 1].item
      ensures cacheItems == old(cacheItems) - {old(lruTable)[|old(lruTable)| - 1]}
    {
      var back := lruTable[|lruTable| - 1];
      EraseKeeps(lruTable, cacheItems, |lruTable| - 1);
      assert Erased(lruTable, |lruTable| - 1) == lruTable[..|lruTable| - 1];
      lruTable := lruTable[..|lruTable| - 1];
      evicted := cacheItems[back];
      cacheItems := cacheItems - {back};
    }

    method Clear()
      modifies this
      ensures Valid() && Contents() == [] && cacheItems == map[]
    {
      cacheItems := map[];
      lruTable := [];
    }

    method Empty() returns (r: bool)
      ensures r <==> cacheItems == map[]
    {
      r := |cacheItems| == 0;
    }

    /** `get()`: whatever the hash map enumerates first. */
    method First() returns (id: int, item: T)
      requires cacheItems != map[]
      ensures id in cacheItems && item == cacheItems[id]
    {
      ghost var some := Member(cacheItems.Keys);
      id :| id in cacheItems;
      item := cacheItems[id];
    }

    /** `pop()`: the same element leaves the map; the table keeps its id. */
    method Pop(first: int)
      requires first in cacheItems
      modifies this`cacheItems
      ensures cacheItems == old(cacheItems) - {first}
    {
      cacheItems := cacheItems - {first};
    }
  }
}
