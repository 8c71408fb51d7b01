/** The client of the search scheme: the keyword dictionary in its ORAM session, the
    documents in the sub-ORAMs, and the two entry points adj_data_in and search. */
module EncryptedSearch {
  import opened Wrappers
  import opened Powers
  import opened AvlTree
  import opened Decimal
  import opened Permutation
  import opened Padding
  import opened OdsSession
  import opened Dictionary
  import opened OramSpec
  import opened Buckets
  import opened PathOram
  import opened SubOrams
  import opened Placement
  import opened Search
  import LruCache

  // ---- the keyword index ----------------------------------------------------

  /** The index entry for the i-th sorted tuple. */
  function IndexItem(entries: seq<Entry>, first: map<Bytes, nat>, count: map<Bytes, nat>, start: int, i: nat): Item
    requires i < |entries| && entries[i].key in first && entries[i].key in count
  {
    var w := entries[i].key;
    Item(start + i, w, IndexValue(first[w], count[w]))
  }

  ghost predicate Indexable(entries: seq<Entry>, first: map<Bytes, nat>, count: map<Bytes, nat>) {
    forall i :: 0 <= i < |entries| ==> entries[i].key in first && entries[i].key in count
  }

  ghost function IndexItems(entries: seq<Entry>, first: map<Bytes, nat>, count: map<Bytes, nat>,
          start: int): (r: seq<Item>)
    requires Indexable(entries, first, count)
    ensures |r| == |entries|
    ensures forall i :: 0 <= i < |r| ==> r[i] == IndexItem(entries, first, count, start, i)
  {
    seq(|entries|, i requires 0 <= i < |entries| => IndexItem(entries, first, count, start, i))
  }

  lemma {:induction false} FirstWithKey(xs: seq<Item>, w: Bytes)
    ensures FirstWith(xs, w).None? <==> forall i :: 0 <= i < |xs| ==> xs[i].key != w
    ensures FirstWith(xs, w).Some? ==> FirstWith(xs, w).value in xs && FirstWith(xs, w).value.key == w
  {
    if xs != [] {
      FirstWithKey(xs[1..], w);
    }
  }

  /** The index the dictionary should hold: one value per keyword, none for any other. */
  ghost predicate Indexes(t: Tree, first: map<Bytes, nat>, count: map<Bytes, nat>) {
    forall w :: match Lookup(t, w)
                case None => w !in first
                case Some(x) => w in first && w in count && x.data == IndexValue(first[w], count[w])
  }

  lemma IndexesAfter(entries: seq<Entry>, first: map<Bytes, nat>, count: map<Bytes, nat>, start: int)
    requires Indexable(entries, first, count) && FirstOccurrences(entries, first)
    ensures Indexes(InsertAll(Leaf, IndexItems(entries, first, count, start)), first, count)
  {
    var xs := IndexItems(entries, first, count, start);
    forall w ensures match Lookup(InsertAll(Leaf, xs), w)
                     case None => w !in first
                     case Some(x) => w in first && w in count && x.data == IndexValue(first[w], count[w])
    {
      RunLookup(Leaf, xs, w);
      FirstWithKey(xs, w);
      hide InsertAll, FirstWith, IndexValue;
      if w in first {
        assert xs[first[w]].key == w;
      }
    }
  }

  lemma PreparedIndexable(memory0: seq<Entry>, x: nat, entries: seq<Entry>, first: map<Bytes, nat>,
          count: map<Bytes, nat>)
    requires x >= 2 && Prepared(memory0, x, entries, first, count)
    ensures Indexable(entries, first, count) && FirstOccurrences(entries, first) && entries != []
  {
    hide Occurs, Sorted, LoadedSize;
  }

  lemma PreparedSize(memory0: seq<Entry>, x: nat, entries: seq<Entry>, first: map<Bytes, nat>, count: map<Bytes, nat>)
    requires x >= 2 && Prepared(memory0, x, entries, first, count)
    ensures |entries| == LoadedSize(memory0, x)
  {
    hide Occurs, Sorted, FirstOccurrences, LoadedSize;
  }

  /** What the range sub-arrays, one set per column, ask of a table of n rows. */
  predicate ColumnsFit(columns: seq<seq<Bytes>>, n: nat, alpha: nat) {
    columns == [] || (n >= 1 && alpha <= CeilLog2(n))
  }

  lemma FreshIndex(entries: seq<Entry>, first: map<Bytes, nat>, count: map<Bytes, nat>, start: int,
          nodes: seq<Node>, store: map<int, Node>)
    requires Indexable(entries, first, count) && |nodes| == |entries| && start >= 1
    requires forall i :: 0 <= i < |nodes| ==>
              nodes[i] == Stored(Branch(IndexItem(entries, first, count, start, i), Leaf, Leaf))
    requires forall id :: id in store ==> id < start
    ensures FreshLeaves(nodes, IndexItems(entries, first, count, start), store)
  {
    hide Stored, IndexValue;
    var xs := IndexItems(entries, first, count, start);
    assert forall i :: 0 <= i < |xs| ==> xs[i].id == start + i;
  }

  // ---- frames ---------------------------------------------------------------

  /** Setting the shared limit to the size it has leaves the dictionary as it is. */
  twostate lemma DictKept(d: Dict)
    requires old(d.Valid())
    requires unchanged(d) && unchanged(d.session) && unchanged(d.session.cache)
    requires unchanged(d.session.oram) && unchanged(d.session.oram.storage)
    requires d.session.oram.limit.maxSize == old(d.session.oram.limit.maxSize)
    ensures d.Valid() && d.session.Flat() == old(d.session.Flat())
  {
    hide Oram.Valid, Oram.View, Stores, FlatOf, OdsSession.Faithful, Ordered, Balanced;
    LimitKept(d.session.oram);
  }

  // ---- the client -----------------------------------------------------------

  class SearchClient {
    const dict: Dict
    const limit: BucketLimit
    const bucketSize: nat
    const blockNumber: nat
    const alpha: nat
    const x: nat
    const codec: DocCodec
    /** The deterministic random words of the secret key. */
    const stream: nat -> nat
    var subs: seq<Oram>
    var memorySize: nat
    var nodeCount: int
    /** What was loaded: the tuples as read, padded and sorted, their index, and the filler of unused slots. */
    ghost var originals: seq<Entry>
    ghost var entries: seq<Entry>
    ghost var first: map<Bytes, nat>
    ghost var count: map<Bytes, nat>
    ghost var blank: Document

    ghost predicate Wired()
      reads dict, dict.session.cache, dict.session.oram, dict.session.oram.storage, limit
    {
      && limit == dict.session.oram.limit
      && dict.Valid()
      && |dict.session.secretKey| >= 15
      && limit.maxSize == bucketSize
      && blockNumber >= 1 && !TooSmall(bucketSize, blockNumber) && x >= 2
      && SubOrams.Faithful(codec)
    }

    /** Nothing loaded yet. */
    ghost predicate Empty()
      reads this, dict, dict.session.cache, dict.session.oram, dict.session.oram.storage, limit
    {
      && Wired()
      && subs == [] && dict.tree == Leaf && nodeCount >= 1
      && dict.session.Flat() == map[]
    }

    /** The objects of the sub-ORAMs, and those of the dictionary's session. */
    ghost function Foot(): (r: set<object>)
      reads this
      ensures this !in r && limit !in r && dict !in r
      ensures forall o :: o in subs ==> o in r && o.storage in r
    {
      Feet(subs)
    }

    ghost function DictFoot(): (r: set<object>)
      ensures this !in r && limit !in r && dict !in r
    {
      {dict.session, dict.session.cache, dict.session.oram, dict.session.oram.storage}
    }

    ghost predicate Apart()
      reads this
    {
      forall o :: o in subs ==>
        o != dict.session.oram && o.storage != dict.session.oram.storage
    }

    ghost predicate DocsThere()
      reads this, Foot(), limit
    {
      && |entries| == memorySize
      && Shelved(subs, limit, codec, dict.session.secretKey, entries, stream, alpha, blank)
    }

    ghost predicate Loaded()
      reads this, Foot()
      reads dict, dict.session.cache, dict.session.oram, dict.session.oram.storage, limit
    {
      && Wired() && Apart() && DocsThere()
      && Indexes(dict.tree, first, count)
      && |dict.session.Flat()| <= dict.session.cache.maxSize
      && Prepared(originals, x, entries, first, count) && RealIds(originals)
    }

    constructor (dict: Dict, bucketSize: nat, blockNumber: nat, alpha: nat, x: nat, codec: DocCodec, stream: nat -> nat)
      requires dict.Valid() && dict.tree == Leaf && dict.session.oram.bucketSize == bucketSize
      requires blockNumber >= 1 && !TooSmall(bucketSize, blockNumber) && x >= 2 && SubOrams.Faithful(codec)
      requires dict.session.Flat() == map[]
      ensures Empty() && this.dict == dict && this.alpha == alpha && this.x == x && this.stream == stream
    {
      this.dict, this.limit := dict, dict.session.oram.limit;
      this.bucketSize, this.blockNumber := bucketSize, blockNumber;
      this.alpha, this.x, this.codec, this.stream := alpha, x, codec, stream;
      subs, memorySize, nodeCount := [], 0, 1;
      hide Stores, FlatOf, Inv, OramSpec.View, OdsSession.Faithful, SubOrams.Faithful, TooSmall;
    }

    /** The index nodes, one per tuple, numbered on from nodeCount. */
    method BuildNodes(entries: seq<Entry>, first: map<Bytes, nat>, count: map<Bytes, nat>) returns (nodes: seq<Node>)
      requires Indexable(entries, first, count)
      modifies this`nodeCount
      ensures nodeCount == old(nodeCount) + |entries| && |nodes| == |entries|
      ensures forall i :: 0 <= i < |nodes| ==>
                nodes[i] == Stored(Branch(IndexItem(entries, first, count, old(nodeCount), i), Leaf, Leaf))
      ensures forall i :: 0 <= i < |nodes| ==>
                var w := entries[i].key;
                && nodes[i].id == old(nodeCount) + i && nodes[i].key == w
                && nodes[i].data == IndexValue(first[w], count[w])
    {
      nodes := [];
      for i := 0 to |entries|
        invariant |nodes| == i && nodeCount == old(nodeCount) + i
        invariant forall k :: 0 <= k < i ==>
                  nodes[k] == Stored(Branch(IndexItem(entries, first, count, old(nodeCount), k), Leaf, Leaf))
      {
        var iw, cntw := first[entries[i].key], count[entries[i].key];
        var node := Blank(nodeCount).(key := entries[i].key, data := IndexValue(iw, cntw));
        nodeCount := nodeCount + 1;
        nodes := nodes + [node];
      }
    }

    /** Index into the dictionary. */
    method InsertIndex(entries: seq<Entry>, first: map<Bytes, nat>, count: map<Bytes, nat>, padVal: int)
      requires Empty() && Indexable(entries, first, count) && FirstOccurrences(entries, first)
      requires |entries| <= dict.session.cache.maxSize
      modifies this`nodeCount, dict, dict.session, dict.session.cache, dict.session.oram, dict.session.oram.storage
      ensures Wired() && Indexes(dict.tree, first, count)
      ensures |dict.session.Flat()| <= dict.session.cache.maxSize
    {
      hide Session.Core, Session.Flat, Indexes, IndexItem, Ordered, Balanced, Unshared, Rep, InsertAll,
          FirstOccurrences;
      ghost var xs := IndexItems(entries, first, count, nodeCount);
      var nodes := BuildNodes(entries, first, count);
      IndexesAfter(entries, first, count, old(nodeCount));
      FreshIndex(entries, first, count, old(nodeCount), nodes, dict.session.Flat());
      RunGrows(dict.tree, xs);
      dict.InsertNodes(nodes, xs, padVal);
    }

    /** adj_oram_init: the documents shuffled into sub-arrays, a sub-ORAM for each. */
    method InitOrams(entries: seq<Entry>, blank: Document) returns (loaded: seq<Oram>)
      requires Wired() && entries != [] && memorySize == |entries| && alpha <= CeilLog2(memorySize)
      modifies limit
      ensures Wired() && dict.session.Flat() == old(dict.session.Flat())
      ensures forall o :: o in loaded ==> fresh(o) && fresh(o.storage)
      ensures Shelved(loaded, limit, codec, dict.session.secretKey, entries, stream, alpha, blank)
    {
      hide Session.Core, Session.IsClosed, Session.Flat, Unshared, Rep, Ordered, Balanced, Shelved, CeilLog2,
          TooSmall, SubOrams.Faithful;
      label before:
      loaded := PlaceAndLoad(limit, bucketSize, blockNumber, codec, dict.session.secretKey, entries, stream,
                             alpha, blank);
      DictKept@before(dict);
    }

    /** adj_insert: index, placement, sub-ORAMs. */
    method AdjInsert(entries: seq<Entry>, first: map<Bytes, nat>, count: map<Bytes, nat>, blank: Document,
            padVal: int, ghost originals: seq<Entry>)
      requires Empty() && x >= 2 && Prepared(originals, x, entries, first, count) && RealIds(originals)
      requires entries != [] && memorySize == |entries| && alpha <= CeilLog2(|entries|)
      requires |entries| <= dict.session.cache.maxSize
      modifies this, limit, dict, DictFoot()
      ensures Loaded() && this.originals == originals && memorySize == |entries|
      ensures forall o :: o in subs ==> fresh(o) && fresh(o.storage)
    {
      hide Wired, Empty, Loaded, DocsThere, Indexes, Prepared, RealIds, Shelved, CeilLog2, Session.Core, Session.Flat,
          Dict.Valid;
      PreparedIndexable(originals, x, entries, first, count);
      InsertIndex(entries, first, count, padVal);
      var loaded := InitOrams(entries, blank);
      Adopt(loaded, entries, first, count, blank, originals);
    }

    method Adopt(loaded: seq<Oram>, entries: seq<Entry>, ghost first: map<Bytes, nat>, ghost count: map<Bytes, nat>,
            ghost blank: Document, ghost originals: seq<Entry>)
      requires Wired() && |entries| == memorySize
      requires Shelved(loaded, limit, codec, dict.session.secretKey, entries, stream, alpha, blank)
      requires forall o :: o in loaded ==> o != dict.session.oram && o.storage != dict.session.oram.storage
      requires Indexes(dict.tree, first, count) && |dict.session.Flat()| <= dict.session.cache.maxSize
      requires x >= 2 && Prepared(originals, x, entries, first, count) && RealIds(originals)
      modifies this
      ensures Loaded() && this.originals == originals && memorySize == old(memorySize) && subs == loaded
    {
      hide Wired, Loaded, Indexes, Prepared, RealIds, Shelved, CeilLog2, Session.Core, Session.Flat,
          Dict.Valid;
      subs := loaded;
      this.originals, this.entries, this.first, this.count, this.blank := originals, entries, first, count, blank;
      Reloaded();
    }

    /** adj_data_in: rows read, tuples padded, sorted, indexed and placed. It fails, before
        anything is stored, where the sources would shift by a negative amount, be it for a
        column's range sub-arrays or for the whole table, or the cache could not hold the
        index. All of that can be told from the table. */
    method AdjDataIn(path: Bytes, names: seq<Bytes>, columns: seq<seq<Bytes>>, n: nat, dummyId: nat -> nat,
                     dummyKeyword: nat -> Bytes, dummyWords: nat -> seq<Bytes>, blank: Document, padVal: int)
      returns (r: Result<()>)
      requires Empty() && Rectangular(names, columns, n) && forall i :: |dummyWords(i)| == 3
      modifies this, limit, dict, DictFoot()
      ensures x >= 2
      ensures var size := LoadedSize(TableEntries(path, names, columns, n, |columns|), x);
              && memorySize == size
              && (r.Success? <==>
                  ColumnsFit(columns, n, alpha) && alpha <= CeilLog2(size) && size <= dict.session.cache.maxSize)
      ensures r.Success? ==> Loaded() && originals == TableEntries(path, names, columns, n, |columns|)
      ensures r.Success? ==> forall i :: 0 <= i < |columns| ==> ListsCells(originals, path, names, columns, n, i)
      ensures r.Success? ==> forall o :: o in subs ==> fresh(o) && fresh(o.storage)
      ensures r.Failure? ==> Empty()
    {
      hide Loaded, Wired, Prepared, RealIds, CeilLog2, LoadedSize, TableEntries, Rectangular, Session.Flat, Dict.Valid,
          Session.Core, Added, IsSortOf, Nondescending, PaddedTo, Keywords, ListsCells, ColumnEntries;
      EmptyParts();
      var memory := ReadTable(path, names, columns, n);
      TableIds(path, names, columns, n, |columns|);
      ghost var loaded;
      var entries, first, count;
      entries, first, count, loaded := Prepare(memory, x, dummyId, dummyKeyword, dummyWords);
      PreparedIndexable(memory, x, entries, first, count);
      PreparedSize(memory, x, entries, first, count);
      memorySize := |entries|;
      if !ColumnsFit(columns, n, alpha) || alpha > CeilLog2(memorySize) || memorySize > dict.session.cache.maxSize {
        return Failure(OutOfRange);
      }
      AdjInsert(entries, first, count, blank, padVal, memory);
      forall i | 0 <= i < |columns| ensures ListsCells(memory, path, names, columns, n, i) {
        CellsListed(path, names, columns, n, i);
      }
      r := Success(());
    }

    lemma EmptyParts()
      requires Empty()
      ensures x >= 2
    {
      hide Dict.Valid, Session.Flat, Session.Core, TooSmall, SubOrams.Faithful;
    }

    method ReadSubscript(base: nat, value: nat, ghost i: nat) returns (d: Document)
      requires DocsThere() && SubOrams.Faithful(codec) && i < Interval(memorySize)
      requires base == CeilLog2(memorySize) && value == Prp(memorySize, Words(memorySize, stream))[i]
      modifies Foot()
      ensures DocsThere() && d == DocAt(entries, blank, i)
    {
      hide Shelved, Prp, SubOrams.Faithful, Interval, CeilLog2, DocAt, Feet;
      d := ReadSlot(subs, limit, codec, dict.session.secretKey, entries, stream, base, alpha, blank, value, i);
    }

    /** The permutation, redrawn from the secret key. */
    method Order() returns (prp: seq<nat>)
      requires DocsThere()
      ensures DocsThere() && prp == Prp(memorySize, Words(memorySize, stream))
    {
      hide Shelved, Prp, IsPermutation, Interval;
      Counted();
      var permuted := PseudoRandomPermutation(memorySize, Words(memorySize, stream));
      prp := permuted[..];
    }

    /** One turn of the loop of search. */
    method Visit(base: nat, value: nat, ghost iw: nat, ghost i: nat, found: seq<Document>) returns (ans: seq<Document>)
      requires DocsThere() && SubOrams.Faithful(codec) && iw <= i < Interval(memorySize)
      requires base == CeilLog2(memorySize) && value == Prp(memorySize, Words(memorySize, stream))[i]
      requires found == Gathered(entries, blank, iw, i)
      modifies Foot()
      ensures DocsThere() && ans == Gathered(entries, blank, iw, i + 1)
    {
      hide *;
      Counted();
      GatheredEnds(entries, blank, iw, i);
      var doc := ReadSubscript(base, value, i);
      ans := found;
      if doc.id < memorySize {
        ans := ans + [doc];
      }
    }

    /** The loop of search: slots iw .. iw + countw, both ends included. */
    method Gather(iw: nat, countw: nat) returns (r: Result<seq<Document>>)
      requires DocsThere() && SubOrams.Faithful(codec)
      modifies Foot()
      ensures DocsThere()
      ensures r == if iw + countw < Interval(memorySize) then Success(Gathered(entries, blank, iw, iw + countw + 1))
                   else Failure(OutOfRange)
    {
      hide *;
      Counted();
      GatheredEnds(entries, blank, iw, iw);
      var base := CeilLog2(memorySize);
      var prp := Order();
      var ans := [];
      var i := iw;
      while i <= iw + countw
        invariant iw <= i <= iw + countw + 1 && (i > iw ==> i <= Interval(memorySize))
        invariant DocsThere() && ans == Gathered(entries, blank, iw, i)
      {
        if i >= |prp| {
          return Failure(OutOfRange);
        }
        ans := Visit(base, prp[i], iw, i, ans);
        i := i + 1;
      }
      r := Success(ans);
    }

    /** The dictionary half of a search. */
    method FindIndex(keyword: Bytes, padVal: int) returns (r: Option<(nat, nat)>)
      requires Wired() && Indexes(dict.tree, first, count) && |dict.session.Flat()| <= dict.session.cache.maxSize
      modifies DictFoot()
      ensures Wired() && dict.session.Flat() == old(dict.session.Flat())
      ensures r == if keyword in first then Some((first[keyword], count[keyword])) else None
      ensures keyword in first ==> keyword in count
    {
      hide Session.Core, Session.IsClosed, Session.Flat, Unshared, Rep, Balanced, Lookup, TooSmall, SubOrams.Faithful,
          IndexValue;
      LookupFinds(dict.tree, keyword);
      var node := dict.Find(keyword, padVal);
      if node == None {
        return None;
      }
      IndexValueRoundTrip(first[keyword], count[keyword]);
      var res := Split(node.value.data);
      r := Some((Parse(res[0]).value, Parse(res[1]).value));
    }

    lemma Complete(keyword: Bytes, found: seq<Document>)
      requires |entries| == memorySize && x >= 2
      requires Prepared(originals, x, entries, first, count) && RealIds(originals) && Occurs(originals, keyword) >= 1
      requires keyword in first && keyword in count ==>
                 found == Gathered(entries, blank, first[keyword], first[keyword] + count[keyword] + 1)
      ensures forall d :: multiset(found)[d] == if d.id < memorySize then multiset(entries)[Entry(keyword, d)] else 0
      ensures forall d :: multiset(originals)[Entry(keyword, d)] <= multiset(found)[d]
    {
      hide Prepared, RealIds, Occurs, Gathered;
      SearchComplete(originals, x, entries, first, count, blank, keyword);
    }

    /** search: every row of a keyword, as often as the keyword has it, and nothing from
        other keywords. It fails only where a keyword is found though no row was loaded. */
    method Search(keyword: Bytes, padVal: int) returns (r: Result<seq<Document>>)
      requires Loaded()
      modifies DictFoot(), Foot()
      ensures Loaded()
      ensures r.Failure? <==> originals == [] && keyword in first
      ensures keyword !in first ==> r == Success([])
      ensures keyword in first ==> keyword in count
      ensures keyword in first && r.Success? ==>
                r.value == Gathered(entries, blank, first[keyword], first[keyword] + count[keyword] + 1)
      ensures Occurs(originals, keyword) >= 1 ==>
                && r.Success?
                && (forall d :: multiset(r.value)[d] == if d.id < memorySize then multiset(entries)[Entry(keyword, d)]
                    else 0)
                && (forall d :: multiset(originals)[Entry(keyword, d)] <= multiset(r.value)[d])
    {
      hide Wired, Loaded, Indexes, DocsThere, Prepared, RealIds, Occurs, Gathered, Interval, TooSmall,
          SubOrams.Faithful;
      hide Session.Core, Session.Flat, Dict.Valid;
      LoadedParts();
      Counted();
      var found := FindIndex(keyword, padVal);
      if found == None {
        r := Success([]);
      } else {
        LoopInBounds(originals, x, entries, first, count, keyword);
        r := Gather(found.value.0, found.value.1);
      }
      if Occurs(originals, keyword) >= 1 {
        SearchComplete(originals, x, entries, first, count, blank, keyword);
        NothingOccurs(originals, keyword);
        Complete(keyword, r.value);
      }
      Reloaded();
    }

    lemma LoadedParts()
      requires Loaded()
      ensures Wired() && DocsThere() && Indexes(dict.tree, first, count)
      ensures |dict.session.Flat()| <= dict.session.cache.maxSize
      ensures x >= 2 && Prepared(originals, x, entries, first, count) && RealIds(originals)
      ensures DictFoot() !! Foot() && Apart() && SubOrams.Faithful(codec)
    {
      hide Session.Core, Session.IsClosed, Session.Flat, Unshared, Rep, Ordered, Balanced, Indexes, DocsThere, Prepared,
          RealIds, TooSmall, SubOrams.Faithful;
    }

    lemma Reloaded()
      requires Wired() && Apart() && DocsThere() && Indexes(dict.tree, first, count)
      requires |dict.session.Flat()| <= dict.session.cache.maxSize
      requires x >= 2 && Prepared(originals, x, entries, first, count) && RealIds(originals)
      ensures Loaded()
    {
      hide Session.Core, Session.IsClosed, Session.Flat, Unshared, Rep, Ordered, Balanced, Indexes, DocsThere, Prepared,
          RealIds, TooSmall, SubOrams.Faithful, Apart;
    }

    lemma Counted()
      requires DocsThere()
      ensures |entries| == memorySize >= 1
    {
      hide Ok, Laid;
    }
  }

  // ---- loading and searching ----------------------------------------------------

  /** A search for path, column name and cell run together, after the table was loaded,
      finds the row of the cell, whichever cell it is. */
  method LoadAndSearch(client: SearchClient, path: Bytes, names: seq<Bytes>, columns: seq<seq<Bytes>>, n: nat,
          dummyId: nat -> nat, dummyKeyword: nat -> Bytes, dummyWords: nat -> seq<Bytes>, blank: Document, padVal: int,
          i: nat, j: nat)
    returns (r: Result<seq<Document>>)
    requires client.Empty() && Rectangular(names, columns, n) && (forall k :: |dummyWords(k)| == 3)
    requires i < |columns| && j < n
    modifies client, client.limit, client.dict, client.DictFoot()
    ensures client.x >= 2
    ensures var size := LoadedSize(TableEntries(path, names, columns, n, |columns|), client.x);
            r.Success? <==>
            client.alpha <= CeilLog2(n) && client.alpha <= CeilLog2(size) && size <= client.dict.session.cache.maxSize
    ensures r.Success? ==> Document(j, RowBehind(columns, j)) in r.value
  {
    hide SearchClient.Loaded, CeilLog2, LoadedSize, TableEntries, Session.Flat, Session.Core, Dict.Valid, Occurs,
        Gathered, TooSmall, SubOrams.Faithful, RowBehind;
    var loaded := client.AdjDataIn(path, names, columns, n, dummyId, dummyKeyword, dummyWords, blank, padVal);
    if loaded.Failure? {
      return Failure(loaded.error);
    }
    ghost var e := Entry(path + names[i] + columns[i][j], Document(j, RowBehind(columns, j)));
    assert ListsCells(client.originals, path, names, columns, n, i);
    ListedOccurs(client.originals, e);
    ghost var originals := client.originals;
    r := client.Search(path + names[i] + columns[i][j], padVal);
  }

  lemma ListedOccurs(entries: seq<Entry>, e: Entry)
    requires e in entries
    ensures Occurs(entries, e.key) >= 1 && multiset(entries)[e] >= 1
  {
    var i :| 0 <= i < |entries| && entries[i] == e;
    OccursMember(entries, i);
  }

  // ---- the whole stack --------------------------------------------------------

  lemma OnlyDummyStored(c: Codec, rawKey: Bytes, view: map<int, Bytes>)
    requires |rawKey| >= 15 && view.Keys == {0}
    ensures Stores(c, rawKey, view)
  {
    hide Opened;
    assert forall id :: id in view ==> id in view.Keys;
  }

  lemma NothingInFlat(m: map<int, Node>, view: map<int, Bytes>)
    requires m.Keys == view.Keys - {0} && view.Keys == {0}
    ensures m == map[]
  {
    assert m.Keys == {};
  }

  lemma FirstWrite(m: map<int, Bytes>, data: Bytes, leaf: nat)
    requires m == map[]
    ensures RealStep(m, OramSpec.Access(Write, 0, data, leaf)).Keys == {0}
  {
    assert m[0 := data].Keys == {0};
  }

  /** The dictionary's ORAM, with init_dummy_data's write to address 0. */
  method BuildOram(bucketSize: nat, blockNumber: nat, blank: Bytes) returns (oram: Oram)
    requires bucketSize >= 1 && blockNumber >= 1
    ensures fresh(oram) && fresh(oram.storage) && fresh(oram.limit)
    ensures oram.Valid() && oram.View().Keys == {0} && oram.bucketSize == bucketSize
  {
    hide Oram.Valid, Oram.View, TooSmall, RealStep;
    var storage := new Storage();
    var limit := new BucketLimit();
    var r := NewOram(storage, limit, bucketSize, blockNumber);
    oram := r.value;
    ghost var before := oram.View();
    ghost var leaf;
    var answer;
    answer, leaf := oram.Access(Write, 0, blank);
    FirstWrite(before, blank, leaf);
  }

  method BuildSession(bucketSize: nat, blockNumber: nat, maxSize: nat, secretKey: Bytes,
      nodes: Codec) returns (session: Session)
    requires bucketSize >= 1 && blockNumber >= 1 && |secretKey| >= 15 && OdsSession.Faithful(nodes)
    ensures fresh(session) && session.IsClosed() && session.Flat() == map[]
    ensures session.oram.bucketSize == bucketSize && session.cache.maxSize == maxSize
  {
    hide Oram.Valid, Oram.View, Stores, OdsSession.Faithful, Session.Core, Session.IsClosed, Session.Flat;
    var oram := BuildOram(bucketSize, blockNumber, nodes.serialize(Blank(0)));
    OnlyDummyStored(nodes, secretKey, oram.View());
    ghost var view := oram.View();
    var cache := new LruCache.Cache<Node>(maxSize, Blank(0));
    session := new Session(oram, cache, secretKey, nodes);
    NothingInFlat(session.Flat(), view);
  }

  /** From nothing to a client that is ready to load a table. */
  method Build(bucketSize: nat, blockNumber: nat, maxSize: nat, secretKey: Bytes, alpha: nat, x: nat,
               nodes: Codec, documents: DocCodec, stream: nat -> nat)
    returns (client: SearchClient)
    requires bucketSize >= 1 && blockNumber >= 1 && |secretKey| >= 15 && x >= 2
    requires OdsSession.Faithful(nodes) && SubOrams.Faithful(documents)
    ensures fresh(client) && client.Empty()
    ensures client.alpha == alpha && client.x == x && client.dict.session.cache.maxSize == maxSize
  {
    hide TooSmall, SubOrams.Faithful, OdsSession.Faithful, Session.Core, Session.Flat, Ordered, Balanced;
    TooSmallIff(bucketSize, blockNumber);
    var session := BuildSession(bucketSize, blockNumber, maxSize, secretKey, nodes);
    var dict := new Dict(session);
    client := new SearchClient(dict, bucketSize, blockNumber, alpha, x, documents, stream);
  }
}
