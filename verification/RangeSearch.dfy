/** Range queries end to end: per column the tree T1 and sub-ORAMs that hold the rows in
    the order of the sorted column, and search_range over both. */
module RangeSearch {
  import opened Wrappers
  import opened Powers
  import opened Lex
  import opened Decimal
  import opened Permutation
  import opened Padding
  import opened Buckets
  import opened PathOram
  import opened SubOrams
  import opened Search
  import opened Placement
  import opened RangeTree
  import EncryptedSearch
  import OdsSession
  import Dictionary

  // ---- what a range query finds ---------------------------------------------

  /** The range of keywords is fixed in the sources. */
  const LOWEST := 1
  const HIGHEST := 8

  /** keyword_id_pairs */
  function IdPairs(entries: seq<Entry>): (r: seq<(Bytes, nat)>)
    ensures |r| == |entries| && forall i :: 0 <= i < |r| ==> r[i] == (entries[i].key, entries[i].doc.id)
  {
    seq(|entries|, i requires 0 <= i < |entries| => (entries[i].key, entries[i].doc.id))
  }

  /** The row numbers T1 gives for a query. */
  function Found(sorted: seq<Entry>, context: Bytes, lower: int, upper: int): seq<nat> {
    AllIds(IdPairs(sorted), context, Max(lower, LOWEST), Min(upper, HIGHEST))
  }

  /** What search_range_helper makes of them: it takes them for positions. */
  function DocsAt(sorted: seq<Entry>, blank: Document, ids: seq<nat>): (r: seq<Document>)
    ensures |r| == |ids| && forall i :: 0 <= i < |r| ==> r[i] == DocAt(sorted, blank, ids[i])
  {
    seq(|ids|, i requires 0 <= i < |ids| => DocAt(sorted, blank, ids[i]))
  }

  lemma {:induction false} MatchesMembers(memory: seq<(Bytes, nat)>, value: Bytes, id: nat)
    ensures id in Matches(memory, value) <==> (value, id) in memory
  {
    if memory != [] {
      var front, last := memory[..|memory| - 1], memory[|memory| - 1];
      MatchesMembers(front, value, id);
      assert memory == front + [last];
    }
  }

  lemma {:induction false} AllIdsMembers(memory: seq<(Bytes, nat)>, context: Bytes, lo: int, hi: int, id: nat)
    ensures id in AllIds(memory, context, lo, hi) <==>
            exists v :: lo <= v <= hi && id in IdsOf(memory, context, v)
    decreases hi - lo
  {
    hide IdsOf;
    if lo <= hi {
      AllIdsMembers(memory, context, lo, hi - 1, id);
    }
  }

  /** The cell is one of the keywords lower .. upper that the tree ranges over. */
  ghost predicate Asked(key: Bytes, context: Bytes, lower: int, upper: int) {
    exists v :: Max(lower, LOWEST) <= v <= Min(upper, HIGHEST) && key == Keyword(context, v)
  }

  /** T1 finds the numbers of the rows asked for, and no others. */
  lemma FoundMembers(sorted: seq<Entry>, context: Bytes, lower: int, upper: int, id: nat)
    ensures id in Found(sorted, context, lower, upper) <==>
            exists e :: e in sorted && e.doc.id == id && Asked(e.key, context, lower, upper)
  {
    hide Keyword, Max, Min;
    var pairs, lo, hi := IdPairs(sorted), Max(lower, LOWEST), Min(upper, HIGHEST);
    AllIdsMembers(pairs, context, lo, hi, id);
    forall v ensures id in IdsOf(pairs, context, v) <==> (Keyword(context, v), id) in pairs {
      MatchesMembers(pairs, Keyword(context, v), id);
    }
    if id in Found(sorted, context, lower, upper) {
      var v :| lo <= v <= hi && id in IdsOf(pairs, context, v);
      var i :| 0 <= i < |pairs| && pairs[i] == (Keyword(context, v), id);
      assert sorted[i] in sorted;
    }
    if e :| e in sorted && e.doc.id == id && Asked(e.key, context, lower, upper) {
      var i :| 0 <= i < |sorted| && sorted[i] == e;
      assert pairs[i] in pairs;
    }
  }

  // ---- when the rows that come back are the rows found ------------------------

  /** The entries of a column, row by row. */
  ghost predicate ByRow(entries: seq<Entry>) {
    forall j :: 0 <= j < |entries| ==> entries[j].doc.id == j
  }

  /** Every query gets the rows whose numbers it found. */
  ghost predicate RightRows(entries: seq<Entry>, sorted: seq<Entry>, blank: Document, context: Bytes) {
    forall lower, upper, id :: id in Found(sorted, context, lower, upper) ==>
      id < |entries| && DocAt(sorted, blank, id) == entries[id].doc
  }

  /** Sorting left the rows that can be asked for where they were. */
  ghost predicate LeftInPlace(entries: seq<Entry>, sorted: seq<Entry>, context: Bytes)
    requires |sorted| == |entries|
  {
    forall j :: 0 <= j < |entries| && Asked(entries[j].key, context, LOWEST, HIGHEST) ==> sorted[j] == entries[j]
  }

  lemma SortOfRows(entries: seq<Entry>, sorted: seq<Entry>, e: Entry)
    requires ByRow(entries) && IsSortOf(sorted, entries) && e in sorted
    ensures e.doc.id < |entries| && entries[e.doc.id] == e
  {
    SortedMembers(sorted, entries);
    var j :| 0 <= j < |entries| && entries[j] == e;
  }

  lemma IntervalLarge(n: nat)
    ensures n <= Interval(n)
  {
  }

  /** On the rows of a table no query leaves the permutation. */
  lemma FoundInRange(entries: seq<Entry>, sorted: seq<Entry>, context: Bytes, lower: int, upper: int, id: nat)
    requires ByRow(entries) && IsSortOf(sorted, entries) && id in Found(sorted, context, lower, upper)
    ensures id < |sorted| <= Interval(|sorted|)
  {
    hide Found, Asked, IsSortOf, Interval;
    FoundMembers(sorted, context, lower, upper, id);
    var e :| e in sorted && e.doc.id == id && Asked(e.key, context, lower, upper);
    SortOfRows(entries, sorted, e);
    SortedMembers(sorted, entries);
    IntervalLarge(|sorted|);
  }

  lemma AskedMore(key: Bytes, context: Bytes, lower: int, upper: int)
    requires Asked(key, context, lower, upper)
    ensures Asked(key, context, LOWEST, HIGHEST)
  {
    var v :| Max(lower, LOWEST) <= v <= Min(upper, HIGHEST) && key == Keyword(context, v);
    assert Max(LOWEST, LOWEST) <= v <= Min(HIGHEST, HIGHEST);
  }

  /** Sub-arrays are filled by position in the sorted column, T1 carries row numbers. The
      two agree, over all queries, exactly when sorting moved no row that can be asked for. */
  lemma RightRowsIff(entries: seq<Entry>, sorted: seq<Entry>, blank: Document, context: Bytes)
    requires ByRow(entries) && IsSortOf(sorted, entries)
    ensures |sorted| == |entries|
    ensures RightRows(entries, sorted, blank, context) <==> LeftInPlace(entries, sorted, context)
  {
    hide Found, Asked, IsSortOf;
    SortedMembers(sorted, entries);
    if RightRows(entries, sorted, blank, context) {
      forall j | 0 <= j < |entries| && Asked(entries[j].key, context, LOWEST, HIGHEST) ensures sorted[j] == entries[j] {
        assert entries[j] in sorted;
        FoundMembers(sorted, context, LOWEST, HIGHEST, j);
        assert sorted[j] in sorted;
        SortOfRows(entries, sorted, sorted[j]);
      }
    }
    if LeftInPlace(entries, sorted, context) {
      forall lower, upper, id | id in Found(sorted, context, lower, upper)
        ensures id < |entries| && DocAt(sorted, blank, id) == entries[id].doc
      {
        FoundMembers(sorted, context, lower, upper, id);
        var e :| e in sorted && e.doc.id == id && Asked(e.key, context, lower, upper);
        SortOfRows(entries, sorted, e);
        AskedMore(e.key, context, lower, upper);
      }
    }
  }

  // ---- a column ---------------------------------------------------------------

  /** What the client keeps under one map_key. */
  class Column {
    const limit: BucketLimit
    const alpha: nat
    const codec: DocCodec
    const secretKey: Bytes
    const stream: nat -> nat
    const context: Bytes
    const size: nat
    const subs: seq<Oram>
    const root: Node
    /** What was loaded, and the nodes of the tree. */
    ghost const sorted: seq<Entry>
    ghost const blank: Document
    ghost const tree: set<Node>
    ghost const nodes: set<Node>

    ghost predicate Ready()
      reads Feet(subs), limit, nodes
    {
      && SubOrams.Faithful(codec) && |sorted| == size
      && Shelved(subs, limit, codec, secretKey, sorted, stream, alpha, blank)
      && tree <= nodes && Bounded(nodes, LOWEST, HIGHEST) && Good(nodes, IdPairs(sorted), context)
      && root.lo == LOWEST && root.hi == HIGHEST && Tree(root, IdPairs(sorted), context, tree)
    }

    constructor (limit: BucketLimit, alpha: nat, codec: DocCodec, secretKey: Bytes, stream: nat -> nat,
                 context: Bytes, size: nat, subs: seq<Oram>, root: Node, ghost sorted: seq<Entry>,
                 ghost blank: Document, ghost tree: set<Node>, ghost nodes: set<Node>)
      requires SubOrams.Faithful(codec) && |sorted| == size
      requires Shelved(subs, limit, codec, secretKey, sorted, stream, alpha, blank)
      requires tree <= nodes && Bounded(nodes, LOWEST, HIGHEST) && Good(nodes, IdPairs(sorted), context)
      requires root.lo == LOWEST && root.hi == HIGHEST && Tree(root, IdPairs(sorted), context, tree)
      ensures Ready() && this.limit == limit && this.context == context && this.subs == subs
      ensures this.sorted == sorted && this.blank == blank && this.nodes == nodes
    {
      hide SubOrams.Faithful, Shelved, Bounded, Good, Tree, Feet;
      this.limit, this.alpha, this.codec, this.secretKey, this.stream := limit, alpha, codec, secretKey, stream;
      this.context, this.size, this.subs, this.root := context, size, subs, root;
      this.sorted, this.blank, this.tree, this.nodes := sorted, blank, tree, nodes;
    }

    /** search_range. It never meets a null child, the range being 1 .. 8. */
    method SearchRange(lower: int, upper: int) returns (r: Result<seq<Document>>)
      requires Ready()
      modifies Feet(subs)
      ensures Ready()
      ensures var ids := Found(sorted, context, lower, upper);
              r == if forall id :: id in ids ==> id < Interval(|sorted|) then Success(DocsAt(sorted, blank, ids))
                   else Failure(OutOfRange)
    {
      hide SubOrams.Faithful, Shelved, Good, Tree, Feet, HitsNull, AllIds, Interval, PowerOfTwo, Bounded;
      EightIsPower();
      var subscripts := RangeTree.SearchRange(root, lower, upper, IdPairs(sorted), context, tree, nodes);
      r := Fetch(subscripts.value);
    }

    /** search_range_helper */
    method Fetch(ids: seq<nat>) returns (r: Result<seq<Document>>)
      requires Ready()
      modifies Feet(subs)
      ensures Ready()
      ensures r == if forall id :: id in ids ==> id < Interval(|sorted|) then Success(DocsAt(sorted, blank, ids))
                   else Failure(OutOfRange)
    {
      hide SubOrams.Faithful, Shelved, Good, Tree, Prp, IsPermutation, Interval, Bounded, CeilLog2, DocAt;
      SomeRows();
      var base := CeilLog2(size);
      var permuted := PseudoRandomPermutation(size, Words(size, stream));
      var prp := permuted[..];
      var ans := [];
      for i := 0 to |ids|
        invariant Ready()
        invariant forall k :: 0 <= k < i ==> ids[k] < Interval(size)
        invariant ans == DocsAt(sorted, blank, ids[..i])
      {
        if ids[i] >= |prp| {
          assert ids[i] in ids;
          return Failure(OutOfRange);
        }
        var doc := ReadSlot(subs, limit, codec, secretKey, sorted, stream, base, alpha, blank, prp[ids[i]], ids[i]);
        ans := ans + [doc];
      }
      assert ids[..|ids|] == ids;
      r := Success(ans);
    }

    lemma SomeRows()
      requires Ready()
      ensures size >= 1
    {
      hide Laid, Ok, Good, Tree, Bounded;
    }

    /** Setting the shared limit to the size it has leaves a column as it is. */
    twostate lemma Kept()
      requires old(Ready()) && unchanged(Feet(subs)) && unchanged(nodes)
      requires limit.maxSize == old(limit.maxSize)
      ensures Ready()
    {
      hide Oram.Valid, Oram.View, SealedDoc, Slot, Interval, Pow2, CeilLog2, Good, Tree, Bounded, SubOrams.Faithful;
      forall o | o in subs ensures o.Valid() && o.View() == old(o.View()) {
        LimitKept(o);
      }
    }
  }

  lemma EightIsPower()
    ensures PowerOfTwo(HIGHEST - LOWEST + 1)
  {
    assert Pow2(1) == 2 && Pow2(2) == 4 && Pow2(3) == 8;
  }

  // ---- loading ----------------------------------------------------------------

  /** One column of adj_data_in: sorted, put into a tree T1 and, by adj_insert_range, into
      sub-ORAMs of its own. */
  method LoadColumn(entries: seq<Entry>, context: Bytes, limit: BucketLimit, bucketSize: nat, blockNumber: nat,
          alpha: nat, c: DocCodec, rawKey: Bytes, stream: nat -> nat, counter: Counter, blank: Document)
    returns (column: Column)
    requires blockNumber >= 1 && !TooSmall(bucketSize, blockNumber) && |rawKey| >= 15 && SubOrams.Faithful(c)
    requires limit.maxSize == bucketSize && entries != [] && alpha <= CeilLog2(|entries|)
    modifies limit, counter
    ensures limit.maxSize == bucketSize && column.limit == limit
    ensures fresh(column) && fresh(Feet(column.subs)) && fresh(column.nodes)
    ensures column.Ready() && column.context == context && column.blank == blank
    ensures IsSortOf(column.sorted, entries) && Nondescending(column.sorted)
  {
    hide SubOrams.Faithful, Shelved, Sorted, Nondescending, Good, Tree, RangeTree.Fresh, RangeTree.Below, Levels,
        PairedRow, TooSmall, CeilLog2;
    var sorted := Sort(entries);
    SortedMembers(sorted, entries);
    ghost var first := counter.next;
    var root, tree := BuildTree(LOWEST, HIGHEST, IdPairs(sorted), context, counter);
    FreshGood(tree, IdPairs(sorted), context, first, counter.next);
    ghost var nodes, levels;
    nodes, levels := AddInternalNodes(root, counter, tree, IdPairs(sorted), context);
    var subs := PlaceAndLoad(limit, bucketSize, blockNumber, c, rawKey, sorted, stream, alpha, blank);
    column := new Column(limit, alpha, c, rawKey, stream, context, |sorted|, subs, root, sorted, blank, tree, nodes);
  }

  // ---- a whole table ------------------------------------------------------------

  /** The column holds these entries under this name. */
  ghost predicate Holds(column: Column, limit: BucketLimit, context: Bytes, entries: seq<Entry>)
    reads Feet(column.subs), column.limit, column.nodes
  {
    && column.Ready() && column.limit == limit && column.context == context
    && IsSortOf(column.sorted, entries) && Nondescending(column.sorted)
  }

  ghost predicate AllHold(loaded: seq<Column>, limit: BucketLimit, path: Bytes, names: seq<Bytes>,
          columns: seq<seq<Bytes>>, n: nat, k: nat)
    requires Rectangular(names, columns, n) && k <= |columns|
    reads (set c, o | c in loaded && o in Feet(c.subs) :: o), (set c, m | c in loaded && m in c.nodes :: m), limit
  {
    && |loaded| == k
    && forall i :: 0 <= i < k ==>
        && loaded[i] in loaded && loaded[i].limit == limit
        && Holds(loaded[i], limit, path + names[i], ColumnEntries(path, names, columns, n, i))
  }

  ghost predicate Apart(loaded: seq<Column>) {
    forall i, j :: 0 <= i < j < |loaded| ==> Feet(loaded[i].subs) !! Feet(loaded[j].subs)
  }

  /** The range structures of all columns. */
  method LoadColumns(client: EncryptedSearch.SearchClient, counter: Counter, path: Bytes, names: seq<Bytes>,
          columns: seq<seq<Bytes>>, n: nat, blank: Document)
    returns (loaded: seq<Column>)
    requires client.Empty() && Rectangular(names, columns, n) && EncryptedSearch.ColumnsFit(columns, n, client.alpha)
    modifies client.limit, counter
    ensures client.Empty() && Apart(loaded)
    ensures AllHold(loaded, client.limit, path, names, columns, n, |columns|)
    ensures forall c :: c in loaded ==> fresh(Feet(c.subs)) && fresh(c.nodes)
  {
    hide SubOrams.Faithful, TooSmall, CeilLog2, OdsSession.Session.Core, OdsSession.Session.Flat, Dictionary.Dict.Valid;
    hide Column.Ready, IsSortOf, Nondescending, ColumnEntries;
    loaded := [];
    for k := 0 to |columns|
      invariant client.Empty() && Apart(loaded)
      invariant AllHold(loaded, client.limit, path, names, columns, n, k)
      invariant forall c :: c in loaded ==> fresh(Feet(c.subs)) && fresh(c.nodes)
    {
      label before:
      var column := LoadColumn(ColumnEntries(path, names, columns, n, k), path + names[k], client.limit,
                               client.bucketSize, client.blockNumber, client.alpha, client.codec,
                               client.dict.session.secretKey, client.stream, counter, blank);
      EncryptedSearch.DictKept@before(client.dict);
      forall c | c in loaded ensures c.Ready() {
        c.Kept@before();
      }
      loaded := loaded + [column];
    }
  }

  /** adj_data_in: the range structures column by column, then padding and the keyword half. */
  method LoadTable(client: EncryptedSearch.SearchClient, counter: Counter, path: Bytes, names: seq<Bytes>,
          columns: seq<seq<Bytes>>, n: nat, dummyId: nat -> nat, dummyKeyword: nat -> Bytes,
          dummyWords: nat -> seq<Bytes>, blank: Document, padVal: int)
    returns (r: Result<seq<Column>>)
    requires client.Empty() && Rectangular(names, columns, n) && forall i :: |dummyWords(i)| == 3
    modifies client, client.limit, client.dict, client.DictFoot(), counter
    ensures client.x >= 2
    ensures var size := LoadedSize(TableEntries(path, names, columns, n, |columns|), client.x);
            r.Success? <==>
            && EncryptedSearch.ColumnsFit(columns, n, client.alpha) && client.alpha <= CeilLog2(size)
            && size <= client.dict.session.cache.maxSize
    ensures r.Failure? ==> client.Empty()
    ensures r.Success? ==> client.Loaded() && client.originals == TableEntries(path, names, columns, n, |columns|)
    ensures r.Success? ==> AllHold(r.value, client.limit, path, names, columns, n, |columns|) && Apart(r.value)
    ensures r.Success? ==> forall k :: 0 <= k < |columns| ==> Answers(r.value[k], path, names, columns, n, k)
    ensures r.Success? ==> forall c :: c in r.value ==> Feet(c.subs) !! client.Foot() + client.DictFoot()
  {
    hide SubOrams.Faithful, TooSmall, CeilLog2, OdsSession.Session.Core, OdsSession.Session.Flat, Dictionary.Dict.Valid,
        Column.Ready, IsSortOf, Nondescending, ColumnEntries, LoadedSize, TableEntries;
    hide EncryptedSearch.SearchClient.Loaded;
    var loaded := [];
    if EncryptedSearch.ColumnsFit(columns, n, client.alpha) {
      loaded := LoadColumns(client, counter, path, names, columns, n, blank);
    }
    label before:
    var done := client.AdjDataIn(path, names, columns, n, dummyId, dummyKeyword, dummyWords, blank, padVal);
    if done.Failure? {
      return Failure(done.error);
    }
    LimitSize(client);
    forall c | c in loaded ensures c.Ready() {
      c.Kept@before();
    }
    forall k | 0 <= k < |columns| ensures Answers(loaded[k], path, names, columns, n, k) {
      assert Holds(loaded[k], client.limit, path + names[k], ColumnEntries(path, names, columns, n, k));
      HoldsAnswers(loaded[k], path, names, columns, n, k);
    }
    r := Success(loaded);
  }

  /** What the columns of a table are loaded from is in the order of its rows. */
  lemma ColumnByRow(path: Bytes, names: seq<Bytes>, columns: seq<seq<Bytes>>, n: nat, k: nat)
    requires Rectangular(names, columns, n) && k < |columns|
    ensures ByRow(ColumnEntries(path, names, columns, n, k))
  {
  }

  /** The cell is the digit of one of the keywords lower .. upper that the tree ranges over. */
  predicate DigitAsked(cell: Bytes, lower: int, upper: int) {
    |cell| == 1 && 48 <= cell[0] <= 57 && Max(lower, LOWEST) <= cell[0] as int - 48 <= Min(upper, HIGHEST)
  }

  lemma DigitOf(v: int)
    requires LOWEST <= v <= HIGHEST
    ensures forall context: Bytes :: Keyword(context, v) == context + [48 + v as bv8]
    ensures (48 + v as bv8) as int == 48 + v
  {
    assert ToString(v) == [48 + v as bv8];
  }

  lemma AskedIsDigit(context: Bytes, cell: Bytes, lower: int, upper: int)
    ensures Asked(context + cell, context, lower, upper) <==> DigitAsked(cell, lower, upper)
  {
    hide Keyword;
    if v :| Max(lower, LOWEST) <= v <= Min(upper, HIGHEST) && context + cell == Keyword(context, v) {
      DigitOf(v);
      assert (context + cell)[|context|..] == (context + [48 + v as bv8])[|context|..];
      assert cell == [48 + v as bv8];
    }
    if DigitAsked(cell, lower, upper) {
      var v := cell[0] as int - 48;
      DigitOf(v);
      assert (48 + v as bv8) as int == cell[0] as int;
      assert cell == [48 + v as bv8];
      assert context + cell == Keyword(context, v);
    }
  }

  /** The column is sorted, lists the row of every cell under path, name and cell, once
      each, and a query finds the rows whose cell is one of the digits asked for. */
  ghost predicate Answers(column: Column, path: Bytes, names: seq<Bytes>, columns: seq<seq<Bytes>>, n: nat, k: nat)
    requires Rectangular(names, columns, n) && k < |columns|
  {
    && |column.sorted| == n && Nondescending(column.sorted)
    && ListsCells(column.sorted, path, names, columns, n, k)
    && forall lower, upper, id: nat :: id in Found(column.sorted, path + names[k], lower, upper) <==>
         id < n && DigitAsked(columns[k][id], lower, upper)
  }

  lemma HoldsAnswers(column: Column, path: Bytes, names: seq<Bytes>, columns: seq<seq<Bytes>>, n: nat, k: nat)
    requires Rectangular(names, columns, n) && k < |columns|
    requires IsSortOf(column.sorted, ColumnEntries(path, names, columns, n, k)) && Nondescending(column.sorted)
    ensures Answers(column, path, names, columns, n, k)
  {
    hide Found, Asked, DigitAsked, IsSortOf, Nondescending, CellEntry, RowBehind;
    var entries, context := ColumnEntries(path, names, columns, n, k), path + names[k];
    SortedMembers(column.sorted, entries);
    CellsListed(path, names, columns, n, k);
    forall lower, upper, id: nat
      ensures id in Found(column.sorted, context, lower, upper) <==> id < n && DigitAsked(columns[k][id], lower, upper)
    {
      FoundMembers(column.sorted, context, lower, upper, id);
      if id < n {
        CellIs(path, names, columns, n, k, id);
        AskedIsDigit(context, columns[k][id], lower, upper);
        assert entries[id] in entries;
      }
      if e :| e in column.sorted && e.doc.id == id && Asked(e.key, context, lower, upper) {
        var j :| 0 <= j < |entries| && entries[j] == e;
        CellIs(path, names, columns, n, k, j);
      }
    }
  }

  lemma LimitSize(client: EncryptedSearch.SearchClient)
    requires client.Loaded()
    ensures client.limit.maxSize == client.bucketSize
  {
    client.LoadedParts();
    hide OdsSession.Session.Core, OdsSession.Session.Flat, Dictionary.Dict.Valid, TooSmall, SubOrams.Faithful,
        EncryptedSearch.SearchClient.Loaded;
  }

  // ---- a row that was not asked for -------------------------------------------

  lemma {:induction false} PrefixLess(context: Bytes, a: bv8, b: bv8)
    requires a < b
    ensures Less(context + [a], context + [b])
  {
    if context != [] {
      assert (context + [a])[1..] == context[1..] + [a] && (context + [b])[1..] == context[1..] + [b];
      PrefixLess(context[1..], a, b);
    }
  }

  /** In a column with the cells "2" and "1" the query 1 .. 1 finds row 1 and gets row 0. */
  method WrongRow(two: seq<Bytes>, one: seq<Bytes>, context: Bytes, limit: BucketLimit, bucketSize: nat,
          blockNumber: nat, c: DocCodec, rawKey: Bytes, stream: nat -> nat, counter: Counter, blank: Document)
    returns (r: Result<seq<Document>>)
    requires blockNumber >= 1 && !TooSmall(bucketSize, blockNumber) && |rawKey| >= 15 && SubOrams.Faithful(c)
    requires limit.maxSize == bucketSize
    modifies limit, counter
    ensures r == Success([Document(0, two)])
  {
    hide SubOrams.Faithful, TooSmall, Column.Ready, IsSortOf, Nondescending, CeilLog2, Found, Keyword;
    var entries := [Entry(Keyword(context, 2), Document(0, two)), Entry(Keyword(context, 1), Document(1, one))];
    var column := LoadColumn(entries, context, limit, bucketSize, blockNumber, 0, c, rawKey, stream, counter, blank);
    TwoRows(entries[0], entries[1], context, column.sorted);
    r := column.SearchRange(1, 1);
    IntervalLarge(2);
    assert DocsAt(column.sorted, blank, [1]) == [Document(0, two)];
  }

  lemma TwoRows(a: Entry, b: Entry, context: Bytes, sorted: seq<Entry>)
    requires a.key == Keyword(context, 2) && b.key == Keyword(context, 1) && IsSortOf(sorted, [a, b])
    ensures sorted == [b, a] && Found(sorted, context, 1, 1) == [b.doc.id]
  {
    assert ToString(1) == [49] && ToString(2) == [50];
    PrefixLess(context, 49, 50);
    Irreflexive(b.key);
    SortedMembers(sorted, [a, b]);
    hide Less;
    assert a in sorted && b in sorted;
    assert sorted == [b, a];
    OnlyOne(a, b, IdPairs(sorted), context);
  }

  lemma OnlyOne(a: Entry, b: Entry, pairs: seq<(Bytes, nat)>, context: Bytes)
    requires pairs == [(b.key, b.doc.id), (a.key, a.doc.id)] && b.key == Keyword(context, 1) != a.key
    ensures AllIds(pairs, context, 1, 1) == [b.doc.id]
  {
    hide Keyword;
    assert pairs[..1][..0] == [];
    assert Matches(pairs[..1], b.key) == [b.doc.id];
    assert AllIds(pairs, context, 1, 0) == [];
  }
}
