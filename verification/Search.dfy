/** Encrypted search: rows padded, sorted, indexed in the oblivious dictionary and placed
    in the sub-ORAMs, and what a search gets back from there. */
module Search {
  import opened Wrappers
  import opened Powers
  import opened Lex
  import opened Permutation
  import opened Padding
  import opened Sets

  // ---- rows -----------------------------------------------------------------

  /** A parsed CSV file of n rows: a name and n cells for every column. */
  predicate Rectangular(names: seq<Bytes>, columns: seq<seq<Bytes>>, n: nat) {
    |names| == |columns| && forall i :: 0 <= i < |columns| ==> |columns[i]| == n
  }

  function Row(columns: seq<seq<Bytes>>, n: nat, j: nat): (r: seq<Bytes>)
    requires j < n && forall i :: 0 <= i < |columns| ==> |columns[i]| == n
    ensures |r| == |columns|
  {
    seq(|columns|, i requires 0 <= i < |columns| => columns[i][j])
  }

  /** Cell (i, j): keyword = path, column name and cell run together; the id is the row
      number, the contents are the row. */
  function CellEntry(path: Bytes, names: seq<Bytes>, columns: seq<seq<Bytes>>, n: nat, i: nat, j: nat): Entry
    requires Rectangular(names, columns, n) && i < |columns| && j < n
  {
    Entry(path + names[i] + columns[i][j], NewDocument(j, Row(columns, n, j)))
  }

  function ColumnEntries(path: Bytes, names: seq<Bytes>, columns: seq<seq<Bytes>>, n: nat, i: nat): (r: seq<Entry>)
    requires Rectangular(names, columns, n) && i < |columns|
    ensures |r| == n && forall j :: 0 <= j < n ==> r[j] == CellEntry(path, names, columns, n, i, j)
  {
    seq(n, j requires 0 <= j < n => CellEntry(path, names, columns, n, i, j))
  }

  /** The entries of the first k columns, column by column. */
  function TableEntries(path: Bytes, names: seq<Bytes>, columns: seq<seq<Bytes>>, n: nat, k: nat): seq<Entry>
    requires Rectangular(names, columns, n) && k <= |columns|
  {
    if k == 0 then [] else TableEntries(path, names, columns, n, k - 1) + ColumnEntries(path, names, columns, n, k - 1)
  }

  method ReadTable(path: Bytes, names: seq<Bytes>, columns: seq<seq<Bytes>>, n: nat) returns (memory: seq<Entry>)
    requires Rectangular(names, columns, n)
    ensures memory == TableEntries(path, names, columns, n, |columns|)
  {
    memory := [];
    for i := 0 to |columns|
      invariant memory == TableEntries(path, names, columns, n, i)
    {
      hide TableEntries, CellEntry;
      var tmp := [];
      for j := 0 to n
        invariant tmp == ColumnEntries(path, names, columns, n, i)[..j]
      {
        tmp := tmp + [CellEntry(path, names, columns, n, i, j)];
      }
      TableStep(path, names, columns, n, i);
      memory := memory + tmp;
    }
  }

  lemma TableStep(path: Bytes, names: seq<Bytes>, columns: seq<seq<Bytes>>, n: nat, k: nat)
    requires Rectangular(names, columns, n) && k < |columns|
    ensures TableEntries(path, names, columns, n, k + 1) ==
              TableEntries(path, names, columns, n, k) + ColumnEntries(path, names, columns, n, k)
  {
  }

  ghost predicate IsCell(e: Entry, path: Bytes, names: seq<Bytes>, columns: seq<seq<Bytes>>, n: nat, k: nat)
    requires Rectangular(names, columns, n) && k <= |columns|
  {
    exists i, j :: 0 <= i < k && 0 <= j < n && e == CellEntry(path, names, columns, n, i, j)
  }

  /** The entries are the cells, all of them and nothing else. */
  lemma {:induction false} EntriesAreCells(path: Bytes, names: seq<Bytes>, columns: seq<seq<Bytes>>, n: nat, k: nat,
          e: Entry)
    requires Rectangular(names, columns, n) && k <= |columns|
    ensures e in TableEntries(path, names, columns, n, k) <==> IsCell(e, path, names, columns, n, k)
  {
    hide CellEntry, Rectangular;
    if k > 0 {
      EntriesAreCells(path, names, columns, n, k - 1, e);
      var last := ColumnEntries(path, names, columns, n, k - 1);
      if IsCell(e, path, names, columns, n, k) {
        var i, j :| 0 <= i < k && 0 <= j < n && e == CellEntry(path, names, columns, n, i, j);
        assert i == k - 1 ==> last[j] == e;
      }
      if e in last {
        var j :| 0 <= j < n && last[j] == e;
        assert e == CellEntry(path, names, columns, n, k - 1, j);
      }
    }
  }

  /** Row j without its first cell, which the constructor of documents drops. */
  function RowBehind(columns: seq<seq<Bytes>>, j: nat): (r: seq<Bytes>)
    requires columns != [] && forall i :: 0 <= i < |columns| ==> j < |columns[i]|
    ensures |r| == |columns| - 1 && forall i :: 0 <= i < |r| ==> r[i] == columns[i + 1][j]
  {
    seq(|columns| - 1, i requires 0 <= i < |columns| - 1 => columns[i + 1][j])
  }

  /** The entry a search for cell (i, j) should find. */
  ghost predicate ListsCells(entries: seq<Entry>, path: Bytes, names: seq<Bytes>, columns: seq<seq<Bytes>>, n: nat,
          i: nat)
    requires Rectangular(names, columns, n) && i < |columns|
  {
    forall j :: 0 <= j < n ==> Entry(path + names[i] + columns[i][j], Document(j, RowBehind(columns, j))) in entries
  }

  lemma CellIs(path: Bytes, names: seq<Bytes>, columns: seq<seq<Bytes>>, n: nat, i: nat, j: nat)
    requires Rectangular(names, columns, n) && i < |columns| && j < n
    ensures CellEntry(path, names, columns, n, i, j)
         == Entry(path + names[i] + columns[i][j], Document(j, RowBehind(columns, j)))
  {
    assert Row(columns, n, j)[1..] == RowBehind(columns, j);
  }

  /** Every cell is listed under path, column name and cell, with its row. */
  lemma CellsListed(path: Bytes, names: seq<Bytes>, columns: seq<seq<Bytes>>, n: nat, i: nat)
    requires Rectangular(names, columns, n) && i < |columns|
    ensures ListsCells(ColumnEntries(path, names, columns, n, i), path, names, columns, n, i)
    ensures ListsCells(TableEntries(path, names, columns, n, |columns|), path, names, columns, n, i)
  {
    hide CellEntry, TableEntries, RowBehind;
    forall j | 0 <= j < n
      ensures var e := Entry(path + names[i] + columns[i][j], Document(j, RowBehind(columns, j)));
              e in ColumnEntries(path, names, columns, n, i) && e in TableEntries(path, names, columns, n, |columns|)
    {
      CellIs(path, names, columns, n, i, j);
      assert ColumnEntries(path, names, columns, n, i)[j] == CellEntry(path, names, columns, n, i, j);
      EntriesAreCells(path, names, columns, n, |columns|, CellEntry(path, names, columns, n, i, j));
    }
  }

  /** Row numbers stay below the number of entries, so no real document looks like a dummy. */
  ghost predicate RealIds(memory: seq<Entry>) {
    forall i :: 0 <= i < |memory| ==> memory[i].doc.id < |memory|
  }

  lemma {:induction false} TableIds(path: Bytes, names: seq<Bytes>, columns: seq<seq<Bytes>>, n: nat, k: nat)
    requires Rectangular(names, columns, n) && k <= |columns|
    ensures |TableEntries(path, names, columns, n, k)| == k * n
    ensures RealIds(TableEntries(path, names, columns, n, k))
  {
    if k > 0 {
      TableIds(path, names, columns, n, k - 1);
      OneColumnMore(k - 1, n);
    }
  }

  lemma OneColumnMore(columns: nat, rows: nat)
    ensures (columns + 1) * rows == columns * rows + rows && columns * rows >= 0
  {
    assert columns * rows >= 0 by {
      MulMono(0, columns, rows);
    }
  }

  // ---- what a search should return ------------------------------------------

  function Words(n: nat, stream: nat -> nat): (r: seq<nat>)
    ensures |r| == Interval(n) && forall i :: 0 <= i < |r| ==> r[i] == stream(i)
  {
    seq(Interval(n), i requires 0 <= i => stream(i))
  }

  function Docs(entries: seq<Entry>): (r: seq<Document>)
    ensures |r| == |entries| && forall i :: 0 <= i < |r| ==> r[i] == entries[i].doc
  {
    seq(|entries|, i requires 0 <= i < |entries| => entries[i].doc)
  }

  function DocAt(entries: seq<Entry>, blank: Document, i: nat): Document {
    if i < |entries| then entries[i].doc else blank
  }

  /** The documents at subscripts lo .. hi-1 that pass the dummy filter. */
  function Gathered(entries: seq<Entry>, blank: Document, lo: nat, hi: nat): seq<Document>
    requires lo <= hi
    decreases hi
  {
    if lo == hi then []
    else
      var d := DocAt(entries, blank, hi - 1);
      Gathered(entries, blank, lo, hi - 1) + if d.id < |entries| then [d] else []
  }

  lemma GatheredEnds(entries: seq<Entry>, blank: Document, lo: nat, i: nat)
    requires lo <= i
    ensures Gathered(entries, blank, lo, lo) == []
    ensures Gathered(entries, blank, lo, i + 1) ==
              Gathered(entries, blank, lo, i) +
                  if DocAt(entries, blank, i).id < |entries| then [DocAt(entries, blank, i)] else []
  {
  }

  /** Within one keyword's run, each document that passes comes as often as its entry. */
  lemma {:induction false} GatheredCounts(entries: seq<Entry>, blank: Document, w: Bytes, lo: nat, hi: nat, d: Document)
    requires lo <= hi <= |entries| && forall i :: lo <= i < hi ==> entries[i].key == w
    ensures multiset(Gathered(entries, blank, lo, hi))[d]
              == if d.id < |entries| then multiset(entries[lo..hi])[Entry(w, d)] else 0
    decreases hi
  {
    hide Gathered;
    GatheredEnds(entries, blank, lo, if lo < hi then hi - 1 else lo);
    if lo < hi {
      var e, before := entries[hi - 1], entries[lo..hi - 1];
      GatheredCounts(entries, blank, w, lo, hi - 1, d);
      assert entries[lo..hi] == before + [e];
      OneMoreCounts(before, e, w, d, Gathered(entries, blank, lo, hi - 1), |entries|);
    }
  }

  lemma OneMoreCounts(before: seq<Entry>, e: Entry, w: Bytes, d: Document, found: seq<Document>, size: nat)
    requires e.key == w
    requires multiset(found)[d] == if d.id < size then multiset(before)[Entry(w, d)] else 0
    ensures multiset(found + if e.doc.id < size then [e.doc] else [])[d]
              == if d.id < size then multiset(before + [e])[Entry(w, d)] else 0
  {
    assert e == Entry(w, e.doc);
    assert multiset(before + [e]) == multiset(before) + multiset{e};
    assert multiset(found + [e.doc]) == multiset(found) + multiset{e.doc};
    assert found + [] == found;
  }

  /** Outside its run a keyword has no entries. */
  lemma RunCounts(entries: seq<Entry>, w: Bytes, lo: nat, hi: nat, d: Document)
    requires lo <= hi <= |entries|
    requires forall i :: 0 <= i < |entries| ==> (entries[i].key == w <==> lo <= i < hi)
    ensures multiset(entries[lo..hi])[Entry(w, d)] == multiset(entries)[Entry(w, d)]
  {
    var a, b, c := entries[..lo], entries[lo..hi], entries[hi..];
    assert entries == a + b + c;
    assert Entry(w, d) !in a && Entry(w, d) !in c;
  }

  // ---- preparation ----------------------------------------------------------

  /** What padding, sorting and scanning make of the original entries. */
  ghost predicate Prepared(memory0: seq<Entry>, x: nat, entries: seq<Entry>, first: map<Bytes, nat>,
          count: map<Bytes, nat>)
    requires x >= 2
  {
    && |memory0| < |entries| == LoadedSize(memory0, x)
    && Sorted(entries) && FirstOccurrences(entries, first)
    && multiset(memory0) <= multiset(entries)
    && (forall w :: w in first ==> w in count)
    && (forall w :: Occurs(memory0, w) >= 1 ==> w in count && Occurs(entries, w) == count[w] + 1)
    && (forall w :: Occurs(memory0, w) == 0 ==> Occurs(entries, w) == CountOf(count, w))
  }

  lemma PrefixMembers(memory0: seq<Entry>, memory: seq<Entry>, entries: seq<Entry>)
    requires memory0 <= memory && IsSortOf(entries, memory)
    ensures multiset(memory0) <= multiset(entries)
    ensures |entries| == |memory|
  {
    assert |multiset(entries)| == |entries| && |multiset(memory)| == |memory|;
    assert memory == memory0 + memory[|memory0|..];
  }

  lemma PreparedFrom(memory0: seq<Entry>, x: nat, memory: seq<Entry>, entries: seq<Entry>, first: map<Bytes, nat>,
          count0: map<Bytes, nat>, count: map<Bytes, nat>)
    requires x >= 2 && Tallies(memory0, count0) && memory0 <= memory && Padding.Padded(memory, count, count0.Keys)
    requires |memory0| < |memory| == LoadedSize(memory0, x)
    requires IsSortOf(entries, memory) && FirstOccurrences(entries, first)
    ensures Prepared(memory0, x, entries, first, count)
  {
    hide Occurs, Sorted, FirstOccurrences, LoadedSize;
    PrefixMembers(memory0, memory, entries);
    forall w ensures Occurs(entries, w) == Occurs(memory, w) {
      OccursOfMultiset(entries, memory, w);
    }
    forall w ensures w in first <==> Occurs(entries, w) >= 1 {
      FirstIsBefore(entries, first, w);
    }
    assert forall w :: w in count0 <==> w in count0.Keys;
    assert forall w :: w in count <==> w in count.Keys;
  }

  /** adj_data_in from the tally to the first-occurrence table. */
  method Prepare(memory0: seq<Entry>, x: nat, dummyId: nat -> nat, dummyKeyword: nat -> Bytes,
          dummyWords: nat -> seq<Bytes>)
    returns (entries: seq<Entry>, first: map<Bytes, nat>, count: map<Bytes, nat>, ghost memory: seq<Entry>)
    requires x >= 2 && forall i :: |dummyWords(i)| == 3
    ensures Prepared(memory0, x, entries, first, count)
    ensures Added(memory0, PaddedTo(memory0, x, Keywords(memory0)), memory, dummyId, dummyKeyword, dummyWords)
    ensures IsSortOf(entries, memory) && Nondescending(entries)
    ensures forall w :: Occurs(memory0, w) >= 1 && (forall i :: dummyKeyword(i) != w) ==>
              w in count && count[w] == LeastPower(x, Occurs(memory0, w))
  {
    hide Occurs, Sorted, Padding.Padded, FirstOccurrences, Prepared, LeastPower, LoadedSize, IsSortOf, Nondescending;
    var count0 := Tally(memory0);
    var loaded;
    ghost var padded;
    loaded, count, padded := AdjPadding(memory0, count0, x, dummyId, dummyKeyword, dummyWords);
    memory := loaded;
    entries := Sort(loaded);
    first := FirstOccurrence(entries);
    PreparedFrom(memory0, x, memory, entries, first, count0, count);
  }

  // ---- completeness -----------------------------------------------------------

  /** For an original keyword the inclusive loop of search visits its run, all of it and
      nothing else, and so returns every real document with the keyword, as often as the
      keyword has it. */
  lemma SearchComplete(memory0: seq<Entry>, x: nat, entries: seq<Entry>, first: map<Bytes, nat>,
          count: map<Bytes, nat>, blank: Document, w: Bytes)
    requires x >= 2 && Prepared(memory0, x, entries, first, count) && Occurs(memory0, w) >= 1
    ensures w in first && w in count && first[w] + count[w] < |entries|
    ensures forall i :: 0 <= i < |entries| ==> (first[w] <= i <= first[w] + count[w] <==> entries[i].key == w)
    ensures var found := multiset(Gathered(entries, blank, first[w], first[w] + count[w] + 1));
            && (forall d :: found[d] == if d.id < |entries| then multiset(entries)[Entry(w, d)] else 0)
            && (RealIds(memory0) ==> forall d :: multiset(memory0)[Entry(w, d)] <= found[d])
  {
    hide Occurs, Before, Sorted, FirstOccurrences, Gathered, LoadedSize;
    FirstIsBefore(entries, first, w);
    RunOf(entries, w);
    var lo, hi := first[w], first[w] + count[w] + 1;
    var found := multiset(Gathered(entries, blank, lo, hi));
    forall d ensures found[d] == if d.id < |entries| then multiset(entries)[Entry(w, d)] else 0 {
      GatheredCounts(entries, blank, w, lo, hi, d);
      RunCounts(entries, w, lo, hi, d);
    }
    if RealIds(memory0) {
      forall d ensures multiset(memory0)[Entry(w, d)] <= found[d] {
        if Entry(w, d) in memory0 {
          var i :| 0 <= i < |memory0| && memory0[i] == Entry(w, d);
          assert memory0[i].doc.id < |memory0|;
        }
        assert multiset(memory0)[Entry(w, d)] <= multiset(entries)[Entry(w, d)];
      }
    }
  }

  /** A keyword only dummies have has no entry to spare: the inclusive loop visits the
      run and the slot behind it. */
  lemma DummyKeywordOverrun(memory0: seq<Entry>, x: nat, entries: seq<Entry>, first: map<Bytes, nat>,
          count: map<Bytes, nat>, w: Bytes)
    requires x >= 2 && Prepared(memory0, x, entries, first, count) && Occurs(memory0, w) == 0 && w in first
    ensures w in count && first[w] + count[w] <= |entries|
    ensures forall i :: 0 <= i < |entries| ==> (first[w] <= i < first[w] + count[w] <==> entries[i].key == w)
  {
    hide Occurs, Before, Sorted, FirstOccurrences, LoadedSize;
    FirstIsBefore(entries, first, w);
    RunOf(entries, w);
  }

  /** Whatever keyword is searched, the loop leaves the permutation only where nothing
      but the one dummy was loaded. */
  lemma LoopInBounds(memory0: seq<Entry>, x: nat, entries: seq<Entry>, first: map<Bytes, nat>,
          count: map<Bytes, nat>, w: Bytes)
    requires x >= 2 && Prepared(memory0, x, entries, first, count) && w in first
    ensures w in count && (first[w] + count[w] < Interval(|entries|) <==> memory0 != [])
  {
    hide Occurs, Sorted, FirstOccurrences, LoadedSize, Interval, LeastPower;
    LoadedSizeOdd(memory0, x);
    OddBelowInterval(|entries|);
    if Occurs(memory0, w) >= 1 {
      SearchComplete(memory0, x, entries, first, count, Document(0, []), w);
      NothingOccurs(memory0, w);
    } else {
      DummyKeywordOverrun(memory0, x, entries, first, count, w);
      if memory0 == [] {
        OnlyDummy(entries, first, count, w);
      }
    }
  }

  lemma NothingOccurs(memory0: seq<Entry>, w: Bytes)
    requires Occurs(memory0, w) >= 1
    ensures memory0 != []
  {
  }

  lemma OnlyDummy(entries: seq<Entry>, first: map<Bytes, nat>, count: map<Bytes, nat>, w: Bytes)
    requires |entries| == 1 && FirstOccurrences(entries, first) && w in first && w in count
    requires forall i :: 0 <= i < |entries| ==> (first[w] <= i < first[w] + count[w] <==> entries[i].key == w)
    ensures first[w] + count[w] >= 1 && Interval(1) == 1
  {
    hide Interval;
    assert entries[0].key == w;
    OddBelowInterval(1);
  }

  /** What comes back for a keyword only dummies have: its own documents, and the one in
      the slot behind the run, which is an entry of that keyword or foreign. */
  lemma OverrunReturns(memory0: seq<Entry>, x: nat, entries: seq<Entry>, first: map<Bytes, nat>,
          count: map<Bytes, nat>, blank: Document, w: Bytes)
    requires x >= 2 && Prepared(memory0, x, entries, first, count) && Occurs(memory0, w) == 0 && w in first
    ensures w in count
    ensures var found := Gathered(entries, blank, first[w], first[w] + count[w] + 1);
            var d := DocAt(entries, blank, first[w] + count[w]);
            && (forall e :: multiset(found)[e] == (if e.id < |entries| then multiset(entries)[Entry(w, e)] else 0)
                                                  + (if e == d && d.id < |entries| then 1 else 0))
            && ((forall e :: e in found ==> Entry(w, e) in entries) <==> d.id >= |entries| || Entry(w, d) in entries)
  {
    hide Occurs, Sorted, FirstOccurrences, LoadedSize, Gathered;
    DummyKeywordOverrun(memory0, x, entries, first, count, w);
    var lo, hi := first[w], first[w] + count[w];
    var run, found := Gathered(entries, blank, lo, hi), Gathered(entries, blank, lo, hi + 1);
    GatheredEnds(entries, blank, lo, hi);
    var d := DocAt(entries, blank, hi);
    assert found == run + if d.id < |entries| then [d] else [];
    forall e ensures multiset(run)[e] == if e.id < |entries| then multiset(entries)[Entry(w, e)] else 0 {
      GatheredCounts(entries, blank, w, lo, hi, e);
      RunCounts(entries, w, lo, hi, e);
    }
    forall e ensures e in run <==> e.id < |entries| && Entry(w, e) in entries {
      assert e in run <==> multiset(run)[e] > 0;
      assert Entry(w, e) in entries <==> multiset(entries)[Entry(w, e)] > 0;
    }
  }

  // ---- a foreign document -----------------------------------------------------

  lemma KeysInOrder(entries: seq<Entry>, first: map<Bytes, nat>, j: nat, w: Bytes)
    requires Sorted(entries) && FirstOccurrences(entries, first) && j < |entries|
    requires w in first && Less(w, entries[j].key)
    ensures first[w] < j
  {
    Irreflexive(w);
    hide Less;
    assert entries[first[w]].key == w;
  }

  /** Of what padding makes if every random id is the least possible and every dummy keyword
      is w: ids are subscripts, and those filed under w are not below `size`. */
  lemma AddedIds(table: seq<Entry>, size: nat, memory: seq<Entry>, dummyId: nat -> nat, w: Bytes,
          dummyWords: nat -> seq<Bytes>, e: Entry)
    requires (forall i :: |dummyWords(i)| == 3) && Added(table, size, memory, dummyId, _ => w, dummyWords)
    requires (forall i :: dummyId(i) == 0) && RealIds(table) && Occurs(table, w) == 0 && e in memory
    ensures e.doc.id < |memory| && (e.key == w <==> e.doc.id >= size)
    ensures e.key != w ==> Occurs(table, e.key) >= 1
  {
    hide Occurs;
    var i :| 0 <= i < |memory| && memory[i] == e;
    if i < |table| {
      OccursMember(table, i);
      assert table[i] == memory[..size][i];
    } else if i < size {
      assert memory[..size][i] == e;
    }
  }

  /** Such a w gets into the index. */
  lemma StrayThere(table: seq<Entry>, size: nat, memory: seq<Entry>, dummyId: nat -> nat, w: Bytes,
          dummyWords: nat -> seq<Bytes>, entries: seq<Entry>, first: map<Bytes, nat>)
    requires (forall i :: |dummyWords(i)| == 3) && Added(table, size, memory, dummyId, _ => w, dummyWords)
    requires size < |memory| && SameMembers(entries, memory) && FirstOccurrences(entries, first)
    ensures w in first
  {
    assert memory[size] in memory && memory[size].key == w;
  }

  ghost predicate SameMembers(a: seq<Entry>, b: seq<Entry>) {
    forall e :: e in a <==> e in b
  }

  lemma SortedMembers(entries: seq<Entry>, memory: seq<Entry>)
    requires IsSortOf(entries, memory)
    ensures SameMembers(entries, memory) && |entries| == |memory|
  {
    hide Sorted;
    assert forall e :: e in entries <==> e in multiset(entries);
    assert forall e :: e in memory <==> e in multiset(memory);
    assert |multiset(entries)| == |entries| && |multiset(memory)| == |memory|;
  }

  /** Behind the run of w there is another keyword if the table has one that comes later. */
  lemma BehindTheRun(table: seq<Entry>, x: nat, entries: seq<Entry>, first: map<Bytes, nat>, count: map<Bytes, nat>,
          w: Bytes, j: nat)
    requires x >= 2 && Prepared(table, x, entries, first, count) && Occurs(table, w) == 0 && w in first
    requires j < |table| && Less(w, table[j].key)
    ensures w in count && first[w] + count[w] < |entries| && entries[first[w] + count[w]].key != w
  {
    hide Occurs, Less, LoadedSize;
    DummyKeywordOverrun(table, x, entries, first, count, w);
    assert table[j] in multiset(table);
    assert table[j] in multiset(entries);
    assert table[j] in entries;
    var k :| 0 <= k < |entries| && entries[k] == table[j];
    KeysInOrder(entries, first, k, w);
    Irreflexive(w);
  }

  /** It does happen, to every table: let all dummies get the same keyword w, not one of the
      table's but sorted before one of them, and the least ids. Then the search for w
      returns a document that is filed under a keyword of the table only. */
  method ForeignDocument(table: seq<Entry>, x: nat, w: Bytes, dummyWords: nat -> seq<Bytes>, blank: Document, j: nat)
    returns (entries: seq<Entry>, first: map<Bytes, nat>, count: map<Bytes, nat>)
    requires x >= 2 && RealIds(table) && forall i :: |dummyWords(i)| == 3
    requires Occurs(table, w) == 0 && j < |table| && Less(w, table[j].key)
    ensures Prepared(table, x, entries, first, count) && w in first && w in count
    ensures first[w] + count[w] < |entries| && Occurs(table, entries[first[w] + count[w]].key) >= 1
    ensures var d := DocAt(entries, blank, first[w] + count[w]);
            && d in Gathered(entries, blank, first[w], first[w] + count[w] + 1)
            && Entry(w, d) !in entries
  {
    hide Occurs, Prepared, Sorted, FirstOccurrences, LoadedSize, Gathered, Less, PaddedTo, Keywords, Added,
        Nondescending, Interval;
    var dummyId := (i: nat) => 0;
    ghost var memory;
    entries, first, count, memory := Prepare(table, x, dummyId, _ => w, dummyWords);
    ghost var size := PaddedTo(table, x, Keywords(table));
    SizeGrows(table, x);
    SortedMembers(entries, memory);
    PreparedParts(table, x, entries, first, count);
    StrayThere(table, size, memory, dummyId, w, dummyWords, entries, first);
    BehindTheRun(table, x, entries, first, count, w, j);
    GatheredEnds(entries, blank, first[w], first[w] + count[w]);
    ghost var foreign := entries[first[w] + count[w]];
    AddedIds(table, size, memory, dummyId, w, dummyWords, foreign);
    if Entry(w, foreign.doc) in entries {
      AddedIds(table, size, memory, dummyId, w, dummyWords, Entry(w, foreign.doc));
    }
  }

  lemma SizeGrows(table: seq<Entry>, x: nat)
    requires x >= 2
    ensures PaddedTo(table, x, Keywords(table)) < LoadedSize(table, x)
  {
    hide PaddedTo, Keywords;
    AtLeastTwice(x, PaddedTo(table, x, Keywords(table)));
  }

  lemma PreparedParts(table: seq<Entry>, x: nat, entries: seq<Entry>, first: map<Bytes, nat>, count: map<Bytes, nat>)
    requires x >= 2 && Prepared(table, x, entries, first, count)
    ensures |entries| == LoadedSize(table, x) && FirstOccurrences(entries, first)
  {
  }
}
