/** Adjustable padding: tallying keywords, padding each to a power of x, sorting, and
    where each keyword's run begins. */
module Padding {
  import opened Wrappers
  import opened Powers
  import opened Lex
  import opened Sets

  datatype Document = Document(id: nat, keywords: seq<Bytes>)

  /** The constructor of the sources drops the first token. */
  function NewDocument(id: nat, tokens: seq<Bytes>): Document
    requires tokens != []
  {
    Document(id, tokens[1..])
  }

  datatype Entry = Entry(key: Bytes, doc: Document)

  // ---- tallies --------------------------------------------------------------

  function Occurs(memory: seq<Entry>, w: Bytes): (n: nat)
    ensures n <= |memory|
  {
    if memory == [] then 0
    else (if memory[|memory| - 1].key == w then 1 else 0) + Occurs(memory[..|memory| - 1], w)
  }

  lemma OccursAppend(memory: seq<Entry>, e: Entry, w: Bytes)
    ensures Occurs(memory + [e], w) == Occurs(memory, w) + if e.key == w then 1 else 0
  {
    assert (memory + [e])[..|memory|] == memory;
  }

  function CountOf(count: map<Bytes, nat>, w: Bytes): nat {
    if w in count then count[w] else 0
  }

  /** `count` holds the number of entries of each keyword, and every keyword there is. */
  ghost predicate Tallies(memory: seq<Entry>, count: map<Bytes, nat>) {
    && (forall w :: w in count ==> count[w] == Occurs(memory, w) >= 1)
    && (forall w :: w !in count ==> Occurs(memory, w) == 0)
  }

  method Tally(memory: seq<Entry>) returns (count: map<Bytes, nat>)
    ensures Tallies(memory, count)
  {
    count := map[];
    for i := 0 to |memory|
      invariant Tallies(memory[..i], count)
    {
      assert memory[..i + 1] == memory[..i] + [memory[i]];
      forall w ensures Occurs(memory[..i + 1], w) == Occurs(memory[..i], w) + if memory[i].key == w then 1 else 0 {
        OccursAppend(memory[..i], memory[i], w);
      }
      hide Occurs;
      count := count[memory[i].key := CountOf(count, memory[i].key) + 1];
    }
    assert memory[..|memory|] == memory;
  }

  // ---- padding --------------------------------------------------------------

  /** The least power of x that is not below n. */
  function LeastPower(x: nat, n: nat): (p: nat)
    requires x >= 2
    ensures p >= n
    ensures exists e: nat :: p == Pow(x, e) && forall d: nat :: Pow(x, d) >= n ==> e <= d
  {
    var e := CeilLog(x, n);
    Pow(x, e)
  }

  // ---- how large the padded memory is -----------------------------------------

  /** The keywords there are, in the order of their first entries. */
  function Keywords(memory: seq<Entry>): (r: seq<Bytes>)
    ensures Distinct(r)
    ensures forall w :: w in r <==> Occurs(memory, w) >= 1
  {
    if memory == [] then []
    else
      var front, w := Keywords(memory[..|memory| - 1]), memory[|memory| - 1].key;
      if w in front then front else front + [w]
  }

  /** Each of these keywords padded to one entry more than the least power of x. */
  function PaddedTo(memory: seq<Entry>, x: nat, ks: seq<Bytes>): nat
    requires x >= 2
  {
    if ks == [] then 0
    else PaddedTo(memory, x, ks[..|ks| - 1]) + LeastPower(x, Occurs(memory, ks[|ks| - 1])) + 1
  }

  /** The number of tuples after padding, computed from the tuples before it. */
  function LoadedSize(memory: seq<Entry>, x: nat): nat
    requires x >= 2
  {
    x * PaddedTo(memory, x, Keywords(memory)) + 1
  }

  ghost function SumOccurs(s: seq<Entry>, ks: seq<Bytes>): nat {
    if ks == [] then 0 else SumOccurs(s, ks[..|ks| - 1]) + Occurs(s, ks[|ks| - 1])
  }

  lemma {:induction false} SumOccursAppend(s: seq<Entry>, e: Entry, ks: seq<Bytes>)
    requires Distinct(ks)
    ensures SumOccurs(s + [e], ks) == SumOccurs(s, ks) + if e.key in ks then 1 else 0
  {
    hide Occurs;
    if ks != [] {
      var front, w := ks[..|ks| - 1], ks[|ks| - 1];
      SumOccursAppend(s, e, front);
      OccursAppend(s, e, w);
      assert ks == front + [w];
    }
  }

  lemma {:induction false} SumOccursEmpty(ks: seq<Bytes>)
    ensures SumOccurs([], ks) == 0
  {
    if ks != [] {
      SumOccursEmpty(ks[..|ks| - 1]);
    }
  }

  /** A list whose keywords are all listed is as long as they occur in all. */
  lemma {:induction false} LengthIsSum(s: seq<Entry>, ks: seq<Bytes>)
    requires Distinct(ks) && forall i :: 0 <= i < |s| ==> s[i].key in ks
    ensures |s| == SumOccurs(s, ks)
  {
    if s == [] {
      SumOccursEmpty(ks);
    } else {
      var front := s[..|s| - 1];
      LengthIsSum(front, ks);
      assert s == front + [s[|s| - 1]];
      SumOccursAppend(front, s[|s| - 1], ks);
    }
  }

  lemma {:induction false} SumIsPadded(padded: seq<Entry>, memory: seq<Entry>, x: nat, ks: seq<Bytes>)
    requires x >= 2 && forall w :: w in ks ==> Occurs(padded, w) == LeastPower(x, Occurs(memory, w)) + 1
    ensures SumOccurs(padded, ks) == PaddedTo(memory, x, ks)
  {
    hide Occurs, LeastPower;
    if ks != [] {
      SumIsPadded(padded, memory, x, ks[..|ks| - 1]);
      assert ks[|ks| - 1] in ks;
    }
  }

  lemma {:induction false} OccursMember(s: seq<Entry>, i: nat)
    requires i < |s|
    ensures Occurs(s, s[i].key) >= 1
  {
    if i < |s| - 1 {
      OccursMember(s[..|s| - 1], i);
    }
  }

  lemma PaddedLength(padded: seq<Entry>, memory: seq<Entry>, x: nat)
    requires x >= 2
    requires forall w :: Occurs(padded, w) == if Occurs(memory, w) >= 1 then LeastPower(x, Occurs(memory, w)) + 1 else 0
    ensures |padded| == PaddedTo(memory, x, Keywords(memory))
  {
    hide Occurs, LeastPower, Keywords;
    var ks := Keywords(memory);
    forall i | 0 <= i < |padded| ensures padded[i].key in ks {
      OccursMember(padded, i);
    }
    LengthIsSum(padded, ks);
    SumIsPadded(padded, memory, x, ks);
  }

  lemma {:induction false} PowOdd(x: nat, e: nat)
    requires x % 2 == 1
    ensures Pow(x, e) % 2 == 1
  {
    if e > 0 {
      PowOdd(x, e - 1);
      OddTimesOdd(x, Pow(x, e - 1));
    }
  }

  lemma OddTimesOdd(a: nat, b: nat)
    requires a % 2 == 1 && b % 2 == 1
    ensures (a * b) % 2 == 1
  {
    var p, q := a / 2, b / 2;
    assert a == 2 * p + 1 && b == 2 * q + 1;
    assert a * b == 2 * (2 * (p * q) + p + q) + 1;
  }

  lemma EvenTimes(a: nat, b: nat)
    requires a % 2 == 0 || b % 2 == 0
    ensures (a * b) % 2 == 0
  {
    if a % 2 == 0 {
      assert a * b == 2 * ((a / 2) * b);
    } else {
      assert a * b == 2 * (a * (b / 2));
    }
  }

  lemma LeastPowerOdd(x: nat, n: nat)
    requires x >= 2 && x % 2 == 1
    ensures LeastPower(x, n) % 2 == 1
  {
    hide Pow, CeilLog;
    PowOdd(x, CeilLog(x, n));
  }

  lemma EvenSum(a: nat, b: nat)
    requires a % 2 == 0 && b % 2 == 1
    ensures (a + b + 1) % 2 == 0
  {
  }

  lemma PaddedToLast(memory: seq<Entry>, x: nat, ks: seq<Bytes>)
    requires x >= 2 && ks != []
    ensures PaddedTo(memory, x, ks) ==
              PaddedTo(memory, x, ks[..|ks| - 1]) + LeastPower(x, Occurs(memory, ks[|ks| - 1])) + 1
  {
    hide Occurs, LeastPower;
  }

  lemma PaddedToNone(memory: seq<Entry>, x: nat)
    requires x >= 2
    ensures PaddedTo(memory, x, []) == 0
  {
  }

  lemma {:induction false} PaddedEven(memory: seq<Entry>, x: nat, ks: seq<Bytes>)
    requires x >= 2 && x % 2 == 1
    ensures PaddedTo(memory, x, ks) % 2 == 0
  {
    hide *;
    if ks == [] {
      PaddedToNone(memory, x);
    } else {
      var front := ks[..|ks| - 1];
      PaddedToLast(memory, x, ks);
      PaddedEven(memory, x, front);
      LeastPowerOdd(x, Occurs(memory, ks[|ks| - 1]));
      EvenSum(PaddedTo(memory, x, front), LeastPower(x, Occurs(memory, ks[|ks| - 1])));
    }
  }

  /** A keyword that occurs takes two entries or more. */
  lemma PaddedAtLeastTwo(memory: seq<Entry>, x: nat)
    requires x >= 2
    ensures if memory == [] then PaddedTo(memory, x, Keywords(memory)) == 0
              else PaddedTo(memory, x, Keywords(memory)) >= 2
  {
    hide Occurs, PaddedTo;
    if memory == [] {
      PaddedToNone(memory, x);
    } else {
      OccursMember(memory, 0);
      var ks := Keywords(memory);
      assert memory[0].key in ks;
      assert ks[|ks| - 1] in ks;
      PaddedToLast(memory, x, ks);
    }
  }

  lemma AtLeastFour(x: nat, n: nat)
    requires x >= 2 && n >= 2
    ensures x * n >= 4
  {
    MulMono(2, n, x);
  }

  lemma EvenPlusOne(n: nat)
    requires n % 2 == 0
    ensures (n + 1) % 2 == 1
  {
  }

  lemma OddSize(x: nat, n: nat)
    requires x % 2 == 0 || n % 2 == 0
    ensures (x * n + 1) % 2 == 1
  {
    EvenTimes(x, n);
    EvenPlusOne(x * n);
  }

  /** However the padding goes, the number of tuples is odd, and 1 only for no tuples. */
  lemma LoadedSizeOdd(memory: seq<Entry>, x: nat)
    requires x >= 2
    ensures LoadedSize(memory, x) % 2 == 1
    ensures if memory == [] then LoadedSize(memory, x) == 1 else LoadedSize(memory, x) >= 5
  {
    hide Occurs, LeastPower, PaddedTo, Keywords;
    var n := PaddedTo(memory, x, Keywords(memory));
    if x % 2 == 1 {
      PaddedEven(memory, x, Keywords(memory));
    }
    OddSize(x, n);
    PaddedAtLeastTwo(memory, x);
    if memory != [] {
      AtLeastFour(x, n);
    }
  }

  /** "ok" and "but", the words of a padding dummy. */
  const OK: Bytes := [111, 107]
  const BUT: Bytes := [98, 117, 116]

  /** The padding dummy made as entry i. Its id is not below the number of entries there
      are at that time. */
  function Filler(i: nat, dummyId: nat -> nat): (d: Document)
    ensures d.id >= i && d.keywords == [BUT]
  {
    NewDocument(dummyId(i) + i, [OK, BUT])
  }

  /** From `memory0` on there are fillers only, for keywords of `memory0`. */
  ghost predicate Fillers(memory0: seq<Entry>, memory: seq<Entry>, dummyId: nat -> nat) {
    && memory0 <= memory
    && forall i :: |memory0| <= i < |memory| ==>
        Occurs(memory0, memory[i].key) >= 1 && memory[i].doc == Filler(i, dummyId)
  }

  /** The dummy of the second loop made as entry i. */
  function Stray(i: nat, dummyId: nat -> nat, dummyKeyword: nat -> Bytes, dummyWords: nat -> seq<Bytes>): (e: Entry)
    requires |dummyWords(i)| == 3
    ensures e.key == dummyKeyword(i) && e.doc.id >= i && |e.doc.keywords| == 2
  {
    Entry(dummyKeyword(i), NewDocument(dummyId(i) + i, dummyWords(i)))
  }

  /** All that padding adds: fillers up to `size` entries, strays from there on. */
  ghost predicate Added(memory0: seq<Entry>, size: nat, memory: seq<Entry>, dummyId: nat -> nat,
          dummyKeyword: nat -> Bytes, dummyWords: nat -> seq<Bytes>)
    requires forall i :: |dummyWords(i)| == 3
  {
    && |memory0| <= size <= |memory| && Fillers(memory0, memory[..size], dummyId)
    && (forall i :: size <= i < |memory| ==> memory[i] == Stray(i, dummyId, dummyKeyword, dummyWords))
  }

  /** The inner loop: one keyword filled up to `size` entries and one more. */
  method PadKeyword(memory0: seq<Entry>, w: Bytes, have: nat, size: nat,
          dummyId: nat -> nat) returns (memory: seq<Entry>)
    requires have <= size
    ensures memory0 <= memory
    ensures forall v :: Occurs(memory, v) == Occurs(memory0, v) + if v == w then size + 1 - have else 0
    ensures forall i :: |memory0| <= i < |memory| ==> memory[i] == Entry(w, Filler(i, dummyId))
  {
    memory := memory0;
    for i := have to size + 1
      invariant memory0 <= memory
      invariant forall v :: Occurs(memory, v) == Occurs(memory0, v) + if v == w then i - have else 0
      invariant forall i :: |memory0| <= i < |memory| ==> memory[i] == Entry(w, Filler(i, dummyId))
    {
      var dummy := Entry(w, Filler(|memory|, dummyId));
      forall v ensures Occurs(memory + [dummy], v) == Occurs(memory, v) + if v == w then 1 else 0 {
        OccursAppend(memory, dummy, v);
      }
      hide Occurs;
      memory := memory + [dummy];
    }
  }

  /** Keywords still to be padded are as they were; padded ones have the least power as
      their count, and one entry more than that. */
  ghost predicate PaddedExcept(memory: seq<Entry>, count: map<Bytes, nat>, count0: map<Bytes, nat>, x: nat,
          keys: set<Bytes>)
    requires x >= 2
  {
    && count.Keys == count0.Keys
    && (forall w :: w in count0 && w in keys ==> count[w] == count0[w] && Occurs(memory, w) == count0[w])
    && (forall w :: w in count0 && w !in keys ==>
        count[w] == LeastPower(x, count0[w]) && Occurs(memory, w) == count[w] + 1)
    && (forall w :: w !in count0 ==> Occurs(memory, w) == 0)
  }

  lemma PadOne(memory: seq<Entry>, count: map<Bytes, nat>, count0: map<Bytes, nat>, x: nat, keys: set<Bytes>,
          w: Bytes, next: seq<Entry>)
    requires x >= 2 && PaddedExcept(memory, count, count0, x, keys) && w in keys && w in count0
    requires forall v :: Occurs(next, v) == Occurs(memory, v) + if v == w then LeastPower(x, count0[w]) + 1 - count0[w]
              else 0
    ensures PaddedExcept(next, count[w := LeastPower(x, count0[w])], count0, x, keys - {w})
  {
    hide Occurs, LeastPower;
  }

  /** The first loop of adj_padding, keyword by keyword. */
  method PadKeywords(memory0: seq<Entry>, count0: map<Bytes, nat>, x: nat, dummyId: nat -> nat)
    returns (memory: seq<Entry>, count: map<Bytes, nat>)
    requires x >= 2 && Tallies(memory0, count0)
    ensures PaddedExcept(memory, count, count0, x, {}) && Fillers(memory0, memory, dummyId)
  {
    hide Occurs, LeastPower;
    memory, count := memory0, count0;
    var keys := count0.Keys;
    while keys != {}
      invariant keys <= count0.Keys && Fillers(memory0, memory, dummyId)
      invariant PaddedExcept(memory, count, count0, x, keys)
      decreases |keys|
    {
      ghost var some := Member(keys);
      var w :| w in keys;
      var size := LeastPower(x, count[w]);
      var next := PadKeyword(memory, w, count[w], size, dummyId);
      PadOne(memory, count, count0, x, keys, w, next);
      memory := next;
      count := count[w := size];
      keys := keys - {w};
    }
  }

  /** After padding: original keywords have one entry more than their count, whatever
      dummy keywords were drawn; keywords that only dummies have are counted exactly. */
  ghost predicate Padded(memory: seq<Entry>, count: map<Bytes, nat>, originals: set<Bytes>) {
    && originals <= count.Keys
    && (forall w :: w in originals ==> Occurs(memory, w) == count[w] + 1)
    && (forall w :: w !in originals ==> Occurs(memory, w) == CountOf(count, w))
  }

  method AdjPadding(memory0: seq<Entry>, count0: map<Bytes, nat>, x: nat, dummyId: nat -> nat,
          dummyKeyword: nat -> Bytes, dummyWords: nat -> seq<Bytes>)
    returns (memory: seq<Entry>, count: map<Bytes, nat>, ghost padded: seq<Entry>)
    requires x >= 2 && (forall i :: |dummyWords(i)| == 3) && Tallies(memory0, count0)
    ensures memory0 <= padded <= memory && |memory| == x * |padded| + 1 == LoadedSize(memory0, x) > |memory0|
    ensures forall w :: w in count0 ==> Occurs(padded, w) == LeastPower(x, count0[w]) + 1
    ensures |padded| == PaddedTo(memory0, x, Keywords(memory0))
    ensures Added(memory0, |padded|, memory, dummyId, dummyKeyword, dummyWords)
    ensures Padded(memory, count, count0.Keys)
    ensures forall w :: w in count0 && (forall i :: dummyKeyword(i) != w) ==>
              w in count && count[w] == LeastPower(x, count0[w])
  {
    hide Occurs, LeastPower, PaddedExcept, Padded, Tallies, Keywords, PaddedTo, Filler, Stray;
    memory, count := PadKeywords(memory0, count0, x, dummyId);
    PadKeywordsDone(memory, count, count0, x);
    PadKeywordsLength(memory, count, memory0, count0, x);
    padded := memory;
    var memorySize := |memory|;
    AtLeastTwice(x, memorySize);
    for i := memorySize to x * memorySize + 1
      invariant memory0 <= padded <= memory && |memory| == i
      invariant Added(memory0, |padded|, memory, dummyId, dummyKeyword, dummyWords)
      invariant Padded(memory, count, count0.Keys)
      invariant forall w :: w in count0 && (forall i :: dummyKeyword(i) != w) ==>
                w in count && count[w] == LeastPower(x, count0[w])
    {
      var dummy := Stray(i, dummyId, dummyKeyword, dummyWords);
      PadDummy(memory, count, count0.Keys, dummy);
      memory := memory + [dummy];
      count := count[dummy.key := CountOf(count, dummy.key) + 1];
    }
  }

  lemma PadDummy(memory: seq<Entry>, count: map<Bytes, nat>, originals: set<Bytes>, dummy: Entry)
    requires Padded(memory, count, originals)
    ensures Padded(memory + [dummy], count[dummy.key := CountOf(count, dummy.key) + 1], originals)
    ensures originals <= count.Keys
  {
    forall v ensures Occurs(memory + [dummy], v) == Occurs(memory, v) + if dummy.key == v then 1 else 0 {
      OccursAppend(memory, dummy, v);
    }
    hide Occurs;
  }

  lemma PadKeywordsDone(memory: seq<Entry>, count: map<Bytes, nat>, count0: map<Bytes, nat>, x: nat)
    requires x >= 2 && PaddedExcept(memory, count, count0, x, {})
    ensures Padded(memory, count, count0.Keys)
    ensures forall w :: w in count0 ==>
              w in count && count[w] == LeastPower(x, count0[w]) && Occurs(memory, w) == LeastPower(x, count0[w]) + 1
  {
    hide Occurs, LeastPower;
    assert forall w :: w in count ==> w in count.Keys;
  }

  lemma PadKeywordsLength(memory: seq<Entry>, count: map<Bytes, nat>, memory0: seq<Entry>, count0: map<Bytes, nat>,
          x: nat)
    requires x >= 2 && Tallies(memory0, count0) && PaddedExcept(memory, count, count0, x, {})
    ensures |memory| == PaddedTo(memory0, x, Keywords(memory0))
  {
    hide Occurs, LeastPower, Keywords, PaddedTo;
    assert forall w :: w in count <==> w in count.Keys;
    PaddedLength(memory, memory0, x);
  }

  lemma AtLeastTwice(x: nat, n: nat)
    requires x >= 2
    ensures x * n >= n
  {
    MulMono(1, x, n);
  }

  // ---- sorting --------------------------------------------------------------

  ghost predicate Sorted(s: seq<Entry>) {
    forall i, j :: 0 <= i < j < |s| ==> !Less(s[j].key, s[i].key)
  }

  /** The same by the order of std::string, spelled out. */
  ghost predicate Nondescending(s: seq<Entry>) {
    forall i, j :: 0 <= i < j < |s| ==> !Precedes(s[j].key, s[i].key)
  }

  lemma SortedIff(s: seq<Entry>)
    ensures Sorted(s) <==> Nondescending(s)
  {
    forall a: Bytes, b: Bytes ensures Less(a, b) <==> Precedes(a, b) {
      LessIff(a, b);
    }
    hide Less, Precedes;
  }

  /** All that is known of the result of std::sort; ties may come in any order. */
  ghost predicate IsSortOf(s: seq<Entry>, memory: seq<Entry>) {
    Sorted(s) && multiset(s) == multiset(memory)
  }

  lemma NotLessTransitive(a: Bytes, b: Bytes, c: Bytes)
    requires !Less(b, a) && !Less(c, b)
    ensures !Less(c, a)
  {
    Trichotomy(a, b);
    Trichotomy(b, c);
    if Less(c, a) {
      if Less(a, b) {
        Transitive(c, a, b);
      }
    }
  }

  function Inserted(s: seq<Entry>, e: Entry): (r: seq<Entry>)
    ensures multiset(r) == multiset(s) + multiset{e}
  {
    if s == [] then [e]
    else if Less(e.key, s[0].key) then [e] + s
    else
      assert s == [s[0]] + s[1..];
      [s[0]] + Inserted(s[1..], e)
  }

  lemma SortedFront(s: seq<Entry>, e: Entry)
    requires Sorted(s) && (s != [] ==> !Less(s[0].key, e.key))
    ensures Sorted([e] + s)
  {
    var r := [e] + s;
    forall i | 0 <= i < |s| ensures !Less(s[i].key, e.key) {
      if i > 0 {
        NotLessTransitive(e.key, s[0].key, s[i].key);
      }
    }
    assert forall i :: 1 <= i < |r| ==> r[i] == s[i - 1];
  }

  lemma SortedTail(s: seq<Entry>)
    requires Sorted(s) && s != []
    ensures Sorted(s[1..]) && forall y :: y in s[1..] ==> !Less(y.key, s[0].key)
  {
  }

  lemma {:induction false} InsertedSorted(s: seq<Entry>, e: Entry)
    requires Sorted(s)
    ensures Sorted(Inserted(s, e))
    ensures forall y :: y in Inserted(s, e) ==> y == e || y in s
  {
    if s != [] {
      SortedTail(s);
      hide Sorted;
      if Less(e.key, s[0].key) {
        Asymmetric(e.key, s[0].key);
        SortedFront(s, e);
      } else {
        var rest := Inserted(s[1..], e);
        InsertedSorted(s[1..], e);
        assert rest != [] ==> rest[0] in rest;
        SortedFront(rest, s[0]);
      }
    }
  }

  method Sort(memory: seq<Entry>) returns (s: seq<Entry>)
    ensures IsSortOf(s, memory) && Nondescending(s)
  {
    s := [];
    for i := 0 to |memory|
      invariant IsSortOf(s, memory[..i])
    {
      InsertedSorted(s, memory[i]);
      assert memory[..i + 1] == memory[..i] + [memory[i]];
      hide Sorted;
      s := Inserted(s, memory[i]);
    }
    assert memory[..|memory|] == memory;
    SortedIff(s);
  }

  // ---- runs -----------------------------------------------------------------

  /** The number of leading entries with keys below w. */
  function Before(s: seq<Entry>, w: Bytes): (n: nat)
    ensures n <= |s|
    ensures forall i :: 0 <= i < n ==> Less(s[i].key, w)
    ensures n < |s| ==> !Less(s[n].key, w)
  {
    if s == [] || !Less(s[0].key, w) then 0 else 1 + Before(s[1..], w)
  }

  lemma {:induction false} OccursSplit(a: seq<Entry>, b: seq<Entry>, w: Bytes)
    ensures Occurs(a + b, w) == Occurs(a, w) + Occurs(b, w)
  {
    if b == [] {
      assert a + b == a;
    } else {
      OccursSplit(a, b[..|b| - 1], w);
      assert (a + b)[..|a + b| - 1] == a + b[..|b| - 1];
    }
  }

  lemma {:induction false} OccursNone(s: seq<Entry>, w: Bytes)
    requires forall i :: 0 <= i < |s| ==> s[i].key != w
    ensures Occurs(s, w) == 0
  {
    if s != [] {
      OccursNone(s[..|s| - 1], w);
    }
  }

  lemma {:induction false} OccursAll(s: seq<Entry>, w: Bytes)
    requires forall i :: 0 <= i < |s| ==> s[i].key == w
    ensures Occurs(s, w) == |s|
  {
    if s != [] {
      OccursAll(s[..|s| - 1], w);
    }
  }

  /** The number of leading entries with key w. */
  function Leading(s: seq<Entry>, w: Bytes): (n: nat)
    ensures n <= |s|
    ensures forall i :: 0 <= i < n ==> s[i].key == w
    ensures n < |s| ==> s[n].key != w
  {
    if s == [] || s[0].key != w then 0 else 1 + Leading(s[1..], w)
  }

  /** In a sorted list the entries of a keyword form one run, as long as the keyword
      has entries. */
  lemma RunOf(s: seq<Entry>, w: Bytes)
    requires Sorted(s)
    ensures Before(s, w) + Occurs(s, w) <= |s|
    ensures forall i :: 0 <= i < |s| ==> (s[i].key == w <==> Before(s, w) <= i < Before(s, w) + Occurs(s, w))
  {
    hide Sorted, Before, Leading, Less, Occurs;
    var p := Before(s, w);
    var n := Leading(s[p..], w);
    forall i | 0 <= i < p ensures s[i].key != w {
      Asymmetric(s[i].key, w);
    }
    forall i | p + n <= i < |s| ensures s[i].key != w {
      PastTheRun(s, w, i);
    }
    var rest := s[p..];
    forall i | p <= i < p + n ensures s[i].key == w {
      assert s[i] == rest[i - p];
    }
    RunLength(s, w, p, n);
  }

  lemma RunLength(s: seq<Entry>, w: Bytes, p: nat, n: nat)
    requires p + n <= |s|
    requires forall i :: 0 <= i < |s| ==> (s[i].key == w <==> p <= i < p + n)
    ensures Occurs(s, w) == n
  {
    hide Occurs;
    var a, b, c := s[..p], s[p..p + n], s[p + n..];
    OccursNone(a, w);
    OccursAll(b, w);
    OccursNone(c, w);
    OccursSplit(a, b, w);
    OccursSplit(a + b, c, w);
    assert a + b + c == s;
  }

  lemma PastTheRun(s: seq<Entry>, w: Bytes, i: nat)
    requires Sorted(s) && i < |s|
    requires Before(s, w) + Leading(s[Before(s, w)..], w) <= i
    ensures s[i].key != w
  {
    var p := Before(s, w);
    var q := p + Leading(s[p..], w);
    assert s[q] == s[p..][q - p];
    Trichotomy(s[q].key, w);
    assert !Less(s[q].key, w) by {
      if q > p {
        assert s[q - 1] == s[p..][q - 1 - p];
      }
    }
    if i > q {
      Asymmetric(w, s[q].key);
    }
  }

  ghost predicate FirstOccurrences(s: seq<Entry>, first: map<Bytes, nat>) {
    && (forall i :: 0 <= i < |s| ==> s[i].key in first)
    && (forall w :: w in first ==> first[w] < |s| && s[first[w]].key == w && forall i :: 0 <= i < first[w] ==>
        s[i].key != w)
  }

  method FirstOccurrence(s: seq<Entry>) returns (first: map<Bytes, nat>)
    ensures FirstOccurrences(s, first)
  {
    first := map[];
    for i := 0 to |s|
      invariant FirstOccurrences(s[..i], first)
    {
      assert s[..i + 1] == s[..i] + [s[i]];
      if s[i].key !in first {
        first := first[s[i].key := i];
      }
    }
    assert s[..|s|] == s;
  }

  /** first_occurrence[w] is where the run of w begins. */
  lemma FirstIsBefore(s: seq<Entry>, first: map<Bytes, nat>, w: Bytes)
    requires Sorted(s) && FirstOccurrences(s, first)
    ensures w in first <==> Occurs(s, w) >= 1
    ensures w in first ==> first[w] == Before(s, w)
  {
    RunOf(s, w);
    hide Occurs, Before, Sorted;
    if Occurs(s, w) >= 1 {
      assert s[Before(s, w)].key == w;
    }
  }

  /** Occurs counts by multiset, so a permutation keeps it. */
  lemma {:induction false} OccursOfMultiset(a: seq<Entry>, b: seq<Entry>, w: Bytes)
    requires multiset(a) == multiset(b)
    ensures Occurs(a, w) == Occurs(b, w)
  {
    if a == [] {
      assert |multiset(b)| == 0;
    } else {
      var e, front := a[|a| - 1], a[..|a| - 1];
      assert a == front + [e];
      assert e in multiset(b);
      var k :| 0 <= k < |b| && b[k] == e;
      var p, q := b[..k], b[k + 1..];
      assert b == p + [e] + q;
      SamePermutation(front, p, e, q);
      OccursOfMultiset(front, p + q, w);
      hide Occurs;
      OccursAppend(front, e, w);
      OccursSplit(p + [e], q, w);
      OccursSplit(p, q, w);
      OccursAppend(p, e, w);
    }
  }

  lemma SamePermutation(front: seq<Entry>, p: seq<Entry>, e: Entry, q: seq<Entry>)
    requires multiset(front + [e]) == multiset(p + [e] + q)
    ensures multiset(front) == multiset(p + q)
  {
    assert multiset(front + [e]) == multiset(front) + multiset{e};
    assert multiset(p + [e] + q) == multiset(p) + multiset{e} + multiset(q);
    assert multiset(p + q) == multiset(p) + multiset(q);
    forall x: Entry ensures multiset(front)[x] == multiset(p + q)[x] {
      assert (multiset(front) + multiset{e})[x] == (multiset(p) + multiset{e} + multiset(q))[x];
    }
  }
}
