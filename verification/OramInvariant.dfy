/** What every request keeps: the path invariant, and each block exactly once. */
module OramInvariant {
  import opened Powers
  import opened HeapLayout
  import opened OramSpec

  // ---- sums of multisets --------------------------------------------------

  lemma Carry<T>(a: multiset<T>, s: multiset<T>, r: multiset<T>, t: multiset<T>, x: multiset<T>)
    requires s + r == t + x
    ensures (a + s) + r == (a + t) + x
  {
    forall e: T ensures ((a + s) + r)[e] == ((a + t) + x)[e] {
      assert (s + r)[e] == (t + x)[e];
    }
  }

  lemma Append<T>(a: multiset<T>, b: multiset<T>, c: multiset<T>, d: multiset<T>, e: multiset<T>)
    requires a + d == e && c + b == d
    ensures (a + b) + c == e
  {
    forall x: T ensures ((a + b) + c)[x] == e[x] {
      assert (c + b)[x] == d[x];
    }
  }

  /** With `before` the array sum with the hole, `p` what fills it and `c` the
      split of the stash: moving blocks from stash to bucket conserves the total. */
  lemma Refill<T>(stash: multiset<T>, chosen: multiset<T>, kept: multiset<T>,
                  hole: multiset<T>, prior: multiset<T>, before: multiset<T>, filled: multiset<T>)
    requires chosen + kept == stash
    requires filled + prior == before + chosen
    requires hole + prior == before
    ensures kept + filled == stash + hole
  {
    forall x: T ensures (kept + filled)[x] == (stash + hole)[x] {
      assert (chosen + kept)[x] == stash[x];
      assert (filled + prior)[x] == (before + chosen)[x];
      assert (hole + prior)[x] == before[x];
    }
  }

  // ---- lists of blocks ----------------------------------------------------

  lemma {:induction false} RealMembers(blocks: seq<Block>)
    ensures forall b :: b in Real(blocks) <==> b in blocks && b.index != -1
  {
    if blocks != [] {
      RealMembers(blocks[1..]);
      assert blocks == [blocks[0]] + blocks[1..];
    }
  }

  lemma {:induction false} RealAppend(a: seq<Block>, b: seq<Block>)
    ensures Real(a + b) == Real(a) + Real(b)
  {
    hide Real;
    if a == [] {
      assert a + b == b;
      EmptyReal();
    } else {
      RealAppend(a[1..], b);
      assert (a + b)[1..] == a[1..] + b;
      RealHead(a);
      RealHead(a + b);
    }
  }

  lemma RealHead(a: seq<Block>)
    requires a != []
    ensures Real(a) == (if a[0].index != -1 then [a[0]] else []) + Real(a[1..])
  {
  }

  lemma {:induction false} RealOfReal(blocks: seq<Block>)
    requires forall b :: b in blocks ==> b.index != -1
    ensures Real(blocks) == blocks
  {
    if blocks != [] {
      RealOfReal(blocks[1..]);
    }
  }

  lemma {:induction false} RealOfDummies(blocks: seq<Block>)
    requires forall b :: b in blocks ==> b.index == -1
    ensures Real(blocks) == []
  {
    if blocks != [] {
      RealOfDummies(blocks[1..]);
    }
  }

  /** Real keeps every real block as often as it occurs. */
  lemma {:induction false} RealCounts(blocks: seq<Block>, b: Block)
    ensures multiset(Real(blocks))[b] == if b.index != -1 then multiset(blocks)[b] else 0
  {
    if blocks != [] {
      RealCounts(blocks[1..], b);
      RealHead(blocks);
      hide Real;
      assert blocks == [blocks[0]] + blocks[1..];
    }
  }

  lemma RealSplit(stash: seq<Block>, chosen: seq<Block>, kept: seq<Block>)
    requires multiset(chosen) + multiset(kept) == multiset(stash)
    ensures multiset(Real(chosen)) + multiset(Real(kept)) == multiset(Real(stash))
  {
    hide Real;
    forall b: Block ensures (multiset(Real(chosen)) + multiset(Real(kept)))[b] == multiset(Real(stash))[b] {
      RealCounts(chosen, b);
      RealCounts(kept, b);
      RealCounts(stash, b);
      assert (multiset(chosen) + multiset(kept))[b] == multiset(stash)[b];
    }
  }

  ghost predicate IsSplit(levels: nat, positions: map<int, nat>, leaf: nat, level: nat, stash: seq<Block>,
          chosen: seq<Block>, kept: seq<Block>)
    requires level < levels
  {
    && multiset(chosen) + multiset(kept) == multiset(stash)
    && (forall b :: b in chosen ==> b in stash && Fits(levels, positions, leaf, level, b))
    && (forall b :: b in kept ==> b in stash)
  }

  lemma SplitGrows(levels: nat, positions: map<int, nat>, leaf: nat, level: nat, head: Block, tail: seq<Block>,
          chosen: seq<Block>, kept: seq<Block>)
    requires level < levels && IsSplit(levels, positions, leaf, level, tail, chosen, kept)
    ensures Fits(levels, positions, leaf, level, head) ==>
              IsSplit(levels, positions, leaf, level, [head] + tail, [head] + chosen, kept)
    ensures IsSplit(levels, positions, leaf, level, [head] + tail, chosen, [head] + kept)
  {
    hide Fits;
    assert multiset([head] + tail) == multiset{head} + multiset(tail);
    assert multiset([head] + chosen) == multiset{head} + multiset(chosen);
    assert multiset([head] + kept) == multiset{head} + multiset(kept);
  }

  lemma ChosenKeptStep(levels: nat, positions: map<int, nat>, leaf: nat, level: nat, head: Block, tail: seq<Block>,
          room: nat)
    requires level < levels && room > 0
    ensures var stash := [head] + tail;
            if Fits(levels, positions, leaf, level, head) then
              && Chosen(levels, positions, leaf, level, stash, room) ==
                  [head] + Chosen(levels, positions, leaf, level, tail, room - 1)
              && Kept(levels, positions, leaf, level, stash, room) ==
                  Kept(levels, positions, leaf, level, tail, room - 1)
            else
              && Chosen(levels, positions, leaf, level, stash, room) ==
                  Chosen(levels, positions, leaf, level, tail, room)
              && Kept(levels, positions, leaf, level, stash, room) ==
                  [head] + Kept(levels, positions, leaf, level, tail, room)
  {
    hide Fits;
    assert ([head] + tail)[1..] == tail;
  }

  lemma NothingChosen(levels: nat, positions: map<int, nat>, leaf: nat, level: nat, stash: seq<Block>, room: nat)
    requires level < levels && (stash == [] || room == 0)
    ensures Chosen(levels, positions, leaf, level, stash, room) == [] &&
              Kept(levels, positions, leaf, level, stash, room) == stash
  {
  }

  lemma {:induction false} ChosenKeptIsSplit(levels: nat, positions: map<int, nat>, leaf: nat, level: nat,
          stash: seq<Block>, room: nat)
    requires level < levels
    ensures IsSplit(levels, positions, leaf, level, stash,
                    Chosen(levels, positions, leaf, level, stash, room),
                        Kept(levels, positions, leaf, level, stash, room))
  {
    hide Fits, Chosen, Kept;
    if stash == [] || room == 0 {
      NothingChosen(levels, positions, leaf, level, stash, room);
    } else {
      hide IsSplit;
      var head, tail := stash[0], stash[1..];
      assert stash == [head] + tail;
      ChosenKeptStep(levels, positions, leaf, level, head, tail, room);
      var left := if Fits(levels, positions, leaf, level, head) then room - 1 else room;
      ChosenKeptIsSplit(levels, positions, leaf, level, tail, left);
      SplitGrows(levels, positions, leaf, level, head, tail,
                 Chosen(levels, positions, leaf, level, tail, left), Kept(levels, positions, leaf, level, tail, left));
    }
  }

  /** Choosing and keeping divide the stash between them. */
  lemma ChosenKeptSplit(levels: nat, positions: map<int, nat>, leaf: nat, level: nat, stash: seq<Block>, room: nat)
    requires level < levels
    ensures multiset(Chosen(levels, positions, leaf, level, stash, room))
              + multiset(Kept(levels, positions, leaf, level, stash, room)) == multiset(stash)
    ensures forall b :: b in Chosen(levels, positions, leaf, level, stash, room) ==>
              b in stash && Fits(levels, positions, leaf, level, b)
    ensures forall b :: b in Kept(levels, positions, leaf, level, stash, room) ==> b in stash
  {
    hide Fits, Chosen, Kept;
    ChosenKeptIsSplit(levels, positions, leaf, level, stash, room);
  }

  // ---- sums over the bucket array -----------------------------------------

  lemma {:induction false} SumRealUpdate(buckets: seq<Slots>, p: nat, bucket: Slots)
    requires p < |buckets|
    ensures SumReal(buckets[p := bucket]) + multiset(Real(buckets[p])) == SumReal(buckets) + multiset(Real(bucket))
  {
    if p == 0 {
      assert buckets[p := bucket][1..] == buckets[1..];
    } else {
      SumRealUpdate(buckets[1..], p - 1, bucket);
      assert buckets[p := bucket][1..] == buckets[1..][p - 1 := bucket];
      Carry(multiset(Real(buckets[0])), SumReal(buckets[1..][p - 1 := bucket]), multiset(Real(buckets[p])),
            SumReal(buckets[1..]), multiset(Real(bucket)));
    }
  }

  lemma {:induction false} SumRealMember(buckets: seq<Slots>, b: Block)
    ensures b in SumReal(buckets) <==> b.index != -1 && exists p :: 0 <= p < |buckets| && b in buckets[p]
  {
    if buckets != [] {
      SumRealMember(buckets[1..], b);
      RealMembers(buckets[0]);
      assert forall p :: 1 <= p < |buckets| ==> buckets[p] == buckets[1..][p - 1];
      assert forall p :: 0 <= p < |buckets| - 1 ==> buckets[1..][p] == buckets[p + 1];
    }
  }

  // ---- the path taken out of the array ------------------------------------

  /** The array with the path's buckets at levels 0 .. k-1 emptied. */
  ghost function Clear(levels: nat, buckets: seq<Slots>, leaf: nat, k: nat): (r: seq<Slots>)
    requires levels >= 1 && |buckets| == NumBuckets(levels) && leaf < NumLeaves(levels) && k <= levels
    ensures |r| == |buckets|
  {
    if k == 0 then buckets
    else
      PositionRange(levels, leaf, k - 1);
      Clear(levels, buckets, leaf, k - 1)[Position(levels, leaf, k - 1) := []]
  }

  lemma {:induction false} ClearAt(levels: nat, buckets: seq<Slots>, leaf: nat, k: nat, p: nat)
    requires levels >= 1 && |buckets| == NumBuckets(levels) && leaf < NumLeaves(levels) && k <= levels
    requires p < |buckets|
    ensures (exists l: nat :: l < k && Position(levels, leaf, l) == p) ==> Clear(levels, buckets, leaf, k)[p] == []
    ensures !(exists l: nat :: l < k && Position(levels, leaf, l) == p) ==>
              Clear(levels, buckets, leaf, k)[p] == buckets[p]
  {
    if k != 0 {
      ClearAt(levels, buckets, leaf, k - 1, p);
      PositionRange(levels, leaf, k - 1);
    }
  }

  lemma ClearAtLevel(levels: nat, buckets: seq<Slots>, leaf: nat, k: nat, level: nat)
    requires levels >= 1 && |buckets| == NumBuckets(levels) && leaf < NumLeaves(levels) && k <= level < levels
    ensures Position(levels, leaf, level) < |buckets|
    ensures Clear(levels, buckets, leaf, k)[Position(levels, leaf, level)] == buckets[Position(levels, leaf, level)]
  {
    var p := Position(levels, leaf, level);
    PositionRange(levels, leaf, level);
    ClearAt(levels, buckets, leaf, k, p);
    forall l: nat | l < k ensures Position(levels, leaf, l) != p {
      if Position(levels, leaf, l) == p {
        LevelsDisjoint(levels, leaf, l, leaf, level);
      }
    }
  }

  /** Reading a path moves its blocks: nothing appears and nothing disappears. */
  lemma {:induction false} ReadMoves(levels: nat, buckets: seq<Slots>, leaf: nat, k: nat)
    requires levels >= 1 && |buckets| == NumBuckets(levels) && leaf < NumLeaves(levels) && k <= levels
    ensures multiset(ReadPath(levels, buckets, leaf, k)) + SumReal(Clear(levels, buckets, leaf, k)) == SumReal(buckets)
  {
    hide *;
    if k == 0 {
      PathNothing(levels, buckets, leaf);
    } else {
      ReadMoves(levels, buckets, leaf, k - 1);
      PathStep(levels, buckets, leaf, k);
      var p := Position(levels, leaf, k - 1);
      var before := Clear(levels, buckets, leaf, k - 1);
      SumRealUpdate(before, p, []);
      EmptyReal();
      var seen, here := ReadPath(levels, buckets, leaf, k - 1), Real(buckets[p]);
      Append(multiset(seen), multiset(here), SumReal(before[p := []]), SumReal(before), SumReal(buckets));
    }
  }

  lemma PathNothing(levels: nat, buckets: seq<Slots>, leaf: nat)
    requires levels >= 1 && |buckets| == NumBuckets(levels) && leaf < NumLeaves(levels)
    ensures ReadPath(levels, buckets, leaf, 0) == [] && Clear(levels, buckets, leaf, 0) == buckets
  {
  }

  lemma PathStep(levels: nat, buckets: seq<Slots>, leaf: nat, k: nat)
    requires levels >= 1 && |buckets| == NumBuckets(levels) && leaf < NumLeaves(levels) && 0 < k <= levels
    ensures Position(levels, leaf, k - 1) < |buckets|
    ensures ReadPath(levels, buckets, leaf, k)
              == ReadPath(levels, buckets, leaf, k - 1) + Real(buckets[Position(levels, leaf, k - 1)])
    ensures Clear(levels, buckets, leaf, k) == Clear(levels, buckets, leaf, k - 1)[Position(levels, leaf, k - 1) := []]
    ensures Clear(levels, buckets, leaf, k - 1)[Position(levels, leaf, k - 1)] == buckets[Position(levels, leaf, k - 1)]
  {
    hide Real, Position, NumBuckets, NumLeaves;
    ClearAtLevel(levels, buckets, leaf, k - 1, k - 1);
  }

  lemma EmptyReal()
    ensures Real([]) == []
  {
  }

  lemma {:induction false} ClearUpdate(levels: nat, buckets: seq<Slots>, leaf: nat, k: nat, level: nat, bucket: Slots)
    requires levels >= 1 && |buckets| == NumBuckets(levels) && leaf < NumLeaves(levels) && k <= level < levels
    requires Position(levels, leaf, level) < |buckets|
    ensures Clear(levels, buckets[Position(levels, leaf, level) := bucket], leaf, k)
              == Clear(levels, buckets, leaf, k)[Position(levels, leaf, level) := bucket]
  {
    if k != 0 {
      ClearUpdate(levels, buckets, leaf, k - 1, level, bucket);
      PositionRange(levels, leaf, k - 1);
      if Position(levels, leaf, k - 1) == Position(levels, leaf, level) {
        LevelsDisjoint(levels, leaf, k - 1, leaf, level);
      }
    }
  }

  ghost predicate AllReal(stash: seq<Block>) {
    forall b :: b in stash ==> b.index != -1
  }

  lemma DummiesAreDummies(n: nat)
    ensures forall b :: b in Dummies(n) ==> b.index == -1
  {
  }

  lemma ChosenBucket(s: State, leaf: nat, level: nat)
    requires Shaped(s) && leaf < NumLeaves(s.levels) && level < s.levels
    requires Position(s.levels, leaf, level) < |s.buckets|
    ensures Real(EvictLevel(s, leaf, level).buckets[Position(s.levels, leaf, level)])
              == Real(Chosen(s.levels, s.positions, leaf, level, s.stash, s.bucketSize))
  {
    hide Chosen, Kept, Fits, Position, Real, Dummies, NumBuckets, NumLeaves;
    var chosen := Chosen(s.levels, s.positions, leaf, level, s.stash, s.bucketSize);
    var fill := Dummies(s.bucketSize - |chosen|);
    RealAppend(chosen, fill);
    DummiesAreDummies(s.bucketSize - |chosen|);
    RealOfDummies(fill);
    assert Real(chosen) + [] == Real(chosen);
  }

  lemma EvictUnfold(s: State, leaf: nat, k: nat)
    requires Shaped(s) && leaf < NumLeaves(s.levels) && 0 < k <= s.levels
    ensures Evict(s, leaf, k) == Evict(EvictLevel(s, leaf, k - 1), leaf, k - 1)
    ensures Position(s.levels, leaf, k - 1) < |s.buckets|
    ensures forall p :: 0 <= p < |s.buckets| && p != Position(s.levels, leaf, k - 1)
              ==> EvictLevel(s, leaf, k - 1).buckets[p] == s.buckets[p]
  {
    PositionRange(s.levels, leaf, k - 1);
  }

  lemma EvictNothing(s: State, leaf: nat)
    requires Shaped(s) && leaf < NumLeaves(s.levels)
    ensures Evict(s, leaf, 0) == s
    ensures Contents(s) == multiset(Real(s.stash)) + SumReal(Clear(s.levels, s.buckets, leaf, 0))
  {
  }

  /** Eviction conserves blocks: what was in the stash and off the path is, with
      the same multiplicities, what is in the stash and all the buckets afterwards. */
  lemma {:induction false} EvictConserves(s: State, leaf: nat, k: nat)
    requires Shaped(s) && leaf < NumLeaves(s.levels) && k <= s.levels
    ensures Contents(Evict(s, leaf, k)) == multiset(Real(s.stash)) + SumReal(Clear(s.levels, s.buckets, leaf, k))
    decreases k
  {
    hide *;
    if k == 0 {
      EvictNothing(s, leaf);
    } else {
      EvictUnfold(s, leaf, k);
      EvictConserves(EvictLevel(s, leaf, k - 1), leaf, k - 1);
      EvictLevelConserves(s, leaf, k - 1);
    }
  }

  lemma EvictLevelConserves(s: State, leaf: nat, level: nat)
    requires Shaped(s) && leaf < NumLeaves(s.levels) && level < s.levels
    ensures var next := EvictLevel(s, leaf, level);
            multiset(Real(next.stash)) + SumReal(Clear(s.levels, next.buckets, leaf, level))
              == multiset(Real(s.stash)) + SumReal(Clear(s.levels, s.buckets, leaf, level + 1))
  {
    var p := Position(s.levels, leaf, level);
    PositionRange(s.levels, leaf, level);
    var next := EvictLevel(s, leaf, level);
    var before := Clear(s.levels, s.buckets, leaf, level);
    ChosenBucket(s, leaf, level);
    ClearUpdate(s.levels, s.buckets, leaf, level, level, next.buckets[p]);
    SumRealUpdate(before, p, next.buckets[p]);
    SumRealUpdate(before, p, []);
    ChosenKeptSplit(s.levels, s.positions, leaf, level, s.stash, s.bucketSize);
    RealSplit(s.stash, Chosen(s.levels, s.positions, leaf, level, s.stash, s.bucketSize), next.stash);
    Refill(multiset(Real(s.stash)), multiset(Real(next.buckets[p])), multiset(Real(next.stash)),
           SumReal(before[p := []]), multiset(Real(before[p])), SumReal(before), SumReal(before[p := next.buckets[p]]));
  }

  ghost predicate OnPathAbove(levels: nat, leaf: nat, k: nat, p: nat)
    requires k <= levels
  {
    exists l: nat :: l < k && Position(levels, leaf, l) == p
  }

  lemma OnPathAboveStep(levels: nat, leaf: nat, k: nat, p: nat)
    requires 0 < k <= levels && leaf < NumLeaves(levels)
    ensures OnPathAbove(levels, leaf, k, p) <==>
              OnPathAbove(levels, leaf, k - 1, p) || p == Position(levels, leaf, k - 1)
    ensures !(OnPathAbove(levels, leaf, k - 1, p) && p == Position(levels, leaf, k - 1))
  {
    if OnPathAbove(levels, leaf, k - 1, p) && p == Position(levels, leaf, k - 1) {
      var l: nat :| l < k - 1 && Position(levels, leaf, l) == p;
      LevelsDisjoint(levels, leaf, l, leaf, k - 1);
    }
  }

  ghost predicate WellFilled(s: State, p: nat)
    requires Shaped(s) && p < |s.buckets|
  {
    && |s.buckets[p]| == s.bucketSize
    && forall b :: b in s.buckets[p] && b.index != -1 ==> OnPath(s.levels, LeafOf(s.positions, b.index), p)
  }

  /** Off the accessed path nothing is touched; on it every bucket is refilled to
      exactly `bucketSize` with blocks that belong there. */
  lemma {:induction false} EvictBuckets(s: State, leaf: nat, k: nat, p: nat)
    requires Shaped(s) && leaf < NumLeaves(s.levels) && k <= s.levels && p < |s.buckets|
    ensures if OnPathAbove(s.levels, leaf, k, p) then WellFilled(Evict(s, leaf, k), p)
            else Evict(s, leaf, k).buckets[p] == s.buckets[p]
    decreases k
  {
    if k != 0 {
      hide *;
      EvictUnfold(s, leaf, k);
      var next := EvictLevel(s, leaf, k - 1);
      EvictBuckets(next, leaf, k - 1, p);
      OnPathAboveStep(s.levels, leaf, k, p);
      EvictLevelFills(s, leaf, k - 1);
    }
  }

  lemma EvictLevelFills(s: State, leaf: nat, level: nat)
    requires Shaped(s) && leaf < NumLeaves(s.levels) && level < s.levels
    ensures Position(s.levels, leaf, level) < |s.buckets|
    ensures WellFilled(EvictLevel(s, leaf, level), Position(s.levels, leaf, level))
  {
    var p := Position(s.levels, leaf, level);
    PositionRange(s.levels, leaf, level);
    var next := EvictLevel(s, leaf, level);
    ChosenBucket(s, leaf, level);
    RealMembers(next.buckets[p]);
    RealMembers(Chosen(s.levels, s.positions, leaf, level, s.stash, s.bucketSize));
    ChosenKeptSplit(s.levels, s.positions, leaf, level, s.stash, s.bucketSize);
    forall b | b in next.buckets[p] && b.index != -1
      ensures OnPath(s.levels, LeafOf(s.positions, b.index), p)
    {
      assert b in Real(next.buckets[p]);
      assert Position(s.levels, LeafOf(s.positions, b.index), level) == p;
    }
  }

  // ---- no index twice in the stash -----------------------------------------

  lemma DistinctHead(head: Block, tail: seq<Block>)
    requires Distinct([head] + tail)
    ensures Distinct(tail) && forall b :: b in tail ==> b.index != head.index
  {
    var stash := [head] + tail;
    assert stash[0] == head;
    assert forall i :: 0 <= i < |tail| ==> tail[i] == stash[i + 1];
  }

  lemma {:induction false} KeptDistinct(levels: nat, positions: map<int, nat>, leaf: nat, level: nat,
          stash: seq<Block>, room: nat)
    requires level < levels && Distinct(stash)
    ensures Distinct(Kept(levels, positions, leaf, level, stash, room))
    ensures forall b :: b in Kept(levels, positions, leaf, level, stash, room) ==> b in stash
  {
    hide Fits;
    if stash != [] && room != 0 {
      var head, tail := stash[0], stash[1..];
      assert stash == [head] + tail;
      DistinctHead(head, tail);
      if Fits(levels, positions, leaf, level, head) {
        KeptDistinct(levels, positions, leaf, level, tail, room - 1);
      } else {
        KeptDistinct(levels, positions, leaf, level, tail, room);
      }
    }
  }

  lemma {:induction false} EvictDistinct(s: State, leaf: nat, k: nat)
    requires Shaped(s) && leaf < NumLeaves(s.levels) && k <= s.levels && Distinct(s.stash)
    ensures Distinct(Evict(s, leaf, k).stash)
    decreases k
  {
    hide Distinct, EvictLevel, Evict;
    if k == 0 {
      EvictNothing(s, leaf);
    } else {
      EvictUnfold(s, leaf, k);
      KeptIsNext(s, leaf, k - 1);
      KeptDistinct(s.levels, s.positions, leaf, k - 1, s.stash, s.bucketSize);
      EvictDistinct(EvictLevel(s, leaf, k - 1), leaf, k - 1);
    }
  }

  lemma KeptIsNext(s: State, leaf: nat, level: nat)
    requires Shaped(s) && leaf < NumLeaves(s.levels) && level < s.levels
    ensures EvictLevel(s, leaf, level).stash == Kept(s.levels, s.positions, leaf, level, s.stash, s.bucketSize)
  {
  }

  lemma CountTwice(stash: seq<Block>, i: nat, j: nat)
    requires i < j < |stash| && stash[i] == stash[j]
    ensures multiset(stash)[stash[i]] >= 2
  {
    assert stash == stash[..j] + [stash[j]] + stash[j + 1..];
    assert stash[i] in stash[..j];
  }

  /** Indices are distinct if real blocks are unique and -1 occurs at most once. */
  lemma DistinctFrom(stash: seq<Block>)
    requires Unique(multiset(Real(stash)))
    requires forall i, j :: 0 <= i < j < |stash| ==> stash[i].index != -1 || stash[j].index != -1
    ensures Distinct(stash)
  {
    hide Real;
    RealMembers(stash);
    forall i, j | 0 <= i < j < |stash| ensures stash[i].index != stash[j].index {
      if stash[i].index == stash[j].index {
        var r := multiset(Real(stash));
        assert stash[i] in Real(stash) && stash[j] in Real(stash);
        assert stash[i] in r && stash[j] in r;
        CountTwice(stash, i, j);
        RealCounts(stash, stash[i]);
      }
    }
  }

  // ---- which blocks go ----------------------------------------------------------

  /** How many blocks may live in the path's bucket at `level`. */
  function Fitting(levels: nat, positions: map<int, nat>, leaf: nat, level: nat, stash: seq<Block>): nat
    requires level < levels
  {
    if stash == [] then 0
    else (if Fits(levels, positions, leaf, level, stash[0]) then 1 else 0)
         + Fitting(levels, positions, leaf, level, stash[1..])
  }

  /** The fitting blocks go in the order of the stash while there is room: block i is at the
      place that the number of fitting blocks before it gives. */
  lemma {:induction false} ChosenInOrder(levels: nat, positions: map<int, nat>, leaf: nat, level: nat,
          stash: seq<Block>, room: nat, i: nat)
    requires level < levels && i < |stash|
    ensures var chosen := Chosen(levels, positions, leaf, level, stash, room);
            var before := Fitting(levels, positions, leaf, level, stash[..i]);
            var all := Fitting(levels, positions, leaf, level, stash);
            && |chosen| == (if all < room then all else room)
            && (Fits(levels, positions, leaf, level, stash[i]) && before < room ==>
                  before < |chosen| && chosen[before] == stash[i])
    decreases |stash|
  {
    hide Fits;
    var tail, left := stash[1..], if Fits(levels, positions, leaf, level, stash[0]) && room > 0 then room - 1 else room;
    if |stash| > 1 {
      ChosenInOrder(levels, positions, leaf, level, tail, left, if i > 0 then i - 1 else 0);
    }
    if i > 0 {
      assert stash[..i][1..] == tail[..i - 1];
    }
  }
}
