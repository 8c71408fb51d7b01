/** The client side of the ORAM: a stash and a position map over the bucket storage.
    Every method is proved against the transition system of OramSpec. */
module PathOram {
  import opened Wrappers
  import opened Powers
  import opened HeapLayout
  import opened OramSpec
  import opened Buckets
  import opened OramInvariant
  import opened OramRefinement

  // ---- erasing the evicted blocks from the stash ---------------------------

  function RemoveAll(stash: seq<Block>, ids: seq<int>): seq<Block>
    decreases |ids|
  {
    if ids == [] then stash else RemoveAll(RemoveFirst(stash, ids[0]), ids[1..])
  }

  function Indices(blocks: seq<Block>): (r: seq<int>)
    ensures |r| == |blocks|
  {
    seq(|blocks|, i requires 0 <= i < |blocks| => blocks[i].index)
  }

  lemma {:induction false} RemoveAllKeepsHead(head: Block, tail: seq<Block>, ids: seq<int>)
    requires head.index !in ids
    ensures RemoveAll([head] + tail, ids) == [head] + RemoveAll(tail, ids)
    decreases |ids|
  {
    hide RemoveFirst;
    if ids != [] {
      RemoveFirstKeepsHead(head, tail, ids[0]);
      RemoveAllKeepsHead(head, RemoveFirst(tail, ids[0]), ids[1..]);
    }
  }

  lemma RemoveFirstKeepsHead(head: Block, tail: seq<Block>, index: int)
    requires head.index != index
    ensures RemoveFirst([head] + tail, index) == [head] + RemoveFirst(tail, index)
  {
    hide Find;
    var stash, i := [head] + tail, Find(tail, index);
    FindBehind(head, tail, index);
    if i < |tail| {
      assert stash[..i + 1] == [head] + tail[..i];
      assert stash[i + 2..] == tail[i + 1..];
    }
  }

  lemma FindBehind(head: Block, tail: seq<Block>, index: int)
    requires head.index != index
    ensures Find([head] + tail, index) == 1 + Find(tail, index)
  {
    assert ([head] + tail)[1..] == tail;
  }

  lemma RemoveAllTail(ids: seq<int>, i: nat, stash: seq<Block>)
    requires i < |ids|
    ensures RemoveAll(stash, ids[i..]) == RemoveAll(RemoveFirst(stash, ids[i]), ids[i + 1..])
  {
    assert ids[i..][1..] == ids[i + 1..];
  }

  /** Erasing by index takes out exactly the chosen blocks when indices are distinct. */
  lemma {:induction false} RemoveAllChosen(levels: nat, positions: map<int, nat>, leaf: nat, level: nat,
          stash: seq<Block>, room: nat)
    requires level < levels && Distinct(stash)
    ensures RemoveAll(stash, Indices(Chosen(levels, positions, leaf, level, stash, room)))
              == Kept(levels, positions, leaf, level, stash, room)
  {
    hide Fits, Chosen, Kept, Distinct, RemoveAll;
    if stash == [] || room == 0 {
      NothingChosen(levels, positions, leaf, level, stash, room);
      RemoveNothing(stash);
    } else {
      var head, tail := stash[0], stash[1..];
      assert stash == [head] + tail;
      DistinctHead(head, tail);
      ChosenKeptStep(levels, positions, leaf, level, head, tail, room);
      if Fits(levels, positions, leaf, level, head) {
        RemoveAllChosen(levels, positions, leaf, level, tail, room - 1);
        RemoveAllHead(head, tail, Chosen(levels, positions, leaf, level, tail, room - 1));
      } else {
        RemoveAllChosen(levels, positions, leaf, level, tail, room);
        ChosenKeptSplit(levels, positions, leaf, level, tail, room);
        RemoveAllKeepsHead(head, tail, Indices(Chosen(levels, positions, leaf, level, tail, room)));
      }
    }
  }

  lemma RemoveNothing(stash: seq<Block>)
    ensures RemoveAll(stash, Indices([])) == stash
  {
  }

  lemma RemoveAllHead(head: Block, tail: seq<Block>, rest: seq<Block>)
    ensures RemoveAll([head] + tail, Indices([head] + rest)) == RemoveAll(tail, Indices(rest))
  {
    var ids := Indices([head] + rest);
    assert ids[1..] == Indices(rest);
    assert RemoveFirst([head] + tail, ids[0]) == tail;
  }

  // ---- what the server sees -----------------------------------------------

  ghost function ReadTrace(levels: nat, leaf: nat, k: nat): seq<Touch>
    requires k <= levels
  {
    if k == 0 then [] else ReadTrace(levels, leaf, k - 1) + [ReadAt(Position(levels, leaf, k - 1))]
  }

  ghost function WriteTrace(levels: nat, leaf: nat, k: nat): seq<Touch>
    requires k <= levels
  {
    if k == 0 then [] else [WroteAt(Position(levels, leaf, k - 1))] + WriteTrace(levels, leaf, k - 1)
  }

  /** Root-to-leaf reads, then leaf-to-root writes. Neither operation, index, data nor
      stash occurs in it. */
  ghost function AccessTrace(levels: nat, leaf: nat): seq<Touch> {
    ReadTrace(levels, leaf, levels) + WriteTrace(levels, leaf, levels)
  }

  /** Position i of the first half is read at turn i and rewritten at the mirrored turn. */
  lemma AccessTraceShape(levels: nat, leaf: nat, level: nat)
    requires level < levels
    ensures |AccessTrace(levels, leaf)| == 2 * levels
    ensures AccessTrace(levels, leaf)[level] == ReadAt(Position(levels, leaf, level))
    ensures AccessTrace(levels, leaf)[2 * levels - 1 - level] == WroteAt(Position(levels, leaf, level))
  {
    ReadTraceAt(levels, leaf, levels, level);
    WriteTraceAt(levels, leaf, levels, level);
  }

  lemma {:induction false} ReadTraceAt(levels: nat, leaf: nat, k: nat, level: nat)
    requires level < k <= levels
    ensures |ReadTrace(levels, leaf, k)| == k &&
              ReadTrace(levels, leaf, k)[level] == ReadAt(Position(levels, leaf, level))
  {
    if k > 1 {
      ReadTraceAt(levels, leaf, k - 1, if level < k - 1 then level else 0);
    }
  }

  lemma {:induction false} WriteTraceAt(levels: nat, leaf: nat, k: nat, level: nat)
    requires level < k <= levels
    ensures |WriteTrace(levels, leaf, k)| == k
    ensures WriteTrace(levels, leaf, k)[k - 1 - level] == WroteAt(Position(levels, leaf, level))
  {
    if k > 1 {
      WriteTraceAt(levels, leaf, k - 1, if level < k - 1 then level else 0);
    }
  }

  /** What a list of accesses to these leaves shows. */
  ghost function PathsTrace(levels: nat, leaves: seq<nat>): seq<Touch> {
    if leaves == [] then []
    else PathsTrace(levels, leaves[..|leaves| - 1]) + AccessTrace(levels, leaves[|leaves| - 1])
  }

  lemma {:induction false} PathsAppend(levels: nat, a: seq<nat>, b: seq<nat>)
    ensures PathsTrace(levels, a + b) == PathsTrace(levels, a) + PathsTrace(levels, b)
  {
    hide AccessTrace;
    if b == [] {
      assert a + b == a;
    } else {
      PathsAppend(levels, a, b[..|b| - 1]);
      assert (a + b)[..|a + b| - 1] == a + b[..|b| - 1];
    }
  }

  lemma PathsOne(levels: nat, leaf: nat)
    ensures PathsTrace(levels, [leaf]) == AccessTrace(levels, leaf) && PathsTrace(levels, []) == []
  {
    hide AccessTrace;
    assert PathsTrace(levels, [leaf][..0]) == [];
  }

  // ---- construction -------------------------------------------------------

  function LevelsFor(numBlocks: nat): (r: nat)
    ensures r >= 1
  {
    CeilLog2(numBlocks) + 1
  }

  /** The guard behind the constructor's "not enough space" exception. */
  predicate TooSmall(bucketSize: nat, numBlocks: nat) {
    NumBuckets(LevelsFor(numBlocks)) * bucketSize < numBlocks
  }

  /** The least number of levels with a leaf for every block. */
  lemma LevelsForLeast(numBlocks: nat, levels: nat)
    requires levels >= 1
    ensures NumLeaves(LevelsFor(numBlocks)) >= numBlocks
    ensures levels < LevelsFor(numBlocks) ==> NumLeaves(levels) < numBlocks
  {
  }

  /** With exact logarithms the exception is raised for empty buckets only. */
  lemma TooSmallIff(bucketSize: nat, numBlocks: nat)
    requires numBlocks >= 1
    ensures TooSmall(bucketSize, numBlocks) <==> bucketSize == 0
  {
    hide NumBuckets, LevelsFor;
    EnoughBuckets(numBlocks);
    if bucketSize >= 1 {
      AtLeastOnce(NumBuckets(LevelsFor(numBlocks)), bucketSize);
    }
  }

  lemma EnoughBuckets(numBlocks: nat)
    requires numBlocks >= 1
    ensures NumBuckets(LevelsFor(numBlocks)) >= numBlocks
  {
  }

  lemma AtLeastOnce(a: nat, b: nat)
    requires b >= 1
    ensures a * b >= a
  {
    MulMono(1, b, a);
  }

  /** The random source: any leaf below its bound. */
  method RandomLeaf(bound: nat) returns (leaf: nat)
    requires bound >= 1
    ensures leaf < bound
  {
    leaf :| leaf < bound;
  }

  lemma FitsMeans(levels: nat, positions: map<int, nat>, leaf: nat, level: nat, b: Block)
    requires level < levels
    ensures Fits(levels, positions, leaf, level, b)
              == (Position(levels, leaf, level) == Position(levels, LeafOf(positions, b.index), level))
  {
  }

  class Oram {
    const storage: Storage
    const limit: BucketLimit
    const bucketSize: nat
    const numLevels: nat
    const numBlocks: nat
    var positionMap: map<int, nat>
    var stash: seq<Block>

    ghost function State(): State
      reads this, storage
    {
      OramSpec.State(numLevels, bucketSize, storage.buckets, stash, positionMap)
    }

    /** The shared limit equals this ORAM's bucket size, so no bucket ever drops a block. */
    ghost predicate Wired()
      reads this, storage, limit
    {
      && limit.maxSize == bucketSize
      && numLevels >= 1
      && storage.capacity == |storage.buckets| == NumBuckets(numLevels)
    }

    ghost predicate Valid()
      reads this, storage, limit
    {
      Wired() && Inv(State())
    }

    ghost function View(): map<int, Bytes>
      requires Valid()
      reads this, storage, limit
    {
      OramSpec.View(State())
    }

    constructor (storage: Storage, limit: BucketLimit, bucketSize: nat, numBlocks: nat)
      requires numBlocks >= 1 && !TooSmall(bucketSize, numBlocks)
      modifies storage, limit
      ensures Valid() && this.storage == storage && this.limit == limit && this.bucketSize == bucketSize
      ensures numLevels == LevelsFor(numBlocks)
      ensures forall i :: i in positionMap <==> 0 <= i < numBlocks
      ensures View() == map[] && State() == Fresh(numLevels, bucketSize, positionMap)
      ensures limit.maxSize == bucketSize
    {
      this.storage, this.limit := storage, limit;
      this.bucketSize, this.numBlocks := bucketSize, numBlocks;
      numLevels := LevelsFor(numBlocks);
      positionMap, stash := map[], [];
      new;
      hide Inv, OramSpec.View, TooSmall, LevelsFor;
      limit.ResetState();
      var r := limit.SetMaxSize(bucketSize);
      storage.SetCapacity(NumBuckets(numLevels));
      DrawPositions();
      FillStorage();
      FreshInv(numLevels, bucketSize, positionMap);
    }

    method DrawPositions()
      requires numLevels >= 1 && positionMap == map[]
      modifies this`positionMap
      ensures forall i :: i in positionMap <==> 0 <= i < numBlocks
      ensures forall i :: i in positionMap ==> positionMap[i] < NumLeaves(numLevels)
    {
      hide NumLeaves;
      for i := 0 to numBlocks
        invariant forall j :: j in positionMap <==> 0 <= j < i
        invariant forall j :: j in positionMap ==> positionMap[j] < NumLeaves(numLevels)
      {
        var leaf := RandomLeaf(NumLeaves(numLevels));
        positionMap := positionMap[i := leaf];
      }
    }

    method FillStorage()
      requires Wired()
      modifies storage
      ensures Wired() && storage.buckets == seq(NumBuckets(numLevels), _ => Dummies(bucketSize))
    {
      hide NumBuckets, Dummies;
      for i := 0 to NumBuckets(numLevels)
        invariant Wired()
        invariant forall p :: 0 <= p < i ==> storage.buckets[p] == Dummies(bucketSize)
      {
        var bucket := new Bucket();
        FillWithDummies(bucket);
        var r := storage.WriteBucket(i, bucket.blocks);
      }
    }

    method FillWithDummies(bucket: Bucket)
      requires limit.maxSize == bucketSize && |bucket.blocks| <= bucketSize
      modifies bucket
      ensures bucket.blocks == old(bucket.blocks) + Dummies(bucketSize - |old(bucket.blocks)|)
    {
      var counter := |bucket.blocks|;
      while counter < bucketSize
        invariant |bucket.blocks| == counter <= bucketSize
        invariant bucket.blocks == old(bucket.blocks) + Dummies(counter - |old(bucket.blocks)|)
      {
        bucket.AddBlock(limit, DUMMY);
        counter := counter + 1;
      }
    }

    /** The read phase: root to leaf, real blocks appended to the stash. */
    method ReadPhase(oldLeaf: nat)
      requires Wired() && oldLeaf < NumLeaves(numLevels)
      modifies this`stash, storage`log
      ensures stash == old(Fetched(State(), oldLeaf))
      ensures storage.log == old(storage.log) + ReadTrace(numLevels, oldLeaf, numLevels)
    {
      hide Position, Real, Clear, NumBuckets, NumLeaves;
      for i := 0 to numLevels
        invariant stash == old(stash) + ReadPath(numLevels, storage.buckets, oldLeaf, i)
        invariant storage.log == old(storage.log) + ReadTrace(numLevels, oldLeaf, i)
      {
        PathStep(numLevels, storage.buckets, oldLeaf, i + 1);
        var r := storage.ReadBucket(Position(numLevels, oldLeaf, i));
        KeepReal(r.value);
      }
    }

    method KeepReal(blocks: Slots)
      modifies this`stash
      ensures stash == old(stash) + Real(blocks)
    {
      for j := 0 to |blocks|
        invariant stash + Real(blocks[j..]) == old(stash) + Real(blocks)
      {
        assert blocks[j..][1..] == blocks[j + 1..];
        if blocks[j].index != -1 {
          stash := stash + [blocks[j]];
        }
      }
    }

    method Apply(op: Operation, blockIndex: int, newLeaf: int, newData: Bytes) returns (data: Bytes)
      modifies this`stash
      ensures stash == Operate(op, old(stash), blockIndex, newLeaf, newData)
      ensures data == Answer(op, old(stash), blockIndex)
      ensures op == Write && (forall b :: b in old(stash) ==> b.index != blockIndex) ==>
                stash == old(stash) + [Block(newLeaf, blockIndex, newData)]
    {
      data := [];
      var iter := Find(stash, blockIndex);
      if op == Write {
        if iter == |stash| {
          stash := stash + [Block(newLeaf, blockIndex, newData)];
        } else {
          stash := stash[iter := stash[iter].(data := newData)];
        }
      } else if iter != |stash| {
        data := stash[iter].data;
      }
    }

    /** Collects the blocks for one bucket, in stash order, until it is full. */
    method CollectForLevel(oldLeaf: nat, l: nat, bucket: Bucket) returns (bidEvicted: seq<int>)
      requires Wired() && l < numLevels && bucket.blocks == []
      modifies bucket
      ensures bucket.blocks == Chosen(numLevels, positionMap, oldLeaf, l, stash, bucketSize)
      ensures bidEvicted == Indices(bucket.blocks)
    {
      hide Position, Fits, NumBuckets, Chosen, Kept;
      bidEvicted := [];
      var counter, i := 0, 0;
      var pxl := Position(numLevels, oldLeaf, l);
      while i < |stash|
        invariant i <= |stash| && counter == |bucket.blocks| <= bucketSize
        invariant bucket.blocks + Chosen(numLevels, positionMap, oldLeaf, l, stash[i..], bucketSize - counter)
                    == Chosen(numLevels, positionMap, oldLeaf, l, stash, bucketSize)
        invariant bidEvicted == Indices(bucket.blocks)
      {
        if counter >= bucketSize {
          break;
        }
        var evicted := stash[i];
        assert stash[i..] == [evicted] + stash[i + 1..];
        ChosenKeptStep(numLevels, positionMap, oldLeaf, l, evicted, stash[i + 1..], bucketSize - counter);
        FitsMeans(numLevels, positionMap, oldLeaf, l, evicted);
        if pxl == Position(numLevels, LeafOf(positionMap, evicted.index), l) {
          bucket.AddBlock(limit, evicted);
          bidEvicted := bidEvicted + [evicted.index];
          counter := counter + 1;
        }
        i := i + 1;
      }
      NothingChosen(numLevels, positionMap, oldLeaf, l, stash[i..], bucketSize - counter);
    }

    method EraseFromStash(bidEvicted: seq<int>)
      modifies this`stash
      ensures stash == RemoveAll(old(stash), bidEvicted)
    {
      for i := 0 to |bidEvicted|
        invariant RemoveAll(stash, bidEvicted[i..]) == RemoveAll(old(stash), bidEvicted)
      {
        hide RemoveFirst;
        RemoveAllTail(bidEvicted, i, stash);
        EraseOne(bidEvicted[i]);
      }
    }

    method EraseOne(index: int)
      modifies this`stash
      ensures stash == RemoveFirst(old(stash), index)
    {
      for j := 0 to |stash|
        invariant stash == old(stash)
        invariant forall m :: 0 <= m < j ==> stash[m].index != index
      {
        if stash[j].index == index {
          FindUnique(stash, index, j);
          stash := stash[..j] + stash[j + 1..];
          return;
        }
      }
      FindUnique(stash, index, |stash|);
    }

    /** One turn of the eviction loop. */
    method EvictOne(oldLeaf: nat, l: nat)
      requires Wired() && oldLeaf < NumLeaves(numLevels) && l < numLevels && Distinct(stash)
      modifies this`stash, storage`buckets, storage`log
      ensures Wired() && Distinct(stash)
      ensures State() == old(EvictLevel(State(), oldLeaf, l))
      ensures storage.log == old(storage.log) + [WroteAt(Position(numLevels, oldLeaf, l))]
    {
      PositionRange(numLevels, oldLeaf, l);
      RemoveAllChosen(numLevels, positionMap, oldLeaf, l, stash, bucketSize);
      KeptDistinct(numLevels, positionMap, oldLeaf, l, stash, bucketSize);
      hide Position, Distinct, Chosen, Kept, RemoveAll;
      var bucket := new Bucket();
      var bidEvicted := CollectForLevel(oldLeaf, l, bucket);
      EraseFromStash(bidEvicted);
      FillWithDummies(bucket);
      var r := storage.WriteBucket(Position(numLevels, oldLeaf, l), bucket.blocks);
    }

    /** From the leaf end to the root. */
    method EvictionPhase(oldLeaf: nat)
      requires Wired() && oldLeaf < NumLeaves(numLevels) && Distinct(stash)
      modifies this`stash, storage`buckets, storage`log
      ensures Wired()
      ensures State() == old(Evict(State(), oldLeaf, numLevels))
      ensures storage.log == old(storage.log) + WriteTrace(numLevels, oldLeaf, numLevels)
    {
      hide Position, EvictLevel, Evict, Distinct, NumBuckets, NumLeaves;
      for l := numLevels downto 0
        invariant Wired() && Distinct(stash)
        invariant Evict(State(), oldLeaf, l) == old(Evict(State(), oldLeaf, numLevels))
        invariant storage.log + WriteTrace(numLevels, oldLeaf, l) ==
                  old(storage.log) + WriteTrace(numLevels, oldLeaf, numLevels)
      {
        EvictUnfold(State(), oldLeaf, l + 1);
        EvictOne(oldLeaf, l);
      }
      EvictNothing(State(), oldLeaf);
      assert storage.log + [] == storage.log;
    }

    method AccessHandler(op: Operation, blockIndex: int, oldLeaf: nat, newLeaf: int,
            newData: Bytes) returns (data: Bytes)
      requires Wired() && oldLeaf < NumLeaves(numLevels)
      requires Distinct(Operate(op, Fetched(State(), oldLeaf), blockIndex, newLeaf, newData))
      modifies this`stash, storage`buckets, storage`log
      ensures Wired()
      ensures State() == old(Handle(State(), op, blockIndex, oldLeaf, newLeaf, newData))
      ensures data == old(Reply(State(), op, blockIndex, oldLeaf))
      ensures storage.log == old(storage.log) + AccessTrace(numLevels, oldLeaf)
    {
      hide Position, Operate, Answer, Fetched, Evict, Distinct, ReadTrace, WriteTrace, NumBuckets, NumLeaves;
      ReadPhase(oldLeaf);
      data := Apply(op, blockIndex, newLeaf, newData);
      EvictionPhase(oldLeaf);
    }

    /** A request at a fresh random leaf. */
    method Access(op: Operation, blockIndex: int, newData: Bytes) returns (data: Bytes, ghost leaf: nat)
      requires Valid()
      modifies this, storage
      ensures Valid() && leaf < NumLeaves(numLevels)
      ensures positionMap == old(positionMap)[blockIndex := leaf]
      ensures State() == old(Step(State(), OramSpec.Access(op, blockIndex, newData, leaf)))
      ensures View() == old(RealStep(View(), OramSpec.Access(op, blockIndex, newData, leaf)))
      ensures data == old(StepReply(State(), OramSpec.Access(op, blockIndex, newData, leaf)))
      ensures blockIndex != -1 ==>
                data == if op == Read && blockIndex in old(View()) then old(View())[blockIndex] else []
      ensures storage.log == old(storage.log) + AccessTrace(numLevels, old(LeafOf(positionMap, blockIndex)))
    {
      hide Inv, OramSpec.View, Operate, Answer, Evict, Distinct, ReadPath, AccessTrace, NumBuckets, NumLeaves;
      var oldLeaf := LeafOf(positionMap, blockIndex);
      var drawn := RandomLeaf(NumLeaves(numLevels));
      leaf := drawn;
      ghost var q := OramSpec.Access(op, blockIndex, newData, leaf);
      ghost var s := State();
      StepDistinct(s, q);
      StepKeepsInv(s, q);
      StepRefines(s, q);
      positionMap := positionMap[blockIndex := drawn];
      data := AccessHandler(op, blockIndex, oldLeaf, positionMap[blockIndex], newData);
    }

    /** A request that keeps the block where the position map has it. `posTag` is the
        tag carried by the payload; it reaches the block and decides nothing. */
    method AccessDirect(op: Operation, blockIndex: int, posTag: int, newData: Bytes) returns (data: Bytes,
            ghost tag: int)
      requires Valid()
      modifies this, storage
      ensures Valid() && forall i :: LeafOf(positionMap, i) == LeafOf(old(positionMap), i)
      ensures State() == old(Step(State(), Direct(op, blockIndex, newData, tag)))
      ensures View() == old(RealStep(View(), Direct(op, blockIndex, newData, tag)))
      ensures data == old(StepReply(State(), Direct(op, blockIndex, newData, tag)))
      ensures blockIndex != -1 ==>
                data == if op == Read && blockIndex in old(View()) then old(View())[blockIndex] else []
      ensures storage.log == old(storage.log) + AccessTrace(numLevels, old(LeafOf(positionMap, blockIndex)))
    {
      hide Inv, OramSpec.View, Operate, Answer, Evict, Distinct, ReadPath, AccessTrace, NumBuckets, NumLeaves;
      var oldLeaf := LeafOf(positionMap, blockIndex);
      var newLeaf := posTag;
      if op == Read || blockIndex == 0 {
        newLeaf := RandomLeaf(NumLeaves(numLevels));
      }
      tag := newLeaf;
      ghost var q := Direct(op, blockIndex, newData, tag);
      ghost var s := State();
      StepDistinct(s, q);
      StepKeepsInv(s, q);
      StepRefines(s, q);
      positionMap := positionMap[blockIndex := oldLeaf];
      data := AccessHandler(op, blockIndex, oldLeaf, newLeaf, newData);
    }
  }

  /** Construction with its space check: nothing is touched when it throws. */
  method NewOram(storage: Storage, limit: BucketLimit, bucketSize: nat, numBlocks: nat) returns (r: Result<Oram>)
    requires numBlocks >= 1
    modifies storage, limit
    ensures r.Failure? <==> bucketSize == 0
    ensures r.Failure? ==> r.error == NoSpace && unchanged(storage) && unchanged(limit)
    ensures r.Success? ==>
              && fresh(r.value) && r.value.storage == storage && r.value.limit == limit
              && r.value.bucketSize == bucketSize && limit.maxSize == bucketSize
              && r.value.Valid() && r.value.View() == map[]
  {
    hide Oram.Valid, Oram.View, TooSmall, LevelsFor;
    TooSmallIff(bucketSize, numBlocks);
    if TooSmall(bucketSize, numBlocks) {
      return Failure(NoSpace);
    }
    var oram := new Oram(storage, limit, bucketSize, numBlocks);
    r := Success(oram);
  }

  // ---- what a sequence of accesses shows the server -----------------------------

  datatype Call = Call(op: Operation, index: int, data: Bytes)

  /** The leaf of a block before call i: drawn by the last call before that named it, or
      the one it had at first. */
  function LeafBefore(positions: map<int, nat>, calls: seq<Call>, drawn: seq<nat>, i: nat, index: int): nat
    requires i <= |calls| && i <= |drawn|
  {
    if i == 0 then LeafOf(positions, index)
    else if calls[i - 1].index == index then drawn[i - 1]
    else LeafBefore(positions, calls, drawn, i - 1, index)
  }

  lemma {:induction false} LeafBeforeStays(positions: map<int, nat>, calls: seq<Call>, drawn: seq<nat>, more: seq<nat>,
          i: nat, index: int)
    requires i <= |calls| && i <= |drawn| && drawn <= more
    ensures LeafBefore(positions, calls, more, i, index) == LeafBefore(positions, calls, drawn, i, index)
  {
    if i > 0 {
      LeafBeforeStays(positions, calls, drawn, more, i - 1, index);
    }
  }

  lemma LeafAfter(positions: map<int, nat>, calls: seq<Call>, drawn: seq<nat>, more: seq<nat>, i: nat, next: nat)
    requires i < |calls| && |drawn| == i && |more| == next == i + 1 && drawn <= more
    ensures forall j: nat, index | j <= i ::
              LeafBefore(positions, calls, more, j, index) == LeafBefore(positions, calls, drawn, j, index)
    ensures forall index :: LeafBefore(positions, calls, more, next, index)
                         == if calls[i].index == index then more[i] else LeafBefore(positions, calls, drawn, i, index)
  {
    forall j: nat, index | j <= i
      ensures LeafBefore(positions, calls, more, j, index) == LeafBefore(positions, calls, drawn, j, index)
    {
      LeafBeforeStays(positions, calls, drawn, more, j, index);
    }
  }

  lemma HasLevel(oram: Oram)
    requires oram.Valid()
    ensures oram.numLevels >= 1
  {
    hide Inv;
  }

  function Joined(traces: seq<seq<Touch>>): seq<Touch> {
    if traces == [] then [] else Joined(traces[..|traces| - 1]) + traces[|traces| - 1]
  }

  lemma JoinedMore(traces: seq<seq<Touch>>, trace: seq<Touch>)
    ensures Joined(traces + [trace]) == Joined(traces) + trace
  {
    assert (traces + [trace])[..|traces|] == traces;
  }

  /** Every access reads and rewrites the path to the leaf that was drawn for its block
      when it was last accessed, and to no other. */
  method Serve(oram: Oram, calls: seq<Call>)
    returns (replies: seq<Bytes>, ghost drawn: seq<nat>, ghost traces: seq<seq<Touch>>)
    requires oram.Valid()
    modifies oram, oram.storage
    ensures oram.Valid() && |replies| == |drawn| == |traces| == |calls|
    ensures forall i :: 0 <= i < |calls| ==> drawn[i] < NumLeaves(oram.numLevels)
    ensures oram.storage.log == old(oram.storage.log) + Joined(traces)
    ensures forall i :: 0 <= i < |calls| ==>
              var leaf := LeafBefore(old(oram.positionMap), calls, drawn, i, calls[i].index);
              traces[i] == AccessTrace(oram.numLevels, leaf)
    ensures forall index :: LeafOf(oram.positionMap, index)
                         == LeafBefore(old(oram.positionMap), calls, drawn, |calls|, index)
  {
    hide Oram.Valid, Oram.View, AccessTrace, Step, StepReply, RealStep, NumLeaves, Joined, LeafBefore;
    HasLevel(oram);
    NoneBefore(oram.positionMap, calls);
    replies, drawn, traces := [], [], [];
    ghost var first := oram.positionMap;
    NothingJoined(oram.storage.log);
    for i := 0 to |calls|
      invariant oram.Valid() && |replies| == |drawn| == |traces| == i
      invariant forall j :: 0 <= j < i ==> drawn[j] < NumLeaves(oram.numLevels)
      invariant oram.storage.log == old(oram.storage.log) + Joined(traces)
      invariant forall j :: 0 <= j < i ==>
                  traces[j] == AccessTrace(oram.numLevels, LeafBefore(first, calls, drawn, j, calls[j].index))
      invariant forall index :: LeafOf(oram.positionMap, index) == LeafBefore(first, calls, drawn, i, index)
    {
      var call := calls[i];
      ghost var was := oram.positionMap;
      ghost var trace := AccessTrace(oram.numLevels, LeafOf(oram.positionMap, call.index));
      ghost var leaf;
      var reply;
      reply, leaf := oram.Access(call.op, call.index, call.data);
      JoinedMore(traces, trace);
      LeafAfter(first, calls, drawn, drawn + [leaf], i, i + 1);
      forall index
        ensures LeafOf(oram.positionMap, index) == LeafBefore(first, calls, drawn + [leaf], i + 1, index)
      {
        assert LeafOf(was, index) == LeafBefore(first, calls, drawn, i, index);
      }
      replies, drawn, traces := replies + [reply], drawn + [leaf], traces + [trace];
    }
  }

  lemma NoneBefore(positions: map<int, nat>, calls: seq<Call>)
    ensures forall index :: LeafBefore(positions, calls, [], 0, index) == LeafOf(positions, index)
  {
  }

  lemma NothingJoined(log: seq<Touch>)
    ensures log + Joined([]) == log
  {
  }
}
