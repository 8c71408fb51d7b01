/** Index -1 marks dummy blocks. It is the one index on which an ORAM is not a plain map. */
module DummyIndex {
  import opened Wrappers
  import opened Powers
  import opened HeapLayout
  import opened OramSpec
  import opened OramInvariant
  import opened OramRefinement
  import opened EvictionOptimality

  lemma {:induction false} FindInFront(a: seq<Block>, b: seq<Block>, index: int)
    requires forall x :: x in b ==> x.index != index
    ensures Find(a + b, index) == if Find(a, index) < |a| then Find(a, index) else |a + b|
  {
    if a == [] {
      assert a + b == b;
      var i := Find(b, index);
      assert i < |b| ==> b[i] in b;
    } else {
      assert (a + b)[1..] == a[1..] + b;
      FindInFront(a[1..], b, index);
    }
  }

  /** Index -1 marks dummies: what was written to it and evicted into a bucket is not
      found again, a read of -1 answers from the stash alone. */
  lemma DummyIndexReadsStashOnly(s: State, q: Request)
    requires Shaped(s) && LeavesInRange(s) && q.op == Read && q.index == -1
    ensures StepReply(s, q) == Answer(Read, s.stash, -1)
  {
    hide ReadPath, Position, NumBuckets, Find;
    var leaf := LeafOf(s.positions, -1);
    PathReal(s.levels, s.buckets, leaf, s.levels);
    FindInFront(s.stash, ReadPath(s.levels, s.buckets, leaf, s.levels), -1);
  }

  // ---- a write to -1 is lost -------------------------------------------------

  lemma {:induction false} PathOfDummies(levels: nat, z: nat, leaf: nat, k: nat)
    requires levels >= 1 && leaf < NumLeaves(levels) && k <= levels
    ensures ReadPath(levels, seq(NumBuckets(levels), _ => Dummies(z)), leaf, k) == []
  {
    hide Real, Position, NumBuckets, NumLeaves, Dummies;
    if k > 0 {
      PathOfDummies(levels, z, leaf, k - 1);
      PathStep(levels, seq(NumBuckets(levels), _ => Dummies(z)), leaf, k);
      DummiesAreDummies(z);
      RealOfDummies(Dummies(z));
    } else {
      PathNothing(levels, seq(NumBuckets(levels), _ => Dummies(z)), leaf);
    }
  }

  /** A single block always finds room on the path. */
  lemma OneBlockFits(s: State, leaf: nat, b: Block)
    requires Shaped(s) && LeavesOk(s.levels, s.positions, leaf) && s.stash == [b] && s.bucketSize >= 1
    ensures Evict(s, leaf, s.levels).stash == []
  {
    hide Evict, Overflow, NumBuckets, NumLeaves, Depth;
    EvictExactSize(s, leaf);
    OverflowIsMax(s.levels, s.positions, leaf, s.stash, s.bucketSize, s.levels);
    forall j: nat | j < s.levels ensures Excess(s.levels, s.positions, leaf, s.stash, s.bucketSize, j) <= 0 {
      MulMono(1, s.bucketSize, j + 1);
    }
  }

  /** A value written under -1 into a fresh ORAM is gone at once, whatever leaves are drawn. */
  lemma DummyIndexIsLost(levels: nat, z: nat, positions: map<int, nat>, data: Bytes, write: nat, read: nat)
    requires levels >= 1 && z >= 1 && write < NumLeaves(levels)
    requires forall i :: i in positions ==> positions[i] < NumLeaves(levels)
    ensures var s := Step(Fresh(levels, z, positions), Access(Write, -1, data, write));
            LeavesInRange(s) && s.stash == [] && StepReply(s, Access(Read, -1, [], read)) == []
  {
    var s, q := Fresh(levels, z, positions), Access(Write, -1, data, write);
    hide Step, StepReply, Evict, ReadPath, NumBuckets, NumLeaves, Dummies;
    var leaf := LeafOf(s.positions, -1);
    StepUnfold(s, q);
    StepLeaves(s, q);
    PathOfDummies(levels, z, leaf, levels);
    var b := Block(write, -1, data);
    assert Operate(Write, [], -1, write, data) == [b];
    OneBlockFits(s.(positions := Placed(s.positions, q), stash := [b]), leaf, b);
    DummyIndexReadsStashOnly(Step(s, q), Access(Read, -1, [], read));
  }

  // ---- exactly when an index behaves ------------------------------------------

  ghost predicate OnlyAt(levels: nat, qs: seq<Request>, index: int)
    requires levels >= 1
  {
    forall q :: q in qs ==> q.index == index && Legal(levels, q)
  }

  /** A run from a fresh ORAM gives the replies of a plain map. */
  ghost predicate SameReplies(levels: nat, z: nat, positions: map<int, nat>, qs: seq<Request>)
    requires levels >= 1 && forall i :: i in positions ==> positions[i] < NumLeaves(levels)
    requires forall q :: q in qs ==> Legal(levels, q)
  {
    Run(Fresh(levels, z, positions), qs).1 == MapRun(map[], qs).1
  }

  /** Every run on this index alone does. */
  ghost predicate RefinesAt(index: int) {
    forall levels: nat, z: nat, positions: map<int, nat>, qs: seq<Request> ::
      && levels >= 1
      && (forall i :: i in positions ==> positions[i] < NumLeaves(levels))
      && OnlyAt(levels, qs, index)
      ==> SameReplies(levels, z, positions, qs)
  }

  lemma TwoReplies(s: State, m: map<int, Bytes>, p: Request, q: Request)
    requires Shaped(s) && LeavesInRange(s) && Legal(s.levels, p) && Legal(s.levels, q)
    ensures LeavesInRange(Step(s, p))
    ensures Run(s, [p, q]).1 == [StepReply(s, p), StepReply(Step(s, p), q)]
    ensures MapRun(m, [p, q]).1 == [MapReply(m, p), MapReply(MapStep(m, p), q)]
  {
    hide Step, StepReply, MapStep, MapReply, Legal, Run, MapRun, LeavesInRange;
    RunUnfold(s, [p, q]);
    MapRunUnfold(m, [p, q]);
    assert [p, q][1..] == [q];
    RunUnfold(Step(s, p), [q]);
    MapRunUnfold(MapStep(m, p), [q]);
    assert [q][1..] == [];
    StepLeaves(Step(s, p), q);
    NoRun(Step(Step(s, p), q));
    MapRunUnfold(MapStep(MapStep(m, p), q), []);
  }

  /** In no fresh ORAM with room in its buckets does a write to -1 come back. */
  lemma LostReplies(levels: nat, z: nat, positions: map<int, nat>, data: Bytes)
    requires levels >= 1 && z >= 1 && data != []
    requires forall i :: i in positions ==> positions[i] < NumLeaves(levels)
    ensures var qs := [Access(Write, -1, data, 0), Access(Read, -1, [], 0)];
            OnlyAt(levels, qs, -1) && !SameReplies(levels, z, positions, qs)
  {
    hide Step, StepReply, Inv, Run, MapRun, Fresh, View, LeavesInRange;
    var write, read := Access(Write, -1, data, 0), Access(Read, -1, [], 0);
    var none: map<int, Bytes> := map[];
    FreshInv(levels, z, positions);
    InvParts(Fresh(levels, z, positions));
    DummyIndexIsLost(levels, z, positions, data, 0, 0);
    TwoReplies(Fresh(levels, z, positions), none, write, read);
    PlainReplies(none, write, read, data);
  }

  lemma PlainReplies(m: map<int, Bytes>, write: Request, read: Request, data: Bytes)
    requires write.op == Write && read.op == Read && write.index == read.index && write.data == data
    ensures MapReply(MapStep(m, write), read) == data
  {
  }

  /** The ORAM refines a plain map on an index, over all runs, exactly when the index is
      not the dummy marker. */
  lemma RefinesExactly(index: int)
    ensures RefinesAt(index) <==> index != -1
  {
    hide SameReplies;
    if index == -1 {
      NotRefined();
    } else {
      forall levels: nat, z: nat, positions: map<int, nat>, qs: seq<Request>
        | levels >= 1 && (forall i :: i in positions ==> positions[i] < NumLeaves(levels)) && OnlyAt(levels, qs, index)
        ensures SameReplies(levels, z, positions, qs)
      {
        RealIndexRefines(levels, z, positions, qs, index);
      }
    }
  }

  lemma NotRefined()
    ensures !RefinesAt(-1)
  {
    hide SameReplies, NumLeaves, OnlyAt;
    LostReplies(1, 1, map[], [0]);
  }

  lemma RealIndexRefines(levels: nat, z: nat, positions: map<int, nat>, qs: seq<Request>, index: int)
    requires levels >= 1 && forall i :: i in positions ==> positions[i] < NumLeaves(levels)
    requires OnlyAt(levels, qs, index) && index != -1
    ensures SameReplies(levels, z, positions, qs)
  {
    hide Step, StepReply, Inv, Run, MapRun, NumLeaves, View;
    FreshInv(levels, z, positions);
    var none: map<int, Bytes> := map[];
    assert none - {-1} == none;
    RunRefines(Fresh(levels, z, positions), none, qs);
  }
}
