/** Greedy leaf-to-root eviction leaves as few blocks in the stash as any legal
    placement on the path could, and exactly how many that is. */
module EvictionOptimality {
  import opened Powers
  import opened HeapLayout
  import opened OramSpec
  import opened OramInvariant
  import opened OramRefinement

  // ---- how deep a block may go --------------------------------------------

  /** The deepest level that the paths to two leaves share, at most `level`. */
  function SharedFrom(levels: nat, a: nat, b: nat, level: nat): (r: nat)
    requires level < levels
    ensures r <= level
  {
    if level == 0 || Position(levels, a, level) == Position(levels, b, level) then level
    else SharedFrom(levels, a, b, level - 1)
  }

  /** d(b): the deepest level block b shares with the path. */
  function Depth(levels: nat, positions: map<int, nat>, leaf: nat, b: Block): (r: nat)
    requires levels >= 1
    ensures r < levels
  {
    SharedFrom(levels, LeafOf(positions, b.index), leaf, levels - 1)
  }

  lemma {:induction false} SharedFromMeaning(levels: nat, a: nat, b: nat, level: nat, l: nat)
    requires l <= level < levels && a < NumLeaves(levels) && b < NumLeaves(levels)
    ensures Position(levels, a, l) == Position(levels, b, l) <==> l <= SharedFrom(levels, a, b, level)
  {
    if Position(levels, a, level) == Position(levels, b, level) {
      PathsMeetUpward(levels, a, b, l, level);
    } else if level == 0 {
      PositionRange(levels, a, 0);
      PositionRange(levels, b, 0);
    } else if l < level {
      SharedFromMeaning(levels, a, b, level - 1, l);
    }
  }

  ghost predicate LeavesOk(levels: nat, positions: map<int, nat>, leaf: nat)
    requires levels >= 1
  {
    leaf < NumLeaves(levels) && forall i :: i in positions ==> positions[i] < NumLeaves(levels)
  }

  /** A block may go to a level exactly when the level is not below its depth. */
  lemma FitsIffDepth(levels: nat, positions: map<int, nat>, leaf: nat, level: nat, b: Block)
    requires level < levels && LeavesOk(levels, positions, leaf)
    ensures Fits(levels, positions, leaf, level, b) <==> level <= Depth(levels, positions, leaf, b)
  {
    SharedFromMeaning(levels, LeafOf(positions, b.index), leaf, levels - 1, level);
  }

  // ---- counting -----------------------------------------------------------

  /** #{b in S : d(b) <= k}. */
  function AtMost(levels: nat, positions: map<int, nat>, leaf: nat, stash: seq<Block>, k: nat): (r: nat)
    requires levels >= 1
    ensures r <= |stash|
  {
    if stash == [] then 0
    else (if Depth(levels, positions, leaf, stash[0]) <= k then 1 else 0)
         + AtMost(levels, positions, leaf, stash[1..], k)
  }

  function Max(a: int, b: int): int {
    if a >= b then a else b
  }

  /** By how much the blocks confined to levels 0 .. j outgrow those levels' buckets. */
  function Excess(levels: nat, positions: map<int, nat>, leaf: nat, stash: seq<Block>, z: nat, j: nat): int
    requires levels >= 1
  {
    AtMost(levels, positions, leaf, stash, j) - z * (j + 1)
  }

  /** max(0, max over j < k of #{b in S : d(b) <= j} - Z * (j + 1)). */
  function Overflow(levels: nat, positions: map<int, nat>, leaf: nat, stash: seq<Block>, z: nat, k: nat): (r: nat)
    requires levels >= 1
  {
    if k == 0 then 0
    else Max(Overflow(levels, positions, leaf, stash, z, k - 1), Excess(levels, positions, leaf, stash, z, k - 1))
  }

  lemma {:induction false} OverflowIsMax(levels: nat, positions: map<int, nat>, leaf: nat, stash: seq<Block>,
          z: nat, k: nat)
    requires levels >= 1
    ensures var r := Overflow(levels, positions, leaf, stash, z, k);
            && (forall j: nat :: j < k ==> Excess(levels, positions, leaf, stash, z, j) <= r)
            && (r == 0 || exists j: nat :: j < k && Excess(levels, positions, leaf, stash, z, j) == r)
  {
    if k != 0 {
      hide Excess;
      OverflowIsMax(levels, positions, leaf, stash, z, k - 1);
      var last := Excess(levels, positions, leaf, stash, z, k - 1);
    }
  }

  // ---- one level of the greedy pass ---------------------------------------

  /** Shallower blocks are untouched by level `level`. */
  lemma {:induction false} KeptAtMost(levels: nat, positions: map<int, nat>, leaf: nat, level: nat,
          stash: seq<Block>, room: nat, k: nat)
    requires k < level < levels && LeavesOk(levels, positions, leaf)
    ensures AtMost(levels, positions, leaf, Kept(levels, positions, leaf, level, stash, room), k)
              == AtMost(levels, positions, leaf, stash, k)
  {
    if stash != [] && room != 0 {
      FitsIffDepth(levels, positions, leaf, level, stash[0]);
      hide Depth, Fits;
      if Fits(levels, positions, leaf, level, stash[0]) {
        KeptAtMost(levels, positions, leaf, level, stash[1..], room - 1, k);
      } else {
        KeptAtMost(levels, positions, leaf, level, stash[1..], room, k);
      }
    }
  }

  /** The level takes as many of the deep enough blocks as there is room for. */
  lemma {:induction false} KeptLength(levels: nat, positions: map<int, nat>, leaf: nat, level: nat,
          stash: seq<Block>, room: nat)
    requires level < levels && LeavesOk(levels, positions, leaf)
    ensures |Kept(levels, positions, leaf, level, stash, room)|
              == Max(|stash| - room, if level == 0 then 0 else AtMost(levels, positions, leaf, stash, level - 1))
  {
    if stash != [] && room != 0 {
      FitsIffDepth(levels, positions, leaf, level, stash[0]);
      hide Depth, Fits;
      if Fits(levels, positions, leaf, level, stash[0]) {
        KeptLength(levels, positions, leaf, level, stash[1..], room - 1);
      } else {
        KeptLength(levels, positions, leaf, level, stash[1..], room);
      }
    }
  }

  // ---- the whole pass -----------------------------------------------------

  lemma {:induction false} SameOverflow(levels: nat, positions: map<int, nat>, leaf: nat, s: seq<Block>,
          t: seq<Block>, z: nat, k: nat)
    requires levels >= 1
    requires forall j: nat :: j < k ==> AtMost(levels, positions, leaf, s, j) == AtMost(levels, positions, leaf, t, j)
    ensures Overflow(levels, positions, leaf, s, z, k) == Overflow(levels, positions, leaf, t, z, k)
  {
    if k != 0 {
      SameOverflow(levels, positions, leaf, s, t, z, k - 1);
    }
  }

  /** What one turn of the eviction loop does to the counts. */
  lemma LevelCounts(s: State, leaf: nat, level: nat)
    requires Shaped(s) && LeavesOk(s.levels, s.positions, leaf) && level < s.levels
    ensures var next := EvictLevel(s, leaf, level);
            && |next.stash| == Max(|s.stash| - s.bucketSize,
                                   if level == 0 then 0 else AtMost(s.levels, s.positions, leaf, s.stash, level - 1))
            && forall j: nat :: j < level ==> AtMost(s.levels, s.positions, leaf, next.stash, j)
                                              == AtMost(s.levels, s.positions, leaf, s.stash, j)
  {
    hide AtMost, Chosen, Kept, Position;
    KeptLength(s.levels, s.positions, leaf, level, s.stash, s.bucketSize);
    forall j: nat | j < level
      ensures AtMost(s.levels, s.positions, leaf, EvictLevel(s, leaf, level).stash, j)
                == AtMost(s.levels, s.positions, leaf, s.stash, j)
    {
      KeptAtMost(s.levels, s.positions, leaf, level, s.stash, s.bucketSize, j);
    }
  }

  lemma OverflowStep(levels: nat, positions: map<int, nat>, leaf: nat, stash: seq<Block>, z: nat, k: nat)
    requires levels >= 1 && k >= 2
    ensures Overflow(levels, positions, leaf, stash, z, k - 1)
              == Max(Overflow(levels, positions, leaf, stash, z, k - 2),
                  AtMost(levels, positions, leaf, stash, k - 2) - z * (k - 1))
    ensures z * k == z * (k - 1) + z
  {
    hide AtMost;
    assert (k - 2) + 1 == k - 1;
  }

  lemma {:induction false} StashAfterLevels(s: State, leaf: nat, k: nat)
    requires Shaped(s) && LeavesOk(s.levels, s.positions, leaf) && 0 < k <= s.levels
    ensures |Evict(s, leaf, k).stash|
              == Max(|s.stash| - s.bucketSize * k, Overflow(s.levels, s.positions, leaf, s.stash, s.bucketSize, k - 1))
    decreases k
  {
    hide Evict, EvictLevel, AtMost, NumBuckets, NumLeaves;
    var next := EvictLevel(s, leaf, k - 1);
    EvictUnfold(s, leaf, k);
    LevelCounts(s, leaf, k - 1);
    if k > 1 {
      StashAfterLevels(next, leaf, k - 1);
      SameOverflow(s.levels, s.positions, leaf, next.stash, s.stash, s.bucketSize, k - 2);
      OverflowStep(s.levels, s.positions, leaf, s.stash, s.bucketSize, k);
      hide Overflow;
    } else {
      EvictNothing(next, leaf);
    }
  }

  lemma {:induction false} AllAtMostDeepest(levels: nat, positions: map<int, nat>, leaf: nat, stash: seq<Block>)
    requires levels >= 1
    ensures AtMost(levels, positions, leaf, stash, levels - 1) == |stash|
  {
    if stash != [] {
      AllAtMostDeepest(levels, positions, leaf, stash[1..]);
    }
  }

  /** The stash left by the eviction has exactly
      max(0, max over levels k of #{b : d(b) <= k} - Z * (k + 1)) blocks. */
  lemma EvictExactSize(s: State, leaf: nat)
    requires Shaped(s) && LeavesOk(s.levels, s.positions, leaf)
    ensures |Evict(s, leaf, s.levels).stash| == Overflow(s.levels, s.positions, leaf, s.stash, s.bucketSize, s.levels)
  {
    hide Evict, AtMost;
    StashAfterLevels(s, leaf, s.levels);
    AllAtMostDeepest(s.levels, s.positions, leaf, s.stash);
  }

  // ---- any other placement ------------------------------------------------

  /** Entry i of a placement is the level stash block i goes to, or -1 if it stays. */
  type Placement = seq<int>

  function PlacedAt(place: Placement, level: int): nat {
    if place == [] then 0 else (if place[0] == level then 1 else 0) + PlacedAt(place[1..], level)
  }

  /** No block below its depth, no bucket over its size. */
  ghost predicate LegalPlacement(levels: nat, positions: map<int, nat>, leaf: nat, stash: seq<Block>, z: nat,
          place: Placement)
    requires levels >= 1
  {
    && |place| == |stash|
    && (forall i :: 0 <= i < |place| ==> -1 <= place[i] <= Depth(levels, positions, leaf, stash[i]))
    && (forall level :: 0 <= level < levels ==> PlacedAt(place, level) <= z)
  }

  function PlacedUpTo(place: Placement, k: nat): nat {
    PlacedAt(place, k) + if k == 0 then 0 else PlacedUpTo(place, k - 1)
  }

  lemma {:induction false} PlacedUpToCapacity(place: Placement, z: nat, k: nat)
    requires forall level :: 0 <= level <= k ==> PlacedAt(place, level) <= z
    ensures PlacedUpTo(place, k) <= z * (k + 1)
  {
    if k != 0 {
      PlacedUpToCapacity(place, z, k - 1);
      assert z * (k + 1) == z * k + z;
    }
  }

  lemma {:induction false} PlacedUpToTail(place: Placement, k: nat)
    requires place != []
    ensures PlacedUpTo(place, k) == PlacedUpTo(place[1..], k) + if 0 <= place[0] <= k then 1 else 0
  {
    if k != 0 {
      PlacedUpToTail(place, k - 1);
    }
  }

  /** A block of depth at most k stays, or sits at one of the levels 0 .. k. */
  lemma {:induction false} ShallowAccounted(levels: nat, positions: map<int, nat>, leaf: nat, stash: seq<Block>,
          place: Placement, k: nat)
    requires levels >= 1 && |place| == |stash|
    requires forall i :: 0 <= i < |place| ==> -1 <= place[i] <= Depth(levels, positions, leaf, stash[i])
    ensures AtMost(levels, positions, leaf, stash, k) <= PlacedAt(place, -1) + PlacedUpTo(place, k)
  {
    if stash != [] {
      hide Depth;
      assert forall i :: 0 <= i < |place[1..]| ==> place[1..][i] == place[i + 1] && stash[1..][i] == stash[i + 1];
      ShallowAccounted(levels, positions, leaf, stash[1..], place[1..], k);
      PlacedUpToTail(place, k);
    }
  }

  /** Greedy is optimal: no legal placement on the path leaves fewer blocks behind. */
  lemma EvictOptimal(s: State, leaf: nat, place: Placement)
    requires Shaped(s) && LeavesOk(s.levels, s.positions, leaf)
    requires LegalPlacement(s.levels, s.positions, leaf, s.stash, s.bucketSize, place)
    ensures PlacedAt(place, -1) >= |Evict(s, leaf, s.levels).stash|
  {
    EvictExactSize(s, leaf);
    OverflowIsMax(s.levels, s.positions, leaf, s.stash, s.bucketSize, s.levels);
    var r := Overflow(s.levels, s.positions, leaf, s.stash, s.bucketSize, s.levels);
    hide Overflow, Evict, AtMost, Depth;
    if r != 0 {
      var j: nat :| j < s.levels && Excess(s.levels, s.positions, leaf, s.stash, s.bucketSize, j) == r;
      PlacedUpToCapacity(place, s.bucketSize, j);
      ShallowAccounted(s.levels, s.positions, leaf, s.stash, place, j);
    }
  }

  /** The stash empties if and only if no level's subtree demand exceeds the room above it. */
  lemma StashEmptiesIff(s: State, leaf: nat)
    requires Shaped(s) && LeavesOk(s.levels, s.positions, leaf)
    ensures Evict(s, leaf, s.levels).stash == [] <==>
            forall k: nat :: k < s.levels ==> Excess(s.levels, s.positions, leaf, s.stash, s.bucketSize, k) <= 0
  {
    EvictExactSize(s, leaf);
    OverflowIsMax(s.levels, s.positions, leaf, s.stash, s.bucketSize, s.levels);
  }

  /** Both facts for a whole request, in terms of the stash the eviction starts with. */
  lemma StepStashOptimal(s: State, q: Request, place: Placement)
    requires Shaped(s) && LeavesInRange(s) && Legal(s.levels, q)
    ensures var leaf := LeafOf(s.positions, q.index);
            var stash := Operate(q.op, Fetched(s, leaf), q.index, Tag(q), q.data);
            var positions := Placed(s.positions, q);
            && |Step(s, q).stash| == Overflow(s.levels, positions, leaf, stash, s.bucketSize, s.levels)
            && (LegalPlacement(s.levels, positions, leaf, stash, s.bucketSize, place) ==>
                  PlacedAt(place, -1) >= |Step(s, q).stash|)
  {
    StepUnfold(s, q);
    StepLeaves(s, q);
    var leaf := LeafOf(s.positions, q.index);
    var stash := Operate(q.op, Fetched(s, leaf), q.index, Tag(q), q.data);
    var positions := Placed(s.positions, q);
    var t := s.(positions := positions, stash := stash);
    hide Step, Evict, Operate, Fetched, Overflow, AtMost;
    EvictExactSize(t, leaf);
    if LegalPlacement(s.levels, positions, leaf, stash, s.bucketSize, place) {
      EvictOptimal(t, leaf, place);
    }
  }
}
