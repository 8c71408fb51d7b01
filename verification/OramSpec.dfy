/** Path ORAM as a transition system on values: blocks, buckets, one access, runs. */
module OramSpec {
  import opened Wrappers
  import opened Powers
  import opened HeapLayout


  /** `leafId` is stored with the block but never decides where the block goes. */
  datatype Block = Block(leafId: int, index: int, data: Bytes)

  const DUMMY: Block := Block(-1, -1, [])

  type Slots = seq<Block>

  datatype Operation = Read | Write

  datatype State = State(
    levels: nat,
    bucketSize: nat,
    buckets: seq<Slots>,
    stash: seq<Block>,
    positions: map<int, nat>)

  /** `position_map[i]`: the map hands out 0 for an index it does not hold. */
  function LeafOf(positions: map<int, nat>, index: int): nat {
    if index in positions then positions[index] else 0
  }

  // ---- the read phase -----------------------------------------------------

  function Real(blocks: seq<Block>): seq<Block> {
    if blocks == [] then []
    else if blocks[0].index != -1 then [blocks[0]] + Real(blocks[1..])
    else Real(blocks[1..])
  }

  ghost predicate Shaped(s: State) {
    && s.levels >= 1
    && |s.buckets| == NumBuckets(s.levels)
  }

  /** The real blocks of the path's buckets at levels 0 .. k-1, root first. */
  ghost function ReadPath(levels: nat, buckets: seq<Slots>, leaf: nat, k: nat): seq<Block>
    requires levels >= 1 && |buckets| == NumBuckets(levels) && leaf < NumLeaves(levels) && k <= levels
  {
    if k == 0 then []
    else
      PositionRange(levels, leaf, k - 1);
      ReadPath(levels, buckets, leaf, k - 1) + Real(buckets[Position(levels, leaf, k - 1)])
  }

  // ---- the operation on the stash -----------------------------------------

  /** Where `find_if` stops: the first block with this index, or the length. */
  function Find(stash: seq<Block>, index: int): (i: nat)
    ensures i <= |stash|
    ensures i < |stash| ==> stash[i].index == index
    ensures forall j :: 0 <= j < i ==> stash[j].index != index
  {
    if stash == [] || stash[0].index == index then 0 else 1 + Find(stash[1..], index)
  }

  function Operate(op: Operation, stash: seq<Block>, index: int, leafId: int, data: Bytes): seq<Block> {
    var i := Find(stash, index);
    if op == Read then stash
    else if i == |stash| then stash + [Block(leafId, index, data)]
    else stash[i := stash[i].(data := data)]
  }

  function Answer(op: Operation, stash: seq<Block>, index: int): Bytes {
    var i := Find(stash, index);
    if op == Read && i < |stash| then stash[i].data else []
  }

  // ---- eviction -----------------------------------------------------------

  predicate Fits(levels: nat, positions: map<int, nat>, leaf: nat, level: nat, b: Block)
    requires level < levels
  {
    Position(levels, LeafOf(positions, b.index), level) == Position(levels, leaf, level)
  }

  /** The first `room` stash blocks that may live in the path's bucket at `level`. */
  function Chosen(levels: nat, positions: map<int, nat>, leaf: nat, level: nat, stash: seq<Block>,
          room: nat): (r: seq<Block>)
    requires level < levels
    ensures |r| <= room
  {
    if stash == [] || room == 0 then []
    else if Fits(levels, positions, leaf, level, stash[0]) then
      [stash[0]] + Chosen(levels, positions, leaf, level, stash[1..], room - 1)
    else Chosen(levels, positions, leaf, level, stash[1..], room)
  }

  /** What stays behind when the chosen blocks leave the stash. */
  function Kept(levels: nat, positions: map<int, nat>, leaf: nat, level: nat, stash: seq<Block>, room: nat): seq<Block>
    requires level < levels
  {
    if stash == [] || room == 0 then stash
    else if Fits(levels, positions, leaf, level, stash[0]) then
      Kept(levels, positions, leaf, level, stash[1..], room - 1)
    else [stash[0]] + Kept(levels, positions, leaf, level, stash[1..], room)
  }

  function Dummies(n: nat): (r: seq<Block>)
    ensures |r| == n
  {
    seq(n, _ => DUMMY)
  }

  /** One turn of the eviction loop. */
  ghost function EvictLevel(s: State, leaf: nat, level: nat): (r: State)
    requires Shaped(s) && leaf < NumLeaves(s.levels) && level < s.levels
    ensures Shaped(r) && r.levels == s.levels && r.bucketSize == s.bucketSize && r.positions == s.positions
  {
    PositionRange(s.levels, leaf, level);
    var chosen := Chosen(s.levels, s.positions, leaf, level, s.stash, s.bucketSize);
    var bucket := chosen + Dummies(s.bucketSize - |chosen|);
    s.(buckets := s.buckets[Position(s.levels, leaf, level) := bucket],
       stash := Kept(s.levels, s.positions, leaf, level, s.stash, s.bucketSize))
  }

  /** Levels k-1, ..., 0 in this order: from the leaf end towards the root. */
  ghost function Evict(s: State, leaf: nat, k: nat): (r: State)
    requires Shaped(s) && leaf < NumLeaves(s.levels) && k <= s.levels
    ensures Shaped(r) && r.levels == s.levels && r.bucketSize == s.bucketSize && r.positions == s.positions
    decreases k
  {
    if k == 0 then s else Evict(EvictLevel(s, leaf, k - 1), leaf, k - 1)
  }

  // ---- accesses -----------------------------------------------------------

  /** The stash after the read phase. */
  ghost function Fetched(s: State, leaf: nat): seq<Block>
    requires Shaped(s) && leaf < NumLeaves(s.levels)
  {
    s.stash + ReadPath(s.levels, s.buckets, leaf, s.levels)
  }

  /** `access_handler`; the caller has already settled `positions`. */
  ghost function Handle(s: State, op: Operation, index: int, oldLeaf: nat, leafId: int, data: Bytes): (r: State)
    requires Shaped(s) && oldLeaf < NumLeaves(s.levels)
    ensures Shaped(r) && r.levels == s.levels && r.bucketSize == s.bucketSize && r.positions == s.positions
  {
    Evict(s.(stash := Operate(op, Fetched(s, oldLeaf), index, leafId, data)), oldLeaf, s.levels)
  }

  ghost function Reply(s: State, op: Operation, index: int, oldLeaf: nat): Bytes
    requires Shaped(s) && oldLeaf < NumLeaves(s.levels)
  {
    Answer(op, Fetched(s, oldLeaf), index)
  }

  /** One request. `Access` draws a fresh leaf for the block; `Direct` leaves the
      position map alone and only records a tag in the block. */
  datatype Request =
    | Access(op: Operation, index: int, data: Bytes, leaf: nat)
    | Direct(op: Operation, index: int, data: Bytes, tag: int)

  /** The position map a request runs `access_handler` with. */
  function Placed(positions: map<int, nat>, q: Request): map<int, nat> {
    match q
    case Access(_, index, _, leaf) => positions[index := leaf]
    case Direct(_, index, _, _) => positions[index := LeafOf(positions, index)]
  }

  function Tag(q: Request): int {
    match q
    case Access(_, _, _, leaf) => leaf
    case Direct(_, _, _, tag) => tag
  }

  /** A leaf always comes from the oracle bounded by the leaf count. */
  ghost predicate Legal(levels: nat, q: Request)
    requires levels >= 1
  {
    q.Access? ==> q.leaf < NumLeaves(levels)
  }

  ghost predicate LeavesInRange(s: State)
    requires s.levels >= 1
  {
    forall i :: i in s.positions ==> s.positions[i] < NumLeaves(s.levels)
  }

  ghost function Step(s: State, q: Request): (r: State)
    requires Shaped(s) && LeavesInRange(s)
    ensures Shaped(r) && r.levels == s.levels && r.bucketSize == s.bucketSize
    ensures r.positions == Placed(s.positions, q)
  {
    Handle(s.(positions := Placed(s.positions, q)), q.op, q.index, LeafOf(s.positions, q.index), Tag(q), q.data)
  }

  ghost function StepReply(s: State, q: Request): Bytes
    requires Shaped(s) && LeavesInRange(s)
  {
    Reply(s, q.op, q.index, LeafOf(s.positions, q.index))
  }

  // ---- what the blocks add up to ------------------------------------------

  ghost function SumReal(buckets: seq<Slots>): multiset<Block> {
    if buckets == [] then multiset{} else multiset(Real(buckets[0])) + SumReal(buckets[1..])
  }

  /** Every real block of the ORAM, wherever it is, with its multiplicity. */
  ghost function Contents(s: State): multiset<Block> {
    multiset(Real(s.stash)) + SumReal(s.buckets)
  }

  /** No index twice, the dummy marker -1 included. */
  ghost predicate Distinct(stash: seq<Block>) {
    forall i, j :: 0 <= i < j < |stash| ==> stash[i].index != stash[j].index
  }

  /** Each index at most once, across the stash and all the buckets. */
  ghost predicate Unique(m: multiset<Block>) {
    forall b, c :: b in m && c in m && b.index == c.index ==> b == c && m[b] == 1
  }

  ghost predicate OnPath(levels: nat, leaf: nat, p: nat) {
    exists l: nat :: l < levels && Position(levels, leaf, l) == p
  }

  ghost predicate Inv(s: State) {
    && Shaped(s)
    && LeavesInRange(s)
    && (forall p :: 0 <= p < |s.buckets| ==> |s.buckets[p]| == s.bucketSize)
    && (forall p, b :: 0 <= p < |s.buckets| && b in s.buckets[p] && b.index != -1
          ==> OnPath(s.levels, LeafOf(s.positions, b.index), p))
    && Distinct(s.stash)
    && (forall b :: b in Contents(s) ==> b.index in s.positions)
    && Unique(Contents(s))
  }

  ghost function ViewOf(m: multiset<Block>): (v: map<int, Bytes>)
    requires Unique(m)
    ensures forall b :: b in m ==> b.index in v && v[b.index] == b.data
    ensures forall i :: i in v ==> exists b :: b in m && b.index == i
  {
    map b: Block | b in m :: b.index := b.data
  }

  /** The plain store an ORAM stands for. */
  ghost function View(s: State): map<int, Bytes>
    requires Unique(Contents(s))
  {
    ViewOf(Contents(s))
  }

  // ---- the plain store ----------------------------------------------------

  function MapStep(m: map<int, Bytes>, q: Request): map<int, Bytes> {
    if q.op == Write then m[q.index := q.data] else m
  }

  /** The part of the map an ORAM can stand for: index -1 marks dummies. */
  function RealStep(m: map<int, Bytes>, q: Request): map<int, Bytes> {
    if q.index == -1 then m else MapStep(m, q)
  }

  function MapReply(m: map<int, Bytes>, q: Request): Bytes {
    if q.op == Read && q.index in m then m[q.index] else []
  }

  // ---- runs ---------------------------------------------------------------

  function MapRun(m: map<int, Bytes>, qs: seq<Request>): (map<int, Bytes>, seq<Bytes>)
    decreases |qs|
  {
    if qs == [] then (m, [])
    else
      var (last, replies) := MapRun(MapStep(m, qs[0]), qs[1..]);
      (last, [MapReply(m, qs[0])] + replies)
  }
}
