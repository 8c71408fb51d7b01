/** Path ORAM refines a plain map: over every run, whatever leaves are drawn. */
module OramRefinement {
  import opened Wrappers
  import opened Powers
  import opened HeapLayout
  import opened OramSpec
  import opened OramInvariant

  /** The block asked for is never left behind on another path. */
  lemma NotOffPath(s: State, index: int, b: Block)
    requires Inv(s) && index != -1 && b.index == index
    requires LeafOf(s.positions, index) < NumLeaves(s.levels)
    ensures b !in SumReal(Clear(s.levels, s.buckets, LeafOf(s.positions, index), s.levels))
  {
    var leaf := LeafOf(s.positions, index);
    var off := Clear(s.levels, s.buckets, leaf, s.levels);
    SumRealMember(off, b);
    forall p | 0 <= p < |off| ensures b !in off[p] {
      ClearAt(s.levels, s.buckets, leaf, s.levels, p);
      if b in s.buckets[p] {
        assert OnPath(s.levels, leaf, p);
      }
    }
  }

  /** The read phase in one equation. */
  lemma FetchMoves(s: State, leaf: nat)
    requires Shaped(s) && leaf < NumLeaves(s.levels)
    ensures multiset(Real(Fetched(s, leaf))) + SumReal(Clear(s.levels, s.buckets, leaf, s.levels)) == Contents(s)
  {
    hide SumReal, Clear, ReadPath, Real, Position, NumBuckets;
    ReadMoves(s.levels, s.buckets, leaf, s.levels);
    var path := ReadPath(s.levels, s.buckets, leaf, s.levels);
    PathReal(s.levels, s.buckets, leaf, s.levels);
    RealAppend(s.stash, path);
    RealOfReal(path);
    var stash := Real(s.stash);
    assert multiset(stash + path) == multiset(stash) + multiset(path);
  }

  // ---- one write, seen on the multiset of blocks ---------------------------

  lemma ReplaceKeepsUnique(rest: multiset<Block>, m: multiset<Block>, b: Block)
    requires Unique(m) && rest <= m
    requires forall c :: c in rest ==> c.index != b.index
    ensures Unique(rest + multiset{b})
  {
    forall c | c in rest ensures rest[c] == 1 {
      assert m[c] == 1;
    }
  }

  lemma ReplaceUpdatesView(rest: multiset<Block>, m: multiset<Block>, b: Block)
    requires Unique(m) && rest <= m
    requires forall c :: c in rest ==> c.index != b.index
    requires forall c :: c in m && c.index != b.index ==> c in rest
    ensures Unique(rest + multiset{b})
    ensures ViewOf(rest + multiset{b}) == ViewOf(m)[b.index := b.data]
  {
    ReplaceKeepsUnique(rest, m, b);
    var n := rest + multiset{b};
    assert forall c :: c in n <==> c in rest || c == b;
    hide ViewOf, Unique;
    SameView(n, m, b);
  }

  lemma SameView(n: multiset<Block>, m: multiset<Block>, b: Block)
    requires Unique(n) && Unique(m) && b in n
    requires forall c :: c in n && c.index == b.index ==> c == b
    requires forall c: Block :: c.index != b.index ==> (c in n <==> c in m)
    ensures ViewOf(n) == ViewOf(m)[b.index := b.data]
  {
    hide ViewOf, Unique;
    var v, w := ViewOf(n), ViewOf(m)[b.index := b.data];
    forall i | i in v ensures i in w && v[i] == w[i] {
      var c :| c in n && c.index == i;
    }
    forall i | i in w ensures i in v {
      if i != b.index {
        var c :| c in m && c.index == i;
      }
    }
  }

  /** What WRITE does to the fetched stash, as multisets. */
  lemma WriteReplaces(stash: seq<Block>, index: int, leafId: int, data: Bytes) returns (rest: multiset<Block>, b: Block)
    requires Unique(multiset(stash))
    ensures multiset(Operate(Write, stash, index, leafId, data)) == rest + multiset{b}
    ensures b.index == index && b.data == data
    ensures rest <= multiset(stash)
    ensures forall c :: c in rest <==> c in stash && c.index != index
  {
    var i := Find(stash, index);
    if i == |stash| {
      rest, b := multiset(stash), Block(leafId, index, data);
    } else {
      var hit := stash[i];
      b := hit.(data := data);
      rest := multiset(stash) - multiset{hit};
      assert hit in multiset(stash);
      assert forall c :: c in multiset(stash) && c.index == index ==> c == hit;
    }
  }

  lemma UniqueParts(m: multiset<Block>, part: multiset<Block>)
    requires Unique(m) && part <= m
    ensures Unique(part)
  {
    forall b | b in part ensures part[b] == 1 {
      assert m[b] == 1;
    }
  }

  lemma FindsTheBlock(stash: seq<Block>, off: multiset<Block>, index: int)
    requires Unique(multiset(stash) + off)
    requires forall b :: b in off ==> b.index != index
    ensures var view := ViewOf(multiset(stash) + off);
            Answer(Read, stash, index) == if index in view then view[index] else []
  {
    var m := multiset(stash) + off;
    var view := ViewOf(m);
    var i := Find(stash, index);
    if i < |stash| {
      assert stash[i] in multiset(stash);
      assert stash[i] in m;
    } else {
      forall b | b in m ensures b.index != index {
        assert b in multiset(stash) || b in off;
      }
    }
  }

  /** The multiset and the view after the operation has been applied to the fetched stash. */
  lemma OperateRefines(stash: seq<Block>, off: multiset<Block>, q: Request)
    requires Unique(multiset(stash) + off)
    requires forall b :: b in off ==> b.index != q.index
    ensures var m := multiset(stash) + off;
            var n := multiset(Operate(q.op, stash, q.index, Tag(q), q.data)) + off;
            && Unique(n)
            && ViewOf(n) == MapStep(ViewOf(m), q)
            && Answer(q.op, stash, q.index) == MapReply(ViewOf(m), q)
            && (forall b :: b in n ==> b.index == q.index || b in m)
  {
    hide ViewOf, Unique;
    if q.op == Read {
      FindsTheBlock(stash, off, q.index);
    } else {
      WriteRefines(stash, off, q.index, Tag(q), q.data);
    }
  }

  lemma WriteRefines(stash: seq<Block>, off: multiset<Block>, index: int, leafId: int, data: Bytes)
    requires Unique(multiset(stash) + off)
    requires forall b :: b in off ==> b.index != index
    ensures var m := multiset(stash) + off;
            var n := multiset(Operate(Write, stash, index, leafId, data)) + off;
            && Unique(n)
            && ViewOf(n) == ViewOf(m)[index := data]
            && (forall b :: b in n ==> b.index == index || b in m)
  {
    hide ViewOf, Unique, Operate;
    var m := multiset(stash) + off;
    UniqueParts(m, multiset(stash));
    var rest, b := WriteReplaces(stash, index, leafId, data);
    var others := rest + off;
    assert (rest + multiset{b}) + off == others + multiset{b};
    assert others <= m;
    assert forall c :: c in m <==> c in multiset(stash) || c in off;
    assert forall c :: c in others <==> c in rest || c in off;
    ReplaceUpdatesView(others, m, b);
  }

  // ---- operating on the real part of a stash ---------------------------------

  /** The search skips over dummies: the same block is found in the real part. */
  lemma {:induction false} RealFind(stash: seq<Block>, index: int, b: Block)
    requires index != -1 && b.index == index
    ensures var i, j := Find(stash, index), Find(Real(stash), index);
            && (i < |stash| <==> j < |Real(stash)|)
            && (i < |stash| ==> stash[i] == Real(stash)[j] && Real(stash[i := b]) == Real(stash)[j := b])
  {
    if stash != [] && stash[0].index != index {
      RealFind(stash[1..], index, b);
      var i := Find(stash[1..], index);
      RealHead(stash);
      if i < |stash| - 1 {
        var after := stash[i + 1 := b];
        RealHead(after);
        assert after[1..] == stash[1..][i := b];
      }
    } else if stash != [] {
      RealHead(stash[0 := b]);
      assert stash[0 := b][1..] == stash[1..];
    }
  }

  /** An operation on a real index acts on the real part alone. */
  lemma RealOperate(op: Operation, stash: seq<Block>, index: int, leafId: int, data: Bytes)
    requires index != -1
    ensures Real(Operate(op, stash, index, leafId, data)) == Operate(op, Real(stash), index, leafId, data)
    ensures Answer(op, stash, index) == Answer(op, Real(stash), index)
  {
    hide Real, Find;
    var i := Find(stash, index);
    RealFind(stash, index, if i < |stash| then stash[i].(data := data) else Block(leafId, index, data));
    if i == |stash| {
      var b := Block(leafId, index, data);
      RealAppend(stash, [b]);
      RealOfReal([b]);
    }
  }

  /** An operation on the dummy index leaves the real part alone. */
  lemma DummyOperate(op: Operation, stash: seq<Block>, leafId: int, data: Bytes)
    ensures Real(Operate(op, stash, -1, leafId, data)) == Real(stash)
  {
    hide Real, Find;
    var i := Find(stash, -1);
    if i == |stash| {
      var b := Block(leafId, -1, data);
      RealAppend(stash, [b]);
      RealOfDummies([b]);
      assert Real(stash) + [] == Real(stash);
    } else {
      RealReplacesDummy(stash, i, stash[i].(data := data));
    }
  }

  lemma RealReplacesDummy(stash: seq<Block>, i: nat, b: Block)
    requires i < |stash| && stash[i].index == b.index == -1
    ensures Real(stash[i := b]) == Real(stash)
  {
    hide Real;
    var front, back := stash[..i], stash[i + 1..];
    assert stash == front + ([stash[i]] + back) && stash[i := b] == front + ([b] + back);
    RealAppend(front, [stash[i]] + back);
    RealAppend(front, [b] + back);
    RealAppend([stash[i]], back);
    RealAppend([b], back);
    RealOfDummies([stash[i]]);
    RealOfDummies([b]);
  }

  lemma OperateDistinct(op: Operation, stash: seq<Block>, index: int, leafId: int, data: Bytes)
    requires Distinct(stash)
    ensures Distinct(Operate(op, stash, index, leafId, data))
  {
  }

  lemma FetchedDistinct(s: State, leaf: nat)
    requires Inv(s) && leaf < NumLeaves(s.levels)
    ensures Distinct(Fetched(s, leaf))
  {
    hide Real, ReadPath, Contents, SumReal, Clear, Unique, Position, NumBuckets, OnPath;
    FetchMoves(s, leaf);
    UniqueParts(Contents(s), multiset(Real(Fetched(s, leaf))));
    PathReal(s.levels, s.buckets, leaf, s.levels);
    hide Distinct;
    OneDummyAtMost(s.stash, ReadPath(s.levels, s.buckets, leaf, s.levels));
    DistinctFrom(Fetched(s, leaf));
  }

  lemma OneDummyAtMost(stash: seq<Block>, path: seq<Block>)
    requires Distinct(stash) && AllReal(path)
    ensures forall i, j :: 0 <= i < j < |stash + path| ==>
              (stash + path)[i].index != -1 || (stash + path)[j].index != -1
  {
    forall j | |stash| <= j < |stash + path| ensures (stash + path)[j].index != -1 {
      assert (stash + path)[j] in path;
    }
  }

  // ---- one request --------------------------------------------------------

  lemma LeafInRange(s: State, index: int)
    requires Shaped(s) && LeavesInRange(s)
    ensures LeafOf(s.positions, index) < NumLeaves(s.levels)
  {
  }

  lemma StepLeaves(s: State, q: Request)
    requires Shaped(s) && LeavesInRange(s) && Legal(s.levels, q)
    ensures LeavesInRange(Step(s, q))
  {
    LeafInRange(s, q.index);
  }

  /** Contents after one request: what the operation left in the stash, and
      everything off the path. */
  lemma StepContents(s: State, q: Request)
    requires Shaped(s) && LeavesInRange(s)
    ensures var leaf := LeafOf(s.positions, q.index);
            && leaf < NumLeaves(s.levels)
            && Contents(Step(s, q)) == multiset(Real(Operate(q.op, Fetched(s, leaf), q.index, Tag(q), q.data)))
                                       + SumReal(Clear(s.levels, s.buckets, leaf, s.levels))
  {
    hide *;
    StepUnfold(s, q);
    var leaf := LeafOf(s.positions, q.index);
    var stash := Operate(q.op, Fetched(s, leaf), q.index, Tag(q), q.data);
    EvictConserves(s.(positions := Placed(s.positions, q), stash := stash), leaf, s.levels);
  }

  lemma StepUnfold(s: State, q: Request)
    requires Shaped(s) && LeavesInRange(s)
    ensures LeafOf(s.positions, q.index) < NumLeaves(s.levels)
    ensures var leaf := LeafOf(s.positions, q.index);
            var stash := Operate(q.op, Fetched(s, leaf), q.index, Tag(q), q.data);
            var t := s.(positions := Placed(s.positions, q), stash := stash);
            Shaped(t) && Step(s, q) == Evict(t, leaf, s.levels)
  {
    hide Operate, Evict, ReadPath, Contents, Unique;
    var leaf := LeafOf(s.positions, q.index);
    assert Fetched(s.(positions := Placed(s.positions, q)), leaf) == Fetched(s, leaf);
  }

  lemma {:induction false} PathReal(levels: nat, buckets: seq<Slots>, leaf: nat, k: nat)
    requires levels >= 1 && |buckets| == NumBuckets(levels) && leaf < NumLeaves(levels) && k <= levels
    ensures AllReal(ReadPath(levels, buckets, leaf, k))
  {
    if k != 0 {
      PathReal(levels, buckets, leaf, k - 1);
      PositionRange(levels, leaf, k - 1);
      RealMembers(buckets[Position(levels, leaf, k - 1)]);
    }
  }

  /** Refinement of one request: on every index but the dummy marker the ORAM answers
      and updates like the plain map, and a request for the marker changes nothing of it. */
  lemma StepRefines(s: State, q: Request)
    requires Inv(s)
    ensures Unique(Contents(Step(s, q)))
    ensures View(Step(s, q)) == RealStep(View(s), q)
    ensures q.index != -1 ==> StepReply(s, q) == MapReply(View(s), q)
    ensures forall b :: b in Contents(Step(s, q)) ==> b.index == q.index || b in Contents(s)
  {
    hide SumReal, Clear, Step, StepReply, ViewOf, Unique, Contents, Real, MapStep, MapReply;
    if q.index == -1 {
      DummyStepRefines(s, q);
    } else {
      RealStepRefines(s, q);
    }
  }

  lemma DummyStepRefines(s: State, q: Request)
    requires Inv(s) && q.index == -1
    ensures Contents(Step(s, q)) == Contents(s)
  {
    hide SumReal, Clear, Operate, Step, Fetched, Contents, Real, Unique;
    FetchMoves(s, LeafOf(s.positions, -1));
    StepContents(s, q);
    DummyOperate(q.op, Fetched(s, LeafOf(s.positions, -1)), Tag(q), q.data);
  }

  lemma RealStepRefines(s: State, q: Request)
    requires Inv(s) && q.index != -1
    ensures Unique(Contents(Step(s, q)))
    ensures View(Step(s, q)) == MapStep(View(s), q)
    ensures StepReply(s, q) == MapReply(View(s), q)
    ensures forall b :: b in Contents(Step(s, q)) ==> b.index == q.index || b in Contents(s)
  {
    hide SumReal, Clear, Operate, Answer, Step, ViewOf, Fetched, Real, Unique, Contents, MapStep, MapReply;
    var leaf := LeafOf(s.positions, q.index);
    var off := SumReal(Clear(s.levels, s.buckets, leaf, s.levels));
    var fetched := Fetched(s, leaf);
    FetchMoves(s, leaf);
    StepContents(s, q);
    forall b | b in off ensures b.index != q.index {
      if b.index == q.index {
        NotOffPath(s, q.index, b);
      }
    }
    RealOperate(q.op, fetched, q.index, Tag(q), q.data);
    OperateRefines(Real(fetched), off, q);
  }

  lemma OffPathFilled(s: State, q: Request, r: State, p: nat)
    requires Inv(s) && p < |s.buckets|
    requires !OnPath(s.levels, LeafOf(s.positions, q.index), p)
    requires Shaped(r) && r.levels == s.levels && r.bucketSize == s.bucketSize && r.positions == Placed(s.positions, q)
    requires |r.buckets| == |s.buckets| && r.buckets[p] == s.buckets[p]
    ensures WellFilled(r, p)
  {
    hide Contents, Unique, OnPath;
    forall b | b in s.buckets[p] && b.index != -1
      ensures OnPath(s.levels, LeafOf(r.positions, b.index), p)
    {
      assert OnPath(s.levels, LeafOf(s.positions, b.index), p);
    }
  }

  /** The buckets after one request: refilled and well placed on the accessed path,
      untouched off it. */
  lemma StepBuckets(s: State, q: Request, p: nat)
    requires Inv(s) && p < |s.buckets|
    ensures WellFilled(Step(s, q), p)
    ensures !OnPath(s.levels, LeafOf(s.positions, q.index), p) ==> Step(s, q).buckets[p] == s.buckets[p]
  {
    StepUnfold(s, q);
    var leaf := LeafOf(s.positions, q.index);
    OnPathIsAbove(s.levels, leaf, p);
    hide *;
    var stash := Operate(q.op, Fetched(s, leaf), q.index, Tag(q), q.data);
    var t := s.(positions := Placed(s.positions, q), stash := stash);
    EvictBuckets(t, leaf, s.levels, p);
    if !OnPath(s.levels, leaf, p) {
      OffPathFilled(s, q, Step(s, q), p);
    }
  }

  lemma OnPathIsAbove(levels: nat, leaf: nat, p: nat)
    ensures OnPath(levels, leaf, p) <==> OnPathAbove(levels, leaf, levels, p)
  {
  }

  /** The stash before and after the eviction of a request. */
  lemma StepDistinct(s: State, q: Request)
    requires Inv(s)
    ensures LeafOf(s.positions, q.index) < NumLeaves(s.levels)
    ensures Distinct(Operate(q.op, Fetched(s, LeafOf(s.positions, q.index)), q.index, Tag(q), q.data))
    ensures Distinct(Step(s, q).stash)
  {
    hide Step, Evict, Operate, Fetched, Distinct, Contents, Unique, SumReal;
    var leaf := LeafOf(s.positions, q.index);
    StepUnfold(s, q);
    FetchedDistinct(s, leaf);
    OperateDistinct(q.op, Fetched(s, leaf), q.index, Tag(q), q.data);
    var stash := Operate(q.op, Fetched(s, leaf), q.index, Tag(q), q.data);
    EvictDistinct(s.(positions := Placed(s.positions, q), stash := stash), leaf, s.levels);
  }

  /** The path invariant and the uniqueness of blocks survive every request. */
  lemma StepKeepsInv(s: State, q: Request)
    requires Inv(s) && Legal(s.levels, q)
    ensures Inv(Step(s, q))
  {
    hide Step, SumReal, Clear, Unique, Contents, Distinct;
    StepLeaves(s, q);
    StepRefines(s, q);
    StepDistinct(s, q);
    var r := Step(s, q);
    forall p: nat | p < |s.buckets| ensures WellFilled(r, p) {
      StepBuckets(s, q, p);
    }
    assert forall b :: b in Contents(r) ==> b.index in r.positions;
    InvFromParts(r);
  }

  lemma InvFromParts(r: State)
    requires Shaped(r) && LeavesInRange(r)
    requires forall p: nat :: p < |r.buckets| ==> WellFilled(r, p)
    requires Distinct(r.stash) && Unique(Contents(r))
    requires forall b :: b in Contents(r) ==> b.index in r.positions
    ensures Inv(r)
  {
    hide Unique, Contents, Distinct;
    forall p | 0 <= p < |r.buckets|
      ensures |r.buckets[p]| == r.bucketSize
      ensures forall b :: b in r.buckets[p] && b.index != -1 ==> OnPath(r.levels, LeafOf(r.positions, b.index), p)
    {
      assert WellFilled(r, p);
    }
  }

  // ---- runs ---------------------------------------------------------------

  ghost function Run(s: State, qs: seq<Request>): (State, seq<Bytes>)
    requires Shaped(s) && LeavesInRange(s) && forall q :: q in qs ==> Legal(s.levels, q)
    decreases |qs|
  {
    if qs == [] then (s, [])
    else
      StepLeaves(s, qs[0]);
      var (last, replies) := Run(Step(s, qs[0]), qs[1..]);
      (last, [StepReply(s, qs[0])] + replies)
  }

  /** The invariant holds after every run. */
  lemma {:induction false} RunKeepsInv(s: State, qs: seq<Request>)
    requires Inv(s) && forall q :: q in qs ==> Legal(s.levels, q)
    ensures Inv(Run(s, qs).0)
    decreases |qs|
  {
    hide Step, StepReply, Inv, Run, Legal;
    InvParts(s);
    if qs == [] {
      NoRun(s);
    } else {
      StepKeepsInv(s, qs[0]);
      RunUnfold(s, qs);
      RunKeepsInv(Step(s, qs[0]), qs[1..]);
    }
  }

  /** Over every run, for all operations, indices, data and leaves drawn, the ORAM gives
      the replies of a plain map on every index but the dummy marker, whatever happens on
      that one, and ends as that map without it. */
  lemma {:induction false} RunRefines(s: State, m: map<int, Bytes>, qs: seq<Request>)
    requires Inv(s) && View(s) == m - {-1} && forall q :: q in qs ==> Legal(s.levels, q)
    ensures Unique(Contents(Run(s, qs).0)) && View(Run(s, qs).0) == MapRun(m, qs).0 - {-1}
    ensures |Run(s, qs).1| == |MapRun(m, qs).1| == |qs|
    ensures forall i :: 0 <= i < |qs| && qs[i].index != -1 ==> Run(s, qs).1[i] == MapRun(m, qs).1[i]
    decreases |qs|
  {
    hide Step, StepReply, Inv, View, RealStep, MapStep, MapReply, Run, MapRun, Legal, Contents, Unique, Shaped,
        LeavesInRange;
    InvParts(s);
    MapRunUnfold(m, qs);
    if qs == [] {
      NoRun(s);
    } else {
      StepKeepsInv(s, qs[0]);
      StepRefines(s, qs[0]);
      RealStepDrops(m, qs[0]);
      RunUnfold(s, qs);
      RunRefines(Step(s, qs[0]), MapStep(m, qs[0]), qs[1..]);
      OneReplyMore(qs, StepReply(s, qs[0]), MapReply(m, qs[0]), Run(Step(s, qs[0]), qs[1..]).1,
                   MapRun(MapStep(m, qs[0]), qs[1..]).1);
    }
  }

  lemma OneReplyMore(qs: seq<Request>, reply: Bytes, plain: Bytes, replies: seq<Bytes>, plainReplies: seq<Bytes>)
    requires |replies| == |plainReplies| == |qs| - 1 && (qs[0].index != -1 ==> reply == plain)
    requires forall i :: 0 <= i < |qs| - 1 && qs[1..][i].index != -1 ==> replies[i] == plainReplies[i]
    ensures forall i :: 0 <= i < |qs| && qs[i].index != -1 ==> ([reply] + replies)[i] == ([plain] + plainReplies)[i]
  {
    forall i | 0 < i < |qs| && qs[i].index != -1 ensures ([reply] + replies)[i] == ([plain] + plainReplies)[i] {
      assert qs[1..][i - 1] == qs[i];
    }
  }

  lemma InvParts(s: State)
    requires Inv(s)
    ensures Shaped(s) && LeavesInRange(s) && Unique(Contents(s))
  {
    hide Contents, Unique, Distinct;
  }

  lemma NoRun(s: State)
    requires Shaped(s) && LeavesInRange(s)
    ensures Run(s, []) == (s, [])
  {
  }

  lemma RunUnfold(s: State, qs: seq<Request>)
    requires Shaped(s) && LeavesInRange(s) && qs != [] && forall q :: q in qs ==> Legal(s.levels, q)
    ensures LeavesInRange(Step(s, qs[0]))
    ensures Run(s, qs) == (Run(Step(s, qs[0]), qs[1..]).0, [StepReply(s, qs[0])] + Run(Step(s, qs[0]), qs[1..]).1)
  {
    hide Step, StepReply, Legal;
    StepLeaves(s, qs[0]);
  }

  lemma MapRunUnfold(m: map<int, Bytes>, qs: seq<Request>)
    ensures qs == [] ==> MapRun(m, qs) == (m, [])
    ensures qs != [] ==>
              var (last, replies) := MapRun(MapStep(m, qs[0]), qs[1..]);
              MapRun(m, qs) == (last, [MapReply(m, qs[0])] + replies)
  {
  }

  /** Dropping the dummy marker commutes with a step. */
  lemma RealStepDrops(m: map<int, Bytes>, q: Request)
    ensures RealStep(m - {-1}, q) == MapStep(m, q) - {-1}
    ensures q.index != -1 ==> MapReply(m - {-1}, q) == MapReply(m, q)
  {
  }

  // ---- where a block is ---------------------------------------------------------

  /** The request draws a new leaf for the block. */
  predicate Draws(q: Request, index: int) {
    q.Access? && q.index == index
  }

  /** After every run a block has the leaf that the last request of the run to draw one for
      it drew, and the leaf it had before if there is none. */
  lemma {:induction false} RunLeaf(s: State, qs: seq<Request>, index: int, last: nat)
    requires Shaped(s) && LeavesInRange(s) && forall q :: q in qs ==> Legal(s.levels, q)
    ensures (forall i :: 0 <= i < |qs| ==> !Draws(qs[i], index)) ==>
              LeafOf(Run(s, qs).0.positions, index) == LeafOf(s.positions, index)
    ensures last < |qs| && Draws(qs[last], index) && (forall i :: last < i < |qs| ==> !Draws(qs[i], index)) ==>
              LeafOf(Run(s, qs).0.positions, index) == qs[last].leaf
    decreases |qs|
  {
    if qs == [] {
      NoRun(s);
    } else {
      RunUnfold(s, qs);
      StepMoves(s, qs[0], index);
      hide Step, Run, LeafOf, Legal, Draws, Shaped, LeavesInRange;
      RunLeaf(Step(s, qs[0]), qs[1..], index, if last > 0 then last - 1 else |qs|);
      assert forall i :: 1 <= i < |qs| ==> qs[i] == qs[1..][i - 1];
    }
  }

  lemma StepMoves(s: State, q: Request, index: int)
    requires Shaped(s) && LeavesInRange(s)
    ensures LeafOf(Step(s, q).positions, index) == if Draws(q, index) then q.leaf else LeafOf(s.positions, index)
  {
  }

  // ---- the fresh ORAM -----------------------------------------------------

  ghost function Fresh(levels: nat, bucketSize: nat, positions: map<int, nat>): State
    requires levels >= 1
  {
    State(levels, bucketSize, seq(NumBuckets(levels), _ => Dummies(bucketSize)), [], positions)
  }

  lemma {:induction false} SumRealEmpty(buckets: seq<Slots>)
    requires forall p, b :: 0 <= p < |buckets| && b in buckets[p] ==> b.index == -1
    ensures SumReal(buckets) == multiset{}
  {
    if buckets != [] {
      RealOfDummies(buckets[0]);
      assert forall p :: 0 <= p < |buckets| - 1 ==> buckets[1..][p] == buckets[p + 1];
      SumRealEmpty(buckets[1..]);
    }
  }

  /** The constructor establishes the invariant, holding nothing. */
  lemma FreshInv(levels: nat, bucketSize: nat, positions: map<int, nat>)
    requires levels >= 1
    requires forall i :: i in positions ==> positions[i] < NumLeaves(levels)
    ensures Inv(Fresh(levels, bucketSize, positions))
    ensures View(Fresh(levels, bucketSize, positions)) == map[]
  {
    var s := Fresh(levels, bucketSize, positions);
    SumRealEmpty(s.buckets);
    assert Contents(s) == multiset{};
  }
}
