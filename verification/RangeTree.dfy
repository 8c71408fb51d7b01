/** The range tree T1: recursive build, added internal nodes that straddle two
    neighbours, and the search for one node covering a query. */
module RangeTree {
  import opened Wrappers
  import opened Powers
  import opened Decimal
  import opened Sets

  type Pairs = map<int, seq<nat>>

  // ---- matches --------------------------------------------------------------

  function Matches(memory: seq<(Bytes, nat)>, value: Bytes): seq<nat> {
    if memory == [] then []
    else
      var last := memory[|memory| - 1];
      Matches(memory[..|memory| - 1], value) + if last.0 == value then [last.1] else []
  }

  method FindAll(memory: seq<(Bytes, nat)>, value: Bytes) returns (matches: seq<nat>)
    ensures matches == Matches(memory, value)
  {
    matches := [];
    for i := 0 to |memory|
      invariant matches == Matches(memory[..i], value)
    {
      assert memory[..i + 1][..i] == memory[..i];
      if memory[i].0 == value {
        matches := matches + [memory[i].1];
      }
    }
    assert memory[..|memory|] == memory;
  }

  /** The ids come in the order of the list: an item is behind as many as its prefix has. */
  lemma {:induction false} MatchesInOrder(memory: seq<(Bytes, nat)>, value: Bytes, i: nat)
    requires i < |memory|
    ensures |Matches(memory[..i], value)| <= |Matches(memory, value)|
    ensures memory[i].0 == value ==>
              var k := |Matches(memory[..i], value)|;
              k < |Matches(memory, value)| && Matches(memory, value)[k] == memory[i].1
  {
    var front := memory[..|memory| - 1];
    if i < |front| {
      MatchesInOrder(front, value, i);
      assert front[..i] == memory[..i];
    }
  }

  const MINUS: bv8 := 45

  function Keyword(context: Bytes, v: int): Bytes {
    context + if v < 0 then [MINUS] + ToString(-v) else ToString(v)
  }

  /** A keyword is the context and the number in decimal, with a minus sign if need be. */
  lemma KeywordText(context: Bytes, v: int)
    ensures var s := Keyword(context, v);
            && s[..|context|] == context && |s| > |context|
            && if v >= 0 then Spelled(s[|context|..]) == v
               else s[|context|] as char == '-' && Spelled(s[|context| + 1..]) == -v
  {
    DecimalText(if v < 0 then -v else v);
    var s := Keyword(context, v);
    if v < 0 {
      assert s[|context| + 1..] == ToString(-v);
    } else {
      assert s[|context|..] == ToString(v);
    }
  }

  /** The ids filed under keyword v. */
  function IdsOf(memory: seq<(Bytes, nat)>, context: Bytes, v: int): seq<nat> {
    Matches(memory, Keyword(context, v))
  }

  /** `map[v]`, empty if absent. */
  function At(pairs: Pairs, v: int): seq<nat> {
    if v in pairs then pairs[v] else []
  }

  /** The keywords lo .. hi that have ids, with their ids. */
  ghost function Restricted(memory: seq<(Bytes, nat)>, context: Bytes, lo: int, hi: int): Pairs {
    map v: int | lo <= v <= hi && IdsOf(memory, context, v) != [] :: IdsOf(memory, context, v)
  }

  // ---- merging --------------------------------------------------------------

  ghost function Merged(a: Pairs, b: Pairs): Pairs {
    map v | v in a.Keys + b.Keys :: At(a, v) + At(b, v)
  }

  lemma MergedAt(a: Pairs, b: Pairs, v: int)
    ensures v in Merged(a, b) <==> v in a || v in b
    ensures v in b && v !in a ==> Merged(a, b)[v] == b[v]
    ensures v in a && v !in b ==> Merged(a, b)[v] == a[v]
    ensures v in a && v in b ==> Merged(a, b)[v] == a[v] + b[v]
  {
    assert At(a, v) + [] == At(a, v) && [] + At(b, v) == At(b, v);
  }

  /** The keywords in `keys` are still to be merged. */
  ghost predicate MergedExcept(a: Pairs, b: Pairs, keys: set<int>, pairs: Pairs) {
    && (forall v: int :: v in pairs <==> v in a || (v in b && v !in keys))
    && (forall v: int :: v in pairs ==> pairs[v] == if v in b && v !in keys then At(a, v) + b[v] else At(a, v))
  }

  lemma MergedDone(a: Pairs, b: Pairs, pairs: Pairs)
    requires MergedExcept(a, b, {}, pairs)
    ensures pairs == Merged(a, b)
  {
    forall v | v in pairs ensures pairs[v] == Merged(a, b)[v] {
      MergedAt(a, b, v);
    }
  }

  /** Appends every list of the right map to the left map's list for that keyword. */
  method Merge(left: Pairs, right: Pairs) returns (pairs: Pairs)
    ensures pairs == Merged(left, right)
  {
    pairs := left;
    var keys := right.Keys;
    while keys != {}
      invariant keys <= right.Keys && MergedExcept(left, right, keys, pairs)
      decreases |keys|
    {
      ghost var some := Member(keys);
      var v: int :| v in keys;
      pairs := pairs[v := At(pairs, v) + right[v]];
      keys := keys - {v};
    }
    MergedDone(left, right, pairs);
  }

  // ---- nodes ----------------------------------------------------------------

  /** The static node counter. */
  class Counter {
    var next: nat

    constructor ()
      ensures next == 0
    {
      next := 0;
    }
  }

  class Node {
    const lo: int
    const hi: int
    const pairs: Pairs
    const id: nat
    const left: Node?
    const right: Node?
    var parent: Node?

    constructor (counter: Counter, lo: int, hi: int, pairs: Pairs, left: Node?, right: Node?)
      modifies counter
      ensures this.lo == lo && this.hi == hi && this.pairs == pairs && this.left == left && this.right == right
      ensures parent == null && id == old(counter.next) && counter.next == id + 1
    {
      this.lo, this.hi, this.pairs, this.left, this.right := lo, hi, pairs, left, right;
      parent, id := null, counter.next;
      new;
      counter.next := counter.next + 1;
    }
  }

  function Mid(lo: int, hi: int): int {
    (lo + hi) / 2
  }

  function Top(lo: int, hi: int): int {
    if lo < hi then hi else lo
  }

  /** A binary search tree over lo .. hi: every node holds the ids of its range. */
  ghost predicate Tree(n: Node, memory: seq<(Bytes, nat)>, context: Bytes, nodes: set<Node>)
    decreases n.hi - n.lo
  {
    && n in nodes
    && n.pairs == Restricted(memory, context, n.lo, Top(n.lo, n.hi))
    && if n.lo >= n.hi then n.left == null && n.right == null
       else
         && n.left != null && n.left.lo == n.lo && n.left.hi == Mid(n.lo, n.hi)
         && n.right != null && n.right.lo == Mid(n.lo, n.hi) + 1 && n.right.hi == n.hi
         && Tree(n.left, memory, context, nodes)
         && Tree(n.right, memory, context, nodes)
  }

  lemma {:induction false} TreeGrows(n: Node, memory: seq<(Bytes, nat)>, context: Bytes, a: set<Node>, b: set<Node>)
    requires Tree(n, memory, context, a) && a <= b
    ensures Tree(n, memory, context, b)
    decreases n.hi - n.lo
  {
    hide Restricted;
    if n.lo < n.hi {
      TreeGrows(n.left, memory, context, a, b);
      TreeGrows(n.right, memory, context, a, b);
    }
  }

  lemma MergeNeighbours(memory: seq<(Bytes, nat)>, context: Bytes, lo: int, mid: int, hi: int)
    requires lo <= mid < hi
    ensures Merged(Restricted(memory, context, lo, mid), Restricted(memory, context, mid + 1, hi)) ==
              Restricted(memory, context, lo, hi)
  {
    hide IdsOf, Merged;
    var a, b := Restricted(memory, context, lo, mid), Restricted(memory, context, mid + 1, hi);
    var all := Restricted(memory, context, lo, hi);
    forall v: int ensures v in all <==> v in Merged(a, b) {
      MergedAt(a, b, v);
    }
    forall v | v in all ensures v in Merged(a, b) && all[v] == Merged(a, b)[v] {
      MergedAt(a, b, v);
    }
  }

  /** Ids are unique, and no parent is set yet. */
  ghost predicate Fresh(nodes: set<Node>, first: nat, next: nat)
    reads nodes
  {
    && (forall n :: n in nodes ==> first <= n.id < next && n.parent == null)
    && (forall n, m :: n in nodes && m in nodes && n.id == m.id ==> n == m)
  }

  method LeafPairs(lhs: int, matches: seq<nat>) returns (pairs: Pairs)
    ensures pairs == if matches == [] then map[] else map[lhs := matches]
  {
    pairs := map[];
    for i := 0 to |matches|
      invariant pairs == if i == 0 then map[] else map[lhs := matches[..i]]
    {
      assert matches[..i + 1] == matches[..i] + [matches[i]];
      pairs := pairs[lhs := At(pairs, lhs) + [matches[i]]];
    }
    assert matches[..|matches|] == matches;
  }

  /** build_tree_t1 */
  method BuildTree(lhs: int, rhs: int, memory: seq<(Bytes, nat)>, context: Bytes, counter: Counter)
    returns (root: Node, ghost nodes: set<Node>)
    modifies counter
    ensures root.lo == lhs && root.hi == rhs && Tree(root, memory, context, nodes)
    ensures fresh(nodes) && old(counter.next) <= counter.next && Fresh(nodes, old(counter.next), counter.next)
    ensures forall n :: n in nodes ==> Sound(n, memory, context)
    ensures Bounded(nodes, lhs, Top(lhs, rhs))
    decreases rhs - lhs
  {
    hide IdsOf, Matches, Restricted, Merged, Sound, Tree;
    if lhs >= rhs {
      var matches := FindAll(memory, Keyword(context, lhs));
      var pairs := LeafPairs(lhs, matches);
      LeafRestricted(memory, context, lhs, matches);
      root := new Node(counter, lhs, rhs, pairs, null, null);
      nodes := {root};
      LeafTree(root, memory, context, nodes);
      TreeSound(root, memory, context, nodes);
    } else {
      var mid := Mid(lhs, rhs);
      var left, below := BuildTree(lhs, mid, memory, context, counter);
      label half:
      var right, above := BuildTree(mid + 1, rhs, memory, context, counter);
      var pairs := Merge(left.pairs, right.pairs);
      root := new Node(counter, lhs, rhs, pairs, left, right);
      nodes := below + above + {root};
      ForkTree(root, memory, context, below, above, nodes);
      TreeSound(root, memory, context, nodes);
    }
  }

  lemma LeafTree(n: Node, memory: seq<(Bytes, nat)>, context: Bytes, nodes: set<Node>)
    requires n in nodes && n.lo >= n.hi && n.left == null && n.right == null
    requires n.pairs == Restricted(memory, context, n.lo, n.lo)
    ensures Tree(n, memory, context, nodes)
  {
  }

  lemma ForkTree(n: Node, memory: seq<(Bytes, nat)>, context: Bytes, below: set<Node>, above: set<Node>,
          nodes: set<Node>)
    requires n in nodes && below <= nodes && above <= nodes && n.lo < n.hi && n.left != null && n.right != null
    requires n.left.lo == n.lo && n.left.hi == Mid(n.lo, n.hi) && n.right.lo == Mid(n.lo, n.hi) + 1 &&
              n.right.hi == n.hi
    requires Tree(n.left, memory, context, below) && Tree(n.right, memory, context, above)
    requires n.pairs == Merged(n.left.pairs, n.right.pairs)
    ensures Tree(n, memory, context, nodes)
  {
    hide Restricted, Merged;
    MergeNeighbours(memory, context, n.lo, Mid(n.lo, n.hi), n.hi);
    TreeGrows(n.left, memory, context, below, nodes);
    TreeGrows(n.right, memory, context, above, nodes);
  }

  lemma LeafRestricted(memory: seq<(Bytes, nat)>, context: Bytes, v: int, matches: seq<nat>)
    requires matches == Matches(memory, Keyword(context, v))
    ensures Restricted(memory, context, v, v) == if matches == [] then map[] else map[v := matches]
  {
  }

  // ---- internal nodes -------------------------------------------------------

  /** What a node holds is right, and within its range. */
  ghost predicate Sound(n: Node, memory: seq<(Bytes, nat)>, context: Bytes) {
    forall v :: v in n.pairs ==> n.lo <= v <= Top(n.lo, n.hi) && n.pairs[v] == IdsOf(memory, context, v) != []
  }

  /** A parent takes in the range and the contents of its child. */
  ghost predicate Wraps(p: Node, n: Node) {
    && p.lo <= n.lo && n.hi <= p.hi
    && forall v :: v in n.pairs ==> v in p.pairs && p.pairs[v] == n.pairs[v]
  }

  ghost predicate Good(nodes: set<Node>, memory: seq<(Bytes, nat)>, context: Bytes)
    reads nodes
  {
    && (forall n, m :: n in nodes && m in nodes && n.id == m.id ==> n == m)
    && (forall n :: n in nodes ==> Sound(n, memory, context))
    && (forall n :: n in nodes && n.parent != null ==> n.parent in nodes && Wraps(n.parent, n))
  }

  /** No range sticks out of lo .. hi. */
  ghost predicate Bounded(nodes: set<Node>, lo: int, hi: int) {
    forall n :: n in nodes ==> lo <= n.lo && Top(n.lo, n.hi) <= hi
  }

  /** The added nodes stay within whatever bounds there were. */
  ghost predicate StillBounded(nodes: set<Node>, more: set<Node>) {
    forall lo, hi :: Bounded(nodes, lo, hi) ==> Bounded(more, lo, hi)
  }

  ghost predicate Below(nodes: set<Node>, next: nat) {
    forall n :: n in nodes ==> n.id < next
  }

  lemma TreeSound(n: Node, memory: seq<(Bytes, nat)>, context: Bytes, nodes: set<Node>)
    requires Tree(n, memory, context, nodes)
    ensures Sound(n, memory, context)
  {
    hide IdsOf;
  }

  /** The children of a level, left to right. */
  ghost function Children(level: seq<Node>): seq<Node> {
    if level == [] then []
    else
      var n := level[|level| - 1];
      Children(level[..|level| - 1]) + (if n.left != null then [n.left] else []) +
          (if n.right != null then [n.right] else [])
  }

  /** Nodes of one depth: subtrees left to right, no range empty, no two overlapping. */
  ghost predicate Row(level: seq<Node>, memory: seq<(Bytes, nat)>, context: Bytes, nodes: set<Node>, width: int,
          limit: int) {
    && (forall i :: 0 <= i < |level| ==>
          Tree(level[i], memory, context, nodes) && level[i].lo <= level[i].hi <= limit &&
              level[i].hi - level[i].lo <= width)
    && (forall i, j :: 0 <= i < j < |level| ==> level[i].hi < level[j].lo)
  }

  lemma RowAppend(level: seq<Node>, memory: seq<(Bytes, nat)>, context: Bytes, nodes: set<Node>, width: int,
          limit: int, n: Node)
    requires Row(level, memory, context, nodes, width, limit) && limit < n.lo <= n.hi && n.hi - n.lo <= width
    requires Tree(n, memory, context, nodes)
    ensures Row(level + [n], memory, context, nodes, width, n.hi)
  {
    hide Tree;
  }

  lemma RowFront(level: seq<Node>, memory: seq<(Bytes, nat)>, context: Bytes, nodes: set<Node>, width: int, limit: int)
    requires Row(level, memory, context, nodes, width, limit) && level != []
    ensures var n := level[|level| - 1];
            Tree(n, memory, context, nodes) && n.lo <= n.hi <= limit && n.hi - n.lo <= width
            && Row(level[..|level| - 1], memory, context, nodes, width, n.lo - 1)
  {
    hide Tree;
  }

  lemma RowLimit(level: seq<Node>, memory: seq<(Bytes, nat)>, context: Bytes, nodes: set<Node>, width: int,
          limit: int, limit': int)
    requires Row(level, memory, context, nodes, width, limit) && limit <= limit'
    ensures Row(level, memory, context, nodes, width, limit')
  {
    hide Tree;
  }

  lemma TreeChildren(n: Node, memory: seq<(Bytes, nat)>, context: Bytes, nodes: set<Node>)
    requires Tree(n, memory, context, nodes)
    ensures n.lo >= n.hi ==> n.left == null && n.right == null
    ensures n.lo < n.hi ==>
              && n.left != null && n.right != null
              && Tree(n.left, memory, context, nodes) && Tree(n.right, memory, context, nodes)
              && n.left.lo == n.lo <= n.left.hi && n.left.hi < n.right.lo <= n.right.hi == n.hi
  {
    hide Restricted;
  }

  lemma {:induction false} ChildrenRow(level: seq<Node>, memory: seq<(Bytes, nat)>, context: Bytes,
          nodes: set<Node>, width: nat, limit: int)
    requires Row(level, memory, context, nodes, width, limit)
    ensures Row(Children(level), memory, context, nodes, width - 1, limit)
  {
    if level != [] {
      hide Row, Tree;
      var front, n := level[..|level| - 1], level[|level| - 1];
      RowFront(level, memory, context, nodes, width, limit);
      ChildrenRow(front, memory, context, nodes, width, n.lo - 1);
      TreeChildren(n, memory, context, nodes);
      var row := Children(front);
      if n.lo < n.hi {
        RowAppend(row, memory, context, nodes, width - 1, n.lo - 1, n.left);
        RowAppend(row + [n.left], memory, context, nodes, width - 1, n.left.hi, n.right);
        RowLimit(row + [n.left] + [n.right], memory, context, nodes, width - 1, n.right.hi, limit);
      } else {
        assert row + [] + [] == row;
        RowLimit(row, memory, context, nodes, width - 1, n.lo - 1, limit);
      }
    }
  }

  // ---- levels ---------------------------------------------------------------

  ghost predicate Under(m: Node, n: Node) {
    m.lo <= n.lo && n.hi <= m.hi && n.hi - n.lo < m.hi - m.lo
  }

  ghost predicate UnderOne(level: seq<Node>, n: Node) {
    exists i :: 0 <= i < |level| && Under(level[i], n)
  }

  /** Every deeper node has a shorter range within that of a node of the level. */
  ghost predicate Inside(level: seq<Node>, deeper: seq<Node>) {
    forall j :: 0 <= j < |deeper| ==> UnderOne(level, deeper[j])
  }

  lemma {:induction false} ChildrenInside(level: seq<Node>, memory: seq<(Bytes, nat)>, context: Bytes, nodes: set<Node>)
    requires forall i :: 0 <= i < |level| ==> Tree(level[i], memory, context, nodes)
    ensures Inside(level, Children(level))
  {
    if level != [] {
      hide Tree;
      var last := |level| - 1;
      var front, n := level[..last], level[last];
      ChildrenInside(front, memory, context, nodes);
      TreeChildren(n, memory, context, nodes);
      var all, before := Children(level), Children(front);
      forall j | 0 <= j < |all| ensures UnderOne(level, all[j]) {
        if j < |before| {
          assert all[j] == before[j] && UnderOne(front, before[j]);
          var i :| 0 <= i < |front| && Under(front[i], before[j]);
          assert level[i] == front[i];
        } else {
          assert Under(level[last], all[j]);
        }
      }
    }
  }

  lemma InsideTransitive(a: seq<Node>, b: seq<Node>, c: seq<Node>)
    requires Inside(a, b) && Inside(b, c)
    ensures Inside(a, c)
  {
    forall j | 0 <= j < |c| ensures UnderOne(a, c[j]) {
      assert UnderOne(b, c[j]);
      var k :| 0 <= k < |b| && Under(b[k], c[j]);
      assert UnderOne(a, b[k]);
      var i :| 0 <= i < |a| && Under(a[i], b[k]);
      assert Under(a[i], c[j]);
    }
  }

  ghost predicate NoneShared(a: seq<Node>, b: seq<Node>) {
    forall i, j :: 0 <= i < |a| && 0 <= j < |b| ==> a[i] != b[j]
  }

  lemma InsideApart(a: seq<Node>, b: seq<Node>, memory: seq<(Bytes, nat)>, context: Bytes, nodes: set<Node>,
          width: int, limit: int)
    requires Row(a, memory, context, nodes, width, limit) && Inside(a, b)
    ensures NoneShared(a, b)
  {
    hide Tree;
    forall i, j | 0 <= i < |a| && 0 <= j < |b| ensures a[i] != b[j] {
      assert UnderOne(a, b[j]);
      var k :| 0 <= k < |a| && Under(a[k], b[j]);
    }
  }

  /** One node by itself, or a proper row. */
  ghost predicate LevelOk(level: seq<Node>, memory: seq<(Bytes, nat)>, context: Bytes, nodes: set<Node>, width: int,
          limit: int) {
    Row(level, memory, context, nodes, width, limit) ||
        (|level| == 1 && Tree(level[0], memory, context, nodes) && level[0].lo > level[0].hi)
  }

  /** Level 0 is the root, each further level the children of the one before, and the
      last has none. */
  ghost predicate Levels(root: Node, levels: seq<seq<Node>>) {
    && levels != [] && levels[0] == [root]
    && (forall d :: 0 < d < |levels| ==> levels[d] == Children(levels[d - 1]))
    && Children(levels[|levels| - 1]) == []
  }

  ghost predicate LevelsOk(levels: seq<seq<Node>>, memory: seq<(Bytes, nat)>, context: Bytes, nodes: set<Node>,
          width: int, limit: int) {
    && (forall d :: 0 <= d < |levels| ==> LevelOk(levels[d], memory, context, nodes, width, limit))
    && (forall d, e :: 0 <= d < e < |levels| ==> NoneShared(levels[d], levels[e]))
  }

  lemma ChildrenStep(level: seq<Node>, i: nat)
    requires i <= |level|
    ensures Children(level[..0]) == []
    ensures i < |level| ==>
              Children(level[..i + 1]) ==
                Children(level[..i])
                + (if level[i].left != null then [level[i].left] else [])
                + (if level[i].right != null then [level[i].right] else [])
  {
    if i < |level| {
      assert level[..i + 1][..i] == level[..i];
    }
  }

  /** The queue pass over one level. */
  method TakeLevel(queue: seq<Node>) returns (tmp: seq<Node>, q: seq<Node>)
    ensures tmp == queue && q == Children(queue)
  {
    hide Children;
    tmp, q := [], queue;
    ChildrenStep(queue, 0);
    for i := 0 to |queue|
      invariant tmp == queue[..i] && q == queue[i..] + Children(queue[..i])
    {
      var front := q[0];
      ChildrenStep(queue, i);
      q := q[1..];
      assert q == queue[i + 1..] + Children(queue[..i]);
      tmp := tmp + [front];
      if front.left != null {
        q := q + [front.left];
      }
      if front.right != null {
        q := q + [front.right];
      }
    }
    assert queue[..|queue|] == queue;
  }

  lemma NextLevel(level: seq<Node>, memory: seq<(Bytes, nat)>, context: Bytes, nodes: set<Node>, width: nat, limit: int)
    requires LevelOk(level, memory, context, nodes, width, limit)
    ensures Inside(level, Children(level))
    ensures Row(Children(level), memory, context, nodes, width - 1, limit)
    ensures width == 0 ==> Children(level) == []
  {
    hide Tree;
    if Row(level, memory, context, nodes, width, limit) {
      ChildrenRow(level, memory, context, nodes, width, limit);
    } else {
      TreeChildren(level[0], memory, context, nodes);
      assert Children(level[..0]) == [];
    }
    hide Children;
    ChildrenInside(level, memory, context, nodes);
    assert Children(level) == [] || Children(level)[0].hi - Children(level)[0].lo <= width - 1;
  }

  lemma LevelWider(level: seq<Node>, memory: seq<(Bytes, nat)>, context: Bytes, nodes: set<Node>, width: int,
          width': int, limit: int)
    requires LevelOk(level, memory, context, nodes, width, limit) && width <= width'
    ensures LevelOk(level, memory, context, nodes, width', limit)
  {
    hide Tree;
  }

  lemma LevelApart(level: seq<Node>, memory: seq<(Bytes, nat)>, context: Bytes, nodes: set<Node>, width: int,
          limit: int, q: seq<Node>)
    requires LevelOk(level, memory, context, nodes, width, limit) && Inside(level, q)
    requires exists w :: Row(q, memory, context, nodes, w, limit)
    ensures NoneShared(level, q)
  {
    hide Tree;
    if Row(level, memory, context, nodes, width, limit) {
      InsideApart(level, q, memory, context, nodes, width, limit);
    }
  }

  /** The levels gathered so far, and the queue behind them. */
  ghost predicate Gathered(root: Node, levels: seq<seq<Node>>, q: seq<Node>) {
    && (levels == [] ==> q == [root])
    && (levels != [] ==> levels[0] == [root] && q == Children(levels[|levels| - 1]))
    && (forall d :: 0 < d < |levels| ==> levels[d] == Children(levels[d - 1]))
    && (forall d :: 0 <= d < |levels| ==> Inside(levels[d], q) && NoneShared(levels[d], q))
  }

  lemma GatherOne(root: Node, levels: seq<seq<Node>>, q: seq<Node>, memory: seq<(Bytes, nat)>, context: Bytes,
          nodes: set<Node>, width: nat, all: int, limit: int)
    requires Gathered(root, levels, q) && LevelsOk(levels, memory, context, nodes, all, limit) && width <= all
    requires LevelOk(q, memory, context, nodes, width, limit)
    ensures Gathered(root, levels + [q], Children(q)) && LevelsOk(levels + [q], memory, context, nodes, all, limit)
  {
    hide LevelOk, Row, Children;
    NextLevel(q, memory, context, nodes, width, limit);
    LevelWider(q, memory, context, nodes, width, all, limit);
    var next := levels + [q];
    forall d | 0 <= d < |next| ensures Inside(next[d], Children(q)) && NoneShared(next[d], Children(q)) {
      if d < |levels| {
        InsideTransitive(levels[d], q, Children(q));
      }
      LevelApart(next[d], memory, context, nodes, all, limit, Children(q));
    }
  }

  /** The breadth-first pass. */
  method CollectLevels(root: Node, ghost memory: seq<(Bytes, nat)>, ghost context: Bytes, ghost nodes: set<Node>)
    returns (levels: seq<seq<Node>>, ghost width: int)
    requires Tree(root, memory, context, nodes)
    ensures Levels(root, levels) && LevelsOk(levels, memory, context, nodes, width, root.hi)
  {
    hide Tree, Row;
    ghost var limit := root.hi;
    width := Top(root.lo, root.hi) - root.lo;
    ghost var w: int := width;
    var q := [root];
    levels := [];
    RootLevel(root, memory, context, nodes);
    while q != []
      invariant Gathered(root, levels, q) && LevelsOk(levels, memory, context, nodes, width, limit)
      invariant w <= width && (q != [] ==> w >= 0 && LevelOk(q, memory, context, nodes, w, limit))
      invariant levels == [] ==> q != []
      decreases if q == [] then 0 else w + 1
    {
      GatherOne(root, levels, q, memory, context, nodes, w, width, limit);
      NextLevel(q, memory, context, nodes, w, limit);
      hide LevelOk, LevelsOk, Gathered, Children;
      var tmp;
      tmp, q := TakeLevel(q);
      levels := levels + [tmp];
      w := w - 1;
    }
  }

  lemma RootLevel(root: Node, memory: seq<(Bytes, nat)>, context: Bytes, nodes: set<Node>)
    requires Tree(root, memory, context, nodes)
    ensures LevelOk([root], memory, context, nodes, Top(root.lo, root.hi) - root.lo, root.hi)
  {
    hide Tree;
  }

  // ---- parents --------------------------------------------------------------

  /** Both nodes point at one added node, which spans them and holds what they hold. */
  ghost predicate PairedUp(l: Node, r: Node)
    reads l, r
  {
    && l.parent != null && l.parent == r.parent
    && l.parent.lo == l.lo && l.parent.hi == r.hi && l.parent.pairs == Merged(l.pairs, r.pairs)
  }

  /** Subscripts 1 and 2, 3 and 4, ... below `upto` are paired up. */
  ghost predicate PairedRow(level: seq<Node>, upto: int)
    reads level
  {
    forall i :: 1 <= i && i % 2 == 1 && i + 1 < |level| && i < upto ==> PairedUp(level[i], level[i + 1])
  }

  lemma WrapsBoth(l: Node, r: Node, p: Node, memory: seq<(Bytes, nat)>, context: Bytes)
    requires Sound(l, memory, context) && Sound(r, memory, context) && l.lo <= l.hi < r.lo <= r.hi
    requires p.lo == l.lo && p.hi == r.hi && p.pairs == Merged(l.pairs, r.pairs)
    ensures Sound(p, memory, context) && Wraps(p, l) && Wraps(p, r)
  {
    hide IdsOf, Merged;
    forall v: int ensures v in p.pairs <==> v in l.pairs || v in r.pairs {
      MergedAt(l.pairs, r.pairs, v);
    }
    forall v | v in p.pairs ensures p.pairs[v] == if v in l.pairs then l.pairs[v] else r.pairs[v] {
      MergedAt(l.pairs, r.pairs, v);
    }
  }

  /** One added node over two neighbours. */
  method AddParent(left: Node, right: Node, counter: Counter, ghost nodes: set<Node>,
          ghost memory: seq<(Bytes, nat)>, ghost context: Bytes)
    returns (ghost more: set<Node>)
    requires Good(nodes, memory, context) && Below(nodes, counter.next)
    requires left in nodes && right in nodes && left.lo <= left.hi < right.lo <= right.hi
    modifies left`parent, right`parent, counter
    ensures nodes <= more && fresh(more - nodes) && Good(more, memory, context) && Below(more, counter.next)
    ensures StillBounded(nodes, more)
    ensures PairedUp(left, right)
  {
    hide Merged, IdsOf;
    var pairs := Merge(left.pairs, right.pairs);
    var parent := new Node(counter, left.lo, right.hi, pairs, null, null);
    left.parent, right.parent := parent, parent;
    more := nodes + {parent};
    assert left.parent == parent;
    WrapsBoth(left, right, parent, memory, context);
    hide Sound, Wraps;
  }

  /** The pairing loop over one level; the first node keeps its parent. */
  method AddLevel(level: seq<Node>, counter: Counter, ghost nodes: set<Node>, ghost tree: set<Node>,
          ghost memory: seq<(Bytes, nat)>, ghost context: Bytes, ghost width: int, ghost limit: int)
    returns (ghost more: set<Node>)
    requires LevelOk(level, memory, context, tree, width, limit) && tree <= nodes
    requires Good(nodes, memory, context) && Below(nodes, counter.next)
    modifies level, counter
    ensures nodes <= more && fresh(more - nodes) && Good(more, memory, context) && Below(more, counter.next)
    ensures StillBounded(nodes, more)
    ensures PairedRow(level, |level|)
    ensures level != [] ==> level[0].parent == old(level[0].parent)
  {
    hide LevelOk, Row, Tree, Good, Below, PairedUp, Bounded;
    LevelFacts(level, memory, context, tree, width, limit);
    more := nodes;
    var i := 1;
    while i < |level| - 1
      invariant i % 2 == 1 && 1 <= i
      invariant nodes <= more && fresh(more - nodes) && Good(more, memory, context) && Below(more, counter.next)
      invariant StillBounded(nodes, more)
      invariant PairedRow(level, i)
      invariant level != [] ==> level[0].parent == old(level[0].parent)
    {
      label before:
      more := AddParent(level[i], level[i + 1], counter, more, memory, context);
      forall k | 1 <= k && k % 2 == 1 && k + 1 < |level| && k < i + 2 ensures PairedUp(level[k], level[k + 1]) {
        if k < i {
          assert old@before(PairedUp(level[k], level[k + 1]));
          assert level[k] != level[i] && level[k] != level[i + 1] && level[k + 1] != level[i] &&
              level[k + 1] != level[i + 1];
        }
      }
      i := i + 2;
    }
  }

  lemma LevelFacts(level: seq<Node>, memory: seq<(Bytes, nat)>, context: Bytes, tree: set<Node>, width: int, limit: int)
    requires LevelOk(level, memory, context, tree, width, limit)
    ensures forall i :: 0 <= i < |level| ==> level[i] in tree
    ensures forall i, j :: 0 <= i < j < |level| ==> level[i].lo <= level[i].hi < level[j].lo <= level[j].hi
    ensures forall i, j :: 0 <= i < j < |level| ==> level[i] != level[j]
  {
  }

  /** add_internal_nodes_for_tree_t1 */
  method AddInternalNodes(root: Node, counter: Counter, ghost tree: set<Node>, ghost memory: seq<(Bytes, nat)>,
          ghost context: Bytes)
    returns (ghost nodes: set<Node>, ghost levels: seq<seq<Node>>)
    requires Tree(root, memory, context, tree) && Good(tree, memory, context) && Below(tree, counter.next)
    modifies tree, counter
    ensures tree <= nodes && fresh(nodes - tree) && Good(nodes, memory, context) && StillBounded(tree, nodes)
    ensures Levels(root, levels)
    ensures forall d :: 0 <= d < |levels| ==> PairedRow(levels[d], |levels[d]|)
  {
    hide Tree, Row, Good, Below, PairedRow, LevelOk, Children;
    nodes := tree;
    ghost var width;
    var levelResult;
    levelResult, width := CollectLevels(root, memory, context, tree);
    levels := levelResult;
    for d := 0 to |levelResult|
      invariant tree <= nodes && fresh(nodes - tree) && Good(nodes, memory, context) && Below(nodes, counter.next)
      invariant StillBounded(tree, nodes)
      invariant forall e :: 0 <= e < d ==> PairedRow(levels[e], |levels[e]|)
    {
      LevelFacts(levels[d], memory, context, tree, width, root.hi);
      assert forall e :: 0 <= e < d ==> NoneShared(levels[e], levels[d]);
      nodes := AddLevel(levelResult[d], counter, nodes, tree, memory, context, width, root.hi);
    }
  }

  lemma FreshGood(nodes: set<Node>, memory: seq<(Bytes, nat)>, context: Bytes, first: nat, next: nat)
    requires Fresh(nodes, first, next) && forall n :: n in nodes ==> Sound(n, memory, context)
    ensures Good(nodes, memory, context) && Below(nodes, next)
  {
    hide Sound, Wraps;
  }

  // ---- single range cover ---------------------------------------------------

  /** The search for lhs .. rhs from a node over lo .. hi steps onto a null child. */
  predicate HitsNull(lo: int, hi: int, lhs: int, rhs: int)
    decreases hi - lo
  {
    if hi - 1 == lo then false
    else if lo >= hi then true
    else if lhs > Mid(lo, hi) then HitsNull(Mid(lo, hi) + 1, hi, lhs, rhs)
    else if rhs <= Mid(lo, hi) then HitsNull(lo, Mid(lo, hi), lhs, rhs)
    else HitsNull(lo, Mid(lo, hi), lhs, Mid(lo, hi)) || HitsNull(Mid(lo, hi) + 1, hi, Mid(lo, hi) + 1, rhs)
  }

  /** The range contains the query, and every id of the query's keywords is there. */
  ghost predicate Covers(n: Node, lhs: int, rhs: int, memory: seq<(Bytes, nat)>, context: Bytes) {
    && n.lo <= lhs && rhs <= n.hi
    && forall v :: lhs <= v <= rhs ==> At(n.pairs, v) == IdsOf(memory, context, v)
  }

  lemma TreeCovers(n: Node, lhs: int, rhs: int, memory: seq<(Bytes, nat)>, context: Bytes, nodes: set<Node>)
    requires Tree(n, memory, context, nodes) && n.lo <= lhs <= rhs <= n.hi
    ensures Covers(n, lhs, rhs, memory, context)
  {
    hide IdsOf;
  }

  lemma ParentCovers(l: Node, r: Node, p: Node, lhs: int, mid: int, rhs: int, memory: seq<(Bytes, nat)>, context: Bytes)
    requires Covers(l, lhs, mid, memory, context) && Covers(r, mid + 1, rhs, memory, context)
    requires Wraps(p, l) && Wraps(p, r) && Sound(p, memory, context)
    ensures Covers(p, lhs, rhs, memory, context)
  {
    hide IdsOf;
    forall v | lhs <= v <= rhs ensures At(p.pairs, v) == IdsOf(memory, context, v) {
      assert At(l.pairs, v) == IdsOf(memory, context, v) || At(r.pairs, v) == IdsOf(memory, context, v);
    }
  }

  function Max(a: int, b: int): int {
    if a > b then a else b
  }

  function Min(a: int, b: int): int {
    if a < b then a else b
  }

  /** The node a query ends at: a node of two keywords; the node of one half, if the query
      lies in it; and for a query across the middle the parent that was added over the two
      nodes its halves end at, if there is one, and else the node itself. */
  ghost function CoverOf(n: Node, lhs: int, rhs: int, memory: seq<(Bytes, nat)>, context: Bytes,
          tree: set<Node>, nodes: set<Node>): Option<Node>
    requires Tree(n, memory, context, tree) && tree <= nodes
    reads nodes
    decreases Top(n.lo, n.hi) - n.lo
  {
    var mid := Mid(n.lo, n.hi);
    if n.hi - 1 == n.lo then Some(n)
    else if n.lo >= n.hi then None
    else if lhs > mid then CoverOf(n.right, lhs, rhs, memory, context, tree, nodes)
    else if rhs <= mid then CoverOf(n.left, lhs, rhs, memory, context, tree, nodes)
    else
      match (CoverOf(n.left, lhs, mid, memory, context, tree, nodes),
             CoverOf(n.right, mid + 1, rhs, memory, context, tree, nodes))
      case (Some(l), Some(r)) =>
        if l in nodes && r in nodes && l.parent != null && r.parent != null && l.parent.id == r.parent.id
        then Some(l.parent) else Some(n)
      case _ => None
  }

  /** single_range_cover. A query may stick out of the range of the tree; it is the part
      inside that is covered. */
  method SingleRangeCover(root: Node?, lhs: int, rhs: int, ghost memory: seq<(Bytes, nat)>, ghost context: Bytes,
          ghost tree: set<Node>, ghost nodes: set<Node>)
    returns (r: Result<Node>)
    requires Good(nodes, memory, context) && tree <= nodes && (root != null ==> Tree(root, memory, context, tree))
    ensures r.Failure? ==> r.error == NullNode
    ensures r.Failure? <==> root == null || HitsNull(root.lo, root.hi, lhs, rhs)
    ensures r.Success? ==> r.value in nodes
    ensures root != null && r.Success? ==> CoverOf(root, lhs, rhs, memory, context, tree, nodes) == Some(r.value)
    ensures r.Success? && Max(lhs, root.lo) <= Min(rhs, root.hi) ==>
              Covers(r.value, Max(lhs, root.lo), Min(rhs, root.hi), memory, context)
    decreases if root == null then -1 else Top(root.lo, root.hi) - root.lo
  {
    hide Good, Wraps, Sound, Restricted, Covers;
    if root == null {
      return Failure(NullNode);
    }
    ghost var from, upto := Max(lhs, root.lo), Min(rhs, root.hi);
    if from <= upto {
      TreeCovers(root, from, upto, memory, context, tree);
    }
    var mid := Mid(root.lo, root.hi);
    if root.hi - 1 == root.lo {
      return Success(root);
    }
    if lhs > mid {
      r := SingleRangeCover(root.right, lhs, rhs, memory, context, tree, nodes);
    } else if rhs <= mid {
      r := SingleRangeCover(root.left, lhs, rhs, memory, context, tree, nodes);
    } else {
      var left :- SingleRangeCover(root.left, lhs, mid, memory, context, tree, nodes);
      var right :- SingleRangeCover(root.right, mid + 1, rhs, memory, context, tree, nodes);
      if left.parent != null && right.parent != null && left.parent.id == right.parent.id {
        SharedParent(nodes, memory, context, left, right);
        ParentCovers(left, right, left.parent, from, mid, upto, memory, context);
        return Success(left.parent);
      }
      r := Success(root);
    }
  }

  lemma SharedParent(nodes: set<Node>, memory: seq<(Bytes, nat)>, context: Bytes, l: Node, r: Node)
    requires Good(nodes, memory, context) && l in nodes && r in nodes
    requires l.parent != null && r.parent != null && l.parent.id == r.parent.id
    ensures l.parent == r.parent && l.parent in nodes
    ensures Wraps(l.parent, l) && Wraps(l.parent, r) && Sound(l.parent, memory, context)
  {
    hide Wraps, Sound;
  }

  // ---- when no query runs into a null child ---------------------------------

  ghost predicate PowerOfTwo(w: int) {
    exists k: nat :: k >= 1 && w == Pow2(k)
  }

  /** Over a range of width 2^k no query at all fails, be it inside or not. */
  lemma {:induction false} NeverNull(lo: int, hi: int, lhs: int, rhs: int, k: nat)
    requires k >= 1 && hi - lo + 1 == Pow2(k)
    ensures !HitsNull(lo, hi, lhs, rhs)
    decreases k
  {
    if k > 1 {
      assert Pow2(k) == 2 * Pow2(k - 1) && Pow2(k - 1) == 2 * Pow2(k - 2) && Pow2(k - 2) >= 1;
      var mid := Mid(lo, hi);
      assert mid - lo + 1 == Pow2(k - 1) && hi - mid == Pow2(k - 1);
      hide Pow2, Mid;
      if lhs > mid {
        NeverNull(mid + 1, hi, lhs, rhs, k - 1);
      } else if rhs <= mid {
        NeverNull(lo, mid, lhs, rhs, k - 1);
      } else {
        NeverNull(lo, mid, lhs, mid, k - 1);
        NeverNull(mid + 1, hi, mid + 1, rhs, k - 1);
      }
    }
  }

  /** Over any other range some one-keyword query does. */
  lemma {:induction false} SomeNull(lo: int, hi: int) returns (x: int)
    requires lo <= hi && !PowerOfTwo(hi - lo + 1)
    ensures lo <= x <= hi && HitsNull(lo, hi, x, x)
    decreases hi - lo
  {
    var mid := Mid(lo, hi);
    if lo == hi {
      x := lo;
    } else if PowerOfTwo(mid - lo + 1) && PowerOfTwo(hi - mid) {
      PowerOfTwoHalves(hi - lo + 1);
      assert false;
    } else if !PowerOfTwo(mid - lo + 1) {
      TwoIsPower();
      x := SomeNull(lo, mid);
    } else {
      TwoIsPower();
      x := SomeNull(mid + 1, hi);
    }
  }

  lemma TwoIsPower()
    ensures PowerOfTwo(2)
  {
    assert Pow2(1) == 2;
  }

  /** Two powers of two, at least 2, that differ by at most one are equal. */
  lemma PowerOfTwoHalves(w: int)
    requires w >= 2 && PowerOfTwo((w + 1) / 2) && PowerOfTwo(w / 2)
    ensures PowerOfTwo(w)
  {
    hide Pow2;
    var a: nat :| a >= 1 && (w + 1) / 2 == Pow2(a);
    var b: nat :| b >= 1 && w / 2 == Pow2(b);
    Doubled(a - 1);
    Doubled(b - 1);
    Doubled(a);
    EvenHalves(w, Pow2(a - 1), Pow2(b - 1));
  }

  lemma Doubled(e: nat)
    ensures Pow2(e + 1) == 2 * Pow2(e)
  {
  }

  lemma EvenHalves(w: int, a: nat, b: nat)
    requires (w + 1) / 2 == 2 * a && w / 2 == 2 * b
    ensures w == 2 * (2 * a)
  {
  }

  /** No query meets a null child. */
  ghost predicate NeverFails(lo: int, hi: int) {
    forall lhs, rhs :: !HitsNull(lo, hi, lhs, rhs)
  }

  /** That is so exactly when the width is 2^k, k >= 1; for any other range already a
      query for one keyword of the range meets one. */
  lemma NeverFailsIff(lo: int, hi: int)
    ensures NeverFails(lo, hi) <==> PowerOfTwo(hi - lo + 1)
    ensures lo <= hi && !NeverFails(lo, hi) ==> exists x :: lo <= x <= hi && HitsNull(lo, hi, x, x)
  {
    if PowerOfTwo(hi - lo + 1) {
      var k: nat :| k >= 1 && hi - lo + 1 == Pow2(k);
      forall lhs, rhs ensures !HitsNull(lo, hi, lhs, rhs) {
        NeverNull(lo, hi, lhs, rhs, k);
      }
    } else if lo <= hi {
      var x := SomeNull(lo, hi);
      assert NeverFails(lo, hi) ==> !HitsNull(lo, hi, x, x);
    } else {
      assert NeverFails(lo, hi) ==> !HitsNull(lo, hi, lo, lo);
    }
  }

  function Clamp(lo: int, hi: int, x: int): int {
    Max(lo, Min(x, hi))
  }

  /** What sticks out of the range makes no difference, and a query with its bounds the
      wrong way round goes by its lower one. */
  lemma {:induction false} ClampedQuery(lo: int, hi: int, lhs: int, rhs: int)
    requires lo <= hi
    ensures var a := Clamp(lo, hi, lhs);
            HitsNull(lo, hi, lhs, rhs) == HitsNull(lo, hi, a, Max(a, Clamp(lo, hi, rhs)))
    decreases hi - lo
  {
    if hi - 1 > lo {
      var mid := Mid(lo, hi);
      if lhs > mid {
        ClampedQuery(mid + 1, hi, lhs, rhs);
      } else if rhs <= mid {
        ClampedQuery(lo, mid, lhs, rhs);
      } else {
        ClampedQuery(lo, mid, lhs, mid);
        ClampedQuery(mid + 1, hi, mid + 1, rhs);
      }
    }
  }

  /** The query for one of the keywords a .. b meets a null child. */
  ghost predicate OneFails(lo: int, hi: int, a: int, b: int) {
    exists x :: a <= x <= b && HitsNull(lo, hi, x, x)
  }

  lemma OneFailsInHalf(lo: int, hi: int, a: int, b: int)
    requires lo < hi - 1
    ensures var mid := Mid(lo, hi);
            OneFails(lo, hi, a, b) <==> OneFails(lo, mid, a, Min(b, mid)) || OneFails(mid + 1, hi, Max(a, mid + 1), b)
  {
    var mid := Mid(lo, hi);
    if OneFails(lo, hi, a, b) {
      var x :| a <= x <= b && HitsNull(lo, hi, x, x);
      assert if x > mid then HitsNull(mid + 1, hi, x, x) else HitsNull(lo, mid, x, x);
    }
    if OneFails(lo, mid, a, Min(b, mid)) {
      var x :| a <= x <= Min(b, mid) && HitsNull(lo, mid, x, x);
      assert HitsNull(lo, hi, x, x);
    }
    if OneFails(mid + 1, hi, Max(a, mid + 1), b) {
      var x :| Max(a, mid + 1) <= x <= b && HitsNull(mid + 1, hi, x, x);
      assert HitsNull(lo, hi, x, x);
    }
  }

  lemma NoneFails(lo: int, hi: int, a: int, b: int)
    requires b < a
    ensures !OneFails(lo, hi, a, b)
  {
  }

  lemma {:induction false} FailsInside(lo: int, hi: int, lhs: int, rhs: int)
    requires lo <= lhs <= rhs <= hi
    ensures HitsNull(lo, hi, lhs, rhs) <==> OneFails(lo, hi, lhs, rhs)
    decreases hi - lo
  {
    if hi - 1 <= lo {
      assert HitsNull(lo, hi, lhs, rhs) == HitsNull(lo, hi, lhs, lhs);
    } else {
      var mid := Mid(lo, hi);
      OneFailsInHalf(lo, hi, lhs, rhs);
      hide OneFails;
      if lhs > mid {
        FailsInside(mid + 1, hi, lhs, rhs);
        NoneFails(lo, mid, lhs, Min(rhs, mid));
      } else if rhs <= mid {
        FailsInside(lo, mid, lhs, rhs);
        NoneFails(mid + 1, hi, Max(lhs, mid + 1), rhs);
      } else {
        FailsInside(lo, mid, lhs, mid);
        FailsInside(mid + 1, hi, mid + 1, rhs);
      }
    }
  }

  /** A query meets a null child exactly when the query for one of its keywords does. */
  lemma FailsByKeyword(lo: int, hi: int, lhs: int, rhs: int)
    requires lo <= hi
    ensures var a := Clamp(lo, hi, lhs);
            HitsNull(lo, hi, lhs, rhs) <==> OneFails(lo, hi, a, Max(a, Clamp(lo, hi, rhs)))
  {
    var a := Clamp(lo, hi, lhs);
    ClampedQuery(lo, hi, lhs, rhs);
    FailsInside(lo, hi, a, Max(a, Clamp(lo, hi, rhs)));
  }

  // ---- search_range ---------------------------------------------------------

  /** The lists filed under lo .. hi, one after the other. */
  function Spliced(pairs: Pairs, lo: int, hi: int): seq<nat>
    decreases hi - lo
  {
    if hi < lo then [] else Spliced(pairs, lo, hi - 1) + At(pairs, hi)
  }

  /** find_all for every keyword of the range, by ascending keyword. */
  function AllIds(memory: seq<(Bytes, nat)>, context: Bytes, lo: int, hi: int): seq<nat>
    decreases hi - lo
  {
    if hi < lo then [] else AllIds(memory, context, lo, hi - 1) + IdsOf(memory, context, hi)
  }

  /** The ids of smaller keywords come first. */
  lemma {:induction false} AllIdsSplit(memory: seq<(Bytes, nat)>, context: Bytes, lo: int, mid: int, hi: int)
    requires lo - 1 <= mid <= hi
    ensures AllIds(memory, context, lo, hi) == AllIds(memory, context, lo, mid) + AllIds(memory, context, mid + 1, hi)
    ensures AllIds(memory, context, hi, hi) == IdsOf(memory, context, hi)
    decreases hi - mid
  {
    hide IdsOf;
    assert AllIds(memory, context, hi, hi - 1) == [];
    if mid < hi {
      AllIdsSplit(memory, context, lo, mid, hi - 1);
      var a, b := AllIds(memory, context, lo, mid), AllIds(memory, context, mid + 1, hi - 1);
      var c := IdsOf(memory, context, hi);
      assert (a + b) + c == a + (b + c);
    }
  }

  lemma {:induction false} SplicedGap(pairs: Pairs, lo: int, a: int, b: int)
    requires a <= b && forall v :: a < v <= b ==> v !in pairs
    ensures Spliced(pairs, lo, a) == Spliced(pairs, lo, b)
    decreases b - a
  {
    if a < b {
      SplicedGap(pairs, lo, a, b - 1);
    }
  }

  lemma {:induction false} SplicedAll(n: Node, lo: int, hi: int, top: int, memory: seq<(Bytes, nat)>, context: Bytes)
    requires Covers(n, lo, top, memory, context) && hi <= top
    ensures Spliced(n.pairs, lo, hi) == AllIds(memory, context, lo, hi)
    decreases hi - lo
  {
    hide IdsOf;
    if lo <= hi {
      SplicedAll(n, lo, hi - 1, top, memory, context);
    }
  }

  lemma {:induction false} Least(keys: set<int>) returns (k: int)
    requires keys != {}
    ensures k in keys && forall j: int :: j in keys ==> k <= j
    decreases |keys|
  {
    var some := Member(keys);
    var others := keys - {some};
    assert forall j: int :: j in keys ==> j == some || j in others;
    if others == {} {
      k := some;
    } else {
      var other := Least(others);
      k := if other < some then other else some;
    }
  }

  /** for_each over the map, which visits keywords in ascending order. */
  method Filter(pairs: Pairs, lower: int, upper: int) returns (subscripts: seq<nat>)
    ensures subscripts == Spliced(pairs, lower, upper)
  {
    subscripts := [];
    var keys := pairs.Keys;
    ghost var seen := lower - 1;
    while keys != {}
      invariant keys <= pairs.Keys && lower - 1 <= seen && (seen <= upper || seen == lower - 1)
      invariant forall v: int :: v in pairs && v !in keys ==> v <= seen || v > upper
      invariant forall v: int :: v in keys ==> v < lower || v > seen
      invariant forall v: int, w: int :: v in keys && w in pairs && w !in keys ==> w < v
      invariant subscripts == Spliced(pairs, lower, seen)
      decreases |keys|
    {
      ghost var least := Least(keys);
      var item: int :| item in keys && forall j: int :: j in keys ==> item <= j;
      if lower <= item <= upper {
        SplicedGap(pairs, lower, seen, item - 1);
        subscripts := subscripts + pairs[item];
        seen := item;
      }
      keys := keys - {item};
    }
    if lower <= upper {
      SplicedGap(pairs, lower, seen, upper);
    }
  }

  lemma {:induction false} SplicedStart(pairs: Pairs, a: int, b: int, hi: int)
    requires a <= b && forall v :: a <= v < b ==> v !in pairs
    ensures Spliced(pairs, a, hi) == Spliced(pairs, b, hi)
    decreases hi - a
  {
    if a <= hi {
      SplicedStart(pairs, a, b, hi - 1);
    }
  }

  /** Where there are no keywords outside lo .. hi, filtering need not look there. */
  lemma SplicedClamp(pairs: Pairs, lower: int, upper: int, lo: int, hi: int)
    requires forall v :: v in pairs ==> lo <= v <= hi
    ensures Spliced(pairs, lower, upper) == Spliced(pairs, Max(lower, lo), Min(upper, hi))
  {
    hide Spliced;
    SplicedGap(pairs, lower, Min(upper, hi), upper);
    SplicedStart(pairs, lower, Max(lower, lo), Min(upper, hi));
  }

  lemma PairsInside(n: Node, nodes: set<Node>, memory: seq<(Bytes, nat)>, context: Bytes, lo: int, hi: int)
    requires n in nodes && Good(nodes, memory, context) && Bounded(nodes, lo, hi)
    ensures forall v :: v in n.pairs ==> lo <= v <= hi
  {
    hide Wraps, IdsOf;
  }

  lemma NoIds(pairs: Pairs, memory: seq<(Bytes, nat)>, context: Bytes, lo: int, hi: int)
    requires lo > hi
    ensures Spliced(pairs, lo, hi) == [] && AllIds(memory, context, lo, hi) == []
  {
  }

  lemma ProperIfFound(lo: int, hi: int, lhs: int, rhs: int)
    requires !HitsNull(lo, hi, lhs, rhs)
    ensures lo < hi && Top(lo, hi) == hi
  {
  }

  /** search_range up to the subscripts it hands on: for every query, whichever node was
      chosen, exactly the ids of the keywords asked for that the tree ranges over. */
  method SearchRange(root: Node, lower: int, upper: int, ghost memory: seq<(Bytes, nat)>, ghost context: Bytes,
          ghost tree: set<Node>, ghost nodes: set<Node>)
    returns (r: Result<seq<nat>>)
    requires Good(nodes, memory, context) && tree <= nodes && Tree(root, memory, context, tree)
    requires Bounded(nodes, root.lo, Top(root.lo, root.hi))
    ensures r.Success? <==> !HitsNull(root.lo, root.hi, lower, upper)
    ensures r.Success? ==> r.value == AllIds(memory, context, Max(lower, root.lo), Min(upper, root.hi))
    ensures PowerOfTwo(root.hi - root.lo + 1) ==> r.Success?
  {
    hide Good, Tree, Covers, HitsNull, NeverFails, PowerOfTwo, AllIds, Spliced, Bounded, Top;
    NeverFailsAt(root.lo, root.hi, lower, upper);
    var node :- SingleRangeCover(root, lower, upper, memory, context, tree, nodes);
    var subscripts := Filter(node.pairs, lower, upper);
    ghost var from, upto := Max(lower, root.lo), Min(upper, root.hi);
    ProperIfFound(root.lo, root.hi, lower, upper);
    PairsInside(node, nodes, memory, context, root.lo, root.hi);
    SplicedClamp(node.pairs, lower, upper, root.lo, root.hi);
    if from <= upto {
      SplicedAll(node, from, upto, upto, memory, context);
    } else {
      NoIds(node.pairs, memory, context, from, upto);
    }
    r := Success(subscripts);
  }

  lemma NeverFailsAt(lo: int, hi: int, lhs: int, rhs: int)
    ensures PowerOfTwo(hi - lo + 1) ==> !HitsNull(lo, hi, lhs, rhs)
  {
    hide HitsNull;
    NeverFailsIff(lo, hi);
  }

  /** Build, add internal nodes, search: for any range and any query, the ids of every
      keyword in both, and only those, unless a null child is met; never so for width 2^k. */
  method RangeQuery(lo: int, hi: int, memory: seq<(Bytes, nat)>, context: Bytes, counter: Counter, lower: int,
          upper: int)
    returns (r: Result<seq<nat>>)
    modifies counter
    ensures r.Success? <==> !HitsNull(lo, hi, lower, upper)
    ensures r.Success? ==> r.value == AllIds(memory, context, Max(lower, lo), Min(upper, hi))
    ensures PowerOfTwo(hi - lo + 1) ==> r.Success?
  {
    hide Good, Tree, Fresh, Below, HitsNull, PowerOfTwo, AllIds, Levels, PairedRow, Bounded, Top;
    ghost var first := counter.next;
    var root, tree := BuildTree(lo, hi, memory, context, counter);
    FreshGood(tree, memory, context, first, counter.next);
    ghost var nodes, levels;
    nodes, levels := AddInternalNodes(root, counter, tree, memory, context);
    r := SearchRange(root, lower, upper, memory, context, tree, nodes);
  }
}
