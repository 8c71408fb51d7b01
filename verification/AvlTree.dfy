/** Height-balanced search trees: insertion with its four rotations, and what it keeps. */
module AvlTree {
  import opened Wrappers
  import opened Lex

  datatype Item = Item(id: int, key: Bytes, data: Bytes)

  datatype Tree = Leaf | Branch(item: Item, left: Tree, right: Tree)

  function Max(a: nat, b: nat): nat {
    if a > b then a else b
  }

  function Height(t: Tree): nat {
    match t
    case Leaf => 0
    case Branch(_, l, r) => Max(Height(l), Height(r)) + 1
  }

  function InOrder(t: Tree): seq<Item> {
    match t
    case Leaf => []
    case Branch(x, l, r) => InOrder(l) + [x] + InOrder(r)
  }

  function Size(t: Tree): (n: nat)
    ensures n == |InOrder(t)|
  {
    match t
    case Leaf => 0
    case Branch(_, l, r) => Size(l) + 1 + Size(r)
  }

  predicate Balanced(t: Tree) {
    match t
    case Leaf => true
    case Branch(_, l, r) => Balanced(l) && Balanced(r) && -1 <= Height(l) - Height(r) <= 1
  }

  /** Strictly ascending keys, so each key once. */
  ghost predicate Ascending(s: seq<Item>) {
    forall i, j :: 0 <= i < j < |s| ==> Less(s[i].key, s[j].key)
  }

  /** Search order. */
  ghost predicate Ordered(t: Tree) {
    Ascending(InOrder(t))
  }

  /** The keys of an ordered tree, left to right, ascend by the order of std::string. */
  lemma OrderedIff(t: Tree)
    ensures Ordered(t) <==>
            forall i, j :: 0 <= i < j < |InOrder(t)| ==> Precedes(InOrder(t)[i].key, InOrder(t)[j].key)
  {
    forall a: Bytes, b: Bytes ensures Less(a, b) <==> Precedes(a, b) {
      LessIff(a, b);
    }
    hide Less, Precedes, InOrder;
  }

  // ---- the four rotations ---------------------------------------------------

  function RightRotate(t: Tree): (r: Tree)
    requires t.Branch? && t.left.Branch?
    ensures r.Branch?
  {
    Branch(t.left.item, t.left.left, Branch(t.item, t.left.right, t.right))
  }

  function LeftRotate(t: Tree): (r: Tree)
    requires t.Branch? && t.right.Branch?
    ensures r.Branch?
  {
    Branch(t.right.item, Branch(t.item, t.left, t.right.left), t.right.right)
  }

  function LeftRightRotate(t: Tree): (r: Tree)
    requires t.Branch? && t.left.Branch? && t.left.right.Branch?
    ensures r.Branch?
  {
    RightRotate(t.(left := LeftRotate(t.left)))
  }

  function RightLeftRotate(t: Tree): (r: Tree)
    requires t.Branch? && t.right.Branch? && t.right.left.Branch?
    ensures r.Branch?
  {
    LeftRotate(t.(right := RightRotate(t.right)))
  }

  function Rebalance(t: Tree): (r: Tree)
    requires t.Branch?
    ensures r.Branch?
  {
    if Height(t.left) - Height(t.right) > 1 then
      if Height(t.left.left) >= Height(t.left.right) then RightRotate(t) else LeftRightRotate(t)
    else if Height(t.right) - Height(t.left) > 1 then
      if Height(t.right.right) >= Height(t.right.left) then LeftRotate(t) else RightLeftRotate(t)
    else t
  }

  function Insert(t: Tree, x: Item): (r: Tree)
    ensures r.Branch?
  {
    match t
    case Leaf => Branch(x, Leaf, Leaf)
    case Branch(y, l, r) =>
      if Less(y.key, x.key) then Rebalance(Branch(y, l, Insert(r, x)))
      else if Less(x.key, y.key) then Rebalance(Branch(y, Insert(l, x), r))
      else Rebalance(t)
  }

  // ---- order ----------------------------------------------------------------

  lemma Regroup(a: seq<Item>, x: Item, b: seq<Item>, y: Item, c: seq<Item>)
    ensures a + [x] + (b + [y] + c) == (a + [x] + b) + [y] + c
  {
  }

  lemma RotationsKeepOrder(t: Tree)
    requires t.Branch?
    ensures t.left.Branch? ==> InOrder(RightRotate(t)) == InOrder(t)
    ensures t.right.Branch? ==> InOrder(LeftRotate(t)) == InOrder(t)
  {
    if t.left.Branch? {
      RightRotateKeepsOrder(t);
    }
    if t.right.Branch? {
      LeftRotateKeepsOrder(t);
    }
  }

  lemma RightRotateKeepsOrder(t: Tree)
    requires t.Branch? && t.left.Branch?
    ensures InOrder(RightRotate(t)) == InOrder(t)
  {
    var low := Branch(t.item, t.left.right, t.right);
    Regroup(InOrder(t.left.left), t.left.item, InOrder(t.left.right), t.item, InOrder(t.right));
    assert InOrder(low) == InOrder(t.left.right) + [t.item] + InOrder(t.right);
    assert InOrder(t.left) == InOrder(t.left.left) + [t.left.item] + InOrder(t.left.right);
  }

  lemma LeftRotateKeepsOrder(t: Tree)
    requires t.Branch? && t.right.Branch?
    ensures InOrder(LeftRotate(t)) == InOrder(t)
  {
    var low := Branch(t.item, t.left, t.right.left);
    Regroup(InOrder(t.left), t.item, InOrder(t.right.left), t.right.item, InOrder(t.right.right));
    assert InOrder(low) == InOrder(t.left) + [t.item] + InOrder(t.right.left);
    assert InOrder(t.right) == InOrder(t.right.left) + [t.right.item] + InOrder(t.right.right);
  }

  lemma RebalanceKeepsOrder(t: Tree)
    requires t.Branch?
    ensures InOrder(Rebalance(t)) == InOrder(t)
  {
    hide InOrder;
    RotationsKeepOrder(t);
    if Height(t.left) - Height(t.right) > 1 {
      RotationsKeepOrder(t.left);
      if Height(t.left.left) < Height(t.left.right) {
        var u := t.(left := LeftRotate(t.left));
        RotationsKeepOrder(u);
        SameParts(t, u);
      }
    } else if Height(t.right) - Height(t.left) > 1 {
      RotationsKeepOrder(t.right);
      if Height(t.right.right) < Height(t.right.left) {
        var u := t.(right := RightRotate(t.right));
        RotationsKeepOrder(u);
        SameParts(t, u);
      }
    }
  }

  lemma SameParts(t: Tree, u: Tree)
    requires t.Branch? && u.Branch? && t.item == u.item
    requires InOrder(t.left) == InOrder(u.left) && InOrder(t.right) == InOrder(u.right)
    ensures InOrder(t) == InOrder(u)
  {
  }

  /** Insertion into an ascending list: an equal key changes nothing. */
  function InsertList(s: seq<Item>, x: Item): seq<Item> {
    if s == [] then [x]
    else if Less(s[0].key, x.key) then [s[0]] + InsertList(s[1..], x)
    else if Less(x.key, s[0].key) then [x] + s
    else s
  }

  lemma {:induction false} InsertListAfter(p: seq<Item>, s: seq<Item>, x: Item)
    requires forall i :: 0 <= i < |p| ==> Less(p[i].key, x.key)
    ensures InsertList(p + s, x) == p + InsertList(s, x)
  {
    if p == [] {
      assert p + s == s && p + InsertList(s, x) == InsertList(s, x);
    } else {
      assert (p + s)[1..] == p[1..] + s;
      InsertListAfter(p[1..], s, x);
      assert p == [p[0]] + p[1..];
      assert [p[0]] + (p[1..] + InsertList(s, x)) == p + InsertList(s, x);
    }
  }

  lemma {:induction false} InsertListBefore(p: seq<Item>, s: seq<Item>, x: Item)
    requires s != [] && Less(x.key, s[0].key)
    ensures InsertList(p + s, x) == InsertList(p, x) + s
  {
    if p == [] {
      assert p + s == s;
      Asymmetric(x.key, s[0].key);
    } else {
      assert (p + s)[1..] == p[1..] + s;
      InsertListBefore(p[1..], s, x);
      assert [p[0]] + (InsertList(p[1..], x) + s) == ([p[0]] + InsertList(p[1..], x)) + s;
      assert [x] + (p + s) == ([x] + p) + s;
    }
  }

  lemma AscendingParts(l: seq<Item>, y: Item, r: seq<Item>)
    requires Ascending(l + [y] + r)
    ensures Ascending(l) && Ascending(r)
    ensures forall i :: 0 <= i < |l| ==> Less(l[i].key, y.key)
    ensures forall i :: 0 <= i < |r| ==> Less(y.key, r[i].key)
  {
    var s := l + [y] + r;
    assert forall i :: 0 <= i < |l| ==> s[i] == l[i];
    assert s[|l|] == y;
    assert forall i :: 0 <= i < |r| ==> r[i] == s[|l| + 1 + i];
  }

  lemma InsertListMiddle(a: seq<Item>, y: Item, b: seq<Item>, x: Item)
    requires forall i :: 0 <= i < |a| ==> Less(a[i].key, y.key)
    ensures InsertList(a + [y] + b, x) ==
            if Less(y.key, x.key) then a + [y] + InsertList(b, x)
            else if Less(x.key, y.key) then InsertList(a, x) + [y] + b
            else a + [y] + b
  {
    assert a + [y] + b == a + ([y] + b);
    InsertListHead(y, b, x);
    hide InsertList;
    if Less(y.key, x.key) {
      forall i | 0 <= i < |a| ensures Less(a[i].key, x.key) {
        Transitive(a[i].key, y.key, x.key);
      }
      InsertListAfter(a, [y] + b, x);
      assert a + ([y] + InsertList(b, x)) == a + [y] + InsertList(b, x);
    } else if Less(x.key, y.key) {
      InsertListBefore(a, [y] + b, x);
      assert InsertList(a, x) + ([y] + b) == InsertList(a, x) + [y] + b;
    } else {
      Trichotomy(x.key, y.key);
      InsertListAfter(a, [y] + b, x);
    }
  }

  lemma InsertListHead(y: Item, b: seq<Item>, x: Item)
    ensures InsertList([y] + b, x) ==
            if Less(y.key, x.key) then [y] + InsertList(b, x) else if Less(x.key, y.key) then [x] + ([y] + b)
                else [y] + b
  {
    assert ([y] + b)[1..] == b;
  }

  /** The tree insertion is the list insertion. */
  lemma {:induction false} InsertInOrder(t: Tree, x: Item)
    requires Ordered(t)
    ensures InOrder(Insert(t, x)) == InsertList(InOrder(t), x)
  {
    match t
    case Leaf =>
    case Branch(y, l, r) =>
      AscendingParts(InOrder(l), y, InOrder(r));
      InsertListMiddle(InOrder(l), y, InOrder(r), x);
      hide Rebalance, Ascending, InsertList, Less;
      if Less(y.key, x.key) {
        RebalanceKeepsOrder(Branch(y, l, Insert(r, x)));
        InsertInOrder(r, x);
      } else if Less(x.key, y.key) {
        RebalanceKeepsOrder(Branch(y, Insert(l, x), r));
        InsertInOrder(l, x);
      } else {
        RebalanceKeepsOrder(t);
      }
  }

  ghost predicate HasKey(s: seq<Item>, key: Bytes) {
    exists i :: 0 <= i < |s| && s[i].key == key
  }

  /** What inserting into an ascending list does to it. */
  ghost predicate InsertedWell(s: seq<Item>, x: Item, r: seq<Item>) {
    && Ascending(r)
    && (HasKey(s, x.key) ==> r == s)
    && (!HasKey(s, x.key) ==> multiset(r) == multiset(s) + multiset{x})
    && forall i :: 0 <= i < |r| ==> r[i] == x || r[i] in s
  }

  lemma {:induction false} InsertListAscending(s: seq<Item>, x: Item)
    requires Ascending(s)
    ensures InsertedWell(s, x, InsertList(s, x))
  {
    hide Less, HasKey, InsertedWell;
    if s == [] {
      InsertedAlone(x);
    } else {
      assert Ascending(s[1..]);
      hide Ascending;
      if Less(s[0].key, x.key) {
        InsertListAscending(s[1..], x);
        InsertedAfterHead(s, x, InsertList(s[1..], x));
      } else if Less(x.key, s[0].key) {
        InsertedInFront(s, x);
      } else {
        Trichotomy(s[0].key, x.key);
        InsertedNowhere(s, x);
      }
    }
  }

  lemma InsertedAlone(x: Item)
    ensures InsertedWell([], x, [x])
  {
  }

  lemma InsertedNowhere(s: seq<Item>, x: Item)
    requires Ascending(s) && s != [] && s[0].key == x.key
    ensures InsertedWell(s, x, s)
  {
    hide Less;
  }

  lemma InsertedInFront(s: seq<Item>, x: Item)
    requires Ascending(s) && s != [] && Less(x.key, s[0].key)
    ensures InsertedWell(s, x, [x] + s)
  {
    hide Less;
    forall i | 0 <= i < |s| ensures Less(x.key, s[i].key) && s[i].key != x.key {
      if i > 0 {
        Transitive(x.key, s[0].key, s[i].key);
      }
      Asymmetric(x.key, s[i].key);
    }
    var r := [x] + s;
    assert forall i :: 1 <= i < |r| ==> r[i] == s[i - 1];
  }

  lemma InsertedAfterHead(s: seq<Item>, x: Item, rest: seq<Item>)
    requires Ascending(s) && s != [] && Less(s[0].key, x.key)
    requires InsertedWell(s[1..], x, rest)
    ensures InsertedWell(s, x, [s[0]] + rest)
  {
    hide Less;
    var tail, r := s[1..], [s[0]] + rest;
    assert s == [s[0]] + tail;
    assert forall i :: 1 <= i < |r| ==> r[i] == rest[i - 1];
    assert forall e :: e in tail ==> Less(s[0].key, e.key);
    Asymmetric(s[0].key, x.key);
    HasKeyTail(s, x.key);
  }

  lemma HasKeyTail(s: seq<Item>, key: Bytes)
    requires s != [] && s[0].key != key
    ensures HasKey(s, key) <==> HasKey(s[1..], key)
  {
    if HasKey(s, key) {
      var i :| 0 <= i < |s| && s[i].key == key;
      assert s[1..][i - 1].key == key;
    }
    if HasKey(s[1..], key) {
      var i :| 0 <= i < |s| - 1 && s[1..][i].key == key;
      assert s[i + 1].key == key;
    }
  }

  /** The key set grows by exactly the new key; an equal key changes no content. */
  lemma InsertContents(t: Tree, x: Item)
    requires Ordered(t)
    ensures Ordered(Insert(t, x))
    ensures HasKey(InOrder(t), x.key) ==> InOrder(Insert(t, x)) == InOrder(t)
    ensures !HasKey(InOrder(t), x.key) ==> multiset(InOrder(Insert(t, x))) == multiset(InOrder(t)) + multiset{x}
  {
    InsertInOrder(t, x);
    InsertListAscending(InOrder(t), x);
  }

  // ---- balance --------------------------------------------------------------

  ghost predicate Repaired(t: Tree, r: Tree) {
    Balanced(r) && Height(t) - 1 <= Height(r) <= Height(t)
  }

  lemma RightRepairs(t: Tree)
    requires t.Branch? && Balanced(t.left) && Balanced(t.right)
    requires Height(t.left) == Height(t.right) + 2 && Height(t.left.left) >= Height(t.left.right)
    ensures Repaired(t, RightRotate(t))
  {
    var low := Branch(t.item, t.left.right, t.right);
    assert Height(low) == Max(Height(t.left.right), Height(t.right)) + 1;
  }

  lemma LeftRepairs(t: Tree)
    requires t.Branch? && Balanced(t.left) && Balanced(t.right)
    requires Height(t.right) == Height(t.left) + 2 && Height(t.right.right) >= Height(t.right.left)
    ensures Repaired(t, LeftRotate(t))
  {
    var low := Branch(t.item, t.left, t.right.left);
    assert Height(low) == Max(Height(t.left), Height(t.right.left)) + 1;
  }

  /** The double rotations: the two lower trees share the height of the left and right
      remainders, the tree above them gains one. */
  lemma LeftRightRepairs(t: Tree)
    requires t.Branch? && Balanced(t.left) && Balanced(t.right)
    requires Height(t.left) == Height(t.right) + 2 && Height(t.left.left) < Height(t.left.right)
    ensures Repaired(t, LeftRightRotate(t))
  {
    var mid := t.left.right;
    var a, b := Branch(t.left.item, t.left.left, mid.left), Branch(t.item, mid.right, t.right);
    assert Height(mid) == Max(Height(mid.left), Height(mid.right)) + 1;
    assert Height(a) == Max(Height(t.left.left), Height(mid.left)) + 1;
    assert Height(b) == Max(Height(mid.right), Height(t.right)) + 1;
    assert LeftRightRotate(t) == Branch(mid.item, a, b);
  }

  lemma RightLeftRepairs(t: Tree)
    requires t.Branch? && Balanced(t.left) && Balanced(t.right)
    requires Height(t.right) == Height(t.left) + 2 && Height(t.right.right) < Height(t.right.left)
    ensures Repaired(t, RightLeftRotate(t))
  {
    var mid := t.right.left;
    var a, b := Branch(t.item, t.left, mid.left), Branch(t.right.item, mid.right, t.right.right);
    assert Height(mid) == Max(Height(mid.left), Height(mid.right)) + 1;
    assert Height(a) == Max(Height(t.left), Height(mid.left)) + 1;
    assert Height(b) == Max(Height(mid.right), Height(t.right.right)) + 1;
    assert RightLeftRotate(t) == Branch(mid.item, a, b);
  }

  /** One rotation repairs a difference of two, and the height drops by at most one. */
  lemma RebalanceBalances(t: Tree)
    requires t.Branch? && Balanced(t.left) && Balanced(t.right)
    requires -2 <= Height(t.left) - Height(t.right) <= 2
    ensures Balanced(Rebalance(t))
    ensures Height(t) - 1 <= Height(Rebalance(t)) <= Height(t)
    ensures Balanced(t) ==> Rebalance(t) == t
  {
    hide RightRotate, LeftRotate, LeftRightRotate, RightLeftRotate;
    if Height(t.left) - Height(t.right) > 1 {
      if Height(t.left.left) >= Height(t.left.right) {
        RightRepairs(t);
      } else {
        LeftRightRepairs(t);
      }
    } else if Height(t.right) - Height(t.left) > 1 {
      if Height(t.right.right) >= Height(t.right.left) {
        LeftRepairs(t);
      } else {
        RightLeftRepairs(t);
      }
    }
  }

  /** Insertion keeps the tree balanced and raises it by at most one level. */
  lemma {:induction false} InsertBalanced(t: Tree, x: Item)
    requires Balanced(t)
    ensures Balanced(Insert(t, x))
    ensures Height(t) <= Height(Insert(t, x)) <= Height(t) + 1
  {
    match t
    case Leaf =>
    case Branch(y, l, r) =>
      hide Rebalance;
      if Less(y.key, x.key) {
        InsertBalanced(r, x);
        RebalanceBalances(Branch(y, l, Insert(r, x)));
        HeightAfter(Branch(y, l, Insert(r, x)), t);
      } else if Less(x.key, y.key) {
        InsertBalanced(l, x);
        RebalanceBalances(Branch(y, Insert(l, x), r));
        HeightAfter(Branch(y, Insert(l, x), r), t);
      } else {
        RebalanceBalances(t);
      }
  }

  lemma HeightAfter(u: Tree, t: Tree)
    requires t.Branch? && u.Branch? && Balanced(t) && Balanced(u.left) && Balanced(u.right)
    requires (u.left == t.left && Height(t.right) <= Height(u.right) <= Height(t.right) + 1)
          || (u.right == t.right && Height(t.left) <= Height(u.left) <= Height(t.left) + 1)
    ensures Height(t) <= Height(Rebalance(u)) <= Height(t) + 1
  {
    RebalanceBalances(u);
    hide Rebalance;
    if Balanced(u) {
    } else {
      assert Height(u) == Height(t) + 1;
    }
  }

  /** An equal key leaves a balanced tree as it is, node by node. */
  lemma {:induction false} InsertEqual(t: Tree, x: Item)
    requires Balanced(t) && Ordered(t) && HasKey(InOrder(t), x.key)
    ensures Insert(t, x) == t
  {
    var Branch(y, l, r) := t;
    var a, b := InOrder(l), InOrder(r);
    AscendingParts(a, y, b);
    RebalanceBalances(t);
    hide Rebalance, Ascending;
    var s := a + [y] + b;
    var i :| 0 <= i < |s| && s[i].key == x.key;
    if i < |a| {
      assert s[i] == a[i];
      Asymmetric(x.key, y.key);
      InsertEqual(l, x);
    } else if i > |a| {
      assert s[i] == b[i - |a| - 1];
      InsertEqual(r, x);
    } else {
      Irreflexive(x.key);
    }
  }

  function Fib(n: nat): nat {
    if n == 0 then 0 else if n == 1 then 1 else Fib(n - 1) + Fib(n - 2)
  }

  lemma {:induction false} FibMonotone(a: nat, b: nat)
    requires a <= b
    ensures Fib(a) <= Fib(b)
    decreases b
  {
    if a < b {
      FibMonotone(a, b - 1);
      if b == 1 {
      } else {
        assert Fib(b) == Fib(b - 1) + Fib(b - 2);
      }
    }
  }

  lemma FibStep(n: nat)
    ensures Fib(n + 2) == Fib(n + 1) + Fib(n) && Fib(1) == 1 && Fib(2) == 1
  {
  }

  /** A balanced tree of height h holds at least F(h+2) - 1 keys. */
  lemma SizeUnfold(t: Tree)
    requires t.Branch?
    ensures Size(t) == Size(t.left) + 1 + Size(t.right)
  {
  }

  lemma FibSum(h: nat, hl: nat, hr: nat)
    requires h == Max(hl, hr) + 1 && -1 <= hl - hr <= 1
    ensures Fib(hl + 2) + Fib(hr + 2) >= Fib(h + 2)
  {
    hide Fib;
    FibStep(h);
    FibMonotone(h, hl + 2);
    FibMonotone(h, hr + 2);
  }

  lemma {:induction false} SizeAtLeastFib(t: Tree)
    requires Balanced(t)
    ensures Size(t) >= Fib(Height(t) + 2) - 1
  {
    hide Fib, Size;
    if t.Branch? {
      SizeAtLeastFib(t.left);
      SizeAtLeastFib(t.right);
      SizeUnfold(t);
      FibSum(Height(t), Height(t.left), Height(t.right));
    } else {
      FibStep(0);
    }
  }

  // ---- search ---------------------------------------------------------------

  function Lookup(t: Tree, key: Bytes): Option<Item> {
    match t
    case Leaf => None
    case Branch(y, l, r) =>
      if y.key == key then Some(y)
      else if Less(y.key, key) then Lookup(r, key)
      else Lookup(l, key)
  }

  /** Search finds the item with the key if there is one, and None exactly if not. */
  lemma {:induction false} LookupFinds(t: Tree, key: Bytes)
    requires Ordered(t)
    ensures Lookup(t, key).Some? <==> HasKey(InOrder(t), key)
    ensures Lookup(t, key).Some? ==> Lookup(t, key).value.key == key && Lookup(t, key).value in InOrder(t)
  {
    match t
    case Leaf =>
    case Branch(y, l, r) =>
      var a, b := InOrder(l), InOrder(r);
      var s := a + [y] + b;
      AscendingParts(a, y, b);
      Trichotomy(y.key, key);
      LookupFinds(l, key);
      LookupFinds(r, key);
      hide Ascending;
      KeyInParts(a, y, b, key);
  }

  lemma KeyInParts(a: seq<Item>, y: Item, b: seq<Item>, key: Bytes)
    requires forall i :: 0 <= i < |a| ==> Less(a[i].key, y.key)
    requires forall i :: 0 <= i < |b| ==> Less(y.key, b[i].key)
    ensures y.key == key ==> HasKey(a + [y] + b, key)
    ensures Less(y.key, key) ==> (HasKey(a + [y] + b, key) <==> HasKey(b, key))
    ensures Less(key, y.key) ==> (HasKey(a + [y] + b, key) <==> HasKey(a, key))
    ensures Less(key, y.key) ==> !Less(y.key, key) && y.key != key
    ensures Less(y.key, key) ==> y.key != key
  {
    var s := a + [y] + b;
    assert s[|a|] == y;
    assert forall i :: 0 <= i < |a| ==> s[i] == a[i];
    assert forall i :: 0 <= i < |b| ==> s[|a| + 1 + i] == b[i];
    if Less(y.key, key) {
      Asymmetric(y.key, key);
      assert forall i :: 0 <= i < |a| ==> a[i].key != key;
    } else if Less(key, y.key) {
      Asymmetric(key, y.key);
      assert forall i :: 0 <= i < |b| ==> b[i].key != key;
    }
    if HasKey(s, key) && y.key != key {
      var i :| 0 <= i < |s| && s[i].key == key;
      assert i < |a| || s[i] == b[i - |a| - 1];
    }
  }

  // ---- runs -----------------------------------------------------------------

  function InsertAll(t: Tree, xs: seq<Item>): Tree
    decreases |xs|
  {
    if xs == [] then t else InsertAll(Insert(t, xs[0]), xs[1..])
  }

  /** Every tree reached by insertions is ordered and balanced, and so wide that its
      height is logarithmic. */
  lemma {:induction false} RunKeepsShape(t: Tree, xs: seq<Item>)
    requires Ordered(t) && Balanced(t)
    ensures Ordered(InsertAll(t, xs)) && Balanced(InsertAll(t, xs))
    ensures Size(InsertAll(t, xs)) >= Fib(Height(InsertAll(t, xs)) + 2) - 1
    decreases |xs|
  {
    hide Insert, Ordered, Balanced, Fib, Size, Height;
    if xs == [] {
      SizeAtLeastFib(t);
    } else {
      InsertContents(t, xs[0]);
      InsertBalanced(t, xs[0]);
      RunKeepsShape(Insert(t, xs[0]), xs[1..]);
    }
  }

  /** The first of the inserted items with a key, behind what the tree held already. */
  function FirstWith(xs: seq<Item>, key: Bytes): Option<Item> {
    if xs == [] then None else if xs[0].key == key then Some(xs[0]) else FirstWith(xs[1..], key)
  }

  lemma LookupAfterInsert(t: Tree, x: Item, key: Bytes)
    requires Ordered(t)
    ensures Lookup(Insert(t, x), key) == match Lookup(t, key) {
                                           case Some(y) => Some(y)
                                           case None => if key == x.key then Some(x) else None }
  {
    InsertContents(t, x);
    LookupFinds(t, key);
    LookupFinds(t, x.key);
    LookupFinds(Insert(t, x), key);
    hide Lookup, Insert;
    var s, r := InOrder(t), InOrder(Insert(t, x));
    if !HasKey(s, x.key) {
      MembersAfter(s, r, x);
    }
    UniqueByKey(r, key);
    UniqueByKey(s, key);
  }

  lemma MembersAfter(s: seq<Item>, r: seq<Item>, x: Item)
    requires multiset(r) == multiset(s) + multiset{x}
    ensures forall e :: e in r <==> e in s || e == x
  {
    assert forall e :: e in r <==> e in multiset(r);
    assert forall e :: e in s <==> e in multiset(s);
  }

  lemma UniqueByKey(s: seq<Item>, key: Bytes)
    requires Ascending(s)
    ensures forall x, y :: x in s && y in s && x.key == key && y.key == key ==> x == y
    ensures HasKey(s, key) <==> exists x :: x in s && x.key == key
  {
    forall x, y | x in s && y in s && x.key == key && y.key == key ensures x == y {
      var i :| 0 <= i < |s| && s[i] == x;
      var j :| 0 <= j < |s| && s[j] == y;
      Irreflexive(key);
    }
  }

  /** Over any run of insertions, a key is found with the first item inserted under it. */
  lemma {:induction false} RunLookup(t: Tree, xs: seq<Item>, key: Bytes)
    requires Ordered(t)
    ensures Lookup(InsertAll(t, xs), key) == match Lookup(t, key) {
                                               case Some(y) => Some(y)
                                               case None => FirstWith(xs, key) }
    decreases |xs|
  {
    if xs != [] {
      LookupAfterInsert(t, xs[0], key);
      InsertContents(t, xs[0]);
      hide Insert, Lookup, Ordered;
      RunLookup(Insert(t, xs[0]), xs[1..], key);
    }
  }
}
