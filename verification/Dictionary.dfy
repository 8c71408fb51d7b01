/** The oblivious AVL dictionary: recursion over node ids, every node read from and
    written to the session by id. The tree itself exists only in the proof. */
module Dictionary {
  import opened Wrappers
  import opened Lex
  import opened AvlTree
  import opened OdsSession

  // ---- a tree laid out in the store -----------------------------------------

  function RootId(t: Tree): int {
    if t.Leaf? then 0 else t.item.id
  }

  /** The node kept for a tree: child ids, and the children's true heights. */
  function Stored(t: Tree): Node
    requires t.Branch?
  {
    Node(t.item.id, t.item.key, t.item.data, RootId(t.left), RootId(t.right), Height(t.left), Height(t.right))
  }

  function Ids(t: Tree): set<int> {
    match t
    case Leaf => {}
    case Branch(x, l, r) => {x.id} + Ids(l) + Ids(r)
  }

  /** Acyclic and unshared: no id twice, and none of them the null id. */
  ghost predicate Unshared(t: Tree) {
    match t
    case Leaf => true
    case Branch(x, l, r) =>
      x.id >= 1 && x.id !in Ids(l) && x.id !in Ids(r) && Ids(l) !! Ids(r) && Unshared(l) && Unshared(r)
  }

  ghost predicate Rep(store: map<int, Node>, t: Tree) {
    match t
    case Leaf => true
    case Branch(x, l, r) => x.id in store && store[x.id] == Stored(t) && Rep(store, l) && Rep(store, r)
  }

  /** The two stores differ at most at these ids. */
  ghost predicate Agree(a: map<int, Node>, b: map<int, Node>, except: set<int>) {
    && (forall id :: id in a ==> id in b)
    && (forall id :: id in b ==> id in a || id in except)
    && (forall id :: id in a && id !in except ==> b[id] == a[id])
  }

  lemma {:induction false} RepFrame(a: map<int, Node>, b: map<int, Node>, except: set<int>, t: Tree)
    requires Rep(a, t) && Agree(a, b, except) && Ids(t) !! except
    ensures Rep(b, t)
  {
    hide Stored;
    if t.Branch? {
      assert t.item.id in Ids(t);
      RepFrame(a, b, except, t.left);
      RepFrame(a, b, except, t.right);
    }
  }

  lemma {:induction false} RepIds(store: map<int, Node>, t: Tree)
    requires Rep(store, t)
    ensures forall id :: id in Ids(t) ==> id in store
  {
    if t.Branch? {
      RepIds(store, t.left);
      RepIds(store, t.right);
    }
  }

  lemma RotationsKeepIds(t: Tree)
    requires t.Branch? && Unshared(t)
    ensures t.left.Branch? ==> Ids(RightRotate(t)) == Ids(t) && Unshared(RightRotate(t))
    ensures t.right.Branch? ==> Ids(LeftRotate(t)) == Ids(t) && Unshared(LeftRotate(t))
  {
  }

  lemma RebalanceKeepsIds(t: Tree)
    requires t.Branch? && Unshared(t)
    ensures Ids(Rebalance(t)) == Ids(t) && Unshared(Rebalance(t))
  {
    RotationsKeepIds(t);
    if Height(t.left) - Height(t.right) > 1 {
      RotationsKeepIds(t.left);
      if Height(t.left.left) < Height(t.left.right) {
        RotationsKeepIds(t.(left := LeftRotate(t.left)));
      }
    } else if Height(t.right) - Height(t.left) > 1 {
      RotationsKeepIds(t.right);
      if Height(t.right.right) < Height(t.right.left) {
        RotationsKeepIds(t.(right := RightRotate(t.right)));
      }
    }
  }

  lemma {:induction false} InsertKeepsIds(t: Tree, x: Item)
    requires Unshared(t) && x.id >= 1 && x.id !in Ids(t)
    ensures Unshared(Insert(t, x))
    ensures Ids(t) <= Ids(Insert(t, x)) <= Ids(t) + {x.id}
  {
    match t
    case Leaf =>
    case Branch(y, l, r) =>
      hide Rebalance;
      if Less(y.key, x.key) {
        InsertKeepsIds(r, x);
        RebalanceKeepsIds(Branch(y, l, Insert(r, x)));
      } else if Less(x.key, y.key) {
        InsertKeepsIds(l, x);
        RebalanceKeepsIds(Branch(y, Insert(l, x), r));
      } else {
        RebalanceKeepsIds(t);
      }
  }

  lemma RotatedChildIds(t: Tree)
    requires t.Branch? && Unshared(t)
    ensures t.left.Branch? && t.left.right.Branch? ==>
              var u := t.(left := LeftRotate(t.left)); Unshared(u) && Ids(u) == Ids(t) && Ids(u.left) == Ids(t.left)
    ensures t.right.Branch? && t.right.left.Branch? ==>
              var u := t.(right := RightRotate(t.right));
              Unshared(u) && Ids(u) == Ids(t) && Ids(u.right) == Ids(t.right)
  {
    hide RightRotate, LeftRotate;
    if t.left.Branch? {
      RotationsKeepIds(t.left);
    }
    if t.right.Branch? {
      RotationsKeepIds(t.right);
    }
  }

  /** get_height of a stored node is the height of its tree. */
  function GetHeight(node: Node): int {
    (if node.leftHeight > node.rightHeight then node.leftHeight else node.rightHeight) + 1
  }

  lemma GetHeightIsHeight(t: Tree)
    requires t.Branch?
    ensures GetHeight(Stored(t)) == Height(t)
  {
  }

  /** A rotation on the store: two nodes rewritten, the rest of the layout reused. */
  lemma RightRotateRep(store: map<int, Node>, t: Tree, after: map<int, Node>)
    requires t.Branch? && t.left.Branch? && Unshared(t) && Rep(store, t)
    requires var low := Branch(t.item, t.left.right, t.right);
             after == store[t.item.id := Stored(low)][t.left.item.id := Stored(RightRotate(t))]
    ensures Rep(after, RightRotate(t)) && Agree(store, after, Ids(t))
  {
    hide Stored;
    var except := {t.item.id, t.left.item.id};
    assert Agree(store, after, except);
    RepFrame(store, after, except, t.left.left);
    RepFrame(store, after, except, t.left.right);
    RepFrame(store, after, except, t.right);
  }

  lemma LeftRotateRep(store: map<int, Node>, t: Tree, after: map<int, Node>)
    requires t.Branch? && t.right.Branch? && Unshared(t) && Rep(store, t)
    requires var low := Branch(t.item, t.left, t.right.left);
             after == store[t.item.id := Stored(low)][t.right.item.id := Stored(LeftRotate(t))]
    ensures Rep(after, LeftRotate(t)) && Agree(store, after, Ids(t))
  {
    hide Stored;
    var except := {t.item.id, t.right.item.id};
    assert Agree(store, after, except);
    RepFrame(store, after, except, t.left);
    RepFrame(store, after, except, t.right.left);
    RepFrame(store, after, except, t.right.right);
  }

  /** Replacing one subtree by another with the same or one more id, and rewriting the root. */
  lemma GraftRep(store: map<int, Node>, mid: map<int, Node>, t: Tree, u: Tree, after: map<int, Node>, extra: set<int>)
    requires t.Branch? && u.Branch? && t.item == u.item && Unshared(t) && Unshared(u) && Rep(store, t)
    requires (u.left == t.left && Rep(mid, u.right) && Agree(store, mid, Ids(t.right) + extra))
          || (u.right == t.right && Rep(mid, u.left) && Agree(store, mid, Ids(t.left) + extra))
    requires Ids(t) !! extra
    requires t.item.id in mid && after == mid[t.item.id := Stored(u)]
    ensures Rep(after, u) && Agree(store, after, Ids(t) + extra)
  {
    hide Stored;
    if u.left == t.left && Rep(mid, u.right) && Agree(store, mid, Ids(t.right) + extra) {
      RepFrame(store, mid, Ids(t.right) + extra, t.left);
    } else {
      RepFrame(store, mid, Ids(t.left) + extra, t.right);
    }
    assert Agree(mid, after, {t.item.id});
    RepFrame(mid, after, {t.item.id}, u.left);
    RepFrame(mid, after, {t.item.id}, u.right);
  }

  lemma GraftNothing(store: map<int, Node>, mid: map<int, Node>, t: Tree, u: Tree, after: map<int, Node>)
    requires t.Branch? && u.Branch? && t.item == u.item && Unshared(t) && Unshared(u) && Rep(store, t)
    requires (u.left == t.left && Rep(mid, u.right) && Agree(store, mid, Ids(t.right)))
          || (u.right == t.right && Rep(mid, u.left) && Agree(store, mid, Ids(t.left)))
    requires after == mid[t.item.id := Stored(u)]
    ensures t.item.id in mid && Rep(after, u) && Agree(store, after, Ids(t))
  {
    hide Stored, Rep, Unshared;
    assert t.item.id in mid by {
      RepIds(store, t);
    }
    assert Ids(t.left) + {} == Ids(t.left) && Ids(t.right) + {} == Ids(t.right) && Ids(t) + {} == Ids(t);
    GraftRep(store, mid, t, u, after, {});
  }

  lemma AgreeTransitive(a: map<int, Node>, b: map<int, Node>, c: map<int, Node>, p: set<int>, q: set<int>)
    requires Agree(a, b, p) && Agree(b, c, q)
    ensures Agree(a, c, p + q) && (p == q ==> Agree(a, c, p))
  {
  }

  /** The tree after the recursive call of an insertion, before rebalancing. */
  function Grafted(t: Tree, x: Item): (u: Tree)
    requires t.Branch?
    ensures u.Branch? && u.item == t.item
  {
    if Less(t.item.key, x.key) then t.(right := Insert(t.right, x))
    else if Less(x.key, t.item.key) then t.(left := Insert(t.left, x))
    else t
  }

  lemma InsertIsRebalanced(t: Tree, x: Item)
    requires t.Branch?
    ensures Insert(t, x) == Rebalance(Grafted(t, x))
  {
  }

  lemma GraftedUnshared(t: Tree, x: Item)
    requires t.Branch? && Unshared(t) && x.id >= 1 && x.id !in Ids(t)
    ensures Unshared(Grafted(t, x)) && Ids(Grafted(t, x)) <= Ids(t) + {x.id}
  {
    hide Insert;
    InsertKeepsIds(t.left, x);
    InsertKeepsIds(t.right, x);
  }

  /** One level of the insertion on the store. */
  lemma InsertGraft(store: map<int, Node>, mid: map<int, Node>, t: Tree, x: Item, after: map<int, Node>)
    requires t.Branch? && Unshared(t) && Rep(store, t) && x.id >= 1 && x.id !in store
    requires if Less(t.item.key, x.key) then Rep(mid, Insert(t.right, x)) && Agree(store, mid, Ids(t.right) + {x.id})
             else if Less(x.key, t.item.key) then Rep(mid, Insert(t.left, x)) && Agree(store, mid, Ids(t.left) + {x.id})
             else mid == store
    requires after == mid[t.item.id := Stored(Grafted(t, x))]
    ensures Rep(after, Grafted(t, x)) && Unshared(Grafted(t, x))
    ensures Agree(store, after, Ids(t) + {x.id})
  {
    hide Insert, Stored;
    RepIds(store, t);
    GraftedUnshared(t, x);
    assert t.item.id in mid;
    if Less(t.item.key, x.key) || Less(x.key, t.item.key) {
      GraftRep(store, mid, t, Grafted(t, x), after, {x.id});
    } else {
      assert Agree(store, after, {});
      RepFrame(store, after, {}, t);
    }
  }

  // ---- the client -----------------------------------------------------------

  class Dict {
    const session: Session
    var rootId: int
    /** The tree the nodes spell out. */
    ghost var tree: Tree

    /** An open session holding tree `t`, with room for every id in the cache. */
    ghost predicate Holds(t: Tree)
      reads session.cache, session.oram, session.oram.storage, session.oram.limit
    {
      && session.IsOpen()
      && Unshared(t)
      && Rep(session.Flat(), t)
      && |session.Flat()| <= session.cache.maxSize
    }

    /** Between calls: closed, and the tree ordered and balanced. */
    ghost predicate Valid()
      reads this, session.cache, session.oram, session.oram.storage, session.oram.limit
    {
      && session.IsClosed()
      && Unshared(tree)
      && Rep(session.Flat(), tree)
      && rootId == RootId(tree)
      && Ordered(tree)
      && Balanced(tree)
    }

    constructor (session: Session)
      requires session.IsClosed()
      ensures Valid() && tree == Leaf && this.session == session
    {
      hide PathOram.Oram.Valid, Session.Separate, Session.Core, Session.Flat;
      this.session := session;
      rootId := 0;
      tree := Leaf;
    }

    /** read_from_oram of a node that is there. */
    method Read(id: int, ghost t: Tree) returns (node: Node)
      requires Holds(t) && t.Branch? && id == t.item.id
      modifies session, session.cache, session.oram, session.oram.storage
      ensures Holds(t) && session.Flat() == old(session.Flat())
      ensures node == Stored(t)
      ensures session.readCount == old(session.readCount) + 1
    {
      hide PathOram.Oram.Valid, Session.Separate, Session.Core, Session.IsOpen, Session.Flat, Stored;
      var r := session.ReadNode(id);
      node := r.value;
    }

    /** write_to_oram of a node that is there. */
    method Write(node: Node)
      requires session.IsOpen() && node.id >= 1 && node.id in session.Flat()
      requires |session.Flat()| <= session.cache.maxSize
      modifies session, session.cache, session.oram, session.oram.storage
      ensures session.IsOpen() && session.Flat() == old(session.Flat())[node.id := node]
      ensures |session.Flat()| == |old(session.Flat())|
    {
      hide PathOram.Oram.Valid, Session.Separate, Session.Core, Session.IsOpen, Session.Flat;
      SameSize(session.Flat(), node);
      var r := session.WriteNode(node);
    }

    method RightRotate(id: int, ghost t: Tree) returns (r: Node)
      requires Holds(t) && t.Branch? && t.left.Branch? && id == t.item.id
      modifies session, session.cache, session.oram, session.oram.storage
      ensures Holds(AvlTree.RightRotate(t)) && r == Stored(AvlTree.RightRotate(t))
      ensures Agree(old(session.Flat()), session.Flat(), Ids(t))
      ensures |session.Flat()| == |old(session.Flat())|
    {
      hide PathOram.Oram.Valid, Session.Separate, Session.Core, Session.IsOpen, Session.Flat;
      var root := Read(id, t);
      var left := Read(root.leftId, t.left);
      root := root.(leftId := left.rightId, leftHeight := left.rightHeight);
      Write(root);
      GetHeightIsHeight(Branch(t.item, t.left.right, t.right));
      left := left.(rightHeight := GetHeight(root), rightId := id);
      Write(left);
      RightRotateRep(old(session.Flat()), t, session.Flat());
      RotationsKeepIds(t);
      r := left;
    }

    method LeftRotate(id: int, ghost t: Tree) returns (r: Node)
      requires Holds(t) && t.Branch? && t.right.Branch? && id == t.item.id
      modifies session, session.cache, session.oram, session.oram.storage
      ensures Holds(AvlTree.LeftRotate(t)) && r == Stored(AvlTree.LeftRotate(t))
      ensures Agree(old(session.Flat()), session.Flat(), Ids(t))
      ensures |session.Flat()| == |old(session.Flat())|
    {
      hide PathOram.Oram.Valid, Session.Separate, Session.Core, Session.IsOpen, Session.Flat;
      var root := Read(id, t);
      var right := Read(root.rightId, t.right);
      root := root.(rightId := right.leftId, rightHeight := right.leftHeight);
      Write(root);
      GetHeightIsHeight(Branch(t.item, t.left, t.right.left));
      right := right.(leftHeight := GetHeight(root), leftId := id);
      Write(right);
      LeftRotateRep(old(session.Flat()), t, session.Flat());
      RotationsKeepIds(t);
      r := right;
    }

    method LeftRightRotate(id: int, ghost t: Tree) returns (r: Node)
      requires Holds(t) && t.Branch? && t.left.Branch? && t.left.right.Branch? && id == t.item.id
      modifies session, session.cache, session.oram, session.oram.storage
      ensures Holds(AvlTree.LeftRightRotate(t)) && r == Stored(AvlTree.LeftRightRotate(t))
      ensures Agree(old(session.Flat()), session.Flat(), Ids(t))
      ensures |session.Flat()| == |old(session.Flat())|
    {
      hide PathOram.Oram.Valid, Session.Separate, Session.Core, Session.IsOpen, Session.Flat, Height;
      ghost var u := t.(left := AvlTree.LeftRotate(t.left));
      RotatedChildIds(t);
      var root := Read(id, t);
      var left := LeftRotate(root.leftId, t.left);
      ghost var mid := session.Flat();
      GetHeightIsHeight(u.left);
      root := root.(leftId := left.id, leftHeight := GetHeight(left));
      Write(root);
      GraftNothing(old(session.Flat()), mid, t, u, session.Flat());
      ghost var grafted := session.Flat();
      r := RightRotate(id, u);
      AgreeTransitive(old(session.Flat()), grafted, session.Flat(), Ids(t), Ids(t));
    }

    method RightLeftRotate(id: int, ghost t: Tree) returns (r: Node)
      requires Holds(t) && t.Branch? && t.right.Branch? && t.right.left.Branch? && id == t.item.id
      modifies session, session.cache, session.oram, session.oram.storage
      ensures Holds(AvlTree.RightLeftRotate(t)) && r == Stored(AvlTree.RightLeftRotate(t))
      ensures Agree(old(session.Flat()), session.Flat(), Ids(t))
      ensures |session.Flat()| == |old(session.Flat())|
    {
      hide PathOram.Oram.Valid, Session.Separate, Session.Core, Session.IsOpen, Session.Flat, Height;
      ghost var u := t.(right := AvlTree.RightRotate(t.right));
      RotatedChildIds(t);
      var root := Read(id, t);
      var right := RightRotate(root.rightId, t.right);
      ghost var mid := session.Flat();
      GetHeightIsHeight(u.right);
      root := root.(rightId := right.id, rightHeight := GetHeight(right));
      Write(root);
      GraftNothing(old(session.Flat()), mid, t, u, session.Flat());
      ghost var grafted := session.Flat();
      r := LeftRotate(id, u);
      AgreeTransitive(old(session.Flat()), grafted, session.Flat(), Ids(t), Ids(t));
    }

    method Balance(id: int, ghost t: Tree) returns (r: Node)
      requires Holds(t) && t.Branch? && id == t.item.id
      modifies session, session.cache, session.oram, session.oram.storage
      ensures Holds(Rebalance(t)) && r == Stored(Rebalance(t))
      ensures Agree(old(session.Flat()), session.Flat(), Ids(t))
      ensures |session.Flat()| == |old(session.Flat())|
    {
      hide PathOram.Oram.Valid, Session.Separate, Session.Core, Session.IsOpen, Session.Flat, AvlTree.RightRotate,
          AvlTree.LeftRotate, AvlTree.LeftRightRotate,
          AvlTree.RightLeftRotate;
      var root := Read(id, t);
      var leftHeight, rightHeight := root.leftHeight, root.rightHeight;
      if leftHeight - rightHeight > 1 {
        var left := Read(root.leftId, t.left);
        if left.leftHeight >= left.rightHeight {
          r := RightRotate(id, t);
        } else {
          r := LeftRightRotate(id, t);
        }
      } else if rightHeight - leftHeight > 1 {
        var right := Read(root.rightId, t.right);
        if right.rightHeight >= right.leftHeight {
          r := LeftRotate(id, t);
        } else {
          r := RightLeftRotate(id, t);
        }
      } else {
        r := root;
      }
    }

    /** insert_priv: the id-indexed recursion carries out the tree insertion. */
    method InsertPriv(node: Node, id: int, ghost t: Tree, ghost x: Item) returns (r: Node)
      requires Holds(t) && id == RootId(t)
      requires node == Stored(Branch(x, Leaf, Leaf)) && x.id >= 1 && x.id !in session.Flat()
      requires |session.Flat()| + Size(AvlTree.Insert(t, x)) <= session.cache.maxSize + Size(t)
      modifies session, session.cache, session.oram, session.oram.storage
      ensures Holds(AvlTree.Insert(t, x)) && r == Stored(AvlTree.Insert(t, x))
      ensures Agree(old(session.Flat()), session.Flat(), Ids(t) + {x.id})
      ensures |session.Flat()| + Size(t) == |old(session.Flat())| + Size(AvlTree.Insert(t, x))
      decreases t
    {
      hide PathOram.Oram.Valid, Session.Separate, Session.Core, Session.IsOpen, Session.Flat, AvlTree.Insert,
          AvlTree.Rebalance, Less, Size;
      InsertSize(t, x);
      if id == 0 {
        InsertHere(node, x);
        return node;
      }
      RepIds(session.Flat(), t);
      var root := Read(id, t);
      if Less(root.key, node.key) {
        var cur := InsertPriv(node, root.rightId, t.right, x);
        root := root.(rightId := cur.id, rightHeight := GetHeight(cur));
        GetHeightIsHeight(AvlTree.Insert(t.right, x));
      } else if Less(node.key, root.key) {
        var cur := InsertPriv(node, root.leftId, t.left, x);
        root := root.(leftId := cur.id, leftHeight := GetHeight(cur));
        GetHeightIsHeight(AvlTree.Insert(t.left, x));
      }
      ghost var mid := session.Flat();
      Write(root);
      InsertGraft(old(session.Flat()), mid, t, x, session.Flat());
      ghost var grafted := session.Flat();
      GraftedUnshared(t, x);
      InsertIsRebalanced(t, x);
      r := Balance(id, Grafted(t, x));
      AgreeTransitive(old(session.Flat()), grafted, session.Flat(), Ids(t) + {x.id}, Ids(Grafted(t, x)));
      assert (Ids(t) + {x.id}) + Ids(Grafted(t, x)) == Ids(t) + {x.id};
    }

    /** A new leaf goes straight into the cache. */
    method InsertHere(node: Node, ghost x: Item)
      requires session.IsOpen()
      requires node == Stored(Branch(x, Leaf, Leaf)) && x.id >= 1 && x.id !in session.Flat()
      requires |session.Flat()| + 1 <= session.cache.maxSize
      modifies session.cache
      ensures Holds(AvlTree.Insert(Leaf, x)) && node == Stored(AvlTree.Insert(Leaf, x))
      ensures Agree(old(session.Flat()), session.Flat(), {x.id})
      ensures |session.Flat()| == |old(session.Flat())| + 1
    {
      hide PathOram.Oram.Valid, Session.Separate, Session.Core, Session.IsOpen, Session.Flat, AvlTree.Insert, Rep,
          Unshared;
      OneMore(session.Flat(), node);
      ghost var before := session.Flat();
      session.InsertNode(node);
      NewLeaf(before, x, session.Flat());
    }

    /** find_priv: one node read per level, at most the height of the tree in all. */
    method FindPriv(key: Bytes, id: int, ghost t: Tree) returns (r: Option<Node>)
      requires Holds(t) && id == RootId(t)
      modifies session, session.cache, session.oram, session.oram.storage
      ensures Holds(t) && session.Flat() == old(session.Flat())
      ensures match Lookup(t, key)
              case None => r == None
              case Some(x) => r.Some? && r.value.id == x.id && r.value.key == x.key && r.value.data == x.data
      ensures old(session.readCount) <= session.readCount <= old(session.readCount) + Height(t)
      decreases t
    {
      hide PathOram.Oram.Valid, Session.Separate, Session.Core, Session.IsOpen, Session.Flat, Less;
      if id == 0 {
        return None;
      }
      var root := Read(id, t);
      if root.key == key {
        r := Some(root);
      } else if Less(root.key, key) {
        r := FindPriv(key, root.rightId, t.right);
      } else {
        r := FindPriv(key, root.leftId, t.left);
      }
    }

    /** find: a session around one search. */
    method Find(key: Bytes, padVal: int) returns (r: Option<Node>)
      requires Valid() && |session.Flat()| <= session.cache.maxSize
      modifies session, session.cache, session.oram, session.oram.storage
      ensures Valid() && session.Flat() == old(session.Flat())
      ensures r.Some? <==> HasKey(InOrder(tree), key)
      ensures r.Some? ==> r.value.key == key && Item(r.value.id, r.value.key, r.value.data) in InOrder(tree)
      ensures Lookup(tree, key).Some? ==> r.Some? && r.value.data == Lookup(tree, key).value.data
    {
      hide PathOram.Oram.Valid, Session.Separate, Session.Core, Session.IsOpen, Session.IsClosed, Session.Flat, Ordered;
      LookupFinds(tree, key);
      session.Start();
      r := FindPriv(key, rootId, tree);
      ghost var leaves := session.Finalize(padVal);
    }

    /** insert of one node inside a session. */
    method InsertOne(node: Node, ghost x: Item)
      requires Holds(tree) && rootId == RootId(tree)
      requires node == Stored(Branch(x, Leaf, Leaf)) && x.id >= 1 && x.id !in session.Flat()
      requires |session.Flat()| + Size(AvlTree.Insert(tree, x)) <= session.cache.maxSize + Size(tree)
      modifies this, session, session.cache, session.oram, session.oram.storage
      ensures Holds(tree) && rootId == RootId(tree)
      ensures tree == AvlTree.Insert(old(tree), x)
      ensures Agree(old(session.Flat()), session.Flat(), Ids(old(tree)) + {x.id})
      ensures |session.Flat()| + Size(old(tree)) == |old(session.Flat())| + Size(tree)
    {
      hide PathOram.Oram.Valid, Session.Separate, Session.Core, Session.IsOpen, Session.Flat, AvlTree.Insert, Rep,
          Unshared, Ids, Agree, Size;
      var res := InsertPriv(node, rootId, tree, x);
      if rootId == 0 {
        rootId := res.id;
      }
      tree := AvlTree.Insert(tree, x);
      rootId := res.id;
    }

    /** insert of a batch: a session around the insertions. */
    method InsertNodes(nodes: seq<Node>, ghost xs: seq<Item>, padVal: int)
      requires Valid() && FreshLeaves(nodes, xs, session.Flat())
      requires |session.Flat()| + Size(InsertAll(tree, xs)) <= session.cache.maxSize + Size(tree)
      modifies this, session, session.cache, session.oram, session.oram.storage
      ensures Valid() && tree == InsertAll(old(tree), xs)
      ensures |session.Flat()| + Size(old(tree)) == |old(session.Flat())| + Size(tree)
    {
      hide PathOram.Oram.Valid, Session.Separate, Session.Core, Session.IsOpen, Session.IsClosed, Session.Flat, Ordered,
          Balanced, AvlTree.Insert, Size;
      RunGrows(tree, xs);
      RunKeepsShape(tree, xs);
      session.Start();
      assert xs[0..] == xs && nodes[0..] == nodes;
      for i := 0 to |nodes|
        invariant Holds(tree) && rootId == RootId(tree)
        invariant FreshLeaves(nodes[i..], xs[i..], session.Flat())
        invariant |session.Flat()| + Size(old(tree)) == |old(session.Flat())| + Size(tree)
        invariant InsertAll(tree, xs[i..]) == InsertAll(old(tree), xs)
      {
        ghost var before := session.Flat();
        RepIds(before, tree);
        assert xs[i..][1..] == xs[i + 1..] && nodes[i..][1..] == nodes[i + 1..];
        ghost var t := tree;
        FreshLeavesHead(nodes[i..], xs[i..], before);
        RunGrows(AvlTree.Insert(tree, xs[i]), xs[i + 1..]);
        InsertOne(nodes[i], xs[i]);
        FreshLeavesTail(nodes[i..], xs[i..], before, session.Flat(), Ids(t));
      }
      ghost var leaves := session.Finalize(padVal);
    }
  }

  /** New nodes without children, their ids distinct and not in the store. */
  ghost predicate FreshLeaves(nodes: seq<Node>, xs: seq<Item>, store: map<int, Node>) {
    && |nodes| == |xs|
    && (forall i :: 0 <= i < |xs| ==>
        nodes[i] == Stored(Branch(xs[i], Leaf, Leaf)) && xs[i].id >= 1 && xs[i].id !in store)
    && (forall i, j :: 0 <= i < j < |xs| ==> xs[i].id != xs[j].id)
  }

  lemma FreshLeavesHead(nodes: seq<Node>, xs: seq<Item>, store: map<int, Node>)
    requires FreshLeaves(nodes, xs, store) && xs != []
    ensures nodes[0] == Stored(Branch(xs[0], Leaf, Leaf)) && xs[0].id >= 1 && xs[0].id !in store
  {
  }

  lemma FreshLeavesTail(nodes: seq<Node>, xs: seq<Item>, before: map<int, Node>, after: map<int, Node>, ids: set<int>)
    requires FreshLeaves(nodes, xs, before) && xs != []
    requires Agree(before, after, ids + {xs[0].id}) && forall id :: id in ids ==> id in before
    ensures FreshLeaves(nodes[1..], xs[1..], after)
  {
    hide Stored;
  }

  /** A tree of one node, laid out by storing that node. */
  lemma NewLeaf(before: map<int, Node>, x: Item, after: map<int, Node>)
    requires x.id >= 1 && x.id !in before && after == before[x.id := Stored(Branch(x, Leaf, Leaf))]
    ensures AvlTree.Insert(Leaf, x) == Branch(x, Leaf, Leaf)
    ensures Unshared(Branch(x, Leaf, Leaf)) && Rep(after, Branch(x, Leaf, Leaf)) && Agree(before, after, {x.id})
  {
    hide Stored, Less, Rebalance;
  }

  /** An insertion grows a tree as it grows the subtree it goes into. */
  lemma InsertSize(t: Tree, x: Item)
    ensures t.Leaf? ==> Size(AvlTree.Insert(t, x)) == 1 && Size(t) == 0
    ensures t.Branch? ==>
              Size(AvlTree.Insert(t, x)) - Size(t) ==
                if Less(t.item.key, x.key) then Size(AvlTree.Insert(t.right, x)) - Size(t.right)
                else if Less(x.key, t.item.key) then Size(AvlTree.Insert(t.left, x)) - Size(t.left)
                else 0
  {
    if t.Branch? {
      hide Less, AvlTree.Insert, AvlTree.Rebalance;
      InsertIsRebalanced(t, x);
      RebalanceKeepsOrder(Grafted(t, x));
    }
  }

  lemma {:induction false} InsertGrows(t: Tree, x: Item)
    ensures Size(t) <= Size(AvlTree.Insert(t, x)) <= Size(t) + 1
  {
    hide Less, AvlTree.Insert, Size;
    InsertSize(t, x);
    if t.Branch? {
      InsertGrows(t.left, x);
      InsertGrows(t.right, x);
    }
  }

  lemma {:induction false} RunGrows(t: Tree, xs: seq<Item>)
    ensures Size(t) <= Size(InsertAll(t, xs)) <= Size(t) + |xs|
    decreases |xs|
  {
    hide AvlTree.Insert, Size;
    if xs != [] {
      InsertGrows(t, xs[0]);
      RunGrows(AvlTree.Insert(t, xs[0]), xs[1..]);
    }
  }

  lemma OneMore(m: map<int, Node>, node: Node)
    requires node.id !in m
    ensures |m[node.id := node]| == |m| + 1
  {
    assert m[node.id := node].Keys == m.Keys + {node.id};
  }
}
