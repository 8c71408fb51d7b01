/** One client session over the oblivious data structure: nodes are fetched from the
    ORAM into the cache, changed there, and sealed and written back at the end. */
module OdsSession {
  import opened Wrappers
  import opened Sets
  import opened OramSpec
  import opened PathOram
  import opened Sm4Ecb
  import opened LruCache

  /** A dictionary node without its position tags. */
  datatype Node = Node(
    id: int, key: Bytes, data: Bytes,
    leftId: int, rightId: int, leftHeight: int, rightHeight: int)

  /** `Node(id, pos)` of the sources. */
  function Blank(id: int): Node {
    Node(id, [], [], 0, 0, 0, 0)
  }

  /** serialize and deserialize, whatever their byte format. */
  datatype Codec = Codec(serialize: Node -> Bytes, deserialize: Bytes -> Option<Node>)

  ghost predicate Faithful(c: Codec) {
    && (forall n :: c.deserialize(c.serialize(n)) == Some(n))
    && c.deserialize([]) == None
  }

  /** What finalization stores for a node. */
  function Sealed(c: Codec, rawKey: Bytes, n: Node): Bytes
    requires |rawKey| >= 15
  {
    c.serialize(n.(data := EncryptSpec(n.data, rawKey), key := EncryptSpec(n.key, rawKey)))
  }

  /** What a fetch makes of stored bytes. */
  function Opened(c: Codec, rawKey: Bytes, bytes: Bytes): Result<Node>
    requires |rawKey| >= 15
  {
    match c.deserialize(bytes)
    case None => Failure(NotStored)
    case Some(n) =>
      var data :- DecryptSpec(n.data, rawKey);
      var key :- DecryptSpec(n.key, rawKey);
      Success(n.(data := data, key := key))
  }

  lemma OpensSealed(c: Codec, rawKey: Bytes, n: Node)
    requires |rawKey| >= 15 && Faithful(c)
    ensures Opened(c, rawKey, Sealed(c, rawKey, n)) == Success(n)
  {
    EncryptDecrypt(n.data, rawKey);
    EncryptDecrypt(n.key, rawKey);
    hide EncryptSpec, DecryptSpec;
  }

  /** In what is stored both the data and the key are ciphertexts. */
  lemma SealedIs(c: Codec, rawKey: Bytes, n: Node)
    requires |rawKey| >= 15 && Faithful(c)
    ensures c.deserialize(Sealed(c, rawKey, n))
         == Some(n.(data := EncryptSpec(n.data, rawKey), key := EncryptSpec(n.key, rawKey)))
  {
    hide EncryptSpec;
  }

  lemma OneLess(m: map<int, Node>, id: int)
    requires id in m
    ensures |m - {id}| == |m| - 1
  {
    assert (m - {id}).Keys == m.Keys - {id};
  }

  // ---- the flat store -------------------------------------------------------

  ghost predicate Stores(c: Codec, rawKey: Bytes, view: map<int, Bytes>) {
    && |rawKey| >= 15
    && forall id :: id in view && id != 0 ==>
        Opened(c, rawKey, view[id]).Success? && Opened(c, rawKey, view[id]).value.id == id
  }

  ghost predicate Caches(items: map<int, Node>) {
    forall id :: id in items ==> id >= 1 && items[id].id == id
  }

  /** The id-to-node map a cache over an ORAM stands for. */
  ghost function FlatOf(c: Codec, rawKey: Bytes, items: map<int, Node>, view: map<int, Bytes>): (r: map<int, Node>)
    requires Stores(c, rawKey, view)
    ensures r.Keys == (items.Keys + view.Keys) - {0}
  {
    map id | id in (items.Keys + view.Keys) - {0} ::
      if id in items then items[id] else Opened(c, rawKey, view[id]).value
  }

  lemma FlatAt(c: Codec, rawKey: Bytes, items: map<int, Node>, view: map<int, Bytes>, id: int)
    requires Stores(c, rawKey, view) && Caches(items) && id >= 1
    ensures id in FlatOf(c, rawKey, items, view) <==> id in items || id in view
    ensures id in items ==> items[id].id == id && FlatOf(c, rawKey, items, view)[id] == items[id]
    ensures id in view && id !in items ==>
              Opened(c, rawKey, view[id]) == Success(FlatOf(c, rawKey, items, view)[id])
              && FlatOf(c, rawKey, items, view)[id].id == id
  {
    hide Opened;
  }

  lemma PutUpdatesFlat(c: Codec, rawKey: Bytes, items: map<int, Node>, view: map<int, Bytes>, node: Node)
    requires Stores(c, rawKey, view) && node.id != 0
    ensures FlatOf(c, rawKey, items[node.id := node], view) == FlatOf(c, rawKey, items, view)[node.id := node]
  {
    hide Opened;
  }

  lemma DrainKeepsFlat(c: Codec, rawKey: Bytes, items: map<int, Node>, view: map<int, Bytes>, id: int)
    requires Stores(c, rawKey, view) && Faithful(c) && Caches(items) && id in items
    ensures var view' := view[id := Sealed(c, rawKey, items[id])];
            Stores(c, rawKey, view') && FlatOf(c, rawKey, items - {id}, view') == FlatOf(c, rawKey, items, view)
  {
    OpensSealed(c, rawKey, items[id]);
    hide Opened, Sealed, Faithful;
    StoreOne(c, rawKey, items, view, id, Sealed(c, rawKey, items[id]));
  }

  lemma StoreOne(c: Codec, rawKey: Bytes, items: map<int, Node>, view: map<int, Bytes>, id: int, bytes: Bytes)
    requires Stores(c, rawKey, view) && Caches(items) && id in items
    requires Opened(c, rawKey, bytes) == Success(items[id])
    ensures Stores(c, rawKey, view[id := bytes])
    ensures FlatOf(c, rawKey, items - {id}, view[id := bytes]) == FlatOf(c, rawKey, items, view)
  {
    hide Opened;
    var view' := view[id := bytes];
    assert ((items - {id}).Keys + view'.Keys) - {0} == (items.Keys + view.Keys) - {0};
  }

  lemma DummyKeepsFlat(c: Codec, rawKey: Bytes, items: map<int, Node>, view: map<int, Bytes>, data: Bytes)
    requires Stores(c, rawKey, view)
    ensures Stores(c, rawKey, view[0 := data])
    ensures FlatOf(c, rawKey, items, view[0 := data]) == FlatOf(c, rawKey, items, view)
  {
    hide Opened;
    assert (items.Keys + view[0 := data].Keys) - {0} == (items.Keys + view.Keys) - {0};
  }

  lemma RoomInCache(c: Codec, rawKey: Bytes, items: map<int, Node>, view: map<int, Bytes>, id: int, node: Node)
    requires Stores(c, rawKey, view) && Caches(items) && id != 0
    ensures |items[id := node]| <= |FlatOf(c, rawKey, items, view)[id := node]|
  {
    var m, n := items[id := node], FlatOf(c, rawKey, items, view)[id := node];
    hide FlatOf;
    assert m.Keys <= n.Keys;
    SubsetSize(m.Keys, n.Keys);
  }

  /** What the flat map becomes when the cache pushes out a node: its id falls back to
      what the ORAM holds, if that is anything. */
  function Settled(m: map<int, Node>, stored: map<int, Node>, victim: Option<int>): map<int, Node> {
    match victim
    case None => m
    case Some(v) => if v in stored then m[v := stored[v]] else m - {v}
  }

  lemma PutSettles(c: Codec, rawKey: Bytes, items: map<int, Node>, view: map<int, Bytes>, node: Node,
                   victim: Option<int>)
    requires Stores(c, rawKey, view) && Caches(items) && node.id >= 1
    requires victim.Some? ==> victim.value in items[node.id := node]
    ensures Caches(Released(items[node.id := node], victim))
    ensures FlatOf(c, rawKey, Released(items[node.id := node], victim), view)
         == Settled(FlatOf(c, rawKey, items, view)[node.id := node], FlatOf(c, rawKey, map[], view), victim)
  {
    hide Opened;
    PutUpdatesFlat(c, rawKey, items, view, node);
  }

  lemma ItemsInFlat(c: Codec, rawKey: Bytes, items: map<int, Node>, view: map<int, Bytes>)
    requires Stores(c, rawKey, view) && Caches(items)
    ensures items.Keys <= FlatOf(c, rawKey, items, view).Keys
  {
    hide FlatOf, Opened;
  }

  lemma OnlyCached(c: Codec, rawKey: Bytes, items: map<int, Node>, view: map<int, Bytes>, id: int)
    requires Stores(c, rawKey, view) && Caches(items)
    requires FlatOf(c, rawKey, map[], view) == map[] && FlatOf(c, rawKey, items, view).Keys == {id}
    ensures items.Keys == {id}
  {
    hide Opened;
    assert FlatOf(c, rawKey, map[], view).Keys == view.Keys - {0};
  }

  lemma KeysSize(items: map<int, Node>, id: int)
    requires items.Keys == {id}
    ensures |items| == 1
  {
    assert |items| == |items.Keys|;
  }

  lemma ReleasedKeys(items: map<int, Node>, node: Node, victim: Option<int>)
    ensures Released(items[node.id := node], victim).Keys <= items.Keys + {node.id}
  {
  }

  lemma SameSize(m: map<int, Node>, node: Node)
    requires node.id in m
    ensures |m[node.id := node]| == |m|
  {
    assert m[node.id := node].Keys == m.Keys;
  }

  lemma SameEntry(m: map<int, Node>, node: Node)
    requires node.id in m && m[node.id] == node
    ensures m[node.id := node] == m
  {
  }

  // ---- runs on the flat store -----------------------------------------------

  datatype NodeOp = ReadOp(id: int) | WriteOp(node: Node) | InsertOp(node: Node)

  function OpId(op: NodeOp): int {
    match op
    case ReadOp(id) => id
    case WriteOp(node) => node.id
    case InsertOp(node) => node.id
  }

  /** The ids that a session asks for. */
  function Named(ops: seq<NodeOp>): set<int> {
    set op | op in ops :: OpId(op)
  }

  lemma NamedPrefix(ops: seq<NodeOp>, i: nat)
    requires i < |ops|
    ensures Named(ops[..i + 1]) == Named(ops[..i]) + {OpId(ops[i])}
    ensures Named(ops[..i + 1]) <= Named(ops)
  {
    assert ops[..i + 1] == ops[..i] + [ops[i]];
  }

  function FlatStep(m: map<int, Node>, op: NodeOp): map<int, Node> {
    match op
    case ReadOp(_) => m
    case WriteOp(node) => if node.id in m then m[node.id := node] else m
    case InsertOp(node) => m[node.id := node]
  }

  /** What a read returns; writes and insertions return nothing of interest. */
  function FlatReply(m: map<int, Node>, op: NodeOp): Option<Node> {
    if op.ReadOp? && op.id in m then Some(m[op.id]) else None
  }

  function FlatAfter(m: map<int, Node>, ops: seq<NodeOp>): map<int, Node> {
    if ops == [] then m else FlatStep(FlatAfter(m, ops[..|ops| - 1]), ops[|ops| - 1])
  }

  function FlatReplies(m: map<int, Node>, ops: seq<NodeOp>): (r: seq<Option<Node>>)
    ensures |r| == |ops|
  {
    seq(|ops|, i requires 0 <= i < |ops| => FlatReply(FlatAfter(m, ops[..i]), ops[i]))
  }

  /** The last node written under an id that was there, or inserted, or there at first. */
  function LastUnder(m: map<int, Node>, ops: seq<NodeOp>, id: int): Option<Node> {
    if ops == [] then (if id in m then Some(m[id]) else None)
    else
      var before, op := LastUnder(m, ops[..|ops| - 1], id), ops[|ops| - 1];
      if OpId(op) != id || op.ReadOp? || (op.WriteOp? && before.None?) then before else Some(op.node)
  }

  /** After any run the flat store holds, under each id, the last node written to it. */
  lemma {:induction false} FlatHoldsLast(m: map<int, Node>, ops: seq<NodeOp>, id: int)
    ensures LastUnder(m, ops, id) == if id in FlatAfter(m, ops) then Some(FlatAfter(m, ops)[id]) else None
  {
    if ops != [] {
      FlatHoldsLast(m, ops[..|ops| - 1], id);
    }
  }

  lemma FlatAfterOne(m: map<int, Node>, ops: seq<NodeOp>, i: nat)
    requires i < |ops|
    ensures FlatAfter(m, ops[..i + 1]) == FlatStep(FlatAfter(m, ops[..i]), ops[i])
  {
    assert ops[..i + 1][..i] == ops[..i];
  }

  /** Ids are never removed, so a later point of a run has all of an earlier one. */
  lemma StepKeys(m: map<int, Node>, op: NodeOp)
    ensures m.Keys <= FlatStep(m, op).Keys
  {
  }

  lemma {:induction false} PrefixKeys(m: map<int, Node>, ops: seq<NodeOp>, i: nat)
    requires i <= |ops|
    ensures FlatAfter(m, ops[..i]).Keys <= FlatAfter(m, ops).Keys
    decreases |ops| - i
  {
    hide FlatAfter, FlatStep;
    if i == |ops| {
      assert ops[..i] == ops;
    } else {
      FlatAfterOne(m, ops, i);
      StepKeys(FlatAfter(m, ops[..i]), ops[i]);
      PrefixKeys(m, ops, i + 1);
    }
  }

  class Session {
    const oram: Oram
    const cache: Cache<Node>
    const secretKey: Bytes
    const codec: Codec
    var readCount: int
    var writeCount: int

    ghost predicate Separate() {
      && cache as object != this && oram as object != this
      && oram.storage as object != this && oram.limit as object != this
      && cache as object != oram && cache as object != oram.storage && cache as object != oram.limit
    }

    /** Holds whether or not a session is open. */
    ghost predicate Core()
      reads cache, oram, oram.storage, oram.limit
      ensures Core() ==> Separate() && oram.Valid() && |secretKey| >= 15
    {
      && Separate()
      && oram.Valid()
      && |secretKey| >= 15
      && Faithful(codec)
      && cache.nothing.id == 0
      && Caches(cache.cacheItems)
      && Stores(codec, secretKey, oram.View())
    }

    ghost predicate IsOpen()
      reads cache, oram, oram.storage, oram.limit
      ensures IsOpen() ==> Core()
    {
      Core() && cache.Valid()
    }

    /** Between sessions the cache is empty, whatever its table still lists. */
    ghost predicate IsClosed()
      reads cache, oram, oram.storage, oram.limit
      ensures IsClosed() ==> Core()
    {
      Core() && cache.cacheItems == map[]
    }

    ghost function Flat(): map<int, Node>
      requires Core()
      reads cache, oram, oram.storage, oram.limit
    {
      FlatOf(codec, secretKey, cache.cacheItems, oram.View())
    }

    /** The nodes the ORAM holds, whatever the cache has. */
    ghost function InOram(): map<int, Node>
      requires Core()
      reads cache, oram, oram.storage, oram.limit
    {
      FlatOf(codec, secretKey, map[], oram.View())
    }

    /** A put of this node loses nothing: it pushes nothing out, or only what the ORAM holds
        as it is. */
    ghost predicate Harmless(node: Node)
      requires Core()
      reads cache, oram, oram.storage, oram.limit
    {
      var m := Flat()[node.id := node];
      match cache.Victim(node.id)
      case None => true
      case Some(v) => v in m && v in InOram() && InOram()[v] == m[v]
    }

    constructor (oram: Oram, cache: Cache<Node>, secretKey: Bytes, codec: Codec)
      requires oram.Valid() && cache.Valid() && cache.cacheItems == map[] && cache.nothing.id == 0
      requires |secretKey| >= 15 && Faithful(codec) && Stores(codec, secretKey, oram.View())
      ensures this.oram == oram && this.cache == cache && this.secretKey == secretKey && this.codec == codec
      ensures IsClosed() && Flat().Keys == oram.View().Keys - {0}
    {
      hide PathOram.Oram.Valid, PathOram.Oram.View, Stores, Faithful, LruCache.Cache.Valid;
      this.oram, this.cache, this.secretKey, this.codec := oram, cache, secretKey, codec;
      readCount, writeCount := 0, 0;
    }

    /** ODS_start */
    method Start()
      requires IsClosed()
      modifies cache
      ensures IsOpen() && Flat() == old(Flat()) && cache.cacheItems == map[]
    {
      hide Opened, Stores, FlatOf, PathOram.Oram.Valid;
      cache.Clear();
    }

    /** cache_helper: one ORAM read, then decryption of the data and of the key. */
    method CacheHelper(id: int) returns (r: Result<Node>)
      requires oram.Valid() && |secretKey| >= 15 && Faithful(codec) && id != -1
      modifies oram, oram.storage
      ensures oram.Valid() && oram.View() == old(oram.View())
      ensures r == if id in oram.View() then Opened(codec, secretKey, oram.View()[id]) else Failure(NotStored)
    {
      hide Inv, OramSpec.View, EncryptSpec, DecryptSpec;
      ghost var tag;
      var buffer;
      buffer, tag := oram.AccessDirect(Read, id, -1, codec.serialize(Blank(id)));
      match codec.deserialize(buffer) {
        case None =>
          r := Failure(NotStored);
        case Some(ret) =>
          var plaintext :- Decrypt(ret.data, secretKey);
          var key :- Decrypt(ret.key, secretKey);
          r := Success(ret.(data := plaintext, key := key));
      }
    }

    method FetchNode(id: int) returns (r: Result<Node>)
      requires IsOpen() && id >= 1 && id !in cache.cacheItems
      modifies oram, oram.storage
      ensures IsOpen() && Flat() == old(Flat()) && InOram() == old(InOram())
      ensures r == if id in Flat() then Success(Flat()[id]) else Failure(NotStored)
      ensures r.Success? ==> r.value.id == id
    {
      hide Opened, Stores, Caches, FlatOf, Inv, OramSpec.View, LruSpec.Stored, LruSpec.Touched, Faithful;
      FlatAt(codec, secretKey, cache.cacheItems, oram.View(), id);
      r := CacheHelper(id);
    }

    method CacheGet(id: int) returns (ret: Node)
      requires IsOpen() && id >= 1
      modifies cache`lruTable
      ensures IsOpen() && Flat() == old(Flat()) && InOram() == old(InOram())
      ensures cache.Victim(id) == old(cache.Victim(id))
      ensures ret.id != 0 <==> id in cache.cacheItems
      ensures ret.id != 0 ==> id in Flat() && ret == Flat()[id] && ret.id == id
    {
      hide Opened, Stores, Caches, FlatOf, Inv, OramSpec.View, LruSpec.Stored, LruSpec.Touched, Faithful;
      FlatAt(codec, secretKey, cache.cacheItems, oram.View(), id);
      ret := cache.Get(id);
    }

    /** put of the cache: the node enters the flat map, and a node pushed out falls back to
        what the ORAM holds of it. */
    method CachePut(node: Node)
      requires IsOpen() && node.id >= 1
      modifies cache
      ensures IsOpen() && InOram() == old(InOram())
      ensures Flat() == Settled(old(Flat())[node.id := node], InOram(), old(cache.Victim(node.id)))
      ensures Flat() == old(Flat())[node.id := node] <==> old(Harmless(node))
      ensures cache.cacheItems.Keys <= old(cache.cacheItems.Keys) + {node.id}
    {
      hide *;
      HarmlessIf(node);
      ghost var items, victim := cache.cacheItems, cache.Victim(node.id);
      OpenParts();
      VictimThere(node);
      var evicted := cache.Put(node.id, node);
      ReleasedKeys(items, node, victim);
      AfterPut(items, node, victim);
      OpenParts();
    }

    lemma HarmlessIf(node: Node)
      requires IsOpen()
      ensures var m := Flat()[node.id := node];
              Harmless(node) <==> Settled(m, InOram(), cache.Victim(node.id)) == m
    {
      hide Core, IsOpen, Flat, InOram, LruCache.Cache.Victim, Oram.Valid, Oram.View, Separate;
      VictimThere(node);
      CachedInFlat();
    }

    lemma VictimThere(node: Node)
      requires IsOpen()
      ensures var v := cache.Victim(node.id); v.Some? ==> v.value in cache.cacheItems[node.id := node]
    {
      hide Oram.Valid, Oram.View, Stores, FlatOf, Faithful, Caches;
    }

    /** Nothing is pushed out of a cache that has room for every live id. */
    lemma RoomForAll(id: int, node: Node)
      requires IsOpen() && id != 0 && |Flat()[id := node]| <= cache.maxSize
      ensures cache.Victim(id) == None
    {
      OpenParts();
      hide IsOpen, Core, Flat, Stores, FlatOf, Caches, Oram.Valid, Oram.View, Faithful;
      RoomInCache(codec, secretKey, cache.cacheItems, oram.View(), id, node);
      SizeWith(cache.cacheItems, id, node);
    }

    lemma OpenParts()
      requires IsOpen()
      ensures Separate() && oram.Valid() && |secretKey| >= 15 && Faithful(codec) && cache.nothing.id == 0 &&
                cache.Valid()
      ensures Caches(cache.cacheItems) && Stores(codec, secretKey, oram.View())
      ensures Flat() == FlatOf(codec, secretKey, cache.cacheItems, oram.View())
      ensures InOram() == FlatOf(codec, secretKey, map[], oram.View())
    {
      hide Oram.Valid, Oram.View, Stores, FlatOf, Faithful, Caches, LruCache.Cache.Valid;
    }

    /** With room for every live id, reading and rewriting push nothing out. */
    lemma SettledRoom(id: int)
      requires IsOpen() && id >= 1
      ensures id in cache.cacheItems ==> cache.Victim(id) == None
      ensures |Flat()| <= cache.maxSize && id in Flat() ==> cache.Victim(id) == None
      ensures forall m, stored :: Settled(m, stored, None) == m
    {
      hide IsOpen, Core, Flat;
      if |Flat()| <= cache.maxSize && id in Flat() {
        var node := Blank(id);
        SameSize(Flat(), node);
        RoomForAll(id, node);
      }
    }

    lemma CachedInFlat()
      requires IsOpen()
      ensures cache.cacheItems.Keys <= Flat().Keys
    {
      hide *;
      OpenParts();
      ItemsInFlat(codec, secretKey, cache.cacheItems, oram.View());
    }

    lemma AfterPut(items: map<int, Node>, node: Node, victim: Option<int>)
      requires Separate() && oram.Valid() && |secretKey| >= 15 && Faithful(codec) && cache.nothing.id == 0 &&
                cache.Valid()
      requires Caches(items) && Stores(codec, secretKey, oram.View()) && node.id >= 1
      requires victim.Some? ==> victim.value in items[node.id := node]
      requires cache.cacheItems == Released(items[node.id := node], victim)
      ensures IsOpen()
      ensures var view := oram.View();
              Flat() == Settled(FlatOf(codec, secretKey, items, view)[node.id := node],
                                FlatOf(codec, secretKey, map[], view), victim)
    {
      hide Oram.Valid, Oram.View, Stores, FlatOf, Faithful, Caches, LruCache.Cache.Valid, Settled, Released;
      PutSettles(codec, secretKey, items, oram.View(), node, victim);
    }

    /** read_from_oram: ODS_access with a READ. The node is the last one written; what a full
        cache pushes out to make room for it is lost unless the ORAM holds it as it is. */
    method ReadNode(id: int) returns (r: Result<Node>)
      requires IsOpen() && id >= 1
      modifies this, cache, oram, oram.storage
      ensures IsOpen()
      ensures r == if id in old(Flat()) then Success(old(Flat())[id]) else Failure(NotStored)
      ensures Flat() == if id in old(Flat())
                          then Settled(old(Flat()), old(InOram()), old(cache.Victim(id))) else old(Flat())
      ensures Flat() == old(Flat()) <==> old(id in Flat() ==> Harmless(Flat()[id]))
      ensures |old(Flat())| <= cache.maxSize ==> Flat() == old(Flat())
      ensures cache.cacheItems.Keys <= old(cache.cacheItems.Keys) + {id}
      ensures readCount == old(readCount) + 1 && writeCount == old(writeCount)
    {
      hide Core, IsOpen, Flat, InOram, LruCache.Cache.Victim, Settled, Oram.Valid, Oram.View, Separate;
      SettledRoom(id);
      readCount := readCount + 1;
      var ret := CacheGet(id);
      if ret.id != 0 {
        return Success(ret);
      }
      var node :- FetchNode(id);
      SameEntry(Flat(), node);
      CachePut(node);
      r := Success(node);
    }

    /** write_to_oram: ODS_access with a WRITE. A node that is nowhere yet cannot be written. */
    method WriteNode(node: Node) returns (r: Result<()>)
      requires IsOpen() && node.id >= 1
      modifies this, cache, oram, oram.storage
      ensures IsOpen()
      ensures r == if node.id in old(Flat()) then Success(()) else Failure(NotStored)
      ensures Flat() == if node.id in old(Flat())
                          then Settled(old(Flat())[node.id := node], old(InOram()), old(cache.Victim(node.id)))
                          else old(Flat())
      ensures node.id in old(Flat()) ==> (Flat() == old(Flat())[node.id := node] <==> old(Harmless(node)))
      ensures |old(Flat())| <= cache.maxSize && node.id in old(Flat()) ==> Flat() == old(Flat())[node.id := node]
      ensures cache.cacheItems.Keys <= old(cache.cacheItems.Keys) + {node.id}
    {
      hide Core, IsOpen, Flat, InOram, LruCache.Cache.Victim, Settled, Oram.Valid, Oram.View, Separate;
      SettledRoom(node.id);
      writeCount := writeCount + 1;
      var ret := CacheGet(node.id);
      if ret.id == 0 {
        var tmp :- FetchNode(node.id);
      }
      SameSize(Flat(), node);
      CachePut(node);
      r := Success(());
    }

    /** ODS_access with an INSERT: straight into the cache. */
    method InsertNode(node: Node)
      requires IsOpen() && node.id >= 1
      modifies cache
      ensures IsOpen() && InOram() == old(InOram())
      ensures Flat() == Settled(old(Flat())[node.id := node], InOram(), old(cache.Victim(node.id)))
      ensures Flat() == old(Flat())[node.id := node] <==> old(Harmless(node))
      ensures |old(Flat())[node.id := node]| <= cache.maxSize ==> Flat() == old(Flat())[node.id := node]
      ensures cache.cacheItems.Keys <= old(cache.cacheItems.Keys) + {node.id}
    {
      hide Core, IsOpen, Flat, InOram, LruCache.Cache.Victim, Oram.Valid, Oram.View, Separate;
      if |Flat()[node.id := node]| <= cache.maxSize {
        RoomForAll(node.id, node);
      }
      CachePut(node);
    }

    /** A node inserted into a cache of size 1 is lost as soon as the next one comes. */
    method InsertTwo(a: Node, b: Node)
      requires IsOpen() && cache.maxSize == 1 && Flat() == map[] && 1 <= a.id < b.id
      modifies cache
      ensures IsOpen() && Flat() == map[b.id := b]
    {
      hide Core, IsOpen, Flat, InOram, LruCache.Cache.Victim, Oram.Valid, Oram.View, Separate;
      NothingThere(a.id);
      InsertNode(a);
      OnlyThis(a, b.id);
      InsertNode(b);
    }

    lemma NothingThere(id: int)
      requires IsOpen() && Flat() == map[] && cache.maxSize == 1
      ensures InOram() == map[] && cache.Victim(id) == None
    {
      hide Oram.Valid, Stores, Faithful;
      assert cache.cacheItems == map[];
    }

    lemma OnlyThis(a: Node, id: int)
      requires IsOpen() && Flat() == map[a.id := a] && InOram() == map[] && cache.maxSize == 1 && id != a.id
      ensures cache.Victim(id) == Some(a.id)
    {
      hide Core, Flat, InOram, Stores, FlatOf, Faithful, Caches, Oram.Valid, Oram.View;
      OpenParts();
      OnlyCached(codec, secretKey, cache.cacheItems, oram.View(), a.id);
      assert cache.cacheItems.Keys == {a.id};
      KeysSize(cache.cacheItems, a.id);
      assert a.id in cache.cacheItems;
    }

    /** The padding loops: accesses to the reserved address 0, from `first` to `last`. */
    method PadWith(op: Operation, first: int, last: int, data: Bytes) returns (ghost leaves: seq<nat>)
      requires Core()
      modifies oram, oram.storage
      ensures Core() && Flat() == old(Flat())
      ensures oram.storage.log == old(oram.storage.log) + PathsTrace(oram.numLevels, leaves)
      ensures |leaves| == if first <= last then last - first + 1 else 0
      ensures forall id :: id in old(oram.View()) && id != 0 ==>
                id in oram.View() && oram.View()[id] == old(oram.View())[id]
    {
      hide Opened, Stores, FlatOf, Inv, OramSpec.View, PathsTrace, AccessTrace;
      leaves := [];
      PathsOne(oram.numLevels, 0);
      var i := first;
      while i <= last
        invariant Core() && Flat() == old(Flat())
        invariant oram.storage.log == old(oram.storage.log) + PathsTrace(oram.numLevels, leaves)
        invariant first <= last ==> i <= last + 1 && |leaves| == i - first
        invariant first > last ==> leaves == []
        invariant forall id :: id in old(oram.View()) && id != 0 ==>
                    id in oram.View() && oram.View()[id] == old(oram.View())[id]
        decreases last - i
      {
        DummyKeepsFlat(codec, secretKey, cache.cacheItems, oram.View(), data);
        ghost var path := LeafOf(oram.positionMap, 0);
        ghost var leaf;
        var answer;
        answer, leaf := oram.Access(op, 0, data);
        PathsOne(oram.numLevels, path);
        PathsAppend(oram.numLevels, leaves, [path]);
        leaves := leaves + [path];
        i := i + 1;
      }
    }

    /** access_direct with a WRITE of one sealed node. */
    method WriteBack(id: int, node: Node) returns (ghost leaf: nat)
      requires oram.Valid() && |secretKey| >= 15 && id != -1 && id == node.id
      modifies oram, oram.storage
      ensures oram.Valid() && oram.View() == old(oram.View())[id := Sealed(codec, secretKey, node)]
      ensures oram.storage.log == old(oram.storage.log) + AccessTrace(oram.numLevels, leaf)
    {
      hide Inv, OramSpec.View, EncryptSpec, AccessTrace;
      leaf := LeafOf(oram.positionMap, id);
      var ciphertext := Encrypt(node.data, secretKey);
      var encryptedKey := Encrypt(node.key, secretKey);
      var buffer := codec.serialize(node.(data := ciphertext, key := encryptedKey));
      ghost var tag;
      var answer;
      answer, tag := oram.AccessDirect(Write, node.id, 0, buffer);
    }

    /** Seals one cached node, writes it back and pops it. */
    method EvictNext() returns (ghost id: int, ghost leaf: nat)
      requires Core() && cache.cacheItems != map[]
      modifies cache`cacheItems, oram, oram.storage
      ensures Core() && Flat() == old(Flat())
      ensures id in old(cache.cacheItems) && cache.cacheItems == old(cache.cacheItems) - {id}
      ensures oram.View() == old(oram.View())[id := Sealed(codec, secretKey, old(cache.cacheItems)[id])]
      ensures oram.storage.log == old(oram.storage.log) + AccessTrace(oram.numLevels, leaf)
    {
      hide Opened, Stores, FlatOf, Inv, OramSpec.View, Sealed, Faithful, AccessTrace;
      var first, node := cache.First();
      id := first;
      DrainKeepsFlat(codec, secretKey, cache.cacheItems, oram.View(), first);
      leaf := WriteBack(first, node);
      cache.Pop(first);
    }

    /** Empties the cache into the ORAM, every node sealed, with one access for each. */
    method EvictCache() returns (ghost leaves: seq<nat>)
      requires Core()
      modifies cache`cacheItems, oram, oram.storage
      ensures IsClosed() && Flat() == old(Flat())
      ensures oram.storage.log == old(oram.storage.log) + PathsTrace(oram.numLevels, leaves)
      ensures |leaves| == |old(cache.cacheItems)|
      ensures forall id :: id in old(cache.cacheItems) ==>
                id in oram.View() && oram.View()[id] == Sealed(codec, secretKey, old(cache.cacheItems)[id])
    {
      hide Core, Flat, Oram.Valid, Oram.View, Sealed, PathsTrace, AccessTrace;
      leaves := [];
      PathsOne(oram.numLevels, 0);
      ghost var items := cache.cacheItems;
      while cache.cacheItems != map[]
        invariant Core() && Flat() == old(Flat())
        invariant oram.storage.log == old(oram.storage.log) + PathsTrace(oram.numLevels, leaves)
        invariant |leaves| + |cache.cacheItems| == |items|
        invariant forall id :: id in cache.cacheItems ==> id in items && cache.cacheItems[id] == items[id]
        invariant forall id :: id in items && id !in cache.cacheItems ==>
                    id in oram.View() && oram.View()[id] == Sealed(codec, secretKey, items[id])
        decreases |cache.cacheItems|
      {
        ghost var was := cache.cacheItems;
        ghost var id, leaf := EvictNext();
        OneLess(was, id);
        PathsOne(oram.numLevels, leaf);
        PathsAppend(oram.numLevels, leaves, [leaf]);
        leaves := leaves + [leaf];
      }
    }

    /** ODS_finalize. The server sees one access more than there were reads, one for every
        cached node and one more than there were writes; the padding value has no part in it. */
    method Finalize(padVal: int) returns (ghost leaves: seq<nat>)
      requires Core()
      modifies this, cache`cacheItems, oram, oram.storage
      ensures IsClosed() && Flat() == old(Flat())
      ensures readCount == 0 && writeCount == 0
      ensures oram.storage.log == old(oram.storage.log) + PathsTrace(oram.numLevels, leaves)
      ensures old(readCount >= 0 && writeCount >= 0) ==>
                |leaves| == old(readCount) + 1 + |old(cache.cacheItems)| + old(writeCount) + 1
      ensures forall id :: id in old(cache.cacheItems) && id != 0 ==>
                id in oram.View() && oram.View()[id] == Sealed(codec, secretKey, old(cache.cacheItems)[id])
    {
      hide Core, Flat, Oram.Valid, Oram.View, Sealed, PathsTrace, AccessTrace;
      leaves := PadWith(Read, padVal - readCount, padVal, []);
      ghost var more := EvictCache();
      PathsAppend(oram.numLevels, leaves, more);
      leaves := leaves + more;
      more := PadWith(Write, padVal - writeCount, padVal, codec.serialize(Blank(0)));
      PathsAppend(oram.numLevels, leaves, more);
      leaves := leaves + more;
      writeCount, readCount := 0, 0;
    }

    /** One operation of an open session, with a slot for its node if that is to be cached. */
    method PerformOne(op: NodeOp) returns (reply: Option<Node>)
      requires IsOpen() && OpId(op) >= 1
      requires OpId(op) in FlatStep(Flat(), op) ==> cache.Victim(OpId(op)) == None
      modifies this, cache, oram, oram.storage
      ensures IsOpen() && Flat() == FlatStep(old(Flat()), op)
      ensures reply == FlatReply(old(Flat()), op)
      ensures cache.cacheItems.Keys <= old(cache.cacheItems.Keys) + {OpId(op)}
    {
      hide Core, IsOpen, Flat, InOram, LruCache.Cache.Victim, Oram.Valid, Oram.View, Separate;
      reply := None;
      match op {
        case ReadOp(id) =>
          var r := ReadNode(id);
          if r.Success? {
            reply := Some(r.value);
          }
        case WriteOp(node) =>
          var r := WriteNode(node);
        case InsertOp(node) =>
          InsertNode(node);
      }
    }

    lemma RoomForNext(m: map<int, Node>, ops: seq<NodeOp>, i: nat)
      requires i < |ops| && IsOpen() && OpId(ops[i]) >= 1
      requires Flat() == FlatAfter(m, ops[..i]) && cache.cacheItems.Keys <= Named(ops[..i])
      requires |Named(ops) * FlatAfter(m, ops).Keys| <= cache.maxSize
      ensures OpId(ops[i]) in FlatStep(Flat(), ops[i]) ==> cache.Victim(OpId(ops[i])) == None
      ensures Named(ops[..i]) + {OpId(ops[i])} <= Named(ops[..i + 1])
    {
      hide Core, IsOpen, Flat, FlatAfter, FlatStep, Named;
      var id := OpId(ops[i]);
      FlatAfterOne(m, ops, i);
      PrefixKeys(m, ops, i + 1);
      StepKeys(Flat(), ops[i]);
      CachedInFlat();
      NamedPrefix(ops, i);
      if id in FlatStep(Flat(), ops[i]) {
        SubsetSize(cache.cacheItems.Keys + {id}, Named(ops) * FlatAfter(m, ops).Keys);
      }
    }

    /** A whole session, from start to finalization, behaves like the flat store if the cache
        has room for the live ids that the session names. */
    method Perform(ops: seq<NodeOp>, padVal: int) returns (replies: seq<Option<Node>>)
      requires IsClosed() && |Named(ops) * FlatAfter(Flat(), ops).Keys| <= cache.maxSize
      requires forall i :: 0 <= i < |ops| ==> OpId(ops[i]) >= 1
      modifies this, cache, oram, oram.storage
      ensures IsClosed() && Flat() == FlatAfter(old(Flat()), ops)
      ensures replies == FlatReplies(old(Flat()), ops)
    {
      hide Core, IsOpen, IsClosed, Flat, FlatAfter, FlatStep, FlatReply, Named, LruCache.Cache.Victim, Sealed,
          PathsTrace, Oram.Valid, Oram.View;
      ghost var m := Flat();
      FlatAfterNone(m);
      Start();
      replies := [];
      for i := 0 to |ops|
        invariant IsOpen() && Flat() == FlatAfter(m, ops[..i]) && cache.cacheItems.Keys <= Named(ops[..i])
        invariant |replies| == i && forall j :: 0 <= j < i ==> replies[j] == FlatReplies(m, ops)[j]
      {
        FlatAfterOne(m, ops, i);
        RoomForNext(m, ops, i);
        var reply := PerformOne(ops[i]);
        replies := replies + [reply];
      }
      assert ops[..|ops|] == ops;
      ghost var leaves := Finalize(padVal);
    }
  }

  lemma FlatAfterNone(m: map<int, Node>)
    ensures FlatAfter(m, []) == m
  {
  }
}
