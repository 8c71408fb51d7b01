/** The sub-ORAMs of the adjustable scheme: one Path ORAM per sub-array, all of them
    under the one bucket size limit the program has. */
module SubOrams {
  import opened Wrappers
  import opened OramSpec
  import opened Buckets
  import opened PathOram
  import opened Sm4Ecb
  import opened Padding

  /** serialize and deserialize of documents, whatever their byte format. */
  datatype DocCodec = DocCodec(serialize: Document -> Bytes, deserialize: Bytes -> Option<Document>)

  ghost predicate Faithful(c: DocCodec) {
    forall d :: c.deserialize(c.serialize(d)) == Some(d)
  }

  function SealedDoc(c: DocCodec, rawKey: Bytes, d: Document): Bytes
    requires |rawKey| >= 15
  {
    EncryptSpec(c.serialize(d), rawKey)
  }

  /** What search makes of a block it has read. */
  function OpenedDoc(c: DocCodec, rawKey: Bytes, bytes: Bytes): Result<Document>
    requires |rawKey| >= 15
  {
    var plain :- DecryptSpec(bytes, rawKey);
    match c.deserialize(plain)
    case None => Failure(NotStored)
    case Some(d) => Success(d)
  }

  lemma OpensSealedDoc(c: DocCodec, rawKey: Bytes, d: Document)
    requires |rawKey| >= 15 && Faithful(c)
    ensures OpenedDoc(c, rawKey, SealedDoc(c, rawKey, d)) == Success(d)
  {
    EncryptDecrypt(c.serialize(d), rawKey);
    hide EncryptSpec, DecryptSpec;
  }

  // ---- the ORAM objects -----------------------------------------------------

  /** Every sub-ORAM is usable, and none shares its storage with another. */
  ghost predicate Ok(subs: seq<Oram>, limit: BucketLimit)
    reads subs, set o | o in subs :: o.storage, limit
  {
    && (forall o :: o in subs ==> o.limit == limit && o.Valid())
    && (forall i, j :: 0 <= i < j < |subs| ==> subs[i] != subs[j] && subs[i].storage != subs[j].storage)
  }

  /** Block j of the sub-ORAM is document j, sealed. */
  ghost predicate Keeps(o: Oram, c: DocCodec, rawKey: Bytes, docs: seq<Document>)
    requires |rawKey| >= 15 && o.Valid()
    reads o, o.storage, o.limit
  {
    forall j :: 0 <= j < |docs| ==> j in o.View() && o.View()[j] == SealedDoc(c, rawKey, docs[j])
  }

  ghost predicate KeepsAll(subs: seq<Oram>, limit: BucketLimit, c: DocCodec, rawKey: Bytes,
          subArrays: seq<seq<Document>>)
    requires |rawKey| >= 15 && Ok(subs, limit)
    reads subs, set o | o in subs :: o.storage, limit
  {
    && |subs| == |subArrays|
    && forall k :: 0 <= k < |subs| ==> Keeps(subs[k], c, rawKey, subArrays[k])
  }

  /** Setting the shared limit to the size it has leaves an ORAM as it is. */
  twostate lemma LimitKept(o: Oram)
    requires old(o.Valid()) && unchanged(o) && unchanged(o.storage) && o.limit.maxSize == old(o.limit.maxSize)
    ensures o.Valid() && o.View() == old(o.View())
  {
    hide Inv, OramSpec.View;
    assert o.State() == old(o.State());
  }

  /** One sub-ORAM, filled with one sub-array. */
  method LoadOne(limit: BucketLimit, bucketSize: nat, blockNumber: nat, c: DocCodec, rawKey: Bytes, docs: seq<Document>)
    returns (o: Oram)
    requires blockNumber >= 1 && !TooSmall(bucketSize, blockNumber) && |rawKey| >= 15
    modifies limit
    ensures fresh(o) && fresh(o.storage) && o.limit == limit && limit.maxSize == bucketSize
    ensures o.Valid() && Keeps(o, c, rawKey, docs)
  {
    hide Oram.Valid, Oram.View, TooSmall, SealedDoc;
    var storage := new Storage();
    o := new Oram(storage, limit, bucketSize, blockNumber);
    for j := 0 to |docs|
      invariant o.Valid() && limit.maxSize == bucketSize
      invariant forall i :: 0 <= i < j ==> i in o.View() && o.View()[i] == SealedDoc(c, rawKey, docs[i])
    {
      WriteSealed(o, j, c, rawKey, docs[j]);
    }
  }

  method WriteSealed(o: Oram, j: nat, c: DocCodec, rawKey: Bytes, d: Document)
    requires o.Valid() && |rawKey| >= 15
    modifies o, o.storage
    ensures o.Valid() && o.View() == old(o.View())[j := SealedDoc(c, rawKey, d)]
  {
    hide *;
    SealedUnfold(c, rawKey, d);
    var data := Encrypt(c.serialize(d), rawKey);
    WriteUnfold(o.View(), j, data);
    ghost var leaf;
    var answer;
    answer, leaf := o.Access(Write, j, data);
  }

  lemma SealedUnfold(c: DocCodec, rawKey: Bytes, d: Document)
    requires |rawKey| >= 15
    ensures SealedDoc(c, rawKey, d) == EncryptSpec(c.serialize(d), rawKey)
  {
  }

  lemma WriteUnfold(m: map<int, Bytes>, j: nat, data: Bytes)
    ensures forall leaf: nat :: RealStep(m, OramSpec.Access(Write, j, data, leaf)) == m[j := data]
  {
  }

  /** adj_oram_init_helper: a sub-ORAM for each sub-array. */
  method Load(limit: BucketLimit, bucketSize: nat, blockNumber: nat, c: DocCodec, rawKey: Bytes,
          subArrays: seq<seq<Document>>)
    returns (subs: seq<Oram>)
    requires blockNumber >= 1 && !TooSmall(bucketSize, blockNumber) && |rawKey| >= 15
    requires limit.maxSize == bucketSize
    modifies limit
    ensures limit.maxSize == bucketSize
    ensures forall o :: o in subs ==> fresh(o) && fresh(o.storage)
    ensures Ok(subs, limit) && KeepsAll(subs, limit, c, rawKey, subArrays)
  {
    hide Oram.Valid, Oram.View, TooSmall, SealedDoc;
    subs := [];
    for k := 0 to |subArrays|
      invariant limit.maxSize == bucketSize && |subs| == k
      invariant forall o :: o in subs ==> fresh(o) && fresh(o.storage)
      invariant Ok(subs, limit) && KeepsAll(subs, limit, c, rawKey, subArrays[..k])
    {
      label before:
      var o := LoadOne(limit, bucketSize, blockNumber, c, rawKey, subArrays[k]);
      forall p | p in subs ensures p.Valid() && p.View() == old@before(p.View()) {
        LimitKept@before(p);
      }
      subs := subs + [o];
    }
    assert subArrays[..|subArrays|] == subArrays;
  }

  /** One read of one sub-ORAM; the contents of all of them stay. */
  method ReadFrom(subs: seq<Oram>, limit: BucketLimit, k: nat, index: nat) returns (data: Bytes)
    requires Ok(subs, limit) && k < |subs|
    modifies subs[k], subs[k].storage
    ensures Ok(subs, limit) && forall o :: o in subs ==> o.View() == old(o.View())
    ensures data == if index in subs[k].View() then subs[k].View()[index] else []
  {
    hide Oram.Valid, Oram.View;
    ghost var leaf;
    data, leaf := subs[k].Access(Read, index, []);
  }
}
