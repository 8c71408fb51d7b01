/** Documents in sub-ORAMs, a pseudo-random slot for each: what adj_oram_init and
    adj_insert_range make of a list of tuples, and how a slot is read. */
module Placement {
  import opened Wrappers
  import opened Powers
  import opened Permutation
  import opened Padding
  import opened OramSpec
  import opened Buckets
  import opened PathOram
  import opened SubOrams
  import opened Search
  import Sm4Ecb

  // ---- slots ----------------------------------------------------------------

  ghost predicate SlotHolds(subs: seq<Oram>, limit: BucketLimit, slot: (nat, nat), bytes: Bytes)
    requires Ok(subs, limit)
    reads subs, set o | o in subs :: o.storage, limit
  {
    slot.0 < |subs| && subs[slot.0] in subs && slot.1 in subs[slot.0].View() && subs[slot.0].View()[slot.1] == bytes
  }

  /** The slot of subscript i holds document i, sealed. */
  ghost predicate Laid(subs: seq<Oram>, limit: BucketLimit, c: DocCodec, rawKey: Bytes, entries: seq<Entry>,
          words: seq<nat>, alpha: nat, blank: Document)
    requires |rawKey| >= 15 && Ok(subs, limit)
    requires |words| == Interval(|entries|) && alpha <= CeilLog2(|entries|)
    reads subs, set o | o in subs :: o.storage, limit
  {
    hide Ok, Slot, SlotHolds, SealedDoc, Interval, CeilLog2;
    forall i :: 0 <= i < |words| ==>
      SlotHolds(subs, limit, Slot(|entries|, words, alpha, i), SealedDoc(c, rawKey, DocAt(entries, blank, i)))
  }

  lemma LaidFrom(subs: seq<Oram>, limit: BucketLimit, c: DocCodec, rawKey: Bytes, entries: seq<Entry>,
          words: seq<nat>, alpha: nat, blank: Document, subArrays: seq<seq<Document>>)
    requires |rawKey| >= 15 && Ok(subs, limit)
    requires |words| == Interval(|entries|) && alpha <= CeilLog2(|entries|)
    requires KeepsAll(subs, limit, c, rawKey, subArrays)
    requires AllPlaced(subArrays, Docs(entries), words, alpha, blank)
    ensures Laid(subs, limit, c, rawKey, entries, words, alpha, blank)
  {
    hide Oram.Valid, Oram.View, SealedDoc, Slot, Interval, Pow2;
    forall i | 0 <= i < |words|
      ensures SlotHolds(subs, limit, Slot(|entries|, words, alpha, i), SealedDoc(c, rawKey, DocAt(entries, blank, i)))
    {
      var slot := Slot(|entries|, words, alpha, i);
      assert Permutation.Placed(subArrays, slot, DocAt(entries, blank, i));
      assert Keeps(subs[slot.0], c, rawKey, subArrays[slot.0]);
    }
  }

  /** The objects of the sub-ORAMs. */
  ghost function Feet(subs: seq<Oram>): (r: set<object>)
    ensures forall o :: o in subs ==> o in r && o.storage in r
  {
    (set o | o in subs :: o as object) + (set o | o in subs :: o.storage as object)
  }

  /** Sub-ORAMs in working order with the documents of these tuples in their slots. */
  ghost predicate Shelved(subs: seq<Oram>, limit: BucketLimit, c: DocCodec, rawKey: Bytes, entries: seq<Entry>,
          stream: nat -> nat, alpha: nat, blank: Document)
    reads subs, set o | o in subs :: o.storage, limit
  {
    && |rawKey| >= 15 && Ok(subs, limit)
    && entries != [] && alpha <= CeilLog2(|entries|)
    && Laid(subs, limit, c, rawKey, entries, Words(|entries|, stream), alpha, blank)
  }

  /** The documents shuffled into sub-arrays, a sub-ORAM for each. */
  method PlaceAndLoad(limit: BucketLimit, bucketSize: nat, blockNumber: nat, c: DocCodec, rawKey: Bytes,
          entries: seq<Entry>, stream: nat -> nat, alpha: nat, blank: Document)
    returns (subs: seq<Oram>)
    requires blockNumber >= 1 && !TooSmall(bucketSize, blockNumber) && |rawKey| >= 15
    requires limit.maxSize == bucketSize && entries != [] && alpha <= CeilLog2(|entries|)
    modifies limit
    ensures limit.maxSize == bucketSize
    ensures forall o :: o in subs ==> fresh(o) && fresh(o.storage)
    ensures Shelved(subs, limit, c, rawKey, entries, stream, alpha, blank)
  {
    hide Laid, Ok, KeepsAll, AllPlaced, CeilLog2, TooSmall;
    var words := Words(|entries|, stream);
    var subArrays := Place(Docs(entries), words, alpha, blank);
    subs := Load(limit, bucketSize, blockNumber, c, rawKey, subArrays);
    LaidFrom(subs, limit, c, rawKey, entries, words, alpha, blank, subArrays);
  }

  lemma SlotThere(subs: seq<Oram>, limit: BucketLimit, c: DocCodec, rawKey: Bytes, entries: seq<Entry>,
          stream: nat -> nat, alpha: nat, blank: Document, i: nat)
    requires Shelved(subs, limit, c, rawKey, entries, stream, alpha, blank) && i < Interval(|entries|)
    ensures |rawKey| >= 15 && Ok(subs, limit) && alpha <= CeilLog2(|entries|)
    ensures var slot := Slot(|entries|, Words(|entries|, stream), alpha, i);
            slot.0 < |subs| && SlotHolds(subs, limit, slot, SealedDoc(c, rawKey, DocAt(entries, blank, i)))
  {
    hide Ok, Slot, SealedDoc, Interval, CeilLog2;
    var slot := Slot(|entries|, Words(|entries|, stream), alpha, i);
    assert SlotHolds(subs, limit, slot, SealedDoc(c, rawKey, DocAt(entries, blank, i)));
  }

  /** One document, read obliviously and unsealed. */
  method ReadDoc(subs: seq<Oram>, limit: BucketLimit, c: DocCodec, rawKey: Bytes, ghost entries: seq<Entry>,
          ghost stream: nat -> nat, ghost alpha: nat, ghost blank: Document, k: nat, index: nat, ghost i: nat)
    returns (d: Document)
    requires Shelved(subs, limit, c, rawKey, entries, stream, alpha, blank) && SubOrams.Faithful(c)
    requires i < Interval(|entries|) && (k, index) == Slot(|entries|, Words(|entries|, stream), alpha, i)
    requires k < |subs|
    modifies subs[k], subs[k].storage
    ensures Shelved(subs, limit, c, rawKey, entries, stream, alpha, blank)
    ensures d == DocAt(entries, blank, i)
  {
    hide Oram.Valid, Oram.View, SealedDoc, OpenedDoc, Slot, Interval, SubOrams.Faithful, CeilLog2, Pow2;
    SlotThere(subs, limit, c, rawKey, entries, stream, alpha, blank, i);
    var data := ReadFrom(subs, limit, k, index);
    OpensSealedDoc(c, rawKey, DocAt(entries, blank, i));
    var r := Unseal(c, rawKey, data);
    d := r.value;
  }

  /** The slot of subscript i, computed from the permutation, and what is there. */
  method ReadSlot(subs: seq<Oram>, limit: BucketLimit, c: DocCodec, rawKey: Bytes, ghost entries: seq<Entry>,
          ghost stream: nat -> nat, base: nat, alpha: nat, ghost blank: Document, value: nat, ghost i: nat)
    returns (d: Document)
    requires Shelved(subs, limit, c, rawKey, entries, stream, alpha, blank) && SubOrams.Faithful(c)
    requires i < Interval(|entries|) && base == CeilLog2(|entries|)
    requires value == Prp(|entries|, Words(|entries|, stream))[i]
    modifies Feet(subs)
    ensures Shelved(subs, limit, c, rawKey, entries, stream, alpha, blank)
    ensures d == DocAt(entries, blank, i)
  {
    hide Ok, Laid, Prp, GetBits, SubOrams.Faithful, Interval, CeilLog2, DocAt, Shelved, SlotHolds, SealedDoc;
    SlotThere(subs, limit, c, rawKey, entries, stream, alpha, blank, i);
    var bits := GetBits(base, value, alpha);
    d := ReadDoc(subs, limit, c, rawKey, entries, stream, alpha, blank, bits.0, bits.1, i);
  }

  method Unseal(c: DocCodec, rawKey: Bytes, data: Bytes) returns (r: Result<Document>)
    requires |rawKey| >= 15
    ensures r == OpenedDoc(c, rawKey, data)
  {
    hide Sm4Ecb.DecryptSpec;
    var plain :- Sm4Ecb.Decrypt(data, rawKey);
    match c.deserialize(plain) {
      case None => r := Failure(NotStored);
      case Some(d) => r := Success(d);
    }
  }
}
