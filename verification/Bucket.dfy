/** Buckets, their shared capacity, and the untrusted storage that holds them. */
module Buckets {
  import opened Wrappers
  import opened OramSpec

  /** The static part of class Bucket: one size limit for every bucket there is. */
  class BucketLimit {
    var isInit: bool
    var maxSize: int

    constructor ()
      ensures !isInit && maxSize == -1
    {
      isInit, maxSize := false, -1;
    }

    method ResetState()
      modifies this`isInit
      ensures !isInit
    {
      isInit := false;
    }

    method SetMaxSize(maximumSize: int) returns (r: Result<()>)
      modifies this
      ensures old(isInit) && maximumSize != old(maxSize) ==> r == Failure(MaxSizeAlreadySet) && unchanged(this)
      ensures !(old(isInit) && maximumSize != old(maxSize)) ==> r == Success(()) && isInit && maxSize == maximumSize
    {
      if isInit && maximumSize != maxSize {
        return Failure(MaxSizeAlreadySet);
      }
      maxSize := maximumSize;
      isInit := true;
      r := Success(());
    }
  }

  /** A cast to `unsigned` of a 32-bit `int`. */
  function Unsigned(x: int): int {
    if x < 0 then x + 0x1_0000_0000 else x
  }

  class Bucket {
    var blocks: Slots

    constructor ()
      ensures blocks == []
    {
      blocks := [];
    }

    /** Beyond the limit the block is dropped without a word. */
    method AddBlock(limit: BucketLimit, block: Block)
      modifies this
      ensures blocks == if |old(blocks)| < Unsigned(limit.maxSize) then old(blocks) + [block] else old(blocks)
    {
      if |blocks| < Unsigned(limit.maxSize) {
        blocks := blocks + [block];
      }
    }

    method RemoveBlock(block: Block) returns (removed: bool)
      modifies this
      ensures removed <==> exists i :: 0 <= i < |old(blocks)| && old(blocks)[i].index == block.index
      ensures blocks == RemoveFirst(old(blocks), block.index)
    {
      for i := 0 to |blocks|
        invariant blocks == old(blocks)
        invariant forall j :: 0 <= j < i ==> blocks[j].index != block.index
      {
        if blocks[i].index == block.index {
          FindUnique(blocks, block.index, i);
          blocks := blocks[..i] + blocks[i + 1..];
          return true;
        }
      }
      FindUnique(blocks, block.index, |blocks|);
      removed := false;
    }
  }

  /** Erasing the first block with this index, if there is one. */
  function RemoveFirst(blocks: seq<Block>, index: int): seq<Block> {
    var i := Find(blocks, index);
    if i == |blocks| then blocks else blocks[..i] + blocks[i + 1..]
  }

  lemma FindUnique(blocks: seq<Block>, index: int, i: nat)
    requires i <= |blocks|
    requires forall j :: 0 <= j < i ==> blocks[j].index != index
    requires i < |blocks| ==> blocks[i].index == index
    ensures Find(blocks, index) == i
  {
  }

  datatype Touch = ReadAt(position: int) | WroteAt(position: int)

  /** The server's bucket array behind its bounds-checking client interface. The log
      is what the server gets to see: which positions, in which order. */
  class Storage {
    var capacity: int
    var buckets: seq<Slots>
    ghost var log: seq<Touch>

    constructor ()
      ensures capacity == 0 && buckets == [] && log == []
    {
      capacity, buckets, log := 0, [], [];
    }

    method SetCapacity(total: nat)
      modifies this
      ensures capacity == total && log == old(log)
      ensures |buckets| == total && forall p :: 0 <= p < total ==> buckets[p] == []
    {
      capacity := total;
      buckets := seq(total, _ => []);
    }

    method ReadBucket(position: int) returns (r: Result<Slots>)
      requires capacity == |buckets|
      modifies this`log
      ensures 0 <= position < capacity ==> r == Success(buckets[position]) && log == old(log) + [ReadAt(position)]
      ensures !(0 <= position < capacity) ==> r == Failure(OutOfRange) && log == old(log)
    {
      if position >= capacity || position < 0 {
        return Failure(OutOfRange);
      }
      log := log + [ReadAt(position)];
      r := Success(buckets[position]);
    }

    method WriteBucket(position: int, blocks: Slots) returns (r: Result<()>)
      requires capacity == |buckets|
      modifies this`buckets, this`log
      ensures 0 <= position < capacity ==>
                r == Success(()) && buckets == old(buckets)[position := blocks] && log == old(log) + [WroteAt(position)]
      ensures !(0 <= position < capacity) ==> r == Failure(OutOfRange) && buckets == old(buckets) && log == old(log)
    {
      if position >= capacity || position < 0 {
        return Failure(OutOfRange);
      }
      buckets := buckets[position := blocks];
      log := log + [WroteAt(position)];
      r := Success(());
    }
  }
}
