/** The heap numbering of the bucket tree: where the bucket of a given level on
    the path to a given leaf is kept. */
module HeapLayout {
  import opened Powers

  function NumLeaves(levels: nat): (r: nat)
    requires levels >= 1
    ensures r >= 1
  {
    Pow2(levels - 1)
  }

  function NumBuckets(levels: nat): nat {
    Pow2(levels) - 1
  }

  /** `P`: (1 << level) - 1 + (leaf >> (levels - level - 1)). */
  function Position(levels: nat, leaf: nat, level: nat): nat
    requires level < levels
  {
    Pow2(level) - 1 + Shr(leaf, levels - level - 1)
  }

  /** `a >> n` for a number that is not negative. */
  function Shr(a: nat, n: nat): nat {
    if n == 0 then a else Shr(a, n - 1) / 2
  }

  lemma {:induction false} ShrIsDiv(a: nat, n: nat)
    ensures Shr(a, n) == a / Pow2(n)
  {
    if n > 0 {
      ShrIsDiv(a, n - 1);
      DivDiv(a, Pow2(n - 1));
    }
  }

  /** The shift is a division: the bucket is 2^level - 1 + leaf / 2^(levels - level - 1). */
  lemma PositionIs(levels: nat, leaf: nat, level: nat)
    requires level < levels
    ensures Position(levels, leaf, level) == Pow2(level) - 1 + leaf / Pow2(levels - level - 1)
  {
    ShrIsDiv(leaf, levels - level - 1);
  }

  /** Level l fills exactly the slots from 2^l - 1 up to 2^(l+1) - 2, so two levels
      never share a slot and no slot falls outside the storage. */
  lemma PositionRange(levels: nat, leaf: nat, level: nat)
    requires level < levels && leaf < NumLeaves(levels)
    ensures Pow2(level) - 1 <= Position(levels, leaf, level) < Pow2(level + 1) - 1
    ensures Position(levels, leaf, level) < NumBuckets(levels)
  {
    SplitLeafRange(levels, leaf, level);
    ShrIsDiv(leaf, levels - level - 1);
    Pow2Monotone(level + 1, levels);
  }

  lemma SplitLeafRange(levels: nat, leaf: nat, level: nat)
    requires level < levels && leaf < NumLeaves(levels)
    ensures leaf / Pow2(levels - level - 1) < Pow2(level)
  {
    var w, d := Pow2(level), Pow2(levels - level - 1);
    assert leaf < w * d by { Pow2Add(level, levels - level - 1); }
    DivLess(leaf, w, d);
  }

  lemma LevelsDisjoint(levels: nat, leafA: nat, levelA: nat, leafB: nat, levelB: nat)
    requires levelA < levels && leafA < NumLeaves(levels)
    requires levelB < levels && leafB < NumLeaves(levels)
    requires Position(levels, leafA, levelA) == Position(levels, leafB, levelB)
    ensures levelA == levelB
  {
    PositionRange(levels, leafA, levelA);
    PositionRange(levels, leafB, levelB);
    if levelA < levelB {
      Pow2Monotone(levelA + 1, levelB);
    } else if levelB < levelA {
      Pow2Monotone(levelB + 1, levelA);
    }
  }

  /** The slot one level up is the binary-heap parent of the slot below it. */
  lemma PositionParent(levels: nat, leaf: nat, level: nat)
    requires level + 1 < levels
    ensures Position(levels, leaf, level) == (Position(levels, leaf, level + 1) - 1) / 2
  {
  }

  /** Two paths that meet at a level coincide from there up to the root. */
  lemma {:induction false} PathsMeetUpward(levels: nat, a: nat, b: nat, low: nat, high: nat)
    requires low <= high < levels
    requires Position(levels, a, high) == Position(levels, b, high)
    ensures Position(levels, a, low) == Position(levels, b, low)
  {
    if low < high {
      PositionParent(levels, a, high - 1);
      PositionParent(levels, b, high - 1);
      PathsMeetUpward(levels, a, b, low, high - 1);
    }
  }

  /** At the leaf level the slot identifies the leaf. */
  lemma LeafLevelInjective(levels: nat, a: nat, b: nat)
    requires levels >= 1
    ensures Position(levels, a, levels - 1) == Position(levels, b, levels - 1) <==> a == b
  {
    assert Pow2(0) == 1;
  }

  /** Every bucket is the one of some level on some leaf's path. */
  lemma {:induction false} EveryBucketOnAPath(levels: nat, p: nat) returns (leaf: nat, level: nat)
    requires p < NumBuckets(levels)
    ensures level < levels && leaf < NumLeaves(levels) && Position(levels, leaf, level) == p
  {
    level := LevelOf(levels, p);
    var d := Pow2(levels - level - 1);
    var offset := p - (Pow2(level) - 1);
    leaf := offset * d;
    Pow2Add(level, levels - level - 1);
    assert Pow2(level + 1) == 2 * Pow2(level);
    MulMono(offset + 1, Pow2(level), d);
    assert (offset + 1) * d == offset * d + d;
    DivUnique(leaf, d, offset, 0);
    ShrIsDiv(leaf, levels - level - 1);
  }

  lemma {:induction false} LevelOf(levels: nat, p: nat) returns (level: nat)
    requires p < NumBuckets(levels)
    ensures level < levels && Pow2(level) - 1 <= p < Pow2(level + 1) - 1
  {
    if p < NumBuckets(levels - 1) {
      level := LevelOf(levels - 1, p);
    } else {
      level := levels - 1;
    }
  }

  /** With at most 31 levels every position fits the `int` the source returns. */
  lemma PositionFitsInt(levels: nat, leaf: nat, level: nat)
    requires level < levels <= 31 && leaf < NumLeaves(levels)
    ensures Position(levels, leaf, level) < 0x7FFF_FFFF
  {
    hide Position, NumLeaves;
    PositionRange(levels, leaf, level);
    Pow2Monotone(levels, 31);
    assert Pow2(31) == 0x8000_0000 by {
      Pow2Add(15, 16);
      assert Pow2(4) == 16;
      Pow2Add(4, 4); Pow2Add(8, 8); Pow2Add(8, 7);
      assert Pow2(3) == 8; Pow2Add(4, 3);
      assert Pow2(7) == 128 && Pow2(8) == 256;
    }
  }
}
