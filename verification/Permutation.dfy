/** Fisher-Yates shuffling and the slot arithmetic of the adjustable ORAM. */
module Permutation {
  import opened Wrappers
  import opened Powers
  import opened Sets

  // ---- the shuffle ----------------------------------------------------------

  function Swap(s: seq<nat>, i: nat, j: nat): (r: seq<nat>)
    requires i < |s| && j < |s|
    ensures |r| == |s|
  {
    s[i := s[j]][j := s[i]]
  }

  /** One of the `room` places that are left. */
  function Draw(word: nat, room: nat): (r: nat)
    requires room >= 1
    ensures r < room
  {
    word % room
  }

  lemma SmallDraw(d: nat, room: nat)
    requires d < room
    ensures Draw(d, room) == d
  {
  }

  /** Turns i, i+1, ... of the shuffle: position i swaps with i + words[i] mod (n - i). */
  function Shuffled(s: seq<nat>, words: seq<nat>, i: nat): (r: seq<nat>)
    requires |words| == |s|
    ensures |r| == |s|
    decreases |s| - i
  {
    if i + 1 >= |s| then s
    else Shuffled(Swap(s, i, i + Draw(words[i], |s| - i)), words, i + 1)
  }

  function Identity(n: nat): (r: seq<nat>)
    ensures |r| == n && forall i :: 0 <= i < n ==> r[i] == i
  {
    seq(n, i => i)
  }

  /** The permuted interval: the least power of two not below the number of values. */
  function Interval(valueSize: nat): nat {
    Pow2(CeilLog2(valueSize))
  }

  /** Only powers of two fill their interval, and 1 is the only odd one. */
  lemma OddBelowInterval(n: nat)
    requires n % 2 == 1
    ensures n <= Interval(n)
    ensures n < Interval(n) <==> n >= 3
  {
    var e := CeilLog2(n);
    assert Pow2(0) == 1;
    if e >= 1 {
      assert Pow2(e) == 2 * Pow2(e - 1);
    }
  }

  function Prp(valueSize: nat, words: seq<nat>): (r: seq<nat>)
    requires |words| == Interval(valueSize)
    ensures |r| == Interval(valueSize)
  {
    Shuffled(Identity(Interval(valueSize)), words, 0)
  }

  ghost predicate IsPermutation(s: seq<nat>) {
    Distinct(s) && forall i :: 0 <= i < |s| ==> s[i] < |s|
  }

  lemma SwapKeepsPermutation(s: seq<nat>, i: nat, j: nat)
    requires IsPermutation(s) && i < |s| && j < |s|
    ensures IsPermutation(Swap(s, i, j))
  {
  }

  lemma {:induction false} ShuffleKeepsPermutation(s: seq<nat>, words: seq<nat>, i: nat)
    requires |words| == |s| && IsPermutation(s)
    ensures IsPermutation(Shuffled(s, words, i))
    decreases |s| - i
  {
    if i + 1 < |s| {
      SwapKeepsPermutation(s, i, i + Draw(words[i], |s| - i));
      hide Swap, IsPermutation;
      ShuffleKeepsPermutation(Swap(s, i, i + Draw(words[i], |s| - i)), words, i + 1);
    }
  }

  // ---- the shuffle without recursion, and what it can produce -------------------

  /** b is a with the places i and j exchanged. */
  ghost predicate Exchanged(a: seq<nat>, b: seq<nat>, i: nat, j: nat) {
    && |a| == |b| && i < |a| && j < |a| && b[i] == a[j] && b[j] == a[i]
    && forall k :: 0 <= k < |a| && k != i && k != j ==> b[k] == a[k]
  }

  /** The lists after each turn: turn i exchanges place i with i + words[i] mod (n - i). */
  lemma {:induction false} ShuffleHistory(s: seq<nat>, words: seq<nat>, i: nat) returns (h: seq<seq<nat>>)
    requires |words| == |s| && i < |s|
    ensures |h| == |s| - i && h[0] == s && h[|h| - 1] == Shuffled(s, words, i)
    ensures forall k :: 0 <= k < |h| - 1 ==>
              Exchanged(h[k], h[k + 1], i + k, i + k + Draw(words[i + k], |s| - (i + k)))
    decreases |s| - i
  {
    if i + 1 == |s| {
      h := [s];
    } else {
      var next := Swap(s, i, i + Draw(words[i], |s| - i));
      var rest := ShuffleHistory(next, words, i + 1);
      h := [s] + rest;
      assert forall k :: 1 <= k < |h| - 1 ==> h[k] == rest[k - 1] && h[k + 1] == rest[k];
    }
  }

  lemma {:induction false} PrefixStays(s: seq<nat>, words: seq<nat>, i: nat, k: nat)
    requires |words| == |s| && k < i
    ensures k < |s| ==> Shuffled(s, words, i)[k] == s[k]
    decreases |s| - i
  {
    if i + 1 < |s| {
      PrefixStays(Swap(s, i, i + Draw(words[i], |s| - i)), words, i + 1, k);
    }
  }

  lemma PlaceSettled(s: seq<nat>, words: seq<nat>, i: nat)
    requires |words| == |s| && i < |s|
    ensures Shuffled(s, words, i)[i] == s[i + Draw(words[i], |s| - i)]
  {
    if i + 1 < |s| {
      PrefixStays(Swap(s, i, i + Draw(words[i], |s| - i)), words, i + 1, i);
    }
  }

  /** Two runs give the same list only if they draw the same places. */
  lemma {:induction false} SameDraws(s: seq<nat>, v: seq<nat>, w: seq<nat>, i: nat, k: nat)
    requires |v| == |w| == |s| && Distinct(s) && i <= k < |s|
    requires Shuffled(s, v, i) == Shuffled(s, w, i)
    ensures Draw(v[k], |s| - k) == Draw(w[k], |s| - k)
    decreases |s| - i
  {
    PlaceSettled(s, v, i);
    PlaceSettled(s, w, i);
    assert Draw(v[i], |s| - i) == Draw(w[i], |s| - i);
    if i < k {
      SameDraws(Swap(s, i, i + Draw(v[i], |s| - i)), v, w, i + 1, k);
    }
  }

  /** Every rearrangement of the places from i on is drawn by some words. */
  lemma {:induction false} AllDrawn(s: seq<nat>, p: seq<nat>, i: nat) returns (words: seq<nat>)
    requires |p| == |s| && Distinct(s) && Distinct(p) && i <= |s|
    requires (forall k :: 0 <= k < i ==> p[k] == s[k]) && forall x :: x in p ==> x in s
    ensures |words| == |s| && Shuffled(s, words, i) == p
    decreases |s| - i
  {
    if i + 1 >= |s| {
      words := seq(|s|, _ => 0);
      if i < |s| {
        LastPlace(s, p, i);
      }
      assert p == s;
    } else {
      hide Shuffled, Swap;
      assert p[i] in s;
      var j :| 0 <= j < |s| && s[j] == p[i];
      assert j >= i;
      SwapMembers(s, i, j);
      var rest := AllDrawn(Swap(s, i, j), p, i + 1);
      words := rest[i := j - i];
      SameRest(Swap(s, i, j), rest, words, i + 1);
      DrawPlace(s, words, i, j);
    }
  }

  lemma DrawPlace(s: seq<nat>, words: seq<nat>, i: nat, j: nat)
    requires |words| == |s| && i + 1 < |s| && i <= j < |s| && words[i] == j - i
    ensures Shuffled(s, words, i) == Shuffled(Swap(s, i, j), words, i + 1)
  {
    SmallDraw(j - i, |s| - i);
    hide Draw;
  }

  lemma LastPlace(s: seq<nat>, p: seq<nat>, i: nat)
    requires |p| == |s| == i + 1 && Distinct(p) && p[i] in s && forall k :: 0 <= k < i ==> p[k] == s[k]
    ensures p[i] == s[i]
  {
    var j :| 0 <= j < |s| && s[j] == p[i];
  }

  lemma SwapMembers(s: seq<nat>, i: nat, j: nat)
    requires i < |s| && j < |s| && Distinct(s)
    ensures Distinct(Swap(s, i, j)) && forall x :: x in s ==> x in Swap(s, i, j)
    ensures Swap(s, i, j)[i] == s[j] && forall k :: 0 <= k < i && k < j ==> Swap(s, i, j)[k] == s[k]
  {
    forall x | x in s ensures x in Swap(s, i, j) {
      var k :| 0 <= k < |s| && s[k] == x;
      assert Swap(s, i, j)[if k == i then j else if k == j then i else k] == x;
    }
  }

  lemma {:induction false} SameRest(s: seq<nat>, v: seq<nat>, w: seq<nat>, i: nat)
    requires |v| == |w| == |s| && forall k :: i <= k < |s| ==> v[k] == w[k]
    ensures Shuffled(s, v, i) == Shuffled(s, w, i)
    decreases |s| - i
  {
    if i + 1 < |s| {
      SameRest(Swap(s, i, i + Draw(v[i], |s| - i)), v, w, i + 1);
    }
  }

  /** The shuffle is fair: every permutation of 0 .. 2^base - 1 comes from some words, and
      any two words for it draw the same places. */
  lemma ShuffleIsFair(valueSize: nat, p: seq<nat>) returns (words: seq<nat>)
    requires |p| == Interval(valueSize) && IsPermutation(p)
    ensures |words| == Interval(valueSize) && Prp(valueSize, words) == p
    ensures forall w, k :: |w| == |p| && Prp(valueSize, w) == p && 0 <= k < |p| ==>
              w[k] % (|p| - k) == words[k] % (|p| - k)
  {
    var s := Identity(Interval(valueSize));
    forall x | x in p ensures x in s {
      assert s[x] == x;
    }
    words := AllDrawn(s, p, 0);
    forall w: seq<nat>, k | |w| == |p| && Prp(valueSize, w) == p && 0 <= k < |p|
      ensures w[k] % (|p| - k) == words[k] % (|p| - k)
    {
      SameDraws(s, w, words, 0, k);
    }
  }

  /** The whole history of a permutation, from 0, 1, 2, ... on. */
  lemma PrpHistory(valueSize: nat, words: seq<nat>) returns (h: seq<seq<nat>>)
    requires |words| == Interval(valueSize)
    ensures |h| == |words| && h[|h| - 1] == Prp(valueSize, words)
    ensures |h[0]| == |words| && forall k :: 0 <= k < |words| ==> h[0][k] == k
    ensures forall k :: 0 <= k < |h| - 1 ==> Exchanged(h[k], h[k + 1], k, k + words[k] % (|words| - k))
  {
    hide Shuffled;
    AtLeastOne(valueSize);
    h := ShuffleHistory(Identity(Interval(valueSize)), words, 0);
  }

  /** Whatever the random words, the result permutes 0 .. 2^base - 1. */
  lemma PrpIsPermutation(valueSize: nat, words: seq<nat>)
    requires |words| == Interval(valueSize)
    ensures IsPermutation(Prp(valueSize, words))
  {
    ShuffleKeepsPermutation(Identity(Interval(valueSize)), words, 0);
  }

  function Below(n: nat): (r: set<nat>)
    ensures |r| == n && forall k: nat :: k in r <==> k < n
  {
    if n == 0 then {} else Below(n - 1) + {n - 1}
  }

  /** Every slot is hit: a duplicate-free list of n numbers below n misses none. */
  lemma PermutationCovers(s: seq<nat>, v: nat)
    requires IsPermutation(s) && v < |s|
    ensures v in s
  {
    if v !in s {
      var members := set i | 0 <= i < |s| :: s[i];
      assert forall x :: x in members ==> x in s;
      EnumerationSize(s, members);
      SubsetSize(members, Below(|s|) - {v});
    }
  }

  lemma AtLeastOne(valueSize: nat)
    ensures Interval(valueSize) >= 1
  {
  }

  lemma PrpUnfold(valueSize: nat, words: seq<nat>)
    requires |words| == Interval(valueSize)
    ensures Prp(valueSize, words) == Shuffled(Identity(Interval(valueSize)), words, 0)
  {
  }

  lemma ShuffleStep(s: seq<nat>, words: seq<nat>, i: nat)
    requires |words| == |s|
    ensures i + 1 >= |s| ==> Shuffled(s, words, i) == s
    ensures i + 1 < |s| ==>
              var j := i + words[i] % (|s| - i);
              Shuffled(s, words, i) == Shuffled(s[i := s[j]][j := s[i]], words, i + 1)
  {
  }

  method SwapAt(a: array<nat>, i: nat, j: nat)
    requires i < a.Length && j < a.Length
    modifies a
    ensures a[..] == var s := old(a[..]); s[i := s[j]][j := s[i]]
  {
    a[i], a[j] := a[j], a[i];
  }

  /** The swapping loop. */
  method Shuffle(ans: array<nat>, words: seq<nat>)
    requires ans.Length >= 1 && |words| == ans.Length
    modifies ans
    ensures ans[..] == Shuffled(old(ans[..]), words, 0)
  {
    hide *;
    for i := 0 to ans.Length - 1
      invariant Shuffled(ans[..], words, i) == Shuffled(old(ans[..]), words, 0)
    {
      var j := i + words[i] % (ans.Length - i);
      ShuffleStep(ans[..], words, i);
      SwapAt(ans, i, j);
    }
    ShuffleStep(ans[..], words, ans.Length - 1);
  }

  method PseudoRandomPermutation(valueSize: nat, words: seq<nat>) returns (ans: array<nat>)
    requires valueSize >= 1 && |words| == Interval(valueSize)
    ensures fresh(ans) && ans[..] == Prp(valueSize, words)
    ensures IsPermutation(ans[..])
  {
    hide *;
    AtLeastOne(valueSize);
    ans := new nat[Interval(valueSize)](i => i);
    assert ans[..] == Identity(Interval(valueSize));
    Shuffle(ans, words);
    PrpUnfold(valueSize, words);
    PrpIsPermutation(valueSize, words);
  }

  // ---- slots ----------------------------------------------------------------

  /** A slot number cut into its high alpha bits and the rest. The source shifts by
      base - alpha and masks with 2^(base - alpha) - 1. */
  function GetBits(base: nat, number: nat, alpha: nat): (nat, nat)
    requires alpha <= base
  {
    (Div(number, Pow2(base - alpha)), Mod(number, Pow2(base - alpha)))
  }

  function Mod(a: nat, d: nat): nat
    requires d >= 1
  {
    a % d
  }

  /** In range, and the number is recovered from its parts. */
  lemma GetBitsRange(base: nat, number: nat, alpha: nat)
    requires alpha <= base && number < Pow2(base)
    ensures var (most, rest) := GetBits(base, number, alpha);
            most < Pow2(alpha) && rest < Pow2(base - alpha) && number == most * Pow2(base - alpha) + rest
  {
    Pow2Add(alpha, base - alpha);
    DivLess(number, Pow2(alpha), Pow2(base - alpha));
    DivParts(number, Pow2(base - alpha));
  }

  lemma DivParts(a: nat, d: nat)
    requires d >= 1
    ensures a == Div(a, d) * d + Mod(a, d) && Mod(a, d) < d
  {
  }

  lemma GetBitsInjective(base: nat, a: nat, b: nat, alpha: nat)
    requires alpha <= base
    ensures GetBits(base, a, alpha) == GetBits(base, b, alpha) <==> a == b
  {
    DivParts(a, Pow2(base - alpha));
    DivParts(b, Pow2(base - alpha));
  }

  /** Every (sub-ORAM, index) pair is the slot of exactly one number. */
  lemma GetBitsSurjective(base: nat, alpha: nat, most: nat, rest: nat)
    requires alpha <= base && most < Pow2(alpha) && rest < Pow2(base - alpha)
    ensures var number := most * Pow2(base - alpha) + rest;
            number < Pow2(base) && GetBits(base, number, alpha) == (most, rest)
  {
    var d := Pow2(base - alpha);
    var number := most * d + rest;
    Pow2Add(alpha, base - alpha);
    MulMono(most + 1, Pow2(alpha), d);
    assert (most + 1) * d == most * d + d;
    DivUnique(number, d, most, rest);
  }

  /** ceil(2^base / 2^alpha), the length of a sub-array. */
  function ArraySize(base: nat, alpha: nat): nat {
    if Pow2(base) % Pow2(alpha) == 0 then Pow2(base) / Pow2(alpha) else Pow2(base) / Pow2(alpha) + 1
  }

  lemma ArraySizeExact(base: nat, alpha: nat)
    requires alpha <= base
    ensures ArraySize(base, alpha) == Pow2(base - alpha)
  {
    Pow2Add(base - alpha, alpha);
    DivUnique(Pow2(base), Pow2(alpha), Pow2(base - alpha), 0);
  }

  // ---- placement ------------------------------------------------------------

  /** Where number i of the permuted interval goes. */
  function Slot(n: nat, words: seq<nat>, alpha: nat, i: nat): (nat, nat)
    requires |words| == Interval(n) && i < Interval(n) && alpha <= CeilLog2(n)
  {
    GetBits(CeilLog2(n), Prp(n, words)[i], alpha)
  }

  /** Two numbers never share a slot, and every slot exists. */
  lemma SlotsDiffer(n: nat, words: seq<nat>, alpha: nat, i: nat, j: nat)
    requires |words| == Interval(n) && i < Interval(n) && j < Interval(n) && alpha <= CeilLog2(n)
    ensures Slot(n, words, alpha, i) == Slot(n, words, alpha, j) <==> i == j
    ensures Prp(n, words)[i] ==
              Slot(n, words, alpha, i).0 * Pow2(CeilLog2(n) - alpha) + Slot(n, words, alpha, i).1
    ensures Slot(n, words, alpha, i).0 < Pow2(alpha)
    ensures Slot(n, words, alpha, i).1 < ArraySize(CeilLog2(n), alpha)
  {
    var prp := Prp(n, words);
    PrpIsPermutation(n, words);
    hide Prp, GetBits, ArraySize;
    GetBitsInjective(CeilLog2(n), prp[i], prp[j], alpha);
    GetBitsRange(CeilLog2(n), prp[i], alpha);
    ArraySizeExact(CeilLog2(n), alpha);
  }

  ghost predicate Placed<T>(subArrays: seq<seq<T>>, slot: (nat, nat), entry: T) {
    slot.0 < |subArrays| && slot.1 < |subArrays[slot.0]| && subArrays[slot.0][slot.1] == entry
  }

  /** Recomputing the slot of number i finds entry i, or the blank behind the entries. */
  ghost predicate AllPlaced<T>(subArrays: seq<seq<T>>, entries: seq<T>, words: seq<nat>, alpha: nat, blank: T)
    requires |words| == Interval(|entries|) && alpha <= CeilLog2(|entries|)
  {
    && |subArrays| == Pow2(alpha)
    && forall i :: 0 <= i < |words| ==>
         Placed(subArrays, Slot(|entries|, words, alpha, i), if i < |entries| then entries[i] else blank)
  }

  /** The placement loop: entry i sits in its slot, no later entry overwrote it. */
  method Place<T>(entries: seq<T>, words: seq<nat>, alpha: nat, blank: T) returns (subArrays: seq<seq<T>>)
    requires entries != [] && |words| == Interval(|entries|) && alpha <= CeilLog2(|entries|)
    ensures AllPlaced(subArrays, entries, words, alpha, blank)
  {
    var n := |entries|;
    var base := CeilLog2(n);
    subArrays := seq(Pow2(alpha), _ => seq(ArraySize(base, alpha), _ => blank));
    var prp := PseudoRandomPermutation(n, words);
    ghost var p := Prp(n, words);
    hide Prp, GetBits, ArraySize;
    forall i | 0 <= i < |words| ensures Placed(subArrays, Slot(n, words, alpha, i), blank) {
      SlotsDiffer(n, words, alpha, i, i);
    }
    for i := 0 to n
      invariant prp[..] == p
      invariant |subArrays| == Pow2(alpha)
      invariant forall j :: 0 <= j < |words| ==>
                Placed(subArrays, Slot(n, words, alpha, j), if j < i then entries[j] else blank)
    {
      var value := prp[i];
      var bits := GetBits(base, value, alpha);
      assert bits == Slot(n, words, alpha, i);
      SlotsDiffer(n, words, alpha, i, i);
      forall j | 0 <= j < |words| ensures j != i ==> Slot(n, words, alpha, j) != bits {
        SlotsDiffer(n, words, alpha, j, i);
      }
      subArrays := subArrays[bits.0 := subArrays[bits.0][bits.1 := entries[i]]];
    }
  }
}
