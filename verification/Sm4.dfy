/** SM4 (GB/T 32907-2016): the standard on 32-bit words, and the program's version
    on 64-bit words whose upper halves fill up with rotation debris. */
module Sm4 {
  import opened Wrappers
  import opened Sm4Tables

  // ---- the standard on 32-bit words ----------------------------------------

  function Word(b0: bv8, b1: bv8, b2: bv8, b3: bv8): bv32 {
    ((b0 as bv32) << 24) | ((b1 as bv32) << 16) | ((b2 as bv32) << 8) | (b3 as bv32)
  }

  function Byte(w: bv32, shift: bv6): bv8
    requires shift <= 24
  {
    ((w >> shift) & 0xFF) as bv8
  }

  /** tau: the S-box on each byte. */
  function Tau(w: bv32): bv32 {
    Word(Sbox(Byte(w, 24)), Sbox(Byte(w, 16)), Sbox(Byte(w, 8)), Sbox(Byte(w, 0)))
  }

  function Rotl(w: bv32, n: bv6): bv32
    requires n < 32
  {
    (w << n) | (w >> (32 - n))
  }

  function Xor(a: bv32, b: bv32): bv32 {
    a ^ b
  }

  function L(b: bv32): bv32 {
    Xor(Xor(Xor(Xor(b, Rotl(b, 2)), Rotl(b, 10)), Rotl(b, 18)), Rotl(b, 24))
  }

  function LKey(b: bv32): bv32 {
    Xor(Xor(b, Rotl(b, 13)), Rotl(b, 23))
  }

  /** T = L o tau of the round function. */
  function T(w: bv32): bv32 {
    L(Tau(w))
  }

  /** T' = L' o tau of the key expansion. */
  function TKey(w: bv32): bv32 {
    LKey(Tau(w))
  }

  function Mix(a: bv32, b: bv32, c: bv32, d: bv32): bv32 {
    Xor(Xor(Xor(a, b), c), d)
  }

  datatype Quad = Quad(x0: bv32, x1: bv32, x2: bv32, x3: bv32)

  function Reversed(q: Quad): Quad {
    Quad(q.x3, q.x2, q.x1, q.x0)
  }

  function Round(q: Quad, rk: bv32): Quad {
    Quad(q.x1, q.x2, q.x3, Xor(q.x0, T(Mix(q.x1, q.x2, q.x3, rk))))
  }

  function Rounds(q: Quad, rks: seq<bv32>): Quad
    decreases |rks|
  {
    if rks == [] then q else Rounds(Round(q, rks[0]), rks[1..])
  }

  function ToQuad(block: Bytes): Quad
    requires |block| == 16
  {
    Quad(Word(block[0], block[1], block[2], block[3]), Word(block[4], block[5], block[6], block[7]),
         Word(block[8], block[9], block[10], block[11]), Word(block[12], block[13], block[14], block[15]))
  }

  function WordBytes(w: bv32): (r: Bytes)
    ensures |r| == 4
  {
    [Byte(w, 24), Byte(w, 16), Byte(w, 8), Byte(w, 0)]
  }

  function FromQuad(q: Quad): (r: Bytes)
    ensures |r| == 16
  {
    WordBytes(q.x0) + WordBytes(q.x1) + WordBytes(q.x2) + WordBytes(q.x3)
  }

  /** Encryption of one block; decryption is the same with the keys reversed. */
  function CryptBlock(rks: seq<bv32>, block: Bytes): (r: Bytes)
    requires |block| == 16
    ensures |r| == 16
  {
    FromQuad(Reversed(Rounds(ToQuad(block), rks)))
  }

  function ExpandFrom(k: Quad, i: nat): (r: seq<bv32>)
    requires i <= 32
    ensures |r| == 32 - i
    decreases 32 - i
  {
    if i == 32 then []
    else
      var rk := Xor(k.x0, TKey(Mix(k.x1, k.x2, k.x3, CK[i])));
      [rk] + ExpandFrom(Quad(k.x1, k.x2, k.x3, rk), i + 1)
  }

  /** The 32 round keys of a 16-byte key. */
  function Expand(key: Bytes): (r: seq<bv32>)
    requires |key| == 16
    ensures |r| == 32
  {
    var mk := ToQuad(key);
    ExpandFrom(Quad(Xor(mk.x0, FK0), Xor(mk.x1, FK1), Xor(mk.x2, FK2), Xor(mk.x3, FK3)), 0)
  }

  // ---- the cipher inverts ---------------------------------------------------

  function Backwards<X>(s: seq<X>): (r: seq<X>)
    ensures |r| == |s|
    ensures forall i :: 0 <= i < |s| ==> r[i] == s[|s| - 1 - i]
  {
    if s == [] then [] else Backwards(s[1..]) + [s[0]]
  }

  lemma XorLaws(a: bv32, b: bv32, c: bv32)
    ensures Xor(a, b) == Xor(b, a)
    ensures Xor(Xor(a, b), c) == Xor(a, Xor(b, c))
  {
  }

  lemma MixSymmetric(a: bv32, b: bv32, c: bv32, d: bv32)
    ensures Mix(c, b, a, d) == Mix(a, b, c, d)
  {
    hide Xor;
    XorLaws(c, b, a);
    XorLaws(b, a, c);
    XorLaws(c, Xor(b, a), c);
  }

  lemma XorCancels(a: bv32, t: bv32)
    ensures Xor(Xor(a, t), t) == a
  {
  }

  lemma RoundUndoes(q: Quad, rk: bv32)
    ensures Round(Reversed(Round(q, rk)), rk) == Reversed(q)
  {
    hide T, Mix, Xor;
    MixSymmetric(q.x1, q.x2, q.x3, rk);
    XorCancels(q.x0, T(Mix(q.x1, q.x2, q.x3, rk)));
  }

  lemma {:induction false} RoundsAppend(q: Quad, rks: seq<bv32>, rk: bv32)
    ensures Rounds(q, rks + [rk]) == Round(Rounds(q, rks), rk)
    decreases |rks|
  {
    hide Round;
    if rks == [] {
      assert ([rk])[1..] == [];
      assert rks + [rk] == [rk];
    } else {
      assert (rks + [rk])[1..] == rks[1..] + [rk];
      RoundsAppend(Round(q, rks[0]), rks[1..], rk);
    }
  }

  /** The unbalanced Feistel network runs backwards under the reversed keys. */
  lemma {:induction false} RoundsUndo(q: Quad, rks: seq<bv32>)
    ensures Rounds(Reversed(Rounds(q, rks)), Backwards(rks)) == Reversed(q)
    decreases |rks|
  {
    if rks != [] {
      var next := Round(q, rks[0]);
      hide Round;
      RoundsUndo(next, rks[1..]);
      RoundsAppend(Reversed(Rounds(next, rks[1..])), Backwards(rks[1..]), rks[0]);
      RoundUndoes(q, rks[0]);
    }
  }

  lemma WordOfBytes(w: bv32)
    ensures Word(Byte(w, 24), Byte(w, 16), Byte(w, 8), Byte(w, 0)) == w
  {
  }

  lemma BytesOfWord(b0: bv8, b1: bv8, b2: bv8, b3: bv8)
    ensures Byte(Word(b0, b1, b2, b3), 24) == b0 && Byte(Word(b0, b1, b2, b3), 16) == b1
    ensures Byte(Word(b0, b1, b2, b3), 8) == b2 && Byte(Word(b0, b1, b2, b3), 0) == b3
  {
  }

  lemma QuadOfBytes(q: Quad)
    ensures ToQuad(FromQuad(q)) == q
  {
    hide Word, Byte;
    WordOfBytes(q.x0);
    WordOfBytes(q.x1);
    WordOfBytes(q.x2);
    WordOfBytes(q.x3);
  }

  lemma BytesOfQuad(block: Bytes)
    requires |block| == 16
    ensures FromQuad(ToQuad(block)) == block
  {
    hide Word, Byte;
    BytesOfWord(block[0], block[1], block[2], block[3]);
    BytesOfWord(block[4], block[5], block[6], block[7]);
    BytesOfWord(block[8], block[9], block[10], block[11]);
    BytesOfWord(block[12], block[13], block[14], block[15]);
  }

  /** Decrypting a block under the reversed keys gives the block back. */
  lemma BlockRoundTrip(rks: seq<bv32>, block: Bytes)
    requires |block| == 16
    ensures CryptBlock(Backwards(rks), CryptBlock(rks, block)) == block
  {
    hide Word, Byte, Round, FromQuad, ToQuad;
    var q := ToQuad(block);
    QuadOfBytes(Reversed(Rounds(q, rks)));
    RoundsUndo(q, rks);
    BytesOfQuad(block);
  }

  // ---- the program on 64-bit words ------------------------------------------

  function Low(x: bv64): bv32 {
    (x & 0xFFFF_FFFF) as bv32
  }

  /** GET_ULONG_BE */
  function GetUlong(b0: bv8, b1: bv8, b2: bv8, b3: bv8): bv64 {
    ((b0 as bv64) << 24) | ((b1 as bv64) << 16) | ((b2 as bv64) << 8) | (b3 as bv64)
  }

  /** One line of PUT_ULONG_BE. */
  function UlongByte(x: bv64, shift: bv6): bv8
    requires shift <= 24
  {
    ((x >> shift) & 0xFF) as bv8
  }

  /** ROTL: only the left shift is masked beforehand; the bits it pushes past bit 31 remain. */
  function Rotl64(x: bv64, n: bv6): bv64
    requires n < 32
  {
    ((x & 0xFFFF_FFFF) << n) | (x >> (32 - n))
  }

  function Substitute(ka: bv64): bv64 {
    GetUlong(Sbox(UlongByte(ka, 24)), Sbox(UlongByte(ka, 16)), Sbox(UlongByte(ka, 8)), Sbox(UlongByte(ka, 0)))
  }

  function Xor64(a: bv64, b: bv64): bv64 {
    a ^ b
  }

  function Spread(bb: bv64): bv64 {
    Xor64(Xor64(Xor64(Xor64(bb, Rotl64(bb, 2)), Rotl64(bb, 10)), Rotl64(bb, 18)), Rotl64(bb, 24))
  }

  function SpreadKey(bb: bv64): bv64 {
    Xor64(Xor64(bb, Rotl64(bb, 13)), Rotl64(bb, 23))
  }

  /** sm4Lt */
  function Lt(ka: bv64): bv64 {
    Spread(Substitute(ka))
  }

  /** sm4CalciRK */
  function CalcRoundKey(ka: bv64): bv64 {
    SpreadKey(Substitute(ka))
  }

  function Mix64(a: bv64, b: bv64, c: bv64, d: bv64): bv64 {
    Xor64(Xor64(Xor64(a, b), c), d)
  }

  /** sm4F */
  function F(x0: bv64, x1: bv64, x2: bv64, x3: bv64, rk: bv64): bv64 {
    Xor64(x0, Lt(Mix64(x1, x2, x3, rk)))
  }

  lemma LowXor()
    ensures forall a, b :: Low(Xor64(a, b)) == Xor(Low(a), Low(b))
  {
    forall a: bv64, b: bv64 ensures Low(Xor64(a, b)) == Xor(Low(a), Low(b)) {
      LowXorAt(a, b);
    }
  }

  lemma LowXorAt(a: bv64, b: bv64)
    ensures Low(Xor64(a, b)) == Xor(Low(a), Low(b))
  {
  }

  lemma LowByte(x: bv64)
    ensures UlongByte(x, 24) == Byte(Low(x), 24) && UlongByte(x, 16) == Byte(Low(x), 16)
    ensures UlongByte(x, 8) == Byte(Low(x), 8) && UlongByte(x, 0) == Byte(Low(x), 0)
  {
  }

  lemma GetUlongIsWord(b0: bv8, b1: bv8, b2: bv8, b3: bv8)
    ensures GetUlong(b0, b1, b2, b3) == Word(b0, b1, b2, b3) as bv64
    ensures Low(GetUlong(b0, b1, b2, b3)) == Word(b0, b1, b2, b3)
  {
  }

  lemma RotlLow2(w: bv32)
    ensures Low(Rotl64(w as bv64, 2)) == Rotl(w, 2)
  {
  }

  lemma RotlLow10(w: bv32)
    ensures Low(Rotl64(w as bv64, 10)) == Rotl(w, 10)
  {
  }

  lemma RotlLow13(w: bv32)
    ensures Low(Rotl64(w as bv64, 13)) == Rotl(w, 13)
  {
  }

  lemma RotlLow18(w: bv32)
    ensures Low(Rotl64(w as bv64, 18)) == Rotl(w, 18)
  {
  }

  lemma RotlLow23(w: bv32)
    ensures Low(Rotl64(w as bv64, 23)) == Rotl(w, 23)
  {
  }

  lemma RotlLow24(w: bv32)
    ensures Low(Rotl64(w as bv64, 24)) == Rotl(w, 24)
  {
  }

  lemma LowOfWord(w: bv32)
    ensures Low(w as bv64) == w
  {
  }

  /** The rotations of a 32-bit value carried in 64 bits are right in their low half. */
  lemma SpreadLow(w: bv32)
    ensures Low(Spread(w as bv64)) == L(w)
    ensures Low(SpreadKey(w as bv64)) == LKey(w)
  {
    hide Xor, Xor64, Rotl, Rotl64, Low;
    LowXor();
    LowOfWord(w);
    RotlLow2(w);
    RotlLow10(w);
    RotlLow13(w);
    RotlLow18(w);
    RotlLow23(w);
    RotlLow24(w);
  }

  lemma SubstituteIsTau(ka: bv64)
    ensures Substitute(ka) == Tau(Low(ka)) as bv64
  {
    hide Sbox, Byte, UlongByte, Word, GetUlong;
    LowByte(ka);
    GetUlongIsWord(Sbox(UlongByte(ka, 24)), Sbox(UlongByte(ka, 16)), Sbox(UlongByte(ka, 8)), Sbox(UlongByte(ka, 0)));
  }

  lemma LtLow(ka: bv64)
    ensures Low(Lt(ka)) == T(Low(ka))
  {
    hide Sbox, Substitute, Tau, Spread, L, Low;
    SubstituteIsTau(ka);
    SpreadLow(Tau(Low(ka)));
  }

  lemma CalcRoundKeyLow(ka: bv64)
    ensures Low(CalcRoundKey(ka)) == TKey(Low(ka))
  {
    hide Sbox, Substitute, Tau, SpreadKey, LKey, Low;
    SubstituteIsTau(ka);
    SpreadLow(Tau(Low(ka)));
  }

  /** Whatever stands above bit 31 of the five words, the low half of the round value
      is the standard's. */
  lemma FLow(x0: bv64, x1: bv64, x2: bv64, x3: bv64, rk: bv64)
    ensures Low(F(x0, x1, x2, x3, rk)) == Xor(Low(x0), T(Mix(Low(x1), Low(x2), Low(x3), Low(rk))))
  {
    hide Sbox, Lt, T, Low, Xor, Xor64;
    LowXor();
    LtLow(Mix64(x1, x2, x3, rk));
  }
}
