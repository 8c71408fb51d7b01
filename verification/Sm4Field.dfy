/** What the S-box of SM4 is: inversion in a field of 256 elements between two affine maps. */
module Sm4Field {
  import opened Sm4Tables

  // ---- GF(2^8) modulo x^8 + x^7 + x^6 + x^5 + x^4 + x^2 + 1 -----------------

  function Plus(a: bv8, b: bv8): bv8 {
    a ^ b
  }

  function TimesX(a: bv8): bv8 {
    (a << 1) ^ (if a & 0x80 != 0 then 0xf5 else 0)
  }

  /** The bits of b, the lowest first. */
  function Bits(b: bv8): (r: seq<bool>)
    ensures |r| == 8
  {
    [b & 0x01 != 0, b & 0x02 != 0, b & 0x04 != 0, b & 0x08 != 0,
     b & 0x10 != 0, b & 0x20 != 0, b & 0x40 != 0, b & 0x80 != 0]
  }

  function If(bit: bool, a: bv8): bv8 {
    if bit then a else 0
  }

  /** The sum of a * x^i over the bits i that are set, by Horner's rule. */
  function Horner(a: bv8, bits: seq<bool>): bv8 {
    if bits == [] then 0 else Plus(If(bits[0], a), TimesX(Horner(a, bits[1..])))
  }

  function Times(a: bv8, b: bv8): bv8 {
    Horner(a, Bits(b))
  }

  /** w is the inverse of z, that of 0 being 0. */
  ghost predicate Inverse(z: bv8, w: bv8) {
    if z == 0 then w == 0 else Times(z, w) == 1
  }

  // ---- the affine map -------------------------------------------------------

  function Parity(y: bv8): bv8 {
    (y ^ (y >> 1) ^ (y >> 2) ^ (y >> 3) ^ (y >> 4) ^ (y >> 5) ^ (y >> 6) ^ (y >> 7)) & 1
  }

  function RotatedA7(i: nat): bv8
    requires i < 8
  {
    (0xa7 << i) | (0xa7 >> (8 - i))
  }

  /** Bit i is the parity of the bits of y that 0xa7, rotated by i, selects. */
  function A(y: bv8): bv8 {
    Parity(RotatedA7(0) & y) | (Parity(RotatedA7(1) & y) << 1) | (Parity(RotatedA7(2) & y) << 2)
      | (Parity(RotatedA7(3) & y) << 3) | (Parity(RotatedA7(4) & y) << 4) | (Parity(RotatedA7(5) & y) << 5)
      | (Parity(RotatedA7(6) & y) << 6) | (Parity(RotatedA7(7) & y) << 7)
  }

  function Affine(y: bv8): bv8 {
    A(y) ^ 0xd3
  }

  /** The map undone. */
  function AffineInverse(y: bv8): bv8 {
    var b := y ^ 0xd3;
    If(b & 0x01 != 0, 0x85) ^ If(b & 0x02 != 0, 0x0b) ^ If(b & 0x04 != 0, 0x16) ^ If(b & 0x08 != 0, 0x2c)
      ^ If(b & 0x10 != 0, 0x58) ^ If(b & 0x20 != 0, 0xb0) ^ If(b & 0x40 != 0, 0x61) ^ If(b & 0x80 != 0, 0xc2)
  }

  lemma AffineUndone(y: bv8)
    ensures Affine(AffineInverse(y)) == y && AffineInverse(Affine(y)) == y
  {
  }

  // ---- inverses are unique --------------------------------------------------

  lemma TimesXSum(a: bv8, b: bv8)
    ensures TimesX(Plus(a, b)) == Plus(TimesX(a), TimesX(b))
  {
    assert (a ^ b) << 1 == (a << 1) ^ (b << 1);
    assert (a ^ b) & 0x80 == (a & 0x80) ^ (b & 0x80);
    if a & 0x80 != 0 {
      if b & 0x80 != 0 { }
    } else if b & 0x80 != 0 { }
  }

  lemma Regroup(a: bv8, b: bv8, c: bv8, d: bv8)
    ensures Plus(Plus(a, b), Plus(c, d)) == Plus(Plus(a, c), Plus(b, d))
    ensures Plus(0, a) == Plus(a, 0) == a
  {
  }

  lemma {:induction false} HornerSum(a: bv8, c: bv8, bits: seq<bool>)
    ensures Horner(Plus(a, c), bits) == Plus(Horner(a, bits), Horner(c, bits))
  {
    hide TimesX, Plus;
    Regroup(0, 0, 0, 0);
    if bits != [] {
      var p, q := Horner(a, bits[1..]), Horner(c, bits[1..]);
      HornerSum(a, c, bits[1..]);
      TimesXSum(p, q);
      Regroup(If(bits[0], a), If(bits[0], c), TimesX(p), TimesX(q));
    }
  }

  lemma TimesXZero()
    ensures TimesX(0) == 0
  {
  }

  lemma {:induction false} HornerTimesX(a: bv8, bits: seq<bool>)
    ensures Horner(TimesX(a), bits) == TimesX(Horner(a, bits)) && Horner(0, bits) == 0
  {
    hide TimesX, Plus;
    TimesXZero();
    Regroup(0, 0, 0, 0);
    if bits != [] {
      HornerTimesX(a, bits[1..]);
      TimesXSum(If(bits[0], a), TimesX(Horner(a, bits[1..])));
    }
  }

  /** It makes no difference which of two factors comes first. */
  lemma {:induction false} HornerCommutes(a: bv8, b: seq<bool>, c: seq<bool>)
    ensures Horner(Horner(a, b), c) == Horner(Horner(a, c), b)
    decreases |b|
  {
    hide TimesX, Plus;
    HornerTimesX(a, c);
    if b != [] {
      var rest := Horner(a, b[1..]);
      HornerCommutes(a, b[1..], c);
      HornerSum(If(b[0], a), TimesX(rest), c);
      HornerTimesX(rest, c);
    }
  }

  lemma Unrolled(a: bv8, b: bv8)
    ensures Times(a, b) ==
              Plus(If(b & 0x01 != 0, a), TimesX(Plus(If(b & 0x02 != 0, a), TimesX(Plus(If(b & 0x04 != 0, a),
              TimesX(Plus(If(b & 0x08 != 0, a), TimesX(Plus(If(b & 0x10 != 0, a), TimesX(Plus(If(b & 0x20 != 0, a),
              TimesX(Plus(If(b & 0x40 != 0, a), TimesX(Plus(If(b & 0x80 != 0, a), TimesX(0))))))))))))))))
  {
    hide TimesX, If, Plus, Horner;
    var s := Bits(b);
    HornerStep(a, s, 0);
    HornerStep(a, s, 1);
    HornerStep(a, s, 2);
    HornerStep(a, s, 3);
    HornerStep(a, s, 4);
    HornerStep(a, s, 5);
    HornerStep(a, s, 6);
    HornerStep(a, s, 7);
    HornerEnd(a, s);
  }

  lemma HornerStep(a: bv8, s: seq<bool>, i: nat)
    requires i < |s|
    ensures Horner(a, s[i..]) == Plus(If(s[i], a), TimesX(Horner(a, s[i + 1..])))
  {
    assert s[i..][1..] == s[i + 1..];
  }

  lemma HornerEnd(a: bv8, s: seq<bool>)
    ensures Horner(a, s[|s|..]) == 0 && s[0..] == s
  {
  }

  lemma OneTimes(w: bv8)
    ensures Times(1, w) == w
  {
    Unrolled(1, w);
    hide Times;
  }

  lemma InverseUnique(z: bv8, v: bv8, w: bv8)
    requires Inverse(z, v) && Inverse(z, w)
    ensures v == w
  {
    OneTimes(v);
    OneTimes(w);
    hide Horner, Bits;
    HornerCommutes(z, Bits(v), Bits(w));
  }

  // ---- the table ------------------------------------------------------------

  lemma UpperRows(x: bv8)
    requires x < 0x80
    ensures Inverse(Affine(x), AffineInverse(Sbox(x)))
  {
    Unrolled(Affine(x), AffineInverse(Sbox(x)));
    hide Times;
  }

  lemma LowerRows(x: bv8)
    requires x >= 0x80
    ensures Inverse(Affine(x), AffineInverse(Sbox(x)))
  {
    Unrolled(Affine(x), AffineInverse(Sbox(x)));
    hide Times;
  }

  /** Every entry of the table is the affine map of the inverse of the affine map. */
  lemma SboxRule(x: bv8, w: bv8)
    ensures Sbox(x) == Affine(w) <==> Inverse(Affine(x), w)
  {
    if x < 0x80 {
      UpperRows(x);
    } else {
      LowerRows(x);
    }
    AffineUndone(Sbox(x));
    AffineUndone(w);
    hide Inverse, Affine, AffineInverse, Sbox;
    if Inverse(Affine(x), w) {
      InverseUnique(Affine(x), AffineInverse(Sbox(x)), w);
    }
  }
}
