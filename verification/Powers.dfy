/** Arithmetic: exact integer powers and ceiling logarithms. They stand for the
    `std::pow` and `std::ceil(log(n) / log(b))` expressions of the sources. */
module Powers {

  function Pow(b: nat, e: nat): (r: nat)
    ensures b >= 1 ==> r >= 1
  {
    if e == 0 then 1 else b * Pow(b, e - 1)
  }

  function Pow2(e: nat): (r: nat)
    ensures r >= 1
  {
    if e == 0 then 1 else 2 * Pow2(e - 1)
  }

  lemma {:induction false} Pow2Add(a: nat, b: nat)
    ensures Pow2(a + b) == Pow2(a) * Pow2(b)
  {
    if a != 0 {
      Pow2Add(a - 1, b);
      assert 2 * (Pow2(a - 1) * Pow2(b)) == (2 * Pow2(a - 1)) * Pow2(b);
    }
  }

  lemma {:induction false} Pow2Monotone(a: nat, b: nat)
    requires a <= b
    ensures Pow2(a) <= Pow2(b)
  {
    if a < b {
      Pow2Monotone(a, b - 1);
    }
  }

  lemma PowDoubles(b: nat, e: nat)
    requires b >= 2
    ensures Pow(b, e + 1) >= 2 * Pow(b, e) > Pow(b, e)
  {
    MulMono(2, b, Pow(b, e));
  }

  /** The least e with b^e >= n. */
  function CeilLog(b: nat, n: nat): (e: nat)
    requires b >= 2
    ensures Pow(b, e) >= n
    ensures forall d: nat :: d < e ==> Pow(b, d) < n
  {
    CeilLogFrom(b, n, 0)
  }

  function CeilLogFrom(b: nat, n: nat, e: nat): (r: nat)
    requires b >= 2
    requires forall d: nat :: d < e ==> Pow(b, d) < n
    ensures Pow(b, r) >= n
    ensures forall d: nat :: d < r ==> Pow(b, d) < n
    decreases n - Pow(b, e)
  {
    if Pow(b, e) >= n then e
    else
      PowDoubles(b, e);
      CeilLogFrom(b, n, e + 1)
  }

  lemma {:induction false} Pow2IsPow(e: nat)
    ensures Pow2(e) == Pow(2, e)
  {
    if e != 0 {
      Pow2IsPow(e - 1);
    }
  }

  /** The least e with 2^e >= n, as the sources compute with two natural logs. */
  function CeilLog2(n: nat): (e: nat)
    ensures Pow2(e) >= n
    ensures forall d: nat :: d < e ==> Pow2(d) < n
  {
    var e := CeilLog(2, n);
    Pow2IsPow(e);
    assert forall d: nat :: d < e ==> Pow2(d) < n by {
      forall d: nat | d < e ensures Pow2(d) < n { Pow2IsPow(d); }
    }
    e
  }

  // ---- division without a solver for non-linear arithmetic -------------------

  lemma MulMono(a: nat, b: nat, c: nat)
    requires a <= b
    ensures a * c <= b * c
  {
  }

  lemma DivUnique(a: nat, d: nat, q: nat, r: nat)
    requires d >= 1 && r < d && a == q * d + r
    ensures a / d == q && a % d == r
  {
    var p := a / d;
    assert a == p * d + a % d;
    if p < q {
      MulMono(p + 1, q, d);
    } else if q < p {
      MulMono(q + 1, p, d);
    }
  }

  function Div(a: nat, d: nat): nat
    requires d >= 1
  {
    a / d
  }

  lemma DivLess(a: nat, b: nat, d: nat)
    requires d >= 1 && a < b * d
    ensures a / d < b
  {
    if a / d >= b {
      MulMono(b, a / d, d);
    }
  }

  lemma DivDiv(a: nat, d: nat)
    requires d >= 1
    ensures a / (2 * d) == (a / d) / 2
  {
    var q := a / d;
    assert a == q * d + a % d;
    var h := q / 2;
    assert q == 2 * h + q % 2;
    assert a == h * (2 * d) + ((q % 2) * d + a % d);
    assert 0 <= (q % 2) * d + a % d < 2 * d by {
      if q % 2 == 0 { } else { assert q % 2 == 1; }
    }
    DivUnique(a, 2 * d, h, (q % 2) * d + a % d);
  }

  lemma ModShift(i: nat, d: nat)
    requires d >= 1
    ensures (i + d) % d == i % d
  {
    var q := i / d;
    assert i + d == (q + 1) * d + i % d;
    DivUnique(i + d, d, q + 1, i % d);
  }
}
