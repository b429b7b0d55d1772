/**
  The transform undone. Powers of a root of unity sum to zero over a full round
  unless they are one, whether the modulus is prime or not; so transforming with
  the inverse root and dividing by the length gives the input back, and reading
  the result at the root itself gives the product of the two inputs.
 */
module Inverse {
  import opened Residue
  import opened Transform
  import Arith

  // 1 + r + ... + r^(n-1)
  function Geo(r: int, n: nat): int {
    if n == 0 then 0 else 1 + r * Geo(r, n - 1)
  }

  lemma {:induction false} GeoAdd(r: int, a: nat, b: nat)
    ensures Geo(r, a + b) == Geo(r, a) + Pow(r, a) * Geo(r, b)
  {
    if a > 0 {
      GeoAdd(r, a - 1, b);
      Distribute(r, Geo(r, a - 1), Pow(r, a - 1), Geo(r, b));
    }
  }

  lemma {:induction false} GeoCong(r: int, s: int, n: nat, m: nat)
    requires m > 0 && Cong(r, s, m)
    ensures Cong(Geo(r, n), Geo(s, n), m)
  {
    if n > 0 {
      GeoCong(r, s, n - 1, m);
      CongMul(r, s, Geo(r, n - 1), Geo(s, n - 1), m);
      CongSelf(1, m);
      CongAdd(1, 1, r * Geo(r, n - 1), s * Geo(s, n - 1), m);
    }
  }

  lemma {:induction false} GeoOfOne(n: nat)
    ensures Geo(1, n) == n
  {
    if n > 0 {
      GeoOfOne(n - 1);
    }
  }

  lemma GeoDouble(r: int, h: nat, m: nat)
    requires m > 0 && (Cong(Pow(r, h), -1, m) || Cong(Geo(r, h), 0, m))
    ensures Cong(Geo(r, h + h), 0, m)
  {
    GeoAdd(r, h, h);
    var g, p := Geo(r, h), Pow(r, h);
    assert Geo(r, h + h) == (1 + p) * g by {
      assert (1 + p) * g == g + p * g;
    }
    CongSelf(1 + p, m);
    CongSelf(g, m);
    CongSelf(1, m);
    if Cong(p, -1, m) {
      CongAdd(1, 1, p, -1, m);
      CongMul(1 + p, 0, g, g, m);
    } else {
      CongMul(1 + p, 1 + p, g, 0, m);
    }
  }

  lemma {:induction false} OddPowOfMinusOne(e: nat)
    requires e % 2 == 1
    ensures Pow(-1, e) == -1
  {
    if e > 1 {
      OddPowOfMinusOne(e - 2);
      assert Pow(-1, e) == -1 * (-1 * Pow(-1, e - 2));
    }
  }

  lemma OddPower(w: int, h: nat, e: nat, m: nat)
    requires m > 0 && Cong(Pow(w, h), -1, m) && e % 2 == 1
    ensures Cong(Pow(Pow(w, e), h), -1, m)
  {
    PowMul(w, e, h);
    PowMul(w, h, e);
    assert e * h == h * e;
    CongPow(Pow(w, h), -1, e, m);
    OddPowOfMinusOne(e);
  }

  lemma HalfExponent(e: nat, n: nat)
    requires n >= 2 && n % 2 == 0 && e % 2 == 0 && e % n != 0
    ensures e / 2 % (n / 2) != 0
  {
    var f, h := e / 2, n / 2;
    if f % h == 0 {
      var q := f / h;
      assert f == q * h;
      assert e == q * n by {
        assert e == 2 * f && n == 2 * h;
        assert 2 * (q * h) == q * (2 * h);
      }
      Arith.DivModUnique(e, q, 0, n);
    }
  }

  // A power of the root that is not one sums to zero.
  lemma {:induction false} Orthogonal(w: int, n: nat, e: nat, m: nat)
    requires m > 0 && PowerOfTwo(n) && n >= 2 && Cong(Pow(w, n / 2), -1, m) && e % n != 0
    ensures Cong(Geo(Pow(w, e), n), 0, m)
    decreases n
  {
    var h := n / 2;
    if e % 2 == 1 {
      OddPower(w, h, e, m);
    } else {
      HalfExponent(e, n);
      assert n != 2;
      HalfOf(n);
      PowSquare(w, e / 2);
      PowSquare(w, h / 2);
      Orthogonal(w * w, h, e / 2, m);
    }
    GeoDouble(Pow(w, e), h, m);
  }

  lemma FullPower(w: int, n: nat, m: nat)
    requires m > 0 && n >= 2 && n % 2 == 0 && Cong(Pow(w, n / 2), -1, m)
    ensures Cong(Pow(w, n), 1, m)
  {
    PowAdd(w, n / 2, n / 2);
    CongMul(Pow(w, n / 2), -1, Pow(w, n / 2), -1, m);
  }

  lemma RoundPower(w: int, n: nat, e: nat, m: nat)
    requires m > 0 && n >= 2 && n % 2 == 0 && Cong(Pow(w, n / 2), -1, m) && e % n == 0
    ensures Cong(Pow(w, e), 1, m)
  {
    var q := e / n;
    assert e == n * q;
    FullPower(w, n, m);
    PowMul(w, n, q);
    CongPow(Pow(w, n), 1, q, m);
    OnePow(q);
  }

  lemma GeoOfRoot(w: int, n: nat, e: nat, m: nat)
    requires m > 0 && PowerOfTwo(n) && n >= 2 && Cong(Pow(w, n / 2), -1, m)
    ensures Cong(Geo(Pow(w, e), n), if e % n == 0 then n else 0, m)
  {
    if e % n == 0 {
      RoundPower(w, n, e, m);
      GeoCong(Pow(w, e), 1, n, m);
      GeoOfOne(n);
    } else {
      Orthogonal(w, n, e, m);
    }
  }

  // ------------------------------------------------------- exchanging the sums

  // The polynomial at the first n powers of v, not reduced.
  function Values(a: seq<int>, v: int, n: nat): (d: seq<int>)
    ensures |d| == n
  {
    seq(n, k requires 0 <= k < n => Eval(a, Pow(v, k)))
  }

  // The same double sum by coefficients.
  function Crossed(a: seq<int>, v: int, s: int, n: nat): int {
    if a == [] then 0 else a[0] * Geo(s, n) + Crossed(a[1..], v, v * s, n)
  }

  // c + p * v^k * b[k]
  function Shifted(b: seq<int>, c: int, p: int, v: int): (d: seq<int>)
    ensures |d| == |b|
  {
    if b == [] then [] else [c + p * b[0]] + Shifted(b[1..], c, p * v, v)
  }

  lemma {:induction false} ShiftedAt(b: seq<int>, c: int, p: int, v: int, k: nat)
    requires k < |b|
    ensures Shifted(b, c, p, v)[k] == c + p * Pow(v, k) * b[k]
  {
    if k > 0 {
      ShiftedAt(b[1..], c, p * v, v, k - 1);
      assert p * v * Pow(v, k - 1) == p * Pow(v, k);
    }
  }

  lemma ShiftAlgebra(c: int, p: int, b: int, v: int, s: int, g: int, e: int)
    ensures c + p * b + s * (c * g + p * v * e) == c * (1 + s * g) + p * (b + v * s * e)
  {
    assert s * (c * g + p * v * e) == c * (s * g) + p * (v * s * e);
  }

  lemma {:induction false} EvalShifted(b: seq<int>, c: int, p: int, v: int, s: int)
    ensures Eval(Shifted(b, c, p, v), s) == c * Geo(s, |b|) + p * Eval(b, v * s)
  {
    if b != [] {
      EvalShifted(b[1..], c, p * v, v, s);
      assert Shifted(b, c, p, v)[1..] == Shifted(b[1..], c, p * v, v);
      ShiftAlgebra(c, p, b[0], v, s, Geo(s, |b| - 1), Eval(b[1..], v * s));
    }
  }

  lemma ValuesShifted(a: seq<int>, v: int, n: nat)
    requires a != []
    ensures Values(a, v, n) == Shifted(Values(a[1..], v, n), a[0], 1, v)
  {
    forall k | 0 <= k < n
      ensures Values(a, v, n)[k] == Shifted(Values(a[1..], v, n), a[0], 1, v)[k]
    {
      ShiftedAt(Values(a[1..], v, n), a[0], 1, v, k);
    }
  }

  lemma {:induction false} Exchange(a: seq<int>, v: int, s: int, n: nat)
    ensures Eval(Values(a, v, n), s) == Crossed(a, v, s, n)
  {
    if a == [] {
      ZeroEval(Values(a, v, n), s);
    } else {
      ValuesShifted(a, v, n);
      EvalShifted(Values(a[1..], v, n), a[0], 1, v, s);
      Exchange(a[1..], v, v * s, n);
    }
  }

  lemma {:induction false} ZeroEval(z: seq<int>, s: int)
    requires forall i | 0 <= i < |z| :: z[i] == 0
    ensures Eval(z, s) == 0
  {
    if z != [] {
      ZeroEval(z[1..], s);
    }
  }

  // The coefficients whose exponent q + p * j goes full rounds.
  function Picked(a: seq<int>, p: nat, q: nat, n: nat): int
    requires n > 0
  {
    if a == [] then 0 else (if q % n == 0 then a[0] else 0) + Picked(a[1..], p, q + p, n)
  }

  lemma Collect(n: nat, f: int, rest: int)
    ensures n * f + n * rest == n * (f + rest)
  {
  }

  lemma {:induction false} CrossedIsPicked(a: seq<int>, w: int, p: nat, q: nat, v: int, s: int, n: nat, m: nat)
    requires m > 0 && PowerOfTwo(n) && n >= 2 && Cong(Pow(w, n / 2), -1, m)
    requires Cong(v, Pow(w, p), m) && Cong(s, Pow(w, q), m)
    ensures Cong(Crossed(a, v, s, n), n * Picked(a, p, q, n), m)
  {
    if a == [] {
      CongSelf(0, m);
    } else {
      GeoCong(s, Pow(w, q), n, m);
      GeoOfRoot(w, n, q, m);
      var g := if q % n == 0 then n else 0;
      CongTrans(Geo(s, n), Geo(Pow(w, q), n), g, m);
      CongSelf(a[0], m);
      CongMul(a[0], a[0], Geo(s, n), g, m);
      CongMul(v, Pow(w, p), s, Pow(w, q), m);
      PowAdd(w, p, q);
      assert p + q == q + p;
      CrossedIsPicked(a[1..], w, p, q + p, v, v * s, n, m);
      CongAdd(a[0] * Geo(s, n), a[0] * g, Crossed(a[1..], v, v * s, n), n * Picked(a[1..], p, q + p, n), m);
      Collect(n, if q % n == 0 then a[0] else 0, Picked(a[1..], p, q + p, n));
    }
  }

  // Coefficient i is picked.
  predicate Round(p: nat, q: nat, i: nat, n: nat)
    requires n > 0
  {
    (q + p * i) % n == 0
  }

  lemma {:induction false} PickedNone(a: seq<int>, p: nat, q: nat, n: nat)
    requires n > 0 && forall i: nat | i < |a| :: !Round(p, q, i, n)
    ensures Picked(a, p, q, n) == 0
  {
    if a != [] {
      assert !Round(p, q, 0, n);
      var q' := q + p;
      forall i: nat | i < |a| - 1
        ensures !Round(p, q', i, n)
      {
        assert !Round(p, q, i + 1, n);
        assert q + p * (i + 1) == q' + p * i;
      }
      PickedNone(a[1..], p, q', n);
    }
  }

  lemma {:induction false} PickedOne(a: seq<int>, p: nat, q: nat, n: nat, j: nat)
    requires n > 0 && j < |a| && forall i: nat | i < |a| :: Round(p, q, i, n) <==> i == j
    ensures Picked(a, p, q, n) == a[j]
  {
    assert Round(p, q, 0, n) <==> 0 == j;
    var q' := q + p;
    forall i: nat | i < |a| - 1
      ensures Round(p, q', i, n) <==> i + 1 == j
    {
      assert Round(p, q, i + 1, n) <==> i + 1 == j;
      assert q + p * (i + 1) == q' + p * i;
    }
    if j == 0 {
      PickedNone(a[1..], p, q', n);
    } else {
      PickedOne(a[1..], p, q', n, j - 1);
    }
  }

  // ------------------------------------------------------------------ results

  // Evaluating a reduced transform.
  lemma EvalDft(a: seq<int>, v: int, s: int, m: nat)
    requires m > 0
    ensures Cong(Eval(Dft(a, v, m), s), Crossed(a, v, s, |a|), m)
  {
    Exchange(a, v, s, |a|);
    forall k | 0 <= k < |a|
      ensures Cong(Dft(a, v, m)[k], Values(a, v, |a|)[k], m)
    {
      CongMod(Eval(a, Pow(v, k)), m);
    }
    CongSelf(s, m);
    EvalCong(Dft(a, v, m), Values(a, v, |a|), s, s, m);
  }

  // The inverse root is a power of the root.
  lemma InverseRoot(w: int, wr: int, n: nat, m: nat)
    requires m > 0 && n >= 2 && n % 2 == 0 && Cong(Pow(w, n / 2), -1, m) && Cong(w * wr, 1, m)
    ensures Cong(wr, Pow(w, n - 1), m)
  {
    FullPower(w, n, m);
    var p := Pow(w, n - 1);
    assert Pow(w, n) == w * p;
    CongSelf(wr, m);
    CongSym(Pow(w, n), 1, m);
    CongMul(wr, wr, 1, Pow(w, n), m);
    assert wr * Pow(w, n) == (w * wr) * p;
    CongSelf(p, m);
    CongMul(w * wr, 1, p, p, m);
    CongTrans(wr, wr * Pow(w, n), p, m);
  }

  lemma RoundsOfInverse(n: nat, i: nat, j: nat)
    requires i < n && j < n
    ensures (n - 1) * i >= 0 && (((n - 1) * i + 1 * j) % n == 0 <==> j == i)
  {
    assert (n - 1) * i == n * i - i;
    if j >= i {
      Arith.DivModUnique(n * i - i + j, i, j - i, n);
    } else {
      assert (i - 1) * n == n * i - n;
      Arith.DivModUnique(n * i - i + j, i - 1, n + j - i, n);
    }
  }

  // The double sum of the transform forth and back keeps coefficient i alone.
  lemma CrossedInverse(a: seq<int>, w: int, wr: int, m: nat, i: nat)
    requires m >= 3 && |a| >= 2 && Root(w, |a|, m) && Cong(w * wr, 1, m) && i < |a|
    ensures Cong(Crossed(a, w, Pow(wr, i), |a|), |a| * a[i], m)
  {
    var n, e := |a|, (|a| - 1) * i;
    InverseRoot(w, wr, n, m);
    CongPow(wr, Pow(w, n - 1), i, m);
    PowMul(w, n - 1, i);
    assert Pow(w, 1) == w * Pow(w, 0);
    CongSelf(w, m);
    CrossedIsPicked(a, w, 1, e, w, Pow(wr, i), n, m);
    forall j: nat | j < n
      ensures Round(1, e, j, n) <==> j == i
    {
      RoundsOfInverse(n, i, j);
    }
    PickedOne(a, 1, e, n, i);
  }

  lemma BackTransformed(a: seq<int>, w: int, wr: int, m: nat, i: nat)
    requires m >= 3 && |a| >= 2 && Root(w, |a|, m) && Cong(w * wr, 1, m) && i < |a|
    ensures Cong(Dft(Dft(a, w, m), wr, m)[i], |a| * a[i], m)
  {
    var s := Pow(wr, i);
    EvalDft(a, w, s, m);
    CrossedInverse(a, w, wr, m, i);
    var t := Eval(Dft(a, w, m), s);
    CongTrans(t, Crossed(a, w, s, |a|), |a| * a[i], m);
    CongMod(t, m);
    CongTrans(t % m, t, |a| * a[i], m);
  }

  // Transforming forth and back, and dividing by the length, is the identity.
  lemma TransformInverts(a: seq<int>, w: int, wr: int, nr: int, m: nat, i: nat)
    requires m >= 3 && |a| >= 2 && Root(w, |a|, m) && Cong(w * wr, 1, m) && Cong(|a| * nr, 1, m)
    requires i < |a| && 0 <= a[i] < m
    ensures Dft(Dft(a, w, m), wr, m)[i] * nr % m == a[i]
  {
    BackTransformed(a, w, wr, m, i);
    Divide(Dft(Dft(a, w, m), wr, m)[i], |a|, a[i], nr, m);
    Arith.DivModUnique(a[i], 0, a[i], m);
  }

  lemma Divide(u: int, n: nat, x: int, nr: int, m: nat)
    requires m > 0 && Cong(u, n * x, m) && Cong(n * nr, 1, m)
    ensures u * nr % m == x % m
  {
    CongSelf(nr, m);
    CongSelf(x, m);
    CongMul(u, n * x, nr, nr, m);
    CongMul(n * nr, 1, x, x, m);
    assert n * x * nr == n * nr * x;
    CongTrans(u * nr, n * nr * x, x, m);
    CongEq(u * nr, x, m);
  }

  lemma RoundsOfRoot(n: nat, j: nat)
    requires n >= 2 && j < n
    ensures (n - 1) * j >= 0 && ((1 + (n - 1) * j) % n == 0 <==> j == 1)
  {
    assert (n - 1) * j == n * j - j;
    if j == 0 {
      Arith.DivModUnique(1, 0, 1, n);
    } else if j == 1 {
      Arith.DivModUnique(n, 1, 0, n);
    } else {
      assert (j - 1) * n == n * j - n;
      Arith.DivModUnique(1 + n * j - j, j - 1, n + 1 - j, n);
    }
  }

  // Transforming back and reading the polynomial at the root picks out the
  // second value of the transform.
  lemma ReadAtRoot(c: seq<int>, w: int, wr: int, nr: int, m: nat)
    requires m >= 3 && |c| >= 2 && Root(w, |c|, m) && Cong(w * wr, 1, m) && Cong(|c| * nr, 1, m)
    ensures Eval(Dft(c, wr, m), w) * nr % m == c[1] % m
  {
    var n, p := |c|, |c| - 1;
    InverseRoot(w, wr, n, m);
    EvalDft(c, wr, w, m);
    assert Pow(w, 1) == w * Pow(w, 0);
    CongSelf(w, m);
    CrossedIsPicked(c, w, p, 1, wr, w, n, m);
    forall j: nat | j < n
      ensures Round(p, 1, j, n) <==> j == 1
    {
      RoundsOfRoot(n, j);
    }
    PickedOne(c, p, 1, n, 1);
    CongTrans(Eval(Dft(c, wr, m), w), Crossed(c, wr, w, n), n * c[1], m);
    Divide(Eval(Dft(c, wr, m), w), n, c[1], nr, m);
  }
}
