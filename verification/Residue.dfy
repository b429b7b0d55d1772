/** Powers and congruence modulo m. */
module Residue {
  import Arith

  function Pow(b: int, e: nat): (p: int)
  {
    if e == 0 then 1 else b * Pow(b, e - 1)
  }

  lemma Distribute(r: int, g: int, p: int, h: int)
    ensures r * (g + p * h) == r * g + r * p * h
  {
  }

  lemma {:induction false} PowAdd(b: int, e: nat, f: nat)
    ensures Pow(b, e + f) == Pow(b, e) * Pow(b, f)
  {
    if e > 0 {
      PowAdd(b, e - 1, f);
    }
  }

  lemma {:induction false} PowMul(b: int, e: nat, f: nat)
    ensures e * f >= 0 && Pow(Pow(b, e), f) == Pow(b, e * f)
  {
    if f == 0 {
    } else {
      PowMul(b, e, f - 1);
      assert e * f == e + e * (f - 1);
      PowAdd(b, e, e * (f - 1));
    }
  }

  lemma {:induction false} PowSquare(b: int, e: nat)
    ensures Pow(b * b, e) == Pow(b, e) * Pow(b, e)
    ensures Pow(b * b, e) == Pow(b, 2 * e)
  {
    PowAdd(b, e, e);
    if e > 0 {
      PowSquare(b, e - 1);
      var p := Pow(b, e - 1);
      assert Pow(b, e) == b * p;
      assert b * b * (p * p) == (b * p) * (b * p);
    }
  }

  lemma {:induction false} PowPositive(b: int, e: nat)
    requires b >= 1
    ensures Pow(b, e) >= 1
  {
    if e > 0 {
      PowPositive(b, e - 1);
      assert b * Pow(b, e - 1) >= 1 by {
        if b > 1 {
          Arith.MulGe(b, Pow(b, e - 1));
        }
      }
    }
  }

  function Pow2(e: nat): (p: nat)
    ensures p >= 1
  {
    if e == 0 then 1 else 2 * Pow2(e - 1)
  }

  lemma {:induction false} Pow2Is(e: nat)
    ensures Pow2(e) == Pow(2, e)
  {
    if e > 0 {
      Pow2Is(e - 1);
    }
  }

  lemma {:induction false} Pow2Add(e: nat, f: nat)
    ensures Pow2(e + f) == Pow2(e) * Pow2(f)
  {
    Pow2Is(e);
    Pow2Is(f);
    Pow2Is(e + f);
    PowAdd(2, e, f);
  }

  ghost predicate Cong(a: int, b: int, m: nat)
    requires m > 0
  {
    (a - b) % m == 0
  }

  lemma CongBy(a: int, b: int, q: int, m: nat)
    requires m > 0 && a - b == q * m
    ensures Cong(a, b, m)
  {
    Arith.DivModUnique(a - b, q, 0, m);
  }

  lemma Quotient(a: int, b: int, m: nat) returns (q: int)
    requires m > 0 && Cong(a, b, m)
    ensures a - b == q * m
  {
    q := (a - b) / m;
  }

  lemma CongSelf(a: int, m: nat)
    requires m > 0
    ensures Cong(a, a, m)
  {
  }

  lemma CongMod(a: int, m: nat)
    requires m > 0
    ensures Cong(a % m, a, m) && Cong(a, a % m, m)
  {
    CongBy(a % m, a, -(a / m), m);
    CongBy(a, a % m, a / m, m);
  }

  lemma CongSym(a: int, b: int, m: nat)
    requires m > 0 && Cong(a, b, m)
    ensures Cong(b, a, m)
  {
    var q := Quotient(a, b, m);
    CongBy(b, a, -q, m);
  }

  lemma CongTrans(a: int, b: int, c: int, m: nat)
    requires m > 0 && Cong(a, b, m) && Cong(b, c, m)
    ensures Cong(a, c, m)
  {
    var q := Quotient(a, b, m);
    var r := Quotient(b, c, m);
    assert a - c == (q + r) * m;
    CongBy(a, c, q + r, m);
  }

  lemma CongAdd(a: int, b: int, c: int, d: int, m: nat)
    requires m > 0 && Cong(a, b, m) && Cong(c, d, m)
    ensures Cong(a + c, b + d, m) && Cong(a - c, b - d, m)
  {
    var q := Quotient(a, b, m);
    var r := Quotient(c, d, m);
    assert (a + c) - (b + d) == (q + r) * m;
    assert (a - c) - (b - d) == (q - r) * m;
    CongBy(a + c, b + d, q + r, m);
    CongBy(a - c, b - d, q - r, m);
  }

  lemma CongMul(a: int, b: int, c: int, d: int, m: nat)
    requires m > 0 && Cong(a, b, m) && Cong(c, d, m)
    ensures Cong(a * c, b * d, m)
  {
    var q := Quotient(a, b, m);
    var r := Quotient(c, d, m);
    assert a * c - b * d == (a - b) * c + b * (c - d);
    assert (a - b) * c == (q * c) * m;
    assert b * (c - d) == (b * r) * m;
    assert (q * c) * m + (b * r) * m == (q * c + b * r) * m;
    CongBy(a * c, b * d, q * c + b * r, m);
  }

  // Congruent numbers have one remainder.
  lemma CongEq(a: int, b: int, m: nat)
    requires m > 0 && Cong(a, b, m)
    ensures a % m == b % m
  {
    var q := Quotient(a, b, m);
    assert a == (q + b / m) * m + b % m by {
      assert b == (b / m) * m + b % m;
    }
    Arith.DivModUnique(a, q + b / m, b % m, m);
  }

  lemma {:induction false} CongPow(a: int, b: int, e: nat, m: nat)
    requires m > 0 && Cong(a, b, m)
    ensures Cong(Pow(a, e), Pow(b, e), m)
  {
    if e > 0 {
      CongPow(a, b, e - 1, m);
      CongMul(a, b, Pow(a, e - 1), Pow(b, e - 1), m);
    }
  }
}
