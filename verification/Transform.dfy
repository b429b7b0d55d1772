/**
  The number-theoretic transform of test_progs/dft.c: a recursive in-place
  transform over residues modulo m, and the multiplication built on it. With a
  transform length n, a power of two, the modulus is 2^(n/2) + 1 and 2 is the
  root; the program has n = 8 and m = 17.
 */
module Transform {
  import opened Residue
  import Arith

  // The polynomial with coefficients a, at r.
  function Eval(a: seq<int>, r: int): int {
    if a == [] then 0 else a[0] + r * Eval(a[1..], r)
  }

  // The transform: the polynomial at the powers of root.
  function Dft(a: seq<int>, root: int, m: nat): (t: seq<int>)
    requires m > 0
    ensures |t| == |a|
    ensures forall k | 0 <= k < |a| :: 0 <= t[k] < m
  {
    seq(|a|, k requires 0 <= k < |a| => Eval(a, Pow(root, k)) % m)
  }

  function Evens(a: seq<int>): (e: seq<int>)
    ensures |e| == |a| / 2
  {
    seq(|a| / 2, i requires 0 <= i < |a| / 2 => a[2 * i])
  }

  function Odds(a: seq<int>): (o: seq<int>)
    ensures |o| == |a| / 2
  {
    seq(|a| / 2, i requires 0 <= i < |a| / 2 => a[2 * i + 1])
  }

  predicate PowerOfTwo(n: nat) {
    n == 1 || (n >= 2 && n % 2 == 0 && PowerOfTwo(n / 2))
  }

  // root is a residue whose half-length power is minus one.
  ghost predicate Root(root: int, len: nat, m: nat)
    requires m > 0
  {
    && PowerOfTwo(len) && 0 <= root < m
    && (if len == 1 then root == 1 else Cong(Pow(root, len / 2), -1, m))
  }

  // ---------------------------------------------------------- evaluation

  lemma {:induction false} EvalCong(a: seq<int>, b: seq<int>, r: int, s: int, m: nat)
    requires m > 0 && |a| == |b| && Cong(r, s, m)
    requires forall i | 0 <= i < |a| :: Cong(a[i], b[i], m)
    ensures Cong(Eval(a, r), Eval(b, s), m)
  {
    if a == [] {
      CongSelf(0, m);
    } else {
      EvalCong(a[1..], b[1..], r, s, m);
      CongMul(r, s, Eval(a[1..], r), Eval(b[1..], s), m);
      CongAdd(a[0], b[0], r * Eval(a[1..], r), s * Eval(b[1..], s), m);
    }
  }

  lemma EvalAt(a: seq<int>, r: int, s: int, m: nat)
    requires m > 0 && Cong(r, s, m)
    ensures Cong(Eval(a, r), Eval(a, s), m)
  {
    EvalCong(a, a, r, s, m);
  }

  lemma SplitAlgebra(a: int, b: int, r: int, e: int, o: int)
    ensures a + r * (b + r * (e + r * o)) == (a + r * r * e) + r * (b + r * r * o)
  {
    var u := r * o;
    assert r * (e + u) == r * e + r * u;
    assert r * (b + (r * e + r * u)) == r * b + r * (r * e) + r * (r * u);
    assert r * (b + r * r * o) == r * b + r * (r * r * o);
    assert r * (r * u) == r * (r * r * o) && r * (r * e) == r * r * e;
  }

  lemma {:induction false} EvalSplit(a: seq<int>, r: int)
    requires |a| % 2 == 0
    ensures Eval(a, r) == Eval(Evens(a), r * r) + r * Eval(Odds(a), r * r)
  {
    if a != [] {
      EvalSplit(a[2..], r);
      assert Evens(a)[1..] == Evens(a[2..]) && Odds(a)[1..] == Odds(a[2..]);
      assert a[1..][1..] == a[2..];
      SplitAlgebra(a[0], a[1], r, Eval(Evens(a[2..]), r * r), Eval(Odds(a[2..]), r * r));
    }
  }

  // --------------------------------------------------------------- recursion

  lemma SquareOfMinusOne(root: int, m: nat)
    requires m >= 3 && Cong(root, -1, m)
    ensures root * root % m == 1
  {
    CongMul(root, -1, root, -1, m);
    CongEq(root * root, 1, m);
  }

  lemma HalfPowSquare(root: int, q: nat, m: nat)
    requires m >= 3 && Cong(Pow(root, 2 * q), -1, m)
    ensures Cong(Pow(root * root % m, q), -1, m)
  {
    CongMod(root * root, m);
    CongPow(root * root % m, root * root, q, m);
    PowSquare(root, q);
    CongTrans(Pow(root * root % m, q), Pow(root, 2 * q), -1, m);
  }

  lemma HalfOf(len: nat)
    requires PowerOfTwo(len) && len > 2
    ensures len / 2 % 2 == 0 && 2 * (len / 4) == len / 2 && len / 2 / 2 == len / 4 && len / 2 != 1
  {
    assert PowerOfTwo(len / 2);
  }

  lemma RootSquare(root: int, len: nat, m: nat)
    requires m >= 3 && len >= 2 && Root(root, len, m)
    ensures Root(root * root % m, len / 2, m)
  {
    if len == 2 {
      assert Pow(root, 1) == root * Pow(root, 0);
      SquareOfMinusOne(root, m);
    } else {
      HalfOf(len);
      HalfPowSquare(root, len / 4, m);
    }
  }

  // The recursion stops at root one exactly when the length is one.
  lemma StopsAtLengthOne(root: int, len: nat, m: nat)
    requires m >= 3 && Root(root, len, m)
    ensures root == 1 <==> len == 1
  {
    if root == 1 && len != 1 {
      OnePow(len / 2);
      Arith.DivModUnique(-1, -1, m - 1, m);
      CongEq(1, -1, m);
    }
  }

  lemma {:induction false} OnePow(e: nat)
    ensures Pow(1, e) == 1
  {
    if e > 0 {
      OnePow(e - 1);
    }
  }

  // Both halves of the transform from the transforms of the two subsequences.
  lemma HalfEval(a: seq<int>, root: int, i: nat, r: int, root2: int, x: int, y: int, base: int, m: nat)
    requires m > 0 && |a| % 2 == 0 && Cong(root2, root * root, m)
    requires x == Eval(Evens(a), Pow(root2, i)) % m && y == Eval(Odds(a), Pow(root2, i)) % m
    requires r * r == Pow(root, i) * Pow(root, i) && Cong(base, r, m)
    ensures Cong(x + base * y, Eval(a, r), m)
  {
    var e, o := Eval(Evens(a), r * r), Eval(Odds(a), r * r);
    SquaredPow(root, root2, i, m);
    EvalAt(Evens(a), Pow(root2, i), r * r, m);
    EvalAt(Odds(a), Pow(root2, i), r * r, m);
    CongMod(Eval(Evens(a), Pow(root2, i)), m);
    CongMod(Eval(Odds(a), Pow(root2, i)), m);
    CongTrans(x, Eval(Evens(a), Pow(root2, i)), e, m);
    CongTrans(y, Eval(Odds(a), Pow(root2, i)), o, m);
    CongMul(base, r, y, o, m);
    CongAdd(x, e, base * y, r * o, m);
    EvalSplit(a, r);
  }

  lemma SquaredPow(root: int, root2: int, i: nat, m: nat)
    requires m > 0 && Cong(root2, root * root, m)
    ensures Cong(Pow(root2, i), Pow(root, i) * Pow(root, i), m)
  {
    CongPow(root2, root * root, i, m);
    PowSquare(root, i);
  }

  lemma PlusHalf(a: seq<int>, root: int, root2: int, i: nat, x: int, y: int, base: int, m: nat)
    requires m >= 3 && |a| % 2 == 0 && Cong(root2, root * root, m)
    requires x == Eval(Evens(a), Pow(root2, i)) % m && y == Eval(Odds(a), Pow(root2, i)) % m
    requires Cong(base, Pow(root, i), m)
    ensures (x + base * y) % m == Eval(a, Pow(root, i)) % m
  {
    HalfEval(a, root, i, Pow(root, i), root2, x, y, base, m);
    CongEq(x + base * y, Eval(a, Pow(root, i)), m);
  }

  lemma MinusHalf(a: seq<int>, root: int, root2: int, i: nat, h: nat, x: int, y: int, base: int, m: nat)
    requires m >= 3 && |a| % 2 == 0 && Cong(root2, root * root, m) && Cong(Pow(root, h), -1, m)
    requires x == Eval(Evens(a), Pow(root2, i)) % m && y == Eval(Odds(a), Pow(root2, i)) % m
    requires Cong(base, Pow(root, i), m)
    ensures (x - base * y) % m == Eval(a, Pow(root, i + h)) % m
  {
    var r := Pow(root, i);
    CongSelf(0, m);
    CongAdd(0, 0, base, r, m);
    Negate(r, base, y);
    HalfEval(a, root, i, -r, root2, x, y, -base, m);
    MinusPow(root, i, h, m);
    EvalAt(a, -r, Pow(root, i + h), m);
    CongTrans(x - base * y, Eval(a, -r), Eval(a, Pow(root, i + h)), m);
    CongEq(x - base * y, Eval(a, Pow(root, i + h)), m);
  }

  lemma Negate(r: int, base: int, y: int)
    ensures -r * -r == r * r && -base * y == -(base * y)
  {
  }

  lemma Butterfly(a: seq<int>, root: int, i: nat, x: int, y: int, base: int, m: nat)
    requires m >= 3 && |a| >= 2 && Root(root, |a|, m) && i < |a| / 2
    requires x == Dft(Evens(a), root * root % m, m)[i] && y == Dft(Odds(a), root * root % m, m)[i]
    requires Cong(base, Pow(root, i), m)
    ensures (x + base * y) % m == Dft(a, root, m)[i]
    ensures (x - base * y) % m == Dft(a, root, m)[i + |a| / 2]
  {
    CongMod(root * root, m);
    PlusHalf(a, root, root * root % m, i, x, y, base, m);
    MinusHalf(a, root, root * root % m, i, |a| / 2, x, y, base, m);
  }

  lemma MinusPow(root: int, i: nat, h: nat, m: nat)
    requires m > 0 && Cong(Pow(root, h), -1, m)
    ensures Cong(-Pow(root, i), Pow(root, i + h), m)
  {
    PowAdd(root, i, h);
    CongSelf(Pow(root, i), m);
    CongMul(Pow(root, i), Pow(root, i), Pow(root, h), -1, m);
    assert Pow(root, i) * -1 == -Pow(root, i);
    CongSym(Pow(root, i + h), -Pow(root, i), m);
  }
}
