/**
  The functions of test_progs/dft.c: repeated subtraction for the remainder, the
  recursive transform that overwrites its array, the bits of a number, and the
  multiplication. The length n is 2^k and the modulus 2^(n/2) + 1; k is 3 in the
  program. C's 16-bit values are integers here; with the program's modulus every
  value lies between -256 and 272, so none of them is ever cut off.
 */
module TransformModule {
  import opened Residue
  import opened Transform
  import opened Inverse
  import Arith

  // ------------------------------------------------------------- parameters

  // The constants for length n = 2^k.
  datatype Params = Params(n: nat, m: nat, wr: int, nr: int)

  function ParamsOf(k: nat): Params
    requires k >= 1
  {
    HalfAtLeast(k);
    var h := Pow2(k - 1);
    Params(Pow2(k), Pow2(h) + 1, Pow2(h - 1) + 1, Pow2(h) + 1 - Pow2(h - k))
  }

  lemma {:induction false} HalfAtLeast(k: nat)
    requires k >= 1
    ensures Pow2(k - 1) >= k
  {
    if k > 1 {
      HalfAtLeast(k - 1);
    }
  }

  lemma ProgramConstants()
    ensures ParamsOf(3) == Params(8, 17, 9, 15)
  {
    assert Pow2(1) == 2 && Pow2(2) == 4;
    assert Pow2(3) == 8 && Pow2(4) == 16;
  }

  lemma {:induction false} Pow2IsPowerOfTwo(k: nat)
    ensures PowerOfTwo(Pow2(k))
  {
    if k > 0 {
      Pow2IsPowerOfTwo(k - 1);
    }
  }

  lemma FourFactors(a: int, b: int, p: int, q: int)
    ensures a * b * (p * q) == a * p * (b * q)
  {
    assert b * (p * q) == p * (b * q);
  }

  lemma {:induction false} PowProduct(a: int, b: int, e: nat)
    ensures Pow(a * b, e) == Pow(a, e) * Pow(b, e)
  {
    if e > 0 {
      PowProduct(a, b, e - 1);
      FourFactors(a, b, Pow(a, e - 1), Pow(b, e - 1));
    }
  }

  // If v inverts w, a half-length power of minus one of w is one of v.
  lemma InverseHalfPower(w: int, v: int, h: nat, m: nat)
    requires m > 0 && Cong(w * v, 1, m) && Cong(Pow(w, h), -1, m)
    ensures Cong(Pow(v, h), -1, m)
  {
    CongPow(w * v, 1, h, m);
    OnePow(h);
    PowProduct(w, v, h);
    var p := Pow(v, h);
    CongSelf(p, m);
    CongMul(Pow(w, h), -1, p, p, m);
    CongSym(Pow(w, h) * p, -1 * p, m);
    CongTrans(-1 * p, Pow(w, h) * p, 1, m);
    CongSelf(0, m);
    CongAdd(0, 0, -1 * p, 1, m);
    assert 0 - -1 * p == p;
  }

  // n times 2^h + 1 - u, where n * u is 2^h, is one modulo 2^h + 1.
  lemma InverseLength(n: nat, u: int, p: int, m: nat, nr: int)
    requires n * u == p && m == p + 1 && m > 0 && nr == m - u
    ensures Cong(n * nr, 1, m)
  {
    assert n * nr == n * m - n * u;
    assert n * nr - 1 == (n - 1) * m;
    CongBy(n * nr, 1, n - 1, m);
  }

  lemma RootsFit(n: nat, h: nat, p: int, wr: int, m: nat)
    requires h >= 1 && n == 2 * h && PowerOfTwo(n) && p == Pow(2, h) && m == p + 1 && 2 * (wr - 1) == p && wr >= 2
    ensures m >= 3 && Root(2, n, m) && Root(wr, n, m) && Cong(2 * wr, 1, m)
  {
    assert n / 2 == h;
    CongBy(p, -1, 1, m);
    CongBy(2 * wr, 1, 1, m);
    InverseHalfPower(2, wr, h, m);
  }

  lemma LengthFits(k: nat, h: nat, c: Params)
    requires k <= h && c.n == Pow2(k) && c.m == Pow2(h) + 1 && c.nr == c.m - Pow2(h - k)
    ensures Cong(c.n * c.nr, 1, c.m)
  {
    Pow2Add(k, h - k);
    InverseLength(c.n, Pow2(h - k), Pow2(h), c.m, c.nr);
  }

  lemma ParamsAre(k: nat, c: Params, h: nat)
    requires k >= 1 && c == ParamsOf(k) && h == Pow2(k - 1)
    ensures h >= k && c.n == Pow2(k) && c.n == 2 * h && c.m == Pow2(h) + 1
    ensures Pow2(h) == 2 * (c.wr - 1) && c.wr >= 2 && c.nr == c.m - Pow2(h - k)
  {
    HalfAtLeast(k);
  }

  // The constants are what the transform needs: two and its inverse are roots,
  // and the last one inverts the length.
  lemma ParamsFit(k: nat, c: Params)
    requires k >= 1 && c == ParamsOf(k)
    ensures c.m >= 3 && c.n >= 2 && c.n == Pow2(k)
    ensures Root(2, c.n, c.m) && Root(c.wr, c.n, c.m)
    ensures Cong(2 * c.wr, 1, c.m) && Cong(c.n * c.nr, 1, c.m)
  {
    var h := Pow2(k - 1);
    ParamsAre(k, c, h);
    Pow2IsPowerOfTwo(k);
    Pow2Is(h);
    RootsFit(c.n, h, Pow2(h), c.wr, c.m);
    LengthFits(k, h, c);
  }

  // -------------------------------------------------------------- remainder

  method ModuloM(x: int, m: nat) returns (r: int)
    requires m > 0
    ensures r == x % m
  {
    r := x;
    ghost var q := 0;
    while r < 0
      invariant r < m || r == x
      invariant x == q * m + r
      decreases -r
    {
      r := r + m;
      q := q - 1;
    }
    while r >= m
      invariant 0 <= r
      invariant x == q * m + r
    {
      r := r - m;
      q := q + 1;
    }
    Arith.DivModUnique(x, q, r, m);
  }

  // ------------------------------------------------------------- transform

  ghost predicate Residues(a: seq<int>, m: nat) {
    forall i | 0 <= i < |a| :: 0 <= a[i] < m
  }

  method Split(a: array<int>, len: nat, x: array<int>, y: array<int>)
    requires len % 2 == 0 && len <= a.Length && len / 2 <= x.Length && len / 2 <= y.Length
    requires a != x && a != y && x != y
    modifies x, y
    ensures x[..len / 2] == Evens(a[..len]) && y[..len / 2] == Odds(a[..len])
  {
    var i := 0;
    while i < len
      invariant 0 <= i <= len && i % 2 == 0
      invariant forall j | 0 <= j < i / 2 :: x[j] == a[2 * j] && y[j] == a[2 * j + 1]
    {
      x[i / 2], y[i / 2] := a[i], a[i + 1];
      i := i + 2;
    }
  }

  // The next power of the root.
  lemma NextBase(base: int, root: int, i: nat, m: nat)
    requires m > 0 && Cong(base, Pow(root, i), m)
    ensures Cong(base * root % m, Pow(root, i + 1), m)
  {
    CongSelf(root, m);
    CongMul(base, Pow(root, i), root, root, m);
    CongMod(base * root, m);
    assert Pow(root, i) * root == Pow(root, i + 1);
    CongTrans(base * root % m, base * root, Pow(root, i + 1), m);
  }

  // The butterflies of the two half transforms.
  method Combine(a: array<int>, len: nat, root: int, x: array<int>, y: array<int>, m: nat, ghost s: seq<int>)
    requires m >= 3 && len >= 2 && len % 2 == 0 && len <= a.Length && len / 2 <= x.Length && len / 2 <= y.Length
    requires a != x && a != y && Root(root, len, m) && |s| == len
    requires x[..len / 2] == Dft(Evens(s), root * root % m, m)
    requires y[..len / 2] == Dft(Odds(s), root * root % m, m)
    modifies a
    ensures a[..len] == Dft(s, root, m)
    ensures a[len..] == old(a[len..])
  {
    hide Dft;
    var h := len / 2;
    var base, i := 1, 0;
    CongSelf(1, m);
    ghost var t := Dft(s, root, m);
    while i < h
      invariant 0 <= i <= h
      invariant Cong(base, Pow(root, i), m)
      invariant forall j | 0 <= j < i :: a[j] == t[j]
      invariant forall j | h <= j < h + i :: a[j] == t[j]
      invariant a[len..] == old(a[len..])
    {
      Butterfly(s, root, i, x[..h][i], y[..h][i], base, m);
      NextBase(base, root, i, m);
      var plus := ModuloM(x[i] + base * y[i], m);
      var minus := ModuloM(x[i] - base * y[i], m);
      a[i] := plus;
      a[i + h] := minus;
      base := ModuloM(base * root, m);
      i := i + 1;
    }
  }

  method DftInPlace(a: array<int>, len: nat, root: int, n: nat, m: nat)
    requires m >= 3 && Root(root, len, m) && len <= n && len <= a.Length
    requires Residues(a[..len], m)
    modifies a
    ensures a[..len] == Dft(old(a[..len]), root, m)
    ensures a[len..] == old(a[len..])
    decreases len
  {
    ghost var s := a[..len];
    StopsAtLengthOne(root, len, m);
    if root == 1 {
      SingleTransform(s, m);
      return;
    }
    var x := new int[n];
    var y := new int[n];
    Split(a, len, x, y);
    RootSquare(root, len, m);
    var square := ModuloM(root * root, m);
    DftInPlace(x, len / 2, square, n, m);
    DftInPlace(y, len / 2, square, n, m);
    Combine(a, len, root, x, y, m, s);
  }

  lemma SingleTransform(s: seq<int>, m: nat)
    requires m > 0 && |s| == 1 && Residues(s, m)
    ensures Dft(s, 1, m) == s
  {
    assert Eval(s, Pow(1, 0)) == s[0] + 1 * Eval(s[1..], 1);
    Arith.DivModUnique(s[0], 0, s[0], m);
  }

  // ------------------------------------------------------------------- bits

  function Bits(x: int, n: nat): (b: seq<int>)
    ensures |b| == n
    ensures forall i | 0 <= i < n :: b[i] == 0 || b[i] == 1
    decreases n
  {
    if n == 0 then [] else [x % 2] + Bits(x / 2, n - 1)
  }

  lemma LowBit(x: int, p: int)
    requires p >= 1
    ensures x % (2 * p) == x % 2 + 2 * (x / 2 % p)
  {
    var q := x / 2;
    var a, r := q / p, q % p;
    assert q == a * p + r;
    assert 2 * (a * p) == a * (2 * p);
    Arith.DivModUnique(x, a, x % 2 + 2 * r, 2 * p);
  }

  // The polynomial of the low bits, at two, is the number those bits write.
  lemma {:induction false} BitsEval(x: int, n: nat)
    ensures Eval(Bits(x, n), 2) == x % Pow2(n)
    decreases n
  {
    if n > 0 {
      BitsEval(x / 2, n - 1);
      LowBit(x, Pow2(n - 1));
    }
  }

  // x after i shifts.
  function Shift(x: int, i: nat): int
    decreases i
  {
    if i == 0 then x else Shift(x / 2, i - 1)
  }

  lemma {:induction false} ShiftOn(x: int, i: nat)
    ensures Shift(x, i + 1) == Shift(x, i) / 2
    decreases i
  {
    if i > 0 {
      ShiftOn(x / 2, i - 1);
    }
  }

  lemma {:induction false} BitAt(x: int, n: nat, i: nat)
    requires i < n
    ensures Bits(x, n)[i] == Shift(x, i) % 2
    decreases i
  {
    if i > 0 {
      BitAt(x / 2, n - 1, i - 1);
    }
  }

  method ToPoly(x: int, a: array<int>)
    modifies a
    ensures a[..] == Bits(x, a.Length)
  {
    var rest, i := x, 0;
    while i < a.Length
      invariant 0 <= i <= a.Length && rest == Shift(x, i)
      invariant forall j | 0 <= j < i :: a[j] == Bits(x, a.Length)[j]
    {
      BitAt(x, a.Length, i);
      if rest % 2 == 1 {
        a[i] := 1;
      } else {
        a[i] := 0;
      }
      ShiftOn(x, i);
      rest := rest / 2;
      i := i + 1;
    }
  }

  // --------------------------------------------------------- multiplication

  lemma {:induction false} EvalSnoc(a: seq<int>, b: int, r: int)
    ensures Eval(a + [b], r) == Eval(a, r) + Pow(r, |a|) * b
  {
    if a == [] {
      assert [b][1..] == [];
    } else {
      EvalSnoc(a[1..], b, r);
      assert (a + [b])[1..] == a[1..] + [b];
      Distribute(r, Eval(a[1..], r), Pow(r, |a| - 1), b);
    }
  }

  lemma Scale(e: int, p: int, d: int, nr: int)
    ensures (e + p * d) * nr == e * nr + p * (d * nr)
  {
  }

  // One turn of the closing loop keeps the running value of the polynomial.
  lemma AccumulateStep(d: seq<int>, i: nat, nr: int, w: int, result: int, base: int, m: nat)
    requires m > 0 && i < |d| && Cong(result, Eval(d[..i], w) * nr, m) && Cong(base, Pow(w, i), m)
    ensures Cong((result + base * (d[i] * nr % m)) % m, Eval(d[..i + 1], w) * nr, m)
  {
    var e, p, v := Eval(d[..i], w), Pow(w, i), d[i] * nr;
    CongMod(v, m);
    CongMul(base, p, v % m, v, m);
    CongAdd(result, e * nr, base * (v % m), p * v, m);
    assert d[..i + 1] == d[..i] + [d[i]];
    EvalSnoc(d[..i], d[i], w);
    Scale(e, p, d[i], nr);
    CongMod(result + base * (v % m), m);
    CongTrans((result + base * (v % m)) % m, result + base * (v % m), Eval(d[..i + 1], w) * nr, m);
  }

  method PointProduct(a: array<int>, b: array<int>, m: nat)
    requires m > 0 && a.Length == b.Length && a != b
    modifies a
    ensures forall i | 0 <= i < a.Length :: a[i] == old(a[i]) * b[i] % m
  {
    var i := 0;
    while i < a.Length
      invariant 0 <= i <= a.Length
      invariant forall j | 0 <= j < i :: a[j] == old(a[j]) * b[j] % m
      invariant forall j | i <= j < a.Length :: a[j] == old(a[j])
    {
      a[i] := ModuloM(a[i] * b[i], m);
      i := i + 1;
    }
  }

  // The closing loop: scale by the inverse length and evaluate at w.
  method Accumulate(a: array<int>, w: int, nr: int, m: nat) returns (result: int)
    requires m > 0
    modifies a
    ensures 0 <= result < m && Cong(result, Eval(old(a[..]), w) * nr, m)
  {
    ghost var d := a[..];
    var base, i := 1, 0;
    result := 0;
    CongSelf(0, m);
    CongSelf(1, m);
    while i < a.Length
      invariant 0 <= i <= a.Length
      invariant forall j | i <= j < a.Length :: a[j] == d[j]
      invariant 0 <= result < m && Cong(result, Eval(d[..i], w) * nr, m) && Cong(base, Pow(w, i), m)
    {
      AccumulateStep(d, i, nr, w, result, base, m);
      NextBase(base, w, i, m);
      a[i] := ModuloM(a[i] * nr, m);
      result := ModuloM(result + base * a[i], m);
      base := ModuloM(base * w, m);
      i := i + 1;
    }
    assert d[..i] == d;
  }

  lemma BitsAreResidues(x: int, n: nat, m: nat)
    requires m >= 2
    ensures Residues(Bits(x, n), m)
  {
  }

  // The second value of the product of two transforms at root two.
  lemma SecondValue(x: int, y: int, n: nat, m: nat)
    requires m > 0 && n >= 2
    ensures Cong(Dft(Bits(x, n), 2, m)[1] * Dft(Bits(y, n), 2, m)[1] % m, (x % Pow2(n)) * (y % Pow2(n)), m)
  {
    var u, v := Dft(Bits(x, n), 2, m)[1], Dft(Bits(y, n), 2, m)[1];
    assert Pow(2, 1) == 2;
    BitsEval(x, n);
    BitsEval(y, n);
    CongMod(x % Pow2(n), m);
    CongMod(y % Pow2(n), m);
    CongMul(u, x % Pow2(n), v, y % Pow2(n), m);
    CongMod(u * v, m);
    CongTrans(u * v % m, u * v, (x % Pow2(n)) * (y % Pow2(n)), m);
  }

  // The product of the low n bits of x and y, modulo 2^(n/2) + 1; for n-bit
  // operands the product itself.
  method Mult(x: int, y: int, k: nat) returns (result: int)
    requires k >= 1
    ensures var c := ParamsOf(k);
      && c.m >= 3
      && result == (x % Pow2(c.n)) * (y % Pow2(c.n)) % c.m
      && (0 <= x < Pow2(c.n) && 0 <= y < Pow2(c.n) ==> result == x * y % c.m)
  {
    var c := ParamsOf(k);
    ParamsFit(k, c);
    var a, b := new int[c.n], new int[c.n];
    ToPoly(x, a);
    ToPoly(y, b);
    BitsAreResidues(x, c.n, c.m);
    BitsAreResidues(y, c.n, c.m);
    assert a[..c.n] == a[..] && b[..c.n] == b[..];
    DftInPlace(a, c.n, 2, c.n, c.m);
    DftInPlace(b, c.n, 2, c.n, c.m);
    PointProduct(a, b, c.m);
    ghost var p := a[..];
    assert a[..c.n] == a[..] && b[..c.n] == b[..];
    SecondValue(x, y, c.n, c.m);
    DftInPlace(a, c.n, c.wr, c.n, c.m);
    assert a[..c.n] == a[..];
    ReadAtRoot(p, 2, c.wr, c.nr, c.m);
    result := Accumulate(a, 2, c.nr, c.m);
    ghost var product := (x % Pow2(c.n)) * (y % Pow2(c.n));
    ReadBack(result, Eval(Dft(p, c.wr, c.m), 2) * c.nr, p[1], product, c.m);
    SmallOperands(x, y, Pow2(c.n));
  }

  lemma ReadBack(result: int, e: int, p: int, product: int, m: nat)
    requires m > 0 && 0 <= result < m && Cong(result, e, m) && e % m == p % m && Cong(p, product, m)
    ensures result == product % m
  {
    CongEq(result, e, m);
    CongEq(p, product, m);
    Arith.DivModUnique(result, 0, result, m);
  }

  lemma SmallOperands(x: int, y: int, top: int)
    requires top >= 1
    ensures 0 <= x < top && 0 <= y < top ==> x % top == x && y % top == y
  {
    if 0 <= x < top && 0 <= y < top {
      Arith.DivModUnique(x, 0, x, top);
      Arith.DivModUnique(y, 0, y, top);
    }
  }
}
