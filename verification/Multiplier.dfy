/**
  The staged multiplier (mult.sv): a pipeline of multiplying stages, each of
  which takes the next bits of one operand. Operands are xlen bits wide, numbers
  below 2^xlen; all arithmetic inside is modulo 2^(2 * xlen). Every statement
  holds for every width and every number of stages, at least two, that divides
  2 * xlen.
 */
module Multiplier {
  import opened Residue
  import Arith

  // The registers of one stage.
  datatype Stage = Stage(prodIn: nat, partial: nat, mplier: nat, mcand: nat, done: bool)

  // What one stage hands to the next.
  datatype Wire = Wire(product: nat, mplier: nat, mcand: nat, start: bool)

  datatype Input = Input(reset: bool, start: bool, signCand: bool, signPlier: bool, mcand: nat, mplier: nat)

  // Width parameters: bits per stage are 2 * xlen / stages.
  datatype Params = Params(xlen: nat, stages: nat, bits: nat)

  ghost predicate WfParams(p: Params) {
    p.xlen >= 1 && p.stages >= 2 && p.bits >= 1 && p.stages * p.bits == p.xlen + p.xlen
  }

  ghost predicate WfInput(p: Params, inp: Input) {
    inp.mcand < Pow2(p.xlen) && inp.mplier < Pow2(p.xlen)
  }

  function Full(p: Params): (r: nat)
    ensures r >= 1
  {
    Pow2(p.xlen + p.xlen)
  }

  // The value of an operand: two's complement if its sign flag is set.
  function Value(x: nat, signed: bool, xlen: nat): int
    requires xlen >= 1
  {
    if signed && x >= Pow2(xlen - 1) then x - Pow2(xlen) else x
  }

  // The product the signs ask for.
  function Exact(p: Params, inp: Input): int
    requires p.xlen >= 1
  {
    Value(inp.mcand, inp.signCand, p.xlen) * Value(inp.mplier, inp.signPlier, p.xlen)
  }

  // Sign or zero extension to twice the width.
  function Extend(x: nat, signed: bool, xlen: nat): (r: nat)
    requires xlen >= 1
  {
    if signed && x >= Pow2(xlen - 1) then (Pow2(xlen) - 1) * Pow2(xlen) + x else x
  }

  function Head(p: Params, inp: Input): Wire
    requires p.xlen >= 1
  {
    Wire(0, Extend(inp.mplier, inp.signPlier, p.xlen), Extend(inp.mcand, inp.signCand, p.xlen), inp.start)
  }

  function Outputs(p: Params, s: Stage): (w: Wire) {
    Wire((s.prodIn + s.partial) % Full(p), s.mplier, s.mcand, s.done)
  }

  // A product cut to the register's width.
  function MulMod(a: nat, b: nat, m: nat): (r: nat)
    requires m >= 1
    ensures r < m
  {
    assert a * b >= 0;
    a * b % m
  }

  // The operand without the bits taken by a stage, and those bits.
  function High(x: nat, b: nat): nat
    requires b >= 1
  {
    x / b
  }

  function Low(x: nat, b: nat): nat
    requires b >= 1
  {
    x % b
  }

  // One stage over one edge.
  function Clock(p: Params, w: Wire, reset: bool): Stage {
    Stage(
      w.product,
      MulMod(Low(w.mplier, Pow2(p.bits)), w.mcand, Full(p)),
      High(w.mplier, Pow2(p.bits)),
      MulMod(w.mcand, Pow2(p.bits), Full(p)),
      !reset && w.start)
  }

  // The wires entering stage i.
  function Entering(p: Params, pipe: seq<Stage>, inp: Input, i: nat): Wire
    requires p.xlen >= 1 && i <= |pipe|
  {
    if i == 0 then Head(p, inp) else Outputs(p, pipe[i - 1])
  }

  function Next(p: Params, pipe: seq<Stage>, inp: Input): (pipe': seq<Stage>)
    requires p.xlen >= 1
    ensures |pipe'| == |pipe|
  {
    seq(|pipe|, i requires 0 <= i < |pipe| => Clock(p, Entering(p, pipe, inp, i), inp.reset))
  }

  function Product(p: Params, pipe: seq<Stage>): nat
    requires |pipe| > 0
  {
    Outputs(p, pipe[|pipe| - 1]).product
  }

  function Done(pipe: seq<Stage>): bool
    requires |pipe| > 0
  {
    pipe[|pipe| - 1].done
  }

  // ------------------------------------------------------------- one stage

  // The invariant quantity: the product so far and what is left of it.
  function Whole(w: Wire): nat {
    w.product + w.mplier * w.mcand
  }

  // Splitting an operand into its low bits and the rest.
  lemma SplitProduct(x: nat, y: nat, b: nat)
    requires b >= 1
    ensures x * y == (x % b) * y + (x / b) * (y * b)
  {
    var q, r := x / b, x % b;
    assert x == q * b + r;
    assert (q * b + r) * y == r * y + q * (y * b);
  }

  // A stage keeps the invariant quantity modulo 2^(2 * xlen).
  lemma StageKeepsWhole(p: Params, w: Wire, reset: bool)
    ensures Cong(Whole(Outputs(p, Clock(p, w, reset))), Whole(w), Full(p))
  {
    var m, b := Full(p), Pow2(p.bits);
    var lo, hi := w.mplier % b, w.mplier / b;
    var u, v := lo * w.mcand, w.mcand * b;
    SplitProduct(w.mplier, w.mcand, b);
    CongMod(u, m);
    CongMod(v, m);
    CongSelf(w.product, m);
    CongSelf(hi, m);
    CongAdd(w.product, w.product, u % m, u, m);
    CongMod(w.product + u % m, m);
    CongTrans((w.product + u % m) % m, w.product + u % m, w.product + u, m);
    CongMul(hi, hi, v % m, v, m);
    CongAdd((w.product + u % m) % m, w.product + u, hi * (v % m), hi * v, m);
  }

  // -------------------------------------------------------------- extension

  lemma SignBits(x: nat, h: nat)
    requires h >= 1 && x < h
    ensures h * h >= 1 && (h - 1) * h + x < h * h && x < h * h
    ensures Cong((h - 1) * h + x, x - h, h * h)
  {
    Arith.MulGe(h, h);
    assert (h - 1) * h == h * h - h;
    CongBy((h - 1) * h + x, x - h, 1, h * h);
  }

  lemma ExtendIsValue(x: nat, signed: bool, xlen: nat)
    requires xlen >= 1 && x < Pow2(xlen)
    ensures Cong(Extend(x, signed, xlen), Value(x, signed, xlen), Pow2(xlen + xlen))
    ensures Extend(x, signed, xlen) < Pow2(xlen + xlen)
  {
    var h, r := Pow2(xlen), Pow2(xlen + xlen);
    Pow2Add(xlen, xlen);
    ExtendBy(x, h, r);
  }

  lemma ExtendBy(x: nat, h: nat, r: nat)
    requires h >= 1 && r == h * h && x < h && r > 0
    ensures (h - 1) * h + x < r && x < r
    ensures Cong((h - 1) * h + x, x - h, r) && Cong(x, x, r)
  {
    SignBits(x, h);
    CongSelf(x, r);
  }

  // ------------------------------------------------------------------- runs

  ghost predicate Run(p: Params, pipes: seq<seq<Stage>>, ins: seq<Input>) {
    && WfParams(p) && |pipes| == |ins| + 1 && |pipes[0]| == p.stages
    && (forall t | 0 <= t < |ins| :: WfInput(p, ins[t]) && pipes[t + 1] == Next(p, pipes[t], ins[t]))
  }

  lemma {:induction false} Depth(p: Params, pipes: seq<seq<Stage>>, ins: seq<Input>, t: nat)
    requires Run(p, pipes, ins) && t <= |ins|
    ensures |pipes[t]| == p.stages
  {
    if t > 0 {
      Depth(p, pipes, ins, t - 1);
      assert pipes[t] == Next(p, pipes[t - 1], ins[t - 1]);
    }
  }

  // No reset edge from a up to b.
  predicate Quiet(ins: seq<Input>, a: nat, b: nat)
    requires b <= |ins|
  {
    forall u | a <= u < b :: !ins[u].reset
  }

  // The operands of cycle t after i stages.
  ghost predicate Travelled(p: Params, inp: Input, w: Wire, i: nat, quiet: bool)
    requires p.xlen >= 1
  {
    && Cong(Whole(w), Head(p, inp).mplier * Head(p, inp).mcand, Full(p))
    && w.mplier == Head(p, inp).mplier / Pow2(i * p.bits)
    && (w.start <==> inp.start && quiet)
  }

  lemma TravelOn(p: Params, inp: Input, w: Wire, i: nat, quiet: bool, reset: bool)
    requires p.xlen >= 1 && Travelled(p, inp, w, i, quiet)
    ensures Travelled(p, inp, Outputs(p, Clock(p, w, reset)), i + 1, quiet && !reset)
  {
    StageKeepsWhole(p, w, reset);
    var x := Head(p, inp).mplier;
    CongTrans(Whole(Outputs(p, Clock(p, w, reset))), Whole(w), x * Head(p, inp).mcand, Full(p));
    assert (i + 1) * p.bits == i * p.bits + p.bits;
    Pow2Add(i * p.bits, p.bits);
    DivDiv(x, Pow2(i * p.bits), Pow2(p.bits));
  }

  lemma DivDiv(x: nat, a: nat, b: nat)
    requires a >= 1 && b >= 1
    ensures a * b >= 1 && x / a / b == x / (a * b)
  {
    Arith.MulGe(a, b);
    var q, r := x / a, x % a;
    var q', r' := q / b, q % b;
    assert x == q * a + r && q == q' * b + r';
    assert x == q' * (a * b) + (r' * a + r) by {
      assert (q' * b + r') * a == q' * (a * b) + r' * a;
    }
    assert r' * a + r < a * b by {
      assert (b - r') * a >= a by { Arith.MulGe(b - r', a); }
      assert (b - r') * a == a * b - r' * a;
    }
    Arith.DivModUnique(x, q', r' * a + r, a * b);
  }

  lemma {:induction false} Travels(p: Params, pipes: seq<seq<Stage>>, ins: seq<Input>, t: nat, i: nat)
    requires Run(p, pipes, ins) && 1 <= i <= p.stages && t + i <= |ins|
    ensures |pipes[t + i]| == p.stages
    ensures Travelled(p, ins[t], Outputs(p, pipes[t + i][i - 1]), i, Quiet(ins, t, t + i))
  {
    Depth(p, pipes, ins, t + i);
    Depth(p, pipes, ins, t + i - 1);
    var u := t + i - 1;
    assert pipes[u + 1] == Next(p, pipes[u], ins[u]);
    if i == 1 {
      var w := Head(p, ins[t]);
      CongSelf(Whole(w), Full(p));
      assert Pow2(0 * p.bits) == 1;
      TravelOn(p, ins[t], w, 0, true, ins[t].reset);
    } else {
      Travels(p, pipes, ins, t, i - 1);
      TravelOn(p, ins[t], Outputs(p, pipes[u][i - 2]), i - 1, Quiet(ins, t, u), ins[u].reset);
    }
  }

  // ----------------------------------------------------------------- results

  // After the last stage the whole product is there.
  lemma PipelineEnds(p: Params, pipes: seq<seq<Stage>>, ins: seq<Input>, t: nat)
    requires Run(p, pipes, ins) && t + p.stages <= |ins|
    ensures |pipes[t + p.stages]| == p.stages && p.xlen >= 1
    ensures Cong(Product(p, pipes[t + p.stages]), Head(p, ins[t]).mplier * Head(p, ins[t]).mcand, Full(p))
    ensures 0 <= Product(p, pipes[t + p.stages]) < Full(p)
    ensures Done(pipes[t + p.stages]) <==> ins[t].start && Quiet(ins, t, t + p.stages)
  {
    Travels(p, pipes, ins, t, p.stages);
    var w := Outputs(p, pipes[t + p.stages][p.stages - 1]);
    ExtendIsValue(ins[t].mplier, ins[t].signPlier, p.xlen);
    NothingLeft(p, Head(p, ins[t]).mplier);
    assert w.mplier * w.mcand == 0;
  }

  lemma NothingLeft(p: Params, x: nat)
    requires WfParams(p) && x < Full(p)
    ensures x / Pow2(p.stages * p.bits) == 0
  {
    Arith.DivModUnique(x, 0, x, Full(p));
  }

  lemma ProductOfValues(u: int, x: int, y: int, a: int, b: int, m: nat)
    requires m > 0 && 0 <= u < m && Cong(u, x * y, m) && Cong(x, b, m) && Cong(y, a, m)
    ensures u == a * b % m
  {
    CongMul(x, b, y, a, m);
    assert b * a == a * b;
    CongTrans(u, x * y, a * b, m);
    CongEq(u, a * b, m);
    Arith.DivModUnique(u, 0, u, m);
  }

  // The operands started in cycle t have left the last stage, multiplied as
  // their signs ask, stages cycles later, whatever enters behind them.
  lemma PipelineMultiplies(p: Params, pipes: seq<seq<Stage>>, ins: seq<Input>, t: nat)
    requires Run(p, pipes, ins) && t + p.stages <= |ins|
    ensures |pipes[t + p.stages]| == p.stages && p.xlen >= 1
    ensures Product(p, pipes[t + p.stages]) == Exact(p, ins[t]) % Full(p)
    ensures Done(pipes[t + p.stages]) <==> ins[t].start && Quiet(ins, t, t + p.stages)
  {
    var inp := ins[t];
    PipelineEnds(p, pipes, ins, t);
    ExtendIsValue(inp.mcand, inp.signCand, p.xlen);
    ExtendIsValue(inp.mplier, inp.signPlier, p.xlen);
    ProductOfValues(Product(p, pipes[t + p.stages]), Head(p, inp).mplier, Head(p, inp).mcand,
                    Value(inp.mcand, inp.signCand, p.xlen), Value(inp.mplier, inp.signPlier, p.xlen), Full(p));
  }

  lemma Digits(u: nat, r: nat, h: nat)
    requires u < h && r < h
    ensures 0 <= u * h + r < h * h
  {
    Arith.MulMono(0, u, h);
    Arith.MulMono(u, h - 1, h);
    assert (h - 1) * h == h * h - h;
  }

  lemma Recompose(a: int, u: int, r: int, h: int)
    ensures (a * h + u) * h + r == a * (h * h) + (u * h + r)
  {
  }

  lemma HalvesOf(exact: int, h: nat)
    requires h >= 1
    ensures h * h >= 1
    ensures exact % (h * h) / h == exact / h % h
    ensures exact % (h * h) % h == exact % h
  {
    var q, r := exact / h, exact % h;
    var a, u := q / h, q % h;
    Arith.MulGe(h, h);
    Digits(u, r, h);
    Recompose(a, u, r, h);
    Arith.DivModUnique(exact, a, u * h + r, h * h);
    Arith.DivModUnique(u * h + r, u, r, h);
  }

  // The upper half is the upper half of the exact product, rounded down, as
  // the multiply-high instructions of section 7.1 of the RISC-V Unprivileged
  // ISA (20191213) define it; the lower half is the product modulo 2^xlen.
  lemma Halves(p: Params, pipes: seq<seq<Stage>>, ins: seq<Input>, t: nat)
    requires Run(p, pipes, ins) && t + p.stages <= |ins|
    ensures |pipes[t + p.stages]| == p.stages && p.xlen >= 1
    ensures Product(p, pipes[t + p.stages]) / Pow2(p.xlen) == Exact(p, ins[t]) / Pow2(p.xlen) % Pow2(p.xlen)
    ensures Product(p, pipes[t + p.stages]) % Pow2(p.xlen) == Exact(p, ins[t]) % Pow2(p.xlen)
  {
    PipelineMultiplies(p, pipes, ins, t);
    Pow2Add(p.xlen, p.xlen);
    HalvesOf(Exact(p, ins[t]), Pow2(p.xlen));
  }

  // ------------------------------------------------- nothing is cut off

  lemma ProductBound(a: int, b: int, c: int, d: int)
    requires 0 <= a <= c && 0 <= b <= d
    ensures 0 <= a * b <= c * d
  {
    Arith.MulMono(0, a, b);
    Arith.MulMono(a, c, b);
    Arith.MulMono(b, d, c);
  }

  lemma Bounds(k: int)
    requires k >= 1
    ensures k * (2 * k) == 2 * (k * k) && (k - 1) * (2 * k) < 2 * (k * k) && k * k < 2 * (k * k)
  {
    assert (k - 1) * (2 * k) == 2 * (k * k) - 2 * k;
    Arith.MulGe(k, k);
  }

  lemma Signs(a: int, b: int)
    ensures (-a) * (-b) == a * b && (-a) * b == -(a * b) && a * (-b) == -(a * b)
  {
  }

  lemma ProductRange(a: int, b: int, k: int)
    requires k >= 1 && -k <= a < k && -k <= b < 2 * k
    ensures -2 * (k * k) <= a * b < 2 * (k * k)
  {
    Bounds(k);
    Signs(a, b);
    if a >= 0 && b >= 0 {
      ProductBound(a, b, k - 1, 2 * k);
    } else if a >= 0 {
      ProductBound(a, -b, k, k);
    } else if b >= 0 {
      ProductBound(-a, b, k, 2 * k);
    } else {
      ProductBound(-a, -b, k, k);
    }
  }

  // A number within half the modulus of zero is its remainder, read as two's
  // complement.
  lemma ReadSigned(v: int, half: int)
    requires half >= 1 && -half <= v < half
    ensures var u := v % (2 * half); v == if u >= half then u - 2 * half else u
  {
    if v >= 0 {
      Arith.DivModUnique(v, 0, v, 2 * half);
    } else {
      Arith.DivModUnique(v, -1, v + 2 * half, 2 * half);
    }
  }

  lemma OperandRange(x: nat, signed: bool, xlen: nat)
    requires xlen >= 1 && x < Pow2(xlen)
    ensures var v, k := Value(x, signed, xlen), Pow2(xlen - 1);
      Pow2(xlen) == 2 * k && 0 <= v + k && v < 2 * k && (signed ==> v < k) && (!signed ==> v == x)
  {
  }

  lemma SignedRange(p: Params, inp: Input, k: nat)
    requires p.xlen >= 1 && WfInput(p, inp) && (inp.signCand || inp.signPlier) && k == Pow2(p.xlen - 1)
    ensures k >= 1 && -2 * (k * k) <= Exact(p, inp) < 2 * (k * k)
  {
    var a, b := Value(inp.mcand, inp.signCand, p.xlen), Value(inp.mplier, inp.signPlier, p.xlen);
    OperandRange(inp.mcand, inp.signCand, p.xlen);
    OperandRange(inp.mplier, inp.signPlier, p.xlen);
    if inp.signCand {
      ProductRange(a, b, k);
    } else {
      ProductRange(b, a, k);
      assert a * b == b * a;
    }
  }

  lemma HalfOfFull(xlen: nat, k: nat)
    requires xlen >= 1 && k == Pow2(xlen - 1)
    ensures k * k >= 1 && Pow2(xlen + xlen) == 2 * (2 * (k * k)) && Pow2(xlen + xlen - 1) == 2 * (k * k)
  {
    Pow2Add(xlen - 1, xlen);
    assert k * (2 * k) == 2 * (k * k);
  }

  // With a signed operand, the double-width result read as two's complement is
  // the exact product.
  lemma SignedProductExact(p: Params, pipes: seq<seq<Stage>>, ins: seq<Input>, t: nat)
    requires Run(p, pipes, ins) && t + p.stages <= |ins| && (ins[t].signCand || ins[t].signPlier)
    ensures |pipes[t + p.stages]| == p.stages && p.xlen >= 1
    ensures Value(Product(p, pipes[t + p.stages]), true, p.xlen + p.xlen) == Exact(p, ins[t])
  {
    var k := Pow2(p.xlen - 1);
    PipelineMultiplies(p, pipes, ins, t);
    SignedRange(p, ins[t], k);
    HalfOfFull(p.xlen, k);
    ReadSigned(Exact(p, ins[t]), 2 * (k * k));
  }

  lemma BelowSquare(x: nat, y: nat, h: nat)
    requires x < h && y < h
    ensures 0 <= x * y < h * h
  {
    Arith.MulMono(0, x, y);
    Arith.MulMono(x, h, y);
    Arith.MulMono(y, h - 1, h);
    assert h * h == (h - 1) * h + h;
  }

  // Two unsigned operands give the exact product.
  lemma UnsignedProductExact(p: Params, pipes: seq<seq<Stage>>, ins: seq<Input>, t: nat)
    requires Run(p, pipes, ins) && t + p.stages <= |ins| && !ins[t].signCand && !ins[t].signPlier
    ensures |pipes[t + p.stages]| == p.stages
    ensures Product(p, pipes[t + p.stages]) == ins[t].mcand * ins[t].mplier
  {
    var x, y := ins[t].mcand, ins[t].mplier;
    PipelineMultiplies(p, pipes, ins, t);
    Pow2Add(p.xlen, p.xlen);
    BelowSquare(x, y, Pow2(p.xlen));
    Arith.DivModUnique(x * y, 0, x * y, Full(p));
  }
}

module MultiplierModule {
  import opened Multiplier
  import opened Residue

  // The pipeline as registers: every stage is clocked from the old outputs of
  // the one before it.
  class Pipeline {
    const p: Params
    const stages: array<Stage>

    constructor (p: Params)
      requires WfParams(p)
      ensures this.p == p && stages.Length == p.stages && fresh(stages)
    {
      this.p := p;
      stages := new Stage[p.stages](_ => Stage(0, 0, 0, 0, false));
    }

    method Posedge(inp: Input)
      requires p.xlen >= 1
      modifies stages
      ensures stages[..] == Next(p, old(stages[..]), inp)
    {
      ghost var before := stages[..];
      var i := stages.Length;
      while i > 0
        invariant 0 <= i <= stages.Length
        invariant stages[..i] == before[..i]
        invariant forall k | i <= k < stages.Length :: stages[k] == Clock(p, Entering(p, before, inp, k), inp.reset)
      {
        i := i - 1;
        var w := if i == 0 then Head(p, inp) else Outputs(p, stages[i - 1]);
        assert i > 0 ==> stages[i - 1] == before[..i + 1][i - 1];
        stages[i] := Clock(p, w, inp.reset);
      }
    }

    // product and done
    method Read() returns (product: nat, done: bool)
      requires stages.Length > 0
      ensures product == Product(p, stages[..]) && done == Done(stages[..])
    {
      var s := stages[stages.Length - 1];
      product, done := (s.prodIn + s.partial) % Pow2(p.xlen + p.xlen), s.done;
    }
  }
}
