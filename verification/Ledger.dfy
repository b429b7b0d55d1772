/**
  The register ledger: which physical registers are held, and by whom, given the
  committed map and the instructions in flight in program order. Two moves change
  it: the oldest instruction commits, or a renamed instruction joins at the young
  end. Both keep every register in exactly one place.
 */
module Ledger {
  import opened Rob

  // One instruction's effect on an architectural-to-physical map. Register 0 of
  // the architecture never moves.
  function Apply(m: seq<nat>, u: Uop): (m': seq<nat>)
    requires u.arn < |m|
    ensures |m'| == |m|
  {
    if u.arn != 0 then m[u.arn := u.prn] else m
  }

  ghost predicate InRange(us: seq<Uop>, a: nat) {
    forall u | u in us :: u.arn < a
  }

  // The map after a run of instructions, oldest first.
  function Fold(m: seq<nat>, us: seq<Uop>): (m': seq<nat>)
    requires InRange(us, |m|)
    ensures |m'| == |m|
    decreases us
  {
    if us == [] then m else Fold(Apply(m, us[0]), us[1..])
  }

  lemma {:induction false} FoldConcat(m: seq<nat>, us: seq<Uop>, vs: seq<Uop>)
    requires InRange(us, |m|) && InRange(vs, |m|)
    ensures Fold(m, us + vs) == Fold(Fold(m, us), vs)
    decreases us
  {
    if us == [] {
      assert us + vs == vs;
    } else {
      assert (us + vs)[1..] == us[1..] + vs;
      FoldConcat(Apply(m, us[0]), us[1..], vs);
    }
  }

  lemma FoldSnoc(m: seq<nat>, us: seq<Uop>, u: Uop)
    requires InRange(us, |m|) && u.arn < |m|
    ensures InRange(us + [u], |m|)
    ensures Fold(m, us + [u]) == Apply(Fold(m, us), u)
  {
    FoldConcat(m, us, [u]);
    assert [u][1..] == [];
  }

  lemma {:induction false} FoldKeepsZero(m: seq<nat>, us: seq<Uop>)
    requires |m| > 0 && InRange(us, |m|)
    ensures Fold(m, us)[0] == m[0]
    decreases us
  {
    if us != [] {
      FoldKeepsZero(Apply(m, us[0]), us[1..]);
    }
  }

  // An instruction with a destination holds a register and names the one its
  // architectural register had before; one without names register 0 twice.
  ghost predicate Renamed(m: seq<nat>, u: Uop) {
    && u.arn < |m|
    && (u.arn == 0 ==> u.prn == 0 && u.prev == 0)
    && (u.arn != 0 ==> u.prn != 0 && u.prev == m[u.arn])
  }

  ghost predicate Consistent(m: seq<nat>, us: seq<Uop>)
    decreases us
  {
    us != [] ==> Renamed(m, us[0]) && Consistent(Apply(m, us[0]), us[1..])
  }

  lemma {:induction false} ConsistentInRange(m: seq<nat>, us: seq<Uop>)
    requires Consistent(m, us)
    ensures InRange(us, |m|)
    decreases us
  {
    if us != [] {
      ConsistentInRange(Apply(m, us[0]), us[1..]);
      assert forall u | u in us :: u == us[0] || u in us[1..];
    }
  }

  lemma {:induction false} ConsistentAppend(m: seq<nat>, us: seq<Uop>, u: Uop)
    requires Consistent(m, us) && InRange(us, |m|)
    requires Renamed(Fold(m, us), u)
    ensures Consistent(m, us + [u])
    decreases us
  {
    if us == [] {
      assert us + [u] == [u];
    } else {
      assert (us + [u])[1..] == us[1..] + [u];
      ConsistentAppend(Apply(m, us[0]), us[1..], u);
    }
  }

  function Prns(us: seq<Uop>): (p: seq<nat>)
    ensures |p| == |us|
    ensures forall i | 0 <= i < |us| :: p[i] == us[i].prn
  {
    seq(|us|, i requires 0 <= i < |us| => us[i].prn)
  }

  // Every register somebody holds: the committed map, then the flight.
  function Held(m: seq<nat>, us: seq<Uop>): (h: seq<nat>)
    ensures |h| == |m| + |us|
  {
    m + Prns(us)
  }

  ghost predicate NoDup(h: seq<nat>) {
    forall i, j | 0 <= i < j < |h| :: h[i] != 0 ==> h[i] != h[j]
  }

  // No two of these instructions have the same register.
  ghost predicate OneEach(us: seq<Uop>) {
    forall i, j | 0 <= i < j < |us| :: us[i].prn != 0 ==> us[i].prn != us[j].prn
  }

  lemma HeldOneEach(m: seq<nat>, us: seq<Uop>)
    requires NoDup(Held(m, us))
    ensures OneEach(us)
  {
    forall i, j | 0 <= i < j < |us| && us[i].prn != 0
      ensures us[i].prn != us[j].prn
    {
      assert Held(m, us)[|m| + i] == us[i].prn && Held(m, us)[|m| + j] == us[j].prn;
    }
  }

  lemma OneEachParts(us: seq<Uop>, vs: seq<Uop>)
    requires OneEach(us + vs)
    ensures OneEach(us) && OneEach(vs)
    ensures forall i, j | 0 <= i < |us| && 0 <= j < |vs| :: us[i].prn != 0 ==> us[i].prn != vs[j].prn
  {
    var w := us + vs;
    assert forall i | 0 <= i < |us| :: w[i] == us[i];
    assert forall j | 0 <= j < |vs| :: w[|us| + j] == vs[j];
  }

  // The ledger balances: each nonzero register is free, committed, or the
  // destination of exactly one instruction in flight.
  ghost predicate Balanced(m: seq<nat>, us: seq<Uop>, free: seq<bool>) {
    && |m| > 0 && |free| > 0 && m[0] == 0
    && Consistent(m, us)
    && NoDup(Held(m, us))
    && (forall i | 0 <= i < |Held(m, us)| :: Held(m, us)[i] < |free|)
    && (forall p | 0 <= p < |free| :: free[p] <==> p != 0 && p !in Held(m, us))
  }

  function Release(free: seq<bool>, p: nat): (f: seq<bool>)
    ensures |f| == |free|
  {
    if p != 0 && p < |free| then free[p := true] else free
  }

  function Take(free: seq<bool>, p: nat): (f: seq<bool>)
    ensures |f| == |free|
  {
    if p < |free| then free[p := false] else free
  }

  // Held registers after the oldest instruction commits: the same ones, except
  // that its predecessor has left.
  lemma HeldAfterCommit(m: seq<nat>, us: seq<Uop>)
    requires us != [] && Renamed(m, us[0]) && us[0].arn != 0
    requires NoDup(Held(m, us))
    ensures var h, h' := Held(m, us), Held(Apply(m, us[0]), us[1..]);
      && NoDup(h')
      && (forall p :: p != 0 ==> (p in h' <==> p in h && p != us[0].prev))
  {
    hide Prns;
    var u, a := us[0], |m|;
    var h, h' := Held(m, us), Held(Apply(m, u), us[1..]);
    // h' is h without position u.arn, whose place position a takes.
    assert forall i | 0 <= i < |h'| :: h'[i] == h[if i == u.arn then a else if i < a then i else i + 1];
    assert h[u.arn] == u.prev;
    forall p | p != 0 && p in h && p != u.prev
      ensures p in h'
    {
      var i :| 0 <= i < |h| && h[i] == p;
      assert h'[if i == a then u.arn else if i < a then i else i - 1] == p;
    }
    assert u.prev != 0 ==> forall i | 0 <= i < |h'| :: h'[i] != u.prev;
  }

  lemma CommitKeepsBalance(m: seq<nat>, us: seq<Uop>, free: seq<bool>)
    requires Balanced(m, us, free) && us != []
    ensures Balanced(Apply(m, us[0]), us[1..], Release(free, us[0].prev))
  {
    hide Prns;
    var u := us[0];
    var h, h' := Held(m, us), Held(Apply(m, u), us[1..]);
    if u.arn != 0 {
      HeldAfterCommit(m, us);
      assert u.prev == h[u.arn];
    } else {
      assert forall i | 0 <= i < |h'| :: h'[i] == h[if i < |m| then i else i + 1];
      assert h[|m|] == 0;
      forall p | p != 0 && p in h
        ensures p in h'
      {
        var i :| 0 <= i < |h| && h[i] == p;
        assert h'[if i < |m| then i else i - 1] == p;
      }
    }
    forall i | 0 <= i < |h'|
      ensures h'[i] < |free|
    {
      assert h'[i] == 0 || h'[i] in h;
    }
  }

  lemma RenameKeepsBalance(m: seq<nat>, us: seq<Uop>, free: seq<bool>, u: Uop)
    requires Balanced(m, us, free) && InRange(us, |m|)
    requires Renamed(Fold(m, us), u)
    requires u.prn != 0 ==> u.prn < |free| && free[u.prn]
    ensures Balanced(m, us + [u], TakeOne(free, u))
  {
    ConsistentAppend(m, us, u);
    var h, h' := Held(m, us), Held(m, us + [u]);
    assert h' == h + [u.prn];
  }

  // Registers the oldest instructions give back when they commit together.
  function ReleaseAll(free: seq<bool>, us: seq<Uop>): (f: seq<bool>)
    ensures |f| == |free|
    decreases us
  {
    if us == [] then free else ReleaseAll(Release(free, us[0].prev), us[1..])
  }

  function TakeAll(free: seq<bool>, us: seq<Uop>): (f: seq<bool>)
    ensures |f| == |free|
    decreases us
  {
    if us == [] then free
    else TakeAll(TakeOne(free, us[0]), us[1..])
  }

  lemma {:induction false} CommitAll(m: seq<nat>, us: seq<Uop>, vs: seq<Uop>, free: seq<bool>)
    requires Balanced(m, us + vs, free) && InRange(us, |m|)
    ensures Balanced(Fold(m, us), vs, ReleaseAll(free, us))
    decreases us
  {
    if us == [] {
      assert us + vs == vs;
    } else {
      assert (us + vs)[1..] == us[1..] + vs;
      CommitKeepsBalance(m, us + vs, free);
      CommitAll(Apply(m, us[0]), us[1..], vs, Release(free, us[0].prev));
    }
  }

  // New instructions are well renamed when each sees the map its elders leave
  // and takes a register nobody has.
  ghost predicate FreshFrom(m: seq<nat>, us: seq<Uop>, free: seq<bool>)
    decreases us
  {
    us != [] ==>
      && Renamed(m, us[0])
      && (us[0].prn != 0 ==> us[0].prn < |free| && free[us[0].prn])
      && FreshFrom(Apply(m, us[0]), us[1..], TakeOne(free, us[0]))
  }

  function TakeOne(free: seq<bool>, u: Uop): (f: seq<bool>)
    ensures |f| == |free|
  {
    if u.prn != 0 then Take(free, u.prn) else free
  }

  lemma RenameOne(m: seq<nat>, us: seq<Uop>, vs: seq<Uop>, free: seq<bool>)
    requires Balanced(m, us, free) && InRange(us, |m|)
    requires vs != [] && FreshFrom(Fold(m, us), vs, free)
    ensures Balanced(m, us + [vs[0]], TakeOne(free, vs[0]))
    ensures InRange(us + [vs[0]], |m|)
    ensures FreshFrom(Fold(m, us + [vs[0]]), vs[1..], TakeOne(free, vs[0]))
  {
    RenameKeepsBalance(m, us, free, vs[0]);
    FoldSnoc(m, us, vs[0]);
  }

  lemma {:induction false} RenameAll(m: seq<nat>, us: seq<Uop>, vs: seq<Uop>, free: seq<bool>)
    requires Balanced(m, us, free) && InRange(us, |m|)
    requires FreshFrom(Fold(m, us), vs, free)
    ensures Balanced(m, us + vs, TakeAll(free, vs))
    ensures InRange(us + vs, |m|)
    decreases vs
  {
    hide Balanced;
    if vs == [] {
      assert us + vs == us;
    } else {
      RenameOne(m, us, vs, free);
      assert us + vs == us + [vs[0]] + vs[1..];
      RenameAll(m, us + [vs[0]], vs[1..], TakeOne(free, vs[0]));
    }
  }

  // ------------------------------------------------------------- counting

  ghost function Elems(h: seq<nat>): (s: set<nat>) {
    set p | p in h
  }

  lemma {:induction false} ElemsBound(h: seq<nat>)
    ensures |Elems(h)| <= |h|
  {
    if h != [] {
      ElemsBound(h[1..]);
      assert Elems(h) == Elems(h[1..]) + {h[0]};
    }
  }

  ghost function Free(free: seq<bool>): (s: set<nat>) {
    set p: nat | p < |free| && free[p]
  }

  ghost function UpTo(n: nat): (s: set<nat>)
    ensures |s| == n
    ensures forall p: nat :: p in s <==> p < n
  {
    if n == 0 then {} else UpTo(n - 1) + {n - 1}
  }

  // However the ledger got here, at least this many registers are free.
  lemma FreeAtLeast(m: seq<nat>, us: seq<Uop>, free: seq<bool>)
    requires Balanced(m, us, free)
    ensures |Free(free)| >= |free| - |m| - |us|
  {
    var all := UpTo(|free|);
    ElemsBound(Held(m, us));
    var f, e := Free(free), Elems(Held(m, us));
    assert m[0] == Held(m, us)[0];
    assert all <= f + e;
    Union(all, f, e);
  }

  lemma Union(all: set<nat>, f: set<nat>, e: set<nat>)
    requires all <= f + e
    ensures |all| <= |f| + |e|
  {
    assert f + e == all + ((f + e) - all);
    assert f + e == f + (e - f);
    assert e == (e - f) + (e * f);
  }

  // ------------------------------------------------------------- recovery

  // Exactly the registers outside the committed map become free again.
  function Rebuild(m: seq<nat>, n: nat): (f: seq<bool>)
    ensures |f| == n
    ensures forall p | 0 <= p < n :: f[p] <==> p !in m
  {
    seq(n, p requires 0 <= p < n => p !in m)
  }

  ghost predicate MapOk(m: seq<nat>, n: nat) {
    && |m| > 0 && n > 0 && m[0] == 0 && NoDup(m)
    && (forall i | 0 <= i < |m| :: m[i] < n)
  }

  lemma BalancedMapOk(m: seq<nat>, us: seq<Uop>, free: seq<bool>)
    requires Balanced(m, us, free)
    ensures MapOk(m, |free|)
  {
    assert forall i | 0 <= i < |m| :: m[i] == Held(m, us)[i];
  }

  lemma RebuildBalances(m: seq<nat>, n: nat)
    requires MapOk(m, n)
    ensures Balanced(m, [], Rebuild(m, n))
  {
    assert Held(m, []) == m;
  }
}
