/**
  The four-grant priority selector (verilog/psel_gen.v over verilog/wand_sel.v).
  Even grants look for the highest free request, odd grants for the lowest, and
  a later grant gives way when an earlier one already holds its choice.
 */
module Psel {

  datatype Grant = None | Some(idx: nat)

  ghost function Requests(req: seq<bool>): (s: set<nat>) {
    set i: nat | i < |req| && req[i]
  }

  function Highest(req: seq<bool>): (g: Grant)
    ensures g.None? <==> Requests(req) == {}
    ensures g.Some? ==> g.idx in Requests(req) && forall i | i in Requests(req) :: i <= g.idx
  {
    if req == [] then None
    else if req[|req| - 1] then
      assert |req| - 1 in Requests(req);
      Some(|req| - 1)
    else
      assert Requests(req) == Requests(req[..|req| - 1]);
      Highest(req[..|req| - 1])
  }

  function LowestFrom(req: seq<bool>, lo: nat): (g: Grant)
    requires lo <= |req|
    ensures g.None? <==> forall i: nat | lo <= i < |req| :: !req[i]
    ensures g.Some? ==> lo <= g.idx < |req| && req[g.idx] && forall i: nat | lo <= i < g.idx :: !req[i]
    decreases |req| - lo
  {
    if lo == |req| then None
    else if req[lo] then Some(lo)
    else LowestFrom(req, lo + 1)
  }

  function Lowest(req: seq<bool>): (g: Grant)
    ensures g.None? <==> Requests(req) == {}
    ensures g.Some? ==> g.idx in Requests(req) && forall i | i in Requests(req) :: g.idx <= i
  {
    var g := LowestFrom(req, 0);
    assert g.Some? ==> g.idx in Requests(req);
    g
  }

  function Without(req: seq<bool>, g: Grant): (r: seq<bool>)
    ensures |r| == |req|
    ensures Requests(r) == Requests(req) - (if g.Some? then {g.idx} else {})
  {
    seq(|req|, i requires 0 <= i < |req| => req[i] && g != Some(i))
  }

  // A grant is dropped when an earlier line already took the same request.
  function Masked(g: Grant, held: Grant): Grant {
    if g == held then None else g
  }

  // gnt_bus, one grant per line.
  function Grants(req: seq<bool>): (gs: seq<Grant>)
    ensures |gs| == 4
  {
    var top, bottom := Highest(req), Lowest(req);
    var g0 := top;
    var g1 := Masked(bottom, g0);
    var g2 := Masked(Highest(Without(req, top)), g1);
    var g3 := Masked(Masked(Lowest(Without(req, bottom)), g0), g2);
    [g0, g1, g2, g3]
  }

  lemma GrantsDistinct(req: seq<bool>)
    ensures forall k | 0 <= k < 4 && Grants(req)[k].Some? :: Grants(req)[k].idx in Requests(req)
    ensures forall j, k | 0 <= j < k < 4 && Grants(req)[j].Some? :: Grants(req)[j] != Grants(req)[k]
  {
  }

  // With four requests outstanding, every line gets one.
  lemma GrantsAll(req: seq<bool>)
    requires |Requests(req)| >= 4
    ensures forall k | 0 <= k < 4 :: Grants(req)[k].Some?
  {
    hide Highest, Lowest;
    var s := Requests(req);
    var a := Another(s, {});
    var top, bottom := Highest(req), Lowest(req);
    var b := Another(s, {top.idx});
    assert top != bottom;
    var r, q := Requests(Without(req, top)), Requests(Without(req, bottom));
    assert b in r && top.idx in q;
    var top2, bottom2 := Highest(Without(req, top)), Lowest(Without(req, bottom));
    var c := Another(s, {top.idx, bottom.idx});
    assert c in r && c in q;
    assert top2 != bottom && bottom2 != top;
    var e := Another(s, {top.idx, top2.idx, bottom.idx});
    assert e in r && e in q;
  }

  // With at most four, every request is granted.
  lemma GrantsEach(req: seq<bool>, i: nat)
    requires |Requests(req)| <= 4 && i in Requests(req)
    ensures exists k :: 0 <= k < 4 && Grants(req)[k] == Some(i)
  {
    var s, gs := Requests(req), Grants(req);
    var top, bottom := Highest(req), Lowest(req);
    if i == top.idx {
      assert gs[0] == Some(i);
    } else if i == bottom.idx {
      assert gs[1] == Some(i);
    } else {
      assert i in Requests(Without(req, top)) && i in Requests(Without(req, bottom));
      var top2, bottom2 := Highest(Without(req, top)), Lowest(Without(req, bottom));
      assert bottom.idx < bottom2.idx <= i <= top2.idx < top.idx;
      assert gs[2] == top2;
      if i < top2.idx {
        assert gs[3] == bottom2;
        if bottom2.idx < i {
          SubsetSize({bottom.idx, bottom2.idx, i, top2.idx, top.idx}, s);
        }
      }
      assert gs[2] == Some(i) || gs[3] == Some(i);
    }
  }

  // A set with more elements than t has one outside t.
  lemma Another(s: set<nat>, t: set<nat>) returns (x: nat)
    requires |s| > |t|
    ensures x in s && x !in t
  {
    if s <= t {
      SubsetSize(s, t);
    }
    x :| x in s && x !in t;
  }

  lemma SubsetSize(s: set<nat>, t: set<nat>)
    requires s <= t
    ensures |s| <= |t|
  {
    assert t == s + (t - s);
  }
}
