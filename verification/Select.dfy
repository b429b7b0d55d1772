/**
  The scan-and-overwrite selectors of the load and store queues: a loop runs
  over a request vector and lets a later hit overwrite the index. Scanning a
  doubled vector whose one half is masked by age turns lowest index into oldest,
  and highest index into youngest, of a circular queue.
 */
module Select {
  import opened Ring

  predicate Any(v: seq<bool>) {
    exists k | 0 <= k < |v| :: v[k]
  }

  // Lowest set index at or above k, 0 if there is none.
  function FirstFrom(v: seq<bool>, k: nat): (i: nat)
    requires k <= |v|
    ensures i < |v| || i == 0
    ensures (exists j | k <= j < |v| :: v[j]) ==> k <= i < |v| && v[i] && forall j | k <= j < i :: !v[j]
    decreases |v| - k
  {
    if k == |v| then 0 else if v[k] then k else FirstFrom(v, k + 1)
  }

  function First(v: seq<bool>): (i: nat)
    ensures i < |v| || i == 0
    ensures Any(v) ==> i < |v| && v[i] && forall j | 0 <= j < i :: !v[j]
  {
    FirstFrom(v, 0)
  }

  // Highest set index below n, 0 if there is none.
  function LastBelow(v: seq<bool>, n: nat): (i: nat)
    requires n <= |v|
    ensures i < n || i == 0
    ensures (exists j | 0 <= j < n :: v[j]) ==> i < n && v[i] && forall j | i < j < n :: !v[j]
  {
    if n == 0 then 0 else if v[n - 1] then n - 1 else LastBelow(v, n - 1)
  }

  function Last(v: seq<bool>): (i: nat)
    ensures i < |v| || i == 0
    ensures Any(v) ==> i < |v| && v[i] && forall j | i < j < |v| :: !v[j]
  {
    LastBelow(v, |v|)
  }

  // Requests at or behind head, the age mask of the oldest-first selectors.
  function FromHead(v: seq<bool>, head: nat): (r: seq<bool>)
    ensures |r| == |v|
  {
    seq(|v|, i requires 0 <= i < |v| => v[i] && i >= head)
  }

  // Requests not past the youngest store, the age mask of the forwarding scan.
  function UpTo(v: seq<bool>, youngest: nat): (r: seq<bool>)
    ensures |r| == |v|
  {
    seq(|v|, i requires 0 <= i < |v| => v[i] && i <= youngest)
  }

  // The low bits of an index into a doubled vector.
  function Fold(i: nat, d: nat): (r: nat)
    requires i < 2 * d || i == 0
    ensures d > 0 ==> r < d
  {
    if i >= d && d > 0 then i - d else i
  }

  function Oldest(v: seq<bool>, head: nat): (i: nat)
    ensures i < |v| || i == 0
  {
    Fold(First(FromHead(v, head) + v), |v|)
  }

  function Youngest(v: seq<bool>, youngest: nat): (i: nat)
    ensures i < |v| || i == 0
  {
    Fold(Last(v + UpTo(v, youngest)), |v|)
  }

  // The choice between the two builds: LSQ_OLDEST_FIRST or lowest index.
  function Pick(oldestFirst: bool, v: seq<bool>, head: nat): (i: nat)
    ensures i < |v| || i == 0
  {
    if oldestFirst then Oldest(v, head) else First(v)
  }

  // The doubled scan finds the first request going round from head.
  lemma OldestIsFirstInRing(v: seq<bool>, head: nat)
    requires head < |v| && Any(v)
    ensures var i := Oldest(v, head);
      i < |v| && v[i] && forall j | 0 <= j < |v| && v[j] :: Off(head, i, |v|) <= Off(head, j, |v|)
  {
    var w := FromHead(v, head) + v;
    var k :| 0 <= k < |v| && v[k];
    assert w[|v| + k];
    var f := First(w);
    forall j | 0 <= j < |v| && v[j]
      ensures Off(head, Oldest(v, head), |v|) <= Off(head, j, |v|)
    {
      assert w[|v| + j] && (j >= head ==> w[j]);
    }
  }

  // The doubled scan finds the last request of the circular run of lim slots
  // that starts at head and ends at youngest.
  lemma YoungestIsLastInRing(v: seq<bool>, head: nat, lim: nat, youngest: nat)
    requires head < |v| && 0 < lim <= |v| && youngest == Slot(head, lim - 1, |v|) && Any(v)
    requires forall j | 0 <= j < |v| && v[j] :: Off(head, j, |v|) < lim
    ensures var i := Youngest(v, youngest);
      i < |v| && v[i] && forall j | 0 <= j < |v| && v[j] :: Off(head, j, |v|) <= Off(head, i, |v|)
  {
    var w := v + UpTo(v, youngest);
    var k :| 0 <= k < |v| && v[k];
    assert w[k];
    var f := Last(w);
    var i := Youngest(v, youngest);
    assert v[i];
    forall j | 0 <= j < |v| && v[j]
      ensures Off(head, j, |v|) <= Off(head, i, |v|)
    {
      assert w[j] && (j <= youngest ==> w[|v| + j]);
    }
  }

  // ------------------------------------------------------------- the loops

  method LowestIndex(v: seq<bool>) returns (idx: nat)
    ensures idx == First(v)
  {
    idx := 0;
    var i := |v|;
    while i > 0
      invariant 0 <= i <= |v|
      invariant idx == FirstFrom(v, i)
    {
      i := i - 1;
      if v[i] {
        idx := i;
      }
    }
  }

  method OldestIndex(v: seq<bool>, head: nat) returns (idx: nat)
    requires head < |v|
    ensures Any(v) ==> idx < |v| && v[idx] && forall j | 0 <= j < |v| && v[j] :: Off(head, idx, |v|) <= Off(head, j, |v|)
    ensures idx == Oldest(v, head)
  {
    var double := FromHead(v, head) + v;
    var wide := LowestIndex(double);
    idx := Fold(wide, |v|);
    if Any(v) {
      OldestIsFirstInRing(v, head);
    }
  }

  method YoungestIndex(v: seq<bool>, youngest: nat) returns (found: bool, idx: nat)
    ensures found == Any(v) && idx == Youngest(v, youngest)
  {
    var double := v + UpTo(v, youngest);
    var wide, i := 0, 0;
    found := false;
    while i < |double|
      invariant 0 <= i <= |double|
      invariant wide == LastBelow(double, i)
      invariant found <==> exists k | 0 <= k < i :: double[k]
    {
      if double[i] {
        wide, found := i, true;
      }
      i := i + 1;
    }
    idx := Fold(wide, |v|);
    assert found ==> Any(v);
    if Any(v) {
      var k :| 0 <= k < |v| && v[k];
      assert double[k];
    }
  }
}
