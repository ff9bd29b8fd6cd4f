/** Parent names resolved to positions: which node hangs under which after tree assembly, and
    when that relation is one tree. */
module ParentForest {
  import opened Counting
  import opened Wrappers
  import opened Trees

  const NO_PARENT: int := -1

  /** The first position, from `j` on and other than `i`, whose id is the parent name of `i`. */
  function ResolveFrom(ids: seq<string>, name: Option<string>, i: nat, j: nat): (r: int)
    requires j <= |ids|
    ensures r == NO_PARENT || j <= r < |ids|
    ensures r != NO_PARENT ==> r != i && name == Some(ids[r])
    ensures r != NO_PARENT ==> forall k :: j <= k < r ==> k == i || name != Some(ids[k])
    ensures r == NO_PARENT ==> forall k :: j <= k < |ids| ==> k == i || name != Some(ids[k])
    decreases |ids| - j
  {
    if j == |ids| then NO_PARENT
    else if j != i && name == Some(ids[j]) then j
    else ResolveFrom(ids, name, i, j + 1)
  }

  /** A parent table: one entry per node, NO_PARENT or a position. */
  predicate Parents(p: seq<int>) {
    forall i :: 0 <= i < |p| ==> NO_PARENT <= p[i] < |p|
  }

  function Resolved(ids: seq<string>, names: seq<Option<string>>): (r: seq<int>)
    requires |names| == |ids|
    ensures |r| == |ids| && Parents(r)
  {
    seq(|ids|, i requires 0 <= i < |ids| => ResolveFrom(ids, names[i], i, 0))
  }

  /** The first node without a resolved parent (the number of nodes if there is none). */
  function FirstRoot(r: seq<int>, from: nat): (k: nat)
    requires from <= |r|
    ensures from <= k <= |r|
    ensures forall i :: from <= i < k ==> r[i] != NO_PARENT
    ensures k < |r| ==> r[k] == NO_PARENT
    decreases |r| - from
  {
    if from == |r| || r[from] == NO_PARENT then from else FirstRoot(r, from + 1)
  }

  /** Where assembly hangs every node: under its resolved parent, else under the first root. */
  function Hung(r: seq<int>): (p: seq<int>)
    requires Parents(r)
    ensures |p| == |r| && Parents(p)
  {
    var root := FirstRoot(r, 0);
    seq(|r|, i requires 0 <= i < |r| => if r[i] != NO_PARENT then r[i] else if i == root then NO_PARENT else root)
  }

  /** The nodes below position `end` that hang under `k`, in input order. */
  function KidsBelow(p: seq<int>, k: nat, end: nat): (s: seq<nat>)
    requires end <= |p|
    ensures forall x :: x in s <==> 0 <= x < end && p[x] == k
    ensures Distinct(s)
  {
    if end == 0 then []
    else
      var s := KidsBelow(p, k, end - 1);
      if p[end - 1] == k then s + [end - 1] else s
  }

  lemma {:induction false} KidsInInputOrder(p: seq<int>, k: nat, end: nat, a: nat, b: nat)
    requires end <= |p| && a < b < |KidsBelow(p, k, end)|
    ensures KidsBelow(p, k, end)[a] < KidsBelow(p, k, end)[b]
  {
    var s := KidsBelow(p, k, end - 1);
    if b < |s| {
      KidsInInputOrder(p, k, end - 1, a, b);
    } else {
      assert s[a] in s;
    }
  }

  // ----- ancestors and cycles -----

  /** `steps` times the parent of `i`; NO_PARENT once the top has been passed. */
  function Up(p: seq<int>, i: int, steps: nat): (a: int)
    requires Parents(p) && NO_PARENT <= i < |p|
    ensures NO_PARENT <= a < |p|
    decreases steps
  {
    if steps == 0 || i == NO_PARENT then i else Up(p, p[i], steps - 1)
  }

  lemma {:induction false} UpAdd(p: seq<int>, i: int, a: nat, b: nat)
    requires Parents(p) && NO_PARENT <= i < |p|
    ensures Up(p, i, a + b) == Up(p, Up(p, i, a), b)
    decreases a
  {
    if a > 0 && i != NO_PARENT {
      UpAdd(p, p[i], a - 1, b);
    }
  }

  ghost predicate OnCycle(p: seq<int>, i: int, steps: nat)
    requires Parents(p)
  {
    0 <= i < |p| && steps > 0 && Up(p, i, steps) == i
  }

  ghost predicate Acyclic(p: seq<int>)
    requires Parents(p)
  {
    forall i, steps :: !OnCycle(p, i, steps)
  }

  /** `i` lies below a top node, `steps - 1` links away from it. */
  predicate Grounded(p: seq<int>, i: int, steps: nat)
    requires Parents(p) && NO_PARENT <= i < |p|
  {
    Up(p, i, steps) == NO_PARENT
  }

  /** Whoever does not reach the top within |p| links comes past some node twice. */
  lemma ChainRepeats(p: seq<int>, i: nat) returns (a: nat, steps: nat)
    requires Parents(p) && i < |p| && !Grounded(p, i, |p|)
    ensures 0 <= Up(p, i, a) < |p| && OnCycle(p, Up(p, i, a), steps)
  {
    var chain := seq(|p| + 1, k requires 0 <= k => Up(p, i, k));
    forall k | 0 <= k < |chain| ensures 0 <= chain[k] < |p| {
      UpAdd(p, i, k, |p| - k);
    }
    Pigeonhole(chain, |p|);
    var x, y :| 0 <= x < y < |chain| && chain[x] == chain[y];
    UpAdd(p, i, x, y - x);
    a, steps := x, y - x;
  }

  /** Without cycles every node reaches the top within |p| links. */
  lemma AcyclicGrounds(p: seq<int>, i: nat)
    requires Parents(p) && Acyclic(p) && i < |p|
    ensures Grounded(p, i, |p|)
  {
    if !Grounded(p, i, |p|) {
      var a, steps := ChainRepeats(p, i);
    }
  }

  lemma {:induction false} GroundedIsNoCycle(p: seq<int>, i: int, steps: nat, bound: nat)
    requires Parents(p) && OnCycle(p, i, steps) && 0 <= i < |p|
    ensures !Grounded(p, i, bound)
    decreases bound
  {
    if bound >= steps {
      UpAdd(p, i, steps, bound - steps);
      GroundedIsNoCycle(p, i, steps, bound - steps);
    } else {
      UpAdd(p, i, bound, steps - bound);
    }
  }

  /** Reaching the top from everywhere is the same as having no cycle. */
  lemma AcyclicIff(p: seq<int>)
    requires Parents(p)
    ensures Acyclic(p) <==> forall i :: 0 <= i < |p| ==> Grounded(p, i, |p|)
  {
    if Acyclic(p) {
      forall i | 0 <= i < |p| ensures Grounded(p, i, |p|) { AcyclicGrounds(p, i); }
    } else {
      var i, steps :| OnCycle(p, i, steps);
      GroundedIsNoCycle(p, i, steps, |p|);
    }
  }

  /** Hanging the leftover roots under the first one neither makes nor breaks a cycle. */
  lemma HungAcyclicIff(r: seq<int>)
    requires Parents(r)
    ensures Acyclic(Hung(r)) <==> Acyclic(r)
  {
    var p := Hung(r);
    if Acyclic(r) {
      forall i, steps | 0 <= i < |p| ensures !OnCycle(p, i, steps) {
        AcyclicGrounds(r, i);
        HungGrounds(r, i, |r|);
        if OnCycle(p, i, steps) {
          GroundedIsNoCycle(p, i, steps, |r| + 1);
        }
      }
    } else {
      var i, steps :| OnCycle(r, i, steps);
      HungAgrees(r, i, steps);
      assert OnCycle(p, i, steps);
    }
  }

  lemma {:induction false} HungAgrees(r: seq<int>, i: nat, steps: nat)
    requires Parents(r) && i < |r| && Up(r, i, steps) != NO_PARENT
    ensures Up(Hung(r), i, steps) == Up(r, i, steps)
    decreases steps
  {
    if steps > 0 {
      HungAgrees(r, r[i], steps - 1);
    }
  }

  lemma {:induction false} HungGrounds(r: seq<int>, i: nat, steps: nat)
    requires Parents(r) && i < |r| && Grounded(r, i, steps)
    ensures Grounded(Hung(r), i, steps + 1)
    decreases steps
  {
    var p := Hung(r);
    if r[i] != NO_PARENT {
      HungGrounds(r, r[i], steps - 1);
    } else if p[i] != NO_PARENT {
      assert p[p[i]] == NO_PARENT;
      assert Up(p, p[i], steps) == Up(p, p[p[i]], steps - 1);
    }
  }
}
