/** From a parent table to the one tree it describes. */
module Assembly {
  import opened Counting
  import opened ParentForest
  import opened Trees

  /** For every node, its children in order. */
  type Links = seq<seq<nat>>

  function LinksOf(p: seq<int>, end: nat): (links: Links)
    requires end <= |p|
    ensures |links| == |p|
  {
    seq(|p|, k requires 0 <= k < |p| => KidsBelow(p, k, end))
  }

  function Roots(ts: seq<Tree>): seq<nat> {
    seq(|ts|, i requires 0 <= i < |ts| => ts[i].index)
  }

  /** `t` is the tree that the links describe below its root. */
  predicate Shaped(t: Tree, links: Links)
    decreases t, 1
  {
    t.index < |links| && Roots(t.kids) == links[t.index] && ShapedAll(t.kids, links)
  }

  predicate ShapedAll(ts: seq<Tree>, links: Links)
    decreases ts, 0
  {
    forall i :: 0 <= i < |ts| ==> Shaped(ts[i], links)
  }

  /** A table whose every node reaches the top, and `root` is one of the tops. */
  ghost predicate Rooted(p: seq<int>, root: nat) {
    Parents(p) && root < |p| && p[root] == NO_PARENT
    && forall i :: 0 <= i < |p| ==> Grounded(p, i, |p|)
  }

  /** Position `i` is `|p| - fuel` links below `root`. */
  ghost predicate Level(p: seq<int>, root: nat, i: nat, fuel: nat) {
    Rooted(p, root) && fuel <= |p| && i < |p| && Up(p, i, |p| - fuel) == root
  }

  lemma UpSucc(p: seq<int>, x: nat, steps: nat)
    requires Parents(p) && x < |p| && Up(p, x, steps) != NO_PARENT
    ensures Up(p, x, steps + 1) == p[Up(p, x, steps)]
  {
    UpAdd(p, x, steps, 1);
    assert Up(p, Up(p, x, steps), 1) == Up(p, p[Up(p, x, steps)], 0);
  }

  lemma KidsLevel(p: seq<int>, root: nat, i: nat, fuel: nat)
    requires Level(p, root, i, fuel)
    ensures fuel > 0 && forall k :: k in KidsBelow(p, i, |p|) ==> Level(p, root, k, fuel - 1)
  {
    assert Grounded(p, i, |p|);
  }

  ghost function Build(p: seq<int>, root: nat, i: nat, fuel: nat): (t: Tree)
    requires Level(p, root, i, fuel)
    ensures t.index == i
    decreases fuel, 0
  {
    KidsLevel(p, root, i, fuel);
    Tree(i, BuildAll(p, root, KidsBelow(p, i, |p|), fuel - 1))
  }

  ghost function BuildAll(p: seq<int>, root: nat, ks: seq<nat>, fuel: nat): (ts: seq<Tree>)
    requires forall k :: k in ks ==> Level(p, root, k, fuel)
    ensures |ts| == |ks| && forall j :: 0 <= j < |ks| ==> ts[j].index == ks[j]
    decreases fuel, |ks|
  {
    if ks == [] then [] else [Build(p, root, ks[0], fuel)] + BuildAll(p, root, ks[1..], fuel)
  }

  lemma {:induction false} BuildShaped(p: seq<int>, root: nat, i: nat, fuel: nat)
    requires Level(p, root, i, fuel)
    ensures Shaped(Build(p, root, i, fuel), LinksOf(p, |p|))
    decreases fuel, 0
  {
    KidsLevel(p, root, i, fuel);
    var ks := KidsBelow(p, i, |p|);
    BuildAllShaped(p, root, ks, fuel - 1);
    assert Roots(Build(p, root, i, fuel).kids) == ks;
  }

  lemma {:induction false} BuildAllShaped(p: seq<int>, root: nat, ks: seq<nat>, fuel: nat)
    requires forall k :: k in ks ==> Level(p, root, k, fuel)
    ensures ShapedAll(BuildAll(p, root, ks, fuel), LinksOf(p, |p|))
    decreases fuel, |ks|
  {
    if ks != [] {
      BuildShaped(p, root, ks[0], fuel);
      BuildAllShaped(p, root, ks[1..], fuel);
    }
  }

  /** Every node of a built tree has its root as an ancestor. */
  lemma {:induction false} BuildSound(p: seq<int>, root: nat, i: nat, fuel: nat, x: nat) returns (steps: nat)
    requires Level(p, root, i, fuel) && x in Preorder(Build(p, root, i, fuel))
    ensures x < |p| && Up(p, x, steps) == i
    decreases fuel, 0
  {
    if x == i {
      steps := 0;
    } else {
      KidsLevel(p, root, i, fuel);
      var k;
      k, steps := BuildAllSound(p, root, KidsBelow(p, i, |p|), fuel - 1, x);
      UpSucc(p, x, steps);
      steps := steps + 1;
    }
  }

  lemma {:induction false} BuildAllSound(p: seq<int>, root: nat, ks: seq<nat>, fuel: nat, x: nat)
    returns (k: nat, steps: nat)
    requires forall k :: k in ks ==> Level(p, root, k, fuel)
    requires x in PreorderAll(BuildAll(p, root, ks, fuel))
    ensures k in ks && x < |p| && Up(p, x, steps) == k
    decreases fuel, |ks|
  {
    if x in Preorder(Build(p, root, ks[0], fuel)) {
      k := ks[0];
      steps := BuildSound(p, root, k, fuel, x);
    } else {
      k, steps := BuildAllSound(p, root, ks[1..], fuel, x);
    }
  }

  /** Every node with `i` among its ancestors is in the tree built at `i`. */
  lemma {:induction false} BuildComplete(p: seq<int>, root: nat, i: nat, fuel: nat, x: nat, steps: nat)
    requires Level(p, root, i, fuel) && x < |p| && Up(p, x, steps) == i
    ensures x in Preorder(Build(p, root, i, fuel))
    decreases steps
  {
    if steps > 0 {
      UpAdd(p, x, steps - 1, 1);
      var k := Up(p, x, steps - 1);
      UpSucc(p, x, steps - 1);
      KidsLevel(p, root, i, fuel);
      BuildComplete(p, root, k, fuel - 1, x, steps - 1);
      KidInBuild(p, root, i, fuel, k, x);
    }
  }

  lemma KidInBuild(p: seq<int>, root: nat, i: nat, fuel: nat, k: nat, x: nat)
    requires Level(p, root, i, fuel) && fuel > 0 && k in KidsBelow(p, i, |p|) && Level(p, root, k, fuel - 1)
    requires x in Preorder(Build(p, root, k, fuel - 1))
    ensures x in Preorder(Build(p, root, i, fuel))
  {
    KidsLevel(p, root, i, fuel);
    var ks := KidsBelow(p, i, |p|);
    var j :| 0 <= j < |ks| && ks[j] == k;
    hide Level, KidsBelow;
    BuildAllAt(p, root, ks, fuel - 1, j);
    InPreorderAll(BuildAll(p, root, ks, fuel - 1), j);
  }

  lemma {:induction false} BuildAllAt(p: seq<int>, root: nat, ks: seq<nat>, fuel: nat, j: nat)
    requires forall k :: k in ks ==> Level(p, root, k, fuel)
    requires j < |ks|
    ensures BuildAll(p, root, ks, fuel)[j] == Build(p, root, ks[j], fuel)
  {
    if j > 0 {
      BuildAllAt(p, root, ks[1..], fuel, j - 1);
    }
  }

  lemma UpFromTop(p: seq<int>, root: nat, steps: nat)
    requires Parents(p) && root < |p| && p[root] == NO_PARENT && steps > 0
    ensures Up(p, root, steps) == NO_PARENT
  {
    assert Up(p, root, steps) == Up(p, NO_PARENT, steps - 1);
  }

  /** A node has one ancestor per level. */
  lemma LevelUnique(p: seq<int>, root: nat, x: nat, a: nat, s: nat, b: nat, t: nat, fuel: nat)
    requires Level(p, root, a, fuel) && Level(p, root, b, fuel)
    requires x < |p| && Up(p, x, s) == a && Up(p, x, t) == b && s <= t
    ensures a == b
  {
    var d := |p| - fuel;
    UpAdd(p, x, s, d);
    UpAdd(p, x, t, d);
    UpAdd(p, x, s + d, t - s);
  }

  lemma {:induction false} BuildDistinct(p: seq<int>, root: nat, i: nat, fuel: nat)
    requires Level(p, root, i, fuel)
    ensures Distinct(Preorder(Build(p, root, i, fuel)))
    decreases fuel, 0
  {
    KidsLevel(p, root, i, fuel);
    var ks := KidsBelow(p, i, |p|);
    BuildAllDistinct(p, root, ks, fuel - 1);
    var below := PreorderAll(BuildAll(p, root, ks, fuel - 1));
    forall x | x in below ensures x != i {
      var k, s := BuildAllSound(p, root, ks, fuel - 1, x);
      // i is on the level of `fuel`, x at least one below it
      UpAdd(p, x, s, |p| - (fuel - 1));
      UpAdd(p, i, |p| - fuel, s + 1);
      UpFromTop(p, root, s + 1);
    }
    DistinctConcat([i], below);
  }

  lemma {:induction false} BuildAllDistinct(p: seq<int>, root: nat, ks: seq<nat>, fuel: nat)
    requires Distinct(ks) && forall k :: k in ks ==> Level(p, root, k, fuel)
    ensures Distinct(PreorderAll(BuildAll(p, root, ks, fuel)))
    decreases fuel, |ks|
  {
    if ks != [] {
      BuildDistinct(p, root, ks[0], fuel);
      BuildAllDistinct(p, root, ks[1..], fuel);
      var first := Preorder(Build(p, root, ks[0], fuel));
      forall x | x in first ensures x !in PreorderAll(BuildAll(p, root, ks[1..], fuel)) {
        var s := BuildSound(p, root, ks[0], fuel, x);
        if x in PreorderAll(BuildAll(p, root, ks[1..], fuel)) {
          var k, t := BuildAllSound(p, root, ks[1..], fuel, x);
          if s <= t {
            LevelUnique(p, root, x, ks[0], s, k, t, fuel);
          } else {
            LevelUnique(p, root, x, k, t, ks[0], s, fuel);
          }
        }
      }
      DistinctConcat(first, PreorderAll(BuildAll(p, root, ks[1..], fuel)));
    }
  }

  // ----- the assembled snapshot tree -----

  /** The tree below position `root` of a parent table with a single top. */
  ghost function TreeOf(p: seq<int>, root: nat): (t: Tree)
    requires Rooted(p, root)
  {
    Build(p, root, root, |p|)
  }

  /** With a single top, the tree contains every node exactly once. */
  lemma TreeOfAll(p: seq<int>, root: nat)
    requires Rooted(p, root) && forall i :: 0 <= i < |p| && i != root ==> p[i] != NO_PARENT
    ensures Shaped(TreeOf(p, root), LinksOf(p, |p|))
    ensures Distinct(Preorder(TreeOf(p, root)))
    ensures forall x :: x in Preorder(TreeOf(p, root)) <==> 0 <= x < |p|
    ensures Size(TreeOf(p, root)) == |p|
  {
    BuildShaped(p, root, root, |p|);
    BuildDistinct(p, root, root, |p|);
    var pre := Preorder(TreeOf(p, root));
    forall x | x in pre ensures 0 <= x < |p| {
      var s := BuildSound(p, root, root, |p|, x);
    }
    forall x: nat | x < |p| ensures x in pre {
      var s := StepsToTop(p, root, x, |p|);
      BuildComplete(p, root, root, |p|, x, s);
    }
    DistinctCover(pre, |p|);
  }

  lemma {:induction false} StepsToTop(p: seq<int>, root: nat, x: nat, bound: nat) returns (steps: nat)
    requires Parents(p) && root < |p| && p[root] == NO_PARENT
    requires forall i :: 0 <= i < |p| && i != root ==> p[i] != NO_PARENT
    requires x < |p| && Grounded(p, x, bound)
    ensures Up(p, x, steps) == root
    decreases bound
  {
    if x == root {
      steps := 0;
    } else {
      steps := StepsToTop(p, root, p[x], bound - 1);
      steps := steps + 1;
    }
  }

  ghost predicate Reaches(p: seq<int>, x: int, root: int)
    requires Parents(p) && NO_PARENT <= x < |p|
  {
    exists s: nat :: Up(p, x, s) == root
  }

  /** Every node hangs, at whatever distance, under `root`. */
  ghost predicate AllReachable(p: seq<int>, root: nat)
    requires Parents(p)
  {
    root < |p| && forall x :: 0 <= x < |p| ==> Reaches(p, x, root)
  }

  /** All nodes hang under the first root exactly when the parent names form no cycle. */
  lemma AssembledIff(r: seq<int>)
    requires Parents(r) && |r| > 0
    ensures AllReachable(Hung(r), FirstRoot(r, 0)) <==> Acyclic(r)
    ensures Acyclic(r) ==> FirstRoot(r, 0) < |r| && Rooted(Hung(r), FirstRoot(r, 0))
  {
    HungAcyclicIff(r);
    if Acyclic(r) {
      AcyclicReaches(r);
    } else if AllReachable(Hung(r), FirstRoot(r, 0)) {
      ReachableIsAcyclic(Hung(r), FirstRoot(r, 0));
    }
  }

  lemma AcyclicReaches(r: seq<int>)
    requires Parents(r) && |r| > 0 && Acyclic(Hung(r))
    ensures FirstRoot(r, 0) < |r| && Rooted(Hung(r), FirstRoot(r, 0))
    ensures AllReachable(Hung(r), FirstRoot(r, 0))
  {
    var p, root := Hung(r), FirstRoot(r, 0);
    AcyclicIff(p);
    AcyclicGrounds(p, 0);
    if root == |r| {
      NoTop(p, 0, |p|);
    }
    forall x | 0 <= x < |p| ensures Reaches(p, x, root) {
      var s := StepsToTop(p, root, x, |p|);
    }
  }

  lemma ReachableIsAcyclic(p: seq<int>, root: nat)
    requires Parents(p) && AllReachable(p, root) && p[root] == NO_PARENT
    ensures Acyclic(p)
  {
    forall x | 0 <= x < |p| ensures Grounded(p, x, |p|) {
      assert Reaches(p, x, root);
      var s: nat :| Up(p, x, s) == root;
      UpAdd(p, x, s, 1);
      UpFromTop(p, root, 1);
      GroundedWithin(p, x, s + 1);
    }
    AcyclicIff(p);
  }

  lemma {:induction false} NoTop(p: seq<int>, i: nat, steps: nat)
    requires Parents(p) && i < |p| && forall k :: 0 <= k < |p| ==> p[k] != NO_PARENT
    ensures Up(p, i, steps) != NO_PARENT
    decreases steps
  {
    if steps > 0 {
      NoTop(p, p[i], steps - 1);
    }
  }

  /** Whoever reaches the top at all does so within |p| links: no cycle starts at `x`. */
  lemma GroundedWithin(p: seq<int>, x: nat, bound: nat)
    requires Parents(p) && x < |p| && Grounded(p, x, bound)
    ensures Grounded(p, x, |p|)
  {
    if !Grounded(p, x, |p|) {
      var a, steps := ChainRepeats(p, x);
      if bound >= a {
        UpAdd(p, x, a, bound - a);
        GroundedIsNoCycle(p, Up(p, x, a), steps, bound - a);
      } else {
        UpAdd(p, x, bound, a - bound);
      }
    }
  }

  // ----- one more leaf -----

  /** `t` with a leaf as the new last child of node `at`. */
  function Grown(t: Tree, at: nat, leaf: nat): (g: Tree)
    ensures g.index == t.index
    decreases t, 1
  {
    Tree(t.index, GrownAll(t.kids, at, leaf) + if t.index == at then [Tree(leaf, [])] else [])
  }

  function GrownAll(ts: seq<Tree>, at: nat, leaf: nat): (gs: seq<Tree>)
    ensures |gs| == |ts| && Roots(gs) == Roots(ts)
    decreases ts, 0
  {
    if ts == [] then [] else
      var gs := [Grown(ts[0], at, leaf)] + GrownAll(ts[1..], at, leaf);
      assert Roots(gs) == [ts[0].index] + Roots(ts[1..]) == Roots(ts);
      gs
  }

  function GrownLinks(links: Links, at: nat): Links
    requires at < |links|
  {
    links[at := links[at] + [|links|]] + [[]]
  }

  lemma {:induction false} GrownShaped(t: Tree, links: Links, at: nat)
    requires Shaped(t, links) && at < |links|
    ensures Shaped(Grown(t, at, |links|), GrownLinks(links, at))
    decreases t, 1
  {
    GrownAllShaped(t.kids, links, at);
    var g := Grown(t, at, |links|);
    var leaf := Tree(|links|, []);
    assert Shaped(leaf, GrownLinks(links, at));
    assert Roots(g.kids) == Roots(GrownAll(t.kids, at, |links|)) + if t.index == at then [|links|] else [];
  }

  lemma {:induction false} GrownAllShaped(ts: seq<Tree>, links: Links, at: nat)
    requires ShapedAll(ts, links) && at < |links|
    ensures ShapedAll(GrownAll(ts, at, |links|), GrownLinks(links, at))
    decreases ts, 0
  {
    if ts != [] {
      GrownShaped(ts[0], links, at);
      GrownAllShaped(ts[1..], links, at);
    }
  }

  lemma {:induction false} GrownCount(t: Tree, at: nat, leaf: nat)
    ensures Size(Grown(t, at, leaf)) == Size(t) + multiset(Preorder(t))[at]
    decreases t, 1
  {
    GrownAllCount(t.kids, at, leaf);
    PreorderAllConcat(GrownAll(t.kids, at, leaf), if t.index == at then [Tree(leaf, [])] else []);
    PreorderAllOne(Tree(leaf, []));
    assert Preorder(Tree(leaf, [])) == [leaf];
  }

  lemma {:induction false} GrownAllCount(ts: seq<Tree>, at: nat, leaf: nat)
    ensures SizeAll(GrownAll(ts, at, leaf)) == SizeAll(ts) + multiset(PreorderAll(ts))[at]
    decreases ts, 0
  {
    if ts != [] {
      GrownCount(ts[0], at, leaf);
      GrownAllCount(ts[1..], at, leaf);
    }
  }

  /** In a tree without repeated nodes exactly one node is gained. */
  lemma GrownByOne(t: Tree, at: nat, leaf: nat)
    requires Distinct(Preorder(t)) && at in Preorder(t)
    ensures Size(Grown(t, at, leaf)) == Size(t) + 1
  {
    GrownCount(t, at, leaf);
    DistinctOnce(Preorder(t), at);
  }
}
