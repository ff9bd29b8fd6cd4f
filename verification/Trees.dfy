/** Trees with numbered nodes, and the bounded search of them. */
module Trees {
  import opened Counting
  import opened Wrappers

  /** The index is the node's number in the table of nodes the tree was linked from. */
  datatype Tree = Tree(index: nat, kids: seq<Tree>)

  function Preorder(t: Tree): seq<nat>
    decreases t, 1
  {
    [t.index] + PreorderAll(t.kids)
  }

  function PreorderAll(ts: seq<Tree>): seq<nat>
    decreases ts, 0
  {
    if ts == [] then [] else Preorder(ts[0]) + PreorderAll(ts[1..])
  }

  function Size(t: Tree): nat {
    |Preorder(t)|
  }

  function SizeAll(ts: seq<Tree>): nat {
    |PreorderAll(ts)|
  }

  lemma {:induction false} PreorderAllConcat(a: seq<Tree>, b: seq<Tree>)
    ensures PreorderAll(a + b) == PreorderAll(a) + PreorderAll(b)
  {
    if a == [] {
      assert a + b == b;
    } else {
      assert (a + b)[1..] == a[1..] + b;
      PreorderAllConcat(a[1..], b);
    }
  }

  lemma PreorderAllSnoc(ts: seq<Tree>, t: Tree)
    ensures PreorderAll(ts + [t]) == PreorderAll(ts) + Preorder(t)
  {
    PreorderAllConcat(ts, [t]);
    PreorderAllOne(t);
  }

  lemma PreorderAllOne(t: Tree)
    ensures PreorderAll([t]) == Preorder(t)
  {
    assert PreorderAll([t]) == Preorder(t) + PreorderAll([t][1..]);
  }

  lemma PreorderAllFrom(ts: seq<Tree>, i: nat)
    requires i < |ts|
    ensures PreorderAll(ts[i..]) == Preorder(ts[i]) + PreorderAll(ts[i + 1..])
  {
    assert ts[i..][1..] == ts[i + 1..];
  }

  lemma PreorderAllLast(ts: seq<Tree>)
    requires ts != []
    ensures PreorderAll(ts) == PreorderAll(ts[..|ts| - 1]) + Preorder(ts[|ts| - 1])
  {
    hide PreorderAll, Preorder;
    var front, last := ts[..|ts| - 1], ts[|ts| - 1];
    assert ts == front + [last];
    PreorderAllSnoc(front, last);
  }

  /** Every tree of a list holds at least its own root. */
  lemma {:induction false} SizeAllAtLeast(ts: seq<Tree>)
    ensures SizeAll(ts) >= |ts|
  {
    if ts != [] {
      SizeAllAtLeast(ts[1..]);
      assert Preorder(ts[0]) == [ts[0].index] + PreorderAll(ts[0].kids);
    }
  }

  lemma {:induction false} InPreorderAll(ts: seq<Tree>, i: nat)
    requires i < |ts|
    ensures forall x :: x in Preorder(ts[i]) ==> x in PreorderAll(ts)
  {
    if i > 0 {
      InPreorderAll(ts[1..], i - 1);
    }
  }

  // ----- the search with a stack of 256 slots -----

  /** The slots of the stack; a push is refused once the top index has reached STACK_SLOTS - 1. */
  const STACK_SLOTS: nat := 256

  /** The part of `kids` that still finds room on a stack of height `height`. */
  function Room(height: nat, kids: nat): (r: nat)
    ensures r <= kids
    ensures height + r <= STACK_SLOTS - 1 || r == 0
    ensures r == kids || height + r >= STACK_SLOTS - 1
  {
    if height >= STACK_SLOTS - 1 then 0
    else if kids <= STACK_SLOTS - 1 - height then kids
    else STACK_SLOTS - 1 - height
  }

  function Popped(stack: seq<Tree>): seq<Tree>
    requires stack != []
  {
    var rest := stack[..|stack| - 1];
    var kids := stack[|stack| - 1].kids;
    rest + kids[..Room(|rest|, |kids|)]
  }

  lemma PoppedSmaller(stack: seq<Tree>)
    requires stack != []
    ensures SizeAll(Popped(stack)) < SizeAll(stack)
    ensures forall x :: x in PreorderAll(Popped(stack)) ==> x in PreorderAll(stack)
  {
    var rest := stack[..|stack| - 1];
    var kids := stack[|stack| - 1].kids;
    var k := Room(|rest|, |kids|);
    PreorderAllLast(stack);
    PreorderAllConcat(rest, kids[..k]);
    PreorderAllConcat(kids[..k], kids[k..]);
    assert kids[..k] + kids[k..] == kids;
  }

  /** The index the search stops at: the last entry is popped; if it is marked the search ends,
      else its children are pushed in order as long as there is room. */
  function Search(stack: seq<Tree>, marked: set<nat>): Option<nat>
    decreases SizeAll(stack)
  {
    if stack == [] then None
    else
      var t := stack[|stack| - 1];
      if t.index in marked then Some(t.index)
      else
        assert SizeAll(Popped(stack)) < SizeAll(stack) by { PoppedSmaller(stack); }
        Search(Popped(stack), marked)
  }

  /** What is found is a marked node of the tree. */
  lemma {:induction false} SearchSound(stack: seq<Tree>, marked: set<nat>)
    ensures var r := Search(stack, marked); r.Some? ==> r.value in marked && r.value in PreorderAll(stack)
    decreases SizeAll(stack)
  {
    if stack != [] {
      PreorderAllLast(stack);
      if stack[|stack| - 1].index !in marked {
        PoppedSmaller(stack);
        SearchSound(Popped(stack), marked);
      }
    }
  }

  /** No push is refused while nothing is marked. */
  predicate NothingDropped(stack: seq<Tree>)
    decreases SizeAll(stack)
  {
    if stack == [] then true
    else
      var kids := stack[|stack| - 1].kids;
      assert SizeAll(Popped(stack)) < SizeAll(stack) by { PoppedSmaller(stack); }
      Room(|stack| - 1, |kids|) == |kids| && NothingDropped(Popped(stack))
  }

  /** Then nothing is missed, for a search with marks only stops earlier. */
  lemma {:induction false} SearchComplete(stack: seq<Tree>, marked: set<nat>, x: nat)
    requires NothingDropped(stack)
    requires x in marked && x in PreorderAll(stack)
    ensures Search(stack, marked).Some?
    decreases SizeAll(stack)
  {
    assert stack != [];
    var t := stack[|stack| - 1];
    var rest := stack[..|stack| - 1];
    PreorderAllLast(stack);
    if t.index !in marked {
      assert t.kids[..|t.kids|] == t.kids;
      PreorderAllConcat(rest, t.kids);
      PoppedSmaller(stack);
      SearchComplete(Popped(stack), marked, x);
    }
  }

  /** With at most 256 nodes on the stack nothing is ever dropped. */
  lemma {:induction false} SmallDropsNothing(stack: seq<Tree>)
    requires SizeAll(stack) <= STACK_SLOTS
    ensures NothingDropped(stack)
    decreases SizeAll(stack)
  {
    if stack != [] {
      PreorderAllLast(stack);
      SizeAllAtLeast(stack[..|stack| - 1]);
      SizeAllAtLeast(stack[|stack| - 1].kids);
      PoppedSmaller(stack);
      SmallDropsNothing(Popped(stack));
    }
  }

  /** What one round keeps of the nodes on the stack, and what it drops. */
  lemma PoppedParts(stack: seq<Tree>)
    requires stack != []
    ensures var rest, t := PreorderAll(stack[..|stack| - 1]), stack[|stack| - 1];
            var k := Room(|stack| - 1, |t.kids|);
            PreorderAll(stack) == rest + ([t.index] + (PreorderAll(t.kids[..k]) + PreorderAll(t.kids[k..])))
            && PreorderAll(Popped(stack)) == rest + PreorderAll(t.kids[..k])
  {
    var t := stack[|stack| - 1];
    var k := Room(|stack| - 1, |t.kids|);
    PreorderAllLast(stack);
    PreorderAllConcat(t.kids[..k], t.kids[k..]);
    PreorderAllConcat(stack[..|stack| - 1], t.kids[..k]);
    assert t.kids[..k] + t.kids[k..] == t.kids;
  }

  lemma DistinctParts(rest: seq<nat>, i: nat, a: seq<nat>, b: seq<nat>)
    requires Distinct(rest + ([i] + (a + b)))
    ensures Distinct(rest + a) && i !in rest + a && forall x :: x in b ==> x != i && x !in rest + a
  {
    var s := rest + ([i] + (a + b));
    var n := |rest|;
    assert s[n] == i;
    forall x, y | 0 <= x < y < |rest + a| ensures (rest + a)[x] != (rest + a)[y] {
      assert (rest + a)[x] == s[if x < n then x else x + 1] && (rest + a)[y] == s[if y < n then y else y + 1];
    }
    forall x | 0 <= x < |rest + a| ensures (rest + a)[x] != i {
      assert (rest + a)[x] == s[if x < n then x else x + 1];
    }
    forall x | x in b ensures x != i && x !in rest + a {
      var y :| 0 <= y < |b| && b[y] == x;
      assert x == s[n + 1 + |a| + y];
      forall z | 0 <= z < |rest + a| ensures (rest + a)[z] != x {
        assert (rest + a)[z] == s[if z < n then z else z + 1];
      }
    }
  }

  /** A refused push loses a node for good: when that one is marked alone, the search finds nothing. */
  lemma {:induction false} DroppedIsLost(stack: seq<Tree>) returns (x: nat)
    requires !NothingDropped(stack) && Distinct(PreorderAll(stack))
    ensures x in PreorderAll(stack) && Search(stack, {x}) == None
    decreases SizeAll(stack)
  {
    var rest, t := PreorderAll(stack[..|stack| - 1]), stack[|stack| - 1];
    var k := Room(|stack| - 1, |t.kids|);
    PoppedParts(stack);
    PoppedSmaller(stack);
    DistinctParts(rest, t.index, PreorderAll(t.kids[..k]), PreorderAll(t.kids[k..]));
    if k < |t.kids| {
      x := t.kids[k].index;
      RootFirst(t.kids[k..]);
      SearchSound(Popped(stack), {x});
    } else {
      x := DroppedIsLost(Popped(stack));
    }
  }

  lemma RootFirst(ts: seq<Tree>)
    requires ts != []
    ensures ts[0].index in PreorderAll(ts)
  {
    assert Preorder(ts[0]) == [ts[0].index] + PreorderAll(ts[0].kids);
    assert PreorderAll(ts) == Preorder(ts[0]) + PreorderAll(ts[1..]);
  }

  ghost predicate SearchExact(t: Tree, marked: set<nat>) {
    Search([t], marked).Some? <==> exists x :: x in marked && x in Preorder(t)
  }

  /** On a given tree the search is exact, whatever is marked, if and only if it never refuses a push. */
  lemma TreeExactIff(t: Tree)
    requires Distinct(Preorder(t))
    ensures (forall marked :: SearchExact(t, marked)) <==> NothingDropped([t])
  {
    PreorderAllOne(t);
    if NothingDropped([t]) {
      forall marked ensures SearchExact(t, marked) {
        ExactWithout(t, marked);
      }
    } else {
      var x := DroppedIsLost([t]);
      assert !SearchExact(t, {x});
    }
  }

  lemma ExactWithout(t: Tree, marked: set<nat>)
    requires NothingDropped([t])
    ensures SearchExact(t, marked)
  {
    PreorderAllOne(t);
    SearchSound([t], marked);
    if x :| x in marked && x in Preorder(t) {
      SearchComplete([t], marked, x);
    }
  }

  lemma SearchExactUpTo256(t: Tree, marked: set<nat>)
    requires Size(t) <= STACK_SLOTS
    ensures SearchExact(t, marked)
  {
    PreorderAllOne(t);
    SmallDropsNothing([t]);
    ExactWithout(t, marked);
  }

  // ----- the smallest tree on which it fails -----

  function Leaves(first: nat, count: nat): seq<Tree> {
    seq(count, i requires 0 <= i => Tree(first + i, []))
  }

  /** A root with `n - 1` children, numbered 1 .. n - 1. */
  function Fan(n: nat): Tree
    requires n > 0
  {
    Tree(0, Leaves(1, n - 1))
  }

  lemma {:induction false} PreorderLeaves(first: nat, count: nat)
    ensures PreorderAll(Leaves(first, count)) == seq(count, i requires 0 <= i => first + i)
    decreases count
  {
    if count > 0 {
      assert Leaves(first, count)[1..] == Leaves(first + 1, count - 1);
      PreorderLeaves(first + 1, count - 1);
      assert Preorder(Tree(first, [])) == [first];
    }
  }

  lemma {:induction false} SearchLeaves(first: nat, count: nat, marked: set<nat>)
    requires forall x :: first <= x < first + count ==> x !in marked
    ensures Search(Leaves(first, count), marked) == None
  {
    var stack := Leaves(first, count);
    if count > 0 {
      assert Popped(stack) == Leaves(first, count - 1);
      PoppedSmaller(stack);
      SearchLeaves(first, count - 1, marked);
    }
  }

  /** From 257 nodes on there is a tree whose marked node is dropped. */
  lemma SearchDropsLastChild(n: nat)
    requires n > STACK_SLOTS
    ensures Size(Fan(n)) == n && !SearchExact(Fan(n), {n - 1})
  {
    var t := Fan(n);
    PreorderLeaves(1, n - 1);
    var pre := Preorder(t);
    assert pre[n - 1] == n - 1;
    assert n - 1 in pre;
    assert Popped([t]) == Leaves(1, STACK_SLOTS - 1);
    PoppedSmaller([t]);
    SearchLeaves(1, STACK_SLOTS - 1, {n - 1});
  }

  /** The search is exact on all trees of `n` nodes if and only if they have at most 256. */
  lemma SearchExactIff(n: nat)
    requires n > 0
    ensures (forall t, marked | Size(t) == n :: SearchExact(t, marked)) <==> n <= STACK_SLOTS
  {
    if n <= STACK_SLOTS {
      forall t, marked | Size(t) == n ensures SearchExact(t, marked) {
        SearchExactUpTo256(t, marked);
      }
    } else {
      SearchDropsLastChild(n);
    }
  }
}
