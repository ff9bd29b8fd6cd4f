/** src/snapshot.c: the recursive queries on a linked tree, and the search that hangs the
    "current state" node under the current snapshot. */
module SnapshotTree {
  import opened Assembly
  import opened Counting
  import opened Snapshots
  import opened Trees
  import opened Wrappers

  /** `root` is the top of the linked tree that `t` describes. */
  ghost predicate IsTree(root: SnapshotNode, t: Tree, nodes: seq<SnapshotNode>, links: Links)
    reads nodes, Arrays(nodes)
  {
    |links| == |nodes| && t.index < |nodes| && Linked(nodes, links) && Shaped(t, links) && root == nodes[t.index]
  }

  lemma KidCount(root: SnapshotNode, t: Tree, nodes: seq<SnapshotNode>, links: Links)
    requires IsTree(root, t, nodes, links)
    ensures root.Valid() && root.childCount == |t.kids|
  {
    assert root.Kids() == Pick(nodes, links[t.index]);
  }

  lemma KidIsTree(root: SnapshotNode, t: Tree, nodes: seq<SnapshotNode>, links: Links, i: nat)
    requires IsTree(root, t, nodes, links) && i < |t.kids|
    ensures root.Valid() && root.childCount == |t.kids|
    ensures root.children[i] != null && IsTree(root.children[i], t.kids[i], nodes, links)
  {
    assert links[t.index] == Roots(t.kids) && ShapedAll(t.kids, links);
    assert root.Kids()[i] == Pick(nodes, links[t.index])[i];
  }

  method Count(root: SnapshotNode?, ghost t: Tree, ghost nodes: seq<SnapshotNode>, ghost links: Links)
    returns (count: nat)
    requires root != null ==> IsTree(root, t, nodes, links)
    ensures count == if root == null then 0 else Size(t)
    decreases t
  {
    if root == null {
      return 0;
    }
    count := 1;
    KidCount(root, t, nodes, links);
    for i := 0 to root.childCount
      invariant count == 1 + SizeAll(t.kids[..i])
    {
      KidIsTree(root, t, nodes, links, i);
      var c := Count(root.children[i], t.kids[i], nodes, links);
      count := count + c;
      assert t.kids[..i + 1] == t.kids[..i] + [t.kids[i]];
      PreorderAllSnoc(t.kids[..i], t.kids[i]);
    }
    assert t.kids[..|t.kids|] == t.kids;
  }

  predicate Within(order: seq<nat>, n: nat) {
    forall i :: 0 <= i < |order| ==> order[i] < n
  }

  lemma {:induction false} ShapedWithin(t: Tree, links: Links)
    requires Shaped(t, links)
    ensures Within(Preorder(t), |links|)
    decreases t, 1
  {
    ShapedAllWithin(t.kids, links);
  }

  lemma {:induction false} ShapedAllWithin(ts: seq<Tree>, links: Links)
    requires ShapedAll(ts, links)
    ensures Within(PreorderAll(ts), |links|)
    decreases ts, 0
  {
    if ts != [] {
      ShapedWithin(ts[0], links);
      ShapedAllWithin(ts[1..], links);
    }
  }

  /** The first node of `order` whose id is `id`. */
  function FirstById(ids: seq<string>, order: seq<nat>, id: string): (r: Option<nat>)
    requires Within(order, |ids|)
    ensures r.Some? ==> r.value in order && r.value < |ids| && ids[r.value] == id
  {
    if order == [] then None
    else if ids[order[0]] == id then Some(order[0])
    else FirstById(ids, order[1..], id)
  }

  lemma {:induction false} FirstByIdConcat(ids: seq<string>, a: seq<nat>, b: seq<nat>, id: string)
    requires Within(a, |ids|) && Within(b, |ids|) && Within(a + b, |ids|)
    ensures FirstById(ids, a + b, id) == if FirstById(ids, a, id).Some? then FirstById(ids, a, id) else FirstById(ids, b, id)
  {
    if a == [] {
      assert a + b == b;
    } else {
      assert (a + b)[1..] == a[1..] + b;
      FirstByIdConcat(ids, a[1..], b, id);
    }
  }

  /** Nothing is missed: whoever carries the id is found, or someone before it in the order is. */
  lemma {:induction false} FirstByIdNone(ids: seq<string>, order: seq<nat>, id: string, i: nat)
    requires Within(order, |ids|) && i < |order| && ids[order[i]] == id
    ensures FirstById(ids, order, id).Some?
  {
    if i > 0 && ids[order[0]] != id {
      FirstByIdNone(ids, order[1..], id, i - 1);
    }
  }

  /** With distinct ids the search is an exact lookup: it returns the one node with that id. */
  lemma FirstByIdUnique(ids: seq<string>, order: seq<nat>, i: nat)
    requires Within(order, |ids|) && Distinct(ids) && i < |order|
    ensures FirstById(ids, order, ids[order[i]]) == Some(order[i])
  {
    FirstByIdNone(ids, order, ids[order[i]], i);
  }

  /** The node with id `id` that a depth-first walk over `ts` meets first. */
  function FirstIn(ts: seq<Tree>, ids: seq<string>, links: Links, id: string): (r: Option<nat>)
    requires ShapedAll(ts, links) && |ids| == |links|
    ensures r.Some? ==> r.value < |links| && ids[r.value] == id
  {
    ShapedAllWithin(ts, links);
    FirstById(ids, PreorderAll(ts), id)
  }

  lemma FirstInSplit(ts: seq<Tree>, i: nat, ids: seq<string>, links: Links, id: string)
    requires ShapedAll(ts, links) && |ids| == |links| && i < |ts|
    ensures FirstIn(ts[i..], ids, links, id) ==
            if FirstIn([ts[i]], ids, links, id).Some? then FirstIn([ts[i]], ids, links, id)
            else FirstIn(ts[i + 1..], ids, links, id)
  {
    ShapedAllWithin(ts[i..], links);
    ShapedWithin(ts[i], links);
    ShapedAllWithin(ts[i + 1..], links);
    PreorderAllFrom(ts, i);
    PreorderAllOne(ts[i]);
    hide FirstById, PreorderAll, Preorder, Shaped, Within;
    FirstByIdConcat(ids, Preorder(ts[i]), PreorderAll(ts[i + 1..]), id);
  }

  lemma FirstInRoot(t: Tree, ids: seq<string>, links: Links, id: string)
    requires Shaped(t, links) && |ids| == |links|
    ensures ShapedAll(t.kids, links)
    ensures FirstIn([t], ids, links, id) == if ids[t.index] == id then Some(t.index) else FirstIn(t.kids, ids, links, id)
  {
    ShapedWithin(t, links);
    ShapedAllWithin(t.kids, links);
    PreorderAllOne(t);
    assert Preorder(t) == [t.index] + PreorderAll(t.kids);
    assert FirstById(ids, [t.index], id) == if ids[t.index] == id then Some(t.index) else FirstById(ids, [], id);
    FirstByIdConcat(ids, [t.index], PreorderAll(t.kids), id);
  }

  /** Depth-first lookup by id: the node itself, then its children from left to right. */
  method Find(root: SnapshotNode?, id: Option<string>,
              ghost t: Tree, ghost nodes: seq<SnapshotNode>, ghost links: Links)
    returns (found: SnapshotNode?)
    requires root != null ==> IsTree(root, t, nodes, links)
    ensures root == null || id.None? ==> found == null
    ensures root != null && id.Some? ==>
              found == match FirstIn([t], Ids(nodes), links, id.value)
                       case None => null
                       case Some(x) => if x < |nodes| then nodes[x] else null
    decreases t
  {
    hide FirstIn, Shaped, Pick;
    if root == null || id.None? {
      return null;
    }
    ghost var ids := Ids(nodes);
    ghost var kids := t.kids;
    FirstInRoot(t, ids, links, id.value);
    if root.id == id.value {
      return root;
    }
    KidCount(root, t, nodes, links);
    assert kids[0..] == kids;
    for i := 0 to root.childCount
      invariant ShapedAll(kids[i..], links)
      invariant FirstIn(kids, ids, links, id.value) == FirstIn(kids[i..], ids, links, id.value)
    {
      KidIsTree(root, t, nodes, links, i);
      FirstInSplit(kids, i, ids, links, id.value);
      found := Find(root.children[i], id, kids[i], nodes, links);
      if found != null {
        return found;
      }
    }
    FirstInNone(ids, links, id.value);
    return null;
  }

  lemma FirstInNone(ids: seq<string>, links: Links, id: string)
    requires |ids| == |links|
    ensures FirstIn([], ids, links, id) == None
  {
  }

  // ----- the "current state" node -----

  const STATE_ID := "__current_state__"
  const DESCRIPTION_BUFFER: nat := 128

  /** snprintf into the description buffer: one byte is kept for the NUL. */
  function Clip(s: string): (r: string)
    ensures r <= s && |r| <= 127
    ensures |s| <= 127 ==> r == s
    ensures |s| > 127 ==> |r| == 127
  {
    if |s| >= DESCRIPTION_BUFFER then s[..DESCRIPTION_BUFFER - 1] else s
  }

  function Marked(nodes: seq<SnapshotNode>): set<nat> {
    set i | 0 <= i < |nodes| && nodes[i].isCurrent
  }

  /** A node of its own joins the table. */
  lemma LinkedSnoc(nodes: seq<SnapshotNode>, links: Links, n: SnapshotNode)
    requires Linked(nodes, links) && n !in nodes && n.children !in Arrays(nodes) && n.Valid() && n.Kids() == []
    ensures Linked(nodes + [n], links + [[]])
  {
    forall k | 0 <= k < |nodes| ensures Pick(nodes + [n], links[k]) == Pick(nodes, links[k]) {
      forall i | 0 <= i < |links[k]| ensures links[k][i] < |nodes| {
        assert links[k][i] in links[k];
      }
    }
  }

  /** The stack mirrors a list of subtrees. */
  ghost predicate Stacked(stack: array<SnapshotNode?>, top: nat, ts: seq<Tree>,
                          nodes: seq<SnapshotNode>, links: Links)
    reads stack
  {
    && |links| == |nodes| && top == |ts| <= stack.Length && ShapedAll(ts, links)
    && forall k :: 0 <= k < top ==> ts[k].index < |nodes| && stack[k] == nodes[ts[k].index]
  }

  method Push(stack: array<SnapshotNode?>, top: nat, n: SnapshotNode?,
              ghost ts: seq<Tree>, ghost t: Tree, ghost nodes: seq<SnapshotNode>, ghost links: Links)
    requires Stacked(stack, top, ts, nodes, links) && top < stack.Length
    requires Shaped(t, links) && n == nodes[t.index]
    modifies stack
    ensures Stacked(stack, top + 1, ts + [t], nodes, links)
  {
    stack[top] := n;
    assert forall k :: 0 <= k < top ==> (ts + [t])[k] == ts[k];
  }

  /** Pushes the children of `n` while there is room. */
  method PushKids(stack: array<SnapshotNode?>, top: nat, n: SnapshotNode,
                  ghost ts: seq<Tree>, ghost t: Tree, ghost nodes: seq<SnapshotNode>, ghost links: Links)
    returns (top': nat)
    requires stack.Length == STACK_SLOTS && top < STACK_SLOTS && stack !in Arrays(nodes)
    requires Stacked(stack, top, ts, nodes, links) && IsTree(n, t, nodes, links)
    modifies stack
    ensures top' < STACK_SLOTS
    ensures Stacked(stack, top', ts + t.kids[..Room(top, |t.kids|)], nodes, links)
  {
    hide Shaped, Pick, InTable, Stacked, Linked;
    top' := top;
    var i := 0;
    KidCount(n, t, nodes, links);
    assert ts + t.kids[..0] == ts;
    while i < n.childCount && top' < STACK_SLOTS - 1
      invariant 0 <= i <= |t.kids| == n.childCount && top' == top + i < STACK_SLOTS
      invariant Linked(nodes, links)
      invariant Stacked(stack, top', ts + t.kids[..i], nodes, links)
    {
      KidIsTree(n, t, nodes, links, i);
      assert ts + t.kids[..i + 1] == (ts + t.kids[..i]) + [t.kids[i]];
      Push(stack, top', n.children[i], ts + t.kids[..i], t.kids[i], nodes, links);
      top' := top' + 1;
      i := i + 1;
    }
  }

  /** The walk over the whole tree with a stack of 256 slots. */
  method FindCurrent(root: SnapshotNode, ghost t: Tree, ghost nodes: seq<SnapshotNode>, ghost links: Links)
    returns (current: SnapshotNode?)
    requires IsTree(root, t, nodes, links)
    ensures current == match Search([t], Marked(nodes)) case None => null case Some(c) => if c < |nodes| then nodes[c] else null
  {
    hide Linked, Room, Pick;
    var stack := new SnapshotNode?[STACK_SLOTS](_ => null);
    assert stack !in Arrays(nodes);
    var top: nat := 1;
    Push(stack, 0, root, [], t, nodes, links);
    ghost var ts := [t];
    assert [] + [t] == ts;
    while top > 0
      invariant top < STACK_SLOTS && |links| == |nodes| && stack !in Arrays(nodes) && Linked(nodes, links)
      invariant Stacked(stack, top, ts, nodes, links)
      invariant Search(ts, Marked(nodes)) == Search([t], Marked(nodes))
      decreases SizeAll(ts)
    {
      top := top - 1;
      var n := stack[top];
      if n.isCurrent {
        return n;
      }
      ghost var last := ts[top];
      PoppedSmaller(ts);
      assert IsTree(n, last, nodes, links);
      assert Stacked(stack, top, ts[..top], nodes, links);
      top := PushKids(stack, top, n, ts[..top], last, nodes, links);
      ts := Popped(ts);
    }
    return null;
  }

  /** The search returns a node of the tree, hence of the table. */
  lemma FoundInTable(t: Tree, links: Links, nodes: seq<SnapshotNode>)
    requires Shaped(t, links) && |links| == |nodes|
    ensures var r := Search([t], Marked(nodes)); r.Some? ==> r.value < |nodes| && r.value in Preorder(t)
  {
    SearchSound([t], Marked(nodes));
    PreorderAllOne(t);
    ShapedWithin(t, links);
  }

  /** The current snapshot: the root, or whatever the two searches come up with. */
  method LocateCurrent(root: SnapshotNode, ghost t: Tree, ghost nodes: seq<SnapshotNode>, ghost links: Links)
    returns (current: SnapshotNode?)
    requires IsTree(root, t, nodes, links)
    ensures current == match Search([t], Marked(nodes)) case None => null case Some(c) => if c < |nodes| then nodes[c] else null
  {
    hide Shaped, Pick;
    current := null;
    if root.isCurrent {
      current := root;
    } else {
      KidCount(root, t, nodes, links);
      for i := 0 to root.childCount
        invariant current == null
      {
        KidIsTree(root, t, nodes, links, i);
        // a lookup without an id: it never finds anything
        current := Find(root.children[i], None, t.kids[i], nodes, links);
      }
    }
    if current == null {
      current := FindCurrent(root, t, nodes, links);
    }
  }

  /** What the "current state" node under node `at` looks like. */
  ghost predicate StateUnder(n: SnapshotNode, vmState: string, isDirty: bool, parent: SnapshotNode)
    reads n
  {
    && n.id == STATE_ID && n.kind == CurrentState && !n.isCurrent && n.isDirty == isDirty
    && n.description == Clip(if isDirty then vmState + " (modified)" else vmState)
    && n.parent == parent
  }

  method HangState(current: SnapshotNode, vmState: string, isDirty: bool, ghost at: nat,
                   ghost nodes: seq<SnapshotNode>, ghost links: Links)
    returns (state: SnapshotNode)
    requires |links| == |nodes| && at < |nodes| && current == nodes[at] && Linked(nodes, links)
    modifies current`children, current`childCount, current`childCapacity, current.children
    ensures fresh(state) && StateUnder(state, vmState, isDirty, current)
    ensures Linked(nodes + [state], GrownLinks(links, at))
  {
    hide Clip;
    var description := Clip(if isDirty then vmState + " (modified)" else vmState);
    state := new SnapshotNode(STATE_ID, description, "", CurrentState, false);
    state.isDirty := isDirty;
    LinkedSnoc(nodes, links, state);
    Attach(current, state, nodes + [state], at, |nodes|, links + [[]]);
    assert (links + [[]])[at := links[at] + [|nodes|]] == GrownLinks(links, at);
  }

  /** snapshot_tree_add_current_state.  The node that is hung is returned as a ghost. */
  method AddCurrentState(root: SnapshotNode?, vmState: string, isDirty: bool,
                         ghost t: Tree, ghost nodes: seq<SnapshotNode>, ghost links: Links)
    returns (ghost added: SnapshotNode?)
    requires root != null ==> IsTree(root, t, nodes, links)
    modifies nodes, Arrays(nodes)
    ensures root == null || Search([t], Marked(nodes)).None? ==> added == null && unchanged(nodes) && unchanged(Arrays(nodes))
    ensures root != null && Search([t], Marked(nodes)).Some? ==>
              var at := Search([t], Marked(nodes)).value;
              && at < |nodes| && added != null && fresh(added) && StateUnder(added, vmState, isDirty, nodes[at])
              && IsTree(root, Grown(t, at, |nodes|), nodes + [added], GrownLinks(links, at))
    ensures forall n :: n in nodes ==> n.parent == old(n.parent) && n.isDirty == old(n.isDirty)
  {
    hide Shaped, Search, Linked, StateUnder;
    added := null;
    if root == null {
      return;
    }
    var current := LocateCurrent(root, t, nodes, links);
    FoundInTable(t, links, nodes);
    if current == null {
      return;
    }
    ghost var at := Search([t], Marked(nodes)).value;
    GrownShaped(t, links, at);
    var state := HangState(current, vmState, isDirty, at, nodes, links);
    added := state;
  }

  /** In a tree of at most 256 nodes the state node appears exactly when some node is current, and
      then the tree gains exactly that one node, under a current node. */
  lemma StateAppears(t: Tree, nodes: seq<SnapshotNode>, links: Links)
    requires Shaped(t, links) && |links| == |nodes| && Distinct(Preorder(t)) && Size(t) <= STACK_SLOTS
    ensures var r := Search([t], Marked(nodes));
            && (r.Some? <==> exists i :: 0 <= i < |nodes| && i in Preorder(t) && nodes[i].isCurrent)
            && (r.Some? ==> r.value < |nodes| && nodes[r.value].isCurrent
                            && Size(Grown(t, r.value, |nodes|)) == Size(t) + 1)
  {
    SearchExactUpTo256(t, Marked(nodes));
    FoundInTable(t, links, nodes);
    SearchSound([t], Marked(nodes));
    ShapedWithin(t, links);
    var r := Search([t], Marked(nodes));
    if r.Some? {
      GrownByOne(t, r.value, |nodes|);
    }
    if x :| x in Marked(nodes) && x in Preorder(t) {
      assert nodes[x].isCurrent;
    }
  }
}
