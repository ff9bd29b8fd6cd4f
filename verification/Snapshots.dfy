/** The heap nodes of a snapshot tree and the loop that links them. */
module Snapshots {
  import opened Assembly
  import opened Counting
  import opened ParentForest
  import opened Trees
  import opened Wrappers

  const INITIAL_CHILD_CAPACITY: nat := 4

  datatype SnapshotKind = Internal | External | CurrentState

  class SnapshotNode {
    const id: string
    const description: string
    const creationTime: string
    const kind: SnapshotKind
    const isCurrent: bool
    var isDirty: bool
    var parent: SnapshotNode?
    var children: array<SnapshotNode?>
    var childCount: nat
    var childCapacity: nat

    ghost predicate Valid()
      reads this, children
    {
      && childCapacity == children.Length > 0
      && childCount <= childCapacity
      && forall i :: 0 <= i < childCount ==> children[i] != null
    }

    ghost function Kids(): (s: seq<SnapshotNode?>)
      requires Valid()
      reads this, children
    {
      children[..childCount]
    }

    constructor (id: string, description: string, creationTime: string, kind: SnapshotKind, isCurrent: bool)
      ensures this.id == id && this.description == description && this.creationTime == creationTime
      ensures this.kind == kind && this.isCurrent == isCurrent && !isDirty
      ensures parent == null && fresh(children) && Valid() && Kids() == []
    {
      this.id := id;
      this.description := description;
      this.creationTime := creationTime;
      this.kind := kind;
      this.isCurrent := isCurrent;
      isDirty := false;
      parent := null;
      childCount := 0;
      childCapacity := INITIAL_CHILD_CAPACITY;
      children := new SnapshotNode?[INITIAL_CHILD_CAPACITY](_ => null);
    }

    /** Appends `child`; a full child array is first replaced by one of twice the capacity. */
    method AddChild(child: SnapshotNode)
      requires Valid()
      modifies this`children, this`childCount, this`childCapacity, children, child`parent
      ensures Valid() && Kids() == old(Kids()) + [child]
      ensures child.parent == this
      ensures children == old(children) || fresh(children)
    {
      if childCount == childCapacity {
        var newCapacity := childCapacity * 2;
        var tmp := new SnapshotNode?[newCapacity](_ => null);
        for i := 0 to childCount
          invariant children == old(children) && children[..] == old(children[..])
          invariant childCount == old(childCount) && childCapacity == old(childCapacity)
          invariant forall k :: 0 <= k < i ==> tmp[k] == children[k]
        {
          tmp[i] := children[i];
        }
        children := tmp;
        childCapacity := newCapacity;
      }
      children[childCount] := child;
      childCount := childCount + 1;
      child.parent := this;
    }
  }

  // ----- a set of linked nodes, numbered by a table -----

  function Pick(nodes: seq<SnapshotNode>, s: seq<nat>): seq<SnapshotNode?>
    requires forall x :: x in s ==> x < |nodes|
  {
    seq(|s|, i requires 0 <= i < |s| => assert s[i] in s; nodes[s[i]])
  }

  ghost function Arrays(nodes: seq<SnapshotNode>): set<array<SnapshotNode?>>
    reads nodes
  {
    set n | n in nodes :: n.children
  }

  predicate InTable(links: Links) {
    forall k, x :: 0 <= k < |links| && x in links[k] ==> x < |links|
  }

  /** Distinct nodes with child arrays of their own, linked exactly as `links` says. */
  ghost predicate Linked(nodes: seq<SnapshotNode>, links: Links)
    reads nodes, Arrays(nodes)
  {
    && |links| == |nodes| && InTable(links)
    && (forall i, j :: 0 <= i < j < |nodes| ==> nodes[i] != nodes[j] && nodes[i].children != nodes[j].children)
    && (forall k :: 0 <= k < |nodes| ==> nodes[k].Valid() && nodes[k].Kids() == Pick(nodes, links[k]))
  }

  /** Parent pointers agree with a parent table. */
  ghost predicate ParentsAgree(nodes: seq<SnapshotNode>, p: seq<int>)
    reads nodes
  {
    && |p| == |nodes| && Parents(p)
    && forall i :: 0 <= i < |nodes| ==> nodes[i].parent == if p[i] == NO_PARENT then null else nodes[p[i]]
  }

  /** Hangs node `c` under node `j` and leaves every other link alone. */
  method Attach(parent: SnapshotNode, child: SnapshotNode,
                ghost nodes: seq<SnapshotNode>, ghost j: nat, ghost c: nat, ghost links: Links)
    requires Linked(nodes, links) && j < |nodes| && c < |nodes| && parent == nodes[j] && child == nodes[c]
    modifies parent`children, parent`childCount, parent`childCapacity, parent.children, child`parent
    ensures Linked(nodes, links[j := links[j] + [c]])
    ensures child.parent == parent
    ensures forall k :: 0 <= k < |nodes| && k != c ==> nodes[k].parent == old(nodes[k].parent)
    ensures parent.children == old(parent.children) || fresh(parent.children)
    ensures forall k :: 0 <= k < |nodes| && k != j ==> nodes[k].children == old(nodes[k].children)
  {
    parent.AddChild(child);
    ghost var links' := links[j := links[j] + [c]];
    assert Pick(nodes, links'[j]) == Pick(nodes, links[j]) + [nodes[c]];
    forall k | 0 <= k < |nodes|
      ensures nodes[k].Valid() && nodes[k].Kids() == Pick(nodes, links'[k])
    {
      if k != j {
        assert old(nodes[k].Valid() && nodes[k].Kids() == Pick(nodes, links[k]));
      }
    }
  }

  function Ids(nodes: seq<SnapshotNode>): seq<string> {
    seq(|nodes|, i requires 0 <= i < |nodes| => nodes[i].id)
  }

  function Unlinked(n: nat): Links {
    seq(n, _ => [])
  }

  /** The links and parent pointers after the first `end` nodes have been hung by table `p`. */
  ghost predicate HungUpTo(nodes: seq<SnapshotNode>, p: seq<int>, end: nat)
    reads nodes, Arrays(nodes)
  {
    && |p| == |nodes| && Parents(p) && end <= |p| && Linked(nodes, LinksOf(p, end))
    && forall k :: 0 <= k < |nodes| ==>
         nodes[k].parent == if k < end && p[k] != NO_PARENT then nodes[p[k]] else null
  }

  method HangNext(parent: SnapshotNode, nodes: seq<SnapshotNode>, ghost p: seq<int>, i: nat)
    requires HungUpTo(nodes, p, i) && i < |nodes| && p[i] != NO_PARENT && parent == nodes[p[i]]
    modifies parent, parent.children, nodes[i]
    ensures HungUpTo(nodes, p, i + 1)
    ensures fresh(Arrays(nodes) - old(Arrays(nodes)))
  {
    hide Linked;
    assert LinksOf(p, i + 1) == LinksOf(p, i)[p[i] := KidsBelow(p, p[i], i) + [i]];
    Attach(parent, nodes[i], nodes, p[i], i, LinksOf(p, i));
  }

  lemma StaysTop(nodes: seq<SnapshotNode>, p: seq<int>, i: nat)
    requires HungUpTo(nodes, p, i) && i < |nodes| && p[i] == NO_PARENT
    ensures HungUpTo(nodes, p, i + 1)
  {
    assert LinksOf(p, i + 1) == LinksOf(p, i);
  }

  /** The state of phase 2 before node `i` is placed. */
  ghost predicate Phase2(nodes: seq<SnapshotNode>, names: seq<Option<string>>, i: nat, root: SnapshotNode?)
    requires |names| == |nodes|
    reads nodes, Arrays(nodes)
  {
    var r := Resolved(Ids(nodes), names);
    && HungUpTo(nodes, Hung(r), i)
    && root == if FirstRoot(r, 0) < i then nodes[FirstRoot(r, 0)] else null
  }

  lemma Phase2Starts(nodes: seq<SnapshotNode>, names: seq<Option<string>>)
    requires |names| == |nodes| && Linked(nodes, Unlinked(|nodes|))
    requires forall n :: n in nodes ==> n.parent == null
    ensures Phase2(nodes, names, 0, null)
  {
    assert Unlinked(|nodes|) == LinksOf(Hung(Resolved(Ids(nodes), names)), 0);
  }

  /** One round of phase 2: node `i` goes under the first other node with its parent's name; a
      node without a usable parent becomes the root, or goes under the root found earlier. */
  method LinkNode(nodes: seq<SnapshotNode>, names: seq<Option<string>>, i: nat, root: SnapshotNode?)
    returns (root': SnapshotNode?)
    requires |names| == |nodes| && i < |nodes| && Phase2(nodes, names, i, root)
    modifies nodes, Arrays(nodes)
    ensures Phase2(nodes, names, i + 1, root')
    ensures fresh(Arrays(nodes) - old(Arrays(nodes)))
  {
    hide Linked, LinksOf, InTable;
    ghost var r := Resolved(Ids(nodes), names);
    if names[i].Some? {
      for j := 0 to |nodes|
        invariant r[i] == ResolveFrom(Ids(nodes), names[i], i, j)
      {
        if j != i && nodes[j].id == names[i].value {
          HangNext(nodes[j], nodes, Hung(r), i);
          return root;
        }
      }
    }
    if root == null {
      StaysTop(nodes, Hung(r), i);
      return nodes[i];
    }
    HangNext(root, nodes, Hung(r), i);
    return root;
  }

  /** Phase 2 of lv_list_snapshots.  The nodes come in any order, `names[i]` is the parent name
      found in the XML of node `i`.  Root is null when every node names another one. */
  method LinkNodes(nodes: seq<SnapshotNode>, names: seq<Option<string>>) returns (root: SnapshotNode?)
    requires |names| == |nodes| && Linked(nodes, Unlinked(|nodes|))
    requires forall n :: n in nodes ==> n.parent == null
    modifies nodes, Arrays(nodes)
    ensures Phase2(nodes, names, |nodes|, root)
    ensures fresh(Arrays(nodes) - old(Arrays(nodes)))
  {
    hide Phase2, Linked, Unlinked, Ids;
    root := null;
    Phase2Starts(nodes, names);
    for i := 0 to |nodes|
      invariant Phase2(nodes, names, i, root)
      invariant fresh(Arrays(nodes) - old(Arrays(nodes)))
    {
      root := LinkNode(nodes, names, i, root);
    }
  }

  /** What phase 2 leaves behind when the parent names form no cycle: one tree under `root` that
      holds every node once, with links and parent pointers as the parent table says. */
  lemma Phase2Builds(nodes: seq<SnapshotNode>, names: seq<Option<string>>, root: SnapshotNode?)
    requires |names| == |nodes| > 0 && Phase2(nodes, names, |nodes|, root)
    requires Acyclic(Resolved(Ids(nodes), names))
    ensures var r := Resolved(Ids(nodes), names);
            var links := LinksOf(Hung(r), |nodes|);
            && FirstRoot(r, 0) < |nodes| && root == nodes[FirstRoot(r, 0)] && root.parent == null
            && Linked(nodes, links) && ParentsAgree(nodes, Hung(r))
            && Rooted(Hung(r), FirstRoot(r, 0))
            && var t := TreeOf(Hung(r), FirstRoot(r, 0));
            && Shaped(t, links) && t.index == FirstRoot(r, 0) && Distinct(Preorder(t))
            && Size(t) == |nodes| && forall x :: x in Preorder(t) <==> 0 <= x < |nodes|
  {
    var r := Resolved(Ids(nodes), names);
    AssembledIff(r);
    TreeOfAll(Hung(r), FirstRoot(r, 0));
  }
}
