/**
 * The tree the State-pattern parser builds, read back the way the example's
 * main program prints it: a work list that starts with the root, takes the
 * first node, prints it and puts its children in front of the rest.  That is
 * a pre-order walk; `Subtree` is its specification, and the lemmas below show
 * that on a parsed tree it reaches every node exactly once.
 */
module XmlTree {
  import opened Common
  import opened PyStr
  import opened XmlState

  /** `Node.__str__`: the tag name, followed by `": "` and the text when there is text. */
  function NodeStr(n: NodeRec): (r: string)
    ensures |n.tag| <= |r| && r[..|n.tag|] == n.tag
    ensures n.text == [] <==> |r| == |n.tag|
    ensures n.text != [] ==> r[|n.tag|..] == ": " + n.text
  {
    if n.text != [] then n.tag + ": " + n.text else n.tag
  }

  /** Where the first `:` of a line is, when the tag name has none. */
  lemma NodeStrColon(n: NodeRec)
    requires ':' !in n.tag
    ensures n.text == [] ==> Find(NodeStr(n), ':') == -1
    ensures n.text != [] ==> Find(NodeStr(n), ':') == |n.tag|
  {
    if n.text == [] {
      FindAbsent(n.tag, ':');
    } else {
      var line := NodeStr(n);
      assert line[..|n.tag|] == n.tag;
      assert line[|n.tag|] == (": " + n.text)[0];
      FindFirst(line, ':', |n.tag|);
    }
  }

  /** Lines whose tag names have no `:` give back the tag and the text. */
  lemma NodeStrInjective(a: NodeRec, b: NodeRec)
    requires ':' !in a.tag && ':' !in b.tag
    requires NodeStr(a) == NodeStr(b)
    ensures a.tag == b.tag && a.text == b.text
  {
    NodeStrColon(a);
    NodeStrColon(b);
    var line := NodeStr(a);
    if a.text != [] {
      assert |a.tag| == |b.tag|;
      assert a.tag == line[..|a.tag|] == b.tag;
      assert line[|a.tag|..] == ": " + a.text == ": " + b.text;
      assert a.text == (": " + a.text)[2..];
    }
  }

  /**
   * The shape that makes the walk well defined: every child comes after its
   * parent and names it as parent, a children list is strictly increasing,
   * and every node but the first is in its parent's children list.
   */
  predicate IsTree(nodes: seq<NodeRec>) {
    && (forall k, n :: 0 <= k < |nodes| && 0 <= n < |nodes[k].children| ==>
          k < nodes[k].children[n] < |nodes| && nodes[nodes[k].children[n]].parent == Some(k))
    && (forall k, a, b :: 0 <= k < |nodes| && 0 <= a < b < |nodes[k].children| ==>
          nodes[k].children[a] < nodes[k].children[b])
    && (forall j :: 0 < j < |nodes| ==>
          nodes[j].parent.Some? && nodes[j].parent.value < j && j in nodes[nodes[j].parent.value].children)
  }

  /** Every tree the parser keeps is such a tree. */
  lemma ValidTree(ps: PState)
    requires Valid(ps)
    ensures IsTree(ps.nodes)
  {
    var nodes := ps.nodes;
    var parents := Parents(nodes);
    forall k | 0 <= k < |nodes|
      ensures forall n :: 0 <= n < |nodes[k].children| ==>
        k < nodes[k].children[n] < |nodes| && nodes[nodes[k].children[n]].parent == Some(k)
      ensures forall a, b :: 0 <= a < b < |nodes[k].children| ==> nodes[k].children[a] < nodes[k].children[b]
    {
      ChildrenInOrder(parents, k);
      forall n | 0 <= n < |nodes[k].children|
        ensures k < nodes[k].children[n] < |nodes| && nodes[nodes[k].children[n]].parent == Some(k)
      {
        var j := nodes[k].children[n];
        assert j in ChildrenOf(parents, k);
        assert parents[j] == nodes[j].parent;
      }
    }
    forall j | 0 < j < |nodes|
      ensures nodes[j].parent.Some? && nodes[j].parent.value < j && j in nodes[nodes[j].parent.value].children
    {
      var p := nodes[j].parent.value;
      ChildrenInOrder(parents, p);
      assert parents[j] == Some(p);
    }
  }

  /** The nodes the walk prints for `nodes[i]` and everything below it, in order. */
  function Subtree(nodes: seq<NodeRec>, i: nat): (r: seq<nat>)
    requires IsTree(nodes) && i < |nodes|
    ensures |r| > 0 && r[0] == i
    ensures Bounded(r, i - 1, |nodes|)
    decreases |nodes| - i, 1
  {
    [i] + Forest(nodes, nodes[i].children, i)
  }

  /** The walk over the subtrees of `ks`, one after the other. */
  function Forest(nodes: seq<NodeRec>, ks: seq<nat>, lo: int): (r: seq<nat>)
    requires IsTree(nodes) && -1 <= lo < |nodes|
    requires Bounded(ks, lo, |nodes|)
    ensures Bounded(r, lo, |nodes|)
    decreases |nodes| - lo, 0, |ks|
  {
    if ks == [] then [] else Subtree(nodes, ks[0]) + Forest(nodes, ks[1..], lo)
  }

  /** Every element of `s` lies strictly between `lo` and `hi`. */
  predicate Bounded(s: seq<nat>, lo: int, hi: int) {
    forall n :: 0 <= n < |s| ==> lo < s[n] < hi
  }

  /** The lines printed for a sequence of nodes. */
  function Lines(nodes: seq<NodeRec>, order: seq<nat>): (r: seq<string>)
    requires Bounded(order, -1, |nodes|)
    ensures |r| == |order|
    ensures forall k :: 0 <= k < |order| ==> r[k] == NodeStr(nodes[order[k]])
  {
    seq(|order|, k requires 0 <= k < |order| => NodeStr(nodes[order[k]]))
  }

  /** A sequence with no element twice. */
  predicate Distinct(s: seq<nat>) {
    forall a, b :: 0 <= a < b < |s| ==> s[a] != s[b]
  }

  // ---------------------------------------------------------------------------
  // Facts about the walk

  /** The lower bound only serves termination: it does not change the walk. */
  lemma {:induction false} ForestLo(nodes: seq<NodeRec>, ks: seq<nat>, lo1: int, lo2: int)
    requires IsTree(nodes) && -1 <= lo1 < |nodes| && -1 <= lo2 < |nodes|
    requires Bounded(ks, lo1, |nodes|) && Bounded(ks, lo2, |nodes|)
    ensures Forest(nodes, ks, lo1) == Forest(nodes, ks, lo2)
    decreases |ks|
  {
    if ks != [] {
      ForestLo(nodes, ks[1..], lo1, lo2);
    }
  }

  /** Walking `a + b` is walking `a` and then `b`. */
  lemma {:induction false} ForestAppend(nodes: seq<NodeRec>, a: seq<nat>, b: seq<nat>, lo: int)
    requires IsTree(nodes) && -1 <= lo < |nodes|
    requires Bounded(a, lo, |nodes|) && Bounded(b, lo, |nodes|)
    ensures Forest(nodes, a + b, lo) == Forest(nodes, a, lo) + Forest(nodes, b, lo)
    decreases |a|
  {
    if a != [] {
      assert (a + b)[1..] == a[1..] + b;
      ForestAppend(nodes, a[1..], b, lo);
    } else {
      assert a + b == b;
    }
  }

  /** A node met by the walk over `ks` lies below one of `ks`. */
  lemma {:induction false} ForestMember(nodes: seq<NodeRec>, ks: seq<nat>, lo: int, x: nat) returns (k: nat)
    requires IsTree(nodes) && -1 <= lo < |nodes|
    requires Bounded(ks, lo, |nodes|)
    requires x in Forest(nodes, ks, lo)
    ensures k in ks && x in Subtree(nodes, k)
    decreases |ks|
  {
    if x in Subtree(nodes, ks[0]) {
      k := ks[0];
    } else {
      k := ForestMember(nodes, ks[1..], lo, x);
    }
  }

  /** Everything below one of `ks` is met by the walk over `ks`. */
  lemma {:induction false} ForestContains(nodes: seq<NodeRec>, ks: seq<nat>, lo: int, k: nat, x: nat)
    requires IsTree(nodes) && -1 <= lo < |nodes|
    requires Bounded(ks, lo, |nodes|)
    requires k in ks && x in Subtree(nodes, k)
    ensures x in Forest(nodes, ks, lo)
    decreases |ks|
  {
    if ks[0] != k {
      ForestContains(nodes, ks[1..], lo, k, x);
    }
  }

  /** Below a node below `i` is below `i`. */
  lemma {:induction false} SubtreeTrans(nodes: seq<NodeRec>, i: nat, y: nat, x: nat)
    requires IsTree(nodes) && i < |nodes|
    requires y in Subtree(nodes, i)
    requires y < |nodes| && x in Subtree(nodes, y)
    ensures x in Subtree(nodes, i)
    decreases |nodes| - i
  {
    if y != i {
      var c := ForestMember(nodes, nodes[i].children, i, y);
      SubtreeTrans(nodes, c, y, x);
      ForestContains(nodes, nodes[i].children, i, c, x);
    }
  }

  /** Every node below `k` other than `k` itself has its parent below `k` too. */
  lemma {:induction false} SubtreeParent(nodes: seq<NodeRec>, k: nat, x: nat)
    requires IsTree(nodes) && k < |nodes|
    requires x in Subtree(nodes, k) && x != k
    ensures nodes[x].parent.Some? && nodes[x].parent.value in Subtree(nodes, k)
    decreases |nodes| - k
  {
    var c := ForestMember(nodes, nodes[k].children, k, x);
    if x != c {
      SubtreeParent(nodes, c, x);
      ForestContains(nodes, nodes[k].children, k, c, c);
      SubtreeTrans(nodes, k, c, nodes[x].parent.value);
    }
  }

  /** Two different children of one node have nothing below them in common. */
  lemma {:induction false} SiblingsDisjoint(nodes: seq<NodeRec>, p: nat, k1: nat, k2: nat, x: nat)
    requires IsTree(nodes) && p < |nodes|
    requires k1 in nodes[p].children && k2 in nodes[p].children && k1 != k2
    ensures !(x in Subtree(nodes, k1) && x in Subtree(nodes, k2))
    decreases x
  {
    if x in Subtree(nodes, k1) && x in Subtree(nodes, k2) {
      if x == k1 {
        SubtreeParent(nodes, k2, x);
        assert false;
      } else if x == k2 {
        SubtreeParent(nodes, k1, x);
        assert false;
      } else {
        SubtreeParent(nodes, k1, x);
        SubtreeParent(nodes, k2, x);
        SiblingsDisjoint(nodes, p, k1, k2, nodes[x].parent.value);
      }
    }
  }

  lemma DistinctAppend(a: seq<nat>, b: seq<nat>)
    requires Distinct(a) && Distinct(b)
    requires forall x :: x in a ==> x !in b
    ensures Distinct(a + b)
  {
    forall i, j | 0 <= i < j < |a + b| ensures (a + b)[i] != (a + b)[j] {
      if j < |a| {
        assert (a + b)[i] == a[i] && (a + b)[j] == a[j];
      } else if i >= |a| {
        assert (a + b)[i] == b[i - |a|] && (a + b)[j] == b[j - |a|];
      } else {
        assert (a + b)[i] == a[i] && (a + b)[j] == b[j - |a|];
        assert a[i] in a && b[j - |a|] in b;
      }
    }
  }

  /** The walk below a node meets no node twice. */
  lemma {:induction false} SubtreeDistinct(nodes: seq<NodeRec>, i: nat)
    requires IsTree(nodes) && i < |nodes|
    ensures Distinct(Subtree(nodes, i))
    decreases |nodes| - i, 1
  {
    var ks := nodes[i].children;
    ForestDistinct(nodes, i, ks, i);
    DistinctAppend([i], Forest(nodes, ks, i));
  }

  /** The walk over a run of `p`'s children, taken in order, meets no node twice. */
  lemma {:induction false} ForestDistinct(nodes: seq<NodeRec>, p: nat, ks: seq<nat>, lo: int)
    requires IsTree(nodes) && p < |nodes| && -1 <= lo < |nodes|
    requires Bounded(ks, lo, |nodes|) && forall k :: k in ks ==> k in nodes[p].children
    requires forall a, b :: 0 <= a < b < |ks| ==> ks[a] < ks[b]
    ensures Distinct(Forest(nodes, ks, lo))
    decreases |nodes| - lo, 0, |ks|
  {
    if ks != [] {
      var head := Subtree(nodes, ks[0]);
      var tail := Forest(nodes, ks[1..], lo);
      SubtreeDistinct(nodes, ks[0]);
      ForestDistinct(nodes, p, ks[1..], lo);
      forall x | x in head ensures x !in tail {
        if x in tail {
          var k := ForestMember(nodes, ks[1..], lo, x);
          SiblingsDisjoint(nodes, p, ks[0], k, x);
        }
      }
      DistinctAppend(head, tail);
    }
  }

  /** Every node of a tree is below the first one. */
  lemma {:induction false} SubtreeReaches(nodes: seq<NodeRec>, j: nat)
    requires IsTree(nodes) && j < |nodes|
    ensures j in Subtree(nodes, 0)
  {
    if j > 0 {
      var p := nodes[j].parent.value;
      SubtreeReaches(nodes, p);
      ForestContains(nodes, nodes[p].children, p, j, j);
      SubtreeTrans(nodes, 0, p, j);
    }
  }

  /** The walk from the root prints every node of a parsed tree exactly once. */
  lemma WalkVisitsEachOnce(ps: PState)
    requires Valid(ps) && ps.root.Some?
    ensures IsTree(ps.nodes)
    ensures forall j :: 0 <= j < |ps.nodes| <==> j in Subtree(ps.nodes, 0)
    ensures Distinct(Subtree(ps.nodes, 0))
  {
    ValidTree(ps);
    var order := Subtree(ps.nodes, 0);
    forall j | 0 <= j < |ps.nodes| ensures j in order {
      SubtreeReaches(ps.nodes, j);
    }
    SubtreeDistinct(ps.nodes, 0);
  }

  // ---------------------------------------------------------------------------
  // One turn of the work list

  lemma BoundedAppend(a: seq<nat>, b: seq<nat>, lo: int, hi: int)
    requires Bounded(a, lo, hi) && Bounded(b, lo, hi)
    ensures Bounded(a + b, lo, hi)
  {
    forall n | 0 <= n < |a + b| ensures lo < (a + b)[n] < hi {
      if n < |a| {
        assert (a + b)[n] == a[n];
      } else {
        assert (a + b)[n] == b[n - |a|];
      }
    }
  }

  lemma LinesSnoc(nodes: seq<NodeRec>, order: seq<nat>, x: nat)
    requires Bounded(order, -1, |nodes|) && x < |nodes|
    ensures Bounded(order + [x], -1, |nodes|)
    ensures Lines(nodes, order + [x]) == Lines(nodes, order) + [NodeStr(nodes[x])]
  {
    BoundedAppend(order, [x], -1, |nodes|);
  }

  lemma ForestCons(nodes: seq<NodeRec>, k: nat, rest: seq<nat>)
    requires IsTree(nodes) && k < |nodes| && Bounded(rest, -1, |nodes|)
    ensures Bounded([k] + rest, -1, |nodes|)
    ensures Forest(nodes, [k] + rest, -1) == Subtree(nodes, k) + Forest(nodes, rest, -1)
  {
    BoundedAppend([k], rest, -1, |nodes|);
    assert ([k] + rest)[1..] == rest;
  }

  /**
   * Taking `node` off the front of the work list, printing it, and putting its
   * children in front of the rest leaves the walk still to do one node shorter
   * and otherwise the same.
   */
  lemma WalkStep(nodes: seq<NodeRec>, node: nat, rest: seq<nat>)
    requires IsTree(nodes) && node < |nodes| && Bounded(rest, -1, |nodes|)
    ensures Bounded([node] + rest, -1, |nodes|)
    ensures Bounded(nodes[node].children + rest, -1, |nodes|)
    ensures Forest(nodes, [node] + rest, -1) == [node] + Forest(nodes, nodes[node].children + rest, -1)
  {
    var kids := nodes[node].children;
    ForestCons(nodes, node, rest);
    BoundedAppend(kids, rest, -1, |nodes|);
    ForestLo(nodes, kids, node, -1);
    ForestAppend(nodes, kids, rest, -1);
    AppendAssoc([node], Forest(nodes, kids, -1), Forest(nodes, rest, -1));
  }

  /** The work list `[root]` has the whole walk still to do. */
  lemma WalkStart(nodes: seq<NodeRec>)
    requires IsTree(nodes) && 0 < |nodes|
    ensures Bounded([0], -1, |nodes|)
    ensures [] + Forest(nodes, [0], -1) == Subtree(nodes, 0)
  {
    ForestCons(nodes, 0, []);
    assert [0] + [] == [0];
    assert Subtree(nodes, 0) + [] == Subtree(nodes, 0);
  }

  lemma AppendAssoc(a: seq<nat>, b: seq<nat>, c: seq<nat>)
    ensures (a + b) + c == a + (b + c)
  {
  }
}
