/**
 Document trees as values: each node's parent, ordered children and depth. Joining and cutting keep a forest.
 */
module DomShape {

  datatype Kind = Attribute | Text | CDataSection | Element | Document | Other

  class Node {
    const kind: Kind
    var owner: int
    var parentNode: Node?
    var firstChild: Node?
    var prevSibling: Node?
    var nextSibling: Node?

    constructor (kind: Kind, owner: int)
      ensures this.kind == kind && this.owner == owner && parentNode == null && firstChild == null
      ensures prevSibling == null && nextSibling == null
    {
      this.kind, this.owner := kind, owner;
      parentNode, firstChild, prevSibling, nextSibling := null, null, null, null;
    }
  }

  /** `depth` counts the steps up to a root; `height` bounds it. */
  datatype Shape = Shape(parent: map<Node, Node?>, kids: map<Node, seq<Node>>, depth: map<Node, nat>, height: nat)

  ghost predicate Distinct(k: seq<Node>) {
    forall i, j :: 0 <= i < j < |k| ==> k[i] != k[j]
  }

  /** The children of x are distinct and have x for their parent. */
  ghost predicate KidsOk(s: Shape, x: Node) {
    && x in s.kids && Distinct(s.kids[x])
    && forall i :: 0 <= i < |s.kids[x]| ==> s.kids[x][i] in s.parent && s.parent[s.kids[x][i]] == x
  }

  /** x is listed under its parent and one step deeper; depths count up from the roots, so no node is its own ancestor. */
  ghost predicate ParentOk(s: Shape, x: Node)
    requires x in s.parent
  {
    && x in s.depth && s.depth[x] <= s.height
    && (s.parent[x] == null ==> s.depth[x] == 0)
    && (s.parent[x] != null ==>
          && s.parent[x] in s.kids && s.parent[x] in s.parent && x in s.kids[s.parent[x]]
          && s.parent[x] in s.depth && s.depth[x] == s.depth[s.parent[x]] + 1)
  }

  ghost predicate NodeOk(s: Shape, x: Node)
    requires x in s.parent
  {
    x in s.kids && x in s.depth && KidsOk(s, x) && ParentOk(s, x)
  }

  /** A forest: acyclic, with every child listed exactly once, under its parent. */
  ghost predicate Forest(s: Shape) {
    forall x :: x in s.parent ==> NodeOk(s, x)
  }

  /** y is x or below x. */
  ghost predicate Under(s: Shape, y: Node, x: Node)
    requires Forest(s) && y in s.parent
    decreases if y in s.depth then s.depth[y] else 0
  {
    assert NodeOk(s, y);
    y == x || (s.parent[y] != null && (assert NodeOk(s, s.parent[y]); Under(s, s.parent[y], x)))
  }

  /** n, a root, becomes child i of p. */
  ghost function Attach(s: Shape, p: Node, n: Node, i: nat): Shape
    requires Forest(s) && p in s.kids && p in s.parent && p in s.depth && i <= |s.kids[p]|
  {
    Shape(s.parent[n := p], s.kids[p := s.kids[p][..i] + [n] + s.kids[p][i..]],
          map x | x in s.parent :: DepthBelow(s, x, n, s.depth[p] + 1), 2 * s.height + 1)
  }

  ghost function DepthBelow(s: Shape, x: Node, n: Node, more: int): nat
    requires Forest(s) && x in s.parent
  {
    assert NodeOk(s, x);
    if Under(s, x, n) && s.depth[x] + more >= 0 then s.depth[x] + more else s.depth[x]
  }

  /** Where a node stands after the joining: its depth follows its parent's. */
  lemma AttachDepth(s: Shape, p: Node, n: Node, x: Node)
    requires Forest(s) && n in s.parent && s.parent[n] == null && x in s.parent && NodeOk(s, x)
    requires p in s.parent && NodeOk(s, p) && !Under(s, p, n)
    ensures var d := DepthBelow(s, x, n, s.depth[p] + 1);
            && d <= 2 * s.height + 1
            && (x == n ==> d == DepthBelow(s, p, n, s.depth[p] + 1) + 1)
            && (x != n && s.parent[x] == null ==> d == 0)
            && (x != n && s.parent[x] != null ==>
                  s.parent[x] in s.parent && d == DepthBelow(s, s.parent[x], n, s.depth[p] + 1) + 1)
  {
    if s.parent[x] != null {
      assert NodeOk(s, s.parent[x]);
    }
  }

  lemma AttachKids(s: Shape, p: Node, n: Node, i: nat, x: Node)
    requires Forest(s) && p in s.parent && NodeOk(s, p) && i <= |s.kids[p]| && n in s.parent && s.parent[n] == null
    requires x in s.parent && KidsOk(s, x)
    ensures KidsOk(Attach(s, p, n, i), x)
  {
    hide DepthBelow, Forest, ParentOk;
  }

  lemma AttachKeepsForest(s: Shape, p: Node, n: Node, i: nat)
    requires Forest(s) && n in s.parent && s.parent[n] == null
    requires p in s.parent && NodeOk(s, p) && !Under(s, p, n) && i <= |s.kids[p]|
    ensures Forest(Attach(s, p, n, i))
  {
    hide DepthBelow, Under, KidsOk;
    assert p in s.kids;
    var t := Attach(s, p, n, i);
    forall x | x in t.parent
      ensures NodeOk(t, x)
    {
      assert NodeOk(s, x) && NodeOk(s, n);
      AttachKids(s, p, n, i, x);
      AttachDepth(s, p, n, x);
    }
  }

  lemma {:induction false} UnderDeeper(s: Shape, y: Node, x: Node)
    requires Forest(s) && y in s.parent && x in s.parent && Under(s, y, x)
    ensures NodeOk(s, x) && NodeOk(s, y) && s.depth[y] >= s.depth[x] && (y != x ==> s.depth[y] > s.depth[x])
    decreases if y in s.depth then s.depth[y] else 0
  {
    assert NodeOk(s, y) && NodeOk(s, x);
    if y != x {
      assert NodeOk(s, s.parent[y]);
      UnderDeeper(s, s.parent[y], x);
    }
  }

  /** Child i of p becomes a root. */
  ghost function Detach(s: Shape, p: Node, i: nat): Shape
    requires Forest(s) && p in s.kids && i < |s.kids[p]| && s.kids[p][i] in s.depth
  {
    var n := s.kids[p][i];
    Shape(s.parent[n := null], s.kids[p := s.kids[p][..i] + s.kids[p][i + 1..]],
          map x | x in s.parent :: DepthBelow(s, x, n, 0 - s.depth[n] as int), s.height)
  }

  lemma DetachKids(s: Shape, p: Node, i: nat, x: Node)
    requires Forest(s) && p in s.parent && NodeOk(s, p) && i < |s.kids[p]| && NodeOk(s, s.kids[p][i])
    requires x in s.parent && KidsOk(s, x)
    ensures KidsOk(Detach(s, p, i), x)
  {
    hide DepthBelow, Forest;
  }

  /** The other children stay listed. */
  lemma DetachListed(s: Shape, p: Node, i: nat, x: Node)
    requires Forest(s) && p in s.parent && NodeOk(s, p) && i < |s.kids[p]| && NodeOk(s, s.kids[p][i])
    requires x in s.parent && NodeOk(s, x) && x != s.kids[p][i] && s.parent[x] != null
    ensures s.parent[x] in Detach(s, p, i).kids && x in Detach(s, p, i).kids[s.parent[x]]
  {
    hide DepthBelow, Forest;
    var k, t := s.kids[p], Detach(s, p, i);
    if s.parent[x] == p {
      var j :| 0 <= j < |k| && k[j] == x;
      assert t.kids[p][if j < i then j else j - 1] == x;
    }
  }

  lemma DetachDepth(s: Shape, n: Node, x: Node)
    requires Forest(s) && n in s.parent && NodeOk(s, n) && x in s.parent && NodeOk(s, x)
    ensures var d := DepthBelow(s, x, n, 0 - s.depth[n] as int);
            && d <= s.height && (x == n || s.parent[x] == null ==> d == 0)
            && (x != n && s.parent[x] != null ==>
                  s.parent[x] in s.parent && d == DepthBelow(s, s.parent[x], n, 0 - s.depth[n] as int) + 1)
  {
    if Under(s, x, n) {
      UnderDeeper(s, x, n);
    }
    if s.parent[x] != null {
      assert NodeOk(s, s.parent[x]);
      if Under(s, s.parent[x], n) {
        UnderDeeper(s, s.parent[x], n);
      }
    }
  }

  lemma DetachKeepsForest(s: Shape, p: Node, i: nat)
    requires Forest(s) && p in s.parent && NodeOk(s, p) && i < |s.kids[p]| && NodeOk(s, s.kids[p][i])
    ensures Forest(Detach(s, p, i))
  {
    var n := s.kids[p][i];
    assert n in s.parent;
    hide DepthBelow, Under, KidsOk;
    var t := Detach(s, p, i);
    forall x | x in t.parent
      ensures NodeOk(t, x)
    {
      assert NodeOk(s, x);
      DetachKids(s, p, i, x);
      DetachDepth(s, n, x);
      if x != n && s.parent[x] != null {
        DetachListed(s, p, i, x);
      }
    }
  }

  ghost predicate UnderAny(s: Shape, y: Node, k: seq<Node>)
    requires Forest(s) && y in s.parent
  {
    exists i :: 0 <= i < |k| && Under(s, y, k[i])
  }

  /** Being below x is being x or below one of its children. */
  lemma {:induction false} UnderChild(s: Shape, y: Node, x: Node)
    requires Forest(s) && y in s.parent && x in s.parent && NodeOk(s, x)
    ensures Under(s, y, x) <==> y == x || UnderAny(s, y, s.kids[x])
    decreases if y in s.depth then s.depth[y] else 0
  {
    assert NodeOk(s, y);
    if y != x && s.parent[y] != null {
      assert NodeOk(s, s.parent[y]);
      UnderChild(s, s.parent[y], x);
      if s.parent[y] == x {
        var i :| 0 <= i < |s.kids[x]| && s.kids[x][i] == y;
        assert Under(s, y, s.kids[x][i]);
      }
      forall i | 0 <= i < |s.kids[x]| && Under(s, y, s.kids[x][i])
        ensures Under(s, y, x)
      {
        if s.kids[x][i] == y {
          assert s.parent[y] == x;
        }
      }
      if exists i :: 0 <= i < |s.kids[x]| && Under(s, s.parent[y], s.kids[x][i]) {
        var i :| 0 <= i < |s.kids[x]| && Under(s, s.parent[y], s.kids[x][i]);
        assert Under(s, y, s.kids[x][i]);
      }
    }
    if y != x && s.parent[y] == null {
      forall i | 0 <= i < |s.kids[x]|
        ensures !Under(s, y, s.kids[x][i])
      {
        assert s.parent[s.kids[x][i]] == x;
      }
    }
  }
}
