/**
 ixml's tree edits: nodes linked by parent, first child and sibling pointers represent a forest, and every
 edit changes it exactly as it says.
 */
module DomTree {
  import opened DomShape

  datatype Code = Success | InvalidParameter | HierarchyRequest | WrongDocument | NotFound | AssertFails | UsesFreed

  /** The pointers of one node. */
  datatype Cell = Cell(parent: Node?, first: Node?, prev: Node?, next: Node?)

  type Cells = map<Node, Cell>

  ghost function Snapshot(nodes: set<Node>): (h: Cells)
    reads nodes
    ensures h.Keys == nodes
  {
    map x | x in nodes :: Cell(x.parentNode, x.firstChild, x.prevSibling, x.nextSibling)
  }

  ghost function At(k: seq<Node>, i: int): Node? {
    if 0 <= i < |k| then k[i] else null
  }

  /** Child i of p, whose children are k, points to its parent and to its neighbours. */
  ghost predicate InPlace(h: Cells, k: seq<Node>, p: Node, i: nat) {
    i < |k| ==> k[i] in h && h[k[i]].parent == p && h[k[i]].prev == At(k, i - 1) && h[k[i]].next == At(k, i + 1)
  }

  ghost predicate Linked(h: Cells, k: seq<Node>, p: Node) {
    forall i: nat :: InPlace(h, k, p, i)
  }

  /** p points to its first child; without a parent it has no siblings either. */
  ghost predicate Heads(h: Cells, s: Shape, p: Node) {
    && p in h && p in s.parent && p in s.kids
    && h[p].first == At(s.kids[p], 0)
    && (s.parent[p] == null ==> h[p].parent == null && h[p].prev == null && h[p].next == null)
  }

  /** The pointers draw exactly this forest. */
  ghost predicate Drawn(h: Cells, s: Shape) {
    && Forest(s) && h.Keys == s.parent.Keys
    && forall p :: p in s.parent ==> NodeOk(s, p) && Heads(h, s, p) && Linked(h, s.kids[p], p)
  }

  ghost predicate Represents(s: Shape)
    reads s.parent.Keys
  {
    Drawn(Snapshot(s.parent.Keys), s)
  }

  // ---- is_ancestor ----

  ghost function Index(k: seq<Node>, x: Node): (i: nat)
    requires x in k
    ensures i < |k| && k[i] == x
  {
    if k[0] == x then 0 else 1 + Index(k[1..], x)
  }

  /** The siblings of a from a on; for a root, a alone. */
  ghost function FromHere(s: Shape, a: Node): seq<Node>
    requires a in s.parent && NodeOk(s, a)
  {
    if s.parent[a] == null then [a] else s.kids[s.parent[a]][Index(s.kids[s.parent[a]], a)..]
  }

  lemma StepDown(s: Shape, a: Node)
    requires Represents(s) && a in s.parent && NodeOk(s, a)
    ensures a.firstChild != null ==>
              && a.firstChild in s.parent && NodeOk(s, a.firstChild)
              && s.depth[a] < s.depth[a.firstChild] <= s.height && FromHere(s, a.firstChild) == s.kids[a]
    ensures a.firstChild == null ==> s.kids[a] == []
  {
    hide Linked;
    var h := Snapshot(s.parent.Keys);
    assert Heads(h, s, a);
    if a.firstChild != null {
      assert NodeOk(s, s.kids[a][0]);
    }
  }

  lemma IndexAt(k: seq<Node>, i: nat)
    requires Distinct(k) && i < |k|
    ensures Index(k, k[i]) == i
  {
    assert k[Index(k, k[i])] == k[i];
  }

  /** Two neighbours in a list of children. */
  lemma NextChild(s: Shape, p: Node, i: nat)
    requires Forest(s) && p in s.parent && NodeOk(s, p) && i < |s.kids[p]|
    ensures var k := s.kids[p];
            && k[i] in s.parent && NodeOk(s, k[i])
            && (i + 1 == |k| ==> FromHere(s, k[i]) == [k[i]])
            && (i + 1 < |k| ==>
                  && k[i + 1] in s.parent && NodeOk(s, k[i + 1]) && s.depth[k[i + 1]] == s.depth[k[i]]
                  && FromHere(s, k[i]) == [k[i]] + FromHere(s, k[i + 1]))
  {
    hide Index;
    var k := s.kids[p];
    IndexAt(k, i);
    if i + 1 < |k| {
      IndexAt(k, i + 1);
      assert NodeOk(s, k[i + 1]);
      assert k[i..] == [k[i]] + k[i + 1..];
    }
  }

  lemma StepRight(s: Shape, a: Node)
    requires Represents(s) && a in s.parent && NodeOk(s, a)
    ensures a.nextSibling != null ==>
              && a.nextSibling in s.parent && NodeOk(s, a.nextSibling)
              && s.depth[a.nextSibling] == s.depth[a] && FromHere(s, a) == [a] + FromHere(s, a.nextSibling)
    ensures a.nextSibling == null ==> FromHere(s, a) == [a]
  {
    hide Forest;
    var p, h := s.parent[a], Snapshot(s.parent.Keys);
    if p == null {
      assert Heads(h, s, a);
    } else {
      var i := Index(s.kids[p], a);
      assert NodeOk(s, p) && Linked(h, s.kids[p], p) && InPlace(h, s.kids[p], p, i);
      NextChild(s, p, i);
    }
  }

  lemma InForest(s: Shape, x: Node)
    requires Represents(s) && x in s.parent
    ensures Forest(s) && NodeOk(s, x)
  {
  }

  /** ixmlNode_isAncestor */
  function IsAncestor(ancestor: Node?, toFind: Node?, ghost s: Shape): bool
    requires Represents(s) && (ancestor != null ==> ancestor in s.parent && NodeOk(s, ancestor))
    reads s.parent.Keys, toFind
    decreases if ancestor == null then 0 else 1 + s.height - s.depth[ancestor],
              if ancestor == null then 0 else |FromHere(s, ancestor)|
  {
    if ancestor == null || toFind == null then false
    else
      StepDown(s, ancestor);
      StepRight(s, ancestor);
      toFind.parentNode == ancestor
      || IsAncestor(ancestor.firstChild, toFind, s)
      || IsAncestor(ancestor.nextSibling, toFind, s)
  }

  /** The search also runs through the later siblings of the node it starts from, and all that is below them. */
  lemma {:induction false} IsAncestorMeans(s: Shape, a: Node, f: Node)
    requires Represents(s) && a in s.parent && NodeOk(s, a) && (f.parentNode != null ==> f.parentNode in s.parent)
    ensures Forest(s)
    ensures IsAncestor(a, f, s) <==> f.parentNode != null && UnderAny(s, f.parentNode, FromHere(s, a))
    decreases s.height - s.depth[a], |FromHere(s, a)|
  {
    hide Represents, NodeOk, Forest, Under, UnderAny, FromHere;
    InForest(s, a);
    StepDown(s, a);
    StepRight(s, a);
    var p, first, next := f.parentNode, a.firstChild, a.nextSibling;
    if first != null {
      IsAncestorMeans(s, first, f);
    }
    if next != null {
      IsAncestorMeans(s, next, f);
    }
    if p != null {
      UnderChild(s, p, a);
      UnderNone(s, p);
      if next != null {
        UnderSplit(s, p, a, FromHere(s, next));
      } else {
        UnderSplit(s, p, a, []);
        assert [a] + [] == [a];
      }
    }
  }

  lemma UnderNone(s: Shape, y: Node)
    requires Forest(s) && y in s.parent
    ensures !UnderAny(s, y, [])
  {
  }

  lemma UnderSplit(s: Shape, y: Node, a: Node, k: seq<Node>)
    requires Forest(s) && y in s.parent
    ensures UnderAny(s, y, [a] + k) <==> Under(s, y, a) || UnderAny(s, y, k)
  {
    if Under(s, y, a) {
      assert Under(s, y, ([a] + k)[0]);
    }
    if UnderAny(s, y, k) {
      var i :| 0 <= i < |k| && Under(s, y, k[i]);
      assert Under(s, y, ([a] + k)[i + 1]);
    }
  }

  /** The parent pointer is the parent. */
  lemma ParentPointer(s: Shape, f: Node)
    requires Represents(s) && f in s.parent
    ensures f.parentNode == s.parent[f] && (f.parentNode != null ==> f.parentNode in s.parent)
  {
    var p, h := s.parent[f], Snapshot(s.parent.Keys);
    assert NodeOk(s, f) && Heads(h, s, f);
    if p != null {
      var i := Index(s.kids[p], f);
      assert NodeOk(s, p) && Linked(h, s.kids[p], p) && InPlace(h, s.kids[p], p, i);
    }
  }

  /** From a root the search finds exactly the nodes below it. */
  lemma RootIsAncestor(s: Shape, a: Node, f: Node)
    requires Represents(s) && a in s.parent && NodeOk(s, a) && s.parent[a] == null && f in s.parent
    ensures Forest(s)
    ensures IsAncestor(a, f, s) <==> f != a && Under(s, f, a)
  {
    hide Represents, NodeOk, Forest, UnderAny, IsAncestor;
    InForest(s, f);
    ParentPointer(s, f);
    IsAncestorMeans(s, a, f);
    if f.parentNode != null {
      UnderNone(s, f.parentNode);
      UnderSplit(s, f.parentNode, a, []);
      assert [a] + [] == [a];
      RootNotBelow(s, f, a);
    }
  }

  lemma RootNotBelow(s: Shape, f: Node, a: Node)
    requires Forest(s) && f in s.parent && s.parent[f] != null && s.parent[f] in s.parent && a in s.parent && s.parent[a] == null
    ensures Under(s, f, a) <==> Under(s, s.parent[f], a)
  {
  }
}
