/**
 ixmlNode_removeChild, appendChild, insertBefore and replaceChild, on any nodes of a forest.
 */
module DomNode {
  import opened DomShape
  import opened DomTree
  import opened DomEdit

  /** ixmlNode_allowChildren */
  predicate AllowChildren(p: Node, n: Node) {
    match p.kind
    case Attribute => false
    case Text => false
    case CDataSection => false
    case Element => !n.kind.Attribute? && !n.kind.Document?
    case Document => n.kind.Element?
    case Other => true
  }

  // ---- which kinds of nodes hold which ----

  /**
   Attributes, texts and CDATA sections hold nothing, an element holds no attribute and no document, and a document
   holds elements only.
   */
  ghost predicate Holds(p: Kind, c: Kind) {
    && !p.Attribute? && !p.Text? && !p.CDataSection?
    && (p.Element? ==> !c.Attribute? && !c.Document?)
    && (p.Document? ==> c.Element?)
  }

  /** Every node is of a kind that its parent may hold. */
  ghost predicate KindsOk(h: Cells) {
    forall x :: x in h && h[x].parent != null ==> Holds(h[x].parent.kind, x.kind)
  }

  lemma AllowsExactly(p: Node, n: Node)
    ensures AllowChildren(p, n) <==> Holds(p.kind, n.kind)
  {
  }

  ghost function Owners(nodes: set<Node>): (o: map<Node, int>)
    reads nodes`owner
    ensures o.Keys == nodes
  {
    map x | x in nodes :: x.owner
  }

  lemma OwnerOf(nodes: set<Node>, x: Node)
    requires x in nodes
    ensures Owners(nodes)[x] == x.owner
  {
  }

  /** Every node belongs to the document of its parent. */
  ghost predicate OwnersOk(h: Cells, o: map<Node, int>) {
    forall x :: x in h && h[x].parent != null && x in o && h[x].parent in o ==> o[x] == o[h[x].parent]
  }

  ghost predicate NoChild(h: Cells, n: Node) {
    forall x :: x in h ==> h[x].parent != n
  }

  /** An appended node takes the document of its parent; what is below it keeps the old one. */
  lemma AppendOwners(h: Cells, o: map<Node, int>, p: Node, n: Node, last: Node?)
    requires OwnersOk(h, o) && o.Keys == h.Keys && p in h && n in h && h[p].parent != n && h[n].parent != n
    ensures OwnersOk(AppendCells(h, p, n, last), o[n := o[p]]) <==> o[n] == o[p] || NoChild(h, n)
  {
    var g := AppendCells(h, p, n, last);
    if o[n] != o[p] && !NoChild(h, n) {
      var x :| x in h && h[x].parent == n;
      assert x in g && g[x].parent == n && n in g;
    }
  }

  /** Insertion and removal keep both. */
  lemma InsertKeeps(h: Cells, o: map<Node, int>, p: Node, n: Node, left: Node?, r: Node)
    requires p in h && n in h && AllowChildren(p, n) && p in o && n in o && o[p] == o[n]
    ensures KindsOk(h) ==> KindsOk(InsertCells(h, p, n, left, r))
    ensures OwnersOk(h, o) ==> OwnersOk(InsertCells(h, p, n, left, r), o)
  {
    AllowsExactly(p, n);
  }

  lemma CutKeeps(h: Cells, o: map<Node, int>, p: Node, c: Node)
    requires p in h && c in h
    ensures KindsOk(h) ==> KindsOk(Cut(h, p, c))
    ensures OwnersOk(h, o) ==> OwnersOk(Cut(h, p, c), o)
  {
  }

  /** Appending keeps the kinds; the documents exactly if the new child had that of its parent or has no child. */
  lemma AppendKeeps(h: Cells, o: map<Node, int>, p: Node, n: Node, last: Node?)
    requires p in h && n in h && AllowChildren(p, n) && o.Keys == h.Keys && h[p].parent != n && h[n].parent != n
    ensures KindsOk(h) ==> KindsOk(AppendCells(h, p, n, last))
    ensures OwnersOk(h, o) ==> (OwnersOk(AppendCells(h, p, n, last), o[n := o[p]]) <==> o[n] == o[p] || NoChild(h, n))
  {
    AllowsExactly(p, n);
    if OwnersOk(h, o) {
      AppendOwners(h, o, p, n, last);
    }
  }

  /** The place of a child. */
  lemma ChildPlace(s: Shape, p: Node, c: Node)
    requires Represents(s) && p in s.parent && c in s.parent && c.parentNode == p
    ensures Forest(s) && NodeOk(s, p) && NodeOk(s, c) && c in s.kids[p] && c != p
    ensures var k, i := s.kids[p], Index(s.kids[p], c);
            && InPlace(Snapshot(s.parent.Keys), k, p, i) && k[i] == c && p.firstChild == k[0]
            && (i > 0 ==> k[i - 1] in s.parent && k[i - 1] != c)
            && (i + 1 < |k| ==> k[i + 1] in s.parent && s.parent[k[i + 1]] == p && k[i + 1] != c)
            && (0 < i && i + 1 < |k| ==> k[i + 1] != k[i - 1])
  {
    ParentPointer(s, c);
    assert NodeOk(s, c) && NodeOk(s, p);
    var h, k, i := Snapshot(s.parent.Keys), s.kids[p], Index(s.kids[p], c);
    assert Linked(h, k, p) && InPlace(h, k, p, i) && Heads(h, s, p);
  }

  /** The pointer updates of ixmlNode_removeChild. */
  method Relink(p: Node, c: Node, ghost nodes: set<Node>)
    requires p in nodes && c in nodes && p != c
    requires c.prevSibling != null ==> c.prevSibling in nodes && c.prevSibling != c
    requires c.nextSibling != null ==> c.nextSibling in nodes && c.nextSibling != c && c.nextSibling != c.prevSibling
    modifies nodes`parentNode, nodes`firstChild, nodes`prevSibling, nodes`nextSibling
    ensures Snapshot(nodes) == Cut(old(Snapshot(nodes)), p, c)
  {
    if c.prevSibling != null {
      c.prevSibling.nextSibling := c.nextSibling;
    }
    if p.firstChild == c {
      p.firstChild := c.nextSibling;
    }
    if c.nextSibling != null {
      c.nextSibling.prevSibling := c.prevSibling;
    }
    c.nextSibling := null;
    c.prevSibling := null;
    c.parentNode := null;
  }

  /** ixmlNode_removeChild */
  method RemoveChild(p: Node?, c: Node?, ghost s: Shape) returns (code: Code, ghost t: Shape)
    requires Represents(s) && (p != null ==> p in s.parent) && (c != null ==> c in s.parent)
    modifies s.parent.Keys`parentNode, s.parent.Keys`firstChild, s.parent.Keys`prevSibling, s.parent.Keys`nextSibling
    ensures Represents(t)
    ensures code == if p == null || c == null then InvalidParameter
                    else if s.parent[c] != p then NotFound
                    else Success
    ensures code != Success ==> t == s
    ensures code == Success ==> Forest(s) && NodeOk(s, p) && NodeOk(s, c) && c in s.kids[p] && t == Detach(s, p, Index(s.kids[p], c))
    ensures old(KindsOk(Snapshot(s.parent.Keys))) ==> KindsOk(Snapshot(s.parent.Keys))
    ensures old(OwnersOk(Snapshot(s.parent.Keys), Owners(s.parent.Keys))) ==> OwnersOk(Snapshot(s.parent.Keys), Owners(s.parent.Keys))
  {
    hide Drawn, Detach, NodeOk, Forest, Cut, KindsOk, OwnersOk, Owners;
    t := s;
    if p == null || c == null {
      return InvalidParameter, s;
    }
    ParentPointer(s, c);
    if c.parentNode != p {
      return NotFound, s;
    }
    ChildPlace(s, p, c);
    ghost var i := Index(s.kids[p], c);
    CutDrawn(Snapshot(s.parent.Keys), s, p, i);
    DetachKeys(s, p, i);
    CutKeeps(Snapshot(s.parent.Keys), Owners(s.parent.Keys), p, c);
    Relink(p, c, s.parent.Keys);
    t := Detach(s, p, i);
    return Success, t;
  }

  lemma DetachKeys(s: Shape, p: Node, i: nat)
    requires Forest(s) && p in s.parent && NodeOk(s, p) && i < |s.kids[p]| && NodeOk(s, s.kids[p][i])
    ensures p in s.kids && s.kids[p][i] in s.depth && Detach(s, p, i).parent.Keys == s.parent.Keys
  {
  }

  /** What a list of children tells about the pointers of its owner. */
  lemma ListPlace(s: Shape, p: Node, i: nat)
    requires Represents(s) && p in s.parent
    ensures Forest(s) && NodeOk(s, p) && p.firstChild == At(s.kids[p], 0)
    ensures InPlace(Snapshot(s.parent.Keys), s.kids[p], p, i)
    ensures i < |s.kids[p]| ==> s.kids[p][i] in s.parent && s.parent[s.kids[p][i]] == p
  {
    assert NodeOk(s, p);
    var h, k := Snapshot(s.parent.Keys), s.kids[p];
    assert Linked(h, k, p) && InPlace(h, k, p, i) && Heads(h, s, p);
  }

  /** The walk of ixmlNode_appendChild to the last child. */
  method LastChild(p: Node, ghost s: Shape) returns (last: Node)
    requires Represents(s) && p in s.parent && p.firstChild != null
    ensures Forest(s) && NodeOk(s, p) && s.kids[p] != [] && last == s.kids[p][|s.kids[p]| - 1]
  {
    hide Drawn, NodeOk, Forest;
    ListPlace(s, p, 0);
    ghost var i := 0;
    last := p.firstChild;
    var next := last.nextSibling;
    while next != null
      invariant 0 <= i < |s.kids[p]| && last == s.kids[p][i] && next == At(s.kids[p], i + 1)
      decreases |s.kids[p]| - i
    {
      ListPlace(s, p, i + 1);
      last := next;
      next := last.nextSibling;
      i := i + 1;
    }
  }

  /** The pointer updates of ixmlNode_appendChild, for a first child and after the last one. */
  method FirstLink(p: Node, n: Node, ghost nodes: set<Node>)
    requires p in nodes && n in nodes
    modifies p`firstChild, n`parentNode, n`owner
    ensures Snapshot(nodes) == AppendCells(old(Snapshot(nodes)), p, n, null)
    ensures n.owner == old(p.owner) && n.parentNode == p
  {
    n.parentNode := p;
    n.owner := p.owner;
    p.firstChild := n;
  }

  method LastLink(p: Node, n: Node, last: Node, ghost nodes: set<Node>)
    requires p in nodes && n in nodes && last in nodes && last != n
    modifies n`parentNode, n`owner, n`prevSibling, last`nextSibling
    ensures Snapshot(nodes) == AppendCells(old(Snapshot(nodes)), p, n, last)
    ensures n.owner == old(p.owner) && n.parentNode == p
  {
    n.parentNode := p;
    n.owner := p.owner;
    last.nextSibling := n;
    n.prevSibling := last;
  }

  method AppendLinks(p: Node, n: Node, ghost s: Shape)
    requires Represents(s) && p in s.parent && n in s.parent && s.parent[n] != p && NodeOk(s, p)
    modifies s.parent.Keys`parentNode, s.parent.Keys`firstChild, s.parent.Keys`prevSibling, s.parent.Keys`nextSibling, n`owner
    ensures Snapshot(s.parent.Keys) == AppendCells(old(Snapshot(s.parent.Keys)), p, n, At(s.kids[p], |s.kids[p]| - 1))
    ensures n.owner == old(p.owner) && n.parentNode == p
    ensures Owners(s.parent.Keys) == old(Owners(s.parent.Keys))[n := old(p.owner)]
  {
    hide Drawn, NodeOk, Forest, AppendCells, Snapshot, InPlace;
    ListPlace(s, p, 0);
    if p.firstChild == null {
      FirstLink(p, n, s.parent.Keys);
    } else {
      var last := LastChild(p, s);
      ListPlace(s, p, |s.kids[p]| - 1);
      LastLink(p, n, last, s.parent.Keys);
    }
    assert forall x :: x in s.parent.Keys && x != n ==> x.owner == old(x.owner);
  }

  lemma AttachKeys(s: Shape, p: Node, n: Node, i: nat)
    requires Forest(s) && p in s.parent && n in s.parent && NodeOk(s, p) && i <= |s.kids[p]|
    ensures p in s.kids && p in s.depth && Attach(s, p, n, i).parent.Keys == s.parent.Keys
  {
  }

  /** The parent of p is found below n or below one of n's later siblings: what ixmlNode_isAncestor tests. */
  ghost predicate Blocked(s: Shape, n: Node, p: Node)
    requires Forest(s) && n in s.parent && p in s.parent && NodeOk(s, n) && (s.parent[p] != null ==> s.parent[p] in s.parent)
  {
    s.parent[p] != null && UnderAny(s, s.parent[p], FromHere(s, n))
  }

  lemma TestsBlocked(s: Shape, n: Node, p: Node)
    requires Represents(s) && n in s.parent && p in s.parent
    ensures Forest(s) && NodeOk(s, n) && NodeOk(s, p) && (s.parent[p] != null ==> s.parent[p] in s.parent)
    ensures IsAncestor(n, p, s) <==> Blocked(s, n, p)
    ensures s.parent[n] == null && !IsAncestor(n, p, s) && p != n ==> !Under(s, p, n)
  {
    hide Represents, NodeOk, Forest, UnderAny, IsAncestor, Under, FromHere;
    InForest(s, n);
    InForest(s, p);
    ParentPointer(s, p);
    IsAncestorMeans(s, n, p);
    if s.parent[n] == null {
      RootIsAncestor(s, n, p);
    }
  }

  /** The checks of ixmlNode_appendChild in their order; a child of p is freed and then used. */
  ghost function AppendCode(s: Shape, p: Node, n: Node, sameOwner: bool): Code
    requires Represents(s) && p in s.parent && n in s.parent
    reads s.parent.Keys
  {
    TestsBlocked(s, n, p);
    if !sameOwner then WrongDocument
    else if Blocked(s, n, p) || !AllowChildren(p, n) then HierarchyRequest
    else if s.parent[n] == p then UsesFreed
    else Success
  }

  /**
   What a successful insertion of n at place i of p leaves: n becomes its own parent, or is torn from its old parent,
   or is a new child in a forest; the last exactly if n is neither p nor has a parent.
   */
  ghost predicate Inserted(h: Cells, s: Shape, p: Node, n: Node, i: nat, x: Node?, t: Shape)
    requires Forest(s) && n in s.parent && p in s.parent && NodeOk(s, p)
  {
    if n == p then p in h && h[p].parent == p
    else if s.parent[n] != null then Torn(h, s.parent[n], x, n)
    else i <= |s.kids[p]| && t == Attach(s, p, n, i) && Drawn(h, t)
  }

  ghost function Just(n: Node?): set<Node> {
    if n == null then {} else {n}
  }

  /** ixmlNode_appendChild */
  method AppendChild(p: Node?, n: Node?, ghost s: Shape) returns (code: Code, ghost t: Shape)
    requires Represents(s) && (p != null ==> p in s.parent) && (n != null ==> n in s.parent)
    modifies s.parent.Keys`parentNode, s.parent.Keys`firstChild, s.parent.Keys`prevSibling, s.parent.Keys`nextSibling, Just(n)`owner
    ensures p == null || n == null ==> code == InvalidParameter
    ensures p != null && n != null ==> code == old(AppendCode(s, p, n, n.owner == 0 || p.owner == n.owner))
    ensures code != Success && code != UsesFreed ==> t == s && Represents(t)
    ensures code == Success ==>
              && n.owner == p.owner && Forest(s) && NodeOk(s, p)
              && Snapshot(s.parent.Keys) == AppendCells(old(Snapshot(s.parent.Keys)), p, n, At(s.kids[p], |s.kids[p]| - 1))
              && Inserted(Snapshot(s.parent.Keys), s, p, n, |s.kids[p]|, old(n.prevSibling), t)
    ensures old(KindsOk(Snapshot(s.parent.Keys))) ==> KindsOk(Snapshot(s.parent.Keys))
    ensures old(OwnersOk(Snapshot(s.parent.Keys), Owners(s.parent.Keys))) && code != Success ==> OwnersOk(Snapshot(s.parent.Keys), Owners(s.parent.Keys))
    ensures old(OwnersOk(Snapshot(s.parent.Keys), Owners(s.parent.Keys))) && code == Success ==>
              (OwnersOk(Snapshot(s.parent.Keys), Owners(s.parent.Keys)) <==> old(n.owner) == p.owner || old(NoChild(Snapshot(s.parent.Keys), n)))
  {
    hide Drawn, Attach, NodeOk, Forest, Paste, IsAncestor, Blocked, Under, AppendCells, Snapshot, Torn, KindsOk, Holds, OwnersOk, NoChild, AllowChildren, Owners;
    t := s;
    if p == null || n == null {
      return InvalidParameter, s;
    }
    TestsBlocked(s, n, p);
    if n.owner != 0 && p.owner != n.owner {
      return WrongDocument, s;
    }
    if IsAncestor(n, p, s) {
      return HierarchyRequest, s;
    }
    if !AllowChildren(p, n) {
      return HierarchyRequest, s;
    }
    ParentPointer(s, n);
    if n.parentNode == p {
      // ixmlNode_removeChild with a null return node frees n, which the code then links in.
      return UsesFreed, s;
    }
    ListPlace(s, p, 0);
    ghost var h, k := Snapshot(s.parent.Keys), s.kids[p];
    CellOf(s.parent.Keys, n);
    NotItsChild(s, p, n);
    ghost var o := Owners(s.parent.Keys);
    OwnerOf(s.parent.Keys, p);
    OwnerOf(s.parent.Keys, n);
    AppendLinks(p, n, s);
    AppendKeeps(h, o, p, n, At(k, |k| - 1));
    t := AfterInsert(s, h, Snapshot(s.parent.Keys), p, n, |k|);
    return Success, t;
  }

  /** A node that passes the ancestor test is no child of n, nor n of itself. */
  lemma NotItsChild(s: Shape, p: Node, n: Node)
    requires Represents(s) && p in s.parent && n in s.parent && NodeOk(s, n) && !IsAncestor(n, p, s)
    ensures p.parentNode != n && n.parentNode != n
    ensures p in Snapshot(s.parent.Keys) && Snapshot(s.parent.Keys)[p].parent != n
    ensures n in Snapshot(s.parent.Keys) && Snapshot(s.parent.Keys)[n].parent != n
  {
    hide Drawn, NodeOk, Forest;
    CellOf(s.parent.Keys, p);
    CellOf(s.parent.Keys, n);
    ParentPointer(s, n);
    NotOwnParent(s, n);
  }

  lemma NotOwnParent(s: Shape, n: Node)
    requires Represents(s) && n in s.parent
    ensures s.parent[n] != n
  {
    assert NodeOk(s, n);
  }

  /** The state after the updates, by where n was before. */
  lemma AfterInsert(s: Shape, h: Cells, h': Cells, p: Node, n: Node, i: nat) returns (t: Shape)
    requires Drawn(h, s) && p in s.parent && n in s.parent && NodeOk(s, p) && s.parent[n] != p && i <= |s.kids[p]|
    requires n in h && p in h && (s.parent[n] == null && p != n ==> !Under(s, p, n))
    requires h' == if i == |s.kids[p]| then AppendCells(h, p, n, At(s.kids[p], i - 1))
                   else InsertCells(h, p, n, At(s.kids[p], i - 1), s.kids[p][i])
    ensures Forest(s) && Inserted(h', s, p, n, i, h[n].prev, t)
    ensures n != p && s.parent[n] == null ==> t.parent.Keys == s.parent.Keys
  {
    hide Drawn, Attach, Torn, Paste, AppendCells, InsertCells, DepthBelow, Under, Linked, Heads;
    t := s;
    DrawnKeys(h, s);
    var k := s.kids[p];
    if n == p {
      SelfUpdates(h, p, At(k, i - 1), if i < |k| then k[i] else p);
    } else if s.parent[n] != null {
      TornByUpdates(h, s, p, n, At(k, i - 1), if i < |k| then k[i] else p);
    } else {
      RootCells(h, s, n);
      UpdatesPaste(h, p, n, At(k, i - 1), if i < |k| then k[i] else p);
      PasteDrawn(h, s, p, n, i);
      AttachKeys(s, p, n, i);
      t := Attach(s, p, n, i);
    }
  }

  lemma CellOf(nodes: set<Node>, x: Node)
    requires x in nodes
    ensures x in Snapshot(nodes) && Snapshot(nodes)[x] == Cell(x.parentNode, x.firstChild, x.prevSibling, x.nextSibling)
  {
  }

  lemma SelfUpdates(h: Cells, p: Node, left: Node?, r: Node)
    requires p in h
    ensures p in AppendCells(h, p, p, left) && AppendCells(h, p, p, left)[p].parent == p
    ensures p in InsertCells(h, p, p, left, r) && InsertCells(h, p, p, left, r)[p].parent == p
  {
  }

  lemma RootCells(h: Cells, s: Shape, n: Node)
    requires Drawn(h, s) && n in s.parent && s.parent[n] == null
    ensures h[n].prev == null && h[n].next == null
  {
    assert Heads(h, s, n);
  }

  /** The pointer updates of ixmlNode_insertBefore. */
  method InsertLinks(p: Node, n: Node, r: Node, ghost nodes: set<Node>)
    requires p in nodes && n in nodes && r in nodes && n != r
    requires r.prevSibling != null ==> r.prevSibling in nodes && r.prevSibling != n && r.prevSibling != r
    modifies nodes`parentNode, nodes`firstChild, nodes`prevSibling, nodes`nextSibling
    ensures Snapshot(nodes) == InsertCells(old(Snapshot(nodes)), p, n, old(r.prevSibling), r)
  {
    n.nextSibling := r;
    if r.prevSibling != null {
      r.prevSibling.nextSibling := n;
      n.prevSibling := r.prevSibling;
    }
    r.prevSibling := n;
    if n.prevSibling == null {
      p.firstChild := n;
    }
    n.parentNode := p;
  }

  /** The checks of ixmlNode_insertBefore in their order. */
  ghost function InsertCode(s: Shape, p: Node, n: Node, r: Node?, sameOwner: bool): Code
    requires Represents(s) && p in s.parent && n in s.parent && (r != null ==> r in s.parent)
    reads s.parent.Keys
  {
    TestsBlocked(s, n, p);
    if !AllowChildren(p, n) || Blocked(s, n, p) then HierarchyRequest
    else if !sameOwner then WrongDocument
    else if r == null then AssertFails
    else if s.parent[r] != p then NotFound
    else if s.parent[n] == p then UsesFreed
    else Success
  }

  /**
   ixmlNode_insertBefore. A null reference fails the assertion of isParent, so that the branch that would append is
   never reached.
   */
  method InsertBefore(p: Node?, n: Node?, r: Node?, ghost s: Shape) returns (code: Code, ghost t: Shape)
    requires Represents(s) && (p != null ==> p in s.parent) && (r != null ==> r in s.parent) && (n != null ==> n in s.parent)
    modifies s.parent.Keys`parentNode, s.parent.Keys`firstChild, s.parent.Keys`prevSibling, s.parent.Keys`nextSibling
    ensures p == null || n == null ==> code == InvalidParameter
    ensures p != null && n != null ==> code == old(InsertCode(s, p, n, r, p.owner == n.owner))
    ensures code != Success && code != UsesFreed ==> t == s && Represents(t)
    ensures code == Success ==>
              && Forest(s) && NodeOk(s, p) && r in s.kids[p]
              && Snapshot(s.parent.Keys) == InsertCells(old(Snapshot(s.parent.Keys)), p, n, old(r.prevSibling), r)
              && Inserted(Snapshot(s.parent.Keys), s, p, n, Index(s.kids[p], r), old(n.prevSibling), t)
    ensures old(KindsOk(Snapshot(s.parent.Keys))) ==> KindsOk(Snapshot(s.parent.Keys))
    ensures old(OwnersOk(Snapshot(s.parent.Keys), Owners(s.parent.Keys))) ==> OwnersOk(Snapshot(s.parent.Keys), Owners(s.parent.Keys))
  {
    hide Drawn, Attach, NodeOk, Forest, Paste, IsAncestor, Blocked, Under, InsertCells, Snapshot, Torn, KindsOk, Holds, OwnersOk, NoChild, AllowChildren, Owners;
    t := s;
    if p == null || n == null {
      return InvalidParameter, s;
    }
    TestsBlocked(s, n, p);
    if !AllowChildren(p, n) || IsAncestor(n, p, s) {
      return HierarchyRequest, s;
    }
    if p.owner != n.owner {
      return WrongDocument, s;
    }
    if r == null {
      return AssertFails, s;
    }
    ParentPointer(s, r);
    if r.parentNode != p {
      return NotFound, s;
    }
    ParentPointer(s, n);
    if n.parentNode == p {
      return UsesFreed, s;
    }
    ChildLeft(s, p, r);
    ghost var h, i := Snapshot(s.parent.Keys), Index(s.kids[p], r);
    CellOf(s.parent.Keys, n);
    OwnerOf(s.parent.Keys, p);
    OwnerOf(s.parent.Keys, n);
    InsertKeeps(h, Owners(s.parent.Keys), p, n, r.prevSibling, r);
    InsertLinks(p, n, r, s.parent.Keys);
    t := AfterInsert(s, h, Snapshot(s.parent.Keys), p, n, i);
    return Success, t;
  }

  /** The left neighbour of a child. */
  lemma ChildLeft(s: Shape, p: Node, c: Node)
    requires Represents(s) && p in s.parent && c in s.parent && c.parentNode == p
    ensures Forest(s) && NodeOk(s, p) && c in s.kids[p]
    ensures var k, i := s.kids[p], Index(s.kids[p], c);
            && i < |k| && k[i] == c && c.prevSibling == At(k, i - 1)
            && (i > 0 ==> k[i - 1] in s.parent && s.parent[k[i - 1]] == p && k[i - 1] != c)
  {
    ChildPlace(s, p, c);
    if Index(s.kids[p], c) > 0 {
      ListPlace(s, p, Index(s.kids[p], c) - 1);
    }
  }

  lemma AttachLists(s: Shape, p: Node, n: Node, i: nat)
    requires Forest(s) && p in s.parent && NodeOk(s, p) && i < |s.kids[p]| && n in s.parent && s.parent[n] == null && n != p
    requires Forest(Attach(s, p, n, i))
    ensures var t, o := Attach(s, p, n, i), s.kids[p][i];
            && p in t.kids && t.kids[p] == s.kids[p][..i] + [n] + s.kids[p][i..]
            && t.parent.Keys == s.parent.Keys && NodeOk(t, p) && o in t.parent && NodeOk(t, o) && t.kids[p][i + 1] == o
  {
    hide DepthBelow;
    var t, o := Attach(s, p, n, i), s.kids[p][i];
    assert o in s.parent;
    hide Attach;
    InForestOnly(t, p);
    InForestOnly(t, o);
  }

  lemma InForestOnly(s: Shape, x: Node)
    requires Forest(s) && x in s.parent
    ensures NodeOk(s, x) && x in s.kids
  {
  }

  /** Attaching next to a child and detaching the child is a substitution. */
  lemma Substitution(s: Shape, p: Node, n: Node, i: nat)
    requires Forest(s) && p in s.parent && NodeOk(s, p) && i < |s.kids[p]| && n in s.parent && s.parent[n] == null && n != p
    requires var t := Attach(s, p, n, i); Forest(t) && NodeOk(t, p) && NodeOk(t, s.kids[p][i]) && t.kids[p][i + 1] == s.kids[p][i]
    ensures Detach(Attach(s, p, n, i), p, i + 1).kids == s.kids[p := s.kids[p][i := n]]
    ensures Detach(Attach(s, p, n, i), p, i + 1).parent == s.parent[n := p][s.kids[p][i] := null]
  {
    hide DepthBelow, Under, Forest, ParentOk;
    var k, t := s.kids[p], Attach(s, p, n, i);
    assert t.kids[p][..i + 1] + t.kids[p][i + 2..] == k[i := n];
  }

  /** The replaced child right after the insertion. */
  lemma InsertedRight(h: Cells, p: Node, n: Node, left: Node?, o: Node)
    requires p in h && n in h && o in h && o != n && o != left
    ensures var g := InsertCells(h, p, n, left, o); g.Keys == h.Keys && g[o] == h[o].(prev := n, first := g[o].first)
  {
  }

  /** What a successful replacement leaves: as after an insertion, with o cut off. */
  ghost predicate Replaced(h: Cells, s: Shape, p: Node, n: Node, o: Node, x: Node?, t: Shape)
    requires Forest(s) && n in s.parent && p in s.parent && NodeOk(s, p)
  {
    if n == p then p in h && h[p].parent == p
    else if s.parent[n] != null then Torn(h, s.parent[n], x, n)
    else
      && o in s.kids[p] && t.parent == s.parent[n := p][o := null]
      && t.kids == s.kids[p := s.kids[p][Index(s.kids[p], o) := n]] && Drawn(h, t)
  }

  lemma AfterReplace(s: Shape, h: Cells, g: Cells, p: Node, n: Node, o: Node, u: Shape) returns (t: Shape)
    requires Drawn(h, s) && p in s.parent && n in s.parent && o in s.parent && NodeOk(s, p) && s.parent[n] != p
    requires Forest(s) && o in s.kids[p] && s.parent[o] == p && o != p && o != n && n in h && p in h && o in g && p in g
    requires g[o].prev == n && Inserted(g, s, p, n, Index(s.kids[p], o), h[n].prev, u)
    ensures Replaced(Cut(g, p, o), s, p, n, o, h[n].prev, t)
  {
    hide Drawn, Attach, Detach, Torn, Forest, Under, DepthBelow, Linked, Heads, Cut;
    t := s;
    var i := Index(s.kids[p], o);
    if n == p {
      CutOthers(g, p, o, p);
    } else if s.parent[n] != null {
      DrawnKeys(h, s);
      Hangs(h, s, n);
      TornByCut(g, p, o, s.parent[n], h[n].prev, n);
    } else {
      DrawnKeys(g, u);
      AttachLists(s, p, n, i);
      CutDrawn(g, u, p, i + 1);
      Substitution(s, p, n, i);
      t := Detach(u, p, i + 1);
    }
  }

  lemma CutOthers(h: Cells, p: Node, c: Node, x: Node)
    requires p in h && c in h && x in h && x != c
    ensures x in Cut(h, p, c) && Cut(h, p, c)[x].parent == h[x].parent
  {
  }

  /** ixmlNode_replaceChild: the checks, an insertion before the old child, and its removal. */
  method ReplaceChild(p: Node?, n: Node?, o: Node?, ghost s: Shape) returns (code: Code, ghost t: Shape)
    requires Represents(s) && (p != null ==> p in s.parent) && (n != null ==> n in s.parent) && (o != null ==> o in s.parent)
    modifies s.parent.Keys`parentNode, s.parent.Keys`firstChild, s.parent.Keys`prevSibling, s.parent.Keys`nextSibling
    ensures p == null || n == null || o == null ==> code == InvalidParameter
    ensures p != null && n != null && o != null ==> code == old(InsertCode(s, p, n, o, p.owner == n.owner))
    ensures code != Success && code != UsesFreed ==> t == s && Represents(t)
    ensures code == Success ==>
              Forest(s) && NodeOk(s, p) && Replaced(Snapshot(s.parent.Keys), s, p, n, o, old(n.prevSibling), t)
    ensures old(KindsOk(Snapshot(s.parent.Keys))) ==> KindsOk(Snapshot(s.parent.Keys))
    ensures old(OwnersOk(Snapshot(s.parent.Keys), Owners(s.parent.Keys))) ==> OwnersOk(Snapshot(s.parent.Keys), Owners(s.parent.Keys))
  {
    hide Drawn, Attach, Detach, NodeOk, Forest, IsAncestor, Blocked, Under, Snapshot, Index, InsertCells, Cut, Torn, Inserted, Replaced,
         KindsOk, OwnersOk, Owners, AllowChildren;
    t := s;
    if p == null || n == null || o == null {
      return InvalidParameter, s;
    }
    TestsBlocked(s, n, p);
    if IsAncestor(n, p, s) || !AllowChildren(p, n) {
      return HierarchyRequest, s;
    }
    if p.owner != n.owner {
      return WrongDocument, s;
    }
    ParentPointer(s, o);
    if o.parentNode != p {
      return NotFound, s;
    }
    ghost var h := Snapshot(s.parent.Keys);
    CellOf(s.parent.Keys, n);
    CellOf(s.parent.Keys, o);
    ChildPlace(s, p, o);
    ghost var u;
    code, u := InsertBefore(p, n, o, s);
    if code != Success {
      return code, u;
    }
    ghost var g := Snapshot(s.parent.Keys);
    InsertedRight(h, p, n, old(o.prevSibling), o);
    CellOf(s.parent.Keys, o);
    assert o.parentNode == p;
    CutKeeps(g, Owners(s.parent.Keys), p, o);
    Relink(p, o, s.parent.Keys);
    t := AfterReplace(s, h, g, p, n, o, u);
  }

  // ---- when an edit succeeds ----

  /** A root goes under any node of its document that is not below it, exactly if the kinds allow it. */
  lemma AppendSucceedsIff(s: Shape, p: Node, n: Node, sameOwner: bool)
    requires Represents(s) && p in s.parent && n in s.parent && s.parent[n] == null && Forest(s) && (n == p || !Under(s, p, n))
    ensures AppendCode(s, p, n, sameOwner) == Success <==>
            && sameOwner && !p.kind.Attribute? && !p.kind.Text? && !p.kind.CDataSection?
            && (p.kind.Element? ==> !n.kind.Attribute? && !n.kind.Document?)
            && (p.kind.Document? ==> n.kind.Element?)
    ensures AppendCode(s, p, n, sameOwner) in {Success, WrongDocument, HierarchyRequest}
    ensures AppendCode(s, p, n, sameOwner) == WrongDocument <==> !sameOwner
  {
    hide Represents, NodeOk, Forest, Under, IsAncestor, Blocked;
    NotBlocked(s, p, n);
    AllowsExactly(p, n);
  }

  /** The same before a child of p; here the kinds are looked at before the documents. */
  lemma InsertSucceedsIff(s: Shape, p: Node, n: Node, r: Node, sameOwner: bool)
    requires Represents(s) && p in s.parent && n in s.parent && s.parent[n] == null && Forest(s) && (n == p || !Under(s, p, n))
    requires r in s.parent && s.parent[r] == p
    ensures InsertCode(s, p, n, r, sameOwner) == Success <==>
            && sameOwner && !p.kind.Attribute? && !p.kind.Text? && !p.kind.CDataSection?
            && (p.kind.Element? ==> !n.kind.Attribute? && !n.kind.Document?)
            && (p.kind.Document? ==> n.kind.Element?)
    ensures InsertCode(s, p, n, r, sameOwner) in {Success, WrongDocument, HierarchyRequest}
    ensures InsertCode(s, p, n, r, sameOwner) == WrongDocument <==> !sameOwner && InsertCode(s, p, n, r, true) == Success
  {
    hide Represents, NodeOk, Forest, Under, IsAncestor, Blocked;
    NotBlocked(s, p, n);
    AllowsExactly(p, n);
  }

  lemma NotBlocked(s: Shape, p: Node, n: Node)
    requires Represents(s) && p in s.parent && n in s.parent && s.parent[n] == null && Forest(s) && (n == p || !Under(s, p, n))
    ensures NodeOk(s, n) && NodeOk(s, p) && (s.parent[p] != null ==> s.parent[p] in s.parent) && !Blocked(s, n, p)
  {
    hide Represents, NodeOk, Forest, Under, IsAncestor, Blocked;
    TestsBlocked(s, n, p);
    RootIsAncestor(s, n, p);
  }

  // ---- when a success leaves a forest ----

  /** A node that is its own parent is in no forest. */
  lemma SelfIsNoForest(h: Cells, u: Shape, p: Node)
    requires p in h && h[p].parent == p
    ensures !Drawn(h, u)
  {
    if Drawn(h, u) {
      CellParent(h, u, p);
    }
  }

  /** After a successful insertion the pointers draw some forest if and only if n was a root other than p. */
  lemma InsertedForestIff(h: Cells, s: Shape, p: Node, n: Node, i: nat, x: Node?, t: Shape)
    requires Forest(s) && n in s.parent && p in s.parent && NodeOk(s, p) && Inserted(h, s, p, n, i, x, t)
    ensures (exists u :: Drawn(h, u)) <==> s.parent[n] == null && n != p
  {
    hide Drawn, Attach, Torn, Forest, NodeOk;
    forall u
      ensures Drawn(h, u) ==> s.parent[n] == null && n != p
    {
      if n == p {
        SelfIsNoForest(h, u, p);
      } else if s.parent[n] != null {
        TornIsNoForest(h, u, s.parent[n], x, n);
      }
    }
  }

  /** The same after a successful replacement. */
  lemma ReplacedForestIff(h: Cells, s: Shape, p: Node, n: Node, o: Node, x: Node?, t: Shape)
    requires Forest(s) && n in s.parent && p in s.parent && NodeOk(s, p) && Replaced(h, s, p, n, o, x, t)
    ensures (exists u :: Drawn(h, u)) <==> s.parent[n] == null && n != p
  {
    hide Drawn, Torn, Forest, NodeOk, Index;
    forall u
      ensures Drawn(h, u) ==> s.parent[n] == null && n != p
    {
      if n == p {
        SelfIsNoForest(h, u, p);
      } else if s.parent[n] != null {
        TornIsNoForest(h, u, s.parent[n], x, n);
      }
    }
  }

  // ---- the failing cases ----

  /** Nodes without parent and children. */
  ghost function Roots(nodes: set<Node>): Shape {
    Shape(map x | x in nodes :: null, map x | x in nodes :: [], map x | x in nodes :: 0, 0)
  }

  lemma NewRoots(nodes: set<Node>)
    requires forall x :: x in nodes ==>
               x.parentNode == null && x.firstChild == null && x.prevSibling == null && x.nextSibling == null
    ensures Roots(nodes).parent.Keys == nodes && Represents(Roots(nodes))
    ensures forall x :: x in nodes ==> Roots(nodes).parent[x] == null && Roots(nodes).kids[x] == []
  {
    var s, h := Roots(nodes), Snapshot(nodes);
    assert s.parent.Keys == nodes;
    forall x | x in nodes
      ensures NodeOk(s, x) && Heads(h, s, x) && Linked(h, s.kids[x], x)
    {
    }
  }

  lemma PairShape(nodes: set<Node>, p: Node, n: Node)
    requires p in nodes && n in nodes && p != n && Forest(Roots(nodes))
    ensures var t := Attach(Roots(nodes), p, n, 0);
            && t.parent == Roots(nodes).parent[n := p] && t.parent.Keys == nodes && t.kids.Keys == nodes
            && t.kids[p] == [n] && forall x :: x in nodes && x != p ==> t.kids[x] == []
  {
    hide DepthBelow;
    assert Roots(nodes).parent.Keys == nodes;
    var k: seq<Node> := [];
    assert k[..0] + [n] + k[0..] == [n];
  }

  /** An element appended to itself becomes its own parent. */
  method AppendedToItself() returns (p: Node, code: Code)
    ensures code == Success && p.parentNode == p
  {
    hide Represents, Forest, NodeOk, Attach, Torn, Roots, KindsOk, OwnersOk, NoChild, Owners;
    p := new Node(Element, 0);
    NewRoots({p});
    ghost var s, t := Roots({p}), Roots({p});
    TestsBlocked(s, p, p);
    code, t := AppendChild(p, p, s);
    CellOf(s.parent.Keys, p);
  }

  /** Three elements, of which n is the child of q; these two belong to no document. */
  method ParentAndChild(owner: int) returns (p: Node, q: Node, n: Node, ghost s: Shape)
    ensures fresh({p, q, n}) && p != q && n != p && n != q && p.kind == q.kind == n.kind == Element
    ensures p.owner == owner && q.owner == n.owner == 0
    ensures s.parent.Keys == s.kids.Keys == {p, q, n} && Represents(s)
    ensures s.parent[p] == null && s.parent[q] == null && s.parent[n] == q && s.kids[p] == [] && s.kids[q] == [n]
  {
    hide Forest, NodeOk, Drawn, Attach, Roots, AppendCells, Torn, Blocked, Snapshot, KindsOk, OwnersOk, NoChild, Owners;
    p := new Node(Element, owner);
    q := new Node(Element, 0);
    n := new Node(Element, 0);
    ghost var nodes := {p, q, n};
    NewRoots(nodes);
    s := Roots(nodes);
    TestsBlocked(s, n, q);
    RootNotBlocked(s, n, q);
    ghost var t;
    var code;
    code, t := AppendChild(q, n, s);
    PairShape(nodes, q, n);
    s := t;
  }

  lemma RootNotBlocked(s: Shape, n: Node, p: Node)
    requires Forest(s) && n in s.parent && p in s.parent && NodeOk(s, n) && s.parent[p] == null
    ensures !Blocked(s, n, p)
  {
  }

  /** An element appended to p while it is a child of q: both lead to it, and no forest has these pointers. */
  method AppendedTwice() returns (p: Node, q: Node, n: Node, code: Code)
    ensures code == Success && q.firstChild == n && p.firstChild == n && n.parentNode == p != q
    ensures forall u :: !Drawn(Snapshot({p, q, n}), u)
  {
    hide Forest, NodeOk, Drawn, Attach, Torn, Blocked, Represents, KindsOk, OwnersOk, NoChild, Owners;
    ghost var s, t;
    p, q, n, s := ParentAndChild(0);
    ListPlace(s, q, 0);
    ListPlace(s, p, 0);
    TestsBlocked(s, n, p);
    RootNotBlocked(s, n, p);
    CellOf(s.parent.Keys, q);
    ghost var x := n.prevSibling;
    code, t := AppendChild(p, n, s);
    CellOf(s.parent.Keys, p);
    CellOf(s.parent.Keys, q);
    CellOf(s.parent.Keys, n);
    InsertedForestIff(Snapshot(s.parent.Keys), s, p, n, |s.kids[p]|, x, t);
  }

  /** An element of no document, with a child, appended to one of document 7: the child is left without a document. */
  method ChildLeftBehind() returns (p: Node, q: Node, n: Node, code: Code)
    ensures code == Success && q.parentNode == p && n.parentNode == q && p.owner == q.owner == 7 && n.owner == 0
  {
    hide Forest, NodeOk, Drawn, Attach, Torn, Blocked, Represents, Snapshot, Inserted, KindsOk, OwnersOk, NoChild, Owners, AppendCells;
    ghost var s, t;
    p, q, n, s := ParentAndChild(7);
    ListPlace(s, q, 0);
    TestsBlocked(s, q, p);
    RootNotBlocked(s, q, p);
    ListPlace(s, p, 0);
    ParentPointer(s, n);
    ghost var h := Snapshot(s.parent.Keys);
    CellOf(s.parent.Keys, n);
    code, t := AppendChild(p, q, s);
    CellOf(s.parent.Keys, n);
    CellOf(s.parent.Keys, q);
    StaysBelow(h, p, q, n);
  }

  /** Appending to a childless node moves the parent pointer of no other node. */
  lemma StaysBelow(h: Cells, p: Node, q: Node, n: Node)
    requires p in h && q in h && n in h && n != q && n != p && p != q
    ensures AppendCells(h, p, q, null).Keys == h.Keys && AppendCells(h, p, q, null)[n].parent == h[n].parent
    ensures AppendCells(h, p, q, null)[q].parent == p
  {
  }

  /** Appending a child to its parent again uses it after it has been freed. */
  method AppendedAgain() returns (p: Node, n: Node, code: Code)
    ensures code == UsesFreed
  {
    hide Forest, NodeOk, Drawn, Attach, Torn, Blocked, Represents, KindsOk, OwnersOk, NoChild, Owners;
    var o;
    ghost var s, t;
    o, p, n, s := ParentAndChild(0);
    TestsBlocked(s, n, p);
    RootNotBlocked(s, n, p);
    code, t := AppendChild(p, n, s);
  }
}
