/**
 What relinking does to the pointers and to the forest they draw.
 */
module DomEdit {
  import opened DomShape
  import opened DomTree

  /** The pointers after c has been taken out of the children of p. */
  ghost function Cut(h: Cells, p: Node, c: Node): Cells
    requires p in h && c in h
  {
    map x | x in h ::
      Cell(if x == c then null else h[x].parent,
           if x == p && h[p].first == c then h[c].next else h[x].first,
           if x == c then null else if x == h[c].next then h[c].prev else h[x].prev,
           if x == c then null else if x == h[c].prev then h[c].next else h[x].next)
  }

  /** The pointers after n has been put between `left` and `right` among the children of p. */
  ghost function Paste(h: Cells, p: Node, n: Node, left: Node?, right: Node?): Cells
    requires p in h && n in h
  {
    map x | x in h ::
      Cell(if x == n then p else h[x].parent,
           if x == p && left == null then n else h[x].first,
           if x == n then left else if x == right then n else h[x].prev,
           if x == n then right else if x == left then n else h[x].next)
  }

  lemma CutList(h: Cells, k: seq<Node>, p: Node, i: nat)
    requires p in h && Linked(h, k, p) && Distinct(k) && i < |k| && k[i] in h
    ensures Linked(Cut(h, p, k[i]), k[..i] + k[i + 1..], p)
  {
    var k', g := k[..i] + k[i + 1..], Cut(h, p, k[i]);
    assert InPlace(h, k, p, i);
    forall j: nat
      ensures InPlace(g, k', p, j)
    {
      var m := if j < i then j else j + 1;
      assert InPlace(h, k, p, m);
    }
  }

  lemma PasteList(h: Cells, k: seq<Node>, p: Node, n: Node, i: nat)
    requires p in h && n in h && Linked(h, k, p) && Distinct(k) && i <= |k| && n !in k
    ensures Linked(Paste(h, p, n, At(k, i - 1), At(k, i)), k[..i] + [n] + k[i..], p)
  {
    var k', g := k[..i] + [n] + k[i..], Paste(h, p, n, At(k, i - 1), At(k, i));
    forall j: nat
      ensures InPlace(g, k', p, j)
    {
      if j != i {
        var m := if j < i then j else j - 1;
        assert InPlace(h, k, p, m);
      }
    }
  }

  /** Another list of children keeps its pointers. */
  lemma OtherList(h: Cells, g: Cells, k: seq<Node>, q: Node)
    requires Linked(h, k, q) && h.Keys == g.Keys
    requires forall i :: 0 <= i < |k| && k[i] in h ==>
               h[k[i]].parent == g[k[i]].parent && h[k[i]].prev == g[k[i]].prev && h[k[i]].next == g[k[i]].next
    ensures Linked(g, k, q)
  {
    forall i: nat
      ensures InPlace(g, k, q, i)
    {
      assert InPlace(h, k, q, i);
    }
  }

  lemma CutOther(h: Cells, s: Shape, p: Node, i: nat, q: Node)
    requires Drawn(h, s) && p in s.parent && NodeOk(s, p) && i < |s.kids[p]| && q in s.parent && q != p && NodeOk(s, q)
    ensures s.kids[p][i] in h && Linked(Cut(h, p, s.kids[p][i]), s.kids[q], q)
  {
    var k, c := s.kids[p], s.kids[p][i];
    assert Linked(h, k, p) && InPlace(h, k, p, i);
    assert Linked(h, s.kids[q], q);
    OtherList(h, Cut(h, p, c), s.kids[q], q);
  }

  lemma PasteOther(h: Cells, s: Shape, p: Node, n: Node, i: nat, q: Node)
    requires Drawn(h, s) && p in s.parent && NodeOk(s, p) && i <= |s.kids[p]| && q in s.parent && q != p && NodeOk(s, q)
    requires n in s.parent && s.parent[n] == null
    ensures Linked(Paste(h, p, n, At(s.kids[p], i - 1), At(s.kids[p], i)), s.kids[q], q)
  {
    assert Linked(h, s.kids[q], q);
    OtherList(h, Paste(h, p, n, At(s.kids[p], i - 1), At(s.kids[p], i)), s.kids[q], q);
  }

  lemma CutHeads(h: Cells, s: Shape, p: Node, i: nat, q: Node)
    requires Forest(s) && p in s.parent && NodeOk(s, p) && i < |s.kids[p]| && NodeOk(s, s.kids[p][i])
    requires q in s.parent && Heads(h, s, p) && Heads(h, s, q) && InPlace(h, s.kids[p], p, i)
    ensures s.kids[p][i] in h && Heads(Cut(h, p, s.kids[p][i]), Detach(s, p, i), q)
  {
    hide DepthBelow, Forest;
    var k, c, t := s.kids[p], s.kids[p][i], Detach(s, p, i);
    assert At(t.kids[p], 0) == if i == 0 then At(k, 1) else At(k, 0);
    assert c != p && (i > 0 ==> k[0] != c);
  }

  lemma PasteHeads(h: Cells, s: Shape, p: Node, n: Node, i: nat, q: Node)
    requires Forest(s) && p in s.parent && NodeOk(s, p) && i <= |s.kids[p]| && q in s.parent
    requires n in s.parent && n in h && s.parent[n] == null && n != p && Heads(h, s, p) && Heads(h, s, q)
    ensures Heads(Paste(h, p, n, At(s.kids[p], i - 1), At(s.kids[p], i)), Attach(s, p, n, i), q)
  {
    hide DepthBelow, Forest;
    var k, t := s.kids[p], Attach(s, p, n, i);
    assert At(t.kids[p], 0) == if i == 0 then n else At(k, 0);
  }

  lemma Place(h: Cells, k: seq<Node>, p: Node, i: nat)
    requires Linked(h, k, p)
    ensures InPlace(h, k, p, i)
  {
  }

  /** Cutting draws the forest with the child detached. */
  lemma CutDrawn(h: Cells, s: Shape, p: Node, i: nat)
    requires Drawn(h, s) && p in s.parent && NodeOk(s, p) && i < |s.kids[p]| && NodeOk(s, s.kids[p][i])
    ensures s.kids[p][i] in h && Drawn(Cut(h, p, s.kids[p][i]), Detach(s, p, i))
  {
    hide DepthBelow, Linked, Heads;
    DetachKeepsForest(s, p, i);
    var t, g := Detach(s, p, i), Cut(h, p, s.kids[p][i]);
    forall q | q in t.parent
      ensures NodeOk(t, q) && Heads(g, t, q) && Linked(g, t.kids[q], q)
    {
      assert NodeOk(s, q);
      assert Linked(h, s.kids[p], p);
      Place(h, s.kids[p], p, i);
      CutHeads(h, s, p, i, q);
      if q == p {
        CutList(h, s.kids[p], p, i);
      } else {
        CutOther(h, s, p, i, q);
      }
    }
  }

  /** Pasting a root draws the forest with it attached. */
  lemma PasteDrawn(h: Cells, s: Shape, p: Node, n: Node, i: nat)
    requires Drawn(h, s) && p in s.parent && NodeOk(s, p) && i <= |s.kids[p]|
    requires n in s.parent && s.parent[n] == null && !Under(s, p, n)
    ensures Drawn(Paste(h, p, n, At(s.kids[p], i - 1), At(s.kids[p], i)), Attach(s, p, n, i))
  {
    hide DepthBelow, Linked, Heads;
    AttachKeepsForest(s, p, n, i);
    var t, g := Attach(s, p, n, i), Paste(h, p, n, At(s.kids[p], i - 1), At(s.kids[p], i));
    assert n !in s.kids[p];
    forall q | q in t.parent
      ensures NodeOk(t, q) && Heads(g, t, q) && Linked(g, t.kids[q], q)
    {
      assert NodeOk(s, q);
      PasteHeads(h, s, p, n, i, q);
      if q == p {
        PasteList(h, s.kids[p], p, n, i);
      } else {
        PasteOther(h, s, p, n, i, q);
      }
    }
  }

  // ---- what the updates do to a node that still hangs elsewhere ----

  /** The updates of ixmlNode_appendChild, whatever n points to; `last` is the last child of p, if any. */
  ghost function AppendCells(h: Cells, p: Node, n: Node, last: Node?): Cells
    requires p in h && n in h
  {
    map x | x in h ::
      Cell(if x == n then p else h[x].parent,
           if x == p && last == null then n else h[x].first,
           if x == n && last != null then last else h[x].prev,
           if last != null && x == last then n else h[x].next)
  }

  /** The updates of ixmlNode_insertBefore, whatever n points to. */
  ghost function InsertCells(h: Cells, p: Node, n: Node, left: Node?, r: Node): Cells
    requires p in h && n in h
  {
    map x | x in h ::
      Cell(if x == n then p else h[x].parent,
           if x == p && left == null && h[n].prev == null then n else h[x].first,
           if x == r then n else if x == n && left != null then left else h[x].prev,
           if x == n then r else if left != null && x == left then n else h[x].next)
  }

  lemma UpdatesPaste(h: Cells, p: Node, n: Node, left: Node?, r: Node)
    requires p in h && n in h && h[n].prev == null && h[n].next == null && left != n && r != n
    ensures AppendCells(h, p, n, left) == Paste(h, p, n, left, null)
    ensures InsertCells(h, p, n, left, r) == Paste(h, p, n, left, r)
  {
  }

  /** q leads to n: as its first child, or through its child x. */
  ghost predicate Leads(h: Cells, q: Node, x: Node?, n: Node) {
    && q in h && n in h
    && (x == null ==> h[q].first == n)
    && (x != null ==> x in h && h[x].parent == q && h[x].next == n)
  }

  /** q still leads to n, but n names another parent. */
  ghost predicate Torn(h: Cells, q: Node, x: Node?, n: Node) {
    Leads(h, q, x, n) && h[n].parent != q
  }

  /** In a forest every node that q leads to has q for its parent. */
  lemma LeadsToChild(h: Cells, t: Shape, q: Node, x: Node?, n: Node)
    requires Drawn(h, t) && Leads(h, q, x, n)
    ensures h[n].parent == q
  {
    assert NodeOk(t, q) && Heads(h, t, q) && Linked(h, t.kids[q], q);
    if x == null {
      assert InPlace(h, t.kids[q], q, 0);
    } else {
      CellParent(h, t, x);
      var i := Index(t.kids[q], x);
      assert InPlace(h, t.kids[q], q, i) && InPlace(h, t.kids[q], q, i + 1);
    }
  }

  /** So torn pointers draw no forest. */
  lemma TornIsNoForest(h: Cells, t: Shape, q: Node, x: Node?, n: Node)
    requires Torn(h, q, x, n)
    ensures !Drawn(h, t)
  {
    if Drawn(h, t) {
      LeadsToChild(h, t, q, x, n);
    }
  }

  lemma CellParent(h: Cells, s: Shape, x: Node)
    requires Drawn(h, s) && x in s.parent
    ensures NodeOk(s, x) && h[x].parent == s.parent[x]
  {
    assert NodeOk(s, x) && Heads(h, s, x);
    var p := s.parent[x];
    if p != null {
      var i := Index(s.kids[p], x);
      assert NodeOk(s, p) && Linked(h, s.kids[p], p) && InPlace(h, s.kids[p], p, i);
    }
  }

  /** A node with a parent hangs where its list says. */
  lemma Hangs(h: Cells, s: Shape, n: Node)
    requires Drawn(h, s) && n in s.parent && s.parent[n] != null
    ensures var q := s.parent[n];
            && q in s.parent && NodeOk(s, q) && n in s.kids[q] && h[n].parent == q && n != q
            && var x := At(s.kids[q], Index(s.kids[q], n) - 1);
               && h[n].prev == x
               && (x == null ==> h[q].first == n)
               && (x != null ==> x in s.parent && s.parent[x] == q && h[x].parent == q && h[x].next == n && x != n)
  {
    CellParent(h, s, n);
    var q := s.parent[n];
    assert NodeOk(s, q) && Heads(h, s, q) && Linked(h, s.kids[q], q);
    var k, i := s.kids[q], Index(s.kids[q], n);
    assert InPlace(h, k, q, i);
    if i > 0 {
      assert InPlace(h, k, q, i - 1);
    }
  }

  /** A child of another parent is torn by the updates, and stays so when a child of p is cut. */
  lemma TornByUpdates(h: Cells, s: Shape, p: Node, n: Node, left: Node?, r: Node)
    requires Drawn(h, s) && p in s.parent && n in s.parent && s.parent[n] != null && s.parent[n] != p
    requires left != null ==> left in s.parent && s.parent[left] == p
    ensures h.Keys == s.parent.Keys
    ensures Torn(AppendCells(h, p, n, left), s.parent[n], h[n].prev, n)
    ensures Torn(InsertCells(h, p, n, left, r), s.parent[n], h[n].prev, n)
  {
    hide Drawn, NodeOk, Forest, Linked, Heads, Index;
    DrawnKeys(h, s);
    Hangs(h, s, n);
  }

  lemma DrawnKeys(h: Cells, s: Shape)
    requires Drawn(h, s)
    ensures h.Keys == s.parent.Keys && Forest(s)
  {
  }

  lemma TornByCut(h: Cells, p: Node, c: Node, q: Node, x: Node?, n: Node)
    requires Torn(h, q, x, n) && p in h && c in h && p != q && c != n && c != x && h[c].prev == n && x != n
    ensures Torn(Cut(h, p, c), q, x, n)
  {
  }
}
