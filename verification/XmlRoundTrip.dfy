/**
 Parsing what the printer prints.
 */
module XmlRoundTrip {
  import opened CText
  import opened XmlChars
  import opened XmlLexer
  import opened XmlTree
  import opened XmlPrinter
  import opened XmlParser
  import opened XmlLexing
  import opened XmlSteps

  /** A document as it comes back: child lists end at their first text, and blank text is gone. */
  function Normalize(n: Node): (r: Node)
    ensures n.Element? <==> r.Element?
    decreases n, 1
  {
    match n
    case Element(name, attrs, kids) => Element(name, attrs, NormalizeAll(kids))
    case Text(value) => n
  }

  function NormalizeAll(ns: seq<Node>): seq<Node>
    decreases ns, 0
  {
    if ns == [] then []
    else if ns[0].Text? then (if AllSpace(ns[0].value) then [] else [ns[0]])
    else [Normalize(ns[0])] + NormalizeAll(ns[1..])
  }

  /** `q` is where the run that stands at `p` gets to, with the rest of the state kept. */
  ghost predicate Reaches(s: string, p: Parser, q: Parser) {
    && p.cur <= |s| && q.cur <= |s| && Run(s, p) == Run(s, q)
    && q.stack == p.stack && q.hasTop == p.hasTop
  }

  lemma AfterStep(s: string, p: Parser, q: Parser)
    requires p.cur <= |s| && Step(s, p) == Next(q) && q.stack == p.stack && q.hasTop == p.hasTop
    ensures Reaches(s, p, q)
  {
    hide Step;
    RunStep(s, p, q);
  }

  function WithAttrs(c: Cursor, attrs: seq<Attr>): Cursor
    requires c.path != []
  {
    Cursor([c.path[0].(attrs := c.path[0].attrs + attrs)] + c.path[1..], c.roots)
  }

  /** What follows an attribute is the end of the tag or another attribute. */
  lemma AfterAttr(s: string, e: nat, attrs: seq<Attr>)
    requires StartsWith(s, e, PrintAttrs(attrs) + ">") && WellFormedAttrs(attrs)
    ensures if attrs == [] then At(s, e) == '>' else At(s, e) == ' ' && AttrAhead(s, e)
  {
    hide StartsWith, IsXmlName, IsXmlText, Escape;
    if attrs == [] {
      assert PrintAttrs(attrs) + ">" == ">";
      StartsWithAt(s, e, ">", 0);
    } else {
      var a := attrs[0];
      var rest := "\"" + Escape(a.value) + "\"" + PrintAttrs(attrs[1..]) + ">";
      assert PrintAttrs(attrs) + ">" == " " + (a.name + ("=" + rest));
      StartsWithSplit(s, e, " ", a.name + ("=" + rest));
      StartsWithSplit(s, e + 1, a.name, "=" + rest);
      StartsWithSplit(s, e + 1 + |a.name|, "=", rest);
      StartsWithAt(s, e, " ", 0);
      StartsWithAt(s, e + 1 + |a.name|, "=", 0);
    }
  }

  /** The attributes of a start tag are read in order, up to and including ">". */
  lemma {:induction false} AttrsRun(s: string, p: Parser, attrs: seq<Attr>) returns (q: Parser)
    requires p.cur <= |s| && p.mode == InAttribute && p.stack != [] && p.tree.path != [] && attrs != []
    requires WellFormedAttrs(attrs) && DistinctNames(p.tree.path[0].attrs + attrs)
    requires StartsWith(s, p.cur, PrintAttrs(attrs) + ">")
    ensures Reaches(s, p, q) && q.mode == InContent && q.cur == p.cur + |PrintAttrs(attrs)| + 1
    ensures q.tree == WithAttrs(p.tree, attrs) && q.lastElem == p.lastElem
    decreases attrs
  {
    hide StartsWith, Step, Run, IsXmlName, IsXmlText, AttrAhead, Escape;
    var a, rest := attrs[0], attrs[1..];
    var e := p.cur + 1 + |QuotedAttr(a)|;
    assert PrintAttrs(attrs) + ">" == (" " + QuotedAttr(a)) + (PrintAttrs(rest) + ">");
    StartsWithSplit(s, p.cur, " " + QuotedAttr(a), PrintAttrs(rest) + ">");
    AfterAttr(s, e, rest);
    assert !HasAttr(p.tree.path[0].attrs, a.name) by {
      var all := p.tree.path[0].attrs + attrs;
      assert all[|p.tree.path[0].attrs|] == a;
      forall k | 0 <= k < |p.tree.path[0].attrs| ensures p.tree.path[0].attrs[k].name != a.name {
        assert all[k] == p.tree.path[0].attrs[k];
      }
    }
    AddAttribute(s, p, a);
    q := Ahead(s, p.(tree := p.tree.AddAttr(a)), e).(save := e);
    AfterStep(s, p, q);
    assert p.tree.path[0].attrs + attrs == p.tree.path[0].attrs + [a] + rest;
    if rest != [] {
      var q' := AttrsRun(s, q, rest);
      q := q';
    } else {
      assert p.tree.path[0].attrs + [a] == p.tree.path[0].attrs + attrs;
    }
  }

  /** The start tag of an element, attributes included. */
  lemma OpenRun(s: string, p: Parser, name: string, attrs: seq<Attr>) returns (q: Parser)
    requires p.cur <= |s| && p.mode != InContent && (p.stack != [] || !p.hasTop)
    requires IsXmlName(name) && WellFormedAttrs(attrs)
    requires StartsWith(s, p.cur, "<" + name + PrintAttrs(attrs) + ">")
    ensures q.cur == p.cur + |"<" + name + PrintAttrs(attrs) + ">"| <= |s| && Run(s, p) == Run(s, q)
    ensures q.mode == InContent && q.stack == [name] + p.stack && q.hasTop && q.lastElem == Some(name)
    ensures q.tree == Cursor([Frame(name, attrs, [])] + p.tree.path, p.tree.roots)
  {
    hide StartsWith, Step, Run, IsXmlName, IsXmlText, AttrAhead, Escape, PrintAttrs;
    assert "<" + name + PrintAttrs(attrs) + ">" == ("<" + name) + (PrintAttrs(attrs) + ">");
    StartsWithSplit(s, p.cur, "<" + name, PrintAttrs(attrs) + ">");
    var e := p.cur + 1 + |name|;
    AfterAttr(s, e, attrs);
    OpenTag(s, p, name);
    var o := p.(lastElem := Some(name), stack := [name] + p.stack, hasTop := true, tree := p.tree.Descend(name));
    q := Ahead(s, o, e);
    RunStep(s, p, q);
    if attrs == [] {
      assert PrintAttrs(attrs) == "" by { NoAttrs(); }
    } else {
      assert [] + attrs == attrs;
      q := AttrsRun(s, q, attrs);
    }
  }

  function WithKids(c: Cursor, ns: seq<Node>): Cursor
    requires c.path != []
  {
    Cursor([c.path[0].(kids := c.path[0].kids + ns)] + c.path[1..], c.roots)
  }

  lemma WithKidsCons(c: Cursor, n: Node, ns: seq<Node>)
    requires c.path != []
    ensures WithKids(c, []) == c && c.Append(n) == WithKids(c, [n])
    ensures WithKids(c.Append(n), ns) == WithKids(c, [n] + ns)
  {
    assert c.path[0].kids + [] == c.path[0].kids;
    assert c.path == [c.path[0]] + c.path[1..];
    assert c.path[0].kids + [n] + ns == c.path[0].kids + ([n] + ns);
  }

  /** White space before a tag, at the end of a child list or before the next child. */
  lemma SpacesRun(s: string, p: Parser, w: string, tag: string) returns (q: Parser)
    requires p.cur <= |s| && p.mode == InContent && AllSpace(w)
    requires StartsWith(s, p.cur, w + tag) && |tag| > 1 && tag[0] == '<' && tag[1] !in {'!', '?'}
    ensures Reaches(s, p, q) && q.cur == p.cur + |w| && q.mode == InElement && q.tree == p.tree
    ensures q.lastElem == p.lastElem
  {
    hide StartsWith, Step, Run;
    StartsWithSplit(s, p.cur, w, tag);
    StartsWithAt(s, p.cur + |w|, tag, 0);
    StartsWithAt(s, p.cur + |w|, tag, 1);
    forall k | p.cur <= k < p.cur + |w| ensures IsSpace(At(s, k)) { StartsWithAt(s, p.cur, w, k - p.cur); }
    EnterTag(s, p, p.cur + |w|);
    q := p.(save := p.cur, cur := p.cur + |w|, mode := InElement);
    AfterStep(s, p, q);
  }

  /** A text that ends a child list: kept unless it is blank. */
  lemma TextRun(s: string, p: Parser, v: string) returns (q: Parser)
    requires p.cur <= |s| && p.mode == InContent && p.tree.path != [] && IsXmlText(v)
    requires StartsWith(s, p.cur, Escape(v) + "</")
    ensures Reaches(s, p, q) && q.cur == p.cur + |Escape(v)| && q.mode == InElement
    ensures q.tree == WithKids(p.tree, if AllSpace(v) then [] else [Text(v)])
  {
    hide StartsWith, Step, Run, IsXmlText, WithKids;
    WithKidsCons(p.tree, Text(v), []);
    if AllSpace(v) {
      EscapePlain(v);
      q := SpacesRun(s, p, v, "</");
    } else {
      hide Escape, AllSpace;
      assert Escape(v) + "</" == (Escape(v) + "<") + "/";
      StartsWithSplit(s, p.cur, Escape(v) + "<", "/");
      StartsWithSplit(s, p.cur, Escape(v), "</");
      AddText(s, p, v);
      var m := p.(save := p.cur, cur := p.cur + |Escape(v)|, tree := p.tree.Append(Text(v)));
      AfterStep(s, p, m);
      assert "" + "</" == "</";
      q := SpacesRun(s, m, "", "</");
    }
  }

  /** A printed child list, with the line break before it, up to the end tag of its parent. */
  lemma {:induction false} KidsRun(s: string, p: Parser, w: string, ns: seq<Node>) returns (q: Parser)
    requires p.cur <= |s| && p.mode == InContent && p.tree.path != [] && p.stack != [] && p.hasTop
    requires WellFormedAll(ns) && AllSpace(w) && (ns != [] && ns[0].Text? ==> w == "")
    requires StartsWith(s, p.cur, w + PrintAll(ns) + "</")
    ensures Reaches(s, p, q) && q.cur == p.cur + |w + PrintAll(ns)| && q.mode == InElement
    ensures q.tree == WithKids(p.tree, NormalizeAll(ns))
    decreases ns, 0
  {
    hide StartsWith, Step, Run, IsXmlText, IsXmlName, WithKids, Escape, PrintElement;
    if ns == [] {
      assert w + "" + "</" == w + "</";
      WithKidsCons(p.tree, Text(""), []);
      q := SpacesRun(s, p, w, "</");
    } else if ns[0].Text? {
      assert w + PrintAll(ns) + "</" == Escape(ns[0].value) + "</";
      q := TextRun(s, p, ns[0].value);
    } else {
      var body, brk := PrintElement(ns[0], true), Break(|ns| > 1 && ns[1].Text?);
      var rest := brk + PrintAll(ns[1..]) + "</";
      ElementText(ns[0], |ns| > 1 && ns[1].Text?);
      assert w + PrintAll(ns) + "</" == w + (body + rest);
      StartsWithSplit(s, p.cur, w, body + rest);
      StartsWithSplit(s, p.cur + |w|, body, rest);
      var m := SpacesRun(s, p, w, body + rest);
      m := ElementRun(s, m, ns[0]);
      q := KidsRun(s, m, brk, ns[1..]);
      WithKidsCons(p.tree, Normalize(ns[0]), NormalizeAll(ns[1..]));
    }
  }

  /** A printed element opens a tag, and its trailing line break comes last. */
  lemma ElementText(n: Node, beforeText: bool)
    requires n.Element? && WellFormed(n)
    ensures PrintElement(n, beforeText) == PrintElement(n, true) + Break(beforeText)
    ensures var t := PrintElement(n, true); |t| > 1 && t[0] == '<' && t[1] !in {'!', '?'}
  {
    hide StartsWith, IsXmlName, PrintAttrs;
    StartsWithSelf(n.name);
    NameLeads(n.name, 0, n.name);
    assert PrintElement(n, true)[1] == n.name[0];
  }

  /** A printed element is read back as its normal form, appended to the current node. */
  lemma {:induction false} ElementRun(s: string, p: Parser, n: Node) returns (q: Parser)
    requires n.Element? && WellFormed(n) && p.cur <= |s| && p.mode != InContent && (p.stack != [] || !p.hasTop)
    requires StartsWith(s, p.cur, PrintElement(n, true))
    ensures q.cur == p.cur + |PrintElement(n, true)| <= |s| && Run(s, p) == Run(s, q)
    ensures q.stack == p.stack && q.hasTop && q.mode == InContent && q.tree == p.tree.Append(Normalize(n))
    decreases n, 1
  {
    hide StartsWith, Step, Run, IsXmlText, IsXmlName, PrintAttrs, PrintAll, Normalize, Escape;
    var open := "<" + n.name + PrintAttrs(n.attrs) + ">";
    var brk := Break(n.kids == [] || n.kids[0].Text?);
    var close := "</" + n.name + ">";
    assert PrintElement(n, true) == open + (brk + PrintAll(n.kids) + close);
    StartsWithSplit(s, p.cur, open, brk + PrintAll(n.kids) + close);
    StartsWithSplit(s, p.cur + |open|, brk + PrintAll(n.kids), close);
    assert brk + PrintAll(n.kids) + close == (brk + PrintAll(n.kids) + "</") + (n.name + ">");
    StartsWithSplit(s, p.cur + |open|, brk + PrintAll(n.kids) + "</", n.name + ">");
    hide PrintElement, PrintAll;
    var o := OpenRun(s, p, n.name, n.attrs);
    var k := KidsRun(s, o, brk, n.kids);
    CloseTag(s, k, n.name);
    q := k.(cur := k.cur + |n.name| + 3, mode := InContent, stack := k.stack[1..], tree := k.tree.Ascend());
    RunStep(s, k, q);
    assert k.tree.path[1..] == p.tree.path;
    assert [] + NormalizeAll(n.kids) == NormalizeAll(n.kids);
    assert Normalize(n) == Element(n.name, n.attrs, NormalizeAll(n.kids)) by { NormalElement(n); }
  }

  lemma NormalElement(n: Node)
    requires n.Element?
    ensures Normalize(n) == Element(n.name, n.attrs, NormalizeAll(n.kids))
  {
  }

  /** The class of documents that survive: elements, then at most one text, and that one not blank. */
  predicate Canonical(n: Node)
    decreases n, 1
  {
    n.Element? ==> CanonicalAll(n.kids)
  }

  predicate CanonicalAll(ns: seq<Node>)
    decreases ns, 0
  {
    ns != [] ==>
      if ns[0].Text? then |ns| == 1 && !AllSpace(ns[0].value)
      else Canonical(ns[0]) && CanonicalAll(ns[1..])
  }

  lemma {:induction false} NormalizeFixesCanonical(n: Node)
    ensures Normalize(n) == n <==> Canonical(n)
    decreases n, 1
  {
    if n.Element? {
      NormalizeAllFixesCanonical(n.kids);
    }
  }

  lemma {:induction false} NormalizeAllFixesCanonical(ns: seq<Node>)
    ensures NormalizeAll(ns) == ns <==> CanonicalAll(ns)
    decreases ns, 0
  {
    if ns != [] && ns[0].Element? {
      NormalizeFixesCanonical(ns[0]);
      NormalizeAllFixesCanonical(ns[1..]);
      assert ns == [ns[0]] + ns[1..];
      if NormalizeAll(ns) == ns {
        assert NormalizeAll(ns)[0] == Normalize(ns[0]);
        assert NormalizeAll(ns)[1..] == NormalizeAll(ns[1..]);
      }
    }
  }

  /** The children that ixmlNode_appendChild admits at a document: elements. */
  predicate ElementsOnly(ns: seq<Node>) {
    forall k :: 0 <= k < |ns| ==> ns[k].Element?
  }

  /** Where the declaration ends, and what it starts with. */
  lemma DeclarationText(s: string)
    requires StartsWith(s, 0, DECLARATION)
    ensures StartsWith(s, 0, "<?xml ") && Find(s, 0, "?>") == Some(19) && |DECLARATION| == 23
    ensures IsSpace(At(s, 21)) && IsSpace(At(s, 22)) && At(s, 0) == '<'
  {
    hide Find, StartsWith;
    var d := "<?xml version=\"1.0\"";
    assert DECLARATION == "<?xml " + "version=\"1.0\"?>\r\n" && DECLARATION == d + "?>" + "\r\n";
    StartsWithSplit(s, 0, "<?xml ", "version=\"1.0\"?>\r\n");
    StartsWithSplit(s, 0, d + "?>", "\r\n");
    StartsWithSplit(s, 0, d, "?>");
    StartsWithAt(s, 0, d, 0);
    StartsWithAt(s, 21, "\r\n", 0);
    StartsWithAt(s, 21, "\r\n", 1);
    StartsWithAt(s, 0, d + "?>", 2);
    forall k | 0 <= k < 19 ensures At(s, k) != '?' || At(s, k + 1) != '>' {
      StartsWithAt(s, 0, d, k);
    }
    FindAt(s, 0, 19, "?>");
  }

  /** The declaration is skipped and the parser starts at the first printed tag, if any. */
  lemma PrologRun(s: string)
    requires StartsWith(s, 0, DECLARATION)
    requires !IsSpace(At(s, 23)) && (At(s, 23) == '<' ==> At(s, 24) !in {'!', '?'})
    ensures Parse(s) == Run(s, Start(23))
  {
    hide StartsWith, Find, SkipSpaces, SkipMisc, Run;
    DeclarationText(s);
    SkipSpacesTo(s, 0, 0);
    SkipSpacesTo(s, 21, 23);
    MiscStays(s, 23);
    NotStarting(s, 23, "<!DOCTYPE", if At(s, 23) == '<' then 1 else 0);
  }

  /** White space to the end of the buffer, with no element open, ends the run. */
  lemma AtEnd(s: string, p: Parser)
    requires p.cur <= |s| && p.mode == InContent && p.stack == []
    requires forall k :: p.cur <= k < |s| ==> IsSpace(At(s, k))
    ensures Run(s, p) == Accepted(p.tree.roots)
  {
    hide SkipSpaces;
    if p.cur < |s| {
      assert IsSpace(At(s, p.cur));
      SkipSpacesTo(s, p.cur, |s|);
      var q := p.(save := p.cur, cur := |s|);
      assert Step(s, p) == Next(q);
      RunStep(s, p, q);
      assert Run(s, q) == Accepted(q.tree.roots);
    }
  }

  /** The print of a document that has a root, cut after the first end tag. */
  lemma DocumentText(s: string, roots: seq<Node>)
    requires roots != [] && ElementsOnly(roots) && WellFormedAll(roots) && StartsWith(s, 0, PrintDocument(roots))
    ensures var body, rest := PrintElement(roots[0], true), Break(false) + PrintAll(roots[1..]);
            && StartsWith(s, 0, DECLARATION) && StartsWith(s, 23, body) && StartsWith(s, 23 + |body|, rest)
            && |PrintDocument(roots)| == 23 + |body| + |rest| && At(s, 23) == '<' && At(s, 24) !in {'!', '?'}
  {
    hide StartsWith, PrintElement, WellFormed, IsXmlName, IsXmlText;
    var body, rest := PrintElement(roots[0], true), Break(false) + PrintAll(roots[1..]);
    ElementText(roots[0], false);
    assert PrintAll(roots) == body + rest;
    StartsWithSplit(s, 0, DECLARATION, body + rest);
    StartsWithSplit(s, 23, body, rest);
    StartsWithAt(s, 23, body, 0);
    StartsWithAt(s, 23, body, 1);
  }

  lemma StartsInside(s: string, i: nat, w: string)
    requires StartsWith(s, i, w) && i <= |s|
    ensures i + |w| <= |s|
  {
  }

  /** The first root is read; what is left of the print is its line break and the other roots. */
  lemma RootRun(s: string, roots: seq<Node>) returns (q: Parser)
    requires roots != [] && ElementsOnly(roots) && WellFormedAll(roots) && StartsWith(s, 0, PrintDocument(roots))
    ensures q.cur <= |s| && Parse(s) == Run(s, q)
    ensures q.stack == [] && q.hasTop && q.mode == InContent && q.tree == Cursor([], [Normalize(roots[0])])
    ensures var rest := Break(false) + PrintAll(roots[1..]);
            StartsWith(s, q.cur, rest) && q.cur + |rest| == |PrintDocument(roots)|
  {
    hide StartsWith, Run, Parse, PrintElement, PrintAll, PrintDocument;
    DocumentText(s, roots);
    PrologRun(s);
    StartsInside(s, 0, DECLARATION);
    q := ElementRun(s, Start(23), roots[0]);
  }

  /** The empty document is its declaration and comes back empty. */
  lemma EmptyDocument()
    ensures Parse(PrintDocument([])) == Accepted(NormalizeAll([]))
  {
    var s := PrintDocument([]);
    assert s == DECLARATION;
    StartsWithSelf(s);
    hide StartsWith, Parse, PrintDocument;
    PrologRun(s);
    assert Run(s, Start(23)) == Accepted([]);
  }

  lemma OnlyRoot(s: string, roots: seq<Node>)
    requires |roots| == 1 && ElementsOnly(roots) && WellFormedAll(roots) && s == PrintDocument(roots)
    ensures Parse(s) == Accepted(NormalizeAll(roots))
  {
    hide StartsWith, Run, Parse, PrintDocument, Normalize, Step, WellFormed;
    StartsWithSelf(s);
    var q := RootRun(s, roots);
    assert Break(false) + PrintAll(roots[1..]) == "\r\n";
    forall k | q.cur <= k < |s| ensures IsSpace(At(s, k)) { StartsWithAt(s, q.cur, "\r\n", k - q.cur); }
    AtEnd(s, q);
    assert NormalizeAll(roots) == [Normalize(roots[0])] + NormalizeAll([]);
  }

  /** For every well-formed document, parsing its print gives its normal form; a second root is refused. */
  lemma ParsePrint(roots: seq<Node>)
    requires ElementsOnly(roots) && WellFormedAll(roots)
    ensures Parse(PrintDocument(roots)) ==
            if |roots| <= 1 then Accepted(NormalizeAll(roots)) else Rejected(Syntax)
  {
    hide StartsWith, Run, Parse, PrintDocument, NormalizeAll, Normalize, Step, WellFormed, PrintAll;
    if roots == [] {
      EmptyDocument();
    } else if |roots| == 1 {
      OnlyRoot(PrintDocument(roots), roots);
    } else {
      StartsWithSelf(PrintDocument(roots));
      var q := RootRun(PrintDocument(roots), roots);
      SecondRoot(PrintDocument(roots), q, roots[1..]);
    }
  }

  /** A printed element starts with its start tag. */
  lemma TagText(s: string, i: nat, n: Node)
    requires n.Element? && WellFormed(n) && StartsWith(s, i, PrintElement(n, true))
    ensures StartsWith(s, i, "<" + n.name)
    ensures StartsWith(s, i + 1 + |n.name|, PrintAttrs(n.attrs) + ">")
  {
    hide StartsWith, IsXmlName, IsXmlText, PrintAttrs, PrintAll;
    var tag, tail := "<" + n.name, PrintAttrs(n.attrs) + ">";
    var rest := Break(n.kids == [] || n.kids[0].Text?) + PrintAll(n.kids) + "</" + n.name + ">";
    assert PrintElement(n, true) == (tag + tail) + rest;
    StartsWithSplit(s, i, tag + tail, rest);
    StartsWithSplit(s, i, tag, tail);
  }

  lemma PrintAllHead(ns: seq<Node>) returns (rest: string)
    requires ns != [] && ns[0].Element? && WellFormedAll(ns)
    ensures PrintAll(ns) == PrintElement(ns[0], true) + rest && WellFormed(ns[0]) && IsXmlName(ns[0].name)
    ensures |PrintAll(ns)| > 1 && PrintAll(ns)[0] == '<' && PrintAll(ns)[1] !in {'!', '?'}
  {
    hide IsXmlName, IsXmlText, PrintElement;
    rest := Break(|ns| > 1 && ns[1].Text?) + PrintAll(ns[1..]);
    ElementText(ns[0], |ns| > 1 && ns[1].Text?);
    assert PrintAll(ns) == PrintElement(ns[0], true) + rest;
  }

  /** A second start tag at top level fails. */
  lemma SecondRoot(s: string, p: Parser, ns: seq<Node>)
    requires p.cur <= |s| && p.mode == InContent && p.stack == [] && p.hasTop
    requires ns != [] && ns[0].Element? && WellFormedAll(ns)
    requires StartsWith(s, p.cur, Break(false) + PrintAll(ns))
    ensures Run(s, p) == Rejected(Syntax)
  {
    hide StartsWith, Run, Step, IsXmlName, IsXmlText, PrintElement, PrintAttrs, Canonical, Normalize, PrintAll;
    var n, body := ns[0], PrintElement(ns[0], true);
    var rest := PrintAllHead(ns);
    var q := SpacesRun(s, p, Break(false), PrintAll(ns));
    StartsWithSplit(s, p.cur, Break(false), body + rest);
    StartsWithSplit(s, q.cur, body, rest);
    TagText(s, q.cur, n);
    AfterAttr(s, q.cur + 1 + |n.name|, n.attrs);
    SecondOpen(s, q, n.name);
  }

  lemma SecondOpen(s: string, p: Parser, name: string)
    requires p.cur <= |s| && p.mode != InContent && p.stack == [] && p.hasTop
    requires IsXmlName(name) && StartsWith(s, p.cur, "<" + name)
    requires At(s, p.cur + 1 + |name|) == '>' || AttrAhead(s, p.cur + 1 + |name|)
    ensures Run(s, p) == Rejected(Syntax)
  {
    hide GetNextToken, SkipSpaces, StartsWith, IsXmlName, AttrAhead, IsLetter, ProcessETag, ProcessAttribute, ProcessContent;
    LookAhead(s, p.cur + 1 + |name|);
    TagTokens(s, p.cur, p.save, name);
    assert Step(s, p) == Rejected(Syntax);
  }

  /** The round trip holds of a well-formed document exactly when it has at most one root and is canonical. */
  lemma RoundTrip(roots: seq<Node>)
    requires ElementsOnly(roots) && WellFormedAll(roots)
    ensures Parse(PrintDocument(roots)) == Accepted(roots) <==> |roots| <= 1 && CanonicalAll(roots)
  {
    hide Parse, PrintDocument;
    ParsePrint(roots);
    NormalizeAllFixesCanonical(roots);
  }
}
