/**
 The ixml printer and parser as they run: a growing buffer, and a parser object whose fields every
 routine updates.  Each method is proved against its function in XmlPrinter, XmlLexer or XmlParser.
 */
module XmlMachine {
  import opened CText
  import opened Utf8
  import opened XmlChars
  import opened XmlLexer
  import opened XmlTree
  import opened XmlPrinter
  import opened XmlParser
  import XmlLexing

  lemma EscapeNext(v: string, c: char)
    ensures Escape("") == "" && Escape(v + [c]) == Escape(v) + EscapeChar(c)
  {
    XmlLexing.EscapeConcat(v, [c]);
    assert Escape([c]) == EscapeChar(c) + Escape("");
  }

  /** Attributes separated by single spaces. */
  function AttrList(attrs: seq<Attr>): string
    requires attrs != []
  {
    attrs[0].name + "=\"" + Escape(attrs[0].value) + "\"" + (if |attrs| > 1 then " " + AttrList(attrs[1..]) else "")
  }

  lemma {:induction false} AttrListText(attrs: seq<Attr>)
    requires attrs != []
    ensures PrintAttrs(attrs) == " " + AttrList(attrs)
  {
    hide Escape;
    var head, tail := attrs[0].name + "=\"" + Escape(attrs[0].value) + "\"", PrintAttrs(attrs[1..]);
    assert PrintAttrs(attrs) == " " + (head + tail);
    if |attrs| > 1 {
      AttrListText(attrs[1..]);
    } else {
      assert attrs[1..] == [] && tail == "";
    }
  }

  /** ixml_membuf, written by the printer. */
  class Membuf {
    var buf: string

    constructor ()
      ensures buf == ""
    {
      buf := "";
    }

    method Append(w: string)
      modifies this
      ensures buf == old(buf) + w
    {
      buf := buf + w;
    }

    /** copy_with_escape */
    method CopyWithEscape(p: string)
      modifies this
      ensures buf == old(buf) + Escape(p)
    {
      hide Escape;
      EscapeNext("", NUL);
      var i := 0;
      while i < |p|
        invariant 0 <= i <= |p|
        invariant buf == old(buf) + Escape(p[..i])
      {
        EscapeNext(p[..i], p[i]);
        assert p[..i + 1] == p[..i] + [p[i]];
        match p[i] {
          case '<' => Append("&lt;");
          case '>' => Append("&gt;");
          case '&' => Append("&amp;");
          case '\'' => Append("&apos;");
          case '"' => Append("&quot;");
          case c => Append([c]);
        }
        i := i + 1;
      }
      assert p[..i] == p;
    }

    /** ixmlPrintDomTreeRecursive on the first of a list of attributes */
    method PrintAttributes(attrs: seq<Attr>)
      requires attrs != []
      modifies this
      ensures buf == old(buf) + AttrList(attrs)
      decreases attrs
    {
      hide Escape;
      Append(attrs[0].name);
      Append("=\"");
      CopyWithEscape(attrs[0].value);
      Append("\"");
      if |attrs| > 1 {
        Append(" ");
        PrintAttributes(attrs[1..]);
      }
    }

    /** ixmlPrintDomTreeRecursive on the first of a list of siblings */
    method PrintSiblings(ns: seq<Node>)
      modifies this
      ensures buf == old(buf) + PrintAll(ns)
      decreases ns
    {
      hide TagText, Escape, PrintAttrs, PrintAll;
      SiblingsText(ns);
      if ns != [] {
        var n := ns[0];
        match n {
          case Text(value) => CopyWithEscape(value);
          case Element(name, attrs, kids) =>
            PrintTag(n);
            PrintSiblings(kids);
            Append("</");
            Append(name);
            if |ns| > 1 && ns[1].Text? { Append(">"); } else { Append(">\r\n"); }
            PrintSiblings(ns[1..]);
        }
      }
    }

    /** The start tag of an element, with the line break before a first child element. */
    method PrintTag(n: Node)
      requires n.Element?
      modifies this
      ensures buf == old(buf) + TagText(n)
    {
      hide PrintAttrs, AttrList;
      Append("<");
      Append(n.name);
      assert n.attrs == [] ==> PrintAttrs(n.attrs) == "" by { NoAttrs(); }
      if n.attrs != [] {
        AttrListText(n.attrs);
        Append(" ");
        PrintAttributes(n.attrs);
      }
      if n.kids != [] && n.kids[0].Element? { Append(">\r\n"); } else { Append(">"); }
    }
  }

  /** A sibling list in the pieces the printer writes. */
  lemma SiblingsText(ns: seq<Node>)
    ensures PrintAll(ns) ==
            if ns == [] then ""
            else if ns[0].Text? then Escape(ns[0].value)
            else TagText(ns[0]) + PrintAll(ns[0].kids) + "</" + ns[0].name + ">" + Break(|ns| > 1 && ns[1].Text?)
                 + PrintAll(ns[1..])
  {
    hide Escape, PrintAttrs, Break;
  }

  function TagText(n: Node): string
    requires n.Element?
  {
    "<" + n.name + PrintAttrs(n.attrs) + ">" + Break(n.kids == [] || n.kids[0].Text?)
  }

  /** ixmlPrintDocument */
  method PrintToString(roots: seq<Node>) returns (r: string)
    ensures r == PrintDocument(roots)
  {
    var m := new Membuf();
    m.Append(DECLARATION);
    m.PrintSiblings(roots);
    r := m.buf;
  }

  datatype Rc = Success | Done | Failure(error: Error)

  /** The Parser structure. */
  class ParserObject {
    const dataBuffer: string
    var curPtr: nat
    var savePtr: nat
    var state: Mode
    var lastElem: Option<string>
    var tokenBuf: string
    var elements: seq<string>
    var bHasTopLevel: bool
    var tree: Cursor

    /** The fields that outlive one token. */
    ghost function View(): Parser
      reads this
    {
      Parser(curPtr, savePtr, state, lastElem, elements, bHasTopLevel, tree)
    }

    ghost predicate Valid()
      reads this
    {
      curPtr <= |dataBuffer|
    }

    /** Parser_init, and `curPtr` set to the buffer */
    constructor (s: string)
      ensures Valid() && View() == Start(0) && dataBuffer == s
    {
      dataBuffer := s;
      curPtr, savePtr, state, lastElem, tokenBuf := 0, 0, InElement, None, "";
      elements, bHasTopLevel, tree := [], false, Cursor([], []);
    }

    method SkipWhiteSpaces()
      requires Valid()
      modifies this`curPtr
      ensures Valid() && curPtr == SkipSpaces(dataBuffer, old(curPtr))
    {
      while IsSpace(At(dataBuffer, curPtr))
        invariant Valid() && SkipSpaces(dataBuffer, curPtr) == SkipSpaces(dataBuffer, old(curPtr))
        decreases |dataBuffer| - curPtr
      {
        curPtr := curPtr + 1;
      }
    }

    method SkipMiscellaneous() returns (ok: bool)
      requires Valid()
      modifies this`curPtr
      ensures Valid() && Skipped(ok, curPtr) == SkipMisc(dataBuffer, old(curPtr))
    {
      hide SkipSpaces, Find, StartsWith, IsXmlDecl, SkipComment;
      var done := false;
      ok := true;
      while !done && ok
        invariant Valid()
        invariant SkipMisc(dataBuffer, old(curPtr)) ==
                  if !done && ok then SkipMisc(dataBuffer, curPtr) else Skipped(ok, curPtr)
        decreases |dataBuffer| - curPtr, !done && ok
      {
        if StartsWith(dataBuffer, curPtr, "<!--") {
          var p := SkipComment(dataBuffer, curPtr);
          if p.Some? { curPtr := p.value; } else { ok := false; }
        } else if IsXmlDecl(dataBuffer, curPtr) {
          ok := false;
        } else if StartsWith(dataBuffer, curPtr, "<?") {
          var p := Find(dataBuffer, curPtr, "?>");
          if p.Some? { curPtr := p.value + 2; } else { ok, curPtr := false, |dataBuffer|; }
        } else {
          done := true;
        }
        SkipWhiteSpaces();
      }
    }

    /** Parser_copyToken on the bytes from `i` to `end` */
    method CopyTokenBuf(i: nat, end: nat) returns (ok: bool)
      modifies this`tokenBuf
      ensures ok <==> CopyToken(dataBuffer, i, end).Some?
      ensures ok ==> tokenBuf == old(tokenBuf) + CopyToken(dataBuffer, i, end).value
      ensures end <= i ==> tokenBuf == old(tokenBuf)
      ensures i < end && GetChar(dataBuffer, i).value > 0 ==> old(tokenBuf) + CharBytes(GetChar(dataBuffer, i)) <= tokenBuf
    {
      hide GetChar, CharBytes;
      if end <= i {
        return false;
      }
      var psrc := i;
      while psrc < end
        invariant i <= psrc
        invariant var all, rest := CopyFrom(dataBuffer, i, end), CopyFrom(dataBuffer, psrc, end);
                  && (all.Some? <==> rest.Some?)
                  && (rest.Some? ==> old(tokenBuf) + all.value == tokenBuf + rest.value)
        invariant psrc > i ==> GetChar(dataBuffer, i).value > 0 && old(tokenBuf) + CharBytes(GetChar(dataBuffer, i)) <= tokenBuf
        invariant psrc == i ==> tokenBuf == old(tokenBuf)
        decreases end - psrc
      {
        var d := GetChar(dataBuffer, psrc);
        if d.value <= 0 {
          return false;
        }
        tokenBuf := tokenBuf + CharBytes(d);
        psrc := psrc + d.len;
      }
      ok := psrc == end;
    }

    /** Parser_getNextToken; a failed copy may leave bytes of the token in the buffer. */
    method NextToken() returns (length: nat)
      requires Valid()
      modifies this`curPtr, this`savePtr, this`tokenBuf
      ensures Valid()
      ensures var t := GetNextToken(dataBuffer, old(curPtr), old(savePtr));
              curPtr == t.cur && savePtr == t.save && (if length > 0 then tokenBuf == t.text != "" else t.text == "")
      ensures length == 0 && tokenBuf != "" ==>
                tokenBuf[0] == '<' && GetNextToken(dataBuffer, curPtr, savePtr).text == "" && At(dataBuffer, curPtr) == '<'
    {
      hide TokenLength, CopyToken, SkipMisc, GetChar, CharBytes;
      tokenBuf := "";
      if At(dataBuffer, curPtr) == NUL {
        return 0;
      }
      var ok := SkipMiscellaneous();
      if !ok {
        return 0;
      }
      length := TokenLength(dataBuffer, curPtr);
      TokenCopies(dataBuffer, curPtr);
      if At(dataBuffer, curPtr) == '/' && length == 2 {
        savePtr := curPtr;
      }
      ok := CopyTokenBuf(curPtr, curPtr + length);
      if !ok {
        return 0;
      }
      curPtr := curPtr + length;
    }

    /** Parser_processSTag */
    method ProcessStartTag() returns (rc: Rc, item: Item)
      requires Valid()
      modifies this
      ensures Matches(rc, item, ProcessSTag(dataBuffer, old(View())))
    {
      hide GetNextToken;
      item := NoNode;
      var n := NextToken();
      if n == 0 { return Failure(Syntax), NoNode; }
      var name := tokenBuf;
      if ':' in name { return Failure(OutOfScope), NoNode; }
      lastElem := Some(name);
      savePtr := curPtr;
      n := NextToken();
      if n == 0 { return Failure(Syntax), NoNode; }
      if tokenBuf == "/>" {
        state := InElement;
        curPtr := savePtr;
      } else if tokenBuf == ">" {
        state := InContent;
      } else {
        state := InAttribute;
        curPtr := savePtr;
      }
      rc, item := Success, StartTag(name);
    }

    /** The outcome of a routine agrees with its function. */
    ghost predicate Matches(rc: Rc, item: Item, f: Fetched)
      reads this
    {
      match f
      case FileDone => rc == Done
      case Failed(e) => rc == Failure(e)
      case Fetched(i, q) => rc == Success && item == i && View() == q && Valid()
    }

    /** Parser_processETag */
    method ProcessEndTag() returns (rc: Rc, item: Item)
      requires Valid()
      modifies this
      ensures Matches(rc, item, ProcessETag(dataBuffer, old(View())))
    {
      hide GetNextToken, SkipSpaces;
      var n := NextToken();
      if n == 0 { return Failure(Syntax), NoNode; }
      var name := tokenBuf;
      SkipWhiteSpaces();
      n := NextToken();
      if n == 0 || tokenBuf != ">" { return Failure(Syntax), NoNode; }
      rc, item := Success, EndTag(name);
    }

    /** Parser_processContent */
    method ProcessContents() returns (rc: Rc, item: Item)
      requires Valid()
      modifies this
      ensures Matches(rc, item, ProcessContent(dataBuffer, old(View())))
    {
      hide SkipSpaces, SkipComment, SkipPI, CopyFrom, StartsWith;
      item := NoNode;
      savePtr := curPtr;
      SkipWhiteSpaces();
      if At(dataBuffer, curPtr) == NUL { return Success, NoNode; }
      if At(dataBuffer, curPtr) == '<' {
        if StartsWith(dataBuffer, curPtr, "<![CDATA[") { return Failure(OutOfScope), NoNode; }
        if StartsWith(dataBuffer, curPtr, "<!--") {
          var e := SkipComment(dataBuffer, curPtr);
          if e.None? { return Failure(Syntax), NoNode; }
          curPtr := e.value;
        } else if StartsWith(dataBuffer, curPtr, "<?") {
          var e := SkipPI(dataBuffer, curPtr);
          if e.None? { return Failure(Syntax), NoNode; }
          curPtr := e.value;
        } else {
          state := InElement;
        }
        return Success, NoNode;
      }
      curPtr := savePtr;
      var end := curPtr;
      while end < |dataBuffer| && dataBuffer[end] != '<' && dataBuffer[end] != NUL && !StartsWith(dataBuffer, end, "]]>")
        invariant curPtr <= end <= |dataBuffer| && ContentEnd(dataBuffer, end) == ContentEnd(dataBuffer, curPtr)
      {
        end := end + 1;
      }
      if StartsWith(dataBuffer, end, "]]>") { return Failure(Syntax), NoNode; }
      tokenBuf := "";
      var ok := CopyTokenBuf(curPtr, end);
      if !ok { return Failure(Syntax), NoNode; }
      curPtr := end;
      assert "" + tokenBuf == tokenBuf;
      rc, item := Success, TextNode(tokenBuf);
    }

    /** Parser_processAttribute, with the attribute name in the token buffer. */
    method ProcessAttr() returns (rc: Rc, item: Item)
      requires Valid() && tokenBuf != ""
      modifies this
      ensures Matches(rc, item, ProcessAttribute(dataBuffer, old(View()), old(tokenBuf)))
    {
      hide GetNextToken, IsLetter, Decode, Find, CopyFrom, AfterAttribute, HasRawLess;
      item := NoNode;
      var name := tokenBuf;
      if !IsLetter(Decode(name, 0).value) { return Failure(Syntax), NoNode; }
      if ':' in name || name == "xmlns" { return Failure(OutOfScope), NoNode; }
      var n := NextToken();
      if n == 0 || tokenBuf[0] != '=' { return Failure(Syntax), NoNode; }
      n := NextToken();
      if n == 0 || (tokenBuf[0] != '"' && tokenBuf[0] != '\'') { return Failure(Syntax), NoNode; }
      var end := Find(dataBuffer, curPtr, tokenBuf);
      if end.None? { return Failure(Syntax), NoNode; }
      assert end.value <= |dataBuffer| by { FoundInside(dataBuffer, curPtr, tokenBuf); }
      var less := ScanForLess(end.value);
      if less { return Failure(Syntax), NoNode; }
      tokenBuf := "";
      if end.value != curPtr {
        var ok := CopyTokenBuf(curPtr, end.value);
        if !ok { return Failure(Syntax), NoNode; }
        assert "" + CopyToken(dataBuffer, curPtr, end.value).value == CopyToken(dataBuffer, curPtr, end.value).value;
      }
      CopyNothing(dataBuffer, curPtr);
      curPtr := end.value + 1;
      var value := tokenBuf;
      rc, item := LookPastAttr(Attr(name, value));
    }

    /** The scan of Parser_processAttribute for "<" in a value. */
    method ScanForLess(end: nat) returns (found: bool)
      requires Valid() && end <= |dataBuffer|
      ensures found == HasRawLess(dataBuffer, curPtr, end)
    {
      var pCur := curPtr;
      while pCur < end
        invariant HasRawLess(dataBuffer, pCur, end) == HasRawLess(dataBuffer, curPtr, end)
      {
        if dataBuffer[pCur] == '<' { return true; }
        if dataBuffer[pCur] == '&' {
          pCur := pCur + 1;
        }
        pCur := pCur + 1;
      }
      return false;
    }

    /** The look-ahead at the end of Parser_processAttribute. */
    method LookPastAttr(a: Attr) returns (rc: Rc, item: Item)
      requires Valid()
      modifies this
      ensures Matches(rc, item, AfterAttribute(dataBuffer, old(View()), a))
    {
      hide GetNextToken;
      savePtr := curPtr;
      var n := NextToken();
      if n == 0 || tokenBuf == "<" { return Failure(Syntax), NoNode; }
      if tokenBuf != ">" {
        curPtr := savePtr;
      } else {
        state := InContent;
      }
      rc, item := Success, AttrNode(a);
    }

    /** Parser_getNextNode */
    method NextNode() returns (rc: Rc, item: Item)
      requires Valid()
      modifies this
      ensures Matches(rc, item, GetNextNode(dataBuffer, old(View())))
      ensures rc == Done ==> View() == old(View())
    {
      hide GetNextToken, SkipSpaces, ProcessContent, ProcessAttribute;
      item := NoNode;
      if At(dataBuffer, curPtr) == NUL { return Done, NoNode; }
      if state == InContent {
        rc, item := ProcessContents();
        return;
      }
      SkipWhiteSpaces();
      var n := NextToken();
      if n == 0 && elements == [] && At(dataBuffer, curPtr) == NUL { return Success, NoNode; }
      if tokenBuf == "" { return Failure(Syntax), NoNode; }
      if tokenBuf[0] == '>' { return Success, NoNode; }
      if tokenBuf == "</" {
        rc, item := ProcessEndTag();
      } else if tokenBuf[0] == '<' {
        rc, item := ProcessStartTag();
      } else if tokenBuf == "/>" {
        if lastElem.None? { return Failure(Syntax), NoNode; }
        rc, item := Success, EndTag(lastElem.value);
      } else if state == InAttribute && elements != [] {
        rc, item := ProcessAttr();
      } else {
        rc := Failure(Syntax);
      }
    }

    /** The body of the loop of Parser_parseDocument, after a node has been fetched. */
    method ApplyItem(item: Item) returns (rc: Rc)
      requires Valid()
      modifies this
      ensures match Apply(old(View()), item)
              case Next(q) => rc == Success && View() == q && Valid()
              case Rejected(e) => rc == Failure(e)
              case Accepted(_) => false
    {
      rc := Success;
      match item
      case NoNode =>
      case StartTag(name) =>
        if bHasTopLevel && elements == [] { return Failure(Syntax); }
        bHasTopLevel, savePtr := true, curPtr;
        tree, elements := tree.Descend(name), [name] + elements;
      case EndTag(name) =>
        if elements == [] { return Failure(NullElement); }
        if elements[0] != name { return Failure(Syntax); }
        elements := elements[1..];
        if tree.path == [] || tree.path[0].name != name { return Failure(Syntax); }
        tree, state := tree.Ascend(), InContent;
      case TextNode(value) =>
        if tree.path == [] { return Failure(Syntax); }
        tree := tree.Append(Text(value));
      case AttrNode(a) =>
        if tree.path == [] || HasAttr(tree.path[0].attrs, a.name) { return Failure(Syntax); }
        tree := tree.AddAttr(a);
    }

    /** The loop of Parser_parseDocument */
    method ParseLoop() returns (r: Outcome)
      requires Valid()
      modifies this
      ensures r == Run(dataBuffer, old(View()))
    {
      hide GetNextNode, Apply;
      while true
        invariant Valid() && Run(dataBuffer, View()) == Run(dataBuffer, old(View()))
        decreases |dataBuffer| - curPtr, state == InContent
      {
        ghost var p := View();
        var rc, item := NextNode();
        if rc == Done {
          return if elements == [] then Accepted(tree.roots) else Rejected(Syntax);
        }
        if rc.Failure? { return Rejected(rc.error); }
        rc := ApplyItem(item);
        if rc.Failure? { return Rejected(rc.error); }
        assert Step(dataBuffer, p) == Next(View());
      }
    }
  }

  /** ixmlParseBufferEx */
  method ParseBuffer(s: string) returns (r: Outcome)
    ensures r == Parse(s)
  {
    hide SkipSpaces, SkipMisc, Run, StartsWith, Find;
    if s == "" { return Rejected(Syntax); }
    var p := new ParserObject(s);
    p.SkipWhiteSpaces();
    if StartsWith(s, p.curPtr, "<?xml ") {
      var e := Find(s, p.curPtr, "?>");
      if e.None? { return Rejected(Syntax); }
      assert e.value + 2 <= |s| by { FoundInside(s, p.curPtr, "?>"); }
      p.curPtr := e.value + 2;
      p.SkipWhiteSpaces();
    }
    var ok := p.SkipMiscellaneous();
    if !ok { return Rejected(Syntax); }
    if StartsWith(s, p.curPtr, "<!DOCTYPE") { return Rejected(OutOfScope); }
    ok := p.SkipMiscellaneous();
    if !ok { return Rejected(Syntax); }
    r := p.ParseLoop();
  }

  lemma FoundInside(s: string, i: nat, w: string)
    ensures Find(s, i, w).Some? ==> Find(s, i, w).value + |w| <= |s|
  {
  }

  lemma CopyNothing(s: string, i: nat)
    ensures CopyFrom(s, i, i) == Some("")
  {
  }

  /** A run of name characters is always copied. */
  lemma {:induction false} NameCopies(s: string, i: nat)
    ensures CopyFrom(s, i, NameEnd(s, i)).Some?
    decreases |s| - i
  {
    hide IsNameChar, GetChar;
    var d := Decode(s, i);
    if IsNameChar(d.value) && i < |s| {
      NameCharRange(d.value);
      NameCharCopies(s, i);
      NameCopies(s, i + d.len);
    }
  }

  lemma NameCharCopies(s: string, i: nat)
    requires IsNameChar(Decode(s, i).value)
    ensures GetChar(s, i).value > 0 && GetChar(s, i).len == Decode(s, i).len
  {
    NameCharRange(Decode(s, i).value);
    hide IsNameChar, NumericEntity;
  }

  lemma TwoCopy(s: string, i: nat)
    requires At(s, i) in {'<', '/'} && At(s, i + 1) in {'/', '>'}
    ensures CopyToken(s, i, i + 2) == Some([At(s, i), At(s, i + 1)])
  {
    var a, b := Decoded(At(s, i) as int, 1), Decoded(At(s, i + 1) as int, 1);
    assert GetChar(s, i) == a && GetChar(s, i + 1) == b;
    hide GetChar;
    XmlLexing.CopyStep(s, i + 1, i + 2, b, "");
    assert CharBytes(b) + "" == CharBytes(b);
    XmlLexing.CopyStep(s, i, i + 2, a, CharBytes(b));
    assert CharBytes(a) + CharBytes(b) == [At(s, i), At(s, i + 1)];
  }

  lemma OneCopy(s: string, i: nat)
    requires At(s, i) in {'"', '\'', '=', '>', '<'}
    ensures CopyToken(s, i, i + 1) == Some([At(s, i)])
    ensures GetChar(s, i) == Decoded(At(s, i) as int, 1) && CharBytes(GetChar(s, i)) == [At(s, i)]
  {
    var a := Decoded(At(s, i) as int, 1);
    assert GetChar(s, i) == a;
    hide GetChar;
    XmlLexing.CopyStep(s, i, i + 1, a, "");
    assert [At(s, i)] + "" == [At(s, i)];
  }

  lemma CopyIsText(s: string, i: nat, end: nat)
    ensures CopyToken(s, i, end).Some? ==> CopyToken(s, i, end).value != ""
  {
    hide GetChar;
  }

  /** Parser_copyToken fails on no token but "<" before an overlong slash, which then fails again. */
  lemma TokenCopies(s: string, p: nat)
    ensures var n := TokenLength(s, p);
            n > 0 ==>
              if CopyToken(s, p, p + n).Some? then CopyToken(s, p, p + n).value != ""
              else At(s, p) == '<' && GetNextToken(s, p, p).text == "" &&
                   GetChar(s, p).value > 0 && CharBytes(GetChar(s, p)) == "<"
  {
    hide NameEnd, IsLetter, CopyFrom, CopyToken, GetChar, SkipMisc;
    var c, d := At(s, p), Decode(s, p);
    if c in {'"', '\'', '=', '>'} {
      OneCopy(s, p);
    } else if c == '<' {
      OneCopy(s, p);
      if At(s, p + 1) == '/' {
        TwoCopy(s, p);
      } else if TokenLength(s, p) == 2 {
        XmlLexing.MiscStays(s, p);
        CopyIsText(s, p, p + 2);
      }
    } else if c == '/' {
      if At(s, p + 1) == '>' { TwoCopy(s, p); }
    } else if IsLetter(d.value) {
      NameTokenCopies(s, p);
    }
  }

  lemma NameTokenCopies(s: string, p: nat)
    requires IsLetter(Decode(s, p).value)
    ensures var t := CopyToken(s, p, NameEnd(s, p + Decode(s, p).len)); t.Some? && t.value != ""
  {
    var d := Decode(s, p);
    assert IsNameChar(d.value);
    NameCharRange(d.value);
    hide IsNameChar, IsLetter, GetChar, Encode;
    NameCharCopies(s, p);
    NameCopies(s, p + d.len);
  }
}
