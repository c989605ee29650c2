/**
 Whatever the parser accepts is well formed, so that it can be printed and parsed again.
 */
module XmlAccepted {
  import opened CText
  import opened Utf8
  import opened XmlChars
  import opened XmlLexer
  import opened XmlTree
  import opened XmlPrinter
  import opened XmlParser
  import opened XmlLexing
  import opened XmlRoundTrip
  import opened XmlNesting
  import opened XmlSteps
  import XmlMachine

  // ---- texts and names ----

  /** What one character adds to a token is its UTF-8 form, also after an entity or an overlong sequence. */
  lemma BytesAreEncoded(s: string, i: nat)
    requires GetChar(s, i).value > 0
    ensures CharBytes(GetChar(s, i)) == Encode(GetChar(s, i).value)
  {
    hide IsXmlChar, NumericEntity;
    var d := GetChar(s, i);
    if d.len == 1 {
      ShortIsAscii(s, i);
    }
  }

  lemma ShortIsAscii(s: string, i: nat)
    requires GetChar(s, i).value > 0 && GetChar(s, i).len == 1
    ensures GetChar(s, i).value <= 127
  {
    hide IsXmlChar;
  }

  /** What is copied are XML characters. */
  lemma {:induction false} CopiedText(s: string, i: nat, end: nat)
    requires CopyFrom(s, i, end).Some?
    ensures IsXmlText(CopyFrom(s, i, end).value)
    decreases end - i
  {
    hide GetChar, IsXmlChar, Encode;
    if i == end {
      assert EncodeAll([]) == "" && XmlCodes([]);
    } else {
      var d := GetChar(s, i);
      BytesAreEncoded(s, i);
      CopiedText(s, i + d.len, end);
      var rest := CopyFrom(s, i + d.len, end).value;
      var cs :| rest == EncodeAll(cs) && XmlCodes(cs);
      var all := [d.value] + cs;
      assert all[1..] == cs && EncodeAll(all) == Encode(d.value) + rest && XmlCodes(all);
    }
  }

  /** The character at a name character is that one. */
  lemma NameCharValue(s: string, i: nat)
    requires IsNameChar(Decode(s, i).value)
    ensures GetChar(s, i) == Decode(s, i) && Decode(s, i).value > 0
  {
    NameCharRange(Decode(s, i).value);
    hide IsNameChar, NumericEntity;
  }

  predicate NameChars(cs: seq<int>) {
    forall k :: 0 <= k < |cs| ==> IsNameChar(cs[k])
  }

  lemma {:induction false} CopiedNameChars(s: string, i: nat) returns (cs: seq<int>)
    ensures NameChars(cs) && CopyFrom(s, i, NameEnd(s, i)) == Some(EncodeAll(cs))
    decreases |s| - i
  {
    hide IsNameChar, GetChar, Encode, Decode;
    var d := Decode(s, i);
    cs := [];
    if IsNameChar(d.value) && i < |s| {
      NameCharRange(d.value);
      NameCharValue(s, i);
      BytesAreEncoded(s, i);
      var rest := CopiedNameChars(s, i + d.len);
      cs := [d.value] + rest;
      assert cs[1..] == rest;
    }
  }

  /** A name, perhaps with a prefix. */
  ghost predicate IsQName(v: string) {
    exists cs :: v == EncodeAll(cs) && cs != [] && IsLetter(cs[0]) && NameChars(cs)
  }

  lemma CopiedName(s: string, p: nat)
    requires IsLetter(Decode(s, p).value)
    ensures var t := CopyToken(s, p, NameEnd(s, p + Decode(s, p).len)); t.Some? && IsQName(t.value)
  {
    hide IsNameChar, IsLetter, GetChar, Encode, Decode;
    var d := Decode(s, p);
    LetterIsName(d.value);
    NameCharRange(d.value);
    NameCharValue(s, p);
    BytesAreEncoded(s, p);
    var rest := CopiedNameChars(s, p + d.len);
    var cs := [d.value] + rest;
    assert cs[1..] == rest && EncodeAll(cs) == Encode(d.value) + EncodeAll(rest) && NameChars(cs);
  }

  lemma LetterIsName(c: int)
    requires IsLetter(c)
    ensures IsNameChar(c)
  {
    hide IsLetter;
  }

  lemma {:induction false} ColonShows(cs: seq<int>, k: nat)
    requires k < |cs| && cs[k] == ':' as int
    ensures ':' in EncodeAll(cs)
  {
    if k == 0 {
      assert Encode(':' as int) == ":";
      assert EncodeAll(cs)[0] == ':';
    } else {
      hide Encode;
      ColonShows(cs[1..], k - 1);
      assert ':' in EncodeAll(cs[1..]);
    }
  }

  lemma NoColon(v: string)
    requires IsQName(v) && ':' !in v
    ensures IsXmlName(v)
  {
    hide Encode, IsLetter, IsNameChar;
    var cs :| v == EncodeAll(cs) && cs != [] && IsLetter(cs[0]) && NameChars(cs);
    forall k | 0 <= k < |cs|
      ensures cs[k] != ':' as int
    {
      if cs[k] == ':' as int {
        ColonShows(cs, k);
      }
    }
    assert NameCodes(cs);
  }

  // ---- tokens ----

  predicate IsSymbol(c: char) {
    c == '"' || c == '\'' || c == '=' || c == '>' || c == '<' || c == '/'
  }

  lemma LetterLeads(s: string, i: nat)
    requires IsLetter(Decode(s, i).value)
    ensures !IsSymbol(At(s, i)) && At(s, i) != NUL && !IsSpace(At(s, i))
  {
    var d := Decode(s, i);
    assert IsNameChar(d.value);
    NameCharRange(d.value);
    hide IsNameChar, IsLetter;
  }

  lemma QNameLeads(v: string)
    requires IsQName(v)
    ensures v != "" && !IsSymbol(v[0])
  {
    hide Encode, IsLetter, IsNameChar;
    var cs :| v == EncodeAll(cs) && cs != [] && IsLetter(cs[0]) && NameChars(cs);
    EncodeLeads(cs[0]);
    NameCharRange(cs[0]);
    assert v == Encode(cs[0]) + EncodeAll(cs[1..]);
  }

  /** A token is a name, or begins with the symbol it stands at. */
  lemma TokenForms(s: string, p: nat, save: nat)
    requires TokenAt(s, p, save).text != ""
    ensures var t := TokenAt(s, p, save);
            && (IsSymbol(At(s, p)) ==> t.text[0] == At(s, p))
            && (!IsSymbol(At(s, p)) ==> IsQName(t.text))
            && (At(s, p) == '<' && t.text != "</" ==> t.cur == p + 1 && IsLetter(Decode(s, p + 1).value))
  {
    hide NameEnd, IsLetter, CopyFrom, CopyToken, GetChar, IsQName;
    var c := At(s, p);
    if c == '<' {
      LessForms(s, p, save);
    } else if c == '/' {
      XmlMachine.TwoCopy(s, p);
    } else if IsSymbol(c) {
      XmlMachine.OneCopy(s, p);
    } else {
      CopiedName(s, p);
    }
  }

  lemma LessForms(s: string, p: nat, save: nat)
    requires TokenAt(s, p, save).text != "" && At(s, p) == '<'
    ensures var t := TokenAt(s, p, save);
            t.text[0] == '<' && (t.text != "</" ==> t.cur == p + 1 && IsLetter(Decode(s, p + 1).value))
  {
    hide NameEnd, IsLetter, CopyFrom, CopyToken, GetChar;
    XmlMachine.OneCopy(s, p);
    if At(s, p + 1) == '/' {
      XmlMachine.TwoCopy(s, p);
    } else if TokenLength(s, p) == 2 {
      OverlongSlash(s, p);
    }
  }

  /** A slash in overlong form is cut by the length of the token. */
  lemma OverlongSlash(s: string, p: nat)
    requires At(s, p) == '<' && Decode(s, p + 1).value == '/' as int && At(s, p + 1) != '/'
    ensures CopyToken(s, p, p + 2).None?
  {
    assert GetChar(s, p) == Decoded('<' as int, 1);
    assert Decode(s, p + 1).len > 1;
    assert GetChar(s, p + 1) == Decode(s, p + 1);
    hide GetChar, Decode;
    assert CopyFrom(s, p + 1 + Decode(s, p + 1).len, p + 2).None?;
    assert CopyFrom(s, p + 1, p + 2).None?;
  }

  lemma LetterToken(s: string, i: nat, save: nat)
    requires IsLetter(Decode(s, i).value) && !IsSymbol(At(s, i))
    ensures IsQName(TokenAt(s, i, save).text)
  {
    hide IsLetter, Decode, CopyToken, NameEnd, IsQName;
    CopiedName(s, i);
  }

  /** A letter begins a name token. */
  lemma NameHere(s: string, i: nat, save: nat)
    requires IsLetter(Decode(s, i).value)
    ensures IsQName(GetNextToken(s, i, save).text)
  {
    hide IsLetter, Decode, TokenAt, SkipMisc, IsQName;
    LetterLeads(s, i);
    MiscStays(s, i);
    LetterToken(s, i, save);
  }

  // ---- nodes ----

  ghost predicate GoodItem(item: Item) {
    match item
    case StartTag(name) => IsXmlName(name)
    case TextNode(value) => IsXmlText(value)
    case AttrNode(a) => IsXmlName(a.name) && a.name != "xmlns" && IsXmlText(a.value)
    case _ => true
  }

  lemma GoodStart(s: string, p: Parser)
    requires p.cur <= |s| && IsLetter(Decode(s, p.cur).value)
    ensures ProcessSTag(s, p).Fetched? ==> GoodItem(ProcessSTag(s, p).item)
  {
    hide GetNextToken, IsLetter, Decode, IsXmlName, IsQName;
    NameHere(s, p.cur, p.save);
    var name := GetNextToken(s, p.cur, p.save).text;
    if ':' !in name {
      NoColon(name);
    }
  }

  lemma GoodContent(s: string, p: Parser)
    requires p.cur <= |s|
    ensures ProcessContent(s, p).Fetched? ==> GoodItem(ProcessContent(s, p).item)
  {
    hide SkipSpaces, StartsWith, SkipComment, SkipPI, ContentEnd, CopyFrom, IsXmlText;
    var e := ContentEnd(s, p.cur);
    if CopyFrom(s, p.cur, e).Some? {
      CopiedText(s, p.cur, e);
    }
  }

  lemma AttributeFetched(s: string, p: Parser, name: string)
    requires p.cur <= |s| && ProcessAttribute(s, p, name).Fetched?
    ensures var item := ProcessAttribute(s, p, name).item;
            item.AttrNode? && item.attr.name == name && ':' !in name && name != "xmlns" && IsLetter(Decode(name, 0).value)
    ensures var item := ProcessAttribute(s, p, name).item;
            exists i, end :: CopyFrom(s, i, end) == Some(item.attr.value)
  {
    hide GetNextToken, IsLetter, Decode, Find, HasRawLess, CopyFrom;
  }

  lemma GoodAttribute(s: string, p: Parser, name: string)
    requires p.cur <= |s| && IsQName(name)
    ensures ProcessAttribute(s, p, name).Fetched? ==> GoodItem(ProcessAttribute(s, p, name).item)
  {
    hide ProcessAttribute, IsQName, IsXmlName, IsXmlText, CopyFrom;
    var f := ProcessAttribute(s, p, name);
    if f.Fetched? {
      AttributeFetched(s, p, name);
      NoColon(name);
      var i, end :| CopyFrom(s, i, end) == Some(f.item.attr.value);
      CopiedText(s, i, end);
    }
  }

  /** What the token that begins a node says of it. */
  lemma FirstToken(s: string, cur: nat, save: nat)
    requires GetNextToken(s, cur, save).text != ""
    ensures var t := GetNextToken(s, cur, save);
            && (t.text[0] == '<' && t.text != "</" ==> IsLetter(Decode(s, t.cur).value))
            && (t.text[0] != '<' ==> IsQName(t.text) || IsSymbol(t.text[0]))
  {
    hide TokenAt, SkipMisc, IsLetter, Decode, IsQName;
    var m := SkipMisc(s, cur);
    TokenForms(s, m.pos, save);
    if !IsSymbol(At(s, m.pos)) {
      QNameLeads(TokenAt(s, m.pos, save).text);
    }
  }

  /** A name token passes the letter test of Parser_processAttribute, a symbol does not. */
  lemma SymbolIsNoLetter(t: string)
    requires t != "" && IsSymbol(t[0])
    ensures !IsLetter(Decode(t, 0).value)
  {
  }

  /** Every node fetched is well formed. */
  lemma FetchGood(s: string, p: Parser)
    requires p.cur <= |s|
    ensures GetNextNode(s, p).Fetched? ==> GoodItem(GetNextNode(s, p).item)
  {
    hide ProcessContent, ProcessSTag, ProcessAttribute, GetNextToken, SkipSpaces, GoodItem, IsQName, Decode, IsLetter;
    NoneIsGood();
    if At(s, p.cur) != NUL {
      if p.mode == InContent {
        GoodContent(s, p);
      } else {
        var tok := GetNextToken(s, SkipSpaces(s, p.cur), p.save);
        var q := p.(cur := tok.cur, save := tok.save);
        if tok.text != "" {
          FirstToken(s, SkipSpaces(s, p.cur), p.save);
          if tok.text[0] == '<' && tok.text != "</" {
            GoodStart(s, q);
          } else if tok.text[0] != '<' {
            AttributeGood(s, q, tok.text);
          }
        }
      }
    }
  }

  lemma NoneIsGood()
    ensures GoodItem(NoNode) && forall name :: GoodItem(EndTag(name))
  {
  }

  lemma AttributeGood(s: string, p: Parser, name: string)
    requires p.cur <= |s| && name != "" && (IsQName(name) || IsSymbol(name[0]))
    ensures ProcessAttribute(s, p, name).Fetched? ==> GoodItem(ProcessAttribute(s, p, name).item)
  {
    hide IsQName, GoodItem, IsLetter, Decode, ProcessAttribute;
    if IsQName(name) {
      GoodAttribute(s, p, name);
    } else if ProcessAttribute(s, p, name).Fetched? {
      AttributeFetched(s, p, name);
      SymbolIsNoLetter(name);
    }
  }

  // ---- the tree ----

  ghost predicate GoodFrame(f: Frame) {
    IsXmlName(f.name) && WellFormedAttrs(f.attrs) && WellFormedAll(f.kids)
  }

  ghost predicate GoodTree(c: Cursor) {
    && ElementsOnly(c.roots) && WellFormedAll(c.roots)
    && forall k :: 0 <= k < |c.path| ==> GoodFrame(c.path[k])
  }

  lemma {:induction false} GoodAppend(ns: seq<Node>, n: Node)
    requires WellFormedAll(ns) && WellFormed(n)
    ensures WellFormedAll(ns + [n])
  {
    hide WellFormed;
    if ns == [] {
      assert (ns + [n])[1..] == [];
    } else {
      assert (ns + [n])[1..] == ns[1..] + [n];
      GoodAppend(ns[1..], n);
    }
  }

  lemma AppendGood(c: Cursor, n: Node)
    requires GoodTree(c) && WellFormed(n) && (c.path == [] ==> n.Element?)
    ensures GoodTree(c.Append(n))
  {
    hide WellFormedAll, WellFormed, IsXmlName, WellFormedAttrs;
    if c.path == [] {
      GoodAppend(c.roots, n);
    } else {
      GoodAppend(c.path[0].kids, n);
    }
  }

  lemma ApplyGood(p: Parser, item: Item)
    requires GoodTree(p.tree) && GoodItem(item) && Apply(p, item).Next?
    ensures GoodTree(Apply(p, item).parser.tree)
  {
    hide IsXmlName, IsXmlText;
    match item
    case NoNode =>
    case StartTag(name) =>
    case EndTag(name) =>
      var f := p.tree.path[0];
      assert GoodFrame(f);
      AppendGood(Cursor(p.tree.path[1..], p.tree.roots), Element(f.name, f.attrs, f.kids));
    case TextNode(value) => AppendGood(p.tree, Text(value));
    case AttrNode(a) => assert GoodFrame(p.tree.path[0]);
  }

  lemma {:induction false} RunGood(s: string, p: Parser)
    requires p.cur <= |s| && GoodTree(p.tree)
    ensures Run(s, p).Accepted? ==> ElementsOnly(Run(s, p).roots) && WellFormedAll(Run(s, p).roots)
    decreases |s| - p.cur, p.mode == InContent
  {
    hide GetNextNode, GoodItem, Apply, WellFormedAll, ElementsOnly;
    FetchGood(s, p);
    FetchKeepsTree(s, p);
    var f := GetNextNode(s, p);
    if f.Fetched? && Apply(f.parser, f.item).Next? {
      ApplyGood(f.parser, f.item);
      RunGood(s, Step(s, p).parser);
    }
    NeverAccepts(s, p);
  }

  lemma FetchKeepsTree(s: string, p: Parser)
    requires p.cur <= |s|
    ensures GetNextNode(s, p).Fetched? ==> GetNextNode(s, p).parser.tree == p.tree
  {
    hide GetNextToken, SkipSpaces, CopyToken, CopyFrom, HasRawLess, Find, SkipComment, SkipPI, StartsWith, IsLetter, Decode, ContentEnd;
  }

  /** Only the end of the buffer ends the loop with a document. */
  lemma NeverAccepts(s: string, p: Parser)
    requires p.cur <= |s|
    ensures Step(s, p).Accepted? ==> Step(s, p) == Accepted(p.tree.roots)
  {
    hide GetNextNode;
  }

  /** Whatever is accepted is a well-formed document. */
  lemma AcceptedIsWellFormed(s: string)
    requires Parse(s).Accepted?
    ensures ElementsOnly(Parse(s).roots) && WellFormedAll(Parse(s).roots)
  {
    hide Run, SkipMisc, SkipProlog, StartsWith;
    RunGood(s, Begin(s).parser);
  }

  lemma {:induction false} NormalizeIsCanonical(n: Node)
    ensures Canonical(Normalize(n))
    decreases n, 1
  {
    if n.Element? {
      NormalizeAllIsCanonical(n.kids);
    }
  }

  lemma {:induction false} NormalizeAllIsCanonical(ns: seq<Node>)
    ensures CanonicalAll(NormalizeAll(ns)) && |NormalizeAll(ns)| <= |ns|
    decreases ns, 0
  {
    if ns != [] && ns[0].Element? {
      NormalizeIsCanonical(ns[0]);
      NormalizeAllIsCanonical(ns[1..]);
      assert NormalizeAll(ns)[1..] == NormalizeAll(ns[1..]);
    }
  }

  /**
   Printing whatever was accepted and parsing that again gives its normal form, and from then on printing and
   parsing give the same document back.
   */
  lemma ReprintSettles(s: string)
    requires Parse(s).Accepted?
    ensures var once := NormalizeAll(Parse(s).roots);
            Parse(PrintDocument(Parse(s).roots)) == Accepted(once) && Parse(PrintDocument(once)) == Accepted(once)
  {
    hide Parse, PrintDocument, NormalizeAll, CanonicalAll, WellFormedAll;
    var roots := Parse(s).roots;
    AcceptedIsWellFormed(s);
    OneRootAccepted(s);
    ParsePrint(roots);
    AcceptedIsWellFormed(PrintDocument(roots));
    NormalizeAllIsCanonical(roots);
    RoundTrip(NormalizeAll(roots));
  }

  lemma OneRootAccepted(s: string)
    requires Parse(s).Accepted?
    ensures |Parse(s).roots| <= 1
  {
    hide Parse, Nested;
    AcceptanceIsSound(s);
  }

  // ---- an end tag after a document ----

  lemma EndTagFails(s: string, p: Parser, name: string)
    requires p.cur <= |s| && p.mode != InContent && p.stack == []
    requires IsXmlName(name) && StartsWith(s, p.cur, "</" + name + ">")
    ensures Run(s, p) == Rejected(NullElement)
  {
    hide StartsWith, IsXmlName, GetNextNode;
    EndTagNode(s, p, name);
  }

  lemma StrayAfterProlog(s: string, name: string)
    requires IsXmlName(name) && StartsWith(s, 0, DECLARATION) && StartsWith(s, 23, "</" + name + ">")
    ensures Parse(s) == Rejected(NullElement)
  {
    hide StartsWith, Run, Parse, IsXmlName;
    StartsWithAt(s, 23, "</" + name + ">", 0);
    StartsWithAt(s, 23, "</" + name + ">", 1);
    PrologRun(s);
    StartsInside(s, 0, DECLARATION);
    EndTagFails(s, Start(23), name);
  }

  lemma StrayAfterRoot(s: string, roots: seq<Node>, name: string)
    requires ElementsOnly(roots) && WellFormedAll(roots) && |roots| == 1 && IsXmlName(name)
    requires StartsWith(s, 0, PrintDocument(roots)) && StartsWith(s, |PrintDocument(roots)|, "</" + name + ">")
    ensures Parse(s) == Rejected(NullElement)
  {
    hide StartsWith, Run, Parse, PrintDocument, IsXmlName, Normalize, WellFormed, ElementsOnly, WellFormedAll;
    var tag := "</" + name + ">";
    var q := RootRun(s, roots);
    assert roots[1..] == [] && Break(false) + PrintAll([]) == Break(false);
    StartsWithJoin(s, q.cur, Break(false), tag);
    var r := SpacesRun(s, q, Break(false), tag);
    EndTagFails(s, r, name);
  }

  /** Whatever document is printed, one more end tag after it reaches the failing assertion. */
  lemma StrayEndTag(roots: seq<Node>, name: string)
    requires ElementsOnly(roots) && WellFormedAll(roots) && |roots| <= 1 && IsXmlName(name)
    ensures Parse(PrintDocument(roots) + "</" + name + ">") == Rejected(NullElement)
  {
    hide StartsWith, Parse, PrintDocument, IsXmlName, WellFormed, ElementsOnly, WellFormedAll;
    var d, tag := PrintDocument(roots), "</" + name + ">";
    assert d + "</" + name + ">" == d + tag;
    StartsWithSelf(d + tag);
    StartsWithSplit(d + tag, 0, d, tag);
    if roots == [] {
      EmptyDocument();
      StrayAfterProlog(d + tag, name);
    } else {
      StrayAfterRoot(d + tag, roots, name);
    }
  }

  lemma EmptyDocument()
    ensures PrintDocument([]) == DECLARATION && |DECLARATION| == 23
  {
  }

  lemma StartsWithJoin(s: string, i: nat, a: string, b: string)
    requires StartsWith(s, i, a) && StartsWith(s, i + |a|, b)
    ensures StartsWith(s, i, a + b)
  {
    forall k | 0 <= k < |a + b|
      ensures At(s, i + k) == (a + b)[k]
    {
      if k < |a| {
        StartsWithAt(s, i, a, k);
      } else {
        StartsWithAt(s, i + |a|, b, k - |a|);
      }
    }
  }
}
