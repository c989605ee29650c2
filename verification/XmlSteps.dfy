/**
 Single iterations of the parse loop on printed text.
 */
module XmlSteps {
  import opened CText
  import opened Utf8
  import opened XmlChars
  import opened XmlLexer
  import opened XmlTree
  import opened XmlPrinter
  import opened XmlParser
  import opened XmlLexing

  lemma RunStep(s: string, p: Parser, q: Parser)
    requires p.cur <= |s| && Step(s, p) == Next(q)
    ensures q.cur <= |s| && Run(s, p) == Run(s, q)
  {
    hide GetNextNode, Apply;
  }

  /** In content, white space before a tag is dropped. */
  lemma EnterTag(s: string, p: Parser, c: nat)
    requires p.cur <= c < |s| && p.mode == InContent
    requires forall k :: p.cur <= k < c ==> IsSpace(At(s, k))
    requires At(s, c) == '<' && At(s, c + 1) !in {'!', '?'}
    ensures Step(s, p) == Next(p.(save := p.cur, cur := c, mode := InElement))
  {
    SkipSpacesTo(s, p.cur, c);
    NotStarting(s, c, "<![CDATA[", 1);
    NotStarting(s, c, "<!--", 1);
    NotStarting(s, c, "<?", 1);
    hide SkipSpaces, StartsWith;
    if p.cur < c {
      assert IsSpace(At(s, p.cur));
    }
  }

  /** At `e`, white space and another attribute name. */
  ghost predicate AttrAhead(s: string, e: nat) {
    At(s, e) == ' ' &&
    exists name: string :: IsXmlName(name) && StartsWith(s, e + 1, name) && EndsName(At(s, e + 1 + |name|))
  }

  /** The token read ahead after a tag name or an attribute. */
  lemma LookAhead(s: string, e: nat)
    requires At(s, e) == '>' || AttrAhead(s, e)
    ensures EndsName(At(s, e))
    ensures var t := GetNextToken(s, e, e);
            && t.save == e && t.text != "" && t.text != "/>" && t.text != "<"
            && (t.text == ">" <==> At(s, e) == '>')
            && (t.text == ">" ==> t.cur == e + 1)
  {
    hide TokenAt, StartsWith, IsXmlName, GetNextToken, IsLetter, Decode, SkipSpaces;
    if At(s, e) == '>' {
      TokenAfterSpaces(s, e, e, e);
      SymbolToken(s, e, e);
    } else {
      var name: string :| IsXmlName(name) && StartsWith(s, e + 1, name) && EndsName(At(s, e + 1 + |name|));
      NameLeads(s, e + 1, name);
      TokenAfterSpaces(s, e, e, e + 1);
      NameToken(s, e + 1, e, name);
    }
  }

  /** Where the parser stands after a tag name or an attribute that ends at `e`. */
  function Ahead(s: string, p: Parser, e: nat): Parser {
    if At(s, e) == '>' then p.(cur := e + 1, save := e + 1, mode := InContent)
    else p.(cur := e, save := e, mode := InAttribute)
  }

  /** The tokens of a start tag. */
  lemma TagTokens(s: string, i: nat, save: nat, name: string)
    requires IsXmlName(name) && StartsWith(s, i, "<" + name) && EndsName(At(s, i + 1 + |name|))
    ensures SkipSpaces(s, i) == i && At(s, i) == '<'
    ensures GetNextToken(s, i, save) == Token("<", i + 1, save)
    ensures GetNextToken(s, i + 1, save) == Token(name, i + 1 + |name|, save) && ':' !in name && name != ""
  {
    hide StartsWith, IsXmlName, IsLetter, Decode, GetNextToken, TokenAt, SkipSpaces;
    StartsWithSplit(s, i, "<", name);
    StartsWithAt(s, i, "<", 0);
    NameLeads(s, i + 1, name);
    SkipSpacesTo(s, i, i);
    TokenAfterSpaces(s, i, save, i);
    SymbolToken(s, i, save);
    TokenAfterSpaces(s, i + 1, save, i + 1);
    NameToken(s, i + 1, save, name);
  }

  lemma OpenTag(s: string, p: Parser, name: string)
    requires p.cur <= |s| && p.mode != InContent && (p.stack != [] || !p.hasTop)
    requires IsXmlName(name) && StartsWith(s, p.cur, "<" + name)
    requires At(s, p.cur + 1 + |name|) == '>' || AttrAhead(s, p.cur + 1 + |name|)
    ensures Step(s, p) ==
            Next(Ahead(s,
                       p.(lastElem := Some(name), stack := [name] + p.stack, hasTop := true,
                          tree := p.tree.Descend(name)),
                       p.cur + 1 + |name|))
  {
    hide GetNextToken, SkipSpaces, StartsWith, IsXmlName, AttrAhead, IsLetter, ProcessETag, ProcessAttribute, ProcessContent;
    LookAhead(s, p.cur + 1 + |name|);
    TagTokens(s, p.cur, p.save, name);
  }

  /** The closing quote is found where the clean text ends. */
  lemma FindQuote(s: string, i: nat, w: string)
    requires StartsWith(s, i, w) && Clean(w) && At(s, i + |w|) == '"'
    ensures Find(s, i, "\"") == Some(i + |w|)
  {
    var r := Find(s, i, "\"");
    assert StartsWith(s, i + |w|, "\"");
    assert r.value <= i + |w|;
    if r.value < i + |w| {
      StartsWithAt(s, i, w, r.value - i);
      StartsWithAt(s, r.value, "\"", 0);
    }
  }

  lemma {:induction false} NoRawLess(s: string, i: nat, end: nat)
    requires forall k :: i <= k < end ==> At(s, k) != '<'
    ensures !HasRawLess(s, i, end)
    decreases end - i
  {
    if i < end {
      NoRawLess(s, if At(s, i) == '&' then i + 2 else i + 1, end);
    }
  }

  function QuotedAttr(a: Attr): string {
    a.name + "=\"" + Escape(a.value) + "\""
  }

  /** The tokens and the value of an attribute whose name starts at `i`. */
  lemma AttrTokens(s: string, i: nat, save: nat, a: Attr)
    requires IsXmlName(a.name) && IsXmlText(a.value) && StartsWith(s, i, QuotedAttr(a))
    ensures var v := i + |a.name| + 2;
            var end := v + |Escape(a.value)|;
            && TokenAt(s, i, save) == Token(a.name, i + |a.name|, save)
            && GetNextToken(s, i + |a.name|, save) == Token("=", i + |a.name| + 1, save)
            && GetNextToken(s, i + |a.name| + 1, save) == Token("\"", v, save)
            && Find(s, v, "\"") == Some(end) && !HasRawLess(s, v, end)
            && CopyFrom(s, v, end) == Some(a.value)
            && IsLetter(Decode(a.name, 0).value) && ':' !in a.name && a.name != ""
  {
    var j, w := i + |a.name|, Escape(a.value);
    hide StartsWith, IsXmlName, IsXmlText, IsLetter, Decode, GetNextToken, TokenAt, CopyFrom, Escape;
    assert QuotedAttr(a) == a.name + ("=\"" + (w + "\""));
    StartsWithSplit(s, i, a.name, "=\"" + (w + "\""));
    StartsWithSplit(s, j, "=\"", w + "\"");
    StartsWithSplit(s, j + 2, w, "\"");
    StartsWithAt(s, j, "=\"", 0);
    StartsWithAt(s, j, "=\"", 1);
    StartsWithAt(s, j + 2 + |w|, "\"", 0);
    NameToken(s, i, save, a.name);
    assert StartsWith(a.name, 0, a.name) by { StartsWithSelf(a.name); }
    NameLeads(a.name, 0, a.name);
    TokenAfterSpaces(s, j, save, j);
    SymbolToken(s, j, save);
    TokenAfterSpaces(s, j + 1, save, j + 1);
    SymbolToken(s, j + 1, save);
    EscapedClean(a.value);
    FindQuote(s, j + 2, w);
    forall k | j + 2 <= k < j + 2 + |w| ensures At(s, k) != '<' { StartsWithAt(s, j + 2, w, k - (j + 2)); }
    NoRawLess(s, j + 2, j + 2 + |w|);
    CopyEscaped(s, j + 2, a.value);
  }

  lemma StartsWithSelf(w: string)
    ensures StartsWith(w, 0, w)
  {
    assert w[0..|w|] == w;
  }

  lemma AddAttribute(s: string, p: Parser, a: Attr)
    requires p.cur <= |s| && p.mode == InAttribute && p.stack != [] && p.tree.path != []
    requires !HasAttr(p.tree.path[0].attrs, a.name)
    requires IsXmlName(a.name) && a.name != "xmlns" && IsXmlText(a.value)
    requires StartsWith(s, p.cur, " " + QuotedAttr(a))
    requires At(s, p.cur + 1 + |QuotedAttr(a)|) == '>' || AttrAhead(s, p.cur + 1 + |QuotedAttr(a)|)
    ensures Step(s, p) ==
            Next(var q := Ahead(s, p.(tree := p.tree.AddAttr(a)), p.cur + 1 + |QuotedAttr(a)|);
                 q.(save := p.cur + 1 + |QuotedAttr(a)|))
  {
    hide StartsWith, IsXmlName, IsXmlText, IsLetter, Decode, GetNextToken, TokenAt, CopyFrom, Escape, AttrAhead;
    hide SkipSpaces, HasRawLess, Find, HasAttr, ProcessSTag, ProcessETag;
    StartsWithSplit(s, p.cur, " ", QuotedAttr(a));
    StartsWithAt(s, p.cur, " ", 0);
    StartsWithSplit(s, p.cur + 1, a.name, "=\"" + Escape(a.value) + "\"");
    assert a.name + ("=\"" + Escape(a.value) + "\"") == QuotedAttr(a);
    NameLeads(s, p.cur + 1, a.name);
    SkipSpacesTo(s, p.cur, p.cur + 1);
    TokenAfterSpaces(s, p.cur + 1, p.save, p.cur + 1);
    AttrTokens(s, p.cur + 1, p.save, a);
    LookAhead(s, p.cur + 1 + |QuotedAttr(a)|);
  }

  /** An end tag is fetched whole. */
  lemma EndTagNode(s: string, p: Parser, name: string)
    requires p.cur <= |s| && p.mode != InContent && IsXmlName(name) && StartsWith(s, p.cur, "</" + name + ">")
    ensures GetNextNode(s, p) == Fetched(EndTag(name), p.(cur := p.cur + |name| + 3))
  {
    hide StartsWith, IsXmlName, IsLetter, Decode, GetNextToken, TokenAt, SkipSpaces, ProcessSTag, ProcessAttribute;
    var i := p.cur;
    StartsWithSplit(s, i, "</" + name, ">");
    StartsWithSplit(s, i, "</", name);
    StartsWithAt(s, i, "</", 0);
    StartsWithAt(s, i, "</", 1);
    StartsWithAt(s, i + 2 + |name|, ">", 0);
    SkipSpacesTo(s, i, i);
    TokenAfterSpaces(s, i, p.save, i);
    EndTagToken(s, i, p.save);
    NameLeads(s, i + 2, name);
    TokenAfterSpaces(s, i + 2, p.save, i + 2);
    NameToken(s, i + 2, p.save, name);
    SkipSpacesTo(s, i + 2 + |name|, i + 2 + |name|);
    TokenAfterSpaces(s, i + 2 + |name|, p.save, i + 2 + |name|);
    SymbolToken(s, i + 2 + |name|, p.save);
  }

  lemma CloseTag(s: string, p: Parser, name: string)
    requires p.cur <= |s| && p.mode != InContent && p.stack != [] && p.stack[0] == name
    requires p.tree.path != [] && p.tree.path[0].name == name
    requires IsXmlName(name) && StartsWith(s, p.cur, "</" + name + ">")
    ensures Step(s, p) ==
            Next(p.(cur := p.cur + |name| + 3, mode := InContent, stack := p.stack[1..], tree := p.tree.Ascend()))
  {
    hide StartsWith, IsXmlName, GetNextNode;
    EndTagNode(s, p, name);
  }

  /** Clean text before a tag is one stretch of content. */
  lemma {:induction false} ContentEndAt(s: string, i: nat, w: string)
    requires StartsWith(s, i, w + "<") && Clean(w)
    ensures ContentEnd(s, i) == i + |w|
    decreases |w|
  {
    StartsWithAt(s, i, w + "<", 0);
    if w != "" {
      assert w + "<" == [w[0]] + (w[1..] + "<");
      StartsWithSplit(s, i, [w[0]], w[1..] + "<");
      var k := if |w| == 1 then 1 else 2;
      StartsWithAt(s, i, w + "<", k);
      NotStarting(s, i, "]]>", k);
      ContentEndAt(s, i + 1, w[1..]);
    }
  }

  lemma {:induction false} EscapeKeepsInk(v: string)
    requires !AllSpace(v)
    ensures !AllSpace(Escape(v))
  {
    if !IsSpace(v[0]) {
      assert Escape(v)[0] == EscapeChar(v[0])[0];
    } else {
      EscapeKeepsInk(v[1..]);
      var k :| 0 <= k < |Escape(v[1..])| && !IsSpace(Escape(v[1..])[k]);
      assert Escape(v)[|EscapeChar(v[0])| + k] == Escape(v[1..])[k];
    }
  }

  /** The first byte of text that is not white space neither ends the buffer nor opens a tag. */
  lemma FirstInk(s: string, i: nat, w: string)
    requires StartsWith(s, i, w) && Clean(w) && !AllSpace(w)
    ensures At(s, SkipSpaces(s, i)) != NUL && At(s, SkipSpaces(s, i)) != '<' && At(s, i) != NUL
  {
    var k :| 0 <= k < |w| && !IsSpace(w[k]);
    var c := SkipSpaces(s, i);
    StartsWithAt(s, i, w, k);
    assert c <= i + k;
    StartsWithAt(s, i, w, c - i);
    StartsWithAt(s, i, w, 0);
  }

  lemma AddText(s: string, p: Parser, v: string)
    requires p.cur <= |s| && p.mode == InContent && p.tree.path != []
    requires IsXmlText(v) && !AllSpace(v) && StartsWith(s, p.cur, Escape(v) + "<")
    ensures Step(s, p) ==
            Next(p.(save := p.cur, cur := p.cur + |Escape(v)|, tree := p.tree.Append(Text(v))))
  {
    hide IsXmlText, CopyFrom, Escape, ContentEnd, StartsWith, SkipSpaces, Clean, AllSpace;
    var w := Escape(v);
    EscapeKeepsInk(v);
    EscapedClean(v);
    ContentEndAt(s, p.cur, w);
    StartsWithSplit(s, p.cur, w, "<");
    StartsWithAt(s, p.cur + |w|, "<", 0);
    NotStarting(s, p.cur + |w|, "]]>", 0);
    CopyEscaped(s, p.cur, v);
    FirstInk(s, p.cur, w);
    assert w != "" by { InkIsText(w); }
  }

  lemma InkIsText(w: string)
    requires !AllSpace(w)
    ensures w != ""
  {
  }
}
