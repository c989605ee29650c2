/**
 The parser reads every document, however it is written, as the tree it means.
 */
module XmlMarkup {
  import opened CText
  import opened Utf8
  import opened XmlChars
  import opened XmlLexer
  import opened XmlTree
  import opened XmlPrinter
  import opened XmlParser
  import opened XmlLexing
  import opened XmlSteps
  import opened XmlRoundTrip
  import opened XmlSurface

  // ---- what is written, and what it means ----

  datatype Written = Written(lead: string, name: string, before: string, after: string, quote: char, value: seq<Ch>)

  ghost predicate AttrOk(a: Written) {
    && a.lead != "" && AllSpace(a.lead) && IsXmlName(a.name) && a.name != "xmlns" && AllSpace(a.before) && AllSpace(a.after)
    && (a.quote == '"' || a.quote == '\'') && CharsOk(a.value) && '<' !in CharsText(a.value) && a.quote !in CharsText(a.value)
  }

  function AttrText(a: Written): string
    requires AttrOk(a)
  {
    a.lead + (a.name + (a.before + ("=" + (a.after + ([a.quote] + (CharsText(a.value) + [a.quote]))))))
  }

  function AttrMeaning(a: Written): Attr {
    Attr(a.name, Value(a.value))
  }

  ghost predicate AttrsOk(attrs: seq<Written>) {
    forall k :: 0 <= k < |attrs| ==> AttrOk(attrs[k])
  }

  function AttrsText(attrs: seq<Written>): string
    requires AttrsOk(attrs)
  {
    if attrs == [] then "" else AttrText(attrs[0]) + AttrsText(attrs[1..])
  }

  function AttrsMeaning(attrs: seq<Written>): (r: seq<Attr>)
    ensures |r| == |attrs| && forall k :: 0 <= k < |attrs| ==> r[k] == AttrMeaning(attrs[k])
  {
    seq(|attrs|, k requires 0 <= k < |attrs| => AttrMeaning(attrs[k]))
  }

  datatype Mark =
    | Full(name: string, attrs: seq<Written>, gap: string, kids: seq<Mark>, last: string)
    | Empty(name: string, attrs: seq<Written>, gap: string)
    | Chars(text: seq<Ch>)
    | Comment(body: string)
    | Instr(body: string)

  ghost predicate TagOk(name: string, attrs: seq<Written>, gap: string) {
    IsXmlName(name) && AttrsOk(attrs) && DistinctNames(AttrsMeaning(attrs)) && AllSpace(gap)
  }

  /** Text that opens no tag and ends no CDATA section. */
  predicate TextOk(cs: seq<Ch>) {
    CharsOk(cs) && '<' !in CharsText(cs) && forall k: nat :: k < |CharsText(cs)| ==> !StartsWith(CharsText(cs), k, "]]>")
  }

  ghost predicate MarkOk(m: Mark)
    decreases m, 1
  {
    match m
    case Full(name, attrs, gap, kids, last) => TagOk(name, attrs, gap) && MarksOk(kids) && AllSpace(last)
    case Empty(name, attrs, gap) => TagOk(name, attrs, gap)
    case Chars(text) => text != [] && TextOk(text)
    case Comment(body) => LegalComment(body) && !Misread(body)
    case Instr(body) => NoEnd(body) && !BadTarget(body)
  }

  /** No two texts in a row, which would be one. */
  ghost predicate MarksOk(ms: seq<Mark>)
    decreases ms, 0
  {
    ms == [] || (MarkOk(ms[0]) && MarksOk(ms[1..]) && (ms[0].Chars? && |ms| > 1 ==> !ms[1].Chars?))
  }

  function MarkText(m: Mark): string
    requires MarkOk(m)
    decreases m, 1
  {
    match m
    case Full(name, attrs, gap, kids, last) =>
      "<" + name + AttrsText(attrs) + gap + ">" + (MarksText(kids) + ("</" + name + last + ">"))
    case Empty(name, attrs, gap) => "<" + name + AttrsText(attrs) + gap + "/>"
    case Chars(text) => CharsText(text)
    case Comment(body) => CommentText(body)
    case Instr(body) => InstrText(body)
  }

  function MarksText(ms: seq<Mark>): string
    requires MarksOk(ms)
    decreases ms, 0
  {
    if ms == [] then "" else MarkText(ms[0]) + MarksText(ms[1..])
  }

  /** The nodes: comments, instructions and blank texts leave none. */
  function Meaning(m: Mark): seq<Node>
    requires MarkOk(m)
    decreases m, 1
  {
    match m
    case Full(name, attrs, gap, kids, last) => [Element(name, AttrsMeaning(attrs), Meanings(kids))]
    case Empty(name, attrs, gap) => [Element(name, AttrsMeaning(attrs), [])]
    case Chars(text) => if AllSpace(CharsText(text)) then [] else [Text(Value(text))]
    case _ => []
  }

  function Meanings(ms: seq<Mark>): seq<Node>
    requires MarksOk(ms)
    decreases ms, 0
  {
    if ms == [] then [] else Meaning(ms[0]) + Meanings(ms[1..])
  }

  // ---- tags ----

  /** The pieces of an attribute. */
  lemma AttrPieces(s: string, i: nat, a: Written)
    requires AttrOk(a) && StartsWith(s, i, AttrText(a))
    ensures var n := i + |a.lead|;
            var e := n + |a.name| + |a.before|;
            var v := e + 1 + |a.after| + 1;
            && StartsWith(s, i, a.lead) && StartsWith(s, n, a.name) && StartsWith(s, n + |a.name|, a.before)
            && At(s, e) == '=' && StartsWith(s, e + 1, a.after) && At(s, v - 1) == a.quote
            && StartsWith(s, v, CharsText(a.value)) && At(s, v + |CharsText(a.value)|) == a.quote
            && i + |AttrText(a)| == v + |CharsText(a.value)| + 1
  {
    hide StartsWith, IsXmlName, CharsText, CharsOk, AllSpace;
    var w := CharsText(a.value);
    var r5 := w + [a.quote];
    var r4 := [a.quote] + r5;
    var r3 := "=" + (a.after + r4);
    StartsWithSplit(s, i, a.lead, a.name + (a.before + r3));
    var n := i + |a.lead|;
    StartsWithSplit(s, n, a.name, a.before + r3);
    StartsWithSplit(s, n + |a.name|, a.before, r3);
    var e := n + |a.name| + |a.before|;
    StartsWithSplit(s, e, "=", a.after + r4);
    StartsWithAt(s, e, "=", 0);
    StartsWithSplit(s, e + 1, a.after, r4);
    var v := e + 1 + |a.after|;
    StartsWithSplit(s, v, [a.quote], r5);
    StartsWithAt(s, v, [a.quote], 0);
    StartsWithSplit(s, v + 1, w, [a.quote]);
    StartsWithAt(s, v + 1 + |w|, [a.quote], 0);
  }

  lemma SpacesAt(s: string, i: nat, w: string)
    requires StartsWith(s, i, w) && AllSpace(w)
    ensures forall k :: i <= k < i + |w| ==> IsSpace(At(s, k))
  {
    forall k | i <= k < i + |w| ensures IsSpace(At(s, k)) { StartsWithAt(s, i, w, k - i); }
  }

  /** The token after white space. */
  lemma TokenPast(s: string, i: nat, w: string, save: nat)
    requires StartsWith(s, i, w) && AllSpace(w)
    requires var c := At(s, i + |w|); !IsSpace(c) && c != NUL && c != '<'
    ensures GetNextToken(s, i, save) == TokenAt(s, i + |w|, save)
  {
    hide StartsWith, AllSpace, GetNextToken, TokenAt;
    SpacesAt(s, i, w);
    TokenAfterSpaces(s, i, save, i + |w|);
  }

  lemma FirstOf(s: string, i: nat, w: string)
    requires StartsWith(s, i, w) && w != ""
    ensures At(s, i) == w[0] && i < |s|
  {
  }

  /** After a name comes white space or a delimiter. */
  lemma NameEnds(s: string, i: nat, w: string)
    requires StartsWith(s, i, w) && AllSpace(w) && (At(s, i + |w|) == '=' || At(s, i + |w|) == '>' || At(s, i + |w|) == '/')
    ensures EndsName(At(s, i))
  {
    hide StartsWith;
    if w != "" {
      FirstOf(s, i, w);
    }
  }

  /** The attributes still to come, and the end of the tag. */
  function TagRest(attrs: seq<Written>, gap: string, close: string): string
    requires AttrsOk(attrs)
  {
    AttrsText(attrs) + (gap + close)
  }

  ghost predicate RestOk(attrs: seq<Written>, gap: string, close: string) {
    AttrsOk(attrs) && AllSpace(gap) && (close == ">" || close == "/>")
  }

  /** The token that is read ahead at the end of a tag. */
  lemma LookAtEnd(s: string, e: nat, gap: string, close: string)
    requires AllSpace(gap) && (close == ">" || close == "/>") && StartsWith(s, e, gap + close)
    ensures EndsName(At(s, e)) && e + |gap| + |close| <= |s|
    ensures close == ">" ==> GetNextToken(s, e, e) == Token(">", e + |gap| + 1, e)
    ensures close == "/>" ==>
              GetNextToken(s, e, e) == Token("/>", e + |gap| + 2, e + |gap|) && StartsWith(s, e + |gap|, "/>")
  {
    hide StartsWith, AllSpace, GetNextToken, TokenAt;
    StartsWithSplit(s, e, gap, close);
    StartsWithAt(s, e + |gap|, close, 0);
    InsideText(s, e + |gap|, close);
    NameEnds(s, e, gap);
    TokenPast(s, e, gap, e);
    if close == ">" {
      SymbolToken(s, e + |gap|, e);
    } else {
      SlashToken(s, e + |gap|, e);
    }
  }

  /** The token that is read ahead before another attribute. */
  lemma LookAtAttr(s: string, e: nat, a: Written)
    requires AttrOk(a) && StartsWith(s, e, AttrText(a))
    ensures EndsName(At(s, e)) && IsSpace(At(s, e))
    ensures GetNextToken(s, e, e) == Token(a.name, e + |a.lead| + |a.name|, e)
    ensures a.name !in {"", ">", "/>", "<", "</"} && a.name[0] !in {'<', '>', '/'}
  {
    hide StartsWith, GetNextToken, TokenAt, IsXmlName, CharsOk, CharsText, IsLetter, Decode;
    AttrPieces(s, e, a);
    FirstOf(s, e, a.lead);
    NameLeads(s, e + |a.lead|, a.name);
    hide AllSpace;
    TokenPast(s, e, a.lead, e);
    NameEnds(s, e + |a.lead| + |a.name|, a.before);
    NameToken(s, e + |a.lead|, e, a.name);
  }

  /** What is read ahead at `e`. */
  lemma LookRest(s: string, e: nat, attrs: seq<Written>, gap: string, close: string)
    requires RestOk(attrs, gap, close) && StartsWith(s, e, TagRest(attrs, gap, close))
    ensures EndsName(At(s, e))
    ensures var t := GetNextToken(s, e, e);
            && (attrs != [] ==> t.save == e && t.text !in {"", ">", "/>", "<"})
            && (attrs == [] && close == ">" ==> t == Token(">", e + |gap| + 1, e))
            && (attrs == [] && close == "/>" ==> t == Token("/>", e + |gap| + 2, e + |gap|))
  {
    hide StartsWith, GetNextToken, AttrOk;
    if attrs == [] {
      assert AttrsText(attrs) + (gap + close) == gap + close;
      LookAtEnd(s, e, gap, close);
    } else {
      assert AttrsText(attrs) + (gap + close) == AttrText(attrs[0]) + (AttrsText(attrs[1..]) + (gap + close));
      StartsWithSplit(s, e, AttrText(attrs[0]), AttrsText(attrs[1..]) + (gap + close));
      LookAtAttr(s, e, attrs[0]);
    }
  }

  /** Where the parser stands after a tag name or an attribute that ends at `e`: at the slash of an empty-element tag. */
  ghost predicate Stands(q: Parser, e: nat, attrs: seq<Written>, gap: string, close: string) {
    if attrs != [] then q.mode == InAttribute && q.cur == e
    else if close == ">" then q.mode == InContent && q.cur == e + |gap| + 1
    else q.mode != InContent && q.cur == e + |gap|
  }

  /** A start tag: the element is appended, made current and pushed. */
  lemma OpenWritten(s: string, p: Parser, name: string, attrs: seq<Written>, gap: string, close: string) returns (q: Parser)
    requires p.cur <= |s| && p.mode != InContent && (p.stack != [] || !p.hasTop)
    requires IsXmlName(name) && RestOk(attrs, gap, close)
    requires StartsWith(s, p.cur, "<" + name) && StartsWith(s, p.cur + 1 + |name|, TagRest(attrs, gap, close))
    ensures Step(s, p) == Next(q) && Stands(q, p.cur + 1 + |name|, attrs, gap, close)
    ensures q.lastElem == Some(name) && q.stack == [name] + p.stack && q.hasTop && q.tree == p.tree.Descend(name)
  {
    hide GetNextToken, SkipSpaces, StartsWith, IsXmlName, ProcessETag, ProcessAttribute, ProcessContent, AttrsOk, TagRest;
    LookRest(s, p.cur + 1 + |name|, attrs, gap, close);
    TagTokens(s, p.cur, p.save, name);
    q := Step(s, p).parser;
  }

  lemma Opening(w: string)
    requires NoNul(w) && '<' !in w
    ensures OpensNothing(w)
  {
  }

  lemma FindEnd(s: string, i: nat, w: string, q: char)
    requires StartsWith(s, i, w) && q !in w && At(s, i + |w|) == q && q != NUL
    ensures Find(s, i, [q]) == Some(i + |w|)
  {
    forall k: nat | i <= k < i + |w|
      ensures !StartsWith(s, k, [q])
    {
      StartsWithAt(s, i, w, k - i);
      NotStarting(s, k, [q], 0);
    }
    assert StartsWith(s, i + |w|, [q]);
  }

  /** The tokens and the value of a written attribute. */
  lemma WrittenTokens(s: string, i: nat, save: nat, a: Written)
    requires AttrOk(a) && StartsWith(s, i, AttrText(a))
    ensures var n := i + |a.lead|;
            var e := n + |a.name| + |a.before|;
            var v := e + 1 + |a.after| + 1;
            var end := v + |CharsText(a.value)|;
            && SkipSpaces(s, i) == n && GetNextToken(s, n, save) == Token(a.name, n + |a.name|, save)
            && GetNextToken(s, n + |a.name|, save) == Token("=", e + 1, save)
            && GetNextToken(s, e + 1, save) == Token([a.quote], v, save)
            && Find(s, v, [a.quote]) == Some(end) && !HasRawLess(s, v, end)
            && CopyFrom(s, v, end) == Some(Value(a.value))
            && end + 1 == i + |AttrText(a)|
  {
    hide StartsWith, GetNextToken, TokenAt, IsXmlName, CharsOk, CharsText, IsLetter, Decode, AttrText, HasRawLess, CopyFrom, Find, Value,
         SkipSpaces;
    AttrPieces(s, i, a);
    var n := i + |a.lead|;
    var e := n + |a.name| + |a.before|;
    var v := e + 1 + |a.after| + 1;
    var w := CharsText(a.value);
    NameLeads(s, n, a.name);
    SpacesAt(s, i, a.lead);
    SkipSpacesTo(s, i, n);
    TokenAfterSpaces(s, n, save, n);
    hide AllSpace;
    NameEnds(s, n + |a.name|, a.before);
    NameToken(s, n, save, a.name);
    TokenPast(s, n + |a.name|, a.before, save);
    SymbolToken(s, e, save);
    TokenPast(s, e + 1, a.after, save);
    SymbolToken(s, v - 1, save);
    CharsNoNul(a.value);
    Opening(w);
    FindEnd(s, v, w, a.quote);
    forall k | v <= k < v + |w| ensures At(s, k) != '<' { StartsWithAt(s, v, w, k - v); }
    NoRawLess(s, v, v + |w|);
    CopyWritten(s, v, a.value);
  }

  lemma NameFacts(a: Written)
    requires AttrOk(a)
    ensures IsLetter(Decode(a.name, 0).value) && ':' !in a.name && a.name != "" && a.name[0] !in {'<', '>', '/'}
  {
    hide IsXmlName, IsLetter, Decode, CharsText, CharsOk, StartsWith, TokenAt;
    StartsWithSelf(a.name);
    NameLeads(a.name, 0, a.name);
    NameHasNoColon(a.name);
  }

  lemma NameHasNoColon(name: string)
    requires IsXmlName(name)
    ensures ':' !in name
  {
    hide IsNameChar, IsLetter, Encode;
    var cs :| name == EncodeAll(cs) && NameCodes(cs);
    NameIsXml(cs);
  }

  /** One attribute is added to the current element. */
  lemma AddWritten(s: string, p: Parser, attrs: seq<Written>, gap: string, close: string) returns (q: Parser)
    requires p.cur <= |s| && p.mode == InAttribute && p.stack != [] && p.tree.path != []
    requires attrs != [] && RestOk(attrs, gap, close) && !HasAttr(p.tree.path[0].attrs, attrs[0].name)
    requires StartsWith(s, p.cur, TagRest(attrs, gap, close))
    ensures Step(s, p) == Next(q) && StartsWith(s, p.cur + |AttrText(attrs[0])|, TagRest(attrs[1..], gap, close))
    ensures Stands(q, p.cur + |AttrText(attrs[0])|, attrs[1..], gap, close)
    ensures q.lastElem == p.lastElem && q.stack == p.stack && q.hasTop == p.hasTop
    ensures q.tree == p.tree.AddAttr(AttrMeaning(attrs[0]))
  {
    hide StartsWith, GetNextToken, SkipSpaces, AttrText, HasRawLess, CopyFrom, Find, Value, HasAttr, IsLetter, Decode, AttrOk;
    hide ProcessSTag, ProcessETag, CharsText;
    hide GetNextNode;
    var a, rest := attrs[0], attrs[1..];
    assert TagRest(attrs, gap, close) == AttrText(a) + TagRest(rest, gap, close);
    StartsWithSplit(s, p.cur, AttrText(a), TagRest(rest, gap, close));
    hide TagRest, AttrsText;
    LookRest(s, p.cur + |AttrText(a)|, rest, gap, close);
    FetchWritten(s, p, a);
    NameOfMeaning(a);
    q := Step(s, p).parser;
  }

  /** The attribute is fetched with its value, up to the look-ahead. */
  lemma FetchWritten(s: string, p: Parser, a: Written)
    requires p.cur <= |s| && p.mode == InAttribute && p.stack != [] && AttrOk(a) && StartsWith(s, p.cur, AttrText(a))
    ensures p.cur + |AttrText(a)| <= |s|
    ensures GetNextNode(s, p) == AfterAttribute(s, p.(cur := p.cur + |AttrText(a)|), AttrMeaning(a))
  {
    hide StartsWith, GetNextToken, SkipSpaces, AttrText, HasRawLess, CopyFrom, Find, Value, IsLetter, Decode, AttrOk;
    hide ProcessSTag, ProcessETag, CharsText, AfterAttribute, AttrMeaning;
    TextInside(s, p.cur, AttrText(a));
    WrittenTokens(s, p.cur, p.save, a);
    NotAtEnd(s, p.cur, a);
    NameFacts(a);
    NotNamespace(a);
    assert AttrMeaning(a) == Attr(a.name, Value(a.value)) by { MeaningOf(a); }
  }

  lemma MeaningOf(a: Written)
    ensures AttrMeaning(a) == Attr(a.name, Value(a.value))
  {
  }

  lemma NotNamespace(a: Written)
    requires AttrOk(a)
    ensures a.name != "xmlns" && (a.quote == '"' || a.quote == '\'') && CharsOk(a.value)
  {
  }

  lemma NotAtEnd(s: string, i: nat, a: Written)
    requires AttrOk(a) && StartsWith(s, i, AttrText(a))
    ensures At(s, i) != NUL
  {
    hide StartsWith, IsXmlName, CharsText, CharsOk;
    AttrPieces(s, i, a);
    FirstOf(s, i, a.lead);
  }

  lemma MeaningsOfAttrs(attrs: seq<Written>)
    requires attrs != []
    ensures AttrsMeaning(attrs) == [AttrMeaning(attrs[0])] + AttrsMeaning(attrs[1..])
  {
  }

  /** All attributes of a tag, in order. */
  lemma {:induction false} AttrsWritten(s: string, p: Parser, e: nat, attrs: seq<Written>, gap: string, close: string)
    returns (q: Parser)
    requires p.cur <= |s| && Stands(p, e, attrs, gap, close) && p.stack != [] && p.tree.path != []
    requires RestOk(attrs, gap, close) && StartsWith(s, e, TagRest(attrs, gap, close))
    requires DistinctNames(p.tree.path[0].attrs + AttrsMeaning(attrs))
    ensures Reaches(s, p, q) && Stands(q, e + |AttrsText(attrs)|, [], gap, close) && q.lastElem == p.lastElem
    ensures q.tree == WithAttrs(p.tree, AttrsMeaning(attrs))
    ensures StartsWith(s, e + |AttrsText(attrs)|, gap + close)
    decreases attrs
  {
    hide StartsWith, Step, Run, AttrOk, AttrText, AttrMeaning, HasAttr;
    if attrs == [] {
      q := p;
      assert TagRest(attrs, gap, close) == gap + close;
      assert p.tree.path[0].attrs + [] == p.tree.path[0].attrs && p.tree.path == [p.tree.path[0]] + p.tree.path[1..];
    } else {
      var a, rest, had := attrs[0], attrs[1..], p.tree.path[0].attrs;
      MeaningsOfAttrs(attrs);
      NewName(had, AttrMeaning(a), AttrsMeaning(rest));
      NameOfMeaning(a);
      var m := AddWritten(s, p, attrs, gap, close);
      AfterStep(s, p, m);
      assert had + [AttrMeaning(a)] + AttrsMeaning(rest) == had + AttrsMeaning(attrs);
      q := AttrsWritten(s, m, e + |AttrText(a)|, rest, gap, close);
    }
  }

  lemma NameOfMeaning(a: Written)
    ensures AttrMeaning(a).name == a.name
  {
  }

  lemma NewName(before: seq<Attr>, a: Attr, rest: seq<Attr>)
    requires DistinctNames(before + ([a] + rest))
    ensures !HasAttr(before, a.name)
  {
    var all := before + ([a] + rest);
    assert all[|before|] == a;
    forall k | 0 <= k < |before| ensures before[k].name != a.name {
      assert all[k] == before[k];
    }
  }

  /** A whole start tag or empty-element tag, up to where `Stands` says. */
  lemma TagWritten(s: string, p: Parser, name: string, attrs: seq<Written>, gap: string, close: string) returns (q: Parser)
    requires p.cur <= |s| && p.mode != InContent && (p.stack != [] || !p.hasTop) && TagOk(name, attrs, gap)
    requires (close == ">" || close == "/>") && StartsWith(s, p.cur, "<" + name + AttrsText(attrs) + gap + close)
    ensures Stands(q, p.cur + 1 + |name| + |AttrsText(attrs)|, [], gap, close) && q.cur <= |s| && Run(s, p) == Run(s, q)
    ensures q.stack == [name] + p.stack && q.hasTop && q.lastElem == Some(name)
    ensures q.tree == Cursor([Frame(name, AttrsMeaning(attrs), [])] + p.tree.path, p.tree.roots)
    ensures StartsWith(s, p.cur + 1 + |name| + |AttrsText(attrs)|, gap + close)
  {
    hide StartsWith, Step, Run, IsXmlName, AttrsText, AttrsOk;
    var e := p.cur + 1 + |name|;
    assert "<" + name + AttrsText(attrs) + gap + close == ("<" + name) + TagRest(attrs, gap, close);
    StartsWithSplit(s, p.cur, "<" + name, TagRest(attrs, gap, close));
    var m := OpenWritten(s, p, name, attrs, gap, close);
    RunStep(s, p, m);
    assert [] + AttrsMeaning(attrs) == AttrsMeaning(attrs);
    q := AttrsWritten(s, m, e, attrs, gap, close);
  }

  /** The end of an empty-element tag closes the element just opened. */
  lemma SlashStep(s: string, p: Parser, name: string) returns (q: Parser)
    requires p.cur <= |s| && p.mode != InContent && StartsWith(s, p.cur, "/>") && p.lastElem == Some(name)
    requires p.stack != [] && p.stack[0] == name && p.tree.path != [] && p.tree.path[0].name == name
    ensures Step(s, p) == Next(q) && q.cur == p.cur + 2 && q.mode == InContent && q.hasTop == p.hasTop
    ensures q.stack == p.stack[1..] && q.tree == p.tree.Ascend()
  {
    hide StartsWith, GetNextToken, TokenAt, SkipSpaces, ProcessSTag, ProcessETag, ProcessAttribute, ProcessContent;
    StartsWithAt(s, p.cur, "/>", 0);
    SkipSpacesTo(s, p.cur, p.cur);
    TokenAfterSpaces(s, p.cur, p.save, p.cur);
    SlashToken(s, p.cur, p.save);
    q := Step(s, p).parser;
  }

  /**
   An empty-element tag: from any state of the loop that may open an element, the element with its attributes and no
   children is appended to the current node, and the stack is as it was.
   */
  lemma EmptyWritten(s: string, p: Parser, name: string, attrs: seq<Written>, gap: string) returns (q: Parser)
    requires p.cur <= |s| && p.mode != InContent && (p.stack != [] || !p.hasTop) && TagOk(name, attrs, gap)
    requires StartsWith(s, p.cur, "<" + name + AttrsText(attrs) + gap + "/>")
    ensures q.cur == p.cur + |"<" + name + AttrsText(attrs) + gap + "/>"| <= |s| && Run(s, p) == Run(s, q)
    ensures q.stack == p.stack && q.hasTop && q.mode == InContent
    ensures q.tree == p.tree.Append(Element(name, AttrsMeaning(attrs), []))
  {
    hide StartsWith, Step, Run, IsXmlName, AttrsOk, DistinctNames, AttrsText;
    var m := TagWritten(s, p, name, attrs, gap, "/>");
    StartsWithSplit(s, p.cur + 1 + |name| + |AttrsText(attrs)|, gap, "/>");
    q := SlashStep(s, m, name);
    RunStep(s, m, q);
    assert m.tree.path[1..] == p.tree.path && m.stack[1..] == p.stack;
  }

  /** An end tag, with white space before its end. */
  lemma EndWritten(s: string, p: Parser, name: string, last: string)
    requires p.cur <= |s| && p.mode != InContent && IsXmlName(name) && AllSpace(last)
    requires StartsWith(s, p.cur, "</" + name + last + ">")
    ensures GetNextNode(s, p) == Fetched(EndTag(name), p.(cur := p.cur + |name| + |last| + 3))
  {
    hide StartsWith, IsXmlName, IsLetter, Decode, GetNextToken, TokenAt, SkipSpaces, ProcessSTag, ProcessAttribute;
    var i := p.cur;
    var n := i + 2 + |name|;
    StartsWithSplit(s, i, "</" + name + last, ">");
    StartsWithSplit(s, i, "</" + name, last);
    StartsWithSplit(s, i, "</", name);
    StartsWithAt(s, i, "</", 0);
    StartsWithAt(s, i, "</", 1);
    StartsWithAt(s, n + |last|, ">", 0);
    SkipSpacesTo(s, i, i);
    TokenAfterSpaces(s, i, p.save, i);
    EndTagToken(s, i, p.save);
    NameLeads(s, i + 2, name);
    TokenAfterSpaces(s, i + 2, p.save, i + 2);
    NameEnds(s, n, last);
    NameToken(s, i + 2, p.save, name);
    SpacesAt(s, n, last);
    SkipSpacesTo(s, n, n + |last|);
    TokenAfterSpaces(s, n + |last|, p.save, n + |last|);
    SymbolToken(s, n + |last|, p.save);
  }

  lemma CloseWritten(s: string, p: Parser, name: string, last: string) returns (q: Parser)
    requires p.cur <= |s| && p.mode != InContent && p.stack != [] && p.stack[0] == name
    requires p.tree.path != [] && p.tree.path[0].name == name && IsXmlName(name) && AllSpace(last)
    requires StartsWith(s, p.cur, "</" + name + last + ">")
    ensures Step(s, p) == Next(q) && q.cur == p.cur + |name| + |last| + 3 && q.mode == InContent && q.hasTop == p.hasTop
    ensures q.stack == p.stack[1..] && q.tree == p.tree.Ascend()
  {
    hide StartsWith, IsXmlName, GetNextNode, AllSpace;
    EndWritten(s, p, name, last);
    q := Step(s, p).parser;
  }

  // ---- content ----

  /** Text that opens nothing and ends no CDATA section is one stretch of content. */
  lemma {:induction false} ContentEndPast(s: string, i: nat, w: string)
    requires StartsWith(s, i, w + "<") && OpensNothing(w) && forall k: nat :: k < |w| ==> !StartsWith(w, k, "]]>")
    ensures ContentEnd(s, i) == i + |w|
    decreases |w|
  {
    FirstOf(s, i, w + "<");
    if w != "" {
      assert w + "<" == [w[0]] + (w[1..] + "<");
      StartsWithSplit(s, i, [w[0]], w[1..] + "<");
      NoCDataEnd(s, i, w);
      hide StartsWith;
      forall k: nat | k < |w[1..]| ensures !StartsWith(w[1..], k, "]]>") { Shifted(w, k, "]]>"); }
      ContentEndPast(s, i + 1, w[1..]);
    }
  }

  lemma Shifted(w: string, k: nat, v: string)
    requires w != ""
    ensures StartsWith(w[1..], k, v) <==> StartsWith(w, k + 1, v)
  {
    if StartsWith(w, k + 1, v) || StartsWith(w[1..], k, v) {
      assert k + 1 + |v| <= |w|;
      assert w[1..][k..k + |v|] == w[k + 1..k + 1 + |v|];
    }
  }

  lemma NoCDataEnd(s: string, i: nat, w: string)
    requires StartsWith(s, i, w + "<") && w != ""
    ensures StartsWith(s, i, "]]>") ==> StartsWith(w, 0, "]]>")
  {
    if StartsWith(s, i, "]]>") {
      StartsWithAt(s, i, "]]>", 0);
      StartsWithAt(s, i, "]]>", 1);
      StartsWithAt(s, i, "]]>", 2);
      if |w| <= 2 {
        StartsWithAt(s, i, w + "<", |w|);
      } else {
        StartsWithAt(s, i, w + "<", 0);
        StartsWithAt(s, i, w + "<", 1);
        StartsWithAt(s, i, w + "<", 2);
        assert w[0..3] == "]]>";
      }
    }
  }

  lemma FirstVisible(s: string, i: nat, w: string)
    requires StartsWith(s, i, w) && OpensNothing(w) && !AllSpace(w)
    ensures At(s, SkipSpaces(s, i)) != NUL && At(s, SkipSpaces(s, i)) != '<' && At(s, i) != NUL && w != ""
  {
    var k :| 0 <= k < |w| && !IsSpace(w[k]);
    var c := SkipSpaces(s, i);
    StartsWithAt(s, i, w, k);
    assert c <= i + k;
    StartsWithAt(s, i, w, c - i);
    StartsWithAt(s, i, w, 0);
  }

  /** Text that is not blank becomes a text node with what it spells. */
  lemma TextWritten(s: string, p: Parser, cs: seq<Ch>) returns (q: Parser)
    requires p.cur <= |s| && p.mode == InContent && p.tree.path != []
    requires TextOk(cs) && !AllSpace(CharsText(cs)) && StartsWith(s, p.cur, CharsText(cs) + "<")
    ensures Step(s, p) == Next(q) && q == p.(save := p.cur, cur := p.cur + |CharsText(cs)|, tree := p.tree.Append(Text(Value(cs))))
  {
    hide CopyFrom, CharsText, ContentEnd, StartsWith, SkipSpaces, AllSpace, OpensNothing, Value, CharsOk;
    var w := CharsText(cs);
    CharsNoNul(cs);
    Opening(w);
    ContentEndPast(s, p.cur, w);
    StartsWithSplit(s, p.cur, w, "<");
    StartsWithAt(s, p.cur + |w|, "<", 0);
    NotStarting(s, p.cur + |w|, "]]>", 0);
    CopyWritten(s, p.cur, cs);
    FirstVisible(s, p.cur, w);
    q := p.(save := p.cur, cur := p.cur + |w|, tree := p.tree.Append(Text(Value(cs))));
  }

  /** A comment or an instruction in content leaves nothing, nor does the white space before it. */
  lemma CommentStep(s: string, p: Parser, w: string, body: string) returns (q: Parser)
    requires p.cur <= |s| && p.mode == InContent && AllSpace(w) && LegalComment(body) && !Misread(body)
    requires StartsWith(s, p.cur, w) && StartsWith(s, p.cur + |w|, CommentText(body))
    ensures Step(s, p) == Next(q) && q == p.(save := p.cur, cur := p.cur + |w| + |CommentText(body)|)
  {
    hide StartsWith, SkipSpaces, SkipComment, SkipPI, AllSpace, LegalComment, Misread, CommentText;
    var c := p.cur + |w|;
    CommentBytes(s, c, body);
    SpacesAt(s, p.cur, w);
    SkipSpacesTo(s, p.cur, c);
    CommentSkippedIff(s, c, body);
    StartsWithAt(s, c, "<!--", 2);
    NotStarting(s, c, "<![CDATA[", 2);
    NotEnded(s, p.cur, c);
    q := p.(save := p.cur, cur := c + |CommentText(body)|);
  }

  lemma NotEnded(s: string, i: nat, c: nat)
    requires i <= c && At(s, c) == '<' && forall k :: i <= k < c ==> IsSpace(At(s, k))
    ensures At(s, i) != NUL
  {
    if i < c {
      assert IsSpace(At(s, i));
    }
  }

  lemma InstrStep(s: string, p: Parser, w: string, body: string) returns (q: Parser)
    requires p.cur <= |s| && p.mode == InContent && AllSpace(w) && NoEnd(body) && !BadTarget(body)
    requires StartsWith(s, p.cur, w) && StartsWith(s, p.cur + |w|, InstrText(body))
    ensures Step(s, p) == Next(q) && q == p.(save := p.cur, cur := p.cur + |w| + |InstrText(body)|)
  {
    hide StartsWith, SkipSpaces, SkipComment, SkipPI, AllSpace, NoEnd, BadTarget, InstrText;
    var c := p.cur + |w|;
    InstrBytes(s, c, body);
    SpacesAt(s, p.cur, w);
    SkipSpacesTo(s, p.cur, c);
    InstrSkipped(s, c, body);
    NotStarting(s, c, "<![CDATA[", 1);
    NotStarting(s, c, "<!--", 1);
    NotEnded(s, p.cur, c);
    q := p.(save := p.cur, cur := c + |InstrText(body)|);
  }

  /** What begins a tag. */
  lemma TagLeads(s: string, i: nat, name: string, rest: string)
    requires IsXmlName(name) && StartsWith(s, i, "<" + name + rest)
    ensures At(s, i) == '<' && At(s, i + 1) !in {'!', '?'}
  {
    hide StartsWith, IsXmlName;
    StartsWithSplit(s, i, "<" + name, rest);
    StartsWithSplit(s, i, "<", name);
    StartsWithAt(s, i, "<", 0);
    NameLeads(s, i + 1, name);
  }

  lemma BlankRun(s: string, p: Parser, w: string) returns (q: Parser)
    requires p.cur <= |s| && p.mode == InContent && AllSpace(w) && StartsWith(s, p.cur, w)
    requires At(s, p.cur + |w|) == '<' && At(s, p.cur + |w| + 1) !in {'!', '?'}
    ensures Reaches(s, p, q) && q.cur == p.cur + |w| && q.mode == InElement && q.tree == p.tree
  {
    hide StartsWith, Step, Run;
    SpacesAt(s, p.cur, w);
    EnterTag(s, p, p.cur + |w|);
    q := p.(save := p.cur, cur := p.cur + |w|, mode := InElement);
    AfterStep(s, p, q);
  }

  /** Every mark but text begins with "<". */
  lemma MarkLeads(m: Mark)
    requires MarkOk(m) && !m.Chars?
    ensures MarkText(m) != "" && MarkText(m)[0] == '<'
  {
    hide AttrsText, MarksText, TagOk;
  }

  /** What comes after text. */
  lemma RestLeads(ms: seq<Mark>, tail: string)
    requires MarksOk(ms) && (ms != [] ==> !ms[0].Chars?) && tail != "" && tail[0] == '<'
    ensures MarksText(ms) + tail != "" && (MarksText(ms) + tail)[0] == '<'
  {
    hide MarkText;
    if ms != [] {
      MarkLeads(ms[0]);
    }
  }

  lemma SplitMarks(s: string, i: nat, w: string, ms: seq<Mark>, tail: string)
    requires MarksOk(ms) && ms != [] && StartsWith(s, i, w + MarksText(ms) + tail)
    ensures MarkOk(ms[0]) && StartsWith(s, i, w) && StartsWith(s, i + |w|, MarkText(ms[0]))
    ensures StartsWith(s, i + |w| + |MarkText(ms[0])|, MarksText(ms[1..]) + tail)
    ensures MarksText(ms) == MarkText(ms[0]) + MarksText(ms[1..]) && Meanings(ms) == Meaning(ms[0]) + Meanings(ms[1..])
    ensures MarksOk(ms[1..]) && (ms[0].Chars? && |ms| > 1 ==> !ms[1].Chars?)
  {
    hide StartsWith, MarkText, Meaning, MarkOk;
    var m, rest := MarkText(ms[0]), MarksText(ms[1..]) + tail;
    assert w + MarksText(ms) + tail == w + (m + rest);
    StartsWithSplit(s, i, w, m + rest);
    StartsWithSplit(s, i + |w|, m, rest);
  }

  /** The cursor with nodes added to its current node. */
  lemma WithNodes(c: Cursor, a: seq<Node>, b: seq<Node>)
    requires c.path != []
    ensures WithKids(c, []) == c && WithKids(WithKids(c, a), b) == WithKids(c, a + b)
    ensures |a| == 1 ==> c.Append(a[0]) == WithKids(c, a)
    ensures WithKids(c, a).path != []
  {
    var k := c.path[0].kids;
    assert k + [] == k && c.path == [c.path[0]] + c.path[1..] && k + a + b == k + (a + b);
    assert |a| == 1 ==> a == [a[0]];
  }

  /** The marks inside an element, after pending white space, up to its end tag. */
  lemma {:induction false} MarksRun(s: string, p: Parser, w: string, ms: seq<Mark>) returns (q: Parser)
    requires p.cur <= |s| && p.mode == InContent && p.tree.path != [] && p.stack != [] && p.hasTop
    requires MarksOk(ms) && AllSpace(w) && (ms != [] && ms[0].Chars? ==> w == "")
    requires StartsWith(s, p.cur, w + MarksText(ms) + "</")
    ensures Reaches(s, p, q) && q.cur == p.cur + |w| + |MarksText(ms)| && q.mode == InElement
    ensures q.tree == WithKids(p.tree, Meanings(ms))
    decreases ms, 0
  {
    hide StartsWith, Step, Run, WithKids, MarkText, MarkOk, AllSpace, Meaning, MarksText, MarksOk, Meanings, Blank;
    if ms == [] {
      NoMarks();
      assert w + "" + "</" == w + "</";
      StartsWithSplit(s, p.cur, w, "</");
      StartsWithAt(s, p.cur + |w|, "</", 0);
      StartsWithAt(s, p.cur + |w|, "</", 1);
      WithNodes(p.tree, [], []);
      q := BlankRun(s, p, w);
      return;
    }
    SplitMarks(s, p.cur, w, ms, "</");
    var rest := MarksText(ms[1..]) + "</";
    WithNodes(p.tree, Meaning(ms[0]), Meanings(ms[1..]));
    if ms[0].Chars? && Blank(ms[0]) {
      var v := MarkText(ms[0]);
      BlankMeans(ms[0]);
      assert w + v == v && "" + v == v;
      assert v + MarksText(ms[1..]) + "</" == w + MarksText(ms) + "</";
      q := MarksRun(s, p, v, ms[1..]);
      assert [] + Meanings(ms[1..]) == Meanings(ms[1..]);
      WithNodes(p.tree, [], []);
    } else {
      if ms[0].Chars? {
        RestLeads(ms[1..], "</");
      }
      var m := MarkRun(s, p, w, ms[0], rest);
      assert "" + MarksText(ms[1..]) + "</" == rest;
      EmptyIsSpace();
      q := MarksRun(s, m, "", ms[1..]);
    }
  }

  lemma NoMarks()
    ensures MarksOk([]) && MarksText([]) == "" && Meanings([]) == []
  {
  }

  lemma EmptyIsSpace()
    ensures AllSpace("")
  {
  }

  predicate Blank(m: Mark)
    requires m.Chars? && MarkOk(m)
  {
    AllSpace(MarkText(m))
  }

  lemma BlankMeans(m: Mark)
    requires m.Chars? && MarkOk(m) && Blank(m)
    ensures Meaning(m) == [] && AllSpace(MarkText(m))
  {
  }

  /** One mark in content, after pending white space: its meaning is added to the current node. */
  lemma {:induction false} MarkRun(s: string, p: Parser, w: string, m: Mark, rest: string) returns (q: Parser)
    requires p.cur <= |s| && p.mode == InContent && p.tree.path != [] && p.stack != [] && p.hasTop
    requires MarkOk(m) && AllSpace(w) && (m.Chars? ==> w == "" && !Blank(m) && rest != "" && rest[0] == '<')
    requires StartsWith(s, p.cur, w) && StartsWith(s, p.cur + |w|, MarkText(m))
    requires StartsWith(s, p.cur + |w| + |MarkText(m)|, rest)
    ensures Reaches(s, p, q) && q.cur == p.cur + |w| + |MarkText(m)| && q.mode == InContent
    ensures q.tree == WithKids(p.tree, Meaning(m))
    decreases m, 1
  {
    hide StartsWith, Step, Run, WithKids, AllSpace, AttrsText, TagOk, CharsText, CommentText, InstrText, MarksText, LegalComment, Misread,
         NoEnd, BadTarget, CharsOk, Value, Meanings;
    WithNodes(p.tree, Meaning(m), []);
    match m
    case Chars(text) =>
      assert rest == "<" + rest[1..];
      StartsWithSplit(s, p.cur + |CharsText(text)|, "<", rest[1..]);
      StartsWithSplit(s, p.cur, CharsText(text), "<");
      q := TextWritten(s, p, text);
      AfterStep(s, p, q);
    case Comment(body) =>
      q := CommentStep(s, p, w, body);
      AfterStep(s, p, q);
    case Instr(body) =>
      q := InstrStep(s, p, w, body);
      AfterStep(s, p, q);
    case _ =>
      ElementLeads(s, p.cur + |w|, m);
      var o := BlankRun(s, p, w);
      q := ElementWritten(s, o, m);
  }

  lemma ElementLeads(s: string, i: nat, m: Mark)
    requires (m.Full? || m.Empty?) && MarkOk(m) && StartsWith(s, i, MarkText(m))
    ensures At(s, i) == '<' && At(s, i + 1) !in {'!', '?'}
  {
    hide StartsWith, AttrsText, MarksText, IsXmlName;
    var rest := if m.Full?
                then AttrsText(m.attrs) + m.gap + ">" + (MarksText(m.kids) + ("</" + m.name + m.last + ">"))
                else AttrsText(m.attrs) + m.gap + "/>";
    assert MarkText(m) == "<" + m.name + rest;
    TagLeads(s, i, m.name, rest);
  }

  /** An element however written is appended to the current node as the element it means. */
  lemma {:induction false} ElementWritten(s: string, p: Parser, m: Mark) returns (q: Parser)
    requires (m.Full? || m.Empty?) && MarkOk(m) && p.cur <= |s| && p.mode != InContent && (p.stack != [] || !p.hasTop)
    requires StartsWith(s, p.cur, MarkText(m))
    ensures q.cur == p.cur + |MarkText(m)| <= |s| && Run(s, p) == Run(s, q)
    ensures q.stack == p.stack && q.hasTop && q.mode == InContent
    ensures |Meaning(m)| == 1 && q.tree == p.tree.Append(Meaning(m)[0])
    decreases m, 0
  {
    hide StartsWith, Step, Run, AttrsText, MarksText, Meanings, IsXmlName, AttrsOk, DistinctNames, AllSpace;
    if m.Empty? {
      q := EmptyWritten(s, p, m.name, m.attrs, m.gap);
    } else {
      var open, close := "<" + m.name + AttrsText(m.attrs) + m.gap + ">", "</" + m.name + m.last + ">";
      StartsWithSplit(s, p.cur, open, MarksText(m.kids) + close);
      StartsWithSplit(s, p.cur + |open|, MarksText(m.kids), close);
      assert MarksText(m.kids) + close == ("" + MarksText(m.kids) + "</") + (m.name + m.last + ">");
      StartsWithSplit(s, p.cur + |open|, "" + MarksText(m.kids) + "</", m.name + m.last + ">");
      var o := TagWritten(s, p, m.name, m.attrs, m.gap, ">");
      EmptyIsSpace();
      var k := MarksRun(s, o, "", m.kids);
      q := CloseWritten(s, k, m.name, m.last);
      RunStep(s, k, q);
      assert k.tree.path[1..] == p.tree.path && [] + Meanings(m.kids) == Meanings(m.kids);
    }
  }

  // ---- documents ----

  /** A comment or an instruction outside the root, and the white space after it. */
  datatype Aside = Aside(mark: Mark, gap: string)

  ghost predicate AsidesOk(asides: seq<Aside>) {
    forall k :: 0 <= k < |asides| ==> AsideOk(asides[k])
  }

  ghost predicate AsideOk(a: Aside) {
    (a.mark.Comment? || a.mark.Instr?) && MarkOk(a.mark) && AllSpace(a.gap)
  }

  function AsidesText(asides: seq<Aside>): string
    requires AsidesOk(asides)
  {
    if asides == [] then "" else MarkText(asides[0].mark) + (asides[0].gap + AsidesText(asides[1..]))
  }

  /** White space, perhaps a declaration, asides, the root, and asides again. */
  datatype Document =
    Document(lead: string, decl: Option<string>, gap: string, before: seq<Aside>, root: Mark, after: string, asides: seq<Aside>)

  ghost predicate DocumentOk(d: Document) {
    && AllSpace(d.lead) && AllSpace(d.gap) && AllSpace(d.after) && (d.decl.Some? ==> NoEnd(d.decl.value))
    && (d.decl.None? ==> d.gap == "")
    && AsidesOk(d.before) && AsidesOk(d.asides) && (d.root.Full? || d.root.Empty?) && MarkOk(d.root)
  }

  function DeclText(decl: Option<string>): string {
    if decl.None? then "" else "<?xml " + decl.value + "?>"
  }

  function SourceText(d: Document): string
    requires DocumentOk(d)
  {
    d.lead + (DeclText(d.decl) + (d.gap + (AsidesText(d.before) + (MarkText(d.root) + (d.after + AsidesText(d.asides))))))
  }

  lemma SplitAside(s: string, i: nat, asides: seq<Aside>)
    requires AsidesOk(asides) && asides != [] && StartsWith(s, i, AsidesText(asides))
    ensures var a := asides[0];
            && AsideOk(a) && StartsWith(s, i, MarkText(a.mark)) && StartsWith(s, i + |MarkText(a.mark)|, a.gap)
            && StartsWith(s, i + |MarkText(a.mark)| + |a.gap|, AsidesText(asides[1..]))
            && |AsidesText(asides)| == |MarkText(a.mark)| + |a.gap| + |AsidesText(asides[1..])|
            && MarkText(a.mark) != "" && AsidesText(asides)[0] == '<'
  {
    hide StartsWith, MarkText, MarkOk;
    var a, rest := asides[0], AsidesText(asides[1..]);
    MarkLeads(a.mark);
    StartsWithSplit(s, i, MarkText(a.mark), a.gap + rest);
    StartsWithSplit(s, i + |MarkText(a.mark)|, a.gap, rest);
  }

  /** What one aside is to Parser_skipMisc. */
  lemma SkipAside(s: string, i: nat, a: Aside)
    requires AsideOk(a) && StartsWith(s, i, MarkText(a.mark)) && i <= |s|
    ensures SkipMisc(s, i) == SkipMisc(s, SkipSpaces(s, i + |MarkText(a.mark)|)) && !StartsWith(s, i, "<?xml ")
    ensures At(s, i) == '<' && i + |MarkText(a.mark)| <= |s|
  {
    hide StartsWith, SkipSpaces, SkipMisc, LegalComment, Misread, NoEnd, BadTarget, CommentText, InstrText, AllSpace;
    TextInside(s, i, MarkText(a.mark));
    match a.mark
    case Comment(body) => SkipCommentAside(s, i, body);
    case Instr(body) => SkipInstrAside(s, i, body);
  }

  lemma SkipCommentAside(s: string, i: nat, body: string)
    requires LegalComment(body) && !Misread(body) && StartsWith(s, i, CommentText(body))
    ensures SkipMisc(s, i) == SkipMisc(s, SkipSpaces(s, i + |CommentText(body)|)) && !StartsWith(s, i, "<?xml ") && At(s, i) == '<'
  {
    hide StartsWith, SkipSpaces, SkipMisc, SkipComment, LegalComment, Misread, CommentText;
    CommentBytes(s, i, body);
    CommentSkippedIff(s, i, body);
    NotStarting(s, i, "<?xml ", 1);
    UnfoldComment(s, i);
  }

  lemma SkipInstrAside(s: string, i: nat, body: string)
    requires NoEnd(body) && !BadTarget(body) && StartsWith(s, i, InstrText(body))
    ensures SkipMisc(s, i) == SkipMisc(s, SkipSpaces(s, i + |InstrText(body)|)) && !StartsWith(s, i, "<?xml ") && At(s, i) == '<'
  {
    hide StartsWith, SkipSpaces, SkipComment, NoEnd, BadTarget, IsXmlDecl, InstrText;
    InstrBytes(s, i, body);
    InstrSkipped(s, i, body);
    NotStarting(s, i, "<!--", 1);
    NotDecl(s, i);
    InstrLength(body);
  }

  lemma UnfoldComment(s: string, i: nat)
    requires StartsWith(s, i, "<!--") && SkipComment(s, i).Some?
    ensures SkipMisc(s, i) == SkipMisc(s, SkipSpaces(s, SkipComment(s, i).value))
  {
    hide StartsWith, SkipSpaces, SkipComment;
  }

  lemma TextInside(s: string, i: nat, w: string)
    requires StartsWith(s, i, w)
    ensures i + |w| <= |s|
  {
  }

  lemma InstrLength(body: string)
    ensures |InstrText(body)| == |body| + 4
  {
  }

  lemma NotDecl(s: string, i: nat)
    requires !IsXmlDecl(s, i)
    ensures !StartsWith(s, i, "<?xml ")
  {
    if StartsWith(s, i, "<?xml ") {
      NoCaseOf(s, i, "<?xml ");
    }
  }

  lemma NextAside(asides: seq<Aside>, s: string, i: nat, e: nat)
    requires AsidesOk(asides) && StartsWith(s, i, AsidesText(asides)) && e == i + |AsidesText(asides)| && At(s, e) == '<'
    ensures At(s, i) == '<'
  {
    hide StartsWith, MarkText;
    if asides != [] {
      SplitAside(s, i, asides);
      StartsWithAt(s, i, AsidesText(asides), 0);
    }
  }

  /** The asides before the root are skipped. */
  lemma {:induction false} AsidesSkipped(s: string, i: nat, asides: seq<Aside>)
    requires AsidesOk(asides) && StartsWith(s, i, AsidesText(asides)) && i <= |s|
    requires var e := i + |AsidesText(asides)|; At(s, e) == '<' && At(s, e + 1) !in {'!', '?'}
    ensures SkipMisc(s, i) == Skipped(true, i + |AsidesText(asides)|) && (asides != [] ==> !StartsWith(s, i, "<?xml "))
    decreases asides
  {
    hide StartsWith, SkipMisc, SkipSpaces, MarkText, MarkOk, AllSpace;
    if asides == [] {
      MiscStays(s, i);
    } else {
      var a, rest := asides[0], asides[1..];
      SplitAside(s, i, asides);
      var g := i + |MarkText(a.mark)|;
      SkipAside(s, i, a);
      SpacesAt(s, g, a.gap);
      TextInside(s, g, a.gap);
      NextAside(rest, s, g + |a.gap|, i + |AsidesText(asides)|);
      SkipSpacesTo(s, g, g + |a.gap|);
      AsidesSkipped(s, g + |a.gap|, rest);
    }
  }

  /** The asides after the root leave nothing, and the run ends. */
  lemma {:induction false} AsidesRun(s: string, p: Parser, w: string, asides: seq<Aside>)
    requires p.cur <= |s| && p.mode == InContent && p.stack == [] && AllSpace(w) && AsidesOk(asides)
    requires StartsWith(s, p.cur, w + AsidesText(asides)) && p.cur + |w| + |AsidesText(asides)| == |s|
    ensures Run(s, p) == Accepted(p.tree.roots)
    decreases asides
  {
    hide StartsWith, Run, Step, AllSpace, MarkText;
    StartsWithSplit(s, p.cur, w, AsidesText(asides));
    if asides == [] {
      SpacesAt(s, p.cur, w);
      AtEnd(s, p);
    } else {
      var a, rest := asides[0], asides[1..];
      SplitAside(s, p.cur + |w|, asides);
      var q := AsideStep(s, p, w, a);
      RunStep(s, p, q);
      StartsWithSplit(s, q.cur, a.gap, AsidesText(rest));
      AsidesRun(s, q, a.gap, rest);
    }
  }

  lemma AsideStep(s: string, p: Parser, w: string, a: Aside) returns (q: Parser)
    requires p.cur <= |s| && p.mode == InContent && AllSpace(w) && AsideOk(a)
    requires StartsWith(s, p.cur, w) && StartsWith(s, p.cur + |w|, MarkText(a.mark))
    ensures Step(s, p) == Next(q) && q == p.(save := p.cur, cur := p.cur + |w| + |MarkText(a.mark)|)
  {
    hide StartsWith, Step, AllSpace, LegalComment, Misread, NoEnd, BadTarget, CommentText, InstrText;
    match a.mark
    case Comment(body) => q := CommentStep(s, p, w, body);
    case Instr(body) => q := InstrStep(s, p, w, body);
  }

  /** Where a declaration ends. */
  lemma DeclEnds(s: string, i: nat, d: string)
    requires NoEnd(d) && StartsWith(s, i, "<?xml " + d + "?>")
    ensures StartsWith(s, i, "<?xml ") && Find(s, i, "?>") == Some(i + 6 + |d|) && i + 8 + |d| <= |s| && At(s, i) == '<'
  {
    TextInside(s, i, "<?xml " + d + "?>");
    hide StartsWith;
    StartsWithSplit(s, i, "<?xml " + d, "?>");
    StartsWithSplit(s, i, "<?xml ", d);
    var v := "<?xml " + d + "?>";
    StartsWithAt(s, i, v, 0);
    forall k | i <= k < i + 6 + |d| ensures At(s, k) != '?' || At(s, k + 1) != '>' {
      var j := k - i;
      StartsWithAt(s, i, v, j);
      StartsWithAt(s, i, v, j + 1);
      if j >= 6 {
        assert v[j] == d[j - 6] && (j + 1 < 6 + |d| ==> v[j + 1] == d[j - 5]);
      }
    }
    FindAt(s, i, i + 6 + |d|, "?>");
  }

  /** White space, declaration and asides are what Parser_skipProlog skips. */
  lemma PrologEnds(s: string, lead: string, decl: Option<string>, gap: string, asides: seq<Aside>, r: nat)
    requires AllSpace(lead) && AllSpace(gap) && AsidesOk(asides) && (if decl.Some? then NoEnd(decl.value) else gap == "")
    requires StartsWith(s, 0, lead) && StartsWith(s, |lead|, DeclText(decl))
    requires var g := |lead| + |DeclText(decl)|; StartsWith(s, g, gap) && StartsWith(s, g + |gap|, AsidesText(asides))
    requires r == |lead| + |DeclText(decl)| + |gap| + |AsidesText(asides)| && At(s, r) == '<' && At(s, r + 1) !in {'!', '?'}
    ensures SkipProlog(s) == Skipped(true, r)
  {
    hide StartsWith, SkipMisc, SkipSpaces, Find, AsidesText, AsidesOk, AllSpace, NoEnd;
    var i := |lead|;
    var g := i + |DeclText(decl)|;
    SpacesAt(s, 0, lead);
    SpacesAt(s, g, gap);
    TextInside(s, g, gap);
    AsidesSkipped(s, g + |gap|, asides);
    NextAside(asides, s, g + |gap|, r);
    if decl.Some? {
      DeclEnds(s, i, decl.value);
      SkipSpacesTo(s, 0, i);
      SkipSpacesTo(s, g, g + |gap|);
    } else {
      SkipSpacesTo(s, 0, i);
      NotStarting(s, r, "<?xml ", 1);
      NoAsides(asides);
    }
  }

  /** The loop starts where the prolog ends. */
  lemma LoopStarts(s: string, r: nat)
    requires SkipProlog(s) == Skipped(true, r) && At(s, r) == '<' && At(s, r + 1) !in {'!', '?'}
    ensures Parse(s) == Run(s, Start(r))
  {
    hide StartsWith, SkipMisc, SkipProlog, Run;
    NotStarting(s, r, "<!DOCTYPE", 1);
    MiscStays(s, r);
  }

  lemma NoAsides(asides: seq<Aside>)
    requires AsidesOk(asides)
    ensures asides == [] ==> AsidesText(asides) == ""
  {
  }

  /** From the root on. */
  lemma RootRuns(s: string, r: nat, root: Mark, after: string, asides: seq<Aside>)
    requires (root.Full? || root.Empty?) && MarkOk(root) && AllSpace(after) && AsidesOk(asides) && r <= |s|
    requires StartsWith(s, r, MarkText(root)) && StartsWith(s, r + |MarkText(root)|, after + AsidesText(asides))
    requires |s| == r + |MarkText(root)| + |after| + |AsidesText(asides)|
    ensures |Meaning(root)| == 1 && Run(s, Start(r)) == Accepted(Meaning(root))
  {
    hide StartsWith, Run, AsidesText, MarkText, Meaning, AsidesOk, AllSpace, MarkOk;
    var q := ElementWritten(s, Start(r), root);
    AsidesRun(s, q, after, asides);
    assert [] + [Meaning(root)[0]] == Meaning(root);
  }

  function RootAt(d: Document): nat
    requires DocumentOk(d)
  {
    |d.lead| + |DeclText(d.decl)| + |d.gap| + |AsidesText(d.before)|
  }

  /** The parts of a document stand where they should. */
  lemma SourceParts(d: Document)
    requires DocumentOk(d)
    ensures var s, r := SourceText(d), RootAt(d);
            && StartsWith(s, 0, d.lead) && StartsWith(s, |d.lead|, DeclText(d.decl))
            && StartsWith(s, |d.lead| + |DeclText(d.decl)|, d.gap)
            && StartsWith(s, |d.lead| + |DeclText(d.decl)| + |d.gap|, AsidesText(d.before))
            && StartsWith(s, r, MarkText(d.root)) && StartsWith(s, r + |MarkText(d.root)|, d.after + AsidesText(d.asides))
            && |s| == r + |MarkText(d.root)| + |d.after| + |AsidesText(d.asides)|
  {
    hide StartsWith, AsidesText, MarkText, AsidesOk, AllSpace, NoEnd, MarkOk, DeclText;
    SixParts(SourceText(d), d.lead, DeclText(d.decl), d.gap, AsidesText(d.before), MarkText(d.root), d.after + AsidesText(d.asides));
  }

  /** Every document however written is read as the tree it means. */
  lemma WrittenParses(d: Document)
    requires DocumentOk(d)
    ensures |Meaning(d.root)| == 1 && Parse(SourceText(d)) == Accepted(Meaning(d.root))
  {
    hide StartsWith, Run, Parse, AsidesText, MarkText, Meaning, AsidesOk, AllSpace, NoEnd, MarkOk, DeclText, SourceText;
    var s, r := SourceText(d), RootAt(d);
    SourceParts(d);
    ElementLeads(s, r, d.root);
    PrologEnds(s, d.lead, d.decl, d.gap, d.before, r);
    LoopStarts(s, r);
    RootRuns(s, r, d.root, d.after, d.asides);
  }

  lemma SixParts(s: string, a: string, b: string, c: string, d: string, e: string, f: string)
    requires s == a + (b + (c + (d + (e + f))))
    ensures StartsWith(s, 0, a) && StartsWith(s, |a|, b) && StartsWith(s, |a| + |b|, c) && StartsWith(s, |a| + |b| + |c|, d)
    ensures var r := |a| + |b| + |c| + |d|; StartsWith(s, r, e) && StartsWith(s, r + |e|, f) && |s| == r + |e| + |f|
  {
    hide StartsWith;
    StartsWithSelf(s);
    StartsWithSplit(s, 0, a, b + (c + (d + (e + f))));
    StartsWithSplit(s, |a|, b, c + (d + (e + f)));
    StartsWithSplit(s, |a| + |b|, c, d + (e + f));
    StartsWithSplit(s, |a| + |b| + |c|, d, e + f);
    StartsWithSplit(s, |a| + |b| + |c| + |d|, e, f);
  }
}
