/**
 A printer that writes empty-element tags: what it prints is read like what ixml prints.
 */
module XmlShort {
  import opened CText
  import opened Utf8
  import opened XmlChars
  import opened XmlLexer
  import opened XmlTree
  import opened XmlPrinter
  import opened XmlParser
  import opened XmlLexing
  import opened XmlSteps
  import opened XmlRoundTrip
  import opened XmlSurface
  import opened XmlMarkup

  /** The characters of an escaped text. */
  ghost function EscapedChars(cs: seq<int>): (r: seq<Ch>)
    requires XmlCodes(cs)
    ensures |r| == |cs|
  {
    if cs == [] then [] else [EscapedChar(cs[0])] + EscapedChars(cs[1..])
  }

  function EscapedChar(c: int): Ch
    requires IsXmlChar(c)
  {
    if c <= 127 && !Plain(c as char) then Named(c, EscapeChar(c as char)) else Raw(c, Encode(c))
  }

  lemma EscapedCharText(c: int)
    requires IsXmlChar(c)
    ensures CharOk(EscapedChar(c)) && CharText(EscapedChar(c)) == EscapeCode(c) && EscapedChar(c).code == c
  {
    EncodedXmlChar(c);
    if c > 127 || Plain(c as char) {
      StartsWithSelf(Encode(c));
      DecodeEncode(Encode(c), 0, c);
    }
  }

  lemma {:induction false} EscapedCharsText(cs: seq<int>)
    requires XmlCodes(cs)
    ensures CharsOk(EscapedChars(cs)) && CharsText(EscapedChars(cs)) == EscapeCodes(cs) && Codes(EscapedChars(cs)) == cs
  {
    hide CharText, CharOk, EscapeCode, EscapedChar, IsXmlChar;
    if cs != [] {
      EscapedCharText(cs[0]);
      EscapedCharsText(cs[1..]);
      var r := EscapedChars(cs);
      assert r[1..] == EscapedChars(cs[1..]);
      assert Codes(r) == [r[0].code] + Codes(r[1..]);
    } else {
      assert Codes(EscapedChars(cs)) == [];
    }
  }

  /** The characters that spell a text as the printer writes it. */
  ghost function Spelt(v: string): (r: seq<Ch>)
    requires IsXmlText(v)
    ensures CharsOk(r) && CharsText(r) == Escape(v) && Value(r) == v && (r == [] ==> v == "")
  {
    hide CharsText, CharsOk, EscapedChars, EscapeCodes;
    var cs: seq<int> :| v == EncodeAll(cs) && XmlCodes(cs);
    EscapedCharsText(cs);
    EscapeEncoded(cs);
    EscapedChars(cs)
  }

  ghost function SpeltAttr(a: Attr): Written
    requires IsXmlText(a.value)
  {
    Written(" ", a.name, "", "", '"', Spelt(a.value))
  }

  lemma SpeltAttrText(a: Attr)
    requires IsXmlName(a.name) && a.name != "xmlns" && IsXmlText(a.value)
    ensures AttrOk(SpeltAttr(a)) && AttrMeaning(SpeltAttr(a)) == a
    ensures AttrText(SpeltAttr(a)) == " " + a.name + "=\"" + Escape(a.value) + "\""
  {
    hide IsXmlName, IsXmlText, Escape, CharsText, Value, CharsOk, Spelt;
    EscapedClean(a.value);
    NoQuote(Escape(a.value));
    var w := Escape(a.value);
    assert " " + (a.name + ("" + ("=" + ("" + (['"'] + (w + ['"'])))))) == " " + a.name + "=\"" + w + "\"";
  }

  lemma NoQuote(w: string)
    requires Clean(w)
    ensures '"' !in w && '<' !in w
  {
  }

  ghost function SpeltAttrs(attrs: seq<Attr>): (r: seq<Written>)
    requires WellFormedAttrs(attrs)
    ensures |r| == |attrs| && forall k :: 0 <= k < |r| ==> r[k] == SpeltAttr(attrs[k])
  {
    seq(|attrs|, k requires 0 <= k < |attrs| && IsXmlText(attrs[k].value) => SpeltAttr(attrs[k]))
  }

  lemma {:induction false} SpeltAttrsText(attrs: seq<Attr>)
    requires WellFormedAttrs(attrs)
    ensures AttrsOk(SpeltAttrs(attrs)) && AttrsMeaning(SpeltAttrs(attrs)) == attrs
    ensures AttrsText(SpeltAttrs(attrs)) == PrintAttrs(attrs)
  {
    hide IsXmlName, IsXmlText, Escape, AttrOk, AttrText, AttrMeaning, SpeltAttr;
    if attrs != [] {
      var r := SpeltAttrs(attrs);
      SpeltAttrText(attrs[0]);
      SpeltAttrsText(attrs[1..]);
      assert r[1..] == SpeltAttrs(attrs[1..]);
      assert r == [r[0]] + r[1..];
      MeaningsOfAttrs(r);
    }
  }

  /** ixmlPrintDomTree as it would be with empty-element tags for elements without children. */
  function PrintShort(n: Node, beforeText: bool): string
    requires n.Element?
    decreases n, 1
  {
    (if n.kids == [] then "<" + n.name + PrintAttrs(n.attrs) + "/>"
     else
       "<" + n.name + PrintAttrs(n.attrs) + ">" + Break(n.kids[0].Text?) + PrintShortAll(n.kids) + "</" + n.name + ">")
    + Break(beforeText)
  }

  function PrintShortAll(ns: seq<Node>): string
    decreases ns, 0
  {
    if ns == [] then ""
    else if ns[0].Text? then Escape(ns[0].value)
    else PrintShort(ns[0], |ns| > 1 && ns[1].Text?) + PrintShortAll(ns[1..])
  }

  /** PrintDocument with empty-element tags. */
  function PrintShortDocument(roots: seq<Node>): string {
    DECLARATION + PrintShortAll(roots)
  }

  // ---- the marks it writes ----

  const BREAK := Chars([Raw(13, "\r"), Raw(10, "\n")])

  lemma BreakMark()
    ensures MarkOk(BREAK) && MarkText(BREAK) == "\r\n" && Meaning(BREAK) == []
  {
    var cs := [Raw(13, "\r"), Raw(10, "\n")];
    assert Decode("\r", 0) == Decoded(13, 1) && Decode("\n", 0) == Decoded(10, 1);
    assert CharOk(cs[0]) && CharOk(cs[1]) && CharsOk(cs) && cs[1..] == [Raw(10, "\n")];
    assert CharsText(cs[1..]) == "\n" + CharsText([]);
    var w := CharsText(cs);
    assert w == "\r" + "\n";
    forall k: nat | k < |w| ensures !StartsWith(w, k, "]]>") { NotStarting(w, k, "]]>", 0); }
  }

  ghost function ShortMark(n: Node): Mark
    requires n.Element? && WellFormed(n)
    decreases n, 1
  {
    if n.kids == [] then Empty(n.name, SpeltAttrs(n.attrs), "")
    else Full(n.name, SpeltAttrs(n.attrs), "", Breaks(n.kids[0].Text?) + ShortMarks(n.kids), "")
  }

  ghost function Breaks(omit: bool): seq<Mark> {
    if omit then [] else [BREAK]
  }

  ghost function ShortMarks(ns: seq<Node>): seq<Mark>
    requires WellFormedAll(ns)
    decreases ns, 0
  {
    if ns == [] then []
    else
      assert WellFormed(ns[0]);
      if ns[0].Text? then (if ns[0].value == "" then [] else [Chars(Spelt(ns[0].value))])
      else [ShortMark(ns[0])] + (Breaks(|ns| > 1 && ns[1].Text?) + ShortMarks(ns[1..]))
  }

  /** A line break before marks that do not begin with text. */
  lemma AfterBreak(omit: bool, ms: seq<Mark>)
    requires MarksOk(ms) && (!omit && ms != [] ==> !ms[0].Chars?)
    ensures var all := Breaks(omit) + ms;
            && MarksOk(all) && MarksText(all) == Break(omit) + MarksText(ms) && Meanings(all) == Meanings(ms)
  {
    hide MarkText, Meaning, MarkOk;
    if omit {
      assert [] + ms == ms && "" + MarksText(ms) == MarksText(ms);
    } else {
      BreakMark();
      assert ([BREAK] + ms)[1..] == ms;
      assert [] + Meanings(ms) == Meanings(ms);
    }
  }

  lemma OneMark(m: Mark, ms: seq<Mark>)
    requires MarkOk(m) && MarksOk(ms) && !m.Chars?
    ensures MarksOk([m] + ms) && MarksText([m] + ms) == MarkText(m) + MarksText(ms)
    ensures Meanings([m] + ms) == Meaning(m) + Meanings(ms)
  {
    hide MarkText, Meaning, MarkOk;
    assert ([m] + ms)[1..] == ms;
  }

  lemma ConsMarks(m: Mark, last: bool, ms: seq<Mark>, text: string)
    requires MarkOk(m) && !m.Chars? && MarksOk(ms) && (!last && ms != [] ==> !ms[0].Chars?) && text == MarkText(m) + Break(last)
    ensures var all := [m] + (Breaks(last) + ms);
            && MarksOk(all) && MarksText(all) == text + MarksText(ms) && Meanings(all) == Meaning(m) + Meanings(ms)
            && !all[0].Chars?
  {
    hide MarkText, Meaning, MarkOk, MarksText, Meanings, MarksOk, Breaks;
    AfterBreak(last, ms);
    OneMark(m, Breaks(last) + ms);
  }

  lemma SpeltText(v: string)
    requires IsXmlText(v) && v != ""
    ensures var m := Chars(Spelt(v));
            && MarkOk(m) && MarkText(m) == Escape(v) && Meaning(m) == if AllSpace(v) then [] else [Text(v)]
  {
    hide Spelt, CharsText, CharsOk, Escape, IsXmlText, Value;
    EscapedClean(v);
    NoQuote(Escape(v));
    var w := Escape(v);
    forall k: nat | k < |w|
      ensures !StartsWith(w, k, "]]>")
    {
      if StartsWith(w, k, "]]>") {
        StartsWithAt(w, k, "]]>", 2);
      }
    }
    if AllSpace(v) {
      EscapePlain(v);
    } else {
      EscapeKeepsInk(v);
    }
  }

  lemma {:induction false} ShortMarkText(n: Node)
    requires n.Element? && WellFormed(n)
    ensures MarkOk(ShortMark(n)) && MarkText(ShortMark(n)) == PrintShort(n, true) && Meaning(ShortMark(n)) == [Normalize(n)]
    ensures ShortMark(n).Full? || ShortMark(n).Empty?
    decreases n, 1
  {
    hide IsXmlName, AttrsOk, AttrsText, PrintAttrs, SpeltAttrs, MarksText, PrintShortAll, Meanings, ShortMarks, AttrsMeaning, MarksOk,
         DistinctNames, Breaks;
    SpeltAttrsText(n.attrs);
    SpeltTag(n.attrs);
    assert AllSpace("");
    var tag := "<" + n.name + PrintAttrs(n.attrs);
    if n.kids == [] {
      assert tag + "" + "/>" == tag + "/>" && tag + "/>" + "" == tag + "/>";
    } else {
      ShortMarksText(n.kids);
      AfterBreak(n.kids[0].Text?, ShortMarks(n.kids));
      var inner := Break(n.kids[0].Text?) + PrintShortAll(n.kids);
      assert tag + "" + ">" + (inner + ("</" + n.name + "" + ">")) == tag + ">" + inner + "</" + n.name + ">";
      assert tag + ">" + inner == tag + ">" + Break(n.kids[0].Text?) + PrintShortAll(n.kids);
    }
  }

  lemma SpeltTag(attrs: seq<Attr>)
    requires WellFormedAttrs(attrs)
    ensures DistinctNames(attrs)
  {
  }

  lemma {:induction false} ShortMarksText(ns: seq<Node>)
    requires WellFormedAll(ns)
    ensures MarksOk(ShortMarks(ns)) && MarksText(ShortMarks(ns)) == PrintShortAll(ns) && Meanings(ShortMarks(ns)) == NormalizeAll(ns)
    ensures ns == [] || ns[0].Element? ==> ShortMarks(ns) == [] || !ShortMarks(ns)[0].Chars?
    decreases ns, 0
  {
    hide MarkText, MarkOk, Meaning, ShortMark, PrintShort, Normalize, Escape, Breaks, Spelt, IsXmlText, AllSpace, MarksText, MarksOk,
         Meanings;
    if ns == [] {
      NoMarks();
    } else if ns[0].Text? {
      TextMarks(ns[0].value);
    } else {
      var last, rest := |ns| > 1 && ns[1].Text?, ShortMarks(ns[1..]);
      ShortMarkText(ns[0]);
      ShortMarksText(ns[1..]);
      ShortBreak(ns[0], last);
      ConsMarks(ShortMark(ns[0]), last, rest, PrintShort(ns[0], last));
    }
  }

  lemma TextMarks(v: string)
    requires IsXmlText(v)
    ensures var ms: seq<Mark> := if v == "" then [] else [Chars(Spelt(v))];
            && MarksOk(ms) && MarksText(ms) == Escape(v) && Meanings(ms) == if AllSpace(v) then [] else [Text(v)]
  {
    hide MarkText, MarkOk, Meaning, Spelt, IsXmlText;
    if v != "" {
      SpeltText(v);
      var ms := [Chars(Spelt(v))];
      assert ms[1..] == [];
    }
  }

  lemma ShortBreak(n: Node, beforeText: bool)
    requires n.Element?
    ensures PrintShort(n, beforeText) == PrintShort(n, true) + Break(beforeText)
  {
    hide PrintAttrs, PrintShortAll;
  }

  // ---- reading it ----

  ghost function ShortSource(m: Mark): Document {
    Document("", Some("version=\"1.0\""), "\r\n", [], m, "\r\n", [])
  }

  lemma ShortSourceText(m: Mark)
    requires (m.Full? || m.Empty?) && MarkOk(m)
    ensures DocumentOk(ShortSource(m)) && SourceText(ShortSource(m)) == DECLARATION + (MarkText(m) + "\r\n")
  {
    hide MarkText, MarkOk;
    assert DeclText(Some("version=\"1.0\"")) + "\r\n" == DECLARATION;
    assert AsidesText([]) == "";
    assert "\r\n" + ("" + (MarkText(m) + ("\r\n" + ""))) == "\r\n" + (MarkText(m) + "\r\n");
  }

  lemma ShortOneText(n: Node)
    requires n.Element?
    ensures PrintShortDocument([n]) == DECLARATION + (PrintShort(n, true) + "\r\n")
  {
    hide PrintShort;
    ShortBreak(n, false);
    assert PrintShortAll([n]) == PrintShort(n, false) + PrintShortAll([]);
  }

  lemma ShortRoot(n: Node)
    requires n.Element? && WellFormed(n)
    ensures Parse(PrintShortDocument([n])) == Accepted([Normalize(n)])
  {
    hide MarkText, MarkOk, Meaning, ShortMark, PrintShort, Normalize, WellFormed, Parse, SourceText, PrintShortDocument, DocumentOk;
    ShortMarkText(n);
    ShortSourceText(ShortMark(n));
    ShortOneText(n);
    WrittenParses(ShortSource(ShortMark(n)));
  }

  /** A second element at top level is refused however it is written. */
  lemma SecondWritten(s: string, p: Parser, name: string, attrs: seq<Written>, gap: string, close: string)
    requires p.cur <= |s| && p.mode != InContent && p.stack == [] && p.hasTop
    requires IsXmlName(name) && RestOk(attrs, gap, close)
    requires StartsWith(s, p.cur, "<" + name) && StartsWith(s, p.cur + 1 + |name|, TagRest(attrs, gap, close))
    ensures Run(s, p) == Rejected(Syntax)
  {
    hide GetNextToken, SkipSpaces, StartsWith, IsXmlName, ProcessETag, ProcessAttribute, ProcessContent, AttrsOk, TagRest;
    LookRest(s, p.cur + 1 + |name|, attrs, gap, close);
    TagTokens(s, p.cur, p.save, name);
    assert Step(s, p) == Rejected(Syntax);
  }

  function CloseOf(m: Mark): string {
    if m.Full? then ">" else "/>"
  }

  /** A written element begins with its tag. */
  lemma TagOf(s: string, i: nat, m: Mark)
    requires (m.Full? || m.Empty?) && MarkOk(m) && StartsWith(s, i, MarkText(m))
    ensures RestOk(m.attrs, m.gap, CloseOf(m)) && IsXmlName(m.name)
    ensures StartsWith(s, i, "<" + m.name) && StartsWith(s, i + 1 + |m.name|, TagRest(m.attrs, m.gap, CloseOf(m)))
  {
    hide StartsWith, AttrsText, MarksText, IsXmlName, AttrsOk, AllSpace, DistinctNames;
    var tag, rest := "<" + m.name, TagRest(m.attrs, m.gap, CloseOf(m));
    var tail := if m.Full? then MarksText(m.kids) + ("</" + m.name + m.last + ">") else "";
    assert MarkText(m) == tag + (rest + tail);
    StartsWithSplit(s, i, tag, rest + tail);
    StartsWithSplit(s, i + |tag|, rest, tail);
  }

  lemma SecondMark(s: string, p: Parser, w: string, m: Mark)
    requires p.cur <= |s| && p.mode == InContent && p.stack == [] && p.hasTop && AllSpace(w)
    requires (m.Full? || m.Empty?) && MarkOk(m) && StartsWith(s, p.cur, w + MarkText(m))
    ensures Run(s, p) == Rejected(Syntax)
  {
    hide StartsWith, MarkText, MarkOk, Run, AllSpace, TagRest, AttrsOk, IsXmlName, CloseOf;
    var c := p.cur + |w|;
    StartsWithSplit(s, p.cur, w, MarkText(m));
    ElementLeads(s, c, m);
    TagOf(s, c, m);
    var q := BlankRun(s, p, w);
    SecondWritten(s, q, m.name, m.attrs, m.gap, CloseOf(m));
  }

  lemma TwoRoots(roots: seq<Node>) returns (rest: string)
    requires |roots| > 1 && ElementsOnly(roots) && WellFormedAll(roots)
    ensures WellFormed(roots[0]) && WellFormed(roots[1]) && roots[0].Element? && roots[1].Element?
    ensures PrintShortDocument(roots) ==
            DECLARATION + (PrintShort(roots[0], true) + (("\r\n" + PrintShort(roots[1], true)) + rest))
  {
    hide PrintShort, WellFormed;
    assert WellFormedAll(roots[1..]);
    ShortBreak(roots[0], false);
    var last := |roots| > 2 && roots[2].Text?;
    ShortBreak(roots[1], last);
    rest := Break(last) + PrintShortAll(roots[1..][1..]);
    assert roots[1..][0] == roots[1];
    assert |roots| > 2 ==> roots[1..][1] == roots[2];
    assert PrintShortAll(roots[1..]) == PrintShort(roots[1], true) + rest;
    assert PrintShortAll(roots) == PrintShort(roots[0], true) + "\r\n" + PrintShortAll(roots[1..]);
  }

  lemma ShortProlog(s: string)
    requires StartsWith(s, 0, DECLARATION) && At(s, 23) == '<' && At(s, 24) !in {'!', '?'}
    ensures Parse(s) == Run(s, Start(23))
  {
    hide StartsWith, Parse, Run;
    PrologRun(s);
  }

  lemma ShortRefused(roots: seq<Node>)
    requires |roots| > 1 && ElementsOnly(roots) && WellFormedAll(roots)
    ensures Parse(PrintShortDocument(roots)) == Rejected(Syntax)
  {
    hide StartsWith, MarkText, MarkOk, Meaning, ShortMark, PrintShort, Normalize, WellFormed, Parse, Run, PrintShortDocument, WellFormedAll;
    var rest := TwoRoots(roots);
    var s, a, b := PrintShortDocument(roots), ShortMark(roots[0]), ShortMark(roots[1]);
    ShortMarkText(roots[0]);
    ShortMarkText(roots[1]);
    StartsWithSelf(s);
    var second := "\r\n" + MarkText(b);
    StartsWithSplit(s, 0, DECLARATION, MarkText(a) + (second + rest));
    StartsWithSplit(s, 23, MarkText(a), second + rest);
    StartsWithSplit(s, 23 + |MarkText(a)|, second, rest);
    ElementLeads(s, 23, a);
    ShortProlog(s);
    TextInside(s, 23, MarkText(a));
    var q := ElementWritten(s, Start(23), a);
    assert AllSpace("\r\n");
    SecondMark(s, q, "\r\n", b);
  }

  /** For every well-formed document the print with empty-element tags is read exactly as the print of ixml. */
  lemma ShortPrintParses(roots: seq<Node>)
    requires ElementsOnly(roots) && WellFormedAll(roots)
    ensures Parse(PrintShortDocument(roots)) == Parse(PrintDocument(roots))
    ensures |roots| <= 1 ==> Parse(PrintShortDocument(roots)) == Accepted(NormalizeAll(roots))
  {
    hide Parse, PrintDocument, Normalize, WellFormed;
    ParsePrint(roots);
    if roots == [] {
      assert PrintShortDocument([]) == PrintDocument([]) by { NothingPrinted(); }
    } else if |roots| == 1 {
      assert roots == [roots[0]];
      ShortRoot(roots[0]);
      assert NormalizeAll(roots) == [Normalize(roots[0])] + NormalizeAll([]);
    } else {
      ShortRefused(roots);
    }
  }

  lemma NothingPrinted()
    ensures PrintShortDocument([]) == PrintDocument([])
  {
  }
}
