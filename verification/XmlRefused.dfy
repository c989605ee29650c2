/**
 What the parser refuses: values and texts that are none, comments and instructions without an end, and declarations
 in the wrong place.
 */
module XmlRefused {
  import opened CText
  import opened XmlChars
  import opened Utf8
  import opened XmlLexer
  import opened XmlTree
  import opened XmlPrinter
  import opened XmlParser
  import opened XmlLexing
  import opened XmlSteps
  import opened XmlRoundTrip
  import opened XmlSurface
  import opened XmlMarkup

  // ---- attribute values ----

  /** The scan over octets without an ampersand. */
  lemma {:induction false} ScanPast(s: string, i: nat, j: nat, end: nat)
    requires i <= j <= end && forall k :: i <= k < j ==> At(s, k) != '&'
    ensures HasRawLess(s, i, end) <==> (exists k :: i <= k < j && At(s, k) == '<') || HasRawLess(s, j, end)
    decreases j - i
  {
    if i < j {
      ScanPast(s, i + 1, j, end);
    }
  }

  /** The scan over one written character. */
  lemma ScanChar(s: string, i: nat, w: string, end: nat)
    requires w != "" && StartsWith(s, i, w) && NoAmp(w[1..]) && i + |w| <= end
    requires w[0] == '&' ==> |w| > 1 && OpensNothing(w)
    ensures HasRawLess(s, i, end) <==> '<' in w || HasRawLess(s, i + |w|, end)
  {
    hide HasRawLess, StartsWith;
    forall k | 0 <= k < |w| ensures At(s, i + k) == w[k] { StartsWithAt(s, i, w, k); }
    forall k | i + 1 <= k < i + |w| ensures At(s, k) == w[k - i] != '&' {
      assert At(s, i + (k - i)) == w[k - i] == w[1..][k - i - 1];
    }
    assert At(s, i + 0) == w[0];
    if w[0] == '&' {
      OnAmp(s, i, end);
      ScanPast(s, i + 2, i + |w|, end);
    } else {
      ScanPast(s, i, i + |w|, end);
      if '<' in w {
        var k :| 0 <= k < |w| && w[k] == '<';
        assert At(s, i + k) == '<';
      }
    }
  }

  lemma OnAmp(s: string, i: nat, end: nat)
    requires At(s, i) == '&' && i < end
    ensures HasRawLess(s, i, end) <==> HasRawLess(s, i + 2, end)
  {
  }

  /** Over written characters the scan of Parser_processAttribute finds every "<", though it skips octets. */
  lemma {:induction false} ScanExact(s: string, i: nat, cs: seq<Ch>, end: nat)
    requires CharsOk(cs) && StartsWith(s, i, CharsText(cs)) && end == i + |CharsText(cs)|
    ensures HasRawLess(s, i, end) <==> '<' in CharsText(cs)
    decreases cs
  {
    hide StartsWith, CharText, CharOk;
    if cs != [] {
      var w, rest := CharText(cs[0]), CharsText(cs[1..]);
      StartsWithSplit(s, i, w, rest);
      CharShape(cs[0]);
      ScanChar(s, i, w, end);
      ScanExact(s, i + |w|, cs[1..], end);
    }
  }

  ghost predicate IsValue(w: string, cs: seq<Ch>) {
    CharsOk(cs) && w == CharsText(cs) && '<' !in w
  }

  /** A quoted value is taken if and only if it is written characters without "<". */
  lemma ValueIff(s: string, i: nat, end: nat)
    requires i <= end <= |s|
    ensures !HasRawLess(s, i, end) && CopyFrom(s, i, end).Some? <==> exists cs :: IsValue(s[i..end], cs)
    ensures forall cs :: IsValue(s[i..end], cs) ==> CopyFrom(s, i, end) == Some(Value(cs))
  {
    hide HasRawLess, CopyFrom, CharsText, CharsOk, Value;
    CopyIff(s, i, end);
    forall cs | CharsOk(cs) && s[i..end] == CharsText(cs)
      ensures HasRawLess(s, i, end) <==> '<' in CharsText(cs)
    {
      ScanExact(s, i, cs, end);
    }
    if CopyFrom(s, i, end).Some? && !HasRawLess(s, i, end) {
      var cs :| CharsOk(cs) && s[i..end] == CharsText(cs);
      assert IsValue(s[i..end], cs);
    }
  }

  /** After its name, "=" and a quote, the value and the closing quote decide about an attribute. */
  lemma AttributeIff(s: string, p: Parser, name: string)
    requires p.cur <= |s| && IsLetter(Decode(name, 0).value) && ':' !in name && name != "xmlns"
    ensures var eq := GetNextToken(s, p.cur, p.save);
            var quote := GetNextToken(s, eq.cur, eq.save);
            var end := Find(s, quote.cur, quote.text);
            At(eq.text, 0) == '=' && At(quote.text, 0) in {'"', '\''} ==>
              (if end.Some? && end.value <= |s| && exists cs :: IsValue(s[quote.cur..end.value], cs)
               then forall cs :: IsValue(s[quote.cur..end.value], cs) ==>
                      ProcessAttribute(s, p, name) ==
                      AfterAttribute(s, p.(cur := end.value + 1, save := quote.save), Attr(name, Value(cs)))
               else ProcessAttribute(s, p, name) == Failed(Syntax))
  {
    hide GetNextToken, Find, HasRawLess, CopyFrom, IsValue, AfterAttribute, IsLetter, Decode, Value;
    var eq := GetNextToken(s, p.cur, p.save);
    var quote := GetNextToken(s, eq.cur, eq.save);
    if At(eq.text, 0) == '=' && At(quote.text, 0) in {'"', '\''} {
      var end := Find(s, quote.cur, quote.text);
      if end.Some? {
        FoundAt(s, quote.cur, quote.text);
        ValueIff(s, quote.cur, end.value);
      }
    }
  }

  lemma FoundAt(s: string, i: nat, w: string)
    requires Find(s, i, w).Some? && w != ""
    ensures i <= Find(s, i, w).value < |s|
  {
  }

  // ---- text ----

  /** Where text ends: at the end of the buffer, at a tag, or at "]]>". */
  predicate EndsText(s: string, k: nat) {
    k >= |s| || s[k] == '<' || s[k] == NUL || StartsWith(s, k, "]]>")
  }

  lemma {:induction false} TextEndsAt(s: string, i: nat)
    requires i <= |s|
    ensures EndsText(s, ContentEnd(s, i)) && forall k :: i <= k < ContentEnd(s, i) ==> !EndsText(s, k)
    decreases |s| - i
  {
    hide StartsWith;
    if !EndsText(s, i) {
      TextEndsAt(s, i + 1);
    }
  }

  /**
   Content that begins with neither a tag nor the end of the buffer: it is a text node if and only if what stands before
   its end is written characters, and the end is not "]]>"; otherwise the buffer is refused.
   */
  lemma TextIff(s: string, p: Parser)
    requires p.cur <= |s| && p.mode == InContent && At(s, p.cur) != NUL
    requires At(s, SkipSpaces(s, p.cur)) != NUL && At(s, SkipSpaces(s, p.cur)) != '<'
    ensures var e := ContentEnd(s, p.cur);
            && EndsText(s, e) && (forall k :: p.cur <= k < e ==> !EndsText(s, k))
            && (if e > p.cur && !StartsWith(s, e, "]]>") && exists cs :: CharsOk(cs) && s[p.cur..e] == CharsText(cs)
                then forall cs :: CharsOk(cs) && s[p.cur..e] == CharsText(cs) ==>
                       GetNextNode(s, p) == Fetched(TextNode(Value(cs)), p.(save := p.cur, cur := e))
                else GetNextNode(s, p) == Failed(Syntax))
  {
    hide SkipSpaces, CharsOk, CharsText, Value, StartsWith, ContentEnd, EndsText, GetNextNode, CopyFrom;
    TextEndsAt(s, p.cur);
    CopyIff(s, p.cur, ContentEnd(s, p.cur));
    TextNodeOf(s, p);
  }

  lemma TextNodeOf(s: string, p: Parser)
    requires p.cur <= |s| && p.mode == InContent && At(s, p.cur) != NUL
    requires At(s, SkipSpaces(s, p.cur)) != NUL && At(s, SkipSpaces(s, p.cur)) != '<'
    ensures var e := ContentEnd(s, p.cur);
            var t := CopyFrom(s, p.cur, e);
            GetNextNode(s, p) == if e > p.cur && !StartsWith(s, e, "]]>") && t.Some?
                                 then Fetched(TextNode(t.value), p.(save := p.cur, cur := e))
                                 else Failed(Syntax)
  {
    hide CopyFrom, SkipSpaces, StartsWith, ContentEnd, GetNextToken, ProcessSTag, ProcessETag, ProcessAttribute;
  }

  // ---- comments, instructions and declarations ----

  /** A comment or an instruction that never ends is refused. */
  lemma UnclosedRefused(s: string, p: Parser, c: nat)
    requires p.cur <= c < |s| && p.mode == InContent && forall k :: p.cur <= k < c ==> IsSpace(At(s, k))
    requires || (StartsWith(s, c, "<!--") && forall k: nat :: c <= k ==> !StartsWith(s, k, "-->"))
             || (StartsWith(s, c, "<?") && forall k: nat :: c <= k ==> !StartsWith(s, k, "?>"))
    ensures Run(s, p) == Rejected(Syntax)
  {
    hide StartsWith, SkipSpaces;
    SkipSpacesTo(s, p.cur, c) by { LessIsNoSpace(s, c); }
    LessIsNoSpace(s, c);
    NotEnded(s, p.cur, c);
    assert Step(s, p) == Rejected(Syntax);
  }

  lemma LessIsNoSpace(s: string, c: nat)
    requires StartsWith(s, c, "<!--") || StartsWith(s, c, "<?")
    ensures At(s, c) == '<' && !IsSpace(At(s, c))
    ensures !StartsWith(s, c, "<![CDATA[") && (StartsWith(s, c, "<?") ==> !StartsWith(s, c, "<!--"))
  {
    if StartsWith(s, c, "<!--") {
      StartsWithAt(s, c, "<!--", 0);
      StartsWithAt(s, c, "<!--", 1);
      StartsWithAt(s, c, "<!--", 2);
      NotStarting(s, c, "<![CDATA[", 2);
      NotStarting(s, c, "<?", 1);
    } else {
      StartsWithAt(s, c, "<?", 0);
      StartsWithAt(s, c, "<?", 1);
      NotStarting(s, c, "<![CDATA[", 1);
      NotStarting(s, c, "<!--", 1);
    }
  }

  /** An instruction is skipped exactly if it is no declaration and does not end where it begins. */
  lemma InstrSkippedIff(s: string, i: nat, body: string)
    requires StartsWith(s, i, InstrText(body)) && NoEnd(body)
    ensures SkipPI(s, i) == Some(i + |InstrText(body)|) <==> !BadTarget(body)
  {
    hide StartsWith, StartsWithNoCase;
    InstrBytes(s, i, body);
    if !BadTarget(body) {
      InstrSkipped(s, i, body);
    } else if body != "" && body[0] == '>' {
      assert At(s, i + 2 + 0) == '>';
      EarlyEnd(s, i);
    } else {
      DeclTest(s, i, body, "xml ");
      DeclTest(s, i, body, "xml?");
      assert "<?" + "xml " == "<?xml " && "<?" + "xml?" == "<?xml?";
    }
  }

  lemma EarlyEnd(s: string, i: nat)
    requires At(s, i + 1) == '?' && At(s, i + 2) == '>'
    ensures Find(s, i, "?>").Some? && Find(s, i, "?>").value <= i + 1
  {
    assert s[i + 1..i + 3] == "?>";
    assert StartsWith(s, i + 1, "?>");
  }

  /** A declaration after the start of the document is refused, before the root and in content. */
  lemma DeclRefused(s: string, p: Parser, c: nat)
    requires p.cur <= c < |s| && IsXmlDecl(s, c) && forall k :: p.cur <= k < c ==> IsSpace(At(s, k))
    ensures !SkipMisc(s, c).ok
    ensures p.mode == InContent ==> Run(s, p) == Rejected(Syntax)
  {
    DeclLeads(s, c);
    hide StartsWith, SkipSpaces, IsXmlDecl, Find;
    LessIsNoSpace(s, c);
    if p.mode == InContent {
      SkipSpacesTo(s, p.cur, c);
      NotEnded(s, p.cur, c);
      assert Step(s, p) == Rejected(Syntax);
    }
  }

  lemma DeclLeads(s: string, c: nat)
    requires IsXmlDecl(s, c)
    ensures StartsWith(s, c, "<?")
  {
    var w := if StartsWithNoCase(s, c, "<?xml ") then "<?xml " else "<?xml?";
    NoCaseAt(s, c, w, 0);
    NoCaseAt(s, c, w, 1);
    assert s[c..c + 2] == "<?";
  }

  // ---- tags ----

  /** A token is ">" only if that octet stands there. */
  lemma BracketToken(s: string, p: nat, save: nat)
    requires TokenAt(s, p, save).text == ">"
    ensures At(s, p) == '>' && TokenAt(s, p, save).cur == p + 1
  {
    OtherToken(s, p, save);
    hide IsLetter, NameEnd, CopyFrom, GetChar, CharBytes;
  }

  lemma OtherToken(s: string, p: nat, save: nat)
    ensures At(s, p) != '>' && TokenAt(s, p, save).text != "" ==> TokenAt(s, p, save).text[0] != '>'
  {
    hide IsLetter, NameEnd, CopyFrom, GetChar, CharBytes;
    var c, n := At(s, p), TokenLength(s, p);
    if c != '>' && CopyToken(s, p, p + n).Some? {
      FirstCopied(s, p, p + n);
      if c != '"' && c != '\'' && c != '=' && c != '<' && c != '/' {
        LetterCopied(s, p);
      }
    }
  }

  /** The first octet that is copied. */
  lemma FirstCopied(s: string, i: nat, end: nat)
    requires CopyToken(s, i, end).Some?
    ensures GetChar(s, i).value > 0 && CharBytes(GetChar(s, i)) <= CopyToken(s, i, end).value
    ensures CharBytes(GetChar(s, i)) != "" && (0 < At(s, i) as int < 128 && At(s, i) != '&' ==> CharBytes(GetChar(s, i)) == [At(s, i)])
  {
    var d := GetChar(s, i);
    EncodedXmlChar(d.value);
    hide NumericEntity, StartsWithNoCase;
  }

  lemma LetterCopied(s: string, i: nat)
    requires IsLetter(Decode(s, i).value)
    ensures GetChar(s, i).value == Decode(s, i).value && CharBytes(GetChar(s, i))[0] != '>'
  {
    var c := Decode(s, i).value;
    assert IsNameChar(c);
    NameCharRange(c);
    EncodedXmlChar(c);
    hide IsLetter, IsNameChar, NumericEntity, StartsWithNoCase;
  }

  /** Every end tag that is fetched ends with ">". */
  lemma EndTagEnds(s: string, p: Parser)
    requires p.cur <= |s| && ProcessETag(s, p).Fetched?
    ensures At(s, ProcessETag(s, p).parser.cur - 1) == '>'
  {
    hide TokenAt, SkipMisc, SkipSpaces;
    var name := GetNextToken(s, p.cur, p.save);
    var c := SkipSpaces(s, name.cur);
    BracketToken(s, SkipMisc(s, c).pos, name.save);
  }

  /** Another tag right after an attribute is refused. */
  lemma TagInTag(s: string, p: Parser, a: Attr, w: string, name: string)
    requires p.cur <= |s| && AllSpace(w) && StartsWith(s, p.cur, w) && IsXmlName(name) && StartsWith(s, p.cur + |w|, "<" + name)
    ensures AfterAttribute(s, p, a) == Failed(Syntax)
  {
    hide StartsWith, IsXmlName, AllSpace, GetNextToken, TokenAt, IsLetter, Decode;
    var c := p.cur + |w|;
    StartsWithSplit(s, c, "<", name);
    StartsWithAt(s, c, "<", 0);
    NameLeads(s, c + 1, name);
    SpacesAt(s, p.cur, w);
    TokenAfterSpaces(s, p.cur, p.cur, c);
    SymbolToken(s, c, p.cur);
  }

  /** A ">" where a tag should come is passed over. */
  lemma StrayBracket(s: string, p: Parser)
    requires p.cur <= |s| && p.mode != InContent && At(s, p.cur) == '>'
    ensures p.cur < |s| && Step(s, p) == Next(p.(cur := p.cur + 1))
  {
    hide GetNextToken, TokenAt, SkipSpaces, ProcessSTag, ProcessETag, ProcessAttribute, ProcessContent;
    SkipSpacesTo(s, p.cur, p.cur);
    TokenAfterSpaces(s, p.cur, p.save, p.cur);
    SymbolToken(s, p.cur, p.save);
  }

  /** White space up to the end of the buffer: accepted exactly if no element is open. */
  lemma EndOutsideContent(s: string, p: Parser)
    requires p.cur <= |s| && p.mode != InContent && forall k :: p.cur <= k < |s| ==> IsSpace(At(s, k))
    ensures Run(s, p) == if p.stack == [] then Accepted(p.tree.roots) else Rejected(Syntax)
  {
    hide SkipSpaces, ProcessSTag, ProcessETag, ProcessAttribute, ProcessContent, TokenAt;
    if p.cur < |s| {
      assert IsSpace(At(s, p.cur));
      SkipSpacesTo(s, p.cur, |s|);
      if p.stack == [] {
        var q := p.(cur := |s|);
        assert Step(s, p) == Next(q);
        RunStep(s, p, q);
        assert Run(s, q) == Accepted(p.tree.roots);
      } else {
        assert Step(s, p) == Rejected(Syntax);
      }
    }
  }

  /** The empty buffer is refused, though a document without a root is accepted. */
  lemma EmptyRefused()
    ensures Parse("") == Rejected(Syntax) && Parse(DECLARATION) == Accepted([])
  {
    hide Run, SkipMisc, SkipProlog;
    assert PrintDocument([]) == DECLARATION + PrintAll([]) == DECLARATION;
    ParsePrint([]);
  }

  // ---- a legal comment that is refused ----

  /** The empty comment, wherever it stands in content. */
  lemma EmptyCommentRefused(s: string, p: Parser)
    requires p.cur <= |s| && p.mode == InContent && StartsWith(s, p.cur, "<!---->")
    ensures LegalComment("") && Run(s, p) == Rejected(Syntax)
  {
    hide StartsWith, SkipSpaces;
    assert CommentText("") == "<!---->";
    CommentBytes(s, p.cur, "");
    LessIsNoSpace(s, p.cur);
    SkipSpacesTo(s, p.cur, p.cur);
    NoEndEarly(s, p.cur);
    assert Step(s, p) == Rejected(Syntax);
  }

  lemma NoEndEarly(s: string, i: nat)
    requires StartsWith(s, i, CommentText(""))
    ensures SkipComment(s, i) == None
  {
    hide StartsWith;
    CommentBytes(s, i, "");
    Dashes(s, i);
    Dashes(s, i + 1);
    Dashes(s, i + 2);
    Dashes(s, i + 3);
    var f := Find(s, i, "-->");
    assert f.Some? && f.value <= i + 4;
    assert f.value == i + 4;
  }
}
