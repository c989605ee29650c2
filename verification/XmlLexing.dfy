/**
 What the tokenizer does on printed text: escaped values and names come back byte for byte.
 */
module XmlLexing {
  import opened CText
  import opened Utf8
  import opened XmlChars
  import opened XmlLexer
  import opened XmlTree
  import opened XmlPrinter

  lemma {:induction false} EscapeConcat(a: string, b: string)
    ensures Escape(a + b) == Escape(a) + Escape(b)
  {
    if a == "" {
      assert a + b == b;
    } else {
      assert (a + b)[1..] == a[1..] + b;
      EscapeConcat(a[1..], b);
    }
  }

  predicate Plain(c: char) {
    EscapeChar(c) == [c]
  }

  lemma {:induction false} EscapePlain(v: string)
    requires forall k :: 0 <= k < |v| ==> Plain(v[k])
    ensures Escape(v) == v
  {
    if v != "" {
      EscapePlain(v[1..]);
    }
  }

  /** The bytes of one XML character: none is NUL, and only ASCII is ever escaped. */
  lemma EncodedXmlChar(c: int)
    requires IsXmlChar(c)
    ensures Encode(c) != ""
    ensures c <= 127 ==> Encode(c) == [c as char] && Escape(Encode(c)) == EscapeChar(c as char)
    ensures c > 127 ==> forall k :: 0 <= k < |Encode(c)| ==> Encode(c)[k] as int >= 128
    ensures c > 127 ==> Escape(Encode(c)) == Encode(c)
  {
    if c > 127 {
      EscapePlain(Encode(c));
    } else {
      assert Escape([c as char]) == EscapeChar(c as char) + Escape("");
    }
  }

  lemma GetEntity(s: string, i: nat, c: char)
    requires !Plain(c) && StartsWith(s, i, EscapeChar(c))
    ensures GetChar(s, i) == Decoded(c as int, |EscapeChar(c)|)
  {
    var w := EscapeChar(c);
    StartsWithAt(s, i, w, 0);
    StartsWithAt(s, i, w, 1);
    StartsWithAt(s, i, w, 2);
    NoCaseOf(s, i, w);
    if c != '"' { NotStarting(s, i, "&quot;", 1); }
    if c != '<' { NotStarting(s, i, "&lt;", 1); }
    if c != '>' { NotStarting(s, i, "&gt;", 1); }
    if c == '&' { NotStarting(s, i, "&apos;", 2); }
  }

  /** The escaped form of one code point, and of a sequence of them. */
  function EscapeCode(c: int): string {
    if 0 <= c <= 127 then EscapeChar(c as char) else Encode(c)
  }

  function EscapeCodes(cs: seq<int>): string {
    if cs == [] then "" else EscapeCode(cs[0]) + EscapeCodes(cs[1..])
  }

  lemma {:induction false} EscapeEncoded(cs: seq<int>)
    requires XmlCodes(cs)
    ensures Escape(EncodeAll(cs)) == EscapeCodes(cs)
  {
    if cs != [] {
      EncodedXmlChar(cs[0]);
      EscapeConcat(Encode(cs[0]), EncodeAll(cs[1..]));
      EscapeEncoded(cs[1..]);
    }
  }

  /** Reading one escaped character gives the character and takes exactly its text. */
  lemma GetEscaped(s: string, i: nat, c: int)
    requires IsXmlChar(c) && StartsWith(s, i, EscapeCode(c))
    ensures GetChar(s, i) == Decoded(c, |EscapeCode(c)|)
    ensures CharBytes(GetChar(s, i)) == Encode(c) && EscapeCode(c) != ""
  {
    if c > 127 {
      StartsWithAt(s, i, Encode(c), 0);
      DecodeEncode(s, i, c);
    } else if Plain(c as char) {
      StartsWithAt(s, i, [c as char], 0);
    } else {
      GetEntity(s, i, c as char);
    }
  }

  lemma CopyStep(s: string, i: nat, end: nat, d: Decoded, rest: string)
    requires i < end && GetChar(s, i) == d && d.value > 0
    requires CopyFrom(s, i + d.len, end) == Some(rest)
    ensures CopyFrom(s, i, end) == Some(CharBytes(d) + rest)
  {
    hide GetChar, CharBytes;
  }

  lemma {:induction false} CopyCodes(s: string, i: nat, cs: seq<int>)
    requires XmlCodes(cs) && StartsWith(s, i, EscapeCodes(cs))
    ensures CopyFrom(s, i, i + |EscapeCodes(cs)|) == Some(EncodeAll(cs))
    decreases cs
  {
    hide GetChar, Encode, StartsWith, EscapeCode, CharBytes;
    if cs != [] {
      var w := EscapeCode(cs[0]);
      StartsWithSplit(s, i, w, EscapeCodes(cs[1..]));
      CopyCodes(s, i + |w|, cs[1..]);
      GetEscaped(s, i, cs[0]);
      CopyStep(s, i, i + |EscapeCodes(cs)|, GetChar(s, i), EncodeAll(cs[1..]));
    }
  }

  /** Parser_copyToken undoes copy_with_escape on every sequence of XML characters. */
  lemma CopyEscaped(s: string, i: nat, v: string)
    requires IsXmlText(v) && StartsWith(s, i, Escape(v))
    ensures CopyFrom(s, i, i + |Escape(v)|) == Some(v)
  {
    hide StartsWith, CopyFrom, Escape, Encode, EncodeAll, EscapeCodes, XmlCodes;
    var cs :| v == EncodeAll(cs) && XmlCodes(cs);
    EscapeEncoded(cs);
    CopyCodes(s, i, cs);
  }

  /** No markup delimiter, no quote and no NUL. */
  predicate Clean(w: string) {
    forall k :: 0 <= k < |w| ==> w[k] != '<' && w[k] != '>' && w[k] != '"' && w[k] != '\'' && w[k] != NUL
  }

  lemma {:induction false} CodesClean(cs: seq<int>)
    requires XmlCodes(cs)
    ensures Clean(EscapeCodes(cs))
  {
    if cs != [] {
      EncodedXmlChar(cs[0]);
      assert Clean(EscapeCode(cs[0]));
      CodesClean(cs[1..]);
    }
  }

  lemma EscapedClean(v: string)
    requires IsXmlText(v)
    ensures Clean(Escape(v))
  {
    var cs :| v == EncodeAll(cs) && XmlCodes(cs);
    EscapeEncoded(cs);
    CodesClean(cs);
  }

  /** A name character is printed as it is. */
  lemma NameCharPlain(c: int)
    requires IsNameChar(c)
    ensures IsXmlChar(c) && EscapeCode(c) == Encode(c) && (c != ':' as int ==> ':' !in Encode(c))
  {
    NameCharRange(c);
    hide IsNameChar;
  }

  lemma {:induction false} NameIsXml(cs: seq<int>)
    requires forall k :: 0 <= k < |cs| ==> IsNameChar(cs[k])
    ensures XmlCodes(cs) && EscapeCodes(cs) == EncodeAll(cs)
    ensures (forall k :: 0 <= k < |cs| ==> cs[k] != ':' as int) ==> ':' !in EncodeAll(cs)
  {
    hide IsNameChar, IsXmlChar, Encode, EscapeCode;
    if cs != [] {
      NameCharPlain(cs[0]);
      NameIsXml(cs[1..]);
    }
  }

  lemma {:induction false} NameEndAt(s: string, i: nat, cs: seq<int>)
    requires forall k :: 0 <= k < |cs| ==> IsNameChar(cs[k])
    requires StartsWith(s, i, EncodeAll(cs)) && !IsNameChar(Decode(s, i + |EncodeAll(cs)|).value)
    ensures NameEnd(s, i) == i + |EncodeAll(cs)|
    decreases cs
  {
    hide IsNameChar, Encode, StartsWith;
    if cs != [] {
      var e := Encode(cs[0]);
      StartsWithSplit(s, i, e, EncodeAll(cs[1..]));
      NameCharRange(cs[0]);
      DecodeEncode(s, i, cs[0]);
      NameEndAt(s, i + |e|, cs[1..]);
    }
  }

  /** A byte that ends a name. */
  predicate EndsName(c: char) {
    IsSpace(c) || c == '=' || c == '>' || c == '/'
  }

  lemma AfterName(s: string, i: nat)
    requires EndsName(At(s, i))
    ensures !IsNameChar(Decode(s, i).value)
  {
  }

  lemma NameLength(s: string, i: nat, cs: seq<int>)
    requires NameCodes(cs) && StartsWith(s, i, EncodeAll(cs)) && EndsName(At(s, i + |EncodeAll(cs)|))
    ensures TokenLength(s, i) == |EncodeAll(cs)| && At(s, i) != '/'
  {
    hide StartsWith, Encode, IsLetter, IsNameChar, NameEnd;
    var e := Encode(cs[0]);
    assert EncodeAll(cs) == e + EncodeAll(cs[1..]);
    StartsWithSplit(s, i, e, EncodeAll(cs[1..]));
    NameCharRange(cs[0]);
    DecodeEncode(s, i, cs[0]);
    EncodeLeads(cs[0]);
    StartsWithAt(s, i, e, 0);
    assert !IsNameChar(Decode(s, i + |EncodeAll(cs)|).value) by { AfterName(s, i + |EncodeAll(cs)|); }
    NameEndAt(s, i + |e|, cs[1..]);
  }

  /** A printed name is read back as one token. */
  lemma NameToken(s: string, i: nat, save: nat, name: string)
    requires IsXmlName(name) && StartsWith(s, i, name) && EndsName(At(s, i + |name|))
    ensures TokenAt(s, i, save) == Token(name, i + |name|, save) && ':' !in name
  {
    hide StartsWith, Encode, IsLetter, IsNameChar, TokenLength, CopyFrom, Decode;
    var cs :| name == EncodeAll(cs) && NameCodes(cs);
    NameLength(s, i, cs);
    NameIsXml(cs);
    CopyCodes(s, i, cs);
    NameLeads(s, i, name);
  }

  /** The one-byte tokens. */
  lemma SymbolToken(s: string, i: nat, save: nat)
    requires At(s, i) in {'"', '\'', '=', '>'} || (At(s, i) == '<' && IsLetter(Decode(s, i + 1).value))
    ensures TokenAt(s, i, save) == Token([At(s, i)], i + 1, save)
  {
    CopyStep(s, i, i + 1, Decoded(At(s, i) as int, 1), "");
  }

  /** The end of an empty-element tag; the saved position is that of the slash. */
  lemma SlashToken(s: string, i: nat, save: nat)
    requires StartsWith(s, i, "/>")
    ensures TokenAt(s, i, save) == Token("/>", i + 2, i)
  {
    StartsWithAt(s, i, "/>", 0);
    StartsWithAt(s, i, "/>", 1);
    assert GetChar(s, i) == Decoded('/' as int, 1) && GetChar(s, i + 1) == Decoded('>' as int, 1);
    CopyStep(s, i + 1, i + 2, Decoded('>' as int, 1), "");
    assert ['>'] + "" == ">";
    CopyStep(s, i, i + 2, Decoded('/' as int, 1), ">");
  }

  lemma EndTagToken(s: string, i: nat, save: nat)
    requires StartsWith(s, i, "</")
    ensures TokenAt(s, i, save) == Token("</", i + 2, save)
  {
    StartsWithAt(s, i, "</", 0);
    StartsWithAt(s, i, "</", 1);
    assert GetChar(s, i) == Decoded('<' as int, 1) && GetChar(s, i + 1) == Decoded('/' as int, 1);
    CopyStep(s, i + 1, i + 2, Decoded('/' as int, 1), "");
    assert ['/'] + "" == "/";
    CopyStep(s, i, i + 2, Decoded('<' as int, 1), "/");
  }

  /** Nothing is skipped before a byte that is no white space and opens no comment or instruction. */
  lemma MiscStays(s: string, i: nat)
    requires !IsSpace(At(s, i)) && (At(s, i) == '<' ==> At(s, i + 1) !in {'!', '?'})
    ensures SkipMisc(s, i) == Skipped(true, i)
  {
    var k := if At(s, i) == '<' then 1 else 0;
    NotStarting(s, i, "<!--", k);
    NotStarting(s, i, "<?", k);
    NotStarting(s, i, "<?xml ", k);
    NotStarting(s, i, "<?xml?", k);
    hide StartsWith, SkipSpaces, StartsWithNoCase;
    SkipSpacesTo(s, i, i);
  }

  /** What precedes a token: white space only, and no comment or processing instruction. */
  lemma TokenAfterSpaces(s: string, cur: nat, save: nat, i: nat)
    requires cur <= i && !IsSpace(At(s, i)) && At(s, i) != NUL
    requires forall k :: cur <= k < i ==> IsSpace(At(s, k))
    requires i == cur && At(s, i) == '<' ==> At(s, i + 1) !in {'!', '?'}
    ensures GetNextToken(s, cur, save) == TokenAt(s, i, save)
  {
    SkipSpacesTo(s, cur, i);
    if cur < i {
      assert IsSpace(At(s, cur));
    }
    var k := if At(s, cur) == '<' then 1 else 0;
    NotStarting(s, cur, "<!--", k);
    NotStarting(s, cur, "<?", k);
    NotStarting(s, cur, "<?xml ", k);
    NotStarting(s, cur, "<?xml?", k);
  }
}
