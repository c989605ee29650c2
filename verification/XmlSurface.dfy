/**
 Documents as people write them: entities and character references, either quote, white space in tags, empty-element
 tags, comments and processing instructions; and the tree that each of them means.
 */
module XmlSurface {
  import opened CText
  import opened Utf8
  import opened XmlChars
  import opened XmlLexer
  import opened XmlTree
  import opened XmlPrinter
  import opened XmlLexing

  // ---- characters ----

  /**
   The ways to write one character: its octets, of which UTF-8 may have more than needed; an entity, whose name counts up
   to case; a decimal or hexadecimal reference, with any digits of that value.
   */
  datatype Ch =
    | Raw(code: int, text: string)
    | Named(code: int, text: string)
    | Dec(code: int, digits: string)
    | Hex(code: int, digits: string, x: char)

  /** The value of a run of digits read from the left. */
  function Fold(w: string, base: nat, sum: nat): nat {
    if w == "" || Digit(w[0], base).None? then sum else Fold(w[1..], base, sum * base + Digit(w[0], base).value)
  }

  predicate AllDigits(w: string, base: nat) {
    forall k :: 0 <= k < |w| ==> Digit(w[k], base).Some?
  }

  predicate CharOk(c: Ch) {
    && IsXmlChar(c.code)
    && match c
       case Raw(code, text) => text != "" && text[0] != '&' && Decode(text, 0) == Decoded(code, |text|)
       case Named(code, text) =>
         && code <= 127 && !Plain(code as char) && |text| == |EscapeChar(code as char)|
         && forall k :: 0 <= k < |text| ==> Lower(text[k]) == EscapeChar(code as char)[k]
       case Dec(code, digits) => AllDigits(digits, 10) && Fold(digits, 10, 0) == code
       case Hex(code, digits, x) => AllDigits(digits, 16) && Fold(digits, 16, 0) == code && (x == 'x' || x == 'X')
  }

  function CharText(c: Ch): string {
    match c
    case Raw(_, text) => text
    case Named(_, text) => text
    case Dec(_, digits) => "&#" + (digits + ";")
    case Hex(_, digits, x) => "&#" + [x] + (digits + ";")
  }

  predicate CharsOk(cs: seq<Ch>) {
    forall k :: 0 <= k < |cs| ==> CharOk(cs[k])
  }

  function CharsText(cs: seq<Ch>): string {
    if cs == [] then "" else CharText(cs[0]) + CharsText(cs[1..])
  }

  function Codes(cs: seq<Ch>): (r: seq<int>)
    ensures |r| == |cs| && forall k :: 0 <= k < |cs| ==> r[k] == cs[k].code
  {
    seq(|cs|, k requires 0 <= k < |cs| => cs[k].code)
  }

  /** What they spell, in UTF-8. */
  function Value(cs: seq<Ch>): string {
    EncodeAll(Codes(cs))
  }

  // ---- numerals ----

  function DigitChar(d: nat, upper: bool): char
    requires d < 16
  {
    if d < 10 then (d + '0' as int) as char
    else if upper then (d - 10 + 'A' as int) as char
    else (d - 10 + 'a' as int) as char
  }

  function Numeral(n: nat, base: nat, upper: bool): string
    requires 2 <= base <= 16
  {
    if n < base then [DigitChar(n, upper)] else Numeral(n / base, base, upper) + [DigitChar(n % base, upper)]
  }

  lemma {:induction false} FoldAdd(a: string, b: string, base: nat, sum: nat)
    requires AllDigits(a, base)
    ensures Fold(a + b, base, sum) == Fold(b, base, Fold(a, base, sum))
    decreases |a|
  {
    hide Digit;
    if a == "" {
      assert a + b == b;
    } else {
      assert (a + b)[1..] == a[1..] + b;
      FoldAdd(a[1..], b, base, sum * base + Digit(a[0], base).value);
    }
  }

  lemma DigitValue(d: nat, base: nat, upper: bool)
    requires (base == 10 || base == 16) && d < base
    ensures Digit(DigitChar(d, upper), base) == Some(d)
  {
  }

  lemma OneDigit(d: char, base: nat, sum: nat)
    requires Digit(d, base).Some?
    ensures Fold([d], base, sum) == sum * base + Digit(d, base).value
  {
    hide Digit;
    assert [d][1..] == "";
  }

  lemma {:induction false} NumeralValue(n: nat, base: nat, upper: bool)
    requires base == 10 || base == 16
    ensures AllDigits(Numeral(n, base, upper), base) && Fold(Numeral(n, base, upper), base, 0) == n
  {
    hide Digit, DigitChar;
    if n < base {
      DigitValue(n, base, upper);
      OneDigit(DigitChar(n, upper), base, 0);
    } else {
      var w, d := Numeral(n / base, base, upper), DigitChar(n % base, upper);
      DigitValue(n % base, base, upper);
      NumeralValue(n / base, base, upper);
      FoldAdd(w, [d], base, 0);
      OneDigit(d, base, n / base);
    }
  }

  /** The decimal and the hexadecimal numeral of every XML character are references to it. */
  lemma NumeralsRefer(c: int, upper: bool, x: char)
    requires IsXmlChar(c) && (x == 'x' || x == 'X')
    ensures CharOk(Dec(c, Numeral(c, 10, false))) && CharOk(Hex(c, Numeral(c, 16, upper), x))
  {
    NumeralValue(c, 10, false);
    NumeralValue(c, 16, upper);
  }

  /** The run of digits at `i` is what the loop of Parser_getChar reads. */
  lemma {:induction false} DigitsFold(s: string, i: nat, w: string, base: nat, sum: nat)
    requires StartsWith(s, i, w + ";") && AllDigits(w, base)
    ensures Digits(s, i, base, sum) == (Fold(w, base, sum), i + |w|)
    decreases |w|
  {
    hide StartsWith, Digit;
    StartsWithAt(s, i, w + ";", 0);
    if w == "" {
      NoDigit(base);
    } else {
      assert w + ";" == [w[0]] + (w[1..] + ";");
      StartsWithSplit(s, i, [w[0]], w[1..] + ";");
      InsideText(s, i, [w[0]]);
      DigitsFold(s, i + 1, w[1..], base, sum * base + Digit(w[0], base).value);
    }
  }

  lemma NoDigit(base: nat)
    ensures Digit(';', base).None?
  {
  }

  lemma InsideText(s: string, i: nat, w: string)
    requires StartsWith(s, i, w) && w != ""
    ensures i < |s| && i + |w| <= |s|
  {
  }

  /** And conversely. */
  lemma {:induction false} DigitsRead(s: string, i: nat, base: nat, sum: nat) returns (w: string)
    requires i <= |s|
    ensures Digits(s, i, base, sum) == (Fold(w, base, sum), i + |w|) && AllDigits(w, base)
    ensures i + |w| <= |s| && s[i..i + |w|] == w
    decreases |s| - i
  {
    hide Digit;
    if i >= |s| || Digit(At(s, i), base).None? {
      w := "";
    } else {
      var rest := DigitsRead(s, i + 1, base, sum * base + Digit(s[i], base).value);
      w := [s[i]] + rest;
      assert s[i..i + |w|] == [s[i]] + s[i + 1..i + |w|];
    }
  }

  // ---- reading one character ----

  lemma NotNamed(s: string, i: nat)
    requires At(s, i + 1) == '#'
    ensures !StartsWithNoCase(s, i, "&quot;") && !StartsWithNoCase(s, i, "&lt;") && !StartsWithNoCase(s, i, "&gt;")
    ensures !StartsWithNoCase(s, i, "&apos;") && !StartsWithNoCase(s, i, "&amp;")
  {
    NotStarting(s, i, "&quot;", 1);
    NotStarting(s, i, "&lt;", 1);
    NotStarting(s, i, "&gt;", 1);
    NotStarting(s, i, "&apos;", 1);
    NotStarting(s, i, "&amp;", 1);
  }

  lemma GetDec(s: string, i: nat, c: Ch)
    requires c.Dec? && CharOk(c) && StartsWith(s, i, CharText(c))
    ensures GetChar(s, i) == Decoded(c.code, |CharText(c)|)
  {
    hide StartsWith, StartsWithNoCase, Digits, Digit, Fold;
    var w := c.digits;
    StartsWithSplit(s, i, "&#", w + ";");
    StartsWithAt(s, i, "&#", 0);
    StartsWithAt(s, i, "&#", 1);
    NoCaseOf(s, i, "&#");
    NotNamed(s, i);
    DigitsFold(s, i + 2, w, 10, 0);
    StartsWithSplit(s, i + 2, w, ";");
    StartsWithAt(s, i + 2 + |w|, ";", 0);
    InsideText(s, i + 2 + |w|, ";");
    StartsWithAt(s, i + 2, w + ";", 0);
    NotHex(s, i, (w + ";")[0]);
  }

  lemma NotHex(s: string, i: nat, d: char)
    requires At(s, i + 2) == d && (Digit(d, 10).Some? || d == ';')
    ensures !StartsWithNoCase(s, i, "&#x")
  {
    NotStarting(s, i, "&#x", 2);
  }

  lemma GetHex(s: string, i: nat, c: Ch)
    requires c.Hex? && CharOk(c) && StartsWith(s, i, CharText(c))
    ensures GetChar(s, i) == Decoded(c.code, |CharText(c)|)
  {
    hide StartsWith, StartsWithNoCase, Digits, Digit, Fold;
    var w, lead := c.digits, "&#" + [c.x];
    StartsWithSplit(s, i, lead, w + ";");
    StartsWithAt(s, i, lead, 0);
    StartsWithAt(s, i, lead, 1);
    StartsWithAt(s, i, lead, 2);
    InsideText(s, i, lead);
    HexLead(s, i, c.x);
    NotNamed(s, i);
    DigitsFold(s, i + 3, w, 16, 0);
    StartsWithSplit(s, i + 3, w, ";");
    StartsWithAt(s, i + 3 + |w|, ";", 0);
    InsideText(s, i + 3 + |w|, ";");
  }

  lemma HexLead(s: string, i: nat, x: char)
    requires i + 3 <= |s| && At(s, i) == '&' && At(s, i + 1) == '#' && At(s, i + 2) == x && (x == 'x' || x == 'X')
    ensures StartsWithNoCase(s, i, "&#x")
  {
    assert s[i + 0] == '&';
  }

  /** The names of the entities are told apart by their first two letters. */
  lemma OnlyEntity(s: string, i: nat, c: char)
    requires !Plain(c) && StartsWithNoCase(s, i, EscapeChar(c))
    ensures At(s, i) == '&' && (c != '"' ==> !StartsWithNoCase(s, i, "&quot;")) && (c != '<' ==> !StartsWithNoCase(s, i, "&lt;"))
    ensures (c != '>' ==> !StartsWithNoCase(s, i, "&gt;")) && (c == '&' ==> !StartsWithNoCase(s, i, "&apos;"))
  {
    var e := EscapeChar(c);
    NoCaseAt(s, i, e, 0);
    NoCaseAt(s, i, e, 1);
    NoCaseAt(s, i, e, 2);
    hide StartsWithNoCase;
    NotStarting(s, i, "&quot;", 1);
    NotStarting(s, i, "&lt;", 1);
    NotStarting(s, i, "&gt;", 1);
    NotStarting(s, i, "&apos;", 2);
  }

  /** The name of an entity in any case. */
  lemma GetNamed(s: string, i: nat, c: Ch)
    requires c.Named? && CharOk(c) && StartsWith(s, i, CharText(c))
    ensures GetChar(s, i) == Decoded(c.code, |CharText(c)|)
  {
    hide StartsWith, StartsWithNoCase, NumericEntity, Decode;
    var ch := c.code as char;
    LowerEntity(ch);
    AnyCase(s, i, c.text, EscapeChar(ch));
    OnlyEntity(s, i, ch);
  }

  lemma LowerEntity(c: char)
    requires !Plain(c)
    ensures forall k :: 0 <= k < |EscapeChar(c)| ==> Lower(EscapeChar(c)[k]) == EscapeChar(c)[k]
  {
  }

  lemma AnyCase(s: string, i: nat, w: string, e: string)
    requires StartsWith(s, i, w) && |w| == |e| && forall k :: 0 <= k < |w| ==> Lower(w[k]) == e[k] == Lower(e[k])
    ensures StartsWithNoCase(s, i, e)
  {
    forall k | 0 <= k < |e| ensures Lower(s[i + k]) == Lower(e[k]) {
      StartsWithAt(s, i, w, k);
    }
  }

  /** Decoding looks at no more octets than it takes. */
  lemma DecodeLocal(s: string, i: nat, w: string, j: nat)
    requires StartsWith(s, i, w) && j == 0 && Decode(w, j).len == |w| > 0
    ensures Decode(s, i) == Decode(w, j)
  {
    forall k | 0 <= k < |w| ensures At(s, i + k) == At(w, k) { StartsWithAt(s, i, w, k); }
    hide StartsWith;
  }

  lemma DecodeTaken(s: string, i: nat)
    requires Decode(s, i).value > 0
    ensures var w := s[i..i + Decode(s, i).len]; Decode(w, 0) == Decode(s, i) && w != "" && w[0] == At(s, i)
  {
  }

  lemma GetRaw(s: string, i: nat, c: Ch)
    requires c.Raw? && CharOk(c) && StartsWith(s, i, CharText(c))
    ensures GetChar(s, i) == Decoded(c.code, |CharText(c)|)
  {
    DecodeLocal(s, i, c.text, 0);
    StartsWithAt(s, i, c.text, 0);
    hide StartsWith, StartsWithNoCase, NumericEntity;
  }

  /** However a character is written, the parser reads it and takes exactly its text. */
  lemma GetWritten(s: string, i: nat, c: Ch)
    requires CharOk(c) && StartsWith(s, i, CharText(c))
    ensures GetChar(s, i) == Decoded(c.code, |CharText(c)|) && CharText(c) != ""
    ensures CharBytes(GetChar(s, i)) == Encode(c.code)
  {
    hide StartsWith, GetChar, Fold, AllDigits;
    EncodedXmlChar(c.code);
    match c
    case Raw(_, _) => GetRaw(s, i, c); ShortRaw(c);
    case Named(_, _) => GetNamed(s, i, c);
    case Dec(_, _) => GetDec(s, i, c);
    case Hex(_, _, _) => GetHex(s, i, c);
  }

  lemma ShortRaw(c: Ch)
    requires c.Raw? && CharOk(c)
    ensures |c.text| == 1 ==> c.code <= 127
  {
  }

  /** And what the parser reads as a character is one of these texts. */
  lemma ReadsWritten(s: string, i: nat) returns (c: Ch)
    requires GetChar(s, i).value > 0
    ensures CharOk(c) && StartsWith(s, i, CharText(c)) && GetChar(s, i) == Decoded(c.code, |CharText(c)|)
  {
    hide StartsWith, StartsWithNoCase, NumericEntity, Decode;
    if At(s, i) != '&' {
      c := ReadsRaw(s, i);
    } else if StartsWithNoCase(s, i, "&quot;") {
      c := ReadsNamed(s, i, '"');
    } else if StartsWithNoCase(s, i, "&lt;") {
      c := ReadsNamed(s, i, '<');
    } else if StartsWithNoCase(s, i, "&gt;") {
      c := ReadsNamed(s, i, '>');
    } else if StartsWithNoCase(s, i, "&apos;") {
      c := ReadsNamed(s, i, '\'');
    } else if StartsWithNoCase(s, i, "&amp;") {
      c := ReadsNamed(s, i, '&');
    } else if StartsWithNoCase(s, i, "&#x") {
      NoCaseLead(s, i, "&#x");
      c := ReadsHex(s, i);
    } else {
      NoCaseLead(s, i, "&#");
      c := ReadsDec(s, i);
    }
  }

  lemma ReadsRaw(s: string, i: nat) returns (c: Ch)
    requires At(s, i) != '&' && GetChar(s, i).value > 0
    ensures CharOk(c) && StartsWith(s, i, CharText(c)) && GetChar(s, i) == Decoded(c.code, |CharText(c)|)
  {
    assert GetChar(s, i) == Decode(s, i) by { hide StartsWithNoCase, NumericEntity; }
    DecodeTaken(s, i);
    c := Raw(Decode(s, i).value, s[i..i + Decode(s, i).len]);
    hide Decode;
  }

  lemma ReadsNamed(s: string, i: nat, ch: char) returns (c: Ch)
    requires !Plain(ch) && ch as int <= 127 && StartsWithNoCase(s, i, EscapeChar(ch))
    ensures CharOk(c) && StartsWith(s, i, CharText(c)) && c.code == ch as int && |CharText(c)| == |EscapeChar(ch)|
  {
    var e := EscapeChar(ch);
    var w := s[i..i + |e|];
    forall k | 0 <= k < |w| ensures Lower(w[k]) == e[k] { NoCaseAt(s, i, e, k); }
    c := Named(ch as int, w);
  }

  lemma NoCaseLead(s: string, i: nat, w: string)
    requires StartsWithNoCase(s, i, w) && |w| > 1 && w[0] == '&' && w[1] == '#' && (|w| == 3 ==> w[2] == 'x')
    ensures i + |w| <= |s| && At(s, i) == '&' && At(s, i + 1) == '#' && (|w| == 3 ==> At(s, i + 2) == 'x' || At(s, i + 2) == 'X')
  {
    NoCaseAt(s, i, w, 0);
    NoCaseAt(s, i, w, 1);
    if |w| == 3 {
      NoCaseAt(s, i, w, 2);
    }
  }

  lemma ReadsHex(s: string, i: nat) returns (c: Ch)
    requires i + 3 <= |s| && At(s, i) == '&' && At(s, i + 1) == '#' && (At(s, i + 2) == 'x' || At(s, i + 2) == 'X')
    requires NumericEntity(s, i, i + 3, 16).value > 0
    ensures CharOk(c) && StartsWith(s, i, CharText(c)) && NumericEntity(s, i, i + 3, 16) == Decoded(c.code, |CharText(c)|)
  {
    hide Digit, Fold, Digits;
    var w := DigitsRead(s, i + 3, 16, 0);
    c := Hex(Fold(w, 16, 0), w, s[i + 2]);
    assert s[i..i + |w| + 4] == s[i..i + 3] + (s[i + 3..i + 3 + |w|] + [s[i + 3 + |w|]]);
  }

  lemma ReadsDec(s: string, i: nat) returns (c: Ch)
    requires i + 2 <= |s| && At(s, i) == '&' && At(s, i + 1) == '#' && NumericEntity(s, i, i + 2, 10).value > 0
    ensures CharOk(c) && StartsWith(s, i, CharText(c)) && NumericEntity(s, i, i + 2, 10) == Decoded(c.code, |CharText(c)|)
  {
    hide Digit, Fold, Digits;
    var w := DigitsRead(s, i + 2, 10, 0);
    c := Dec(Fold(w, 10, 0), w);
    assert s[i..i + |w| + 3] == s[i..i + 2] + (s[i + 2..i + 2 + |w|] + [s[i + 2 + |w|]]);
  }

  // ---- reading a text ----

  /** Copying gives what the characters spell. */
  lemma {:induction false} CopyWritten(s: string, i: nat, cs: seq<Ch>)
    requires CharsOk(cs) && StartsWith(s, i, CharsText(cs))
    ensures CopyFrom(s, i, i + |CharsText(cs)|) == Some(Value(cs))
    decreases cs
  {
    hide GetChar, Encode, StartsWith, CharText, CharBytes, CharOk;
    if cs == [] {
      assert Codes(cs) == [];
    } else {
      var w := CharText(cs[0]);
      StartsWithSplit(s, i, w, CharsText(cs[1..]));
      CopyWritten(s, i + |w|, cs[1..]);
      GetWritten(s, i, cs[0]);
      XmlValue(cs[0]);
      CopyStep(s, i, i + |CharsText(cs)|, GetChar(s, i), Value(cs[1..]));
      assert Codes(cs)[1..] == Codes(cs[1..]);
    }
  }

  lemma XmlValue(c: Ch)
    requires CharOk(c)
    ensures c.code > 0
  {
  }

  lemma {:induction false} CopyReads(s: string, i: nat, end: nat) returns (cs: seq<Ch>)
    requires i <= end && CopyFrom(s, i, end).Some? && i <= |s|
    ensures CharsOk(cs) && StartsWith(s, i, CharsText(cs)) && i + |CharsText(cs)| == end
    decreases end - i
  {
    hide GetChar, Encode, StartsWith, CharText, CharBytes, CharOk;
    cs := [];
    if i == end {
      EmptyStarts(s, i);
    } else {
      var c := ReadsWritten(s, i);
      TextEnds(s, i, CharText(c));
      CopyInside(s, i, end);
      var rest := CopyReads(s, i + |CharText(c)|, end);
      cs := [c] + rest;
      assert cs[1..] == rest;
      StartsWithSplit(s, i, CharText(c), CharsText(rest));
    }
  }

  lemma EmptyStarts(s: string, i: nat)
    requires i <= |s|
    ensures StartsWith(s, i, "")
  {
  }

  lemma TextEnds(s: string, i: nat, w: string)
    requires StartsWith(s, i, w)
    ensures i + |w| <= |s|
  {
  }

  lemma CopyInside(s: string, i: nat, end: nat)
    requires i < end && CopyFrom(s, i, end).Some?
    ensures GetChar(s, i).value > 0 && i + GetChar(s, i).len <= end && CopyFrom(s, i + GetChar(s, i).len, end).Some?
  {
    hide GetChar, CharBytes;
  }

  /** A stretch of the buffer is copied if and only if it is a text of these characters. */
  lemma CopyIff(s: string, i: nat, end: nat)
    requires i <= end <= |s|
    ensures CopyFrom(s, i, end).Some? <==> exists cs :: CharsOk(cs) && s[i..end] == CharsText(cs)
    ensures forall cs :: CharsOk(cs) && s[i..end] == CharsText(cs) ==> CopyFrom(s, i, end) == Some(Value(cs))
  {
    hide CopyFrom, CharsOk, CharsText, Value;
    forall cs | CharsOk(cs) && s[i..end] == CharsText(cs)
      ensures CopyFrom(s, i, end) == Some(Value(cs))
    {
      CopyWritten(s, i, cs);
    }
    if CopyFrom(s, i, end).Some? {
      var cs := CopyReads(s, i, end);
    }
  }

  /** No written character ends the buffer, and each begins a reference or holds no ampersand. */
  predicate NoNul(w: string) {
    forall k :: 0 <= k < |w| ==> w[k] != NUL
  }

  predicate OpensNothing(w: string) {
    forall k :: 0 <= k < |w| ==> w[k] != '<' && w[k] != NUL
  }

  predicate NoAmp(w: string) {
    forall k :: 0 <= k < |w| ==> w[k] != '&'
  }

  lemma NamedShape(c: char, text: string)
    requires |text| == |EscapeChar(c)| && !Plain(c) && forall k :: 0 <= k < |text| ==> Lower(text[k]) == EscapeChar(c)[k]
    ensures OpensNothing(text) && |text| > 1 && NoAmp(text[1..])
  {
    forall k | 0 <= k < |text| ensures text[k] != '<' && text[k] != NUL && (k > 0 ==> text[k] != '&') {
      assert Lower(text[k]) == EscapeChar(c)[k];
    }
  }

  lemma DigitsShape(w: string, base: nat)
    requires AllDigits(w, base)
    ensures OpensNothing(w) && NoAmp(w)
  {
    forall k | 0 <= k < |w| ensures w[k] != '<' && w[k] != NUL && w[k] != '&' {
      assert Digit(w[k], base).Some?;
    }
  }

  lemma RawShape(c: Ch)
    requires c.Raw? && CharOk(c)
    ensures NoNul(c.text) && NoAmp(c.text) && (|c.text| > 1 ==> OpensNothing(c.text))
  {
  }

  /** The octets of a written character. */
  lemma CharShape(c: Ch)
    requires CharOk(c)
    ensures CharText(c) != "" && NoNul(CharText(c)) && NoAmp(CharText(c)[1..])
    ensures CharText(c) == "<" || OpensNothing(CharText(c))
    ensures CharText(c)[0] == '&' ==> |CharText(c)| > 1 && OpensNothing(CharText(c))
  {
    hide Fold, AllDigits, Decode;
    match c
    case Raw(_, text) =>
      RawShape(c);
      assert |text| == 1 ==> text == [text[0]];
    case Named(code, text) => NamedShape(code as char, text);
    case Dec(_, digits) => DigitsShape(digits, 10);
    case Hex(_, digits, x) => DigitsShape(digits, 16);
  }

  lemma {:induction false} CharsNoNul(cs: seq<Ch>)
    requires CharsOk(cs)
    ensures NoNul(CharsText(cs))
  {
    hide CharText, CharOk;
    if cs != [] {
      CharShape(cs[0]);
      CharsNoNul(cs[1..]);
    }
  }

  // ---- comments and processing instructions ----

  function CommentText(body: string): string {
    "<!--" + body + "-->"
  }

  /** What XML admits between the delimiters of a comment. */
  predicate LegalComment(body: string) {
    && (forall k :: 0 <= k < |body| - 1 ==> !(body[k] == '-' && body[k + 1] == '-'))
    && (body != "" ==> body[|body| - 1] != '-')
  }

  /** The comments that Parser_skipComment gets wrong: its search for the end begins at the start of the comment. */
  predicate Misread(body: string) {
    body == "" || body[0] == '>' || (|body| > 1 && body[0] == '-' && body[1] == '>')
  }

  lemma CommentBytes(s: string, i: nat, body: string)
    requires StartsWith(s, i, CommentText(body))
    ensures At(s, i) == '<' && At(s, i + 1) == '!' && At(s, i + 2) == '-' && At(s, i + 3) == '-'
    ensures forall k :: 0 <= k < |body| ==> At(s, i + 4 + k) == body[k]
    ensures var e := i + 4 + |body|; StartsWith(s, e, "-->") && At(s, e) == '-' && At(s, e + 1) == '-' && At(s, e + 2) == '>'
    ensures StartsWith(s, i, "<!--")
  {
    hide StartsWith;
    StartsWithSplit(s, i, "<!--" + body, "-->");
    StartsWithSplit(s, i, "<!--", body);
    StartsWithAt(s, i, "<!--", 0);
    StartsWithAt(s, i, "<!--", 1);
    StartsWithAt(s, i, "<!--", 2);
    StartsWithAt(s, i, "<!--", 3);
    forall k | 0 <= k < |body| ensures At(s, i + 4 + k) == body[k] { StartsWithAt(s, i + 4, body, k); }
    StartsWithAt(s, i + 4 + |body|, "-->", 0);
    StartsWithAt(s, i + 4 + |body|, "-->", 1);
    StartsWithAt(s, i + 4 + |body|, "-->", 2);
  }

  lemma Dashes(s: string, k: nat)
    ensures StartsWith(s, k, "-->") <==> At(s, k) == '-' && At(s, k + 1) == '-' && At(s, k + 2) == '>'
  {
    if StartsWith(s, k, "-->") {
      StartsWithAt(s, k, "-->", 0);
      StartsWithAt(s, k, "-->", 1);
      StartsWithAt(s, k, "-->", 2);
    }
    if At(s, k) == '-' && At(s, k + 1) == '-' && At(s, k + 2) == '>' {
      assert s[k..k + 3] == "-->";
    }
  }

  lemma NoEndInside(s: string, i: nat, body: string)
    requires StartsWith(s, i, CommentText(body)) && LegalComment(body)
    ensures forall k: nat :: i + 4 <= k < i + 4 + |body| ==> !StartsWith(s, k, "-->")
  {
    hide StartsWith;
    CommentBytes(s, i, body);
    forall k: nat | i + 4 <= k < i + 4 + |body|
      ensures !StartsWith(s, k, "-->")
    {
      Dashes(s, k);
      var j := k - i - 4;
      assert At(s, i + 4 + j) == body[j];
      if j < |body| - 1 {
        assert At(s, i + 4 + (j + 1)) == body[j + 1];
      }
    }
  }

  /** A legal comment is skipped exactly if it is none of these. */
  lemma CommentSkippedIff(s: string, i: nat, body: string)
    requires StartsWith(s, i, CommentText(body)) && LegalComment(body)
    ensures SkipComment(s, i) == Some(i + |CommentText(body)|) <==> !Misread(body)
  {
    hide StartsWith;
    CommentBytes(s, i, body);
    var e, f := i + 4 + |body|, Find(s, i, "-->");
    assert f.Some? && f.value <= e;
    Dashes(s, f.value);
    Dashes(s, i + 2);
    Dashes(s, i + 3);
    NoEndInside(s, i, body);
    if body != "" {
      assert At(s, i + 4 + (|body| - 1)) == body[|body| - 1];
    }
  }

  function InstrText(body: string): string {
    "<?" + body + "?>"
  }

  predicate NoEnd(body: string) {
    forall k :: 0 <= k < |body| - 1 ==> !(body[k] == '?' && body[k + 1] == '>')
  }

  /** It would be read as a declaration, or ends where it begins. */
  predicate BadTarget(body: string) {
    || (body != "" && body[0] == '>')
    || StartsWithNoCase(body + "?", 0, "xml ") || StartsWithNoCase(body + "?", 0, "xml?")
  }

  lemma InstrBytes(s: string, i: nat, body: string)
    requires StartsWith(s, i, InstrText(body))
    ensures At(s, i) == '<' && At(s, i + 1) == '?' && StartsWith(s, i, "<?")
    ensures forall k :: 0 <= k < |body| ==> At(s, i + 2 + k) == body[k]
    ensures var e := i + 2 + |body|; StartsWith(s, e, "?>") && At(s, e) == '?' && At(s, e + 1) == '>' && e + 2 <= |s|
  {
    StartsWithSplit(s, i, "<?" + body, "?>");
    StartsWithSplit(s, i, "<?", body);
    hide StartsWith;
    StartsWithAt(s, i, "<?", 0);
    StartsWithAt(s, i, "<?", 1);
    forall k | 0 <= k < |body| ensures At(s, i + 2 + k) == body[k] { StartsWithAt(s, i + 2, body, k); }
    StartsWithAt(s, i + 2 + |body|, "?>", 0);
    StartsWithAt(s, i + 2 + |body|, "?>", 1);
  }

  /** The test for a declaration looks at the four bytes after "<?". */
  lemma DeclTest(s: string, i: nat, body: string, w: string)
    requires StartsWith(s, i, InstrText(body)) && |w| == 4 && NoEnd(body) && (body != "" ==> body[0] != '>')
    requires w[0] == 'x' && w[1] == 'm' && w[2] == 'l' && (w[3] == ' ' || w[3] == '?')
    ensures StartsWithNoCase(s, i, "<?" + w) <==> StartsWithNoCase(body + "?", 0, w)
  {
    hide StartsWithNoCase, StartsWith;
    InstrBytes(s, i, body);
    var b, v := body + "?", "<?" + w;
    NoCaseBytes(s, i, v);
    NoCaseBytes(b, 0, w);
    FourBytes(s, i, b, w, v);
  }

  lemma FourBytes(s: string, i: nat, b: string, w: string, v: string)
    requires |w| == 4 && w[0] == 'x' && w[1] == 'm' && w[2] == 'l' && v == "<?" + w && b != ""
    requires At(s, i) == '<' && At(s, i + 1) == '?' && b[|b| - 1] == '?' && w[3] != NUL
    requires forall k :: 0 <= k < |b| ==> At(s, i + 2 + k) == b[k]
    ensures Same(s, i, v) <==> Same(b, 0, w)
  {
    if Same(s, i, v) {
      SameAt(s, i, v, 2);
      SameAt(s, i, v, 3);
      SameAt(s, i, v, 4);
      SameAt(s, i, v, 5);
      LongEnough(b, At(s, i + 2), At(s, i + 3), At(s, i + 4));
    }
    if Same(b, 0, w) {
      SameAt(b, 0, w, 0);
      SameAt(b, 0, w, 1);
      SameAt(b, 0, w, 2);
      SameAt(b, 0, w, 3);
      assert At(s, i + 2 + 0) == b[0] && At(s, i + 2 + 1) == b[1] && At(s, i + 2 + 2) == b[2] && At(s, i + 2 + 3) == b[3];
    }
  }

  lemma SameAt(s: string, i: nat, w: string, k: nat)
    requires Same(s, i, w) && k < |w|
    ensures Lower(At(s, i + k)) == Lower(w[k])
  {
  }

  /** Three letters that are no question mark do not reach its end. */
  lemma LongEnough(b: string, x: char, y: char, z: char)
    requires b != "" && b[|b| - 1] == '?' && Lower(x) == 'x' && Lower(y) == 'm' && Lower(z) == 'l'
    requires At(b, 0) == x && (|b| > 1 ==> At(b, 1) == y) && (|b| > 2 ==> At(b, 2) == z)
    ensures |b| > 3
  {
  }

  predicate Same(s: string, i: nat, w: string) {
    forall k :: 0 <= k < |w| ==> Lower(At(s, i + k)) == Lower(w[k])
  }

  lemma NoCaseBytes(s: string, i: nat, w: string)
    requires forall k :: 0 <= k < |w| ==> w[k] != NUL
    ensures StartsWithNoCase(s, i, w) <==> Same(s, i, w) && i + |w| <= |s|
    ensures Same(s, i, w) && w != "" ==> i + |w| <= |s|
  {
    if Same(s, i, w) && w != "" {
      assert Lower(At(s, i + (|w| - 1))) == Lower(w[|w| - 1]) != NUL;
    }
    if StartsWithNoCase(s, i, w) {
      forall k | 0 <= k < |w| ensures Lower(At(s, i + k)) == Lower(w[k]) { NoCaseAt(s, i, w, k); }
    }
  }

  lemma InstrSkipped(s: string, i: nat, body: string)
    requires StartsWith(s, i, InstrText(body)) && NoEnd(body) && !BadTarget(body)
    ensures Find(s, i, "?>") == Some(i + 2 + |body|) && !IsXmlDecl(s, i)
    ensures SkipPI(s, i) == Some(i + |InstrText(body)|)
  {
    hide StartsWith, StartsWithNoCase;
    InstrBytes(s, i, body);
    DeclTest(s, i, body, "xml ");
    DeclTest(s, i, body, "xml?");
    assert "<?" + "xml " == "<?xml " && "<?" + "xml?" == "<?xml?";
    forall k | i <= k < i + 2 + |body| ensures At(s, k) != '?' || At(s, k + 1) != '>' {
      if k >= i + 2 {
        assert At(s, i + 2 + (k - i - 2)) == body[k - i - 2];
        if k + 1 < i + 2 + |body| {
          assert At(s, i + 2 + (k - i - 1)) == body[k - i - 1];
        }
      } else if k == i + 1 && body != "" {
        assert At(s, i + 2 + 0) == body[0];
      }
    }
    FindAt(s, i, i + 2 + |body|, "?>");
  }
}
