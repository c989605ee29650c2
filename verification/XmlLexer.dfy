/**
 The ixml tokenizer: entity decoding, token copying, and the token scanner.
 Offsets into the buffer play the part of `curPtr` and `savePtr`.
 */
module XmlLexer {
  import opened CText
  import opened Utf8
  import opened XmlChars

  /** The digit value that the entity loops accept in the given base. */
  function Digit(c: char, base: nat): Option<nat> {
    if '0' <= c <= '9' then Some(c as int - '0' as int)
    else if base == 16 && 'A' <= c <= 'F' then Some(c as int - 'A' as int + 10)
    else if base == 16 && 'a' <= c <= 'f' then Some(c as int - 'a' as int + 10)
    else None
  }

  /** The value and the end of the run of digits at `i`. */
  function Digits(s: string, i: nat, base: nat, sum: nat): (r: (nat, nat))
    ensures i <= r.1 && (i <= |s| ==> r.1 <= |s|)
    decreases |s| - i
  {
    var d := Digit(At(s, i), base);
    if d.None? || i >= |s| then (sum, i) else Digits(s, i + 1, base, sum * base + d.value)
  }

  function NumericEntity(s: string, i: nat, digits: nat, base: nat): (r: Decoded)
    requires i <= digits <= |s|
    ensures r.value > 0 ==> r.len >= 1 && i + r.len <= |s|
  {
    var (sum, end) := Digits(s, digits, base, 0);
    if At(s, end) == ';' && IsXmlChar(sum) then Decoded(sum, end - i + 1) else Decoded(-1, 0)
  }

  /** Parser_getChar in strict mode: the character at `i`, entities decoded. */
  function GetChar(s: string, i: nat): (r: Decoded)
    ensures r.value > 0 ==> IsXmlChar(r.value) && r.len >= 1 && i + r.len <= |s|
    ensures r.value > 0 && r.len == 1 ==> r.value == At(s, i) as int
  {
    var c := At(s, i);
    if c != '&' then
      if 0 < c as int < 128 && IsXmlChar(c as int) then Decoded(c as int, 1)
      else
        var d := Decode(s, i);
        if IsXmlChar(d.value) then d else Decoded(-1, d.len)
    else if StartsWithNoCase(s, i, "&quot;") then Decoded('"' as int, 6)
    else if StartsWithNoCase(s, i, "&lt;") then Decoded('<' as int, 4)
    else if StartsWithNoCase(s, i, "&gt;") then Decoded('>' as int, 4)
    else if StartsWithNoCase(s, i, "&apos;") then Decoded('\'' as int, 6)
    else if StartsWithNoCase(s, i, "&amp;") then Decoded('&' as int, 5)
    else if StartsWithNoCase(s, i, "&#x") then NumericEntity(s, i, i + 3, 16)
    else if StartsWithNoCase(s, i, "&#") then NumericEntity(s, i, i + 2, 10)
    else Decoded(-1, 0)
  }

  /** The bytes that one decoded character adds to the token buffer. */
  function CharBytes(d: Decoded): string
    requires d.value > 0 && IsXmlChar(d.value)
  {
    if d.len == 1 then [d.value as char] else Encode(d.value)
  }

  /** The loop of Parser_copyToken from `i` to `end`. */
  function CopyFrom(s: string, i: nat, end: nat): Option<string>
    decreases end - i
  {
    if i == end then Some("")
    else if i > end then None
    else
      var d := GetChar(s, i);
      if d.value <= 0 then None
      else
        var rest := CopyFrom(s, i + d.len, end);
        if rest.None? then None else Some(CharBytes(d) + rest.value)
  }

  /** Parser_copyToken */
  function CopyToken(s: string, i: nat, end: nat): Option<string> {
    if end <= i then None else CopyFrom(s, i, end)
  }

  /** Parser_skipComment: the offset after the comment that starts at `i`. */
  function SkipComment(s: string, i: nat): (r: Option<nat>)
    ensures r.Some? ==> i < r.value <= |s|
  {
    var p := Find(s, i, "-->");
    if p.Some? && p.value != i && At(s, p.value - 1) != '-' then Some(p.value + 3) else None
  }

  predicate IsXmlDecl(s: string, i: nat) {
    StartsWithNoCase(s, i, "<?xml ") || StartsWithNoCase(s, i, "<?xml?")
  }

  /** Parser_skipPI on the text "<?" at `i`. */
  function SkipPI(s: string, i: nat): (r: Option<nat>)
    ensures r.Some? ==> i < r.value <= |s|
  {
    var p := Find(s, i, "?>");
    if IsXmlDecl(s, i) || p.None? then None else Some(p.value + 2)
  }

  datatype Skipped = Skipped(ok: bool, pos: nat)

  /** Parser_skipMisc: comments, processing instructions and white space. */
  function SkipMisc(s: string, i: nat): (r: Skipped)
    ensures i <= r.pos && (i <= |s| ==> r.pos <= |s|)
    decreases |s| - i
  {
    if StartsWith(s, i, "<!--") then
      var p := SkipComment(s, i);
      if p.None? then Skipped(false, SkipSpaces(s, i)) else SkipMisc(s, SkipSpaces(s, p.value))
    else if IsXmlDecl(s, i) then Skipped(false, SkipSpaces(s, i))
    else if StartsWith(s, i, "<?") then
      var p := Find(s, i, "?>");
      if p.None? then Skipped(false, |s|) else SkipMisc(s, SkipSpaces(s, p.value + 2))
    else Skipped(true, SkipSpaces(s, i))
  }

  /** The end of the run of name characters at `i`. */
  function NameEnd(s: string, i: nat): (r: nat)
    ensures i <= r && (i <= |s| ==> r <= |s|)
    decreases |s| - i
  {
    var d := Decode(s, i);
    if IsNameChar(d.value) && i < |s| then NameEnd(s, i + d.len) else i
  }

  /** A token, empty on failure, with `curPtr` and `savePtr` after it. */
  datatype Token = Token(text: string, cur: nat, save: nat)

  /** The length of the token that starts at `p`; 0 when none does. */
  function TokenLength(s: string, p: nat): (n: nat)
    ensures p <= |s| ==> p + n <= |s|
  {
    var c := At(s, p);
    if c == '"' || c == '\'' || c == '=' || c == '>' then 1
    else if c == '<' then
      var d := Decode(s, p + 1);
      if d.value == '/' as int then 2 else if IsLetter(d.value) then 1 else 0
    else if c == '/' then
      if At(s, p + 1) == '>' then 2 else 0
    else
      var d := Decode(s, p);
      if IsLetter(d.value) then NameEnd(s, p + d.len) - p else 0
  }

  /** The token at `p`, after what Parser_skipMisc skips. */
  function TokenAt(s: string, p: nat, save: nat): (r: Token)
    ensures p <= r.cur && (p <= |s| ==> r.cur <= |s|)
    ensures r.text != "" ==> p < r.cur
    ensures r.save == save || r.save == p
  {
    var n := TokenLength(s, p);
    var save' := if At(s, p) == '/' && n == 2 then p else save;
    var t := CopyToken(s, p, p + n);
    if t.None? then Token("", p, save') else Token(t.value, p + n, save')
  }

  /** Parser_getNextToken */
  function GetNextToken(s: string, cur: nat, save: nat): (r: Token)
    ensures cur <= r.cur && (cur <= |s| ==> r.cur <= |s|)
    ensures r.text != "" ==> cur < r.cur
    ensures r.save == save || cur <= r.save <= r.cur
  {
    if At(s, cur) == NUL then Token("", cur, save)
    else
      var m := SkipMisc(s, cur);
      if !m.ok then Token("", m.pos, save) else TokenAt(s, m.pos, save)
  }
}
