/**
 Character classes of the ixml parser: the XML characters of section 2.2 of XML 1.0
 (2nd edition) and the name characters of its appendix B.
 */
module XmlChars {
  import opened XmlTables

  /** Parser_isNameChar without the second table; the ASCII entries are spelt out. */
  predicate IsLetter(c: int) {
    if c < 0xC0 then
      c == 0x3A || 0x41 <= c <= 0x5A || c == 0x5F || 0x61 <= c <= 0x7A
    else
      c <= 0xD7A3 && InTable(c, LettersFrom01())
  }

  /** Parser_isNameChar with both tables */
  predicate IsNameChar(c: int) {
    || IsLetter(c)
    || (if c < 0xB7 then 0x2D <= c <= 0x2E || 0x30 <= c <= 0x39 else c <= 0x30FE && InTable(c, NameCharsFrom01()))
  }

  /** Parser_isXmlChar */
  predicate IsXmlChar(c: int) {
    || c == 0x9 || c == 0xA || c == 0xD
    || 0x20 <= c <= 0xD7FF
    || 0xE000 <= c <= 0xFFFD
    || 0x1_0000 <= c <= 0x10_FFFF
  }

  /** Every code point but the control characters other than tab and line ends, the surrogates, and two non-characters. */
  lemma XmlCharExcludes(c: int)
    ensures IsXmlChar(c) <==>
            && 0 <= c <= 0x10_FFFF && (c < 0x20 ==> c == 0x9 || c == 0xA || c == 0xD)
            && !(0xD800 <= c <= 0xDFFF) && c != 0xFFFE && c != 0xFFFF
  {
  }

  /** Name characters are XML characters and no markup. */
  lemma NameCharRange(c: int)
    requires IsNameChar(c)
    ensures 0x2D <= c <= 0xD7A3 && IsXmlChar(c)
    ensures c <= 127 ==> c == 0x3A || 0x41 <= c <= 0x5A || c == 0x5F || 0x61 <= c <= 0x7A || 0x2D <= c <= 0x2E || 0x30 <= c <= 0x39
  {
    hide LettersFrom01, NameCharsFrom01, InTable, Ascending;
  }

  /**
   Parser_isCharInTable, with its first upper bound `sz` one past the table.  `beyond` is whatever
   lies there, so the answer is membership in the table extended by `beyond`.
   */
  method SearchTable(c: int, table: seq<Range>, beyond: Range) returns (found: bool)
    requires forall k :: 0 <= k < |table| ==> table[k].first <= table[k].last
    requires forall j, k :: 0 <= j < k < |table| ==> table[j].last < table[k].first
    ensures found <==> InTable(c, table) || (beyond.first <= c <= beyond.last && forall k :: 0 <= k < |table| ==> table[k].last < c)
  {
    var t, b := 0, |table|;
    while t <= b
      invariant 0 <= t <= |table| + 1 && -1 <= b <= |table|
      invariant forall k :: 0 <= k < t && k < |table| ==> table[k].last < c
      invariant forall k :: b < k < |table| ==> c < table[k].first
      invariant t > |table| ==> !(beyond.first <= c <= beyond.last)
      invariant b < |table| && (forall k :: 0 <= k < |table| ==> table[k].last < c) ==> !(beyond.first <= c <= beyond.last)
    {
      var m := (t + b) / 2;
      var r := if m < |table| then table[m] else beyond;
      if c < r.first {
        b := m - 1;
      } else if c > r.last {
        t := m + 1;
      } else {
        return true;
      }
    }
    return false;
  }

  lemma FirstRows(c: int)
    ensures InTable(c, Letters00()) <==> c == 0x3A || 0x41 <= c <= 0x5A || c == 0x5F || 0x61 <= c <= 0x7A
    ensures InTable(c, NameChars00()) <==> 0x2D <= c <= 0x2E || 0x30 <= c <= 0x39
  {
    var a, b := Letters00(), NameChars00();
    assert a[0] == R(0x3A, 0x3A) && a[1] == R(0x41, 0x5A) && a[2] == R(0x5F, 0x5F) && a[3] == R(0x61, 0x7A);
    assert b[0] == R(0x2D, 0x2D) && b[1] == R(0x2E, 0x2E) && b[2] == R(0x30, 0x39);
  }

  /** A letter is a character of the first table, a name character one of either. */
  lemma InTables(c: int)
    ensures IsLetter(c) <==> InTable(c, Letters())
    ensures IsNameChar(c) <==> InTable(c, Letters()) || InTable(c, NameChars())
  {
    hide Letters00, LettersFrom01, NameChars00, NameCharsFrom01, InTable, Ascending;
    FirstRows(c);
    LettersAscend();
    NameCharsAscend();
    InJoined(c, Letters00(), LettersFrom01());
    InJoined(c, NameChars00(), NameCharsFrom01());
    if InTable(c, LettersFrom01()) {
      InBounds(c, LettersFrom01(), 0x00BF, 0xD7A3);
    }
    if InTable(c, NameCharsFrom01()) {
      InBounds(c, NameCharsFrom01(), 0x00B6, 0x30FE);
    }
  }

  /**
   Parser_isNameChar. Up to the last entry of a table the answer is the right one; above, whatever lies beyond the table
   is looked at too.
   */
  method SearchNameChar(c: int, both: bool, beyondLetters: Range, beyondNameChars: Range) returns (found: bool)
    ensures found <==>
            || (if both then IsNameChar(c) else IsLetter(c))
            || (0xD7A3 < c && beyondLetters.first <= c <= beyondLetters.last)
            || (both && 0x30FE < c && beyondNameChars.first <= c <= beyondNameChars.last)
  {
    hide IsLetter, IsNameChar, InTable, Letters, NameChars;
    InTables(c);
    LettersAscend();
    NameCharsAscend();
    found := SearchAscending(c, Letters(), beyondLetters, 0xD7A3);
    if !found && both {
      found := SearchAscending(c, NameChars(), beyondNameChars, 0x30FE);
    }
  }

  method SearchAscending(c: int, table: seq<Range>, beyond: Range, ghost high: int) returns (found: bool)
    requires Ascending(table, 0, high) && table[|table| - 1].last == high
    ensures found <==> InTable(c, table) || (high < c && beyond.first <= c <= beyond.last)
  {
    forall j, k | 0 <= j <= k < |table|
      ensures table[j].first <= table[j].last <= high && (j < k ==> table[j].last < table[k].first)
    {
      Apart(table, 0, high, j, k);
      Apart(table, 0, high, j, j);
    }
    found := SearchTable(c, table, beyond);
  }
}
