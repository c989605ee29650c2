/**
 The tables of the ixml parser: the letters and the other name characters of appendix B of XML 1.0 (2nd edition).
 */
module XmlTables {

  /** A range of characters (char_info_t). */
  datatype Range = R(first: int, last: int)

  predicate InTable(c: int, table: seq<Range>) {
    exists k :: 0 <= k < |table| && table[k].first <= c <= table[k].last
  }

  /** The range at k is not empty and ends before the next begins. */
  predicate InOrder(table: seq<Range>, k: nat) {
    k < |table| ==> table[k].first <= table[k].last && (k + 1 < |table| ==> table[k].last < table[k + 1].first)
  }

  /** All ranges in order, above `low` and up to `high`. */
  ghost predicate Ascending(table: seq<Range>, low: int, high: int) {
    && table != [] && low < table[0].first && table[|table| - 1].last <= high
    && forall k: nat :: InOrder(table, k)
  }

  /** Two tables one after the other. */
  lemma Join(a: seq<Range>, b: seq<Range>, low: int, middle: int, high: int) returns (all: seq<Range>)
    requires Ascending(a, low, middle) && Ascending(b, middle, high)
    ensures all == a + b && Ascending(all, low, high) && a != [] && b != [] && all[|all| - 1] == b[|b| - 1]
  {
    all := a + b;
    JoinAscends(a, b, low, middle, high);
  }

  lemma JoinAscends(a: seq<Range>, b: seq<Range>, low: int, middle: int, high: int)
    requires Ascending(a, low, middle) && Ascending(b, middle, high)
    ensures Ascending(a + b, low, high)
  {
    var all := a + b;
    forall k: nat
      ensures InOrder(all, k)
    {
      assert InOrder(a, k);
      if k >= |a| {
        assert InOrder(b, k - |a|);
      }
    }
  }

  /** Any two ranges are in order, not only neighbours. */
  lemma {:induction false} Apart(table: seq<Range>, low: int, high: int, j: nat, k: nat)
    requires Ascending(table, low, high) && j <= k < |table|
    ensures low < table[j].first <= table[j].last && table[k].first <= table[k].last <= high
    ensures j < k ==> table[j].last < table[k].first
    decreases k - j, j + |table| - k
  {
    assert InOrder(table, j) && InOrder(table, k);
    if j < k {
      Apart(table, low, high, j + 1, k);
      assert InOrder(table, j);
    }
    if j > 0 {
      ApartLow(table, low, high, j);
    }
    ApartHigh(table, low, high, k);
  }

  lemma {:induction false} ApartLow(table: seq<Range>, low: int, high: int, j: nat)
    requires Ascending(table, low, high) && j < |table|
    ensures low < table[j].first
  {
    if j > 0 {
      ApartLow(table, low, high, j - 1);
      assert InOrder(table, j - 1);
    }
  }

  lemma {:induction false} ApartHigh(table: seq<Range>, low: int, high: int, k: nat)
    requires Ascending(table, low, high) && k < |table|
    ensures table[k].last <= high
    decreases |table| - k
  {
    assert InOrder(table, k);
    if k + 1 < |table| {
      ApartHigh(table, low, high, k + 1);
      assert InOrder(table, k + 1);
    }
  }

  lemma InBounds(c: int, table: seq<Range>, low: int, high: int)
    requires Ascending(table, low, high) && InTable(c, table)
    ensures low < c <= high
  {
    var k :| 0 <= k < |table| && table[k].first <= c <= table[k].last;
    Apart(table, low, high, k, k);
  }

  lemma InJoined(c: int, a: seq<Range>, b: seq<Range>)
    ensures InTable(c, a + b) <==> InTable(c, a) || InTable(c, b)
  {
    if InTable(c, a) {
      var k :| 0 <= k < |a| && a[k].first <= c <= a[k].last;
      assert (a + b)[k] == a[k];
    }
    if InTable(c, b) {
      var k :| 0 <= k < |b| && b[k].first <= c <= b[k].last;
      assert (a + b)[|a| + k] == b[k];
    }
  }

  function Letters00(): (r: seq<Range>)
    ensures Ascending(r, 0x0000, 0x00BF)
  {
    [R(0x003A, 0x003A), R(0x0041, 0x005A), R(0x005F, 0x005F), R(0x0061, 0x007A)]
  }

  function Letters01(): (r: seq<Range>)
    ensures Ascending(r, 0x00BF, 0x038C)
  {
    [R(0x00C0, 0x00D6), R(0x00D8, 0x00F6), R(0x00F8, 0x00FF), R(0x0100, 0x0131), R(0x0134, 0x013E), R(0x0141, 0x0148),
     R(0x014A, 0x017E), R(0x0180, 0x01C3), R(0x01CD, 0x01F0), R(0x01F4, 0x01F5), R(0x01FA, 0x0217), R(0x0250, 0x02A8),
     R(0x02BB, 0x02C1), R(0x0386, 0x0386), R(0x0388, 0x038A), R(0x038C, 0x038C)]
  }

  function Letters02(): (r: seq<Range>)
    ensures Ascending(r, 0x038C, 0x04EB)
  {
    [R(0x038E, 0x03A1), R(0x03A3, 0x03CE), R(0x03D0, 0x03D6), R(0x03DA, 0x03DA), R(0x03DC, 0x03DC), R(0x03DE, 0x03DE),
     R(0x03E0, 0x03E0), R(0x03E2, 0x03F3), R(0x0401, 0x040C), R(0x040E, 0x044F), R(0x0451, 0x045C), R(0x045E, 0x0481),
     R(0x0490, 0x04C4), R(0x04C7, 0x04C8), R(0x04CB, 0x04CC), R(0x04D0, 0x04EB)]
  }

  function Letters03(): (r: seq<Range>)
    ensures Ascending(r, 0x04EB, 0x0939)
  {
    [R(0x04EE, 0x04F5), R(0x04F8, 0x04F9), R(0x0531, 0x0556), R(0x0559, 0x0559), R(0x0561, 0x0586), R(0x05D0, 0x05EA),
     R(0x05F0, 0x05F2), R(0x0621, 0x063A), R(0x0641, 0x064A), R(0x0671, 0x06B7), R(0x06BA, 0x06BE), R(0x06C0, 0x06CE),
     R(0x06D0, 0x06D3), R(0x06D5, 0x06D5), R(0x06E5, 0x06E6), R(0x0905, 0x0939)]
  }

  function Letters04(): (r: seq<Range>)
    ensures Ascending(r, 0x0939, 0x0A33)
  {
    [R(0x093D, 0x093D), R(0x0958, 0x0961), R(0x0985, 0x098C), R(0x098F, 0x0990), R(0x0993, 0x09A8), R(0x09AA, 0x09B0),
     R(0x09B2, 0x09B2), R(0x09B6, 0x09B9), R(0x09DC, 0x09DD), R(0x09DF, 0x09E1), R(0x09F0, 0x09F1), R(0x0A05, 0x0A0A),
     R(0x0A0F, 0x0A10), R(0x0A13, 0x0A28), R(0x0A2A, 0x0A30), R(0x0A32, 0x0A33)]
  }

  function Letters05(): (r: seq<Range>)
    ensures Ascending(r, 0x0A33, 0x0B10)
  {
    [R(0x0A35, 0x0A36), R(0x0A38, 0x0A39), R(0x0A59, 0x0A5C), R(0x0A5E, 0x0A5E), R(0x0A72, 0x0A74), R(0x0A85, 0x0A8B),
     R(0x0A8D, 0x0A8D), R(0x0A8F, 0x0A91), R(0x0A93, 0x0AA8), R(0x0AAA, 0x0AB0), R(0x0AB2, 0x0AB3), R(0x0AB5, 0x0AB9),
     R(0x0ABD, 0x0ABD), R(0x0AE0, 0x0AE0), R(0x0B05, 0x0B0C), R(0x0B0F, 0x0B10)]
  }

  function Letters06(): (r: seq<Range>)
    ensures Ascending(r, 0x0B10, 0x0BB5)
  {
    [R(0x0B13, 0x0B28), R(0x0B2A, 0x0B30), R(0x0B32, 0x0B33), R(0x0B36, 0x0B39), R(0x0B3D, 0x0B3D), R(0x0B5C, 0x0B5D),
     R(0x0B5F, 0x0B61), R(0x0B85, 0x0B8A), R(0x0B8E, 0x0B90), R(0x0B92, 0x0B95), R(0x0B99, 0x0B9A), R(0x0B9C, 0x0B9C),
     R(0x0B9E, 0x0B9F), R(0x0BA3, 0x0BA4), R(0x0BA8, 0x0BAA), R(0x0BAE, 0x0BB5)]
  }

  function Letters07(): (r: seq<Range>)
    ensures Ascending(r, 0x0BB5, 0x0D10)
  {
    [R(0x0BB7, 0x0BB9), R(0x0C05, 0x0C0C), R(0x0C0E, 0x0C10), R(0x0C12, 0x0C28), R(0x0C2A, 0x0C33), R(0x0C35, 0x0C39),
     R(0x0C60, 0x0C61), R(0x0C85, 0x0C8C), R(0x0C8E, 0x0C90), R(0x0C92, 0x0CA8), R(0x0CAA, 0x0CB3), R(0x0CB5, 0x0CB9),
     R(0x0CDE, 0x0CDE), R(0x0CE0, 0x0CE1), R(0x0D05, 0x0D0C), R(0x0D0E, 0x0D10)]
  }

  function Letters08(): (r: seq<Range>)
    ensures Ascending(r, 0x0D10, 0x0EA5)
  {
    [R(0x0D12, 0x0D28), R(0x0D2A, 0x0D39), R(0x0D60, 0x0D61), R(0x0E01, 0x0E2E), R(0x0E30, 0x0E30), R(0x0E32, 0x0E33),
     R(0x0E40, 0x0E45), R(0x0E81, 0x0E82), R(0x0E84, 0x0E84), R(0x0E87, 0x0E88), R(0x0E8A, 0x0E8A), R(0x0E8D, 0x0E8D),
     R(0x0E94, 0x0E97), R(0x0E99, 0x0E9F), R(0x0EA1, 0x0EA3), R(0x0EA5, 0x0EA5)]
  }

  function Letters09(): (r: seq<Range>)
    ensures Ascending(r, 0x0EA5, 0x110C)
  {
    [R(0x0EA7, 0x0EA7), R(0x0EAA, 0x0EAB), R(0x0EAD, 0x0EAE), R(0x0EB0, 0x0EB0), R(0x0EB2, 0x0EB3), R(0x0EBD, 0x0EBD),
     R(0x0EC0, 0x0EC4), R(0x0F40, 0x0F47), R(0x0F49, 0x0F69), R(0x10A0, 0x10C5), R(0x10D0, 0x10F6), R(0x1100, 0x1100),
     R(0x1102, 0x1103), R(0x1105, 0x1107), R(0x1109, 0x1109), R(0x110B, 0x110C)]
  }

  function Letters10(): (r: seq<Range>)
    ensures Ascending(r, 0x110C, 0x1173)
  {
    [R(0x110E, 0x1112), R(0x113C, 0x113C), R(0x113E, 0x113E), R(0x1140, 0x1140), R(0x114C, 0x114C), R(0x114E, 0x114E),
     R(0x1150, 0x1150), R(0x1154, 0x1155), R(0x1159, 0x1159), R(0x115F, 0x1161), R(0x1163, 0x1163), R(0x1165, 0x1165),
     R(0x1167, 0x1167), R(0x1169, 0x1169), R(0x116D, 0x116E), R(0x1172, 0x1173)]
  }

  function Letters11(): (r: seq<Range>)
    ensures Ascending(r, 0x1173, 0x1F45)
  {
    [R(0x1175, 0x1175), R(0x119E, 0x119E), R(0x11A8, 0x11A8), R(0x11AB, 0x11AB), R(0x11AE, 0x11AF), R(0x11B7, 0x11B8),
     R(0x11BA, 0x11BA), R(0x11BC, 0x11C2), R(0x11EB, 0x11EB), R(0x11F0, 0x11F0), R(0x11F9, 0x11F9), R(0x1E00, 0x1E9B),
     R(0x1EA0, 0x1EF9), R(0x1F00, 0x1F15), R(0x1F18, 0x1F1D), R(0x1F20, 0x1F45)]
  }

  function Letters12(): (r: seq<Range>)
    ensures Ascending(r, 0x1F45, 0x1FFC)
  {
    [R(0x1F48, 0x1F4D), R(0x1F50, 0x1F57), R(0x1F59, 0x1F59), R(0x1F5B, 0x1F5B), R(0x1F5D, 0x1F5D), R(0x1F5F, 0x1F7D),
     R(0x1F80, 0x1FB4), R(0x1FB6, 0x1FBC), R(0x1FBE, 0x1FBE), R(0x1FC2, 0x1FC4), R(0x1FC6, 0x1FCC), R(0x1FD0, 0x1FD3),
     R(0x1FD6, 0x1FDB), R(0x1FE0, 0x1FEC), R(0x1FF2, 0x1FF4), R(0x1FF6, 0x1FFC)]
  }

  function Letters13(): (r: seq<Range>)
    ensures Ascending(r, 0x1FFC, 0xD7A3) && r[|r| - 1].last == 0xD7A3
  {
    [R(0x2126, 0x2126), R(0x212A, 0x212B), R(0x212E, 0x212E), R(0x2180, 0x2182), R(0x3007, 0x3007), R(0x3021, 0x3029),
     R(0x3041, 0x3094), R(0x30A1, 0x30FA), R(0x3105, 0x312C), R(0x4E00, 0x9FA5), R(0xAC00, 0xD7A3)]
  }

  function LettersFrom01(): seq<Range> {
    Letters01() + (Letters02() + (Letters03() + (Letters04() + (Letters05() + (Letters06() + (Letters07() +
    (Letters08() + (Letters09() + (Letters10() + (Letters11() + (Letters12() + (Letters13()))))))))))))
  }

  lemma LettersFrom01Ascend()
    ensures Ascending(LettersFrom01(), 0x00BF, 0xD7A3) && LettersFrom01()[|LettersFrom01()| - 1].last == 0xD7A3
  {
    hide Ascending, Letters01, Letters02, Letters03, Letters04, Letters05, Letters06, Letters07, Letters08,
         Letters09, Letters10, Letters11, Letters12, Letters13;
    var r := Letters13();
    r := Join(Letters12(), r, 0x1F45, 0x1FFC, 0xD7A3);
    r := Join(Letters11(), r, 0x1173, 0x1F45, 0xD7A3);
    r := Join(Letters10(), r, 0x110C, 0x1173, 0xD7A3);
    r := Join(Letters09(), r, 0x0EA5, 0x110C, 0xD7A3);
    r := Join(Letters08(), r, 0x0D10, 0x0EA5, 0xD7A3);
    r := Join(Letters07(), r, 0x0BB5, 0x0D10, 0xD7A3);
    r := Join(Letters06(), r, 0x0B10, 0x0BB5, 0xD7A3);
    r := Join(Letters05(), r, 0x0A33, 0x0B10, 0xD7A3);
    r := Join(Letters04(), r, 0x0939, 0x0A33, 0xD7A3);
    r := Join(Letters03(), r, 0x04EB, 0x0939, 0xD7A3);
    r := Join(Letters02(), r, 0x038C, 0x04EB, 0xD7A3);
    r := Join(Letters01(), r, 0x00BF, 0x038C, 0xD7A3);
  }

  /** Letter: the characters that a name may start with. */
  function Letters(): seq<Range> {
    Letters00() + LettersFrom01()
  }

  lemma LettersAscend()
    ensures Ascending(LettersFrom01(), 0x00BF, 0xD7A3) && Ascending(Letters(), 0, 0xD7A3) && Letters()[|Letters()| - 1].last == 0xD7A3
  {
    hide Ascending, Letters00, LettersFrom01;
    LettersFrom01Ascend();
    var r := Join(Letters00(), LettersFrom01(), 0, 0x00BF, 0xD7A3);
  }

  function NameChars00(): (r: seq<Range>)
    ensures Ascending(r, 0x0000, 0x00B6)
  {
    [R(0x002D, 0x002D), R(0x002E, 0x002E), R(0x0030, 0x0039)]
  }

  function NameChars01(): (r: seq<Range>)
    ensures Ascending(r, 0x00B6, 0x0669)
  {
    [R(0x00B7, 0x00B7), R(0x02D0, 0x02D0), R(0x02D1, 0x02D1), R(0x0300, 0x0345), R(0x0360, 0x0361), R(0x0387, 0x0387),
     R(0x0483, 0x0486), R(0x0591, 0x05A1), R(0x05A3, 0x05B9), R(0x05BB, 0x05BD), R(0x05BF, 0x05BF), R(0x05C1, 0x05C2),
     R(0x05C4, 0x05C4), R(0x0640, 0x0640), R(0x064B, 0x0652), R(0x0660, 0x0669)]
  }

  function NameChars02(): (r: seq<Range>)
    ensures Ascending(r, 0x0669, 0x09BC)
  {
    [R(0x0670, 0x0670), R(0x06D6, 0x06DC), R(0x06DD, 0x06DF), R(0x06E0, 0x06E4), R(0x06E7, 0x06E8), R(0x06EA, 0x06ED),
     R(0x06F0, 0x06F9), R(0x0901, 0x0903), R(0x093C, 0x093C), R(0x093E, 0x094C), R(0x094D, 0x094D), R(0x0951, 0x0954),
     R(0x0962, 0x0963), R(0x0966, 0x096F), R(0x0981, 0x0983), R(0x09BC, 0x09BC)]
  }

  function NameChars03(): (r: seq<Range>)
    ensures Ascending(r, 0x09BC, 0x0A6F)
  {
    [R(0x09BE, 0x09BE), R(0x09BF, 0x09BF), R(0x09C0, 0x09C4), R(0x09C7, 0x09C8), R(0x09CB, 0x09CD), R(0x09D7, 0x09D7),
     R(0x09E2, 0x09E3), R(0x09E6, 0x09EF), R(0x0A02, 0x0A02), R(0x0A3C, 0x0A3C), R(0x0A3E, 0x0A3E), R(0x0A3F, 0x0A3F),
     R(0x0A40, 0x0A42), R(0x0A47, 0x0A48), R(0x0A4B, 0x0A4D), R(0x0A66, 0x0A6F)]
  }

  function NameChars04(): (r: seq<Range>)
    ensures Ascending(r, 0x0A6F, 0x0BC2)
  {
    [R(0x0A70, 0x0A71), R(0x0A81, 0x0A83), R(0x0ABC, 0x0ABC), R(0x0ABE, 0x0AC5), R(0x0AC7, 0x0AC9), R(0x0ACB, 0x0ACD),
     R(0x0AE6, 0x0AEF), R(0x0B01, 0x0B03), R(0x0B3C, 0x0B3C), R(0x0B3E, 0x0B43), R(0x0B47, 0x0B48), R(0x0B4B, 0x0B4D),
     R(0x0B56, 0x0B57), R(0x0B66, 0x0B6F), R(0x0B82, 0x0B83), R(0x0BBE, 0x0BC2)]
  }

  function NameChars05(): (r: seq<Range>)
    ensures Ascending(r, 0x0BC2, 0x0CEF)
  {
    [R(0x0BC6, 0x0BC8), R(0x0BCA, 0x0BCD), R(0x0BD7, 0x0BD7), R(0x0BE7, 0x0BEF), R(0x0C01, 0x0C03), R(0x0C3E, 0x0C44),
     R(0x0C46, 0x0C48), R(0x0C4A, 0x0C4D), R(0x0C55, 0x0C56), R(0x0C66, 0x0C6F), R(0x0C82, 0x0C83), R(0x0CBE, 0x0CC4),
     R(0x0CC6, 0x0CC8), R(0x0CCA, 0x0CCD), R(0x0CD5, 0x0CD6), R(0x0CE6, 0x0CEF)]
  }

  function NameChars06(): (r: seq<Range>)
    ensures Ascending(r, 0x0CEF, 0x0ECD)
  {
    [R(0x0D02, 0x0D03), R(0x0D3E, 0x0D43), R(0x0D46, 0x0D48), R(0x0D4A, 0x0D4D), R(0x0D57, 0x0D57), R(0x0D66, 0x0D6F),
     R(0x0E31, 0x0E31), R(0x0E34, 0x0E3A), R(0x0E46, 0x0E46), R(0x0E47, 0x0E4E), R(0x0E50, 0x0E59), R(0x0EB1, 0x0EB1),
     R(0x0EB4, 0x0EB9), R(0x0EBB, 0x0EBC), R(0x0EC6, 0x0EC6), R(0x0EC8, 0x0ECD)]
  }

  function NameChars07(): (r: seq<Range>)
    ensures Ascending(r, 0x0ECD, 0x20DC)
  {
    [R(0x0ED0, 0x0ED9), R(0x0F18, 0x0F19), R(0x0F20, 0x0F29), R(0x0F35, 0x0F35), R(0x0F37, 0x0F37), R(0x0F39, 0x0F39),
     R(0x0F3E, 0x0F3E), R(0x0F3F, 0x0F3F), R(0x0F71, 0x0F84), R(0x0F86, 0x0F8B), R(0x0F90, 0x0F95), R(0x0F97, 0x0F97),
     R(0x0F99, 0x0FAD), R(0x0FB1, 0x0FB7), R(0x0FB9, 0x0FB9), R(0x20D0, 0x20DC)]
  }

  function NameChars08(): (r: seq<Range>)
    ensures Ascending(r, 0x20DC, 0x30FE) && r[|r| - 1].last == 0x30FE
  {
    [R(0x20E1, 0x20E1), R(0x3005, 0x3005), R(0x302A, 0x302F), R(0x3031, 0x3035), R(0x3099, 0x3099), R(0x309A, 0x309A),
     R(0x309D, 0x309E), R(0x30FC, 0x30FE)]
  }

  function NameCharsFrom01(): seq<Range> {
    NameChars01() + (NameChars02() + (NameChars03() + (NameChars04() + (NameChars05() + (NameChars06() +
    (NameChars07() + (NameChars08())))))))
  }

  lemma NameCharsFrom01Ascend()
    ensures Ascending(NameCharsFrom01(), 0x00B6, 0x30FE) && NameCharsFrom01()[|NameCharsFrom01()| - 1].last == 0x30FE
  {
    hide Ascending, NameChars01, NameChars02, NameChars03, NameChars04, NameChars05, NameChars06, NameChars07,
         NameChars08;
    var r := NameChars08();
    r := Join(NameChars07(), r, 0x0ECD, 0x20DC, 0x30FE);
    r := Join(NameChars06(), r, 0x0CEF, 0x0ECD, 0x30FE);
    r := Join(NameChars05(), r, 0x0BC2, 0x0CEF, 0x30FE);
    r := Join(NameChars04(), r, 0x0A6F, 0x0BC2, 0x30FE);
    r := Join(NameChars03(), r, 0x09BC, 0x0A6F, 0x30FE);
    r := Join(NameChars02(), r, 0x0669, 0x09BC, 0x30FE);
    r := Join(NameChars01(), r, 0x00B6, 0x0669, 0x30FE);
  }

  /** NameChar: the characters that a name may only continue with. */
  function NameChars(): seq<Range> {
    NameChars00() + NameCharsFrom01()
  }

  lemma NameCharsAscend()
    ensures Ascending(NameCharsFrom01(), 0x00B6, 0x30FE) && Ascending(NameChars(), 0, 0x30FE) && NameChars()[|NameChars()| - 1].last == 0x30FE
  {
    hide Ascending, NameChars00, NameCharsFrom01;
    NameCharsFrom01Ascend();
    var r := Join(NameChars00(), NameCharsFrom01(), 0, 0x00B6, 0x30FE);
  }
}
