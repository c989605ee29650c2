/**
 UTF-8 with sequences of one to six octets (section 2 of RFC 2279), as the ixml parser
 reads and writes it.  Masks and shifts are written as division and remainder.
 */
module Utf8 {
  import opened CText

  /** A code point and the number of octets it took; (-1, 0) for no valid sequence. */
  datatype Decoded = Decoded(value: int, len: nat)

  predicate IsTail(c: char) {
    0x80 <= c as int < 0xC0
  }

  function Tail(c: char): nat {
    c as int % 64
  }

  /** Parser_UTF8ToInt */
  function Decode(s: string, i: nat): (r: Decoded)
    ensures r.value >= -1 && (r.value >= 0 <==> r.len > 0) && r.len <= 6
    ensures r.value > 0 ==> i + r.len <= |s|
  {
    var c := At(s, i) as int;
    var s1, s2, s3, s4, s5 := At(s, i + 1), At(s, i + 2), At(s, i + 3), At(s, i + 4), At(s, i + 5);
    if c <= 127 then
      Decoded(c, 1)
    else if 0xC0 <= c < 0xE0 && IsTail(s1) then
      Decoded(c % 32 * 64 + Tail(s1), 2)
    else if 0xE0 <= c < 0xF0 && IsTail(s1) && IsTail(s2) then
      Decoded((c % 16 * 64 + Tail(s1)) * 64 + Tail(s2), 3)
    else if 0xF0 <= c < 0xF8 && IsTail(s1) && IsTail(s2) && IsTail(s3) then
      Decoded(((c % 8 * 64 + Tail(s1)) * 64 + Tail(s2)) * 64 + Tail(s3), 4)
    else if 0xF8 <= c < 0xFC && IsTail(s1) && IsTail(s2) && IsTail(s3) && IsTail(s4) then
      Decoded((((c % 4 * 64 + Tail(s1)) * 64 + Tail(s2)) * 64 + Tail(s3)) * 64 + Tail(s4), 5)
    else if 0xFC <= c < 0xFE && IsTail(s1) && IsTail(s2) && IsTail(s3) && IsTail(s4) && IsTail(s5) then
      Decoded(((((c % 2 * 64 + Tail(s1)) * 64 + Tail(s2)) * 64 + Tail(s3)) * 64 + Tail(s4)) * 64 + Tail(s5), 6)
    else
      Decoded(-1, 0)
  }

  function TailOctet(n: nat): char {
    (0x80 + n % 64) as char
  }

  /** Parser_intToUTF8; the empty string stands for its 0 return. */
  function Encode(c: int): (s: string)
    ensures s == "" <==> c < 0 || c > 0x7FFF_FFFF
  {
    if c < 0 then ""
    else if c <= 127 then [c as char]
    else if c <= 0x7FF then [(0xC0 + c / 64) as char, TailOctet(c)]
    else if c <= 0xFFFF then [(0xE0 + c / 4096) as char, TailOctet(c / 64), TailOctet(c)]
    else if c <= 0x1F_FFFF then
      [(0xF0 + c / 0x4_0000) as char, TailOctet(c / 4096), TailOctet(c / 64), TailOctet(c)]
    else if c <= 0x3FF_FFFF then
      [(0xF8 + c / 0x100_0000) as char, TailOctet(c / 0x4_0000), TailOctet(c / 4096), TailOctet(c / 64),
       TailOctet(c)]
    else if c <= 0x7FFF_FFFF then
      [(0xFC + c / 0x4000_0000) as char, TailOctet(c / 0x100_0000), TailOctet(c / 0x4_0000),
       TailOctet(c / 4096), TailOctet(c / 64), TailOctet(c)]
    else ""
  }

  lemma Shift(c: nat)
    ensures c == c / 64 * 64 + Tail(TailOctet(c)) && IsTail(TailOctet(c))
    ensures c / 64 / 64 == c / 4096 && c / 4096 / 64 == c / 0x4_0000
    ensures c / 0x4_0000 / 64 == c / 0x100_0000 && c / 0x100_0000 / 64 == c / 0x4000_0000
  {
  }

  lemma DecodeEncode12(s: string, i: nat, c: int)
    requires 0 <= c <= 0x7FF && StartsWith(s, i, Encode(c))
    ensures Decode(s, i) == Decoded(c, |Encode(c)|)
  {
    hide StartsWith;
    var e := Encode(c);
    StartsWithAt(s, i, e, 0);
    if c > 127 {
      StartsWithAt(s, i, e, 1);
      Shift(c);
    }
  }

  lemma DecodeEncode3(s: string, i: nat, c: int)
    requires 0x7FF < c <= 0xFFFF && StartsWith(s, i, Encode(c))
    ensures Decode(s, i) == Decoded(c, |Encode(c)|)
  {
    hide StartsWith;
    var e := Encode(c);
    StartsWithAt(s, i, e, 0);
    StartsWithAt(s, i, e, 1);
    StartsWithAt(s, i, e, 2);
    Shift(c);
    Shift(c / 64);
  }

  lemma DecodeEncode4(s: string, i: nat, c: int)
    requires 0xFFFF < c <= 0x1F_FFFF && StartsWith(s, i, Encode(c))
    ensures Decode(s, i) == Decoded(c, |Encode(c)|)
  {
    hide StartsWith, Tail, TailOctet, IsTail;
    var e := Encode(c);
    StartsWithAt(s, i, e, 0);
    StartsWithAt(s, i, e, 1);
    StartsWithAt(s, i, e, 2);
    StartsWithAt(s, i, e, 3);
    Shift(c);
    Shift(c / 64);
    Shift(c / 4096);
  }

  lemma DecodeEncode5(s: string, i: nat, c: int)
    requires 0x1F_FFFF < c <= 0x3FF_FFFF && StartsWith(s, i, Encode(c))
    ensures Decode(s, i) == Decoded(c, |Encode(c)|)
  {
    hide StartsWith, Tail, TailOctet, IsTail;
    var e := Encode(c);
    StartsWithAt(s, i, e, 0);
    StartsWithAt(s, i, e, 1);
    StartsWithAt(s, i, e, 2);
    StartsWithAt(s, i, e, 3);
    StartsWithAt(s, i, e, 4);
    Shift(c);
    Shift(c / 64);
    Shift(c / 4096);
    Shift(c / 0x4_0000);
  }

  lemma DecodeEncode6(s: string, i: nat, c: int)
    requires 0x3FF_FFFF < c <= 0x7FFF_FFFF && StartsWith(s, i, Encode(c))
    ensures Decode(s, i) == Decoded(c, |Encode(c)|)
  {
    hide StartsWith, Tail, TailOctet, IsTail;
    var e := Encode(c);
    StartsWithAt(s, i, e, 0);
    StartsWithAt(s, i, e, 1);
    StartsWithAt(s, i, e, 2);
    StartsWithAt(s, i, e, 3);
    StartsWithAt(s, i, e, 4);
    StartsWithAt(s, i, e, 5);
    Shift(c);
    Shift(c / 64);
    Shift(c / 4096);
    Shift(c / 0x4_0000);
    Shift(c / 0x100_0000);
  }

  /** Decoding inverts encoding for every 31-bit code, whatever follows it. */
  lemma DecodeEncode(s: string, i: nat, c: int)
    requires 0 <= c <= 0x7FFF_FFFF && StartsWith(s, i, Encode(c))
    ensures Decode(s, i) == Decoded(c, |Encode(c)|)
  {
    if c <= 0x7FF {
      DecodeEncode12(s, i, c);
    } else if c <= 0xFFFF {
      DecodeEncode3(s, i, c);
    } else if c <= 0x1F_FFFF {
      DecodeEncode4(s, i, c);
    } else if c <= 0x3FF_FFFF {
      DecodeEncode5(s, i, c);
    } else {
      DecodeEncode6(s, i, c);
    }
  }

  /** The least code of a sequence of n octets, and the least first octet. */
  function LeastCode(n: nat): nat {
    match n
    case 2 => 0x80
    case 3 => 0x800
    case 4 => 0x1_0000
    case 5 => 0x20_0000
    case 6 => 0x400_0000
    case _ => 0
  }

  function LeastLead(n: nat): nat {
    match n
    case 2 => 0xC0
    case 3 => 0xE0
    case 4 => 0xF0
    case 5 => 0xF8
    case 6 => 0xFC
    case 7 => 0xFE
    case _ => 0
  }

  /** A code is written with as few octets as will do: the first tells their number, and the others are tails. */
  lemma EncodeShape(c: int)
    requires 0 <= c <= 0x7FFF_FFFF
    ensures var e := Encode(c);
            && 1 <= |e| <= 6 && LeastCode(|e|) <= c && (|e| < 6 ==> c < if |e| == 1 then 0x80 else LeastCode(|e| + 1))
            && (if |e| == 1 then e == [c as char] else LeastLead(|e|) <= e[0] as int < LeastLead(|e| + 1))
            && forall k :: 0 < k < |e| ==> IsTail(e[k])
  {
    TailIsTail();
    hide TailOctet, IsTail;
  }

  lemma TailIsTail()
    ensures forall n: nat :: IsTail(TailOctet(n))
  {
  }
}
