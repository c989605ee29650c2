/**
 Document trees as the ixml DOM holds them: names and values are UTF-8 byte strings.
 */
module XmlTree {
  import opened CText
  import opened Utf8
  import opened XmlChars

  datatype Attr = Attr(name: string, value: string)

  datatype Node =
    | Element(name: string, attrs: seq<Attr>, kids: seq<Node>)
    | Text(value: string)

  function EncodeAll(cs: seq<int>): string {
    if cs == [] then "" else Encode(cs[0]) + EncodeAll(cs[1..])
  }

  predicate XmlCodes(cs: seq<int>) {
    forall k :: 0 <= k < |cs| ==> IsXmlChar(cs[k])
  }

  /** `v` is the UTF-8 form of XML characters. */
  ghost predicate IsXmlText(v: string) {
    exists cs: seq<int> :: v == EncodeAll(cs) && XmlCodes(cs)
  }

  predicate NameCodes(cs: seq<int>) {
    && cs != [] && IsLetter(cs[0])
    && (forall k :: 0 <= k < |cs| ==> IsNameChar(cs[k]) && cs[k] != ':' as int)
  }

  /** `v` is the UTF-8 form of a name without a namespace prefix. */
  ghost predicate IsXmlName(v: string) {
    exists cs: seq<int> :: v == EncodeAll(cs) && NameCodes(cs)
  }

  predicate DistinctNames(attrs: seq<Attr>) {
    forall j, k :: 0 <= j < k < |attrs| ==> attrs[j].name != attrs[k].name
  }

  ghost predicate WellFormedAttrs(attrs: seq<Attr>) {
    && DistinctNames(attrs)
    && forall k :: 0 <= k < |attrs| ==>
         IsXmlName(attrs[k].name) && attrs[k].name != "xmlns" && IsXmlText(attrs[k].value)
  }

  /** Names, attributes and text as XML allows them. */
  ghost predicate WellFormed(n: Node) {
    match n
    case Element(name, attrs, kids) => IsXmlName(name) && WellFormedAttrs(attrs) && WellFormedAll(kids)
    case Text(value) => IsXmlText(value)
  }

  ghost predicate WellFormedAll(ns: seq<Node>) {
    ns == [] || (WellFormed(ns[0]) && WellFormedAll(ns[1..]))
  }

  lemma EncodeLeads(c: int)
    requires IsNameChar(c)
    ensures Encode(c) != "" && (c > 127 ==> 0xC0 <= Encode(c)[0] as int < 256) && (c <= 127 ==> Encode(c) == [c as char])
  {
    NameCharRange(c);
    hide IsNameChar;
  }

  /** A name begins with a letter, so with no delimiter and no white space. */
  lemma NameLeads(s: string, i: nat, name: string)
    requires IsXmlName(name) && StartsWith(s, i, name)
    ensures name != "" && At(s, i) == name[0] && IsLetter(Decode(s, i).value)
    ensures name[0] !in {'<', '>', '/', '=', '"', '\'', '&', '?', '!', NUL} && !IsSpace(name[0])
  {
    hide IsLetter, Encode, StartsWith;
    var cs :| name == EncodeAll(cs) && NameCodes(cs);
    var e := Encode(cs[0]);
    EncodeLeads(cs[0]);
    NameCharRange(cs[0]);
    hide IsNameChar;
    assert name == e + EncodeAll(cs[1..]);
    StartsWithSplit(s, i, e, EncodeAll(cs[1..]));
    StartsWithAt(s, i, name, 0);
    DecodeEncode(s, i, cs[0]);
  }
}
