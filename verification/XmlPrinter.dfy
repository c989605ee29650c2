/**
 The texts that the ixml printer writes.
 */
module XmlPrinter {
  import opened CText
  import opened XmlTree

  function EscapeChar(c: char): string {
    match c
    case '<' => "&lt;"
    case '>' => "&gt;"
    case '&' => "&amp;"
    case '\'' => "&apos;"
    case '"' => "&quot;"
    case _ => [c]
  }

  function Escape(v: string): string {
    if v == "" then "" else EscapeChar(v[0]) + Escape(v[1..])
  }

  function PrintAttrs(attrs: seq<Attr>): string {
    if attrs == [] then ""
    else " " + attrs[0].name + "=\"" + Escape(attrs[0].value) + "\"" + PrintAttrs(attrs[1..])
  }

  lemma NoAttrs()
    ensures PrintAttrs([]) == ""
  {
  }

  /** The line break that follows a tag unless text must come next. */
  function Break(omit: bool): string {
    if omit then "" else "\r\n"
  }

  function PrintElement(n: Node, beforeText: bool): string
    requires n.Element?
    decreases n, 1
  {
    "<" + n.name + PrintAttrs(n.attrs) + ">" + Break(n.kids == [] || n.kids[0].Text?)
    + PrintAll(n.kids)
    + "</" + n.name + ">" + Break(beforeText)
  }

  /** A child list: nothing is printed after the first text node. */
  function PrintAll(ns: seq<Node>): string
    decreases ns, 0
  {
    if ns == [] then ""
    else if ns[0].Text? then Escape(ns[0].value)
    else PrintElement(ns[0], |ns| > 1 && ns[1].Text?) + PrintAll(ns[1..])
  }

  const DECLARATION := "<?xml version=\"1.0\"?>\r\n"

  /** ixmlPrintDocument */
  function PrintDocument(roots: seq<Node>): string {
    DECLARATION + PrintAll(roots)
  }
}
