/**
 The ixml parser: its state, one iteration of the parse loop, and the whole run, in strict mode.
 The tree under construction together with `currentNodePtr` is a `Cursor`.
 */
module XmlParser {
  import opened CText
  import opened Utf8
  import opened XmlChars
  import opened XmlLexer
  import opened XmlTree

  datatype Mode = InElement | InAttribute | InContent

  /** An open element: its name, attributes and the children appended so far. */
  datatype Frame = Frame(name: string, attrs: seq<Attr>, kids: seq<Node>)

  /** `path[0]` is the current node, the last of `path` the root; the document itself if `path` is empty. */
  datatype Cursor = Cursor(path: seq<Frame>, roots: seq<Node>) {

    /** ixmlNode_appendChild at the current node */
    function Append(n: Node): Cursor {
      if path == [] then Cursor([], roots + [n])
      else Cursor([path[0].(kids := path[0].kids + [n])] + path[1..], roots)
    }

    function AddAttr(a: Attr): Cursor
      requires path != []
    {
      Cursor([path[0].(attrs := path[0].attrs + [a])] + path[1..], roots)
    }

    /** Append a new element and make it the current node. */
    function Descend(name: string): Cursor {
      Cursor([Frame(name, [], [])] + path, roots)
    }

    /** Move to the parent of the current node. */
    function Ascend(): Cursor
      requires path != []
    {
      var f := path[0];
      Cursor(path[1..], roots).Append(Element(f.name, f.attrs, f.kids))
    }
  }

  /** `stack` is the element stack, top first. */
  datatype Parser = Parser(
    cur: nat,
    save: nat,
    mode: Mode,
    lastElem: Option<string>,
    stack: seq<string>,
    hasTop: bool,
    tree: Cursor)

  datatype Item =
    | NoNode
    | StartTag(name: string)
    | EndTag(name: string)
    | TextNode(value: string)
    | AttrNode(attr: Attr)

  /**
   OutOfScope marks namespaces and CDATA sections, which this model leaves out. NullElement is the assertion of
   Parser_isValidEndElement, which follows the top of an empty element stack.
   */
  datatype Error = Syntax | OutOfScope | NullElement

  datatype Fetched =
    | FileDone
    | Fetched(item: Item, parser: Parser)
    | Failed(error: Error)

  /** The tag name scan and the look-ahead of Parser_processSTag, after "<". */
  function ProcessSTag(s: string, p: Parser): (r: Fetched)
    requires p.cur <= |s|
    ensures r.Fetched? ==> p.cur < r.parser.cur <= |s|
  {
    var name := GetNextToken(s, p.cur, p.save);
    if name.text == "" then Failed(Syntax)
    else if ':' in name.text then Failed(OutOfScope)
    else
      var next := GetNextToken(s, name.cur, name.cur);
      if next.text == "" then Failed(Syntax)
      else
        var q := p.(lastElem := Some(name.text), save := next.save);
        Fetched(
          StartTag(name.text),
          if next.text == "/>" then q.(mode := InElement, cur := next.save)
          else if next.text == ">" then q.(mode := InContent, cur := next.cur)
          else q.(mode := InAttribute, cur := next.save))
  }

  /** Parser_processETag, after "</". */
  function ProcessETag(s: string, p: Parser): (r: Fetched)
    requires p.cur <= |s|
    ensures r.Fetched? ==> p.cur < r.parser.cur <= |s|
  {
    var name := GetNextToken(s, p.cur, p.save);
    if name.text == "" then Failed(Syntax)
    else
      var close := GetNextToken(s, SkipSpaces(s, name.cur), name.save);
      if close.text != ">" then Failed(Syntax)
      else Fetched(EndTag(name.text), p.(cur := close.cur, save := close.save))
  }

  /** The first "<" or "]]>" at or after `i`, or the end of the buffer. */
  function ContentEnd(s: string, i: nat): (r: nat)
    ensures i <= r && (i <= |s| ==> r <= |s|)
    decreases |s| - i
  {
    if i >= |s| || s[i] == '<' || s[i] == NUL || StartsWith(s, i, "]]>") then i else ContentEnd(s, i + 1)
  }

  /** Parser_processContent */
  function ProcessContent(s: string, p: Parser): (r: Fetched)
    requires p.cur <= |s|
    ensures r.Fetched? ==> p.cur <= r.parser.cur <= |s|
    ensures !r.FileDone?
  {
    var q := p.(save := p.cur);
    var c := SkipSpaces(s, p.cur);
    if At(s, c) == NUL then Fetched(NoNode, q.(cur := c))
    else if At(s, c) == '<' then
      if StartsWith(s, c, "<![CDATA[") then Failed(OutOfScope)
      else if StartsWith(s, c, "<!--") then
        var e := SkipComment(s, c);
        if e.None? then Failed(Syntax) else Fetched(NoNode, q.(cur := e.value))
      else if StartsWith(s, c, "<?") then
        var e := SkipPI(s, c);
        if e.None? then Failed(Syntax) else Fetched(NoNode, q.(cur := e.value))
      else Fetched(NoNode, q.(cur := c, mode := InElement))
    else
      var e := ContentEnd(s, p.cur);
      var t := CopyToken(s, p.cur, e);
      if StartsWith(s, e, "]]>") || t.None? then Failed(Syntax)
      else Fetched(TextNode(t.value), q.(cur := e))
  }

  /** The scan for "<" in a quoted value; the byte after an ampersand is not looked at. */
  predicate HasRawLess(s: string, i: nat, end: nat)
    decreases end - i
  {
    i < end && (At(s, i) == '<' || HasRawLess(s, if At(s, i) == '&' then i + 2 else i + 1, end))
  }

  /** Parser_processAttribute, after the attribute name. */
  function ProcessAttribute(s: string, p: Parser, name: string): (r: Fetched)
    requires p.cur <= |s|
    ensures r.Fetched? ==> p.cur < r.parser.cur <= |s|
    ensures !r.FileDone?
  {
    if !IsLetter(Decode(name, 0).value) then Failed(Syntax)
    else if ':' in name || name == "xmlns" then Failed(OutOfScope)
    else
      var eq := GetNextToken(s, p.cur, p.save);
      if At(eq.text, 0) != '=' then Failed(Syntax)
      else
        var quote := GetNextToken(s, eq.cur, eq.save);
        if At(quote.text, 0) != '"' && At(quote.text, 0) != '\'' then Failed(Syntax)
        else
          var end := Find(s, quote.cur, quote.text);
          if end.None? || HasRawLess(s, quote.cur, end.value) then Failed(Syntax)
          else
            var value := CopyFrom(s, quote.cur, end.value);
            if value.None? then Failed(Syntax)
            else AfterAttribute(s, p.(cur := end.value + 1, save := quote.save), Attr(name, value.value))
  }

  /** The look-ahead that ends Parser_processAttribute. */
  function AfterAttribute(s: string, p: Parser, a: Attr): (r: Fetched)
    requires p.cur <= |s|
    ensures r.Fetched? ==> p.cur <= r.parser.cur <= |s|
  {
    var next := GetNextToken(s, p.cur, p.cur);
    if next.text == "" || next.text == "<" then Failed(Syntax)
    else if next.text == ">" then Fetched(AttrNode(a), p.(cur := next.cur, save := next.save, mode := InContent))
    else Fetched(AttrNode(a), p.(cur := next.save, save := next.save))
  }

  /** Parser_getNextNode */
  function GetNextNode(s: string, p: Parser): (r: Fetched)
    requires p.cur <= |s|
    ensures r.Fetched? ==> r.parser.cur <= |s|
    ensures r.Fetched? ==> p.cur < r.parser.cur ||
                           (p.cur == r.parser.cur && p.mode == InContent && r.parser.mode != InContent)
    ensures r.Fetched? && r.item.EndTag? ==> p.cur < r.parser.cur
  {
    if At(s, p.cur) == NUL then FileDone
    else if p.mode == InContent then ProcessContent(s, p)
    else
      var tok := GetNextToken(s, SkipSpaces(s, p.cur), p.save);
      var q := p.(cur := tok.cur, save := tok.save);
      if tok.text == "" then
        if p.stack == [] && At(s, tok.cur) == NUL then Fetched(NoNode, q) else Failed(Syntax)
      else if tok.text[0] == '>' then Fetched(NoNode, q)
      else if tok.text == "</" then ProcessETag(s, q)
      else if tok.text[0] == '<' then ProcessSTag(s, q)
      else if tok.text == "/>" then
        if p.lastElem.None? then Failed(Syntax) else Fetched(EndTag(p.lastElem.value), q)
      else if p.mode == InAttribute && p.stack != [] then ProcessAttribute(s, q, tok.text)
      else Failed(Syntax)
  }

  datatype Outcome =
    | Next(parser: Parser)
    | Accepted(roots: seq<Node>)
    | Rejected(error: Error)

  predicate HasAttr(attrs: seq<Attr>, name: string) {
    exists k :: 0 <= k < |attrs| && attrs[k].name == name
  }

  /** Parser_processElementName: one root only; append, descend, push. */
  function ProcessElementName(p: Parser, name: string): Outcome {
    if p.hasTop && p.stack == [] then Rejected(Syntax)
    else Next(p.(hasTop := true, save := p.cur, tree := p.tree.Descend(name), stack := [name] + p.stack))
  }

  /** Parser_eTagVerification: against the stack, then against the current node. */
  function VerifyETag(p: Parser, name: string): Outcome {
    if p.stack == [] then Rejected(NullElement)
    else if p.stack[0] != name then Rejected(Syntax)
    else if p.tree.path == [] || p.tree.path[0].name != name then Rejected(Syntax)
    else Next(p.(stack := p.stack[1..], tree := p.tree.Ascend(), mode := InContent))
  }

  /** What the parse loop does with a fetched item. */
  function Apply(p: Parser, item: Item): (r: Outcome)
    ensures !r.Accepted? && (r.Next? ==> r.parser.cur == p.cur && (item.EndTag? || r.parser.mode == p.mode))
  {
    match item
    case NoNode => Next(p)
    case StartTag(name) => ProcessElementName(p, name)
    case EndTag(name) => VerifyETag(p, name)
    case TextNode(value) =>
      if p.tree.path == [] then Rejected(Syntax) else Next(p.(tree := p.tree.Append(Text(value))))
    case AttrNode(a) =>
      if p.tree.path == [] || HasAttr(p.tree.path[0].attrs, a.name) then Rejected(Syntax)
      else Next(p.(tree := p.tree.AddAttr(a)))
  }

  /** One iteration of the loop of Parser_parseDocument. */
  function Step(s: string, p: Parser): (r: Outcome)
    requires p.cur <= |s|
    ensures r.Next? ==> r.parser.cur <= |s|
    ensures r.Next? ==> p.cur < r.parser.cur ||
                        (p.cur == r.parser.cur && p.mode == InContent && r.parser.mode != InContent)
  {
    hide GetNextNode, Apply;
    match GetNextNode(s, p)
    case FileDone => if p.stack == [] then Accepted(p.tree.roots) else Rejected(Syntax)
    case Failed(e) => Rejected(e)
    case Fetched(item, q) => Apply(q, item)
  }

  /** The loop: bytes remaining and the content mode decrease lexicographically. */
  function Run(s: string, p: Parser): (r: Outcome)
    requires p.cur <= |s|
    ensures !r.Next?
    decreases |s| - p.cur, p.mode == InContent
  {
    match Step(s, p)
    case Next(q) => Run(s, q)
    case Accepted(roots) => Accepted(roots)
    case Rejected(e) => Rejected(e)
  }

  /** Parser_skipProlog; a DOCTYPE is left to OutOfScope by the caller. */
  function SkipProlog(s: string): (r: Skipped)
    ensures r.pos <= |s|
  {
    var i := SkipSpaces(s, 0);
    if StartsWith(s, i, "<?xml ") then
      var e := Find(s, i, "?>");
      if e.None? then Skipped(false, |s|) else SkipMisc(s, SkipSpaces(s, e.value + 2))
    else SkipMisc(s, i)
  }

  /** The parser after Parser_init and the prolog. */
  function Start(pos: nat): Parser {
    Parser(pos, 0, InElement, None, [], false, Cursor([], []))
  }

  /** The checks and skips before the loop of Parser_parseDocument. */
  function Begin(s: string): (r: Outcome)
    ensures r.Next? ==> r.parser == Start(r.parser.cur) && r.parser.cur <= |s|
    ensures !r.Accepted?
  {
    var prolog := SkipProlog(s);
    if s == "" || !prolog.ok then Rejected(Syntax)
    else if StartsWith(s, prolog.pos, "<!DOCTYPE") then Rejected(OutOfScope)
    else
      var again := SkipMisc(s, prolog.pos);
      if !again.ok then Rejected(Syntax) else Next(Start(again.pos))
  }

  /** ixmlParseBufferEx and Parser_LoadDocument on a buffer */
  function Parse(s: string): (r: Outcome)
    ensures !r.Next?
  {
    match Begin(s)
    case Next(p) => Run(s, p)
    case r => r
  }
}
