/**
 What every iteration of the parse loop keeps, and what acceptance of a buffer means.
 */
module XmlNesting {
  import opened CText
  import opened Utf8
  import opened XmlLexer
  import opened XmlTree
  import opened XmlParser
  import opened XmlLexing
  import opened XmlSteps

  /** The element stack spells the names on the path from the current node to the root. */
  predicate StackIsPath(p: Parser) {
    |p.stack| == |p.tree.path| && forall k :: 0 <= k < |p.stack| ==> p.stack[k] == p.tree.path[k].name
  }

  /** `lastElem` names the current element, or nothing has been opened yet. */
  predicate LastIsTop(p: Parser) {
    if p.stack == [] then p.lastElem.None? else p.lastElem == Some(p.stack[0])
  }

  /** At `i` stands "<" with no comment and no processing instruction. */
  predicate TagAhead(s: string, i: nat) {
    At(s, i) == '<' && SkipMisc(s, i) == Skipped(true, i)
  }

  /** Attribute names differ within every element. */
  predicate Sound(n: Node) {
    n.Element? ==> DistinctNames(n.attrs) && SoundAll(n.kids)
  }

  predicate SoundAll(ns: seq<Node>) {
    forall k :: 0 <= k < |ns| ==> Sound(ns[k])
  }

  predicate SoundTree(c: Cursor) {
    && SoundAll(c.roots)
    && (forall k :: 0 <= k < |c.roots| ==> c.roots[k].Element?)
    && forall k :: 0 <= k < |c.path| ==> DistinctNames(c.path[k].attrs) && SoundAll(c.path[k].kids)
  }

  /** One root, open or closed, exactly when the parser has seen one. */
  predicate OneRoot(p: Parser) {
    |p.tree.roots| + (if p.tree.path == [] then 0 else 1) == if p.hasTop then 1 else 0
  }

  predicate ModeInv(s: string, p: Parser) {
    match p.mode
    case InContent => true
    case InAttribute => p.stack != [] && LastIsTop(p)
    case InElement => LastIsTop(p) || TagAhead(s, p.cur)
  }

  predicate Inv(s: string, p: Parser) {
    p.cur <= |s| && StackIsPath(p) && OneRoot(p) && SoundTree(p.tree) && ModeInv(s, p)
  }

  lemma CopyLess(s: string, i: nat, end: nat)
    requires At(s, i) == '<' && CopyToken(s, i, end).Some?
    ensures |CopyToken(s, i, end).value| > 0 && CopyToken(s, i, end).value[0] == '<'
  {
  }

  /** The token at a tag starts with "<". */
  lemma TagAheadToken(s: string, i: nat, save: nat)
    requires TagAhead(s, i)
    ensures var t := GetNextToken(s, SkipSpaces(s, i), save);
            if t.text == "" then At(s, t.cur) == '<' else t.text[0] == '<'
  {
    hide CopyToken, SkipMisc, SkipSpaces, TokenLength;
    SkipSpacesTo(s, i, i);
    var t := CopyToken(s, i, i + TokenLength(s, i));
    if t.Some? {
      CopyLess(s, i, i + TokenLength(s, i));
    }
  }

  /** Whenever "/>" is consumed, it closes the current element. */
  lemma EmptyTagClosesTop(s: string, p: Parser)
    requires Inv(s, p) && p.mode != InContent && p.lastElem.Some?
    requires GetNextToken(s, SkipSpaces(s, p.cur), p.save).text == "/>"
    ensures p.stack != [] && p.lastElem == Some(p.stack[0])
  {
    if TagAhead(s, p.cur) {
      TagAheadToken(s, p.cur, p.save);
    }
  }

  /** The check against the current node never fails once the check against the stack has passed. */
  lemma SecondCheckPasses(s: string, p: Parser, name: string)
    requires Inv(s, p)
    ensures VerifyETag(p, name).Next? <==> p.stack != [] && p.stack[0] == name
  {
  }

  /** What a fetched item says of the parser that fetched it. */
  predicate Fits(p: Parser, q: Parser, s: string, item: Item) {
    && q.stack == p.stack && q.tree == p.tree && q.hasTop == p.hasTop && q.cur <= |s|
    && match item
       case NoNode => ModeInv(s, q)
       case StartTag(name) => q.lastElem == Some(name)
       case EndTag(name) => true
       case TextNode(value) => q.mode == InContent
       case AttrNode(a) => q.lastElem == p.lastElem && p.stack != [] && LastIsTop(p)
  }

  lemma ContentFits(s: string, p: Parser)
    requires p.cur <= |s| && p.mode == InContent
    ensures var f := ProcessContent(s, p);
            f.Fetched? ==> Fits(p, f.parser, s, f.item)
  {
    hide SkipComment, SkipPI, SkipSpaces, ContentEnd, CopyToken;
    var c := SkipSpaces(s, p.cur);
    if At(s, c) == '<' && !StartsWith(s, c, "<!--") && !StartsWith(s, c, "<?") {
      assert TagAhead(s, c) by { PlainTag(s, c); }
    }
  }

  lemma TwoBytes(s: string, i: nat, w: string)
    requires |w| == 2 && w[0] != NUL && w[1] != NUL
    ensures StartsWith(s, i, w) <==> At(s, i) == w[0] && At(s, i + 1) == w[1]
  {
    if At(s, i) == w[0] && At(s, i + 1) == w[1] {
      assert s[i..i + 2] == w;
    }
  }

  lemma PlainTag(s: string, c: nat)
    requires At(s, c) == '<' && !StartsWith(s, c, "<!--") && !StartsWith(s, c, "<?")
    ensures TagAhead(s, c)
  {
    SkipSpacesTo(s, c, c);
    TwoBytes(s, c, "<?");
    NotStarting(s, c, "<?xml ", 1);
    NotStarting(s, c, "<?xml?", 1);
  }

  lemma FetchFits(s: string, p: Parser)
    requires Inv(s, p)
    ensures var f := GetNextNode(s, p);
            f.Fetched? ==> Fits(p, f.parser, s, f.item)
  {
    hide GetNextToken, SkipSpaces, ProcessContent, StackIsPath, OneRoot, SoundTree;
    if p.mode == InContent {
      ContentFits(s, p);
    } else {
      TagFits(s, p);
    }
  }

  /** Outside content. */
  lemma TagFits(s: string, p: Parser)
    requires p.cur <= |s| && ModeInv(s, p) && p.mode != InContent
    ensures var f := GetNextNode(s, p);
            f.Fetched? ==> Fits(p, f.parser, s, f.item)
  {
    hide GetNextToken, SkipSpaces, ProcessContent, TagAhead, ProcessAttribute;
    if TagAhead(s, p.cur) {
      TagAheadToken(s, p.cur, p.save);
    }
    var tok := GetNextToken(s, SkipSpaces(s, p.cur), p.save);
    AttributeFits(s, p.(cur := tok.cur, save := tok.save), tok.text);
  }

  lemma AttributeFits(s: string, p: Parser, name: string)
    requires p.cur <= |s|
    ensures var f := ProcessAttribute(s, p, name);
            f.Fetched? ==>
              && f.item.AttrNode? && f.parser.stack == p.stack && f.parser.tree == p.tree && f.parser.hasTop == p.hasTop
              && f.parser.lastElem == p.lastElem
  {
    hide GetNextToken, Find, HasRawLess, CopyFrom;
  }

  lemma SoundAppend(c: Cursor, n: Node)
    requires SoundTree(c) && Sound(n) && (c.path == [] ==> n.Element?)
    ensures SoundTree(c.Append(n))
  {
  }

  lemma SoundAscend(c: Cursor)
    requires SoundTree(c) && c.path != []
    ensures SoundTree(c.Ascend())
  {
    var f := c.path[0];
    SoundAppend(Cursor(c.path[1..], c.roots), Element(f.name, f.attrs, f.kids));
  }

  lemma SoundAddAttr(c: Cursor, a: Attr)
    requires SoundTree(c) && c.path != [] && !HasAttr(c.path[0].attrs, a.name)
    ensures SoundTree(c.AddAttr(a))
  {
  }

  lemma ApplyKeepsSound(p: Parser, item: Item)
    requires SoundTree(p.tree) && Apply(p, item).Next?
    ensures SoundTree(Apply(p, item).parser.tree)
  {
    match item
    case NoNode =>
    case StartTag(name) =>
    case EndTag(name) => SoundAscend(p.tree);
    case TextNode(value) => SoundAppend(p.tree, Text(value));
    case AttrNode(a) => SoundAddAttr(p.tree, a);
  }

  /** Appending a node keeps the names along the path, and ascending drops the first. */
  lemma PathNames(c: Cursor, n: Node)
    ensures |c.Append(n).path| == |c.path|
    ensures forall k :: 0 <= k < |c.path| ==> c.Append(n).path[k].name == c.path[k].name
  {
  }

  lemma AscendNames(c: Cursor)
    requires c.path != []
    ensures |c.Ascend().path| == |c.path| - 1
    ensures forall k :: 0 <= k < |c.path| - 1 ==> c.Ascend().path[k].name == c.path[1..][k].name
  {
    var f := c.path[0];
    PathNames(Cursor(c.path[1..], c.roots), Element(f.name, f.attrs, f.kids));
  }

  lemma ApplyKeepsPath(p: Parser, item: Item)
    requires StackIsPath(p) && Apply(p, item).Next?
    ensures StackIsPath(Apply(p, item).parser)
  {
    match item
    case NoNode =>
    case StartTag(name) =>
    case EndTag(name) =>
      AscendNames(p.tree);
      var q := Apply(p, item).parser;
      forall k | 0 <= k < |q.stack| ensures q.stack[k] == q.tree.path[k].name { assert q.stack[k] == p.stack[k + 1]; }
    case TextNode(value) => PathNames(p.tree, Text(value));
    case AttrNode(a) =>
  }

  lemma ApplyKeepsRoots(p: Parser, item: Item)
    requires StackIsPath(p) && OneRoot(p) && Apply(p, item).Next?
    ensures OneRoot(Apply(p, item).parser)
  {
  }

  /** Every iteration of the loop keeps the invariant. */
  lemma StepKeepsInv(s: string, p: Parser)
    requires Inv(s, p)
    ensures Step(s, p).Next? ==> Inv(s, Step(s, p).parser)
  {
    FetchFits(s, p);
    hide GetNextNode, SoundTree, TagAhead;
    var f := GetNextNode(s, p);
    if f.Fetched? && Apply(f.parser, f.item).Next? {
      ApplyKeepsSound(f.parser, f.item);
      ApplyKeepsPath(f.parser, f.item);
      ApplyKeepsRoots(f.parser, f.item);
    }
  }

  datatype Tag = Open(name: string) | Close(name: string)

  /** The tags of a tree in document order. */
  function Tags(n: Node): seq<Tag>
    decreases n, 1
  {
    match n
    case Element(name, attrs, kids) => [Open(name)] + TagsAll(kids) + [Close(name)]
    case Text(value) => []
  }

  function TagsAll(ns: seq<Node>): seq<Tag>
    decreases ns, 0
  {
    if ns == [] then [] else TagsAll(ns[..|ns| - 1]) + Tags(ns[|ns| - 1])
  }

  /** The tags seen so far: of the closed roots and along the path of open elements. */
  function PathTags(path: seq<Frame>): seq<Tag> {
    if path == [] then [] else PathTags(path[1..]) + [Open(path[0].name)] + TagsAll(path[0].kids)
  }

  function CursorTags(c: Cursor): seq<Tag> {
    TagsAll(c.roots) + PathTags(c.path)
  }

  /** The tags that one iteration consumes, and those of the whole run. */
  function StepTags(s: string, p: Parser): seq<Tag>
    requires p.cur <= |s|
  {
    match GetNextNode(s, p)
    case Fetched(StartTag(name), q) => [Open(name)]
    case Fetched(EndTag(name), q) => [Close(name)]
    case _ => []
  }

  function RunTags(s: string, p: Parser): seq<Tag>
    requires p.cur <= |s|
    decreases |s| - p.cur, p.mode == InContent
  {
    match Step(s, p)
    case Next(q) => StepTags(s, p) + RunTags(s, q)
    case _ => []
  }

  lemma AppendTags(c: Cursor, n: Node)
    ensures CursorTags(c.Append(n)) == CursorTags(c) + Tags(n)
  {
    if c.path == [] {
      assert (c.roots + [n])[..|c.roots|] == c.roots;
    } else {
      var k := c.path[0].kids;
      assert (k + [n])[..|k|] == k;
      assert c.Append(n).path[1..] == c.path[1..];
    }
  }

  lemma AscendTags(c: Cursor)
    requires c.path != []
    ensures CursorTags(c.Ascend()) == CursorTags(c) + [Close(c.path[0].name)]
  {
    var f := c.path[0];
    AppendTags(Cursor(c.path[1..], c.roots), Element(f.name, f.attrs, f.kids));
  }

  lemma DescendTags(c: Cursor, name: string)
    ensures CursorTags(c.Descend(name)) == CursorTags(c) + [Open(name)]
  {
    assert ([Frame(name, [], [])] + c.path)[1..] == c.path;
  }

  lemma AttrTags(c: Cursor, a: Attr)
    requires c.path != []
    ensures CursorTags(c.AddAttr(a)) == CursorTags(c)
  {
    assert c.AddAttr(a).path[1..] == c.path[1..];
  }

  lemma StepAddsTags(s: string, p: Parser)
    requires Inv(s, p) && Step(s, p).Next?
    ensures CursorTags(Step(s, p).parser.tree) == CursorTags(p.tree) + StepTags(s, p)
  {
    FetchFits(s, p);
    hide GetNextNode, SoundTree, TagAhead, CursorTags, ModeInv, OneRoot;
    var f := GetNextNode(s, p);
    match f.item
    case NoNode =>
    case StartTag(name) => DescendTags(p.tree, name);
    case EndTag(name) => AscendTags(p.tree);
    case TextNode(value) => AppendTags(p.tree, Text(value));
    case AttrNode(a) => AttrTags(p.tree, a);
  }

  lemma StepAccepts(s: string, p: Parser)
    requires p.cur <= |s| && Step(s, p).Accepted?
    ensures p.stack == [] && Step(s, p).roots == p.tree.roots
  {
    hide GetNextNode;
  }

  /** A run that accepts has consumed exactly the tags of the tree it returns. */
  lemma {:induction false} RunSpellsTree(s: string, p: Parser)
    requires Inv(s, p) && Run(s, p).Accepted?
    ensures CursorTags(p.tree) + RunTags(s, p) == TagsAll(Run(s, p).roots)
    decreases |s| - p.cur, p.mode == InContent
  {
    hide Step, StepTags, TagAhead, ModeInv, OneRoot, SoundTree, TagsAll;
    if Step(s, p).Next? {
      var q := Step(s, p).parser;
      StepKeepsInv(s, p);
      StepAddsTags(s, p);
      RunSpellsTree(s, q);
      assert CursorTags(p.tree) + RunTags(s, p) == CursorTags(q.tree) + RunTags(s, q);
    } else {
      StepAccepts(s, p);
      assert TagsAll(p.tree.roots) + [] + [] == TagsAll(p.tree.roots);
    }
  }

  lemma {:induction false} RunIsSound(s: string, p: Parser)
    requires Inv(s, p) && Run(s, p).Accepted?
    ensures SoundAll(Run(s, p).roots) && |Run(s, p).roots| <= 1
    ensures forall k :: 0 <= k < |Run(s, p).roots| ==> Run(s, p).roots[k].Element?
    decreases |s| - p.cur, p.mode == InContent
  {
    hide Step, TagAhead, ModeInv, Sound;
    if Step(s, p).Next? {
      StepKeepsInv(s, p);
      RunIsSound(s, Step(s, p).parser);
    } else {
      StepAccepts(s, p);
    }
  }

  /** Every close matches the latest open one, and none stays open. */
  predicate Nested(tags: seq<Tag>, open: seq<string>) {
    if tags == [] then open == []
    else match tags[0]
         case Open(name) => Nested(tags[1..], [name] + open)
         case Close(name) => open != [] && open[0] == name && Nested(tags[1..], open[1..])
  }

  lemma {:induction false} TagsNest(n: Node, rest: seq<Tag>, open: seq<string>)
    ensures Nested(Tags(n) + rest, open) == Nested(rest, open)
    decreases n, 1
  {
    if n.Element? {
      var inner := [Close(n.name)] + rest;
      assert Tags(n) + rest == [Open(n.name)] + (TagsAll(n.kids) + inner);
      TagsAllNest(n.kids, inner, [n.name] + open);
      assert inner[1..] == rest && ([n.name] + open)[1..] == open;
    } else {
      assert Tags(n) + rest == rest;
    }
  }

  lemma {:induction false} TagsAllNest(ns: seq<Node>, rest: seq<Tag>, open: seq<string>)
    ensures Nested(TagsAll(ns) + rest, open) == Nested(rest, open)
    decreases ns, 0
  {
    if ns == [] {
      assert TagsAll(ns) + rest == rest;
    } else {
      var n := |ns| - 1;
      assert TagsAll(ns) + rest == TagsAll(ns[..n]) + (Tags(ns[n]) + rest);
      TagsAllNest(ns[..n], Tags(ns[n]) + rest, open);
      TagsNest(ns[n], rest, open);
    }
  }

  /** The tags that parsing a buffer consumes. */
  function ParseTags(s: string): seq<Tag> {
    match Begin(s)
    case Next(p) => RunTags(s, p)
    case _ => []
  }

  /**
   An accepted buffer has well-nested tags, which are those of the tree returned; the tree has at
   most one root, and attribute names differ within every element.
   */
  lemma AcceptanceIsSound(s: string)
    requires Parse(s).Accepted?
    ensures Nested(ParseTags(s), []) && ParseTags(s) == TagsAll(Parse(s).roots)
    ensures |Parse(s).roots| <= 1 && SoundAll(Parse(s).roots)
    ensures forall k :: 0 <= k < |Parse(s).roots| ==> Parse(s).roots[k].Element?
  {
    hide Begin, Run, RunTags;
    var p := Begin(s).parser;
    RunSpellsTree(s, p);
    RunIsSound(s, p);
    var tags := TagsAll(Parse(s).roots);
    assert CursorTags(p.tree) + RunTags(s, p) == RunTags(s, p);
    TagsAllNest(Parse(s).roots, [], []);
    assert tags + [] == tags;
  }

  // ---- an end tag with no element open ----

  /** The tags that a run fetches, the last of which it may refuse. */
  function FetchedTags(s: string, p: Parser): seq<Tag>
    requires p.cur <= |s|
    decreases |s| - p.cur, p.mode == InContent
  {
    StepTags(s, p) + if Step(s, p).Next? then FetchedTags(s, Step(s, p).parser) else []
  }

  /** The last tag closes an element, after all that were open have been closed. */
  predicate EndsStray(tags: seq<Tag>, open: seq<string>) {
    tags != [] && tags[|tags| - 1].Close? && Nested(tags[..|tags| - 1], open)
  }

  lemma StrayAfter(tag: Tag, rest: seq<Tag>, open: seq<string>)
    requires rest != []
    ensures tag.Open? ==> (EndsStray([tag] + rest, open) <==> EndsStray(rest, [tag.name] + open))
    ensures tag.Close? ==>
              (EndsStray([tag] + rest, open) <==> open != [] && open[0] == tag.name && EndsStray(rest, open[1..]))
  {
    var tags := [tag] + rest;
    assert tags[..|tags| - 1][1..] == rest[..|rest| - 1] && tags[|tags| - 1] == rest[|rest| - 1];
  }

  lemma StrayAlone(tag: Tag, open: seq<string>)
    ensures EndsStray([tag], open) <==> tag.Close? && open == []
  {
    assert [tag][..0] == [];
  }

  lemma FailsOtherwise(s: string, p: Parser)
    requires p.cur <= |s|
    ensures GetNextNode(s, p) != Failed(NullElement)
    ensures GetNextNode(s, p).Fetched? ==> GetNextNode(s, p).parser.stack == p.stack
  {
    hide GetNextToken, SkipSpaces, CopyToken, CopyFrom, HasRawLess, Find, SkipComment, SkipPI, StartsWith, Decode;
  }

  /** What one turn does to the stack, by the tag it fetches. */
  lemma StepStack(s: string, p: Parser)
    requires p.cur <= |s|
    ensures var t, r := StepTags(s, p), Step(s, p);
            && (r == Rejected(NullElement) <==> t != [] && t[0].Close? && p.stack == [])
            && |t| <= 1
            && (r.Next? ==>
                  && (t == [] ==> r.parser.stack == p.stack)
                  && (t != [] && t[0].Open? ==> r.parser.stack == [t[0].name] + p.stack)
                  && (t != [] && t[0].Close? ==> p.stack != [] && p.stack[0] == t[0].name && r.parser.stack == p.stack[1..]))
  {
    hide GetNextNode;
    FailsOtherwise(s, p);
  }

  lemma {:induction false} RunEndsStray(s: string, p: Parser)
    requires p.cur <= |s|
    ensures Run(s, p) == Rejected(NullElement) <==> EndsStray(FetchedTags(s, p), p.stack)
    decreases |s| - p.cur, p.mode == InContent
  {
    hide Step, StepTags, EndsStray;
    StepStack(s, p);
    var t := StepTags(s, p);
    if Step(s, p).Next? {
      var q := Step(s, p).parser;
      var rest := FetchedTags(s, q);
      RunEndsStray(s, q);
      StrayNever(rest, q.stack);
      if t == [] {
        assert t + rest == rest;
      } else {
        assert t == [t[0]];
        StrayAlone(t[0], p.stack);
        if rest == [] {
          assert t + rest == [t[0]];
        } else {
          StrayAfter(t[0], rest, p.stack);
        }
      }
    } else {
      assert t + [] == t;
      StrayNever(t, p.stack);
      if t != [] {
        assert t == [t[0]];
        StrayAlone(t[0], p.stack);
      }
    }
  }

  lemma StrayNever(tags: seq<Tag>, open: seq<string>)
    ensures tags == [] ==> !EndsStray(tags, open)
  {
  }

  /** The tags that parsing a buffer fetches. */
  function ParseFetches(s: string): seq<Tag> {
    match Begin(s)
    case Next(p) => FetchedTags(s, p)
    case _ => []
  }

  /**
   The assertion of Parser_isValidEndElement fails on a buffer if and only if the last tag fetched closes an element
   after all tags before it have been well nested; so never on a buffer that is accepted.
   */
  lemma NullElementIff(s: string)
    ensures Parse(s) == Rejected(NullElement) <==> EndsStray(ParseFetches(s), [])
    ensures Parse(s).Accepted? ==> !EndsStray(ParseFetches(s), [])
  {
    hide Run, FetchedTags, SkipMisc, SkipProlog, StartsWith, EndsStray;
    StrayNever([], []);
    if Begin(s).Next? {
      RunEndsStray(s, Begin(s).parser);
    }
  }

  /** Every buffer that begins with an end tag. */
  lemma LoneEndTag(s: string, name: string)
    requires IsXmlName(name) && StartsWith(s, 0, "</" + name + ">")
    ensures Parse(s) == Rejected(NullElement)
  {
    hide StartsWith, IsXmlName, GetNextNode, Find, SkipSpaces, SkipMisc;
    StartsWithSplit(s, 0, "</", name + ">");
    assert "</" + (name + ">") == "</" + name + ">";
    StartsWithAt(s, 0, "</", 0);
    StartsWithAt(s, 0, "</", 1);
    SkipSpacesTo(s, 0, 0);
    MiscStays(s, 0);
    NotStarting(s, 0, "<?xml ", 1);
    NotStarting(s, 0, "<!DOCTYPE", 1);
    EndTagNode(s, Start(0), name);
  }
}
