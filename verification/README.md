# Models of ixml, adb and three algorithms

This project models the parts of the repository where the most can go wrong, and proves what they promise:

- **ixml** (`android/pupnp_jni`): the character-level XML parser, the printer it should undo, and the in-place tree edits.
- **adb** (`android/adb`): streams and their flow control, the life of a transport, the SYNC handshake, packets on the
  wire, file sync, the bip buffer behind Windows socket pairs, and the select event loop.
- **algorithm**: the least round way, the median of two sorted arrays, the numbers 2^i 3^j 5^k.

## How it is laid out

| modules | subject |
|---|---|
| `Numbers`, `CText`, `Octets` | C strings; bytes, little-endian words, byte streams read and written in pieces of any size |
| `Utf8`, `XmlTables`, `XmlChars`, `XmlLexer`, `XmlLexing` | octets, the tables of name characters, tokens; printed text is read back |
| `XmlTree`, `XmlPrinter`, `XmlParser`, `XmlSteps`, `XmlRoundTrip`, `XmlNesting`, `XmlAccepted` | trees, printing, the parse loop, the round trip, what acceptance means |
| `XmlSurface`, `XmlMarkup`, `XmlShort`, `XmlRefused` | all the ways to write a document: references, quotes, empty-element tags, comments, instructions; what is read and what is refused |
| `XmlMachine` | printer and parser as objects that update buffers and cursors, proved equal to the functions |
| `DomShape`, `DomTree`, `DomEdit`, `DomNode` | forests as values, the pointers that draw them, edits in place |
| `AdbStream`, `AdbStreamProofs`, `AdbProgress`, `AdbSocket` | two adb ends as a transition system, its invariant and how it comes to rest; the local socket as an object |
| `TransportLifecycle`, `TransportSync` | interleavings of the transport's threads |
| `PacketWire`, `FileSync`, `FileSyncMachine` | packets and file sync over byte streams |
| `BipBuffer`, `BipThreads`, `Fdevent` | the bip buffer, its waiting threads, the event loop |
| `LeastRound`, `LeastRoundTables`, `Median`, `Smooth` | the algorithms |

Code that updates things in place is a class or a method with loops, proved against a function on values; what the
code promises is then proved about the functions. Protocols and threads are transition systems, and their theorems
hold in every state of every run, for every interleaving and every pattern of partial reads and writes.

## Main results

- **Printing and parsing.** For every well-formed document, parsing its print gives its normal form
  (`XmlRoundTrip.ParsePrint`). So the round trip holds if and only if the document has at most one root and every
  child list is elements followed by at most one text that is not blank (`XmlRoundTrip.RoundTrip`).
- **Reading.** Every document, however it is written - characters raw, named or numeric, either quote, white space, empty
  elements as one tag or two, comments and instructions - is read as the tree it means (`XmlMarkup.WrittenParses`). So the
  print with empty-element tags reads as the print of ixml (`XmlShort.ShortPrintParses`). Attribute values and texts are
  taken if and only if they are written in one of these ways (`XmlRefused.AttributeIff`, `XmlRefused.TextIff`).
- **Acceptance.** At every turn of the parse loop the element stack spells the path to the current node, and an
  accepted buffer has well-nested tags, which are those of the tree returned (`XmlNesting.AcceptanceIsSound`).
  Whatever is accepted is well formed, so it can be printed and parsed again, and after one round nothing changes any
  more (`XmlAccepted.ReprintSettles`).
- **Streams.** Each direction of each stream always holds exactly one credit; bytes read at one end are the bytes
  written, queued and in flight at the other, in order (`AdbStreamProofs.StreamsAreSafe`). From every state, if the
  descriptors accept what they are offered, all that has been read arrives within a bounded number of steps
  (`AdbProgress.Settles`).
- **Transport.** Kick, its return, close, removal and free happen at most once each, in that order
  (`TransportLifecycle.LifecycleOrder`); nobody touches a freed transport. Nothing goes to the remote before the echoed
  SYNC (`TransportSync.NothingBeforeSync`). When the remote fails, the main loop and the input thread bring the transport
  to its end, with all that is owed written (`TransportSync.ShutdownCompletes`).
- **Bip buffer.** It refines a bounded queue. With the closer free to run inside the locked sections, reader and writer
  are never both parked, and whoever is parked when closing is over is about to be woken (`BipThreads.NoLostWakeup`). A
  call that nobody interrupts does in its single steps what the buffer does in one (`BipThreads.ReadAlone`).
- **Event loop.** List, flag bits, table, descriptor sets and `select_n` agree after every call, whatever the callbacks
  do. A turn of the loop calls back the pending and ready fdevents in order, each once with exactly its events unless a
  callback before made a call on its descriptor, and ends with nothing pending (`Fdevent.EventLoop.Turn`).
- **File sync.** A pipeline of requests is served and answered in order, whichever files of the server fail to open,
  to be written or to be read, and the loop goes on with what follows (`FileSync.PipelineServed`). Whatever bytes come
  instead, a file is stored or received as a whole or not at all (`FileSync.SendAllOrNothing`,
  `FileSync.PullAllOrNothing`). What a client is told
  of one push or pull, and what is then on both disks, is proved from end to end (`FileSyncMachine.PushFile`,
  `FileSyncMachine.PullToFile`).
- **Tree edits.** For any nodes, the return code is exact, and an edit leaves an acyclic tree with exactly one child
  list changed if and only if the new child has no parent and is not the parent itself (`DomNode.AppendChild` and its
  neighbours, `DomNode.InsertedForestIff`). Every edit keeps to the kinds of children a node may have.

## Where the code does not do what it says

Each of these is kept as the code has it, with the exact condition proved.

- `fdevent_set` says it drops pending events that are no longer wanted, but masks with the complement of the wanted
  ones: `Fdevent.UnwantedStays`, with `Fdevent.UnwantedExample`.
- `ixmlNode_appendChild`, `insertBefore` and `replaceChild` let a node become its own parent, and leave a child of
  another parent in both lists; neither draws a tree any more (`DomNode.InsertedForestIff`, with `DomNode.AppendedToItself`
  and `DomNode.AppendedTwice`). A child of the same parent is freed and then used (`DomNode.AppendedAgain`).
  `DomNode.Inserted` and `DomNode.Replaced` say which happens when.
- `ixmlNode_appendChild` gives the document of the parent to the new child, but not to what is below it: `DomNode.AppendChild`
  says when all nodes still have the document of their parent, with `DomNode.ChildLeftBehind`.
- `insertBefore` has a branch that appends when the reference child is null; an assertion fails before it.
- An end tag while no element is open makes the parser follow a null pointer in an assertion:
  `XmlNesting.NullElementIff`, with `XmlNesting.LoneEndTag` and `XmlAccepted.StrayEndTag`.
- A comment that is empty or begins with `>` or `->` is legal, but its end is looked for from its start, and it is refused or
  misread: `XmlSurface.CommentSkippedIff`, with `XmlRefused.EmptyCommentRefused`.
- `sync_send` admits paths of 1024 bytes, but path and mode suffix together must fit: `FileSync.PushNeedsShortName`, with
  `FileSync.LongPathRefused`.
- `sync_send` does not look at what `write_data_file` returns, so a local file that cannot be read replaces the one on the
  server, and OKAY is reported: `FileSync.PushHoldsFile`, with `FileSync.UnreadableReplaces`.
- `sync_recv` returns 0 after an error of the server, as for a file received, and deletes the local file:
  `FileSync.PullCodeIsBlind`, with `FileSync.MissingPull`.
- `fdevent_register` clears an int per new entry of the table, so that wide pointers leave half of them as they are. Nothing
  is ever read through such an entry, but `select_n` may stay too high: `Fdevent.EventLoop.Grow`, `Fdevent.EventLoop.Remove`.
- `bip_buffer_close` signals nobody if it runs between the flag and the event of a write, and a reader may then be parked
  before a byte until the writer's next step: `BipThreads.NoLostWakeup`, with `BipThreads.CloserMisses`.
- The least round way prints 0 for some matrices with zeros whose printed path has a zero product:
  `LeastRound.AnswerWrongIff`, with `LeastRound.WrongAnswer`.
- The table search of the parser starts one entry past the table: `XmlChars.SearchTable`; for the two tables the answer is
  right up to their last entry, `XmlChars.SearchNameChar`.

## Model

| member | source | states |
|---|---|---|
| Utf8.DecodeEncode | android/pupnp_jni/jni/ixml/src/ixmlparser.c:574-651 | decoding gives back every code from 0 to 2^31-1 and its length, whatever follows the encoded octets |
| Utf8.EncodeShape | android/pupnp_jni/jni/ixml/src/ixmlparser.c:861-918 | a code is written with as few octets as will do; the first tells their number and the others are tails |
| XmlChars.NameCharRange | android/pupnp_jni/jni/ixml/src/ixmlparser.c:690-721 | every name character is an XML character and none is a delimiter or white space |
| XmlTables.LettersAscend | android/pupnp_jni/jni/ixml/src/ixmlparser.c:99-163 | the table of letters is sorted and free of overlaps |
| XmlTables.NameCharsAscend | android/pupnp_jni/jni/ixml/src/ixmlparser.c:173-245 | so is the table of the other name characters |
| XmlChars.InTables | android/pupnp_jni/jni/ixml/src/ixmlparser.c:690-707 | letters and name characters are exactly the characters of the tables |
| XmlChars.XmlCharExcludes | android/pupnp_jni/jni/ixml/src/ixmlparser.c:712-721 | XML characters are all code points but most control characters, the surrogates and two non-characters |
| XmlChars.SearchTable | android/pupnp_jni/jni/ixml/src/ixmlparser.c:660-684 | for any sorted table the search answers membership in the table, or in the entry one past its end when the character lies above all others |
| XmlChars.SearchNameChar | android/pupnp_jni/jni/ixml/src/ixmlparser.c:690-707 | the two searches answer rightly for every character up to the last entry of their table; above it they answer by what lies beyond |
| CText.SkipSpacesTo | android/pupnp_jni/jni/ixml/src/ixmlparser.c:407-415 | skipping ends at the one offset that only white space precedes and that holds none |
| XmlLexer.GetChar | android/pupnp_jni/jni/ixml/src/ixmlparser.c:727-837 | an accepted character is an XML character whose text lies inside the buffer; one octet stands for itself |
| XmlLexer.SkipMisc | android/pupnp_jni/jni/ixml/src/ixmlparser.c:468-494 | skipping never goes back or past the end, and always ends |
| XmlLexer.GetNextToken | android/pupnp_jni/jni/ixml/src/ixmlparser.c:1010-1083 | a token found always advances; the saved position is the old one or lies inside what was passed over |
| XmlLexing.CopyEscaped | android/pupnp_jni/jni/ixml/src/ixmlparser.c:943-1004 | copying a token undoes copy_with_escape on every sequence of XML characters |
| XmlLexing.EscapeConcat | android/pupnp_jni/jni/ixml/src/ixml.c:51-85 | escaping works piece by piece |
| XmlLexing.EscapedClean | android/pupnp_jni/jni/ixml/src/ixml.c:51-85 | escaped text holds no markup delimiter, no quote and no NUL |
| XmlLexing.NameToken | android/pupnp_jni/jni/ixml/src/ixmlparser.c:1010-1083 | a printed name is read back as one token, for every name and whatever ends it |
| XmlLexing.EndTagToken | android/pupnp_jni/jni/ixml/src/ixmlparser.c:1010-1083 | the opening of an end tag is one token of two octets |
| XmlLexing.TokenAfterSpaces | android/pupnp_jni/jni/ixml/src/ixmlparser.c:1010-1083 | white space before a token changes nothing but where it starts |
| XmlLexing.SlashToken | android/pupnp_jni/jni/ixml/src/ixmlparser.c:1010-1083 | the end of an empty-element tag is one token, and the position before it is saved |
| XmlParser.GetNextNode | android/pupnp_jni/jni/ixml/src/ixmlparser.c:1836-1931 | a fetched node advances the cursor or leaves content mode, despite the return to the saved position; which node it is, the lemmas of XmlMarkup and XmlRefused say |
| XmlParser.Step | android/pupnp_jni/jni/ixml/src/ixmlparser.c:2354-2441 | every turn of the loop that goes on decreases the pair of octets left and content mode |
| XmlParser.Run | android/pupnp_jni/jni/ixml/src/ixmlparser.c:2354-2441 | the loop ends on every buffer, with a document or a failure |
| XmlParser.Parse | android/pupnp_jni/jni/ixml/src/ixmlparser.c:2325-2457 | parsing any buffer ends with a document, a failure or a case outside the model |
| XmlSteps.OpenTag | android/pupnp_jni/jni/ixml/src/ixmlparser.c:1107-1169 | one turn on a start tag appends the element, makes it current, pushes it, and looks ahead for attributes |
| XmlSteps.AddAttribute | android/pupnp_jni/jni/ixml/src/ixmlparser.c:1679-1828 | one turn on a printed attribute adds its name and its unescaped value to the current element |
| XmlSteps.AddText | android/pupnp_jni/jni/ixml/src/ixmlparser.c:1262-1378 | one turn on printed text that is not blank appends the original text |
| XmlSteps.CloseTag | android/pupnp_jni/jni/ixml/src/ixmlparser.c:1384-1450 | one turn on the matching end tag pops the stack and moves to the parent |
| XmlSteps.EnterTag | android/pupnp_jni/jni/ixml/src/ixmlparser.c:1262-1378 | white space before a tag is dropped and the tag comes next |
| XmlRoundTrip.AttrsRun | android/pupnp_jni/jni/ixml/src/ixmlparser.c:1679-1828 | printed attributes are read back in order, names and values, for every list with distinct names |
| XmlRoundTrip.KidsRun | android/pupnp_jni/jni/ixml/src/ixml.c:92-182 | a printed child list is read back in order, up to its first text |
| XmlRoundTrip.ElementRun | android/pupnp_jni/jni/ixml/src/ixml.c:92-182 | a printed element is read back as its normal form, appended to the current node |
| XmlRoundTrip.NormalizeAllFixesCanonical | android/pupnp_jni/jni/ixml/src/ixml.c:107-111 | a child list is its own normal form if and only if it is elements and then at most one text that is not blank |
| XmlRoundTrip.ParsePrint | android/pupnp_jni/jni/ixml/src/ixml.c:347-362 | parsing the print of a well-formed document gives its normal form; a second root is refused |
| XmlRoundTrip.RoundTrip | android/pupnp_jni/jni/ixml/src/ixmlparser.c:2325-2457 | the round trip holds if and only if there is at most one root and the document is in the stated class |
| XmlNesting.StepKeepsInv | android/pupnp_jni/jni/ixml/src/ixmlparser.c:2354-2446 | every turn of the loop keeps: the stack spells the path to the current node, one root, distinct attribute names, last element on top |
| XmlNesting.EmptyTagClosesTop | android/pupnp_jni/jni/ixml/src/ixmlparser.c:1836-1931 | whenever an empty-element tag ends, the last element is the top of the stack |
| XmlNesting.SecondCheckPasses | android/pupnp_jni/jni/ixml/src/ixmlparser.c:2291-2317 | the check against the current node never fails after the check against the stack has passed |
| XmlNesting.RunSpellsTree | android/pupnp_jni/jni/ixml/src/ixmlparser.c:2325-2457 | an accepting run has consumed exactly the tags of the tree it returns |
| XmlNesting.RunIsSound | android/pupnp_jni/jni/ixml/src/ixmlparser.c:2325-2457 | an accepting run returns at most one root, an element, with distinct attribute names throughout |
| XmlNesting.RunEndsStray | android/pupnp_jni/jni/ixml/src/ixmlparser.c:2242-2258 | from any state of the loop: the assertion fails if and only if the tags still to be fetched close all open elements and one more |
| XmlNesting.TagsAllNest | android/pupnp_jni/jni/ixml/src/ixmlparser.c:2171-2317 | the tags of any tree are well nested |
| XmlNesting.AcceptanceIsSound | android/pupnp_jni/jni/ixml/src/ixmlparser.c:2325-2457 | an accepted buffer has well-nested tags, at most one root, and distinct attribute names in every element |
| XmlNesting.NullElementIff | android/pupnp_jni/jni/ixml/src/ixmlparser.c:2242-2258 | the assertion on the top of the stack fails if and only if the last tag fetched is an end tag and all tags before it are well nested with none open; never on an accepted buffer |
| XmlNesting.LoneEndTag | android/pupnp_jni/jni/ixml/src/ixmlparser.c:2242-2258 | it fails on every buffer that begins with an end tag |
| XmlAccepted.CopiedText | android/pupnp_jni/jni/ixml/src/ixmlparser.c:943-1004 | whatever is copied into a token is the canonical UTF-8 form of XML characters |
| XmlAccepted.FetchGood | android/pupnp_jni/jni/ixml/src/ixmlparser.c:1836-1931 | every node fetched has a proper name, attribute or text |
| XmlAccepted.AcceptedIsWellFormed | android/pupnp_jni/jni/ixml/src/ixmlparser.c:2325-2457 | every accepted document is well formed |
| XmlAccepted.ReprintSettles | android/pupnp_jni/jni/ixml/src/ixml.c:347-362 | printing an accepted document and parsing it gives its normal form, and doing so again changes nothing |
| XmlAccepted.StrayEndTag | android/pupnp_jni/jni/ixml/src/ixmlparser.c:2242-2258 | one end tag after the print of any well-formed document with at most one root fails the assertion |
| XmlSurface.NumeralsRefer | android/pupnp_jni/jni/ixml/src/ixmlparser.c:727-837 | the decimal and the hexadecimal numeral of every XML character are references to it |
| XmlSurface.GetWritten | android/pupnp_jni/jni/ixml/src/ixmlparser.c:727-837 | a character is read with its code and takes exactly its text, whether raw, named, decimal or hexadecimal |
| XmlSurface.CopyIff | android/pupnp_jni/jni/ixml/src/ixmlparser.c:943-1004 | a stretch of the buffer is copied if and only if it is a text of such characters, and then as what they spell |
| XmlSurface.CommentSkippedIff | android/pupnp_jni/jni/ixml/src/ixmlparser.c:442-462 | a legal comment is skipped up to its end if and only if it is not empty and does not begin with ">" or "->" |
| XmlMarkup.TagWritten | android/pupnp_jni/jni/ixml/src/ixmlparser.c:1107-1169 | a start tag opens its element with all its attributes, whichever quotes and white space it is written with |
| XmlMarkup.AddWritten | android/pupnp_jni/jni/ixml/src/ixmlparser.c:1679-1828 | one turn on an attribute, in either quote, adds its name and the value that its characters spell |
| XmlMarkup.EmptyWritten | android/pupnp_jni/jni/ixml/src/ixmlparser.c:1892-1912 | an empty-element tag appends the element with its attributes and no children, and leaves the stack as it was |
| XmlMarkup.TextWritten | android/pupnp_jni/jni/ixml/src/ixmlparser.c:1262-1378 | one turn on text that is not blank appends what its characters spell |
| XmlMarkup.CommentStep | android/pupnp_jni/jni/ixml/src/ixmlparser.c:442-494 | a comment in content leaves nothing, nor does the white space before it |
| XmlMarkup.InstrStep | android/pupnp_jni/jni/ixml/src/ixmlparser.c:1175-1204 | nor does an instruction |
| XmlMarkup.ElementWritten | android/pupnp_jni/jni/ixml/src/ixmlparser.c:2354-2441 | an element however written is appended to the current node as the element it means, and the stack is as before |
| XmlMarkup.PrologEnds | android/pupnp_jni/jni/ixml/src/ixmlparser.c:500-535 | white space, declaration, comments and instructions before the root are skipped, and nothing else |
| XmlMarkup.WrittenParses | android/pupnp_jni/jni/ixml/src/ixmlparser.c:2325-2457 | every document however written is read as exactly the tree it means |
| XmlShort.ShortPrintParses | android/pupnp_jni/jni/ixml/src/ixmlparser.c:1892-1912 | for every well-formed document the print with empty-element tags is parsed exactly as the print of ixml |
| XmlRefused.ValueIff | android/pupnp_jni/jni/ixml/src/ixmlparser.c:1679-1828 | an attribute value is taken if and only if it is written characters without "<" |
| XmlRefused.AttributeIff | android/pupnp_jni/jni/ixml/src/ixmlparser.c:1679-1828 | after name, "=" and quote, an attribute is read if and only if the quote is closed and its value is such; anything else is a syntax error |
| XmlRefused.TextIff | android/pupnp_jni/jni/ixml/src/ixmlparser.c:1262-1378 | content becomes a text node if and only if what stands before its end is written characters and the end is not "]]>"; anything else is a syntax error |
| XmlRefused.UnclosedRefused | android/pupnp_jni/jni/ixml/src/ixmlparser.c:442-494 | a comment or an instruction that never ends is refused |
| XmlRefused.InstrSkippedIff | android/pupnp_jni/jni/ixml/src/ixmlparser.c:1175-1204 | an instruction is skipped if and only if it is no declaration and does not begin with ">" |
| XmlRefused.DeclRefused | android/pupnp_jni/jni/ixml/src/ixmlparser.c:1175-1204 | a declaration after the start of the document is refused |
| XmlRefused.EndTagEnds | android/pupnp_jni/jni/ixml/src/ixmlparser.c:1384-1450 | every end tag that is fetched ends with ">" |
| XmlRefused.TagInTag | android/pupnp_jni/jni/ixml/src/ixmlparser.c:1679-1828 | another tag right after an attribute is refused |
| XmlRefused.StrayBracket | android/pupnp_jni/jni/ixml/src/ixmlparser.c:1836-1931 | a ">" where a tag should come is passed over |
| XmlRefused.EndOutsideContent | android/pupnp_jni/jni/ixml/src/ixmlparser.c:1836-1931 | white space up to the end of the buffer is accepted if and only if no element is open |
| XmlRefused.EmptyRefused | android/pupnp_jni/jni/ixml/src/ixmlparser.c:2325-2457 | the empty buffer is refused, though a declaration alone is a document without a root |
| XmlRefused.EmptyCommentRefused | android/pupnp_jni/jni/ixml/src/ixmlparser.c:442-462 | the empty comment is refused wherever it stands in content |
| XmlMachine.Membuf.CopyWithEscape | android/pupnp_jni/jni/ixml/src/ixml.c:51-85 | appends exactly the escaped text |
| XmlMachine.Membuf.PrintAttributes | android/pupnp_jni/jni/ixml/src/ixml.c:131-140 | appends exactly the attributes, separated by single spaces |
| XmlMachine.Membuf.PrintSiblings | android/pupnp_jni/jni/ixml/src/ixml.c:92-182 | appends exactly the print of a sibling list |
| XmlMachine.Membuf.PrintTag | android/pupnp_jni/jni/ixml/src/ixml.c:142-156 | appends exactly a start tag and its line break |
| XmlMachine.PrintToString | android/pupnp_jni/jni/ixml/src/ixml.c:347-362 | the buffer is the print of the document |
| XmlMachine.ParserObject.SkipWhiteSpaces | android/pupnp_jni/jni/ixml/src/ixmlparser.c:407-415 | the loop moves the cursor to the first octet that is no white space |
| XmlMachine.ParserObject.SkipMiscellaneous | android/pupnp_jni/jni/ixml/src/ixmlparser.c:468-494 | the loop skips comments, instructions and white space as the function does |
| XmlMachine.ParserObject.CopyTokenBuf | android/pupnp_jni/jni/ixml/src/ixmlparser.c:943-1004 | the token buffer grows by the decoded token, or the copy fails exactly where the function does |
| XmlMachine.ParserObject.NextToken | android/pupnp_jni/jni/ixml/src/ixmlparser.c:1010-1083 | token, cursor and saved position are those of the function; a failed copy leaves only one known residue |
| XmlMachine.ParserObject.ProcessStartTag | android/pupnp_jni/jni/ixml/src/ixmlparser.c:1107-1169 | fields, node and return code are those of the function |
| XmlMachine.ParserObject.ProcessEndTag | android/pupnp_jni/jni/ixml/src/ixmlparser.c:1384-1450 | fields, node and return code are those of the function |
| XmlMachine.ParserObject.ProcessContents | android/pupnp_jni/jni/ixml/src/ixmlparser.c:1262-1378 | fields, node and return code are those of the function |
| XmlMachine.ParserObject.ProcessAttr | android/pupnp_jni/jni/ixml/src/ixmlparser.c:1679-1828 | fields, attribute and return code are those of the function |
| XmlMachine.ParserObject.NextNode | android/pupnp_jni/jni/ixml/src/ixmlparser.c:1836-1931 | fields, node and return code are those of the function |
| XmlMachine.ParserObject.ApplyItem | android/pupnp_jni/jni/ixml/src/ixmlparser.c:2354-2441 | stack, tree and last element change as the loop body does |
| XmlMachine.ParserObject.ParseLoop | android/pupnp_jni/jni/ixml/src/ixmlparser.c:2354-2441 | the loop ends with the outcome of the function |
| XmlMachine.ParseBuffer | android/pupnp_jni/jni/ixml/src/ixmlparser.c:2325-2457 | the object parses every buffer as the function does |
| XmlMachine.TokenCopies | android/pupnp_jni/jni/ixml/src/ixmlparser.c:1010-1083 | copying fails on no token but one: a tag opener before a slash in overlong form |
| DomShape.AttachKeepsForest | android/pupnp_jni/jni/ixml/src/node.c:474-522 | joining a root anywhere under a node that is not below it gives an acyclic forest with consistent lists |
| DomShape.DetachKeepsForest | android/pupnp_jni/jni/ixml/src/node.c:564-596 | taking any child out gives an acyclic forest with consistent lists |
| DomShape.UnderChild | android/pupnp_jni/jni/ixml/src/node.c:361-383 | to be below a node is to be it or below one of its children |
| DomTree.IsAncestorMeans | android/pupnp_jni/jni/ixml/src/node.c:361-383 | the search finds exactly the nodes whose parent is below the start or below one of its later siblings |
| DomTree.RootIsAncestor | android/pupnp_jni/jni/ixml/src/node.c:361-383 | from a node without siblings the search finds exactly the nodes properly below it |
| DomEdit.CutDrawn | android/pupnp_jni/jni/ixml/src/node.c:564-596 | the relinked pointers draw the forest with exactly that child detached |
| DomEdit.PasteDrawn | android/pupnp_jni/jni/ixml/src/node.c:501-516 | the relinked pointers draw the forest with exactly that node attached at that place |
| DomEdit.TornIsNoForest | android/pupnp_jni/jni/ixml/src/node.c:599-643 | pointers by which a node hangs under one parent and names another draw no forest |
| DomEdit.TornByUpdates | android/pupnp_jni/jni/ixml/src/node.c:474-522 | the updates of append and insert leave a child of another parent in such a state |
| DomNode.SelfIsNoForest | android/pupnp_jni/jni/ixml/src/node.c:599-643 | pointers by which a node is its own parent draw no forest |
| DomNode.TestsBlocked | android/pupnp_jni/jni/ixml/src/node.c:361-383 | the ancestor test holds exactly if the parent of p lies below n or below a later sibling of n; for a root it keeps p out from below n |
| DomNode.AllowsExactly | android/pupnp_jni/jni/ixml/src/node.c:412-443 | the kinds of children each kind of node may have, pair by pair |
| DomNode.AppendSucceedsIff | android/pupnp_jni/jni/ixml/src/node.c:599-643 | a root is appended under any node not below it if and only if the documents agree and the kinds are one of the allowed pairs, spelt out; another document is told before a wrong kind |
| DomNode.InsertSucceedsIff | android/pupnp_jni/jni/ixml/src/node.c:474-522 | the same before a child of the node; here a wrong kind is told before another document |
| DomNode.AppendKeeps | android/pupnp_jni/jni/ixml/src/node.c:599-643 | appending keeps every node under a parent that may hold it; and under one of its document if and only if the new child had that document or has no child |
| DomNode.InsertKeeps | android/pupnp_jni/jni/ixml/src/node.c:474-522 | inserting keeps every node under a parent that may hold it and of its document |
| DomNode.CutKeeps | android/pupnp_jni/jni/ixml/src/node.c:564-596 | so does removing |
| DomNode.Relink | android/pupnp_jni/jni/ixml/src/node.c:577-588 | the updates change exactly the pointers that cutting the child changes |
| DomNode.RemoveChild | android/pupnp_jni/jni/ixml/src/node.c:564-596 | the return code for every input; on success the child list loses exactly that child; otherwise nothing changes; kinds and documents stay right |
| DomNode.LastChild | android/pupnp_jni/jni/ixml/src/node.c:632-637 | the walk along the siblings ends at the last child |
| DomNode.AppendChild | android/pupnp_jni/jni/ixml/src/node.c:599-643 | the return code for any nodes, and exactly which pointers change on success; the node is the new last child of a tree if it had no parent and is not p; p itself becomes its own parent, and a child of another parent is torn; kinds stay right, and all nodes keep the document of their parent if and only if the new child had it or has no child |
| DomNode.InsertLinks | android/pupnp_jni/jni/ixml/src/node.c:507-516 | exactly which pointers the updates change, whatever the new child points to |
| DomNode.InsertBefore | android/pupnp_jni/jni/ixml/src/node.c:474-522 | the return code for any nodes, in the order of the checks; on success the node stands right before its reference if it had no parent and is not p; otherwise as for append; kinds and documents stay right |
| DomNode.Substitution | android/pupnp_jni/jni/ixml/src/node.c:525-561 | inserting before a child and removing the child replaces it in its list and changes no other list |
| DomNode.ReplaceChild | android/pupnp_jni/jni/ixml/src/node.c:525-561 | the return code for any nodes; on success the list has the new node in place of the old one, which has no parent, if the new one had none and is not p; otherwise as for append; kinds and documents stay right |
| DomNode.InsertedForestIff | android/pupnp_jni/jni/ixml/src/node.c:474-522 | after a successful append or insertion the pointers draw some forest if and only if the new child had no parent and is not p |
| DomNode.ReplacedForestIff | android/pupnp_jni/jni/ixml/src/node.c:525-561 | the same after a successful replacement |
| DomNode.AppendedToItself | android/pupnp_jni/jni/ixml/src/node.c:599-643 | an element appended to itself: success, and it is its own parent |
| DomNode.AppendedTwice | android/pupnp_jni/jni/ixml/src/node.c:599-643 | an element appended to p while a child of q: success, both lead to it, and no forest has these pointers |
| DomNode.ChildLeftBehind | android/pupnp_jni/jni/ixml/src/node.c:625-627 | an element with a child, appended to one of another document: success, and the child keeps the old document |
| DomNode.AppendedAgain | android/pupnp_jni/jni/ixml/src/node.c:621-623 | a child appended to its own parent is used after it has been freed |
| AdbStream.DrainKeepsBytes | android/adb/sockets.c:256-280 | draining a queue by any number of bytes moves them from the front and loses none |
| AdbStream.BytesStayInOrder | android/adb/sockets.c:127-178 | a packet goes behind what is queued and writing takes from the front: no byte is lost or moved |
| AdbStreamProofs.StepKeepsInv | android/adb/adb.c:338-387 | every step of every socket and every packet handled keeps the invariant of all streams |
| AdbStreamProofs.RunInv | android/adb/sockets.c:246-354 | the invariant holds in every state of every run |
| AdbStreamProofs.StreamsAreSafe | android/adb/sockets.c:127-178 | exactly one credit per direction, at most one packet queued, and delivery in order without loss, in every state of every run with any number of streams |
| AdbStreamProofs.NoNullPeer | android/adb/sockets.c:428-447 | no run calls through a null peer; until it is answered, the OPEN stands for the first credit |
| AdbProgress.DeliverLowers | android/adb/adb.c:338-387 | every packet handled lowers the work left, however much of its data is accepted |
| AdbProgress.WriteLowers | android/adb/sockets.c:254-294 | a write event that accepts the whole queue lowers the work left; any other shortens that queue and changes nothing else |
| AdbProgress.NeverStuck | android/adb/adb.h:104-121 | on a linked stream the sender may read, or some step that accepts all it is offered can be taken and lowers the work left |
| AdbProgress.NoWorkRests | android/adb/adb.h:104-121 | with no work left every socket is linked, may read, and all that it has read has been written at the other end |
| AdbProgress.Settles | android/adb/sockets.c:246-354 | from every state of every run, steps that accept all they are offered, no more of them than there is work, lead to such a state with nothing read meanwhile |
| AdbSocket.LocalSocket.EnqueuePacket | android/adb/sockets.c:127-178 | for every pattern of partial writes: as many bytes are given as the descriptor has room for, the rest is queued, and the answer tells whether all are gone |
| AdbSocket.LocalSocket.OnReadable | android/adb/sockets.c:299-349 | exactly the first bytes that wait are read, up to 4096 of them, and reading is switched off |
| AdbSocket.LocalSocket.OnWritable | android/adb/sockets.c:253-296 | for every pattern of partial writes the queue drains from the front by as much as the descriptor has room for; the peer is told once it is empty |
| TransportLifecycle.StepKeepsInv | android/adb/transport.c:59-75 | every step of the two threads, a kicker and the main thread keeps: one lock holder, the kick owed in exactly one place, references counted |
| TransportLifecycle.LifecycleOrder | android/adb/transport.c:674-691 | in every interleaving the events so far are a prefix of kick, return, close, removal, free; close only after both references are gone |
| TransportLifecycle.LifecycleCompletes | android/adb/transport.c:278-334 | once both threads have exited, kick, close and removal have each happened exactly once |
| TransportLifecycle.NoUseAfterFree | android/adb/transport.c:559-585 | after the transport is freed no next step of anybody touches it |
| TransportLifecycle.NoDeadlock | android/adb/transport.c:59-75 | until the transport is freed some thread can move, or the outside kicker that holds the lock can and comes nearer to its end |
| TransportLifecycle.OutsideKick | android/adb/transport.c:837-849 | an outside kicker kicks only a listed transport; when it leaves one, the kick is over, or a thread still owes it or is inside it |
| TransportSync.InputThread | android/adb/transport.c:285-334 | the loop writes exactly the packets between the SYNC with its token and the shutdown, and stops exactly at the shutdown |
| TransportSync.OwedSnoc | android/adb/transport.c:300-321 | one more packet changes what is owed only between the online SYNC and the shutdown |
| TransportSync.StepKeepsInv | android/adb/transport.c:229-323 | every step of both threads and the main loop keeps what has been written equal to what is owed |
| TransportSync.NothingBeforeSync | android/adb/transport.c:229-323 | in every run nothing is written to the remote before the echoed SYNC with the token |
| TransportSync.HostConnectsFirst | android/adb/adb.c:316-336 | in every run of a host the first packet written is CNXN |
| TransportSync.WrittenInOrder | android/adb/transport.c:285-323 | in every run the packets written are a prefix of those the main loop sent online, and all of them at the end |
| TransportSync.AnswerEchoes | android/adb/adb.c:316-336 | every SYNC is sent back, online or shutdown; a host adds a CNXN to an online one, and a device answers CNXN by CNXN |
| TransportSync.MainLoopEchoes | android/adb/adb.c:316-336 | in every run the SYNCs sent are those handled, in order; a device sends exactly the SYNCs and CNXNs it handled, a host one CNXN per online SYNC |
| TransportSync.OutputPosts | android/adb/transport.c:229-283 | in every run the output thread has posted its online SYNC, then what came from the remote, in order, then at its end the shutdown |
| TransportSync.PlainInOrder | android/adb/adb.c:338-387 | every other packet sent joins the queue to the input thread behind those before |
| TransportSync.ShutdownReaches | android/adb/transport.c:274-334 | in every run, once the output thread has stopped and its packets are handled, the input thread has exited or has a packet to read; with none left it has exited and all that is owed is written |
| TransportSync.ShutdownCompletes | android/adb/transport.c:274-334 | from every such state steps of the main loop and the input thread alone lead to its exit, with all that is owed written |
| Octets.WordRoundTrip | android/adb/transport_local.c:55-102 | a 32-bit word survives its four octets |
| Octets.BytesRoundTrip | android/adb/transport_local.c:55-102 | four octets survive the word they spell |
| Octets.Reader.Readx | android/adb/transport.c:897-922 | for every fragmentation: exactly the next bytes, or failure when the stream ends before |
| Octets.Writer.Writex | android/adb/transport.c:924-947 | for every pattern of partial writes all bytes are written, in order |
| PacketWire.Checksum | android/adb/transport.c:196-202 | the loop computes the sum of the octets in 32-bit arithmetic |
| PacketWire.Seal | android/adb/transport.c:188-203 | the packet gets the magic and checksum that both tests accept, and keeps everything else |
| PacketWire.ComplementFlips | android/adb/transport.c:194-194 | the magic is the command with each of its 32 bits flipped |
| PacketWire.SumIsTotal | android/adb/transport.c:196-202 | the checksum of a payload is the sum of its octets; it never wraps around |
| PacketWire.OneByteNoticed | android/adb/transport.c:966-981 | a single octet changed on the way fails the checksum test |
| PacketWire.DecodeExactly | android/adb/transport.c:949-981 | a stream is read as a packet and a rest if and only if it is that packet, sealed, followed by the rest |
| PacketWire.RemoteWrite | android/adb/transport_local.c:86-102 | exactly header and payload are written |
| PacketWire.RemoteRead | android/adb/transport_local.c:55-84 | the packet read, or the failure, is that of the stream, for every fragmentation |
| PacketWire.WriteAll | android/adb/transport.c:188-203 | any packets are sealed, keep what the caller filled in, and are written one after the other |
| PacketWire.Transfer | android/adb/transport_local.c:55-102 | send_packet, remote_write and remote_read end to end: the packets arrive as given, in order, for every fragmentation |
| PacketWire.PacketsRoundTrip | android/adb/transport_local.c:55-102 | any sequence of packets comes back as sent; no header or checksum test fails |
| PacketWire.ReadAll | android/adb/transport_local.c:55-84 | reading on gives the packets of the stream, for every fragmentation |
| FileSync.FrameRoundTrip | android/adb/file_sync_service.c:174-190 | the two words of a message head come back, whatever follows |
| FileSync.LastComma | android/adb/file_sync_service.c:280-284 | the comma found is the last one |
| FileSync.NameRoundTrip | android/adb/file_sync_service.c:274-315 | the server recovers the path, whatever commas it has, and the mode if and only if it is a 32-bit number; otherwise the mode is 0644 |
| FileSync.OtherModes | android/adb/file_sync_service.c:280-286 | a mode in octal or hexadecimal is understood as well, in either case of letters |
| FileSync.BareName | android/adb/file_sync_service.c:288-294 | a name without a mode is the path, and its file may be read and written, but not run, by everybody |
| FileSync.CStrCut | android/adb/file_sync_service.c:378-386 | what follows a NUL in a name is not seen |
| FileSync.PermissionsWiden | android/adb/file_sync_service.c:308-309 | bit by bit: the user gets the bits of the mode, the group also those of the user, others those of both |
| FileSync.LoopReadsChunks | android/adb/file_sync_service.c:171-201 | the receive loop reads every chunk and stops right after DONE, whether or not it can store them |
| FileSync.LoopReadsOnlyChunks | android/adb/file_sync_service.c:171-201 | conversely, the loop only finishes on DATA messages ended by DONE |
| FileSync.BadFrameTold | android/adb/file_sync_service.c:177-190 | after any chunks, a message of another kind or too long a chunk ends the connection, and the client is told which |
| FileSync.StoreAllResult | android/adb/file_sync_service.c:193-200 | all chunks are stored in order, or the file is dropped with exactly one FAIL |
| FileSync.PushServed | android/adb/file_sync_service.c:151-222 | a SEND ended by DONE leaves the client's bytes and time or no file, one reply, and the input at the next command |
| FileSync.SendAllOrNothing | android/adb/file_sync_service.c:151-222 | for any bytes after a SEND: the session goes on if and only if they are DATA messages ended by DONE; the file is all of their data, or gone if the disk fails or anything else came; no other file changes |
| FileSync.RequestServed | android/adb/file_sync_service.c:366-406 | every request whose name fits is carried out, answered, and leaves the loop at a frame boundary, whether opening, writing or reading fails |
| FileSync.BadCommandTold | android/adb/file_sync_service.c:366-411 | what the server says before it gives up: command cut short, name too long, name cut short, unknown command; QUIT ends it without a word |
| FileSync.PushNeedsShortName | android/adb/file_sync_client.c:297-320 | a push is carried out if and only if path and mode suffix together fit in 1024 bytes |
| FileSync.LongPathRefused | android/adb/file_sync_client.c:307-308 | a path of 1024 bytes passes the client's test and is refused |
| FileSync.PushConfirmed | android/adb/file_sync_service.c:203-221 | with a name that fits, the client reads OKAY if and only if the file was stored, and then the server holds the bytes sent with time and widened permissions, or else no file there; no other file changes; a name too long changes nothing and is never told OKAY |
| FileSync.StatusTold | android/adb/file_sync_client.c:396-412 | the client reads OKAY if and only if the file is stored, and stands at the next reply if and only if it is or the reason has at most 256 bytes |
| FileSync.OtherTold | android/adb/file_sync_client.c:396-412 | a message that is neither OKAY nor FAIL is taken for a failure |
| FileSync.PushHoldsFile | android/adb/file_sync_client.c:210-243 | when the client reads OKAY the server holds exactly the bytes read locally, and so the client's file if and only if that is empty or was opened and read to its end |
| FileSync.UnreadableReplaces | android/adb/file_sync_client.c:374-388 | a non-empty file that does not open replaces the server's by an empty one, and OKAY is told |
| FileSync.PipelineServed | android/adb/file_sync_service.c:357-412 | any sequence of requests is carried out and answered in order, whichever files fail, and the loop goes on with what follows |
| FileSync.Split | android/adb/file_sync_service.c:329-344 | however reads cut a file, the pieces fit a message and join to the file |
| FileSync.PullReadsChunks | android/adb/file_sync_client.c:469-505 | the client's loop joins the chunks and goes on with what follows them, or is lost at the first one its disk does not take |
| FileSync.PullAllOrNothing | android/adb/file_sync_client.c:457-509 | for any bytes that reach the client: it receives a file if and only if they are DATA messages ended by DONE and its disk takes each; the file is then all of their data |
| FileSync.PullRefused | android/adb/file_sync_client.c:505-528 | after any chunks, any other message counts as a failure of the server; of a FAIL at most 256 bytes of the reason are read, and the connection is lost if they do not come |
| FileSync.PullGetsFile | android/adb/file_sync_service.c:317-355 | the client gets the server's file, however reads cut it, if and only if the server could open it and read it to its end; otherwise it reads the server's failure |
| FileSync.PullCodeIsBlind | android/adb/file_sync_client.c:505-528 | with a working local disk the return code is 0 for every path asked for, and the local path holds the file if and only if the server could open it and read it to its end, or else nothing |
| FileSync.MissingPull | android/adb/file_sync_client.c:510-528 | for a path that the server lacks the code is 0 and there is no file |
| FileSync.StatTells | android/adb/file_sync_service.c:55-74 | STAT tells of a file its size, time and permissions and that it is regular; mode 0 if and only if it is missing |
| FileSync.StatsInOrder | android/adb/file_sync_client.c:700-717 | the k-th reply to a pipeline of STATs is about the k-th file, and nothing changes on the server |
| FileSyncMachine.WriteDataFile | android/adb/file_sync_client.c:210-243 | for every pattern of partial reads the messages carry the file up to its end or the failed read; nothing if it does not open |
| FileSyncMachine.WriteDataBuffer | android/adb/file_sync_client.c:247-270 | the messages carry the whole buffer, all but the last one full |
| FileSyncMachine.SyncSend | android/adb/file_sync_client.c:297-394 | what is written is the request for that path, mode, time and the bytes read locally, whatever write_data_file returned |
| FileSyncMachine.FinishSend | android/adb/file_sync_client.c:396-412 | the status is read as the function does, for every fragmentation |
| FileSyncMachine.ReceiveFile | android/adb/file_sync_service.c:171-201 | the loop reads, stores and replies as the function does, for every fragmentation |
| FileSyncMachine.HandleSendFile | android/adb/file_sync_service.c:151-222 | files, replies and the rest of the input after a SEND are those of the function |
| FileSyncMachine.SendData | android/adb/file_sync_service.c:328-344 | for every pattern of partial reads the messages are those of the pieces of the file |
| FileSyncMachine.DoRecv | android/adb/file_sync_service.c:317-355 | exactly the reply of the function is written, with a FAIL after a failed read |
| FileSyncMachine.ServeCommand | android/adb/file_sync_service.c:366-406 | every command, well formed or not, has the outcome of the function |
| FileSyncMachine.Service | android/adb/file_sync_service.c:357-412 | the command loop ends with the files and replies of the whole session |
| FileSyncMachine.SyncRecv | android/adb/file_sync_client.c:457-528 | the return code is 0 if and only if neither the connection nor the local file was lost; then the local path holds the file received, or nothing after an error of the server; for every fragmentation |
| FileSyncMachine.PushFile | android/adb/file_sync_client.c:297-412 | client, server and client again: OKAY means that the server holds what was read of the local file, with the time and the permissions widened bit by bit, which is the file if and only if it was read to its end; anything else that the path is gone, or with a name too long that nothing changed |
| FileSyncMachine.PullToFile | android/adb/file_sync_client.c:441-528 | server and client together: no file of the server changes, and the code is 0 whether the file arrives or not, except for a path too long |
| BipBuffer.Bip.constructor | android/adb/sysdeps_win32.c:862-877 | a new buffer is empty, writable and open |
| BipBuffer.Bip.Close | android/adb/sysdeps_win32.c:879-890 | closing keeps the contents and signals both events |
| BipBuffer.Bip.Fill | android/adb/sysdeps_win32.c:937-973 | exactly the bytes that fit are appended to the contents, over both regions |
| BipBuffer.Bip.Drain | android/adb/sysdeps_win32.c:1031-1065 | exactly the bytes that are there, up to the length, are taken from the front |
| BipBuffer.Bip.Write | android/adb/sysdeps_win32.c:901-988 | the count is the smaller of length and room, the contents grow by those bytes, flags stay exact; full means wait or EPIPE |
| BipBuffer.Bip.Read | android/adb/sysdeps_win32.c:990-1081 | the count is the smaller of length and contents, the contents shrink by those bytes, flags stay exact; empty means wait or EPIPE |
| BipThreads.StepKeepsInv | android/adb/sysdeps_win32.c:901-1081 | every single access of reader, writer and closer to flags, events and queue keeps the invariant |
| BipThreads.QueueIsFifo | android/adb/sysdeps_win32.c:901-1081 | in every interleaving what was read is a prefix of what was written, and the rest fits the buffer |
| BipThreads.NoLostWakeup | android/adb/sysdeps_win32.c:879-890 | with the lock free a parked reader has nothing to read and a parked writer no room; never both parked; after closing, the other end of whoever is parked stands right before its SetEvent |
| BipThreads.SignallingWakes | android/adb/sysdeps_win32.c:978-981 | that step can always be taken and ends the wait |
| BipThreads.ReadAlone | android/adb/sysdeps_win32.c:990-1081 | a read that nobody interrupts takes as many bytes as it may and leaves flags and events right; with none it gives up when closed and waits otherwise; woken, it starts again or gives up |
| BipThreads.WriteAlone | android/adb/sysdeps_win32.c:901-988 | a write that nobody interrupts puts as many bytes as there is room for; with no room it gives up or waits; woken, it starts again or gives up |
| BipThreads.CloserMisses | android/adb/sysdeps_win32.c:879-890 | a run in which closing is over and a reader is parked before a byte |
| Fdevent.Enqueue | android/adb/fdevent.c:364-372 | the ring gets the node at its end |
| Fdevent.Unlink | android/adb/fdevent.c:374-380 | the ring loses exactly that node, wherever it stands |
| Fdevent.Dequeue | android/adb/fdevent.c:382-395 | the ring loses its oldest node, which is returned |
| Fdevent.UnwantedStays | android/adb/fdevent.c:462-472 | no unwanted event stays pending if and only if none was pending before; a change always loses the wanted ones |
| Fdevent.UnwantedExample | android/adb/fdevent.c:462-472 | a wanted event is lost and an unwanted one kept |
| Fdevent.CountSuffices | android/adb/fdevent.c:286-296 | the count of select covers one decrement per ready descriptor |
| Fdevent.EventsSpelt | android/adb/fdevent.c:295-299 | a ready descriptor has READ, WRITE and ERROR exactly by the three sets |
| Fdevent.EventLoop.Grow | android/adb/fdevent.c:324-342 | the table is enlarged to hold the descriptor, old entries kept and an int per new entry cleared, and everything still agrees whatever the others hold |
| Fdevent.EventLoop.Install | android/adb/fdevent.c:415-430 | succeeds exactly for descriptors in range; then the fdevent is registered and everything agrees |
| Fdevent.EventLoop.LastEntry | android/adb/fdevent.c:249-252 | the loop finds the last descriptor in the table |
| Fdevent.EventLoop.Remove | android/adb/fdevent.c:432-446 | the fdevent leaves table, sets and list, everything agrees, no abort is reached, and the last descriptor counted has a non-empty entry; an installed one if pointers are no wider than an int |
| Fdevent.EventLoop.Update | android/adb/fdevent.c:255-274 | the three sets follow the new event bits and everything agrees |
| Fdevent.EventLoop.Set | android/adb/fdevent.c:449-473 | the new state word and pending events exactly; the list drops the fdevent exactly when no event is left; everything agrees |
| Fdevent.EventLoop.Add | android/adb/fdevent.c:475-479 | the wanted events grow by exactly those given |
| Fdevent.EventLoop.Del | android/adb/fdevent.c:481-485 | the wanted events shrink by exactly those given |
| Fdevent.EventLoop.Process | android/adb/fdevent.c:276-314 | every ready descriptor gets exactly its events and the early exit skips none; newly pending ones follow in order of descriptors; no fdevent is missing |
| Fdevent.EventLoop.Next | android/adb/fdevent.c:496-501 | the oldest pending fdevent is delivered with its events, once |
| Fdevent.EventLoop.Callback | android/adb/fdevent.c:502-502 | the call is recorded with its descriptor and events; what it does then keeps everything in agreement, takes fdevents from the list but adds none, and leaves those of other descriptors as they are |
| Fdevent.EventLoop.Turn | android/adb/fdevent.c:487-505 | whatever the callbacks do, a turn ends, nothing is pending and everything agrees; those pending or ready are called back in order, the old list first and then by descriptor, each at most once with a non-empty part of its pending and ready events; with all of them, and without fail, unless a callback before made a call on its descriptor |
| LeastRound.FactorsAdd | algorithm/codeforces/2/2b.cpp:57-72 | exponents of 2 and of 5 add up in products |
| LeastRound.ZerosAreFactors | algorithm/codeforces/2/2b.cpp:151-161 | a number ends in as many zeros as the smaller of its exponents of 2 and 5 |
| LeastRound.CostIsFactors | algorithm/codeforces/2/2b.cpp:74-95 | the cost of a path is the exponent in its product |
| LeastRound.BestPathAttains | algorithm/codeforces/2/2b.cpp:97-113 | the path kept in the table is a path to its cell and has the cost kept in the table |
| LeastRound.BestIsLeast | algorithm/codeforces/2/2b.cpp:74-95 | no path costs less than the table says |
| LeastRound.DetourCorrect | algorithm/codeforces/2/2b.cpp:162-171 | when every path has a 2 and a 5, the way through a zero is the best |
| LeastRound.AnswerByPath | algorithm/codeforces/2/2b.cpp:151-171 | what is printed is a path, and right if and only if it avoids zeros or both least costs are positive |
| LeastRound.AnswerWrongIff | algorithm/codeforces/2/2b.cpp:151-171 | the matrices for which the answer is wrong, exactly: a way of cells without a 2 exists and the lowest such way meets a zero, or none does and the same holds for 5 |
| LeastRound.PositiveAnswer | algorithm/codeforces/2/2b.cpp:151-161 | for every matrix of positive numbers the printed count is the least and the printed path attains it |
| LeastRound.WrongAnswer | algorithm/codeforces/2/2b.cpp:151-161 | a matrix for which the printed answer is wrong |
| LeastRoundTables.GetNumberOfFactor | algorithm/codeforces/2/2b.cpp:57-72 | the table holds the exponents, and the flag and row are those of the first zero |
| LeastRoundTables.Dp | algorithm/codeforces/2/2b.cpp:74-95 | every cell holds the least cost and the step kept for it |
| LeastRoundTables.OutputPath | algorithm/codeforces/2/2b.cpp:97-113 | the array filled from its end spells the path kept in the table |
| LeastRoundTables.Solve | algorithm/codeforces/2/2b.cpp:115-174 | what is printed is the answer of the selection, for every square matrix |
| Median.MergeIsSorted | algorithm/i2a_ex_9.3-8/ex9_3_8.cpp:43-64 | the merge of sorted sequences is sorted |
| Median.MergeIsPermutation | algorithm/i2a_ex_9.3-8/ex9_3_8.cpp:43-64 | the merge holds exactly the elements of both |
| Median.MergeAt | algorithm/i2a_ex_9.3-8/ex9_3_8.cpp:50-63 | a value with i elements of one and j of the other on its left is element i + j of the merge |
| Median.MedianIsMiddle | algorithm/i2a_ex_9.3-8/ex9_3_8.cpp:43-64 | from every window the recursion reaches, never an empty one, the result is element n - 1 of the merge |
| Median.MedianOfBoth | algorithm/i2a_ex_9.3-8/ex9_3_8.cpp:84-84 | for all sorted arrays of equal length the call returns the lower median of both together |
| Smooth.Divisor | algorithm/interview/nth_large_number.cpp:26-45 | every number of the form but 1 is 2, 3 or 5 times a smaller one |
| Smooth.NoneBetween | algorithm/interview/nth_large_number.cpp:26-45 | no number of the form lies between the last one and the least multiple above it |
| Smooth.Lower | algorithm/interview/nth_large_number.cpp:32-42 | one turn lowers the candidate below every multiple of that element; the break is taken exactly when none is left |
| Smooth.GetNext | algorithm/interview/nth_large_number.cpp:26-45 | the first n numbers and the result are the first n + 1; the break loses nothing |
| Smooth.Fill | algorithm/interview/nth_large_number.cpp:51-54 | the filled array is strictly increasing and holds exactly the n smallest numbers 2^i 3^j 5^k |

## Left out

- XmlParser.Parse: names with a colon, `xmlns` attributes, CDATA sections and DOCTYPE end in an outcome of their own; namespaces, relaxed error mode and `Parser_isValidXmlName` are not modelled.
- XmlMachine.ParseBuffer: the same.
- XmlMachine.ParserObject.ProcessContents: a CDATA section ends in that outcome.
- XmlMachine.ParserObject.ProcessAttr: a namespace attribute ends in that outcome.
- `char` is signed where the parser tests its sign.
- Numeric entities are unbounded numbers, and a NUL inside one is a failure: the C code would overflow an int or let `strchr` match the terminator.
- The document under construction is a path of open elements, not a heap of nodes; the heap of nodes has its own model in `DomTree`.
- Files instead of buffers, allocation failures, `free` and memory layout. Attribute lists and cloning of nodes are not modelled.
- DomNode.RemoveChild: does not tell a returned child from a freed one; the freed subtree is a forest nobody refers to.
- Streams end at the first close: closing, refused OPENs, jdwp and device trackers are not modelled, and ids do not wrap around. The transport is a pair of queues; `TransportSync` and `PacketWire` are about what lies below.
- AdbSocket.LocalSocket.EnqueuePacket: a write error, which closes the socket, is left out.
- AdbSocket.LocalSocket.OnReadable: end of file and read errors, which close the socket, are left out.
- AdbSocket.LocalSocket.OnWritable: write errors and the closing flag are left out.
- Octets.Writer.Writex: the connection stays up, so it never fails.
- What `write_to_remote` returns is ignored, as in the code; SYNC packets that come from the remote are arbitrary, CNXN carries no banner.
- FileSyncMachine.ServeCommand: LIST and SEND of a symbolic link are left out, as is the apk check of the client; a mode after the last comma has no blanks and no sign, and `unsigned long` has 32 bits.
- FileSyncMachine.Service: a LIST or a link ends the modelled session.
- Unlinking a file on the server always works, and directories are not modelled.
- FileSync.ReceivePull: a length of 2^31 or more counts as too long; the C code holds it in a signed int. The text of a failure is read but not kept.
- One reader and one writer per bip buffer; a failing `WaitForSingleObject` is not modelled, nor is anything else of `sysdeps_win32.c`.
- Descriptor sets are unbounded, so FD_SETSIZE is not modelled; `fdevent_create` and `fdevent_destroy` add only a flag. One fdevent per descriptor is assumed, as the event loop does.
- `zero_col` of the least round way is never read and not kept. All algorithms work on unbounded integers, and the fixed sizes of their arrays are parameters.
- USB back ends, services, command lines, thread pools, timers, UPnP and SIP samples, and the other exercises: device code, plumbing or easier members of the same kinds.
