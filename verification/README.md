# A verified model of gokdl2

This project models the hand-written machines of gokdl2, a KDL version 1 and version 2 library, and
proves what they promise each other:

* **The parser.** A table of handlers consumes one token at a time and updates a context: a stack of
  states, a stack of open nodes, a pending identifier and annotation, slashdash marks, a counter of
  ignored blocks, continuation flags and a re-entry signal. `Machine.dfy` is the step relation on values,
  with nodes in a store; `Nodes.dfy`, `Recent.dfy` and `ParserContext.dfy` are the objects and fields as
  the program updates them, every method tied to the step relation. `StackShape.dfy` holds the invariants of
  every run, `Frames.dfy` what a step may write and what slashdash keeps out, `Driver.dfy` the re-entry
  loop and the irrelevance of positions, `Separation.dfy` the separation check of version 2. `Continuation.dfy`
  compares runs on continued lines with runs on spaces, `Spacing.dfy` says where blanks and comments mean
  nothing and what may follow an annotation, a key, a bare word or an ignored block.
* **The printer and the round trip.** `Syntax.dfy` gives the tokens of a written document, slashdashes
  included, and the tree it stands for. `PrintParse.dfy` follows the machine through them entry by entry,
  `Build.dfy` the store it builds, `RoundTrip.dfy` has the results for both versions. `Printer.dfy` is the
  recursive printer on bytes, `Numerals.dfy` the notation of decimal numbers.
* **The tokenizer.** `Scanner.dfy` is the sliding window over a reader: peeked runes, marks, compaction,
  doubling and shared slices. `Tokenize.dfy` says what a token is as a function of the unread input alone;
  `Readers.dfy` and `Scans.dfy` prove every reader, `readNext` and `ScanAll` against it, for any way the
  input arrives; `Streaming.dfy` compares whole sessions over a reader and over a slice. `Reading.dfy` and
  `TextScan.dfy` run it on printed text. What its functions mean is stated apart from them: character sets,
  names, escapes and prefixed numbers in `Notation.dfy`, comments and triple quotes in `Lexemes.dfy`, quoted
  strings in `Strings.dfy`, keywords and raw strings of version 2 in `HashTokens.dfy`.
* **All of it together.** `Documents.dfy` runs scanner and parser the way `kdl.go` does, one token at a time
  over a reader: what a printed document, delivered in any pieces, is read back as, and when.
* **The codecs.** `Quoted.dfy`, `Raw.dfy`, `Multiline.dfy` and `Durations.dfy`: quoted strings, raw strings
  with an explicit hash count, triple-quoted dedent, base-60 durations. `Triples.dfy` decodes triple-quoted
  strings with escapes, `TripleScans.dfy` scans and decodes them.

Strings are byte sequences, decoded the way Go's `unicode/utf8` does (`Utf8.dfy`). Nodes are heap objects
in `Nodes.dfy`; everywhere else a node is a record in a store and a pointer its position.

## Where the code departs from what one would expect

The model follows the code. Each of these is a proved fact, with the exact condition.

* An annotated argument directly after another argument is accepted in version 1 and refused in version 2
  (`RoundTrip.VersionsAgree`, condition `AllTypedOk`).
* The annotation of a hexadecimal argument or property value is lost in printing: the number is rendered into
  a new buffer, without what was written before it (`RoundTrip.HexTypeLost`; `RoundTrip.PrintedSame`,
  condition `TypesKept`).
* A control character without a short escape is printed as `\u` without braces, which the decoder refuses
  (`Quoted.QuoteRoundTrip`, condition `Quotable`).
* A name or key spelled `true`, `false`, `null` or like a signed number is printed bare and not read back
  (`RoundTrip.PrintThenParse`, condition `TreeOk`).
* A slashdash before the closing brace of a child block is accepted where the brace is (exact condition in
  `Dangling.DanglingSlashdash`), and its mark outlives the node: after `a{b /-}` the node `c "x"` on the next
  line is read without its argument (`Dangling.MarkDropsArgument`).
* A replacement character U+FFFD in a string is printed as itself, and no reader takes it, because the scanner
  cannot tell it from bytes that cannot be decoded (`Reading.QuotedStringReadBack`, condition `NoRep`;
  `Reading.ReplacementRefused`). For the same reason a raw string must be decodable
  (`Reading.RawStringReadBack`, condition `Clean`).
* The version 2 reader takes an escaped backslash followed by a slash for the escape of a slash and stops
  there (`Reading.QuotedStringReadBack`, condition `SlashFree`).
* A name that begins with a backtick, a byte order mark, `r#`, or a sign and a digit is printed bare all the
  same, and not scanned as a name (`TextScan.BareScans`, condition `BareSpelling`). A byte order mark with
  which a document begins is dropped (`TextScan.MarkDropped`).
* What a slashdashed property keeps apart in version 2, two arguments the second of which is annotated, is
  refused when the property is cut out (`RoundTrip.StripJoins`; `RoundTrip.SlashdashErasure`, condition
  `AllTypedOk`).
* Directly after a name a backslash and the end of the line do not separate: without a space in the gap no entry
  can follow (`Continuation.SpaceNeeded`, condition `HasWhite`). A line cannot be continued inside an annotation or around
  the equals sign (`Continuation.NoContinuationThere`). A backslash with no newline after it is skipped like a space
  (`Continuation.LoneBackslash`).
* After a slashdashed block no entry may follow, unless the block came first on a continued line
  (`Spacing.EntryAfterIgnored`), or a continued line comes between (`Continuation.ContinuedLine`).
* An annotation before a child block passes to the first node in it, and one before a newline in a block to the next
  node (`Spacing.AnnotationPasses`).
* In version 1 a bare word before a closing brace is dropped, and in both versions a property without a value
  (`Spacing.WordDropped`, `Spacing.BraceAfterWord`).
* In a triple-quoted string with escapes a line that ends in a backslash makes the next one keep its indentation, a line of
  blanks loses them, and a carriage return before the closing line is lost (`Triples.TripleQuoteDecodes`;
  `Triples.TripleRoundTrip`, condition `Stays`).
* The reader of raw triple-quoted strings reads quotes three at a time, and misses a closing sequence with one or two
  quotes before it (`Lexemes.RawTripleEnds`, condition `Aligned`; `Lexemes.ClosingMissed`).
* A duration without seconds may have anything after its dot (`Durations.ClockParses`).
* Hexadecimal, octal and binary numbers are refused before a semicolon, so in the semicolon layout a node
  without a block that ends in one is not read back (`TextScan.BasedScans`; condition in `TextScan.NodesClean`).
* Between the braces of a Unicode escape anything that is no hexadecimal digit counts as zero, and there may
  be nothing at all (`Quoted.BraceAccepted`, `Quoted.EmptyBraces`).
* An input that ends inside a token can be scanned without an error and without that token
  (`Scans.LostToken`; impossible when it ends with a newline, `Scans.Lossless`).
* A streaming scanner on an empty input starts with an error, a scanner over an empty slice does not
  (`Scanner.Scanner.NewBuffer`, `Scanner.Scanner.NewSlice`).
* A look further ahead than the buffer reaches is promised nothing about a missing rune; what is certain is
  stated by `Scanner.Scanner.PeekAtSize`.

## Model

| member | source | states |
|---|---|---|
| Machine.DispatchIsLookup | internal/parser/parser.go:171-184 | the handler chosen directly is the one the two-stage lookup, by identifier and then by class, finds in the table, for every state and token |
| Machine.RunConcat | internal/parser/parser.go:211-221 | running two token sequences one after the other is running their concatenation, errors included |
| StackShape.InitialShape | internal/parser/parser.go:72-84 | a new context has a legal shape and no open block |
| StackShape.LegalAlternates | internal/parser/context.go:26-33 | in a legal shape the frames are Document, then node and Children frames in turn, nothing else |
| StackShape.StepShape | internal/parser/transitions.go:17-642 | any step on any token keeps the shape of both stacks, never finds a stack empty or a node missing, and moves the number of open blocks by the brace it accepts |
| StackShape.NoSecondReenter | internal/parser/parser.go:211-221 | a token that has been re-entered is not re-entered again |
| StackShape.FeedShape | internal/parser/parser.go:211-221 | a token offered as often as it asks for keeps the shape and ends without the re-entry signal |
| StackShape.RunShape | internal/parser/parser.go:211-221 | over any run the open blocks are the accepted opening braces minus the accepted closing ones, and neither stack-empty error nor nil node is reachable |
| Driver.CallsBound | internal/parser/parser.go:211-221 | a run costs at most one handler call per token and one more per closing brace, so at most two per token |
| Driver.ParseIsRun | internal/parser/parser.go:132-142 | where no token has to be separated from the one before it, the version 2 check changes nothing |
| Driver.UnplacedRun | internal/parser/parser.go:132-194 | apart from that check no step depends on where a token stands |
| Driver.NodesSeparated | document/node.go:256-406 | no printed document contains two touching tokens that version 2 wants separated |
| Driver.ParseAllIsSnoc | internal/parser/parser.go:223-233 | parsing all tokens is feeding them and then the end of the input, which never re-enters |
| Separation.MissingSeparatorExactly | internal/parser/parser.go:10-47 | a missing separator is reported exactly in version 2, for a value or closing brace and a value, or a closing parenthesis and a slashdash, the second beginning in the line and column where the first ends; the context is then left alone, else the handler decides |
| Separation.ClashEndsRun | internal/parser/parser.go:132-142 | two such tokens end every run of version 2 that gets there, whatever comes before and after |
| Separation.ErrorIsClash | internal/parser/parser.go:132-142 | where a run reports a missing separator, two such tokens stand and everything before the second was accepted |
| Separation.JoinedEntries | internal/parser/parser.go:132-142 | two entries with nothing between them, whatever stands before and after, are refused in version 2 |
| Continuation.ContinuedLine | internal/parser/parser.go:154-169 | in either version, after a name, among the entries and with an argument pending, blanks, a backslash, blanks, a line comment or none, a newline and blanks do what a space does: every run ends alike, with the same nodes, unless a slashdash follows directly; then a run that succeeds with the space succeeds with the same nodes |
| Continuation.RunLike | internal/parser/transitions.go:17-642 | two states that differ in what they remember of the line only stay so over any run, up to a slashdash |
| Continuation.SecondNewline | internal/parser/transitions.go:411-425 | a second newline ends the node: both stacks are one shorter |
| Continuation.ContinuedDocument | internal/parser/parser.go:154-169 | in a written document any such space is as good as a continued line: the same trees are read, or it is refused all the same |
| Continuation.ArgumentOnNextLine | internal/parser/transitions.go:411-414 | in either version an argument may stand on the line after a backslash, for every name and value |
| Continuation.ContinuedBetween | internal/parser/transitions.go:85-89 | between nodes a backslash, blanks and a newline are nothing |
| Continuation.LoneBackslash | internal/parser/parser.go:154-169 | a backslash without a newline is skipped like a space |
| Continuation.SpaceNeeded | internal/parser/transitions.go:247-295 | directly after a name no entry can follow a continued line without a space in it |
| Continuation.NoContinuationThere | internal/parser/transitions.go:598-642 | inside an annotation and around the equals sign a newline is refused, a backslash before it or not |
| Spacing.BlanksAsSpace | internal/parser/transitions.go:297-326 | inside a node spaces and comments are one space, where a space begins them or a comment may |
| Spacing.BetweenNodes | internal/parser/transitions.go:18-71 | between nodes blanks, comments and empty lines are skipped |
| Spacing.BlanksThere | internal/parser/transitions.go:191-246 | inside an annotation and after the equals sign blanks are skipped in version 2 and refused in version 1 |
| Spacing.AnnotationRefuses | internal/parser/transitions.go:297-326 | an annotation is not followed by a slashdash or an equals sign, and in version 1 not by a blank |
| Spacing.AnnotationEnds | internal/parser/transitions.go:411-425 | nor by a terminator, except for a newline in a block or among slashdashed entries |
| Spacing.AnnotationPasses | internal/parser/transitions.go:401-410 | an annotation before a child block, or a newline in one, is read as if it came after |
| Spacing.AfterIgnored | internal/parser/parser.go:143-153 | after an ignored block exactly blanks, a newline, a continuation and the end are let through |
| Spacing.EntryAfterIgnored | internal/parser/parser.go:142-152 | an entry after a slashdashed block is refused, unless the block came first on a continued line, and then read as if there were no block |
| Spacing.KeyBeforeEquals | internal/parser/transitions.go:504-514 | what was read is a key exactly when it is a string or bare word without an annotation |
| Spacing.BlankBeforeEquals | internal/parser/transitions.go:516-532 | blanks before the equals sign do not matter in version 2 and end the entry in version 1 |
| Spacing.WordIsKey | internal/parser/transitions.go:343-355 | in version 1 nothing but an equals sign or a brace may follow a bare word |
| Spacing.WordIsArgument | internal/parser/transitions.go:343-355 | in version 2 it is an argument, added at the end of the line |
| Spacing.WordDropped | internal/parser/transitions.go:453-459 | before a closing brace it is dropped in version 1 |
| Spacing.SuffixedAdds | internal/parser/transitions.go:364-377 | a suffixed number is an argument at once, without its annotation, or dropped after a slashdash |
| Driver.PrintedTokens | document/node.go:295-403 | feeding the tokens of a printed document and its end, wherever they stand, does what printing then parsing is proved to do, in either version |
| Driver.ParsePrinted | internal/parser/parser.go:211-237 | the parser with separation check, re-entry and final end of input, on a printed document standing anywhere, yields its trees as printed in either version, fails exactly when they cannot be read back, and yields the trees themselves exactly when no hexadecimal value is annotated |
| Frames.StepHeap | internal/parser/context.go:102-180 | a step writes the top stack node or the document's list, pushes one fresh node or pops one, and nothing else |
| Frames.ClosedForGood | internal/parser/context.go:173-180 | a node that has left the stack, and one that nothing points at, stays as it is over any further run |
| Frames.RunPointers | internal/parser/context.go:102-126 | every pointer in the document and its nodes is to an allocated node, in every run |
| Frames.RunSealed | internal/parser/context.go:102-180 | while the stack stays above a height, no run changes anything below it |
| Frames.SlashdashedNode | internal/parser/transitions.go:133-161 | from the step that opens a slashdashed node until it is closed nothing that existed before changes, and nothing ever points at it |
| Frames.StepFrames | internal/parser/transitions.go:162-188 | every step pushes, pops or replaces one frame; while blocks are ignored their count moves with the braces, otherwise it is zero and stays zero, except at an opening brace that a slashdash waits for, where it becomes one |
| Frames.OpensIgnored | internal/parser/transitions.go:401-410 | opening a block that a slashdash waits for, after the name, among the entries or with nothing pending, or one inside an ignored block, adds one to the count, with the machine inside the block |
| Frames.IgnoredFromStart | internal/parser/context.go:58 | in every run from the start at most the open blocks are ignored, so outside blocks nothing is |
| Frames.FeedIgnores | internal/parser/parser.go:211-221 | no token takes the count from zero but an opening brace that a slashdash waits for |
| Frames.SlashdashedBlock | internal/parser/transitions.go:162-188 | from the opening to the closing brace of an ignored block no node that existed before changes, and the count is the number of blocks open from the ignored one inwards |
| Dangling.DanglingSlashdash | internal/parser/transitions.go:356-425 | a slashdash with nothing after it fails before a semicolon or the end; a closing brace after it is accepted exactly inside a child block that no slashdash precedes and not right after an ignored block, and then the mark stays |
| Dangling.MarkDropsArgument | internal/parser/transitions.go:312-319 | a run from the start, for any three names and any value: the document read from a child ending in such a slashdash and a second node lacks the second node's argument |
| Recent.RecentTokens.constructor | internal/parser/recent.go:9-12 | the ring begins as a window over no tokens |
| Recent.RecentTokens.Add | internal/parser/recent.go:14-17 | the ring is the window over the last five of all tokens added |
| Recent.RecentTokens.Get | internal/parser/recent.go:19-29 | the known tokens of the window, oldest first |
| Recent.PreviousToken | internal/parser/parser.go:133-141 | the last but one of them is the token before the current one |
| Nodes.Node.AddNode | document/node.go:62-64 | a child is appended |
| Nodes.Node.AddArgumentValue | document/node.go:101-104 | an argument is appended |
| Nodes.Node.AddPropertyValue | document/node.go:135-144 | the property list in place does what adding to the ordered list does |
| Nodes.Allocator.constructor | document/allocator.go:12-20 | as many distinct slots as estimated, at least one |
| Nodes.Allocator.NewNode | document/allocator.go:22-30 | a blank node, fresh or from a slot that is free no longer; no other slot is touched |
| Nodes.NodeStack.constructor | internal/parser/parser.go:72-84 | an empty document, with a pool exactly when a size is estimated |
| Nodes.NodeStack.Allocate | internal/parser/context.go:121-126 | a node never handed out before, blank, all others unchanged |
| Nodes.NodeStack.CreateNode | internal/parser/context.go:114-119 | in the abstract store: a fresh node on the stack, linked to nothing |
| Nodes.NodeStack.AddNode | internal/parser/context.go:102-112 | in the abstract store: a fresh node on the stack, linked to the open node or the document |
| Nodes.NodeStack.PopNode | internal/parser/context.go:173-180 | one entry less, or an error exactly when there is none |
| Nodes.NodeStack.SetName | internal/parser/context.go:135-142 | only the open node's name changes |
| Nodes.NodeStack.AddArgument | internal/parser/context.go:144-154 | only the open node's arguments change, by one |
| Nodes.NodeStack.AddProperty | internal/parser/context.go:156-169 | only the open node's properties change, by one |
| ParserContext.FindHandler | internal/parser/parser.go:171-184 | the search by identifier and then along the classes finds what the table lookup defines |
| ParserContext.OneCall | internal/parser/parser.go:211-221 | one iteration fails, asks for the same token once more, or goes on to the next |
| ParserContext.ParseContext.constructor | internal/parser/parser.go:72-84 | the abstract value of a new context is the initial state |
| ParserContext.ParseContext.PopNodeAndState | internal/parser/context.go:182-189 | both stacks are popped, or the error of the one that is empty |
| ParserContext.ParseContext.AddArgumentToken | internal/parser/context.go:144-154 | the context's abstract value gains the decoded argument, or is unchanged and an error is returned |
| ParserContext.ParseContext.AddPropertyToken | internal/parser/context.go:156-169 | the same for a property, name and value decoded in that order |
| ParserContext.ParseContext.NodeName | internal/parser/transitions.go:26-55 | a name begins a node, detached or not, and consumes the annotation; the node exists even if its name is refused |
| ParserContext.ParseContext.HandleDocument | internal/parser/transitions.go:18-91 | the handlers between top-level nodes, fields and heap, against the step relation |
| ParserContext.ParseContext.HandleChildren | internal/parser/transitions.go:92-189 | the handlers in a child block, against the step relation |
| ParserContext.ParseContext.HandleTypeAnnot | internal/parser/transitions.go:191-221 | the handlers inside an annotation |
| ParserContext.ParseContext.HandleTypeDone | internal/parser/transitions.go:222-246 | the handlers before the closing parenthesis |
| ParserContext.ParseContext.HandleNode | internal/parser/transitions.go:247-295 | the handlers after a name or a property |
| ParserContext.ParseContext.HandleNodeParams | internal/parser/transitions.go:296-426 | the handlers among a node's entries |
| ParserContext.ParseContext.HandleNodeEnd | internal/parser/transitions.go:427-441 | the handlers after a line comment |
| ParserContext.ParseContext.HandleProperty | internal/parser/transitions.go:442-460 | the handlers after a bare key in version 1 |
| ParserContext.ParseContext.HandleArgProp | internal/parser/transitions.go:461-597 | the handlers while an argument or key is pending |
| ParserContext.ParseContext.HandlePropertyValue | internal/parser/transitions.go:598-642 | the handlers after the equals sign |
| ParserContext.ParseContext.Continue | internal/parser/parser.go:154-169 | the continuation flags before the handler runs |
| ParserContext.ParseContext.Step | internal/parser/parser.go:132-194 | one handler call is one step of the machine on the abstract value |
| ParserContext.ParseContext.Parse | internal/parser/parser.go:196-199 | one call with the ring of recent tokens and the separation check |
| ParserContext.ParseContext.Offer | kdl.go:80-90 | the loop that offers a token until it is taken terminates, and does what feeding the token once, and once more if asked, does |
| ParserContext.ParseContext.ParseAllContext | internal/parser/parser.go:211-237 | the loop that steps back on re-entry terminates, computes what parsing all tokens defines, and never meets a nil node or an empty stack |
| Document.AddKeeps | document/properties.go:51-56 | adding keeps keys distinct and in first-added order, and lookups answer with the last value |
| Document.Rebuild | document/properties.go:51-56 | adding a list's properties in order rebuilds the list, order included |
| Build.DocumentBuilt | internal/parser/context.go:102-126 | the store built for a written document denotes its trees |
| Build.DenotesOne | document/node.go:62-64 | a store denotes at most one tree at a node |
| PrintParse.QuotedReads | document/value.go:593-655 | the token of a quoted string decodes to the string exactly when it can be quoted |
| PrintParse.EntryStage | internal/parser/transitions.go:312-642 | a written argument or property, typed or not, slashdashed or not, adds exactly itself, in both versions, or fails exactly when it may not stand there |
| PrintParse.NodesStage | internal/parser/transitions.go:17-642 | the machine on the tokens of written nodes at any depth ends as if the nodes had been built directly, or fails exactly when one of them cannot be read |
| RoundTrip.ParseWritten | internal/parser/transitions.go:17-642 | a written document with slashdashes anywhere is accepted exactly when its names, keys, values and annotations allow, and yields the trees of what is not slashdashed |
| RoundTrip.YieldsOne | internal/parser/parser.go:235-236 | a run yields one document only |
| RoundTrip.SlashdashErasure | internal/parser/transitions.go:312-319 | in either version a text and the one with its slashdashed entries, blocks and nodes cut out are read as the same document, each exactly when its names, values and annotations allow; the second always is when the first is, in version 2 under a condition on annotated arguments |
| RoundTrip.StripJoins | internal/parser/transitions.go:343-355 | in version 2 a text can be accepted and the one without its slashdashed property refused |
| RoundTrip.VersionsAgree | internal/parser/transitions.go:343-355 | on the same printed tokens version 2 accepts exactly what version 1 accepts without annotations after an argument, and both yield the same document |
| RoundTrip.PrintThenParse | document/node.go:295-403 | printing then parsing succeeds, at any depth and layout and in both versions, exactly for the trees whose names, strings and shown annotations can be read back; it yields the trees as printed, and these are the trees themselves exactly when no hexadecimal value is annotated |
| RoundTrip.PrintedSame | document/value.go:103-117 | a tree is printed with all its annotations exactly when no hexadecimal argument or property value in it carries one |
| RoundTrip.HexTypeLost | document/value.go:320-334 | a node with an annotated hexadecimal argument is printed like the one without the annotation, and never comes back, for any name, annotation, version and layout |
| Printer.AppendValue | document/value.go:85-316 | a value is appended in the spelling of its token, a hexadecimal number in place of what was there |
| Printer.FormattedString | document/value.go:320-351 | the annotation in parentheses and the value, without the annotation for a hexadecimal number |
| Printer.AppendTyped | document/node.go:328-347 | the value so rendered is written behind what was written before |
| Printer.AppendProperties | document/properties.go:68-95 | the list is written in order, each property as the text of its tokens |
| Printer.WriteNode | document/node.go:256-406 | the bytes written for a tree are the text of its tokens, for every layout and depth |
| Printer.WriteNodes | internal/generator/generator.go:77-96 | the same for a list of nodes |
| Utf8.DecodeLocal | internal/tokenizer/scanner.go:183-186 | decoding looks neither past the rune it returns nor past four bytes |
| Scanner.NotSeen | internal/tokenizer/scanner.go:160-180 | a rune not seen through a window is not there, or does not fit into it |
| Scanner.Reader.Read | internal/tokenizer/scanner.go:268-270 | a reader delivers its stream in order, in pieces of any size, with the end reported early or late |
| Scanner.ReadFull | internal/tokenizer/scanner.go:268-270 | the destination is filled from the stream, or the stream is exhausted |
| Scanner.Scanner.NewSlice | internal/tokenizer/scanner.go:927-934 | the whole input is in sight and nothing will be written |
| Scanner.Scanner.NewBuffer | internal/tokenizer/scanner.go:937-956 | the buffer holds the beginning of the stream; the reader is kept only if there may be more, and then the lookahead is in sight |
| Scanner.Scanner.Slide | internal/tokenizer/scanner.go:243-266 | compaction moves the window without moving the position or any mark |
| Scanner.Scanner.Enlarge | internal/tokenizer/scanner.go:252-258 | a buffer twice as large with the same contents |
| Scanner.Scanner.Fill | internal/tokenizer/scanner.go:268-286 | the rest of the buffer is the stream's continuation; afterwards it is full or the reader is gone |
| Scanner.Scanner.Refill | internal/tokenizer/scanner.go:236-288 | position, marks and peeked runes stay; more than the lookahead is in sight or the reader is exhausted; an enlargement satisfies 3 * capacity < 8 * retained bytes |
| Scanner.Scanner.PeekSize | internal/tokenizer/scanner.go:81-98 | the next rune of the whole stream, or why there is none |
| Scanner.Scanner.PeekTwoSize | internal/tokenizer/scanner.go:107-131 | what it returns is right, and certain after a one-byte rune |
| Scanner.Scanner.PeekAtSize | internal/tokenizer/scanner.go:160-180 | a rune it returns is the rune of the stream; the lack of one is certain as far as the window reaches, and everywhere once the reader is exhausted |
| Scanner.Scanner.Get | internal/tokenizer/scanner.go:183-219 | the next rune of the whole stream is consumed, across compaction and doubling, and at least five bytes or the rest stay in sight |
| Scanner.Scanner.PushMark | internal/tokenizer/scanner.go:296-300 | the position in the stream is marked |
| Scanner.Scanner.PopMark | internal/tokenizer/scanner.go:303-307 | the newest mark is undone |
| Scanner.Scanner.CopyInput | internal/tokenizer/scanner.go:227-233 | the unread bytes of the stream, in a slice that nothing writes to any more |
| Scanner.Scanner.CopyFromMark | internal/tokenizer/scanner.go:316-324 | the bytes of the stream from the newest mark to the position, in such a slice |
| Readers.Run | internal/tokenizer/scanner.go:329-354 | the longest run of accepted runes is consumed, in whatever pieces it arrives |
| Readers.ReadWhile | internal/tokenizer/scanner.go:329-354 | outcome, consumption and bytes are those of the run in the whole stream |
| Readers.ReadWhitespace | internal/tokenizer/readtype.go:13-16 | the whitespace is consumed; its bytes are lost exactly before an invalid rune |
| Readers.ReadLineComment | internal/tokenizer/readtype.go:104-110 | up to the newline or the end |
| Readers.ReadComment | internal/tokenizer/readtype.go:27-59 | up to the end of the outermost of the nested comments |
| Readers.ReadRawContent | internal/tokenizer/readtype.go:159-196 | up to the closing quote and its number signs |
| Readers.ReadRawString | internal/tokenizer/readtype.go:113-156 | a version 1 raw string as a function of the unread input |
| Readers.QuoteRune | internal/tokenizer/readtype.go:230-280 | the closure's flags make one step of the quoted-string automaton |
| Readers.ReadQuoted | internal/tokenizer/readtype.go:211-284 | a quoted string in either version as a function of the unread input |
| Readers.ReadMultiLine | internal/tokenizer/readtype.go:501-633 | a triple-quoted or triple-backtick string as a function of the unread input |
| Readers.ReadDecimal | internal/tokenizer/readtype.go:766-821 | sign, digits, fraction and exponent, and the separator that has to follow |
| Readers.ReadBased | internal/tokenizer/readtype.go:826-838 | a prefixed number, at least one digit, and the whitespace that has to follow |
| Readers.ReadBare | internal/tokenizer/readtype.go:288-347 | a bare identifier and its kind, or a refusal |
| Readers.ReadIdentifier | internal/tokenizer/readtype.go:637-699 | the right one of the string readers or a bare identifier, even where two runes cannot be seen |
| Readers.ReadHash | internal/tokenizer/readtype.go:351-493 | a keyword or raw string of version 2 |
| Scans.ReadNext | internal/tokenizer/scanner.go:512-782 | the token is a function of the unread input and of whether the buffer begins here, its bytes are the input's, it is not empty, and after it the buffer does not begin here |
| Scans.ScanAll | internal/tokenizer/scanner.go:967-986 | for every input, a scanner as it is constructed or between tokens returns the tokens, or the error, of one over the whole input, and every slice handed out still holds its token's bytes at the end |
| Streaming.PerformAll | internal/tokenizer/scanner.go:81-324 | any sequence of reads, looks ahead, marks and copies is answered as the whole input answers it |
| Streaming.SameSession | internal/tokenizer/scanner.go:927-956 | over a reader that delivers in any pieces, and over a slice with the same bytes, such a session ends with the same answers |
| Scans.MisplacedFails | internal/tokenizer/scanner.go:554-561 | a byte order mark where a later token begins makes the scan of the whole input fail, and with it every streamed one |
| Scans.ScanKeepsBytes | internal/tokenizer/scanner.go:967-986 | the tokens, none empty, are the input in order up to a token the end cuts short, so there are at most as many as bytes |
| Scans.Lossless | internal/tokenizer/scanner.go:967-986 | an input that ends with a newline and is scanned without error is the concatenation of its tokens |
| Scans.LostToken | internal/tokenizer/scanner.go:705-709 | a lone zero at the end is dropped without an error |
| Tokenize.EndInsideToken | internal/tokenizer/scanner.go:512-782 | no token reader reports a plain end of input in text that ends with a newline |
| Notation.CharacterSets | internal/tokenizer/ctype.go:7-51 | blanks, newlines and direction marks, code point by code point |
| Notation.IdentifierCharacters | internal/tokenizer/ctype.go:90-127 | the characters of bare identifiers are those neither standard excludes, the first one no digit |
| Notation.NewlineScans | internal/tokenizer/scanner.go:564-581 | every newline is one token, a carriage return with its line feed too |
| Notation.SignsScan | internal/tokenizer/scanner.go:512-782 | the kinds of the tokens of one character, the backslash included |
| Notation.BasedDigitsNeeded | internal/tokenizer/readtype.go:826-838 | after the prefix of a base only a digit of it and more digits and underscores are read |
| Notation.NameScans2 | internal/tokenizer/readtype.go:288-347 | in version 2 a bare name is scanned as one identifier exactly when it can be decoded, is none of the six words that need a number sign, and has a spelling of its own |
| Notation.LettersDecode | document/strings.go:155-299 | each escape letter stands for its character, in quoted and in triple-quoted strings |
| Notation.OthersRefused | document/strings.go:610-684 | any other is refused, but for a slash in quoted strings |
| Notation.BlanksDropped | document/strings.go:155-299 | a backslash drops all the blanks after it |
| Notation.HexMeaning | document/strings.go:105-112 | a control character is written with its number in hexadecimal |
| Notation.ContinuedMeans | document/strings.go:587-597 | a line is continued exactly when it holds a backslash and only blanks after it |
| Lexemes.CommentScans | internal/tokenizer/readtype.go:27-61 | a well-nested comment, whatever follows it, is one token up to its last closing sign |
| Lexemes.CommentEnds | internal/tokenizer/readtype.go:27-61 | what is read as a comment ends with a closing sign |
| Lexemes.LineCommentScans | internal/tokenizer/readtype.go:104-110 | a line comment is one token up to the newline or the end |
| Lexemes.TripleEnds | internal/tokenizer/readtype.go:561-633 | a triple-quoted string, or one between triple backticks, ends exactly with the first three quotes with an even number of backslashes before them |
| Lexemes.RawTripleEnds | internal/tokenizer/readtype.go:561-633 | a raw one ends exactly with the first closing sequence that a multiple of three quotes stands before |
| Lexemes.ClosingMissed | internal/tokenizer/readtype.go:603-631 | a closing sequence after a single quote is passed over |
| Strings.PartsScan | internal/tokenizer/readtype.go:211-284 | in either version a quoted string of characters, escapes and, in version 2, folded blanks is read up to its closing quote |
| Strings.LineEndsString | internal/tokenizer/readtype.go:211-284 | in version 2 a newline without a backslash before it ends the string unclosed |
| HashTokens.KeywordScans | internal/tokenizer/readtype.go:409-493 | behind a number sign, where no raw string begins, a token is scanned exactly when one of the six words stands there, with its kind and length |
| HashTokens.KeywordDecodes | document/value.go:593-655 | each of them decodes to the value it names |
| HashTokens.HashStringReadBack | document/strings.go:353-393 | for every string, count and following text, a version 2 raw string is scanned as one exactly when the string can be decoded, stands on one line, does not contain its closing sequence and does not open like a triple-quoted one; decoding gives string and count |
| TripleScans.TripleToken | internal/tokenizer/readtype.go:561-633 | three quotes, blanks and a newline begin a token that ends where the content does |
| TripleScans.RawTripleToken | internal/tokenizer/readtype.go:369-387 | the same behind number signs |
| TripleScans.BacktickToken | internal/tokenizer/readtype.go:501-552 | the same with backticks, in either version |
| TripleScans.TripleQuoteScans | internal/tokenizer/readtype.go:561-633 | a token of escaped, indented lines, whatever follows it, is scanned to its end exactly when no replacement character is in the text |
| TripleScans.TripleReadBack | document/strings.go:409-462 | scanned and decoded, such a text comes back exactly under a condition on its characters and lines |
| Reading.RawReaderStops | internal/tokenizer/readtype.go:159-196 | what the version 1 raw reader consumes ends with the first closing sequence |
| Reading.RawReaderArrives | internal/tokenizer/readtype.go:159-196 | where there is one after decodable text the reader gets there |
| Reading.RawReaderClean | internal/tokenizer/readtype.go:159-196 | what it consumes before the closing number signs can be decoded |
| Reading.RawStringReadBack | document/strings.go:316-351 | for every string, count and following text, a printed raw string is scanned to its end exactly when the string can be decoded and does not contain its closing sequence; decoding gives the string and the count |
| Reading.RawTokenReadBack | internal/tokenizer/readtype.go:637-699 | so it is one version 1 token under the same condition |
| Reading.QuotedStringReadBack | internal/tokenizer/readtype.go:211-284 | for every string and following text, the reader stops exactly at the final quote of the printed string if and only if no replacement character is written out in it, what follows can be decoded and, in version 2, no backslash in it stands before a slash; what it reads decodes to the string exactly when it can be quoted |
| Reading.ReplacementRefused | document/strings.go:46-128 | the string U+FFFD can be quoted, its quoted form unquotes to it, and the reader of either version fails on it |
| TextScan.BareScans | internal/tokenizer/readtype.go:288-347 | a bare name is scanned as one identifier or keyword before any separator exactly when it can be decoded and has a spelling of its own |
| TextScan.BareReads | internal/tokenizer/scanner.go:512-782 | unless it begins with a backtick, a bare name behind the beginning of the input is scanned as the token its spelling stands for, or the scan fails, by an exact condition on the spelling |
| TextScan.SignedReads | internal/tokenizer/readtype.go:766-821 | a bare name that begins with a sign and a digit is scanned as a number exactly when all of it is one and no equals sign or parenthesis follows, else the scan fails |
| TextScan.DecimalScans | internal/tokenizer/readtype.go:766-821 | a text is scanned as a decimal number wherever a layout may put it exactly when it is one in the notation `IsNumber` spells out: a sign or none, digits with underscores, a fraction, an exponent |
| Numerals.NumeralGrammar | internal/tokenizer/readtype.go:766-821 | the reader of numbers consumes all of a text exactly when it is in that notation |
| TextScan.BasedNeedsSpace | internal/tokenizer/readtype.go:826-838 | every hexadecimal, octal and binary number, underscores included, is scanned before a space or newline and refused before a semicolon, in both versions |
| TextScan.BasedScans | internal/tokenizer/readtype.go:826-838 | such a number is read back wherever a layout may put it exactly when the layout writes no semicolons |
| TextScan.TextReadBack | internal/tokenizer/scanner.go:967-986 | scanning the text of a written document, slashdashes included, returns exactly its tokens, or fails exactly when one of its names, annotations or values stops the scanner |
| TextScan.MarkDropped | internal/tokenizer/scanner.go:554-561 | a byte order mark at the beginning is a token of whitespace, and what is behind it is scanned as if it stood elsewhere |
| Kinds.TokenKind | internal/tokenizer/scanner.go:512-782 | every token a scan returns has a kind the parser accepts tokens of, never a class or the unknown kind |
| Documents.Round | kdl.go:78-91 | one token is scanned and offered until it is taken; the reading goes on one token further or is settled |
| Documents.ParseOne | kdl.go:66-99 | success, and the document, are those of parsing the tokens of the scan of the whole input and then its end, with scanner and parser interleaved and the input arriving in any pieces |
| Documents.SettledOnPrinted | kdl.go:66-99 | such a reading of a printed document yields its trees as printed, fails exactly when the scanner or the parser cannot read them back, and yields the trees themselves exactly when no hexadecimal value is annotated |
| Documents.ReadBack | kdl.go:135-142 | version 1, the whole way on the running objects: a printed document delivered in any pieces into a buffer of at least sixteen bytes is read back, property order included, exactly when nothing in it stops the scanner and every name and string can be read back; as its trees exactly when no hexadecimal value is annotated, else without those annotations |
| TextScan.PrintScanParse | kdl.go:66-99 | version 1 end to end: the bytes printed for document trees are scanned without error exactly when none of their texts stops the scanner, and parsing the tokens then does what printing then parsing is proved to do, hexadecimal annotations included |
| Quoted.AppendQuotedString | document/strings.go:46-128 | the chunk-copying loops write what escaping one character at a time gives, between quotes |
| Quoted.AppendUnquotedString | document/strings.go:155-299 | the chunk-copying decoder computes what decoding one character or escape at a time gives |
| Quoted.HexLoop | document/strings.go:264-270 | the backward loop computes the positional value and leaves neither int32 nor six digits |
| Quoted.DecodeBrace | document/strings.go:245-277 | the search, the bound and the two range checks decode the brace escape as specified |
| Quoted.BraceAccepted | document/strings.go:245-277 | a brace escape is accepted exactly when its first closing brace stands within six bytes and the bytes between, other than digits counting as zero, add up to a scalar value, which it then stands for |
| Quoted.BraceDecodes | document/strings.go:245-277 | in a quoted string, with anything between the braces and anything behind them |
| Quoted.EmptyBraces | document/strings.go:245-277 | empty braces, or braces around a letter that is no digit, stand for the character zero |
| Quoted.AppendUnquotedMultilineContent | document/strings.go:610-684 | the rune-at-a-time decoder against its specification |
| Quoted.QuoteRoundTrip | document/strings.go:46-128 | unquoting a quoted string gives it back exactly when its control characters have short escapes |
| Quoted.EscapesAgree | document/strings.go:610-684 | the two decoders treat an escape alike exactly when it is common to both notations |
| Quoted.DecodersAgree | document/strings.go:155-299 | on text with common escapes only, the two decoders give equal output or both fail |
| Raw.AppendRawString | document/strings.go:334-350 | the letter, the hashes, the quotes and the string |
| Raw.AppendRawStringV2 | document/strings.go:353-393 | the hashes, the quotes and the string |
| Raw.RawUnquotes | document/value.go:536-550 | decoding a printed raw string gives the string and its hash count |
| Raw.RawStopsAtEnd | document/strings.go:334-350 | the first closing sequence in a printed raw string is the printed one exactly when the string contains none |
| Raw.RawRoundTrip | document/value.go:536-550 | cutting the text after its first closing sequence and decoding gives string and count, and leaves what follows |
| Multiline.FindFirstNewline | document/strings.go:507-520 | the first newline and its length, CRLF counting as one |
| Multiline.FindLastNewline | document/strings.go:522-535 | the last newline and its length |
| Multiline.IsInlineWhitespaceOnly | document/strings.go:537-547 | whether every rune is a space other than a newline |
| Multiline.ComputeHasLineContinuation | document/strings.go:587-597 | whether the last character that is no space is a backslash |
| Multiline.ParseMultilineClosingEscape | document/strings.go:464-474 | the position of a closing backslash |
| Multiline.DedentMultilineContent | document/strings.go:549-585 | the loop over lines removes the indentation line by line as specified |
| Multiline.DedentSucceeds | document/strings.go:549-585 | dedenting fails exactly when some line is neither blank, indented nor continued |
| Multiline.UnquoteRawToken | document/strings.go:409-462 | decoding a raw triple-quoted token strips the closing line's indentation and reports the hash count |
| Multiline.RawTokenDecodes | document/strings.go:409-462 | whether it decodes is decided by its lines alone |
| Multiline.IndentRoundTrip | document/strings.go:409-585 | a raw token holding a text indented by w and closed on a line w decodes to exactly that text |
| Triples.TripleQuoteDecodes | document/strings.go:409-462 | what a token of escaped lines indented by w is decoded to, for every text and w: nothing unless the text can be quoted, else the text without blanks on blank lines and with w on continued ones |
| Triples.TripleRoundTrip | document/strings.go:409-462 | the text comes back, and as the value of the token, exactly when it can be quoted, does not end in a carriage return, has no line of blanks and none after a continued one, unless empty or not indented |
| Triples.EscapedClosing | document/strings.go:476-505 | a backslash on the closing line, or alone on the line before it, makes no difference: its newline is dropped |
| Triples.BadEscapeRefused | document/strings.go:610-684 | a token with a backslash before any other character, on any line, is refused |
| Triples.OpeningLine | document/strings.go:431-438 | after the opening quotes only blanks are allowed, and they do not matter |
| Triples.ClosingLine | document/strings.go:476-505 | before the closing quotes only blanks, or a backslash among them |
| Triples.OneLineContent | document/strings.go:476-484 | without a second newline the text is empty, or refused |
| Triples.BacktickRoundTrip | document/strings.go:402-407 | an expression between triple backticks is dedented to exactly the text that was indented |
| Triples.TokenShape | document/strings.go:409-429 | only a token closed as it is opened is decoded |
| Durations.FormatDuration | internal/marshaler/marshal.go:416-425 | the text of the unique hours, minutes, seconds and nanoseconds of one sign that make up the duration |
| Durations.FieldsUnique | internal/marshaler/marshal.go:416-425 | there is only one such choice |
| Durations.ParseHMSDuration | internal/marshaler/unmarshal.go:323-368 | the sum, in int64, of the fields that are there, or an error, as the next four rows spell out |
| Durations.ClockParses | internal/marshaler/unmarshal.go:323-368 | a text of hours, minutes, seconds and nanoseconds stands for their sum in 64 bits, seconds counted as seconds with and without a fraction; it is refused when a field that is needed is no 32-bit number, and seconds and fraction may be missing |
| Durations.SpelledParses | internal/marshaler/unmarshal.go:323-368 | a field is read with any sign and leading zeros, unless it leaves 32 bits |
| Durations.ParsesSpelled | internal/marshaler/unmarshal.go:323-368 | and nothing else is |
| Durations.ColonsNeeded | internal/marshaler/unmarshal.go:323-368 | fewer than two colons are refused; with two, the text is hours, minutes and the rest |
| Durations.NoOverflow | internal/marshaler/unmarshal.go:323-368 | for a formatted duration every field fits 32 bits and no product or partial sum leaves 64 |
| Durations.DurationRoundTrip | internal/marshaler/unmarshal.go:323-368 | parsing the formatted text returns the same nanosecond count, for every int64, negatives and the least one included |

## Left out

- Reflection-based marshaling, custom marshalers, the type indexer, coercions, and the time and byte formats other than base-60.
- Numbers: a decoded number keeps its text, so `strconv` and `math/big` are not modelled; the end-to-end theorems are about texts in the notation of their kind (`TextScan.IsNumberOf`), as rendering gives it except for a negative integer in another base, whose sign goes after the prefix, and a `*big.Int` in another base, which gets no prefix.
- Comment preservation, error texts, source excerpts, `String` methods and logging.
- Relaxed NGINX, YAML and TOML modes, multiplier suffixes in the scanner and the relaxed `Equals` handlers.
- Version markers, `detectVersion`, the automatic fallback from version 2 to version 1 in `kdl.go`, and `Scanner.Read`, which serves it.
- Line and column of scanned tokens: `Scanner.Scanner.Get` counts them and `Documents.ScanToken` hands them on, but no result depends on which they are; the separation check of version 2 is proved for tokens standing anywhere.
- Readers that fail with anything but the end of input, buffers below sixteen bytes, and writers that fail.
- Printing in version 2 notation, formatting flags, expression strings, automatic hash counts, the quoted triple-quote printer, and the layouts without names or line ends.
- The value pool of the allocator (document/allocator.go:32-40): values are part of their node in the model, so only nodes have slots that could be reused.
- Bare names, keys and annotations that begin with a backtick are excluded from the end-to-end theorems (`TextScan.NodesScan`), because what a backtick is read as depends on all the text behind it, and so are documents whose first name is bare and begins with a byte order mark (`TextScan.MarkFirst`), which is dropped; annotations are bare identifiers or quoted strings.
- Entries after a child block and a last child ended by the end of input: covered by the invariants over all runs, not by the tree theorems.
- Scanner.Scanner.PeekTwoSize: after a rune of several bytes nothing is promised about a second rune that is not in sight, because the program may then report an invalid rune; `Readers.ReadIdentifier` shows that no token depends on it.
- Printer.AppendValue: expression strings, suffixed decimals and special floats, which only relaxed modes and version 2 read, are not printed in the model.
- Printer.AppendTyped: the same values are left out, as in `Printer.FormattedString`.
- Printer.AppendProperties: properties holding such values are left out.
- Printer.WriteNode: comments, version 2 notation and the layouts without names or line ends are left out.
- Printer.WriteNodes: the same, and the options that write equals signs or colons.
- Readers.ReadMultiLine: the reader of triple backticks repeats the loop of the reader of triple quotes and is modelled by the same method.
- Raw.UnquoteRaw: a token shorter than its own hashes, which no scanner returns, has no value instead of a slice out of range.
- TextScan.PrintScanParse: stated for version 1, the notation it prints, and without the names just mentioned, like `Documents.ReadBack`, `Documents.SettledOnPrinted` and `TextScan.TextReadBack`.
