# ServalRPC and its JSON engine: a verified model

ServalRPC sends procedure calls over Serval's transports (MDP, MSP and the delay-tolerant Rhizome store) and
reads Rhizome's bundle lists with an embedded copy of cJSON. This project models both parts and proves what
they promise, or exactly when they do not.

**The JSON engine (`src/cJSON.c`).** `Json` defines JSON values and the text meant for them; `Literals` and
`Parser` define, as functions over offsets into a NUL-terminated text, what the recursive descent parser
accepts. `Grammar` defines the same language apart from any parser, as a relation between text and values: a
string literal is a list of units with spellings and meanings (`LiteralGrammar`), a number the longest numeral
with its digits, point and exponent (`NumberGrammar`), and arrays and objects are lists of these. Parser and
relation are proved equal, and `Overruns` says exactly which texts the parser reads past their terminator.
Beside these values stands the C code in its own form: two passes over a string literal into a buffer counted in
advance, with the bit operations of the C code (`StringParser`), a doubly linked `Node` class with its list
surgery (`Tree`, `Names`, `Copy`), a parser that builds nodes (`TreeParser`), printers that compute a size and
then write (`StringPrinter`, `TreePrinter`), printers into a buffer that grows by powers of two (`PowerOfTwo`,
`GrowingBuffer`, `BufferedPrinter`), and the in-place minifier (`MinifyInPlace`). Each method is proved against
the functions, and the laws are proved about the functions:

* parsing undoes printing, at any depth and in both formats, whatever follows that does not continue a number
  (`RoundTrip`), and every text of scalar values written as `\u` escapes decodes to its UTF-8 form (`Escapes`,
  `Unicode`);
* the parser reports a wrong text at the first character that does not continue it (`ErrorPlaces`), and one document
  is followed byte for byte through both prints and back (`Samples`);
* buffered and unbuffered printing give the same text, and every precomputed size suffices;
* minifying keeps the meaning of every accepted text (`MinifyMeaning`, on top of `Locality`: a token means the
  same wherever it stands), turns printed text into the unformatted print (`MinifyPrinted`), drops exactly the gaps
  and comments of any text and keeps the rest (`MinifyLaws`), and leaves the buffer of an accepted text exactly when
  that is a bare string without its closing quote (`MinifySafety`);
* list operations are sequence operations on the children, and a deep copy is fresh, equal and well linked.

**The RPC layer.** `CallPacket` holds the call packet from flattened parameters to the server's `strtok` loop,
`Requirements` the eight packed nibbles, `ResultTable`, `MdpClient`, `RhizomeClient` and `ClientCall` the client's
five result slots, its two waiting loops and the fallback between transports, and `RhizomeServer` the done list and
the loop that parses and handles the packets of one poll.
The loops are state machines over everything the clock, the sockets and the store can deliver; the methods are
the loops themselves, proved to compute these runs. The client's runs are then read off the packets alone: which
slots are filled by whom, which round ends the run and how, and exactly which packets are written outside a slot or
the table. Whose rows and bundles are read at all is stated on their fields (`RhizomeClient.RowsForCall`,
`RhizomeServer.OthersIgnored`).

Conventions: a byte is a number from 0 to 255, a C string is a byte sequence without NUL, and offset `|t|` holds
its terminator. A read behind the terminator, a write past a table or a dereferenced null is a result of its own
(`Overrun`, `None`, `OutOfBounds`, `Crashed`, `Faulted`), never ruled out silently; methods are stated for the inputs
without it. Which inputs these are is stated by `Overruns.ParseOverrunIff` for the parser,
`MinifySafety.MinifyOverrunIff` for minifying accepted text, `MdpClient.OutOfBoundsIff` and `RhizomeClient.HonestRun`
for the client's result table and bundle lists, `CallPacket.StoredFlatIff` for its parameter buffer, and
`CallPacket.ParseFaultsIff` and `RhizomeServer.LeftIff` for what a packet makes the server read while it is parsed and
its parameters are used. Other buffers of the server and of downloads are not modelled ("Left out" names them).
Numbers are exact: `real` stands for `double`.

Where the code and its comments or documents differ, the model follows the code:

* `_rpc_server_parse_requirements` is written to reverse the nibbles, but its swap loop starts with both indices
  at 0 and never swaps; the server sees the client's values backwards (`Requirements.FirstArrivesLast` for an
  instance, `Requirements.OrderKeptIffPalindrome` for the exact condition, `Requirements.FullSwapRecovers` for what a
  swap of all eight would have given).
* An ACK of an "all" call is meant to be stored only for senders not yet in the table, but the lookup is for the
  called SID: the same sender can fill several slots, and a sixth ACK is written past the table, even when all six
  come from one server (`MdpClient.OneServerLeavesTheTable`).
* The server takes a call packet apart without checking it. A packet whose header is cut short, whose text has no
  terminator, no token, or more tokens than its count byte says leads it out of its memory
  (`CallPacket.ParseFaultsIff`, `RhizomeServer.EmptyCallFaults`); some of the client's own packets are of this kind,
  such as one for a procedure with a delimiter in its name (`CallPacket.ClientPacketFaultsIff`,
  `CallPacket.DelimiterInNameFaults`).
* Empty parameters vanish when the server splits the text, but still count: running the procedure then reads a
  parameter that is not there, as it does for a call without parameters (`CallPacket.ClientCallCompleteIff`,
  `RhizomeServer.ClientCallServed`).
* `_rpc_client_replace_if_path` copies the flattened parameters into 512 bytes without a look at their length
  (`CallPacket.StoredFlatIff`, `CallPacket.LongParameterOverflows`).
* The Rhizome client copies the file size less one byte of an answer into a slot of 960 bytes without a look at that
  size. A larger answer leaves its slot (`RhizomeClient.LargeAnswerLeavesItsSlot`), and for an empty file the length
  of the copy wraps around. Over MDP an inline answer always fits, since the packet buffer has 960 bytes, its type
  byte included; an empty packet whose stale type byte reads as an answer, and the path of a downloaded file when the
  procedure's name has more than 829 bytes, do not. `MdpClient.OutOfBoundsIff` and `RhizomeClient.HonestRun` give
  the exact conditions.
* The Rhizome client takes the first row of its first bundle list without asking whether there is one; every call
  leaves its memory at an empty list before it has a token (`RhizomeClient.FirstListEmpty`), and handles an empty list
  afterwards.
* `_rpc_client_rhizome_listen` sets its return code to 1 on an ACK, but never returns it.
* `rpc_client_result_get_insert_index` can return -1 only on a path that is never taken; a full table gives 5.
* `cJSON_ParseWithOpts` accepts a text that consists of a string without its closing quote, and `cJSON_Minify` then
  steps over the terminator (`MinifySafety.LoneQuote`, `MinifySafety.MinifyOverrunIff`). A literal that is still open
  where the text ends in an odd run of backslashes makes `parse_string` read past the terminator
  (`Literals.QuoteBackslashOverruns`, `Literals.OverrunIff`, `Overruns.ParseOverrunIff`).

In one place the model follows the intent instead. Whatever the packet, an accepted call makes the server use buffers
that are too small: an ACK is sent over Rhizome by reading 959 bytes from an array of one
(src/rpc_server_rhizome.c:42, 208), the buffers for the path of a binary and for its command line have no room for
their terminators (src/rpc_server.c:134-135, 155-156), and every execution writes index 960 of a result of 960 bytes
(src/rpc_server.c:171, src/rpc_server_rhizome.c:213). `RhizomeServer` goes on as if these had the room they need, and
says nothing about them.

## Model

| member | source | states |
|---|---|---|
| Literals.PassesAgree | src/cJSON.c:200-252 | where the decoding pass of a literal succeeds, it ends exactly where the scanning pass ended, writes at most the bytes the scan counted, and no NUL |
| CText.SkipPasses | src/cJSON.c:326 | `skip` passes over exactly the bytes from 1 to 32 and stops at the first other byte or at the terminator |
| Literals.OverrunIff | src/cJSON.c:200 | a literal is read past the terminator if and only if the text ends in an odd run of backslashes and the literal is still open where that run begins |
| Literals.QuoteBackslashOverruns | src/cJSON.c:200 | a quote and a backslash are read past their terminator |
| Literals.ParseString | src/cJSON.c:195-254 | success ends strictly after the start and inside the text; failure reports the start of the literal |
| Literals.HexValueIsPlace | src/cJSON.c:183-189 | each of the bytes of `0123456789ABCDEF` and of `0123456789abcdef` is worth its place in the list, and no other byte is a digit |
| Literals.EscapeLetters | src/cJSON.c:213-219 | behind a backslash the letters b, f, n, r and t stand for the bytes 8, 12, 10, 13 and 9, and any other byte for itself |
| StringParser.ParseHex4 | src/cJSON.c:180-191 | the early-exit digit loop computes the value of four hexadecimal digits, or 0 when any is missing, without reading behind the first character that is no digit |
| StringParser.WriteUtf8 | src/cJSON.c:194-244 | the fall-through byte writes with their shifts, masks and lead marks produce exactly the UTF-8 octets of the code point behind the bytes already written |
| StringParser.DecodeEscape | src/cJSON.c:221-245 | one `\u` escape or surrogate pair keeps the decoding on course within the space counted for it, or shows that the literal is not decodable |
| StringParser.ScanLiteral | src/cJSON.c:200 | the scanning loop finds the end of the literal and counts one byte for every character or escape |
| StringParser.DecodeLiteral | src/cJSON.c:202-251 | a buffer of one byte more than the count holds the decoded bytes and the terminator; success if and only if the literal decodes |
| StringParser.ParseStringText | src/cJSON.c:195-254 | both passes together compute the specified value, end and error place for every literal that is not overrun |
| LiteralGrammar.LiteralIff | src/cJSON.c:195-254 | a string and an end are returned if and only if the text there is a literal made of plain bytes, backslash escapes, `\u` escapes of scalar values other than NUL and surrogate pairs, whose meanings make up the string, and the literal is closed there or ends with the text |
| LiteralGrammar.UnitsAreRead | src/cJSON.c:200-251 | both passes run through the spelling of any list of units to its end, and write its meaning |
| LiteralGrammar.UnitsAreCounted | src/cJSON.c:200 | the scan counts one byte for a plain character or a backslash with its letter and one for every hexadecimal digit |
| Escapes.CharLiteral | src/cJSON.c:221-245 | for every Unicode scalar value but NUL, the literal of its escape (one unit or a surrogate pair, in hexadecimal digits of either case, given as bytes) decodes to exactly its UTF-8 encoding, which is well formed and carries that character |
| Escapes.TextLiteral | src/cJSON.c:221-245 | the same for every sequence of such characters: the literal of their escapes, in digits of either case, decodes to their UTF-8 form |
| Escapes.UpperCaseEscape | src/cJSON.c:183-189 | the escape of U+00C9 in upper-case digits decodes to the bytes C3 89 |
| Escapes.EscapeAccepted | src/cJSON.c:222-236 | an escape in a scanned literal is accepted if and only if the literal grammar has it there and the rest decodes, and then writes its meaning |
| Escapes.EscapeMeaning | src/cJSON.c:222-236 | every `\u` escape or pair of the literal grammar means the UTF-8 encoding of a scalar value other than NUL; unpaired surrogates, bad digits and U+0000 are not in it |
| Unicode.Utf8IsWellFormed | src/cJSON.c:236-244 | the encoding of a scalar value matches the UTF8-char rule of section 4 of RFC 3629 and carries the value |
| Unicode.Utf8IsOnlyEncoding | src/cJSON.c:236-244 | every UTF8-char of RFC 3629 is the encoding of the scalar value it carries |
| Unicode.PairRoundTrip | src/cJSON.c:227-233 | a surrogate pair and its code point determine each other (section 2 of RFC 2781) |
| Unicode.Examples | src/cJSON.c:227-244 | the example pair of section 2.3 of RFC 2781, and characters of two, three and four octets, in bytes |
| Parser.ScaledIsPower | src/cJSON.c:111 | the scaled value of a numeral is its digits times, or divided by, the power of ten |
| Parser.ParseValue | src/cJSON.c:362-374 | success returns a position strictly after the start and not past the terminator; failure reports a place inside the text |
| Parser.ParseItems | src/cJSON.c:425-435 | the same for the items of an array, of which there is at least one |
| Parser.ParseMembers | src/cJSON.c:528-551 | the same for the members of an object |
| Parser.Parse | src/cJSON.c:329-343 | success ends inside the text, and at its terminator when that is required; failure reports a place inside the text |
| ErrorPlaces.NoValue | src/cJSON.c:374 | a byte that begins no value is reported where it stands |
| ErrorPlaces.NoItemEnd | src/cJSON.c:420-434 | behind an item, the first character that is neither blank nor a comma nor a closing bracket is reported |
| ErrorPlaces.NoColon | src/cJSON.c:531-534 | behind the name of a member, the first character that is neither blank nor a colon is reported |
| ErrorPlaces.NoMemberEnd | src/cJSON.c:537-551 | behind a member, the first character that is neither blank nor a comma nor a closing brace is reported |
| ErrorPlaces.NotTheEnd | src/cJSON.c:338-342 | behind the whole value, the first character that is not blank is reported when the terminator is required, and nothing otherwise |
| Parser.ParseIsTotal | src/cJSON.c:329-343 | a text whose last run of backslashes is even, for instance empty, is parsed without reading past its terminator; the exact condition is `Overruns.ParseOverrunIff` |
| Parser.NoOverrunValue | src/cJSON.c:362-374 | the same for a value at any offset, across nested arrays and objects |
| Overruns.ParseOverrunIff | src/cJSON.c:329-343 | a text is read past its terminator if and only if the grammar leads, behind complete values and names, to a literal that is still open where the text ends in an odd run of backslashes |
| Overruns.ValueOverrun | src/cJSON.c:362-552 | the same for a value at any offset |
| NumberGrammar.NumberIff | src/cJSON.c:98-117 | at a sign or digit, a number and an end are returned if and only if the text up to there is a numeral that does not go on, and the number is its digits with the point moved by fraction and exponent |
| Grammar.ParseIffDenotes | src/cJSON.c:362-552 | the parser returns a value and an end if and only if that stretch of text denotes the value in the grammar, whose literals and numerals are defined apart from the parser |
| Grammar.CompleteValue | src/cJSON.c:362-374 | the parser finds every derivation |
| Grammar.SoundValue | src/cJSON.c:362-374 | the parser returns only derivations |
| TreeParser.ParseNumberText | src/cJSON.c:98-117 | the digit, fraction and exponent loops compute the value and the end of the numeral |
| TreeParser.TruncatedIs | src/cJSON.c:114 | the integer field of a number is cut off towards zero |
| TreeParser.ParseValueInto | src/cJSON.c:362-374 | fills a plain node with a fresh, well-linked tree whose value is the parsed one and whose integer field is 1 for true and the truncated number for a number, or reports the specified error place |
| TreeParser.ParseItemsInto | src/cJSON.c:420-435 | the loop that hooks each item in behind the last builds exactly the list of parsed items |
| TreeParser.ParseMembersInto | src/cJSON.c:528-551 | the same for members, with each name moved to the node's name field |
| TreeParser.ParseWithOpts | src/cJSON.c:329-343 | a fresh, unlinked, valid tree with the value the text denotes, or null and the error place, for every text that is not overrun |
| RoundTrip.StringRoundTrip | src/cJSON.c:195-313 | a printed string, with anything behind it, parses to the same bytes and ends just after its closing quote |
| RoundTrip.NumberRoundTrip | src/cJSON.c:98-163 | a printed integer parses to itself and ends where it ends, when the next character does not continue it |
| RoundTrip.ValueRoundTrip | src/cJSON.c:362-663 | a printed value of any depth, in either format and at any place in a text, parses to itself and consumes exactly its own text, when what follows does not continue a number |
| RoundTrip.PrintThenParse | src/cJSON.c:345-349 | parsing the formatted or unformatted print of any printable tree gives the tree and consumes all of the text |
| Json.PrintedCharacter | src/cJSON.c:287-309 | which bytes are printed as themselves, which with a letter and which with four digits, in bytes |
| Samples.PrintedSample | src/cJSON.c:348-663 | the exact bytes of a document with a list, a nested empty object and an empty name in both formats |
| Samples.ParsedSample | src/cJSON.c:329-349 | both texts are read back as that document and consumed |
| PrintText.ValueNulFree | src/cJSON.c:377-408 | printed text is a C string: it contains no NUL |
| StringPrinter.NumberText | src/cJSON.c:149-164 | the bytes asked for cover the digits, the sign and the terminator of every `int` |
| StringPrinter.StringSize | src/cJSON.c:261-287 | the size counted for a string is exactly the length of its printed form and the terminator |
| StringPrinter.WriteString | src/cJSON.c:270-312 | within that size the writing loop leaves exactly the printed string and the terminator behind the bytes already there |
| TreePrinter.ItemsFit | src/cJSON.c:471-491 | the room added up over the entries covers the text of an array, in either format and at any depth |
| TreePrinter.ItemsSlack | src/cJSON.c:471-491 | the room added up for a list that is not empty exceeds its text by its number of items and one byte, formatted two |
| TreePrinter.MembersFit | src/cJSON.c:624-634 | the room added up over names and entries covers the text of an object |
| TreePrinter.MembersSlack | src/cJSON.c:624-634 | for an object that is not empty by one byte |
| TreePrinter.ComposeArray | src/cJSON.c:504-513 | the writing loop of an array stays within its buffer and produces the array's text |
| TreePrinter.ComposeObject | src/cJSON.c:646-660 | the writing loop of an object stays within its buffer and produces the object's text |
| TreePrinter.PrintEntries | src/cJSON.c:481-488 | every entry is printed to a fresh C string of its own, and the total is the room for all of them |
| TreePrinter.PrintArrayNode | src/cJSON.c:439-516 | an array node prints to its specified text in a fresh buffer of the computed size |
| TreePrinter.PrintObjectNode | src/cJSON.c:555-663 | an object node prints to its specified text in a fresh buffer of the computed size |
| TreePrinter.Print | src/cJSON.c:348-349 | `cJSON_Print` and `cJSON_PrintUnformatted` return the specified text of the tree's value |
| PowerOfTwo.SmearIsLeast | src/cJSON.c:119 | smearing the highest bit of n-1 downwards and adding 1 gives the least power of two that is at least n, for n from 1 to 2^30 |
| PowerOfTwo.Pow2Gt | src/cJSON.c:119 | `pow2gt` computes that power |
| GrowingBuffer.PrintBuffer.Ensure | src/cJSON.c:123-138 | afterwards the request fits behind the offset, everything the buffer held is still there, and a new length is the least power of two that covers the request |
| GrowingBuffer.PrintBuffer.Update | src/cJSON.c:140-146 | from any offset inside the last printed text, the new offset is the end of that text |
| BufferedPrinter.PrintNodeBuffered | src/cJSON.c:377-393 | behind the text already written, the buffer holds the specified text of the value and a terminator, with the offset inside that text |
| BufferedPrinter.PrintItemsBuffered | src/cJSON.c:458-472 | the loop with `update` after every item keeps written text and text to come equal to the whole array |
| BufferedPrinter.PrintMembersBuffered | src/cJSON.c:581-611 | the same for the members of an object, with an `update` after every name and value |
| BufferedPrinter.PrintBuffered | src/cJSON.c:351-358 | for every positive initial size the buffered print is the text of the unbuffered one |
| Minify.Minified | src/cJSON.c:741-756 | what is kept is never longer than what was read |
| MinifyLaws.GapDropped | src/cJSON.c:746-749 | the bytes 32, 9, 13 and 10 are dropped |
| MinifyLaws.LineCommentDropped | src/cJSON.c:750 | a line comment is dropped up to the next line feed or the end of the text, and what follows is minified as ever |
| MinifyLaws.BlockCommentDropped | src/cJSON.c:751 | a block comment is dropped with the first star-slash from its own slash on |
| MinifyLaws.OpenCommentOverruns | src/cJSON.c:751 | a block comment without a star-slash makes the loop step over the terminator |
| MinifyLaws.LiteralKept | src/cJSON.c:752 | a string literal is kept up to the first quote with an even number of backslashes before it |
| MinifyLaws.OtherKept | src/cJSON.c:753 | every other byte is kept |
| MinifyLaws.CommentedList | src/cJSON.c:741-756 | a list with a line comment and a block comment, in bytes, is minified to `[1,2]` |
| MinifyMeaning.MinifyKeepsMeaning | src/cJSON.c:741-756 | minifying any accepted text without stepping over its terminator gives a text that is accepted in full with the same value |
| MinifySafety.MinifyOverrunIff | src/cJSON.c:741-756 | on accepted text, minifying steps over the terminator if and only if the text is a string without its closing quote |
| MinifySafety.LoneQuote | src/cJSON.c:741-756 | a lone quote is accepted as the empty string, and minifying it steps over the terminator |
| MinifyPrinted.MinifyPrintedValue | src/cJSON.c:741-756 | minifying the formatted or unformatted print of a tree gives its unformatted print |
| MinifyInPlace.MinifyText | src/cJSON.c:741-756 | in place, the buffer ends up with the kept text and a terminator, and nothing behind the old terminator changes |
| MinifyInPlace.CopyLiteral | src/cJSON.c:752 | a closed literal is copied byte for byte, escapes included, and left unread behind it |
| Locality.LiteralLocal | src/cJSON.c:195-254 | a closed literal has the same extent and the same decoding wherever it stands |
| Locality.NumberLocal | src/cJSON.c:98-117 | a numeral has the same extent and value wherever it stands, when a closing character follows in both places |
| Names.StrCaseCmp | src/cJSON.c:41-46 | 0 exactly for names of equal length whose bytes are, place by place, equal or an ASCII capital and the letter 32 above it, null equal only to null; otherwise the difference of the lowered bytes at the first place where they differ |
| Tree.Node.constructor | src/cJSON.c:75-80 | a new item is a fresh, unlinked, unnamed tree of one node |
| Tree.Node.GetArraySize | src/cJSON.c:666 | the number of children |
| Tree.Node.GetArrayItem | src/cJSON.c:667 | the child at the index, a negative one counting as 0; null past the end |
| Tree.Node.GetObjectItem | src/cJSON.c:668 | the first child whose name matches, or null |
| Tree.FirstNamedIs | src/cJSON.c:668 | the index meant by "first match": no child before it has a name that is equal up to ASCII case, byte by byte, and its own is, unless it is the number of children |
| Tree.Node.HasObjectItem | src/cJSON.c:669 | true if and only if some child's name matches |
| Tree.Node.Append | src/cJSON.c:672-677 | hooking in behind the last child appends to the list and to the value, and keeps all links and subtrees intact |
| Tree.Node.AddItemToArray | src/cJSON.c:677 | a null item changes nothing; any other is appended |
| Tree.Node.AddItemToObject | src/cJSON.c:678 | the item gets the name and is appended |
| Tree.Node.LinkBefore | src/cJSON.c:691 | the four link updates turn a well-linked list into the well-linked list with the item at the index |
| Tree.Node.Unlink | src/cJSON.c:684 | the link updates turn a well-linked list into the well-linked list without the child, whose own links end up null |
| Tree.Node.Displace | src/cJSON.c:693-694 | the link updates put the item in the child's place and clear the child's links |
| Tree.Node.InsertItemInArray | src/cJSON.c:690-691 | list and value with the item inserted at the index, at the end when the index is past it, in front when it is negative |
| Tree.Node.DetachItemFromArray | src/cJSON.c:683-684 | list and value without the child at the index, which is returned unlinked with its tree intact and disjoint; nothing changes past the end |
| Tree.Node.ReplaceItemInArray | src/cJSON.c:692-694 | list and value with the item in the child's place, and the child unlinked with its tree intact; nothing changes past the end |
| Tree.Node.DetachItemFromObject | src/cJSON.c:686 | the same as detaching by index, at the first matching name |
| Tree.Node.ReplaceItemInObject | src/cJSON.c:695 | the same as replacing by index, at the first matching name, with the item renamed; nothing changes without a match |
| Copy.Duplicate | src/cJSON.c:714-739 | the copy is a fresh, unlinked, valid tree with the source's name, fields and value (a container without entries when not recursive); no existing node is written |
| Copy.CopyChildren | src/cJSON.c:728-737 | the loop that crosswires each copy to the one before rebuilds the whole list of children |
| CallPacket.FlatLength | src/rpc_helpers.c:18-34 | flattening produces the bytes of all parameters and one delimiter for each |
| CallPacket.FlattenParams | src/rpc_helpers.c:18-34 | the two loops fill the allocated buffer exactly, terminator included |
| CallPacket.StoredFlatIff | src/rpc_client.c:65-69 | the copy of the flattened parameters passes the 512-byte buffer if and only if their bytes and delimiters are 512 or more |
| CallPacket.LongParameterOverflows | src/rpc_client.c:65-69 | a single parameter passes it from 511 bytes on |
| CallPacket.StoreFlatParams | src/rpc_client.c:65-69 | parameters that fit, with their delimiters, are copied into the 512-byte buffer |
| CallPacket.PrepareCallPayload | src/rpc_client.c:4-19 | the payload is exactly the packet: type, requirements, count, name, parameters, terminator |
| CallPacket.PacketInBytes | src/rpc_client.c:4-19 | the packet of a small call, byte for byte |
| CallPacket.TokensOfFlat | src/rpc_server.c:118-123 | splitting flattened parameters gives them back in order, except the empty ones |
| CallPacket.ServerParseCall | src/rpc_server.c:89-126 | the `strtok` loop stores exactly the tokens of the packet, within the allocated array |
| CallPacket.ParseFaultsIff | src/rpc_server.c:89-126 | the parser leaves its memory if and only if the header of a packet is cut short, no NUL follows it, or the text up to there has no stretch without delimiters or more of them behind the first than the count byte says |
| CallPacket.CompleteIff | src/rpc_server.c:145-153 | the parameters that an execution reads, the first and as many as counted, are all there if and only if the count is not 0 and the text has that many stretches behind the name |
| CallPacket.EmptyParamsAreDropped | src/rpc_server.c:105-123 | the server receives the requirements, name and count, and every parameter that is not empty |
| CallPacket.ParsedAreTokens | src/rpc_server.c:95-123 | whatever the packet, the parsed name and parameters are non-empty and free of the delimiter, and the count fits a byte |
| CallPacket.CallRoundTripIff | src/rpc_client.c:4-19 | the server parses the client's name, count and parameters if and only if name and parameters are non-empty and free of the delimiter and there are at most 255 of them |
| CallPacket.ClientPacketFaultsIff | src/rpc_client.c:4-19 | the client's packet makes the parser leave its memory if and only if name and flattened parameters have no stretch without delimiters, or more of them behind the first than the number of parameters modulo 256 |
| CallPacket.DelimiterInNameFaults | src/rpc_client.c:4-19 | a call of a name with a delimiter inside without parameters is such a packet |
| CallPacket.ClientCallCompleteIff | src/rpc_server.c:105-153 | a client's call without delimiters in name and parameters is parsed, and every parameter that its execution reads is there if and only if there is at least one parameter and none is empty |
| CallPacket.WordRoundTrip | src/rpc_client.c:8 | the 32-bit word is read back as it was written |
| Requirements.PrepareRequirements | src/rpc_client.c:84-99 | eight values in 0..15 become the number with these base-16 digits, without overflow of the word; any other value gives 0 |
| Requirements.ParseRequirements | src/rpc_server.c:23-37 | slot k holds nibble k of the word, lowest first, after the swap loop as written |
| Requirements.SwapEnds | src/rpc_server.c:32-36 | started with its second index at `last`, the swap loop reverses the slots up to there |
| Requirements.UnpackPacked | src/rpc_server.c:26-29 | unpacking a packed word gives the values in reverse order |
| Requirements.PackUnpacked | src/rpc_client.c:93-96 | packing the reversed nibbles of a word restores the word |
| Requirements.OrderKeptIffPalindrome | src/rpc_server.c:32-36 | the server sees the values in the client's order if and only if they read the same both ways |
| Requirements.FirstArrivesLast | src/rpc_server.c:23-37 | the values 1, 0, 0, 0, 0, 0, 0, 0 arrive as 0, 0, 0, 0, 0, 0, 0, 1 |
| Requirements.FullSwapRecovers | src/rpc_server.c:31-36 | a swap of all eight slots would have restored the client's order |
| ResultTable.GetInsertIndex | src/rpc_client.c:22-34 | the first free slot, or 5 |
| ResultTable.GetSidIndex | src/rpc_client.c:37-45 | the first slot with the SID, or -1 |
| ResultTable.AckFills | src/rpc_client_mdp.c:101-106 | while the SIDs of servers fill a prefix of the slots, an ACK of an "all" call puts its sender into the next slot, even one already in the table, and changes no other; exactly with five slots filled there is no slot for it |
| ResultTable.AckIgnored | src/rpc_client_mdp.c:101-106 | an ACK changes nothing when the called SID stands in a slot or the call is not an "all" call |
| ResultTable.AnswerKeeps | src/rpc_client_mdp.c:116-161 | an answer to an "all" call is dropped when its sender has no slot, is written outside its slot exactly when it has one and does not fit, and otherwise overwrites the first bytes of its sender's first slot and nothing else; it ends the call if and only if that is the last slot |
| ResultTable.OverwrittenKeepsRest | src/rpc_client_mdp.c:150-156 | an answer of up to 960 bytes overwrites as many bytes of a slot's content and leaves the rest |
| ResultTable.FirstSlotAnswered | src/rpc_client_mdp.c:148-153 | an answer to a call that is not an "all" call overwrites the first bytes of slot 0, puts its sender's SID there, and ends the call |
| MdpClient.RunIsSound | src/rpc_client_mdp.c:54-171 | over every run, read off its packets: it waits through the rounds that continue it, with 10 seconds and 20 more for every ACK, the senders of the ACKs in the slots of an "all" call in order, and an empty table otherwise; the first other round ends it by the time, by a failed send, outside the table or by an answer, with the code and the table that belong to it |
| MdpClient.SlotsAreSenders | src/rpc_client_mdp.c:54-171 | while an "all" call waits and when it has returned, slot k holds the sender of ACK k and the others are free; it returns 2 if and only if a slot is occupied |
| MdpClient.OutOfBoundsIff | src/rpc_client_mdp.c:103-161 | a call writes outside a slot or the table if and only if it reads, in time, a sixth ACK of an "all" call or an answer that does not fit the slot it is for |
| MdpClient.OneServerLeavesTheTable | src/rpc_client_mdp.c:103-105 | six ACKs of one server in the first second of an "all" call are written past the table |
| MdpClient.FiveAcksAreSafe | src/rpc_client_mdp.c:103-161 | with at most five ACKs and answers that fit a slot, an "all" call stays inside the table; any other call needs only the second |
| MdpClient.LateRoundEnds | src/rpc_client_mdp.c:59-71 | an "all" call ends with the first round after 110 seconds, any other with the first round after 10 seconds and 20 for every ACK |
| MdpClient.SidsStay | src/rpc_client_mdp.c:99-163 | between any two points of a run, a stored SID never changes |
| MdpClient.LastAnswer | src/rpc_client_mdp.c:140-160 | an answer read by an "all" call ends it if and only if it fits and comes from the sender of the fifth ACK that sent none of the first four; then the code is 2, five slots are occupied, and the last begins with the answer |
| MdpClient.FirstAnswerWins | src/rpc_client_mdp.c:148-153 | any other call reads no answer and keeps an empty table before its last round; an answer in that round ends it with 2 and stands alone in slot 0, or does not fit; without one it ends with -1, 0 or 1 and an empty table |
| MdpClient.Receive | src/rpc_client_mdp.c:54-171 | the receive loop leaves the table and returns the code of its run |
| RhizomeClient.ListenReturns | src/rpc_client_rhizome.c:23-221 | for every sequence of bundle lists the listener ends with 2 or -1 only |
| RhizomeClient.RowsForCall | src/rpc_client_rhizome.c:103-130 | a row whose service begins with the bytes 82, 80, 67, whose recipient is this client, whose name begins with the procedure's and whose age is below 600000 is read when its file decrypts and ends the call when it does not; any other row changes nothing but the token |
| RhizomeClient.OtherProcedurePassed | src/rpc_client_rhizome.c:105-109 | an answer of the procedure `bar` does not end a call of `foo` |
| RhizomeClient.HonestRun | src/rpc_client_rhizome.c:23-221 | over every run, read off its rows: while it listens, the slots of an "all" call hold the senders of the ACKs read in order, the table of any other call is empty, and the waiting time and token are those of the rows read; it leaves its memory, here the result table and the list of rows, if and only if it fetches, in time, an empty list while it has no token, or reads a sixth ACK of an "all" call or an answer that does not fit the slot it is for; it ends if and only if a round comes too late, fetches nothing, or comes to a file that cannot be decrypted or an answer that finishes, and then has the table and the code of that round: the senders and 2 or -1, or the answer and 2 |
| RhizomeClient.LatePollEnds | src/rpc_client_rhizome.c:26-38 | a call ends with its first round after 120 seconds |
| RhizomeClient.FiveReadAcksAreSafe | src/rpc_client_rhizome.c:23-221 | with at most five ACKs read, answers that fit a slot and no empty list before the first token, a call stays inside the result table and its lists of rows |
| RhizomeClient.FirstListEmpty | src/rpc_client_rhizome.c:82-90 | every call leaves its memory at a first bundle list without rows |
| RhizomeClient.LargeAnswerLeavesItsSlot | src/rpc_client_rhizome.c:133-190 | an answer file of 962 bytes is copied past the end of slot 0 |
| RhizomeClient.OneAnswer | src/rpc_client_rhizome.c:186-196 | a call that is not an "all" call listens on, with an empty table, only while it reads no answer, and returns 2 only with the first answer that it reads, alone in slot 0 |
| RhizomeClient.ReadRows | src/rpc_client_rhizome.c:86-209 | the loop over one bundle list computes its part of the run, unless that leaves its memory |
| RhizomeClient.ListenForResult | src/rpc_client_rhizome.c:23-221 | the listening loop leaves the table and returns the code of its run, unless that leaves its memory |
| ClientCall.CallRhizome | src/rpc_client_rhizome.c:224-304 | from a cleared table, the result of the listening loop or -1, and never another code than 2 or -1 |
| ClientCall.FallBack | src/rpc_client.c:108-154 | after -1, 0 or 1 from the first transport exactly one Rhizome call follows and leaves its table and code; after any other code none |
| ClientCall.Call | src/rpc_client.c:102-209 | exactly one Rhizome call, unless MDP runs and returns 2 (to all or any) or MSP returns neither -1, 0 nor 1 (to one server); code and table are those of the run that came last; a call to all or any returns 2 or -1, and 2 means that slot 0 holds a server's SID |
| ClientCall.FiveServersStayInside | src/rpc_client.c:102-155 | with at most five ACKs read by each transport, answers that fit a slot and no empty bundle list before the first token, neither transport leaves its memory; quiet lists afterwards are allowed |
| RhizomeServer.ServeOnce | src/rpc_server_rhizome.c:92-239 | over any sequence of polls, repetitions and outcomes, each id is executed successfully at most once, the done list is exactly the list of these executions in order, and sending a result is attempted once for each |
| RhizomeServer.ServeGrows | src/rpc_server_rhizome.c:18-27 | the done list only grows |
| RhizomeServer.OthersIgnored | src/rpc_server_rhizome.c:155-168 | a bundle whose service does not begin with the bytes 82, 80, 67, whose recipient is another server, or whose file has 0 or more than 1160 bytes changes nothing |
| RhizomeServer.BundlesOnce | src/rpc_server_rhizome.c:141-229 | the ids added in one poll are those of bundles of that poll that were executed, with a service that begins with the bytes 82, 80, 67, addressed to this server or to none, and with 1 to 1160 bytes |
| RhizomeServer.ExecutedUnlessLeft | src/rpc_server_rhizome.c:168-221 | a bundle with such a service, recipient and size that brings a whole call of a procedure that runs with success ends up in the done list unless an earlier one stops the loop |
| RhizomeServer.LeftIff | src/rpc_server_rhizome.c:183-221 | the loop leaves early if and only if it reaches a new, interesting file that cannot be decrypted or is a call without a sender; a packet leads it out of its memory if and only if it is a call packet whose header, terminator or tokens are malformed, or one whose binary is run although a parameter that this reads is missing |
| RhizomeServer.ProcessCode | src/rpc_server_rhizome.c:93-239 | a poll returns -1 when its list is not fetched, 1 when the list is empty, and otherwise -1 or 0, where -1 means that a handled file could not be decrypted or brought a call without a sender or of a procedure not offered |
| RhizomeServer.EmptyCallFaults | src/rpc_server_rhizome.c:190-193 | a call packet with nothing behind its header leads the server out of its memory in its first poll |
| RhizomeServer.ClientCallServed | src/rpc_server_rhizome.c:168-221 | from the client's packet to the done list: a new call without delimiters, of a procedure that runs with success, is executed and noted if it has a parameter and none is empty, and otherwise leads the server out of its memory |
| RhizomeServer.Server.Done | src/rpc_server_rhizome.c:7-15 | true if and only if the id is in the done list |
| RhizomeServer.Server.Finished | src/rpc_server_rhizome.c:18-27 | the id is appended |
| RhizomeServer.Server.ProcessBundles | src/rpc_server_rhizome.c:92-239 | one poll whose packets do not lead the server out of its memory takes its state and return code where the run says, with every call taken apart by `CallPacket.ServerParseCall` |

## Left out

- TreeParser.ParseNumberText: exact numbers instead of doubles, so rounding, `pow` at extreme exponents and the overflow of the `int` exponent are not modelled.
- StringPrinter.NumberText: integers in the range of `int` only; `%.0f`, `%e`, `%f` and not-a-number are not modelled.
- BufferedPrinter.PrintBuffered: texts up to 64 bytes below 2^30, where the size doubling stays within an `int`.
- PowerOfTwo.Pow2Gt: arguments from 1 to 2^30, the ones for which the result fits an `int`.
- TreePrinter.Print: sizes are unbounded; the overflow of an `int` size on texts of 2^31 bytes is not modelled.
- Tree.Node.AddItemToArray: for arrays and objects only, and for items that are linked to nothing and share no node with the list, which the C code takes for granted without a check.
- Tree.Node.ReplaceItemInArray: the replaced child is left unlinked with its tree intact; that it is then freed is not modelled.
- Tree.Node.ReplaceItemInObject: the same.
- Tree.Node.AddItemToObject: a name is a value of its own in every node, so the release of an old name is not modelled.
- TreeParser.ParseItemsInto: a new node is hooked in after its value is parsed, not before; the finished tree is the same, and a failed one is discarded.
- TreeParser.ParseWithOpts: for texts that are not read past their terminator; which ones are is stated by `Overruns.ParseOverrunIff`.
- MinifyInPlace.MinifyText: for texts on which it stays within its buffer; which accepted texts these are is stated by `MinifySafety.MinifyOverrunIff`.
- CallPacket.StoreFlatParams: for parameters whose flattened text fits the buffer; which ones do is stated by `CallPacket.StoredFlatIff`.
- CallPacket.ServerParseCall: for packets that it parses within its memory; which ones these are is stated by `CallPacket.ParseFaultsIff`. The NULs that `strtok` writes into the copy are not modelled.
- MdpClient.Receive: for runs that end inside the table; `MdpClient.LateRoundEnds` says when a run ends at the latest, but that the clock advances is not modelled.
- RhizomeClient.ListenForResult: for runs that end within their memory, in the same way (`RhizomeClient.LatePollEnds`).
- ClientCall.Call: for worlds in which the loops end within their memory, and senders with servers' SIDs.
- Names.StrCaseCmp: `tolower` as in the C locale, where only the 26 ASCII capitals have another case.
- RhizomeClient.ReadRows: the columns of a row that the loop compares are present, as in every list that Rhizome serves; a null one is not modelled.
- RhizomeServer.Server.ProcessBundles: the same, and for polls whose packets do not lead the server out of its memory; the file of a row has the size that the row names.
- RhizomeServer.LeftIff: counts what a packet makes the server read while it is parsed and its parameters are used. The one-byte ACK, the buffers for path and command line and the last index of a result, which are too small for every call, are not counted, nor is the file that an execution downloads or adds to the store.
- Allocation failure, custom allocators, the reference and constant-name flags of nodes, deletion, and the constructors for arrays of numbers or strings.
- ResultTable.AnswerKeeps: an answer arrives as its inline bytes or as the path of a downloaded file, whichever the client's test of the bytes decides; that this test reads the bytes as a C string, and that the path has 131 bytes more than the procedure's name, is not modelled.
- RhizomeClient.HonestRun: a file that decrypts has the size its row names, so reading fewer bytes from the store than that size is not modelled; nor is the read of the type byte of an empty file (src/rpc_client_rhizome.c:134-137), beyond the answer that it may seem to be.
- RhizomeClient.FiveReadAcksAreSafe: the same. The buffer for the name of a downloaded file (src/rpc_helpers.c:306-307) is not part of this model.
- Local paths as first parameter (file upload and hash), and the download of results named by a hash: the path of the file is arbitrary.
- Sockets, curl, HTTP, temporary files, clocks, sleeping and signals: their outcomes are arbitrary inputs. The rows of a bundle list are taken as already read from the JSON tree.
- The MSP client and server; an MSP call only contributes its return code.
- The procedure offer file, the acceptance test on requirements and the execution of procedures: their outcomes are arbitrary.
- The command line, configuration, logging and build scripts.
