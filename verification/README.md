# Verification of the AliosThings socket layer, JSON library and digests

Four components of the repository are modelled here in Dafny and proved to do what they are
for.

- **Waiting for sockets** (`network/sal/sal_sockets.c`). `SalSelect`, `SalWakeups` and
  `SalRestarts` are the protocol between
  `sal_select` and `sal_deal_event` as a system of atomic steps, one for each protected
  region, with any number of selecting threads and event walks in any order. `SalEvents` says
  what an event does for a sleeper and what a scan counts, and `SalCalls` how a call comes to
  its end. `SalPorts` is the local-port allocator on its linked list of control blocks.
- **JSON** (`utility/cjson`). `JsonText` is the text that is printed for a value and
  `JsonGrammar` what is parsed from a text; `JsonParser` and `JsonPrinter` are the two
  programs with their buffers and cursors, proved against these. `JsonTokens`, `JsonStrings`
  and `JsonNumbers` say without them which texts are accepted and what they mean (RFC 8259),
  and `JsonLayout` what a printed text looks like. `JsonRoundTrip` connects
  printing and parsing and `JsonReparse` parsing and printing, `JsonMinify`, `JsonPieces` and
  `JsonMinifyParse` are about `cJSON_Minify`, and `JsonUnicode` is about escapes
  (RFC 8259, section 7). `JsonMerge`, `JsonOrder`, `JsonNames`, `JsonDiff`, `JsonSpelling` and
  `JsonUtils` are merge patches (RFC 7396, section 2), `JsonSort` is the relinking merge sort
  and `JsonLists` the linked list of members, and `JsonPointer` and `JsonPointerExact` are
  RFC 6901, sections 3 to 5.
- **Streaming digests** (`utility/digest_algorithm`). `Sha2Spec` is FIPS 180-4 (sections
  4.1, 5.1, 6.2, 6.4 and 6.5) and `Sha2` the contexts; `Md5Spec` is RFC 1321, section 3, and
  RFC 2104, section 2, and `Md5` the context and the keyed hash. `Sha2Roots` with `Primes`,
  `Md5Tables`, `Md5Hmac` and `Padding` say what their constants and blocks are. `Words` has
  machine words and the operations on them bit by bit, and `ByteOrder` the byte order of the
  host.
- **CRCs** (`utility/digest_algorithm`). `CrcTheory` is a shift register of any width over
  bits, and `Crc` the programs; `CrcPolynomials` and `CrcValues` say what they compute, as
  remainders of polynomials.

`Arithmetic` and `Counting` have facts about numbers and sets that the others share.

Some results say exactly when the code meets what one would expect of it:

- `SalWakeups.WokenExactly`: no wake-up is lost for up to 255 threads in `sal_select` at a
  time, and one can be for 256, because `select_waiting` is eight bits wide.
- `SalRestarts.RestartsExactly`: `select_cb_ctr` is an `int`, so a walk may miss fewer than
  2^32 changes of the list between two looks.
- `JsonRoundTrip.PrintParse`: what is printed can be parsed back up to a nesting of 1000.
- `JsonPrinter.PrintPreallocated`: one byte more than text and NUL is needed for everything
  but a number.
- `JsonDiff.DiffApply`: generating compares names with `strcmp` while the lists are sorted
  and looked up without regard to case, so names with upper-case letters can be lost;
  `JsonDiff.UpperCaseLost` is such a pair, and `JsonSpelling.DiffApplyExact` has names for
  which the patch is right letter by letter.
- `JsonLists.SortThenDetach`: sorting leaves the back link of the new first node as it was,
  and detaching that node then goes wrong.
- `JsonMinify.Minify`: the reader leaves a text that ends in a string or a block comment.

Characters stand for bytes in the JSON modules, and machine words are natural numbers with
their wrap-around written out (sequences of bits in the CRC modules).

## Model

| member | source | states |
|---|---|---|
| SalSelect.StepKeepsInv | network/sal/sal_sockets.c:1126-1342 | every atomic step of every selector and walker keeps the whole invariant: linked list, counters, phases, cursors and covered sleepers |
| SalSelect.RunKeepsInv | network/sal/sal_sockets.c:1126-1342 | the invariant holds at the end of every interleaving from every initial state in which the 8-bit count fits and no walk misses 2^32 changes of the list between two looks |
| SalSelect.ReachableInv | network/sal/sal_sockets.c:1126-1342 | the same, for every reachable state |
| SalSelect.SleeperOnReadySocket | network/sal/sal_sockets.c:1183-1252 | no lost wake-up: a thread blocked on a socket with a positive rcvevent in its read set, a non-zero sendevent in its write set or an error in its exception set has its semaphore posted, or a walk for that socket has still to examine its record |
| SalWakeups.SleeperGetsPosted | network/sal/sal_sockets.c:1921-1963 | such a walk posts the sleeper after finitely many of its own steps |
| SalWakeups.WokenExactly | network/sal/sal_sockets.c:1199-1225 | of the runs in which no walk misses 2^32 list changes, all those with at most n threads inside sal_select wake their sleepers if and only if n is at most 255, the range of select_waiting |
| SalWakeups.WakeupLostAt256 | network/sal/sal_sockets.c:1199-1225 | a run with 256 sleepers on one socket in which the event that makes it ready posts nobody |
| SalRestarts.RestartsExactly | network/sal/sal_sockets.c:1954-1963 | of the runs with at most 255 threads at a time, all those in which no walk misses more than m list changes wake their sleepers and keep their walks on the list if and only if m is below 2^32, the range of select_cb_ctr |
| SalRestarts.StrayAt2To32 | network/sal/sal_sockets.c:1954-1963 | a run with two threads in which a walk that misses 2^32 changes takes a record off the list for one on it |
| SalSelect.CountersAndList | network/sal/sal_sockets.c:1199-1298 | select_waiting is the number of threads counted in and not yet out, the list is a doubly linked list of exactly the published records, and a count is never taken below zero |
| SalSelect.NoStrayPointer | network/sal/sal_sockets.c:1921-1963 | every pointer the code follows (the cursor of a walk that finds select_cb_ctr, an int, as it was, the head, the links of a record being removed) leads to a record on the list |
| SalSelect.PublishStep | network/sal/sal_sockets.c:1183-1197 | putting a record on top of the list keeps the invariant |
| SalSelect.CountInStep | network/sal/sal_sockets.c:1199-1225 | counting in, on a missing socket too, keeps the invariant |
| SalSelect.CountOutStep | network/sal/sal_sockets.c:1254-1282 | counting out keeps the invariant |
| SalSelect.UnlinkStep | network/sal/sal_sockets.c:1283-1298 | taking a record off the list keeps the invariant, walkers that stand on it included |
| SalSelect.DealStep | network/sal/sal_sockets.c:1877-1931 | an event with its first look at the list keeps the invariant |
| SalSelect.WalkStep | network/sal/sal_sockets.c:1921-1963 | the next look, after a restart or not, keeps the invariant |
| SalSelect.RecentCounts | network/sal/sal_sockets.c:1954-1963 | a walk that missed fewer than 2^32 changes finds select_cb_ctr as it was if and only if the list has not changed |
| SalSelect.PushChains | network/sal/sal_sockets.c:1186-1195 | pushing gives the doubly linked list with the record in front |
| SalSelect.RemoveChains | network/sal/sal_sockets.c:1284-1295 | unlinking gives the doubly linked list without the record |
| SalWakeups.WalkReaches | network/sal/sal_sockets.c:1921-1963 | a walk left to itself reaches every record ahead of it |
| SalEvents.EventNoticed | network/sal/sal_sockets.c:1877-1953 | from every reachable state, after a receive, send or error event that a sleeping thread waits for, told by its sets and the counters before the event, its semaphore is posted or a walk has still to examine it |
| SalEvents.EventPosts | network/sal/sal_sockets.c:1877-1963 | such a sleeper is posted after finitely many steps of one walk |
| SalEvents.PostedWithReason | network/sal/sal_sockets.c:1926-1952 | no step posts a thread unless the socket of its walk has data, room or an error that the thread asked for |
| SalEvents.EventsCounted | network/sal/sal_sockets.c:1886-1906 | in every run rcvevent and sendevent are the events counted up less those counted down in 16 bits, and errevent tells whether there was an error |
| SalEvents.ScanReports | network/sal/sal_sockets.c:1345-1407 | a scan that is not interrupted finds exactly the readable descriptors below maxfdp1 in the read set, the writable ones in the write set and those with an error in the exception set, and reports how many there are |
| SalCalls.CallEnds | network/sal/sal_sockets.c:1126-1342 | in every run a call of sal_select takes at most 5 * maxfdp1 + 6 steps of its own, whatever the others do |
| SalCalls.NeverStuck | network/sal/sal_sockets.c:1126-1342 | in every reachable state a thread inside sal_select can go on unless it sleeps without a timeout and nobody has posted it, and but for the timeout in one way only |
| SalCalls.AfterSleep | network/sal/sal_sockets.c:1248-1327 | a post leads through counting out, unlinking and a last scan, a timeout out of the call without it |
| SalCalls.LeavesExactly | network/sal/sal_sockets.c:1254-1342 | on the way out a thread returns after exactly the steps that are left |
| SalCalls.OthersKeep | network/sal/sal_sockets.c:1921-1963 | no step of another thread or of a walk moves a call on; it can only be signalled |
| SalCalls.RunAgrees | network/sal/sal_sockets.c:1345-1407 | in every run, scans interrupted in any way included, the number reported is that of the descriptors in the three sets filled, each of which was asked for |
| SalPorts.PortTable.Search | network/sal/sal_sockets.c:200-241 | the cyclic search returns the nearest port after the cursor that no listed block holds, and zero exactly when all 16384 ports are held |
| SalPorts.PortTable.NewPort | network/sal/sal_sockets.c:200-241 | the same with the static cursor, seeded from rand() the first time, and the cursor left on the port |
| SalPorts.PortTable.Bind | network/sal/sal_sockets.c:243-293 | binding returns each error for its own reason and changes nothing then; otherwise the block is on the list once, with the wanted or a free port, and all ports stay distinct |
| SalPorts.PortTable.Remove | network/sal/sal_sockets.c:295-315 | removing a block takes exactly that block off the list |
| SalPorts.PortTable.ConnectUdp | network/sal/sal_sockets.c:799-816 | connecting an unbound UDP block binds it to a free port, or fails with the list as it was |
| SalPorts.PortTable.Run | network/sal/sal_sockets.c:243-416 | after every sequence of binds, UDP connects and removals the list is acyclic, has no block twice and has pairwise distinct ports |
| SalPorts.ExhaustionNeedsEveryPort | network/sal/sal_sockets.c:200-241 | the search can only fail when at least 16384 blocks are listed |
| SalPorts.DynamicPorts | network/sal/sal_sockets.c:202-204 | the range is that of the dynamic ports, 49152 to 65535, and the cursor goes round it |
| SalPorts.DistanceExactly | network/sal/sal_sockets.c:225-240 | nearest is by the number of times the cursor moves on |
| JsonRoundTrip.PrintParse | utility/cjson/cJSON.c:1021-1432 | parsing the compact or the formatted text of a value consumes all of it and gives the value back, member order and repeated names included, if and only if it nests at most 1000 deep; otherwise parsing fails |
| JsonRoundTrip.ValueBack | utility/cjson/cJSON.c:1021-1062 | the same inside any surrounding text, at any position and depth |
| JsonRoundTrip.QuotedBack | utility/cjson/cJSON.c:582-807 | parsing a printed string gives the string back |
| JsonRoundTrip.EscapedBack | utility/cjson/cJSON.c:595-677 | both passes over an escaped text agree on its end, and the second gives its characters |
| JsonRoundTrip.NumberBack | utility/cjson/cJSON.c:237-300 | parsing a printed integer of magnitude below 10^15 gives it back, whatever follows that is no number character |
| JsonRoundTrip.TextNulFree | utility/cjson/cJSON.c:1065-1432 | no text of a value with NUL-free strings contains a NUL |
| JsonReparse.ParsePrintParse | utility/cjson/cJSON.c:851-1432 | whatever text a value was parsed from, printing it and parsing that gives the same value, if its numbers are integers below 10^15 |
| JsonReparse.ParsedExactly | utility/cjson/cJSON.c:851-1349 | a value with such numbers can be parsed from some text if and only if its strings have no NUL and it nests at most 1000 deep |
| JsonReparse.ParsedValue | utility/cjson/cJSON.c:1021-1349 | what is parsed at some depth nests no deeper than the limit leaves and has no NUL in its strings |
| JsonTokens.ParsedIffTokens | utility/cjson/cJSON.c:851-1349 | a text is parsed to its end as a value if and only if it is the tokens of the value with nothing but blanks and control characters around them, after an optional byte order mark, and the value nests at most 1000 deep |
| JsonTokens.ParsedLexes | utility/cjson/cJSON.c:1021-1349 | what is parsed at any position and depth is the tokens of its value |
| JsonTokens.LexesParsed | utility/cjson/cJSON.c:1021-1349 | the tokens of a value are parsed as that value |
| JsonStrings.ParseStringExactly | utility/cjson/cJSON.c:582-701 | a string is read if and only if it goes up to the first quote that is not escaped and is made of characters, escapes of one letter and escapes of code points, a \u without digits counting as a NUL; it is then the bytes these stand for, up to the first NUL |
| JsonStrings.StepExactly | utility/cjson/cJSON.c:627-674 | one step of the second pass reads exactly one of these |
| JsonNumbers.ParseNumberExactly | utility/cjson/cJSON.c:237-300 | a number is read if and only if the first 63 number characters, or all if they are fewer, begin with a sign, digits, point and exponent that do not go on; it is then the digits moved by the exponent |
| JsonNumbers.StrtodExactly | utility/cjson/cJSON.c:281-284 | the conversion uses a number of characters for a value if and only if they are such a number |
| JsonNumbers.NumberParsed | utility/cjson/cJSON.c:237-300 | every number of at most 63 characters in front of something else is read as its value |
| JsonLayout.TextIsLaid | utility/cjson/cJSON.c:1065-1432 | the printed text is the tokens of the value one after the other, or with the line ends, tabs and blanks that belong between two tokens |
| JsonUnicode.EscapeDecodes | utility/cjson/cJSON.c:484-579 | the \u escape of every code point, as a surrogate pair where it needs one, is read as its UTF-8 bytes |
| JsonUnicode.AnyEscapeDecodes | utility/cjson/cJSON.c:457-579 | the same with capital and small digits in any mixture |
| JsonUnicode.Hex4Exactly | utility/cjson/cJSON.c:457-480 | four characters are read as the number whose hexadecimal digits they are, by position in the digit strings, and as zero if they are no digits |
| JsonUnicode.ShortEscapes | utility/cjson/cJSON.c:637-658 | a backslash and a letter stand for the code point in the table of RFC 8259, the slash included, and there are no others |
| JsonUnicode.EscapedExactly | utility/cjson/cJSON.c:750-800 | a character is printed as its short escape if it has one and is not the slash, as a \u escape in small letters if it is another control character, and else as itself |
| JsonUnicode.Utf8Exactly | utility/cjson/cJSON.c:538-573 | a byte sequence is the UTF-8 form of a code point by RFC 3629, shortest form and no surrogates, if and only if it is what the code writes for it |
| JsonParser.StepFits | utility/cjson/cJSON.c:595-677 | a step of parse_string's second pass writes no more than the budget left by the first pass, also where malformed escapes put the two passes out of step |
| JsonParser.ParseBuffer.ParseString | utility/cjson/cJSON.c:582-701 | both passes give what the grammar says, and every write is inside an array of the size that the first pass computed |
| JsonParser.ParseBuffer.FindEnd | utility/cjson/cJSON.c:595-615 | the first pass finds the closing quote and counts the units before it |
| JsonParser.ParseBuffer.DecodeInto | utility/cjson/cJSON.c:627-677 | the second pass writes the decoded string inside the allocated array, or fails where the grammar does |
| JsonParser.ParseBuffer.Utf16Literal | utility/cjson/cJSON.c:484-579 | a \u escape writes the UTF-8 bytes of its code point, or fails on lone or broken surrogates |
| JsonParser.EncodeUtf8 | utility/cjson/cJSON.c:561-573 | the loop that writes a code point from its last byte to its first writes its UTF-8 form |
| JsonParser.ParseBuffer.ParseHex4 | utility/cjson/cJSON.c:457-480 | four hexadecimal digits are their value, anything else is zero |
| JsonParser.ParseBuffer.ParseNumber | utility/cjson/cJSON.c:237-300 | at most 63 number characters are converted and the cursor moves over what the conversion used |
| JsonParser.ParseBuffer.SkipWhitespace | utility/cjson/cJSON.c:824-836 | the cursor moves to the first character above a blank, or back onto the last character of the text |
| JsonParser.ParseBuffer.ParseValue | utility/cjson/cJSON.c:1021-1062 | the recursive parser returns what the grammar says, with the nesting depth restored |
| JsonParser.ParseBuffer.ParseArray | utility/cjson/cJSON.c:1128-1205 | the same for an array, the nesting limit included |
| JsonParser.ParseBuffer.ParseItems | utility/cjson/cJSON.c:1156-1188 | the loop that attaches items at the end of a list builds the items of the grammar in order |
| JsonParser.ParseBuffer.ParseObject | utility/cjson/cJSON.c:1256-1349 | the same for an object |
| JsonParser.ParseBuffer.ParseName | utility/cjson/cJSON.c:1303-1321 | a name is parsed with its colon up to its value |
| JsonParser.ParseBuffer.ParseMembers | utility/cjson/cJSON.c:1282-1333 | the loop that attaches members at the end of a list builds the members of the grammar in order |
| JsonParser.ParseText | utility/cjson/cJSON.c:851-909 | a text is parsed as a whole, with its byte order mark and with or without the demand that nothing follows |
| JsonPrinter.PrintPreallocated | utility/cjson/cJSON.c:1003-1018 | printing into a given buffer succeeds if and only if the text and one byte for a number, two for anything else, fit; it then leaves exactly the text and a NUL, and it never changes the buffer at or behind len |
| JsonPrinter.Print | utility/cjson/cJSON.c:919-976 | printing into a growing buffer gives the text, unless its size passes INT_MAX |
| JsonPrinter.PrintBuffer.Ensure | utility/cjson/cJSON.c:326-389 | room is made if and only if it fits the largest buffer allowed, and what has been printed stays |
| JsonPrinter.PrintBuffer.UpdateOffset | utility/cjson/cJSON.c:392-400 | the cursor moves to the end of what was printed last |
| JsonPrinter.PrintBuffer.PrintString | utility/cjson/cJSON.c:704-807 | a string is printed with its escapes and quotes, if and only if it fits |
| JsonPrinter.PrintBuffer.CountEscapes | utility/cjson/cJSON.c:726-747 | the counting pass finds the exact length of the escaped text |
| JsonPrinter.PrintBuffer.PrintValue | utility/cjson/cJSON.c:1065-1125 | a value is printed behind what is there, if and only if it fits |
| JsonPrinter.PrintBuffer.PrintArray | utility/cjson/cJSON.c:1208-1253 | the same for an array |
| JsonPrinter.PrintBuffer.PrintItems | utility/cjson/cJSON.c:1227-1243 | the loop over items prints them with their separators |
| JsonPrinter.PrintBuffer.PrintObject | utility/cjson/cJSON.c:1352-1432 | the same for an object, with its indentation |
| JsonPrinter.PrintBuffer.PrintMembers | utility/cjson/cJSON.c:1373-1417 | the loop over members prints them with names, colons, commas and line ends |
| JsonPrinter.PrintBuffer.PrintNumber | utility/cjson/cJSON.c:403-454 | an integer is printed with its NUL, if and only if it fits |
| JsonMinify.MinifyFormatted | utility/cjson/cJSON.c:2034-2077 | minifying the formatted text of any value gives exactly its compact text |
| JsonMinifyParse.MinifyKeepsMeaning | utility/cjson/cJSON.c:2034-2077 | every text that the parser accepts to its end can be minified, and the minified text is accepted to its end with the same value |
| JsonMinifyParse.ValueSync | utility/cjson/cJSON.c:2034-2077 | value by value, the parser reads the minified text as it reads the text |
| JsonMinify.Minify | utility/cjson/cJSON.c:2034-2077 | in place, the text becomes the minified text with its NUL, the write cursor never passing the read cursor; the reader stays inside the text if and only if the text does not end in a string or a block comment |
| JsonMinify.CopyString | utility/cjson/cJSON.c:2060-2068 | a string literal is copied unchanged, escaped quotes included; in one that is not closed the reader comes behind the NUL |
| JsonMinify.SkipLine | utility/cjson/cJSON.c:2051-2054 | a line comment is skipped up to its line end |
| JsonMinify.SkipComment | utility/cjson/cJSON.c:2055-2059 | a block comment is skipped with its end; in one that is not closed the reader jumps over the NUL |
| JsonMinify.LeavesText | utility/cjson/cJSON.c:2055-2068 | an open string, an escape before the NUL and an open comment are texts that the reader leaves |
| JsonPieces.MinifiedExactly | utility/cjson/cJSON.c:2034-2077 | a text can be minified if and only if it is made of blanks, line comments, block comments, string literals and other characters, and then exactly the literals and other characters are kept |
| JsonPieces.InsertedGoes | utility/cjson/cJSON.c:2034-2077 | a blank or comment between two pieces makes no difference |
| JsonMerge.MergePatchIsRfc | utility/cjson/cJSON_Utils.c:751-782 | merging computes the function of section 2 of RFC 7396 on names up to case, for names distinct per object |
| JsonMerge.MergePatchTwice | utility/cjson/cJSON_Utils.c:751-782 | applying the same patch twice equals applying it once |
| JsonMerge.MergePatchMeans | utility/cjson/cJSON_Utils.c:751-782 | for every patch, repeated names included, the merged chain is what merging one member after another means, and its names stay distinct |
| JsonMerge.FindMeans | utility/cjson/cJSON.c:1479-1502 | lookup finds the first member with the name up to case, or none |
| JsonMerge.WithoutMeans | utility/cjson/cJSON.c:1614-1657 | detaching a member removes that name and nothing else |
| JsonMerge.AppendedMeans | utility/cjson/cJSON.c:1545-1574 | adding a member adds that name and nothing else |
| JsonUtils.RunMergePatch | utility/cjson/cJSON_Utils.c:751-782 | the loop over the patch computes the merge |
| JsonDiff.DiffApply | utility/cjson/cJSON_Utils.c:784-838 | the generated patch, applied to a copy of the first value, gives the second up to member order and case if and only if no step of the walk copies a member that is null, has null members, or whose name up to case is still ahead in the first value |
| JsonSpelling.DiffApplyLower | utility/cjson/cJSON_Utils.c:784-838 | with no upper-case letter in any name of the two values, arrays included: if the second has no null members the patched value is the second one up to member order, names letter by letter; there is no patch exactly for objects equal up to member order; and no name of the patched value has an upper-case letter |
| JsonSpelling.DiffApplyExact | utility/cjson/cJSON_Utils.c:784-838 | the same for all names on which strcmp and the comparison without regard to case agree in order |
| JsonSpelling.SameSpelling | utility/cjson/cJSON_Utils.c:265-321 | among such names, values are equal letter by letter if and only if they are up to case |
| JsonSpelling.PatchedNames | utility/cjson/cJSON_Utils.c:784-838 | every name in the patched value is one of the two values' names, as spelled there |
| JsonSpelling.CapitalsAgree | utility/cjson/cJSON_Utils.c:803-818 | the orders agree on some names with upper-case letters and not on others |
| JsonDiff.UpperCaseLost | utility/cjson/cJSON_Utils.c:803-818 | a pair of values with an upper-case name for which the patch removes what it should keep |
| JsonDiff.GenerateNone | utility/cjson/cJSON_Utils.c:784-838 | there is no patch only for objects that compare equal |
| JsonDiff.WalkApplies | utility/cjson/cJSON_Utils.c:803-830 | the patch of one walk turns the fields into the wanted ones if and only if the walk is safe |
| JsonDiff.CopyMerged | utility/cjson/cJSON_Utils.c:792-795 | a copy merged into nothing stays as it is if and only if it has no null members |
| JsonDiff.CompareMeans | utility/cjson/cJSON_Utils.c:265-321 | two values compare equal if and only if they mean the same up to member order and letter case of names |
| JsonUtils.RunCompare | utility/cjson/cJSON_Utils.c:265-321 | the branches on type compute the comparison with its error numbers |
| JsonUtils.RunCompareItems | utility/cjson/cJSON_Utils.c:280-290 | the loop over two arrays stops at the first difference, or at the shorter array |
| JsonUtils.RunCompareMembers | utility/cjson/cJSON_Utils.c:291-314 | the loop over two sorted member lists stops at the first difference of name or value, or at the shorter list |
| JsonUtils.RunGenerate | utility/cjson/cJSON_Utils.c:784-838 | the walk over two sorted chains builds the patch |
| JsonSort.SortList | utility/cjson/cJSON_Utils.c:640-744 | relinking any well-linked list ends with a forward chain of the same nodes in case-insensitive order whose inner nodes point back, the first node keeping its old back link, and its members are exactly those of the sort on values that comparing and generating use |
| JsonSort.MergeLists | utility/cjson/cJSON_Utils.c:685-743 | merging two sorted lists by relinking gives one, on equal names the second list first, and its members are the merge on values |
| JsonSort.Split | utility/cjson/cJSON_Utils.c:676-680 | cutting through the inner back link gives two well-linked lists |
| JsonSort.Middle | utility/cjson/cJSON_Utils.c:663-675 | two pointers find the middle |
| JsonSort.IsStrictlySorted | utility/cjson/cJSON_Utils.c:652-661 | the first loop accepts exactly the lists in strict order |
| JsonSort.AscendingAll | utility/cjson/cJSON_Utils.c:640-744 | in the result every earlier name is not after every later one |
| JsonLists.Detach | utility/cjson/cJSON.c:1614-1637 | detaching a node by its back link leaves the list without it if it is not the first node or the first node has no back link to another; otherwise the links go round and are no list |
| JsonLists.SortThenDetach | utility/cjson/cJSON_Utils.c:640-749 | after a sort, detaching goes wrong exactly for the new first node when that was not the first one before |
| JsonLists.Parent.Get | utility/cjson/cJSON.c:1479-1502 | the walk finds the first node with the name up to case |
| JsonLists.Parent.Remove | utility/cjson/cJSON.c:1652-1657 | detaching by name on the linked list removes that member and nothing else |
| JsonLists.Parent.Add | utility/cjson/cJSON.c:1545-1563 | adding walks to the end and links the node there |
| JsonLists.Parent.Merge | utility/cjson/cJSON_Utils.c:766-781 | the loop of the merge on the linked list of the target leaves a well-linked list of the merged members |
| JsonLists.Duplicate | utility/cjson/cJSON.c:2006-2024 | the copy of a list, a sorted one included, is a well-linked list of the same members whose first node has no back link |
| JsonOrder.SortSorts | utility/cjson/cJSON_Utils.c:640-744 | distinct names come out in strict case-insensitive order |
| JsonOrder.SortKeeps | utility/cjson/cJSON_Utils.c:640-744 | sorting keeps the members, their names and what the chain means |
| JsonNames.SameName | utility/cjson/cJSON_Utils.c:22-41 | two names are the same without regard to case if and only if they are so letter by letter, A to Z |
| JsonNames.LessExactly | utility/cjson/cJSON_Utils.c:803-806 | the order of strcmp is that of the first character that differs, the shorter name first |
| JsonNames.SortTies | utility/cjson/cJSON_Utils.c:640-744 | sorting any list puts it in order and turns members with the same name up to case round |
| JsonPointer.FindThenGet | utility/cjson/cJSON_Utils.c:116-205 | the pointer built for a node resolves to that node, in every value with names distinct up to case, and exactly the nodes of the value have pointers |
| JsonPointerExact.ResolveExactly | utility/cjson/cJSON_Utils.c:164-205 | for every list of tokens the pointer leads to a node if and only if each token is the first member of its name up to case, or the item at its decimal index, and to nothing otherwise |
| JsonPointerExact.IsPointer | utility/cjson/cJSON_Utils.c:164-205 | every text that is empty or starts with a slash is the pointer of a list of tokens |
| JsonPointerExact.DecodedExactly | utility/cjson/cJSON_Utils.c:44-77 | a token stands for a name if and only if it is the name encoded |
| JsonPointer.FindIsPathText | utility/cjson/cJSON_Utils.c:116-162 | the depth-first search builds the pointer of the node it looks for, and none for anything else |
| JsonPointer.MatchesEncoded | utility/cjson/cJSON_Utils.c:44-77 | an encoded token matches exactly the names equal to it up to case, with ~, / or no characters too |
| JsonPointer.IndexBack | utility/cjson/cJSON_Utils.c:171-181 | a decimal array index is read back |
| JsonPointer.GetPointer | utility/cjson/cJSON_Utils.c:164-205 | the cursor loops compute the resolution |
| JsonPointer.Search | utility/cjson/cJSON_Utils.c:186-191 | the loop over members finds the first match |
| Sha2.HashChunks | utility/digest_algorithm/sha2.c:404-514 | however a message is cut into updates, the digest is that of FIPS 180-4 for the whole message |
| Sha2.Sha256Chunks | utility/digest_algorithm/sha2.c:316-514 | SHA-256 from its own initial words: 32 bytes, 64 rounds, any chunks |
| Sha2.Sha384Chunks | utility/digest_algorithm/sha2.c:726-768 | SHA-384 from its own initial words: 48 bytes, the rounds of SHA-512, any chunks |
| Sha2.Sha512Chunks | utility/digest_algorithm/sha2.c:518-724 | SHA-512 from its own initial words: 64 bytes, 80 rounds, any chunks |
| Sha2.Context.Update | utility/digest_algorithm/sha2.c:404-452 | after an update the context stands for the message with the new bytes behind it |
| Sha2.Context.Final | utility/digest_algorithm/sha2.c:696-768 | the digest is the big-endian output words of the padded message, for SHA-256, SHA-384 and SHA-512 |
| Sha2.Context.Last | utility/digest_algorithm/sha2.c:652-694 | the last one or two blocks are those of the padding of section 5.1, bytes cleared beyond the short block included |
| Sha2.Context.Transform | utility/digest_algorithm/sha2.c:327-401 | a block is compressed as sections 6.2.2 and 6.4.2 say, also when it is the schedule buffer itself |
| Sha2.Context.FirstRounds | utility/digest_algorithm/sha2.c:345-365 | rounds 0 to 15 load the block into the schedule, byte-swapped as the host needs |
| Sha2.Context.LaterRounds | utility/digest_algorithm/sha2.c:367-389 | the rolling sixteen words give the schedule word of every later round |
| Sha2.Context.RunRound | utility/digest_algorithm/sha2.c:350-362 | the register assignments are one round |
| Sha2.NextWordIsScheduled | utility/digest_algorithm/sha2.c:367-376 | the word added up in place is W_t |
| Sha2.Context.CountBits | utility/digest_algorithm/sha2.c:95-100 | the counter holds the bit count modulo 2^64 or, with its carry, 2^128 |
| Sha2.Context.TopUp | utility/digest_algorithm/sha2.c:418-438 | an unfinished block is completed and hashed, or extended |
| Sha2.Context.FullBlocks | utility/digest_algorithm/sha2.c:439-445 | as many full blocks as there are are hashed straight from the data |
| Sha2Spec.PadBlocks | utility/digest_algorithm/sha2.c:455-514 | the padding is one block if mark and length fit, and two otherwise |
| Sha2Spec.ChBit | utility/digest_algorithm/sha2.c:122 | each bit of Ch is chosen by x from y and z |
| Sha2Spec.MajBit | utility/digest_algorithm/sha2.c:123 | each bit of Maj is the majority |
| Sha2Roots.Rounds256 | utility/digest_algorithm/sha2.c:148-165 | the 64 round constants are the first 32 bits of the fractions of the cube roots of the first 64 primes |
| Sha2Roots.Rounds512 | utility/digest_algorithm/sha2.c:180-221 | the 80 round constants are the first 64 bits of the fractions of the cube roots of the first 80 primes |
| Sha2Roots.InitialWords | utility/digest_algorithm/sha2.c:168-245 | the initial words are the fractions of the square roots of the first eight primes, and for SHA-384 of the ninth to the sixteenth |
| Sha2Roots.OneCubeFraction | utility/digest_algorithm/sha2.c:148-221 | there is one such number for every round |
| Sha2Roots.OneSquareFraction | utility/digest_algorithm/sha2.c:168-245 | the same for the initial words |
| Sha2Roots.Sigmas256 | utility/digest_algorithm/sha2.c:126-129 | each bit of the four functions is the parity of three bits, at the distances of section 4.1.2 |
| Sha2Roots.Sigmas512 | utility/digest_algorithm/sha2.c:132-135 | the same for section 4.1.3 |
| Primes.Rows | utility/digest_algorithm/sha2.c:148-221 | the first 80 primes are the primes with 0 to 79 primes below them |
| Padding.Sha2Padded | utility/digest_algorithm/sha2.c:455-514 | the padded message is the message, 0x80, zeros and the number of bits in 8 or 16 bytes, in the fewest blocks of 64 or 128 bytes, and is the only such |
| Words.RotateRightBit | utility/digest_algorithm/sha2.c:116-119 | rotation moves every bit by n places round the end |
| ByteOrder.SwapIsReversal | utility/digest_algorithm/sha2.c:258-281 | the shifts and masks of reverse_32bit and reverse_64bit reverse the bytes of every word |
| ByteOrder.Reverse32Bytes | utility/digest_algorithm/sha2.c:258-262 | reverse_32bit of a word with given bytes has them reversed |
| ByteOrder.Reverse64Bytes | utility/digest_algorithm/sha2.c:273-281 | reverse_64bit of a word with given bytes has them reversed |
| ByteOrder.SwapLoaded | utility/digest_algorithm/sha2.c:284-313 | loading and converting a word reads it as big-endian on a little- or big-endian host |
| ByteOrder.StoreSwapped | utility/digest_algorithm/sha2.c:284-313 | converting and storing a word writes it as big-endian on either host |
| Md5.Context.Update | utility/digest_algorithm/md5.c:127-160 | after an update the context stands for the message with the new bytes behind it |
| Md5.Context.CountBytes | utility/digest_algorithm/md5.c:136-140 | the two counter words hold the bit count modulo 2^64 |
| Md5.Context.Blocks | utility/digest_algorithm/md5.c:145-153 | the full blocks are hashed from buffer and message |
| Md5.Context.Final | utility/digest_algorithm/md5.c:165-184 | the digest is that of section 3 of RFC 1321 for all the bytes fed |
| Md5.Context.Finish | utility/digest_algorithm/md5.c:170-180 | padding and length are fed as sections 3.1 and 3.2 say |
| Md5.Context.Transform | utility/digest_algorithm/md5.c:189-271 | a block is compressed |
| Md5.FirstRound | utility/digest_algorithm/md5.c:195-211 | the sixteen calls of round 1, which pass the four words round, are its sixteen steps in section 3.4 |
| Md5.SecondRound | utility/digest_algorithm/md5.c:213-229 | the same for round 2 |
| Md5.ThirdRound | utility/digest_algorithm/md5.c:231-247 | the same for round 3 |
| Md5.FourthRound | utility/digest_algorithm/md5.c:249-265 | the same for round 4 |
| Md5.TurnedIsStep | utility/digest_algorithm/md5.c:88-107 | a macro computes one step of section 3.4 |
| Md5.Encode | utility/digest_algorithm/md5.c:277-287 | the bytes shifted and masked out of words are their little-endian bytes |
| Md5.Decode | utility/digest_algorithm/md5.c:293-301 | the bytes shifted and joined are the little-endian words |
| Md5.DecodeEncodedAll | utility/digest_algorithm/md5.c:277-301 | decoding encoded words gives every word back |
| Md5Spec.MixedBit | utility/digest_algorithm/md5.c:78-81 | F and G choose bits, H is the parity, I is as defined in section 3.4 |
| Md5Tables.Sines | utility/digest_algorithm/md5.c:195-265 | the 64 numbers added are the integer parts of 2^32 times the sines of 1 to 64, by power series and addition theorems with 16 or more terms |
| Md5Tables.Schedule1 | utility/digest_algorithm/md5.c:195-211 | the steps of round 1 take the words in order and rotate by 7, 12, 17 and 22 |
| Md5Tables.Schedule2 | utility/digest_algorithm/md5.c:213-229 | those of round 2 every fifth word from the second and 5, 9, 14 and 20 |
| Md5Tables.Schedule3 | utility/digest_algorithm/md5.c:231-247 | those of round 3 every third word from the sixth and 4, 11, 16 and 23 |
| Md5Tables.Schedule4 | utility/digest_algorithm/md5.c:249-265 | those of round 4 every seventh word and 6, 10, 15 and 21 |
| Md5Tables.InitialBytes | utility/digest_algorithm/md5.c:118-121 | the initial words are the bytes 01 23 45 67 to 76 54 32 10, low-order bytes first |
| Padding.Md5Padded | utility/digest_algorithm/md5.c:165-180 | the padded message is the message, 0x80, zeros and the number of bits in 8 little-endian bytes, in the fewest blocks of 64 bytes, and is the only such |
| Words.RotateLeftBit | utility/digest_algorithm/md5.c:84 | left rotation moves every bit by n places round the end |
| Md5.HmacMd5 | utility/digest_algorithm/hmac.c:8-47 | the keyed hash is that of section 2 of RFC 2104 for every key length, digest being input and output and allowed to share storage with key or message |
| Md5.KeyPad | utility/digest_algorithm/hmac.c:26-34 | the key block is padded with zeros and exclusive-ored |
| Md5.ShortKey | utility/digest_algorithm/hmac.c:17-24 | a key longer than a block is replaced by its digest |
| Md5Hmac.HmacExactly | utility/digest_algorithm/hmac.c:8-47 | the two blocks of the keyed hash are the key with bits 1, 2, 4 and 5, and 2, 3, 4 and 6, of every byte flipped |
| Crc.Crc16DetectsBursts | utility/digest_algorithm/crc16.c:55-79 | two messages of equal length that differ only within 16 consecutive bits have different crc16ccitt |
| Crc.Crc32DetectsBursts | utility/digest_algorithm/crc.c:34-50 | two messages of equal length that differ only within 32 consecutive bits have different utils_crc32 |
| Crc.Crc16Context.Final | utility/digest_algorithm/CheckSumUtils.c:69-90 | the shift-in CRC, fed in any pieces and closed with two zero bytes, is the xmodem CRC of all the bytes |
| Crc.Crc16Context.Update | utility/digest_algorithm/CheckSumUtils.c:75-83 | an update feeds its bytes |
| Crc.UtilsCrc16IsCcitt | utility/digest_algorithm/crc.c:15-31 | utils_crc16 of 8n bits equals crc16ccitt of n bytes |
| Crc.UtilsCrc16 | utility/digest_algorithm/crc.c:15-31 | utils_crc16 is the CRC of any number of leading bits |
| Crc.UtilsCrc32 | utility/digest_algorithm/crc.c:34-50 | utils_crc32 is the CRC of the bytes |
| Crc.Crc16Common | utility/digest_algorithm/crc16.c:55-72 | the common loop is the CRC of the reordered message, reordered and exclusive-ored at the end |
| Crc.Crc16Ccitt | utility/digest_algorithm/crc16.c:75-79 | crc16ccitt is the CRC from all ones |
| Crc.Crc16CcittXmodem | utility/digest_algorithm/crc16.c:81-85 | crc16ccitt_xmodem is the CRC from zero |
| Crc.UpdateCrc | utility/digest_algorithm/CheckSumUtils.c:51-67 | the marker-bit loop shifts eight bits in |
| CrcTheory.ShiftInComputesCrc | utility/digest_algorithm/CheckSumUtils.c:51-90 | for every width and polynomial, shifting a message and a word of zeros in equals exclusive-oring at the top |
| CrcTheory.BurstDetected | utility/digest_algorithm/crc16.c:55-72 | for every width and polynomial with its low bit set, a burst no longer than the register changes the remainder |
| CrcTheory.StepsInjective | utility/digest_algorithm/crc16.c:61-67 | shifting without input loses nothing |
| CrcPolynomials.FeedIsRemainder | utility/digest_algorithm/crc16.c:55-72 | over polynomials with bits as coefficients, a register is left by a message if and only if it is the remainder of the message, with the first register added at its top, on division by the generator |
| CrcPolynomials.OneRemainder | utility/digest_algorithm/crc16.c:55-72 | there is one remainder |
| CrcValues.Generators | utility/digest_algorithm/crc.c:9-33 | the exponents of the generators are 16, 12, 5, 0 and 32, 26, 23, 22, 16, 12, 11, 10, 8, 7, 5, 4, 2, 1, 0 |
| CrcValues.InitialRegisters | utility/digest_algorithm/crc16.c:75-85 | the first registers are sixteen or 32 ones, or zeros |
| CrcValues.Crc16CcittExactly | utility/digest_algorithm/crc16.c:75-79 | crc16ccitt is the remainder of the message and sixteen zeros, the first sixteen of these bits inverted |
| CrcValues.Crc16XmodemExactly | utility/digest_algorithm/crc16.c:81-85 | crc16ccitt_xmodem is the remainder of the message and sixteen zeros |
| CrcValues.Crc32Exactly | utility/digest_algorithm/crc.c:34-50 | utils_crc32 is the remainder of the message and 32 zeros for its generator, the first 32 of these bits inverted |
| CrcValues.DigitNumber | utility/digest_algorithm/crc16.c:75-79 | the bytes of the check message are the characters of its digits |
| CrcValues.CheckValue | utility/digest_algorithm/crc16.c:75-79 | crc16ccitt of the digits 1 to 9 is 0x29B1 |

## Left out

- `SalSelect`: eventfd entries, closing or reallocating a socket while a select is in progress, the mailboxes and the asynchronous connect that sets `sendevent` itself; readiness changes only through `sal_deal_event`.
- `SalSelect`: data left over in `lastdata` makes a socket readable for a scan but wakes nobody, as in the code.
- `SalSelect`: the timeout is a step that may happen to a thread that asked for one; clocks are not modelled.
- `SalPorts`: the TCP and UDP twins are one class over one list; `rand()` is a parameter, and the search keeps the static cursor in a local variable until it returns.
- `JsonText`: numbers are integers of magnitude below 10^15, printed as their decimal digits; the `sprintf` and `sscanf` texts of other numbers, `cJSON_Raw`, the locale's decimal point and the `CJSON_STRING_ZEROCOPY` build are not part of the model.
- JsonPrinter.PrintBuffer.PrintNumber: takes those integers only, because the text of any other number is what `sprintf` makes of a `double`.
- JsonParser.ParseBuffer.ParseNumber: `strtod` is exact decimal arithmetic on reals, without rounding, and `valueint` with its saturation is not modelled.
- JsonParser.ParseText: the position reported after a failed parse is not modelled.
- `JsonParser`: items and members are values in a chain rather than allocated nodes, and allocation does not fail.
- JsonPrinter.PrintBuffer.Ensure: reallocation does not fail and keeps what has been printed; the byte under the cursor, which the manual copy moves too, is not modelled.
- JsonMinify.Minify: what happens to the memory behind the text once the reader has left it is not modelled.
- JsonMerge.WithoutMeans: speaks of values; the relinking through `prev` is in JsonLists.Parent.Remove.
- `JsonMerge`, `JsonDiff`: trees are values there, so that generating a patch sorts its two arguments in place is not modelled; `JsonSort` and `JsonLists` have the linked list of one object, whose member values stay values.
- JsonPointer.GetPointer: array indices are unbounded integers, where an `int` overflows for an index of 2^31 or more; a node is named by the child indices that lead to it.
- JSON Patch (`cJSONUtils_ApplyPatches`, `cJSONUtils_GeneratePatches`): its removal of several array elements at rising indices makes another statement than diff and apply.
- `Sha2`, `Md5`: contexts are not cleared after the final call, and the hexadecimal and file helpers are not modelled.
- Md5.Context.Update: lengths are below 2^31, as its `int` parameter demands.
- Md5.HmacMd5: lengths are below 2^31; longer ones fit its parameters but not the `int` of MD5_Update that they are passed to.
- Md5.ShortKey: the same for the length of the key.
- Crc.UtilsCrc16: bit lengths are below 2^31, as its loop counter demands.
- `crc16ccitt_kermit`, `crc16x25`, `crc16ccitt_1d0f`, `crc16ibm`, `checksum_crc16`, `reverse_8`, `reverse_16` and CRC-8: the same loop with other parameters.
- `sal_recvfrom`, `utility/hashtable`, `utility/base64`, `kernel/yloop`, `tools/dda`, `osal`, `middleware` and the applications: input and output, wrappers over other systems, or code whose properties are simpler than those above.
