# Verified models of the hard parts of `lib/`

The project models seven pieces of self-contained logic of the repository and proves what they promise.

- **JSON** (`json_*.dfy`): jsoncpp 0.5.0 in its default build. The reader is a class that moves `current`,
  keeps the node stack as paths into the tree and appends to its error list; it is proved against a
  functional lexer, parser and decoders. Both writers are classes proved against functions that give their
  texts. The main result says, for every value and both writers, what parsing the text gives and exactly when
  that is the value. Beside it stand definitions that name neither parser nor writer: the shapes of tokens
  (`json_tokens.dfy`), the pieces of strings (`json_unescape.dfy`), the grammar of the texts that are accepted
  (`json_grammar.dfy`) and of those that are rejected, with their errors (`json_rejected.dfy`), and the layout of
  both writers (`json_layout.dfy`); each is proved to be exactly what the code does.
- **Object list** (`list.dfy`): `cListObject` and `cListBase` on the heap, every operation tied to the
  sequence of objects that the links spell forwards and backwards.
- **Network interfaces** (`interfaces*.dfy`): the editor of `/etc/network/interfaces` as a cursor over a
  list of lines, and the reader. Round trip, absorption and frame are stated for every file;
  `interfaces_files.dfy` says what the lines are and works one file out.
- **MD5** (`md5*.dfy`): the streaming computation with its lazily flushed buffer and its two-word counter,
  proved to be RFC 1321 for every way of feeding the bytes; `md5_suite.dfy` works out an entry of the test suite
  of the RFC.
- **Batch allocator** (`batch_allocator.dfy`): pages, the current page and the list of released objects
  kept inside the objects themselves.
- **Wireless events** (`event_*.dfy`): the two-level cursor over packed events, and the scan loop;
  `event_commands.dfy` lists the commands with their codes and sizes and what a scan gives for each.
- **Configuration files** (`config*.dfy`): the text format, the vectors inside one value, the class
  with its flags, and what the texts mean (`config_meaning.dfy`).

`decimals.dfy`, `division.dfy`, `options.dfy`, `integers.dfy` and `characters.dfy` hold what several of them share.

Where the code does not keep what one would expect of it, the model keeps the code, and a theorem says
exactly when the expectation holds:

- Integers outside -2147483639..4294967289 are printed exactly but read back by `sscanf`, because the
  accumulator loop stops at the threshold with `>=` (`JsonText.DecodePrinted`, `JsonEcho.RoundTrip`).
- The test for a bad separator in an array asks for two token types at once and is never true, so any token
  separates elements (`JsonEcho.PartedRead`, `JsonEcho.ColonParts`).
- Any token separates members too once a comment is in front of it, and a closing brace is taken for a member
  behind an empty name, so `{"":1,}` is accepted (`JsonGrammar.AcceptedIff`, `JsonRejected.CommaBeforeBrace`).
- Strict mode asks for an array or an object at the root, but a null value passes for either
  (`JsonEcho.RoundTrip`).
- The compact printer keeps the size of an array in an `int` and prints one of more than 2147483647 elements
  empty, which takes a single entry at a large index (`JsonRoundTrip.SameTokens`, `JsonEcho.HugeArray`).
- `operator<=` of values holds exactly when they are not less (`JsonOrder.LessOrEqualIff`).
- `Del` without deleting leaves the count behind, and `Move` of an object onto itself loses it
  (`ObjectList.ListBase.Del`, `ObjectList.ListBase.Move`).
- An attribute line that follows an `auto` line of the written interface becomes part of whatever stanza
  comes before it once that line is erased. It is the one obstacle to absorption (`InterfaceLaws.WriteTwice`)
  and to leaving other interfaces alone (`InterfaceLaws.OthersUnchangedIff`), and beside values of no word or
  of several words the one to round trip (`InterfaceLaws.WriteThenRead`); `StrayToOwn` and `StrayToOther` are files.
- The carry of the MD5 byte counter is one, so a single length of 2^33 or more is miscounted; with a
  32-bit `size_t` this cannot happen (`Md5.CountsIff`).
- `BatchAllocator` never notices the end of a page that the object size does not divide, and runs over it with
  more objects than places (`BatchAllocation.BatchAllocator.InMemoryIff`, `TakeAll`); the allocator for pages of
  arrays, which only the internal-map build has, is such a case (`ArrayPagesOverflow`).
- Two four-byte values in one wireless event look like one value behind a gap, and the first is lost; a gap in
  front of several four-byte values looks like one value more; and the gap of a point can look like its length
  (`EventPacking.ShiftedIff`, `ReadsSent`, `ScanReadsBackIff`).
- A `#` in front of the delimiter does not start a comment, and one in a value does (`ConfigText.LoadSaveIff`);
  an empty last element of a vector is lost (`ConfigVectors.StringsComeBackIff`), and a value of more than 65535
  characters makes the loop endless (`ConfigVectors.EndsIff`).
- A missing key that is set to the setter's default stays missing, and getters with other defaults answer those
  (`ConfigFile.LastSetIff`). A setter leaves a text in place that already means the value to its own getter, which
  a getter of another kind may read differently (`ConfigMeaning.IntThenBool`, `ConfigMeaning.BoolThenInt`).

Bytes of JSON documents, files and configuration values are Dafny characters; only codes up to 255 arise
there. `dafny verify dfyconfig.toml` checks everything.

## Model

| member | source | states |
|---|---|---|
| `JsonEcho.RoundTrip` | lib/jsoncpp/json_writer.cpp:196-263 | for every value whose strings are not null and NUL-free, parsing the compact text succeeds exactly if the value has an echo (`sscanf` accepts every number it is given; in strict mode the root must be an array, an object or null), gives that echo, and gives the value with array gaps filled by null, arrays of more than 2147483647 elements empty, entries whose index was stored as a negative number dropped and small unsigned integers made signed exactly if every integer lies in -2147483639..4294967289 and every double scans as it was printed; if no array is that large, the pretty text gives the same |
| `JsonEcho.EchoIsNorm` | lib/jsoncpp/json_reader.cpp:581-616 | the echo of a value is its normal form exactly if its numbers survive, on trees of any depth |
| `JsonEcho.ValueReads` | lib/jsoncpp/json_reader.cpp:194-242 | reading the tokens of any value in front of any other tokens consumes exactly them and gives the echo |
| `JsonEcho.ElementsRead` | lib/jsoncpp/json_reader.cpp:538-578 | from element i on the array loop appends the echoes of the elements left and stops behind the closing bracket |
| `JsonEcho.PartedRead` | lib/jsoncpp/json_reader.cpp:551-576 | whatever tokens are between the elements of an array, if only they are no comments and do not close it, the array is read as if they were commas |
| `JsonEcho.ColonParts` | lib/jsoncpp/json_reader.cpp:564-571 | `[1:2]` is read as the array of 1 and 2 |
| `JsonEcho.MembersRead` | lib/jsoncpp/json_reader.cpp:479-535 | from member i on the object loop appends name and echo of the members left, in the order of the map, and stops behind the closing brace |
| `JsonEcho.MemberReads` | lib/jsoncpp/json_reader.cpp:485-531 | one round of the object loop reads back a printed name, the colon and the value |
| `JsonEcho.ScalarReads` | lib/jsoncpp/json_reader.cpp:208-228 | a printed scalar is decoded to itself, to the signed form of a small unsigned integer, or to what `sscanf` makes of its text |
| `JsonRoundTrip.SameTokens` | lib/jsoncpp/json_writer.cpp:207-351 | the compact text of every value has the tokens of what the loops over an `int` size see, the pretty text those of what the loops over an unsigned size see, if it can be printed; the two are the same if and only if no array has more than 2147483647 elements |
| `JsonRoundTrip.SameTokensIff` | lib/jsoncpp/json_writer.cpp:229-240 | an array too large for an `int` has more tokens in the pretty text, at any depth |
| `JsonEcho.HugeArray` | lib/jsoncpp/json_writer.cpp:233-234 | such an array: the compact text is empty brackets, and the pretty printer fails its assertion |
| `JsonRoundTrip.FastSpells` | lib/jsoncpp/json_writer.cpp:207-263 | the compact text of every value lexes to the tokens of the value, in front of any text that no number can run into |
| `JsonRoundTrip.StyledSpells` | lib/jsoncpp/json_writer.cpp:290-401 | so does the pretty text, wherever in a document and at whatever indentation it starts, if the assertion of the single line holds |
| `JsonRoundTrip.StyledChildrenSpell` | lib/jsoncpp/json_writer.cpp:323-387 | the lines of the elements, at any point of the loop, spell the tokens of the elements left |
| `JsonRoundTrip.LeafListSpells` | lib/jsoncpp/json_writer.cpp:388-399 | the single line of a short array spells the tokens of its elements |
| `JsonWriter.FastWriter.Write` | lib/jsoncpp/json_writer.cpp:196-204 | the document is the compact text of the value and a line end |
| `JsonWriter.FastWriter.WriteValue` | lib/jsoncpp/json_writer.cpp:207-263 | appends the compact text of any value, with the blank of YAML after the colon if it is enabled |
| `JsonWriter.FastWriter.WriteElements` | lib/jsoncpp/json_writer.cpp:232-240 | the loop over the elements, its bound being the unsigned size kept in an `int`: the texts of all of them with commas between, or none if the size is negative |
| `JsonWriter.FastWriter.WriteMembers` | lib/jsoncpp/json_writer.cpp:245-259 | the loop over the member names appends names and texts in the order of the map |
| `JsonWriter.UIntToString` | lib/jsoncpp/json_writer.cpp:30-40 | fills the buffer from its end with the decimal digits of any 32-bit number and a NUL, inside its 32 places |
| `JsonWriter.IntToString` | lib/jsoncpp/json_writer.cpp:42-55 | the decimal text of any 32-bit integer, the smallest one included |
| `JsonWriter.ValueToQuotedString` | lib/jsoncpp/json_writer.cpp:111-172 | the quoted text with exactly the escapes of the switch, whichever of the two paths is taken |
| `JsonStyled.StyledWriter.Write` | lib/jsoncpp/json_writer.cpp:276-287 | the document is the pretty text of the value and a line end, given only that the assertion on the single line holds at every array in it |
| `JsonStyled.StyledWriter.WriteValue` | lib/jsoncpp/json_writer.cpp:290-348 | in a trial run a leaf text is pushed and the document left alone, otherwise the pretty text is appended; the indentation is restored and the mode unchanged |
| `JsonStyled.StyledWriter.WriteArrayValue` | lib/jsoncpp/json_writer.cpp:351-401 | the same for arrays, over an unsigned size; the body holds that the child texts are as many as the elements at the single-line branch |
| `JsonStyled.StyledWriter.WriteLines` | lib/jsoncpp/json_writer.cpp:323-387 | a non-empty container is only printed outside a trial run; the brackets and the indented lines between them are appended and the indentation restored |
| `JsonStyled.StyledWriter.WriteElements` | lib/jsoncpp/json_writer.cpp:323-384 | every element on its line, from its collected text if there is one |
| `JsonStyled.StyledWriter.IsMultineArray` | lib/jsoncpp/json_writer.cpp:404-432 | true exactly if the array is not compact, the width being computed with an `int` that wraps; a compact one leaves the texts of all its elements collected |
| `JsonStyled.StyledWriter.TryLine` | lib/jsoncpp/json_writer.cpp:416-429 | the trial run leaves the document alone, collects the text of every element, and counts the characters of the line they would make |
| `JsonStyled.StyledWriter.PushValue` | lib/jsoncpp/json_writer.cpp:435-442 | to the child texts in a trial run, to the document otherwise |
| `JsonStyled.StyledWriter.WriteIndent` | lib/jsoncpp/json_writer.cpp:445-457 | nothing after a blank, a line end unless there is one, and the indentation |
| `JsonLayout.StyledIsPretty` | lib/jsoncpp/json_writer.cpp:290-457 | at any depth the pretty text is the layout defined line by line: every element and member starts a line with three blanks for each container around it, the closing bracket starts one at the depth of the opening one, and leaves, empty containers and short arrays are on the line they start on |
| `JsonLayout.OneLineIff` | lib/jsoncpp/json_writer.cpp:404-432 | an array is on one line if and only if it has fewer than 25 elements, all leaves or empty containers, and the line has fewer than 74 characters |
| `JsonLayout.FastIsGlued` | lib/jsoncpp/json_writer.cpp:207-263 | the compact text is the texts of the tokens of the value with nothing between them, but for the blank of YAML behind a colon |
| `JsonLayout.Documents` | lib/jsoncpp/json_writer.cpp:196-287 | both for the documents of the two writers |
| `JsonReader.Reader.Parse` | lib/jsoncpp/json_reader.cpp:150-191 | accepts every byte string, ends, and leaves the result, the tree and the error list of the functional parser, in strict mode with the root check, which a null root passes |
| `JsonReader.Reader.ReadValue` | lib/jsoncpp/json_reader.cpp:194-242 | the node stack is as before, the current slot holds the value of the functional parser and every other slot what it held; errors grow by its errors; the position never moves back and forward on success |
| `JsonReader.Reader.ReadObject` | lib/jsoncpp/json_reader.cpp:479-535 | the same for objects, for any tokens, with the recovery at the closing brace |
| `JsonReader.Reader.ReadArray` | lib/jsoncpp/json_reader.cpp:538-578 | the same for arrays, with the recovery at the closing bracket |
| `JsonReader.Reader.ReadElement` | lib/jsoncpp/json_reader.cpp:551-576 | one round: the element is stored at its index and any token but the closing bracket goes on, the test for a bad separator never being true |
| `JsonReader.Reader.ReadMember` | lib/jsoncpp/json_reader.cpp:485-534 | one round: name, colon, value and separator, or the error and the recovery the code makes of them |
| `JsonReader.Reader.ReadNamed` | lib/jsoncpp/json_reader.cpp:500-533 | the part of it behind the name, on any tokens |
| `JsonReader.Reader.RecoverFromError` | lib/jsoncpp/json_reader.cpp:773-787 | skips to the given token or the end and drops every error that doing so brought |
| `JsonReader.Reader.ReadToken` | lib/jsoncpp/json_reader.cpp:273-345 | delivers the next token of the text left and advances, unless the document is exhausted |
| `JsonReader.Reader.ReadKind` | lib/jsoncpp/json_reader.cpp:280-344 | kind and length are those of the specified scanner |
| `JsonReader.Reader.ReadString` | lib/jsoncpp/json_reader.cpp:463-476 | stops behind the first quote that no backslash hides, or fails at the end |
| `JsonReader.Reader.ReadNumber` | lib/jsoncpp/json_reader.cpp:451-461 | takes the longest run of number characters |
| `JsonReader.Reader.ReadComment` | lib/jsoncpp/json_reader.cpp:377-402 | takes exactly the comment, or fails where the code does |
| `JsonReader.Reader.SkipSpaces` | lib/jsoncpp/json_reader.cpp:348-359 | moves over exactly the blanks |
| `JsonReader.Reader.Match` | lib/jsoncpp/json_reader.cpp:362-374 | moves over the pattern if and only if the text has it |
| `JsonReader.Reader.DecodeNumber` | lib/jsoncpp/json_reader.cpp:581-616 | stores the number or reports the error of the functional decoder; its accumulator has 32 bits and never overflows |
| `JsonReader.Reader.DecodeString` | lib/jsoncpp/json_reader.cpp:657-701 | the decoded string or exactly one error, as the functional decoder has them |
| `JsonReader.Reader.DecodeUnicodeCodePoint` | lib/jsoncpp/json_reader.cpp:703-731 | the code point of one or two escapes and where they end, or the error |
| `JsonReader.Reader.DecodeUnicodeEscapeSequence` | lib/jsoncpp/json_reader.cpp:733-756 | the value of four hex digits, or the error for too few or wrong ones |
| `JsonParse.ParseOkIffNoErrors` | lib/jsoncpp/json_reader.cpp:150-191 | parsing succeeds if and only if the error list is empty; there are never more than two errors; of a document of fewer than 2147483647 characters the tree left is well formed, also after a failure |
| `JsonParse.ReadValue` | lib/jsoncpp/json_reader.cpp:194-242 | consumes tokens, at least one on success; leaves no error on success and exactly one on failure, however much was skipped to recover |
| `JsonParse.ReadMembers` | lib/jsoncpp/json_reader.cpp:479-535 | the same for the members of an object; the value stays an object |
| `JsonParse.ReadElements` | lib/jsoncpp/json_reader.cpp:538-578 | the same for the elements of an array; the value stays an array |
| `JsonParse.ReadValueValid` | lib/jsoncpp/json_reader.cpp:194-242 | whatever the tokens, up to 2147483646 of them, the tree is well formed: keys sorted, of one kind and NUL-free, array indices and integers in range |
| `JsonPaths.StoreInChild` | lib/jsoncpp/json_reader.cpp:505-509 | creating a slot with operator[], pushing it and storing through the pushed pointer is storing into the container |
| `JsonPaths.SetChild` | lib/jsoncpp/json_reader.cpp:800-804 | storing into a slot below another one is storing the changed container into that one |
| `JsonGrammar.AcceptedIff` | lib/jsoncpp/json_reader.cpp:194-242 | a value is read exactly if the tokens start with a tree of a grammar that names no function of the parser: comments where they may be, elements with any token between them, members with a string, a colon and a value each, a closing brace in place of a member only first or behind an empty name, and words that can be decoded; exactly its tokens are consumed and exactly its value is left |
| `JsonGrammar.DocumentAcceptedIff` | lib/jsoncpp/json_reader.cpp:150-191 | the same for whole documents, with the root check of strict mode |
| `JsonGrammar.NodeAccepted` | lib/jsoncpp/json_reader.cpp:194-242 | every tree of the grammar is read, in front of any tokens, with its value and without an error |
| `JsonGrammar.OnlyNodes` | lib/jsoncpp/json_reader.cpp:194-242 | whatever is read successfully starts with a tree of the grammar |
| `JsonRejected.RejectedIff` | lib/jsoncpp/json_reader.cpp:479-578 | a value fails to be read exactly if the tokens start with a broken tree; then there is exactly one error, at the token where the tree breaks off, with the message for what was missed there (a value, a name, a colon, a separator, a bad word), and the slot is left with exactly what was read until then |
| `JsonRejected.DocumentErrors` | lib/jsoncpp/json_reader.cpp:150-191 | the same for whole documents, with the second error that strict mode adds |
| `JsonRejected.CommaBeforeBrace` | lib/jsoncpp/json_reader.cpp:485-498 | a comma in front of the closing brace is an error if and only if the name in front of it is not empty; the member is kept |
| `JsonText.WalkExactIff` | lib/jsoncpp/json_reader.cpp:597-611 | for digits of any length the integer path is taken if and only if the value without its last digit is below the threshold, the result is then exact, and no accumulated value leaves 32 bits |
| `JsonText.WalkIsDecimal` | lib/jsoncpp/json_reader.cpp:600-611 | the accumulator loop from any point on: exact if and only if every prefix value is below the threshold |
| `JsonText.DecodePrinted` | lib/jsoncpp/json_reader.cpp:581-616 | a printed integer is read back exactly if and only if it lies in -2147483639..4294967289, and goes to `sscanf` otherwise |
| `JsonText.IntTextIsToken` | lib/jsoncpp/json_reader.cpp:451-461 | the text of every integer is exactly one number token |
| `JsonText.IntegerMeans` | lib/jsoncpp/json_reader.cpp:581-616 | digits of any length, with or without a minus: the exact integer while the number without its last digit is below 214748364 or 429496729, and what `sscanf` makes of it otherwise; signed up to 2147483647 |
| `JsonText.RealMeans` | lib/jsoncpp/json_reader.cpp:581-596 | a point, an exponent, a plus, or a minus that is not in front leaves the text to `sscanf` |
| `Decimals.DecimalDigits` | lib/jsoncpp/json_writer.cpp:30-40 | digit i of a printed number, from the right, is the one of the i-th power of ten, with no zero in front |
| `Decimals.DecValDigits` | lib/jsoncpp/json_reader.cpp:600-611 | one more digit makes ten times the number and the digit |
| `JsonStrings.QuoteIsToken` | lib/jsoncpp/json_writer.cpp:111-172 | the quoted text of every NUL-free string is exactly one string token and decodes to the string |
| `JsonStrings.ScanEscapeAll` | lib/jsoncpp/json_reader.cpp:463-476 | the scan of an escaped string stops at the closing quote and not before |
| `JsonStrings.DecodeEscapeAll` | lib/jsoncpp/json_reader.cpp:657-701 | decoding undoes escaping for every string |
| `JsonStrings.EscapesDecodeToUTF8` | lib/jsoncpp/json_reader.cpp:657-756 | any sequence of Unicode scalar values written as escapes, with digits in upper or lower case, decodes to bytes that a UTF-8 decoder turns back into the sequence |
| `JsonStrings.EncodeOne` | lib/jsoncpp/json_reader.cpp:69-103 | the encoding of a scalar value is well-formed UTF-8 of the shortest length, in front of any bytes |
| `JsonStrings.DecodeOneUnicode` | lib/jsoncpp/json_reader.cpp:703-756 | any escape, or any pair of surrogates of a scalar value above U+FFFF, gives that value |
| `JsonStrings.HexEscapeIff` | lib/jsoncpp/json_reader.cpp:733-756 | four characters are the escape of u exactly if each is the digit of u at its place, among 0123456789abcdef or 0123456789ABCDEF |
| `JsonUnescape.DecodedIff` | lib/jsoncpp/json_reader.cpp:657-756 | a string is decoded to a text exactly if it is a sequence of pieces that mean the text: plain characters, the eight short escapes with their letters and meanings listed, and `\u` escapes alone or in surrogate pairs |
| `JsonUnescape.NotDecodedIff` | lib/jsoncpp/json_reader.cpp:657-756 | it is rejected with a message exactly if pieces lead up to a place where none starts and which is wrong in the way of that message |
| `JsonUnescape.PrintedAs` | lib/jsoncpp/json_writer.cpp:131-170 | the characters that have a short escape are printed with it, except the slash, the other control characters with four digits in upper case, and everything else as it is |
| `JsonLexer.ScanExtends` | lib/jsoncpp/json_reader.cpp:273-345 | a token stays the same token whatever follows it, if it cannot run into that |
| `JsonLexer.LexIsShort` | lib/jsoncpp/json_reader.cpp:273-345 | a document has no more tokens than characters |
| `JsonTokens.ScanIff` | lib/jsoncpp/json_reader.cpp:273-476 | the scanner takes a token of a kind and length if and only if the text has the shape of that kind there, all shapes being written out character by character |
| `JsonTokens.LexNext` | lib/jsoncpp/json_reader.cpp:273-359 | behind any blanks the token that has one of the shapes is delivered and the rest is read on |
| `JsonTokens.LexError` | lib/jsoncpp/json_reader.cpp:273-345 | where nothing has a shape, an error token: an open string or comment up to the end, a slash with the character behind it, any other character alone |
| `JsonTokens.CharacterClasses` | lib/jsoncpp/json_reader.cpp:348-359 | the four blanks, the characters of numbers and those that start one |
| `JsonOrder.LessTrichotomy` | lib/jsoncpp/json_value.cpp:564-668 | of any two value trees exactly one holds: the first is less, the second is less, or they are equal |
| `JsonOrder.LessOrEqualIff` | lib/jsoncpp/json_value.cpp:608-624 | operator<= holds of the values that are not less, which is right if and only if they are equal; operator>= is right always |
| `JsonOrder.LessTransitive` | lib/jsoncpp/json_value.cpp:564-606 | the order is transitive, over type, size and the entries |
| `JsonOrder.TypesInOrder` | lib/jsoncpp/json_value.cpp:564-570 | of different types, null is less than a signed integer, that than an unsigned one, then a real, a string, a boolean, an array, an object |
| `JsonOrder.SmallerNumbers` | lib/jsoncpp/json_value.cpp:571-582 | numbers compare as numbers, and false is less than true |
| `JsonOrder.SmallerStrings` | lib/jsoncpp/json_value.cpp:583-587 | strings compare at the first character in which they differ, a proper prefix being less and the null string least |
| `JsonOrder.SmallerContainers` | lib/jsoncpp/json_value.cpp:588-598 | containers compare by the number of entries and then at the first entry in which they differ, by its key and then by its value |
| `JsonOrder.EqualIsIdentity` | lib/jsoncpp/json_value.cpp:626-668 | operator== holds exactly for identical trees |
| `JsonValue.KeyTrichotomy` | lib/jsoncpp/json_value.cpp:217-231 | the order of map keys is total, by name or by index, and its equality is operator== |
| `JsonValue.LookupPut` | lib/jsoncpp/json_value.cpp:974-1078 | what was put under a key is found, and every other key finds what it found before |
| `JsonValue.PutSorted` | lib/jsoncpp/json_value.cpp:974-1042 | entries stay sorted by key without duplicates |
| `JsonValue.LookupAt` | lib/jsoncpp/json_value.cpp:1062-1078 | every entry is found under its key |
| `ObjectList.ListObject.Unlink` | lib/libdvbsub/tools.cpp:116-123 | the rest of the chain is a chain and the object is linked to nothing |
| `ObjectList.ListObject.Index` | lib/libdvbsub/tools.cpp:125-135 | the position in the chain |
| `ObjectList.ListBase.Add` | lib/libdvbsub/tools.cpp:150-164 | the chain with the object behind the given one, or at the end; all links, both ends and the count are right |
| `ObjectList.ListBase.Ins` | lib/libdvbsub/tools.cpp:166-180 | the chain with the object in front of the given one, or at the start |
| `ObjectList.ListBase.Del` | lib/libdvbsub/tools.cpp:182-193 | the chain without the object; the count stays its length if and only if the object is deleted |
| `ObjectList.ListBase.Move` | lib/libdvbsub/tools.cpp:200-222 | taken out and put in at the old position of the other object; moved onto itself it is lost, linked to itself and still counted, so the invariant is kept if and only if the two differ or one is absent |
| `ObjectList.ListBase.MoveAt` | lib/libdvbsub/tools.cpp:195-198 | the same by positions, nothing for a position outside |
| `ObjectList.ListBase.Get` | lib/libdvbsub/tools.cpp:235-243 | the object at a position, none outside |
| `ObjectList.ListBase.Clear` | lib/libdvbsub/tools.cpp:224-233 | every object is deleted exactly once and the list is empty |
| `ObjectList.ListBase.Sort` | lib/libdvbsub/tools.cpp:252-269 | the list is the array, filled by the walk along the links and rearranged by `qsort`, for any rearrangement |
| `ObjectList.ListBase.Collect` | lib/libdvbsub/tools.cpp:254-261 | the walk fills the array with exactly the objects of the chain, in order |
| `ObjectList.ListBase.Relink` | lib/libdvbsub/tools.cpp:263-268 | the objects are taken from the old chain and put into the new one in the order of the array |
| `ObjectList.ListBase.MoveOver` | lib/libdvbsub/tools.cpp:264-268 | one round of it: the object leaves the chain of those left, which stays a chain of its own, for the end of the new one |
| `ObjectList.MovedProperties` | lib/libdvbsub/tools.cpp:200-222 | a move keeps the objects, puts the moved one at the destination and shifts those between by one |
| `ObjectList.PutBack` | lib/libdvbsub/tools.cpp:182-193 | inserting an object where it was deleted undoes the deletion |
| `ObjectList.InsertAtProperties` | lib/libdvbsub/tools.cpp:150-193 | inserting adds one object, at its position, and deleting there undoes it |
| `ObjectList.SelfLinkedIsLost` | lib/libdvbsub/tools.cpp:200-222 | an object linked to itself is in no chain |
| `ObjectList.InsertChain` | lib/libdvbsub/tools.cpp:150-180 | redirecting the four links around a position makes the longer chain |
| `ObjectList.RemoveChain` | lib/libdvbsub/tools.cpp:116-123 | redirecting the two links past an object makes the shorter chain |
| `Interfaces.WriteInterface` | lib/libnet/network_interfaces.cpp:101-216 | the lines written are those of the specified pass over the file, with a stanza appended if there was none |
| `Interfaces.ReadInterface` | lib/libnet/network_interfaces.cpp:218-310 | flag, header and attributes are those of the specified reading |
| `InterfaceLines.RemoveInterfaceFromLine` | lib/libnet/network_interfaces.cpp:77-99 | the line without the word, and whether other names are left on it |
| `InterfaceLines.RemoveNameKeepsOthers` | lib/libnet/network_interfaces.cpp:77-99 | no other name is lost from an auto line |
| `InterfaceLines.WordsOfJoin` | lib/libnet/network_interfaces.cpp:77-99 | a line of words joined by blanks falls apart into these words |
| `InterfaceLaws.WriteThenRead` | lib/libnet/network_interfaces.cpp:101-310 | for every file and attributes of different keys, the flag and the header come back as written; the keys are those whose value has a word and those of the orphans, attribute lines behind an erased auto line of the name; and the attributes come back as written if and only if every value is one word and the orphans add no key and override none with another value |
| `InterfaceLaws.RoundTripWithoutOrphans` | lib/libnet/network_interfaces.cpp:101-310 | without orphans the flag, the header and the first word of every value come back, however many stanzas the file had for the name, and so exactly the settings if and only if every value is one word |
| `InterfaceLaws.WriteTwice` | lib/libnet/network_interfaces.cpp:101-216 | writing one setting and then another gives what writing the other one alone gives if and only if the file has no orphans |
| `InterfaceLaws.WriteAgain` | lib/libnet/network_interfaces.cpp:116-199 | the same from any point of the file on, as an equation for every file |
| `InterfaceLaws.WriteSeenByOthers` | lib/libnet/network_interfaces.cpp:101-310 | for every file, what reading another name gives after writing: the file read as if the erased auto lines did not end a stanza |
| `InterfaceLaws.OthersUnchangedIff` | lib/libnet/network_interfaces.cpp:101-310 | for every file, writing one interface adds to what is read of another one exactly the strays, the last attributes outside its stanzas that are inside once the erased auto lines are gone; so nothing changes if and only if every stray has the value read before |
| `InterfaceLaws.ReadOutput` | lib/libnet/network_interfaces.cpp:101-310 | reading over what the pass writes, line by line and from any state |
| `InterfaceLaws.TidyFile` | lib/libnet/network_interfaces.cpp:101-310 | if no auto line of just the name is followed by an attribute line, not counting blanks and comments, then no other interface changes, flag, header and first words of the values come back, and writing twice is writing once |
| `InterfaceLaws.TidyHasNoOrphans` | lib/libnet/network_interfaces.cpp:116-199 | such a file has no orphans |
| `InterfaceLaws.NoStanzaNoOrphans` | lib/libnet/network_interfaces.cpp:201-213 | a file without a stanza for the name has no orphans, so the appended stanza always comes back |
| `InterfaceLaws.StrayToOwn` | lib/libnet/network_interfaces.cpp:123-199 | a file of three lines after which the interface has an attribute it was not given and writing twice differs |
| `InterfaceLaws.StrayToOther` | lib/libnet/network_interfaces.cpp:123-199 | a file of three lines in which writing one interface gives another one an attribute it did not have |
| `InterfaceLaws.StrayNetmask` | lib/libnet/network_interfaces.cpp:123-199 | such a file in full: after setting eth0 to dhcp a netmask is read that was not given |
| `InterfaceFiles.WordsAre` | lib/libnet/network_interfaces.cpp:118-126 | a line falls apart into what is between the blanks, up to a NUL |
| `InterfaceFiles.KindsAre` | lib/libnet/network_interfaces.cpp:118-199 | what a line is for an interface, by its words: blank, comment, mapping, the iface or auto line of the interface, of others or of both, or an attribute |
| `InterfaceFiles.FileWritten` | lib/libnet/network_interfaces.cpp:101-216 | a file with lines of all kinds before and after eth0 is set |
| `InterfaceFiles.FileRead` | lib/libnet/network_interfaces.cpp:218-310 | what is read of eth0 from it |
| `Md5.Block` | lib/libmd5sum/md5.c:286-408 | the four rounds as the macros write them out are the 64 operations of section 3.4 of RFC 1321, and their sums with the saved words are the next state |
| `Md5.OP` | lib/libmd5sum/md5.c:342-349 | one macro is one operation of RFC 1321, the roles of the four words having moved on by one |
| `Md5.Row1` | lib/libmd5sum/md5.c:320-336 | four operations of the first round, with the words of the block kept |
| `Md5.Round2` | lib/libmd5sum/md5.c:351-367 | the 16 operations of the second round, with the word indices, shifts and table of RFC 1321 |
| `Md5.Round3` | lib/libmd5sum/md5.c:369-385 | the same for the third round |
| `Md5.Round4` | lib/libmd5sum/md5.c:387-403 | the same for the fourth round |
| `Md5.FF` | lib/libmd5sum/md5.c:253-253 | the optimised form is the function F of RFC 1321 on all words |
| `Md5.AllBlocks` | lib/libmd5sum/md5.c:283-410 | the loop is the fold of the blocks in order |
| `Md5.CountsIff` | lib/libmd5sum/md5.c:274-281 | the two-word increment counts modulo 2^64 if and only if low word and length together stay below 2^33, so for every 32-bit length and not for every 64-bit one |
| `Md5.Context.AddToTotal` | lib/libmd5sum/md5.c:274-281 | the counter grows by the length modulo 2^64 |
| `Md5.Context.ProcessBlock` | lib/libmd5sum/md5.c:261-417 | the words are the fold over the blocks; state and counter stay those of all blocks flushed |
| `Md5.Context.ProcessBytes` | lib/libmd5sum/md5.c:203-246 | for any data at any state the bytes fed grow by exactly the data; at most one full block stays buffered, the words are the fold over the rest and the counter its length |
| `Md5.Context.FillUp` | lib/libmd5sum/md5.c:208-228 | the bytes that fit are added to the buffer and whole blocks leave it; if any are left over the buffer is empty |
| `Md5.Context.Finish` | lib/libmd5sum/md5.c:92-122 | the digest of all the bytes fed, with the padding and the length of sections 3.1 and 3.2 |
| `Md5.FillsUp` | lib/libmd5sum/md5.c:104-114 | the piece of fillbuf taken is the padding of section 3.1 and completes 64 or 128 bytes, for every fill of the buffer up to a full block |
| `Md5.CountsBits` | lib/libmd5sum/md5.c:107-114 | the shifted counter words are the low and the high word of the length in bits modulo 2^64 |
| `Md5Spec.FoldConcat` | lib/libmd5sum/md5.c:283-410 | the fold over two runs of blocks is the fold over the second from that over the first |
| `Md5Spec.Padding` | lib/libmd5sum/md5.c:104-105 | between one and 64 bytes, leaving eight to the next block boundary |
| `Md5Suite.SuiteEntry` | lib/libmd5sum/md5.c:184-200 | the digest of the alphabet is c3fcd3d76192e4007dfb496cca67e13b, as section A.5 of RFC 1321 has it, worked out through all 64 operations |
| `Md5Stream.Buffer` | lib/libmd5sum/md5.c:184-200 | the digest of RFC 1321 of the message |
| `Md5Stream.Pieces` | lib/libmd5sum/md5.c:203-246 | any way of cutting a message into calls gives the digest of the whole |
| `Md5Stream.Stream` | lib/libmd5sum/md5.c:127-178 | for every pattern of short reads: failure if and only if an error was seen, and otherwise the digest of the whole content |
| `Md5Stream.ReadBlock` | lib/libmd5sum/md5.c:149-158 | a full block, or the rest of the stream, or an error |
| `BatchAllocation.StaysInPageIff` | lib/jsoncpp/json_batchallocator.h:61-76 | no number of allocations from one page leaves its memory if and only if the object size divides the page size, the end test being an equality |
| `BatchAllocation.FillStaysIff` | lib/jsoncpp/json_batchallocator.h:61-76 | n allocations from one page stay in its memory if and only if the object size divides the page size or n is at most the page size |
| `BatchAllocation.BatchAllocator.FirstPageUsed` | lib/jsoncpp/json_batchallocator.h:53-77 | what the allocator has used of its first page is what that count says, after any run |
| `BatchAllocation.BatchAllocator.InMemoryIff` | lib/jsoncpp/json_batchallocator.h:53-77 | all objects ever carved lie in the memory of their pages if and only if the object size divides the page size or the most objects ever in use are at most the page size |
| `BatchAllocation.TakeAll` | lib/jsoncpp/json_batchallocator.h:53-77 | a run of n allocations gives n objects that do not overlap, and all lie in memory if and only if the object size divides the page size or n is at most the page size |
| `BatchAllocation.BatchAllocator.constructor` | lib/jsoncpp/json_batchallocator.h:30-39 | the empty first page, nothing carved, for any object size and page size |
| `BatchAllocation.BatchAllocator.Allocate` | lib/jsoncpp/json_batchallocator.h:53-77 | never an object in use; inside the memory of its page if all objects fit; the carved objects stay those in use and those released, disjoint and as many as ever were in use at once; all pages behind the current one are full; a page is only added when nothing is released |
| `BatchAllocation.BatchAllocator.NextPage` | lib/jsoncpp/json_batchallocator.h:61-73 | the search for a page that is not full never finds one |
| `BatchAllocation.BatchAllocator.Release` | lib/jsoncpp/json_batchallocator.h:81-86 | the object becomes the head of the list kept inside the objects, and no other place of the memory changes |
| `BatchAllocation.BatchAllocator.Write` | lib/jsoncpp/json_batchallocator.h:53-86 | what an owner puts anywhere into its object leaves the list and everything else intact |
| `BatchAllocation.BatchAllocator.Destroy` | lib/jsoncpp/json_batchallocator.h:41-49 | every page is freed once |
| `BatchAllocation.BatchAllocator.Apart` | lib/jsoncpp/json_batchallocator.h:53-77 | two carved objects have no place in common |
| `BatchAllocation.BatchAllocator.PagesNeeded` | lib/jsoncpp/json_batchallocator.h:53-77 | the number of pages is exactly what the largest number of objects ever in use needs, beside the empty first one; an object size that does not divide the page size never takes a second page |
| `BatchAllocation.CarvedMoreIsSound` | lib/jsoncpp/json_batchallocator.h:74-76 | carving keeps the partition, the shape of every page and the page count, and gives a place not carved before |
| `BatchAllocation.PagedIsSound` | lib/jsoncpp/json_batchallocator.h:67-72 | a new page in front of full ones keeps them too |
| `BatchAllocation.Run` | lib/jsoncpp/json_batchallocator.h:53-86 | after any run of requests that fits, the objects in use are as many as they should be, lie in memory and do not overlap, and the number of pages is exactly what the peak needs |
| `BatchAllocation.ArrayPagesOverflow` | lib/jsoncpp/json_internalarray.inl:138-138 | objects of eight values and pages of the default size 255, as the array allocator of the internal-map build has them: the 256th object lies behind the page |
| `EventPacking.ScanReadsBackIff` | lib/libiw/iwlib.c:2711-2907 | for every stream of well-formed events of any version, packed or with the gaps of 64-bit kernels, points up to version 18 in the layout of 32 bits, the scan ends with 0 and the exact decoding; unless the stream holds both pairs of four-byte values without a gap and gaps in front of several four-byte values, everything sent is read back, in order, if and only if it holds neither and no point has a gap that is the right length for all that follows it |
| `EventPacking.GapMakesUp` | lib/libiw/iwlib.c:2711-2907 | a stream of both kinds that is read back all the same, a gap repeating the value that was lost |
| `EventPacking.AllRead` | lib/libiw/iwlib.c:3119-3161 | with only one of the two kinds the number of events read can only fall, or only grow, and all is read back exactly if there is none |
| `EventPacking.ScanStream` | lib/libiw/iwlib.c:3139-3160 | what exactly comes out of any such stream, the place of every payload and gaps read as values or as lengths included |
| `EventPacking.ScanValues` | lib/libiw/iwlib.c:2874-2905 | an event of any number of values gives them one by one; two four-byte ones without a gap only the second; a gap in front of several four-byte ones comes out as the first of them |
| `EventPacking.ScanRest` | lib/libiw/iwlib.c:2774-2780 | from any value of an event on the rest of its values come out |
| `EventPacking.ShiftedIff` | lib/libiw/iwlib.c:2880-2883 | the test for a gap finds every gap but the one in front of several four-byte values, and takes the first of two four-byte values for one |
| `EventPacking.PointMeant` | lib/libiw/iwlib.c:2803-2872 | length, flags and the place of the payload, before version 19 packed and from then on in both alignments, and what is taken for them when the gap reads as the right length |
| `EventPacking.ReadsPayload` | lib/libiw/iwlib.c:2803-2872 | the bytes at the place given are the payload sent |
| `EventPacking.ReadsSent` | lib/libiw/iwlib.c:2711-2907 | one event is read as it was sent if and only if it is no pair of four-byte values, has no gap that is read as a value, and none that is read as a length |
| `EventStream.Advances` | lib/libiw/iwlib.c:2711-2907 | on arbitrary bytes every extraction that returns more than 0 brings the cursor forward, lexicographically in what is left of the stream and of the event |
| `EventStream.StreamDescr.constructor` | lib/libiw/iwlib.c:2693-2704 | the cursor is at the start of the data, not inside an event |
| `EventStream.StreamDescr.Extract` | lib/libiw/iwlib.c:2711-2907 | return code, event and cursor of the specified extraction, at any cursor over any memory |
| `EventStream.StreamDescr.ExtractValue` | lib/libiw/iwlib.c:2874-2905 | the value, moved by four bytes if the event looks aligned, and the cursor on the next one or behind the event |
| `EventStream.StreamDescr.ExtractPoint` | lib/libiw/iwlib.c:2803-2872 | the event with its payload kept, moved or discarded, extra length computed modulo 2^32 |
| `EventStream.ProcessScan` | lib/libiw/iwlib.c:3119-3161 | the loop ends on arbitrary bytes, with the events and the last return code of the specified scan |
| `EventCommands.TablesAgree` | lib/libiw/iwlib.c:2391-2686 | for every command number, the size of its values or the size and the bounds of its tokens, written out command by command, are what the two tables of the source say |
| `EventCommands.ValueScanned` | lib/libiw/iwlib.c:2874-2905 | an event with one value of as many bytes as the command has, whatever they are, is scanned as exactly these bytes |
| `EventCommands.ValuesScanned` | lib/libiw/iwlib.c:2874-2905 | of several values all come out, except for two of four bytes |
| `EventCommands.TokensScanned` | lib/libiw/iwlib.c:2803-2872 | tokens within the bounds of the command are found behind length and flags, which up to version 18 are behind a pointer |
| `EventCommands.TokensDiscarded` | lib/libiw/iwlib.c:2803-2872 | tokens that are too few or too many for the command are not handed on |
| `EventCommands.HeaderScanned` | lib/libiw/iwlib.c:2741-2772 | of the other commands only the header comes out |
| `EventCommands.Returns` | lib/libiw/iwlib.c:2711-2800 | in front of an event: 0 at the end of the data, -1 for a length of 4 or less, 2 for a command without values or tokens, -2 for one whose fixed part is not all there, and 1 otherwise; the cursor stays for 0 and -1 and is behind the event for 2 and -2 |
| `ConfigText.LoadSaveIff` | lib/libconfigfile/configfile.cpp:54-124 | for every map and every delimiter, loading what was saved restores the map if and only if no key or value has a line end, no key has the delimiter, the delimiter is no line end, and a value with a '#' has one in its key or the delimiter is '#' |
| `ConfigText.LinesAreRead` | lib/libconfigfile/configfile.cpp:62-80 | the saved lines of any keys add these keys, values cut at the first '#' that counts |
| `ConfigText.ReadIsOneLine` | lib/libconfigfile/configfile.cpp:62-80 | whatever a file holds, the keys read have neither delimiter nor line end, the values no line end |
| `ConfigFile.ConfigFile.LoadConfig` | lib/libconfigfile/configfile.cpp:54-87 | the map is what the lines put into it and not modified, or all is unchanged if there is no file |
| `ConfigFile.ConfigFile.SaveConfig` | lib/libconfigfile/configfile.cpp:94-124 | the file has one line for every key, each key once |
| `ConfigVectors.EndsIff` | lib/libconfigfile/configfile.cpp:290-311 | the loop with its 16-bit counters ends if and only if the value has at most 65535 characters |
| `ConfigVectors.AnswersIff` | lib/libconfigfile/configfile.cpp:290-318 | what it comes back with, if it does, are the pieces between the delimiters, an open end giving none |
| `ConfigVectors.StringsComeBackIff` | lib/libconfigfile/configfile.cpp:290-318 | a vector of strings comes back if and only if no element has the delimiter in it, the last is not empty, and the joined text has at most 65535 characters |
| `ConfigVectors.NumbersComeBackIff` | lib/libconfigfile/configfile.cpp:260-288 | a vector of numbers comes back if and only if the delimiter is in none of the texts, but for a zero at the end with delimiter 0, and the joined text has at most 65535 characters |
| `ConfigVectors.SafeDelimiterIff` | lib/libconfigfile/configfile.cpp:260-288 | every vector is free of the delimiter if and only if that is neither a digit nor a minus sign |
| `ConfigVectors.AtoiOfText` | lib/libconfigfile/configfile.cpp:194-212 | `atoi` undoes the decimal text |
| `ConfigFile.ConfigFile.GetStringVector` | lib/libconfigfile/configfile.cpp:290-318 | the pieces of the value, for values the 16-bit counters can hold; a missing key is added, and an open end sets the flag |
| `ConfigFile.ConfigFile.SetStringVector` | lib/libconfigfile/configfile.cpp:430-453 | the joined elements are stored, and the map marked, if they differ from the value or the key is new |
| `ConfigFile.ConfigFile.GetInt32Vector` | lib/libconfigfile/configfile.cpp:260-288 | the numbers of the pieces |
| `ConfigFile.ConfigFile.SetInt32Vector` | lib/libconfigfile/configfile.cpp:405-428 | the joined decimal texts are stored |
| `ConfigFile.VectorComesBackIff` | lib/libconfigfile/configfile.cpp:290-453 | what the getter answers after the setter is the vector, under the same condition with its length bound, whether or not the setter wrote; beyond the bound it does not come back |
| `ConfigFile.Int32VectorComesBackIff` | lib/libconfigfile/configfile.cpp:260-428 | the same for vectors of 32-bit integers, under their condition |
| `ConfigFile.LastSetIff` | lib/libconfigfile/configfile.cpp:168-403 | after any calls of a setter, for any keys, a getter answers what was set last, unless the key is still missing and the getter has another default; the key is there if and only if it was before or some call had to write; a key never set reads as before |
| `ConfigFile.SetOnce` | lib/libconfigfile/configfile.cpp:330-403 | one call stores the value or leaves the key missing, and touches no other key |
| `ConfigFile.ConfigFile.GetInt32` | lib/libconfigfile/configfile.cpp:194-212 | the meaning of the stored text or the default; defaults are added if they are to be saved |
| `ConfigFile.ConfigFile.SetInt32` | lib/libconfigfile/configfile.cpp:350-363 | map and modified flag, the other flag restored |
| `ConfigFile.ConfigFile.SetString` | lib/libconfigfile/configfile.cpp:390-403 | the same for strings |
| `ConfigFile.ConfigFile.SetBool` | lib/libconfigfile/configfile.cpp:330-343 | the same for booleans |
| `ConfigMeaning.AtoiMeans` | lib/libconfigfile/configfile.cpp:194-212 | blanks, a sign, digits and anything that is no digit mean the number of the digits, and zero if there are none |
| `ConfigMeaning.BoolMeans` | lib/libconfigfile/configfile.cpp:168-181 | `false` and `0` are false, every other text is true |
| `ConfigMeaning.Int32Means` | lib/libconfigfile/configfile.cpp:194-212 | `true` is 1, `false` is 0, and every other text what `atoi` makes of it |
| `ConfigMeaning.IntThenBool` | lib/libconfigfile/configfile.cpp:168-363 | after a number was set, the flag read is whether it is not zero, unless an old text that already meant the number was left in place, or the key is still missing |
| `ConfigMeaning.BoolThenInt` | lib/libconfigfile/configfile.cpp:168-363 | after a flag was set, the number read is 1 or 0, with the same two exceptions |
| `ConfigMeaning.Loaded` | lib/libconfigfile/configfile.cpp:54-212 | what the getters answer from a file of one line, by the text behind the delimiter |

## Left out

- JSON reals: `sscanf` and `sprintf` are parameters of the model, a scan and a format function; the theorems hold for all of them, and NaN and infinities do not occur.
- JSON comments: they are skipped as with `collectComments` off; storing and placing them, and the comment branches of the writers, are not modelled.
- JsonOrder.SmallerContainers: the difference of two numbers of entries, which the source keeps in an `int`, is not cut here; it matters from a difference of 2147483648 on.
- Error positions: an error keeps its message and its token, not its line, column or `extra_` location, and the formatted message text is not modelled.
- `StyledStreamWriter`, `Path`, the CppTL and internal map variants, `Value::resize`, `removeMember` and the conversions between value types.
- JsonEcho.RoundTrip: what the pretty printer gives for an array of more than 2147483647 elements is only related to the compact text, not read back; the `int` index of the reader is unbounded here.
- JsonParse.ParseOkIffNoErrors: that the tree is well formed is not claimed for documents of 2147483647 characters or more; positions in a document are unbounded.
- JsonStyled.StyledWriter.Write: where the assertion on the single line fails, for some arrays of more than 2147483647 elements, the program is taken to stop.
- JsonLayout.StyledIsPretty: for arrays whose size times three, and whose single line if they may have one, an `int` can hold; what the pretty text is beyond that is said by `JsonRoundTrip.StyledSpells` only.
- JsonStyled.StyledWriter.IsMultineArray: signed overflow in the width of a line is taken as wrap-around.
- JsonWriter.IntToString: the negation of the smallest integer wraps in C++ and is taken as its absolute value.
- ObjectList.ListBase.Sort: `qsort` is a parameter, any permutation of the array; that it is ordered by `Compare` is left to it.
- `delete`: deleted objects and freed pages are reported in order, the memory is not given back.
- The file behind the interface editor: `read_file` and `write_file` are the list of lines; `getInetAttributes` and the other helpers on top of the two functions are left out.
- MD5 alignment and byte order: `SWAP` of a loaded word is the little-endian word on every machine; `resbuf` is the sequence of its 16 bytes.
- Md5.Context.ProcessBytes: lengths of one call are below 2^32, a 32-bit `size_t`; `Md5.CountsIff` says what a wider one would do to the counter.
- Md5.Row1: the 16 lines of a round are grouped by four, after which the words are back in their places.
- BatchAllocation.BatchAllocator.Write: only into objects that lie in memory; what a write or a release behind the end of a page destroys is not modelled.
- BatchAllocation.Run: for requests that fit, that is, the object size divides the page size or the peak is at most the page size; `BatchAllocation.TakeAll` says what happens otherwise as long as nothing is given back.
- `malloc` failures and the type parameter of `BatchAllocator`: a place holds a link or content, and a link fits into the first place of an object.
- EventPacking.ScanReadsBackIff: streams with both pairs of four-byte values and gaps in front of several have their exact output stated, but no condition for reading back: `EventPacking.GapMakesUp` shows that values that repeat can make up for each other.
- EventPacking.PointMeant: the points of 64-bit kernels up to version 18, whose pointer has eight bytes, are left out.
- EventStream.StreamDescr.Extract: pointers have 32 bits (`IW_EV_POINT_OFF` is 4), lengths are little-endian, and parts of `struct iw_event` that an extraction leaves alone are not modelled.
- `iw_process_scanning_token` and the requests that obtain the scan results.
- ConfigFile.ConfigFile.SaveConfig: the order of the lines is any order of the keys, and the temporary file, its mode and the renaming are one step that succeeds or not.
- ConfigFile.ConfigFile.GetStringVector: called on values of up to 65535 characters, the ones on which its loop ends; the same for `GetInt32Vector`.
- ConfigVectors.AtoiOfText: what `atoi` does beyond the range of `int` is not modelled.
- 64-bit integers of `CConfigFile`: the same code as for 32 bits.
- User interface, drivers, sockets, the subtitle threads and every other part of the repository.
