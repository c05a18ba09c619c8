# BK7253 SDK models

Dafny models of nine algorithms of the BK7253 SDK and proofs of what they promise. Run
`dafny verify dfyconfig.toml` to check them.

- **cJSON.** The recursive-descent parser (items on the heap), the allocate-and-compose printer, the
  growing-buffer printer and the in-place minifier. One pair of printing and parsing functions says
  what the text of a tree is; the four programs are proved against it, it is proved to be a round trip,
  and minifying is proved to keep the meaning of every accepted text. Apart from these functions, a grammar
  of all spellings of a tree says what the parser must accept and what it must refuse, and a scan of
  white space how the printers must lay a tree out. Numbers are exact reals of a double's
  magnitude; `sprintf` rounds to the nearest decimal, halves to even.
- **ezXML.** The escape codec with rescanning entity expansion, the entity declarations and their
  circularity check, the UTF-16 converter, the serializer that puts subtags back into the text, the
  parser for documents of tags and text, against a grammar of all spellings of a tree, and the three linked lists that index children by name.
- **Audio codec.** The ring of data nodes read as one stream of bytes, and the DMA double buffer with
  its pause address, as a machine over write steps and interrupts. Between the two steps of a write
  an interrupt can come. The DMA is assumed to complete a half unless a pause address is set at its end.
- **optparse.** The recursive permuting parser on the argument array, and runs of it to the end, against
  command lines as their users mean them.
- **sound_delay.** The echo ring against its recurrence over the whole history, in saturated 16-bit
  samples and 32-bit intermediate values.
- **mixer.** The music list on the intrusive circular list, the two pools of blocks, and the in-place
  expansion of one channel to two. One handled message is one step; the strategy compiled in is modelled.
- **kfifo.** The ring with free-running 32-bit counters; counters are integers modulo 2^32.
- **lfs_crc.** The nibble table against the bit-serial register, on 32-bit words.
- **doubly_list.** The list operations the mixer uses.

C text is the sequence of its characters without the terminator, and a pointer into it is the text
from there on; reading at the terminator gives NUL. Buffers that are written in place or grow are
arrays, or texts with their capacity, and every write is proved to be inside; where the cJSON string
parser would leave the text or its buffer, the model stops with an outcome of its own. Memory allocation
succeeds. Buffers handed to a queue are left alone by their writer until they are reported complete.

Where the code does not meet what one would expect of it, a lemma says so:

- `CJsonLiterals.QuoteInEscapeOverruns`: a quote among the four bytes after `\u` makes the parser write
  past its buffer. `CJsonText.Inside` defines when it does not. It does not as long as the second pass
  stays in the text and does not stop after the first one (`CJsonPasses.OutputFits`); and a look at the
  backslashes alone, `CJsonLiterals.AllEscaped`, is enough to know (`ParseInside`).
- `CJsonMinifyMeaning.MinifyKeepsStart`: white space behind a number that the text starts with is
  meaningful if the end of the text is not required, exactly before what goes on the number.
- `CJsonMinifyClosed.AcceptedClosedIff`: the parser accepts a string that the end of the text closes,
  and the minifier reads past it.
- `EzxmlIndex.OnlyFirstsIff`: the one kind of insertion after which a name is on the `sibling` list twice.
  Lookup by name and index is right all the same.
- `EzxmlStraddling.StraddlingLoops`: entities accepted one at a time can make expansion run forever, when a
  reference is cut off at the end of a value and completed by the text after it.
- `EzxmlParameters.ParametersEndIff`: the circularity check does not follow parameter entities; the
  exact condition is that none mentions itself.
- `EzxmlEscape.DecodeEscapedAttribute`: vertical tab and form feed do not survive in an attribute.
- `EzxmlErrors.ClosedIff`: a closing tag need not have its `>` when white space follows the name.
- `SoundDelay.DiesIff`: the echo of a negative sample never dies away.
- `OptparseRun.StraightIffClean`: an undeclared letter inside a group spoils the next option, exactly
  if there is one.
- `SoundDelay.VolumeBound`: the exact volume up to which products stay within 32 bits.
- `MixerPadding.DoublesIff`: the exact overlap up to which the in-place expansion is right.

## Model

| member | source | states |
|---|---|---|
| CJsonRoundTrip.ParsePrinted | bk7253_sdk_release_3.2/packages/cJSON/cJSON.c:363-664 | A printed tree, compact or formatted, at any depth and whatever follows it, parses to the same tree with its numbers as printed: kinds, names, strings, order; and parsing stops right after it (sections 4 to 7 of RFC 8259) |
| CJsonRoundTrip.ParsePrint | bk7253_sdk_release_3.2/packages/cJSON/cJSON.c:329-349 | `cJSON_Parse` of `cJSON_Print` or `cJSON_PrintUnformatted` succeeds, consumes the whole text and gives the tree with its numbers as printed, with and without a required end; it gives the very tree if and only if the numbers are printed exactly |
| CJsonRoundTrip.PrintInjective | bk7253_sdk_release_3.2/packages/cJSON/cJSON.c:348-349 | Two printable trees with the same text in any of the two formats are the same tree, up to how their numbers are printed |
| CJsonRoundTrip.ParsePrintedString | bk7253_sdk_release_3.2/packages/cJSON/cJSON.c:198-313 | `parse_string` of what `print_string_ptr` writes gives every NUL-free string back and ends after its closing quote |
| CJsonNumbers.ParsePrintedNumber | bk7253_sdk_release_3.2/packages/cJSON/cJSON.c:102-181 | `parse_number` of a printed number, in any of the five forms `print_number` has, gives the number the text denotes and stops at the character after it |
| CJsonNumbers.ParsePrintedInt | bk7253_sdk_release_3.2/packages/cJSON/cJSON.c:102-181 | A printed integer is read back exactly |
| CJsonPrecision.ShownNear | bk7253_sdk_release_3.2/packages/cJSON/cJSON.c:153-181 | A printed number is within half a millionth of the one it was printed from, of its size where it is printed with an exponent |
| CJsonPrecision.IntegerShown | bk7253_sdk_release_3.2/packages/cJSON/cJSON.c:153-181 | Integers below 10^60 in magnitude are printed exactly |
| CJsonPrecision.MillionthsShown | bk7253_sdk_release_3.2/packages/cJSON/cJSON.c:153-181 | So are whole numbers of millionths up to 10^9 |
| CJsonSizes.NumberTextShort | bk7253_sdk_release_3.2/packages/cJSON/cJSON.c:153-181 | The 2, 21 and 64 bytes that `print_number` asks for are enough for every number of a double's magnitude |
| CJsonRoundTrip.ParsePrintedArray | bk7253_sdk_release_3.2/packages/cJSON/cJSON.c:412-517 | The array case of the round trip: elements, separators and brackets |
| CJsonRoundTrip.ParsePrintedObject | bk7253_sdk_release_3.2/packages/cJSON/cJSON.c:520-664 | The object case of the round trip: members, names, tabs, separators and braces |
| CJsonReads.StringRead | bk7253_sdk_release_3.2/packages/cJSON/cJSON.c:198-255 | A literal, each character written plainly, with one of the eight short escapes and the character it stands for, or by its code in one or two `\u` units, is read as the string it denotes and up to its closing quote (section 7 of RFC 8259) |
| CJsonReads.NumeralRead | bk7253_sdk_release_3.2/packages/cJSON/cJSON.c:102-121 | A number of the grammar of section 6 of RFC 8259, with any fraction and exponent, and with any leading zeros of the exponent, is read as its value if and only if the text behind it does not go on it |
| CJsonReads.FormRead | bk7253_sdk_release_3.2/packages/cJSON/cJSON.c:363-553 | Every spelling of a tree, with any white space around its tokens, any spelling of its strings and numbers, is read as the tree, and parsing stops right after it |
| CJsonReads.TextRead | bk7253_sdk_release_3.2/packages/cJSON/cJSON.c:329-345 | Every text that spells a tree, with white space around it, is accepted and read as the tree, with and without a required end |
| CJsonRejects.BrokenFails | bk7253_sdk_release_3.2/packages/cJSON/cJSON.c:363-553 | A text with one error in it, at any depth behind complete elements and members, is rejected: no value, no comma or bracket behind an element, no name, no colon, no comma or brace behind a member |
| CJsonRejects.TextRejected | bk7253_sdk_release_3.2/packages/cJSON/cJSON.c:329-345 | `cJSON_ParseWithOpts` and `cJSON_Parse` reject every such text |
| CJsonRejects.TailRejected | bk7253_sdk_release_3.2/packages/cJSON/cJSON.c:339-340 | With a required end, a value followed by anything but white space is rejected |
| CJsonLayout.PrintedLaid | bk7253_sdk_release_3.2/packages/cJSON/cJSON.c:440-664 | White space in printed text, read by a scan that knows nothing of the printer: a compact text has none; in a formatted one every member and closing brace starts a line with as many tabs as brackets and braces are open around it, a comma in an array is followed by one space, a colon by one tab, and there is no other; the closing brace of an empty object has two tabs less, and none instead of a negative number |
| CJsonLayout.PrintLaid | bk7253_sdk_release_3.2/packages/cJSON/cJSON.c:440-664 | The same for a value at any depth, before any text laid out in the brackets that are open there |
| CJsonLayout.EscapeForms | bk7253_sdk_release_3.2/packages/cJSON/cJSON.c:292-309 | Only quotes, backslashes and control characters are escaped when printed, those with a letter of their own by it and the others by two lower-case hexadecimal digits behind `\u00` |
| CJsonLayout.PointShown | bk7253_sdk_release_3.2/packages/cJSON/cJSON.c:157-179 | A number is printed with a point if and only if it is not within DBL_EPSILON of an integer as the code rounds it, and with an exponent if and only if it is besides below 10^-6 or above 10^9 in magnitude |
| CJsonLayout.FixedForm | bk7253_sdk_release_3.2/packages/cJSON/cJSON.c:178 | With a point alone it has digits without a leading zero before it and six behind it |
| CJsonLayout.ScientificForm | bk7253_sdk_release_3.2/packages/cJSON/cJSON.c:177 | With an exponent it has one digit that is not zero, a point and six digits, and a signed exponent of two digits or more |
| CJsonLiterals.PassesAgree | bk7253_sdk_release_3.2/packages/cJSON/cJSON.c:198-255 | On every well-formed literal both passes stay in the text, the decoding pass stops at the same closing quote as the sizing pass, and it writes no more bytes than were sized (section 7 of RFC 8259) |
| CJsonLiterals.StaysInside | bk7253_sdk_release_3.2/packages/cJSON/cJSON.c:198-255 | It is enough that no escape is cut short, by the end of the text or, in the four bytes after `\u`, by a quote or a backslash; the four need not be hexadecimal digits, nor the literal be closed |
| CJsonLiterals.QuoteInEscapeOverruns | bk7253_sdk_release_3.2/packages/cJSON/cJSON.c:198-255 | The body `\u1"AAAAA"` is sized as 2 bytes, and 3 and a terminator are written: the parser overruns its buffer |
| CJsonPasses.OutputFits | bk7253_sdk_release_3.2/packages/cJSON/cJSON.c:198-255 | On any text at all: if both passes stay in it and the second does not stop after the first, what it writes fits what was counted |
| CJsonLiterals.ParseInside | bk7253_sdk_release_3.2/packages/cJSON/cJSON.c:329-345 | On any text in which no escape is cut short, accepted or not, the parser stays inside the text and inside every string's buffer |
| CJsonLiterals.EscapeIsLiteral | bk7253_sdk_release_3.2/packages/cJSON/cJSON.c:258-313 | What `print_string_ptr` writes is always a well-formed literal |
| CJsonStrings.JsonBytesIsUtf8 | bk7253_sdk_release_3.2/packages/cJSON/cJSON.c:236-244 | The bytes written for a code point are its UTF-8 form (section 3 of RFC 3629) |
| CJsonStrings.UnescapeScalar | bk7253_sdk_release_3.2/packages/cJSON/cJSON.c:222-244 | A `\u` escape, or a pair of surrogate escapes, of any Unicode scalar value but 0, with hexadecimal digits of either case, is decoded to its UTF-8 form |
| Utf8.CombineBits | bk7253_sdk_release_3.2/packages/cJSON/cJSON.c:232 | The masks, shift and OR of the surrogate expression are, on 32-bit words, the arithmetic by which the model combines a pair |
| CJsonParser.Item.ParseString | bk7253_sdk_release_3.2/packages/cJSON/cJSON.c:198-255 | Decodes into an array of the size counted and one more, every write of text and terminator inside it; fills the item with the string and returns the end of the literal, or fails as the parser does |
| CJsonParser.Item.ParseNumber | bk7253_sdk_release_3.2/packages/cJSON/cJSON.c:102-121 | Fills both number fields and returns the end of the number |
| CJsonParser.Item.ParseValue | bk7253_sdk_release_3.2/packages/cJSON/cJSON.c:363-375 | Builds a well-linked item tree of heap nodes for the value that the text starts with, or fails, exactly as the parsing function says |
| CJsonParser.Item.ParseArray | bk7253_sdk_release_3.2/packages/cJSON/cJSON.c:412-437 | The child chain of a parsed array is linked both ways, in order, and holds the parsed elements |
| CJsonParser.Item.ParseObject | bk7253_sdk_release_3.2/packages/cJSON/cJSON.c:520-553 | The same for an object, with the member names in the items |
| CJsonParser.Item.ParseElements | bk7253_sdk_release_3.2/packages/cJSON/cJSON.c:421-436 | The element loop: every turn links one parsed element after the last |
| CJsonParser.Item.ParseMembers | bk7253_sdk_release_3.2/packages/cJSON/cJSON.c:537-552 | The member loop: every turn links one parsed member after the last |
| CJsonParser.Parse | bk7253_sdk_release_3.2/packages/cJSON/cJSON.c:329-345 | `cJSON_ParseWithOpts`: a tree or a failure, the end of the text read, and the required end |
| CJsonPrinter.PrintString | bk7253_sdk_release_3.2/packages/cJSON/cJSON.c:258-313 | The allocating `print_string_ptr` fills its buffer with exactly the literal and its terminator, every write inside |
| CJsonPrinter.EscapedLength | bk7253_sdk_release_3.2/packages/cJSON/cJSON.c:275 | The size loop computes the length of the escaped text |
| CJsonPrinter.PrintValue | bk7253_sdk_release_3.2/packages/cJSON/cJSON.c:378-409 | The allocate-and-compose printer returns exactly the text of the tree, every write inside the buffer it allocated |
| CJsonPrinter.PrintArray | bk7253_sdk_release_3.2/packages/cJSON/cJSON.c:470-517 | The sizes counted for the elements cover the composed array, which is its text |
| CJsonPrinter.PrintObject | bk7253_sdk_release_3.2/packages/cJSON/cJSON.c:598-664 | The sizes counted for the pairs cover the composed object, which is its text |
| CJsonPrinter.CountedCovers | bk7253_sdk_release_3.2/packages/cJSON/cJSON.c:614-636 | The length counted over the members is enough for the text of all of them |
| PowerOfTwo.Pow2gtIsLeast | bk7253_sdk_release_3.2/packages/cJSON/cJSON.c:123 | `pow2gt` is the least power of two that is not less than its argument, from 1 up to 2^30 |
| CJsonBuffer.PrintBuffer.Ensure | bk7253_sdk_release_3.2/packages/cJSON/cJSON.c:127-142 | A request that fits changes nothing, else the new length is `pow2gt` of what is needed; after `ensure` the buffer has the room asked for, holds the text it held, and its offset has not moved |
| CJsonBuffer.PrintBuffer.Update | bk7253_sdk_release_3.2/packages/cJSON/cJSON.c:144-150 | `update` moves the offset to the end of the text that was left after it |
| CJsonBuffer.PrintBuffer.PrintString | bk7253_sdk_release_3.2/packages/cJSON/cJSON.c:258-313 | The growing-buffer string printer appends exactly the literal |
| CJsonBuffer.PrintBuffer.PrintArray | bk7253_sdk_release_3.2/packages/cJSON/cJSON.c:453-469 | The growing-buffer array printer appends exactly the text of the array, through any number of growths |
| CJsonBuffer.PrintBuffer.PrintObject | bk7253_sdk_release_3.2/packages/cJSON/cJSON.c:570-597 | The growing-buffer object printer appends exactly the text of the object |
| CJsonBuffer.PrintBuffer.PrintValue | bk7253_sdk_release_3.2/packages/cJSON/cJSON.c:378-409 | The growing-buffer printer leaves the text of the tree, every write inside the buffer |
| CJsonBuffer.PrintBuffered | bk7253_sdk_release_3.2/packages/cJSON/cJSON.c:351-359 | For every printable tree, format and initial size of at least 1, `cJSON_PrintBuffered` gives byte for byte the text the composing printer gives |
| CJsonMinify.MinifyPrinted | bk7253_sdk_release_3.2/packages/cJSON/cJSON.c:741-756 | Minifying a formatted value followed by any text gives its compact form followed by that text minified |
| CJsonMinify.MinifyPrint | bk7253_sdk_release_3.2/packages/cJSON/cJSON.c:348-349 | `cJSON_Minify` of `cJSON_Print` is `cJSON_PrintUnformatted` |
| CJsonMinifyMeaning.MinifyKeepsMeaning | bk7253_sdk_release_3.2/packages/cJSON/cJSON.c:741-756 | Minifying keeps the meaning: a closed text with whole escapes that is accepted to its end, however it was written, parses to the same tree once it is minified |
| CJsonMinifyMeaning.MinifyKeepsStart | bk7253_sdk_release_3.2/packages/cJSON/cJSON.c:741-756 | Without a required end, it is read as the same tree and up to the same place if and only if it does not start with a number that what comes next goes on |
| CJsonMinifyClosed.AcceptedClosedIff | bk7253_sdk_release_3.2/packages/cJSON/cJSON.c:741-756 | A text with whole escapes that is accepted to its end is one `cJSON_Minify` stays inside of if and only if it is not a string without its closing quote |
| CJsonMinifyClosed.UnclosedAccepted | bk7253_sdk_release_3.2/packages/cJSON/cJSON.c:251-252 | The text `"ab` is such a string: it is accepted, and not closed |
| CJsonMinifyMeaning.ValueKept | bk7253_sdk_release_3.2/packages/cJSON/cJSON.c:363-375 | The same for a value inside a text: it is kept if and only if it is not a number that what follows, minified, goes on |
| CJsonMinifyMeaning.LiteralKept | bk7253_sdk_release_3.2/packages/cJSON/cJSON.c:752 | A literal is copied up to the end the parser finds, and is read as the same bytes whatever comes after it then |
| CJsonNumbers.NumberKept | bk7253_sdk_release_3.2/packages/cJSON/cJSON.c:102-121 | A number is read as the same before another text if and only if the text does not go on it: exactly which characters do, by what the number has of a point, an exponent and a sign of it, or a zero alone |
| CJsonMinifyMeaning.SpaceEndsNumber | bk7253_sdk_release_3.2/packages/cJSON/cJSON.c:741-756 | `1 2` is read as 1, and minified as 12; `0 0` is read as 0 either way |
| CJsonMinify.MinifyInPlace | bk7253_sdk_release_3.2/packages/cJSON/cJSON.c:741-756 | In place: the write cursor is never ahead of the read cursor, and the array ends up with the minified text and its terminator |
| CJsonComments.LineGone | bk7253_sdk_release_3.2/packages/cJSON/cJSON.c:750 | A comment from `//` to the end of its line disappears with its newline, whatever follows |
| CJsonComments.BlockGone | bk7253_sdk_release_3.2/packages/cJSON/cJSON.c:751 | A comment between `/*` and `*/` disappears whole, whatever follows and whatever is in it but an end mark, which could start with the star of `/*` |
| CJsonComments.FormLeft | bk7253_sdk_release_3.2/packages/cJSON/cJSON.c:741-756 | Of every spelling of a tree with comments and white space between its tokens, the tokens are left, and nothing else |
| CJsonComments.CommentsGone | bk7253_sdk_release_3.2/packages/cJSON/cJSON.c:741-756 | Such a text is closed, and once it is minified it is accepted to its end and means what it spells |
| EzxmlUtf.MultiByteIsUtf8 | bk7253_sdk_release_3.2/packages/ezXML/ezxml.c:188-191 | `(bits - 2) / 5` is the number of continuation bytes: head and payload are the UTF-8 form of every code point from 0x80 on |
| EzxmlUtf.CharBytesAreUtf8 | bk7253_sdk_release_3.2/packages/ezXML/ezxml.c:186-192 | What a numeric reference writes for a code point is its UTF-8 form |
| EzxmlUtf16.Str2Utf8 | bk7253_sdk_release_3.2/packages/ezXML/ezxml.c:429-458 | Returns nothing without a byte order mark, else the transcoded document; each write fits the buffer as it grows |
| EzxmlUtf16.TranscodeIsUtf8 | bk7253_sdk_release_3.2/packages/ezXML/ezxml.c:439-457 | Any sequence of Unicode scalar values in UTF-16, in either byte order, becomes the same sequence in UTF-8 (section 2 of RFC 2781, section 3 of RFC 3629) |
| EzxmlUtf16.DocumentToUtf8 | bk7253_sdk_release_3.2/packages/ezXML/ezxml.c:429-458 | The same for a document with its byte order mark, through the function itself |
| EzxmlEntities.CheckEntity | bk7253_sdk_release_3.2/packages/ezXML/ezxml.c:275-286 | `ezxml_ent_ok` terminates on an acyclic table and decides whether a value reaches the new name |
| EzxmlEntities.AcceptKeepsRanked | bk7253_sdk_release_3.2/packages/ezXML/ezxml.c:348-361 | An accepted entity keeps the first-match reference graph acyclic, whatever its name |
| EzxmlEntities.AcceptsIffAcyclic | bk7253_sdk_release_3.2/packages/ezXML/ezxml.c:275-286 | For a name not declared before, the check accepts exactly the declarations that keep the graph acyclic (section 4.1 of XML 1.0, No Recursion); the same for a check that follows `%` |
| EzxmlDeclarations.Declare | bk7253_sdk_release_3.2/packages/ezXML/ezxml.c:325-363 | The loop over general and parameter declarations: values are decoded with the parameter entities so far, and both tables hold those before the first circular one, with acyclic graphs |
| EzxmlDeclarations.TakenIffAcyclic | bk7253_sdk_release_3.2/packages/ezXML/ezxml.c:337-363 | With well-formed distinct names, all declarations are taken if and only if the graphs of general references of both whole tables have no cycle |
| EzxmlDeclarations.DeclaredExpandable | bk7253_sdk_release_3.2/packages/ezXML/ezxml.c:348-362 | After the declarations, expansion ends on every text if no value cuts a reference off |
| EzxmlParameters.ParametersEndIff | bk7253_sdk_release_3.2/packages/ezXML/ezxml.c:349-361 | Declared parameter entities with well-formed literals can all be decoded and have no cycle, and expanding references to them ends on every text, if and only if no value mentions its own name (section 4.1 of XML 1.0, No Recursion) |
| EzxmlParameters.NextEndsIff | bk7253_sdk_release_3.2/packages/ezXML/ezxml.c:357-361 | The same for one more parameter entity |
| EzxmlParameters.ExpandSettles | bk7253_sdk_release_3.2/packages/ezXML/ezxml.c:357 | A decoded value mentions no parameter entity declared before it |
| EzxmlParameters.ParameterEntityLoops | bk7253_sdk_release_3.2/packages/ezXML/ezxml.c:349-358 | A parameter entity that mentions itself is accepted, and replacing its reference gives the same reference again |
| EzxmlDecode.ExpandDrops | bk7253_sdk_release_3.2/packages/ezXML/ezxml.c:196-212 | Replacing a reference by an entity's value leaves less work, so the rescanning expansion ends |
| EzxmlDecode.CharRefPasses | bk7253_sdk_release_3.2/packages/ezXML/ezxml.c:181-194 | The end of a reference's number is before its semicolon, and the bytes it stands for are no more than the characters they overwrite |
| EzxmlStraddling.StraddlingLoops | bk7253_sdk_release_3.2/packages/ezXML/ezxml.c:196-212 | In any table with the two names new, two accepted entities whose references are completed only by the text after them, on which expansion comes back to where it was |
| EzxmlStraddling.DefaultNew | bk7253_sdk_release_3.2/packages/ezXML/ezxml.c:843-844 | The table of the five default entities is one |
| EzxmlDecodeInPlace.Normalize | bk7253_sdk_release_3.2/packages/ezXML/ezxml.c:170-175 | No CR is left, the text does not grow, and one without CR is unchanged; what becomes of line ends is EzxmlLines.LinesKept |
| EzxmlDecodeInPlace.NormalizeInPlace | bk7253_sdk_release_3.2/packages/ezXML/ezxml.c:170-175 | The first loop of `ezxml_decode` normalizes line ends in place |
| EzxmlLines.LinesKept | bk7253_sdk_release_3.2/packages/ezXML/ezxml.c:170-175 | Normalizing keeps the list of the lines of a text, which end with CR LF, CR or LF, and ends each but the last with LF (section 2.11 of XML 1.0) |
| EzxmlLines.LineEnds | bk7253_sdk_release_3.2/packages/ezXML/ezxml.c:170-175 | A CR LF, and a CR or LF that is not part of one, becomes LF wherever it stands, and the texts around it are normalized on their own |
| EzxmlLines.AmpersandStays | bk7253_sdk_release_3.2/packages/ezXML/ezxml.c:196-214 | An ampersand before neither `#` nor a declared name stays, and decoding goes on behind it, in text and in attributes |
| EzxmlLines.UnfinishedStays | bk7253_sdk_release_3.2/packages/ezXML/ezxml.c:181-184 | So does one before `#` and decimal digits that no semicolon follows, or that are zero |
| EzxmlLines.CDataStays | bk7253_sdk_release_3.2/packages/ezXML/ezxml.c:181-218 | In a CDATA section nothing is a reference: the text is unchanged |
| EzxmlLines.ParameterReplaced | bk7253_sdk_release_3.2/packages/ezXML/ezxml.c:196-212 | In the value of a declaration a reference to a parameter entity is replaced by the value of the first one of that name, which is decoded in its turn (section 4.4.5 of XML 1.0) |
| EzxmlLines.GeneralStays | bk7253_sdk_release_3.2/packages/ezXML/ezxml.c:196-218 | There a reference to a general entity stays (section 4.4.7 of XML 1.0), and so does `%` before no name |
| EzxmlDecodeInPlace.PutCharRef | bk7253_sdk_release_3.2/packages/ezXML/ezxml.c:186-194 | A character reference is overwritten by its bytes and the rest of the text is moved up to them |
| EzxmlDecodeInPlace.PutEntity | bk7253_sdk_release_3.2/packages/ezXML/ezxml.c:196-212 | An entity reference is replaced by the value, in a buffer made large enough when the value does not fit |
| EzxmlDecodeInPlace.Step | bk7253_sdk_release_3.2/packages/ezXML/ezxml.c:177-216 | Every turn of the main loop keeps what the text becomes, stays inside the buffer and leaves less work |
| EzxmlDecodeInPlace.Decode | bk7253_sdk_release_3.2/packages/ezXML/ezxml.c:165-225 | `ezxml_decode` terminates on every text, for general and parameter entities, with every acyclic table whose values cut no reference off, and returns the expansion of the normalized text; what that is, for each way to write a text, is EzxmlCharData.ValueDecoded |
| EzxmlCharData.ValueDecoded | bk7253_sdk_release_3.2/packages/ezXML/ezxml.c:165-225 | However a text is written, in content or as an attribute, from plain characters, line ends, lone ampersands, references to the five predefined entities and to declared ones with references in their values, and decimal and hexadecimal references, it is decoded to the characters it stands for; white space in attributes becomes a space, also from an entity, but not from a character reference (sections 2.11, 3.3.3, 4.1, 4.4 and 4.6 of XML 1.0) |
| EzxmlCharData.TextDecoded | bk7253_sdk_release_3.2/packages/ezXML/ezxml.c:593-601 | Such a text as character content, which holds no `<` |
| EzxmlCharData.NumberRead | bk7253_sdk_release_3.2/packages/ezXML/ezxml.c:181-182 | The digits of a reference are read as the number they stand for in their base |
| EzxmlEscape.Output.AmpEncode | bk7253_sdk_release_3.2/packages/ezXML/ezxml.c:674-695 | Appends the escaped text up to the length or the terminator; each write fits the buffer as it grows |
| EzxmlEscape.EscapedQuiet | bk7253_sdk_release_3.2/packages/ezXML/ezxml.c:682-692 | Escaped text has no `<`, `>` or CR, and in an attribute no `"`, tab or LF |
| EzxmlEscape.ReferenceDecoded | bk7253_sdk_release_3.2/packages/ezXML/ezxml.c:181-194 | A character reference in decimal or hexadecimal digits, of either case and with any leading zeros, to any Unicode scalar value but 0 is decoded to its UTF-8 form (section 4.1 of XML 1.0) |
| EzxmlEscape.DecodeEscaped | bk7253_sdk_release_3.2/packages/ezXML/ezxml.c:165-225 | With the default entities first in the table, decoding an escaped text in text mode gives the text back (sections 2.11, 4.1 and 4.6 of XML 1.0) |
| EzxmlEscape.DecodeEscapedAttribute | bk7253_sdk_release_3.2/packages/ezXML/ezxml.c:677-692 | In attribute mode only vertical tab and form feed are lost, to a space: the attribute comes back if and only if it has neither (section 3.3.3 of XML 1.0) |
| EzxmlEscape.DefaultExpandable | bk7253_sdk_release_3.2/packages/ezXML/ezxml.c:843-844 | The default entity table is one on which expansion ends |
| EzxmlEscape.DecodeText | bk7253_sdk_release_3.2/packages/ezXML/ezxml.c:674-695 | Escaping and decoding one after the other, through the functions themselves, is the identity |
| EzxmlSerializer.ToXmlR | bk7253_sdk_release_3.2/packages/ezXML/ezxml.c:700-748 | Appends a tag and those after it with the parent's text put back around them at their offsets; each write fits the buffer |
| EzxmlSerializer.PutTag | bk7253_sdk_release_3.2/packages/ezXML/ezxml.c:711-741 | Appends the open tag, the content and the close tag |
| EzxmlSerializer.ToXmlText | bk7253_sdk_release_3.2/packages/ezXML/ezxml.c:752-788 | `ezxml_toxml` of a tree without attributes and processing instructions |
| EzxmlParser.Opened | bk7253_sdk_release_3.2/packages/ezXML/ezxml.c:228-237 | `ezxml_open_tag`: the first tag names the root, any other becomes the last subtag of the current one and then the current one |
| EzxmlParser.Root.OpenTag | bk7253_sdk_release_3.2/packages/ezXML/ezxml.c:228-237 | The tree and the insertion point after it |
| EzxmlParser.Root.CharContent | bk7253_sdk_release_3.2/packages/ezXML/ezxml.c:240-261 | The decoded text is appended to the current tag's text, and to nothing else |
| EzxmlParser.Root.CloseTag | bk7253_sdk_release_3.2/packages/ezXML/ezxml.c:264-271 | Fails on another name; otherwise the insertion point goes to the parent |
| EzxmlParser.Root.Markup | bk7253_sdk_release_3.2/packages/ezXML/ezxml.c:498-591 | One piece of markup, with its errors, up to its end |
| EzxmlParser.Root.ParseStr | bk7253_sdk_release_3.2/packages/ezXML/ezxml.c:477-607 | `ezxml_parse_str` on documents of tags and text, UTF-16 documents converted first, returns the tree or the error the scan says |
| EzxmlParser.Utf16Parsed | bk7253_sdk_release_3.2/packages/ezXML/ezxml.c:486 | A document in UTF-16, in either byte order, is parsed as the same code points in UTF-8 are |
| EzxmlRoundTrip.OpenedPlace | bk7253_sdk_release_3.2/packages/ezXML/ezxml.c:228-237 | The opened tag names the root, or is the last subtag of the current one at the end of its text, and nothing else changes |
| EzxmlRoundTrip.TextStep | bk7253_sdk_release_3.2/packages/ezXML/ezxml.c:593-601 | Escaped text between two tags reaches the current tag as it was before it was escaped |
| EzxmlRoundTrip.ElementStep | bk7253_sdk_release_3.2/packages/ezXML/ezxml.c:700-741 | The serialization of a tag, scanned inside any document, adds the same tag to the current one and nothing else |
| EzxmlRoundTrip.TagsStep | bk7253_sdk_release_3.2/packages/ezXML/ezxml.c:700-748 | The tags of a parent with the text around them rebuild the parent's text, its subtags in order and their offsets, so each byte of text is emitted once |
| EzxmlRoundTrip.ParseToXml | bk7253_sdk_release_3.2/packages/ezXML/ezxml.c:477-788 | For every tree with offsets in order and within their texts, parsing its serialization gives the tree back |
| EzxmlRoundTrip.Reparse | bk7253_sdk_release_3.2/packages/ezXML/ezxml.c:752-788 | The same through `ezxml_toxml` and `ezxml_parse_str` themselves |
| EzxmlDocuments.MarkupStep | bk7253_sdk_release_3.2/packages/ezXML/ezxml.c:498-566 | A tag, as `<n/>` or as `<n>` and `</n>` with a content, with white space behind its names, scanned inside any document, adds the tree it stands for where its opening tag puts it |
| EzxmlDocuments.BodyStep | bk7253_sdk_release_3.2/packages/ezXML/ezxml.c:494-602 | A content of text and subtags adds to the current tag its text, its subtags in order, and their offsets in the text |
| EzxmlErrors.DocumentRead | bk7253_sdk_release_3.2/packages/ezXML/ezxml.c:477-607 | Every way to write a tree, with any text before and behind the root, is parsed to the tree: self-closing and empty tags, white space in tags, and text written in any way |
| EzxmlErrors.TextRead | bk7253_sdk_release_3.2/packages/ezXML/ezxml.c:477-607 | The same once a document is converted from UTF-16 |
| EzxmlErrors.BrokenRefused | bk7253_sdk_release_3.2/packages/ezXML/ezxml.c:264-271 | A document in which, at any depth and behind complete text and subtags, a closing tag has another name, whatever follows it, or a tag is not closed at the end, is refused |
| EzxmlErrors.NoRootRefused | bk7253_sdk_release_3.2/packages/ezXML/ezxml.c:491-492 | So is one without a tag |
| EzxmlErrors.SecondRootRefused | bk7253_sdk_release_3.2/packages/ezXML/ezxml.c:498-500 | So is one with an opening or a closing tag behind the root |
| EzxmlErrors.ClosedIff | bk7253_sdk_release_3.2/packages/ezXML/ezxml.c:560-566 | Whatever follows the root's name in its closing tag, the document is accepted if and only if that starts with `>`, or with white space that is not the last character: a `>` behind the white space is not asked for |
| EzxmlParsed.ParseWellFormed | bk7253_sdk_release_3.2/packages/ezXML/ezxml.c:477-607 | Every tree the parser returns has its subtags in order at offsets within their parents' texts |
| EzxmlParsed.SurvivesIff | bk7253_sdk_release_3.2/packages/ezXML/ezxml.c:700-748 | A tree survives serializing and parsing if and only if its offsets are in order and in range and its names can be scanned |
| EzxmlParsed.ParseStable | bk7253_sdk_release_3.2/packages/ezXML/ezxml.c:752-788 | Serializing what was parsed gives a document that parses to the same tree |
| EzxmlIndex.Xml.Insert | bk7253_sdk_release_3.2/packages/ezXML/ezxml.c:856-895 | At any offset the subtag goes behind those with offsets not after its own; `ordered` stays the document order, every `next` chain the subtags of one name in it, and `sibling` leads from the first subtag past the first one of every name |
| EzxmlIndex.SeenAfterSees | bk7253_sdk_release_3.2/packages/ezXML/ezxml.c:879-893 | Taking the old first one of a name off the `sibling` list and putting the new one on it keeps the first one of every name on it, whatever is on it besides |
| EzxmlIndex.OnlyFirstsIff | bk7253_sdk_release_3.2/packages/ezXML/ezxml.c:879-893 | The `sibling` list keeps to one subtag for each name if and only if the new subtag does not go before a first subtag of its own name |
| EzxmlIndex.Xml.AddChild | bk7253_sdk_release_3.2/packages/ezXML/ezxml.c:899-911 | The same insertion for a new tag without subtags |
| EzxmlIndex.Xml.Child | bk7253_sdk_release_3.2/packages/ezXML/ezxml.c:67-72 | Finds the first child with the name in document order, or none |
| EzxmlIndex.Idx | bk7253_sdk_release_3.2/packages/ezXML/ezxml.c:76-80 | Goes k steps along the list of one name, to its end for a negative k |
| EzxmlIndex.ChildIdx | bk7253_sdk_release_3.2/packages/ezXML/ezxml.c:67-80 | `ezxml_idx(ezxml_child(p, name), k)` is the child of that name with k of the name before it in document order, and nothing if there are not that many |
| EzxmlIndex.Lookup | bk7253_sdk_release_3.2/packages/ezXML/ezxml.c:67-80 | The same through the two functions, after any insertions |
| AudioQueue.ReadIsPrefix | bk7253_sdk_release_3.2/drivers/audio/drv_audio_icodec.c:173-252 | A read of n bytes gives the first min(n, available) bytes whatever the node boundaries, leaves the rest, completes buffers in order, and empties the queue if it gives less |
| AudioQueue.NodeList.Write | bk7253_sdk_release_3.2/drivers/audio/drv_audio_icodec.c:140-171 | Accepts the buffer at the end of the queue, or refuses it when the ring is full |
| AudioQueue.NodeList.Read | bk7253_sdk_release_3.2/drivers/audio/drv_audio_icodec.c:173-252 | Does such a read into the target; accepted buffers stay the completed ones, once each and in order, followed by the queued ones |
| AudioQueue.NodeList.IsEmpty | bk7253_sdk_release_3.2/drivers/audio/drv_audio_icodec.c:112-132 | Tells whether no buffer is queued |
| AudioQueue.NodeList.Empty | bk7253_sdk_release_3.2/drivers/audio/drv_audio_icodec.c:254-266 | Terminates, with every accepted buffer completed |
| AudioStaging.EnqueueInv | bk7253_sdk_release_3.2/drivers/audio/drv_audio_icodec.c:393-401 | The first step of a write keeps the stream: played, playing, ready and queued bytes are two halves of zeros and the accepted bytes |
| AudioStaging.TopUpInv | bk7253_sdk_release_3.2/drivers/audio/drv_audio_icodec.c:403-418 | Filling the gap while paused keeps the stream, and clears the pause only when the gap is full |
| AudioStaging.InterruptInv | bk7253_sdk_release_3.2/drivers/audio/drv_audio_icodec.c:546-622 | A DMA interrupt keeps the stream, and pauses the DMA at the end of the half that is playing if the other half is short |
| AudioStaging.PlayedHalves | bk7253_sdk_release_3.2/drivers/audio/drv_audio_icodec.c:393-622 | In every run of write steps and interrupts, the halves played are two of zeros and then consecutive 1024-byte pieces of the accepted buffers; padding is never played |
| AudioStaging.PausedWhenDry | bk7253_sdk_release_3.2/drivers/audio/drv_audio_icodec.c:403-418 | In every run, the DMA is held back exactly while paused; between writes the queue is then empty, the gap reaches the end of its half and is not empty, and nothing accepted is lost |
| AudioStaging.CompletedInOrder | bk7253_sdk_release_3.2/drivers/audio/drv_audio_icodec.c:533-543 | In every run, the completed buffers are the first of the accepted ones |
| AudioCodec.Codec.WriteNode | bk7253_sdk_release_3.2/drivers/audio/drv_audio_icodec.c:393-401 | The write call's first step on the fifo in memory is the step of the machine |
| AudioCodec.Codec.FillGap | bk7253_sdk_release_3.2/drivers/audio/drv_audio_icodec.c:403-418 | So is its second |
| AudioCodec.Codec.Interrupt | bk7253_sdk_release_3.2/drivers/audio/drv_audio_icodec.c:546-622 | So is a half or finish interrupt |
| AudioCodec.Codec.Write | bk7253_sdk_release_3.2/drivers/audio/drv_audio_icodec.c:393-421 | A write without an interrupt in it is both steps, with the stream kept |
| Optparse.ArgTypeOf | bk7253_sdk_release_3.2/packages/optparse/optparse.c:59-70 | The type of a letter: none, required or optional by the colons after its first occurrence, undeclared otherwise |
| Optparse.Options.Permute | bk7253_sdk_release_3.2/packages/optparse/optparse.c:50-57 | The argument at the index goes behind those before optind, which move down by one |
| Optparse.Options.Optparse | bk7253_sdk_release_3.2/packages/optparse/optparse.c:148-234 | One call, with its recursion over non-options: what it returns, and the arguments rearranged so that what it consumed comes before what it skipped |
| OptparseRun.CallStep | bk7253_sdk_release_3.2/packages/optparse/optparse.c:148-234 | A call does the first step of the arrangement of all remaining arguments, whatever it skips |
| OptparseRun.ParseAll | bk7253_sdk_release_3.2/packages/optparse/optparse.c:148-234 | Calling until -1 terminates: options with their arguments come first in order, then a "--", then the others in order; optind is just past the options, and every option is found; for all arguments on which the run goes straight |
| OptparseRun.ArrangeKeeps | bk7253_sdk_release_3.2/packages/optparse/optparse.c:50-57 | The arguments are permuted: none is lost or doubled |
| OptparseRun.StraightIffClean | bk7253_sdk_release_3.2/packages/optparse/optparse.c:148-234 | Every call of a run starts the options it comes to at their first letters if and only if no undeclared letter past the first one of its group has a short option behind it, before a "--" or the end |
| OptparseRun.UndeclaredInGroup | bk7253_sdk_release_3.2/packages/optparse/optparse.c:187-195 | An undeclared letter after the first of a group leaves the place in the group as it was, and the next option is read from there |
| OptparseWords.LineParsed | bk7253_sdk_release_3.2/packages/optparse/optparse.c:148-234 | A command line of groups of options with their arguments, letters that are no option, a last option without the argument it requires, operands and a `--` is parsed to exactly those options and arguments, and to one `?` with the letter as `optopt` and no argument for each wrong one; the words of the options come first in order, the operands are left in order |
| OptparseWords.ParseLine | bk7253_sdk_release_3.2/packages/optparse/optparse.c:138-234 | The same for an argument vector in memory |
| OptparseInOrder.FrontParsed | bk7253_sdk_release_3.2/packages/optparse/optparse.c:156-179 | With permute off, the options before the first operand, `--` or the end are found, with a `?` for each wrong one, and no others; `optind` stops at the operand, or behind the `--` |
| OptparseInOrder.FrontStep | bk7253_sdk_release_3.2/packages/optparse/optparse.c:148-234 | With permute off, a call reads the first letter or ends the run, and skips nothing |
| OptparseInOrder.ParseInOrder | bk7253_sdk_release_3.2/packages/optparse/optparse.c:148-234 | Calling until -1 with permute off terminates, and moves no argument |
| OptparseInOrder.ParseFront | bk7253_sdk_release_3.2/packages/optparse/optparse.c:138-234 | The options before the first operand, for an argument vector in memory, which is unchanged |
| OptparseLong.TypeFromLong | bk7253_sdk_release_3.2/packages/optparse/optparse.c:59-93 | Every short option has its declared type in the option string that `optparse_from_long` makes, and no other letter is declared |
| OptparseLong.FillOptstring | bk7253_sdk_release_3.2/packages/optparse/optparse.c:77-93 | `optparse_from_long` writes that option string and its terminator into the caller's buffer, every write inside |
| OptparseLong.FitsOptstring | bk7253_sdk_release_3.2/packages/optparse/optparse.c:121 | The caller's 289 bytes are enough for 96 short options |
| SoundDelay.VolumeBound | bk7253_sdk_release_3.2/function/sound_delay.c:324-328 | The product with the microphone volume stays within 32 bits for all samples if and only if the volume is at most 32768 |
| SoundDelay.EchoRecurs | bk7253_sdk_release_3.2/function/sound_delay.c:313-321 | The echo satisfies its recurrence: e(t) is the 16-bit number nearest to (e(t - N) >> 1) + right(t), with zero history |
| SoundDelay.ImpulseEcho | bk7253_sdk_release_3.2/function/sound_delay.c:313-340 | The echo of an impulse of size x is x, then x / 2 after N samples, x / 4 after 2 N and so on, rounded down, and silence in between |
| SoundDelay.DiesIff | bk7253_sdk_release_3.2/function/sound_delay.c:313-340 | After fifteen rounds it is gone if and only if x was not negative; else it stays at -1 |
| SoundDelay.Mix | bk7253_sdk_release_3.2/function/sound_delay.c:324-328 | The output is the 16-bit number nearest to ((delayed + left) * volume) >> 4 |
| SoundDelay.EchoUnique | bk7253_sdk_release_3.2/function/sound_delay.c:308-340 | The recurrence determines the echo, up to any time by the samples up to then |
| SoundDelay.PlaySplit | bk7253_sdk_release_3.2/function/sound_delay.c:299-342 | Splitting frames over calls in any way gives the same output |
| SoundDelayLine.Mixer.Config | bk7253_sdk_release_3.2/function/sound_delay.c:225-266 | The ring has its slots for the sample rate, and the mixer is stopped |
| SoundDelayLine.Mixer.StartPlay | bk7253_sdk_release_3.2/function/sound_delay.c:272-280 | The ring is all zero and the history empty |
| SoundDelayLine.Mixer.Tick | bk7253_sdk_release_3.2/function/sound_delay.c:333-340 | A new echo sample replaces the oldest: the op index stays within the ring, and the ring holds the last N samples |
| SoundDelayLine.Mixer.SinglePlaying | bk7253_sdk_release_3.2/function/sound_delay.c:299-342 | Both samples of every frame become sat(((e(t - N) + left(t)) * vol) >> 4), and the history grows by the right samples; no 32-bit overflow |
| SoundDelayLine.Mixer.MultiPlaying | bk7253_sdk_release_3.2/function/sound_delay.c:344-394 | The same echo is added over the music at its volume; music after the frames is left alone |
| SoundDelayLine.Over | bk7253_sdk_release_3.2/function/sound_delay.c:374-380 | The sum is the 16-bit number nearest to (music * volume >> 4) + echo |
| DoublyList.AddTail | bk7253_sdk_release_3.2/beken378/common/doubly_list.h:38-71 | The circular list has the new node at its end, linked both ways |
| DoublyList.Delete | bk7253_sdk_release_3.2/beken378/common/doubly_list.h:79-94 | The circular list is the same without the node |
| MusicSource.TakenIsPrefix | bk7253_sdk_release_3.2/function/mixer.c:738-795 | The list is a FIFO of bytes: min(n, available) bytes are taken from its front, and blocks leave it once each and in order |
| Mixer.Mixer.MusicSrcIn | bk7253_sdk_release_3.2/function/mixer.c:582-615 | A block joins the end of the list, or goes back to its pool if it is empty or the mixer does not mix |
| Mixer.Mixer.MusicSrcOut | bk7253_sdk_release_3.2/function/mixer.c:702-717 | The node leaves the list and its block goes back to its pool |
| Mixer.Mixer.MusicSrcGetData | bk7253_sdk_release_3.2/function/mixer.c:738-795 | Returns the first min(n, length) bytes, leaves the rest, and releases each block it uses up exactly once |
| Mixer.Mixer.MusicSrcGetDataLen | bk7253_sdk_release_3.2/function/mixer.c:798-816 | The number of unread bytes in the list |
| Mixer.Mixer.MusicSrcFlush | bk7253_sdk_release_3.2/function/mixer.c:719-736 | The list is empty and every queued block is back in its pool, once |
| Mixer.Mixer.DacWriteDone | bk7253_sdk_release_3.2/function/mixer.c:482-493 | A played block goes from the DAC to the pool |
| Mixer.Mixer.SingleAcoustics | bk7253_sdk_release_3.2/function/mixer.c:1076-1129 | Free blocks and those the DAC holds stay all the blocks: one goes to the DAC when it takes it, none is lost otherwise |
| Mixer.Mixer.MuxAcoustics | bk7253_sdk_release_3.2/function/mixer.c:993-1073 | The same with two blocks; the music mixed in is as long as the microphone gave and is what leaves the list |
| MixerPadding.DoublePadding | bk7253_sdk_release_3.2/function/mixer.c:835-852 | The loop in memory |
| MixerPadding.PadHalf | bk7253_sdk_release_3.2/function/mixer.c:835-852 | As the mixer calls it: out[2i] = out[2i + 1] = the original source[i] |
| MixerPadding.DoublesIff | bk7253_sdk_release_3.2/function/mixer.c:845-849 | The overlapping expansion doubles every sample of every block if and only if the source is at most one sample longer than its distance |
| Kfifo.Fifo.Put | bk7253_sdk_release_3.2/beken378/common/fifo.h:100-121 | Appends the first min(len, free) bytes, across the end of the ring and the wrap of the counter |
| Kfifo.Fifo.Get | bk7253_sdk_release_3.2/beken378/common/fifo.h:134-154 | Removes and returns the first min(len, held) bytes, and changes nothing after them in the target |
| Kfifo.Fifo.OutPeek | bk7253_sdk_release_3.2/beken378/common/fifo.h:184-196 | Returns what the next get of the same length would, and removes nothing |
| Kfifo.Fifo.DataSize | bk7253_sdk_release_3.2/beken378/common/fifo.h:156-159 | The number of bytes held |
| Kfifo.Fifo.Unused | bk7253_sdk_release_3.2/beken378/common/fifo.h:161-164 | The free bytes: with those held they are the size |
| Kfifo.WrapPlace | bk7253_sdk_release_3.2/beken378/common/fifo.h:110 | A wrapped counter and its sum point to the same place of the ring, as the size divides 2^32 |
| Kfifo.CountUp | bk7253_sdk_release_3.2/beken378/common/fifo.h:117 | Counting goes on when a counter wraps |
| Kfifo.MaskIsRemainder | bk7253_sdk_release_3.2/beken378/common/fifo.h:110 | Masking with size - 1 is the remainder by the size, for each of the 32 sizes |
| LfsCrc.NibbleIsSerial | bk7253_sdk_release_3.2/packages/littlefs/lfs_crc.c:6-11 | Each of the 16 table entries is what four shifts of the bit-serial register make of its nibble |
| LfsCrc.CrcIsSerial | bk7253_sdk_release_3.2/packages/littlefs/lfs_crc.c:4-20 | For any buffer and seed the table CRC is the bit-serial CRC-32, low-order bits first, without inversion |
| LfsCrc.Crc | bk7253_sdk_release_3.2/packages/littlefs/lfs_crc.c:4-20 | `lfs_crc` returns it |
| LfsCrc.CrcIsMirror | bk7253_sdk_release_3.2/packages/littlefs/lfs_crc.c:4-20 | It is the mirror image of the register with the polynomial as printed in section 8.1.1.6.2 of ITU-T V.42 |
| LfsCrc.CrcConcat | bk7253_sdk_release_3.2/packages/littlefs/lfs_crc.c:13-17 | The CRC of a concatenation is that of the second part seeded with that of the first |
| LfsCrc.BurstFound | bk7253_sdk_release_3.2/packages/littlefs/lfs_crc.c:4-20 | A change within any 32 consecutive bits of a message changes its CRC |

## Left out

- CJsonParser.Item.ParseString: where the code leaves the text or its buffer, which it does not notice, the model stops; what the code goes on to do is not modelled.
- CJsonParser.Item.ParseNumber: numbers are exact reals with exact powers of ten, where the code rounds; their conversion to int is unbounded.
- CJsonNumbers.ParsePrintedNumber: infinities and NaN are not modelled, and a double's own rounding when it is read back is not.
- CJsonLiterals.ParseInside: the condition is enough and not necessary, as both passes may meet again behind an escape that is cut short.
- cJSON allocation failure, the create, duplicate, detach and delete functions, and case-insensitive lookup.
- CJsonBuffer.PrintBuffered: for texts of at most 2^30 - 64 bytes, as `pow2gt` and `int` sizes overflow above, also where the first buffer is large enough.
- CJsonPrinter.PrintValue: sizes are unbounded; a text of 2^31 bytes or more would overflow the code's `int`.
- CJsonMinify.MinifyInPlace: for texts whose literals and comments are closed; on others the code reads past the terminator. Printed texts are closed, and which accepted ones are is CJsonMinifyClosed.AcceptedClosedIff.
- ezXML attributes, default attributes (ATTLIST), processing instructions, comments, CDATA sections and the DOCTYPE in the scan of a document: the scan ends there with an outcome of its own. Tag trees have no attributes.
- ezXML file and memory-map reading, error texts, the argument lists of `ezxml_get`, `ezxml_cut`, `ezxml_set_attr` and freeing.
- EzxmlDecodeInPlace.Decode: not the '*' mode, which reads past the terminator.
- EzxmlDeclarations.Declare: declarations are given as names and literals; finding them in the internal subset, with its other markup and external entities, is not modelled. Where decoding a literal would not end, neither does the code.
- EzxmlParameters.ParametersEndIff: literals with character references to `%` or `&`, or with references cut off, are not covered; for them EzxmlEntities.AcceptsIffAcyclic says when one more entity makes a cycle.
- EzxmlDecodeInPlace.NormalizeInPlace: a text that ends in CR makes the code step past the terminator; the model stops there.
- EzxmlDecodeInPlace.PutCharRef: a reference to a negative multiple of 256 writes a NUL; a later reallocation in the code then copies the text before it only, the model copies all.
- EzxmlDecode.ExpandDrops: that no value cuts a reference off is enough for expansion to end; tables on which it ends without that are not characterized.
- EzxmlParser.Root.ParseStr: on a byte order mark with nothing behind it the code reads before its buffer; the model reports an error.
- EzxmlParser.Root.CharContent: texts are values, so which of them share the document's buffer is not modelled.
- Audio: opening, closing, resetting, volume, and the registers of the DAC and the DMA controller; `drivers/drv_i2s.c`, which repeats the same machine.
- OptparseRun.ParseAll: for arguments on which the run goes straight, by OptparseRun.StraightIffClean; on others the code may read past the end of a word. Error texts and long option names are not modelled.
- SoundDelayLine.Mixer.SinglePlaying: for whole frames of at most 32766 samples and volumes up to 32768; beyond, the code's 16-bit counter or 32-bit product overflows.
- Mixer.Mixer.MuxAcoustics: the microphone's samples and the mixed samples are not carried along; what mixing computes is SoundDelayLine.Mixer.MultiPlaying. The undefined status returned when there is no music is not modelled.
- Mixer.Mixer.MusicSrcGetData: a null target, for which the code returns 0, is not modelled.
- The mixer's messages, semaphores and mutexes, its muting of the first buffers, and the strategy that is not compiled in.
- Kfifo: locking, and the allocation of the ring.
