# Verified models of a drone's onboard software

The repository flies a drone that looks for objects, drops a load on them and lands.  These Dafny modules model
the parts of it with the most state and branching and prove what they are for.

**The JSON library of the lidar driver** (`livox_ros_driver2/3rdparty/rapidjson`).

- `Bytes`, `Unicode`, `Transcoding`: UTF-8 and UTF-16 codecs, exact against RFC 3629 and RFC 2781.
- `Events`, `Lexing`, `Descent`: the handler's events, the tokens, and recursive descent as a function of the text,
  the configuration and an arbitrary handler.
- `Automaton`: the table-driven pushdown automaton, proved equal to recursive descent by reading its stack as the
  calls still open.
- `Reader`: the reader object, with both ways of parsing, proved against that specification.
- `Numbers`, `Decimals`: integer literals, accumulators and exponents, and the decimal number a literal stands for.
- `Layouts`, `NumberLiterals`, `StringLiterals`, `Grammar`: the grammar of RFC 8259 as syntax trees, stated without the
  reader; both readers accept exactly its texts and send the events of their trees.
- `Dom`, `JsonText`, `Writer`, `RoundTrip`, `PrintParse`: values, the document that builds them, compact and pretty
  printing, and the round trip through text.
- `Schemas`, `Validation`, `SchemaValidator`, `Drafts`: compiled schemas, the streaming validator as a function and as
  an object, and what schemas mean as written.
- `Equality`, `HashCodes`, `Hasher`: equality of values, the hash codes that stand in for it, what they tell apart, and
  the handler that makes them.
- `PointerText`, `PointerGrammar`, `PointerParser`: JSON pointers as text, their syntax, and their parser over its buffers.
- `PointerDom`, `PointerFrames`: what pointers do to a value, and what they leave alone.
- `Allocators`, `Pools`: the pool allocator and a client of it over any run of requests.

**The lidar driver itself** (`livox_ros_driver2/src`).

- `Powers`, `Rings`, `LidarQueue`: the packet ring with wrapping 32-bit indices.
- `Pipeline`, `Stalls`: the storing and the draining thread as a state machine of single reads and writes of shared
  memory, and when a packet can be left waiting.
- `SortedKeys`, `Points`: the handler that collects points per lidar and publishes frames.

**Flight** (`controller`, `servo_server`, `yolo_server`).

- `Missions`, `Setpoints`, `Drops`, `Flights`, `Controller`: the flight controller as a function of events, the heights
  it commands and the times it takes, where it releases something, which states can be reached, and the controller object.
- `Overlaps`, `Suppression`: overlap of boxes and non-maximum suppression.

`Sequences` holds facts about concatenation.  Objects that the source updates in place are classes whose methods are
proved against functions; the theorems are about those functions, and carry over to the objects by the contracts of
methods such as `IterativeParse`, `PrintAndReparse`, `Accepts`, `Flight` and `Run`.

## Model

| member | source | states |
|---|---|---|
| `Unicode.DecodeExact` | livox_ros_driver2/3rdparty/rapidjson/encodings.h:148-211 | Decoding succeeds exactly on the RFC 3629 characters, takes that many bytes and yields the code point they spell |
| `Unicode.DecodeEncode` | livox_ros_driver2/3rdparty/rapidjson/encodings.h:108-126 | Decoding what was encoded gives the code point back and takes exactly its bytes, whatever follows |
| `Unicode.EncodeDecode` | livox_ros_driver2/3rdparty/rapidjson/encodings.h:148-211 | A successful decode yields a Unicode scalar value whose encoding is the bytes taken |
| `Unicode.DecodeAllExact` | livox_ros_driver2/3rdparty/rapidjson/encodings.h:148-211 | A string decodes to a list of scalars if and only if the list encodes to the string |
| `Unicode.DecodeAllAccepts` | livox_ros_driver2/3rdparty/rapidjson/encodings.h:148-211 | A string is accepted if and only if it is a run of RFC 3629 characters |
| `Transcoding.TranscodeInverse` | livox_ros_driver2/3rdparty/rapidjson/encodings.h:750-778 | UTF-8 to UTF-16 and back are inverse partial functions: one yields u from s exactly when the other yields s from u |
| `Transcoding.To16Accepts` | livox_ros_driver2/3rdparty/rapidjson/encodings.h:754-760 | Transcoding to UTF-16 accepts exactly the strings UTF-8 decoding accepts |
| `Transcoding.SurrogatesCarry` | livox_ros_driver2/3rdparty/rapidjson/encodings.h:355-368 | A supplementary code point becomes a lead and a trail surrogate exactly if they carry its upper and lower ten bits, RFC 2781 |
| `Numbers.IntegerLiteralExact` | livox_ros_driver2/3rdparty/rapidjson/reader.h:1584-1863 | An integer literal is read exactly, as the narrowest of Int, Uint, Int64, Uint64 the reader uses; beyond 64 bits as a Double, or refused when out of range |
| `Numbers.AccumulateExact` | livox_ros_driver2/3rdparty/rapidjson/reader.h:1609-1701 | An accumulator takes all digits and holds their value, or stops within its width before the digit that would exceed it, exactly when the number exceeds it |
| `Numbers.AccumulatorsNeverWrap` | livox_ros_driver2/3rdparty/rapidjson/reader.h:1601-1733 | On any input, every value that the 32-bit accumulator, the 64-bit accumulator and the 64-bit significand ever hold fits its type |
| `Numbers.ExponentSafeExactly` | livox_ros_driver2/3rdparty/rapidjson/reader.h:1754-1801 | No number whose fraction counts k digits makes int exp overflow if and only if k is at most 214748055 |
| `Numbers.ManyZerosOverflow` | livox_ros_driver2/3rdparty/rapidjson/reader.h:1790-1796 | 0., then k zeros, then e2147483648 overflows int exp for every k above 214748055 |
| `Numbers.NegativeExponentSafe` | livox_ros_driver2/3rdparty/rapidjson/reader.h:1766-1788 | A negative exponent stays within int, and so does its sum with the power of ten of the fraction |
| `Decimals.IntegerAmount` | livox_ros_driver2/3rdparty/rapidjson/reader.h:1703-1708 | An integer literal of any length stands for its value, also where it becomes a double |
| `Decimals.FractionAmount` | livox_ros_driver2/3rdparty/rapidjson/reader.h:1710-1750 | Digits before and after the point form one number, scaled down by the digits after it |
| `NumberLiterals.LiteralAmount` | livox_ros_driver2/3rdparty/rapidjson/reader.h:1710-1830 | Any literal of the standard, with sign, fraction and exponent of either sign and case, stands for its digits over the power of ten of the fraction, times or over the power of ten of the exponent |
| `NumberLiterals.LiteralReads` | livox_ros_driver2/3rdparty/rapidjson/reader.h:1584-1863 | A literal of the standard followed by nothing that goes on with it is read whole, as the narrowest integer kind or a Double, exactly when its exponent is not too big and, unless a 64-bit integer, it is in range |
| `NumberLiterals.NumberExactly` | livox_ros_driver2/3rdparty/rapidjson/reader.h:1584-1863 | Reading a number succeeds with an event exactly when a literal of the standard that holds stands there and spells that event |
| `NumberLiterals.ZeroTooBig` | livox_ros_driver2/3rdparty/rapidjson/reader.h:1789-1796 | A zero with an exponent above 308 is refused as too big, though it stands for 0 |
| `NumberLiterals.ShiftCountsAll` | livox_ros_driver2/3rdparty/rapidjson/reader.h:1712-1750 | Every fraction digit counts for the power of ten while the digits make a number below 2^53 |
| `StringLiterals.HexDigitExact` | livox_ros_driver2/3rdparty/rapidjson/reader.h:967-987 | A character is read as digit d exactly if it is the d-th of 0123456789ABCDEF or of 0123456789abcdef |
| `StringLiterals.UnescapeExact` | livox_ros_driver2/3rdparty/rapidjson/reader.h:1062-1070 | A letter after a backslash stands for a character exactly as the eight short escapes of RFC 8259 section 7 say, the solidus among them |
| `StringLiterals.SpelledReads` | livox_ros_driver2/3rdparty/rapidjson/reader.h:967-987 | Four hexadecimal digits in any mix of cases that spell a number are read as it |
| `StringLiterals.StringExactly` | livox_ros_driver2/3rdparty/rapidjson/reader.h:1058-1131 | Reading a string succeeds with some bytes exactly when characters, short escapes, Unicode escapes and surrogate pairs that spell those bytes stand there up to a quote |
| `StringLiterals.ValidatedExactly` | livox_ros_driver2/3rdparty/rapidjson/reader.h:1122-1128 | A validating reader puts well-formed UTF-8 exactly when no trail surrogate is escaped alone |
| `StringLiterals.LoneTrailSlipsThrough` | livox_ros_driver2/3rdparty/rapidjson/reader.h:1090-1106 | The escape of a trail surrogate alone is read by a validating reader into bytes that are no UTF-8 |
| `Layouts.SkipExactly` | livox_ros_driver2/3rdparty/rapidjson/reader.h:770-794 | Skipping succeeds exactly before white space and, if allowed, comments, each block comment ending at its first closing and each line comment with its line, and stops before the next token |
| `Grammar.NodeReads` | livox_ros_driver2/3rdparty/rapidjson/reader.h:1872-1897 | The text of any syntax tree of a value is read whole, sending the events of the tree, if the handler accepts them |
| `Grammar.NodeOf` | livox_ros_driver2/3rdparty/rapidjson/reader.h:1872-1897 | Whatever is read as a value is the text of a syntax tree whose events were sent |
| `Grammar.ReadersAcceptGrammar` | livox_ros_driver2/3rdparty/rapidjson/reader.h:615-646 | Both readers accept exactly the texts of the RFC 8259 grammar, with comments and trailing commas where allowed, and send the events of their syntax trees, for all parse flags and handlers |
| `Automaton.IterativeIsRecursive` | livox_ros_driver2/3rdparty/rapidjson/reader.h:2401-2433 | The table-driven automaton and recursive descent agree on every text, configuration and handler: same verdict, same events in the same order, same input left |
| `Automaton.StepResumes` | livox_ros_driver2/3rdparty/rapidjson/reader.h:2192-2350 | One transition never changes the outcome that recursive descent would reach from the calls the stack stands for |
| `Automaton.RunResumes` | livox_ros_driver2/3rdparty/rapidjson/reader.h:2401-2433 | From any well-formed stack the loop ends as the open recursive calls would |
| `Reader.Reader.Parse` | livox_ros_driver2/3rdparty/rapidjson/reader.h:615-646 | The recursive reader, moving a stream and sending events, ends as the specification of the grammar says, on success and on failure |
| `Reader.Reader.IterativeParse` | livox_ros_driver2/3rdparty/rapidjson/reader.h:2401-2433 | The iterative reader, with its explicit stack, meets the same specification as the recursive one |
| `Reader.Reader.ParseObject` | livox_ros_driver2/3rdparty/rapidjson/reader.h:798-865 | An object is read member by member: the events sent, the member count and the input left are those of the grammar |
| `Reader.Reader.ParseArray` | livox_ros_driver2/3rdparty/rapidjson/reader.h:869-913 | An array is read element by element, likewise |
| `Reader.Reader.ParseStringToStream` | livox_ros_driver2/3rdparty/rapidjson/reader.h:1058-1131 | Escapes, surrogate pairs and copied bytes yield the string the specification gives, or fail where it fails |
| `Reader.Reader.ParseNumber` | livox_ros_driver2/3rdparty/rapidjson/reader.h:1584-1863 | A number sends the event the specification gives, or fails where it fails |
| `Reader.Reader.SkipWhitespaceAndComments` | livox_ros_driver2/3rdparty/rapidjson/reader.h:770-794 | White space, and comments when enabled, are skipped as specified; an unfinished comment fails |
| `Reader.Reader.TransitTo` | livox_ros_driver2/3rdparty/rapidjson/reader.h:2192-2350 | One step of the iterative reader is one step of the automaton, its stack included |
| `Dom.ConstructorsAgree` | livox_ros_driver2/3rdparty/rapidjson/document.h:858-899 | Whichever constructor makes a number, its bits and getter flags are those of its value |
| `Dom.NumberSends` | livox_ros_driver2/3rdparty/rapidjson/document.h:2318-2330 | A number sends itself as Int whenever it fits, else Uint, Int64 or Uint64 |
| `Dom.Document.Handle` | livox_ros_driver2/3rdparty/rapidjson/document.h:2926-3000 | The document as a handler: each event changes the value stack as the stack machine says |
| `Writer.JsonWriter.Visit` | livox_ros_driver2/3rdparty/rapidjson/document.h:2286-2331 | Accepting the writer appends the separator and the JSON text of the value, and fails exactly on values that cannot be written |
| `Writer.JsonWriter.WriteString` | livox_ros_driver2/3rdparty/rapidjson/writer.h:437-526 | A string is put between quotes with the escapes specified; an ASCII target fails exactly on malformed UTF-8 |
| `Writer.JsonWriter.Prefix` | livox_ros_driver2/3rdparty/rapidjson/prettywriter.h:263-311 | Each value or name gets the separator and indentation its place calls for, and is counted |
| `Writer.JsonWriter.EndContainer` | livox_ros_driver2/3rdparty/rapidjson/prettywriter.h:180-234 | A container closes on a new line unless it is empty or on one line |
| `Writer.Print` | livox_ros_driver2/3rdparty/rapidjson/writer.h:200-303 | Printing succeeds exactly on writable values, and yields their JSON text |
| `RoundTrip.AsciiExact` | livox_ros_driver2/3rdparty/rapidjson/writer.h:467-508 | With an ASCII target the writer takes exactly the well-formed strings, and puts only ASCII |
| `RoundTrip.EscapedReads` | livox_ros_driver2/3rdparty/rapidjson/writer.h:437-526 | Whatever the writer puts for a string reads back as the same bytes |
| `StringLiterals.Written` | livox_ros_driver2/3rdparty/rapidjson/writer.h:437-526 | A string is written with every character as it is but quotes, backslashes and controls, which take a short escape if there is one and an upper-case Unicode escape otherwise, as does what an ASCII target lacks |
| `JsonText.LaidOut` | livox_ros_driver2/3rdparty/rapidjson/prettywriter.h:263-311 | The pretty layout in full: members and elements on their own lines under their comma, closing brackets likewise, elements on one line if asked for |
| `JsonText.IndentExactly` | livox_ros_driver2/3rdparty/rapidjson/prettywriter.h:305-311 | An indentation is the level times the count of the indentation character and nothing else |
| `PrintParse.JsonReads` | livox_ros_driver2/3rdparty/rapidjson/writer.h:560-579 | The compact or pretty text of a value parses, before any text that cannot continue it, as exactly the events of the value |
| `PrintParse.EventsBuild` | livox_ros_driver2/3rdparty/rapidjson/document.h:2926-3000 | The events of a value rebuild exactly that value |
| `PrintParse.PrintThenParse` | livox_ros_driver2/3rdparty/rapidjson/prettywriter.h:114-311 | For every printable value and style, printing succeeds, both readers read the text to its end, and the events rebuild the value |
| `PrintParse.PrintAndReparse` | livox_ros_driver2/3rdparty/rapidjson/document.h:2286-2331 | The writer object, then either reader object, then the document object return the value that went in |
| `Validation.StreamingIsSatisfaction` | livox_ros_driver2/3rdparty/rapidjson/schema.h:2247-2342 | The streaming validator, which never holds the value, is valid at the end exactly when the value satisfies the schema, for all nestings of allOf, anyOf, oneOf, not, properties, items and bounds; then it is fit to be used again |
| `Validation.KindsAreIrrelevant` | livox_ros_driver2/3rdparty/rapidjson/schema.h:1355-1449 | It does not matter by which of Int, Uint, Int64 and Uint64 an integer is announced |
| `Validation.EndVerdict` | livox_ros_driver2/3rdparty/rapidjson/schema.h:769-855 | The counts and flags at the end of a value decide allOf, anyOf, oneOf and not |
| `Validation.StartVerdict` | livox_ros_driver2/3rdparty/rapidjson/schema.h:857-935 | The first event of a scalar decides its type and bounds, doubles and double bounds included |
| `Validation.ObjectParts` | livox_ros_driver2/3rdparty/rapidjson/schema.h:962-1068 | The names marked during an object decide required members and the counts |
| `SchemaValidator.Validate` | livox_ros_driver2/3rdparty/rapidjson/schema.h:2430-2512 | The validator object, fed any events, reports what the specification of streaming says |
| `SchemaValidator.Accepts` | livox_ros_driver2/3rdparty/rapidjson/schema.h:2247-2342 | Fed the events of a value, the validator object accepts exactly the values that satisfy the schema |
| `SchemaValidator.SchemaValidator.Start` | livox_ros_driver2/3rdparty/rapidjson/schema.h:2247-2269 | A value that begins pushes its context, makes its nested validators and reaches those of the open contexts |
| `SchemaValidator.SchemaValidator.Key` | livox_ros_driver2/3rdparty/rapidjson/schema.h:962-1016 | A name chooses the schema of the value to come and marks its table entry |
| `SchemaValidator.SchemaValidator.End` | livox_ros_driver2/3rdparty/rapidjson/schema.h:1018-1096 | A container that ends is checked, then leaves its context |
| `SchemaValidator.EndMissingProperties` | livox_ros_driver2/3rdparty/rapidjson/schema.h:1018-1027 | The loop over the table finds a required name missing exactly when there is one without a default string |
| `SchemaValidator.OneValid` | livox_ros_driver2/3rdparty/rapidjson/schema.h:831-847 | The loop over oneOf finds exactly one valid subschema if and only if there is exactly one |
| `Drafts.MemberChoice` | livox_ros_driver2/3rdparty/rapidjson/schema.h:962-1016 | A member gets the schema the standard says if and only if its name is not required-but-undeclared under restricting additionalProperties |
| `Drafts.ItemChoice` | livox_ros_driver2/3rdparty/rapidjson/schema.h:744-767 | An element gets the schema the standard says unless the list of positions is empty and additionalItems restricts |
| `Drafts.RequiredChoice` | livox_ros_driver2/3rdparty/rapidjson/schema.h:1018-1027 | Just the required names without a default string are looked for |
| `Drafts.SizeChoice` | livox_ros_driver2/3rdparty/rapidjson/schema.h:1204-1209 | Size limits mean what they say if and only if the lower one fits SizeType |
| `Drafts.NumberChoice` | livox_ros_driver2/3rdparty/rapidjson/schema.h:892-907 | A double gets the verdict of the standard unless it stands for an integer that only integer would admit |
| `Drafts.CompilingMeans` | livox_ros_driver2/3rdparty/rapidjson/schema.h:494-714 | A schema that avoids these departures means, once compiled, what draft-fge-json-schema-validation-00 says; integers beyond 64 bits in the value are allowed where integer comes with number |
| `Drafts.ValidatorDecidesDraft` | livox_ros_driver2/3rdparty/rapidjson/schema.h:494-714 | End to end: compile such a schema, stream the events of a value, and the verdict is that of the standard |
| `Drafts.RequiredNameSlipsThrough` | livox_ros_driver2/3rdparty/rapidjson/schema.h:541-577 | required with additionalProperties false admits the required name, which the standard forbids |
| `Drafts.DefaultWaivesRequired` | livox_ros_driver2/3rdparty/rapidjson/schema.h:1018-1027 | A required name may be missing when its schema has a default string |
| `Drafts.EmptyPositionsAdmit` | livox_ros_driver2/3rdparty/rapidjson/schema.h:664-678 | An empty items list with additionalItems false admits elements |
| `Drafts.HugeMinimumIsIgnored` | livox_ros_driver2/3rdparty/rapidjson/schema.h:1204-1209 | A minimum size that does not fit SizeType is as good as none |
| `Drafts.BigIntegerIsRefused` | livox_ros_driver2/3rdparty/rapidjson/schema.h:892-907 | Every integer from 2^64 up is read as a double and refused by type integer, which the standard says admits it |
| `Equality.EqualSymmetric` | livox_ros_driver2/3rdparty/rapidjson/document.h:1110-1147 | Equality is symmetric on values without repeated names |
| `Equality.EqualTransitive` | livox_ros_driver2/3rdparty/rapidjson/document.h:1110-1147 | Equality is transitive on such values |
| `Equality.OrderIsIrrelevant` | livox_ros_driver2/3rdparty/rapidjson/document.h:1114-1125 | Objects with the same members in another order are equal |
| `Equality.RepeatedNamesCompareOddly` | livox_ros_driver2/3rdparty/rapidjson/document.h:1104-1125 | An object with a repeated name can equal itself, against its documentation, and equality is then not symmetric |
| `Equality.LeftExactly` | livox_ros_driver2/3rdparty/rapidjson/document.h:1104-1125 | On the left an object equals some object, and itself, if and only if its members of the same name have equal values |
| `Equality.DistinctStays` | livox_ros_driver2/3rdparty/rapidjson/document.h:1104-1125 | An object without repeated names never equals one that has them |
| `Equality.RightExactly` | livox_ros_driver2/3rdparty/rapidjson/document.h:1104-1125 | On the right an object with a repeated name is equalled just by objects of its size that repeat a name and whose members each have an equal among the first of each name |
| `Equality.SomethingAlwaysEquals` | livox_ros_driver2/3rdparty/rapidjson/document.h:1104-1125 | On the right every object is equalled by some object |
| `Equality.EqualHash` | livox_ros_driver2/3rdparty/rapidjson/schema.h:241-355 | Equal values have the same hash code whenever the numbers matched are the same integers, members in any order |
| `Equality.ForcedExactly` | livox_ros_driver2/3rdparty/rapidjson/document.h:1136-1142 | Equality of 64-bit patterns forces the same integers if and only if every number of the value is in [0, 2^63) |
| `Hasher.HasherComputes` | livox_ros_driver2/3rdparty/rapidjson/schema.h:248-317 | On top of any stack of codes, the events of a value leave one code, that of the value |
| `Hasher.Handler.Handle` | livox_ros_driver2/3rdparty/rapidjson/schema.h:248-317 | The hasher object, with its loops over the codes popped, makes each step of that stack machine |
| `Hasher.HashCode` | livox_ros_driver2/3rdparty/rapidjson/schema.h:319-324 | A fresh hasher fed the events of a value ends with the code of the value alone |
| `Hasher.EnumAllows` | livox_ros_driver2/3rdparty/rapidjson/schema.h:805-812 | enum by codes finds exactly an equal code, and so never refuses a value equal, integer for integer, to a listed one |
| `Hasher.ItemsUnique` | livox_ros_driver2/3rdparty/rapidjson/schema.h:2486-2504 | uniqueItems by codes accepts exactly elements of different codes, and so never two that are equal in that sense |
| `HashCodes.TagsApart` | livox_ros_driver2/3rdparty/rapidjson/schema.h:335-348 | The same bytes under different type tags have different codes, null, false, true and the empty string among them |
| `HashCodes.OneByteTells` | livox_ros_driver2/3rdparty/rapidjson/schema.h:341-355 | Strings that differ in one byte have different codes |
| `HashCodes.ElementTells` | livox_ros_driver2/3rdparty/rapidjson/schema.h:308-316 | Arrays that differ in one element have one code exactly when the two elements have |
| `HashCodes.MemberTells` | livox_ros_driver2/3rdparty/rapidjson/schema.h:298-306 | Objects that differ in the value of one member have one code exactly when the two values have |
| `HashCodes.TwoMembersCancel` | livox_ros_driver2/3rdparty/rapidjson/schema.h:298-306 | Two members more leave the code of an object unchanged exactly when the two have one code |
| `HashCodes.TwiceCancels` | livox_ros_driver2/3rdparty/rapidjson/schema.h:298-306 | A member written twice cancels out: the object has the code of the one without the two, which it does not equal |
| `Equality.EqualButToldApart` | livox_ros_driver2/3rdparty/rapidjson/schema.h:250-273 | -1 and 2^64 - 1 compare equal and yet have different hash codes |
| `PointerText.PrintThenParse` | livox_ros_driver2/3rdparty/rapidjson/pointer.h:1013-1142 | A printed list of names parses back to it |
| `PointerText.ParseThenPrint` | livox_ros_driver2/3rdparty/rapidjson/pointer.h:1151-1179 | A text that parses, not a URI fragment, is the printed form of its names |
| `PointerText.UriThenParse` | livox_ros_driver2/3rdparty/rapidjson/pointer.h:1013-1142 | A printed URI fragment parses back to its names |
| `PointerText.UriExists` | livox_ros_driver2/3rdparty/rapidjson/pointer.h:1151-1179 | The URI form exists exactly when every name is well-formed UTF-8 |
| `PointerGrammar.UnreservedExactly` | livox_ros_driver2/3rdparty/rapidjson/pointer.h:991-1000 | A character needs percent-encoding exactly if it is not unreserved in RFC 3986 section 2.3 |
| `PointerGrammar.PointerExactly` | livox_ros_driver2/3rdparty/rapidjson/pointer.h:1013-1142 | A text is accepted for some names exactly if it is written as RFC 6901 has it, as a string or a URI fragment, with triplets in either case, and names them |
| `PointerParser.GenericPointer.ParseSource` | livox_ros_driver2/3rdparty/rapidjson/pointer.h:1013-1142 | The parser over its buffers fails exactly when the specification does; otherwise its tokens, cut out of one name buffer, are the names with their indices |
| `PointerParser.Decoder.Validate` | livox_ros_driver2/3rdparty/rapidjson/pointer.h:1187-1252 | Percent triplets decode to one UTF-8 character, at the next place of the buffer, or are refused |
| `PointerParser.IndexExact` | livox_ros_driver2/3rdparty/rapidjson/pointer.h:1109-1126 | A number as a token is an index, that of its value, if and only if it is below 4294967295, the mark for no index |
| `PointerParser.MarkIsNoIndex` | livox_ros_driver2/3rdparty/rapidjson/pointer.h:1109-1126 | 4294967295 fits 32 bits and is no index |
| `PointerParser.WrapFoundExactly` | livox_ros_driver2/3rdparty/rapidjson/pointer.h:1114-1124 | On any digits the test finds wrap-around exactly when some digit makes the low 32 bits of what was read smaller; otherwise the low 32 bits are the index |
| `PointerParser.TenDigits` | livox_ros_driver2/3rdparty/rapidjson/pointer.h:1114-1124 | Below ten thousand million the test misses just the numbers that wrap to a tenth of themselves or more |
| `PointerParser.DecimalIndex` | livox_ros_driver2/3rdparty/rapidjson/pointer.h:1109-1126 | The decimal form of an index is read as that index |
| `PointerParser.WrapGoesUnnoticed` | livox_ros_driver2/3rdparty/rapidjson/pointer.h:1109-1126 | 6000000000 is read as index 1705032704, the wrap-around unnoticed; that of 4294967296 is noticed |
| `PointerDom.Get` | livox_ros_driver2/3rdparty/rapidjson/pointer.h:622-649 | Resolving stops at the first token that leads nowhere, and reports it |
| `PointerDom.CreateExactly` | livox_ros_driver2/3rdparty/rapidjson/pointer.h:539-585 | Create reports that the value existed exactly when the pointer resolves, and then changes nothing |
| `PointerDom.CreateThenGet` | livox_ros_driver2/3rdparty/rapidjson/pointer.h:539-585 | Where nothing is appended, resolving after Create gives what was there, or null |
| `PointerDom.CreateInNull` | livox_ros_driver2/3rdparty/rapidjson/pointer.h:539-585 | Created in a null root, every pointer resolves, to null |
| `PointerDom.SetThenGet` | livox_ros_driver2/3rdparty/rapidjson/pointer.h:781-791 | After Set the pointer resolves to the value set exactly when no token appended |
| `PointerDom.AppendedIsNotFound` | livox_ros_driver2/3rdparty/rapidjson/pointer.h:539-585 | Set through - on an empty array appends the value, and the same pointer does not find it |
| `PointerDom.EraseExactly` | livox_ros_driver2/3rdparty/rapidjson/pointer.h:914-951 | Erase succeeds exactly when there is a token and the pointer resolves; otherwise nothing changes |
| `PointerDom.EraseThenGet` | livox_ros_driver2/3rdparty/rapidjson/pointer.h:914-951 | After Erase the parent has lost that child and nothing else |
| `PointerDom.EraseUndoesAdding` | livox_ros_driver2/3rdparty/rapidjson/pointer.h:914-951 | Erasing a member just added gives the old object back |
| `PointerFrames.SetPuts` | livox_ros_driver2/3rdparty/rapidjson/pointer.h:539-585 | What one token does to any value: appending keeps the old elements, padding adds nulls just up to the index, a name replaces its first member or adds a last one, an index makes an array and a name an object of what is no container |
| `PointerFrames.CreatePuts` | livox_ros_driver2/3rdparty/rapidjson/pointer.h:539-585 | Creating sets null where nothing is there, and changes nothing otherwise |
| `PointerFrames.PlaceIsLocal` | livox_ros_driver2/3rdparty/rapidjson/pointer.h:539-585 | At the end of any first part of the tokens, setting and creating do what the rest of the tokens do to what is there, or to null |
| `PointerFrames.SetChangesParent` | livox_ros_driver2/3rdparty/rapidjson/pointer.h:781-791 | Setting changes the parent as its last token says, whatever the parent is |
| `PointerFrames.PlaceFrame` | livox_ros_driver2/3rdparty/rapidjson/pointer.h:539-585 | Every path that leaves the tokens at some child, no container being replaced before, finds what it found before |
| `PointerFrames.EraseFrame` | livox_ros_driver2/3rdparty/rapidjson/pointer.h:914-951 | Every path that leaves the tokens before the last one finds after Erase what it found before |
| `Allocators.MemoryPoolAllocator.Malloc` | livox_ros_driver2/3rdparty/rapidjson/allocators.h:208-220 | A new aligned block at the end of the newest chunk; every block and chunk stays where it was; fails only on size 0 or when no memory is left |
| `Allocators.MemoryPoolAllocator.Realloc` | livox_ros_driver2/3rdparty/rapidjson/allocators.h:223-253 | Null, zero, shrinking, growing in place and moving: the old bytes are kept, all other blocks are untouched |
| `Allocators.MemoryPoolAllocator.Size` | livox_ros_driver2/3rdparty/rapidjson/allocators.h:201-206 | The size used is the sum of the blocks handed out, and at most the capacity |
| `Pools.Run` | livox_ros_driver2/3rdparty/rapidjson/allocators.h:178-281 | Over any sequence of requests, from any valid pool: live blocks are aligned, disjoint, each inside one chunk, and hold what was stored there last; Size is the sum of the blocks handed out and at most Capacity |
| `Pools.Serve` | livox_ros_driver2/3rdparty/rapidjson/allocators.h:208-253 | One request: the handles afterwards are those the request asks for, contents kept or cropped |
| `Rings.IsPowerOf2Exact` | livox_ros_driver2/src/comm/ldq.h:35-37 | The bit test finds exactly the powers of two |
| `Rings.RoundupPowerOf2` | livox_ros_driver2/src/comm/ldq.h:39-49 | The least power of two that is at least the size, up to 2^31; more does not fit |
| `Rings.MaskedIndex` | livox_ros_driver2/src/comm/ldq.cpp:86-105 | Masking an index gives its slot |
| `Rings.BumpingAppends` | livox_ros_driver2/src/comm/ldq.cpp:136-148 | Moving the write index appends the slot's packet, across wrap-around at 2^32 |
| `Rings.PoppingRemoves` | livox_ros_driver2/src/comm/ldq.cpp:107-109 | Moving the read index removes the oldest packet, across wrap-around |
| `Rings.StoringIsInvisible` | livox_ros_driver2/src/comm/ldq.cpp:136-148 | Writing into a ring that is not full leaves the queued packets alone |
| `LidarQueue.LidarDataQueue.InitQueue` | livox_ros_driver2/src/comm/ldq.cpp:33-61 | A fresh, empty ring of the least power of two that holds the request, when 32 bits can hold it |
| `LidarQueue.LidarDataQueue.PushAny` | livox_ros_driver2/src/comm/ldq.cpp:136-148 | Pushing appends |
| `LidarQueue.LidarDataQueue.Pop` | livox_ros_driver2/src/comm/ldq.cpp:111-118 | Popping takes the oldest, or reports that there is none |
| `LidarQueue.LidarDataQueue.IsFull` | livox_ros_driver2/src/comm/ldq.cpp:128-130 | Full exactly when as many packets are queued as there are slots |
| `LidarQueue.LidarDataQueue.Publish` | livox_ros_driver2/src/lddc.cpp:201-231 | Publishing empties the queue; the packets with points come out in order |
| `Pipeline.NoLostWakeup` | livox_ros_driver2/src/lds.cpp:170-196 | In every interleaving, when the storing thread is between packets and the draining thread is blocked, the queue of each lidar that was sampling at its last packet is empty; the semaphore stays 0 or 1 |
| `Pipeline.FirstInFirstOut` | livox_ros_driver2/src/lds.cpp:170-196 | In every interleaving, for each lidar: of the packets that arrived, in order, those popped are a prefix of those that found room, and the rest are in the queue but for one being stored |
| `Pipeline.RoomExactly` | livox_ros_driver2/src/lds.cpp:184-187 | A packet finds room exactly when fewer than the size are queued |
| `Pipeline.SomeOffered` | livox_ros_driver2/src/lds.cpp:170-196 | Every run has its sequence of arrived packets |
| `Pipeline.NoTornRead` | livox_ros_driver2/src/comm/ldq.cpp:86-105 | The slot being written is never the slot being read |
| `Pipeline.RunsContinue` | livox_ros_driver2/src/comm/semaphore.cpp:29-39 | From every reachable state every step leads to a reachable state |
| `Stalls.StallsExactly` | livox_ros_driver2/src/lddc.cpp:118-138 | From any reachable state of any system, a lidar not sampling yet can come to have a packet queued with both threads asleep, no further packet arriving, if and only if a packet of it is queued or in the storing thread's hands |
| `Stalls.UnwatchedMayWait` | livox_ros_driver2/src/lddc.cpp:118-138 | In a system of any number of lidars and any queue size, one packet stored before its lidar samples is enough for that |
| `Stalls.StalledIsUnwatched` | livox_ros_driver2/src/lddc.cpp:118-138 | Whenever both threads sleep, a packet is queued only of a lidar that was not sampling at its last packet |
| `Points.RawDataProcess` | livox_ros_driver2/src/comm/pub_handler.cpp:229-255 | Over any packets, what was published for a lidar followed by what is pending is what arrived from it, in order; each part is dated by its first point |
| `Points.PacketValues` | livox_ros_driver2/src/comm/pub_handler.cpp:318-334 | A packet of a known type gives one point for each value measured, in order; any other gives none |
| `Points.PacketTimes` | livox_ros_driver2/src/comm/pub_handler.cpp:366-392 | The first point has the time of the packet, each other one an interval more than the one before, modulo 2^64 |
| `Points.PubHandler.ProcessPacket` | livox_ros_driver2/src/comm/pub_handler.cpp:229-255 | One packet adds its points to its lidar's stream and loses none, whatever is published |
| `Points.PubHandler.CheckSynced` | livox_ros_driver2/src/comm/pub_handler.cpp:164-194 | With synchronised clocks a lidar is published, alone and whole, exactly when its cloud is due |
| `Points.PubHandler.CheckUnsynced` | livox_ros_driver2/src/comm/pub_handler.cpp:195-225 | Otherwise one frame empties every cloud once an interval has passed, and the schedule moves on by one interval |
| `Points.PubHandler.PublishPointCloud` | livox_ros_driver2/src/comm/pub_handler.cpp:156-162 | Publishing a frame moves points from clouds to the frame and loses none |
| `Missions.FlightIsOrderly` | controller/controller/src/fsm.cpp:182-687 | Over any events: targets go out 0, 1, 2, ..., each once; servos 3, 2 and 1 release in order, with a target between two of them; with five targets or more only configured ones go out |
| `Missions.LandsAfterAllTargets` | controller/controller/src/fsm.cpp:321-347 | Landing comes after the last target, and never with fewer than five |
| `Missions.SetpointsAreTame` | controller/controller/src/fsm.cpp:772-789 | The mission setpoint is published exactly in a mission that has begun and while landing; while adjusting its height stays within 600 mm of the higher configured one |
| `Missions.AdjustingEnds` | controller/controller/src/fsm.cpp:372-484 | Whatever is seen or missed, adjusting is over within a number of ticks known beforehand |
| `Missions.EmptyPutIsStuck` | controller/controller/src/fsm.cpp:555-579 | With no servo left the release fails for ever |
| `Setpoints.HeightsAreCommanded` | controller/controller/src/fsm.cpp:351-644 | Over any flight each stage commands its height: detecting or, once near, adjusting, raised by 300 mm twice at most; putting at a release; putting or holding in the rise; 300 mm when landing |
| `Setpoints.TickCommands` | controller/controller/src/fsm.cpp:351-644 | Each tick commands the height of its stage: detecting when a mission begins, adjusting when first near, putting in a drop, holding in a rise, 600 and then 300 mm in the last stage |
| `Setpoints.FirstDescentExactly` | controller/controller/src/fsm.cpp:580-644 | The landing is ever lowered to 600 mm exactly when the object was not near while adjusting |
| `Setpoints.DropAndReleaseWait` | controller/controller/src/fsm.cpp:485-579 | Over any events from a drop on, nothing is released within eight seconds of its start |
| `Setpoints.ReleaseWaits` | controller/controller/src/fsm.cpp:555-579 | Over any events from the release stage on, nothing is released within three seconds of its start |
| `Setpoints.TargetsWait` | controller/controller/src/fsm.cpp:288-319 | Over any events two targets are never published within two seconds |
| `Drops.ReleasesAreAsked` | controller/controller/src/fsm.cpp:288-347 | Over any flight something is released only with releasing on, after one of the first four targets that asks for it in mission mode or after the last of at least five |
| `Drops.HoldStartsExactly` | controller/controller/src/fsm.cpp:262-330 | Holding starts a mission exactly two seconds after a target that asks for one, nothing released since and a servo left, or after the last of at least five |
| `Drops.AdjustLeavesExactly` | controller/controller/src/fsm.cpp:372-484 | Adjusting is over exactly when the object has been near, is nearer or seen for long, five seconds since; or is missed for too long after two climbs |
| `Flights.LandsExactlyWithFiveTargets` | controller/controller/src/fsm.cpp:182-687 | From every safe state, whatever its phase, landing is possible if and only if there are at least five targets and the drone can come near enough to end its take-off or tracking and is not in a drop with nothing left to release |
| `Flights.LandingCanStrand` | controller/controller/src/fsm.cpp:456-466 | A whole flight, from the start, into a drop that can never be finished: three releases, then nothing in sight while landing |
| `Flights.StrandedForEver` | controller/controller/src/fsm.cpp:485-579 | Once stranded, no events lead out |
| `Flights.TargetsAreConfigured` | controller/controller/src/fsm.cpp:262-320 | Only configured targets can go out if and only if there are none to go out or at least five |
| `Controller.Flight` | controller/controller/src/fsm.cpp:182-687 | The controller object, its callbacks run in the order of any events, keeps what is proved about flights: order of targets and servos, releases where asked for, when setpoints are published and at which height, landing last |
| `Controller.Fsm.Spin` | controller/controller/src/fsm.cpp:182-687 | Any sequence of callbacks ends in the state the specification gives |
| `Controller.Fsm.AdjustAction` | controller/controller/src/fsm.cpp:372-484 | Closing in on an object, branch by branch, is the specified step |
| `Controller.Fsm.HoldState` | controller/controller/src/fsm.cpp:262-349 | Holding publishes, waits or starts a mission as specified |
| `Overlaps.IouSymmetric` | yolo_server/src/common.cpp:35-49 | Overlap does not depend on the order of the boxes |
| `Overlaps.IouRange` | yolo_server/src/common.cpp:35-49 | Overlap of boxes with positive sides is between 0 and 1 |
| `Overlaps.IouOfItself` | yolo_server/src/common.cpp:35-49 | A box with positive sides overlaps itself entirely |
| `Overlaps.IouIsShareOfUnion` | yolo_server/src/common.cpp:35-49 | Overlap times the area two boxes cover together is the area of the points they have in common, which is 0 when there are none |
| `Suppression.Nms` | yolo_server/src/common.cpp:56-89 | What is left is ordered by class and confidence with no two of a class overlapping too much, and every detection that is gone overlaps one of its class at least as confident that stays |
| `Suppression.OverlappingExactly` | yolo_server/src/common.cpp:79-86 | Two detections overlap too much exactly when the area in common is more than the threshold share of the area covered |
| `Suppression.ConfidentCounts` | yolo_server/src/common.cpp:60-70 | Every detection considered is kept as often as it occurs if it is confident enough, and otherwise never |
| `Suppression.NmsTwice` | yolo_server/src/common.cpp:56-89 | Suppressing the result again removes nothing |
| `Suppression.GreedyTwice` | yolo_server/src/common.cpp:75-87 | Within a class, suppressing again gives the same list |
| `Suppression.EraseSuppressed` | yolo_server/src/common.cpp:79-86 | The loop that erases as it goes leaves exactly the survivors, in order |
| `Suppression.Sort` | yolo_server/src/common.cpp:74-74 | Sorting promises falling confidence and loses nothing; what follows uses no more of it, so any order among equals will do |

## Findings

Properties that the source, its documentation or a standard promises and that fail, each with an input, and with the
exact condition under which the property holds.

- A member whose name is required but not declared escapes `additionalProperties` (`Drafts.RequiredNameSlipsThrough`;
  exactly when: `Drafts.MemberChoice`).
- A required name may be missing when its schema has a non-empty default string (`Drafts.DefaultWaivesRequired`;
  exactly when: `Drafts.RequiredChoice`).
- An empty list of item positions admits any elements (`Drafts.EmptyPositionsAdmit`; exactly when: `Drafts.ItemChoice`).
- A minimum size above the range of `SizeType` is ignored (`Drafts.HugeMinimumIsIgnored`; exactly when:
  `Drafts.SizeChoice`).
- An integer of more than 64 bits, such as 18446744073709551616, is refused under type integer
  (`Drafts.BigIntegerIsRefused`; exactly when: `Drafts.NumberChoice`).  Schemas free of these five mean what the
  standard says (`Drafts.ValidatorDecidesDraft`).
- -1 and 2^64 - 1 compare equal and hash apart, so an `enum` of one does not find the other
  (`Equality.EqualButToldApart`; equality forces the same integers exactly on values in [0, 2^63):
  `Equality.ForcedExactly`).
- The documentation of value equality says that an object with a repeated name equals nothing; it can equal itself, and
  equality is not symmetric there (`Equality.RepeatedNamesCompareOddly`).  As the left operand it equals nothing exactly
  when two members of one name differ (`Equality.LeftExactly`).  As the right operand something always equals it
  (`Equality.SomethingAlwaysEquals`), but never an object without repeated names (`Equality.DistinctStays`); which
  objects do: `Equality.RightExactly`.
- The index of a pointer token wraps around unnoticed: 6000000000 is read as 1705032704
  (`PointerParser.WrapGoesUnnoticed`; when the test for it fails: `PointerParser.WrapFoundExactly`, and in closed form
  up to ten digits: `PointerParser.TenDigits`).  4294967295 is no index either, for it is the mark for none
  (`PointerParser.MarkIsNoIndex`; a number is an index exactly below it: `PointerParser.IndexExact`).
- A positive exponent overflows `int` after more than 214748055 fraction digits that count
  (`Numbers.ManyZerosOverflow`; exactly when: `Numbers.ExponentSafeExactly`).
- `0e309` is refused as too big, as is any zero with an exponent above 308 (`NumberLiterals.ZeroTooBig`; which literals
  are read: `NumberLiterals.LiteralReads`).
- With validation on, the reader still takes the escape of a trail surrogate alone and puts bytes that are no UTF-8
  (`StringLiterals.LoneTrailSlipsThrough`; exactly when it does not: `StringLiterals.ValidatedExactly`).
- `enum` and `uniqueItems` take `{"a":1,"a":1}` for `{}`: a member written twice cancels out of the hash code
  (`HashCodes.TwiceCancels`; two members cancel exactly when their codes agree: `HashCodes.TwoMembersCancel`).
- A value set through a pointer that appends is not found by the same pointer (`PointerDom.AppendedIsNotFound`; exactly
  when: `PointerDom.SetThenGet`).
- A packet that arrives before its lidar is marked as sampling can stay queued with both threads asleep
  (`Stalls.UnwatchedMayWait`, in any system; from which states: `Stalls.StallsExactly`; packets that arrive later
  cannot: `Pipeline.NoLostWakeup`).
- A drone can be stranded in a drop with no servo left, by missing every detection while landing
  (`Flights.LandingCanStrand`, `Missions.EmptyPutIsStuck`; landing stays possible exactly otherwise:
  `Flights.LandsExactlyWithFiveTargets`).
- The first descent of a landing is skipped after a normal approach, because the mark of having been near is not
  cleared (exactly when: `Setpoints.FirstDescentExactly`).
- With one to four targets the controller publishes targets that were never configured
  (`Flights.TargetsAreConfigured`).

## Left out

- rapidjson: in-situ parsing, SIMD scanning, `NaN` and `Infinity`, numbers as strings, error codes and offsets, token-by-token iterative parsing, the 32-bit-platform branch of fractions.
- Reader.Reader.ParseNumber: the value of a double is not computed and its literal stands for it; whether it is in range is a parameter of the configuration.
- Writer.Print: doubles are not printed, because their shortest digits (Grisu) are not modelled; a value that holds one counts as not writable.
- Validation.StreamingIsSatisfaction: `enum`, `uniqueItems`, string lengths, `pattern`, `patternProperties`, `dependencies`, `multipleOf` and `$ref` are not part of the schemas; doubles and double bounds are compared as the decimal numbers written, without rounding.
- Drafts.ValidatorDecidesDraft: keywords of the wrong JSON type, which the constructor ignores, have no place in a schema as written here.
- SchemaValidator.Validate: nested validators are values inside their context, not heap objects made by a factory.
- Equality.EqualHash: about values whose numbers are integers; doubles, which the source compares after rounding integers, are compared by literal here and no result is about them.
- Hasher.ItemsUnique: an element's events go to its hasher alone here; in the source they go to the validator's context and to the hasher in it, event by event.
- Hasher.EnumAllows: likewise; the bytes of doubles and their casts to integers are parameters.
- PointerDom.SetThenGet: a value is replaced by a new one; sharing of parts between values, which in-place update would show, is not modelled.
- Allocators.MemoryPoolAllocator.Malloc: sizes stay below 2^63 less the header, so that no sum wraps; the address the base allocator finds is a parameter.
- LidarQueue.LidarDataQueue.InitQueue: releasing a queue and a failing allocation are not modelled.
- Pipeline.FirstInFirstOut: one storing and one draining thread, memory sequentially consistent; shutting down and the message formats that never pop a packet are not modelled.
- Points.RawDataProcess: coordinates, extrinsic parameters and the packet queue's lock are not modelled; a point is its number and time, and 32 lidars at most report.
- Missions.FlightIsOrderly: lengths are whole millimetres and times whole nanoseconds; poses, velocities, the PID loops and the calls that arm the vehicle are not modelled.
- Missions.SetpointsAreTame: of the mission setpoint only the height and whether it is published.
- Suppression.Nms: coordinates are real numbers, without NaN or rounding.
- Code of the repository that no row mentions: drivers, message conversion, ROS nodes and launch code.
