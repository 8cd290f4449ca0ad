# Verified model of json-joy-rs

This project models the self-contained algorithms of the json-joy port to Rust and proves what they
are for: trees in an arena, codecs, parsers and printers, an expression evaluator with a shared
variable store, and the buffers under them. `dafny verify dfyconfig.toml` checks all of it.

Code that changes state is modelled as it runs, as classes and methods with loops over fields,
cursors and arrays. Each such method is proved to do what a specification function says, including
the errors it returns, the state a failure leaves behind and, where the source can panic, that it
panics (`None` or a `Panics` error). The lemmas then say what the specification is good for, and the
modules `AvroMeaning`, `JsonPathSpelling`, `JsonPathSelectors`, `ExpressionMeaning` and
`JsonPointerPlaces` tell its results from the inputs, not from its own helper functions.

## What is modelled

- `ArenaTree`: the binary tree of `sonic-forest` whose nodes live in an arena and point at each other
  by index. The arena is an array of link records; a ghost tree says what the links spell out.
- `AvroTypes`, `AvroCodec`, `AvroValidator`, `AvroRoundTrip`, `AvroDepth`, `AvroMatching`, `AvroSession`,
  `AvroMeaning`, `AvroEncoder`, `AvroDecoder`: the schema-directed Avro codec, its validator and its value matcher.
- `JsonPath`, `JsonPathRoundTrip`, `JsonPathSpelling`, `JsonPathParser`, `JsonPathEval`,
  `JsonPathSelectors`: JSONPath parser, printer and evaluator over the documents of `Json`.
- `Bson`, `BsonRoundTrip`, `BsonCodec` and `Bencode`, `BencodeRoundTrip`, `BencodeCodec`: two nested
  binary codecs.
- `Expression`, `ExpressionMeaning`, `ExpressionScoping`, `ExpressionEvaluator`: JSON expressions, beside an evaluator
  that passes environments instead of changing a store.
- `Buffers`, `OctetReader`: the growing writer, the streaming reader on top of it, and the reader
  over a queue of chunks with WebSocket unmasking.
- `RandomJson`: the random document generator and the container paths it keeps.
- `Mpint`, `JsonPointer`, `JsonPointerPlaces`, `Base64`, `Base64Codec`: SSH integers, JSON Pointer, base64.
- `Common`, `Bytes`, `Decimals`, `Json`: what these share.

## Where the code differs from what it is for

Each of these is proved: a lemma shows that it happens, and the lemmas named with it say when the
code does what it is for, in most cases exactly when.

- Avro: an empty array or map is written with two zero counts and read with one, so what follows it
  is read a byte late. Round trip: exactly when there is none, and no `__proto__` key
  (`AvroSession.RoundTrip`, `AvroSession.EmptyArrayShifts`). A failed call leaves its bytes in the
  writer, and the next success returns them in front of its own (`AvroSession.RunResults`,
  `AvroSession.FailureSpills`).
- Avro: the matcher does not look at defaults and the writer follows them. The matcher accepts exactly
  what can be written, for recursive schemas too, if and only if every default of a record that can
  occur can itself be written (`AvroMatching.AcceptedMatchExactly`, `AvroMatching.UncheckedDefault`,
  `AvroMatching.EndlessDefault`). That references form no cycle is asked only for one depth of
  stack that serves all values (`AvroMatching.OneDepthForAll`).
- JSONPath: a segment of several selectors or a filter prints to something the parser refuses
  (`JsonPathRoundTrip.SegmentFails`).
- Expressions: success takes the names of the operators that ran out of the store, so it is unchanged
  exactly when it held none of them (`ExpressionScoping.StoreAfter`, `ExpressionScoping.LoneOperator`);
  an operator that fails inside its loop leaves its names behind, one that fails before does not
  (`ExpressionScoping.FailureLeaks`, `ExpressionScoping.FailedReduceLeaks`,
  `ExpressionScoping.Agrees`); and rebinding a name changes results (`ExpressionScoping.RebindingFails`,
  while `ExpressionScoping.NoSharing` says when nothing does).
- Octet reader: an empty chunk in front makes reads within bounds panic (`OctetReader.EmptyChunkPanics`).
- Random documents: a key drawn twice may leave kept paths that lead nowhere
  (`RandomJson.RepeatedKey`); no step does exactly when none replaces what a kept path leads to
  (`RandomJson.RunTracked`).
- SSH integers: from -2^119 down the encoder shifts by the width of the word, which panics with
  overflow checks and gives wrong bytes without (`Mpint.RoundTrip`, `Mpint.Astray`).
- JSON Pointer: `get` takes indices with a plus sign or leading zeros, `find` does not
  (`JsonPointer.GetThenFind`).
- Base64: the two array encoders differ for a NUL pad, and both write too much from a start that is
  not a multiple of three (`Base64Codec.EncodersAgree`, `Base64Codec.StartsExactly`).

## Model

| member | source | states |
|---|---|---|
| ArenaTree.ShapeUnique | crates/sonic-forest/src/util2.rs:10-34 | the links of an arena spell out one tree only, so the tree the other rows speak of is a function of the arena |
| ArenaTree.First2 | crates/sonic-forest/src/util2.rs:37-46 | returns the first node of the in-order sequence, none for an empty tree |
| ArenaTree.Last2 | crates/sonic-forest/src/util2.rs:49-58 | returns the last node of the in-order sequence |
| ArenaTree.Next2 | crates/sonic-forest/src/util2.rs:61-80 | returns exactly the right neighbour in the in-order sequence, none at the end |
| ArenaTree.Prev2 | crates/sonic-forest/src/util2.rs:83-102 | returns exactly the left neighbour in the in-order sequence, none at the start |
| ArenaTree.NeighboursUndo | crates/sonic-forest/src/util2.rs:61-102 | if `y` is the neighbour of `x` on one side, `x` is the neighbour of `y` on the other |
| ArenaTree.CollectInOrder | crates/sonic-forest/src/util2.rs:273-282 | `first2` and then `next2` until it returns none enumerates the whole in-order sequence once |
| ArenaTree.CollectBackwards | crates/sonic-forest/src/util2.rs:49-102 | `last2` and then `prev2` enumerates it backwards |
| ArenaTree.InsertRight2 | crates/sonic-forest/src/util2.rs:106-114 | the tree stays well-formed and the node comes right behind its parent in order, the parent's old right subtree behind the node |
| ArenaTree.InsertLeft2 | crates/sonic-forest/src/util2.rs:116-124 | the tree stays well-formed and the node comes right before its parent in order, the parent's old left subtree before the node |
| ArenaTree.Insert2 | crates/sonic-forest/src/util2.rs:129-158 | ends, keeps well-formedness and root under any comparator; when a total preorder sorts the tree, the order is all nodes not above the new one, it, all above; slots outside the tree and all keys untouched |
| ArenaTree.Relink | crates/sonic-forest/src/util2.rs:163-222 | whichever child link of the parent led to the removed node now leads to what replaces it |
| ArenaTree.RemoveLeaf | crates/sonic-forest/src/util2.rs:163-222 | the case without children: same tree without the node, which ends with no links |
| ArenaTree.RemoveOne | crates/sonic-forest/src/util2.rs:163-222 | the case of one child: it moves up, same order without the node, which ends with no links |
| ArenaTree.RemoveBoth | crates/sonic-forest/src/util2.rs:163-222 | the case of two children: the right subtree goes under the rightmost node of the left one, same order without the node |
| ArenaTree.Remove2 | crates/sonic-forest/src/util2.rs:163-222 | well-formed tree with exactly that node deleted from the in-order sequence, in all link cases; the node ends with all three links empty; nothing else in the arena changes |
| ArenaTree.Step | crates/sonic-forest/src/util2.rs:129-222 | one insertion or removal on an arena does what it does to the sequence of live nodes |
| ArenaTree.Run | crates/sonic-forest/src/util2.rs:129-222 | any legal run of insertions and removals ends in the tree order the sequence specification computes |
| ArenaTree.RunsStaySorted | crates/sonic-forest/src/util2.rs:129-222 | after any legal run the order is a sorted permutation of the live nodes, equal keys in insertion order, and no node is in it twice |
| AvroSession.RoundTrip | crates/json-joy-json-pack/src/avro/schema_encoder.rs:56-243 | decoding what a clean encoder wrote, in front of any other bytes, gives the normalised value and leaves exactly those bytes, if and only if it holds no empty array or map and no `__proto__` key; when the value alone comes back, one zero byte is left over for each empty collection |
| AvroMeaning.DecodesToMeaning | crates/json-joy-json-pack/src/avro/schema_encoder.rs:110-243 | what a clean encoder wrote stands, by a relation on value and schema alone, for exactly one value, and decodes to that, with exactly the bytes behind it left, if and only if it has no empty array or map and no `__proto__` key |
| AvroMeaning.NormStands | crates/json-joy-json-pack/src/avro/schema_encoder.rs:110-243 | that value is the normal form: numbers converted as the platform does, fields in schema order from the first entry of their name or the default, branches named |
| AvroMeaning.OwnRoundTrip | crates/json-joy-json-pack/src/avro/schema_encoder.rs:110-243 | a value made of the schema's own constructors throughout comes back as it is, under the same condition |
| AvroMeaning.PromotionRoundTrip | crates/json-joy-json-pack/src/avro/schema_encoder.rs:119-160 | each conversion between the four number types comes back as the platform's conversion |
| AvroRoundTrip.ValueLands | crates/json-joy-json-pack/src/avro/schema_encoder.rs:110-243 | the same for every nested value at every schema, wherever it lies behind zero bytes left over from empty collections before it |
| AvroDepth.Deeper | crates/json-joy-json-pack/src/avro/schema_encoder.rs:110-243 | more stack changes neither the bytes of a value that could be written nor what they stand for |
| AvroSession.PendingIsSpilt | crates/json-joy-json-pack/src/avro/schema_encoder.rs:56-71 | what is in the writer after any run of calls is what the failed calls since the last success had written |
| AvroSession.RunResults | crates/json-joy-json-pack/src/avro/schema_encoder.rs:56-71 | in any run of calls on one encoder a success returns its own encoding behind the bytes spilt since the last success, hence its own alone exactly when nothing was spilt; a failure gives the same error as on a fresh encoder |
| AvroSession.EmptyArrayShifts | crates/json-joy-json-pack/src/avro/schema_encoder.rs:198-206 | an input on which the round trip fails: a record of an empty array and the number 5 reads back with the number 0 |
| AvroSession.FailureSpills | crates/json-joy-json-pack/src/avro/schema_encoder.rs:56-71 | an input that passes validation, fails to be written and leaves its first field in the writer |
| AvroMatching.WrittenMatches | crates/json-joy-json-pack/src/avro/schema_encoder.rs:110-294 | whatever value is written under a schema, the matcher accepts |
| AvroMatching.MatchedWrites | crates/json-joy-json-pack/src/avro/schema_encoder.rs:110-294 | when defaults match their fields, a value the matcher accepts can only fail to be written for want of stack |
| AvroMatching.AcyclicUnfolds | crates/json-joy-json-pack/src/avro/schema_encoder.rs:100-108 | a schema whose references form no cycle unfolds to a bounded depth |
| AvroMatching.UnfoldedWrites | crates/json-joy-json-pack/src/avro/schema_encoder.rs:110-243 | stack for that depth is enough for any value |
| AvroMatching.MatchExactlyWrites | crates/json-joy-json-pack/src/avro/schema_encoder.rs:110-294 | recursive schemas included: the matcher accepts exactly the values that can be written with some depth of stack, if and only if no record with distinct field names that a value may hold has a default that cannot itself be written under its field |
| AvroMatching.AcceptedMatchExactly | crates/json-joy-json-pack/src/avro/schema_encoder.rs:110-294 | the same for every schema the validator accepts, with the names the codec collects from it |
| AvroMatching.Write | crates/json-joy-json-pack/src/avro/schema_encoder.rs:110-243 | a match is written with some depth of stack, if the defaults of the records in it are |
| AvroMatching.PartsWrite | crates/json-joy-json-pack/src/avro/schema_encoder.rs:110-294 | where every match of a schema can be written, so can the record's own defaults and every match of a schema inside |
| AvroMatching.DefaultsTried | crates/json-joy-json-pack/src/avro/schema_encoder.rs:110-243 | for that it is enough that each default of the schema and its named types can be encoded by itself |
| AvroMatching.OneDepthForAll | crates/json-joy-json-pack/src/avro/schema_encoder.rs:110-294 | when references form no cycle and defaults match, one depth of stack serves all values at once |
| AvroMatching.FirstBranchWrites | crates/json-joy-json-pack/src/avro/schema_encoder.rs:232-240 | under the same condition on defaults, recursive or not, the branch chosen for a bare union value can be written, and no earlier branch can |
| AvroMatching.UncheckedDefault | crates/json-joy-json-pack/src/avro/schema_encoder.rs:245-294 | a default of the wrong type: the record matches and cannot be written |
| AvroMatching.EndlessDefault | crates/json-joy-json-pack/src/avro/schema_encoder.rs:110-189 | a record that is the default of its own field: it matches, and no stack is deep enough to write it |
| AvroMatching.MatchPassesExactly | crates/json-joy-json-pack/src/avro/schema_validator.rs:191-318 | every match passes the validator exactly when no named type that takes a primitive name has any values |
| AvroMatching.MatchedPasses | crates/json-joy-json-pack/src/avro/schema_validator.rs:191-318 | a value the matcher accepts passes the validator, when primitive names hide nothing |
| AvroMatching.PassedUnwritten | crates/json-joy-json-pack/src/avro/schema_validator.rs:292-318 | the validator is looser: an integral double passes for an int and cannot be written |
| AvroMatching.PassedMatches | crates/json-joy-json-pack/src/avro/schema_validator.rs:191-290 | a value without numbers passes only if it matches, where no reference bears a primitive name |
| AvroMatching.NumberPassesExactly | crates/json-joy-json-pack/src/avro/schema_validator.rs:292-318 | which numbers pass: any for float and double, those integral as doubles for long, within 32 bits for int |
| AvroMatching.PrimitiveRefPasses | crates/json-joy-json-pack/src/avro/schema_validator.rs:220-234 | a reference to a primitive name passes what that type passes |
| AvroValidator.UnionAccepted | crates/json-joy-json-pack/src/avro/schema_validator.rs:84-100 | a union is accepted exactly when it has alternatives, each is accepted behind the ones before, and no two are of one kind or name |
| AvroValidator.CheckedNames | crates/json-joy-json-pack/src/avro/schema_validator.rs:41-189 | the validator's name table is the one encoder and decoder collect, and no name is defined twice |
| AvroEncoder.AvroSchemaValidator.ValidateSchema | crates/json-joy-json-pack/src/avro/schema_validator.rs:29-32 | starts from an empty table and decides the schema check |
| AvroEncoder.AvroSchemaValidator.ValidateValue | crates/json-joy-json-pack/src/avro/schema_validator.rs:35-39 | checks the value against the names of that schema |
| AvroEncoder.AvroSchemaValidator.ValidateSchemaInternal | crates/json-joy-json-pack/src/avro/schema_validator.rs:41-75 | decides the schema check, with the name table it leaves on success and on failure |
| AvroEncoder.AvroSchemaValidator.Define | crates/json-joy-json-pack/src/avro/schema_validator.rs:102-120 | a name goes into the table exactly when it is neither empty nor taken |
| AvroEncoder.AvroSchemaValidator.ValidateUnionSchema | crates/json-joy-json-pack/src/avro/schema_validator.rs:84-100 | alternatives valid and of different type names, at least one |
| AvroEncoder.AvroSchemaValidator.ValidateFields | crates/json-joy-json-pack/src/avro/schema_validator.rs:102-134 | field names not empty and distinct, field schemas valid, each seeing the names defined before it |
| AvroEncoder.AvroSchemaValidator.ValidateSymbols | crates/json-joy-json-pack/src/avro/schema_validator.rs:136-170 | symbols distinct, at least one, the default among them |
| AvroEncoder.AvroEncoder.WriteVarint | crates/json-joy-json-pack/src/avro/encoder.rs:51-74 | appends the base-128 digits of the number, least significant first, the top bit on all but the last |
| AvroEncoder.AvroEncoder.WriteInt | crates/json-joy-json-pack/src/avro/encoder.rs:39-42 | appends the zigzag varint of the number |
| AvroEncoder.AvroEncoder.WriteLong | crates/json-joy-json-pack/src/avro/encoder.rs:45-48 | appends the zigzag varint of the number |
| AvroEncoder.AvroEncoder.WriteBoolean | crates/json-joy-json-pack/src/avro/encoder.rs:82-84 | appends one byte, 1 or 0 |
| AvroEncoder.AvroEncoder.WriteFloat | crates/json-joy-json-pack/src/avro/encoder.rs:86-89 | appends the bit pattern, least significant byte first |
| AvroEncoder.AvroEncoder.WriteDouble | crates/json-joy-json-pack/src/avro/encoder.rs:91-94 | appends the bit pattern, least significant byte first |
| AvroEncoder.AvroEncoder.WriteBytes | crates/json-joy-json-pack/src/avro/encoder.rs:96-105 | appends the length as a varint of 32 bits and the bytes, for bytes and strings |
| AvroEncoder.AvroSchemaEncoder.Encode | crates/json-joy-json-pack/src/avro/schema_encoder.rs:56-71 | returns and leaves in the writer exactly what the session specification says, on failure too |
| AvroEncoder.AvroSchemaEncoder.CollectNamed | crates/json-joy-json-pack/src/avro/schema_encoder.rs:74-98 | collects the named types of the schema, later definitions winning |
| AvroEncoder.AvroSchemaEncoder.WriteValue | crates/json-joy-json-pack/src/avro/schema_encoder.rs:110-116 | appends the bytes and returns the error of the specification; a failure leaves what was written before it |
| AvroEncoder.AvroSchemaEncoder.WriteResolved | crates/json-joy-json-pack/src/avro/schema_encoder.rs:117-243 | the same for a schema that is no reference |
| AvroEncoder.AvroSchemaEncoder.WriteRecord | crates/json-joy-json-pack/src/avro/schema_encoder.rs:178-189 | fields in schema order, from the record's entry or the default, stopping at the first that fails |
| AvroEncoder.AvroSchemaEncoder.WriteArray | crates/json-joy-json-pack/src/avro/schema_encoder.rs:198-206 | count, elements, closing zero |
| AvroEncoder.AvroSchemaEncoder.WriteMap | crates/json-joy-json-pack/src/avro/schema_encoder.rs:207-216 | count, keys and values, closing zero |
| AvroEncoder.AvroSchemaEncoder.WriteUnion | crates/json-joy-json-pack/src/avro/schema_encoder.rs:224-240 | the branch named or the first that matches, its index and the value |
| AvroDecoder.AvroDecoder.ReadVarint | crates/json-joy-json-pack/src/avro/decoder.rs:76-102 | reads what the specification reads: bits modulo the word, an error at the end of the input or after too many bytes |
| AvroDecoder.AvroDecoder.ReadBytesRaw | crates/json-joy-json-pack/src/avro/decoder.rs:64-72 | takes that many bytes or none |
| AvroDecoder.AvroDecoder.ReadInt | crates/json-joy-json-pack/src/avro/decoder.rs:106-110 | zigzag decoding of a 32-bit varint |
| AvroDecoder.AvroDecoder.ReadLong | crates/json-joy-json-pack/src/avro/decoder.rs:112-116 | zigzag decoding of a 64-bit varint |
| AvroDecoder.AvroDecoder.ReadBoolean | crates/json-joy-json-pack/src/avro/decoder.rs:121-123 | one byte, any but zero for true |
| AvroDecoder.AvroDecoder.ReadBytes | crates/json-joy-json-pack/src/avro/decoder.rs:141-144 | length and bytes |
| AvroDecoder.AvroDecoder.ReadStr | crates/json-joy-json-pack/src/avro/decoder.rs:146-154 | length and bytes, refused when not UTF-8 |
| AvroDecoder.AvroSchemaDecoder.Decode | crates/json-joy-json-pack/src/avro/schema_decoder.rs:33-45 | returns the value or error of the specification and stops where it says |
| AvroDecoder.AvroSchemaDecoder.CollectNamed | crates/json-joy-json-pack/src/avro/schema_decoder.rs:47-71 | collects the same names as the encoder |
| AvroDecoder.AvroSchemaDecoder.ReadValue | crates/json-joy-json-pack/src/avro/schema_decoder.rs:73-81 | reads a value and stops where the specification says |
| AvroDecoder.AvroSchemaDecoder.ReadResolved | crates/json-joy-json-pack/src/avro/schema_decoder.rs:82-125 | the same for a schema that is no reference |
| AvroDecoder.AvroSchemaDecoder.ReadRecord | crates/json-joy-json-pack/src/avro/schema_decoder.rs:92-99 | the fields in schema order, stopping at the first error |
| AvroDecoder.AvroSchemaDecoder.ReadUnionValue | crates/json-joy-json-pack/src/avro/schema_decoder.rs:111-122 | branch index in range and the value under it |
| AvroDecoder.AvroSchemaDecoder.ReadArrayValue | crates/json-joy-json-pack/src/avro/schema_decoder.rs:127-140 | blocks of elements until a block of none |
| AvroDecoder.AvroSchemaDecoder.ReadMapValue | crates/json-joy-json-pack/src/avro/schema_decoder.rs:142-159 | blocks of entries until a block of none |
| AvroDecoder.AvroSchemaDecoder.ReadMapEntry | crates/json-joy-json-pack/src/avro/schema_decoder.rs:151-155 | key and value, `__proto__` refused |
| AvroDecoder.ReadShrinks | crates/json-joy-json-pack/src/avro/schema_decoder.rs:81-159 | no read leaves more input than it was given |
| JsonPathRoundTrip.RoundTrip | crates/json-joy-json-path/src/util.rs:6-123 | the printed form of a path parses to that path if and only if each segment has exactly one selector and that is no filter; otherwise it does not parse at all |
| JsonPathRoundTrip.PrintingIsInjective | crates/json-joy-json-path/src/util.rs:6-123 | a path of single selectors is determined by its printed form, whatever the other path |
| JsonPathRoundTrip.SegmentFails | crates/json-joy-json-path/src/util.rs:34-102 | a segment of none, several or a filter selector prints to something the parser refuses, whatever is behind it |
| JsonPathSpelling.SpellingParses | crates/json-joy-json-path/src/parser.rs:43-285 | however a path without filters is written, with white space, lists, trailing commas, both quotes and escapes, the parser reads exactly what it says |
| JsonPathSpelling.BracketListParses | crates/json-joy-json-path/src/parser.rs:115-146 | a bracket of any number of selectors is one segment of all of them, in order |
| JsonPathSpelling.QuotedSpelling | crates/json-joy-json-path/src/parser.rs:251-285 | a quoted name is read to its closing quote, each escape as what it stands for; an unknown escape and a missing quote are refused |
| JsonPathSpelling.FilterReads | crates/json-joy-json-path/src/parser.rs:148-181 | a filter is what the filter parser takes behind the question mark, perhaps between parentheses |
| JsonPathSpelling.PrintsAs | crates/json-joy-json-path/src/util.rs:6-123 | how each selector prints, behind one dot or two: names in quotes unless they are identifiers |
| JsonPathParser.PathToString | crates/json-joy-json-path/src/util.rs:6-13 | builds the printed form segment by segment |
| JsonPathParser.EscapeSingleQuoted | crates/json-joy-json-path/src/util.rs:113-123 | backslash and quote escaped, everything else kept |
| JsonPathRoundTrip.QuotedParses | crates/json-joy-json-path/src/util.rs:113-123 | any name, escaped and quoted, parses back to itself |
| JsonPathParser.PrintAndParse | crates/json-joy-json-path/src/parser.rs:43-90 | printing with the one and parsing with the other is what the round trip speaks of |
| JsonPathParser.Parser.Parse | crates/json-joy-json-path/src/parser.rs:38-90 | returns the path or error of the specification and stops where it says |
| JsonPathParser.Parser.ParseSegment | crates/json-joy-json-path/src/parser.rs:59-86 | one segment: dot, dots or bracket |
| JsonPathParser.Parser.ParseRecursiveSelector | crates/json-joy-json-path/src/parser.rs:92-113 | what follows two dots |
| JsonPathParser.Parser.ParseBracketSelectors | crates/json-joy-json-path/src/parser.rs:115-146 | a bracketed list of at least one selector |
| JsonPathParser.Parser.ParseBracketList | crates/json-joy-json-path/src/parser.rs:119-144 | selectors between commas, a comma allowed before the closing bracket |
| JsonPathParser.Parser.ParseBracketSelector | crates/json-joy-json-path/src/parser.rs:148-181 | quoted name, wildcard, number, slice or filter |
| JsonPathParser.Parser.ParseFilterSelector | crates/json-joy-json-path/src/parser.rs:163-178 | an optional pair of parentheses around what the filter parser takes |
| JsonPathParser.Parser.ParseIndexOrSlice | crates/json-joy-json-path/src/parser.rs:183-201 | an index, or a slice with each part optional |
| JsonPathParser.Parser.ParseOptionalNumber | crates/json-joy-json-path/src/parser.rs:203-210 | a number if one starts here |
| JsonPathParser.Parser.ParseNumber | crates/json-joy-json-path/src/parser.rs:212-231 | sign and digits within the machine integer, else an error |
| JsonPathParser.Parser.ParseIdentifier | crates/json-joy-json-path/src/parser.rs:233-249 | one or more letters, digits, underscores and hyphens, in any order |
| JsonPathParser.Parser.ParseString | crates/json-joy-json-path/src/parser.rs:251-285 | a quoted string with its escapes |
| JsonPathEval.EvalQuery | crates/json-joy-json-path/src/eval.rs:20-60 | as many paths as values, following each path from the document reaches the value beside it, and both are those of the query specification |
| JsonPathEval.QueryReaches | crates/json-joy-json-path/src/eval.rs:20-241 | every path a query returns leads to the value returned with it |
| JsonPathEval.EvalOne | crates/json-joy-json-path/src/eval.rs:62-73 | one segment on one node |
| JsonPathEval.RecursiveIsPreorder | crates/json-joy-json-path/src/eval.rs:75-104 | a recursive segment yields the selectors' results on every descendant-or-self node, concatenated in preorder |
| JsonPathEval.DescendantsExact | crates/json-joy-json-path/src/eval.rs:75-104 | those nodes are exactly the values the document's paths lead to, each path once |
| JsonPathEval.EvalRecursive | crates/json-joy-json-path/src/eval.rs:75-104 | pushes exactly those results, values and paths in step |
| JsonPathEval.EvalSelectors | crates/json-joy-json-path/src/eval.rs:62-73 | the selectors one after another |
| JsonPathEval.EvalSelector | crates/json-joy-json-path/src/eval.rs:106-241 | pushes a selector's results, values and paths in step |
| JsonPathEval.SliceSelects | crates/json-joy-json-path/src/eval.rs:159-207 | section 2.3.4.2 of RFC 9535: a slice selects exactly the positions in bounds at whole steps, ascending for a positive step and descending for a negative one, none for zero, each once |
| JsonPathSelectors.NameSelects | crates/json-joy-json-path/src/eval.rs:109-123 | a name selects the member of that name, of objects only |
| JsonPathSelectors.IndexSelects | crates/json-joy-json-path/src/eval.rs:124-138 | an index selects the element at it, or that many from the end when negative, and nothing when there is none |
| JsonPathSelectors.WildcardSelects | crates/json-joy-json-path/src/eval.rs:139-156 | a wildcard selects every child, in order |
| JsonPathSelectors.SliceSelectsElements | crates/json-joy-json-path/src/eval.rs:157-206 | a slice selects exactly the elements RFC 9535 says, in its order, under their positions |
| JsonPathSelectors.FilterSelects | crates/json-joy-json-path/src/eval.rs:207-241 | a filter selects exactly the children it holds of, in order; of an object at the root, that object |
| JsonPathSelectors.SelectorsInOrder | crates/json-joy-json-path/src/eval.rs:61-75 | the selectors of a segment one after another |
| JsonPathSelectors.OneSelector | crates/json-joy-json-path/src/eval.rs:20-60 | a query of one selector is what that selects from the document |
| JsonPathSelectors.SegmentsApply | crates/json-joy-json-path/src/eval.rs:20-60 | one segment more is applied to each node found so far, in order |
| JsonPathEval.SliceCounter | crates/json-joy-json-path/src/eval.rs:180-205 | between two selected positions the loop counter moves by exactly the step, so it stays in the array until after the last one |
| JsonPathEval.PushSlice | crates/json-joy-json-path/src/eval.rs:159-207 | pushes the selected elements in that order |
| JsonPathEval.PushUpwards | crates/json-joy-json-path/src/eval.rs:180-191 | the loop for positive steps |
| JsonPathEval.PushDownwards | crates/json-joy-json-path/src/eval.rs:192-205 | the loop for negative steps |
| JsonPathEval.PushKids | crates/json-joy-json-path/src/eval.rs:140-158 | every child in order under its index or key |
| JsonPathEval.PushPassing | crates/json-joy-json-path/src/eval.rs:208-239 | the children a filter holds of, in order |
| BsonRoundTrip.RoundTrip | crates/json-joy-json-pack/src/bson/encoder.rs:28-208 | a document under 2^31 bytes decodes from any place in a buffer to its normal form and ends where its size says; it comes back itself if and only if keys and regular expressions have no NUL and object ids fit, at every depth |
| BsonRoundTrip.EncodingIsInjective | crates/json-joy-json-pack/src/bson/encoder.rs:28-208 | two such documents with the same encoding are the same |
| BsonRoundTrip.ArrayOrder | crates/json-joy-json-pack/src/bson/decoder.rs:197-206 | sorting by decimal key gives an array's elements back in their order |
| BsonRoundTrip.DocumentRead | crates/json-joy-json-pack/src/bson/decoder.rs:112-138 | any document nested in any buffer is read to its normal form and ends exactly where its size field says |
| BsonRoundTrip.BooleanBytes | crates/json-joy-json-pack/src/bson/encoder.rs:91-95 | the bytes of a boolean, one for true and zero for false |
| BsonRoundTrip.ScopeLength | crates/json-joy-json-pack/src/bson/encoder.rs:127-138 | the length in front of code with scope counts itself, code and scope |
| BsonCodec.WriteDocument | crates/json-joy-json-pack/src/bson/encoder.rs:32-43 | size, fields and closing zero; panics exactly when a decimal in it is not 16 bytes |
| BsonCodec.WriteArray | crates/json-joy-json-pack/src/bson/encoder.rs:63-74 | the same with elements under their decimal positions |
| BsonCodec.Buffer.WriteKeyValue | crates/json-joy-json-pack/src/bson/encoder.rs:45-170 | type byte, key and content, panics included |
| BsonCodec.Buffer.WriteContent | crates/json-joy-json-pack/src/bson/encoder.rs:45-170 | the content of a value of each type; panics exactly when a decimal in it is not 16 bytes |
| BsonCodec.Buffer.WriteCodeWithScope | crates/json-joy-json-pack/src/bson/encoder.rs:127-138 | room for the total length left in front and filled in at the end, so that it covers itself, code and scope |
| BsonCodec.Buffer.WriteCString | crates/json-joy-json-pack/src/bson/encoder.rs:173-181 | up to the first NUL, then a NUL |
| BsonCodec.Buffer.WriteString | crates/json-joy-json-pack/src/bson/encoder.rs:184-190 | length with its NUL, the bytes and the NUL |
| BsonCodec.Buffer.WriteObjectId | crates/json-joy-json-pack/src/bson/encoder.rs:193-208 | timestamp and counter most significant byte first, process least |
| BsonCodec.BsonDecoder.Decode | crates/json-joy-json-pack/src/bson/decoder.rs:34-39 | returns what the specification reads from the start |
| BsonCodec.BsonDecoder.Buf | crates/json-joy-json-pack/src/bson/decoder.rs:41-47 | takes that many bytes, or fails where the source fails or panics |
| BsonCodec.BsonDecoder.Int32Le | crates/json-joy-json-pack/src/bson/decoder.rs:56-66 | four bytes as a signed number |
| BsonCodec.BsonDecoder.ReadDocument | crates/json-joy-json-pack/src/bson/decoder.rs:112-138 | reads a document and moves to where its size says, with every error and panic of the specification |
| BsonCodec.BsonDecoder.ReadFields | crates/json-joy-json-pack/src/bson/decoder.rs:124-136 | the elements up to the end or a zero type byte |
| BsonCodec.BsonDecoder.ReadCString | crates/json-joy-json-pack/src/bson/decoder.rs:140-152 | up to the first NUL, refused when not UTF-8 or not closed |
| BsonCodec.BsonDecoder.ReadString | crates/json-joy-json-pack/src/bson/decoder.rs:154-162 | length and bytes without the NUL |
| BsonCodec.BsonDecoder.ReadElementValue | crates/json-joy-json-pack/src/bson/decoder.rs:164-195 | a value of the type given |
| BsonCodec.BsonDecoder.ReadCodeWithScope | crates/json-joy-json-pack/src/bson/decoder.rs:247-254 | total length, code and scope |
| BsonCodec.BsonDecoder.ReadObjectId | crates/json-joy-json-pack/src/bson/decoder.rs:215-233 | the three parts of twelve bytes |
| BsonCodec.BsonDecoder.ReadBinary | crates/json-joy-json-pack/src/bson/decoder.rs:208-213 | length, subtype and bytes |
| BsonCodec.BsonDecoder.ReadRegex | crates/json-joy-json-pack/src/bson/decoder.rs:235-239 | pattern and flags |
| BsonCodec.BsonDecoder.ReadDbPointer | crates/json-joy-json-pack/src/bson/decoder.rs:241-245 | name and object id |
| BsonCodec.BsonDecoder.ReadTimestamp | crates/json-joy-json-pack/src/bson/decoder.rs:256-263 | increment and timestamp |
| BencodeRoundTrip.RoundTrip | crates/json-joy-json-pack/src/bencode/encoder.rs:47-169 | whatever follows an encoding, decoding takes exactly the encoding and gives the canonical form, if and only if no number or length has too many digits and no key is `__proto__`; otherwise it fails |
| BencodeRoundTrip.SameEncoding | crates/json-joy-json-pack/src/bencode/encoder.rs:47-169 | values the decoder takes are encoded alike exactly when their canonical forms are the same |
| BencodeRoundTrip.CanonEncodes | crates/json-joy-json-pack/src/bencode/encoder.rs:47-169 | the canonical form has the same encoding as the value |
| BencodeRoundTrip.KeyOrderInvisible | crates/json-joy-json-pack/src/bencode/encoder.rs:159-169 | with distinct keys neither encoding nor canonical form depends on the order the keys are listed in |
| BencodeRoundTrip.OrderInvisible | crates/json-joy-json-pack/src/bencode/encoder.rs:47-169 | the same for objects at any depth inside a value, all reordered at once |
| BencodeRoundTrip.SortIsStable | crates/json-joy-json-pack/src/bencode/encoder.rs:159-163 | pairs with the same key stay in the order given |
| BencodeRoundTrip.SortSorts | crates/json-joy-json-pack/src/bencode/encoder.rs:159-163 | keys in ascending byte order |
| BencodeRoundTrip.LessIsLexicographic | crates/json-joy-json-pack/src/bencode/encoder.rs:159-163 | a key comes before another when it is a proper prefix of it or has the smaller byte where they first differ |
| BencodeRoundTrip.NumberRead | crates/json-joy-json-pack/src/bencode/decoder.rs:84-112 | a printed number reads back in the narrowest variant, and fails exactly when it has over 25 characters |
| BencodeRoundTrip.StringRead | crates/json-joy-json-pack/src/bencode/decoder.rs:121-143 | a length-prefixed string reads back itself, and fails exactly when its length has over 10 digits |
| BencodeCodec.BencodeEncoder.Encode | crates/json-joy-json-pack/src/bencode/encoder.rs:35-39 | returns the value's encoding whatever was in the writer before, and leaves none of it |
| BencodeCodec.BencodeEncoder.WriteAny | crates/json-joy-json-pack/src/bencode/encoder.rs:47-62 | appends the value's encoding |
| BencodeCodec.BencodeEncoder.WriteNumber | crates/json-joy-json-pack/src/bencode/encoder.rs:110-132 | `i`, the decimal numeral and `e` |
| BencodeCodec.BencodeEncoder.WriteBin | crates/json-joy-json-pack/src/bencode/encoder.rs:134-145 | decimal length, colon and bytes |
| BencodeCodec.BencodeEncoder.WriteArr | crates/json-joy-json-pack/src/bencode/encoder.rs:151-157 | the items between `l` and `e` |
| BencodeCodec.BencodeEncoder.WriteObj | crates/json-joy-json-pack/src/bencode/encoder.rs:159-169 | the sorted pairs between `d` and `e` |
| BencodeCodec.Decode | crates/json-joy-json-pack/src/bencode/decoder.rs:48-54 | returns what the specification reads from the start |
| BencodeCodec.Cur.ReadAny | crates/json-joy-json-pack/src/bencode/decoder.rs:56-81 | reads a value and stops where the specification says, errors included |
| BencodeCodec.Cur.ReadNum | crates/json-joy-json-pack/src/bencode/decoder.rs:84-112 | at most 25 characters up to the closing `e` |
| BencodeCodec.Cur.ReadBin | crates/json-joy-json-pack/src/bencode/decoder.rs:121-143 | at most 10 digits up to the colon, and that many bytes |
| BencodeCodec.Cur.ReadArr | crates/json-joy-json-pack/src/bencode/decoder.rs:151-161 | items up to the closing `e` |
| BencodeCodec.Cur.ReadObj | crates/json-joy-json-pack/src/bencode/decoder.rs:163-178 | keys and values up to the closing `e`, a key not UTF-8 or `__proto__` refused |
| ExpressionScoping.StoreAfter | crates/json-expression/src/evaluate.rs:15-54 | success leaves the store exactly without the names of every `filter`, `map` and `reduce` that ran: at least those no evaluation gets around, at most those bound anywhere; it is unchanged if and only if it held none of them, which where the two bounds meet can be told from the expression |
| ExpressionScoping.LoneOperator | crates/json-expression/src/util.rs:674-726 | an operator with no other inside that succeeds leaves the store unchanged if and only if none of its names is in it |
| ExpressionScoping.OthersKept | crates/json-expression/src/evaluate.rs:15-54 | whatever the outcome, names the expression does not bind keep their values or stay away |
| ExpressionScoping.Agrees | crates/json-expression/src/evaluate.rs:15-54 | an expression that binds no name in the store or bound around the binding gives what the environment-passing evaluator gives, errors included; success leaves the store unchanged, failure leaves exactly the environment in which the failing part was evaluated |
| ExpressionScoping.NoSharing | crates/json-expression/src/evaluate.rs:15-54 | the same for a whole expression in the store it is evaluated in |
| ExpressionScoping.EachPointwise | crates/json-expression/src/util.rs:674-706 | in that evaluator `map` is pointwise and `filter` keeps in order exactly the elements whose value is truthy |
| ExpressionScoping.FoldInParts | crates/json-expression/src/util.rs:708-726 | `reduce` over two lists in a row goes on with the second from where the first left it: a left fold |
| ExpressionMeaning.LiteralMeans | crates/json-expression/src/evaluate.rs:15-40 | what stands for itself, and what is no expression |
| ExpressionMeaning.MistakeMeans | crates/json-expression/src/evaluate.rs:24-46 | unknown operators and wrong numbers of operands fail before any operand is evaluated |
| ExpressionMeaning.IfMeans | crates/json-expression/src/operators/branching.rs:10-17 | `if` takes its third operand exactly for undefined, null, false, 0 and the empty string and bytes, its second for everything else |
| ExpressionMeaning.ThrowMeans | crates/json-expression/src/operators/branching.rs:19-23 | `throw` fails with its operand's text |
| ExpressionMeaning.NotMeans | crates/json-expression/src/operators/logical.rs:32-35 | `not` gives true exactly for those values |
| ExpressionMeaning.ChainMeans | crates/json-expression/src/operators/logical.rs:10-30 | `and` evaluates in order up to the first false value, `or` up to the first other, and gives that operand's outcome |
| ExpressionMeaning.GetMeans | crates/json-expression/src/operators/input.rs:11-40 | `get` gives the part of the variable the pointer leads to, or fails |
| ExpressionMeaning.GetOrMeans | crates/json-expression/src/operators/input.rs:31-40 | the same with a default |
| ExpressionMeaning.DefinedMeans | crates/json-expression/src/operators/input.rs:42-46 | whether there is such a part |
| ExpressionMeaning.StrictMeans | crates/json-expression/src/evaluate.rs:15-54 | a strict operator that succeeds has evaluated its operands in order, each in the store the one before left |
| ExpressionMeaning.FilterMeans | crates/json-expression/src/util.rs:674-689 | a `filter` that succeeds keeps, in order, exactly the elements whose value is none of those false ones, each evaluated once in the store the one before left |
| ExpressionMeaning.MapMeans | crates/json-expression/src/util.rs:691-706 | a `map` that succeeds gives each element's value, null for what is not JSON |
| ExpressionMeaning.ReduceMeans | crates/json-expression/src/util.rs:708-726 | a `reduce` that succeeds folds over its elements, accumulator and element bound at each step |
| ExpressionMeaning.LoopMistakeMeans | crates/json-expression/src/operators/array.rs:98-134 | the errors of `filter` and `map` before their body is evaluated |
| ExpressionScoping.ShadowedIsLost | crates/json-expression/src/util.rs:674-726 | after success the names an operator bound are gone, also when they were in the store before |
| ExpressionScoping.FailureAdds | crates/json-expression/src/evaluate.rs:15-54 | a failing expression that binds no name in the store only adds names it binds, and changes none |
| ExpressionScoping.FailureLeaks | crates/json-expression/src/util.rs:674-706 | a failing `filter` or `map` whose name is new adds nothing if and only if it fails before its loop begins; else it leaves an element of its list under the name, wherever in the list the body fails |
| ExpressionScoping.FailedReduceLeaks | crates/json-expression/src/util.rs:708-726 | a failing `reduce` adds nothing if and only if it fails before setting its accumulator |
| ExpressionScoping.Forgets | crates/json-expression/src/util.rs:674-726 | an expression that, for any value of a name, has that value without sharing and fails with it, since it binds the name again |
| ExpressionScoping.RebindingFails | crates/json-expression/src/util.rs:674-726 | an expression that rebinds an enclosing name: in any store it fails, and without sharing it has a value |
| ExpressionEvaluator.Vars.Set | crates/json-expression/src/vars.rs:36-42 | sets the name, which must not be empty, and nothing else |
| ExpressionEvaluator.Vars.Del | crates/json-expression/src/vars.rs:53-58 | removes the name and nothing else |
| ExpressionEvaluator.Evaluate | crates/json-expression/src/evaluate.rs:15-54 | leaves the store and returns the result of the specification |
| ExpressionEvaluator.EvaluateOp | crates/json-expression/src/evaluate.rs:30-54 | the same for an operator of the right arity |
| ExpressionEvaluator.StrictEval | crates/json-expression/src/evaluate.rs:15-54 | operands left to right, stopping at the first error |
| ExpressionEvaluator.ChainEval | crates/json-expression/src/operators/logical.rs:10-30 | `and` and `or` stop at the first value that decides them |
| ExpressionEvaluator.ResolveVar | crates/json-expression/src/operators/input.rs:11-29 | the variable in front of the first slash and the pointer behind it |
| ExpressionEvaluator.GetEval | crates/json-expression/src/operators/input.rs:31-40 | the value, its default, or an error when undefined |
| ExpressionEvaluator.FilterEval | crates/json-expression/src/operators/array.rs:98-113 | operand, literal name and the loop |
| ExpressionEvaluator.FilterArr | crates/json-expression/src/util.rs:674-690 | the loop over one shared store, its name deleted only at its end |
| ExpressionEvaluator.MapEval | crates/json-expression/src/operators/array.rs:115-130 | operand, literal name and the loop |
| ExpressionEvaluator.MapArr | crates/json-expression/src/util.rs:692-706 | the loop over one shared store, its name deleted only at its end |
| ExpressionEvaluator.ReduceEval | crates/json-expression/src/operators/array.rs:132-156 | operand, initial value, literal names and the loop |
| ExpressionEvaluator.ReduceArr | crates/json-expression/src/util.rs:708-726 | the accumulator kept in the store between steps, both names deleted only at the end |
| Buffers.Writer.EnsureCapacity | crates/buffers/src/writer.rs:51-64 | room for the bytes asked for, pending bytes kept, a new array exactly when there was not room |
| Buffers.Writer.Grow | crates/buffers/src/writer.rs:66-74 | a new array that starts with the pending bytes, the base back at 0 |
| Buffers.Writer.Reset | crates/buffers/src/writer.rs:83-86 | nothing pending any more |
| Buffers.Writer.Flush | crates/buffers/src/writer.rs:95-102 | returns exactly the bytes written since the last flush or reset |
| Buffers.Writer.U8 | crates/buffers/src/writer.rs:113-117 | one byte behind the pending ones |
| Buffers.Writer.Buf | crates/buffers/src/writer.rs:248-253 | the bytes behind the pending ones, also when the array is replaced |
| Buffers.Writer.Integer | crates/buffers/src/writer.rs:129-181 | the integer's bytes most significant first behind the pending ones |
| Buffers.FlushesConserve | crates/buffers/src/writer.rs:83-109 | without a discard the flushes of a run and what is pending make up exactly what was put, in order |
| Buffers.RunWriter | crates/buffers/src/writer.rs:51-109 | any run of writes, flushes and resets returns what the plain specification says |
| Buffers.StreamingReader.Push | crates/buffers/src/streaming_reader.rs:46-49 | pushed bytes go behind the unread ones, also when growth moves the base; a saved position stays good exactly when there was room or nothing was consumed |
| Buffers.StreamingReader.Consume | crates/buffers/src/streaming_reader.rs:51-54 | what was read is dropped, unread bytes and position stay |
| Buffers.StreamingReader.SetX | crates/buffers/src/streaming_reader.rs:62-64 | back or forth among the bytes not consumed |
| Buffers.StreamingReader.Peek | crates/buffers/src/streaming_reader.rs:67-71 | the next byte, not taken |
| Buffers.StreamingReader.Skip | crates/buffers/src/streaming_reader.rs:73-77 | takes that many bytes or fails and takes none |
| Buffers.StreamingReader.Buf | crates/buffers/src/streaming_reader.rs:79-87 | the next bytes, taken, or fails and takes none |
| Buffers.StreamingReader.Integer | crates/buffers/src/streaming_reader.rs:112-207 | the integer of the next bytes most significant first |
| Buffers.StreamingReader.Reset | crates/buffers/src/streaming_reader.rs:256-260 | only the data given is unread |
| Buffers.FifoConserves | crates/buffers/src/streaming_reader.rs:35-87 | on a plain queue what was taken and what is left is what was there and what was pushed, in order |
| Buffers.RunReader | crates/buffers/src/streaming_reader.rs:35-87 | over any run of pushes, reads, skips and consumes the reader is that queue: bytes read and bytes left are exactly the bytes pushed |
| OctetReader.StreamingOctetReader.Push | crates/buffers/src/streaming_octet_reader.rs:37-40 | the chunk goes behind the unread bytes |
| OctetReader.StreamingOctetReader.U8 | crates/buffers/src/streaming_octet_reader.rs:49-61 | the next byte, taken; fails exactly when there is none or an empty chunk is in front |
| OctetReader.StreamingOctetReader.U32 | crates/buffers/src/streaming_octet_reader.rs:63-70 | the next four bytes most significant first |
| OctetReader.StreamingOctetReader.Peek | crates/buffers/src/streaming_octet_reader.rs:135-141 | the next byte, not taken |
| OctetReader.StreamingOctetReader.SkipUnsafe | crates/buffers/src/streaming_octet_reader.rs:116-133 | that many bytes off the front, across chunks |
| OctetReader.StreamingOctetReader.Skip | crates/buffers/src/streaming_octet_reader.rs:111-114 | takes that many bytes or fails and takes none |
| OctetReader.StreamingOctetReader.CopyTo | crates/buffers/src/streaming_octet_reader.rs:72-101 | the next bytes go to their place in the destination, nothing else in it changes, and they are taken |
| OctetReader.StreamingOctetReader.CopyChunks | crates/buffers/src/streaming_octet_reader.rs:79-97 | the loop over chunks writes exactly the next bytes |
| OctetReader.StreamingOctetReader.Buf | crates/buffers/src/streaming_octet_reader.rs:103-109 | the next bytes, taken |
| OctetReader.StreamingOctetReader.BufXor | crates/buffers/src/streaming_octet_reader.rs:143-152 | the next bytes unmasked, taken; a queue without empty chunks stays one |
| OctetReader.StreamingOctetReader.CopyXor | crates/buffers/src/streaming_octet_reader.rs:154-165 | the same into a destination |
| OctetReader.Run | crates/buffers/src/streaming_octet_reader.rs:32-165 | with no empty chunks pushed, calls in any order, pushes, sizes, bytes, words, peeks, skips, reads and copies, masked or not, answer as a plain byte queue does, panics and what they leave behind included |
| OctetReader.EmptyChunkPanics | crates/buffers/src/streaming_octet_reader.rs:49-61 | the condition is needed: behind an empty chunk there are bytes, and reading one panics |
| OctetReader.MaskedInParts | crates/buffers/src/streaming_octet_reader.rs:143-165 | section 5.3 of RFC 6455: a payload may be unmasked in parts if the offset is carried along |
| OctetReader.MaskedTwice | crates/buffers/src/streaming_octet_reader.rs:143-165 | masking twice gives the payload back |
| OctetReader.MaskedAt | crates/buffers/src/streaming_octet_reader.rs:143-165 | each byte of the payload against the byte of the mask its place modulo four says |
| OctetReader.WordIsSum | crates/buffers/src/streaming_octet_reader.rs:67-74 | a word is the sum of its bytes times powers of 256 |
| OctetReader.UnmaskInPieces | crates/buffers/src/streaming_octet_reader.rs:143-152 | consecutive unmasking reads of any sizes, the offset carried along, give what one read would |
| RandomJson.AdjustFollows | crates/json-joy-json-random/src/random_json.rs:299-313 | after an insert into an array every path that led somewhere leads, once adjusted, to the same value, or, for the array and what it is in, to that value with the insert made; never into the new element |
| RandomJson.AdjustInjective | crates/json-joy-json-random/src/random_json.rs:299-313 | different paths stay different |
| RandomJson.FollowReplaced | crates/json-joy-json-random/src/random_json.rs:361-374 | what any path leads to after a change at another path |
| RandomJson.ArrayStepTracked | crates/json-joy-json-random/src/random_json.rs:276-285 | adding to an array keeps all kept paths distinct and leading to containers |
| RandomJson.ObjectStepTracked | crates/json-joy-json-random/src/random_json.rs:286-294 | adding to an object does so exactly when no kept path leads to or through a value the member replaces, save that bytes may replace a container none of whose insides are kept |
| RandomJson.StepTracked | crates/json-joy-json-random/src/random_json.rs:259-297 | a step keeps the kept paths right if and only if it does not replace something they lead to; a fresh key never does |
| RandomJson.RunTracked | crates/json-joy-json-random/src/random_json.rs:252-297 | in every state of a run all kept paths are distinct and lead to containers, if and only if each of its steps does not replace something they lead to, and so while drawn keys are fresh |
| RandomJson.RepeatedKey | crates/json-joy-json-random/src/random_json.rs:286-294 | a run from an empty object that draws a key twice, after which a kept path leads to no container |
| RandomJson.NewIsKept | crates/json-joy-json-random/src/random_json.rs:259-297 | a step puts the drawn node in its place and keeps the path to it exactly when it is an empty array or object; other kept paths stay, adjusted |
| RandomJson.Generator.AddNode | crates/json-joy-json-random/src/random_json.rs:259-297 | one step on document and kept paths, for any random draws |
| RandomJson.Generator.AdjustIndicesAfterArrayInsert | crates/json-joy-json-random/src/random_json.rs:299-313 | adjusts every kept path in place |
| RandomJson.Create | crates/json-joy-json-random/src/random_json.rs:252-257 | any number of steps from an empty document, with any draws; the result is tracked when the steps spare the kept paths |
| Mpint.FromIsShortest | crates/json-joy-json-pack/src/json_pack_mpint.rs:20-57 | above -2^119 the bytes are the shortest two's complement form of the number, with or without overflow checks |
| Mpint.ShortestIsUnique | crates/json-joy-json-pack/src/json_pack_mpint.rs:20-57 | section 5 of RFC 4251: no other form of a number is shorter than its shortest, and none as short is different |
| Mpint.EncodesExactly | crates/json-joy-json-pack/src/json_pack_mpint.rs:20-57 | the bytes mean the number they were made from exactly above -2^119 |
| Mpint.ToReads | crates/json-joy-json-pack/src/json_pack_mpint.rs:60-82 | up to 15 bytes, and 16 without a sign, are read as what they mean |
| Mpint.RoundTrip | crates/json-joy-json-pack/src/json_pack_mpint.rs:20-82 | encoding and reading back gives the number exactly above -2^119; without overflow checks two mistakes cancel below it, except in the first two places and at the smallest number |
| Mpint.Astray | crates/json-joy-json-pack/src/json_pack_mpint.rs:28-42 | what the bytes mean from -2^119 down: the next number, or, for the smallest, a positive one |
| Mpint.MakeFromI128 | crates/json-joy-json-pack/src/json_pack_mpint.rs:20-57 | the loops that shift, strip and pad build those bytes |
| Mpint.ReadToI128 | crates/json-joy-json-pack/src/json_pack_mpint.rs:60-82 | the loop over the bytes computes that number |
| JsonPointer.ParseFormat | crates/json-joy-json-pointer/src/util.rs:22-51 | any path comes back from its pointer |
| JsonPointer.FormatParse | crates/json-joy-json-pointer/src/util.rs:22-51 | a pointer comes back from its path exactly when section 3 of RFC 6901 allows it |
| JsonPointer.TwoPassesUnescape | crates/json-joy-json-pointer/src/util.rs:6-11 | replacing everywhere twice is one pass over the text, well-formed or not |
| JsonPointer.TwoPassesEscape | crates/json-joy-json-pointer/src/util.rs:14-19 | the same for escaping |
| JsonPointer.FormatIsValid | crates/json-joy-json-pointer/src/util.rs:41-51 | every formatted pointer is one section 3 of RFC 6901 allows |
| JsonPointer.FormatJsonPointer | crates/json-joy-json-pointer/src/util.rs:41-51 | a slash and the escaped component for each |
| JsonPointer.IsChild | crates/json-joy-json-pointer/src/util.rs:64-74 | holds exactly when the one path is a proper prefix of the other |
| JsonPointer.FindThenGet | crates/json-joy-json-pointer/src/find.rs:8-79 | where `find` returns a value, `get` returns the same one |
| JsonPointer.GetThenFind | crates/json-joy-json-pointer/src/get.rs:4-30 | where `get` returns a value, `find` does too exactly when every step into an array is digits without a leading zero |
| JsonPointer.ReferenceIsPlace | crates/json-joy-json-pointer/src/find.rs:8-79 | the container found is what the path without its last step leads to, and the value is what the key leads to in it, if anything |
| JsonPointerPlaces.PlaceIsFound | crates/json-joy-json-pointer/src/find.rs:8-79 | whatever a path leads to, `find` and `get` find under its tokens, and `find` says in what and under which key |
| JsonPointerPlaces.FindsElement | crates/json-joy-json-pointer/src/find.rs:28-52 | of an array `find` takes exactly a position in decimal without leading zeros, also past the end, and the dash |
| JsonPointerPlaces.GetsElement | crates/json-joy-json-pointer/src/get.rs:12-24 | of an array `get` takes exactly a position in decimal, perhaps behind zeros and a plus sign, and gives the element there |
| JsonPointer.Find | crates/json-joy-json-pointer/src/find.rs:8-79 | the navigation loop, with every error |
| JsonPointer.Get | crates/json-joy-json-pointer/src/get.rs:4-30 | the lookup loop |
| Base64.SymbolsAreTheBits | crates/base64/src/create_to_base64.rs:60-101 | section 4 of RFC 4648: the characters' values are the bits of the data in groups of six, filled up with zeros |
| Base64Codec.Base64Encoder.constructor | crates/base64/src/create_to_base64.rs:42-51 | the table of pairs holds at 64 i + j the characters i and j |
| Base64Codec.Base64Encoder.ToBase64 | crates/base64/src/create_to_base64.rs:60-101 | the characters of the data, padded if there is a pad of one character |
| Base64Codec.Base64Encoder.ToBase64Bin | crates/base64/src/create_to_base64_bin.rs:68-135 | writes exactly the characters and pads at the offset, nothing else, and returns where they end, for any start |
| Base64Codec.Base64Encoder.ToBase64BinUint8 | crates/base64/src/create_to_base64_bin_uint8.rs:50-113 | the same, but for a NUL pad |
| Base64Codec.StartsExactly | crates/base64/src/create_to_base64_bin.rs:68-95 | the array encoders encode the data from the start on exactly when the start is a multiple of three; from any other they write too much |
| Base64Codec.EncodersAgree | crates/base64/src/create_to_base64_bin_uint8.rs:34-113 | the two array encoders pad alike exactly when the pad is no NUL or nothing is padded |
| Base64.PaddedRoundTrip | crates/base64/src/create_from_base64.rs:50-180 | decoding padded text gives the data, whether or not the decoder would do without padding |
| Base64.UnpaddedRoundTrip | crates/base64/src/create_from_base64.rs:50-180 | unpadded text gives the data exactly when the decoder does without padding or the text is full quartets |
| Base64.Takes | crates/base64/src/create_from_base64.rs:50-180 | the padded decoder takes exactly quartets of the alphabet's characters, the last with up to two pads, and gives the bytes they hold |
| Base64.EncodesBack | crates/base64/src/create_from_base64.rs:50-180 | decoded text is what encoding the result gives exactly when its spare bits are zero |
| Base64.BinRoundTrip | crates/base64/src/create_from_base64_bin.rs:62-203 | the slice decoder gives the data for text padded as it expects or not padded at all, whatever is behind it |
| Base64Codec.Base64Decoder.constructor | crates/base64/src/create_from_base64.rs:42-48 | the table holds each character's place in the alphabet, -1 for others |
| Base64Codec.Base64Decoder.FromBase64 | crates/base64/src/create_from_base64.rs:50-180 | does what the specification says, errors and panics included |
| Base64Codec.Base64Decoder.ReadQuartets | crates/base64/src/create_from_base64.rs:104-140 | the loop over full quartets into the buffer |
| Base64Codec.Base64Decoder.FromBase64Bin | crates/base64/src/create_from_base64_bin.rs:62-203 | does what the specification says, errors and panics included |
| Base64Codec.Base64Decoder.ReadPast | crates/base64/src/create_from_base64_bin.rs:175-203 | a single character left over makes it look at the byte behind, and it always fails or panics |

## Left out

- Bit operations are modelled by their arithmetic (shifts as multiplication and division, masks as
  remainders, wrap-around written out), except in the octet reader, which uses bit vectors.
- Floating-point numbers are bit patterns; conversions, rounding and classification of floats are
  parameters, as are UTF-8 validity and the Unicode character classes. What a proof needs of them is
  a named predicate (`Utf8Like`, `Sane`, `ConvertsIntegers`).
- The call stack: the Avro encoder and decoder take how many nested calls it has room for, and fail
  when it runs out. The other recursions follow their data and always end.
- Machine overflow of `usize` positions and of the slice loop's counter past the last position;
  `SliceCounter` shows the counter stays in the array before that.
- The JSONPath filter language, parser and evaluation alike, is a parameter: what the filter parser
  takes and whether a filter holds. `JsonPathRoundTrip.RoundTrip` asks of it only that an
  expression does not start with a dot.
- JSONPath positions count characters, not bytes.
- Operators of JSON expressions other than control flow, variables and the three that bind names:
  those that evaluate each operand once are one parameter; the few that take literal operands
  (regular expression and JSON Patch operators) are not part of this model. Lookup by pointer inside
  a variable is a parameter too.
- `SetMember` puts a new key at the end of an object; the source's map may put it elsewhere.
- Hash map iteration order of serialized objects, which nothing modelled here depends on.
- Writers and readers of integers of all widths are one member with the width as a parameter, where
  the source has one function for each width and sign.
- `encode_json` and `write_json` of the Bencode encoder, the `write_any` of the plain Avro encoder,
  and string readers of the buffers: they add only easy members.
- The alphabet's length check of the base64 factories, and alphabets that are not ASCII.
- `Base64Codec.Base64Encoder.ToBase64`: for a length past the end of its input the source panics;
  the length within bounds is a precondition, as are the destination's room and the readable range
  of the array encoders and decoders.
- `Buffers.StreamingReader.SetX`: the source takes any position; the position within the bytes
  written and not consumed is a precondition.
- `OctetReader.StreamingOctetReader.CopyTo`: room in the destination is a precondition, where the
  source panics.
- Which malformed BSON documents make the decoder panic rather than fail: the specification says so
  case by case (`Panics`), but no lemma describes those inputs as a whole.
- The CRDT model, its patches, the splay, AVL and other trees, the other codecs, regular expression
  and network code, and the bindings for other languages.
