# yeptris, verified

yeptris is a C library that parses and writes YAML, JSON, CBOR and Ruby's Marshal format around one document store.
This project models the parts of it where a fast or packed form has to keep a simple meaning, and proves that it does,
or exactly when it does not.

- **Bit-parallel scanning** (`words`, `swar`, `stage1`, `line_facts`): the JSON stage-1 scanner, which finds escaped
  quotes with one subtraction per 64 bytes and string interiors with a prefix xor, against a scanner that looks at one
  byte at a time; the word-at-a-time tests against byte predicates.
- **JSON tape** (`json_*`): the goto-driven walks of `tape.c` as loops that fill columns or 64-bit words in place, the
  pushdown machine they refine, and the grammar of RFC 8259 as concrete syntax trees. The machine decides the grammar;
  the rows are the preorder of the tree; the document built from them is the tree. The older reference walk, which is
  still the fallback, has its own machine and the looser grammar that machine decides on all bytes. Numbers, strings,
  rows and document leaves are also told in literal bytes (`json_numerals`, `json_strings`, `json_tokens`).
- **CBOR** (`cbor_*`, `floats`, `utf8`): the frame-stack decoder against a recursive reading of section 3 of RFC 8949,
  the two-pass encoder against a recursive encoding, canonical order of sections 4.2.1 and 4.2.2, rounding to half
  precision over the reals, and the round trip through the document store. `cbor_wire` defines data items as concrete
  syntax over bytes and says that exactly these are read, `cbor_documents` to which documents; `cbor_values`,
  `cbor_literals` and `cbor_order` say in bytes and numbers what heads deliver, how scalars are written and in which
  order maps are.
- **Marshal** (`marshal_*`): the writer's two passes over value records, its bignum limbs, the reader's memo tables,
  and what transcoding the written stream to CBOR comes to; in bytes, what records are written as (`marshal_records`),
  what the reader makes of every lead byte (`marshal_atoms`), of links between names (`marshal_symbols`) and of maps
  (`marshal_maps`).
- **Document store** (`dom_*`, `open_address`, `nametab`, `dup_scan`): sibling-linked trees under mutation with the depths
  kept beside them, the lazily built key index, and the open-addressing tables.

Loops and in-place updates are methods of classes over arrays and fields; each is proved against a function, and the
lemmas are about those functions. Machine words that matter are `bv64` (the scanning kernels) or numbers with their
bounds written out (CBOR arguments, int64, limbs, 64-bit tape rows). Kernels outside these files are parameters: the
scalar resolver, the text of floats (`Host.typed`, `Host.double`, `Host.rounded`) and the hash functions.

## Findings

Where the code does not do what its documentation or comments say, the model follows the code.

- A break directly after a tag head is accepted: the container closes with the chain pending, and the chain goes to the
  next item or is dropped (`CborLoose.TagBeforeBreakAccepted`, src/yeptris/cbor/decode.c:854-870).
- Strict mode is documented to take only text-string keys; it also takes simple values, and refuses
  indefinite-length text (`CborFacts.StrictKeys`).
- A lenient negative integer key is rendered one too small in magnitude (`CborFacts.NegativeKeyText`).
- An integer of -2^63 - 1 is delivered as an integer call, with a magnitude no int64 has: the test for a negative
  argument (src/yeptris/cbor/decode.c:468) admits one too many (`CborValues.BelowInt64`, and
  `CborValues.IntegerDelivered` for exactly which integers are doubles).
- The words of simple values 0 to 9 are rendered but not recognized (`CborDom.SimpleRoundTrip`).
- Boolean and null keys sort by their text but are written as `f4`, `f5`, `f6`, so a map with such keys can be out of
  canonical order (`CborCanonical.LiteralsDecide` says exactly when).
- tape.h describes extension records for tokens of 2^24 bytes and more. No code writes them: such a token's row loses
  its length and part of its offset (`JsonRecord.RowsThroughExactly`, `JsonTape.Walker.FusedColumns`).
- The long-key verdict noted during the walk is that of the first name over the limit in bytes; where its characters are
  wider it can be within the limit and hide a later name that is not (`JsonNames.HiddenKey`, and
  `JsonNames.VerdictsDifferExactly` for exactly when). The two entries that read the note
  (src/yeptris/parse.c:176-177, src/yeptris/tape.c:2126-2136) do so for ASCII texts, where the verdicts agree
  (`JsonKeys.AsciiAgrees`, `JsonKeys.NotedIsFound`).
- The reference walk takes a literal in an object's key place, without colon or value (src/yeptris/tape.c:319-358), and
  the strict entry falls back to it when the fused walk has rejected printable ASCII
  (src/yeptris/tape.c:2247-2278). So `yeptris_parse_json_tape`, which tape.h says parses strict JSON, returns success
  for `{true}` (`JsonStrict.LoneTrue`, `JsonEntry.EntryTakesLoneTrue`); `JsonEntry.TakenIsStrictExactly` and
  `JsonStrict.WalksAgreeExactly` say exactly which texts these are.
- An integer of Marshal's 'l' form takes a link slot in the reader and no object number in the writer, so links behind
  it pick the wrong slot (`MarshalShifts.BignumShiftsLinks`, `MarshalLinks.MeansExactly`).
- The reader's long is the writer's only between -2^40 and 2^32 (`MarshalNumber.LongRoundTrip`); the test for integer
  text accepts one leading separator (`MarshalNumber.PsychIntExactly`).
- The duplicate scan takes payloads 0 and 1 for one, so the integer keys 0 and 1 count as duplicates, and takes a plain
  and a quoted key of one text for two (`DupScan.KeysExactly`, `DupScan.StringKeys`).
- The name table takes all eight-byte names for one (`NameTab.FoldedExactly`), and a rehash seats names of three, five,
  six and seven bytes at the home of the name turned (`NameTab.HomeKeptExactly`, `NameTab.SafeLengths`). Whether such a
  name is lost depends on its two homes under the program's fixed hash, which is a parameter here: alone in the table
  it is found exactly when they are one (`NameTab.SetAndGrow`), and for every such name some hash loses it
  (`NameTab.LoseName`). Setting a lost name again gives it a second entry (`NameTab.NameTable.Set`).
- Only mutations set the attached bit, so on a parsed document an element or a root can be attached a second time: the
  status is success and the chain is a circle (`DomMutate.AddAgain`, `DomMutate.Document.ParsedAdmitsAll`,
  `DomForest.ChildTwice`). There `seq_set` of an element with itself, in any place but the last, cuts the chain behind
  it (`DomForest.SpliceExactly`).
- Attaching an ancestor is not refused (`DomForest.AncestorCloses`); `seq_set` and `map_set` of one never return, since
  the walk that renews depths follows the circle (`DomDepth.NeverReturns`).
- `map_set` on a present key renews the depths of the value from one below the key, two below the mapping
  (src/yeptris/dom/mutate.c:242), so documents can be refused as too deep one level early
  (`DomMutate.KeyDeepens`, `DomMutate.Document.MapSet`). Attaching a child that has children of its own gives it a new
  depth and leaves theirs: depths are the number of owners exactly as long as children are attached before they have
  any, or lay right already (`DomLevels.JoinStepped`, `DomMutate.BottomUp`).
- A value displaced by `map_set` keeps its link, and what hangs behind a node is not looked at when it is attached
  (`DomForest.LinkExactly`); adding a pair whose value id is the id the new key will get links the key twice, and
  appending a pair does not look at the key (`DomForest.PairExactly`, `DomMutate.Document.MapAdd`).
- The mutations find keys that are aliases or containers, the index does not: they agree exactly when the key found is a
  scalar (`DomMutate.FindIsScan`, `DomMutate.FindSeesAll`).

## Model

| member | source | states |
|---|---|---|
| `Stage1.Stage1Scalar` | src/yeptris/scan/json.c:773-802 | over any text the index holds, in increasing order, exactly the places of a bracket, brace, comma or colon outside strings and of opening quotes, a quote counting when no odd run of `5c` is in front of it; nothing behind it is written, the verdict is whether such quotes are even in number, and the flags say whether there is a `5c` and whether a byte below 0x20 is inside a string |
| `Stage1.Tokens` | src/yeptris/common/simd_text.h:222-249 | the token word of one block of up to 64 bytes has bit k exactly where byte k is a token of the scanner, and the carries it leaves are the scanner's state behind the block |
| `Stage1.Resolve` | src/yeptris/common/simd_text.h:253-264 | one block appends exactly its own tokens' offsets to the index, in order, and touches nothing behind them |
| `Stage1.EscapedIsOddRun` | src/yeptris/common/simd_text.h:222-249 | in the scanner a byte is escaped exactly when an odd run of backslashes stands before it |
| `Stage1.BorrowObeysLaw` | src/yeptris/common/simd_text.h:222-249 | one subtraction with borrow yields, for every backslash mask and carry, the word that satisfies the bytewise escape recurrence, and the right carry out |
| `Stage1.PrefixXorIsParity` | src/yeptris/common/simd_text.h:222-249 | the shift ladder gives at each bit the parity of the bits up to it |
| `Stage1.TokenListExact` | src/yeptris/common/simd_text.h:253-264 | the scanner's token list is strictly increasing and holds exactly the token positions |
| `Stage1.TokenExactly` | src/yeptris/common/simd_text.h:222-249 | a place is a token of the scanner exactly when an even number of live quotes is in front of it and it is one of six bytes or a live quote itself |
| `LineFacts.Eq8Exact` | src/yeptris/common/simd_text.h:302-307 | the lane test flags exactly the lanes that hold the byte |
| `LineFacts.LineFactsCapped` | src/yeptris/common/simd_text_scalar.c:198-261 | the word sweep returns the first break, the first byte that is no space and the first ':' or '#' between, as a byte scan defines them, and gives up exactly when no break lies within the cap |
| `LineFacts.LineFactsExactly` | src/yeptris/common/simd_text_scalar.c:198-261 | the byte scan in literal bytes: the end is the first 0a or 0d, the indent the first byte that is not 20, the stop the first 3a or 23 behind it, and there are no facts exactly when the first cap bytes hold no break and more follow |
| `Swar.FirstQuote` | src/yeptris/tape.c:869-978 | the lowest quote flag of a word is the first quote, with no byte before it that needs care |
| `Swar.FirstNonDigit` | src/yeptris/tape.c:617-636 | the lowest flag of the digit test is the first byte that is no digit |
| `Swar.SweepWord` | src/yeptris/tape.c:869-978 | a word has a flag exactly when it holds a control byte or one past ASCII, and the lowest flag is the first |
| `JsonSound.AcceptsExactly` | src/yeptris/tape.c:1337-1866 | the strict clean walk accepts a buffer exactly when it is, from the opener on, a JSON text of RFC 8259 with a container root, ASCII, without tabs, nested at most 256 deep, surrogate escapes in pairs |
| `JsonSound.AcceptedRows` | src/yeptris/tape.c:1337-1866 | the rows of an accepted text are DOC and the preorder rows of its tree, whichever reading of the grammar is taken |
| `JsonLinks.AcceptedLinked` | src/yeptris/tape.c:1337-1866 | in accepted rows the offsets of openers and closers are mutually inverse, and containers nest properly |
| `JsonTape.Walker.constructor` | src/yeptris/tape.c:60-80 | the carve: columns and words of len + 2 rows, no row written |
| `JsonTape.Walker.Fused` | src/yeptris/tape.c:755-1315 | the loop over labelled regions, into columns or into words, refines the pushdown machine; into words it also leaves the verdict on long keys, which is the one that walking the finished tape would give |
| `JsonTape.Walker.Columns` | src/yeptris/tape.c:1337-1866 | the columns walk accepts what the machine accepts and its columns are the machine's rows |
| `JsonTape.Walker.Materialize` | src/yeptris/tape.c:85-97 | unpacking the words gives each row back with the high bits of its length run into its offset and the length cut to 24 bits |
| `JsonTape.Walker.FusedColumns` | src/yeptris/tape.c:755-1315 | the walk into words followed by unpacking accepts what the columns walk accepts, and gives the same columns exactly when no token is 2^24 bytes or longer |
| `JsonRecord.RowsThroughExactly` | src/yeptris/tape.c:85-97 | packing and unpacking rows is the identity exactly when every length is below 2^24 |
| `JsonTape.Walker.LongSimpleKey` | src/yeptris/tape.c:699-753 | the search over a finished tape, one slot for each open container, finds exactly whether a row in a map's key place is a string of more than 1022 characters (or a container lies too deep) |
| `JsonKeys.NotedIsFound` | src/yeptris/tape.c:1007-1018 | the verdict the clean walk notes at its first candidate is the verdict of searching the finished tape |
| `JsonNames.VerdictsDifferExactly` | src/yeptris/tape.c:699-753 | on a text of any bytes with tokens below 2^24 bytes the search finds a long key exactly when some member name has more than 1022 characters, and the verdict noted on the way differs from it exactly when a name of more than 1022 bytes but not characters stands in front of every such name and there is one |
| `JsonNames.HiddenKey` | src/yeptris/tape.c:1007-1018 | an object whose first name is 600 characters in 1200 bytes and whose second is 1100 letters: the noted verdict is that no name is too long, the search finds one |
| `JsonLongKey.LongKeyIsMember` | src/yeptris/tape.c:699-753 | on the rows of a text the verdict is that some object at any depth has a member name of more than 1022 bytes |
| `JsonReference.TapeWalk` | src/yeptris/tape.c:162-380 | the token loop with its inline punctuation, on any bytes and with the tail checked or not, gives the reference machine's verdict and leaves its rows in the columns |
| `JsonLooseSound.TakesExactly` | src/yeptris/tape.c:162-380 | on any bytes the reference machine takes exactly the loose texts: containers nested at most 256 deep, strings, numbers and literals of RFC 8259, in an object pairs or lone literals; behind it whitespace when the tail is checked |
| `JsonLooseComplete.Accepts` | src/yeptris/tape.c:162-380 | the rows of a loose text are DOC and the preorder rows of its tree, and as many literals are met in key places as stand alone in its objects |
| `JsonStrict.StrictExactly` | src/yeptris/tape.c:319-358 | on any bytes the reference machine takes the text and meets no literal in a key place exactly when it is strict JSON, and takes every strict text with its tree's rows |
| `JsonStrict.WalksAgreeExactly` | src/yeptris/tape.c:162-380 | the fused walk accepts exactly the ASCII texts without tabs that the reference machine takes and no reading of which has a literal alone in an object; the rows are then the same |
| `JsonStrict.LoneTrue` | src/yeptris/tape.c:319-358 | `{true}` is taken by the reference machine with four rows and rejected by the fused walk |
| `JsonShape.ShapeOfNumber` | src/yeptris/scan/json.c:442-495 | in front of a delimiter the shape the scan reports for a number of RFC 8259 is its own length, float exactly when it has a fraction or an exponent |
| `JsonShape.ShapeIsNumber` | src/yeptris/scan/json.c:442-495 | whatever the scan gives a shape is a number of section 6 with that kind, and a delimiter or the end is behind it |
| `JsonEntry.ParseTape` | src/yeptris/tape.c:2211-2278 | for a container the strict entry's two walks succeed exactly on the clean texts and, when all bytes are printable ASCII or whitespace, on the loose texts; the columns are DOC and the preorder rows of any reading, and are linked; every row spans one token of the bytes, with only whitespace, commas and colons between them, and has the kind its bytes say |
| `JsonTokens.WalksSpell` | src/yeptris/tape.c:1337-1866 | the rows of either walk are the tokens of the bytes in order, and between two of them are only whitespace, commas and colons |
| `JsonTokens.RowsTold` | src/yeptris/tape.c:1660-1700 | a row has kind Nil exactly when its bytes are `null`, Yes when `true`, No when `false`, an integer's when they are an optional minus and digits, a string's when it lies between quotes |
| `JsonEntry.TakenIsStrictExactly` | src/yeptris/tape.c:2211-2278 | the header promises strict JSON: what the two walks take is strict exactly when no reading of it has a literal alone in an object |
| `JsonEntry.EntryTakesLoneTrue` | src/yeptris/tape.c:2247-2278 | `{true}` is taken and is no strict text |
| `JsonLinks.ParseRecords` | src/yeptris/parse.c:149-198 | the fast route of the parse: acceptance, columns equal to the preorder rows exactly when every token is below 2^24 bytes, and then the long-key verdict in terms of the text |
| `JsonScan.ScanString` | src/yeptris/tape.c:869-978 | the fused string arm ends at the closing quote the grammar gives, or refuses where it gives none |
| `JsonScan.JsonString` | src/yeptris/scan/json.c:571-624 | the string kernel ends at the closing quote of the section 7 grammar with paired surrogates |
| `JsonStrings.ContentExactly` | src/yeptris/scan/json.c:571-624 | what may stand between quotes, in literal bytes: unescaped bytes from 20 on but 22 and 5c, the eight two-byte escapes, and four hexadecimal digits behind `\u`, a pair of them for a code point past the first plane |
| `JsonNumber.NumOk` | src/yeptris/tape.c:650-689 | the one-pass check accepts exactly the number texts of section 6 of RFC 8259 |
| `JsonNumerals.NumberExactly` | src/yeptris/tape.c:650-689 | the number grammar is an automaton over literal bytes, which ends behind an integer, a fraction or an exponent |
| `JsonNumber.ScanNumber` | src/yeptris/tape.c:617-689 | the number arm takes the whole run, accepts exactly the numbers, and calls integers what has only digits behind its first byte |
| `JsonDom.FromTape` | src/yeptris/dom/dom.c:1039-1182 | rows that replay a tree build one document whose sibling links spell that tree, the stack ends empty and the repair branch is never taken |
| `JsonDom.ParseDocument` | src/yeptris/parse.c:149-198 | every clean text is taken, and where no token is 2^24 bytes or longer the document holds exactly its tree, its openings, leaves and closings are the tokens of the bytes in order with the kinds the bytes say, and it is refused by the key limit exactly when a name is too long |
| `JsonDom.DocumentSpells` | src/yeptris/parse.c:149-198 | the tree of a clean text, read in order, is its bytes' tokens: a leaf holds the bytes it was read from, with the kind they say |
| `CborDecode.Decoder.Decode` | src/yeptris/cbor/decode.c:811-891 | the frame loop makes exactly the calls of the recursive reading, in order, consumes what it consumes and fails as it fails, for every input, in both modes |
| `CborWire.ReadsExactly` | src/yeptris/cbor/decode.c:390-891 | in both modes the reading of any bytes ends with these calls at this place exactly when the bytes up to there spell a data item of section 3 of RFC 8949 that may stand there, with these calls: a definition by concrete syntax, heads in literal bytes, up to 1000 containers deep and 64 tags on one item |
| `CborWire.ItemReads` | src/yeptris/cbor/decode.c:390-628 | wherever an item's bytes stand it is read to its calls and exactly its bytes are taken, in every place it may stand in |
| `CborWire.ItemForm` | src/yeptris/cbor/decode.c:390-628 | whatever is read is the spelling of some item that may stand there |
| `CborWire.HexKeyExactly` | src/yeptris/cbor/decode.c:338-385 | a byte-string key is rendered as `h'`, two lower-case hexadecimal digits for each of its first 22 bytes, and a quote |
| `CborValues.IntegerDelivered` | src/yeptris/cbor/decode.c:451-473 | in every width a head of major type 0 delivers its argument and one of major type 1 delivers -1 minus it, as an integer call exactly from -2^63 - 1 to 2^63 - 1 and as a double elsewhere; strict mode takes only the shortest width |
| `CborValues.IntegerDecoded` | src/yeptris/cbor/decode.c:451-473 | the same of `Decode` itself for an integer alone, in every width and both modes |
| `CborValues.BelowInt64` | src/yeptris/cbor/decode.c:463-473 | `3b 80 00 00 00 00 00 00 00` is -2^63 - 1 and is delivered as an integer call |
| `CborValues.StringDelivered` | src/yeptris/cbor/decode.c:474-498 | a string head and its bytes deliver those bytes, or are refused exactly when text is no UTF-8 |
| `CborValues.ContainerDelivered` | src/yeptris/cbor/decode.c:499-531 | an array or map head opens a container of that many items or pairs, and is refused as too deep exactly behind 1000 open containers |
| `CborValues.TagDelivered` | src/yeptris/cbor/decode.c:532-536 | a tag's number joins the chain, and is refused exactly behind 64 of them |
| `CborValues.SimpleDelivered` | src/yeptris/cbor/decode.c:541-628 | the first bytes f4 to f7 deliver false, true, null and undefined, and the other simple values their words |
| `CborLoose.LooseIsRead` | src/yeptris/cbor/decode.c:811-891 | the reading the loop follows is the well-formed reading of RFC 8949 section 3 wherever no break follows a tag; where one does, the well-formed reading stops there and the loop goes on with the container's close |
| `CborLoose.TagBeforeBreakAccepted` | src/yeptris/cbor/decode.c:846-862 | `9f c1 ff` is malformed, and is accepted as an empty array with the tag dropped |
| `CborDecode.Decoder.Item` | src/yeptris/cbor/decode.c:390-628 | one head is decoded exactly as the reading says: an item, an opened container, a tag or a refusal |
| `CborDecode.Decoder.IndefString` | src/yeptris/cbor/decode.c:257-313 | an indefinite-length string delivers the concatenation of its chunks in one call |
| `CborDecode.Decoder.NoteTag` | src/yeptris/cbor/decode.c:238-252 | a chain holds exactly up to 64 links, rendered in decimal with spaces |
| `CborFacts.GuardNeverEarly` | src/yeptris/cbor/decode.c:497-524 | the overrun checks refuse nothing that reading item by item would accept |
| `CborFacts.ItemExtends` | src/yeptris/cbor/decode.c:811-891 | bytes behind an item never change how it reads |
| `CborFacts.StrictRefines` | src/yeptris/cbor/decode.c:390-628 | what strict mode accepts lenient mode reads the same way |
| `CborFacts.ItemTree` | src/yeptris/cbor/decode.c:811-891 | the calls of a reading are one tree: every open has its close with the announced children between |
| `CborFacts.StrictKeys` | src/yeptris/cbor/decode.c:390-628 | exactly which heads strict mode accepts in a key slot: definite text strings and well-formed simple values |
| `CborFacts.NegativeKeyText` | src/yeptris/cbor/decode.c:338-385 | a lenient negative key is rendered one too small in magnitude, for every magnitude |
| `Bytes.DecimalPlaces` | src/yeptris/cbor/decode.c:117-152 | decimal text has in each place the digit the number has there, no leading zero and no digit less |
| `Utf8.ValidExactly` | src/yeptris/encoding/utf8_validate.c:45-174 | text is UTF-8 exactly when it spells a sequence of code points below 0x110000 outside the surrogates, each in its shortest form |
| `CborSequence.DecodeSequence` | src/yeptris/cbor/decode.c:924-982 | the sequence decoder delivers exactly the items read back to back |
| `CborSequence.ConcatenationSplits` | src/yeptris/cbor/decode.c:924-982 | a concatenation of items splits exactly at the item boundaries |
| `CborSequence.CompleteWalkIsConcatenation` | src/yeptris/cbor/decode.c:924-982 | a complete walk splits the bytes into pieces each of which is one item on its own |
| `CborPasses.Run` | src/yeptris/cbor/encode.c:704-735 | the size and write passes agree: the answer, the size and the bytes are those of the recursive encoding, so the branch for diverged passes is dead, and nothing is written when the buffer is short |
| `CborPasses.Encode` | src/yeptris/cbor/encode.c:753-772 | the allocated encoding is the item of the first document, or nothing exactly when it is not encodable; in canonical mode the keys of every map, as the sort encodes them, stand in an order in which each is a proper prefix of the next or has the smaller byte where they first differ, or equals it |
| `CborPasses.Encoder.SizeItem` | src/yeptris/cbor/encode.c:530-598 | the sizing pass counts the bytes of the item and builds, in visit order, the preparation of each map |
| `CborPasses.Encoder.WriteItem` | src/yeptris/cbor/encode.c:653-696 | the write pass takes for the k-th map it visits the preparation built for that map and writes exactly the counted bytes |
| `CborPasses.Encoder.CanonPrepare` | src/yeptris/cbor/encode.c:415-485 | the preparation of a map is its children and the stable order of its encoded keys |
| `CborPasses.EncodeKey` | src/yeptris/cbor/encode.c:327-380 | the sort key of a node, or a refusal exactly when it has none |
| `CborLiterals.ScalarWritten` | src/yeptris/cbor/encode.c:602-651 | a scalar is the shortest tag heads of its chain and then, over its text: an integer's shortest head, f4 or f5 by the first letter, f6, the simple value its word names, or its bytes behind a text head if they are UTF-8 and a byte-string head if not |
| `CborLiterals.KeyWritten` | src/yeptris/cbor/encode.c:327-380 | what a pair is sorted by: its key's shortest tag heads, then its double, its integer's shortest head, or its text as a string is written, booleans and null too; a container's text is empty |
| `CborLiterals.IntScanExactly` | src/yeptris/cbor/encode.c:187-223 | an integer is taken exactly from the decimal text of a number of 64 bits, and 0 also from `-0` |
| `CborLiterals.SimpleOfExactly` | src/yeptris/cbor/encode.c:251-272 | a word names a simple value exactly when it is `undefined` or `simple(` with at least two digits of a value below 24 or from 32 to 255 |
| `CborLiterals.ChainExactly` | src/yeptris/cbor/encode.c:276-304 | a tag text is taken exactly when it is up to 64 numerals below 2^64 with one space between them, and its chain is their values |
| `CborEncode.LessExactly` | src/yeptris/cbor/encode.c:461-475 | the order of keys by position: a proper prefix first, else the smaller byte where they first differ |
| `CborWriter.KeyBelow` | src/yeptris/cbor/encode.c:461-475 | the comparison loop decides that order |
| `CborOrder.OrderByBytes` | src/yeptris/cbor/encode.c:415-485 | the order is a permutation in which every key is a proper prefix of the next, has the smaller byte where they first differ, or equals it |
| `CborOrder.CanonicalByBytes` | src/yeptris/cbor/encode.c:653-696 | in the canonical encoding of a tree the maps at every depth are written in that order, pair by pair |
| `CborWriter.SortOrder` | src/yeptris/cbor/encode.c:415-485 | the insertion sort in place leaves the specified order |
| `CborWriter.TagChain` | src/yeptris/cbor/encode.c:276-304 | a tag's text is read as the chain of its decimal links, or refused |
| `CborWriter.SimpleWord` | src/yeptris/cbor/encode.c:251-272 | the diagnostic words of simple values that are recognized |
| `CborCanonical.OrderIsStable` | src/yeptris/cbor/encode.c:415-485 | the order is a permutation, ascending bytewise on the encoded keys, equal keys in document order |
| `CborCanonical.OrderIndependent` | src/yeptris/cbor/encode.c:653-696 | documents that differ only in the order of pairs, in maps at any depth, have identical canonical bytes when no map holds two keys that encode alike |
| `CborCanonical.WrittenAscendExactly` | src/yeptris/cbor/encode.c:415-485 | the written keys of any canonical map ascend exactly when the pairs of keys at risk do, those with a key that is sorted by other bytes than it is written with |
| `CborCanonical.LiteralsDecide` | src/yeptris/cbor/encode.c:327-380 | for untagged scalar keys the written keys ascend exactly when no key sorted behind a boolean or null key has a smaller first byte and none sorted in front of one a greater |
| `CborCanonical.ArrangedFixpoint` | src/yeptris/cbor/encode.c:653-696 | encoding the tree with its pairs as they were written gives the same bytes again |
| `CborRoundTrip.DecodeOfEncode` | src/yeptris/cbor/encode.c:653-696 | decoding an encoded tree makes the calls of that tree and uses all the bytes, or refuses exactly where the tree says |
| `CborRoundTrip.FloatPayload` | src/yeptris/cbor/encode.c:147-181 | a double is written in network order as the half it is or the one NaN, else as the single it is, else in full |
| `CborFaithful.TreeBack` | src/yeptris/cbor/encode.c:602-651 | a tree comes back as itself exactly when it is faithful, a condition on its scalars and keys |
| `CborDom.RoundTrip` | src/yeptris/cbor/encode.c:653-696 | for every encodable tree and both modes of both sides, decoding the encoding gives the tree with its pairs as written if and only if it is faithful |
| `CborDom.RoundTripSame` | src/yeptris/cbor/encode.c:653-696 | in insertion order the same tree comes back, if and only if it is faithful |
| `CborDom.CanonicalFixpoint` | src/yeptris/cbor/encode.c:653-696 | canonical bytes of a faithful tree, decoded and encoded again, are the same bytes |
| `CborDom.ChainRoundTrip` | src/yeptris/cbor/encode.c:276-304 | every chain of up to 64 tag numbers is read back from its text |
| `CborDom.SimpleRoundTrip` | src/yeptris/cbor/encode.c:251-272 | an unassigned simple value survives decoding and encoding if and only if it is 10 or more |
| `CborDom.OneDigitSimple` | src/yeptris/cbor/encode.c:251-272 | `e5` decodes to the word simple(5), which encodes as a text string |
| `CborDom.SinkBuilds` | src/yeptris/cbor/decode.c:633-804 | the calls of a tree build that tree's document |
| `CborDom.DecodeDocument` | src/yeptris/cbor/decode.c:984-1032 | the document of any bytes is the one the loop's calls build, and where no break follows a tag it is that of the well-formed reading |
| `CborDocuments.DocumentOfForm` | src/yeptris/cbor/decode.c:633-804 | bytes that spell an item decode to the document told from its form: strings, integers by their decimal text, booleans, null and simple values by their words, each with its resolved tag, doubles by their pattern, sequences and mappings in order, tags as the text of their chain |
| `Floats.DoubleToHalfNearest` | src/yeptris/cbor/encode.c:95-145 | on every double: below 65520 in magnitude no finite half is nearer than the result and ties go to even, from there on and for infinities the result is the infinity of the same sign, and a NaN gives the one canonical NaN |
| `Floats.HalfRoundTrip` | src/yeptris/cbor/encode.c:68-145 | every half but the NaNs survives being widened and narrowed |
| `Floats.FitsHalfExactly` | src/yeptris/cbor/encode.c:147-159 | width 2 is chosen exactly for the doubles some half denotes |
| `Floats.FitsSingleExactly` | src/yeptris/cbor/encode.c:147-159 | width 4 is considered exactly for the doubles some nonzero single denotes |
| `Floats.NarrowWidens` | src/yeptris/cbor/encode.c:161-177 | the single that is written has the double's value |
| `MarshalMeaning.Transcodes` | src/yeptris/cbor/from_marshal.c:564-941 | for every writable tree, transcoding its Marshal stream gives the CBOR item of the tree with each link replaced by what the reader keeps at the writer's number, and nothing when there is no such tree |
| `MarshalLinks.MeansExactly` | src/yeptris/cbor/from_marshal.c:414-440 | the item is that of the tree meant exactly when every link's slot holds an item written like the one meant: for every tree with a meaning in stream order, and in canonical order when the links in key places agree; where all links agree it is right for every tree |
| `MarshalLinks.SmallIsRight` | src/yeptris/cbor/from_marshal.c:564-941 | without integers of Marshal's 'l' form every tree comes out as it is meant |
| `MarshalShifts.BignumShiftsLinks` | src/yeptris/cbor/from_marshal.c:385-412 | [v, &a p, *a] comes out as [v, p, v] for every integer v of 2^30 or more and every text p |
| `MarshalShifts.RepeatedIsRight` | src/yeptris/cbor/from_marshal.c:414-440 | [v, p, &a p, *a] comes out right though its link picks another slot |
| `MarshalShifts.SwappedKeysMeet` | src/yeptris/cbor/from_marshal.c:564-941 | in canonical order two wrong keys can change places and the item is right though no link agrees |
| `MarshalMeaning.RejectedStays` | src/yeptris/marshal.c:478-611 | a stream with a timestamp, a binary string or a merge key never leaves the writer |
| `MarshalTranscode.ScalarReads` | src/yeptris/cbor/from_marshal.c:564-941 | each scalar the writer spells is read as its item and takes the slots it should, or is declined |
| `MarshalTranscode.ScalarEncodes` | src/yeptris/cbor/from_marshal.c:278-354 | the item of a scalar is the encoder's item of the document node it stands for |
| `MarshalTree.CountsOfTree` | src/yeptris/marshal.c:478-611 | the counting scan announces of every branch exactly the elements or pairs it has |
| `MarshalEmit.PreScan` | src/yeptris/marshal.c:478-611 | the scan's counts are those of the specification, and it refuses exactly the streams with a record for the host walk |
| `MarshalEmit.MarshalNode` | src/yeptris/marshal.c:889-928 | the sizing and the writing pass make the same decisions, so the stream is the specified one and fills its buffer exactly; it is one chunk for each record in literal bytes: with the compat flag off every float is `66`, its length and text, with it on exactly one whose text holds a '.' or a ':', and otherwise it is the string of its text |
| `MarshalRecords.StreamSpells` | src/yeptris/marshal.c:340-476 | a stream that is written is `04 08` and a chunk for each record in order, each told by the record's kind, text and flag in literal bytes |
| `MarshalRecords.ScalarSpells` | src/yeptris/marshal.c:340-379 | what each scalar record is written as, with lengths spelt out up to 2^32 |
| `MarshalEmit.TextLimbs` | src/yeptris/marshal.c:301-338 | the base-65536 limbs of every accepted text of up to 1299 characters denote its decimal value, no carry is lost, and the top limb is zero only when it is the only one |
| `MarshalEmit.Emitter.BignumOf` | src/yeptris/marshal.c:301-338 | a bignum text is written as the sign, the limb count and the little-endian bytes of its value |
| `MarshalEmit.Emitter.Long` | src/yeptris/marshal.c:87-115 | the loop over bytes writes the specified long |
| `MarshalNumber.DigitsFit` | src/yeptris/marshal.c:301-338 | 1299 decimal digits stay below 271 limbs, so the 272nd is never dropped |
| `MarshalNumber.LongRoundTrip` | src/yeptris/cbor/from_marshal.c:142-186 | the reader takes back the long the writer wrote exactly between -2^40 and 2^32 |
| `MarshalNumber.IntRoundTrip` | src/yeptris/marshal.c:124-159 | every int64 is taken back as written |
| `MarshalNumber.BignumRoundTrip` | src/yeptris/marshal.c:301-338 | a bignum is taken back exactly when it is below 2^64 |
| `MarshalNumber.PsychIntExactly` | src/yeptris/marshal.c:273-299 | the test accepts the documented integers, and besides them exactly the texts with one separator in front of the digits |
| `MarshalWalk.CborFromMarshal` | src/yeptris/cbor/from_marshal.c:943-982 | the reader's loops, memo tables and in-place sort compute the specified transcoding for every stream |
| `MarshalWalk.Walker.PutSorted` | src/yeptris/cbor/from_marshal.c:564-941 | the in-place insertion sort writes a map's pairs in the canonical order of their keys |
| `MarshalMaps.MapIsSorted` | src/yeptris/cbor/from_marshal.c:791-935 | in canonical mode a map that is taken is its head and its pairs with their keys strictly ascending, by the byte where they first differ |
| `MarshalSymbols.LinksAreNames` | src/yeptris/cbor/from_marshal.c:743-758 | for every list of symbols and of strings with a variable that tells their encoding, the stream that links each later name by its number and the stream that spells all in full transcode alike, to the items of the names |
| `MarshalSymbols.ValueTaken` | src/yeptris/cbor/from_marshal.c:334-354 | as a value exactly UTF-8 strings that are UTF-8 and US-ASCII or binary ones that are ASCII are taken, as text or as the simple value their word names |
| `MarshalSymbols.KeyTaken` | src/yeptris/cbor/from_marshal.c:315-328 | as a key a string that is no UTF-8 is a byte string, and a text the resolver types is refused |
| `MarshalAtoms.LongExactly` | src/yeptris/cbor/from_marshal.c:142-184 | what a long is, lead byte by lead byte |
| `MarshalAtoms.ConstantTaken` | src/yeptris/cbor/from_marshal.c:587-595 | nil, true and false, refused exactly behind 512 open containers |
| `MarshalAtoms.IntegerTaken` | src/yeptris/cbor/from_marshal.c:596-606 | an integer becomes the shortest head of its number and takes no slot |
| `MarshalAtoms.BigTaken` | src/yeptris/cbor/from_marshal.c:607-667 | a big integer of up to four limbs becomes its number's shortest head within int64 and else the double it rounds to, takes a slot, and is refused with more limbs |
| `MarshalAtoms.FloatTaken` | src/yeptris/cbor/from_marshal.c:668-705 | a float is refused exactly from 64 characters on, when it spells a non-finite or rounds to one |
| `MarshalAtoms.RawTaken` | src/yeptris/cbor/from_marshal.c:706-725 | a string without variables is binary, and its payload stays in its slot |
| `MarshalAtoms.LinkTaken` | src/yeptris/cbor/from_marshal.c:759-769 | a link gives what its slot holds, a string spelt again for its place; containers, cycles and numbers past the slots are refused |
| `DupScan.StrictDupScan` | src/yeptris/marshal.c:778-841 | a duplicate is reported exactly when two key records that are no containers lie in one innermost open container, found by counting openings against closings, and have one kind and flag, one text where the kind has one, and equal payloads or the payloads 0 and 1; where all keys are strings, exactly when two have the same text and style |
| `DupScan.KeysExactly` | src/yeptris/marshal.c:719-732 | the identity of the scan's slots is the host's except that payloads 0 and 1 are one |
| `DupScan.ContainerExactly` | src/yeptris/marshal.c:778-841 | the frame a key goes into is that of the container behind whose opening as many containers open as close, and never fewer |
| `DupScan.DupSet.Insert` | src/yeptris/marshal.c:758-776 | the open-addressing set answers whether the key was there and then holds it, growth included |
| `DomTree.Builds` | src/yeptris/dom/dom.c:383-412 | fed the calls of any paired tree the builder ends with an empty stack and one root, and the sibling links spell the tree that was fed |
| `DomTree.FeedTree` | src/yeptris/dom/dom.c:383-412 | in any state of the builder a tree's calls append its layout, place its root once and disturb no open map's pairing |
| `DomForest.LinkForest` | src/yeptris/dom/dom.c:296-308 | linking a loose node behind nothing keeps every chain and appends to one |
| `DomForest.LinkedChain` | src/yeptris/dom/dom.c:296-308 | the appended chain is the old one and the new node exactly when nothing hangs behind the new node |
| `DomForest.LinkExactly` | src/yeptris/dom/dom.c:296-308 | after one link the memory is a forest exactly when the child was loose, is not above the parent and has nothing linked behind it |
| `DomForest.AncestorCloses` | src/yeptris/dom/mutate.c:135-147 | after a node is attached below itself no reading of the memory makes it a forest |
| `DomForest.ChildTwice` | src/yeptris/dom/mutate.c:135-147 | after a child or a root is attached again no reading of the memory makes it a forest |
| `DomForest.UnlinkForest` | src/yeptris/dom/mutate.c:248-277 | unlinking keeps a forest and removes one child |
| `DomForest.ReplaceForest` | src/yeptris/dom/mutate.c:323-359 | the splice keeps a forest and replaces one child in its place |
| `DomForest.PairExactly` | src/yeptris/dom/mutate.c:361-396 | after a key and a value are linked the memory is a forest exactly when both were loose, they differ, neither is above the mapping and nothing hangs behind the value |
| `DomForest.SpliceExactly` | src/yeptris/dom/mutate.c:323-359 | after a splice the memory is a forest exactly when the new child was loose and is not above the parent, or is the old child in a sequence's last place or anywhere in a mapping |
| `DomForest.RootExactly` | src/yeptris/dom/mutate.c:415-432 | after a node is made a root the memory is a forest exactly when the node was loose |
| `DomDepth.ForestReturns` | src/yeptris/dom/mutate.c:126-133 | in a forest the walk that renews depths comes back from every node |
| `DomDepth.NeverReturns` | src/yeptris/dom/mutate.c:323-359 | once a node is spliced in below itself the walk that renews its depths comes back with no number of steps |
| `DomBuilt.BuiltForest` | src/yeptris/dom/dom.c:296-412 | after any run of builder calls the store is a forest with its documents as roots, every mapping's children even in number, and no attached bit |
| `DomMutate.Document.Parsed` | src/yeptris/dom/dom.c:296-412 | a document from any run of the builder, attached bits clear and depths zero, is valid |
| `DomMutate.Document.SeqAdd` | src/yeptris/dom/mutate.c:149-159 | with the exact status the sequence gains the child at its end or nothing changes; the forest is kept exactly when the child was loose, is not above the sequence and has nothing behind it; the child lies one deeper than the sequence and no other depth changes |
| `DomMutate.Document.SeqDel` | src/yeptris/dom/mutate.c:279-292 | the element leaves the sequence and stands alone, in every valid document |
| `DomMutate.Document.SeqSet` | src/yeptris/dom/mutate.c:323-359 | with the exact status the element is replaced in its place and the old one stands alone; the forest is kept exactly when the new one was loose and not above, or is the old one in last place; the depths below the new one are renewed from one below the sequence; the call never returns exactly when the new one is above the sequence |
| `DomMutate.Document.MapAdd` | src/yeptris/dom/mutate.c:206-214 | a new pair at the end, a duplicate or a refusal; the forest is kept exactly when the value was loose, is not above the mapping, has nothing behind it and is not the node the new key becomes |
| `DomMutate.Document.MapSet` | src/yeptris/dom/mutate.c:216-245 | the value of a present key is replaced in its place and the displaced value keeps its next link, a new pair otherwise, with the exact condition for the forest and for returning at all; the depths below the value are renewed from one below the key |
| `DomMutate.Document.MapDel` | src/yeptris/dom/mutate.c:398-413 | the pair leaves the mapping and both nodes stand alone, in every valid document |
| `DomMutate.Document.MapAppend` | src/yeptris/dom/mutate.c:384-396 | the pair is appended, and the forest is kept exactly when key and value were loose, differ, neither is above the mapping and nothing hangs behind the value |
| `DomMutate.Document.MapAddNode` | src/yeptris/dom/mutate.c:361-382 | as append, unless the mapping has the key |
| `DomMutate.Document.AddRoot` | src/yeptris/dom/mutate.c:415-432 | the exact status; the node becomes a root, and the forest is kept exactly when it was loose |
| `DomMutate.Document.AttachOk` | src/yeptris/dom/mutate.c:135-147 | exactly when a child is refused: its id is out of range, its attached bit is set, or it would lie too deep |
| `DomMutate.Document.TooDeepExactly` | src/yeptris/dom/mutate.c:135-147 | where every node lies one deeper than its owner and the one at the top at 0, a child in range that is not attached is refused as too deep exactly when the owners above its new place and some way down from it come to more than 1000 together |
| `DomMutate.Document.LinkChild` | src/yeptris/dom/mutate.c:120-124 | a link stores the parent's depth plus one for the child, sets its attached bit and changes nothing else of either |
| `DomMutate.Document.SetDepths` | src/yeptris/dom/mutate.c:126-133 | in a forest every node that hangs k links below the start has the given depth plus k, and the others keep theirs |
| `DomMutate.KeyDeepens` | src/yeptris/dom/mutate.c:216-245 | `map_set` on a present key leaves the value two below the mapping, one too deep |
| `DomMutate.BottomUp` | src/yeptris/dom/mutate.c:149-159 | built from the bottom up, a sequence into a first one and that one into a third: both calls succeed and the depths are 1, 1 and 0, though the innermost hangs two links below the outermost |
| `DomLevels.SteppedExactly` | src/yeptris/dom/mutate.c:117-133 | each node lies one deeper than its owner exactly when every depth is the number of owners |
| `DomLevels.RenewedLevels` | src/yeptris/dom/mutate.c:126-133 | after a renewal the nodes below the start are that many links below it |
| `DomLevels.JoinStepped` | src/yeptris/dom/mutate.c:149-159 | attaching a child keeps the depths right exactly when it has no children of its own or lay one below the parent already |
| `DomLevels.HeightExactly` | src/yeptris/dom/mutate.c:88-115 | the height of a node is at least k exactly when some node hangs k links below it |
| `DomMutate.Document.ParsedAdmitsAll` | src/yeptris/dom/mutate.c:135-147 | on a parsed document no child in range is refused for being attached, and depth is counted from the parent as if it were a root |
| `DomMutate.AddAgain` | src/yeptris/dom/mutate.c:149-159 | parse a sequence of one element and add that element to it again: the status is success and the chain is a circle |
| `DomMutate.Document.Lookup` | src/yeptris/dom/mapindex.c:101-141 | over every history of mutations and lookups on a parsed or an empty document the answer is that of the linear scan: the first scalar key with the text, or none where no key is |
| `DomMutate.FindIsScan` | src/yeptris/dom/mutate.c:161-187 | the mutations' own search and the index's scan agree exactly when the key the mutations find, if any, is a scalar |
| `DomMutate.FindSeesAll` | src/yeptris/dom/mutate.c:161-187 | an alias or container key is found by the mutations and not by the index |
| `DomMutate.AddedIsFound` | src/yeptris/dom/mutate.c:190-204 | a pair that was added is the pair a lookup finds |
| `DomIndex.TableIsScan` | src/yeptris/dom/mapindex.c:36-74 | a table built from a mapping's pairs answers as the scan, duplicates keep the first, and a probe always meets an empty slot |
| `DomIndex.ScanExactly` | src/yeptris/dom/mapindex.c:101-141 | the scan ends on the first scalar child in a key place with the text, and on none exactly where there is none |
| `OpenAddress.LookupIsFirst` | src/yeptris/dom/mapindex.c:101-141 | in any linear-probing layout a lookup from the shared home ends on the first match of the insertion log |
| `OpenAddress.ProbeEnds` | src/yeptris/dom/mapindex.c:101-141 | a probe ends before it is round |
| `NameTab.NameTable.Get` | src/yeptris/common/nametab.c:173-197 | the value last set for the name |
| `NameTab.NameTable.Set` | src/yeptris/common/nametab.c:208-260 | in every table a rehash can leave: the last value wins, all eight-byte names being one, unless the table holds the name and does not find it; then it holds it twice and is no map |
| `NameTab.NameTable.Rehash` | src/yeptris/common/nametab.c:138-171 | every entry is seated at the home of the name it rebuilds; the map is kept when the names are safe |
| `NameTab.NameTable.Reserve` | src/yeptris/common/nametab.c:262-275 | room without a further rehash, nothing lost when the names are safe |
| `NameTab.NameTable.Clear` | src/yeptris/common/nametab.c:199-206 | the empty map |
| `NameTab.KeepsExactly` | src/yeptris/common/nametab.c:138-171 | the word of an inline entry is that of the name it rebuilds exactly when the name reads the same turned |
| `NameTab.HomeKeptExactly` | src/yeptris/common/nametab.c:138-171 | under every hash a rehash gives an inline name its own home exactly when the name reads the same turned |
| `NameTab.SetAndGrow` | src/yeptris/common/nametab.c:138-171 | under any hash a name of fewer than eight bytes set in an empty table is found after the table grows exactly when it and the name turned have one home there |
| `NameTab.LoseName` | src/yeptris/common/nametab.c:138-171 | every name that reads differently turned is lost so under some hash: set, then not found |
| `NameTab.SafeLengths` | src/yeptris/common/nametab.c:33-51 | which names read the same turned, length by length |
| `NameTab.LoadedBytes` | src/yeptris/common/nametab.c:33-51 | the word of a short name, byte by byte for each length; eight bytes load nothing |
| `NameTab.FoldedExactly` | src/yeptris/common/nametab.c:33-51 | two names share an entry exactly when they are equal or both eight bytes long |

## Left out

- DomMutate.Document.SeqAdd: its contract, like those of all mutations, is about documents that are still a forest; what a call does to memory that an earlier call has closed into a circle is not modelled.
- NameTab.NameTable.Set: once a name is held twice the table is no longer described; `NameTab.NameTable.Get` says what is found before that.
- JsonDom.ParseDocument: for texts with a token of 2^24 bytes or longer it does not say what the document holds, only `JsonLinks.ParseRecords` says what the columns hold.
- JsonEntry.ParseTape: ends with the two walks; scalar roots and what both walks refuse go on to the validating sequence (src/yeptris/tape.c:2280-2325), which is not part of this model.
- CborDom.RoundTrip: does not cover the text of floats; a float node holds its bit pattern, and NaN payloads are not distinguished.
- Offsets and lengths are unbounded numbers: 32-bit truncation of tape offsets, stage-1 indices and node lengths past 4 GiB is not modelled.
- The lenient tape route and the flow recorder (tabs, bytes past ASCII, deferred numbers) and `yeptris_tape_convert`: the fused walks are modelled with strict numbers on clean text only.
- Escape resolution into the string arena, node styles, tags, anchors and aliases of JSON documents: a leaf is its kind and its raw span.
- Classification of bytes by AVX2 or NEON instructions: the masks are computed byte by byte; the block structure and all mask arithmetic are modelled.
- The child cache of indexed access.
- Sinks that abort, and failing allocations: every sink call succeeds.
- The other sinks of the CBOR decoder (SAX) and `yeptris_cbor_encode_sequence`, which concatenates items.
- The multi-document modes of the Marshal writer, its memory of object addresses, and an anchor record at the end of a stream; streams of one tree's records are modelled.
- A long with lead byte 128 in the Marshal reader, where the code shifts past the width of its type.
- The YAML engine, the plan API, the bulk builder, encodings other than UTF-8, the command line and the bindings: they use these parts, or would add easy members.
