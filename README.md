# anyfile-viewer record extraction, modelled in Dafny

anyfile-viewer shows the records of a file as named items. A *file type* is a set of
properties files: `charset`, a reader class with its options, a record pattern, an ordered
list of *dump layouts* (each an item-definition group with a condition) and meta-item
expressions. A reader cuts the file into records (lines, CSV lines, hex or string dumps,
fixed-size byte records, or byte records produced by a script), the data parser walks the
first layout whose condition holds and stores one item per leaf definition at a running
offset, and the exporter writes the records as a delimited list, as per-record detail
blocks, or as one file per record.

This project models that engine and proves what it promises. One module per file:

- `Wrappers`, `JavaLang`: results and the Java library behaviour the engine relies on
  (`trim`, `Integer.parseInt`, `String.valueOf(int)`, truncating division, the exceptions
  it raises as an `Error` datatype).
- `ByteUtils`, `Validate`: hex printing and parsing (round trip proved), argument checks.
- `OrderedMaps`, `PropertiesFiles`, `Splitting`: insertion-ordered maps
  (`LinkedHashMap`), properties in sorted key order, splitting at unquoted commas and
  Java `String.split`.
- `ItemDefinitions`, `Consuming`: the item-definition tree (groups, string, hex, meta and
  hidden items, IF/ELSIF/ELSE chains) and the length-spec parser.
- `RecordViews`, `ItemBehaviour`, `Records`, `RecordSets`, `RecordFormats`: records (a
  class whose items, meta and inner maps are updated in place; cached item strings), a
  value view of a record given to the script evaluator, item lengths, string and hex
  values with their diagnostic meta items, record sets and record formats.
- `DataParser`: layout selection, the layout walk (a specification function and the
  method that updates the record, proved equal), padding and meta items.
- `FileTypeConfigurations`: the compiler from `item<N>` declarations to definition trees,
  with its frame stack and the group cache.
- `Windowing`, `Readers`: the paging arithmetic of the windowed loads and every reader:
  lines, CSV, hex dump, string dump, fixed-size bytes and variable bytes, windowed and
  streaming.
- `Exporter`, `GuiConfigurations`, `IntegerInputVerifiers`: the three exports, the
  recently-used and filter lists of the GUI settings, and the integer field verifier.

The script engine, regular expressions and charsets are parameters: an `Env` value
supplies `eval`, `find`, `decode`, `encode` and `charsetSupported`, and every property is
proved for every such environment. Files are given as their contents: lines, payloads or
bytes. The read script of the variable-length reader is given as the payloads it yields and
the way it then ends: with null, or with the exception it throws (a script error, a result
that is not a byte array, or a missing `readProcess` option).

Where the code and its description disagree, the model follows the code:

- a layout or item condition whose evaluation fails counts as true (`evalAsBoolean`
  returns true on any runtime exception), so a condition never aborts the walk;
- group inclusion is not checked for cycles: a group that includes itself recurses until
  the stack overflows, modelled as `Err(StackOverflow)` when the fuel bound runs out (proved
  for a file whose first declaration includes itself);
- a declaration is split at its first unquoted comma into kind and arguments;
- `toRawStringValue` has a branch for raw data that is not a byte array; every reader
  gives a record a byte array or no raw data at all, so that branch is never reached and
  is not modelled.

## Model

| member | source | states |
|---|---|---|
| Validate.IsTrue | src/main/java/com/github/poodleone/anyfileviewer/utils/Validate.java:15-19 | passes exactly when the expression holds; otherwise fails with the supplied exception |
| Validate.NotNull | src/main/java/com/github/poodleone/anyfileviewer/utils/Validate.java:27-31 | passes exactly when the object is present; otherwise fails with the supplied exception |
| ByteUtils.HighNibble | src/main/java/com/github/poodleone/anyfileviewer/utils/ByteUtils.java:23 | the upper four bits of a signed byte, always below 16 |
| ByteUtils.LowNibble | src/main/java/com/github/poodleone/anyfileviewer/utils/ByteUtils.java:24 | the lower four bits of a signed byte, always below 16 |
| ByteUtils.PrintHexBinary | src/main/java/com/github/poodleone/anyfileviewer/utils/ByteUtils.java:20-27 | the loop yields two upper-case digits per byte of data[offset, end) where end is offset+length computed as an int; an end not above offset (a non-positive length, or a sum that wraps) gives the empty text; a range leaving the array is IndexOutOfBounds |
| ByteUtils.IntSum | src/main/java/com/github/poodleone/anyfileviewer/utils/ByteUtils.java:22 | offset + length on Java ints: a 32-bit value congruent to the sum, equal to it whenever it fits |
| ByteUtils.HexRangeInRange | src/main/java/com/github/poodleone/anyfileviewer/utils/ByteUtils.java:20-27 | without wrap-around: a non-positive length gives the empty text, an in-bounds range its bytes' digits, any other range IndexOutOfBounds |
| ByteUtils.HexRangeWraps | src/main/java/com/github/poodleone/anyfileviewer/utils/ByteUtils.java:22 | offset 1 with length Integer.MAX_VALUE wraps and gives the empty text; offset Integer.MIN_VALUE with length -1 wraps upward and throws IndexOutOfBounds |
| ByteUtils.HexAppend | src/main/java/com/github/poodleone/anyfileviewer/utils/ByteUtils.java:22-25 | the rendering of a byte sequence grows by exactly the two digits of each appended byte |
| ByteUtils.HexShape | src/main/java/com/github/poodleone/anyfileviewer/utils/ByteUtils.java:20-27 | a rendering is twice as long as its bytes and consists of upper-case hex digits only |
| ByteUtils.HexCodeDigits | src/main/java/com/github/poodleone/anyfileviewer/utils/ByteUtils.java:10 | every entry of the digit table is an upper-case hex digit |
| ByteUtils.HexRangeShape | src/main/java/com/github/poodleone/anyfileviewer/utils/ByteUtils.java:20-27 | a successful printHexBinary has two digits per byte between offset and the int end offset+length (none when the end is not above offset), all hex digits |
| ByteUtils.HexRange | src/main/java/com/github/poodleone/anyfileviewer/utils/ByteUtils.java:20-27 | printHexBinary's failure is IndexOutOfBounds and happens only for a non-empty int range; a non-empty result comes from a range inside the array |
| ByteUtils.HexToBin | src/main/java/com/github/poodleone/anyfileviewer/utils/ByteUtils.java:35-37 | the value of one hex digit in either case, -1 for any other character |
| ByteUtils.NibblesOfByte | src/main/java/com/github/poodleone/anyfileviewer/utils/ByteUtils.java:23-24 | a byte is recovered from its two nibbles |
| ByteUtils.NibblesOfPair | src/main/java/com/github/poodleone/anyfileviewer/utils/ByteUtils.java:23-24 | the byte built from two nibbles has exactly those nibbles |
| ByteUtils.HexToBinOfHexCode | src/main/java/com/github/poodleone/anyfileviewer/utils/ByteUtils.java:10 | parsing a digit of the table gives back its index |
| ByteUtils.ParseHexBinaryOfHex | src/main/java/com/github/poodleone/anyfileviewer/utils/ByteUtils.java:20-37 | round trip: parseHexBinary(printHexBinary(bs)) == bs for every byte sequence |
| ByteUtils.UpperHexString | src/main/java/com/github/poodleone/anyfileviewer/utils/ByteUtils.java:35-37 | upper-casing the hex letters keeps the length |
| ByteUtils.HexCodeOfHexToBin | src/main/java/com/github/poodleone/anyfileviewer/utils/ByteUtils.java:10 | the table digit of a parsed digit is that digit upper-cased |
| ByteUtils.HexOfPair | src/main/java/com/github/poodleone/anyfileviewer/utils/ByteUtils.java:20-37 | rendering the byte parsed from two digits gives those digits upper-cased |
| ByteUtils.HexOfParseHexBinary | src/main/java/com/github/poodleone/anyfileviewer/utils/ByteUtils.java:20-37 | round trip the other way: printing what parseHexBinary accepted gives the input upper-cased |
| ByteUtils.ParseHexBinary | src/main/java/com/github/poodleone/anyfileviewer/utils/ByteUtils.java:35-37 | an odd-length text is rejected; every rejection is IllegalArgumentException; an accepted text gives one byte per two digits |
| ByteUtils.HexPairsLength | src/main/java/com/github/poodleone/anyfileviewer/utils/ByteUtils.java:35-37 | the pair parser, when it succeeds, yields one byte per two characters |
| ByteUtils.HexOfPairThenRest | src/main/java/com/github/poodleone/anyfileviewer/utils/ByteUtils.java:35-37 | the byte parsed from the first two digits, in front of bytes that print as the remaining digits, prints as the whole text upper-cased |
| ByteUtils.HexConsPair | src/main/java/com/github/poodleone/anyfileviewer/utils/ByteUtils.java:22-25 | a byte that prints as two digits, followed by bytes that print as the rest, prints as the whole text |
| JavaLang.ParseInt | src/main/java/com/github/poodleone/anyfileviewer/itemdefinition/AbstractItemDefinition.java:31-33 | for texts of ASCII digits: Integer.parseInt succeeds exactly for an optionally signed run of ASCII digits whose value fits in 32 bits, giving that value; otherwise NumberFormatException naming the text |
| JavaLang.ParseIntOfIntToString | src/main/java/com/github/poodleone/anyfileviewer/utils/IntegerInputVerifier.java:37-39 | round trip: parsing Integer.toString of any 32-bit value gives the value back |
| JavaLang.IntToString | src/main/java/com/github/poodleone/anyfileviewer/utils/IntegerInputVerifier.java:37-39 | Integer.toString is never empty and starts with `-` exactly for a negative value |
| JavaLang.Trim | src/main/java/com/github/poodleone/anyfileviewer/FileTypeConfiguration.java:326 | String.trim: no leading or trailing character at or below space, all-blank text becomes empty, already trimmed text is unchanged |
| JavaLang.TrimIdempotent | src/main/java/com/github/poodleone/anyfileviewer/gui/GUIConfiguration.java:91 | trimming twice equals trimming once |
| JavaLang.JavaDiv | src/main/java/com/github/poodleone/anyfileviewer/reader/LinesReader.java:102 | integer division truncating toward zero, as Java's `/` on int, for a non-negative dividend and either divisor sign |
| OrderedMaps.Get | src/main/java/com/github/poodleone/anyfileviewer/record/AbstractRecord.java:55 | a key's value is found exactly when the key is present, and it is that key's entry |
| OrderedMaps.Put | src/main/java/com/github/poodleone/anyfileviewer/record/AbstractRecord.java:15-18 | LinkedHashMap.put: an existing key keeps its position, a new key goes last, keys stay distinct, the key now maps to the value and every other key is unchanged |
| OrderedMaps.PutShape | src/main/java/com/github/poodleone/anyfileviewer/record/AbstractRecord.java:15-18 | the in-place update or append keeps the key order and distinctness |
| OrderedMaps.GetAfterPut | src/main/java/com/github/poodleone/anyfileviewer/record/AbstractRecord.java:15-18 | after a put, the key reads back the value and no other key changes |
| OrderedMaps.RemoveIf | src/main/java/com/github/poodleone/anyfileviewer/DataParser.java:143-146 | entrySet().removeIf: only entries failing the predicate remain, and all of them do |
| OrderedMaps.RemoveIfAppend | src/main/java/com/github/poodleone/anyfileviewer/DataParser.java:143-146 | removeIf keeps the surviving entries in their order: it distributes over concatenation |
| OrderedMaps.GetRemoveIf | src/main/java/com/github/poodleone/anyfileviewer/DataParser.java:143-146 | after removeIf a key reads its old value when that value fails the predicate and nothing otherwise |
| OrderedMaps.MapValuesPut | src/main/java/com/github/poodleone/anyfileviewer/DataParser.java:129 | projecting the values commutes with put |
| PropertiesFiles.GetProperty | src/main/java/com/github/poodleone/anyfileviewer/FileTypeConfiguration.java:350 | getProperty yields a value exactly when the key is present, and the value is an entry stored under that key (the only one, keys being distinct) |
| PropertiesFiles.GetPropertyOr | src/main/java/com/github/poodleone/anyfileviewer/FileTypeConfiguration.java:357-359 | getProperty with a default: the stored value when present, the default otherwise |
| PropertiesFiles.StrLtIrreflexive | src/main/java/com/github/poodleone/anyfileviewer/FileTypeConfiguration.java:362 | the text order used by sorted() is irreflexive |
| PropertiesFiles.StrLtTotal | src/main/java/com/github/poodleone/anyfileviewer/FileTypeConfiguration.java:362 | the text order is total |
| PropertiesFiles.StrLtTransitive | src/main/java/com/github/poodleone/anyfileviewer/FileTypeConfiguration.java:362 | the text order is transitive |
| PropertiesFiles.Insert | src/main/java/com/github/poodleone/anyfileviewer/FileTypeConfiguration.java:362 | inserting an entry adds exactly that entry |
| PropertiesFiles.InsertSorted | src/main/java/com/github/poodleone/anyfileviewer/FileTypeConfiguration.java:362 | inserting into a key-sorted list keeps it sorted |
| PropertiesFiles.SortByKey | src/main/java/com/github/poodleone/anyfileviewer/FileTypeConfiguration.java:362 | sorting is a permutation of the entries |
| PropertiesFiles.SortByKeySorted | src/main/java/com/github/poodleone/anyfileviewer/FileTypeConfiguration.java:362 | the sorted entries are in key order and a permutation of the input |
| PropertiesFiles.Matching | src/main/java/com/github/poodleone/anyfileviewer/FileTypeConfiguration.java:362 | the filter keeps exactly the entries whose key matches |
| PropertiesFiles.GetValuesSpec | src/main/java/com/github/poodleone/anyfileviewer/FileTypeConfiguration.java:361-368 | getValues yields exactly the entries whose key matches, sorted by key text |
| PropertiesFiles.GetValues | src/main/java/com/github/poodleone/anyfileviewer/FileTypeConfiguration.java:361-368 | the values yielded are in key text order |
| PropertiesFiles.TextualKeyOrder | src/main/java/com/github/poodleone/anyfileviewer/gui/GUIConfiguration.java:192-198 | keys are ordered as text, so item10 is yielded before item2 |
| Splitting.FirstSep | src/main/java/com/github/poodleone/anyfileviewer/FileTypeConfiguration.java:57 | the first position at or after i where the separator matches, or the end |
| Splitting.SplitAll | src/main/java/com/github/poodleone/anyfileviewer/FileTypeConfiguration.java:57 | splitting yields at least one part |
| Splitting.DropTrailingEmpty | src/main/java/com/github/poodleone/anyfileviewer/reader/CsvLinesReader.java:29 | String.split drops exactly the trailing empty parts |
| Splitting.Split2 | src/main/java/com/github/poodleone/anyfileviewer/FileTypeConfiguration.java:252 | split(regex, 2) yields one or two parts |
| Splitting.JoinSplitAll | src/main/java/com/github/poodleone/anyfileviewer/FileTypeConfiguration.java:57 | joining the parts with commas gives back the text: splitting loses nothing |
| Splitting.Split2OfSplitAll | src/main/java/com/github/poodleone/anyfileviewer/FileTypeConfiguration.java:252-258 | split(.., 2) is the first part and the rest, which splits into the remaining parts |
| Splitting.SplitIsTrimmedSplitAll | src/main/java/com/github/poodleone/anyfileviewer/reader/CsvLinesReader.java:29 | String.split is the full split with trailing empty parts dropped: a text without separator is one part; the kept parts are a prefix of all parts and every dropped part is empty |
| Splitting.JoinEnds | src/main/java/com/github/poodleone/anyfileviewer/Exporter.java:34 | String.join starts with the first part and ends with the last |
| Splitting.PlainPartsHaveNoComma | src/main/java/com/github/poodleone/anyfileviewer/reader/CsvLinesReader.java:29 | no part of a plain comma split contains a comma |
| Splitting.UnquotedIsPlainWithoutQuotes | src/main/java/com/github/poodleone/anyfileviewer/FileTypeConfiguration.java:57 | without double quotes, the quote-aware separator splits exactly like a plain comma |
| Splitting.QuotedCommaStaysInPart | src/main/java/com/github/poodleone/anyfileviewer/FileTypeConfiguration.java:57 | a comma inside double quotes does not split: `a,"b,c",d` gives three parts |
| Splitting.SplitDropsTrailingEmpty | src/main/java/com/github/poodleone/anyfileviewer/reader/CsvLinesReader.java:29 | `,a,,` splits into an empty part and `a` |
| Splitting.SplitOfSeparatorsOnly | src/main/java/com/github/poodleone/anyfileviewer/reader/CsvLinesReader.java:29 | `,,` splits into no parts at all |
| Splitting.SplitOfEmpty | src/main/java/com/github/poodleone/anyfileviewer/reader/CsvLinesReader.java:29 | the empty line splits into one empty part |
| Consuming.Collect | src/main/java/com/github/poodleone/anyfileviewer/reader/LinesReader.java:57-75 | the records of a window are all kept exactly when none of them throws, in order |
| Consuming.CollectOk | src/main/java/com/github/poodleone/anyfileviewer/reader/LinesReader.java:57-75 | when every read succeeds the window holds every record |
| Consuming.CollectFirstError | src/main/java/com/github/poodleone/anyfileviewer/reader/LinesReader.java:57-75 | the first failing read decides the error |
| Consuming.Consume | src/main/java/com/github/poodleone/anyfileviewer/reader/LinesReader.java:33-46 | the consumer sees at most as many records as were read |
| Consuming.ConsumeAll | src/main/java/com/github/poodleone/anyfileviewer/reader/LinesReader.java:33-46 | when every read succeeds the consumer receives all records and the load passes |
| Consuming.ConsumeUntil | src/main/java/com/github/poodleone/anyfileviewer/reader/LinesReader.java:33-46 | the consumer receives the records before the first failure, and the load fails with it |
| Consuming.ConsumeIsCollect | src/main/java/com/github/poodleone/anyfileviewer/reader/LinesReader.java:33-46 | the streamed load and the windowed load agree: same success, same records, same first error |
| ItemDefinitions.ClassifyLength | src/main/java/com/github/poodleone/anyfileviewer/itemdefinition/AbstractItemDefinition.java:29-37 | a length text of signed digits is fixed (a 32-bit overflow throws NumberFormatException); anything else is kept as an expression |
| ItemDefinitions.PaddingRunsToEnd | src/main/java/com/github/poodleone/anyfileviewer/DataParser.java:30 | the padding item's length `-1` is the fixed length -1, the rest of the record |
| ItemDefinitions.Children | src/main/java/com/github/poodleone/anyfileviewer/itemdefinition/ItemGroupDefinition.java:71-73 | only a group has children |
| ItemDefinitions.AppendKeepsChain | src/main/java/com/github/poodleone/anyfileviewer/FileTypeConfiguration.java:227-231 | appending keeps every ELSIF or ELSE directly after an IF or ELSIF |
| ItemDefinitions.AppendChild | src/main/java/com/github/poodleone/anyfileviewer/FileTypeConfiguration.java:228 | appending a child adds it last and changes nothing else of the group (the corrected, modifiable list) |
| ItemDefinitions.AppendChildAsWritten | src/main/java/com/github/poodleone/anyfileviewer/itemdefinition/ItemGroupDefinition.java:36 | the wrapped children list rejects every add with UnsupportedOperationException |
| ItemDefinitions.AppendChildAsWrittenAlwaysFails | src/main/java/com/github/poodleone/anyfileviewer/itemdefinition/ItemGroupDefinition.java:33-39 | as written, every add to a compiled group fails, so it never yields the group that the intended append builds |
| RecordViews.EvalAsBoolean | src/main/java/com/github/poodleone/anyfileviewer/DataParser.java:161-167 | false exactly when the expression is present, non-empty and evaluates to the text `false`; a missing, empty or failing expression counts as true |
| RecordViews.FailedConditionIsTrue | src/main/java/com/github/poodleone/anyfileviewer/DataParser.java:164-165 | an expression whose evaluation throws is taken as true |
| RecordViews.PutMeta | src/main/java/com/github/poodleone/anyfileviewer/record/AbstractRecord.java:38-40 | putting a meta entry changes only the meta map |
| RecordViews.PutDiagnostics | src/main/java/com/github/poodleone/anyfileviewer/itemdefinition/AbstractItemDefinition.java:58 | recording diagnostics keeps meta keys distinct and does nothing when there are none |
| RecordViews.ApplyDiagnostics | src/main/java/com/github/poodleone/anyfileviewer/itemdefinition/AbstractItemDefinition.java:58 | recording diagnostics touches only the meta map |
| RecordViews.PutDiagnosticsAppend | src/main/java/com/github/poodleone/anyfileviewer/itemdefinition/AbstractItemDefinition.java:58 | recording two batches equals recording them in sequence |
| RecordViews.ApplyDiagnosticsAppend | src/main/java/com/github/poodleone/anyfileviewer/itemdefinition/AbstractItemDefinition.java:58 | the same on a whole record |
| ItemBehaviour.FieldLength | src/main/java/com/github/poodleone/anyfileviewer/itemdefinition/AbstractItemDefinition.java:49-62 | getLength: a fixed length as it is, -1 as the rest of the record from offset, no diagnostics; a computed length that fails gives 0 and one `[項目長の計算エラー: name]` entry |
| ItemBehaviour.ComputedLengthError | src/main/java/com/github/poodleone/anyfileviewer/itemdefinition/AbstractItemDefinition.java:55-60 | a computed length records no error exactly when the expression evaluates to a parsable int, which is then the length |
| ItemBehaviour.RawStringValue | src/main/java/com/github/poodleone/anyfileviewer/itemdefinition/StringItemDefinition.java:43-63 | toRawStringValue records exactly the diagnostics of getLength |
| ItemBehaviour.RawStringValueSlice | src/main/java/com/github/poodleone/anyfileviewer/itemdefinition/StringItemDefinition.java:47-62 | the text is the bytes from offset, clamped to what remains, decoded in the charset; an offset outside the data or a negative length gives the empty text |
| ItemBehaviour.ClampedLength | src/main/java/com/github/poodleone/anyfileviewer/itemdefinition/StringItemDefinition.java:47-52 | a length beyond what remains is cut to the remainder (0 when nothing remains), one that fits is kept |
| ItemBehaviour.StringItemValue | src/main/java/com/github/poodleone/anyfileviewer/itemdefinition/StringItemDefinition.java:70-83 | without a value expression toStringValue is the raw text; with one, the value is what the expression gives (StringValueExpressionSuccess) or `[N/A]` (ValueExpressionFailure) |
| ItemBehaviour.StringItemHex | src/main/java/com/github/poodleone/anyfileviewer/itemdefinition/StringItemDefinition.java:86-99 | toHexValue records exactly the diagnostics of getLength |
| ItemBehaviour.HexItemHex | src/main/java/com/github/poodleone/anyfileviewer/itemdefinition/HexItemDefinition.java:48-55 | without raw bytes the hex is empty; otherwise it is printHexBinary(data, offset, getLength) |
| ItemBehaviour.HexItemValue | src/main/java/com/github/poodleone/anyfileviewer/itemdefinition/HexItemDefinition.java:32-45 | a failing hex rendering propagates; without a value expression the value is the hex; with one, what the expression gives (HexValueExpressionSuccess) or `[N/A]` (HexValueExpressionFailure) |
| ItemBehaviour.FieldValue | src/main/java/com/github/poodleone/anyfileviewer/itemdefinition/StringItemDefinition.java:70-83 | a string item's value never fails |
| ItemBehaviour.FieldHex | src/main/java/com/github/poodleone/anyfileviewer/itemdefinition/StringItemDefinition.java:86-99 | a string item's hex never fails |
| ItemBehaviour.ValueExpressionFailure | src/main/java/com/github/poodleone/anyfileviewer/itemdefinition/StringItemDefinition.java:75-81 | a failing value expression gives `[N/A]` and appends one `[項目値の計算エラー: name]` entry to the raw value's diagnostics |
| ItemBehaviour.StringValueExpressionSuccess | src/main/java/com/github/poodleone/anyfileviewer/itemdefinition/StringItemDefinition.java:74-76 | a string item's expression, given the decoded text as `value` and the offset as `offset`, gives the item's value and adds no diagnostic |
| ItemBehaviour.HexValueExpressionSuccess | src/main/java/com/github/poodleone/anyfileviewer/itemdefinition/HexItemDefinition.java:36-38 | a hex item's expression, given only the hex text as `value`, gives the item's value and adds no diagnostic |
| ItemBehaviour.HexValueExpressionFailure | src/main/java/com/github/poodleone/anyfileviewer/itemdefinition/HexItemDefinition.java:37-42 | a failing hex value expression gives `[N/A]` and appends one `[項目値の計算エラー: name]` entry to the hex's diagnostics |
| ItemBehaviour.PaddingLength | src/main/java/com/github/poodleone/anyfileviewer/DataParser.java:30 | the padding item covers the record from offset to its end, without diagnostics |
| ItemBehaviour.HexItemHexLength | src/main/java/com/github/poodleone/anyfileviewer/itemdefinition/HexItemDefinition.java:48-55 | inside the data, a hex item's rendering has two digits per byte |
| ItemBehaviour.OverrunHex | src/main/java/com/github/poodleone/anyfileviewer/itemdefinition/StringItemDefinition.java:86-99 | past the end of the data (with an end index that fits an int) a string item's hex is empty and its text is the clamped rest, while a hex item with the same length throws IndexOutOfBounds |
| ItemBehaviour.NodeLength | src/main/java/com/github/poodleone/anyfileviewer/itemdefinition/MetaItemDefinition.java:37-39 | meta and group definitions have length 0; fields have their getLength |
| ItemBehaviour.NodeValue | src/main/java/com/github/poodleone/anyfileviewer/itemdefinition/MetaItemDefinition.java:42-44 | a group's value is empty; a meta item's value is its expression's result (a failure propagates); a field's is its toStringValue |
| ItemBehaviour.NodeHex | src/main/java/com/github/poodleone/anyfileviewer/itemdefinition/MetaItemDefinition.java:47-49 | meta and group definitions have an empty hex; fields have their toHexValue |
| Records.ValueString | src/main/java/com/github/poodleone/anyfileviewer/record/AbstractRecord.java:54-57 | a stored null throws NullPointerException; a text is itself; a number is its decimal text |
| Records.Lookup | src/main/java/com/github/poodleone/anyfileviewer/record/AbstractRecord.java:54-57 | getValue looks in items, then meta, then inner items; an error record has no items |
| Records.DefinitionLength | src/main/java/com/github/poodleone/anyfileviewer/DataParser.java:130 | the length is getLength over the record as it stands and only its diagnostics change the record |
| Records.RecordItemImpl.constructor | src/main/java/com/github/poodleone/anyfileviewer/record/RecordItemImpl.java:28-32 | a cell keeps its record, definition and offset and has no cached text |
| Records.RecordItemImpl.GetLength | src/main/java/com/github/poodleone/anyfileviewer/record/RecordItemImpl.java:51-53 | the definition's getLength at the cell's offset; only diagnostics change |
| Records.RecordItemImpl.ToString | src/main/java/com/github/poodleone/anyfileviewer/record/RecordItemImpl.java:56-61 | a cached text is returned unchanged; otherwise the value is computed, returned and cached when it succeeds |
| Records.RecordItemImpl.ToHexString | src/main/java/com/github/poodleone/anyfileviewer/record/RecordItemImpl.java:69-71 | the definition's toHexValue at the cell's offset |
| Records.RecordItemImpl.ToRawString | src/main/java/com/github/poodleone/anyfileviewer/record/RecordItemImpl.java:64-66 | the definition's toRawStringValue at the cell's offset |
| Records.Record.constructor | src/main/java/com/github/poodleone/anyfileviewer/record/AbstractRecord.java:28-30 | a new record holds its raw data and empty item, meta and inner maps |
| Records.Record.Error | src/main/java/com/github/poodleone/anyfileviewer/record/ErrorRecord.java:24-26 | an error record holds only the `[エラー]` meta entry with the message |
| Records.Record.PutMeta | src/main/java/com/github/poodleone/anyfileviewer/record/AbstractRecord.java:38-40 | a meta put updates only the meta map, as LinkedHashMap.put |
| Records.Record.RemoveMetaIf | src/main/java/com/github/poodleone/anyfileviewer/DataParser.java:143-146 | removeIf on the meta map keeps the other maps |
| Records.Record.PutInner | src/main/java/com/github/poodleone/anyfileviewer/record/AbstractRecord.java:33-35 | an inner put updates only the inner map |
| Records.Record.PutItem | src/main/java/com/github/poodleone/anyfileviewer/record/ErrorRecord.java:41-44 | an item put on a normal record is LinkedHashMap.put; on an error record the empty map throws UnsupportedOperationException |
| Records.Record.GetValue | src/main/java/com/github/poodleone/anyfileviewer/record/AbstractRecord.java:54-57 | getValue: absent gives the empty text; a plain value its text; an item cell its cached or freshly computed toString |
| Records.Record.GetHexValue | src/main/java/com/github/poodleone/anyfileviewer/record/AbstractRecord.java:60-63 | getHexValue: the cell's toHexString for an item cell, the empty text for anything else |
| RecordSets.RecordSet.constructor | src/main/java/com/github/poodleone/anyfileviewer/record/RecordSet.java:11-24 | a new set is empty, not at end of file, at offset 0, with no path or format |
| RecordSets.RecordSet.Add | src/main/java/com/github/poodleone/anyfileviewer/record/RecordSet.java:11 | add appends the record and changes nothing else |
| RecordSets.RecordSet.SetPath | src/main/java/com/github/poodleone/anyfileviewer/record/RecordSet.java:36-38 | sets the path only |
| RecordSets.RecordSet.SetEof | src/main/java/com/github/poodleone/anyfileviewer/record/RecordSet.java:50-52 | sets the end-of-file flag only |
| RecordSets.RecordSet.SetOffset | src/main/java/com/github/poodleone/anyfileviewer/record/RecordSet.java:64-66 | sets the offset only |
| RecordSets.RecordSet.SetFormat | src/main/java/com/github/poodleone/anyfileviewer/record/RecordSet.java:78-80 | sets the format only |
| RecordFormats.AlnumEnd | src/main/java/com/github/poodleone/anyfileviewer/RecordFormat.java:103 | the end of the run of letters and digits after `(?<` |
| RecordFormats.GetMetaDataNames | src/main/java/com/github/poodleone/anyfileviewer/RecordFormat.java:101-108 | a missing recordPattern throws NullPointerException; otherwise the names the find loop collects |
| RecordFormats.MetaNamesSound | src/main/java/com/github/poodleone/anyfileviewer/RecordFormat.java:103-106 | every collected name is `[A-Za-z][A-Za-z0-9]*` and occurs as `(?<name>` in the pattern |
| RecordFormats.NamedGroupListed | src/main/java/com/github/poodleone/anyfileviewer/RecordFormat.java:103-106 | a named group at the front is collected first, then the rest |
| RecordFormats.OtherCharSkipped | src/main/java/com/github/poodleone/anyfileviewer/RecordFormat.java:104 | a position where no group starts is passed over |
| RecordFormats.LookbehindSkipped | src/main/java/com/github/poodleone/anyfileviewer/RecordFormat.java:103 | a look-behind `(?<=` or `(?<!` is not a name |
| RecordFormats.DumpPatternNames | src/main/java/com/github/poodleone/anyfileviewer/RecordFormat.java:101-108 | `(?<=x)(?<DUMP>.*)` yields exactly DUMP |
| RecordFormats.LookbehindPrefixSkipped | src/main/java/com/github/poodleone/anyfileviewer/RecordFormat.java:101-108 | a leading look-behind does not change the names |
| RecordFormats.DumpGroupListed | src/main/java/com/github/poodleone/anyfileviewer/RecordFormat.java:101-108 | `(?<DUMP>.*)` yields exactly DUMP |
| RecordFormats.MetaNames | src/main/java/com/github/poodleone/anyfileviewer/RecordFormat.java:103-106 | every collected name is a valid group name |
| DataParser.ChildPathJoins | src/main/java/com/github/poodleone/anyfileviewer/DataParser.java:103-111 | the group path is the non-empty names joined with dots |
| DataParser.AnonymousPath | src/main/java/com/github/poodleone/anyfileviewer/DataParser.java:128 | a field under unnamed groups only is keyed `.name` |
| DataParser.ChildPath | src/main/java/com/github/poodleone/anyfileviewer/DataParser.java:103-111 | the path is empty only when both names are; a named item's path ends with its name; an unnamed item keeps the group's path |
| DataParser.Walk | src/main/java/com/github/poodleone/anyfileviewer/DataParser.java:86-133 | walking a definition never changes the record's raw data or length |
| DataParser.WalkChildren | src/main/java/com/github/poodleone/anyfileviewer/DataParser.java:95-113 | one outcome per child visited |
| DataParser.WalkReport | src/main/java/com/github/poodleone/anyfileviewer/DataParser.java:86-133 | parseItems returns false exactly for a group whose condition is false, which then adds nothing; meta and hidden items do not move the offset |
| DataParser.WalkContiguous | src/main/java/com/github/poodleone/anyfileviewer/DataParser.java:126-131 | the fields a walk places lie end to end from the start offset to the final offset |
| DataParser.WalkChildrenContiguous | src/main/java/com/github/poodleone/anyfileviewer/DataParser.java:95-113 | the same for the children of a group |
| DataParser.ContiguousOffsets | src/main/java/com/github/poodleone/anyfileviewer/DataParser.java:129-130 | each placed field starts at the start plus the lengths before it, and the walk ends after all of them |
| DataParser.SkipRun | src/main/java/com/github/poodleone/anyfileviewer/DataParser.java:96-101 | once a branch was taken, every following ELSIF and ELSE is skipped |
| DataParser.ChainExclusive | src/main/java/com/github/poodleone/anyfileviewer/DataParser.java:94-101 | in an if/elsif/else chain at most one branch is walked |
| DataParser.SelectLayoutSpec | src/main/java/com/github/poodleone/anyfileviewer/DataParser.java:65-66 | the first layout whose condition holds is chosen; none when all are refused; a missing layout reached first throws NullPointerException |
| DataParser.SelectLayout | src/main/java/com/github/poodleone/anyfileviewer/DataParser.java:65-66 | a chosen layout is one of the layouts and its condition holds; the only failure is NullPointerException |
| DataParser.PutExpressions | src/main/java/com/github/poodleone/anyfileviewer/DataParser.java:78-80 | putting the format's expressions keeps meta keys distinct |
| DataParser.NoLayoutError | src/main/java/com/github/poodleone/anyfileviewer/DataParser.java:74-76 | when no layout applies the record gets the `[エラー]` meta entry and no items |
| DataParser.PutExpressionsKeepsKeys | src/main/java/com/github/poodleone/anyfileviewer/DataParser.java:78-80 | putting expressions never removes a meta key |
| DataParser.PaddingSpansToEnd | src/main/java/com/github/poodleone/anyfileviewer/DataParser.java:70-73 | a walk that stops short of the record adds the padding item at that offset covering the rest; otherwise the items are the walk's |
| DataParser.PadSpec | src/main/java/com/github/poodleone/anyfileviewer/DataParser.java:70-73 | padding is added exactly when the offset is below the record length |
| DataParser.Pad | src/main/java/com/github/poodleone/anyfileviewer/DataParser.java:70-73 | padding changes only the padding item: raw data, length, meta, inner items and every other item stay |
| DataParser.AddFormatMeta | src/main/java/com/github/poodleone/anyfileviewer/DataParser.java:78-80 | the format's expressions change only the meta map and keep its keys distinct |
| DataParser.ParseRecordView | src/main/java/com/github/poodleone/anyfileviewer/DataParser.java:63-84 | a parsed record keeps its raw data and length; the only failure is a wrapped NullPointerException |
| DataParser.ParserStatus.constructor | src/main/java/com/github/poodleone/anyfileviewer/DataParser.java:226-228 | a parse starts at offset 0 |
| DataParser.ParseItems | src/main/java/com/github/poodleone/anyfileviewer/DataParser.java:86-133 | the recursive method leaves the record and offset exactly as the walk specification says and returns its result |
| DataParser.ParseChildren | src/main/java/com/github/poodleone/anyfileviewer/DataParser.java:94-113 | the loop over a group's children agrees with the walk of the children |
| DataParser.PlaceField | src/main/java/com/github/poodleone/anyfileviewer/DataParser.java:128-130 | a field is stored under its path at the current offset, which then advances by its length |
| DataParser.ParseRecord | src/main/java/com/github/poodleone/anyfileviewer/DataParser.java:63-84 | parseRecord agrees with the record specification: on a missing layout it fails and leaves the record unchanged |
| DataParser.ParseLayout | src/main/java/com/github/poodleone/anyfileviewer/DataParser.java:67-73 | the selected layout is walked from offset 0 with an empty group name and padded |
| DataParser.PutMetaExpressions | src/main/java/com/github/poodleone/anyfileviewer/DataParser.java:78-80 | the format's meta expressions are put in order |
| DataParser.GetPutExpressionsOther | src/main/java/com/github/poodleone/anyfileviewer/DataParser.java:78-80 | a key none of the expressions names keeps its value |
| DataParser.GetPutExpressionsLast | src/main/java/com/github/poodleone/anyfileviewer/DataParser.java:78-80 | a named key holds the last expression given for it |
| DataParser.UpdatedMetaSpec | src/main/java/com/github/poodleone/anyfileviewer/DataParser.java:141-151 | updateMetaItems drops removable expressions, keeps other entries, and the new items win as removable expressions |
| DataParser.UpdatedMeta | src/main/java/com/github/poodleone/anyfileviewer/DataParser.java:141-151 | updating keeps the meta keys distinct |
| DataParser.UpdateMetaItems | src/main/java/com/github/poodleone/anyfileviewer/DataParser.java:141-151 | every record of the set gets the updated meta map; items and inner maps and the set itself are unchanged |
| DataParser.UpdateRecordMeta | src/main/java/com/github/poodleone/anyfileviewer/DataParser.java:143-149 | one record's meta map becomes the updated one |
| FileTypeConfigurations.ConfigError | src/main/java/com/github/poodleone/anyfileviewer/FileTypeConfiguration.java:403-417 | the configuration exception names the file, the key and the message |
| FileTypeConfigurations.GetToken | src/main/java/com/github/poodleone/anyfileviewer/FileTypeConfiguration.java:324-331 | get(array, i): null past the end, the token trimmed and unquoted; a lone `"` throws IndexOutOfBounds |
| FileTypeConfigurations.GetTokenOfQuoted | src/main/java/com/github/poodleone/anyfileviewer/FileTypeConfiguration.java:327 | a quoted token is read without its quotes |
| FileTypeConfigurations.GetTokenTrimmed | src/main/java/com/github/poodleone/anyfileviewer/FileTypeConfiguration.java:326 | an unquoted token is already trimmed |
| FileTypeConfigurations.GetStringValue | src/main/java/com/github/poodleone/anyfileviewer/FileTypeConfiguration.java:349-355 | a required property succeeds exactly when present and non-empty; otherwise the configuration exception for that key |
| FileTypeConfigurations.ItemKeysInTextOrder | src/main/java/com/github/poodleone/anyfileviewer/FileTypeConfiguration.java:217-218 | declarations are compiled in key text order: item10 before item2 |
| FileTypeConfigurations.ResolveDumpLayouts | src/main/java/com/github/poodleone/anyfileviewer/FileTypeConfiguration.java:113-121 | no option gives no layouts; otherwise each trimmed name is looked up, a missing one giving an absent layout |
| FileTypeConfigurations.KeywordsExclusive | src/main/java/com/github/poodleone/anyfileviewer/FileTypeConfiguration.java:219-242 | at most one of if, elsif, else, endif opens a declaration |
| FileTypeConfigurations.Classify | src/main/java/com/github/poodleone/anyfileviewer/FileTypeConfiguration.java:219-249 | each keyword test is `keyword\b.*`; the condition is the text after `if` or `elsif` |
| FileTypeConfigurations.GroupNames | src/main/java/com/github/poodleone/anyfileviewer/FileTypeConfiguration.java:258-259 | the included names are the trimmed parts of the argument list |
| FileTypeConfigurations.StringItemOf | src/main/java/com/github/poodleone/anyfileviewer/FileTypeConfiguration.java:272-282 | fewer than three arguments is an error; otherwise name, charset, length and optional value expression are the tokens, the charset supported |
| FileTypeConfigurations.HexItemOf | src/main/java/com/github/poodleone/anyfileviewer/FileTypeConfiguration.java:284-292 | fewer than two arguments is an error; otherwise name, length and optional value expression are the tokens |
| FileTypeConfigurations.NamedExpressionOf | src/main/java/com/github/poodleone/anyfileviewer/FileTypeConfiguration.java:294-310 | meta and hidden need exactly two arguments, the name and the expression |
| FileTypeConfigurations.ParseLeaf | src/main/java/com/github/poodleone/anyfileviewer/FileTypeConfiguration.java:249-315 | a declaration without a comma is malformed; the kind selects group, string, hex, meta or hidden; any other kind is an error |
| FileTypeConfigurations.AppendToTop | src/main/java/com/github/poodleone/anyfileviewer/FileTypeConfiguration.java:250 | a definition is appended to the innermost open group only |
| FileTypeConfigurations.PopAppend | src/main/java/com/github/poodleone/anyfileviewer/FileTypeConfiguration.java:227-228 | closing a branch appends it to the group below |
| FileTypeConfigurations.ControlStep | src/main/java/com/github/poodleone/anyfileviewer/FileTypeConfiguration.java:219-247 | if pushes an IF group; elsif and else close the branch and push ELSIF or ELSE; endif closes; closing with only the root open is the `..に対応するifが見つかりません` error |
| FileTypeConfigurations.PopAppendKeepsShape | src/main/java/com/github/poodleone/anyfileviewer/FileTypeConfiguration.java:227-228 | closing a branch keeps the stack well formed and the root's name and condition |
| FileTypeConfigurations.AppendToTopKeepsShape | src/main/java/com/github/poodleone/anyfileviewer/FileTypeConfiguration.java:250 | appending a definition keeps the stack well formed |
| FileTypeConfigurations.PushKeepsShape | src/main/java/com/github/poodleone/anyfileviewer/FileTypeConfiguration.java:221 | opening a branch keeps the stack well formed |
| FileTypeConfigurations.ControlStepKeepsShape | src/main/java/com/github/poodleone/anyfileviewer/FileTypeConfiguration.java:219-247 | every control declaration keeps the stack well formed and the root unchanged |
| FileTypeConfigurations.Finish | src/main/java/com/github/poodleone/anyfileviewer/FileTypeConfiguration.java:319-321 | compilation succeeds exactly when only the root is open, giving it; otherwise the endif-missing error names the innermost key |
| FileTypeConfigurations.IncludedName | src/main/java/com/github/poodleone/anyfileviewer/FileTypeConfiguration.java:257-259 | the name a `group,<name>` declaration includes |
| FileTypeConfigurations.GroupDeclaration | src/main/java/com/github/poodleone/anyfileviewer/FileTypeConfiguration.java:257-270 | `group,<name>` is a leaf declaration including exactly that name |
| FileTypeConfigurations.FileTypeConfiguration.constructor | src/main/java/com/github/poodleone/anyfileviewer/FileTypeConfiguration.java:51 | the group map starts empty |
| FileTypeConfigurations.FileTypeConfiguration.LoadDataGroupDefinition | src/main/java/com/github/poodleone/anyfileviewer/FileTypeConfiguration.java:204-321 | a loaded name returns at once; groups already loaded never change; a success stores exactly the group the fold of the declaration step over the file's declarations builds from its root frame, with the groups loaded by then (CompilesTo); a file including itself first overflows the stack |
| FileTypeConfigurations.FileTypeConfiguration.CompileFile | src/main/java/com/github/poodleone/anyfileviewer/FileTypeConfiguration.java:210-321 | a compiled file is a well-formed root group with the file's name and condition; the pass ends where the fold of the declaration step says: after all declarations with the unclosed-if check, or at the first refused declaration with its error, or at a failing group inclusion |
| FileTypeConfigurations.FileTypeConfiguration.CompilePass | src/main/java/com/github/poodleone/anyfileviewer/FileTypeConfiguration.java:213-321 | the declarations in order from the root frame: the result is what the fold of the declaration step gives up to where the pass stops, and a compiled result keeps the root's name and condition |
| FileTypeConfigurations.FileTypeConfiguration.CompileNext | src/main/java/com/github/poodleone/anyfileviewer/FileTypeConfiguration.java:216-316 | one declaration of the pass: compiled, the fold goes one declaration further; refused or failing, the pass ends there with that error |
| FileTypeConfigurations.RootFrame | src/main/java/com/github/poodleone/anyfileviewer/FileTypeConfiguration.java:210-214 | the root frame has no key, the file's name (default empty) and condition (default null) and no condition type |
| FileTypeConfigurations.DeclStep | src/main/java/com/github/poodleone/anyfileviewer/FileTypeConfiguration.java:217-316 | one declaration as a function of the stack and the groups loaded: blocked only on a malformed stack or a group inclusion |
| FileTypeConfigurations.DeclStepShape | src/main/java/com/github/poodleone/anyfileviewer/FileTypeConfiguration.java:217-316 | a compiled declaration keeps the stack well formed and its root unchanged |
| FileTypeConfigurations.DeclStepKeep | src/main/java/com/github/poodleone/anyfileviewer/FileTypeConfiguration.java:258-267 | a declaration that does not block compiles alike once more groups are loaded |
| FileTypeConfigurations.StepperKeep | src/main/java/com/github/poodleone/anyfileviewer/FileTypeConfiguration.java:258-267 | the declaration step agrees on every unblocked declaration once more groups are loaded |
| FileTypeConfigurations.Run | src/main/java/com/github/poodleone/anyfileviewer/FileTypeConfiguration.java:216-317 | the fold over the declarations stops at the first one not compiled; no declarations leave the stack as it was |
| FileTypeConfigurations.RunSnoc | src/main/java/com/github/poodleone/anyfileviewer/FileTypeConfiguration.java:216-317 | folding one declaration more is one step more from where the fold stood |
| FileTypeConfigurations.RunKeep | src/main/java/com/github/poodleone/anyfileviewer/FileTypeConfiguration.java:216-317 | two steps that agree wherever the first is not blocked fold alike |
| FileTypeConfigurations.PrefixStep | src/main/java/com/github/poodleone/anyfileviewer/FileTypeConfiguration.java:216-317 | the fold up to a declaration survives the loads it causes, and the next declaration is one step further |
| FileTypeConfigurations.FileTypeConfiguration.CompileDeclaration | src/main/java/com/github/poodleone/anyfileviewer/FileTypeConfiguration.java:217-316 | a control declaration does ControlStep; a leaf is parsed and appended, or its error returned; included groups are loaded and appended in order; the outcome is the declaration step's, refused with its error unless the declaration includes groups |
| FileTypeConfigurations.FileTypeConfiguration.LoadGroups | src/main/java/com/github/poodleone/anyfileviewer/FileTypeConfiguration.java:258-270 | each named group is loaded then appended in order; a missing file is the `.properties が見つかりません` error |
| FileTypeConfigurations.FileTypeConfiguration.AppendGroup | src/main/java/com/github/poodleone/anyfileviewer/FileTypeConfiguration.java:258-268 | one name of a group declaration: its cached group is appended after those of the names before it; earlier cache entries stay; a missing file or a self-including first declaration fails |
| FileTypeConfigurations.FileTypeConfiguration.LoadGroup | src/main/java/com/github/poodleone/anyfileviewer/FileTypeConfiguration.java:260-267 | a loaded group is the cached compiled group of that name; a missing file is an error |
| FileTypeConfigurations.Resolved | src/main/java/com/github/poodleone/anyfileviewer/FileTypeConfiguration.java:267 | the appended groups are the cached groups of the names, in order |
| FileTypeConfigurations.AppendAllToTop | src/main/java/com/github/poodleone/anyfileviewer/FileTypeConfiguration.java:258-270 | appending several groups adds them last to the innermost open group |
| Windowing.Scan | src/main/java/com/github/poodleone/anyfileviewer/reader/LinesReader.java:56-75 | the loop keeps exactly the indices in [offset, offset+maxRecords) (unbounded for maxRecords <= 0) and reaches end of file exactly when maxRecords <= 0 or the source ends before the bound |
| Windowing.LastPageOffset | src/main/java/com/github/poodleone/anyfileviewer/reader/LinesReader.java:89-103 | getLastPageOffset divides by zero for maxRecords 0; otherwise count rounded down to a multiple of the page size |
| Windowing.ReloadNeverReturns | src/main/java/com/github/poodleone/anyfileviewer/reader/LinesReader.java:76-79 | when the last-page window itself is empty, the reload recursion never returns at any depth |
| Windowing.PagedLoadIsLoad | src/main/java/com/github/poodleone/anyfileviewer/reader/LinesReader.java:49-87 | the closed form agrees with the recursion of load as written |
| Windowing.PagedLoadIsScan | src/main/java/com/github/poodleone/anyfileviewer/reader/LinesReader.java:49-87 | every page a load settles on is the scan from its own offset, so it lies inside the source |
| Windowing.PagedLoad | src/main/java/com/github/poodleone/anyfileviewer/reader/LinesReader.java:49-87 | a settled page lies inside the source and does not reload; a page moved off a given offset means the scan there reloads; the failures are stack overflow, or division by zero for maxRecords 0 |
| Windowing.LoadUnrolled | src/main/java/com/github/poodleone/anyfileviewer/reader/LinesReader.java:49-87 | with any fuel, a settled page lies inside the source and does not reload; a failure within the fuel is division by zero for maxRecords 0 |
| Windowing.LastPageShape | src/main/java/com/github/poodleone/anyfileviewer/reader/LinesReader.java:102 | the last-page offset is at most the count and within one page of it, equal to the count exactly when the count is a multiple of the page size |
| Windowing.LastPageDiverges | src/main/java/com/github/poodleone/anyfileviewer/reader/LinesReader.java:76-79 | loading the last page overflows the stack exactly when the record count is a non-zero multiple of the page size |
| Windowing.TwentyLinesByTen | src/main/java/com/github/poodleone/anyfileviewer/reader/LinesReader.java:49-87 | 20 records by pages of 10: the last page and an offset past the end overflow; 21 records give the page [20, 21) |
| Windowing.WindowInside | src/main/java/com/github/poodleone/anyfileviewer/reader/LinesReader.java:63-70 | an offset inside the source with a positive page size gives the page [offset, min(n, offset+max)) |
| Windowing.UnboundedWindow | src/main/java/com/github/poodleone/anyfileviewer/reader/LinesReader.java:67 | maxRecords <= 0 reads everything from offset |
| Windowing.EmptySource | src/main/java/com/github/poodleone/anyfileviewer/reader/LinesReader.java:77 | an empty source gives an empty page at end of file without reloading |
| Windowing.OffsetPastEnd | src/main/java/com/github/poodleone/anyfileviewer/reader/LinesReader.java:76-79 | a non-empty source read at an offset at or past its end gives the same result as a read of the last page (offset -1) |
| Windowing.LastRecordPage | src/main/java/com/github/poodleone/anyfileviewer/reader/LinesReader.java:102 | an alternative last-page offset (the page holding the last record, within one page of the end); the readers keep the offset as written |
| Windowing.LastRecordPageNeverReloads | src/main/java/com/github/poodleone/anyfileviewer/reader/LinesReader.java:76-79 | with that alternative offset the last page is never empty and reaches the end, so no reload would follow |
| Windowing.FixedLoad | src/main/java/com/github/poodleone/anyfileviewer/reader/FixedBytesReader.java:45-78 | a negative record size is NegativeArraySizeException |
| Windowing.FixedWindowInside | src/main/java/com/github/poodleone/anyfileviewer/reader/FixedBytesReader.java:50-72 | an offset within the file reads min(maxRecords, full records left) records from it, unbounded for maxRecords <= 0 |
| Windowing.OffsetWithin | src/main/java/com/github/poodleone/anyfileviewer/reader/FixedBytesReader.java:50 | an offset whose start lies within the file is at most the count of full records |
| Windowing.FullRecordAt | src/main/java/com/github/poodleone/anyfileviewer/reader/FixedBytesReader.java:61 | a read of a full record at index i succeeds exactly when i is below the count of full records |
| Windowing.FixedPageWithinFile | src/main/java/com/github/poodleone/anyfileviewer/reader/FixedBytesReader.java:57-72 | every record of a fixed page is a full record of the file, counted from the skipped position (byte 0 for an offset below -1, which the page keeps) |
| Windowing.FixedLastPage | src/main/java/com/github/poodleone/anyfileviewer/reader/FixedBytesReader.java:50-53 | offset -1 reads the last maxRecords full records |
| Windowing.FixedOffsetAtEnd | src/main/java/com/github/poodleone/anyfileviewer/reader/FixedBytesReader.java:50-53 | an offset at the record count gives an empty page at end of file |
| Windowing.TenBytesOfFours | src/main/java/com/github/poodleone/anyfileviewer/reader/FixedBytesReader.java:45-78 | 10 bytes in records of 4: two records; with maxRecords 1, one record and not end of file |
| Windowing.AdjustedOffset | src/main/java/com/github/poodleone/anyfileviewer/reader/FixedBytesReader.java:50-53 | offset -1, or an offset whose records start past the end of the file, becomes a non-negative offset; an offset inside the file is kept; an offset below -1 is kept as it is |
| Windowing.FixedRun | src/main/java/com/github/poodleone/anyfileviewer/reader/FixedBytesReader.java:57-72 | the page starts at the offset, holds at most maxRecords records when that is positive, only full records of the file from the skipped position, and is not at end of file only when another full record follows |
| Windowing.FixedNegativeOffset | src/main/java/com/github/poodleone/anyfileviewer/reader/FixedBytesReader.java:50-76 | an offset below -1 is not adjusted: the skip of a negative byte count reads from byte 0, min(maxRecords, full records) records (all for maxRecords <= 0), and the page keeps the negative offset |
| Readers.CharsetOption | src/main/java/com/github/poodleone/anyfileviewer/reader/LinesReader.java:34 | Charset.forName of the option: a missing name is IllegalArgumentException, an unsupported one UnsupportedCharsetException |
| Readers.Group | src/main/java/com/github/poodleone/anyfileviewer/reader/LinesReader.java:119 | m.group(name) is defined exactly for the pattern's group names |
| Readers.PutGroupsCons | src/main/java/com/github/poodleone/anyfileviewer/reader/LinesReader.java:119 | the group names are put one after another, DUMP passed over by the dump readers |
| Readers.PutGroupsOk | src/main/java/com/github/poodleone/anyfileviewer/reader/StringDumpLinesReader.java:38-39 | the puts succeed exactly when the pattern defines every name put |
| Readers.PutGroupsGet | src/main/java/com/github/poodleone/anyfileviewer/reader/LinesReader.java:119 | afterwards each put name holds its group's text (null for a group that did not take part) |
| Readers.PutGroups | src/main/java/com/github/poodleone/anyfileviewer/reader/LinesReader.java:119 | the puts keep the meta keys distinct; the only failure is IllegalArgumentException for a name the pattern lacks |
| Readers.CsvEntries | src/main/java/com/github/poodleone/anyfileviewer/reader/CsvLinesReader.java:29-36 | one entry per column |
| Readers.CsvItemsSpec | src/main/java/com/github/poodleone/anyfileviewer/reader/CsvLinesReader.java:29-36 | with distinct keys, the item map is the columns in order under their keys |
| Readers.CsvEntriesSnoc | src/main/java/com/github/poodleone/anyfileviewer/reader/CsvLinesReader.java:30-35 | the last column goes last |
| Readers.CsvItemsAppend | src/main/java/com/github/poodleone/anyfileviewer/reader/CsvLinesReader.java:30-35 | each column is appended under its key |
| Readers.CsvItemsSnoc | src/main/java/com/github/poodleone/anyfileviewer/reader/CsvLinesReader.java:30-35 | column i is put under its key after the columns before it |
| Readers.CsvKeyPastList | src/main/java/com/github/poodleone/anyfileviewer/reader/CsvLinesReader.java:34 | a column past the list items is keyed `[i]` |
| Readers.CsvItems | src/main/java/com/github/poodleone/anyfileviewer/reader/CsvLinesReader.java:30-35 | the item map has distinct keys and at most one entry per column |
| Readers.CsvView | src/main/java/com/github/poodleone/anyfileviewer/reader/CsvLinesReader.java:20-38 | a CSV record is never an error record, has no raw data, the line's length, no meta or inner items, and at most one item per column |
| Readers.DumpBytes | src/main/java/com/github/poodleone/anyfileviewer/reader/HexDumpLinesReader.java:29 | the hex dump reader decodes the DUMP group with parseHexBinary; a missing group is NullPointerException |
| Readers.HexDumpRoundTrip | src/main/java/com/github/poodleone/anyfileviewer/reader/HexDumpLinesReader.java:29 | a hex dump of any bytes is read back as those bytes |
| Readers.PutGroupsInto | src/main/java/com/github/poodleone/anyfileviewer/reader/LinesReader.java:119 | the meta puts of a matched line, as specified |
| Readers.PutGroup | src/main/java/com/github/poodleone/anyfileviewer/reader/LinesReader.java:119 | one put of that loop |
| Readers.ReadCsvRecord | src/main/java/com/github/poodleone/anyfileviewer/reader/CsvLinesReader.java:20-38 | the CSV record: no raw data, the line's length, column i under the list item i or `[i]` |
| Readers.PutColumns | src/main/java/com/github/poodleone/anyfileviewer/reader/CsvLinesReader.java:30-35 | the column loop leaves the record holding exactly the item map of the columns |
| Readers.PutColumn | src/main/java/com/github/poodleone/anyfileviewer/reader/CsvLinesReader.java:34 | one turn of that loop puts column i after the columns before it |
| Readers.ReadLineRecord | src/main/java/com/github/poodleone/anyfileviewer/reader/LinesReader.java:105-124 | readRecord of the line readers agrees with the line record specification: an unmatched line is an ErrorRecord |
| Readers.LineRecordShape | src/main/java/com/github/poodleone/anyfileviewer/reader/LinesReader.java:105-124 | a CSV line always gives a record; an error record is the pattern-mismatch one; line and CSV records have no raw data and the line's length; dump records hold bytes and their length |
| Readers.ReadPayloadRecord | src/main/java/com/github/poodleone/anyfileviewer/reader/VariableBytesReader.java:103-114 | a payload becomes a record over those bytes, parsed by its layouts |
| Readers.PayloadRecordShape | src/main/java/com/github/poodleone/anyfileviewer/reader/VariableBytesReader.java:103-114 | a payload record is a normal record over exactly those bytes; the only failure is a wrapped NullPointerException |
| Readers.ReadUnit | src/main/java/com/github/poodleone/anyfileviewer/reader/LinesReader.java:105-124 | reading one unit (line or payload) returns a fresh record whose view is the unit's record, or that record's failure |
| Readers.ReadUnitAt | src/main/java/com/github/poodleone/anyfileviewer/reader/LinesReader.java:69 | the record read for unit i is result i of the whole read |
| Readers.Stream | src/main/java/com/github/poodleone/anyfileviewer/reader/VariableBytesReader.java:29-42 | the consumer load hands over fresh distinct records, one per unit, until the first failure |
| Readers.StreamLines | src/main/java/com/github/poodleone/anyfileviewer/reader/LinesReader.java:33-46 | the line consumer load: a bad charset fails at once; otherwise as the unit stream |
| Readers.StreamPayloads | src/main/java/com/github/poodleone/anyfileviewer/reader/VariableBytesReader.java:29-42 | the payload consumer load: each payload's record handed on until the first record that fails; otherwise the load ends as the read script does (null, or the exception it throws) |
| Readers.ResultsAt | src/main/java/com/github/poodleone/anyfileviewer/reader/LinesReader.java:57-75 | result k of the read is the record of unit k: units are read in file order |
| Readers.WindowRecords | src/main/java/com/github/poodleone/anyfileviewer/reader/LinesReader.java:57-75 | a loaded page is the page the offset logic decides, holds one record per unit of [first, end), and record k is the record of unit first + k |
| Readers.WindowLoadOk | src/main/java/com/github/poodleone/anyfileviewer/reader/LinesReader.java:49-87 | a load that succeeds returns the decided page and the records of exactly its units |
| Readers.WindowLoad | src/main/java/com/github/poodleone/anyfileviewer/reader/LinesReader.java:49-87 | a loaded page lies inside the source, does not reload, and holds one record per unit of [first, end) |
| Readers.UnboundedWindowIsStream | src/main/java/com/github/poodleone/anyfileviewer/reader/LinesReader.java:49-87 | a paged load from 0 without a bound gives the same records and outcome as the consumer load |
| Readers.CountLastPageOffset | src/main/java/com/github/poodleone/anyfileviewer/reader/LinesReader.java:89-103 | the counting loop computes the last-page offset |
| Readers.LoadPage | src/main/java/com/github/poodleone/anyfileviewer/reader/LinesReader.java:49-87 | load returns the page's records, its end-of-file flag and offset, the path and the format; a failing record is the error |
| Readers.LoadPageFrom | src/main/java/com/github/poodleone/anyfileviewer/reader/LinesReader.java:54-86 | the load once the offset is known: one pass, and on an empty last window either a reload from the last page or, when already reloading, the stack overflow |
| Readers.LoadWindowAt | src/main/java/com/github/poodleone/anyfileviewer/reader/LinesReader.java:54-83 | one pass reloads exactly when the window at end of file is empty; otherwise it gives the window's records |
| Readers.Finish | src/main/java/com/github/poodleone/anyfileviewer/reader/LinesReader.java:76-82 | the finished set records path, format and offset and keeps its records |
| Readers.WindowLoadCases | src/main/java/com/github/poodleone/anyfileviewer/reader/LinesReader.java:49-87 | the load specification unfolds into one pass, a reload, or an overflow when the last page itself reloads |
| Readers.ReadWindow | src/main/java/com/github/poodleone/anyfileviewer/reader/LinesReader.java:54-75 | the read loop yields the window's records and reports the reload condition exactly |
| Readers.WindowTurn | src/main/java/com/github/poodleone/anyfileviewer/reader/LinesReader.java:57-73 | one turn of the read loop keeps the records read so far matching the window |
| Readers.ReadInWindow | src/main/java/com/github/poodleone/anyfileviewer/reader/LinesReader.java:69-70 | a record inside the window is read and added, or its failure ends the load |
| Readers.AddUnit | src/main/java/com/github/poodleone/anyfileviewer/reader/LinesReader.java:70 | adding a record appends one fresh record and changes nothing else of the set |
| Readers.LoadLines | src/main/java/com/github/poodleone/anyfileviewer/reader/LinesReader.java:49-87 | load of a line reader as specified |
| Readers.LoadPayloads | src/main/java/com/github/poodleone/anyfileviewer/reader/VariableBytesReader.java:45-86 | load of the variable-length reader: the page PayloadLoad gives, with the read script's end (null or a throw) taken into account |
| Readers.PayloadLoadEnding | src/main/java/com/github/poodleone/anyfileviewer/reader/VariableBytesReader.java:45-102 | a script ending with null gives WindowLoad's page; a throwing one fails offset -1 and every page that reaches the end of the file, and a page that still loads is WindowLoad's, without eof |
| Readers.UnboundedPayloadLoadIsStream | src/main/java/com/github/poodleone/anyfileviewer/reader/VariableBytesReader.java:29-86 | with offset 0 and no bound the windowed load gives the streaming load's records, and fails exactly when the stream does, with its error |
| Readers.RecordSize | src/main/java/com/github/poodleone/anyfileviewer/reader/FixedBytesReader.java:98-104 | the record size is the parsed recordSize option; a missing or unparsable one is the `recordSizeの指定が不正です` error |
| Readers.Chunk | src/main/java/com/github/poodleone/anyfileviewer/reader/FixedBytesReader.java:61 | a chunk inside the file is those bytes |
| Readers.ChunkAtInside | src/main/java/com/github/poodleone/anyfileviewer/reader/FixedBytesReader.java:61 | record i below the full-record count is bytes [i*size, (i+1)*size) |
| Readers.FixedUnits | src/main/java/com/github/poodleone/anyfileviewer/reader/FixedBytesReader.java:57-72 | the units of a fixed page are its consecutive chunks |
| Readers.FileUnits | src/main/java/com/github/poodleone/anyfileviewer/reader/FixedBytesReader.java:29-42 | a whole file yields one unit per full record; a trailing partial record is dropped |
| Readers.FixedWindowRecords | src/main/java/com/github/poodleone/anyfileviewer/reader/FixedBytesReader.java:45-78 | record k of a fixed page is the record parsed from its own chunk of the file, chunk SkipTo(offset) + k (so from byte 0 when the offset is below -1) |
| Readers.FixedWindow | src/main/java/com/github/poodleone/anyfileviewer/reader/FixedBytesReader.java:45-78 | a loaded fixed page holds as many records as its count; a negative record size is NegativeArraySizeException |
| Readers.UnboundedFixedWindowIsStream | src/main/java/com/github/poodleone/anyfileviewer/reader/FixedBytesReader.java:29-83 | a fixed load from 0 without a bound equals the consumer load |
| Readers.Read | src/main/java/com/github/poodleone/anyfileviewer/reader/FixedBytesReader.java:61 | InputStream.read fills min(buffer, remaining) bytes from the position and returns their count, -1 at the end, 0 for an empty buffer |
| Readers.ReadInto | src/main/java/com/github/poodleone/anyfileviewer/reader/FixedBytesReader.java:61 | the buffer after a read: unchanged at the end; the next bytes when a full record remains |
| Readers.SharedBuffer | src/main/java/com/github/poodleone/anyfileviewer/reader/FixedBytesReader.java:47 | as written, every record of a load shares one buffer of recordSize bytes (the length is stated; the contents are shown by SharedBufferLosesFirstRecord) |
| Readers.SharedBufferLosesFirstRecord | src/main/java/com/github/poodleone/anyfileviewer/reader/FixedBytesReader.java:47-69 | with bytes [1, 2] and record size 1 the first record ends up showing byte 2, not 1 |
| Readers.StreamFixed | src/main/java/com/github/poodleone/anyfileviewer/reader/FixedBytesReader.java:29-42 | the fixed consumer load as specified, including a negative or zero record size |
| Readers.FixedStream | src/main/java/com/github/poodleone/anyfileviewer/reader/FixedBytesReader.java:29-42 | the consumer load passes only for a positive record size, and then hands over no more records than full records of the file |
| Readers.StreamChunks | src/main/java/com/github/poodleone/anyfileviewer/reader/FixedBytesReader.java:33-38 | reading full chunks until a short read yields one record per full record of the file |
| Readers.NextChunk | src/main/java/com/github/poodleone/anyfileviewer/reader/FixedBytesReader.java:34-37 | one turn: the next full chunk's record, or the end of the load |
| Readers.ReadChunk | src/main/java/com/github/poodleone/anyfileviewer/reader/FixedBytesReader.java:34 | a read returns a full chunk exactly while full records remain |
| Readers.ReadFixedRun | src/main/java/com/github/poodleone/anyfileviewer/reader/FixedBytesReader.java:57-73 | the fixed read loop yields the records of the page from the skipped position (none skipped for a negative offset), each over its own chunk, and the page's end-of-file flag |
| Readers.FixedReadLoop | src/main/java/com/github/poodleone/anyfileviewer/reader/FixedBytesReader.java:60-73 | the read loop yields the page's records and its end-of-file flag, or the first failure among them; every record is fresh |
| Readers.SkipStart | src/main/java/com/github/poodleone/anyfileviewer/reader/FixedBytesReader.java:57 | is.skip of recordSize * offset positions the stream at record SkipTo(offset): a negative byte count skips nothing |
| Readers.FixedTurn | src/main/java/com/github/poodleone/anyfileviewer/reader/FixedBytesReader.java:60-72 | one turn of the fixed read loop keeps the records matching the page |
| Readers.ReadFixedInside | src/main/java/com/github/poodleone/anyfileviewer/reader/FixedBytesReader.java:65-72 | a record inside the page is read and added |
| Readers.FixedLoopEnd | src/main/java/com/github/poodleone/anyfileviewer/reader/FixedBytesReader.java:60-68 | when the loop stops, the records read are the whole page |
| Readers.FixedLoopInside | src/main/java/com/github/poodleone/anyfileviewer/reader/FixedBytesReader.java:66-69 | while the loop goes on, the index is inside the page |
| Readers.LoadFixed | src/main/java/com/github/poodleone/anyfileviewer/reader/FixedBytesReader.java:45-83 | the fixed-size load returns the page's records, flag, offset (an offset below -1 kept as given), path and format |
| Readers.FixedLoadCases | src/main/java/com/github/poodleone/anyfileviewer/reader/FixedBytesReader.java:45-83 | the fixed load specification is the read run at the adjusted offset |
| Exporter.Escape | src/main/java/com/github/poodleone/anyfileviewer/Exporter.java:185 | the escaped text holds no NUL |
| Exporter.Quote | src/main/java/com/github/poodleone/anyfileviewer/Exporter.java:184-186 | a quoted field starts and ends with a double quote |
| Exporter.RemoveNul | src/main/java/com/github/poodleone/anyfileviewer/Exporter.java:185 | the text with every NUL removed |
| Exporter.UnescapeEscape | src/main/java/com/github/poodleone/anyfileviewer/Exporter.java:185 | escaping is undone by reading doubled quotes back, giving the text without NULs |
| Exporter.RemoveNulOfNulFree | src/main/java/com/github/poodleone/anyfileviewer/Exporter.java:185 | text without NUL is unchanged |
| Exporter.QuoteRoundTrip | src/main/java/com/github/poodleone/anyfileviewer/Exporter.java:184-186 | round trip: unquoting a quoted field gives the text without NULs, the text itself when it has none |
| Exporter.RemoveInvalidFileNameChars | src/main/java/com/github/poodleone/anyfileviewer/Exporter.java:188-190 | the result is no longer and holds no invalid file-name character |
| Exporter.RemoveInvalidAppend | src/main/java/com/github/poodleone/anyfileviewer/Exporter.java:188-190 | removal works character by character: it distributes over concatenation |
| Exporter.RemoveInvalidKeepsValid | src/main/java/com/github/poodleone/anyfileviewer/Exporter.java:188-190 | a valid name is unchanged |
| Exporter.RemoveInvalidIdempotent | src/main/java/com/github/poodleone/anyfileviewer/Exporter.java:188-190 | removing twice equals removing once |
| Exporter.OutputFile | src/main/java/com/github/poodleone/anyfileviewer/Exporter.java:122-123 | a name can be written exactly when it has no NUL and is not empty, `.` or `..` |
| Exporter.ShowCell | src/main/java/com/github/poodleone/anyfileviewer/record/RecordItemImpl.java:56-61 | toString of a cell: cached text returned unchanged, a computed text cached, earlier cached texts kept |
| Exporter.ShowValue | src/main/java/com/github/poodleone/anyfileviewer/Exporter.java:138 | getValue on a record being exported; only item cells change what was shown; an absent name is the empty text |
| Exporter.ShowAll | src/main/java/com/github/poodleone/anyfileviewer/Exporter.java:45 | one value per column |
| Exporter.AnyColumnContains | src/main/java/com/github/poodleone/anyfileviewer/Exporter.java:137-141 | showing the columns only adds diagnostics and cached texts |
| Exporter.TestFilter | src/main/java/com/github/poodleone/anyfileviewer/Exporter.java:133-143 | the extended filter is evalAsBoolean of the filter expression |
| Exporter.FilterMatchesRow | src/main/java/com/github/poodleone/anyfileviewer/Exporter.java:137-141 | the plain filter holds exactly when some column other than `[No.]` contains the filter text |
| Exporter.RowTexts | src/main/java/com/github/poodleone/anyfileviewer/Exporter.java:151-177 | one line per detail row |
| Exporter.RowText | src/main/java/com/github/poodleone/anyfileviewer/Exporter.java:151-177 | a detail line starts with its kind column and ends with its hex column |
| Exporter.MetaRows | src/main/java/com/github/poodleone/anyfileviewer/Exporter.java:150-159 | one row per meta entry, numbered from 1, unless a value's toString throws |
| Exporter.ItemRow | src/main/java/com/github/poodleone/anyfileviewer/Exporter.java:162-178 | a plain value's row shows its text and leaves offset, length and hex empty; an item cell's row shows its offset, its length and hex as the field computes them on the view, and its toString text (the cached one when cached); a declared length is shown as declared |
| Exporter.ItemRows | src/main/java/com/github/poodleone/anyfileviewer/Exporter.java:161-179 | one row per item, numbered again from 1, each the row of its item (value, length, hex) shown from a state the earlier rows led to |
| Exporter.RowsShownPrepend | src/main/java/com/github/poodleone/anyfileviewer/Exporter.java:161-179 | the first item's row shown from the start, then rows shown later, are all rows shown from the start on |
| Exporter.DetailLines | src/main/java/com/github/poodleone/anyfileviewer/Exporter.java:145-182 | formatDetail: the header's value, the column header, then one line per meta entry and per item |
| Exporter.FormatDetail | src/main/java/com/github/poodleone/anyfileviewer/Exporter.java:145-182 | the method builds the lines the specification gives |
| Exporter.AppendMetaRows | src/main/java/com/github/poodleone/anyfileviewer/Exporter.java:150-159 | the meta rows are appended in order |
| Exporter.AppendItemRows | src/main/java/com/github/poodleone/anyfileviewer/Exporter.java:161-179 | the item rows are appended in order |
| Exporter.Kept | src/main/java/com/github/poodleone/anyfileviewer/Exporter.java:40-42 | a record is kept whenever the filter is empty, otherwise as testFilter says |
| Exporter.QuoteAll | src/main/java/com/github/poodleone/anyfileviewer/Exporter.java:45 | every column value is quoted |
| Exporter.ListRecordLines | src/main/java/com/github/poodleone/anyfileviewer/Exporter.java:39-51 | a record gives at most one line, exactly one when there is no filter |
| Exporter.EmitLength | src/main/java/com/github/poodleone/anyfileviewer/Exporter.java:38-52 | each record adds at most one line, exactly one without a filter when the load passes |
| Exporter.ListOutputs | src/main/java/com/github/poodleone/anyfileviewer/Exporter.java:38-52 | one output per record read |
| Exporter.ListOutputsLines | src/main/java/com/github/poodleone/anyfileviewer/Exporter.java:40-51 | each record's output has at most one line, exactly one without a filter |
| Exporter.ListExportShape | src/main/java/com/github/poodleone/anyfileviewer/Exporter.java:31-58 | the list export is the header line then at most one line per record, exactly one each when there is no filter and no failure |
| Exporter.ListExport | src/main/java/com/github/poodleone/anyfileviewer/Exporter.java:31-58 | the export starts with the header line of the joined column names and passes only when every record was read |
| Exporter.Emit | src/main/java/com/github/poodleone/anyfileviewer/Exporter.java:38-52 | lines already written stay, and the export passes exactly when every record's output succeeded |
| Exporter.EmitKeepsPrefix | src/main/java/com/github/poodleone/anyfileviewer/Exporter.java:33-52 | lines once written stay |
| Exporter.EmitStep | src/main/java/com/github/poodleone/anyfileviewer/Exporter.java:38-52 | a failing record ends the export; a successful one appends its lines |
| Exporter.ExportList | src/main/java/com/github/poodleone/anyfileviewer/Exporter.java:31-58 | the export loop writes the lines of the list specification |
| Exporter.DetailRecord | src/main/java/com/github/poodleone/anyfileviewer/Exporter.java:77-88 | one record's detail block, numbered before filtering |
| Exporter.DetailRecordLines | src/main/java/com/github/poodleone/anyfileviewer/Exporter.java:77-88 | a record's block ends with an empty line and, without a filter, is never empty |
| Exporter.Numbered | src/main/java/com/github/poodleone/anyfileviewer/Exporter.java:39 | numbering puts `[No.]` with the number into the inner items and keeps every other inner item and the rest of the record |
| Exporter.DetailOutputs | src/main/java/com/github/poodleone/anyfileviewer/Exporter.java:77-88 | one output per record read |
| Exporter.ExportDetails | src/main/java/com/github/poodleone/anyfileviewer/Exporter.java:72-94 | the detail export writes each kept record's block in turn until a failure |
| Exporter.FileRecord | src/main/java/com/github/poodleone/anyfileviewer/Exporter.java:115-126 | a kept record's file name is cleaned of invalid characters and writable |
| Exporter.FileOutputs | src/main/java/com/github/poodleone/anyfileviewer/Exporter.java:115-126 | one output per record read |
| Exporter.WriteFiles | src/main/java/com/github/poodleone/anyfileviewer/Exporter.java:123 | writing never loses a file already present |
| Exporter.WriteFilesKeeps | src/main/java/com/github/poodleone/anyfileviewer/Exporter.java:123 | a file no record names keeps its content |
| Exporter.WriteFilesLastWins | src/main/java/com/github/poodleone/anyfileviewer/Exporter.java:123 | when several records name one file, the last one's content is what remains |
| Exporter.ExportDetailsFiles | src/main/java/com/github/poodleone/anyfileviewer/Exporter.java:109-131 | the per-file export writes the files of the specification |
| GuiConfigurations.AllKeysListed | src/main/java/com/github/poodleone/anyfileviewer/gui/GUIConfiguration.java:33-36 | the Booleans enumeration is listed whole |
| GuiConfigurations.FirstIndex | src/main/java/com/github/poodleone/anyfileviewer/gui/GUIConfiguration.java:69 | the first position of an element, or the length when absent |
| GuiConfigurations.RemoveFirst | src/main/java/com/github/poodleone/anyfileviewer/gui/GUIConfiguration.java:69 | List.remove(Object) removes only the first occurrence, or nothing |
| GuiConfigurations.RemoveAll | src/main/java/com/github/poodleone/anyfileviewer/gui/GUIConfiguration.java:92 | every occurrence is removed; the other elements keep their multiplicity |
| GuiConfigurations.RemoveAllAbsent | src/main/java/com/github/poodleone/anyfileviewer/gui/GUIConfiguration.java:92 | removing an absent element changes nothing |
| GuiConfigurations.TrimFromShape | src/main/java/com/github/poodleone/anyfileviewer/gui/GUIConfiguration.java:71-73 | the trimming loop removes every other element from index 15 on, about half of the excess |
| GuiConfigurations.TrimShortList | src/main/java/com/github/poodleone/anyfileviewer/gui/GUIConfiguration.java:71-73 | for at most 16 entries the loop cuts the list to 15 |
| GuiConfigurations.AddKeepsRecentBound | src/main/java/com/github/poodleone/anyfileviewer/gui/GUIConfiguration.java:68-74 | from at most 15 entries, adding gives at most 15, the path first, then the others in order |
| GuiConfigurations.LongListNotCut | src/main/java/com/github/poodleone/anyfileviewer/gui/GUIConfiguration.java:71-73 | from 17 entries, adding a new path leaves 16: the loop does not cut to 15 |
| GuiConfigurations.MoveToFrontTwice | src/main/java/com/github/poodleone/anyfileviewer/gui/GUIConfiguration.java:69-70 | adding the same path twice equals adding it once (before trimming) |
| GuiConfigurations.MoveToFront | src/main/java/com/github/poodleone/anyfileviewer/gui/GUIConfiguration.java:69-70 | the path comes first; a present path keeps the length, an absent one is put in front of the list |
| GuiConfigurations.TrimFrom | src/main/java/com/github/poodleone/anyfileviewer/gui/GUIConfiguration.java:71-73 | the loop never lengthens the list and keeps its first i entries; a list no longer than i is unchanged |
| GuiConfigurations.RecentAfterAdd | src/main/java/com/github/poodleone/anyfileviewer/gui/GUIConfiguration.java:68-74 | after adding, the path is first and the list grows by at most one |
| GuiConfigurations.FiltersAfterAdd | src/main/java/com/github/poodleone/anyfileviewer/gui/GUIConfiguration.java:90-94 | the trimmed filter comes first, every other copy of it is gone, the rest kept |
| GuiConfigurations.AddFilterTwice | src/main/java/com/github/poodleone/anyfileviewer/gui/GUIConfiguration.java:90-94 | adding the same filter twice equals adding it once |
| GuiConfigurations.Zeros | src/main/java/com/github/poodleone/anyfileviewer/gui/GUIConfiguration.java:145 | k zero digits |
| GuiConfigurations.ZeroPad | src/main/java/com/github/poodleone/anyfileviewer/gui/GUIConfiguration.java:145-148 | `%0Nd`: decimal digits of the number, at least N of them |
| GuiConfigurations.SavedKeysMatch | src/main/java/com/github/poodleone/anyfileviewer/gui/GUIConfiguration.java:123-148 | the keys save writes are the keys loading reads, and no key of one family is of another |
| GuiConfigurations.FamiliesDiffer | src/main/java/com/github/poodleone/anyfileviewer/gui/GUIConfiguration.java:145-152 | file keys, filter keys and boolean keys never collide |
| GuiConfigurations.KeysDistinct | src/main/java/com/github/poodleone/anyfileviewer/gui/GUIConfiguration.java:145-148 | different indices give different keys |
| GuiConfigurations.RecentKey | src/main/java/com/github/poodleone/anyfileviewer/gui/GUIConfiguration.java:145 | `recentlyUsedFiles%02d`: the prefix, then at least two decimal digits whose value is the index |
| GuiConfigurations.FilterKey | src/main/java/com/github/poodleone/anyfileviewer/gui/GUIConfiguration.java:148 | `filters%04d`: the prefix, then at least four decimal digits whose value is the index |
| GuiConfigurations.ParseBoolean | src/main/java/com/github/poodleone/anyfileviewer/gui/GUIConfiguration.java:132 | Boolean.parseBoolean: true exactly for `true` in any letter case; null is false |
| GuiConfigurations.ParseBooleanOfBoolString | src/main/java/com/github/poodleone/anyfileviewer/gui/GUIConfiguration.java:132-152 | round trip: a saved flag is loaded back as itself |
| GuiConfigurations.PutAllKeeps | src/main/java/com/github/poodleone/anyfileviewer/gui/GUIConfiguration.java:139-153 | setProperty of other keys leaves a key unchanged |
| GuiConfigurations.PutAllStores | src/main/java/com/github/poodleone/anyfileviewer/gui/GUIConfiguration.java:139-153 | each key set holds its value afterwards |
| GuiConfigurations.PutAll | src/main/java/com/github/poodleone/anyfileviewer/gui/GUIConfiguration.java:139-153 | setProperty in turn keeps the keys distinct |
| GuiConfigurations.SavedProperties | src/main/java/com/github/poodleone/anyfileviewer/gui/GUIConfiguration.java:139-153 | the saved properties keep the keys distinct |
| GuiConfigurations.RecentEntries | src/main/java/com/github/poodleone/anyfileviewer/gui/GUIConfiguration.java:144-145 | file i is saved under recentlyUsedFiles%02d of i |
| GuiConfigurations.FilterEntries | src/main/java/com/github/poodleone/anyfileviewer/gui/GUIConfiguration.java:148 | filter i is saved under filters%04d of i |
| GuiConfigurations.BooleanEntries | src/main/java/com/github/poodleone/anyfileviewer/gui/GUIConfiguration.java:151-153 | each flag is saved as `true` or `false`, false when unset |
| GuiConfigurations.SavedFile | src/main/java/com/github/poodleone/anyfileviewer/gui/GUIConfiguration.java:144-145 | after save, each file is stored under its key |
| GuiConfigurations.SavedFilter | src/main/java/com/github/poodleone/anyfileviewer/gui/GUIConfiguration.java:148 | after save, each filter is stored under its key |
| GuiConfigurations.SavedBoolean | src/main/java/com/github/poodleone/anyfileviewer/gui/GUIConfiguration.java:151-153 | after save, the flag is stored |
| GuiConfigurations.SaveKeepsOtherKeys | src/main/java/com/github/poodleone/anyfileviewer/gui/GUIConfiguration.java:139-153 | save keeps every other property it loaded |
| GuiConfigurations.StaleEntrySurvives | src/main/java/com/github/poodleone/anyfileviewer/gui/GUIConfiguration.java:140-145 | an entry beyond the current file count survives from the previous file |
| GuiConfigurations.SavedFileIsLoaded | src/main/java/com/github/poodleone/anyfileviewer/gui/GUIConfiguration.java:123-125 | a saved file is among the entries loading reads, in key order |
| GuiConfigurations.StoreAll | src/main/java/com/github/poodleone/anyfileviewer/gui/GUIConfiguration.java:144-153 | the setProperty loop stores the entries in order |
| GuiConfigurations.GuiConfiguration.constructor | src/main/java/com/github/poodleone/anyfileviewer/gui/GUIConfiguration.java:102-134 | loading reads the files and filters in key order, and getBoolean then answers each flag as parseBoolean of its property |
| GuiConfigurations.GuiConfiguration.AddRecentlyUsedFile | src/main/java/com/github/poodleone/anyfileviewer/gui/GUIConfiguration.java:68-74 | the list becomes the path, then the rest, trimmed by the loop as written; nothing else changes |
| GuiConfigurations.GuiConfiguration.AddFilter | src/main/java/com/github/poodleone/anyfileviewer/gui/GUIConfiguration.java:90-94 | the filter list becomes the trimmed filter first, its other copies removed; nothing else changes |
| GuiConfigurations.GuiConfiguration.SetBoolean | src/main/java/com/github/poodleone/anyfileviewer/gui/GUIConfiguration.java:112-114 | the flag reads back the value set; the lists are unchanged |
| GuiConfigurations.GuiConfiguration.Save | src/main/java/com/github/poodleone/anyfileviewer/gui/GUIConfiguration.java:139-153 | save stores the files, filters and flags over the previous properties |
| IntegerInputVerifiers.CorrectedInRange | src/main/java/com/github/poodleone/anyfileviewer/utils/IntegerInputVerifier.java:35-41 | accepted text ends up as an int within [min, max]; in-range text is kept |
| IntegerInputVerifiers.CorrectedIdempotent | src/main/java/com/github/poodleone/anyfileviewer/utils/IntegerInputVerifier.java:35-41 | verifying twice corrects no further |
| IntegerInputVerifiers.UnparsableUnchanged | src/main/java/com/github/poodleone/anyfileviewer/utils/IntegerInputVerifier.java:42-45 | unparsable text is left as it is |
| IntegerInputVerifiers.Corrected | src/main/java/com/github/poodleone/anyfileviewer/utils/IntegerInputVerifier.java:35-45 | the text is kept, or replaced by min or max; unparsable text is kept; it is replaced only when it parses to a value outside [min, max] |
| IntegerInputVerifiers.IntegerInputVerifier.constructor | src/main/java/com/github/poodleone/anyfileviewer/utils/IntegerInputVerifier.java:25-28 | keeps min and max |
| IntegerInputVerifiers.IntegerInputVerifier.Verify | src/main/java/com/github/poodleone/anyfileviewer/utils/IntegerInputVerifier.java:31-47 | verify holds exactly when the text parses as an int; the text becomes min or max when out of range, otherwise stays |
| IntegerInputVerifiers.TextField.constructor | src/main/java/com/github/poodleone/anyfileviewer/utils/IntegerInputVerifier.java:33 | a text field holds its text |

## Left out

- The Rhino script engine is the `Env.eval` oracle; `DataParser.initialize` and
  `loadScript` (reading `.js` files into the engine) are not modelled.
- Env.eval: every evaluation is modelled as a pure function of the expression, the record
  and the parameters, independent of every other evaluation and of the loaded scripts.
  In the source (DataParser.java:31-51, 177-218) the untyped `eval` runs in one shared
  scope, so bindings and top-level variables one evaluation leaves behind are seen by the
  next, and the functions `loadScript` defined are visible there; the typed `eval` gets a
  fresh scope without them.
- Regular expressions (`Env.find`: the match and its named groups) and charsets
  (`decode`, `encode`, `charsetSupported`) are oracles; no regex engine or encoding is
  modelled.
- File I/O: files are the sequences of lines, payloads or bytes they hold. Directory
  scanning (`findPropertyFiles`), reading properties files from disk and the file writes
  of the exporter are not modelled; the exporter produces the lines it would write.
- The Swing user interface; `GUIConfiguration`'s file read and write, its shutdown hook and
  `getInstance` are not modelled; its lists and flags are.
- Reflection: the `readerClass` option selects one of the reader functions by name; there
  is no `newInstance`.
- Of the `FileTypeConfiguration` constructor only the resolution of the dump layouts is
  modelled (`FileTypeConfigurations.ResolveDumpLayouts`); the collection of `listItems`,
  reader options and meta-item expressions is not.
- `RecordExpressionItem` is an expression value with its removable flag; it has no
  behaviour of its own beyond evaluation.
- `metaItemExpressions` is a `HashMap`; its iteration order is modelled as a given
  sequence.
- `InnerItemDefinition` is not part of this model; hidden items are modelled through their
  use by the data parser.
- `IntegerInputVerifier`'s beep and focus feedback are not modelled.
- The inner map of a record is a plain map; its (unordered) iteration is not modelled.
- `\b` in the hex-dump record pattern is taken as an ASCII word boundary.
- FileTypeConfigurations.Classify: `\b` after a keyword is the ASCII word boundary of
  JDK 19 and later (a word character is a letter, digit or `_` of ASCII); on JDK 8 to 18
  every character for which `Character.isLetterOrDigit` holds is a word character, so
  there `if漢` is a leaf declaration while the model reads it as an `if`.
- Strings are sequences of Unicode characters. Java counts and indexes them in UTF-16
  units, which differ only for characters outside the Basic Multilingual Plane.
- Readers.ReadCsvRecord: the record's length is the line's number of characters; Java's
  `line.length()` counts UTF-16 units, so a line with a character outside the Basic
  Multilingual Plane is longer in the source.
- JavaLang.ParseInt: only ASCII digits are accepted; `Integer.parseInt` also accepts every
  other Unicode decimal digit (`Character.digit`), e.g. the full-width `１２` is 12 there
  and a NumberFormatException here.
- Readers.RecordSize: a recordSize option written with non-ASCII decimal digits is
  rejected, because it is parsed by `JavaLang.ParseInt`.
- IntegerInputVerifiers.IntegerInputVerifier.Verify: a text of non-ASCII decimal digits is
  rejected, because it is parsed by `JavaLang.ParseInt`.
- DataParser.Walk: the running offset is an unbounded integer; `parserStatus.offset +=
  length` wrapping past `Integer.MAX_VALUE` is not modelled.
- DataParser.PlaceField: the same, for the running offset of the parser status.
- GuiConfigurations.GuiConfiguration.constructor: the recently used files are kept as the
  strings read; `Paths.get` (its normalisation of redundant separators, the `Path`
  equality that `addRecentlyUsedFile` removes by, and its `InvalidPathException` on a
  malformed path) is not modelled, so two spellings of one path are two entries here.
- FileTypeConfigurations.FileTypeConfiguration.LoadDataGroupDefinition: running into a
  cycle of inclusions is stated only for a file whose first declaration includes itself;
  a longer cycle, or a self-inclusion after other declarations, also runs out of fuel in
  the model, but no contract says so, because that needs the nested loads' outcomes to
  be independent of the fuel left.
- FileTypeConfigurations.FileTypeConfiguration.CompileFile: for a `group` declaration
  that fails, the error is stated for a missing file and for that self-inclusion only;
  `FileTypeConfigurations.PassEnded` says only that the pass ends there with an error.
- Overflow of `offset * recordSize` in the fixed-size reader (a Java `int`) is not
  modelled.
- Group inclusion and the reload of the windowed readers recurse without bound in the
  source; the model bounds them with a fuel parameter and reports running out as
  `Err(StackOverflow)` (`Windowing.LoadUnrolled` is proved to agree with
  `Windowing.PagedLoad` whenever it has enough fuel).
- A fixed-size load with recordSize 0 and maxRecords <= 0 never terminates in the source;
  the model returns `Err(NonTermination)` for it.
- Windowing.FixedLoad: its own contract states only the negative-record-size case; the
  other cases are stated by the lemmas about it (`Windowing.FixedWindowInside`,
  `Windowing.FixedLastPage`, `Windowing.FixedOffsetAtEnd`, `Windowing.FixedNegativeOffset`,
  `Windowing.TenBytesOfFours`).
- JavaLang.JavaDiv: truncating division is stated for a non-negative dividend only, the
  only case the readers use.
- Readers.SharedBuffer: its contract states only the buffer's length; what it holds is
  shown by `Readers.SharedBufferLosesFirstRecord`.
- Consuming.Consume: its contract states only that the consumer is handed no more records
  than were read; which records, and how the load ends, is stated by
  `Consuming.ConsumeAll`, `Consuming.ConsumeUntil` and `Consuming.ConsumeIsCollect`.
- ItemBehaviour.RawStringValue: its contract speaks of the diagnostics only; the text is
  stated by `ItemBehaviour.RawStringValueSlice`.
- ItemBehaviour.StringItemHex: its contract speaks of the diagnostics only; the hex is
  stated by `ItemBehaviour.OverrunHex` and the lemmas beside it.
- Exporter.AnyColumnContains: its contract states only that it follows from a matching
  column; its meaning is stated by `Exporter.FilterMatchesRow`.

## Findings

| source | as written | input that shows it | evidently intended | confidence | as-written member | corrected member |
|---|---|---|---|---|---|---|
| src/main/java/com/github/poodleone/anyfileviewer/itemdefinition/ItemGroupDefinition.java:36, src/main/java/com/github/poodleone/anyfileviewer/FileTypeConfiguration.java:228-250 | the group's children list is wrapped with `Collections.unmodifiableList`, and the compiler then adds branches and items to it, so every add throws `UnsupportedOperationException` | any group with one declaration, e.g. `item1=string,A,UTF-8,1` | the compiler appends children to the group it is building | not executed | ItemDefinitions.AppendChildAsWritten, ItemDefinitions.AppendChildAsWrittenAlwaysFails | ItemDefinitions.AppendChild, ItemDefinitions.AppendKeepsChain |
| src/main/java/com/github/poodleone/anyfileviewer/reader/FixedBytesReader.java:47, src/main/java/com/github/poodleone/anyfileviewer/reader/FixedBytesReader.java:61-69, src/main/java/com/github/poodleone/anyfileviewer/reader/FixedBytesReader.java:87 | one `buffer` array is read into for every record and every record keeps that same array as its raw data, so after the load all records show the bytes of the last record read | the bytes [1, 2] with recordSize 1, offset 0, no bound: both records show byte 2 | each record keeps a copy of its own chunk | not executed | Readers.SharedBuffer, Readers.SharedBufferLosesFirstRecord | Readers.ReadFixedRun, Readers.LoadFixed, Readers.FixedWindowRecords |
