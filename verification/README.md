# Devoldefy symbol remapping, modelled in Dafny

Devoldefy ports Minecraft mod sources from one set of names to another. It
reads the MCP SRG mappings (a Forge TSRG file plus the MCP `fields.csv` and
`methods.csv` rename tables) and the Fabric Yarn mappings (a Tiny v1 file).
It inverts the first set and chains it with the second, which gives a table
from SRG names to Yarn names. That table is then handed to a source
rewriter.

This project models that core, as written in
`src/main/java/devoldefy/Devoldefy.java`:

- **Tables** (`linked_maps.dfy`). A `Map<String, String>` backed by a
  `LinkedHashMap` is a sequence of entries in first-insertion order.
  - `put` replaces the value in place when the key is present, and appends
    otherwise.
  - `MapOf` is the dictionary the table denotes.
  - `PutAll` folds `put` over a sequence of entries, as `forEach(put)` and
    `putAll` do.
- **String helpers** (`java_strings.dfy`).
  - `String.split` with a one-character separator: trailing empty pieces
    are dropped.
  - The position of a character's first occurrence (`IndexOf`): where
    `getDescriptor`'s `started` flag turns on, at the first '('.
  - String concatenation of a possibly-null String (`NullText`): the string
    itself, or the text `"null"`.
  - `Map.getOrDefault` on a dictionary (`GetOrDefault`).
- **Descriptors** (`descriptors.dfy`, `descriptor_types.dfy`).
  - `getDescriptor` and `remapMethodDescriptor` are loop methods over the
    characters, each proved equal to a reference function (`DescriptorOf`,
    `Remap`).
  - `Remap` is related to the method descriptors of section 4.3.3 of the
    Java Virtual Machine Specification: it renames the class of every
    object type. Its quirks as written are also proved:
    - an 'L' inside a class name restarts the name;
    - an unterminated class name is dropped;
    - a stray ';' re-emits the last name looked up;
    - a ';' before the first '(' writes the lookup of the empty name in
      front of itself.
- **Readers** (`tsrg_reader.dfy`, `csv_reader.dfy`, `tiny_reader.dfy`,
  `reader_common.dfy`).
  - `readTsrg`, `readCsv` and `readTiny` are loop methods over the input's
    lines. Each is proved equal to a fold of one loop pass over the lines,
    which stops at the first exception.
  - Java's exceptions are values of `ReadError`:
    - `NoSuchElementException` when `nextLine` finds no line;
    - `NullPointerException` when a namespace column is missing;
    - `ArrayIndexOutOfBoundsException` when a line has too few pieces.
  - Lemmas state, for each reader:
    - when it fails;
    - what each kind of line puts (for `readCsv`: the first column to the
      second, the last line for an id winning);
    - which lines are skipped (the header, for `readCsv`);
    - that its tables are LinkedHashMaps;
    - what a small complete file reads as.
  - `readTiny` writes the owner's class as mapped so far into the value of
    a field or method line, or `"null"` when the class has not been read
    (`OwnerText`).
- **The `Mappings` record** (`mappings.dfy`).
  - `chain`, `invert` and the composition `srg.invert().chain(yarn)` are
    functions on three tables.
  - `chain` keeps the receiver's keys in order and sends each value through
    the other mapping. Its dictionary is `ChainMap`.
  - `invert` swaps keys and values, and the last writer of a value wins.
    Since a re-put key keeps its place (`PutInPlace`), which writer is last
    depends on where each key was first put (`ReputDecidesInvert`).
  - `invert` is an involution on injective mappings.
  - Chaining with an empty mapping is the identity.
  - `chain` is not associative in general. Grouping the other way gives the
    same dictionary exactly when every value the middle mapping lacks is
    lacked by the third mapping or sent to itself by it (`ChainAssociates`).

## Model

| member | source | states |
|---|---|---|
| `JavaStrings.IndexOf` | src/main/java/devoldefy/Devoldefy.java:273-275 | a found index holds the character (with `IndexOfFirst`: it is the first occurrence, and None means the character is absent) |
| `JavaStrings.IndexOfFirst` | src/main/java/devoldefy/Devoldefy.java:273-275 | None exactly when the character does not occur; otherwise no earlier occurrence |
| `JavaStrings.IndexOfAt` | src/main/java/devoldefy/Devoldefy.java:273-275 | an occurrence with none before it is the index found |
| `JavaStrings.Pieces` | src/main/java/devoldefy/Devoldefy.java:147 | at least one piece, and no piece holds the separator |
| `JavaStrings.DropTrailingEmpty` | src/main/java/devoldefy/Devoldefy.java:147 | a prefix of the pieces, not ending in "", and only "" pieces dropped |
| `JavaStrings.Split` | src/main/java/devoldefy/Devoldefy.java:147 | no piece holds the separator; a string without the separator splits into itself |
| `JavaStrings.PiecesJoin` | src/main/java/devoldefy/Devoldefy.java:147 | splitting joined separator-free pieces, empty ones included, gives them back; the join holds a separator iff there are two or more |
| `JavaStrings.SplitJoin` | src/main/java/devoldefy/Devoldefy.java:156 | `split` inverts `join` when the last piece is nonempty |
| `JavaStrings.SplitPair` | src/main/java/devoldefy/Devoldefy.java:147 | `a sep b` splits into exactly [a, b] |
| `JavaStrings.SplitTriple` | src/main/java/devoldefy/Devoldefy.java:156 | `a sep b sep c` splits into exactly [a, b, c] |
| `JavaStrings.CompositeKeySplits` | src/main/java/devoldefy/Devoldefy.java:243-246 | an `owner:member` key splits on ':' back into owner and member |
| `LinkedMaps.MapOfKeys` | src/main/java/devoldefy/Devoldefy.java:137-139 | the dictionary's keys are exactly the entries' keys |
| `LinkedMaps.Get` | src/main/java/devoldefy/Devoldefy.java:213 | Some exactly when an entry has the key, and then the dictionary's value (null otherwise) |
| `LinkedMaps.KeyIndex` | src/main/java/devoldefy/Devoldefy.java:148 | finds the position of a present key, None iff no entry has the key |
| `LinkedMaps.Put` | src/main/java/devoldefy/Devoldefy.java:148 | same length (in-place replacement) or one entry appended (with `PutDenotes`: the dictionary is updated at the key) |
| `LinkedMaps.PutInPlace` | src/main/java/devoldefy/Devoldefy.java:148 | on a LinkedHashMap, re-putting a present key keeps every entry in place and replaces only that key's value; a new key is appended at the end |
| `LinkedMaps.PutDenotes` | src/main/java/devoldefy/Devoldefy.java:148 | put keeps keys distinct and denotes the dictionary updated at the key |
| `LinkedMaps.MapOfReplace` | src/main/java/devoldefy/Devoldefy.java:148 | replacing a value in place changes only that key in the dictionary |
| `LinkedMaps.PutAllDenotes` | src/main/java/devoldefy/Devoldefy.java:166-167 | putting a sequence keeps keys distinct and denotes the dictionary of the concatenation, so the last write wins |
| `LinkedMaps.MapOfSnoc` | src/main/java/devoldefy/Devoldefy.java:181 | the last entry overrides its key's value |
| `LinkedMaps.PutAllSnoc` | src/main/java/devoldefy/Devoldefy.java:179-182 | one more entry is one more put |
| `LinkedMaps.SameKeysDistinct` | src/main/java/devoldefy/Devoldefy.java:336 | entries with a LinkedHashMap's keys in its order have distinct keys |
| `LinkedMaps.PutAllFresh` | src/main/java/devoldefy/Devoldefy.java:166-167 | putting entries with new keys appends them in order, so `putAll` into a fresh map copies it entry for entry |
| `LinkedMaps.DistinctKeysPrefix` | src/main/java/devoldefy/Devoldefy.java:137 | a prefix of a LinkedHashMap is one, and the last key is not repeated before it |
| `LinkedMaps.LastWins` | src/main/java/devoldefy/Devoldefy.java:181 | an entry no later entry re-keys is what the dictionary holds for its key |
| `Descriptors.DescriptorOfIsSuffix` | src/main/java/devoldefy/Devoldefy.java:260-286 | the descriptor is a suffix starting at the first '(' with no '(' before it, or "" when there is no '(' |
| `Descriptors.DescriptorOfIdempotent` | src/main/java/devoldefy/Devoldefy.java:260-286 | extracting the descriptor of a descriptor changes nothing |
| `Descriptors.GetDescriptor` | src/main/java/devoldefy/Devoldefy.java:260-286 | the loop returns exactly the suffix from the first '(' |
| `Descriptors.AfterLastL` | src/main/java/devoldefy/Devoldefy.java:316-319 | the class name looked up holds no 'L', and is the whole buffer when that has none |
| `Descriptors.AfterLastLClears` | src/main/java/devoldefy/Devoldefy.java:316-319 | an 'L' restarts the class name buffer |
| `Descriptors.ScanPrefixResumes` | src/main/java/devoldefy/Devoldefy.java:295-320 | after any prefix, what the loop has emitted plus what remains to emit is the reference rewrite |
| `Descriptors.RemapMethodDescriptor` | src/main/java/devoldefy/Devoldefy.java:288-326 | the loop returns exactly `Remap(member, classMappings)` |
| `DescriptorTypes.RenameParameters` | src/main/java/devoldefy/Devoldefy.java:288-326 | renaming keeps the parameter count |
| `DescriptorTypes.RemapObjectType` | src/main/java/devoldefy/Devoldefy.java:301-319 | `L name ;` after '(' comes out as `L` + the mapped name + `;` |
| `DescriptorTypes.ObjectToken` | src/main/java/devoldefy/Devoldefy.java:301-319 | a class token looks up what follows its last 'L' |
| `DescriptorTypes.RemapField` | src/main/java/devoldefy/Devoldefy.java:288-326 | a field type is rewritten to its renamed text |
| `DescriptorTypes.RemapParameters` | src/main/java/devoldefy/Devoldefy.java:288-326 | a parameter list is rewritten to its renamed text |
| `DescriptorTypes.RemapReturn` | src/main/java/devoldefy/Devoldefy.java:288-326 | a return descriptor is rewritten to its renamed text |
| `DescriptorTypes.RemapBody` | src/main/java/devoldefy/Devoldefy.java:288-326 | the text after '(' of a descriptor is rewritten to the renamed descriptor's |
| `DescriptorTypes.RemapCopiesName` | src/main/java/devoldefy/Devoldefy.java:306-314 | before the first '(' a name without ';' is copied unchanged |
| `DescriptorTypes.RemapRenamesClasses` | src/main/java/devoldefy/Devoldefy.java:288-326 | name + descriptor becomes name + the descriptor with every class renamed through the table, for JVM descriptors whose class names hold no 'L' |
| `DescriptorTypes.RenameKeepsBaseTypes` | src/main/java/devoldefy/Devoldefy.java:288-326 | renaming leaves parameters without object types unchanged |
| `DescriptorTypes.BaseTypesUnchanged` | src/main/java/devoldefy/Devoldefy.java:288-326 | "(IJF)V" is returned unchanged for every class table |
| `DescriptorTypes.ClassNameCutAtLastL` | src/main/java/devoldefy/Devoldefy.java:316-319 | a class name containing 'L' is looked up by its part after the last 'L' |
| `DescriptorTypes.ClassNameLosesPrefix` | src/main/java/devoldefy/Devoldefy.java:316-319 | `(La L n;)V` comes out as `(L` + mapped n + `;)V`: the prefix up to the last 'L' is lost |
| `DescriptorTypes.UnterminatedClassDropped` | src/main/java/devoldefy/Devoldefy.java:306-308 | a class name with no closing ';' is dropped, only its 'L' remains |
| `DescriptorTypes.StraySemicolonRepeatsName` | src/main/java/devoldefy/Devoldefy.java:301-304 | a second ';' re-emits the mapped name of the previous class |
| `DescriptorTypes.RemapSemicolonBeforeParen` | src/main/java/devoldefy/Devoldefy.java:301-310 | a ';' before the first '(' is copied after the lookup of the empty class name, and the rest is scanned as before |
| `MappingAlgebra.ChainEntries` | src/main/java/devoldefy/Devoldefy.java:336-338 | one put per receiver entry |
| `MappingAlgebra.ChainTable` | src/main/java/devoldefy/Devoldefy.java:336 | the chained table is a LinkedHashMap |
| `MappingAlgebra.Chain` | src/main/java/devoldefy/Devoldefy.java:333-341 | all three chained tables are LinkedHashMaps |
| `MappingAlgebra.SwapEntries` | src/main/java/devoldefy/Devoldefy.java:346-348 | one put per entry |
| `MappingAlgebra.InvertTable` | src/main/java/devoldefy/Devoldefy.java:346 | the inverted table is a LinkedHashMap |
| `MappingAlgebra.Invert` | src/main/java/devoldefy/Devoldefy.java:343-351 | all three inverted tables are LinkedHashMaps |
| `MappingAlgebra.Compose` | src/main/java/devoldefy/Devoldefy.java:59 | the composed mapping's tables are LinkedHashMaps |
| `MappingAlgebra.ChainKeepsKeys` | src/main/java/devoldefy/Devoldefy.java:333-341 | chain keeps the receiver's keys in order; each value becomes its image in the other mapping, or stays when absent |
| `MappingAlgebra.ChainTableIsEntries` | src/main/java/devoldefy/Devoldefy.java:336 | on a LinkedHashMap the chained table is its entries rewritten in place |
| `MappingAlgebra.ChainDenotes` | src/main/java/devoldefy/Devoldefy.java:336 | the chained dictionary is `ChainMap` of the dictionaries, whatever the tables |
| `MappingAlgebra.ChainEntriesDenote` | src/main/java/devoldefy/Devoldefy.java:336 | the dictionary of the chained entries is `ChainMap` of the dictionaries |
| `MappingAlgebra.ChainEmptyIdentity` | src/main/java/devoldefy/Devoldefy.java:333-341 | chaining with an empty mapping gives the mapping back |
| `MappingAlgebra.ChainNotAssociative` | src/main/java/devoldefy/Devoldefy.java:333-341 | for {k→v}, {} and {v→w} with v ≠ w the two groupings of `chain` give different dictionaries |
| `MappingAlgebra.ChainAssociative` | src/main/java/devoldefy/Devoldefy.java:333-341 | the two groupings of `chain` give the same dictionary if and only if `ChainAssociates` holds of the dictionaries |
| `MappingAlgebra.ChainMapAssociative` | src/main/java/devoldefy/Devoldefy.java:336 | under `ChainAssociates` the two groupings of `ChainMap` agree |
| `MappingAlgebra.ChainMapNotAssociative` | src/main/java/devoldefy/Devoldefy.java:336 | without `ChainAssociates` the two groupings of `ChainMap` differ |
| `MappingAlgebra.ChainTableEmpty` | src/main/java/devoldefy/Devoldefy.java:336 | chaining a table with an empty table gives it back |
| `MappingAlgebra.InvertKeys` | src/main/java/devoldefy/Devoldefy.java:346 | the inverted keys are exactly the original values |
| `MappingAlgebra.InvertLastWins` | src/main/java/devoldefy/Devoldefy.java:346 | a value no later entry repeats is inverted to its own key |
| `MappingAlgebra.ReputDecidesInvert` | src/main/java/devoldefy/Devoldefy.java:346 | after puts a→x, b→y, a→y the table is [a→y, b→y] (a keeps its place) and its inversion maps y to b |
| `MappingAlgebra.InvertSwaps` | src/main/java/devoldefy/Devoldefy.java:346 | with distinct values, inversion swaps each entry in place |
| `MappingAlgebra.InvertTwice` | src/main/java/devoldefy/Devoldefy.java:343-351 | inverting an injective table twice returns it, order included |
| `MappingAlgebra.InvertInvolutive` | src/main/java/devoldefy/Devoldefy.java:343-351 | `invert().invert()` is the identity on injective mappings |
| `MappingAlgebra.ComposeTable` | src/main/java/devoldefy/Devoldefy.java:59 | composed keys are the SRG names; an SRG name goes to the Yarn name of its obfuscated name, or to the obfuscated name when Yarn lacks it |
| `MappingAlgebra.ComposeExample` | src/main/java/devoldefy/Devoldefy.java:59 | a class known to both maps to its Yarn name, one unknown to Yarn maps to the obfuscated name |
| `ReaderCommon.RemapEntries` | src/main/java/devoldefy/Devoldefy.java:168 | one rewritten put per method entry |
| `ReaderCommon.RemapValues` | src/main/java/devoldefy/Devoldefy.java:168 | the rewritten method table is a LinkedHashMap |
| `ReaderCommon.RemapMethodValues` | src/main/java/devoldefy/Devoldefy.java:168 | the `forEach` loop builds exactly `RemapValues` of the class dictionary |
| `ReaderCommon.RemapValuesInPlace` | src/main/java/devoldefy/Devoldefy.java:168 | each key stays in place and its value is rewritten by `remapMethodDescriptor` |
| `ReaderCommon.RemapValuesRenamesClasses` | src/main/java/devoldefy/Devoldefy.java:227 | a method value `name` + descriptor gets every class of its descriptor renamed |
| `CsvReader.ReadCsv` | src/main/java/devoldefy/Devoldefy.java:174-187 | the loop returns exactly `ReadCsvSpec(lines)` |
| `CsvReader.WellFormedRowsAll` | src/main/java/devoldefy/Devoldefy.java:180-181 | the prefix predicate holds iff no line has fewer than two pieces |
| `CsvReader.CsvHeaderIgnored` | src/main/java/devoldefy/Devoldefy.java:178 | the header line plays no part in the result |
| `CsvReader.CsvFailures` | src/main/java/devoldefy/Devoldefy.java:178-181 | NoSuchElement iff there is no line; ArrayIndexOutOfBounds iff some later line has fewer than two pieces |
| `CsvReader.CsvEntriesPerLine` | src/main/java/devoldefy/Devoldefy.java:180-181 | with all lines well formed, one put per line, its first column to its second |
| `CsvReader.CsvEntriesOfLines` | src/main/java/devoldefy/Devoldefy.java:179-182 | one put per line after the header, and the table denotes their dictionary |
| `CsvReader.CsvEntryAt` | src/main/java/devoldefy/Devoldefy.java:180-181 | the entry put for line i is that line's two columns |
| `CsvReader.CsvTableDenotes` | src/main/java/devoldefy/Devoldefy.java:175-182 | the table read denotes the dictionary of its puts |
| `CsvReader.CsvLastWins` | src/main/java/devoldefy/Devoldefy.java:181 | a first column that no later line repeats maps to its line's second column |
| `CsvReader.CsvKeys` | src/main/java/devoldefy/Devoldefy.java:179-182 | the table's keys are exactly the first columns of the lines after the header |
| `CsvReader.CsvDistinct` | src/main/java/devoldefy/Devoldefy.java:175-186 | a table read without an exception repeats no key |
| `CsvReader.CsvRepeatedId` | src/main/java/devoldefy/Devoldefy.java:175-186 | a header and the lines `a,b` and `a,c` read as the one entry a→c |
| `CsvReader.CsvKeyHasLine` | src/main/java/devoldefy/Devoldefy.java:181 | every key comes from some line |
| `CsvReader.CsvLineHasKey` | src/main/java/devoldefy/Devoldefy.java:181 | every line's first column is a key |
| `TsrgReader.ReadTsrg` | src/main/java/devoldefy/Devoldefy.java:136-172 | the loop and the final copies return exactly `ReadTsrgSpec` |
| `TsrgReader.ScanLines` | src/main/java/devoldefy/Devoldefy.java:141-163 | the line loop returns exactly `TsrgScan` |
| `TsrgReader.TsrgFailureSticks` | src/main/java/devoldefy/Devoldefy.java:143-148 | once a line has thrown, later lines change nothing |
| `TsrgReader.TsrgFailures` | src/main/java/devoldefy/Devoldefy.java:146-148 | a file is well formed iff no class line has fewer than two tokens |
| `TsrgReader.TsrgScanTables` | src/main/java/devoldefy/Devoldefy.java:143-163 | the loop succeeds iff well formed, throws only ArrayIndexOutOfBounds, and each table holds the puts of its kind of line in order |
| `TsrgReader.TsrgStateDistinct` | src/main/java/devoldefy/Devoldefy.java:137-139 | the three tables the loop builds are LinkedHashMaps |
| `TsrgReader.TsrgSkipsOtherCounts` | src/main/java/devoldefy/Devoldefy.java:158-162 | a member line with neither two nor three tokens changes nothing |
| `TsrgReader.TsrgClassLinePuts` | src/main/java/devoldefy/Devoldefy.java:146-151 | a class line `a b` maps a to b, makes (a, b) current, and leaves the member tables alone |
| `TsrgReader.TsrgFieldLinePuts` | src/main/java/devoldefy/Devoldefy.java:158-159 | a field line `f g` maps `A:f` to `B:` + the MCP name of g (g when absent), A and B the current class |
| `TsrgReader.TsrgMethodLinePuts` | src/main/java/devoldefy/Devoldefy.java:160-161 | a method line `m d n` maps `A:m d` to `B:` + the MCP name of n + d |
| `TsrgReader.TsrgOneClass` | src/main/java/devoldefy/Devoldefy.java:136-172 | a one-class file with one field and one method reads as those three mappings |
| `TsrgReader.TsrgOneClassRenamed` | src/main/java/devoldefy/Devoldefy.java:165-168 | in that file the method's descriptor has the class renamed through the class table |
| `TsrgReader.TsrgFieldBeforeClass` | src/main/java/devoldefy/Devoldefy.java:141-159 | a member line before any class line is keyed and valued under "null" |
| `TinyReader.ColumnsOfKeys` | src/main/java/devoldefy/Devoldefy.java:193-195 | the namespaces are exactly the header's pieces after the first |
| `TinyReader.ColumnsOfIndex` | src/main/java/devoldefy/Devoldefy.java:193-195 | a namespace no later piece repeats gets its index less one |
| `TinyReader.HeaderColumns` | src/main/java/devoldefy/Devoldefy.java:190-195 | the header loop builds exactly `ColumnsOf(header)` |
| `TinyReader.ReadTiny` | src/main/java/devoldefy/Devoldefy.java:189-231 | the reader returns exactly `ReadTinySpec` |
| `TinyReader.ScanRows` | src/main/java/devoldefy/Devoldefy.java:204-222 | the row loop returns exactly `TinyScan` |
| `TinyReader.TinyFailureSticks` | src/main/java/devoldefy/Devoldefy.java:204-222 | once a row has thrown, later rows change nothing |
| `TinyReader.TinyStepFails` | src/main/java/devoldefy/Devoldefy.java:205-220 | a row throws iff one of its reads runs past its end, and then ArrayIndexOutOfBounds |
| `TinyReader.TinyScanFails` | src/main/java/devoldefy/Devoldefy.java:204-222 | the loop throws iff some row is malformed, and then ArrayIndexOutOfBounds |
| `TinyReader.TinyFailures` | src/main/java/devoldefy/Devoldefy.java:189-231 | NoSuchElement iff no line; NullPointer iff a namespace is missing from the header; ArrayIndexOutOfBounds iff some row is malformed |
| `TinyReader.TinyStateDistinct` | src/main/java/devoldefy/Devoldefy.java:200-202 | the three tables the loop builds are LinkedHashMaps |
| `TinyReader.GetOwnerText` | src/main/java/devoldefy/Devoldefy.java:213 | `classes.get(owner)` concatenated gives the owner's mapped class, or "null" when the table lacks it |
| `TinyReader.TinyClassRowPuts` | src/main/java/devoldefy/Devoldefy.java:207-210 | a CLASS row maps its `from` name to its `to` name |
| `TinyReader.TinyFieldRowPuts` | src/main/java/devoldefy/Devoldefy.java:212-215 | a FIELD row maps `owner:from-name` to the owner's class so far + `:` + the `to` name |
| `TinyReader.TinyMethodRowPuts` | src/main/java/devoldefy/Devoldefy.java:217-220 | a METHOD row maps `owner:from-name descriptor` to the owner's class so far + `:` + `to` name + descriptor |
| `TinyReader.TinyOtherTagSkipped` | src/main/java/devoldefy/Devoldefy.java:206-221 | a row with any other tag changes nothing |
| `TinyReader.TinyHeader` | src/main/java/devoldefy/Devoldefy.java:193-198 | a header naming `from` then `to` gives them columns 0 and 1 |
| `TinyReader.TinyOneClass` | src/main/java/devoldefy/Devoldefy.java:189-231 | a one-class file with one field and one method reads as those three mappings |

## Left out

- `main`, `ask`, `download`, `extract` and `hash` are left out. They are console, network, ZIP and file I/O.
- `remap` is left out. It hands the tables to an external source rewriter. Only its `owner:member` key split is modelled, in `CompositeKeySplits`.
- The `Scanner` and the `Reader` are left out. Each reader takes the input as a sequence of lines, already split as `nextLine` would split them. Closing the Scanner has no effect on the result.
- The MCP rename tables passed to `readTsrg` are taken as dictionaries, because the reader only calls `getOrDefault` on them. The same holds for the class table passed to `remapMethodDescriptor`.
- `String.split` is modelled for one-character literal separators only, the only kind used in the core. General regular expressions are not modelled.
- `mappings.classes.putAll(classes)` into a fresh map yields the same table, as `PutAllFresh` states. The readers therefore return the loop's tables directly.
- The loops of `readTsrg` and `readTiny` are methods of their own (`ScanLines`, `ScanRows`), called where the source runs them inline.
- `IOException`, which a `StringReader` never throws, is not modelled.
- `HashMap` `columns` in `readTiny` is a Dafny map. Its iteration order plays no part.
- Integer unboxing of `columns.get` beyond the null case is not modelled, because the column indices are small naturals.
