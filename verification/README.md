# Verification model of the Qore grpc module's data exchange

The Qore `grpc` module exchanges columnar data with Arrow and Arrow Flight. This project models the parts of it that
move and reshape data, and proves what they keep. Verify it with
`dafny verify dfyconfig.toml` (Dafny 4.11).

What is modelled, file by file:

- **The Arrow/Qore converter** (`src/QoreArrowHelper.cpp`). `Scalars` holds the storing and reading of values without
  children, `ArrowArrays` and `ArrowReader` the recursive reader over finished arrays, `BuilderColumns` and
  `ArrowBuilders` the recursive writer over a tree of mutable builders. The builders and arrays follow the layouts of
  the Apache Arrow Columnar Format. `ColumnMeaning` says what a builder slot means and what the *normal form* of a
  value is; `ColumnGrowth`, `ColumnRoundTrip`, `ListSizes`, `NormalForms` and `ExactValues` prove that writing and
  reading is normalising, and exactly when. `DatesAndTimes` does the same for the types that depend on a clock.
  `PlainRuntime` shows that the assumptions of these results can be met together.
- **Type names and schemas** (same file). `TypeNames` is the printer and parser of type names with the integer text
  routines of `DecimalText`; `SchemaInfo` and `SchemaRoundTrip` are the recursive schema codec.
- **Columnar results** (same file). `ColumnarTypes`, `CanonicalTypes` and `InterchangeTypes` are the type descriptors
  and the two Arrow C Data support predicates; `DenseBuffers` and `SharedColumns` are the zero-copy paths, down to bits
  and bytes; `IpcBody` is the assembly of an IPC message body.
- **Record batches** (`src/QC_ArrowRecordBatch.qpp`): `RecordBatches`, building from columns and rows and back.
- **The ELF note check of the Debian packaging** (`debian/preserve-aot-metadata.py`): `ElfNotes` is the reader,
  `ElfLayout` and `ElfNoteEncoding` are the formats it undoes (System V gABI, chapter 4 "ELF Header" and "Sections",
  chapter 5 "Program Header" and "Note Section"), `PreserveMetadata` is the check around a command.
- **The dataset cache of the Flight data provider** (`qlib/ArrowFlightDataProvider/ArrowFlightDataProvider.qc`):
  `FlightCache` is the class used by one thread, `FlightCacheRuns` the double-checked locking under any number of
  threads, as a step system.

`Wrappers`, `Bytes`, `ArrowTypes` and `QoreValues` are shared vocabulary.

How to read it. The code that works step by step is modelled by methods and classes; each such method is proved equal
to a specification function (`AppendToBuilder` to `Append`, `ScalarToQore` to `Read`, and so on), and the properties
below are proved of those functions for every type tree and every value. What libqore, Arrow and the C library do is
either modelled (insertion-ordered hashes, `c_str()` cuts, `std::stoi`, `strtoull`, truncating division, two's
complement casts, builder and array layouts) or a member of the parameter `Runtime` (coercions of values of another
kind, rounding to singles and halves, time zones, calendar, decimal parsing and printing). `Runtime` members are
arbitrary functions unless a lemma names an assumption, as `ShowsUtc`, `SplitsDurations` and `RoundsOnce` do; each
assumption speaks only of the seconds, durations and digits that the stored types reach, and
`PlainRuntime.StableIsSatisfiable` meets all of them at once.

Findings, each proved:

- A map field prints one child (its `entries` struct) but is rebuilt only from two, so every map comes back as
  `map(utf8, utf8)`; the guide (`docs/guide-grpcarrow.dox.tmpl:73`) says a map has two children. The model follows the
  code. `SchemaRoundTrip.MapComesBackAsText` is one such field, and
  `SchemaRoundTrip.FieldRoundTrip` says exactly which fields come back unchanged.
- A nanosecond timestamp survives with its last three digits cut toward zero; no intermediate product overflows exactly
  for counts of at least -9223372036000000999 (`Scalars.TimestampReadThenWrite`). A count below that wraps twice and
  still gives the same number in two's complement.
- The length check of a fixed-size list casts to 32 bits; a list 2^32 elements too long passes it and unbalances the
  builders (`ListSizes.OversizedListPasses`). The builder tree stays well formed exactly when every list that passes
  the check has its declared size (`ListSizes.AppendBalancedExactly`), which is what the round trip asks for.
- A microsecond date column shared with a Qore buffer shows dates as numbers, and a list of those numbers stored in a
  date column becomes nulls, so the zero-copy paths and the element-by-element paths agree exactly where no date is
  involved (`SharedColumns.ImportRefinesConversion`, `ExportRefinesConversion`; `SharedDateIsANumber` is one date).
- Every type accepted for C Data import can be exported, but not the other way round (`uint8`); a decimal256 of more
  than 38 digits gets a descriptor that Arrow cannot construct (`CanonicalTypes.CanonConstructible`;
  `CanonicalTypes.WideDecimalIsNotConstructible` is one such type).
- A dataset whose info hash is empty is listed as a child but cannot be opened, and one named like an operation is
  hidden by it (`FlightCache.LookupFinds`, `FlightCache.EmptyInfoIsListedButNotFound`).
- The column constructor ignores keys that no field names (`RecordBatches.ExtraKeyIgnored`), although its documentation
  (`src/QC_ArrowRecordBatch.qpp:205`) promises an error when the names do not match; it refuses a hash for its names
  exactly when a field's name has no list (`RecordBatches.MissingColumnExactly`).
- A date64 column gives back a date that is stored again unchanged exactly when the milliseconds of its midnight fit
  into 64 bits (`NormalForms.Date64ReadBackExactly`); the code multiplies without a check.
- A map whose key type is not a string type can store a null for a key (`NormalForms.NullKeyExactly`).
- A float32 or float16 column gives back exactly the numbers that rounding keeps (`ExactValues.ExactlyFixed`).

## Model

| member | source | states |
|---|---|---|
| Scalars.NarrowIsCongruent | src/QoreArrowHelper.cpp:1102-1142 | an integer narrowed to a column's width is congruent modulo the width, in its range, and unchanged exactly on that range |
| Scalars.IntegerRoundTrip | src/QoreArrowHelper.cpp:722-743 | a Qore int stored and read back is itself exactly when it fits; a negative one in a uint64 column comes back as the number 2^64 above it |
| Scalars.StoredIntegerSurvives | src/QoreArrowHelper.cpp:1102-1142 | every stored integer, uint64 included, is stored as the same value after being read as int or number and appended again |
| DecimalText.StrtoullOfText | src/QoreArrowHelper.cpp:1131-1142 | reading a printed number gives the number, or the largest unsigned 64-bit number from 2^64 on |
| DecimalText.StoiOfText | src/QoreArrowHelper.cpp:2204-2205 | std::stoi undoes std::to_string on every 32-bit integer, whatever non-digit follows |
| Scalars.TimestampReadThenWrite | src/QoreArrowHelper.cpp:802-836 | a stored count comes back as itself, or for ns truncated toward zero to whole microseconds; no product overflows exactly from a given count on |
| Scalars.TimestampWriteThenRead | src/QoreArrowHelper.cpp:1246-1272 | a moment stored and read is floored to the unit and put in the column's zone, exactly when its count fits into 64 bits |
| Scalars.CountThenSplit | src/QoreArrowHelper.cpp:815-835 | dividing a stored count again gives back seconds and microseconds floored to the unit, negative counts included |
| Scalars.SafeCounts | src/QoreArrowHelper.cpp:1252-1267 | the product of whole seconds stays inside 64 bits exactly from the first safe count of the unit on |
| DatesAndTimes.Date32Survives | src/QoreArrowHelper.cpp:1208-1226 | with the current zone at UTC, every date32 comes back as the same day |
| DatesAndTimes.Date64FallsToDay | src/QoreArrowHelper.cpp:1227-1245 | with the current zone at UTC, every date64 falls to the start of its day (wrapped to 64 bits in the lowest, partial day), and is unchanged exactly when it is one |
| DatesAndTimes.TimeOfDaySurvives | src/QoreArrowHelper.cpp:1274-1313 | with the current zone at UTC, a time32 or time64 comes back within its day |
| DatesAndTimes.DurationSurvives | src/QoreArrowHelper.cpp:874-900 | a duration comes back as it was stored, ns cut toward zero to whole microseconds, without overflow |
| QoreValues.SetKeyPlaces | src/QoreArrowHelper.cpp:920-938 | setting a known key replaces its value in place, a new key goes to the end, nothing else moves |
| QoreValues.SetThenGet | src/QoreArrowHelper.cpp:920-938 | after setting a key, only the value under that key has changed |
| QoreValues.CStrWithoutNul | src/QoreArrowHelper.cpp:1855-1873 | text passed as a C string is the prefix before the first NUL, and is itself exactly without one |
| ArrowReader.ScalarToQore | src/QoreArrowHelper.cpp:712-1063 | every slot of every well-formed array gives the value its layout holds there (the same value that slicing, building and sharing are proved about), without reading a slot outside |
| ArrowReader.ScalarRange | src/QoreArrowHelper.cpp:939-996 | the loop over list elements gives the values of the window in order, or the first error |
| ArrowReader.ScalarFields | src/QoreArrowHelper.cpp:920-938 | the loop over struct fields sets one key per field, or stops at the first error |
| ArrowReader.ScalarEntries | src/QoreArrowHelper.cpp:997-1022 | the loop over map entries sets one key per entry, or stops at the first error |
| ArrowReader.ArrayToList | src/QoreArrowHelper.cpp:1065-1081 | the list holds the value of every slot in order, or the first error is raised |
| ArrowArrays.ReadSlice | src/QoreArrowHelper.cpp:920-1056 | slot i of a slice reads as slot start + i of the whole, through structs, lists, maps, dictionaries and both unions |
| ArrowArrays.ConversionCommutesWithSlicing | src/QoreArrowHelper.cpp:1065-1081 | converting a slice is taking that slice of the converted whole |
| ArrowBuilders.Builder.constructor | src/QoreArrowHelper.cpp:1570-1579 | a builder over disjoint child builders is a builder tree |
| ArrowBuilders.Builder.AppendBlank | src/QoreArrowHelper.cpp:1083-1096 | a null slot adds one empty slot to every struct child, N to a fixed-size list's child, none to a list's |
| ArrowBuilders.AppendToBuilder | src/QoreArrowHelper.cpp:1083-1568 | the mutable builder tree goes to the state about which ListSizes.AppendOutcome speaks, with the error it gives, also when a nested append fails half way |
| ArrowBuilders.AppendValues | src/QoreArrowHelper.cpp:1444-1454 | the loop over elements appends all or stops at the first error |
| ArrowBuilders.AppendStructFields | src/QoreArrowHelper.cpp:1400-1428 | the loop over fields appends one value to every child or stops at the first error |
| ArrowBuilders.AppendMapEntries | src/QoreArrowHelper.cpp:1519-1555 | the loop over entries appends key and item pairs or stops at the first error |
| ArrowBuilders.MakeBuilder | src/QoreArrowHelper.cpp:1573-1580 | a new tree has no slot anywhere and shares no builder |
| ArrowBuilders.FinishArray | src/QoreArrowHelper.cpp:1600-1606 | finishing closes the last list and hands over every buffer of the tree |
| ArrowBuilders.ListToArray | src/QoreArrowHelper.cpp:1570-1607 | either the array of all values, or the first error and no array |
| ListSizes.AppendOutcome | src/QoreArrowHelper.cpp:1083-1568 | every append to a well-formed tree fails exactly for values the type does not accept, and otherwise adds exactly one slot; exactly when all fixed-size lists in the value have their declared size it keeps the tree well formed, and then all earlier slots keep their meaning and the new one means the value's normal form |
| ListSizes.AppendAllOutcome | src/QoreArrowHelper.cpp:1429-1456 | the loop over elements fails exactly when some value is not accepted, and otherwise adds one slot per value; the tree stays well formed exactly when all sizes are true, and then each new slot means its value's normal form and earlier slots are kept |
| ColumnGrowth.BlankGrows | src/QoreArrowHelper.cpp:1090-1096 | a null or empty slot grows the whole tree consistently and keeps all earlier slots |
| ColumnRoundTrip.AppendFailsExactly | src/QoreArrowHelper.cpp:1400-1555 | an append fails exactly for the values the column type does not accept, at any depth |
| ColumnRoundTrip.FinishWellFormed | src/QoreArrowHelper.cpp:1600-1606 | a finished well-formed tree obeys the Arrow layout, with one slot per appended value |
| ColumnRoundTrip.FinishReads | src/QoreArrowHelper.cpp:712-1063 | reading slot i of the finished array gives what slot i of the builders means |
| ColumnRoundTrip.BuildThenRead | src/QoreArrowHelper.cpp:1570-1607 | for every type tree and list: building succeeds exactly when every value is accepted, and the array has one slot per value; unless a wrong size got through the length check it obeys the Arrow layout and reads back as the normal forms in order |
| ListSizes.AppendBalancedExactly | src/QoreArrowHelper.cpp:1485-1517 | a successful append keeps the whole tree well formed exactly when every list in the value that passes the 32-bit length check has its declared size, at any depth |
| ListSizes.ColumnBalancedExactly | src/QoreArrowHelper.cpp:1570-1607 | the builders of a column stay well formed exactly when all its values have true sizes |
| ListSizes.AppendKeeps | src/QoreArrowHelper.cpp:1083-1568 | a child that has grown too long is never brought back by later appends |
| ListSizes.OversizedListPasses | src/QoreArrowHelper.cpp:1493-1498 | a list 2^32 elements too long is accepted and leaves the child too long |
| NormalForms.StructProjection | src/QoreArrowHelper.cpp:1400-1428 | a struct value becomes one entry per field in schema order, missing keys NOTHING, extra keys dropped |
| NormalForms.MapKeepsKeyOrder | src/QoreArrowHelper.cpp:1519-1555 | a map value keeps its keys and their order, every item in normal form |
| NormalForms.NullKeyExactly | src/QoreArrowHelper.cpp:1541-1549 | a map column holds a null for a key it accepts exactly when its key type is a binary, date, time, timestamp, duration or null type |
| NormalForms.ReadBackIsFixed | src/QoreArrowHelper.cpp:1083-1607 | for every type tree with string map keys and distinct, NUL-free struct names: what a column gave back for a regular value (a date64 whose milliseconds fit into 64 bits, a decimal that keeps to 38 or 76 digits at the scale of the column) is accepted again and comes back unchanged, given that rounding, clock, duration and decimal code outside the converter keep their own results |
| NormalForms.Date64ReadBackExactly | src/QoreArrowHelper.cpp:1227-1245 | what a date64 column gave back for a date comes back unchanged exactly when the milliseconds of the date's midnight fit into 64 bits |
| PlainRuntime.StableIsSatisfiable | src/QoreArrowHelper.cpp:1083-1607 | some runtime meets what ReadBackIsFixed asks for a type exactly when its struct names are distinct and NUL-free and its map keys strings; no clock, float or decimal type is excluded |
| ExactValues.ExactlyFixed | src/QoreArrowHelper.cpp:1098-1397 | exactly the values of the column's own kind, in range, unchanged by rounding, dates at the start of a day, times on the first day and durations and timestamps without a part below the unit, decimals as printed, with struct keys in schema order and unique NUL-free map keys, are accepted and their own normal form (with true list sizes) |
| ExactValues.ExactColumn | src/QoreArrowHelper.cpp:1570-1607 | a list survives listToArray and arrayToList as it is exactly when all its values are such (and no wrong size got through) |
| TypeNames.ParseInvertsName | src/QoreArrowHelper.cpp:2037-2291 | parsing the printed name of any type gives the type without children (zone up to its first ']'), and fails exactly for dictionaries and unions |
| TypeNames.NameRoundTrip | src/QoreArrowHelper.cpp:2293-2410 | a type without children comes back from its name exactly when its time zone, if any, has no ']' |
| TypeNames.ParseZonedTimestamp | src/QoreArrowHelper.cpp:2099-2132 | with any text after "tz=", the zone ends at the first ']', and without one the name is malformed |
| TypeNames.BasicExactly | src/QoreArrowHelper.cpp:2040-2096 | the equality tests take exactly the names of types without parameters and children, each as its own type |
| TypeNames.UnknownBranch | src/QoreArrowHelper.cpp:2284-2291 | no test captures the name of a dictionary or union |
| SchemaInfo.MetadataToHash | src/QoreArrowHelper.cpp:1835-1853 | the pairs are set in order, a later text replacing an earlier one in place |
| SchemaInfo.HashToMetadata | src/QoreArrowHelper.cpp:1855-1873 | one pair per entry, in order, both parts cut at a NUL |
| SchemaInfo.FieldToHash | src/QoreArrowHelper.cpp:1784-1833 | a field becomes the hash that FieldRebuilds takes back: name, type name, nullability, optional metadata and children, a map with its one entries child |
| SchemaInfo.HashToField | src/QoreArrowHelper.cpp:1910-2012 | a hash becomes the field that FieldRebuilds speaks about, or raises the error of the first missing or malformed part |
| SchemaInfo.HashesToFields | src/QoreArrowHelper.cpp:1958-1972 | the loop over struct children gives every field or the first error |
| SchemaInfo.SchemaToHash | src/QoreArrowHelper.cpp:1875-1908 | a schema becomes the hash that SchemaRebuilds takes back |
| SchemaInfo.HashToSchema | src/QoreArrowHelper.cpp:2014-2035 | a list of field hashes and metadata becomes the schema that SchemaRebuilds speaks about, or the first field's error |
| SchemaRoundTrip.FieldRebuilds | src/QoreArrowHelper.cpp:1784-2012 | rebuilding a printed field succeeds exactly for types without dictionary, union or cut time zone, and gives the field with every map as map(utf8, utf8) and texts cut at NUL |
| SchemaRoundTrip.FieldRoundTrip | src/QoreArrowHelper.cpp:1910-2012 | a field comes back unchanged exactly when it is map-free (or map(utf8, utf8)), its metadata keys are unique and its texts are NUL-free |
| SchemaRoundTrip.MapComesBackAsText | src/QoreArrowHelper.cpp:1995-2007 | a field of type map(utf8, int64) comes back as map(utf8, utf8) |
| SchemaRoundTrip.RebuildingIsIdempotent | src/QoreArrowHelper.cpp:1995-2007 | a second print and rebuild changes nothing, exactly when no metadata keys became equal by being cut |
| SchemaRoundTrip.KeysWithoutNulStayDistinct | src/QoreArrowHelper.cpp:1835-1873 | metadata keys without NUL never become equal |
| SchemaRoundTrip.MetadataHashOfDistinct | src/QoreArrowHelper.cpp:1835-1853 | unique metadata keys give a hash with the same keys and texts in the same order |
| SchemaRoundTrip.SchemaRebuilds | src/QoreArrowHelper.cpp:2014-2035 | hashToSchema on the fields and metadata of schemaToHash rebuilds the schema, exactly when all its fields can be rebuilt |
| SchemaRoundTrip.SchemaRoundTrips | src/QoreArrowHelper.cpp:1875-2035 | a schema comes back unchanged exactly when its fields are faithful and its metadata is plain |
| ColumnarTypes.ArrowToDescriptor | src/QoreArrowHelper.cpp:311-450 | every type gets the descriptor that DescriptorRoundTrip converts back, with a child for every nested type, key and item, and dictionary |
| CanonicalTypes.DescriptorRoundTrip | src/QoreArrowHelper.cpp:457-599 | a type's descriptor converts back exactly when every fixed-size list it reaches has a positive size, and gives the canonical type |
| CanonicalTypes.CanonIsIdempotent | src/QoreArrowHelper.cpp:311-599 | a second trip through a descriptor changes nothing, at every depth |
| CanonicalTypes.CanonIsCanonical | src/QoreArrowHelper.cpp:488-599 | only signed integers, floats, utf8, binary, timestamps, durations, decimal128 and nested types with named plain children come out |
| CanonicalTypes.UnchangedExactly | src/QoreArrowHelper.cpp:311-599 | exactly the canonical types come back as they were |
| CanonicalTypes.WideDecimalIsNotConstructible | src/QoreArrowHelper.cpp:514-519 | decimal256(76, 20) comes back as decimal128(76, 20), which Arrow cannot construct |
| CanonicalTypes.CanonConstructible | src/QoreArrowHelper.cpp:514-519 | of the types Arrow can construct, exactly those with a decimal256 of more than 38 digits become one it cannot |
| InterchangeTypes.ExportExactly | src/QoreArrowHelper.cpp:189-237 | for every type and every buffer of its column, the exact condition for C Data export; without a buffer, exactly the exportable types |
| InterchangeTypes.ImportExactly | src/QoreArrowHelper.cpp:111-157 | the importable types are the exportable ones with microsecond temporals that a descriptor narrows only from large_utf8 to utf8 |
| InterchangeTypes.ImportImpliesExport | src/QoreArrowHelper.cpp:111-237 | an importable type's descriptor is exportable, except exactly when it names no element type and the column's buffer is of a kind never exported; it converts back with large strings narrowed and child fields plain |
| InterchangeTypes.ExportThenImport | src/QoreArrowHelper.cpp:189-237 | an exported column can be imported under its canonical type exactly when its temporals count microseconds |
| InterchangeTypes.ExportWithoutImport | src/QoreArrowHelper.cpp:111-128 | uint8 is accepted for export but not for import |
| DenseBuffers.ArrayToDenseBuffer | src/QoreArrowHelper.cpp:602-626 | a shared buffer has the same elements and nulls as the array at any offset, an exact null count, and reads no byte outside the array's buffers |
| DenseBuffers.DenseBufferToArray | src/QoreArrowHelper.cpp:660-695 | sharing happens exactly for the same element type without bit offset; the array then has the same elements and nulls, an exact null count and declared sizes that cover every slot |
| SharedColumns.DenoteReads | src/QoreArrowHelper.cpp:712-722 | the element-by-element reader decodes exactly the stored bytes and validity bit of a slot |
| SharedColumns.ImportRefinesConversion | src/QoreArrowHelper.cpp:1754-1777 | the shared buffer lists the same values as arrayToList, exactly when the column is not temporal or all null |
| SharedColumns.ExportRefinesConversion | src/QoreArrowHelper.cpp:1673-1688 | the shared array reads as the one built element by element, exactly when the column is not temporal or all null (four bytes standing for a single) |
| SharedColumns.SharedDateIsANumber | src/QoreArrowHelper.cpp:1754-1777 | a date one microsecond after the epoch is the number 1 as a shared buffer, and that number is stored as a null |
| IpcBody.AssembleBody | src/QoreArrowHelper.cpp:2428-2465 | the body has the size computed beforehand, every buffer lies at the sum of the earlier padded sizes, and everything else is zero |
| IpcBody.PaddedSizeIsLeast | src/QoreArrowHelper.cpp:2437-2437 | (n + 7) & ~7 is the least multiple of 8 not below n, and zero only for zero |
| IpcBody.StartsAreAligned | src/QoreArrowHelper.cpp:2430-2443 | every buffer starts at a multiple of 8, and takes no space exactly when it is absent or empty |
| IpcBody.BodyDeterminesBuffers | src/QoreArrowHelper.cpp:2445-2465 | with the sizes of the header, the body determines the content of every buffer |
| IpcBody.BuffersDetermineBody | src/QoreArrowHelper.cpp:2445-2465 | two bodies laid out for the same buffers are equal byte for byte |
| Bytes.AlignUpIsLeastMultiple | debian/preserve-aot-metadata.py:26-27 | aligning gives the least multiple of the power of two that is not below the value |
| Bytes.ClearLowBitsRoundsDown | debian/preserve-aot-metadata.py:26-27 | masking the low bits rounds down to the power of two |
| RecordBatches.BatchFromColumns | src/QC_ArrowRecordBatch.qpp:219-261 | the first field without a list, with another row count or with a value that cannot be stored decides the error; otherwise one array per field and the common row count |
| RecordBatches.BatchFromRows | src/QC_ArrowRecordBatch.qpp:281-319 | one array per field, holding the value of every row under that field, NOTHING for a missing key or a row that is no hash; or the first conversion error |
| RecordBatches.BatchToColumns | src/QC_ArrowRecordBatch.qpp:385-405 | the hash has one list per column name, or the first error is raised |
| RecordBatches.BatchToRows | src/QC_ArrowRecordBatch.qpp:426-473 | one hash per row with every column's value under its name, or the first error and no rows |
| RecordBatches.RowsRoundTrip | src/QC_ArrowRecordBatch.qpp:281-319 | building from rows succeeds exactly when every row is accepted as a struct of the schema, and all columns have num_rows slots; with true sizes toRows succeeds exactly when every row has a normal form, and gives those |
| RecordBatches.ColumnsRoundTrip | src/QC_ArrowRecordBatch.qpp:219-261 | building from columns succeeds exactly when every field has a list of the same length with accepted values, and all columns have num_rows slots; with true sizes toColumns succeeds exactly when every list has a normal form, and gives those |
| RecordBatches.ExtraKeyIgnored | src/QC_ArrowRecordBatch.qpp:226-237 | a key of the hash that names no field changes neither the batch nor the error |
| RecordBatches.MissingColumnExactly | src/QC_ArrowRecordBatch.qpp:230-237 | the missing-column error names a field exactly when it is the first without a list and all fields before it fit |
| RecordBatches.RowsAreTransposedColumns | src/QC_ArrowRecordBatch.qpp:426-473 | toRows is the transpose of toColumns, and both raise the same error |
| RecordBatches.RowsAsColumns | src/QC_ArrowRecordBatch.qpp:281-319 | building from rows is building from the transposed columns, with the same batch or the same error, exactly when there are fields or no rows |
| ElfNotes.WalkNotes | debian/preserve-aot-metadata.py:69-78 | the loop over one segment terminates, stays in bounds and collects the records that NotesFrom gives |
| ElfNotes.ReadSegments | debian/preserve-aot-metadata.py:55-78 | the loop over the program headers collects the records of all note segments, or raises the first error |
| ElfNotes.ReadModuleInfo | debian/preserve-aot-metadata.py:30-81 | on every byte string the reader terminates in bounds with a record, empty bytes or an error, as ModuleInfo says |
| ElfLayout.HeaderIsParsed | debian/preserve-aot-metadata.py:38-43 | an ELF header of either class, field after field, is read at the right offsets |
| ElfLayout.SegmentIsParsed | debian/preserve-aot-metadata.py:52-63 | a program header of either class is read at the right offsets |
| ElfLayout.ExtendedCountIsParsed | debian/preserve-aot-metadata.py:46-51 | past PN_XNUM the number of program headers is sh_info of the first section header |
| ElfNoteEncoding.ReadNote | debian/preserve-aot-metadata.py:70-77 | a note written at an aligned position ends where it was written to, and is a record exactly with the owner and type of one |
| ElfNoteEncoding.WalkInvertsEncoding | debian/tests/test_aot_metadata.py:28-31 | for every sequence of notes of any owner, with 4- or 8-byte alignment and an optionally unpadded last note, the walk gives exactly the descriptions of the metadata notes in order |
| ElfNoteEncoding.ModuleInfoOfFile | debian/preserve-aot-metadata.py:30-81 | a file whose note segments hold encoded notes gives its one record, empty bytes without one, an error with several |
| PreserveMetadata.Preserve | debian/preserve-aot-metadata.py:84-113 | a malformed module beforehand means the command never runs; otherwise it runs and every saved module is checked, the errors being the command's and one per failing module |
| PreserveMetadata.ReturnsExactlyWhenKept | debian/preserve-aot-metadata.py:98-113 | a normal return means exactly that the command succeeded and every module with a record is a regular file with the identical record |
| PreserveMetadata.RejectedExactly | debian/preserve-aot-metadata.py:86-92 | the check is refused beforehand exactly when some regular file is malformed |
| PreserveMetadata.SavedAreRecords | debian/preserve-aot-metadata.py:86-92 | saved are exactly the modules with a record, each with its record |
| FlightCache.LastFlightWins | qlib/ArrowFlightDataProvider/ArrowFlightDataProvider.qc:237-250 | the entry of a name is the last flight with that derived name |
| FlightCache.KeysAreFirstNames | qlib/ArrowFlightDataProvider/ArrowFlightDataProvider.qc:237-250 | the cache lists exactly the names of the flights, in order of their first flight, once each |
| FlightCache.LookupFinds | qlib/ArrowFlightDataProvider/ArrowFlightDataProvider.qc:203-220 | a name leads to its operation, or else to the last flight of that name unless its info is empty |
| FlightCache.EmptyInfoIsListedButNotFound | qlib/ArrowFlightDataProvider/ArrowFlightDataProvider.qc:194-220 | a flight with an empty info is listed under its number and cannot be opened |
| FlightCache.DataProvider.constructor | qlib/ArrowFlightDataProvider/ArrowFlightDataProvider.qc:114-118 | a new provider has an empty cache that is not loaded |
| FlightCache.DataProvider.EnsureFlightInfoCache | qlib/ArrowFlightDataProvider/ArrowFlightDataProvider.qc:228-252 | a loaded cache is left alone without asking the server; otherwise the server is asked once, and the cache is complete and loaded, or unchanged after an error |
| FlightCache.DataProvider.GetChildProviderNames | qlib/ArrowFlightDataProvider/ArrowFlightDataProvider.qc:194-197 | the dataset names of the cache followed by the operations, or the error of the load |
| FlightCache.DataProvider.GetChildProvider | qlib/ArrowFlightDataProvider/ArrowFlightDataProvider.qc:203-220 | an operation is found without asking the server or touching the cache; any other name goes through the cache |
| FlightCacheRuns.StepKeepsInv | qlib/ArrowFlightDataProvider/ArrowFlightDataProvider.qc:228-252 | every step of every thread keeps the locking and cache invariant, and never changes a loaded cache |
| FlightCacheRuns.AtMostOneList | qlib/ArrowFlightDataProvider/ArrowFlightDataProvider.qc:228-252 | in every run at most one listFlights succeeds, and a loaded cache is exactly what it makes |
| FlightCacheRuns.PublishedIsFinal | qlib/ArrowFlightDataProvider/ArrowFlightDataProvider.qc:250-251 | once loaded, the cache never changes |
| FlightCacheRuns.ReturnsAgree | qlib/ArrowFlightDataProvider/ArrowFlightDataProvider.qc:228-236 | every normal return sees the complete cache, and any two returns see the same one |
| FlightCacheRuns.ThrowingLoadLeavesNothing | qlib/ArrowFlightDataProvider/ArrowFlightDataProvider.qc:232-237 | a load that throws leaves the lock free and the cache empty and not loaded |
| FlightCacheRuns.SomeThreadCanStep | qlib/ArrowFlightDataProvider/ArrowFlightDataProvider.qc:229-235 | while a thread is inside the call, some thread inside it can step: no throwing load and no waiting thread blocks the rest |

## Left out

- ColumnRoundTrip.BuildThenRead: says nothing about what is read when a list of a wrong size got through the 32-bit length check, or when a fixed-size list type has a negative size; ListSizes proves that after a wrong size the builders have lost their shape. Arrow refuses a map array with a null key when the builder is finished, which is not modelled; NormalForms.NullKeyExactly says for which key types a map column gets one.
- NormalForms.ReadBackIsFixed: names what rounding, clock, duration and decimal code must keep (`Stable`), because that code belongs to libqore, Arrow and the C++ compiler; a current zone other than UTC is not covered for dates and times of day. Struct field names must be distinct and free of NULs, as a hash lookup by C string asks. A date64 beyond 64-bit milliseconds and a decimal of more than 38 or 76 digits after rescaling are not regular: the first does change (Date64ReadBackExactly), the second depends on Arrow's parser. For scales at which Arrow prints an exponent or leading zeros, `ParsesPrinted` is an assumption about Arrow like the others.
- Scalars.TimestampReadThenWrite: where an intermediate product overflows, the code relies on signed overflow, which is modelled as a 64-bit wrap.
- Scalars.TimestampWriteThenRead: where the product of the seconds overflows while the count fits (possible only in the last unfinished second above the smallest count), the code relies on signed overflow, which is modelled as a 64-bit wrap.
- ExactValues.ExactlyFixed: asks for struct field names a hash can tell apart, string map keys and no negative byte width; for dates and times of day that the current zone shows UTC, for durations that libqore splits them as it made them (`Portable`). A decimal is exact by what Arrow parses and prints.
- DatesAndTimes.Date64FallsToDay: in the lowest day, which starts below 64-bit milliseconds, the code relies on signed overflow, which is modelled as a 64-bit wrap.
- FlightCache.NameOf: takes the head of a path as text. The client decodes paths as strings (qlib/GrpcUtil/FlightProto.qc:114); any other element would make the assignment throw after listFlights has succeeded.
- FlightCacheRuns.AtMostOneList: listing and naming are one step, because naming does not throw for the flights that the client decodes.
- SharedColumns.ExportRefinesConversion: asks that four bytes of a float column stand for a number that rounding to a single keeps.
- DenseBuffers.DenseBufferToArray: takes the raw data bit offset of a libqore buffer to be its first element's offset in bits, and the validity bit offset to be that of its bitmap; that code is not part of this model.
- DatesAndTimes.Date32Survives: asks that the current zone shows UTC, because day boundaries come from the calendar of libqore.
- FlightCacheRuns.SomeThreadCanStep: says that no run is stuck, not that the scheduler is fair.
- Floating point: a float cell holds a real; rounding to a single or half is an arbitrary function of `Runtime`, and NaN and infinities are not modelled.
- Text encodings: a string is its characters; the code appends the raw bytes of a Qore string in whatever encoding it has.
- Dictionary and union builders only ever hold nulls in the model, because the writer refuses every other value of such a type.
- Reading a union through ArrowArrays uses the position of a type code among the codes; a code that is not among them is excluded by the layout.
- Capacity and memory errors of Arrow builders, and the 2^31 limit of 32-bit list offsets.
- Cancellation checks, reference counts, buffer ownership and lifetime: a shared buffer is modelled by its bytes.
- The checks of Arrow's type constructors, except the decimal precision of CanonicalTypes.CanonConstructible.
- The build-time macros: the model is the configuration with columnar results, C Data interchange, temporal buffers and external buffer storage.
- The Arrow C Data export and import, the IPC flatbuffer metadata and ipcToRecordBatch: Arrow does the work and the repository only forwards it.
- The loops that ask the support predicates for every column of a batch or result, and the names and row counts that columnarResultToRecordBatch checks.
- gRPC framing, streams, timeouts, reflection and the Salesforce subscription.
- The file system of the packaging check beyond what a path is (missing, symbolic link, directory, file); listing and sorting the modules is a parameter.
- The text of error messages; an error is modelled by its kind and the name it mentions.
