# nanoarrow2parquet: a verified model

The repository writes Apache Arrow record batches to Parquet files in one streaming pass. This project
models how it does that and proves what the files mean:

* **Flattening.** An Arrow schema tree becomes Parquet's pre-order schema list and one leaf column per
  leaf (`Schema.dfy`, `WidthFormat.dfy`). A reader that has only the list rebuilds the tree and finds
  exactly the leaf columns (`Footer.dfy`), and the Arrow schema itself, as far as Parquet can tell its types
  apart (`SchemaReadback.dfy`).
* **Shredding.** A leaf under a list or map is walked into repetition and definition levels and a
  presence map (`Shredding.dfy`). `Records.dfy` has the levels' meaning and record assembly, its inverse;
  `Projection.dfy` proves that shredding loses nothing, `Validation.dfy` what the walk accepts,
  `Order.dfy` and `HiddenOffsets.dfy` when values come out in position order, `Nested.dfy` and
  `NestedLeaves.dfy` that all leaves are projections of one record and determine it.
* **The fast path** for leaves outside lists (`FastPath.dfy`), against the walk and against the rows' meaning;
  `Slices.dfy` says what sliced groups do to it, `BatchOffset.dfy` what a sliced batch does to either way.
  `RequiredNulls.dfy` says which nulls in fields that are not nullable are refused. `Siblings.dfy` and `SiblingColumns.dfy` prove that the
  columns of one batch agree on the nodes they share, whichever of the two ways each was written.
* **Page bodies**: plain values, dictionaries, encodings, level prefixes, pages and column chunks, each
  with its reader (`RleBitpack.dfy`, `PlainValues.dfy`, `Dictionary.dfy`, `Values.dfy`, `Pages.dfy`, `Chunks.dfy`).
* **The writer** as a state machine and as a class (`Writer.dfy`), its runs (`Runs.dfy`), and the round
  trip: a reader of the closed file alone gets the schema's fields and the rows of exactly the accepted
  batches (`Readback.dfy`, `FileReadback.dfy`, `RecordReadback.dfy`). `Calls.dfy` says in the caller's terms
  which schema locks a writer, which batches are accepted and under which settings. `RecordTypes.dfy`: the records of accepted batches have the
  schema's type, so files that read the same were written from the same records. `CodecChange.dfy`: when
  all pages of a file read back under the codec that its footer names.
* **The structure-of-arrays front end** (`Soa.dfy`, `SoaNodes.dfy`, `SoaChunks.dfy`), through to the file
  it writes (`SoaFile.dfy`).
* **The pcapng example's window and packet slicing** (`Window.dfy`, `Slicing.dfy`).

Code that works in place is a class or a method with loops (`Shredder`, `Flattener`, `RowLevels`, the
builders, `Writer`, `Window`, `Converter`), each proved equal to a function of its inputs and old state;
the properties are lemmas about those functions. `Bits.dfy` has bytes and bitmaps, `Arrow.dfy` Arrow
arrays as the writer reads them.

The encoders of the nanom library, zstd and the Thrift codec are parameters (`Codecs.Foreign`). The
round-trip results assume of them that each decoder undoes its encoder (`Codecs.Faithful`); no other
result does, except that `CodecChange.FooterCodecIff` asks it of pages alone and also that compression
changes what it is given. `UnaryCodecs.dfy` has encoders that meet all of this, `UnaryRuns.dfy` shows that any
run can be closed with such encoders, `Witnesses.dfy` has runs that happen, `MapWitness.dfy` a map whose keys and values differ, and `Misread.dfy` batches that
are accepted and written as something else than they mean.

What a caller owes the writer (`Arrow.Backed`, `Chunks.LeafUsable`): every buffer is as long as its array's
offset and length say. Nothing is assumed of what validity bitmaps and list offsets contain. String offsets
must be in order and inside the data only for entries that are written. Outside lists one thing more is
needed that the code does not check, that the bitmaps of nullable groups cover the batch; arrays whose
lengths agree as the Arrow format asks have it (`Slices.AcceptedLeafIsUnsliced`).

## Where the code does less than its documentation says

* A comment in the writer (src/writer.cpp:304-308) says that values come out in increasing position
  order because list offsets only grow. Offsets under a null are not checked, so this can fail:
  `HiddenOffsets.ValidationSufficesIff` gives the exact paths on which validation is enough, and a column that
  breaks the order on every other path. On arrays that keep Arrow's rule for offsets the order holds
  (`Order.OrderedIncreases`).
* The repository's README.md:77 and README.md:94 say that sliced arrays are refused. Outside lists only
  the leaf array's offset and length are checked (src/writer.cpp:1164-1170), and a sliced group can be
  accepted and written wrongly (`Misread.SlicedGroupAccepted`). `Slices.SlicesHarmlessIff` gives the exact
  paths on which that does no harm, `Slices.SlicesMisplaceValues` the exact rows. It takes arrays whose
  lengths do not agree: if columns and children are as long as the Arrow format asks, what is accepted is
  not sliced anywhere (`Slices.AcceptedLeafIsUnsliced`).
* The same promise includes lists and maps and every other column, but the offset of the batch itself is
  never read (src/writer.cpp:1145-1151, 1064-1074): a sliced batch of lists is accepted and written from the first
  entry of its columns on (`Misread.SlicedBatchAccepted`). `BatchOffset.OffsetHarmlessIff`: under a list the
  rows are right for all data exactly if the offset is 0. With a leaf outside lists, arrays whose lengths
  agree from the batch down make a sliced batch refused (`BatchOffset.SlicedBatchIsRefused`). The batch's
  own bitmap is not read either (`Misread.NullRowAccepted`). The round trip asks for an offset of 0 and no
  such null (`Readback.WholeBatch`).
* The repository's README.md:89-92 says that REQUIRED columns reject actual nulls. What is refused is an array
  that admits to nulls: under a list an entry that is reached, if the null count is positive
  (src/writer.cpp:346; `RequiredNulls.NullRefusedIff`), and outside lists the leaf alone, for its count alone
  (src/writer.cpp:836; `RequiredNulls.FlatRefusedIff`). A count of -1, which means that it is not known, and a
  group outside lists let nulls through, which are written as values (`Misread.UnknownNullAccepted`,
  `Misread.GroupNullAccepted`). `RequiredNulls.RejectsNullsIff`: under a list the promise holds exactly on
  paths that have no such field.
* nanoarrow2parquet.h:85 asks for the same column types in every batch; only the number of columns is compared,
  and other types are read as the locked ones (`Misread.OtherTypeAccepted`). `RecordTypes.RowsAreItsOwn` says
  that the rows are the batch's own if its schema has the same leaves.
* The row loop for leaves outside lists reads a nullable group's bitmap for every row of the batch and never
  asks how long the group is (src/writer.cpp:1191-1200). A group shorter than the batch makes it read past the bitmap
  (`Misread.ShortGroupOverreads`); `FastPath.BitmapReadIff` is the exact bound.
* The same loop reads bitmaps without asking for the null count, which `Shredder::valid` does;
  `FastPath.FastPathRefinesWalk` is the exact condition.
* The footer records for every chunk the codec that is set at the close (src/writer.cpp:905). Setting
  another codec after a batch makes its pages unreadable (`Witnesses.CodecChangeHappens`);
  `CodecChange.FooterCodecIff` says over all runs that the pages read back exactly if no batch was written
  under another codec, and `Pages.WrongCodecPage` which single pages survive a change.
* Equal row counts are "checked at runtime" (include/nanoarrow2parquet/soa.hpp:400), but only after the string
  and boolean buffers, made for the first leaf's row count, have been filled from whatever was passed
  (soa.hpp:501, 514, 525, 535). `SoaNodes.FillsInsideIff` is the exact condition on which that stays inside
  the buffers, `SoaChunks.WriteChunk` refuses a ragged chunk exactly then, and
  `SoaChunks.LongTextOverruns` is one that is not.
* A batch that fails after some of its leaves leaves their bytes in the file, and the schema stays locked
  (src/writer.cpp:1145-1224). `Runs.LayoutOverRuns` counts those bytes: the chunks tile the file exactly
  if there are none.
* include/nanoarrow2parquet/nanoarrow2parquet.h:26 calls lists and maps out of scope; the code writes them,
  and so does the model.
* `present` counts the nulls of the mask it is given; `Soa.PresentCounts` says when that agrees with its bitmap.
* `drop + take` is a 64-bit sum; `Slicing.SlicedIff` says when the slice is right.

## Model

| member | source | states |
|---|---|---|
| Records.AssembleShred | src/writer.cpp:335-390 | assembling the level stream of any nested value, whatever follows it, gives back that value and leaves the rest; null, empty list and list of null stay different |
| Records.AssembleShredRows | src/writer.cpp:335-390 | assembling a column's levels and values gives back all its rows |
| Records.ShredRowsLevels | src/writer.cpp:335-390 | no level exceeds its maximum, an entry is a value exactly at the maximum definition level, and as many entries as rows have repetition level 0 |
| Records.ShredLevels | src/writer.cpp:381-387 | one value's entries start at the given repetition level and go on with deeper ones |
| Shredding.Shredder.Step | src/writer.cpp:335-390 | the imperative walk, with its early refusals, appends and marks exactly what the specification walk emits |
| Shredding.Shredder.Rows | src/writer.cpp:1068-1074 | the row loop shreds rows up to the first that is refused |
| Shredding.MarkSets | src/writer.cpp:350-354 | marking positions in the presence map sets exactly those bits, in whatever order they come |
| Shredding.PositionsInLeaf | src/writer.cpp:335-390 | every marked position lies inside the leaf array that the path leads to |
| Validation.WalkAccepts | src/writer.cpp:335-390 | a walk is accepted if and only if every node that it reaches is sound: offset 0, index in range, no null where not nullable if the array's null count is positive, offsets ordered and within the child; entries it does not reach do not matter |
| Validation.ElementsFoundIff | src/writer.cpp:358-379 | a list or map entry is taken if and only if its offsets are in order and inside every array that they point into, and a map's entries are an unsliced struct of two |
| Validation.RowsAccepted | src/writer.cpp:1068-1074 | the row loop accepts a column if and only if that holds of everything reached from any row |
| RequiredNulls.ListAcceptedIff | src/writer.cpp:1041-1074 | a list leaf is accepted if and only if its array exists, is unsliced, has the buffers of its type and admits to no null that it may not have, and the row loop accepts its column |
| RequiredNulls.FlatAcceptedIff | src/writer.cpp:826-847 | a leaf outside lists is accepted if and only if its path exists and its array has the batch's length and passes the same checks |
| RequiredNulls.NullRefusedIff | src/writer.cpp:335-390 | a row with nothing else wrong is refused if and only if the walk reaches a cleared bit in a field that is not nullable, in an array whose null count is positive |
| RequiredNulls.FlatRefusedIff | src/writer.cpp:825-850 | outside lists a leaf with nothing else wrong is refused if and only if it is not nullable and its own null count is positive, whatever its bitmap and the groups around it say |
| RequiredNulls.RejectsNullsIff | src/writer.cpp:335-390 | no accepted column has a null in a field that is not nullable, of those its rows reach, if and only if the path has no such field |
| Misread.UnknownNullAccepted | src/writer.cpp:346 | a list of required elements whose null has a null count of -1: accepted and written as a value |
| Misread.GroupNullAccepted | src/writer.cpp:1158-1200 | a required group with a null count of 1 and its null: accepted and written as a value |
| HiddenOffsets.ValidationSufficesIff | src/writer.cpp:304-308 | validation alone puts the values of every accepted column in increasing positions if and only if no null on the path can hide a list's offsets, or the leaf has the null type |
| HiddenOffsets.HiddenRows | src/writer.cpp:339-343 | on any other path an accepted column whose values come out at positions 1, 0 |
| Order.OrderedIncreases | src/writer.cpp:304-308 | with offsets that never step back, every accepted column has its values in increasing positions |
| Order.PresenceSelectsPositions | src/writer.cpp:1075-1079 | reading the leaf through the presence map gives the values in emission order; the count is the map's popcount, and no map is passed only when every position is a value |
| Bits.BitIs | src/writer.cpp:428-432 | bit i of a bitmap is the parity of byte i / 8 shifted right by i % 8 |
| Projection.RangeIsFormat | src/writer.cpp:358-379 | the elements taken for a list entry are its child's from one offset up to the next; for a map's path, those of the entries' first field on the key's side and of the second on the value's |
| Projection.WalkIsShred | src/writer.cpp:335-390 | an accepted walk emits the canonical level stream of the value that the Arrow format gives the entry |
| Projection.Lossless | src/writer.cpp:1068-1086 | record assembly of the emitted levels and values returns exactly each row's nested value on the path |
| Siblings.SiblingsAgree | src/writer.cpp:351-387 | two leaves that share a schema prefix have, cut down to it, the same repetition levels and the same clipped definition levels, map keys and values included |
| SiblingColumns.FieldsShare | src/writer.cpp:195-206 | leaf columns below any two fields of a struct share the steps down to the struct |
| SiblingColumns.SidesShare | src/writer.cpp:249-258 | leaf columns below a map's keys and below its values share the steps down to the map |
| SiblingColumns.ColumnsAgree | src/writer.cpp:1145-1217 | two leaf columns of an accepted batch that share steps agree on the node there, also where one is shredded and the other takes the fast path |
| Nested.ProjectionOfRecord | src/writer.cpp:335-390 | where the walk accepts an entry, its value on the path is the projection of the whole nested record, read by the Arrow format's rules for lists and for a map's keys and values |
| MapWitness.SideIsRegular | src/writer.cpp:358-387 | the map {1: 7}: both leaf columns are accepted, and read as 1 on the key's side and 7 on the value's |
| MapWitness.MapRecord | src/writer.cpp:358-387 | by the Arrow format that row is the pair of key 1 and value 7 |
| Nested.OracleCounts | tests/oracle_roundtrip.py:319-344 | the level stream has as many entries as `leaf_levels` counts and the same values in order |
| Nested.ShredderRefinesOracle | tests/oracle_roundtrip.py:319-344 | so has what the shredder emits for each row |
| Nested.ProjectionsDetermine | src/writer.cpp:177-291 | two records of one type that agree along every path are equal |
| NestedLeaves.FlattenPaths | src/writer.cpp:177-291 | every leaf column that flattening makes is a path of the schema tree, with 64-bit list offsets exactly at "+L" |
| NestedLeaves.PathsHaveLeaves | src/writer.cpp:177-291 | every path of the schema tree has its leaf column |
| NestedLeaves.LeavesDetermine | src/writer.cpp:177-291 | two records of a column's type that agree on all of its leaf columns are equal |
| FastPath.RowLevels.Fill | src/writer.cpp:1185-1213 | the row loop computes the level of each row (nothing at maximum level 1), the presence map and the count |
| FastPath.RowLevelBound | src/writer.cpp:1191-1207 | a row's level is at most the number of nullable nodes, and equal to it exactly if nothing on the way is null |
| FastPath.FastPathRefinesWalk | src/writer.cpp:1191-1207 | on a row that the walk accepts the fast path emits the walk's single entry if and only if no nullable node that is reached denies its nulls |
| FastPath.FastOutIsShred | src/writer.cpp:1181-1213 | over a batch of unsliced arrays with honest null counts, the fast path is the canonical level stream of the rows, all repetition levels 0 |
| FastPath.BitmapIsLevels | src/writer.cpp:1186-1210 | at maximum level 1 the presence bitmap is the levels |
| FastPath.BitmapReadIff | src/writer.cpp:1191-1200 | reading a bitmap that is as long as its own array needs, for every row of the batch, stays inside it if and only if the batch does not reach past the array's last whole byte |
| FastPath.LongEnoughIsReadable | src/writer.cpp:1191-1200 | if no nullable array with a bitmap ends before the batch, every bitmap that the loop reads covers it |
| Slices.SlicesMisplaceValues | src/writer.cpp:1164-1170 | a row's value is taken from the right position if and only if no array on the path is sliced |
| Slices.SlicesHarmlessIff | src/writer.cpp:1164-1200 | over all arrays that are accepted, sliced or not, every row has the right level and value if and only if the leaf has no group around it, or has the null type with no nullable group around it |
| Slices.AcceptedLeafIsUnsliced | src/writer.cpp:1164-1170 | if the lengths agree from the batch down as the Arrow format asks, an accepted leaf has no sliced array on its path, the batch is not sliced, and all bitmaps cover it |
| BatchOffset.SlicedBatchIsRefused | src/writer.cpp:1145-1217 | a batch whose own offset is not 0 does not succeed, if the lengths agree along the path of some leaf outside lists |
| BatchOffset.OffsetHarmlessIff | src/writer.cpp:1064-1074 | under a list, over all columns that are accepted, the rows written are those of a batch with the given offset if and only if it is 0 |
| Misread.SlicedBatchAccepted | src/writer.cpp:1064-1074 | a sliced batch of lists is accepted: its row is an empty list, and another row is written |
| Misread.NullRowAccepted | src/writer.cpp:1064-1074 | a row that the batch's own bitmap makes null is accepted and written as another row's value |
| Misread.SlicedGroupAccepted | src/writer.cpp:1164-1200 | a batch whose sliced group is accepted: row 0 is null by the Arrow format and is written as a value |
| Misread.ShortGroupOverreads | src/writer.cpp:1191-1200 | a batch whose buffers are all as long as their arrays say, and whose accepted leaf makes the loop read past a group's bitmap |
| Schema.Flattener.FlattenNode | src/writer.cpp:177-291 | the recursive appending to nodes and leaves adds exactly what the specification flattens a node to, or refuses |
| Schema.FixedSizeBinaryMaps | src/writer.cpp:106-112 | the format composed for a width N maps back to a column of source width and type length N; only N = 0 is refused |
| WidthFormat.FixedSizeBinaryFormat | include/nanoarrow2parquet/soa.hpp:126-143 | counting and filling in the digits gives "w:", the decimal digits and a terminator |
| WidthFormat.AtoiDecimal | src/writer.cpp:107 | parsing the decimal digits of a number gives the number |
| Footer.FooterDescribesLeaves | src/writer.cpp:852-886 | rebuilding the tree from the pre-order list by child counts uses it up exactly and yields the leaf columns in write order: names, nesting, types, and maximum levels by counting OPTIONAL and REPEATED elements |
| Footer.FlattenLeavesOk | src/writer.cpp:270-289 | each leaf column's path is well formed, its maximum levels and bit widths are those of its path |
| SchemaReadback.FormatReadsBack | src/writer.cpp:53-123 | every supported format is declared with a Parquet type, length and converted type from which a reader gets the format back, but for the width of string offsets, and for the null type, which is declared as INT32 |
| SchemaReadback.SchemaReadsBack | src/writer.cpp:852-886 | the tree rebuilt from the footer reads back as the Arrow schema: a LIST group around "list" exactly where there is a list, a MAP group around "key_value" with a key and a value exactly where there is a map, a plain group exactly where there is a struct, with names, nullability and leaf formats; a reader that refuses any other form accepts it |
| SchemaReadback.FlattensIff | src/writer.cpp:177-291 | a field is flattened if and only if its leaves have supported formats, its lists one child, and its maps a struct of two |
| RleBitpack.DictionaryBitWidth | src/rle_bitpack.hpp:22-28 | the loop finds the bit width |
| RleBitpack.BitWidthIsMinimal | src/rle_bitpack.hpp:21-28 | that many bits hold every index below n, and no fewer do |
| RleBitpack.LengthPrefixSplits | src/rle_bitpack.hpp:47-58 | the length stands in front as four bytes, least significant first, and the run splits off whatever follows it |
| PlainValues.BuildPlainFixed | src/writer.cpp:437-470 | with or without a presence map, copied or widened, the body is the PLAIN bytes of the present entries in order; for columns of 1- or 2-byte integers it is the INT32 words of the integers whose two's complement the entries are |
| PlainValues.MemcpyIsFixedBody | src/writer.cpp:455-463 | the memcpy path gives the same bytes as emitting every element |
| PlainValues.SmallIntegers | src/writer.cpp:442-454 | widened 1- and 2-byte integers are within what INT32 holds either way |
| PlainValues.IntegersAreWords | src/writer.cpp:442-454 | for the formats "c", "C", "s" and "S", if the present entries hold the low bytes of integers in the type's range, least significant first, the body is these integers as four bytes each, sign extended |
| PlainValues.WordReads | src/writer.cpp:423-426 | four such bytes are read as the signed 32-bit integer again |
| PlainValues.EntryInteger | src/writer.cpp:442-454 | the value that the model gives such an entry is that integer |
| PlainValues.ReadFixedBody | src/writer.cpp:437-470 | a reader that knows the width and the count gets the values back |
| PlainValues.BuildPlainBool | src/writer.cpp:472-490 | the body is the bitmap itself, or the present bits repacked |
| PlainValues.PackBitsAt | src/writer.cpp:481-488 | repacked bit j is the j-th present value, and the padding is zero |
| PlainValues.ReadPlainBool | src/writer.cpp:472-490 | a reader gets the present booleans back, from either body |
| PlainValues.BoolStats | src/writer.cpp:630-643 | the loop that stops early finds whether there are values, and the least and greatest of them |
| PlainValues.ReadStringsBody | src/writer.cpp:542-551 | length-prefixed strings read back |
| Dictionary.BuildDictionary | src/writer.cpp:566-571 | the index loop gives the distinct values by first occurrence and each value's index |
| Dictionary.IndicesDecode | src/writer.cpp:566-571 | every index is in the dictionary and looks up its value |
| Dictionary.IndicesFit | src/writer.cpp:578-579 | every index fits the dictionary's bit width |
| Dictionary.ExtremesOfDistinct | src/writer.cpp:552-572 | in any order the least and greatest values of the dictionary are those of all the values |
| Dictionary.AutoPagesSmallest | src/writer.cpp:574-595 | the layout kept is the smaller of dictionary and PLAIN, and takes the bytes that were reckoned |
| Dictionary.BuildAutoPages | src/writer.cpp:566-595 | the builder makes that layout |
| Values.BuildValues | src/writer.cpp:957-1012 | a chunk's values in the encoding that the mode and the type select |
| Values.ModeSelects | src/writer.cpp:511-596 | for every format and mode the encoding: DELTA for integers and strings, BYTE_STREAM_SPLIT for floats, else PLAIN, but for strings in the other modes than PLAIN and DELTA a dictionary exactly if it takes no more bytes than PLAIN; only the front coding of strings can fail |
| Values.MapFormatSpecOk | src/writer.cpp:53-123 | how a column is extracted agrees with what its Parquet type tells a reader |
| Values.ValuesReadBack | src/writer.cpp:511-596 | in every mode a reader that knows the column, the encoding and the value count gets exactly the present values |
| Pages.ListPrefixReadsBack | src/writer.cpp:1075-1077 | a reader that knows the maximum levels and the value count splits off both level runs and gets the levels |
| Pages.FlatPrefixReadsBack | src/writer.cpp:1209-1210 | the same outside lists, for no levels, the bitmap's run, and a run of levels |
| Pages.PageReadsBack | src/writer.cpp:734-776 | a page at an offset of the file gives back its header and body |
| Pages.WrongCodecPage | src/writer.cpp:905 | read under the other codec, whichever it was written under, a page gives its body back if and only if compressing, or decompressing what was not compressed, leaves it as it is |
| CodecChange.FooterCodecIff | src/writer.cpp:905 | after any calls and a close that succeeds, with a compression that changes every body: all pages of all row groups read back under the footer's codec if and only if every batch was written under it |
| Witnesses.CodecChangeHappens | src/writer.cpp:1258-1268 | a run with faithful encoders: a batch under ZSTD, then UNCOMPRESSED, then a close that succeeds, and pages that do not read back |
| Pages.ChunkReadsBack | src/writer.cpp:954-1025 | a column chunk gives back its levels and values, through its dictionary if it has one |
| Pages.ChunkCounted | src/writer.cpp:954-1025 | a chunk's record says where its dictionary and data pages start, what they take on disk and uncompressed, and which encodings they use, as a reader finds from the pages' own headers |
| Chunks.LeafRecord | src/writer.cpp:1081-1090 | a chunk's record has its leaf's type and path, its exact extent, nulls among its values, and outside lists one value per row |
| Writing.Writer.WriteLeafPages | src/writer.cpp:954-1025 | the pages are appended at the offset, and the record that is put together from the offsets passed and the sizes of the pages written is the chunk's; a page that fails leaves the one before it |
| Writing.Writer.WriteListLeaf | src/writer.cpp:1028-1091 | a list leaf is refused without a byte, or its chunk is appended and recorded |
| Writing.Writer.WriteFlatLeaf | src/writer.cpp:1151-1217 | the same for a leaf outside lists, if the bitmaps of nullable groups cover the batch |
| Writing.Writer.CheckSchema | src/writer.cpp:1098-1138 | the first batch that passes locks the schema; later ones are compared by column count; a refusal changes nothing |
| Writing.Writer.WriteBatch | src/writer.cpp:1093-1231 | the whole new state and status: row group and rows on success, stray bytes and a locked schema on a failure half-way |
| Writing.Writer.SetCodec | src/writer.cpp:1258-1268 | a known codec is set, an unknown one refused |
| Writing.Writer.SetEncoding | src/writer.cpp:1270-1284 | a known encoding mode is set, an unknown one refused |
| Writing.Writer.Close | src/writer.cpp:1298-1331 | footer, length and magic are appended once, or nothing if the footer cannot be encoded |
| Runs.AdvanceSteps | src/writer.cpp:1093-1231 | the books that a run keeps beside the writer leave the writer's own steps as they are |
| Runs.RunKeeps | src/writer.cpp:1093-1231 | after any calls the invariant holds: every row group is a batch written under the settings of its time, whose bytes are in the file |
| Calls.CommitsAreAccepted | src/writer.cpp:1093-1231 | after any calls the row groups are the batches whose calls returned OK, in order, each written under the codec and the mode last set before it |
| Calls.SettingsAreLast | src/writer.cpp:1258-1284 | after any calls the codec and the mode are those last set, ZSTD and AUTO if none was |
| Calls.FirstSchemaLocks | src/writer.cpp:1098-1138 | after any calls the writer is locked by the schema of the first call that brought a struct with supported columns, at least one leaf and as many arrays |
| Calls.LockVerdict | src/writer.cpp:1098-1138 | before the lock a schema is taken if and only if all its types are supported and it has a leaf, afterwards if it has as many columns; an unsupported type has its own status |
| Calls.LeavesVerdict | src/writer.cpp:1145-1217 | if no encoder fails, a batch's leaves are all written if and only if all are accepted, and else the status is INVALID_ARGUMENT; a failing encoder is an IO_ERROR |
| Calls.ClosedStays | src/writer.cpp:1286-1331 | after a close no call changes the file, a batch is an IO_ERROR that changes nothing, and closing again does nothing |
| Runs.LayoutOverRuns | tests/oracle_roundtrip.py:429-455 | after any calls the offset is the bytes written, chunks are ordered and disjoint after the magic, every byte is accounted for, the chunks tile exactly if no failed batch left bytes, each row group has a chunk per leaf in order and its sizes and rows add up |
| Runs.NoFailureNoStray | src/writer.cpp:1093-1231 | without a failed batch there are no stray bytes |
| Runs.CleanFileTiles | tests/oracle_roundtrip.py:429-455 | in such a run the chunks tile the file from byte 4 to the footer |
| Runs.CommitChunkRange | src/writer.cpp:954-1025 | each recorded chunk's range of the file is exactly its leaf's pages |
| Runs.FailureAddsNothing | src/writer.cpp:1093-1231 | a failed call adds no row group and no rows, nothing written is changed, and a locked schema stays |
| Runs.CloseLocatesFooter | src/writer.cpp:1298-1331 | a close succeeds if and only if the footer can be encoded in 32 bits; then the last 8 bytes lead to exactly the footer, right after the data, and otherwise the file has no trailer |
| Readback.LeafReadsBack | src/writer.cpp:1028-1217 | whatever mode and codec, a leaf's chunk gives its rows back, and its record counts its levels, values and nulls |
| FileReadback.FileReadsBack | src/writer.cpp:876-949 | after any calls and a close that succeeds, a reader of the file alone gets the schema's fields and the rows of exactly the accepted batches, in order, for batches that are whole and otherwise what the code takes for granted; the reader refuses a file whose footer miscounts rows, values, nulls, page offsets, page sizes or encodings, or has another form of list or map |
| Calls.CallsReadBack | src/writer.cpp:1093-1331 | the same in the caller's terms: what is read are the fields of the first schema that could be written and the rows of the batches whose calls returned OK |
| RecordTypes.RecordsHaveType | src/writer.cpp:339-387 | every record of a batch that is accepted and read rightly, reading a field that is not nullable as never null, has its column's type: in range, a value for every field, list offsets and map sides that belong together, as many keys as values |
| RecordTypes.RowsAreItsOwn | include/nanoarrow2parquet/nanoarrow2parquet.h:85 | a later batch whose own schema flattens to the locked leaves gives back the rows of its own records |
| RecordTypes.TablesDetermine | src/writer.cpp:1093-1231 | two such batches whose leaf columns read the same have the same records |
| RecordTypes.FilesDetermine | src/writer.cpp:876-949 | files of one schema that read the same were written from the same records, batch by batch, whatever the modes and codecs |
| UnaryRuns.RunCloses | src/writer.cpp:1298-1331 | any run can be closed with faithful encoders, which leave it as it is up to the close |
| Witnesses.ListFileHappens | src/writer.cpp:1028-1091 | a list column with an empty list, written, closed and read back, field and rows, with faithful encoders |
| FileReadback.EmptyFile | tests/oracle_roundtrip.py:501-509 | a writer that receives no batch leaves a file that reads as one without fields and row groups |
| RecordReadback.BatchRecordFields | src/writer.cpp:1093-1231 | a row of the batch, as the Arrow format has it, is the record of its columns' records at the batch's offset, unless the batch's own bitmap makes it null |
| RecordReadback.LeafRowsAreProjections | src/writer.cpp:1028-1091 | the rows that a leaf has in the batch are the projections of the batch's records, at the batch's own offset |
| RecordReadback.ListLeafStats | tests/oracle_roundtrip.py:346-355 | the null count recorded for a list leaf is the entries of the column's records, as `leaf_levels` counts them, less their values |
| Soa.PresentMask | include/nanoarrow2parquet/soa.hpp:255-267 | the mask's bits packed and its nulls counted |
| Soa.PresentCounts | include/nanoarrow2parquet/soa.hpp:255-267 | nulls and bits set add up to the rows if and only if the mask is as long as the column |
| Soa.MaskIsHonest | include/nanoarrow2parquet/soa.hpp:313-324 | such a mask gives a bitmap in which exactly the rows masked out are null, and a null count that is 0 only without nulls |
| Soa.BuildStrings | include/nanoarrow2parquet/soa.hpp:511-530 | in a buffer made for the chunk's rows, the offsets, as the offset type holds them, and the data of the present strings; it is overrun exactly if there are more strings than rows |
| Soa.OffsetsExactIff | include/nanoarrow2parquet/soa.hpp:511-526 | the offsets are the sizes of the data before them if and only if all the data is within the offset type |
| Soa.StringsRead | include/nanoarrow2parquet/soa.hpp:511-526 | such offsets never step back, stay inside the data, and give every present string back |
| Soa.PackBools | include/nanoarrow2parquet/soa.hpp:534-540 | the column's booleans, packed into the bytes for the chunk's rows; they are overrun exactly if a true value lies beyond them |
| SoaNodes.FillsInsideIff | include/nanoarrow2parquet/soa.hpp:514-540 | no element beyond a leaf's buffers is written if and only if there are no more strings than rows, and no true value beyond the rows' bytes |
| SoaNodes.BuildNode | include/nanoarrow2parquet/soa.hpp:444-554 | an overrun exactly if a column in the field is too long for its buffers; otherwise the schema and array of the field and its argument, and whether all row counts agree |
| SoaNodes.RectangularIff | include/nanoarrow2parquet/soa.hpp:444-501 | a field passes the shape check if and only if all row counts in it, of its columns and of its groups' masks, are the chunk's |
| SoaNodes.LeafHolds | include/nanoarrow2parquet/soa.hpp:508-550 | the leaf array's buffers are those its type calls for and hold the column's elements |
| SoaChunks.ChunkMeansWhatWasPassed | include/nanoarrow2parquet/soa.hpp:444-592 | for any nesting of groups the writer accepts each leaf, and its rows are null where the leaf or a group around it is masked out and the column's own value elsewhere |
| SoaChunks.ChunkLeaves | include/nanoarrow2parquet/soa.hpp:557-592 | all leaf columns of a chunk's schema are such leaves |
| SoaChunks.FirstLeafFixesRows | include/nanoarrow2parquet/soa.hpp:429-438 | in a field all of whose row counts are n, the size of the first leaf is n |
| SoaChunks.WriteChunk | include/nanoarrow2parquet/soa.hpp:557-592 | a well-formed chunk, of any number of rows, is written as a batch of that many rows; the first leaf fixes the row count, a chunk that overruns a buffer comes to nothing that can be relied on, and a ragged chunk is refused if and only if it overruns none |
| SoaFiles.FirstColumnFixesRows | include/nanoarrow2parquet/soa.hpp:429-438 | the row count of any chunk is the number of elements of the first column in field order |
| SoaChunks.LongTextOverruns | include/nanoarrow2parquet/soa.hpp:514-526 | a first leaf of one row beside two strings: the offsets are written beyond their end |
| SoaChunks.LongBoolsAreRefused | include/nanoarrow2parquet/soa.hpp:534-540 | a first leaf of one row beside two booleans stays inside and is refused |
| SoaFiles.ChunkIsUsable | include/nanoarrow2parquet/soa.hpp:557-592 | for a writer that is new or locked by the same fields, a chunk is a batch that has all that the writer requires, and its schema is taken |
| SoaFiles.ChunkFileReadsBack | include/nanoarrow2parquet/soa.hpp:598-605 | the file of one chunk, with honest null counts and string data within the offset type, gives back exactly what was passed: every field with its name, type and nullability, and the columns in field order |
| SoaFiles.WriteFile | include/nanoarrow2parquet/soa.hpp:598-605 | open, one chunk, close: the status of what fails first, and on success, for a well-formed chunk of any number of rows, a file that reads back as what was passed |
| Windows.Window.Fill | examples/pcapng2parquet/include/streaming_reader.hpp:52-61 | afterwards the window is full or the source has ended, and it still is the source's bytes from its base on |
| Windows.Window.Consume | examples/pcapng2parquet/include/streaming_reader.hpp:63-71 | drops at most what there is from the front and keeps the rest |
| Windows.Window.Grow | examples/pcapng2parquet/include/streaming_reader.hpp:73-74 | doubles the capacity and keeps the bytes |
| Slicing.Converter.ProcessWindow | examples/pcapng2parquet/src/pcapng2parquet_main.cpp:224-250 | one window's packets add exactly their part of the slice |
| Slicing.Converter.Run | examples/pcapng2parquet/src/pcapng2parquet_main.cpp:147-170 | for any capacity, source and scanner the loop ends, and the ids kept are those of the whole capture's packets |
| Slicing.SlicedIff | examples/pcapng2parquet/src/pcapng2parquet_main.cpp:233-246 | however the packets fall into windows, the ids kept are [drop, drop + take) within the total, in order and each once, if and only if the sum fits 64 bits or nothing is beyond drop |
| Slicing.IdsAt | examples/pcapng2parquet/src/pcapng2parquet_main.cpp:233-246 | the ids from one up to another are as many as lie between, the k-th being the first plus k |
| Slicing.EarlyStop | examples/pcapng2parquet/src/pcapng2parquet_main.cpp:168 | windows after the early stop would keep nothing |
| Slicing.SlicesStitchToEnd | examples/pcapng2parquet/src/pcapng2parquet_main.cpp:233-243 | so they do if the second has no count and runs to the end of the capture |
| Slicing.SlicesStitch | examples/pcapng2parquet/src/pcapng2parquet_main.cpp:233-243 | adjacent slices concatenate to the slice that covers both, each over windows of its own |

## Left out

- Null pointers, C++ exceptions as such and error texts: a missing buffer is `None`, a failure is a status.
- File streams, `out.good()` and the errors that only they report; a run in `Runs` starts from a file that could be opened.
- The nanom encoders, zstd and Thrift: parameters with round-trip hypotheses; `version`, `created_by`, and column orders of the footer are constant and not carried; the logical type that a list or map group also gets says the same as its converted type.
- Chunk statistics other than booleans, and the choice of extremes inside nanom; `ExtremesOfDistinct` and `BoolStats` are the local part. `min_value` and `max_value` are not part of the chunk's record.
- The widths of `int`, `int32_t` and `int64_t` counters, except where a property turns on them: `atoi` of a width beyond `int`, more than 2^31 columns or 2^63 rows are not modelled.
- Arrow list and string offsets are integers; the model says which nodes have 64-bit offsets (`Nested.ListKind`, `Values.FormatTypes`), not how 4 or 8 bytes are read as one.
- Schemas are compared between batches only by column count, as the code does; a later batch is read with the locked leaves, and `LeavesUsable` asks for the buffers they call for.
- What a read or write beyond a buffer does: the model says exactly when it happens and stops there. Signed overflow of a 64-bit string offset, which C++ leaves undefined, wraps in the model.
- Writing.Writer.WriteFlatLeaf: asks that the bitmaps of nullable groups cover the batch, which the code does not check; without it the code reads past them.
- `std::ranges` and the compile-time checks of field types and names; `SoaFiles.WholeChunk` has what they ensure.
- `valid_bits` and `group_valid` alias a caller's bitmap and null count; `SoaNodes.Proper` asks that they agree, as `present` and `group_present` ensure for a mask of the right length. A bitmap must be as long as its own column, which nothing checks.
- Slicing.Converter.Run: the block scanner is any function that consumes whole blocks; a scanner's error, packet decoding, section tables and the tables written per protocol are not part of this model.
- The one-shot `n2p_write_file` of the C interface, the Python bindings, the amalgamated single header, benches and demos.
