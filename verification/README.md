# duckcall, modelled and verified

duckcall is a Go client for DuckDB's Quack protocol, with a `database/sql`
driver, a fake server for its tests and a pooling proxy. This project models
its five hardest parts in Dafny and proves what they promise.

**The binary codec.** Documents are schema-driven and carry no wire types, so
one misread byte shifts everything behind it. `Leb128`, `Framing` and `Qser`
are the integers, the framing and the `Reader` and `Writer` classes with their
sticky error. `LogicalType`, `Values`, `Vectors` and `Chunks` are the decoder
as functions on the unread input; `Decoder` is the decoder as it runs, method
by method, each proved to compute its function. `VectorWire` is an independent
syntax of wire vectors with a printer and a meaning, and `VectorBack` proves
that decoding a printed vector gives its meaning: every other codec theorem
comes from there. `VectorComplete` is the converse, that whatever decodes is
the meaning of some such vector. `FlatEncoding` and `FlatRoundTrip` are the
test encoder's choice of encoding, `Encoder` and `ChunkEncoder` that encoder as
it runs, with masks and bit strings filled in place. `ChunkBack`, `Extension`,
`RoundTrip` and `DecodedTyped` hold round trips, truncation and extension,
representation independence, isolation of unsupported columns, and what
decoding arbitrary bytes can return; `Reencoding` compression at any depth,
`ReaderHealth` when values vouch for their reader, `ArrayLengths` when decoded
ARRAY rows have their declared length, and `DecodedExactly` which types have
values and which types' values all convert.

Round trips alone would let a printer and a decoder be wrong together, so the
format itself is stated a second time, in numbers and positions: `Varints`
(groups of seven bits), `WireFormat` (field ids, tags and kinds as literal
bytes), `Storage` (what a cell, a mask and a bit string stand for, by type id
and raw bytes), `VectorRows` (what each row of each kind of vector is),
`Limits` (depths, sizes, defaults and what is rejected), `EncoderChoices`
(what the test encoder writes where the decoder does not look as well),
`MessageFormat` (envelopes and bodies, with a captured handshake) and
`CapturedResult` (a captured query result and the table it decodes to).

**The parallel destructive read.** `Stream` is `Result.Chunks` as a step
system: workers at their program counters, a bounded channel, the `done`
latch, `Close`, cancellation, the closing goroutine, the consumer's loop, and
a server that pops a batch whether or not its reply arrives. `StreamSafety`
holds the invariants and the measure, `StreamRuns` the theorems about every
run, `StreamEnds` what the verdict says about the run that led to it, and
`StreamOrder` the order of the batches and how far the workers read ahead.

**The pooling proxy.** `Bouncer` has the handlers interleaved at lock
granularity, and each handler alone; `Envelope` has the message envelopes, the
typed bodies and the proxy's rewriting; `ProxyHandlers` has the pool and the
proxy as classes whose methods take and answer messages.

**The placeholder interpolator.** `SqlLexer` is a specification lexer,
`Interpolate` the loop, what it accepts, what it writes and when the output
still reads as the query did. `Placeholders` finds the placeholders with a
small automaton over single characters and agrees; `Literals` is a reader
of literals that gives every argument back.

**Exact rendering.** `DecimalText` has decimal widths and decimal text,
`JsonText` JSON trees with a printer and a parser, `Json` the driver's
conversion and its JSON printer, `Rows` the driver's row reader. `EndToEnd`
and `FullPath` put everything together: a table split and encoded by the
server, decoded by the client, streamed by any interleaving, and read row by
row until EOF.

Conventions. A failed reader is `Failed(error)` without a position, since a
sticky error hides it. Printers take the bytes that follow, so that "decoding
gives the value back and leaves the rest" is one equation; methods that append
take those bytes as a ghost `k`. Text is a string with one character per byte
where it is SQL or JSON and a byte sequence where it comes off the wire.
Floats are bit patterns; a `time.Time` is its Unix second and nanosecond.
Errors are tags. Taken from Go's libraries as stated contracts: `strconv`'s
float text (a number by section 6 of RFC 8259 when finite), `json.Marshal` of
a string (a string by section 7), `time` layouts (no quote in them), a
`time.Time`'s own text, and `%0*s`, which pads with zeros.

## What the proofs found

- A batch that holds only null chunks decodes to no chunks and is taken for
  the end of the result, so a later batch can be lost without an error
  (`FullPath.NullBatchLoses`). `StreamRuns.NeverShortExactly` proves that this
  is the only way: the promise of duckcall.go:85-87 holds of a server if and
  only if no batch with data stands behind such a batch and `NeedsMoreFetch` is
  set whenever there is data to fetch.
- The interpolator adds no separators: `-?` with a negative number becomes a
  comment (`Interpolate.MinusMinusOne`). `Interpolate.OutputRelexes` gives the
  exact condition at the placeholders' edges, and `Interpolate.ApartRelexes`
  one on the query alone.
- An ARRAY vector's group size comes from the wire and is not compared with
  the type's size: a VARCHAR[3] column can decode to a row of two
  (`ArrayLengths.ShortArrayDecodes`). `ArrayLengths.DecodedLengths` gives the
  exact condition at every nesting level: the rows have their declared lengths
  if and only if every group size that a row depends on is the declared one.
- A sequence vector can return values and no error with a failed reader; only
  the chunk's own check catches it (`ReaderHealth.CutBigint`).
  `ReaderHealth.NeverHidesExactly` proves that vectors of a type and length
  never do so if and only if there are rows and the type is not an integer one.
- A MAP whose child has not two fields decodes but cannot be printed as JSON
  (`DecodedExactly.EmptyMapFails`). `DecodedExactly.DecodedPrintExactly` proves
  that everything decoded for a type converts, whatever the bytes, if and only
  if the MAPs that can occur in its values have two-field children.
- A column can lose its values to the geometry storage tag, whatever its type
  (`RoundTrip.TaggedVarchar`), and a type the codec does not know can have
  values all the same, when zero rows of it were sent as a sequence
  (`RoundTrip.EmptyGeometryList`). `RoundTrip.UnsupportedExactly` gives the
  exact condition on the encoding, `DecodedExactly.ValuesExactly` the types
  that can have values at all.

## Model

| member | source | states |
|---|---|---|
| Leb128.UvRoundTrip | internal/qser/qser.go:111-127 | for every uint64 and any following bytes the unsigned varint reads back in at most ten bytes |
| Leb128.SvRoundTrip | internal/qser/qser.go:129-159 | for every int64 and any following bytes the sign-extended varint reads back in at most ten bytes |
| Leb128.UvBound | internal/qser/qser.go:111-127 | a decoded unsigned varint is a uint64, overlong or not |
| Leb128.SvBound | internal/qser/qser.go:129-159 | a decoded signed varint is an int64, whatever the bytes |
| Varints.UvarintExactly | internal/qser/qser.go:111-127 | reading gives the sum of the seven-bit groups if that is a uint64 in at most ten bytes; larger or longer overflows, fewer bytes are truncation |
| Varints.SvarintExactly | internal/qser/qser.go:129-159 | reading gives the groups' sum in two's complement, signed by the last group's top bit |
| Varints.UvEncodeIs | internal/qser/qser.go:219-221 | what is written are the value's own groups, and no more than it has |
| Varints.SignedExamples | internal/qser/qser.go:222-232 | the bytes of particular signed values |
| Framing.FieldBack | internal/qser/qser.go:62-82 | a field id is consumed exactly when it is the one asked for, else left in place |
| Framing.EndBack | internal/qser/qser.go:84-96 | an object terminator reads back and leaves the rest |
| Framing.BlobBack | internal/qser/qser.go:167-179 | a length-prefixed byte string reads back for every content |
| Framing.HugeintBack | internal/qser/qser.go:200-202 | every 128-bit pair reads back |
| Framing.ReadsExtend | internal/qser/qser.go:98-202 | each primitive read that succeeds does the same with more input behind it |
| WireFormat.FramingBytes | internal/qser/qser.go:215-254 | field ids, terminators, strings and booleans as literal bytes |
| WireFormat.ReadersExactly | internal/qser/qser.go:62-165 | what two bytes are as an id, one as a boolean, and a length as a string |
| Qser.Reader.PeekID | internal/qser/qser.go:62-72 | the class method computes the framing function on its state, sticky error included |
| Qser.Reader.TryField | internal/qser/qser.go:74-82 | consumes the field id exactly when it matches |
| Qser.Reader.End | internal/qser/qser.go:84-96 | anything but the terminator is a framing error |
| Qser.Reader.Take | internal/qser/qser.go:98-109 | never reads past the end; a failed read moves nothing |
| Qser.Reader.Uvarint | internal/qser/qser.go:111-127 | the value and the position, or truncation or overflow |
| Qser.Reader.Svarint | internal/qser/qser.go:129-159 | the accumulating loop computes the recursive decoding, sign extension included |
| Qser.Reader.Bool | internal/qser/qser.go:161-165 | a raw byte, any nonzero one true |
| Qser.Reader.Blob | internal/qser/qser.go:167-179 | a length beyond the input is truncation |
| Qser.Reader.ListCount | internal/qser/qser.go:183-195 | a count is bounded by the bytes that are left |
| Qser.Reader.Hugeint | internal/qser/qser.go:200-202 | upper half signed, lower half unsigned |
| Qser.Writer.Field | internal/qser/qser.go:217-218 | appends exactly the little-endian field id |
| Qser.Writer.Svarint | internal/qser/qser.go:222-232 | the shifting loop appends exactly the signed LEB128 of the value |
| Qser.Writer.BytesVal | internal/qser/qser.go:242-245 | appends the length and the bytes |
| Qser.Writer.Hugeint | internal/qser/qser.go:251-254 | appends upper then lower half |
| LogicalTypes.TypeBack | codec/logicaltype.go:151-265 | decoding inverts WriteType on every well-formed type tree within the depth bound, at any depth and before any bytes |
| WireFormat.TypeWithInfoBytes | codec/codectest/codectest.go:48-107 | a parameterized type in bytes: field 100 its id, field 101 the info with its kind, two terminators |
| WireFormat.DecimalInfoBytes | codec/logicaltype.go:190-196 | kind 2, width in field 200 and scale in field 201, zeros left out |
| WireFormat.EnumInfoBytes | codec/logicaltype.go:231-246 | kind 6, the number of labels twice, the labels |
| WireFormat.StructInfoBytes | codec/logicaltype.go:210-230 | kind 5 and the fields in order |
| WireFormat.ListInfoBytes | codec/logicaltype.go:201-209 | kind 4 and the child |
| WireFormat.ArrayInfoBytes | codec/logicaltype.go:247-258 | kind 9, the child and the size |
| Limits.TypeDepthExactly | codec/logicaltype.go:151-154 | types nest 64 levels deep at most, and all of those decode |
| Limits.LabelCount | codec/logicaltype.go:243-245 | an enum with another number of labels than it says is malformed |
| Limits.OtherInfos | codec/logicaltype.go:176-200 | alias and collation are dropped, extension info is refused, generic info says nothing |
| Limits.UnknownInfo | codec/logicaltype.go:259-263 | every other kind of type info is malformed |
| Encoder.WriteType | codec/codectest/codectest.go:48-107 | the writer appends exactly the printed type, for every kind of type info |
| Decoder.ReadType | codec/logicaltype.go:151-169 | the recursive method computes the decoding function, errors included |
| Decoder.ReadTypeInfo | codec/logicaltype.go:171-265 | the same for the type info object |
| Values.CellBack | codec/chunk.go:573-649 | decoding inverts appendCell on every value of every fixed-width type |
| Values.NewDecimalExact | codec/values.go:23-48 | every 128-bit integer survives NewDecimal and BigInt |
| Values.DecimalCellBack | codec/chunk.go:651-667 | every decimal within its width's bytes survives truncation and sign extension |
| Values.TimeTZCellBack | codec/codectest/codectest.go:305-421 | clock time and offset survive the 40/24-bit packing |
| Values.UuidCellBack | codec/codectest/codectest.go:305-421 | sixteen bytes survive the swap of halves and the flipped top bit |
| Values.TicksBack | codec/values.go:260-271 | an instant in any unit gives its tick count back |
| Storage.CellsExactly | codec/chunk.go:573-667 | decodeCell by type id and raw bytes: width, sign, byte order, unit, bias and label index of every type |
| Storage.WidthsAre | codec/chunk.go:529-559 | how many bytes each type's cell takes, decimals by width and enums by labels |
| Storage.MaskExactly | codec/chunk.go:523-525 | a row is NULL exactly when its bit, low bits first, is clear |
| Storage.BitStringExactly | codec/chunk.go:484-506 | bit strings by position, high bits first, and exactly which bytes are none |
| VectorBack.VecBack | codec/chunk.go:145-475 | decoding any printed vector, flat, constant, dictionary or sequence at any nesting, gives exactly its meaning and leaves the reader at the terminator |
| VectorComplete.DecodableExactly | codec/chunk.go:145-475 | what any bytes decode to, values or a column error, is exactly what the well-shaped encodings stand for |
| VectorBack.SequenceTermTruncates | codec/chunk.go:671-691 | the wrapped 64-bit term cut to the column's width is start + i*inc modulo 2 to the width |
| VectorRows.CompressedRow | codec/chunk.go:145-223 | a row of a constant, dictionary or sequence vector is the one value, the selected entry, or the integer of the type's range congruent to start + i*inc |
| VectorRows.TextRow | codec/chunk.go:246-284 | a text row is its own string, bytes or bits, NULL by the mask |
| VectorRows.CellRow | codec/chunk.go:441-473 | a cell row is read from the type's width of bytes at the row's place |
| VectorRows.StructRowIs | codec/chunk.go:286-325 | a struct row has the fields' names and the children's values of that row |
| VectorRows.ListRowIs | codec/chunk.go:327-400 | a list or map row is its window of the child in order, absent numbers zero |
| VectorRows.ArrayRowIs | codec/chunk.go:402-439 | an array row is the row's group of the child in order |
| WireFormat.FlatBytes | codec/chunk.go:225-244 | a flat vector in bytes: tag, mask flag, mask, body |
| WireFormat.DictionaryBytes | codec/chunk.go:171-198 | encoding 3: the selection in field 91, the size in 92, the dictionary |
| WireFormat.SequenceBytes | codec/chunk.go:200-217 | encoding 4: start in field 91, increment in 92, both signed |
| WireFormat.ListBytes | codec/chunk.go:327-400 | size in field 104, entries in 105, child in 106 |
| Limits.VectorLimits | codec/chunk.go:146-151 | vectors deeper than 64 or with more than 2^24 rows are malformed |
| Limits.VectorsWithin | codec/chunk.go:146-151 | within those limits every well-shaped vector decodes |
| Limits.UnknownEncoding | codec/chunk.go:219-222 | an encoding number other than 0, 2, 3, 4 is malformed |
| Limits.SelectionOutside | codec/chunk.go:190-195 | a selection behind the dictionary's end is malformed |
| Limits.DictionaryLimits | codec/chunk.go:175-185 | a selection of another size than four bytes a row, or a dictionary of more than 2^16 entries, is malformed |
| Limits.OversizedList | codec/chunk.go:327-400 | a list claiming more than 2^24 child rows is malformed |
| Limits.OversizedArray | codec/chunk.go:402-409 | groups that make more than 2^24 child rows are malformed |
| Limits.EntryCount | codec/chunk.go:338-341 | another number of list entries than rows is malformed |
| Limits.TextCount | codec/chunk.go:258-261 | another number of texts than rows is malformed |
| Limits.EntryOutside | codec/chunk.go:327-400 | a visible row that reaches outside the child is malformed |
| Limits.ChildCount | codec/chunk.go:286-325 | a struct with another number of children than fields is malformed |
| Limits.ShortMask | codec/chunk.go:240-243 | a mask without a bit for every row is malformed |
| Limits.ShortData | codec/chunk.go:441-473 | data without a cell for every row is malformed |
| Limits.VectorFields | codec/chunk.go:231-257 | a flat vector without its mask flag or without the first field of its body is malformed |
| Limits.BadPadding | codec/chunk.go:484-491 | a visible bit string whose padding does not fit is malformed |
| FlatEncoding.ValidityBack | codec/codectest/codectest.go:283-303 | the written mask says valid exactly where the value is not NULL |
| FlatEncoding.BitBack | codec/codectest/codectest.go:262-281 | bitString inverts bitBlob on every string of bits of any length |
| FlatEncoding.PaddingIgnored | codec/chunk.go:484-506 | bit strings do not depend on the padding bits |
| FlatRoundTrip.FlatEncodes | codec/codectest/codectest.go:144-257 | the encoder's choice of encoding means the column it was given, at every nesting level |
| Encoder.BuildMask | codec/codectest/codectest.go:283-303 | the mask filled in place is the specified one, absent when nothing is NULL |
| Encoder.BuildBitBlob | codec/codectest/codectest.go:262-281 | the blob filled in place is padding count, set padding bits, data bits |
| EncoderChoices.MaskWritten | codec/codectest/codectest.go:283-303 | a mask is written exactly when something is NULL, in 8-byte words, a bit set exactly for each value that is there |
| EncoderChoices.BlobWritten | codec/codectest/codectest.go:262-281 | padding count, padding bits as ones, then the characters, high bits first |
| EncoderChoices.WindowsWritten | codec/codectest/codectest.go:183-227 | windows follow one another from zero, as long as their rows |
| Encoder.WriteVector | codec/codectest/codectest.go:144-257 | the writer appends exactly the bytes of the column's encoding |
| ChunkEncoder.WriteChunk | codec/codectest/codectest.go:118-140 | the writer appends exactly the chunk's bytes |
| ChunkEncoder.EncodeChunk | codec/codectest/codectest.go:109-116 | the encoded chunk |
| ChunkEncoder.WriteChunkList | codec/codectest/codectest.go:504-512 | every chunk behind its presence byte and in its wrapper object |
| ChunkEncoder.EncodePrepareBody | codec/codectest/codectest.go:462-489 | the prepare body, defaults left out |
| ChunkEncoder.EncodeFetchBody | codec/codectest/codectest.go:491-502 | the fetch body, no chunk field when empty |
| WireFormat.ChunksBytes | codec/codectest/codectest.go:118-140 | a chunk in bytes: rows in field 100, types in 101, columns in 102 |
| WireFormat.PrepareBodyBytes | codec/codectest/codectest.go:462-489 | a prepare body in bytes, defaults left out |
| WireFormat.FetchBodyBytes | codec/codectest/codectest.go:491-502 | a fetch body in bytes |
| Decoder.ReadVector | codec/chunk.go:145-223 | the method computes the vector function on its reader, all four encodings, errors included |
| Decoder.ReadFlatVector | codec/chunk.go:225-475 | the same for flat vectors of every storage kind |
| Decoder.ReadStruct | codec/chunk.go:286-325 | struct children in order, an unsupported child carried to the end |
| Decoder.ReadList | codec/chunk.go:327-400 | windows into the child, lists and maps |
| Decoder.ReadArray | codec/chunk.go:402-439 | size times count child rows, bounded before decoding, and the product never overflows a Go int |
| Decoder.ReadFixed | codec/chunk.go:441-473 | one blob of fixed-width cells, long enough for every row, its size computed without overflow; an unknown width is consumed and reported |
| Decoder.RenderBits | codec/chunk.go:484-506 | the bit loops compute the specified string or the error |
| Decoder.ReadChunkContents | codec/chunk.go:87-139 | the chunk loop checks the reader behind every column |
| Decoder.ReadChunkList | codec/result.go:111-131 | null chunks are skipped, the reader is checked at the end |
| Decoder.RunDecodeChunk | codec/result.go:136-146 | the chunk, and how many bytes it took |
| Decoder.RunDecodePrepare | codec/result.go:35-86 | the whole prepare response |
| Decoder.RunDecodeFetch | codec/result.go:89-107 | the whole fetch response |
| Limits.RowsExactly | codec/chunk.go:74-97 | a table of supported types decodes exactly when it has at most 2^16 rows |
| Limits.RowsRejected | codec/chunk.go:92-96 | behind an implausible row count nothing is read |
| Limits.ColumnCount | codec/chunk.go:112-118 | another number of columns than types is malformed |
| Limits.NameCount | codec/result.go:58-61 | a prepare body with another number of names than types is malformed |
| Limits.UnknownField | codec/chunk.go:87-91 | a chunk's field that is not asked for is not skipped, and one that is asked for cannot be left out |
| Limits.BodyDefaults | codec/result.go:35-107 | an empty fetch body has no chunks and the absent index; a prepare body needs its uuid and nothing else |
| CapturedResult.CapturedDecodes | testdata/corpus/quack-v1.5.4-capture.txt:32-48 | the captured answer of a DuckDB server decodes to the query's two columns and four rows |
| ChunkBack.ChunkContentsBack | codec/chunk.go:87-139 | decoding a printed chunk gives its meaning column by column and consumes exactly its bytes |
| ChunkBack.AppendingChangesNothing | codec/chunk.go:87-139 | bytes behind a chunk change neither the result nor how many bytes it takes |
| ChunkBack.TruncationRejected | codec/chunk.go:87-139 | every proper prefix of what a chunk takes is rejected |
| RoundTrip.ChunkRoundTrip | codec/codectest/codectest.go:109-140 | DecodeChunk inverts EncodeChunk on every table within the decoder's limits, NULLs at every level, exactly the encoded bytes |
| RoundTrip.FetchRoundTrip | codec/codectest/codectest.go:491-502 | the same for a fetch response with its batch index |
| RoundTrip.PrepareRoundTrip | codec/codectest/codectest.go:462-489 | the same for a prepare response with schema, fetch flag and uuid |
| RoundTrip.RepresentationIndependent | codec/chunk.go:145-223 | any encoding of a column, compressed at any level, decodes as its flat encoding does |
| Reencoding.ReencodingKeeps | codec/chunk.go:145-223 | exchanging any vectors inside an encoding, at any depths, for other encodings of what they stand for keeps the column |
| Reencoding.ReencodedDecodes | codec/chunk.go:145-223 | and the result decodes to the same values |
| RoundTrip.SequenceEncodes | codec/chunk.go:671-691 | a sequence stands for start + i*inc modulo 2 to the width, wrap-around included |
| RoundTrip.UnsupportedExactly | codec/chunk.go:145-521 | a column decodes to its own error exactly when a flat vector among those its rows are made of is tagged or of a type without values; if sequences stand only for integers, exactly when the type is or contains one the codec does not know or a vector carries the geometry storage tag |
| RoundTrip.UnsupportedBytes | codec/chunk.go:145-521 | whatever the bytes, a column error means a type the codec does not know or a tagged vector |
| RoundTrip.UnsupportedIsolated | codec/chunk.go:119-136 | inserting any column the decoder takes anywhere leaves every other column as it was; it carries the error exactly when its encoding withholds its values |
| RoundTrip.TaggedGeometry | codec/chunk.go:225-230 | a GEOMETRY column with its tag is such a column |
| RoundTrip.TaggedVarchar | codec/chunk.go:225-284 | a VARCHAR column with the tag decodes to its error, the bytes consumed |
| RoundTrip.EmptyGeometryList | codec/chunk.go:200-219 | an empty LIST of GEOMETRY whose elements are an empty sequence decodes to values |
| DecodedTyped.VectorHolds | codec/chunk.go:145-475 | whatever the bytes, decoded values are values of the column's type at every level |
| DecodedTyped.ChunkHolds | codec/chunk.go:87-139 | whatever the bytes, a decoded chunk is within the row limit and each column has exactly one value per row or its own error |
| ReaderHealth.NeverHidesExactly | codec/chunk.go:145-223 | decoding a vector never hides a reader failure behind values if and only if there are rows and the type is not an integer one |
| ReaderHealth.CutBigint | codec/chunk.go:200-219 | a sequence without its increment decodes to one BIGINT with a failed reader |
| ArrayLengths.GroupLengths | codec/chunk.go:402-439 | the rows of one ARRAY vector have the declared length if and only if the wire's size is the declared one or all rows are NULL |
| ArrayLengths.LengthsExactly | codec/chunk.go:145-475 | at every nesting level, seen rows have declared lengths if and only if the sizes they depend on agree |
| ArrayLengths.DecodedLengths | codec/chunk.go:145-475 | whatever bytes decode to values, any of the rows have their declared lengths at every nesting level if and only if the wire sizes they depend on are the declared ones |
| ArrayLengths.ShortArrayDecodes | codec/chunk.go:402-439 | a row of two elements decodes as a VARCHAR[3] |
| Stream.WorkerCount | wire/config.go:55-57 | the configured number of workers if positive, else four |
| StreamSafety.AccountsStep | duckcall.go:113-177 | every batch with data stays in exactly one place across every step: server, worker, channel, consumer, lost |
| StreamSafety.CausesStep | duckcall.go:113-177 | a lost batch always has an alarm standing, and no worker returns without a latch or an alarm |
| StreamSafety.RemainingFalls | duckcall.go:113-177 | every step, the environment's included, lowers an explicit measure |
| StreamRuns.NeverTwice | duckcall.go:79-87 | in every state of every run no batch was delivered twice or made up, order inside batches is kept, and at most N + W fetches were issued |
| StreamRuns.CleanIsComplete | duckcall.go:79-178 | a stream that ends without error, break or Close has delivered the inline chunks and every batch exactly once, even when a drained reply overtakes a batch |
| StreamEnds.VerdictExactly | duckcall.go:79-178 | broken off exactly when the consumer broke off; failed only if a fetch failed or the context died; clean only if neither happened; whole unless broken off |
| StreamEnds.MissingIsReported | duckcall.go:85-87 | a missing batch means that the error was yielded, the consumer broke off, or Close was called |
| StreamEnds.StopsFetching | duckcall.go:114-122 | behind cancellation, Close, the loop's end or a drained reply no worker starts another fetch |
| StreamEnds.FailedFetchLoses | duckcall.go:84-87 | a fetch that failed can lose its batch on the server, and the consumer is told |
| StreamOrder.FetchOrder | duckcall.go:79-82 | batches are received in the order in which their fetches completed |
| StreamOrder.OneWorkerInOrder | duckcall.go:79-178 | with one worker a clean stream is the inline chunks and all batches in the server's order |
| StreamOrder.Crew | duckcall.go:105-113 | all configured workers or none, and at most that many batches waiting |
| StreamOrder.AllFetchAtOnce | duckcall.go:105-124 | all configured workers can have a request under way at once |
| StreamOrder.ChannelFills | duckcall.go:105-106 | that many batches can wait before any is received |
| StreamRuns.QuietIsComplete | duckcall.go:79-178 | when nothing fails and nobody interferes the stream ends clean and complete |
| StreamRuns.NoDeadlock | duckcall.go:99-177 | in every state of every run some step is enabled exactly until consumer and all goroutines have ended, after break, error, cancellation and Close too |
| StreamRuns.RunsEnd | duckcall.go:99-177 | every run has at most an explicit number of steps |
| StreamRuns.NeverShortExactly | duckcall.go:143-147 | the never-short promise holds of a server if and only if its empty replies mean drained and its fetch flag is right |
| ProxyHandlers.Pool.Get | cmd/quackbouncer/pool.go:28-40 | takes the session last put back, or none |
| ProxyHandlers.Pool.Put | cmd/quackbouncer/pool.go:42-56 | keeps the session exactly when the pool is not full, and never exceeds its bound |
| ProxyHandlers.Proxy.HandleConnect | cmd/quackbouncer/proxy.go:97-132 | a request that does not decode is answered with an error, a token not among the proxy's with the text of a failed authentication, and neither maps anything; otherwise the id maps to the idle or dialled session and the client decodes that id and the server behind it |
| ProxyHandlers.Proxy.AuthorizedExactly | cmd/quackbouncer/proxy.go:103-107 | an encoded request is authorized if and only if its token is one of the proxy's |
| ProxyHandlers.Proxy.HandleDisconnect | cmd/quackbouncer/proxy.go:134-149 | the id leaves the map, its session goes to the pool or is closed, and the client decodes success; an unknown id changes nothing |
| ProxyHandlers.Proxy.Forward | cmd/quackbouncer/proxy.go:151-174 | the mapped upstream decodes the client's message but for the connection id, and the client decodes the upstream's answer but for the id mapping and an absent query id; everything else is an error reply |
| ProxyHandlers.Proxy.HandleRPC | cmd/quackbouncer/proxy.go:75-95 | every message gets its handler's effect and answer: connect response, success, the upstream's body, or an error; a garbled one changes nothing |
| Bouncer.ConnectAlone | cmd/quackbouncer/proxy.go:108-120 | a connect's steps run alone do to pool and map what the handler's contract says |
| Bouncer.DisconnectAlone | cmd/quackbouncer/proxy.go:134-149 | the same for a disconnect, closing included |
| Bouncer.ForwardAlone | cmd/quackbouncer/proxy.go:154-164 | a forward borrows the mapped session and moves nothing |
| Bouncer.SessionsConserved | cmd/quackbouncer/pool.go:28-56 | over all interleavings each session ever dialled is in exactly one place, and the idle count stays within its bound |
| Bouncer.MappedExclusively | cmd/quackbouncer/proxy.go:117-120 | no two ids share a session, and no mapped session is pooled or closed |
| Bouncer.IdsAreFixed | cmd/quackbouncer/proxy.go:108-149 | an id stands for one session all its life and never comes back |
| Bouncer.ReturnedOnce | cmd/quackbouncer/proxy.go:134-149 | of any number of racing disconnects of one id at most one gets its session |
| Envelope.EnvelopeRoundTrip | wire/messages.go:70-107 | splitting an envelope gives header and body back, whatever the body |
| Envelope.EncodeEnvelope | wire/messages.go:70-81 | the writer's steps produce exactly the envelope's bytes |
| Envelope.SplitEnvelope | wire/messages.go:83-107 | the reader's steps compute the split, type cut to eight bits, absent query id |
| Envelope.RequestTransparent | cmd/quackbouncer/proxy.go:151-164 | what the upstream decodes is the client's message but for the connection id, however it was encoded |
| Envelope.ReplyTransparent | cmd/quackbouncer/proxy.go:60-68 | what the client decodes is the upstream's reply but for the id mapping and a zero query id becoming absent |
| Envelope.ConnectionRequestRoundTrip | wire/messages.go:109-155 | the handshake request survives, empty texts included |
| Envelope.ConnectionResponseRoundTrip | wire/messages.go:157-192 | the handshake response survives |
| Envelope.TextBodyRoundTrip | wire/messages.go:194-217 | SQL and error texts survive |
| Envelope.FetchRequestRoundTrip | wire/messages.go:219-239 | every result uuid survives |
| MessageFormat.RequestFormat | wire/messages.go:109-155 | a connection request in bytes, field by field |
| MessageFormat.ResponseFormat | wire/messages.go:157-192 | a connection response in bytes, field by field |
| MessageFormat.EnvelopeFormat | wire/messages.go:70-81 | an envelope in bytes: type, connection id, query id, terminator, body |
| MessageFormat.CapturedHandshake | testdata/corpus/quack-v1.5.4-capture.txt:3-16 | the captured handshake decodes on both sides |
| MessageFormat.EmptyBodies | wire/messages.go:109-271 | empty bodies decode to defaults |
| SqlLexer.FlatLex | driver/interpolate.go:33-78 | the specification lexer drops nothing |
| SqlLexer.FirstWith | driver/interpolate.go:47-76 | a token stays itself in front of more text exactly when it ends before the next character |
| SqlLexer.Junction | driver/interpolate.go:47-76 | two token lists join exactly when the first one's last token ends before the second |
| Interpolate.SkipQuoted | driver/interpolate.go:85-98 | the index just past the quoted region, doubled quotes skipped |
| Interpolate.BlobLiteral | driver/interpolate.go:123-130 | two upper-case hex digits per byte between quotes and cast |
| Interpolate.Render | driver/interpolate.go:21-83 | the loop computes the rewriting of the query's tokens, errors in their order; what that is, Placeholders and Literals say |
| Interpolate.SucceedsExactly | driver/interpolate.go:21-83 | it succeeds if and only if no argument is named, all can be rendered and they are as many as the placeholders outside quotes and comments; other bytes are verbatim |
| Placeholders.InterpolatedByCharacter | driver/interpolate.go:21-83 | success exactly when no argument is named, all can be rendered and they are as many as the question marks an independent automaton finds outside quotes and comments; the output is the query with the literals in those places |
| Placeholders.ErrorsExactly | driver/interpolate.go:21-83 | which error: a named argument, then the first that cannot be rendered, then too few or too many |
| Literals.LiteralReads | driver/interpolate.go:100-137 | an independent reader of literals gives every argument back: NULL, truth values, integers, floats by name or library text, text, bytes and times |
| Literals.ArgumentsArrive | driver/interpolate.go:21-137 | in the output, what stands at the placeholders reads as the arguments in order |
| Interpolate.OutputRelexes | driver/interpolate.go:21-83 | the output reads as the query's own tokens around each literal's own if and only if the placeholders' edges are separated |
| Interpolate.ApartRelexes | driver/interpolate.go:21-83 | placeholders not behind a minus, a single quote or another placeholder nor before a single quote always read as meant |
| Interpolate.TextSurvives | driver/interpolate.go:121-122 | a text argument is one quoted region that stands for exactly the text |
| Interpolate.MinusMinusOne | driver/interpolate.go:36-46 | a negative number behind a minus turns into a comment |
| DecimalText.WidthSuffices | codec/chunk.go:540-552 | at most 38 digits fit the bytes the width gets |
| DecimalText.DecimalColumnExact | codec/codectest/codectest.go:433-460 | build, truncate to the physical width and widen is the identity |
| DecimalText.String | codec/values.go:64-82 | padding and cutting give sign, whole part and exactly scale fraction digits |
| DecimalText.TextReadsBack | codec/values.go:64-82 | the text is a number by section 6 of RFC 8259 and reads back as unscaled over ten to the scale |
| DecimalText.TextExamples | codec/codec_test.go:492-512 | the texts of the examples |
| DecimalText.TextInjective | codec/values.go:64-82 | at one scale, equal texts are equal numbers |
| JsonText.ParseBack | driver/rows.go:144-243 | parsing a printed tree gives the tree back and leaves what follows |
| Json.AppendJson | driver/rows.go:144-243 | the appending recursion writes exactly the value's tree, or fails where it has none |
| Json.ToDriver | driver/rows.go:84-142 | the conversion computes its specification, nested values as JSON text; what that carries, DriverSays says |
| Json.DriverSays | driver/rows.go:84-142 | NULL as nil; truth values, bytes, floats, times and text themselves; integers as themselves or as text that reads back; decimals as text that reads back; nested values as JSON that mirrors them |
| Json.ScalarsDetermined | driver/rows.go:79-80 | lossless: two values of a scalar type with the same driver value are equal, but for those that go as library text |
| Json.HoldsRenders | driver/rows.go:84-243 | every value a decoder can produce for a type whose MAPs have two-field children converts and renders, as a tree of exactly its shape |
| Json.MapsPrintExactly | driver/rows.go:84-243 | every value a type can hold converts if and only if the MAPs that can occur in it have two-field children |
| DecodedExactly.DecodedPrintExactly | driver/rows.go:84-243 | the same over all bytes: everything decoded for a complete type within the depth limit converts if and only if those MAPs have two-field children |
| DecodedExactly.EmptyMapFails | driver/rows.go:192-196 | bytes that decode to an empty MAP over INTEGER, which does not convert |
| DecodedExactly.ValuesExactly | codec/chunk.go:145-475 | some bytes decode to rows of a type if and only if the type can have values: lists of anything, but no GEOMETRY, UNION, VARIANT or unknown width and no struct with such a field |
| Json.JsonReadsBack | driver/rows.go:144-253 | for types whose MAPs print, the printed text parses to a tree with the value's nulls, elements, fields and entries in order, each leaf and each key saying the value it stands for |
| Json.FiniteExactly | driver/rows.go:254-260 | which floats are written as numbers: those whose magnitude is below infinity's |
| Json.NumbersExact | driver/rows.go:217-253 | integers, 128-bit integers and decimals read back exactly from their JSON numbers |
| Rows.Reader.Next | driver/rows.go:48-71 | each call gives the next row to come at the schema's width, skipping empty chunks; a failing or missing cell keeps failing, a failed stream ends |
| Rows.FailureShows | driver/rows.go:48-71 | reading everything meets the stream's error exactly when the stream gave one |
| Rows.RowExactly | driver/rows.go:59-68 | a row fails exactly when the chunk is too narrow, a column carries an error or is too short, or a value does not convert; else its cells are the columns' values in order |
| Rows.ReadAll | driver/rows.go:48-71 | calling Next until it gives no row returns every row in front of the first error, or all of them and EOF |
| EndToEnd.SplitResult | internal/quacktest/quacktest.go:85-110 | the loops split a table into chunks and batches |
| EndToEnd.SplitAt | internal/quacktest/quacktest.go:85-110 | each chunk holds its run of consecutive rows, chunk by chunk |
| EndToEnd.GroupedAt | internal/quacktest/quacktest.go:85-110 | each batch holds its run of consecutive chunks |
| EndToEnd.ServedIsWhole | internal/quacktest/quacktest.go:244-304 | the fake server's empty replies mean drained and its fetch flag is right |
| EndToEnd.PrepareArrives | internal/quacktest/quacktest.go:244-272 | the decoded prepare response is the schema, the first batch if there is one and whether there are more |
| EndToEnd.FetchArrives | internal/quacktest/quacktest.go:274-304 | each decoded fetch response is one whole batch |
| EndToEnd.DrainedArrives | internal/quacktest/quacktest.go:291-303 | the reply behind the last batch decodes to no chunks |
| EndToEnd.EachRowOnce | duckcall.go:79-178 | over every clean interleaving the delivered chunks hold the table's rows, each exactly once, inline rows first and in order, every batch in one piece |
| EndToEnd.RowsAreTheTables | driver/rows.go:59-68 | no row of a table of supported types fails, and each cell is toDriverValue of the original and says what it says |
| EndToEnd.DecodedRowsRender | driver/rows.go:59-68 | for chunks decoded from any bytes, without column errors and with MAPs that print, a row fails exactly when the chunk is narrower than the schema |
| FullPath.LiveResult.HandlePrepare | internal/quacktest/quacktest.go:244-272 | the server's prepare body, the empty result included |
| FullPath.LiveResult.HandleFetch | internal/quacktest/quacktest.go:274-304 | the next batch's body, once, and behind the last one the drained reply |
| FullPath.ClientSeesServed | internal/quacktest/quacktest.go:244-304 | decoding the server's own bytes sets up exactly the stream of what it serves |
| FullPath.NullBatchLoses | codec/result.go:111-131 | a batch of one null chunk decodes to no chunks, and a table behind it can be missing from a clean run |
| FullPath.ReadTable | driver/rows.go:48-71 | from the server's bytes through any run that ends, not broken off or closed, the loop over Next returns the rows received, ending in EOF exactly if the stream is clean; then every row of the table came exactly once, the inline rows first |

## Left out

- HTTP, TLS, retries, tokens, DSN parsing and metrics: library calls or short straight-line code; a fetch is a step that is served, fails before or fails after the pop.
- Error texts: errors are tags, so wrapping and wording are not modelled, but for the proxy's refusals.
- `LogicalType.String`: it dereferences the child of a list or array type that may have none.
- Temporal text (`Time`, `TimeTZ`, `Interval`, `UUID` and the calendar layouts): taken from outside as functions of the value; only their place in the output is modelled.
- IEEE 754 float formatting and `json.Marshal` escaping: contracts on the library, not definitions; BLOB text in JSON is not claimed to be recoverable.
- Re-encoding arbitrary wire bytes to themselves: the reader accepts overlong varints and cuts message types to eight bits, so only decode after encode is an identity.
- A forward that races with a disconnect of its id: the upstream session is used outside the lock, so nothing is claimed about exclusive use during a round trip.
- Bouncer.SessionsConserved: ids are assumed fresh, as `rand.Text` makes them; a collision is not modelled.
- Stream: select statements choose any ready case, sends and receives are atomic, and a handler's return and its WaitGroup decrement are one step.
- Rows.Reader: closing and column metadata are not modelled; every call fills as many cells as the schema has columns.
- JSON whitespace and duplicate-key policies of other parsers: the parser accepts what the printer writes, without insignificant whitespace.
