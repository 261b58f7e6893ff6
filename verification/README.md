# databento-fast record engines in Dafny

This project models the record-access core of a C++ reader for DBN
market-data files. The reader holds whole files in memory and walks them
as fixed-width packed records. The repository contains two independent
engines with incompatible layouts, and the model keeps them apart.

- **Buffered engine** (`src/parser.cpp`, `include/databento/parser.hpp`,
  `include/databento/dbn.hpp`). A file is a 200-byte metadata prefix
  followed by 48-byte `MboMsg`/`TradeMsg` records.
  - `DbnParser` loads the file and computes the record geometry. A
    trailing partial record is dropped.
  - It offers bounds-checked offsets for one record (`get_record`) or a
    range (`get_batch`), and callback scans (`parse_mbo`, `parse_trade`).
  - `BatchProcessor::process_batches` decodes consecutive groups of at
    most `batch_size` records.
  - Modules: `Dbn` (`dbn.dfy`) holds the record layout and the action and
    side codes. `Parser` (`parser.dfy`) holds `DbnParser`,
    `BatchProcessor` and the batching specification.
- **Header-prefixed engine** (`src/dbn_parser.cpp`,
  `include/databento/dbn_parser.hpp`). A buffer is a plain run of
  58-byte `MBOMsg` records, each starting with a 14-byte `RecordHeader`.
  - `DirectParser` is a cursor, `BatchParser` hands out batches, and
    `CallbackParser` scans the whole buffer.
  - `parse_file_mbo_fast`, `parse_file_mbo_batch` and
    `parse_file_mbo_callback` drain them over a loaded file.
  - Modules: `DbnParserLayout` (`dbn_parser_layout.dfy`) and `DbnParsers`
    (`dbn_parser.dfy`).

Shared foundations:

- `Common` (`common.dfy`) defines the fixed-width integer types, the
  error and option types, and `FileContents`. `FileContents` is what
  opening a file yields: the file cannot be opened, or its bytes.
- `LittleEndian` (`little_endian.dfy`) defines little-endian encoding
  with both round trips, the two's-complement view of `int64_t`, and the
  named readers `read_u16_le` to `read_i64_le`.

Modelling choices:

- **Fields.** Each class keeps the source's mutable fields, and `size_`
  is the length of the buffer. `DbnParser` differs in three ways.
  `data_` becomes the flag `loaded`, which records whether a load has
  completed, next to the buffer `data`. `metadata_offset_` and
  `record_size_` never change, so they are the constants
  `Parser.MetadataOffset` and `Dbn.RecordWidth`. `filepath_` is dropped,
  because the file's contents are an argument of each load.
- **Callbacks.** A callback becomes the returned sequence of values it
  received, in order.
- **Exceptions.** A thrown exception becomes an `Err` result: `IoError`
  for a file that cannot be opened, `OutOfRange` for a rejected index.
- **Pointers.** A pointer into the buffer becomes a byte offset. A record
  read through a pointer becomes the decoded value of the bytes it points
  at.
- **Batch size 0.** The code has no error for `batch_size == 0`. Once
  there is at least one record to batch, it loops forever. The model
  therefore requires a positive batch size whenever there is a record,
  and admits 0 when there is none (see "Left out").

## Model

| member | source | states |
|---|---|---|
| LittleEndian.FromToLE | include/databento/dbn.hpp:97-119 | reading back the n little-endian bytes written for v gives v |
| LittleEndian.ToFromLE | include/databento/dbn.hpp:97-119 | writing back, over the same width, the value read from a byte string gives exactly those bytes |
| LittleEndian.FromLEInjective | include/databento/dbn.hpp:97-119 | two byte strings of one width with the same little-endian value are equal |
| LittleEndian.ToSigned64 | include/databento/dbn.hpp:115-119 | the signed reading of a 64-bit word has that word as its two's-complement bits |
| LittleEndian.FromSigned64 | include/databento/dbn.hpp:115-119 | the unsigned bits of a signed value agree with it modulo 2^64 |
| LittleEndian.SignedRoundTrip | include/databento/dbn.hpp:115-119 | reading the bits of a signed value as signed gives the value back |
| LittleEndian.ReadU16 | include/databento/dbn.hpp:97-101 | `read_u16_le`: the value of the 2 bytes at ptr, least significant first; carries no contract of its own; `ReadU16Bytes` states what it reads |
| LittleEndian.ReadU32 | include/databento/dbn.hpp:103-107 | `read_u32_le`: the value of the 4 bytes at ptr; carries no contract of its own; `ReadU32Bytes` states what it reads |
| LittleEndian.ReadU64 | include/databento/dbn.hpp:109-113 | `read_u64_le`: the value of the 8 bytes at ptr; carries no contract of its own; `ReadU64Bytes` states what it reads |
| LittleEndian.ReadI64 | include/databento/dbn.hpp:115-119 | `read_i64_le`: the 8 bytes at ptr as a two's-complement value; carries no contract of its own; `ReadI64Bytes` states what it reads |
| LittleEndian.ReadU16Bytes | include/databento/dbn.hpp:97-101 | `read_u16_le` reads exactly the 2 bytes at ptr: its value is below 2^16 and written back it is those 2 bytes |
| LittleEndian.ReadU32Bytes | include/databento/dbn.hpp:103-107 | `read_u32_le` reads exactly the 4 bytes at ptr |
| LittleEndian.ReadU64Bytes | include/databento/dbn.hpp:109-113 | `read_u64_le` reads exactly the 8 bytes at ptr |
| LittleEndian.ReadI64Bytes | include/databento/dbn.hpp:115-119 | `read_i64_le` reads exactly the 8 bytes at ptr, as two's complement |
| Dbn.ActionOf | include/databento/dbn.hpp:31-38 | a byte stands for an action only when it is that action's letter |
| Dbn.ActionCodesRoundTrip | include/databento/dbn.hpp:31-38 | the letters A, C, M, R, T, F stand for Add, Cancel, Modify, Clear, Trade, Fill, one each |
| Dbn.SideOf | include/databento/dbn.hpp:41-45 | a byte stands for a side only when it is that side's letter |
| Dbn.SideCodesRoundTrip | include/databento/dbn.hpp:41-45 | the letters A, B, N stand for Ask, Bid, None, one each |
| Dbn.Encode | include/databento/dbn.hpp:55-72 | a packed `MboMsg` is exactly 48 bytes |
| Dbn.MboLayout | include/databento/dbn.hpp:58-72 | the packed field offsets: ts_event 0, instrument_id 8, action 12, side 13, flags 14, depth 15, price 16, size 24, channel_id 28, order_id 32, sequence 40, ts_in_delta 44, reserved 45-47 |
| Dbn.Decode | include/databento/dbn.hpp:125-129 | the `memcpy` of a 48-byte record into an `MboMsg`, each field read at its packed offset; carries no contract of its own; `DecodeLayout` and `EncodeDecode` state what it yields |
| Dbn.DecodeLayout | include/databento/dbn.hpp:125-129 | each field of the copied message is the value of the record's bytes at that field's offset |
| Dbn.EncodeDecode | include/databento/dbn.hpp:125-129 | writing out a decoded record gives back its 48 bytes |
| Dbn.ParseMbo | include/databento/dbn.hpp:125-129 | `parse_mbo`: the decoded 48 bytes at pos; carries no contract of its own; `ParseMboBytes` states that its packed form is exactly those bytes |
| Dbn.ParseTrade | include/databento/dbn.hpp:131-135 | `parse_trade`: the same copy as `parse_mbo`; carries no contract of its own; `ParseMboBytes` states it for both |
| Dbn.ParseMboBytes | include/databento/dbn.hpp:125-135 | `parse_mbo` and `parse_trade` both return the message whose packed bytes are exactly the 48 bytes at pos |
| Dbn.DecodeFields | include/databento/dbn.hpp:58-72 | a record whose field spans hold m's fields decodes to m |
| Dbn.DecodeEncode | examples/standalone_test.cpp:28-44 | round trip: a message written out field by field decodes to identical field values |
| Dbn.EncodeDeterminesParse | include/databento/dbn.hpp:125-129 | whatever message packs to the 48 bytes at pos is the one `parse_mbo` returns there |
| Dbn.HeaderFieldsMatchReaders | include/databento/dbn.hpp:103-113 | a decoded record's ts_event is `read_u64_le(rec)` and its instrument_id is `read_u32_le(rec + 8)` |
| Parser.RecordCount | src/parser.cpp:47-51 | counted records fit (200 + 48 n <= size), one more would not, and a file of at most 200 bytes has none |
| Parser.Records | src/parser.cpp:59-65 | the values the scan hands to the callback: exactly num_records of them (that record i is decoded at offset 200 + 48 i is its definition; `RecordBytes` states its bytes) |
| Parser.RecordBytes | src/parser.cpp:59-65 | scanned record i is the message packed in bytes [200 + 48 i, 248 + 48 i) |
| Parser.DbnParser.constructor | src/parser.cpp:14-21 | a fresh parser holds no data and no records |
| Parser.DbnParser.LoadIntoMemory | src/parser.cpp:27-52 | a file that cannot be opened gives `IoError` and changes nothing; otherwise the buffer becomes the file's bytes with the exact geometry |
| Parser.DbnParser.GetRecord | src/parser.cpp:82-87 | fails with `OutOfRange` exactly when index >= num_records; otherwise returns 200 + 48 index with the whole record inside the buffer |
| Parser.DbnParser.GetBatch | src/parser.cpp:89-94 | fails with `OutOfRange` exactly when start + count > num_records; otherwise returns 200 + 48 start with the whole span inside the buffer |
| Parser.DbnParser.ParseMbo | src/parser.cpp:54-66 | loads first only when nothing is loaded, leaves a loaded parser unchanged, and delivers exactly num_records decoded records in file order |
| Parser.DbnParser.ParseTrade | src/parser.cpp:68-80 | the same as `parse_mbo`, decoding each record as a `TradeMsg` |
| Parser.CountedRecordsFit | src/parser.cpp:48-51 | whenever num_records > 0, 200 + 48 num_records <= size |
| Parser.ScanAgreesWithGetRecord | src/parser.cpp:82-87 | the value scanned for index i is `parse_mbo(get_record(i))` |
| Parser.Batches | include/databento/parser.hpp:78-95 | the batches `process_batches` forms: every batch is non-empty and at most batch_size long; none for an empty sequence |
| Parser.BatchesUnfold | include/databento/parser.hpp:78-79 | the first batch has length min(batch_size, remaining) and the batches of the rest follow |
| Parser.BatchStep | include/databento/parser.hpp:78-83 | the batch starting at i is records [i, i + min(batch_size, total - i)), followed by the batches from i + batch_size |
| Parser.FlattenBatches | include/databento/parser.hpp:78-95 | concatenating all batches gives back the whole record sequence |
| Parser.BatchesShape | include/databento/parser.hpp:78-79 | every batch is non-empty and at most batch_size long, and there are just enough batches to hold every record |
| Parser.BatchAt | include/databento/parser.hpp:78-91 | batch j is records [j k, min((j + 1) k, total)), so its element at position p is record j k + p |
| Parser.DecodeBatch | include/databento/parser.hpp:80-92 | the inner loop produces exactly records [start, start + count) |
| Parser.BatchProcessor.constructor | include/databento/parser.hpp:63-66 | the batch size is the argument, 524288 by default |
| Parser.BatchProcessor.SetBatchSize | include/databento/parser.hpp:98-99 | `batch_size()` afterwards returns the value set |
| Parser.BatchProcessor.BatchAll | include/databento/parser.hpp:75-95 | the batches handed to the callback are exactly the batches of the parser's records, and none when it holds no record (that every `get_batch` call succeeds is proved inside the body, not stated by the contract) |
| Parser.BatchProcessor.ProcessBatches | include/databento/parser.hpp:69-96 | loads first only when nothing is loaded; the result is the batches of the loaded records, or `IoError` |
| Parser.FileImage | examples/standalone_test.cpp:22-44 | a prefix plus n packed messages is |prefix| + 48 n bytes |
| Parser.FileImageSpan | examples/standalone_test.cpp:28-44 | message i of a written file sits at bytes [|prefix| + 48 i, |prefix| + 48 i + 48) |
| Parser.FileImageRoundTrip | examples/standalone_test.cpp:28-44 | behind a 200-byte prefix, a written file has exactly as many records as messages and they decode back to the messages in order |
| Parser.FixtureExpectations | examples/standalone_test.cpp:115-141 | the test file has 10 records: the first has instrument 1234 and size 100, the last 1243 and 190 |
| Parser.FixtureBatches | examples/standalone_test.cpp:159-183 | at batch size 5 the test file gives exactly two batches of five |
| Parser.LoadedCountAsWritten | src/parser.cpp:48-51 | the count `load_into_memory` leaves as written: the exact count for a file longer than 200 bytes, and the previous count otherwise |
| Parser.FreshLoadAsWrittenIsExact | src/parser.cpp:47-51 | on a fresh parser the count as written equals the exact count |
| Parser.StaleCountAfterShorterReload | src/parser.cpp:48-51 | reloading a 248-byte file that has shrunk to 100 bytes leaves one record counted, outside the buffer |
| Parser.GetBatchAsWritten | src/parser.cpp:89-94 | `get_batch` as written, with `size_t` wrap-around: only `OutOfRange` errors; when start + count does not wrap it passes exactly when start + count <= num_records; when 200 + 48 start does not wrap the offset is 200 + 48 start |
| Parser.GetBatchAsWrittenWithoutWrap | src/parser.cpp:89-94 | when start + count does not wrap, the check and the offset as written agree with the exact `get_batch` |
| Parser.WrappedBatchCheckPasses | src/parser.cpp:90-93 | with one record, `get_batch(2^64 - 1, 1)` passes the wrapped check; with the product wrapping too, it returns offset 152, the last 48 bytes of the metadata prefix, which is not the start of any record |
| DbnParserLayout.EncodeHeader | include/databento/dbn_parser.hpp:14-20 | a packed `RecordHeader` is exactly 14 bytes |
| DbnParserLayout.Encode | include/databento/dbn_parser.hpp:22-35 | a packed `MBOMsg` is exactly 58 bytes |
| DbnParserLayout.HeaderPrefix | include/databento/dbn_parser.hpp:22-23 | the header occupies the first 14 bytes of the message |
| DbnParserLayout.MsgLayout | include/databento/dbn_parser.hpp:14-35 | the packed offsets: length 0, rtype 1, publisher_id 2, product_id 4, ts_event 6, order_id 14, price 22, size 30, flags 34, channel_id 35, action 36, side 37, ts_recv 38, ts_in_delta 46, sequence 50, symbol_id 54 |
| DbnParserLayout.DecodeHeader | include/databento/dbn_parser.hpp:14-20 | the `RecordHeader` seen through a pointer to its 14 bytes; carries no contract of its own; `DecodeHeaderLayout` states what it yields |
| DbnParserLayout.DecodeHeaderLayout | include/databento/dbn_parser.hpp:14-20 | each header field seen through the pointer is the value of the bytes at its offset |
| DbnParserLayout.Decode | src/dbn_parser.cpp:18 | the `MBOMsg` seen through `reinterpret_cast` at src/dbn_parser.cpp lines 18, 43 and 69, each field read at its packed offset; carries no contract of its own; `DecodeLayout` and `EncodeDecode` state what it yields |
| DbnParserLayout.DecodeLayout | include/databento/dbn_parser.hpp:22-35 | each message field seen through the pointer is the value of the bytes at its offset |
| DbnParserLayout.DecodeBodyLayout | include/databento/dbn_parser.hpp:24-34 | the order fields after the header are the values of their byte spans |
| DbnParserLayout.EncodeDecode | src/dbn_parser.cpp:18 | writing out the message a pointer shows gives back the 58 bytes it points at |
| DbnParserLayout.DecodeHeaderFields | include/databento/dbn_parser.hpp:14-20 | bytes whose header spans hold h's fields show h as their header |
| DbnParserLayout.DecodeFields | include/databento/dbn_parser.hpp:22-35 | a record whose field spans hold m's fields decodes to m |
| DbnParserLayout.DecodeEncode | tests/test_parser.cpp:10-34 | round trip: a message written field by field reads back with identical fields |
| DbnParserLayout.EncodeDeterminesDecode | include/databento/dbn_parser.hpp:22-35 | whatever message packs to a record is the one a pointer to it shows |
| DbnParsers.WholeRecords | src/dbn_parser.cpp:25-27 | n whole records fit in the buffer and n + 1 do not: 58 n <= size < 58 (n + 1) |
| DbnParsers.AllRecords | src/dbn_parser.cpp:65-74 | the buffer holds exactly size / 58 records |
| DbnParsers.RecordAt | src/dbn_parser.cpp:18-19 | the record at offset 58 i, as the cursor reads it; carries no contract of its own; `AllRecordsBytes` states its bytes |
| DbnParsers.AllRecordsBytes | src/dbn_parser.cpp:18-19 | record i is the message packed in bytes [58 i, 58 i + 58) |
| DbnParsers.DirectParser.constructor | src/dbn_parser.cpp:9-11 | the cursor starts at offset 0 with no records parsed |
| DbnParsers.DirectParser.HasNext | src/dbn_parser.cpp:25-27 | true exactly when fewer than size / 58 records have been returned |
| DbnParsers.DirectParser.Next | src/dbn_parser.cpp:13-23 | when exhausted: null and no change; otherwise the record at the cursor, with offset + 58 and count + 1; offset == 58 count <= size is kept |
| DbnParsers.BatchParser.constructor | include/databento/dbn_parser.hpp:58 | the cursor starts at 0; the batch size is the argument, 10000 by default |
| DbnParsers.BatchParser.HasNext | src/dbn_parser.cpp:52-54 | true exactly when fewer than size / 58 records have been returned |
| DbnParsers.BatchParser.NextBatch | src/dbn_parser.cpp:38-50 | the next min(batch_size, remaining) records in buffer order, with the cursor moved past exactly those; empty when exhausted |
| DbnParsers.CallbackParser.constructor | src/dbn_parser.cpp:61-63 | no records parsed yet |
| DbnParsers.CallbackParser.ParseAll | src/dbn_parser.cpp:65-74 | every whole record, in buffer order from offset 0, and records_count grows by size / 58 on each call, never reset |
| DbnParsers.LoadFile | src/dbn_parser.cpp:81-96 | the file's bytes, or `IoError` exactly when the file cannot be opened or read (`Unopenable` stands for both failures, since `load_file` changes nothing before it throws) |
| DbnParsers.ParseFileMboFast | src/dbn_parser.cpp:99-111 | draining a `DirectParser` collects exactly the file's whole records in order, or fails with `IoError` |
| DbnParsers.ParseFileMboBatch | src/dbn_parser.cpp:113-126 | concatenating all batches gives exactly the file's whole records, the same vector as `parse_file_mbo_fast` |
| DbnParsers.ParseFileMboCallback | src/dbn_parser.cpp:128-132 | the callback receives exactly the file's whole records in order, or the call fails with `IoError` |
| DbnParsers.DrainIndependently | tests/test_parser.cpp:299-313 | two cursors over separate buffers each return exactly the whole records of their own buffer |
| DbnParsers.Image | tests/test_parser.cpp:10-12 | n packed messages take exactly 58 n bytes |
| DbnParsers.ImageSpan | tests/test_parser.cpp:10-34 | message i of a written buffer sits at bytes [58 i, 58 i + 58) |
| DbnParsers.ImageRoundTrip | tests/test_parser.cpp:10-34 | a buffer of packed messages holds exactly those records, in order |
| DbnParsers.TestDataRecords | tests/test_parser.cpp:84-98 | `create_test_data(n)` is 58 n bytes with n records; record i has rtype 160, order id i + 1, price 1000000 + 100 i, size 100 + i and symbol 1234 |

## Left out

- Parser.BatchProcessor.ProcessBatches: requires a positive batch size when there is at least one record after the load. With `batch_size == 0` and a record, the source's `i += batch_size_` never advances and the loop does not end. With no record the loop is never entered, and the model admits batch size 0.
- Parser.BatchProcessor.BatchAll: requires a positive batch size when the parser holds at least one record, for the same reason.
- DbnParsers.ParseFileMboBatch: requires a positive batch size when the file holds at least one whole record. With 0 and a record, `next_batch` returns an empty batch while `has_next()` stays true, so the loop does not end. With no whole record it returns at once, and with a file that cannot be opened it throws at once; in both cases the model admits batch size 0. The allocation in `next_batch` is not modelled either (see the `DbnParsers.BatchParser.NextBatch` line below).
- DbnParsers.BatchParser.NextBatch: the allocation in `batch.reserve(batch_size_)` is not modelled. The source reserves the full batch size on every call, even when fewer records remain or the buffer is empty. Above `std::vector<MBOMsg>::max_size()`, `reserve` throws `std::length_error`, and a size too large to allocate throws `std::bad_alloc`. For example, `next_batch` on a `BatchParser` with batch size `SIZE_MAX` throws, while the model returns the remaining records.
- DbnParsers.ParseFileMboBatch: for the same reason, a batch size that `reserve` rejects, such as `SIZE_MAX`, makes the source throw for every file holding a whole record, while the model returns `Ok` with all the records.
- Parser.DbnParser.LoadIntoMemory: only a file that cannot be opened is modelled as failing. A read that fails after opening is not modelled. The source has already resized the buffer and set `size_` at that point before it throws.
- Parser.DbnParser.LoadIntoMemory: treats every successful load as loaded. For an empty file, `buffer_.data()` may be null, and the source would then load again on the next scan.
- File I/O itself (`std::ifstream` open, seek and read) is not modelled. The bytes a file yields are a `FileContents` parameter. The parser's file path therefore moves from the constructor to each load.
- Host byte order: the `memcpy` readers and the packed copies use the host's byte order. The model assumes a little-endian host, as the readers' names say.
- Pointers are byte offsets. Zero-copy aliasing is not modelled: a record read through `get_record`, `get_batch` or `DirectParser::next` is the decoded value of the bytes pointed at.
- Callbacks are the returned sequence of values they received. Side effects of a callback, including an exception that ends a scan early with `records_count_` partly advanced, are not modelled.
- `size_t` arithmetic is unbounded except in the as-written `get_batch`, where the wrap-around of both the sum and the offset is the second finding. Offsets never exceed max(200, size), and the source's sizes, as `size_t` values, are below 2^64. The buffered engine's buffer type bounds its size, while the header-prefixed cursors take an unbounded byte sequence.
- `process_batches<TradeMsg>` uses the same 48-byte copy as the `MboMsg` case. `TradeMsg` is the same datatype as `MboMsg`, since the source declares them field for field alike.
- The accessors `data()`, `size()`, `num_records()`, `record_size()`, `metadata_offset()`, `batch_size()` and `records_parsed()` only read state. `record_size()` and `metadata_offset()` are the constants `Dbn.RecordWidth` and `Parser.MetadataOffset`, and `data()` is the flag `loaded` with the buffer. The others are fields of the classes.
- `MboMsg` and `TradeMsg` declare `action` and `side` as `char`, which is signed on common targets. The model stores their unsigned bit pattern as a byte. This matters only for bytes of 0x80 and above, and the core compares these fields only with the ASCII letters of `Action` and `Side`.
- The `RType` enumeration and the `F_LAST`/`F_TOB` flag constants are not used by any modelled operation.
- `price_to_double` and `double_to_price` are not modelled: they are floating-point code.
- `ParseStats` and the `parse_file_mbo`/`parse_file_trade` timing wrappers are not modelled: they use clocks and floating point.
- `load_with_mmap` is not modelled: it is operating-system mapping code and is not defined in any of the sources.
- `ParallelLoader` is not modelled: it is thread-based.
- The Python bindings and scripts, the benchmarks and the example programs are not modelled: they are outside the core.

## Findings

| source | as written | input that shows it | evidently intended | confidence | as-written member | corrected member |
|---|---|---|---|---|---|---|
| src/parser.cpp:48-51 | `num_records_` is assigned only when `size_ > 200`, so a reload of a file of at most 200 bytes keeps the previous count | load a 248-byte file (1 record), then load again after the file has shrunk to 100 bytes: `num_records()` stays 1, and record 0's span [200, 248) lies outside the 100-byte buffer | the count is 0 whenever the file is at most 200 bytes | not executed | Parser.StaleCountAfterShorterReload | Parser.DbnParser.LoadIntoMemory |
| src/parser.cpp:90 | `start_index + count` is a `size_t` sum and wraps before it is compared with `num_records_` | one record, `get_batch(2^64 - 1, 1)`: the sum wraps to 0 and the check passes; `200 + (2^64 - 1) * 48` wraps to 152, so the pointer returned is `data_ + 152`, inside the metadata prefix and 48 bytes before record 0 | reject every range that does not lie within the records | not executed | Parser.WrappedBatchCheckPasses | Parser.DbnParser.GetBatch |
