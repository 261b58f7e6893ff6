/** The buffered engine: `DbnParser` (record geometry, bounds-checked
    offset access, the callback scans) and `BatchProcessor`. */
module Parser {
  import opened Common
  import Dbn

  /** Length of the opaque metadata prefix in front of the records. */
  const MetadataOffset: nat := 200
  /** `BatchProcessor::DEFAULT_BATCH_SIZE` (512K records). */
  const DefaultBatchSize: u64 := 524288

  /** Number of whole records in a buffer of `size` bytes; a trailing
      partial record is not counted. */
  function RecordCount(size: nat): (n: nat)
    ensures n == 0 || RecordOffset(n) <= size
    ensures size <= MetadataOffset || size < RecordOffset(n + 1)
    ensures size <= MetadataOffset ==> n == 0
  {
    if size > MetadataOffset then (size - MetadataOffset) / Dbn.RecordWidth else 0
  }

  /** Byte offset of record i. */
  function RecordOffset(i: nat): nat
  {
    MetadataOffset + Dbn.RecordWidth * i
  }

  /** The first n records of a buffer, decoded in file order. */
  function Records(data: seq<byte>, n: nat): (rs: seq<Dbn.MboMsg>)
    requires n == 0 || RecordOffset(n) <= |data|
    ensures |rs| == n
  {
    seq(n, i requires 0 <= i < n => Dbn.ParseMbo(data, RecordOffset(i)))
  }

  /** Record i of the sequence is the message whose packed bytes are the
      span [200 + 48 i, 248 + 48 i) of the buffer. */
  lemma RecordBytes(data: seq<byte>, n: nat, i: nat)
    requires n == 0 || RecordOffset(n) <= |data|
    requires i < n
    ensures Dbn.Encode(Records(data, n)[i]) == data[RecordOffset(i)..RecordOffset(i) + Dbn.RecordWidth]
  {
    Dbn.ParseMboBytes(data, RecordOffset(i));
  }

  /** `DbnParser`: a file loaded into an owned buffer plus its geometry. */
  class DbnParser {
    /** `data_ != nullptr`: a load has completed. */
    var loaded: bool
    /** `buffer_`: the file's bytes. */
    var data: Buffer
    /** `size_` */
    var size: nat
    /** `num_records_` */
    var numRecords: nat

    ghost predicate Valid()
      reads this
    {
      && size == |data|
      && numRecords == RecordCount(size)
      && (!loaded ==> data == [])
    }

    /** A fresh parser holds no data and no records. */
    constructor ()
      ensures Valid() && !loaded && size == 0 && numRecords == 0
    {
      loaded := false;
      data := [];
      size := 0;
      numRecords := 0;
    }

    /** `load_into_memory`: replaces the buffer with the file's bytes and
        recomputes the geometry. */
    method LoadIntoMemory(file: FileContents) returns (o: Outcome)
      requires Valid()
      modifies this
      ensures Valid()
      ensures file.Unopenable? ==> o == Fail(IoError) && unchanged(this)
      ensures file.Contents? ==> o == Pass && loaded && data == file.bytes
    {
      if file.Unopenable? {
        return Fail(IoError);
      }
      size := |file.bytes|;
      data := file.bytes;
      loaded := true;
      numRecords := if size > MetadataOffset then (size - MetadataOffset) / Dbn.RecordWidth else 0;
      return Pass;
    }

    /** `get_record`: the offset of record `index`, or `out_of_range`. */
    function GetRecord(index: u64): (r: Result<nat>)
      reads this
      requires Valid()
      ensures r.Ok? <==> index < numRecords
      ensures r.Err? ==> r.error == OutOfRange
      ensures r.Ok? ==> r.value == RecordOffset(index) && r.value + Dbn.RecordWidth <= |data|
    {
      if index >= numRecords then Err(OutOfRange)
      else Ok(MetadataOffset + index * Dbn.RecordWidth)
    }

    /** `get_batch`: the offset of record `start` when the whole range
        [start, start + count) holds records, or `out_of_range`. */
    function GetBatch(start: u64, count: u64): (r: Result<nat>)
      reads this
      requires Valid()
      ensures r.Ok? <==> start + count <= numRecords
      ensures r.Err? ==> r.error == OutOfRange
      ensures r.Ok? ==> r.value == RecordOffset(start)
      ensures r.Ok? && count > 0 ==> RecordOffset(start + count) <= |data|
    {
      if start + count > numRecords then Err(OutOfRange)
      else Ok(MetadataOffset + start * Dbn.RecordWidth)
    }

    /** `parse_mbo`: loads first when nothing is loaded, then hands every
        record, in file order, to the callback; the result is the
        sequence of values the callback received. */
    method ParseMbo(file: FileContents) returns (r: Result<seq<Dbn.MboMsg>>)
      requires Valid()
      modifies this
      ensures Valid()
      ensures old(loaded) ==> unchanged(this)
      ensures !old(loaded) && file.Unopenable? ==> r == Err(IoError) && unchanged(this)
      ensures !old(loaded) && file.Contents? ==> loaded && data == file.bytes
      ensures r.Err? <==> !old(loaded) && file.Unopenable?
      ensures r.Ok? ==> r.value == Records(data, numRecords)
    {
      if !loaded {
        var o := LoadIntoMemory(file);
        if o.Fail? {
          return Err(o.error);
        }
      }
      var delivered: seq<Dbn.MboMsg> := [];
      var buf, n := data, numRecords;
      assert n == 0 || RecordOffset(n) <= |buf|;
      var ptr := MetadataOffset;
      for i := 0 to n
        invariant ptr == RecordOffset(i)
        invariant delivered == Records(buf, n)[..i]
      {
        var msg := Dbn.ParseMbo(buf, ptr);
        assert Records(buf, n)[..i + 1] == Records(buf, n)[..i] + [msg];
        delivered := delivered + [msg];
        ptr := ptr + Dbn.RecordWidth;
      }
      return Ok(delivered);
    }

    /** `parse_trade`: the same scan, decoding each record as a `TradeMsg`. */
    method ParseTrade(file: FileContents) returns (r: Result<seq<Dbn.TradeMsg>>)
      requires Valid()
      modifies this
      ensures Valid()
      ensures old(loaded) ==> unchanged(this)
      ensures !old(loaded) && file.Unopenable? ==> r == Err(IoError) && unchanged(this)
      ensures !old(loaded) && file.Contents? ==> loaded && data == file.bytes
      ensures r.Err? <==> !old(loaded) && file.Unopenable?
      ensures r.Ok? ==> r.value == Records(data, numRecords)
    {
      if !loaded {
        var o := LoadIntoMemory(file);
        if o.Fail? {
          return Err(o.error);
        }
      }
      var delivered: seq<Dbn.TradeMsg> := [];
      var buf, n := data, numRecords;
      assert n == 0 || RecordOffset(n) <= |buf|;
      var ptr := MetadataOffset;
      for i := 0 to n
        invariant ptr == RecordOffset(i)
        invariant delivered == Records(buf, n)[..i]
      {
        var msg := Dbn.ParseTrade(buf, ptr);
        assert Records(buf, n)[..i + 1] == Records(buf, n)[..i] + [msg];
        delivered := delivered + [msg];
        ptr := ptr + Dbn.RecordWidth;
      }
      return Ok(delivered);
    }
  }

  /** Every counted record lies wholly inside the buffer. */
  lemma CountedRecordsFit(p: DbnParser)
    requires p.Valid() && p.numRecords > 0
    ensures MetadataOffset + Dbn.RecordWidth * p.numRecords <= p.size
  {
  }

  /** Callback access and direct access agree: the value the scan
      delivers for index i is the decode of the span `get_record(i)`
      points at. */
  lemma ScanAgreesWithGetRecord(p: DbnParser, i: u64)
    requires p.Valid() && i < p.numRecords
    ensures p.GetRecord(i).Ok?
    ensures Records(p.data, p.numRecords)[i] == Dbn.ParseMbo(p.data, p.GetRecord(i).value)
  {
  }

  // ---------------------------------------------------------------------
  // Batches
  // ---------------------------------------------------------------------

  /** Consecutive groups of at most k elements, all full but the last;
      none of them is empty. */
  function Batches<T>(s: seq<T>, k: nat): (bs: seq<seq<T>>)
    requires k > 0 || |s| == 0
    ensures |s| == 0 ==> bs == []
    ensures forall j :: 0 <= j < |bs| ==> 0 < |bs[j]| <= k
    decreases |s|
  {
    if |s| == 0 then []
    else if |s| <= k then [s]
    else [s[..k]] + Batches(s[k..], k)
  }

  /** Concatenation of a sequence of batches. */
  function Flatten<T>(bs: seq<seq<T>>): seq<T>
  {
    if bs == [] then [] else bs[0] + Flatten(bs[1..])
  }

  /** One step of the batch loop: the batch at the front of a non-empty
      remainder has length min(k, remainder) and is followed by the
      batches of what is left. */
  lemma BatchesUnfold<T>(s: seq<T>, k: nat)
    requires k > 0 && |s| > 0
    ensures Batches(s, k) == [s[..Min(k, |s|)]] + Batches(s[Min(k, |s|)..], k)
  {
    if |s| <= k {
      assert s[..|s|] == s;
      assert s[|s|..] == [];
    }
  }

  /** The batch loop's step at position i of the whole sequence. */
  lemma BatchStep<T>(s: seq<T>, k: nat, i: nat)
    requires k > 0 && i < |s|
    ensures Batches(s[i..], k) == [s[i..i + Min(k, |s| - i)]] + Batches(s[Min(i + k, |s|)..], k)
  {
    BatchesUnfold(s[i..], k);
    assert s[i..][..Min(k, |s| - i)] == s[i..i + Min(k, |s| - i)];
    assert s[i..][Min(k, |s| - i)..] == s[Min(i + k, |s|)..];
  }

  /** Concatenating the batches gives back the sequence. */
  lemma {:induction false} FlattenBatches<T>(s: seq<T>, k: nat)
    requires k > 0
    ensures Flatten(Batches(s, k)) == s
    decreases |s|
  {
    if |s| == 0 {
    } else if |s| <= k {
      assert Flatten([s]) == s + Flatten([]);
    } else {
      FlattenBatches(s[k..], k);
      var bs := Batches(s, k);
      assert bs[1..] == Batches(s[k..], k);
      assert s[..k] + s[k..] == s;
    }
  }

  /** There are ceil(|s| / k) batches: the last batch starts before |s|
      and k batches' worth of room covers all of s. */
  lemma {:induction false} BatchesShape<T>(s: seq<T>, k: nat)
    requires k > 0
    ensures (|Batches(s, k)| - 1) * k < |s| <= |Batches(s, k)| * k
    decreases |s|
  {
    if |s| > k {
      BatchesShape(s[k..], k);
      var n := |Batches(s[k..], k)|;
      assert |Batches(s, k)| == n + 1;
      assert (n + 1) * k == n * k + k;
      assert ((n + 1) - 1) * k == (n - 1) * k + k;
    }
  }

  /** Batch j starts at j * k and ends at min((j + 1) * k, |s|). */
  lemma {:induction false} BatchAt<T>(s: seq<T>, k: nat, j: nat)
    requires k > 0 && j < |Batches(s, k)|
    ensures j * k < |s|
    ensures Batches(s, k)[j] == s[j * k..Min((j + 1) * k, |s|)]
    decreases |s|
  {
    if |s| <= k {
      assert j == 0;
    } else {
      BatchesUnfold(s, k);
      if j > 0 {
        var t := s[k..];
        BatchAt(t, k, j - 1);
        NextMultiple(j - 1, k);
        NextMultiple(j, k);
        var lo, hi := (j - 1) * k, Min(j * k, |t|);
        assert k + hi == Min((j + 1) * k, |s|);
        SliceOfSuffix(s, k, lo, hi);
      }
    }
  }

  lemma SliceOfSuffix<T>(s: seq<T>, k: nat, lo: nat, hi: nat)
    requires k <= |s| && lo <= hi <= |s| - k
    ensures s[k..][lo..hi] == s[k + lo..k + hi]
  {
  }

  lemma NextMultiple(j: nat, k: nat)
    ensures j * k + k == (j + 1) * k
  {
  }

  /** The inner loop of `process_batches`: decodes the `count` records
      that follow byte offset `batchData` (the start of record `start`)
      into a fresh vector, which is that slice of the file's records. */
  method DecodeBatch(data: seq<byte>, batchData: nat, count: nat, ghost start: nat, ghost total: nat)
    returns (batch: seq<Dbn.MboMsg>)
    requires total == 0 || RecordOffset(total) <= |data|
    requires batchData == RecordOffset(start) && start + count <= total
    ensures batch == Records(data, total)[start..start + count]
  {
    batch := [];
    for j := 0 to count
      invariant batch == Records(data, total)[start..start + j]
    {
      var record := batchData + j * Dbn.RecordWidth;
      var msg := Dbn.ParseMbo(data, record);
      assert Records(data, total)[start..start + j + 1] == Records(data, total)[start..start + j] + [msg];
      batch := batch + [msg];
    }
  }

  /** There is no record to batch once `process_batches` has loaded: a
      loaded parser holds none, or an unloaded one is given a file that
      cannot be opened (the load throws first) or holds no whole record. */
  predicate NoRecordsAfterLoad(loaded: bool, numRecords: nat, file: FileContents)
  {
    if loaded then numRecords == 0
    else file.Unopenable? || RecordCount(|file.bytes|) == 0
  }

  /** `BatchProcessor`: groups the records of a `DbnParser` into batches. */
  class BatchProcessor {
    /** `batch_size_` */
    var batchSize: u64

    constructor (batchSize: u64 := DefaultBatchSize)
      ensures this.batchSize == batchSize
    {
      this.batchSize := batchSize;
    }

    /** `set_batch_size`: `batch_size()` then returns the new size. */
    method SetBatchSize(size: u64)
      modifies this
      ensures batchSize == size
    {
      batchSize := size;
    }

    /** The batching loop of `process_batches` over a parser's current
        records: records [i, i + min(batch_size, total - i)) for
        i = 0, batch_size, 2 * batch_size, ... become one batch each. */
    method BatchAll(parser: DbnParser) returns (batches: seq<seq<Dbn.MboMsg>>)
      requires parser.Valid()
      requires batchSize > 0 || parser.numRecords == 0
      ensures batches == Batches(Records(parser.data, parser.numRecords), batchSize)
    {
      var data, total := parser.data, parser.numRecords;
      ghost var records := Records(data, total);
      assert total <= |data| && |records| == total;
      batches := [];
      var i: nat := 0;
      while i < total
        invariant batches + Batches(records[Min(i, total)..], batchSize) == Batches(records, batchSize)
        decreases total - i
      {
        var count := Min(batchSize, total - i);
        var span := parser.GetBatch(i, count);
        assert span.Ok?;  // the range [i, i + count) always holds records
        var batch := DecodeBatch(data, span.value, count, i, total);
        BatchStep(records, batchSize, i);
        ghost var rest := Batches(records[Min(i + batchSize, total)..], batchSize);
        assert Batches(records[i..], batchSize) == [batch] + rest;
        assert (batches + [batch]) + rest == batches + Batches(records[i..], batchSize);
        batches := batches + [batch];
        i := i + batchSize;
      }
      assert records[total..] == [];
    }

    /** `process_batches`: loads the parser first when it holds no data,
        then decodes records [i, i + min(batch_size, total - i)) for
        i = 0, batch_size, 2 * batch_size, ... into fresh batches and hands
        each to the callback; the result is the sequence of batches the
        callback received. */
    method ProcessBatches(parser: DbnParser, file: FileContents)
      returns (r: Result<seq<seq<Dbn.MboMsg>>>)
      requires parser.Valid()
      requires batchSize > 0 || NoRecordsAfterLoad(parser.loaded, parser.numRecords, file)
      modifies parser
      ensures parser.Valid()
      ensures old(parser.loaded) ==> unchanged(parser)
      ensures !old(parser.loaded) && file.Unopenable? ==> r == Err(IoError) && unchanged(parser)
      ensures !old(parser.loaded) && file.Contents? ==> parser.loaded && parser.data == file.bytes
      ensures r.Err? <==> !old(parser.loaded) && file.Unopenable?
      ensures r.Ok? ==> r.value == Batches(Records(parser.data, parser.numRecords), batchSize)
    {
      if !parser.loaded {
        var o := parser.LoadIntoMemory(file);
        if o.Fail? {
          return Err(o.error);
        }
      }
      var batches := BatchAll(parser);
      return Ok(batches);
    }
  }

  // ---------------------------------------------------------------------
  // Files written field by field, as the standalone test writes them
  // ---------------------------------------------------------------------

  /** The bytes of a file made of a prefix followed by the packed messages. */
  function FileImage(prefix: seq<byte>, msgs: seq<Dbn.MboMsg>): (f: seq<byte>)
    ensures |f| == |prefix| + Dbn.RecordWidth * |msgs|
    decreases |msgs|
  {
    if msgs == [] then prefix
    else FileImage(prefix, msgs[..|msgs| - 1]) + Dbn.Encode(msgs[|msgs| - 1])
  }

  /** Record i of a written file sits at offset |prefix| + 48 i. */
  lemma {:induction false} FileImageSpan(prefix: seq<byte>, msgs: seq<Dbn.MboMsg>, i: nat)
    requires i < |msgs|
    ensures FileImage(prefix, msgs)[|prefix| + Dbn.RecordWidth * i..|prefix| + Dbn.RecordWidth * i + Dbn.RecordWidth]
      == Dbn.Encode(msgs[i])
    decreases |msgs|
  {
    var init := msgs[..|msgs| - 1];
    var lo := |prefix| + Dbn.RecordWidth * i;
    if i < |msgs| - 1 {
      FileImageSpan(prefix, init, i);
      assert FileImage(prefix, init)[lo..lo + Dbn.RecordWidth] == Dbn.Encode(init[i]);
    } else {
      assert |FileImage(prefix, init)| == lo;
    }
  }

  /** Round trip at file level: behind a 200-byte prefix, a file of
      packed messages has exactly that many records, and they decode back
      to the messages in order. */
  lemma FileImageRoundTrip(prefix: seq<byte>, msgs: seq<Dbn.MboMsg>)
    requires |prefix| == MetadataOffset
    ensures RecordCount(|FileImage(prefix, msgs)|) == |msgs|
    ensures Records(FileImage(prefix, msgs), |msgs|) == msgs
  {
    var f := FileImage(prefix, msgs);
    assert (|f| - MetadataOffset) / Dbn.RecordWidth == |msgs|;
    forall i | 0 <= i < |msgs|
      ensures Records(f, |msgs|)[i] == msgs[i]
    {
      FileImageSpan(prefix, msgs, i);
      Dbn.EncodeDeterminesParse(f, RecordOffset(i), msgs[i]);
    }
  }

  /** Message i of the standalone test's fixture. */
  function FixtureMsg(i: nat): Dbn.MboMsg
    requires i < 10
  {
    Dbn.MboMsg(
      tsEvent := 1000000000 + i * 1000,
      instrumentId := 1234 + i,
      action := 'A' as int,
      side := if i % 2 == 0 then 'B' as int else 'A' as int,
      flags := 0, depth := 0,
      price := 5000000000000 + i * 1000000000,
      size := 100 + i * 10,
      channelId := 1,
      orderId := 10000 + i,
      sequence := i,
      tsInDelta := 0,
      reserved := [0, 0, 0])
  }

  /** The fixture file: a 200-byte prefix whose first byte is the version
      1, then ten packed messages. */
  function FixtureFile(): seq<byte>
  {
    FileImage([1] + seq(199, _ => 0), seq(10, i requires 0 <= i < 10 => FixtureMsg(i)))
  }

  /** The standalone test's expectations of the fixture: ten records, the
      first with instrument 1234 and size 100, the last with 1243 and 190. */
  lemma FixtureExpectations()
    ensures RecordCount(|FixtureFile()|) == 10
    ensures var rs := Records(FixtureFile(), 10);
      && rs[0].instrumentId == 1234 && rs[0].size == 100
      && rs[9].instrumentId == 1243 && rs[9].size == 190
  {
    FileImageRoundTrip([1] + seq(199, _ => 0), seq(10, i requires 0 <= i < 10 => FixtureMsg(i)));
  }

  /** The standalone test's batch expectation: at batch size 5 the
      fixture's ten records form two batches of five. */
  lemma FixtureBatches()
    ensures var rs := Records(FixtureFile(), 10);
      |Batches(rs, 5)| == 2 && |Batches(rs, 5)[0]| == 5 && |Batches(rs, 5)[1]| == 5
  {
    var rs := Records(FixtureFile(), 10);
    assert Batches(rs, 5) == [rs[..5]] + Batches(rs[5..], 5);
  }

  // ---------------------------------------------------------------------
  // Findings
  // ---------------------------------------------------------------------

  /** The record count `load_into_memory` leaves behind, as written: the
      count is only assigned when the file is longer than the prefix, so a
      shorter file keeps the previous count. */
  function LoadedCountAsWritten(previous: nat, size: nat): (c: nat)
    ensures size > MetadataOffset ==> c == RecordCount(size)
    ensures size <= MetadataOffset ==> c == previous
  {
    if size > MetadataOffset then (size - MetadataOffset) / Dbn.RecordWidth else previous
  }

  /** On a fresh parser (previous count 0) the code as written computes
      the geometry correctly. */
  lemma FreshLoadAsWrittenIsExact(size: nat)
    ensures LoadedCountAsWritten(0, size) == RecordCount(size)
  {
  }

  /** Loading a 248-byte file (one record) and then, after the file has
      shrunk to 100 bytes, loading again leaves one record counted: its
      span [200, 248) lies outside the 100-byte buffer. */
  lemma StaleCountAfterShorterReload()
    ensures var n := LoadedCountAsWritten(RecordCount(248), 100);
      n == 1 && RecordOffset(n) > 100 && RecordCount(100) == 0
  {
  }

  /** `get_batch` as written: `start + count` is a `size_t` sum and wraps
      modulo 2^64 before it is compared, and the returned pointer's
      distance from `data_`, `200 + start * 48`, wraps likewise. */
  function GetBatchAsWritten(numRecords: nat, start: u64, count: u64): (r: Result<nat>)
    ensures r.Err? ==> r.error == OutOfRange
    ensures start + count < 0x1_0000_0000_0000_0000 ==> (r.Ok? <==> start + count <= numRecords)
    ensures r.Ok? && RecordOffset(start) < 0x1_0000_0000_0000_0000 ==> r.value == RecordOffset(start)
  {
    if (start + count) % 0x1_0000_0000_0000_0000 > numRecords then Err(OutOfRange)
    else Ok((MetadataOffset + (start * Dbn.RecordWidth) % 0x1_0000_0000_0000_0000) % 0x1_0000_0000_0000_0000)
  }

  /** Without wrap-around of the sum the code as written agrees with the
      exact check, offset included. */
  lemma GetBatchAsWrittenWithoutWrap(p: DbnParser, start: u64, count: u64)
    requires p.Valid() && start + count < 0x1_0000_0000_0000_0000
    ensures GetBatchAsWritten(p.numRecords, start, count) == p.GetBatch(start, count)
  {
    if start + count <= p.numRecords && p.numRecords > 0 {
      assert RecordOffset(start) <= RecordOffset(p.numRecords) <= p.size;
    }
  }

  /** With one record, `get_batch(2^64 - 1, 1)` passes the wrapped check
      (the sum is 0) and, the product wrapping too, returns offset 152:
      the last 48 bytes of the metadata prefix, in front of record 0 and
      not the start of any record, while the exact check refuses it. */
  lemma WrappedBatchCheckPasses(p: DbnParser)
    requires p.Valid() && p.numRecords == 1
    ensures GetBatchAsWritten(1, 0xFFFF_FFFF_FFFF_FFFF, 1) == Ok(152)
    ensures 152 + Dbn.RecordWidth == MetadataOffset <= p.size
    ensures forall i: nat :: RecordOffset(i) != 152
    ensures p.GetBatch(0xFFFF_FFFF_FFFF_FFFF, 1) == Err(OutOfRange)
  {
  }
}
