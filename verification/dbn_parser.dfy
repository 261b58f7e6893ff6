/** The header-prefixed engine: three ways of walking a raw buffer of
    packed 58-byte `MBOMsg` records from its first byte (a cursor, a
    batcher and a callback scan), and the file-level helpers built on
    them. */
module DbnParsers {
  import opened Common
  import opened DbnParserLayout

  /** Default `batch_size` of `BatchParser` and `parse_file_mbo_batch`. */
  const DefaultBatchSize: u64 := 10000

  /** The number of whole 58-byte records in a buffer of `size` bytes. */
  function WholeRecords(size: nat): (n: nat)
    ensures MsgWidth * n <= size < MsgWidth * (n + 1)
  {
    size / MsgWidth
  }

  /** Record i of a buffer: the message at byte offset 58 i. */
  function RecordAt(data: seq<byte>, i: nat): MBOMsg
    requires i < WholeRecords(|data|)
  {
    Decode(data[MsgWidth * i..MsgWidth * i + MsgWidth])
  }

  /** The whole records of a buffer, in buffer order; a trailing partial
      record is not among them. */
  function AllRecords(data: seq<byte>): (rs: seq<MBOMsg>)
    ensures |rs| == WholeRecords(|data|)
  {
    seq(WholeRecords(|data|), i requires 0 <= i < WholeRecords(|data|) => RecordAt(data, i))
  }

  /** Record i is the message whose packed bytes are the span
      [58 i, 58 i + 58) of the buffer. */
  lemma AllRecordsBytes(data: seq<byte>, i: nat)
    requires i < WholeRecords(|data|)
    ensures Encode(AllRecords(data)[i]) == data[MsgWidth * i..MsgWidth * i + MsgWidth]
  {
    EncodeDecode(data[MsgWidth * i..MsgWidth * i + MsgWidth]);
  }

  /** `DirectParser`: a cursor over the records of a buffer. */
  class DirectParser {
    /** `data_`, `size_` */
    const data: seq<byte>
    /** `offset_` */
    var offset: nat
    /** `records_count_` */
    var recordsCount: nat

    /** The cursor stands at a record boundary inside the buffer, after
        the records it has returned. */
    ghost predicate Valid()
      reads this
    {
      offset == MsgWidth * recordsCount && offset <= |data|
    }

    constructor (data: seq<byte>)
      ensures Valid() && this.data == data && recordsCount == 0
    {
      this.data := data;
      offset := 0;
      recordsCount := 0;
    }

    /** `has_next`: a whole record is left after the cursor. */
    function HasNext(): (b: bool)
      reads this
      requires Valid()
      ensures b <==> recordsCount < WholeRecords(|data|)
    {
      offset + MsgWidth <= |data|
    }

    /** `next`: the record at the cursor, after which the cursor moves one
        record on; nothing (the null pointer) and no change once the
        buffer is exhausted. */
    method Next() returns (r: Option<MBOMsg>)
      requires Valid()
      modifies this
      ensures Valid()
      ensures old(recordsCount) < WholeRecords(|data|) ==>
        r == Some(AllRecords(data)[old(recordsCount)]) && recordsCount == old(recordsCount) + 1
      ensures old(recordsCount) >= WholeRecords(|data|) ==> r == None && unchanged(this)
    {
      if !HasNext() {
        return None;
      }
      var msg := Decode(data[offset..offset + MsgWidth]);
      offset := offset + MsgWidth;
      recordsCount := recordsCount + 1;
      return Some(msg);
    }
  }

  /** `BatchParser`: a cursor that hands out up to `batch_size` records
      at a time. */
  class BatchParser {
    /** `data_`, `size_` */
    const data: seq<byte>
    /** `batch_size_` */
    const batchSize: u64
    /** `offset_` */
    var offset: nat
    /** `records_count_` */
    var recordsCount: nat

    ghost predicate Valid()
      reads this
    {
      offset == MsgWidth * recordsCount && offset <= |data|
    }

    constructor (data: seq<byte>, batchSize: u64 := DefaultBatchSize)
      ensures Valid() && this.data == data && this.batchSize == batchSize && recordsCount == 0
    {
      this.data := data;
      this.batchSize := batchSize;
      offset := 0;
      recordsCount := 0;
    }

    /** `has_next`: a whole record is left after the cursor. */
    function HasNext(): (b: bool)
      reads this
      requires Valid()
      ensures b <==> recordsCount < WholeRecords(|data|)
    {
      offset + MsgWidth <= |data|
    }

    /** `next_batch`: the next min(batch_size, remaining) records in
        buffer order, with the cursor moved past them; empty once the
        buffer is exhausted. */
    method NextBatch() returns (batch: seq<MBOMsg>)
      requires Valid()
      modifies this
      ensures Valid()
      ensures var n := Min(batchSize, WholeRecords(|data|) - old(recordsCount));
        && recordsCount == old(recordsCount) + n
        && batch == AllRecords(data)[old(recordsCount)..old(recordsCount) + n]
    {
      ghost var all := AllRecords(data);
      ghost var first := recordsCount;
      batch := [];
      while |batch| < batchSize && offset + MsgWidth <= |data|
        invariant Valid()
        invariant first <= recordsCount <= |all|
        invariant |batch| == recordsCount - first <= batchSize
        invariant batch == all[first..recordsCount]
        decreases |data| - offset
      {
        var msg := Decode(data[offset..offset + MsgWidth]);
        assert all[first..recordsCount + 1] == all[first..recordsCount] + [msg];
        batch := batch + [msg];
        offset := offset + MsgWidth;
        recordsCount := recordsCount + 1;
      }
    }
  }

  /** `CallbackParser`: one scan over the whole buffer per call. */
  class CallbackParser {
    /** `data_`, `size_` */
    const data: seq<byte>
    /** `records_count_` */
    var recordsCount: nat

    constructor (data: seq<byte>)
      ensures this.data == data && recordsCount == 0
    {
      this.data := data;
      recordsCount := 0;
    }

    /** `parse_all`: hands every whole record, in buffer order and always
        starting from the first byte, to the callback, and adds their
        number to the running count; the result is the sequence of values
        the callback received. */
    method ParseAll() returns (delivered: seq<MBOMsg>)
      modifies this
      ensures delivered == AllRecords(data)
      ensures recordsCount == old(recordsCount) + WholeRecords(|data|)
    {
      ghost var all := AllRecords(data);
      delivered := [];
      var offset := 0;
      while offset + MsgWidth <= |data|
        invariant offset == MsgWidth * |delivered| && offset <= |data|
        invariant |delivered| <= |all| && delivered == all[..|delivered|]
        invariant recordsCount == old(recordsCount) + |delivered|
        decreases |data| - offset
      {
        var msg := Decode(data[offset..offset + MsgWidth]);
        assert all[..|delivered| + 1] == all[..|delivered|] + [msg];
        delivered := delivered + [msg];
        offset := offset + MsgWidth;
        recordsCount := recordsCount + 1;
      }
      assert |delivered| == |all|;
    }
  }

  /** `load_file`: the file's bytes, or an I/O error when it cannot be
      opened. */
  function LoadFile(file: FileContents): (r: Result<Buffer>)
    ensures r.Ok? <==> file.Contents?
    ensures r.Err? ==> r.error == IoError
    ensures r.Ok? ==> r.value == file.bytes
  {
    match file
    case Unopenable => Err(IoError)
    case Contents(bytes) => Ok(bytes)
  }

  /** `parse_file_mbo_fast`: drains a `DirectParser` over the file's bytes
      and collects every record it returns. */
  method ParseFileMboFast(file: FileContents) returns (r: Result<seq<MBOMsg>>)
    ensures file.Unopenable? ==> r == Err(IoError)
    ensures file.Contents? ==> r == Ok(AllRecords(file.bytes))
  {
    var loaded := LoadFile(file);
    if loaded.Err? {
      return Err(loaded.error);
    }
    var parser := new DirectParser(loaded.value);
    ghost var all := AllRecords(parser.data);
    var records: seq<MBOMsg> := [];
    while true
      invariant parser.Valid() && parser.data == loaded.value
      invariant parser.recordsCount <= |all| && records == all[..parser.recordsCount]
      decreases |all| - parser.recordsCount
    {
      var msg := parser.Next();
      if msg.None? {
        break;
      }
      assert all[..parser.recordsCount] == all[..parser.recordsCount - 1] + [msg.value];
      records := records + [msg.value];
    }
    assert all[..|all|] == all;
    return Ok(records);
  }

  /** `parse_file_mbo_batch`: drains a `BatchParser` over the file's bytes
      and appends each batch to the result. */
  method ParseFileMboBatch(file: FileContents, batchSize: u64 := DefaultBatchSize)
    returns (r: Result<seq<MBOMsg>>)
    requires batchSize > 0 || file.Unopenable? || WholeRecords(|file.bytes|) == 0
    ensures file.Unopenable? ==> r == Err(IoError)
    ensures file.Contents? ==> r == Ok(AllRecords(file.bytes))
  {
    var loaded := LoadFile(file);
    if loaded.Err? {
      return Err(loaded.error);
    }
    var parser := new BatchParser(loaded.value, batchSize);
    ghost var all := AllRecords(parser.data);
    var records: seq<MBOMsg> := [];
    while parser.HasNext()
      invariant parser.Valid() && parser.data == loaded.value && parser.batchSize == batchSize
      invariant batchSize > 0 || |all| == 0
      invariant parser.recordsCount <= |all| && records == all[..parser.recordsCount]
      decreases |parser.data| - parser.offset
    {
      ghost var before := parser.recordsCount;
      var batch := parser.NextBatch();
      assert all[..parser.recordsCount] == all[..before] + all[before..parser.recordsCount];
      records := records + batch;
    }
    assert all[..|all|] == all;
    return Ok(records);
  }

  /** `parse_file_mbo_callback`: one `parse_all` over the file's bytes;
      the result is the sequence of values the callback received. */
  method ParseFileMboCallback(file: FileContents) returns (r: Result<seq<MBOMsg>>)
    ensures file.Unopenable? ==> r == Err(IoError)
    ensures file.Contents? ==> r == Ok(AllRecords(file.bytes))
  {
    var loaded := LoadFile(file);
    if loaded.Err? {
      return Err(loaded.error);
    }
    var parser := new CallbackParser(loaded.value);
    var delivered := parser.ParseAll();
    return Ok(delivered);
  }

  /** Two cursors over separate buffers, drained one after the other:
      each returns exactly the whole records of its own buffer, since
      draining one never moves the other. */
  method DrainIndependently(data1: seq<byte>, data2: seq<byte>) returns (count1: nat, count2: nat)
    ensures count1 == WholeRecords(|data1|) && count2 == WholeRecords(|data2|)
  {
    var parser1 := new DirectParser(data1);
    var parser2 := new DirectParser(data2);
    count1, count2 := 0, 0;
    while true
      invariant parser1.Valid() && parser1.data == data1 && count1 == parser1.recordsCount
      invariant parser2.Valid() && parser2.data == data2 && parser2.recordsCount == 0
      invariant count1 <= WholeRecords(|data1|)
      decreases WholeRecords(|data1|) - count1
    {
      var msg := parser1.Next();
      if msg.None? {
        break;
      }
      count1 := count1 + 1;
    }
    while true
      invariant parser2.Valid() && parser2.data == data2 && count2 == parser2.recordsCount
      invariant count2 <= WholeRecords(|data2|)
      decreases WholeRecords(|data2|) - count2
    {
      var msg := parser2.Next();
      if msg.None? {
        break;
      }
      count2 := count2 + 1;
    }
  }

  // ---------------------------------------------------------------------
  // Buffers written field by field, as the unit tests write them
  // ---------------------------------------------------------------------

  /** The bytes of a buffer of packed messages, one after the other. */
  function Image(msgs: seq<MBOMsg>): (f: seq<byte>)
    ensures |f| == MsgWidth * |msgs|
    decreases |msgs|
  {
    if msgs == [] then [] else Image(msgs[..|msgs| - 1]) + Encode(msgs[|msgs| - 1])
  }

  /** Message i of an image occupies the span [58 i, 58 i + 58). */
  lemma {:induction false} ImageSpan(msgs: seq<MBOMsg>, i: nat)
    requires i < |msgs|
    ensures Image(msgs)[MsgWidth * i..MsgWidth * i + MsgWidth] == Encode(msgs[i])
    decreases |msgs|
  {
    var init := msgs[..|msgs| - 1];
    if i < |msgs| - 1 {
      ImageSpan(init, i);
      assert Image(init)[MsgWidth * i..MsgWidth * i + MsgWidth] == Encode(init[i]);
    } else {
      assert |Image(init)| == MsgWidth * i;
    }
  }

  /** Round trip at buffer level: a buffer of packed messages holds
      exactly those records, in order. */
  lemma ImageRoundTrip(msgs: seq<MBOMsg>)
    ensures AllRecords(Image(msgs)) == msgs
  {
    var f := Image(msgs);
    forall i | 0 <= i < |msgs|
      ensures AllRecords(f)[i] == msgs[i]
    {
      ImageSpan(msgs, i);
      EncodeDeterminesDecode(f[MsgWidth * i..MsgWidth * i + MsgWidth], msgs[i]);
    }
  }

  /** Message i of the unit tests' `create_test_data`. */
  function TestMsg(i: nat): MBOMsg
    requires i < 100000
  {
    MBOMsg(
      hd := RecordHeader(length := MsgWidth, rtype := 160, publisherId := 1, productId := 100,
                         tsEvent := 1000000000 + i),
      orderId := i + 1,
      price := 1000000 + i * 100,
      size := 100 + i,
      flags := 0, channelId := 1, action := 1, side := 1,
      tsRecv := 1000000100 + i,
      tsInDelta := 100,
      sequence := i,
      symbolId := 1234)
  }

  /** `create_test_data(n)`: n packed test messages. */
  function TestData(n: nat): seq<byte>
    requires n <= 100000
  {
    Image(seq(n, i requires 0 <= i < n => TestMsg(i)))
  }

  /** The unit tests' expectations of a test buffer: 58 n bytes, n records,
      record i with type 160, order id i + 1, price 1000000 + 100 i,
      size 100 + i and symbol 1234. */
  lemma TestDataRecords(n: nat)
    requires n <= 100000
    ensures |TestData(n)| == MsgWidth * n
    ensures var rs := AllRecords(TestData(n));
      && |rs| == n
      && forall i :: 0 <= i < n ==>
        && rs[i].hd.rtype == 160 && rs[i].orderId == i + 1
        && rs[i].price == 1000000 + 100 * i && rs[i].size == 100 + i
        && rs[i].symbolId == 1234
  {
    ImageRoundTrip(seq(n, i requires 0 <= i < n => TestMsg(i)));
  }
}
