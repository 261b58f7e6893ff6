/** The 58-byte record format of the header-prefixed engine: a packed
    14-byte `RecordHeader` followed by the market-by-order fields. */
module DbnParserLayout {
  import opened Common
  import opened LittleEndian

  /** `sizeof(RecordHeader)` */
  const HeaderWidth: nat := 14

  /** `sizeof(MBOMsg)` */
  const MsgWidth: nat := 58

  /** `RecordHeader`: record length, record type, publisher, product and
      event time. */
  datatype RecordHeader = RecordHeader(
    length: u8,
    rtype: u8,
    publisherId: u16,
    productId: u16,
    tsEvent: u64)

  /** `MBOMsg`: the header, then the order fields. */
  datatype MBOMsg = MBOMsg(
    hd: RecordHeader,
    orderId: u64,
    price: i64,
    size: u32,
    flags: u8,
    channelId: u8,
    action: u8,
    side: u8,
    tsRecv: u64,
    tsInDelta: u32,
    sequence: u32,
    symbolId: u32)

  /** The bytes of a packed `RecordHeader` on a little-endian host. */
  function EncodeHeader(h: RecordHeader): (b: seq<byte>)
    ensures |b| == HeaderWidth
  {
    Pow256Values();
    [h.length, h.rtype] + ToLE(h.publisherId, 2) + ToLE(h.productId, 2) + ToLE(h.tsEvent, 8)
  }

  /** The bytes of a packed `MBOMsg`: the header, then every field in
      declaration order with no padding between them. */
  function Encode(m: MBOMsg): (b: seq<byte>)
    ensures |b| == MsgWidth
  {
    Pow256Values();
    EncodeHeader(m.hd)
    + ToLE(m.orderId, 8) + ToLE(FromSigned64(m.price), 8) + ToLE(m.size, 4)
    + [m.flags, m.channelId, m.action, m.side]
    + ToLE(m.tsRecv, 8) + ToLE(m.tsInDelta, 4) + ToLE(m.sequence, 4) + ToLE(m.symbolId, 4)
  }

  /** The header seen through a pointer to the first 14 bytes of rec:
      `DecodeHeaderLayout` states that each field, written back out, is
      the span it was read from. */
  function DecodeHeader(rec: seq<byte>): RecordHeader
    requires HeaderWidth <= |rec|
  {
    RecordHeader(rec[0], rec[1], ReadU16(rec, 2), ReadU16(rec, 4), ReadU64(rec, 6))
  }

  /** Each header field, written back out, is the span it was read from. */
  lemma DecodeHeaderLayout(rec: seq<byte>)
    requires HeaderWidth <= |rec|
    ensures Pow256(2) == 0x1_0000 && Pow256(8) == 0x1_0000_0000_0000_0000
    ensures var h := DecodeHeader(rec);
      && rec[0..2] == [h.length, h.rtype]
      && rec[2..4] == ToLE(h.publisherId, 2)
      && rec[4..6] == ToLE(h.productId, 2)
      && rec[6..14] == ToLE(h.tsEvent, 8)
  {
    Pow256Values();
    ReadU16Bytes(rec, 2);
    ReadU16Bytes(rec, 4);
    ReadU64Bytes(rec, 6);
  }

  /** The message seen through a `const MBOMsg*` to the 58 bytes of rec:
      each field is read at its packed offset; `DecodeLayout` states that
      each, written back out, is the record's span at that offset. */
  function Decode(rec: seq<byte>): MBOMsg
    requires |rec| == MsgWidth
  {
    MBOMsg(
      DecodeHeader(rec),
      ReadU64(rec, 14), ReadI64(rec, 22), ReadU32(rec, 30),
      rec[34], rec[35], rec[36], rec[37],
      ReadU64(rec, 38), ReadU32(rec, 46), ReadU32(rec, 50), ReadU32(rec, 54))
  }

  /** Each field of a decoded record, written back out, is the span of the
      record it was read from. */
  lemma DecodeLayout(rec: seq<byte>)
    requires |rec| == MsgWidth
    ensures Pow256(2) == 0x1_0000 && Pow256(4) == 0x1_0000_0000
    ensures Pow256(8) == 0x1_0000_0000_0000_0000
    ensures var m := Decode(rec);
      && rec[0..2] == [m.hd.length, m.hd.rtype]
      && rec[2..4] == ToLE(m.hd.publisherId, 2)
      && rec[4..6] == ToLE(m.hd.productId, 2)
      && rec[6..14] == ToLE(m.hd.tsEvent, 8)
      && rec[14..22] == ToLE(m.orderId, 8)
      && rec[22..30] == ToLE(FromSigned64(m.price), 8)
      && rec[30..34] == ToLE(m.size, 4)
      && rec[34..38] == [m.flags, m.channelId, m.action, m.side]
      && rec[38..46] == ToLE(m.tsRecv, 8)
      && rec[46..50] == ToLE(m.tsInDelta, 4)
      && rec[50..54] == ToLE(m.sequence, 4)
      && rec[54..58] == ToLE(m.symbolId, 4)
  {
    DecodeHeaderLayout(rec);
    DecodeBodyLayout(rec);
  }

  /** The order fields of a decoded record, written back out, are the spans
      they were read from. */
  lemma DecodeBodyLayout(rec: seq<byte>)
    requires |rec| == MsgWidth
    ensures Pow256(4) == 0x1_0000_0000 && Pow256(8) == 0x1_0000_0000_0000_0000
    ensures
      && rec[14..22] == ToLE(ReadU64(rec, 14), 8)
      && rec[22..30] == ToLE(FromSigned64(ReadI64(rec, 22)), 8)
      && rec[30..34] == ToLE(ReadU32(rec, 30), 4)
      && rec[38..46] == ToLE(ReadU64(rec, 38), 8)
      && rec[46..50] == ToLE(ReadU32(rec, 46), 4)
      && rec[50..54] == ToLE(ReadU32(rec, 50), 4)
      && rec[54..58] == ToLE(ReadU32(rec, 54), 4)
  {
    Pow256Values();
    ReadU64Bytes(rec, 14);
    ReadI64Bytes(rec, 22);
    ReadU32Bytes(rec, 30);
    ReadU64Bytes(rec, 38);
    ReadU32Bytes(rec, 46);
    ReadU32Bytes(rec, 50);
    ReadU32Bytes(rec, 54);
  }

  /** The header is the first 14 bytes of the packed message. */
  lemma HeaderPrefix(m: MBOMsg)
    ensures Encode(m)[..HeaderWidth] == EncodeHeader(m.hd)
  {
  }

  /** When a prefix of b is x followed by y, y is b's span after x, and x
      is itself a prefix of b. */
  lemma PrefixSpan(b: seq<byte>, x: seq<byte>, y: seq<byte>)
    requires |x| + |y| <= |b| && b[..|x| + |y|] == x + y
    ensures b[|x|..|x| + |y|] == y && b[..|x|] == x
  {
    assert b[|x|..|x| + |y|] == b[..|x| + |y|][|x|..];
    assert b[..|x|] == b[..|x| + |y|][..|x|];
  }

  /** The packed offsets of `MBOMsg`: hd 0 to 13 (length 0, rtype 1,
      publisher_id 2, product_id 4, ts_event 6), order_id 14, price 22,
      size 30, flags 34, channel_id 35, action 36, side 37, ts_recv 38,
      ts_in_delta 46, sequence 50, symbol_id 54. */
  lemma MsgLayout(m: MBOMsg)
    ensures Pow256(2) == 0x1_0000 && Pow256(4) == 0x1_0000_0000
    ensures Pow256(8) == 0x1_0000_0000_0000_0000
    ensures var b := Encode(m);
      && b[0..2] == [m.hd.length, m.hd.rtype]
      && b[2..4] == ToLE(m.hd.publisherId, 2)
      && b[4..6] == ToLE(m.hd.productId, 2)
      && b[6..14] == ToLE(m.hd.tsEvent, 8)
      && b[14..22] == ToLE(m.orderId, 8)
      && b[22..30] == ToLE(FromSigned64(m.price), 8)
      && b[30..34] == ToLE(m.size, 4)
      && b[34..38] == [m.flags, m.channelId, m.action, m.side]
      && b[38..46] == ToLE(m.tsRecv, 8)
      && b[46..50] == ToLE(m.tsInDelta, 4)
      && b[50..54] == ToLE(m.sequence, 4)
      && b[54..58] == ToLE(m.symbolId, 4)
  {
    Pow256Values();
    HeaderPrefix(m);
    var h := EncodeHeader(m.hd);
    assert h[0..2] == [m.hd.length, m.hd.rtype] && h[2..4] == ToLE(m.hd.publisherId, 2);
    assert h[4..6] == ToLE(m.hd.productId, 2) && h[6..14] == ToLE(m.hd.tsEvent, 8);
    // The message, field by field, after the 14-byte header.
    var s1 := h + ToLE(m.orderId, 8);
    var s2 := s1 + ToLE(FromSigned64(m.price), 8);
    var s3 := s2 + ToLE(m.size, 4);
    var s4 := s3 + [m.flags, m.channelId, m.action, m.side];
    var s5 := s4 + ToLE(m.tsRecv, 8);
    var s6 := s5 + ToLE(m.tsInDelta, 4);
    var s7 := s6 + ToLE(m.sequence, 4);
    var b := Encode(m);
    assert b[..MsgWidth] == s7 + ToLE(m.symbolId, 4);
    PrefixSpan(b, s7, ToLE(m.symbolId, 4));
    PrefixSpan(b, s6, ToLE(m.sequence, 4));
    PrefixSpan(b, s5, ToLE(m.tsInDelta, 4));
    PrefixSpan(b, s4, ToLE(m.tsRecv, 8));
    PrefixSpan(b, s3, [m.flags, m.channelId, m.action, m.side]);
    PrefixSpan(b, s2, ToLE(m.size, 4));
    PrefixSpan(b, s1, ToLE(FromSigned64(m.price), 8));
    PrefixSpan(b, h, ToLE(m.orderId, 8));
  }

  /** Two 58-byte strings that agree on every field's span are equal. */
  lemma GlueFields(a: seq<byte>, b: seq<byte>)
    requires |a| == |b| == MsgWidth
    requires a[0..2] == b[0..2] && a[2..4] == b[2..4] && a[4..6] == b[4..6]
    requires a[6..14] == b[6..14] && a[14..22] == b[14..22] && a[22..30] == b[22..30]
    requires a[30..34] == b[30..34] && a[34..38] == b[34..38] && a[38..46] == b[38..46]
    requires a[46..50] == b[46..50] && a[50..54] == b[50..54] && a[54..58] == b[54..58]
    ensures a == b
  {
    Glue(a, b, 0, 2, 4);
    Glue(a, b, 0, 4, 6);
    Glue(a, b, 0, 6, 14);
    Glue(a, b, 0, 14, 22);
    Glue(a, b, 0, 22, 30);
    Glue(a, b, 0, 30, 34);
    Glue(a, b, 0, 34, 38);
    Glue(a, b, 0, 38, 46);
    Glue(a, b, 0, 46, 50);
    Glue(a, b, 0, 50, 54);
    Glue(a, b, 0, 54, 58);
    assert a == a[0..58] && b == b[0..58];
  }

  /** Writing a decoded record back out gives the record's bytes. */
  lemma EncodeDecode(rec: seq<byte>)
    requires |rec| == MsgWidth
    ensures Encode(Decode(rec)) == rec
  {
    MsgLayout(Decode(rec));
    DecodeLayout(rec);
    GlueFields(Encode(Decode(rec)), rec);
  }

  /** A record whose first spans are the written-out fields of h shows h
      as its header. */
  lemma DecodeHeaderFields(rec: seq<byte>, h: RecordHeader)
    requires HeaderWidth <= |rec|
    requires Pow256(2) == 0x1_0000 && Pow256(8) == 0x1_0000_0000_0000_0000
    requires rec[0..2] == [h.length, h.rtype]
    requires rec[2..4] == ToLE(h.publisherId, 2) && rec[4..6] == ToLE(h.productId, 2)
    requires rec[6..14] == ToLE(h.tsEvent, 8)
    ensures DecodeHeader(rec) == h
  {
    FromToLE(h.publisherId, 2);
    FromToLE(h.productId, 2);
    FromToLE(h.tsEvent, 8);
    assert rec[0] == rec[0..2][0] && rec[1] == rec[0..2][1];
  }

  /** A record whose spans are the written-out fields of m decodes to m. */
  lemma DecodeFields(rec: seq<byte>, m: MBOMsg)
    requires |rec| == MsgWidth
    requires Pow256(2) == 0x1_0000 && Pow256(4) == 0x1_0000_0000
    requires Pow256(8) == 0x1_0000_0000_0000_0000
    requires rec[0..2] == [m.hd.length, m.hd.rtype]
    requires rec[2..4] == ToLE(m.hd.publisherId, 2) && rec[4..6] == ToLE(m.hd.productId, 2)
    requires rec[6..14] == ToLE(m.hd.tsEvent, 8) && rec[14..22] == ToLE(m.orderId, 8)
    requires rec[22..30] == ToLE(FromSigned64(m.price), 8) && rec[30..34] == ToLE(m.size, 4)
    requires rec[34..38] == [m.flags, m.channelId, m.action, m.side]
    requires rec[38..46] == ToLE(m.tsRecv, 8) && rec[46..50] == ToLE(m.tsInDelta, 4)
    requires rec[50..54] == ToLE(m.sequence, 4) && rec[54..58] == ToLE(m.symbolId, 4)
    ensures Decode(rec) == m
  {
    DecodeHeaderFields(rec, m.hd);
    FromToLE(m.orderId, 8);
    FromToLE(FromSigned64(m.price), 8);
    FromToLE(m.size, 4);
    FromToLE(m.tsRecv, 8);
    FromToLE(m.tsInDelta, 4);
    FromToLE(m.sequence, 4);
    FromToLE(m.symbolId, 4);
    assert rec[34] == rec[34..38][0] && rec[35] == rec[34..38][1];
    assert rec[36] == rec[34..38][2] && rec[37] == rec[34..38][3];
  }

  /** Round trip: the bytes of a message written out decode back to it. */
  lemma DecodeEncode(m: MBOMsg)
    ensures Decode(Encode(m)) == m
  {
    MsgLayout(m);
    DecodeFields(Encode(m), m);
  }

  /** A message is determined by its bytes: whatever message packs to rec
      is the one a pointer to rec shows. */
  lemma EncodeDeterminesDecode(rec: seq<byte>, m: MBOMsg)
    requires Encode(m) == rec
    ensures Decode(rec) == m
  {
    DecodeEncode(m);
  }
}
