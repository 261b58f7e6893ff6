/** The 48-byte record format of the buffered engine: action and side
    codes, the named little-endian readers and the packed `MboMsg` /
    `TradeMsg` layout. */
module Dbn {
  import opened Common
  import opened LittleEndian

  /** Width of one packed record in bytes. */
  const RecordWidth: nat := 48

  /** Order-book action codes; each is stored as its ASCII letter. */
  datatype Action = Add | Cancel | Modify | Clear | Trade | Fill

  /** Book side codes; each is stored as its ASCII letter. */
  datatype Side = Ask | Bid | NoSide

  function ActionCode(a: Action): byte
  {
    match a
    case Add => 'A' as int
    case Cancel => 'C' as int
    case Modify => 'M' as int
    case Clear => 'R' as int
    case Trade => 'T' as int
    case Fill => 'F' as int
  }

  function SideCode(s: Side): byte
  {
    match s
    case Ask => 'A' as int
    case Bid => 'B' as int
    case NoSide => 'N' as int
  }

  /** The action a stored code stands for, if any (the core itself never
      validates codes; this is the meaning of the enumeration). */
  function ActionOf(c: byte): (a: Option<Action>)
    ensures a.Some? ==> ActionCode(a.value) == c
  {
    if c == 'A' as int then Some(Add)
    else if c == 'C' as int then Some(Cancel)
    else if c == 'M' as int then Some(Modify)
    else if c == 'R' as int then Some(Clear)
    else if c == 'T' as int then Some(Trade)
    else if c == 'F' as int then Some(Fill)
    else None
  }

  function SideOf(c: byte): (s: Option<Side>)
    ensures s.Some? ==> SideCode(s.value) == c
  {
    if c == 'A' as int then Some(Ask)
    else if c == 'B' as int then Some(Bid)
    else if c == 'N' as int then Some(NoSide)
    else None
  }

  /** Every action has its own code, and the code maps back to it. */
  lemma ActionCodesRoundTrip(a: Action)
    ensures ActionOf(ActionCode(a)) == Some(a)
  {
  }

  lemma SideCodesRoundTrip(s: Side)
    ensures SideOf(SideCode(s)) == Some(s)
  {
  }

  /** The three reserved padding bytes at the end of a record. */
  type Reserved = s: seq<byte> | |s| == 3 witness [0, 0, 0]

  /** `MboMsg`: one market-by-order event, field by field. */
  datatype MboMsg = MboMsg(
    tsEvent: u64,
    instrumentId: u32,
    action: byte,
    side: byte,
    flags: u8,
    depth: u8,
    price: i64,
    size: u32,
    channelId: u32,
    orderId: u64,
    sequence: u32,
    tsInDelta: u8,
    reserved: Reserved)

  /** `TradeMsg` is declared field for field like `MboMsg`. */
  type TradeMsg = MboMsg

  /** The bytes of a packed `MboMsg` on a little-endian host: the fields in
      declaration order with no padding between them. */
  function Encode(m: MboMsg): (b: seq<byte>)
    ensures |b| == RecordWidth
  {
    Pow256Values();
    ToLE(m.tsEvent, 8) + ToLE(m.instrumentId, 4)
    + [m.action, m.side, m.flags, m.depth]
    + ToLE(FromSigned64(m.price), 8) + ToLE(m.size, 4) + ToLE(m.channelId, 4)
    + ToLE(m.orderId, 8) + ToLE(m.sequence, 4) + [m.tsInDelta] + m.reserved
  }

  /** The fields of one packed 48-byte record, each read at its offset:
      `DecodeLayout` states that each, written back out, is its span. */
  function Decode(rec: seq<byte>): MboMsg
    requires |rec| == RecordWidth
  {
    MboMsg(
      ReadU64(rec, 0), ReadU32(rec, 8), rec[12], rec[13], rec[14], rec[15],
      ReadI64(rec, 16), ReadU32(rec, 24), ReadU32(rec, 28),
      ReadU64(rec, 32), ReadU32(rec, 40), rec[44], rec[45..48])
  }

  /** Each field of a decoded record, written back out, is the span of the
      record it was read from. */
  lemma DecodeLayout(rec: seq<byte>)
    requires |rec| == RecordWidth
    ensures Pow256(4) == 0x1_0000_0000 && Pow256(8) == 0x1_0000_0000_0000_0000
    ensures var m := Decode(rec);
      && rec[0..8] == ToLE(m.tsEvent, 8)
      && rec[8..12] == ToLE(m.instrumentId, 4)
      && rec[12..16] == [m.action, m.side, m.flags, m.depth]
      && rec[16..24] == ToLE(FromSigned64(m.price), 8)
      && rec[24..28] == ToLE(m.size, 4)
      && rec[28..32] == ToLE(m.channelId, 4)
      && rec[32..40] == ToLE(m.orderId, 8)
      && rec[40..44] == ToLE(m.sequence, 4)
      && rec[44..45] == [m.tsInDelta]
      && rec[45..48] == m.reserved
  {
    Pow256Values();
    ReadU64Bytes(rec, 0);
    ReadU32Bytes(rec, 8);
    ReadI64Bytes(rec, 16);
    ReadU32Bytes(rec, 24);
    ReadU32Bytes(rec, 28);
    ReadU64Bytes(rec, 32);
    ReadU32Bytes(rec, 40);
  }

  /** `parse_mbo`: copies the 48 bytes at pos into a message;
      `ParseMboBytes` states which one. */
  function ParseMbo(data: seq<byte>, pos: nat): MboMsg
    requires pos + RecordWidth <= |data|
  {
    Decode(data[pos..pos + RecordWidth])
  }

  /** `parse_trade`: the same packed copy as `parse_mbo`. */
  function ParseTrade(data: seq<byte>, pos: nat): TradeMsg
    requires pos + RecordWidth <= |data|
  {
    ParseMbo(data, pos)
  }

  /** Two 48-byte strings that agree on every field's span are equal. */
  lemma GlueFields(a: seq<byte>, b: seq<byte>)
    requires |a| == |b| == RecordWidth
    requires a[0..8] == b[0..8] && a[8..12] == b[8..12] && a[12..16] == b[12..16]
    requires a[16..24] == b[16..24] && a[24..28] == b[24..28] && a[28..32] == b[28..32]
    requires a[32..40] == b[32..40] && a[40..44] == b[40..44] && a[44..45] == b[44..45]
    requires a[45..48] == b[45..48]
    ensures a == b
  {
    Glue(a, b, 0, 8, 12);
    Glue(a, b, 0, 12, 16);
    Glue(a, b, 0, 16, 24);
    Glue(a, b, 0, 24, 28);
    Glue(a, b, 0, 28, 32);
    Glue(a, b, 0, 32, 40);
    Glue(a, b, 0, 40, 44);
    Glue(a, b, 0, 44, 45);
    Glue(a, b, 0, 45, 48);
    assert a == a[0..48] && b == b[0..48];
  }

  /** Writing a decoded record back out gives the record's bytes. */
  lemma EncodeDecode(rec: seq<byte>)
    requires |rec| == RecordWidth
    ensures Encode(Decode(rec)) == rec
  {
    MboLayout(Decode(rec));
    DecodeLayout(rec);
    GlueFields(Encode(Decode(rec)), rec);
  }

  /** `parse_mbo` (and so `parse_trade`) returns the message whose packed
      bytes are exactly the 48 bytes at pos. */
  lemma ParseMboBytes(data: seq<byte>, pos: nat)
    requires pos + RecordWidth <= |data|
    ensures Encode(ParseMbo(data, pos)) == data[pos..pos + RecordWidth]
    ensures Encode(ParseTrade(data, pos)) == data[pos..pos + RecordWidth]
  {
    EncodeDecode(data[pos..pos + RecordWidth]);
  }

  /** The packed offsets of `MboMsg`: ts_event 0, instrument_id 8, action 12,
      side 13, flags 14, depth 15, price 16, size 24, channel_id 28,
      order_id 32, sequence 40, ts_in_delta 44, reserved 45 to 47. */
  lemma MboLayout(m: MboMsg)
    ensures Pow256(4) == 0x1_0000_0000 && Pow256(8) == 0x1_0000_0000_0000_0000
    ensures var b := Encode(m);
      && b[0..8] == ToLE(m.tsEvent, 8)
      && b[8..12] == ToLE(m.instrumentId, 4)
      && b[12..16] == [m.action, m.side, m.flags, m.depth]
      && b[16..24] == ToLE(FromSigned64(m.price), 8)
      && b[24..28] == ToLE(m.size, 4)
      && b[28..32] == ToLE(m.channelId, 4)
      && b[32..40] == ToLE(m.orderId, 8)
      && b[40..44] == ToLE(m.sequence, 4)
      && b[44..45] == [m.tsInDelta]
      && b[45..48] == m.reserved
  {
    Pow256Values();
  }

  /** A record whose spans are the written-out fields of m decodes to m. */
  lemma DecodeFields(rec: seq<byte>, m: MboMsg)
    requires |rec| == RecordWidth
    requires Pow256(4) == 0x1_0000_0000 && Pow256(8) == 0x1_0000_0000_0000_0000
    requires rec[0..8] == ToLE(m.tsEvent, 8) && rec[8..12] == ToLE(m.instrumentId, 4)
    requires rec[12..16] == [m.action, m.side, m.flags, m.depth]
    requires rec[16..24] == ToLE(FromSigned64(m.price), 8) && rec[24..28] == ToLE(m.size, 4)
    requires rec[28..32] == ToLE(m.channelId, 4) && rec[32..40] == ToLE(m.orderId, 8)
    requires rec[40..44] == ToLE(m.sequence, 4) && rec[44..45] == [m.tsInDelta]
    requires rec[45..48] == m.reserved
    ensures Decode(rec) == m
  {
    FromToLE(m.tsEvent, 8);
    FromToLE(m.instrumentId, 4);
    FromToLE(FromSigned64(m.price), 8);
    FromToLE(m.size, 4);
    FromToLE(m.channelId, 4);
    FromToLE(m.orderId, 8);
    FromToLE(m.sequence, 4);
    assert rec[12] == rec[12..16][0] && rec[13] == rec[12..16][1];
    assert rec[14] == rec[12..16][2] && rec[15] == rec[12..16][3];
    assert rec[44] == rec[44..45][0];
  }

  /** Round trip: the bytes of a message written out decode back to it. */
  lemma DecodeEncode(m: MboMsg)
    ensures Decode(Encode(m)) == m
  {
    MboLayout(m);
    DecodeFields(Encode(m), m);
  }

  /** A message is determined by its bytes: whatever message packs to the
      48 bytes at pos is the one `parse_mbo` returns there. */
  lemma EncodeDeterminesParse(data: seq<byte>, pos: nat, m: MboMsg)
    requires pos + RecordWidth <= |data|
    requires Encode(m) == data[pos..pos + RecordWidth]
    ensures ParseMbo(data, pos) == m
  {
    DecodeEncode(m);
  }

  /** The timestamp and instrument fields of a decoded record are the
      words the direct readers see at offsets 0 and 8. */
  lemma HeaderFieldsMatchReaders(data: seq<byte>, pos: nat)
    requires pos + RecordWidth <= |data|
    ensures ParseMbo(data, pos).tsEvent == ReadU64(data, pos)
    ensures ParseMbo(data, pos).instrumentId == ReadU32(data, pos + 8)
  {
    var rec := data[pos..pos + RecordWidth];
    assert rec[0..8] == data[pos..pos + 8];
    assert rec[8..12] == data[pos + 8..pos + 12] by {
      forall i | 0 <= i < 4
        ensures rec[8..12][i] == data[pos + 8..pos + 12][i]
      {
        assert rec[8 + i] == data[pos + 8 + i];
      }
    }
  }
}
