/**
 The classic pcap stream (draft-ietf-opsawg-pcap, sections 4 and 5): the bytes
 that src/util/pcap.rs and src/pcap/writer.rs produce, the writer object with its
 lazily written file header, and a parser that reads the stream back.
 */
module PcapFormat {
  import opened Common
  import opened Output

  const MAGIC: nat := 0xa1b2_c3d4
  const FILE_HEADER_LEN: nat := 24
  const RECORD_HEADER_LEN: nat := 16

  /** A captured packet: a signed `timeval`, the original length and the captured bytes. */
  datatype Packet = Packet(sec: int, usec: int, origLen: nat, data: seq<byte>)

  /** A packet to be written together with the link type of its capture. */
  datatype Item = Item(link: int, packet: Packet)

  // ----- little-endian integers

  function Le16(n: nat): (r: seq<byte>)
    ensures |r| == 2
  {
    [n % 256, n / 256 % 256]
  }

  function Le32(n: nat): (r: seq<byte>)
    ensures |r| == 4
  {
    [n % 256, n / 256 % 256, n / 65536 % 256, n / 16777216 % 256]
  }

  function Read16(b: seq<byte>, at: nat): nat
    requires at + 2 <= |b|
  {
    (b[at] as int) + 256 * (b[at + 1] as int)
  }

  function Read32(b: seq<byte>, at: nat): nat
    requires at + 4 <= |b|
  {
    (b[at] as int) + 256 * (b[at + 1] as int) + 65536 * (b[at + 2] as int) + 16777216 * (b[at + 3] as int)
  }

  /** Consecutive 32-bit words, as successive `put_u32_le` calls append them. */
  function Words(ws: seq<nat>): (r: seq<byte>)
    ensures |r| == 4 * |ws|
  {
    if ws == [] then [] else Le32(ws[0]) + Words(ws[1..])
  }

  lemma Read32Le32(b: seq<byte>, n: nat)
    requires n < U32_LIMIT && Le32(n) <= b
    ensures Read32(b, 0) == n
  {
    Digits(n);
    var s := b[..4];
    assert s[0] == b[0] && s[1] == b[1] && s[2] == b[2] && s[3] == b[3];
  }

  lemma Digits(n: nat)
    requires n < U32_LIMIT
    ensures n == n % 256 + 256 * (n / 256 % 256) + 65536 * (n / 65536 % 256) + 16777216 * (n / 16777216 % 256)
  {
  }

  /** The i-th appended word is what a reader finds at offset 4 * i. */
  lemma {:induction false} WordAt(ws: seq<nat>, i: nat, b: seq<byte>)
    requires i < |ws| && ws[i] < U32_LIMIT && Words(ws) <= b
    ensures Read32(b, 4 * i) == ws[i]
    decreases i
  {
    hide Le32;
    assert Words(ws) == Le32(ws[0]) + Words(ws[1..]);
    if i == 0 {
      Read32Le32(b, ws[0]);
    } else {
      assert b == Le32(ws[0]) + b[4..];
      WordAt(ws[1..], i - 1, b[4..]);
    }
  }

  // ----- the two kinds of block

  function FileHeader(link: int, snaplen: nat := 0xFFFF_FFFF): (r: seq<byte>)
    ensures |r| == FILE_HEADER_LEN
  {
    Le32(MAGIC) + Le16(2) + Le16(4) + Words([0, 0, snaplen, AsU32(link)])
  }

  /** Magic number, version 2.4, no time zone, the largest snap length, and the link type. */
  lemma FileHeaderBytes(link: int)
    ensures FileHeader(link)[..20]
         == [0xd4, 0xc3, 0xb2, 0xa1, 2, 0, 4, 0, 0, 0, 0, 0, 0, 0, 0, 0, 255, 255, 255, 255]
    ensures FileHeader(link)[20..] == Le32(AsU32(link))
  {
    hide AsU32;
    var l := AsU32(link);
    WordsCons(l, []);
    WordsCons(0xFFFF_FFFF, [l]);
    WordsCons(0, [0xFFFF_FFFF, l]);
    WordsCons(0, [0, 0xFFFF_FFFF, l]);
  }

  lemma WordsCons(w: nat, ws: seq<nat>)
    ensures Words([w] + ws) == Le32(w) + Words(ws)
  {
    assert ([w] + ws)[1..] == ws;
  }

  function RecordHeader(p: Packet): (r: seq<byte>)
    ensures |r| == RECORD_HEADER_LEN
  {
    Words([AsU32(p.sec), AsU32(p.usec), AsU32(|p.data|), AsU32(p.origLen)])
  }

  function RecordBytes(p: Packet): (r: seq<byte>)
    ensures |r| == RECORD_HEADER_LEN + |p.data|
  {
    RecordHeader(p) + p.data
  }

  function Records(items: seq<Item>): seq<byte> {
    if items == [] then [] else RecordBytes(items[0].packet) + Records(items[1..])
  }

  /** The whole stream for a list of packets: nothing at all for none, otherwise one
      file header carrying the first packet's link type and then the records. */
  function Stream(items: seq<Item>): seq<byte> {
    if items == [] then [] else FileHeader(items[0].link) + Records(items)
  }

  lemma {:induction false} RecordsConcat(a: seq<Item>, b: seq<Item>)
    ensures Records(a + b) == Records(a) + Records(b)
  {
    hide RecordBytes;
    if a == [] {
      assert a + b == b;
    } else {
      RecordsConcat(a[1..], b);
      Onward(a, b);
      Regroup(RecordBytes(a[0].packet), Records(a[1..]), Records(b));
    }
  }

  /** Appending a packet appends bytes, never changes what is already there. */
  lemma StreamSnoc(items: seq<Item>, item: Item)
    ensures Stream(items + [item])
         == Stream(items) + (if items == [] then FileHeader(item.link) else []) + RecordBytes(item.packet)
  {
    hide RecordBytes, FileHeader;
    RecordsConcat(items, [item]);
    assert [item][1..] == [];
    assert Records([item]) == RecordBytes(item.packet) + Records([]);
    if items == [] {
      assert items + [item] == [item];
    }
  }

  /** The stream of a shorter list of packets is a prefix of the stream of a longer one. */
  lemma StreamPrefix(a: seq<Item>, b: seq<Item>)
    requires a <= b
    ensures Stream(a) <= Stream(b)
    ensures |a| < |b| ==> |Stream(a)| < |Stream(b)|
  {
    hide RecordBytes, FileHeader;
    assert b == a + b[|a|..];
    RecordsConcat(a, b[|a|..]);
    if |a| < |b| {
      assert |Records(b[|a|..])| >= RECORD_HEADER_LEN;
    }
  }

  // ----- the writer (src/pcap/writer.rs)

  /** `PcapWriter`: the file header is written together with the first packet. */
  class PcapWriter {
    const out: Sink
    var bytes: nat
    var headerWritten: bool

    /** What has been written so far is exactly the stream of `items`. */
    ghost predicate Wrote(items: seq<Item>)
      reads this, out, out.tx
    {
      && out.Valid() && out.accepted == Stream(items)
      && bytes == |out.accepted|
      && headerWritten == (items != [])
    }

    constructor (out: Sink)
      ensures this.out == out && bytes == 0 && !headerWritten
    {
      this.out := out;
      bytes := 0;
      headerWritten := false;
    }

    function NextWriteSize(dataLen: nat): nat
      reads this
    {
      RECORD_HEADER_LEN + dataLen + if !headerWritten then FILE_HEADER_LEN else 0
    }

    /** A successful write extends the stream by this packet and by precisely the
        number of bytes that `NextWriteSize` announced; a failed one leaves a byte
        prefix of the longer stream. */
    method WritePacket(link: int, p: Packet, ghost items: seq<Item>) returns (ok: bool)
      requires Wrote(items)
      modifies this, out, out.tx
      ensures out.reliable ==> ok
      ensures out.Linked()
      ensures ok ==> Wrote(items + [Item(link, p)])
      ensures ok ==> bytes == old(bytes) + old(NextWriteSize(|p.data|))
      ensures !ok ==> Stream(items) <= out.accepted <= Stream(items + [Item(link, p)])
      ensures out.failed == !ok
    {
      hide RecordBytes, FileHeader, Stream, Sink.Valid, Sink.Linked;
      StreamSnoc(items, Item(link, p));
      ok := WriteHeader(link);
      if ok {
        ok := WriteRecord(p);
      }
    }

    /** The file header, once. */
    method WriteHeader(link: int) returns (ok: bool)
      requires out.Valid()
      modifies this, out, out.tx
      ensures out.reliable ==> ok
      ensures out.Linked() && (ok ==> out.Valid() && headerWritten)
      ensures var header := if old(headerWritten) then [] else FileHeader(link);
        && old(out.accepted) <= out.accepted <= old(out.accepted) + header
        && (ok ==> out.accepted == old(out.accepted) + header && bytes == old(bytes) + |header|)
      ensures out.failed == !ok
    {
      hide FileHeader, Sink.Valid, Sink.Linked;
      ValidIsLinked(out);
      ok := true;
      NothingMore(out.accepted);
      if !headerWritten {
        var header := FileHeader(link);
        ok := out.WriteAll(header);
        if ok {
          ValidIsLinked(out);
          bytes := bytes + |header|;
          headerWritten := true;
        }
      }
    }

    method WriteRecord(p: Packet) returns (ok: bool)
      requires out.Valid()
      modifies this`bytes, out, out.tx
      ensures out.reliable ==> ok
      ensures out.Linked() && (ok ==> out.Valid())
      ensures old(out.accepted) <= out.accepted <= old(out.accepted) + RecordBytes(p)
      ensures ok ==> out.accepted == old(out.accepted) + RecordBytes(p) && bytes == old(bytes) + |RecordBytes(p)|
      ensures out.failed == !ok
    {
      hide RecordBytes, Sink.Valid, Sink.Linked;
      var record := RecordBytes(p);
      ok := out.WriteAll(record);
      if ok {
        ValidIsLinked(out);
        bytes := bytes + |record|;
      }
    }
  }

  lemma WroteMeans(w: PcapWriter, items: seq<Item>)
    ensures w.Wrote(items) <==>
      w.out.Valid() && w.out.accepted == Stream(items)
      && w.bytes == |w.out.accepted| && w.headerWritten == (items != [])
    ensures w.out.Valid() ==> w.out.Linked()
  {
  }

  // ----- reading the stream back

  /** A record as a pcap reader reports it. */
  datatype WireRecord = WireRecord(sec: int, usec: int, origLen: int, data: seq<byte>)

  datatype Parsed = Malformed | Parsed(link: nat, snaplen: nat, records: seq<WireRecord>)

  function ParseRecords(b: seq<byte>): Option<seq<WireRecord>>
    decreases |b|
  {
    if b == [] then
      Some([])
    else if |b| < RECORD_HEADER_LEN then
      None
    else
      var incl := Read32(b, 8);
      if |b| < RECORD_HEADER_LEN + incl then
        None
      else
        var r := WireRecord(Read32(b, 0), Read32(b, 4), Read32(b, 12), b[16..16 + incl]);
        match ParseRecords(b[16 + incl..])
        case None => None
        case Some(rs) => Some([r] + rs)
  }

  function ParseStream(b: seq<byte>): Parsed {
    if |b| < FILE_HEADER_LEN || Read32(b, 0) != MAGIC || Read16(b, 4) != 2 || Read16(b, 6) != 4 then
      Malformed
    else
      match ParseRecords(b[24..])
      case None => Malformed
      case Some(rs) => Parsed(Read32(b, 20), Read32(b, 16), rs)
  }

  function Wire(p: Packet): WireRecord {
    WireRecord(AsU32(p.sec), AsU32(p.usec), AsU32(p.origLen), p.data)
  }

  function WireAll(items: seq<Item>): seq<WireRecord> {
    if items == [] then [] else [Wire(items[0].packet)] + WireAll(items[1..])
  }

  ghost predicate LengthsFit(items: seq<Item>) {
    forall i :: 0 <= i < |items| ==> |items[i].packet.data| < U32_LIMIT
  }

  /** The four integers of a record header, read at their offsets. */
  lemma HeaderFields(p: Packet, b: seq<byte>)
    requires RecordHeader(p) <= b
    ensures Read32(b, 0) == AsU32(p.sec) && Read32(b, 4) == AsU32(p.usec)
    ensures Read32(b, 8) == AsU32(|p.data|) && Read32(b, 12) == AsU32(p.origLen)
  {
    hide Read32, Words, AsU32;
    var ws := [AsU32(p.sec), AsU32(p.usec), AsU32(|p.data|), AsU32(p.origLen)];
    WordAt(ws, 0, b);
    WordAt(ws, 1, b);
    WordAt(ws, 2, b);
    WordAt(ws, 3, b);
  }

  lemma ParseOneRecord(p: Packet, rest: seq<byte>)
    requires |p.data| < U32_LIMIT
    ensures ParseRecords(RecordBytes(p) + rest)
         == match ParseRecords(rest) case None => None case Some(rs) => Some([Wire(p)] + rs)
  {
    hide RecordHeader, Read32;
    var b := RecordBytes(p) + rest;
    assert b == RecordHeader(p) + (p.data + rest);
    HeaderFields(p, b);
    assert AsU32(|p.data|) == |p.data|;
    assert b[16..16 + |p.data|] == p.data;
    assert b[16 + |p.data|..] == rest;
  }

  lemma {:induction false} ParseAllRecords(items: seq<Item>)
    requires LengthsFit(items)
    ensures ParseRecords(Records(items)) == Some(WireAll(items))
  {
    hide RecordBytes, Wire;
    if items != [] {
      ParseAllRecords(items[1..]);
      ParseOneRecord(items[0].packet, Records(items[1..]));
    }
  }

  lemma FileHeaderFields(link: int, rest: seq<byte>)
    ensures var b := FileHeader(link) + rest;
      && Read32(b, 0) == MAGIC && Read16(b, 4) == 2 && Read16(b, 6) == 4
      && Read32(b, 16) == 0xFFFF_FFFF && Read32(b, 20) == AsU32(link)
  {
    hide Words, Le32, AsU32, Read32;
    var ws := [0, 0, 0xFFFF_FFFF, AsU32(link)];
    var b := FileHeader(link) + rest;
    var tail := b[8..];
    assert Words(ws) <= tail;
    WordAt(ws, 2, tail);
    WordAt(ws, 3, tail);
    ReadShift(b, 8, 8);
    ReadShift(b, 8, 12);
    Read32Le32(b, MAGIC);
    assert Le16(2) == b[4..6] && Le16(4) == b[6..8];
    assert b[4] == b[4..6][0] && b[5] == b[4..6][1] && b[6] == b[6..8][0] && b[7] == b[6..8][1];
  }

  lemma ReadShift(b: seq<byte>, k: nat, at: nat)
    requires k + at + 4 <= |b|
    ensures Read32(b[k..], at) == Read32(b, k + at)
  {
  }

  /** Round trip: a reader of the emitted stream gets back every packet that was
      written, in order, with the first packet's link type and a snap length that
      no record exceeds. */
  lemma StreamParsesBack(items: seq<Item>)
    requires items != [] && LengthsFit(items)
    ensures ParseStream(Stream(items)) == Parsed(AsU32(items[0].link), 0xFFFF_FFFF, WireAll(items))
  {
    hide FileHeader, Records, Read32, AsU32;
    FileHeaderFields(items[0].link, Records(items));
    var b := Stream(items);
    assert b[24..] == Records(items);
    ParseAllRecords(items);
  }

  /** The packets with the fields they had in their captures. */
  function Exact(items: seq<Item>): seq<WireRecord> {
    if items == [] then
      []
    else
      var p := items[0].packet;
      [WireRecord(p.sec, p.usec, p.origLen, p.data)] + Exact(items[1..])
  }

  predicate FieldsFit(p: Packet) {
    0 <= p.sec < U32_LIMIT && 0 <= p.usec < U32_LIMIT && p.origLen < U32_LIMIT
  }

  /** The reader sees the captured fields of every packet if and only if they fit
      the 32-bit fields of the format; otherwise `as u32` has wrapped some of them. */
  lemma {:induction false} ReadBackIsExactIffFieldsFit(items: seq<Item>)
    ensures WireAll(items) == Exact(items) <==> forall i :: 0 <= i < |items| ==> FieldsFit(items[i].packet)
  {
    if items != [] {
      ReadBackIsExactIffFieldsFit(items[1..]);
      var p := items[0].packet;
      assert WireAll(items)[0] == Wire(p) && WireAll(items)[1..] == WireAll(items[1..]);
      assert Exact(items)[0] == WireRecord(p.sec, p.usec, p.origLen, p.data) && Exact(items)[1..] == Exact(items[1..]);
      assert Wire(p) == WireRecord(p.sec, p.usec, p.origLen, p.data) <==> FieldsFit(p);
      assert forall i :: 1 <= i < |items| ==> items[i] == items[1..][i - 1];
      assert forall i :: 0 <= i < |items[1..]| ==> items[1..][i] == items[i + 1];
    }
  }
}
