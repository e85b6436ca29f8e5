/**
 Packets made from event payloads (src/util/pcap.rs): the UDP, TCP and IPv4 builders and
 the Internet checksums they patch into the finished packet. Sums on `u16` wrap.
 */
module Checksum {
  import opened Common

  type Bytes = seq<byte>
  type u16 = x: int | 0 <= x < 0x1_0000

  datatype Protocol = Tcp | Udp {
    function Number(): byte {
      if Tcp? then 6 else 17
    }

    /** Where the checksum sits in a segment. */
    function Field(): nat {
      if Tcp? then 16 else 6
    }
  }

  function AsU16(x: int): u16 {
    x % 0x1_0000
  }

  function Be16(x: u16): (b: Bytes)
    ensures |b| == 2 && Word(b, 0) == x
  {
    [x / 256, x % 256]
  }

  function Word(s: Bytes, i: nat): (w: u16)
    requires i + 2 <= |s|
    ensures s[i] == w / 256 && s[i + 1] == w % 256
  {
    s[i] as int * 256 + s[i + 1]
  }

  // ----- checksums

  /** The sum of a sequence's big-endian words, an odd last byte padded with zero. */
  function Sum(s: Bytes): nat {
    if |s| == 0 then 0 else if |s| == 1 then s[0] as int * 256 else Word(s, 0) + Sum(s[2..])
  }

  /** The one value from 1 to 0xffff that agrees with `n` modulo 0xffff. */
  function Ones(n: int): (r: int)
    ensures 1 <= r <= 0xffff && (n - r) % 0xffff == 0
  {
    (n - 1) % 0xffff + 1
  }

  function Complement(n: int): u16 {
    0xffff - Ones(n)
  }

  /** Addition with end-around carry, as RFC 1071 section 1 has it. */
  function AddCarry(a: u16, b: u16): u16 {
    (a + b) % 0x1_0000 + (a + b) / 0x1_0000
  }

  function OnesComplementSum(s: Bytes, from: u16): u16
    decreases |s|
  {
    if |s| == 0 then from
    else if |s| == 1 then AddCarry(from, s[0] as int * 256)
    else OnesComplementSum(s[2..], AddCarry(from, Word(s, 0)))
  }

  /** The program's accumulator starts at 0xffff and the one of RFC 1071 at 0. They agree,
      but for a sequence of nothing but zeros. */
  lemma {:induction false} SumsAgree(s: Bytes, from: u16)
    ensures OnesComplementSum(s, from) == if Sum(s) + from == 0 then 0 else Ones(from + Sum(s))
    decreases |s|
  {
    hide AddCarry, Word, Ones;
    if |s| == 0 {
      if from > 0 {
        OnesOfSmall(from);
      }
    } else if |s| == 1 {
      CarryIsOnes(from, s[0] as int * 256);
    } else {
      var w := Word(s, 0);
      SumsAgree(s[2..], AddCarry(from, w));
      CarryIsOnes(from, w);
      OnesOfOnes(from + w, Sum(s[2..]));
    }
  }

  lemma OnesOfSmall(n: u16)
    requires n > 0
    ensures Ones(n) == n
  {
  }

  lemma CarryIsOnes(a: u16, b: u16)
    ensures AddCarry(a, b) == if a + b == 0 then 0 else Ones(a + b)
  {
  }

  lemma OnesOfOnes(a: int, b: int)
    ensures Ones(Ones(a) + b) == Ones(a + b)
  {
  }

  /** One turn of the checksum loops. */
  function Accumulate(result: int, word: u16): int {
    if result + word > 0xffff then result + word - 0xffff else result + word
  }

  /** The accumulator, with `left` still to add out of `total`. */
  ghost predicate Summing(result: int, left: nat, total: nat) {
    1 <= result <= 0xffff && Ones(result + left) == Ones(total)
  }

  lemma SummingStarts(total: nat)
    ensures Summing(0xffff, total, total)
  {
  }

  lemma SummingOn(result: int, word: u16, rest: nat, total: nat)
    requires Summing(result, word + rest, total)
    ensures Summing(Accumulate(result, word), rest, total)
  {
  }

  lemma SummingEnds(result: int, total: nat)
    requires Summing(result, 0, total)
    ensures result == Ones(total) && NotAsU16(result) == Complement(total)
  {
  }

  lemma SummingMore(result: int, total: nat, more: nat)
    requires Summing(result, 0, total)
    ensures Summing(result, more, total + more)
  {
    OnesOfOnes(total, more);
  }

  /** `!result as u16` on a `u32` that fits in 16 bits. */
  function NotAsU16(result: int): u16 {
    AsU16(0xffff_ffff - result)
  }

  lemma SuffixSum(s: Bytes, i: nat)
    requires i <= |s|
    ensures i + 2 <= |s| ==> Sum(s[i..]) == Word(s, i) + Sum(s[i + 2..])
    ensures i + 1 == |s| ==> Sum(s[i..]) == s[i] as int * 256
    ensures i == |s| ==> Sum(s[i..]) == 0
  {
    if i + 2 <= |s| {
      assert s[i..][2..] == s[i + 2..];
    }
  }

  method IpChecksum(input: array<byte>) returns (checksum: u16)
    requires input.Length >= 20
    ensures checksum == HeaderChecksum(input[..])
  {
    hide Sum, Word, Ones, Summing, Complement, NotAsU16;
    var result := 0xffff;
    var hdr := input[..20];
    var i := 0;
    assert input[..][..20] == hdr == hdr[0..];
    SummingStarts(Sum(hdr));
    while i < 20
      invariant 0 <= i <= 20 && i % 2 == 0
      invariant Summing(result, Sum(hdr[i..]), Sum(hdr))
    {
      SuffixSum(hdr, i);
      SummingOn(result, Word(hdr, i), Sum(hdr[i + 2..]), Sum(hdr));
      result := result + Word(hdr, i);
      if result > 0xffff {
        result := result - 0xffff;
      }
      i := i + 2;
    }
    SuffixSum(hdr, 20);
    SummingEnds(result, Sum(hdr));
    checksum := NotAsU16(result);
  }

  method TcpUdpChecksum(input: array<byte>, protocol: Protocol) returns (checksum: u16)
    requires input.Length >= 20
    ensures checksum == SegmentChecksum(input[..], protocol)
  {
    hide Sum, Word, Ones, Summing, Complement, NotAsU16, Pseudo, AsU16, Be16;
    var result := 0xffff;
    var pseudo := input[12..20] + [0, protocol.Number()] + Be16(AsU16(AsU16(input.Length) - 20));
    assert input[..][12..20] == input[12..20];
    PseudoIs(input[..], protocol);
    var i := 0;
    assert pseudo[0..] == pseudo;
    SummingStarts(Sum(pseudo));
    while i < 12
      invariant 0 <= i <= 12 && i % 2 == 0
      invariant Summing(result, Sum(pseudo[i..]), Sum(pseudo))
    {
      SuffixSum(pseudo, i);
      SummingOn(result, Word(pseudo, i), Sum(pseudo[i + 2..]), Sum(pseudo));
      result := result + Word(pseudo, i);
      if result > 0xffff {
        result := result - 0xffff;
      }
      i := i + 2;
    }
    SuffixSum(pseudo, 12);
    var pdu := input[20..];
    ghost var total := Sum(pseudo) + Sum(pdu);
    assert input[..][20..] == pdu == pdu[0..];
    SummingMore(result, Sum(pseudo), Sum(pdu));
    i := 0;
    while i < |pdu|
      invariant 0 <= i <= |pdu|
      invariant Summing(result, Sum(pdu[i..]), total)
    {
      SuffixSum(pdu, i);
      if |pdu| - i == 1 {
        SuffixSum(pdu, i + 1);
        SummingOn(result, pdu[i] as int * 256, 0, total);
        result := result + pdu[i] as int * 256;
        i := i + 1;
      } else {
        SummingOn(result, Word(pdu, i), Sum(pdu[i + 2..]), total);
        result := result + Word(pdu, i);
        i := i + 2;
      }
      if result > 0xffff {
        result := result - 0xffff;
      }
    }
    SuffixSum(pdu, |pdu|);
    SummingEnds(result, total);
    checksum := NotAsU16(result);
  }

  function HeaderChecksum(packet: Bytes): u16
    requires |packet| >= 20
  {
    Complement(Sum(packet[..20]))
  }

  function Pseudo(packet: Bytes, protocol: Protocol): (p: Bytes)
    requires |packet| >= 20
    ensures |p| == 12
  {
    packet[12..20] + [0, protocol.Number()] + Be16(AsU16(|packet| - 20))
  }

  lemma PseudoIs(packet: Bytes, protocol: Protocol)
    requires |packet| >= 20
    ensures packet[12..20] + [0, protocol.Number()] + Be16(AsU16(AsU16(|packet|) - 20)) == Pseudo(packet, protocol)
  {
    hide Be16, AsU16;
    WrapTwice(|packet|, 20);
  }

  lemma WrapTwice(x: int, y: u16)
    ensures AsU16(AsU16(x) - y) == AsU16(x - y)
  {
    assert AsU16(x) == x - 0x1_0000 * (x / 0x1_0000);
  }

  function SegmentChecksum(packet: Bytes, protocol: Protocol): u16
    requires |packet| >= 20
  {
    Complement(Sum(Pseudo(packet, protocol)) + Sum(packet[20..]))
  }

  // ----- builders

  datatype UdpBuilder = UdpBuilder(source: u16, destination: u16, payload: Option<Bytes>) {
    function Build(): (s: Bytes)
      ensures |s| >= 8 && Word(s, 6) == 0
    {
      var data := if payload.None? then [] else payload.value;
      Be16(source) + Be16(destination) + Be16(AsU16(8 + |data|)) + Be16(0) + data
    }
  }

  datatype TcpBuilder = TcpBuilder(source: u16, destination: u16, payload: Bytes) {
    function Build(): (s: Bytes)
      ensures |s| >= 20 && Word(s, 16) == 0
    {
      Be16(source) + Be16(destination) + [0, 0, 0, 0] + [0, 0, 0, 0]
      + Be16(0x5000) + Be16(1024) + Be16(0) + Be16(0) + payload
    }
  }

  type Address = a: Bytes | |a| == 4 witness [0, 0, 0, 0]

  datatype Ip4Builder = Ip4Builder(source: Address, dest: Address, protocol: Protocol, ttl: byte, payload: Bytes) {
    function Header(): (h: Bytes)
      ensures |h| == 20
    {
      Be16(0x4500) + Be16(AsU16(20 + |payload|)) + [0, 0, 0, 0] + [ttl, protocol.Number()]
      + Be16(0) + source + dest
    }

    predicate Patchable() {
      |payload| >= protocol.Field() + 2
    }

    /** What stands where the segment's checksum goes. */
    function Stale(): u16
      requires Patchable()
    {
      Word(payload, protocol.Field())
    }

    /** The finished packet. */
    function Packet(): (p: Bytes)
      requires Patchable()
      ensures |p| == 20 + |payload|
    {
      var raw := Header() + payload;
      var summed := Patch(raw, 10, HeaderChecksum(raw));
      Patch(summed, 20 + protocol.Field(), SegmentChecksum(summed, protocol))
    }

    /** `build`. A segment too short to hold its checksum is outside its bounds. */
    method Build() returns (out: array<byte>)
      requires Patchable()
      ensures fresh(out) && out[..] == Packet()
    {
      var raw := Header() + payload;
      out := new byte[|raw|](i requires 0 <= i < |raw| => raw[i]);
      assert out[..] == raw;
      var checksum := IpChecksum(out);
      out[10] := checksum / 256;
      out[11] := checksum % 256;
      ghost var summed := Patch(raw, 10, checksum);
      assert out[..] == summed;
      checksum := TcpUdpChecksum(out, protocol);
      if protocol.Udp? {
        out[26] := checksum / 256;
        out[27] := checksum % 256;
      } else {
        out[36] := checksum / 256;
        out[37] := checksum % 256;
      }
      assert out[..] == Patch(summed, 20 + protocol.Field(), checksum);
    }
  }

  function Patch(s: Bytes, k: nat, w: u16): (r: Bytes)
    requires k + 2 <= |s|
    ensures |r| == |s| && Word(r, k) == w
    ensures r[..k] == s[..k] && r[k + 2..] == s[k + 2..]
  {
    s[k := w / 256][k + 1 := w % 256]
  }

  // ----- what the checksums are for

  lemma {:induction false} PatchedSum(s: Bytes, k: nat, w: u16)
    requires k + 2 <= |s| && k % 2 == 0
    ensures Sum(Patch(s, k, w)) == Sum(s) - Word(s, k) + w
    decreases k
  {
    var r := Patch(s, k, w);
    if k == 0 {
      assert r[2..] == s[2..];
    } else {
      PatchedSum(s[2..], k - 2, w);
      assert r[2..] == Patch(s[2..], k - 2, w);
      assert Word(r, 0) == Word(s, 0);
    }
  }

  /** Writing the complement of a sum over what stood there makes the new sum check,
      exactly if that was zero, in either of its forms. */
  lemma PatchedSumChecks(sum: nat, stale: u16)
    ensures Complement(sum - stale + Complement(sum)) == 0 <==> stale == 0 || stale == 0xffff
  {
    var r := Ones(sum);
    assert (sum - r) % 0xffff == 0;
    var q := (sum - r) / 0xffff;
    assert sum - stale + 0xffff - r == (q + 1) * 0xffff - stale;
    OnesOfMultiple(q + 1, stale);
  }

  lemma OnesOfMultiple(q: int, stale: u16)
    ensures Ones(q * 0xffff - stale) == 0xffff <==> stale == 0 || stale == 0xffff
  {
  }

  /** Over the finished packet the header's checksum comes out as 0, and the segment's
      does exactly if its field was zero before. */
  lemma ChecksumsCheck(b: Ip4Builder)
    requires b.Patchable()
    ensures HeaderChecksum(b.Packet()) == 0
    ensures SegmentChecksum(b.Packet(), b.protocol) == 0 <==> b.Stale() == 0 || b.Stale() == 0xffff
  {
    hide Sum, Word, Ones, Complement, Ip4Builder.Header, AsU16, Be16;
    var raw, k := b.Header() + b.payload, b.protocol.Field();
    var header := HeaderChecksum(raw);
    var summed := Patch(raw, 10, header);
    var segment := SegmentChecksum(summed, b.protocol);
    HeaderFieldIsClear(b);
    PatchKeeps(summed, 20 + k, segment);
    PatchOfPart(raw, b.Header(), 10, header);
    PatchedSum(raw[..20], 10, header);
    PatchedSumChecks(Sum(raw[..20]), 0);
    PatchOfRest(summed, k, segment);
    assert summed[20..] == b.payload;
    PatchedSum(b.payload, k, segment);
    PatchedSumChecks(Sum(Pseudo(summed, b.protocol)) + Sum(b.payload), b.Stale());
  }

  lemma HeaderFieldIsClear(b: Ip4Builder)
    ensures Word(b.Header(), 10) == 0
    ensures (b.Header() + b.payload)[..20] == b.Header()
  {
  }

  /** Patching the segment leaves the header alone. */
  lemma PatchKeeps(s: Bytes, k: nat, w: u16)
    requires 20 <= k <= |s| - 2
    ensures Patch(s, k, w)[..20] == s[..20] && Patch(s, k, w)[12..20] == s[12..20]
    ensures forall p: Protocol :: Pseudo(Patch(s, k, w), p) == Pseudo(s, p)
  {
    var r := Patch(s, k, w);
    assert r[..20] == r[..k][..20] && s[..20] == s[..k][..20];
    assert r[12..20] == r[..20][12..] && s[12..20] == s[..20][12..];
  }

  lemma PatchOfPart(s: Bytes, part: Bytes, k: nat, w: u16)
    requires part <= s && k + 2 <= |part|
    ensures Patch(s, k, w)[..|part|] == Patch(part, k, w)
    ensures Patch(s, k, w)[|part|..] == s[|part|..]
  {
  }

  lemma PatchOfRest(s: Bytes, k: nat, w: u16)
    requires 20 + k + 2 <= |s|
    ensures Patch(s, 20 + k, w)[20..] == Patch(s[20..], k, w)
  {
  }

  // ----- a receiver

  datatype Segment = UdpData(source: u16, destination: u16, data: Bytes)
                   | TcpData(source: u16, destination: u16, data: Bytes)

  datatype Datagram = Datagram(source: Bytes, dest: Bytes, ttl: byte, segment: Segment)

  /** A receiver's view of an IPv4 packet without options: version, length, both
      checksums and, for UDP, the segment's own length have to be right. */
  function Receive(packet: Bytes): Option<Datagram> {
    if |packet| < 20 || Word(packet, 0) != 0x4500 || Word(packet, 2) != |packet| || HeaderChecksum(packet) != 0 then
      None
    else
      match ReceiveSegment(packet)
      case None => None
      case Some(segment) => Some(Datagram(packet[12..16], packet[16..20], packet[8], segment))
  }

  function ReceiveSegment(packet: Bytes): Option<Segment>
    requires |packet| >= 20
  {
    var pdu := packet[20..];
    if packet[9] == 17 then
      if |pdu| < 8 || Word(pdu, 4) != |pdu| || SegmentChecksum(packet, Udp) != 0 then None
      else Some(UdpData(Word(pdu, 0), Word(pdu, 2), pdu[8..]))
    else if packet[9] == 6 then
      if |pdu| < 20 || pdu[12] != 0x50 || SegmentChecksum(packet, Tcp) != 0 then None
      else Some(TcpData(Word(pdu, 0), Word(pdu, 2), pdu[20..]))
    else None
  }

  /** A UDP payload wrapped by the two builders reaches a receiver as it was, exactly if
      the packet's length fits its length field. */
  lemma UdpArrives(udp: UdpBuilder, source: Address, dest: Address, ttl: byte)
    ensures var b := Ip4Builder(source, dest, Udp, ttl, udp.Build());
            var data := if udp.payload.None? then [] else udp.payload.value;
            Receive(b.Packet()) ==
            if |b.Packet()| <= 0xffff then Some(Datagram(source, dest, ttl, UdpData(udp.source, udp.destination, data)))
            else None
  {
    hide HeaderChecksum, SegmentChecksum, Ip4Builder.Packet, UdpBuilder.Build;
    var b := Ip4Builder(source, dest, Udp, ttl, udp.Build());
    ChecksumsCheck(b);
    PacketFields(b);
    UdpFields(udp);
  }

  lemma TcpArrives(tcp: TcpBuilder, source: Address, dest: Address, ttl: byte)
    ensures var b := Ip4Builder(source, dest, Tcp, ttl, tcp.Build());
            Receive(b.Packet()) ==
            if |b.Packet()| <= 0xffff then
              Some(Datagram(source, dest, ttl, TcpData(tcp.source, tcp.destination, tcp.payload)))
            else None
  {
    hide HeaderChecksum, SegmentChecksum, Ip4Builder.Packet, TcpBuilder.Build;
    var b := Ip4Builder(source, dest, Tcp, ttl, tcp.Build());
    ChecksumsCheck(b);
    PacketFields(b);
    TcpFields(tcp);
  }

  lemma UdpFields(udp: UdpBuilder)
    ensures var s := udp.Build();
            && Word(s, 0) == udp.source && Word(s, 2) == udp.destination && Word(s, 4) == AsU16(|s|)
            && s[8..] == if udp.payload.None? then [] else udp.payload.value
  {
  }

  lemma TcpFields(tcp: TcpBuilder)
    ensures var s := tcp.Build();
            && Word(s, 0) == tcp.source && Word(s, 2) == tcp.destination && s[12] == 0x50
            && s[4..12] == [0, 0, 0, 0, 0, 0, 0, 0] && s[13] == 0 && Word(s, 14) == 1024 && Word(s, 18) == 0
            && s[20..] == tcp.payload
  {
  }

  /** The finished packet is the header and the segment, but for the two checksums. */
  lemma PacketFields(b: Ip4Builder)
    requires b.Patchable()
    ensures var p := b.Packet();
            && Word(p, 0) == 0x4500 && Word(p, 2) == AsU16(|p|)
            && p[4..8] == [0, 0, 0, 0] && p[8] == b.ttl && p[9] == b.protocol.Number()
            && p[12..16] == b.source && p[16..20] == b.dest
            && (forall i :: 0 <= i < |b.payload| && i != b.protocol.Field() && i != b.protocol.Field() + 1 ==>
                  p[20..][i] == b.payload[i])
            && (forall n :: b.protocol.Field() + 2 <= n <= |b.payload| ==> p[20..][n..] == b.payload[n..])
  {
    hide HeaderChecksum, SegmentChecksum;
  }
}
