/** RTP packets carrying H.264: the 12-byte header of section 5.1 of RFC 3550, single NAL unit
    packets and FU-A fragments of sections 5.6 and 5.8 of RFC 6184. */
module Rtp {
  import opened Words

  const MTU: int := 1400
  const HEADER: int := 12
  const CHUNK: int := 1382
  const FU_A: int := 28

  function Wrap16(x: int): u16 {
    x % 0x1_0000
  }

  // ----- the header

  function Be16(x: u16): bytes {
    [x / 256, x % 256]
  }

  function Be32(x: u32): bytes {
    [x / 256 / 256 / 256, x / 256 / 256 % 256, x / 256 % 256, x % 256]
  }

  /** `build_rtp_header` with payload type 96. */
  function Header(sn: u16, ts: u32, ssrc: u32, marker: bool): (h: bytes)
    ensures |h| == HEADER
  {
    [0x80, if marker then 96 + 128 else 96] + Be16(sn) + Be32(ts) + Be32(ssrc)
  }

  /** What the reassembler takes from a packet. */
  datatype Parsed = Parsed(marker: bool, sn: u16, payload: bytes)

  /** `parseRtp` on a packet longer than its header. */
  function Parse(p: bytes): Parsed
    requires |p| > HEADER
  {
    Parsed(p[1] >= 128, p[2] as int * 256 + p[3] as int, p[HEADER..])
  }

  /** The timestamp and the source, which `parseRtp` extracts and the reassembler ignores. */
  datatype Origin = Origin(ts: u32, ssrc: u32)

  function Get32Be(p: bytes, at: nat): u32
    requires at + 4 <= |p|
  {
    p[at] as int * 0x100_0000 + p[at + 1] as int * 0x1_0000 + p[at + 2] as int * 0x100 + p[at + 3] as int
  }

  function ParseOrigin(p: bytes): Origin
    requires |p| >= HEADER
  {
    Origin(Get32Be(p, 4), Get32Be(p, 8))
  }

  lemma Be32Back(x: u32, p: bytes, at: nat)
    requires at + 4 <= |p| && p[at..at + 4] == Be32(x)
    ensures Get32Be(p, at) == x
  {
    var w := p[at..at + 4];
    assert w[0] == p[at] && w[1] == p[at + 1] && w[2] == p[at + 2] && w[3] == p[at + 3];
  }

  lemma ParseHeaderOrigin(sn: u16, ts: u32, ssrc: u32, marker: bool, payload: bytes)
    ensures ParseOrigin(Header(sn, ts, ssrc, marker) + payload) == Origin(ts, ssrc)
  {
    var p := Header(sn, ts, ssrc, marker) + payload;
    assert p[4..8] == Be32(ts) && p[8..12] == Be32(ssrc);
    Be32Back(ts, p, 4);
    Be32Back(ssrc, p, 8);
  }

  /** The first byte and the payload type, as section 5.1 of RFC 3550 lays them out. */
  datatype Profile = Profile(version: nat, padding: bool, extension: bool, sources: nat, payloadType: nat)

  function ParseProfile(p: bytes): Profile
    requires |p| >= HEADER
  {
    Profile(p[0] / 64, p[0] / 32 % 2 == 1, p[0] / 16 % 2 == 1, p[0] % 16, p[1] % 128)
  }

  /** Version 2, nothing optional, and payload type 96, the one the session description announces
      for H.264. */
  lemma ParseHeaderProfile(sn: u16, ts: u32, ssrc: u32, marker: bool, payload: bytes)
    ensures ParseProfile(Header(sn, ts, ssrc, marker) + payload) == Profile(2, false, false, 0, 96)
  {
  }

  lemma ParseHeader(sn: u16, ts: u32, ssrc: u32, marker: bool, payload: bytes)
    requires |payload| > 0
    ensures Parse(Header(sn, ts, ssrc, marker) + payload) == Parsed(marker, sn, payload)
  {
    var p := Header(sn, ts, ssrc, marker) + payload;
    assert p[HEADER..] == payload;
    assert p[2] == Be16(sn)[0] && p[3] == Be16(sn)[1];
  }

  // ----- bit fields of the NAL and FU headers

  /** The low five bits. */
  function NalType(b: byte): byte { b % 32 }

  /** The forbidden bit and the two reference bits. */
  function RefBits(b: byte): byte { b / 32 * 32 }

  function FuIndicator(h: byte): byte { RefBits(h) + FU_A }

  function FuHeader(h: byte, first: bool, last: bool): byte {
    (if first then 128 else 0) + (if last then 64 else 0) + NalType(h)
  }

  predicate IsFuStart(fuHeader: byte) { fuHeader >= 128 }

  predicate IsFuEnd(fuHeader: byte) { fuHeader / 64 % 2 == 1 }

  lemma FuFields(h: byte, first: bool, last: bool)
    ensures NalType(FuIndicator(h)) == FU_A
    ensures IsFuStart(FuHeader(h, first, last)) == first && IsFuEnd(FuHeader(h, first, last)) == last
    ensures NalType(FuHeader(h, first, last)) == NalType(h)
    ensures RefBits(FuIndicator(h)) + NalType(h) == h
  {
  }

  // ----- packetizing one NAL unit

  predicate Single(nal: bytes) {
    4 + |nal| + HEADER <= MTU
  }

  /** How many packets a NAL unit takes. */
  function PacketCount(nal: bytes): nat {
    if nal == [] then 0 else if Single(nal) then 1 else (|nal| - 1 + CHUNK - 1) / CHUNK
  }

  /** Parameter sets and SEI do not end a frame. */
  predicate EndsFrame(nal: bytes)
    requires nal != []
  {
    var t := NalType(nal[0]);
    t != 7 && t != 8 && t != 6
  }

  /** The j-th piece of a fragmented NAL unit, its header byte left out. */
  function Chunk(nal: bytes, j: nat): bytes
    requires nal != [] && j < PacketCount(nal)
  {
    nal[Min(1 + CHUNK * j, |nal|)..Min(1 + CHUNK * (j + 1), |nal|)]
  }

  function Payload(nal: bytes, j: nat): bytes
    requires nal != [] && j < PacketCount(nal)
  {
    if Single(nal) then nal
    else [FuIndicator(nal[0]), FuHeader(nal[0], j == 0, j == PacketCount(nal) - 1)] + Chunk(nal, j)
  }

  predicate Marker(nal: bytes, j: nat)
    requires nal != [] && j < PacketCount(nal)
  {
    if Single(nal) then EndsFrame(nal) else j == PacketCount(nal) - 1
  }

  /** The j-th packet of a NAL unit whose first packet takes number `sn`. */
  function Packet(nal: bytes, j: nat, sn: nat, ts: u32, ssrc: u32): bytes
    requires nal != [] && j < PacketCount(nal)
  {
    Header(Wrap16(sn + j), ts, ssrc, Marker(nal, j)) + Payload(nal, j)
  }

  function Packets(nal: bytes, sn: nat, ts: u32, ssrc: u32): seq<bytes> {
    seq(PacketCount(nal), j requires 0 <= j < PacketCount(nal) => Packet(nal, j, sn, ts, ssrc))
  }

  lemma FragmentCountAtLeastTwo(nal: bytes)
    requires nal != [] && !Single(nal)
    ensures PacketCount(nal) >= 2
    ensures 1 + CHUNK * (PacketCount(nal) - 1) < |nal| <= 1 + CHUNK * PacketCount(nal)
  {
  }

  /** A packet never exceeds the 1396-byte buffer it is built in. */
  lemma PacketFits(nal: bytes, j: nat, sn: nat, ts: u32, ssrc: u32)
    requires nal != [] && j < PacketCount(nal)
    ensures HEADER < |Packet(nal, j, sn, ts, ssrc)| <= MTU - 4
  {
    if !Single(nal) { FragmentCountAtLeastTwo(nal); }
  }

  function Concat(nal: bytes, n: nat): bytes
    requires nal != [] && n <= PacketCount(nal)
  {
    if n == 0 then [] else Concat(nal, n - 1) + Chunk(nal, n - 1)
  }

  /** One slice after another. */
  lemma JoinSlices(nal: bytes, a: nat, b: nat, c: nat)
    requires a <= b <= c <= |nal|
    ensures nal[a..b] + nal[b..c] == nal[a..c]
  {
  }

  /** Where the j-th chunk lies. */
  lemma ChunkBounds(nal: bytes, j: nat)
    requires nal != [] && !Single(nal) && j < PacketCount(nal)
    ensures 1 + CHUNK * j < |nal| && 1 + CHUNK * (j + 1) == 1 + CHUNK * j + CHUNK
  {
    FragmentCountAtLeastTwo(nal);
    ChunkOrder(j, PacketCount(nal) - 1);
  }

  lemma ChunkOrder(i: nat, j: nat)
    requires i <= j
    ensures CHUNK * i <= CHUNK * j
  {
  }

  /** The chunks are the NAL unit without its header byte, cut in order. */
  lemma {:induction false} ConcatIsPrefix(nal: bytes, n: nat)
    requires nal != [] && !Single(nal) && n <= PacketCount(nal)
    ensures Concat(nal, n) == nal[1..Min(1 + CHUNK * n, |nal|)]
  {
    hide PacketCount, Single;
    if n > 0 {
      ConcatIsPrefix(nal, n - 1);
      ChunkBounds(nal, n - 1);
      JoinSlices(nal, 1, 1 + CHUNK * (n - 1), Min(1 + CHUNK * n, |nal|));
    }
  }

  lemma ConcatAll(nal: bytes)
    requires nal != [] && !Single(nal)
    ensures [nal[0]] + Concat(nal, PacketCount(nal)) == nal
  {
    ConcatIsPrefix(nal, PacketCount(nal));
    FragmentCountAtLeastTwo(nal);
  }

  // ----- the packets, byte by byte

  /** The head of a packet, read with no help from the code that wrote it. */
  predicate Headed(p: bytes, sn: nat, ts: u32, ssrc: u32, marker: bool) {
    && |p| > 12 && ParseProfile(p) == Profile(2, false, false, 0, 96) && p[1] / 128 == (if marker then 1 else 0)
    && p[2] as int * 256 + p[3] as int == sn % 65536 && ParseOrigin(p) == Origin(ts, ssrc)
  }

  lemma HeaderHeaded(sn: nat, ts: u32, ssrc: u32, marker: bool, payload: bytes)
    requires payload != []
    ensures var p := Header(Wrap16(sn), ts, ssrc, marker) + payload;
            Headed(p, sn, ts, ssrc, marker) && p[12..] == payload
  {
    hide Header;
    var p := Header(Wrap16(sn), ts, ssrc, marker) + payload;
    ParseHeader(Wrap16(sn), ts, ssrc, marker, payload);
    ParseHeaderOrigin(Wrap16(sn), ts, ssrc, marker, payload);
    ParseHeaderProfile(Wrap16(sn), ts, ssrc, marker, payload);
    MarkerBit(Wrap16(sn), ts, ssrc, marker, payload);
  }

  lemma MarkerBit(sn: u16, ts: u32, ssrc: u32, marker: bool, payload: bytes)
    ensures (Header(sn, ts, ssrc, marker) + payload)[1] / 128 == if marker then 1 else 0
  {
  }

  /** A unit of at most 1384 bytes goes into one packet, with the marker unless it is a parameter
      set or supplemental information. */
  lemma ShortUnit(nal: bytes, sn: nat, ts: u32, ssrc: u32)
    requires 1 <= |nal| <= 1384
    ensures var ps := Packets(nal, sn, ts, ssrc);
            && |ps| == 1 && ps[0][12..] == nal
            && Headed(ps[0], sn, ts, ssrc, nal[0] % 32 != 6 && nal[0] % 32 != 7 && nal[0] % 32 != 8)
  {
    hide Header, Headed, Wrap16;
    assert Packets(nal, sn, ts, ssrc)[0] == Packet(nal, 0, sn, ts, ssrc);
    HeaderHeaded(sn, ts, ssrc, Marker(nal, 0), nal);
  }

  /** A longer unit goes into fragments of 1382 bytes and a last one with the rest: consecutive
      numbers, the marker on the last, the first and the last flagged, and the reference bits and
      type of the unit in every one. */
  lemma LongUnit(nal: bytes, sn: nat, ts: u32, ssrc: u32, j: nat)
    requires |nal| > 1384 && j < |Packets(nal, sn, ts, ssrc)|
    ensures var ps := Packets(nal, sn, ts, ssrc);
            var p, last := ps[j], j == |ps| - 1;
            && 1382 * (|ps| - 1) < |nal| - 1 <= 1382 * |ps| && |p| > 14 && Headed(p, sn + j, ts, ssrc, last)
            && p[12] % 32 == 28 && p[12] / 32 == nal[0] / 32 && p[13] % 32 == nal[0] % 32
            && p[13] / 64 == (if j == 0 then 2 else 0) + (if last then 1 else 0)
            && 1 + 1382 * j < |nal| && p[14..] == nal[1 + 1382 * j..Min(1 + 1382 * (j + 1), |nal|)]
  {
    hide Header, Headed, Wrap16, PacketCount, FuHeader, FuIndicator, Payload, Chunk, Marker, Single, NalType, RefBits;
    LongPayload(nal, j);
    var p, last := Packet(nal, j, sn, ts, ssrc), j == PacketCount(nal) - 1;
    HeaderHeaded(sn + j, ts, ssrc, last, Payload(nal, j));
    FuBytes(nal[0], j == 0, last);
    TwoAndRest(p, FuIndicator(nal[0]), FuHeader(nal[0], j == 0, last), Chunk(nal, j));
  }

  lemma LongPayload(nal: bytes, j: nat)
    requires |nal| > 1384 && j < PacketCount(nal)
    ensures 1382 * (PacketCount(nal) - 1) < |nal| - 1 <= 1382 * PacketCount(nal) && 1 + 1382 * j < |nal|
    ensures Marker(nal, j) == (j == PacketCount(nal) - 1)
    ensures Chunk(nal, j) == nal[1 + 1382 * j..Min(1 + 1382 * (j + 1), |nal|)] && |Chunk(nal, j)| > 0
    ensures Payload(nal, j)
         == [FuIndicator(nal[0]), FuHeader(nal[0], j == 0, j == PacketCount(nal) - 1)] + Chunk(nal, j)
  {
    hide PacketCount, FuHeader, FuIndicator;
    FragmentCountAtLeastTwo(nal);
    ChunkBounds(nal, j);
  }

  lemma TwoAndRest(p: bytes, x: byte, y: byte, rest: bytes)
    requires |p| > 12 && p[12..] == [x, y] + rest
    ensures |p| == 14 + |rest| && p[12] == x && p[13] == y && p[14..] == rest
  {
    assert p[14..] == p[12..][2..];
    assert p[12] == p[12..][0];
    assert p[12..] == [x, y] + rest && |p[12..]| == |p| - 12;
    assert p[13] == p[12..][1];
  }

  lemma FuBytes(h: byte, first: bool, last: bool)
    ensures FuIndicator(h) % 32 == 28 && FuIndicator(h) / 32 == h / 32 && FuHeader(h, first, last) % 32 == h % 32
    ensures FuHeader(h, first, last) / 64 == (if first then 2 else 0) + (if last then 1 else 0)
  {
  }

  // ----- the sender

  class Session {
    /** The sequence counter; packets carry its low 16 bits. */
    var rtpSeq: nat
    const ssrc: u32
    /** Every packet handed to the transport. */
    var sent: seq<bytes>

    /** `rtsp_session_init` */
    constructor ()
      ensures rtpSeq == 0 && ssrc == 0x12345678 && sent == []
    {
      rtpSeq, ssrc, sent := 0, 0x12345678, [];
    }

    method NextSeq() returns (sn: u16)
      modifies this`rtpSeq
      ensures sn == Wrap16(old(rtpSeq)) && rtpSeq == old(rtpSeq) + 1
    {
      sn := Wrap16(rtpSeq);
      rtpSeq := rtpSeq + 1;
    }

    /** `build_rtp_header` writes the first twelve bytes of a packet buffer. */
    method BuildHeader(packet: array<byte>, sn: u16, ts: u32, marker: bool)
      requires packet.Length >= HEADER
      modifies packet
      ensures packet[..HEADER] == Header(sn, ts, ssrc, marker)
    {
      packet[0] := 0x80;
      packet[1] := 96;
      if marker { packet[1] := 96 + 128; }
      packet[2] := sn / 256;
      packet[3] := sn % 256;
      packet[4], packet[5], packet[6], packet[7] :=
        ts / 256 / 256 / 256, ts / 256 / 256 % 256, ts / 256 % 256, ts % 256;
      packet[8], packet[9], packet[10], packet[11] :=
        ssrc / 256 / 256 / 256, ssrc / 256 / 256 % 256, ssrc / 256 % 256, ssrc % 256;
      assert packet[..HEADER] == Header(sn, ts, ssrc, marker);
    }

    /** Build one packet in a fresh buffer of `MTU - 4` bytes and send what was filled. */
    method SendPacket(sn: u16, ts: u32, marker: bool, payload: bytes)
      requires HEADER + |payload| <= MTU - 4
      modifies this`sent
      ensures sent == old(sent) + [Header(sn, ts, ssrc, marker) + payload]
    {
      var packet := new byte[MTU - 4];
      BuildHeader(packet, sn, ts, marker);
      ghost var head := packet[..HEADER];
      forall i | 0 <= i < |payload| { packet[HEADER + i] := payload[i]; }
      assert packet[..HEADER + |payload|] == head + payload;
      sent := sent + [packet[..HEADER + |payload|]];
    }

    /** `rtp_send_h264`: nothing for an empty unit, one packet for a short one, FU-A fragments
        for a long one; the counter advances by the number of packets. */
    method SendNal(nal: bytes, ts: u32)
      modifies this`rtpSeq, this`sent
      ensures sent == old(sent) + Packets(nal, old(rtpSeq), ts, ssrc)
      ensures rtpSeq == old(rtpSeq) + PacketCount(nal)
    {
      if |nal| == 0 {
        assert Packets(nal, rtpSeq, ts, ssrc) == [];
        return;
      }
      if 4 + |nal| + HEADER <= MTU {
        var t := NalType(nal[0]);
        var marker := true;
        if t == 7 || t == 8 || t == 6 { marker := false; }
        var sn := NextSeq();
        assert Packets(nal, old(rtpSeq), ts, ssrc) == [Header(sn, ts, ssrc, marker) + nal];
        SendPacket(sn, ts, marker, nal);
        return;
      }
      SendFragments(nal, ts);
    }

    /** The FU-A loop. */
    method SendFragments(nal: bytes, ts: u32)
      requires nal != [] && !Single(nal)
      modifies this`rtpSeq, this`sent
      ensures sent == old(sent) + Packets(nal, old(rtpSeq), ts, ssrc)
      ensures rtpSeq == old(rtpSeq) + PacketCount(nal)
    {
      hide Header, Wrap16, PacketCount, Packet, FuHeader, FuIndicator;
      FragmentCountAtLeastTwo(nal);
      ghost var all := Packets(nal, rtpSeq, ts, ssrc);
      var pos, isStart := 0, true;
      ghost var j := 0;
      while pos < |nal| - 1
        invariant 0 <= j <= |all| && isStart == (j == 0) && rtpSeq == old(rtpSeq) + j
        invariant pos == Min(CHUNK * j, |nal| - 1) && (j == |all| <==> pos == |nal| - 1)
        invariant sent == old(sent) + all[..j]
        decreases |nal| - pos
      {
        var len := if |nal| - 1 - pos > MTU - 18 then MTU - 18 else |nal| - 1 - pos;
        var isLast := pos + len >= |nal| - 1;
        var payload := [FuIndicator(nal[0]), FuHeader(nal[0], isStart, isLast)] + nal[1 + pos..1 + pos + len];
        FragmentIs(nal, j, old(rtpSeq), ts, ssrc, payload, isLast);
        var sn := NextSeq();
        SendPacket(sn, ts, isLast, payload);
        assert all[..j + 1] == all[..j] + [all[j]];
        pos, isStart, j := pos + len, false, j + 1;
      }
      assert all[..|all|] == all;
    }
  }

  /** The j-th packet, from the pieces the loop puts together. */
  lemma FragmentIs(nal: bytes, j: nat, sn: nat, ts: u32, ssrc: u32, payload: bytes, isLast: bool)
    requires nal != [] && !Single(nal) && j < PacketCount(nal)
    requires isLast == (CHUNK * (j + 1) >= |nal| - 1)
    requires payload == [FuIndicator(nal[0]), FuHeader(nal[0], j == 0, isLast)]
                        + nal[1 + Min(CHUNK * j, |nal| - 1)..1 + Min(CHUNK * (j + 1), |nal| - 1)]
    ensures Packet(nal, j, sn, ts, ssrc) == Header(Wrap16(sn + j), ts, ssrc, isLast) + payload
  {
    hide Header, Wrap16, FuHeader, FuIndicator, PacketCount;
    FragmentCountAtLeastTwo(nal);
    ChunkBounds(nal, j);
    LastFragmentIs(nal, j);
  }

  /** The fragment that reaches the end is the last one. */
  lemma LastFragmentIs(nal: bytes, j: nat)
    requires nal != [] && !Single(nal) && j < PacketCount(nal)
    ensures CHUNK * (j + 1) >= |nal| - 1 <==> j == PacketCount(nal) - 1
  {
    hide PacketCount, Single;
    FragmentCountAtLeastTwo(nal);
    if j < PacketCount(nal) - 1 { ChunkOrder(j + 1, PacketCount(nal) - 1); }
  }
}
