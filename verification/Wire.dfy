/** The KCP wire format: 24-byte little-endian segment headers, datagrams that hold
    several segments, the greedy packing of `ikcp_flush` and the decoding loop of
    `ikcp_input`. */
module Wire {
  import opened Words

  const OVERHEAD: int := 24
  const CMD_PUSH: int := 81
  const CMD_ACK: int := 82
  const CMD_WASK: int := 83
  const CMD_WINS: int := 84

  /** The part of `IKCPSEG` that travels; `len` is `|data|`. */
  datatype Seg = Seg(conv: u32, cmd: u32, frg: u32, wnd: u32, ts: u32, sn: u32, una: u32, data: bytes)

  predicate KnownCmd(cmd: int) {
    cmd == CMD_PUSH || cmd == CMD_ACK || cmd == CMD_WASK || cmd == CMD_WINS
  }

  // ----- fixed-width fields

  function Le16(w: u16): (b: bytes) {
    [w % 256, w / 256]
  }

  function Le32(l: u32): (b: bytes) {
    [l % 256, l / 256 % 256, l / 256 / 256 % 256, l / 256 / 256 / 256]
  }

  function Get16(b: bytes, at: nat): u16
    requires at + 2 <= |b|
  {
    b[at] as int + 256 * b[at + 1] as int
  }

  function Get32(b: bytes, at: nat): u32
    requires at + 4 <= |b|
  {
    b[at] as int + 0x100 * b[at + 1] as int + 0x1_0000 * b[at + 2] as int + 0x100_0000 * b[at + 3] as int
  }

  lemma GetLe16(w: u16, b: bytes, at: nat)
    requires at + 2 <= |b| && b[at..at + 2] == Le16(w)
    ensures Get16(b, at) == w
  {
    assert b[at] == b[at..at + 2][0] && b[at + 1] == b[at..at + 2][1];
  }

  lemma GetLe32(l: u32, b: bytes, at: nat)
    requires at + 4 <= |b| && b[at..at + 4] == Le32(l)
    ensures Get32(b, at) == l
  {
    var f := b[at..at + 4];
    assert b[at] == f[0] && b[at + 1] == f[1] && b[at + 2] == f[2] && b[at + 3] == f[3];
  }

  // ----- segments

  /** `ikcp_encode_seg`: `cmd`, `frg` and `wnd` are cut to their wire widths. */
  function EncodeHeader(s: Seg): (b: bytes)
    ensures |b| == OVERHEAD
  {
    Le32(s.conv) + [s.cmd % 256, s.frg % 256] + Le16(s.wnd % 0x1_0000)
    + Le32(s.ts) + Le32(s.sn) + Le32(s.una) + Le32(Wrap(|s.data|))
  }

  function Encode(s: Seg): (b: bytes)
    ensures |b| == OVERHEAD + |s.data|
  {
    EncodeHeader(s) + s.data
  }

  /** A segment whose fields survive the wire widths and that its peer will accept. */
  predicate Transportable(s: Seg, conv: u32) {
    s.conv == conv && KnownCmd(s.cmd) && s.frg < 256 && s.wnd < 0x1_0000 && |s.data| < TWO31
  }

  datatype Decoded = Decoded(segs: seq<Seg>, code: int)

  /** The segments that the loop of `ikcp_input` takes out of a datagram before it
      stops, and the result code it stops with. */
  function Decode(d: bytes, conv: u32): Decoded {
    if |d| < OVERHEAD then Decoded([], 0)
    else if Get32(d, 0) != conv then Decoded([], -1)
    else if |d| - OVERHEAD < Get32(d, 20) || Get32(d, 20) >= TWO31 then Decoded([], -2)
    else if !KnownCmd(d[4]) then Decoded([], -3)
    else
      var rest := Decode(d[OVERHEAD + Get32(d, 20)..], conv);
      Decoded([DecodeHead(d)] + rest.segs, rest.code)
  }

  /** The segment at the front of a datagram that holds all its bytes. */
  function DecodeHead(d: bytes): Seg
    requires |d| >= OVERHEAD && |d| - OVERHEAD >= Get32(d, 20)
  {
    Seg(Get32(d, 0), d[4], d[5], Get16(d, 6), Get32(d, 8), Get32(d, 12), Get32(d, 16),
        d[OVERHEAD..OVERHEAD + Get32(d, 20)])
  }

  lemma HeaderSlices(s: Seg, d: bytes)
    requires OVERHEAD <= |d| && d[..OVERHEAD] == EncodeHeader(s)
    ensures d[0..4] == Le32(s.conv) && d[4] == s.cmd % 256 && d[5] == s.frg % 256 && d[6..8] == Le16(s.wnd % 0x1_0000)
    ensures d[8..12] == Le32(s.ts) && d[12..16] == Le32(s.sn) && d[16..20] == Le32(s.una)
    ensures d[20..24] == Le32(Wrap(|s.data|))
  {
    var h := EncodeHeader(s);
    assert forall i :: 0 <= i < OVERHEAD ==> d[i] == d[..OVERHEAD][i] == h[i];
  }

  /** The header on the wire, byte by byte: 24 bytes, the words with their low byte first. */
  lemma Layout(s: Seg)
    ensures var d := Encode(s);
            && |d| == 24 + |s.data| && d[24..] == s.data && d[4] == s.cmd % 256 && d[5] == s.frg % 256
            && d[6] as int + 256 * d[7] as int == s.wnd % 65536
            && LowFirst(d[0..4]) == s.conv && LowFirst(d[8..12]) == s.ts && LowFirst(d[12..16]) == s.sn
            && LowFirst(d[16..20]) == s.una && LowFirst(d[20..24]) == |s.data| % 0x1_0000_0000
  {
    hide EncodeHeader, Le16, Le32, LowFirst;
    var d := Encode(s);
    HeaderSlices(s, d);
    WordBytes(s.conv);
    WordBytes(s.ts);
    WordBytes(s.sn);
    WordBytes(s.una);
    WordBytes(Wrap(|s.data|));
    HalfBytes(s.wnd % 0x1_0000);
    assert d[6] == d[6..8][0] && d[7] == d[6..8][1];
  }

  function LowFirst(b: bytes): int {
    if b == [] then 0 else b[0] as int + 256 * LowFirst(b[1..])
  }

  lemma WordBytes(l: u32)
    ensures LowFirst(Le32(l)) == l
  {
    LowFirstOf(l % 256, l / 256 % 256, l / 256 / 256 % 256, l / 256 / 256 / 256);
  }

  lemma LowFirstOf(x: byte, y: byte, z: byte, w: byte)
    ensures LowFirst([x, y, z, w]) == x as int + 0x100 * y as int + 0x1_0000 * z as int + 0x100_0000 * w as int
  {
    LowFirstStep(x, [y, z, w]);
    LowFirstStep(y, [z, w]);
    LowFirstStep(z, [w]);
    LowFirstStep(w, []);
    assert [z] + [w] == [z, w] && [y] + [z, w] == [y, z, w] && [x] + [y, z, w] == [x, y, z, w] && [w] + [] == [w];
  }

  lemma LowFirstStep(x: byte, b: bytes)
    ensures LowFirst([x] + b) == x as int + 256 * LowFirst(b)
  {
    assert ([x] + b)[1..] == b;
  }

  lemma HalfBytes(w: u16)
    ensures |Le16(w)| == 2 && Le16(w)[0] as int + 256 * Le16(w)[1] as int == w
  {
  }

  lemma HeaderFields(s: Seg, conv: u32, d: bytes)
    requires Transportable(s, conv)
    requires OVERHEAD <= |d| && d[..OVERHEAD] == EncodeHeader(s)
    ensures Get32(d, 0) == s.conv && d[4] == s.cmd && d[5] == s.frg && Get16(d, 6) == s.wnd
    ensures Get32(d, 8) == s.ts && Get32(d, 12) == s.sn && Get32(d, 16) == s.una && Get32(d, 20) == |s.data|
  {
    HeaderSlices(s, d);
    GetLe32(s.conv, d, 0);
    GetLe16(s.wnd, d, 6);
    GetLe32(s.ts, d, 8);
    GetLe32(s.sn, d, 12);
    GetLe32(s.una, d, 16);
    GetLe32(|s.data|, d, 20);
  }

  /** Decoding undoes encoding one segment at a time. */
  lemma DecodeEncode(s: Seg, conv: u32, rest: bytes)
    requires Transportable(s, conv)
    ensures Decode(Encode(s) + rest, conv)
         == Decoded([s] + Decode(rest, conv).segs, Decode(rest, conv).code)
  {
    var d := Encode(s) + rest;
    assert d[..OVERHEAD] == EncodeHeader(s);
    HeaderFields(s, conv, d);
    assert d[OVERHEAD..OVERHEAD + |s.data|] == s.data;
    assert d[OVERHEAD + |s.data|..] == rest;
    assert DecodeHead(d) == s;
  }

  predicate AllTransportable(ss: seq<Seg>, conv: u32) {
    forall s <- ss :: Transportable(s, conv)
  }

  function EncodeAll(ss: seq<Seg>): bytes
  {
    if ss == [] then [] else Encode(ss[0]) + EncodeAll(ss[1..])
  }

  lemma {:induction false} DecodeEncodeAll(ss: seq<Seg>, conv: u32)
    requires AllTransportable(ss, conv)
    ensures Decode(EncodeAll(ss), conv) == Decoded(ss, 0)
  {
    if ss != [] {
      DecodeEncode(ss[0], conv, EncodeAll(ss[1..]));
      DecodeEncodeAll(ss[1..], conv);
      assert ss == [ss[0]] + ss[1..];
    }
  }

  lemma {:induction false} EncodeAllAppend(ss: seq<Seg>, s: Seg)
    ensures EncodeAll(ss + [s]) == EncodeAll(ss) + Encode(s)
  {
    if ss == [] {
      assert EncodeAll([s]) == Encode(s);
    } else {
      assert (ss + [s])[1..] == ss[1..] + [s];
      EncodeAllAppend(ss[1..], s);
    }
  }

  // ----- any datagram

  /** A word read off the wire and written again is the same bytes. */
  lemma WordAgain(d: bytes, at: nat)
    requires at + 4 <= |d|
    ensures Le32(Get32(d, at)) == d[at..at + 4] && Get32(d, at) == LowFirst(d[at..at + 4])
  {
    var x, y, z, w := d[at], d[at + 1], d[at + 2], d[at + 3];
    assert d[at..at + 4] == [x, y, z, w];
    LowFirstOf(x, y, z, w);
    FourBytes(x, y, z, w);
  }

  lemma FourBytes(x: byte, y: byte, z: byte, w: byte)
    ensures Le32(x as int + 0x100 * y as int + 0x1_0000 * z as int + 0x100_0000 * w as int) == [x, y, z, w]
  {
  }

  lemma HalfAgain(d: bytes, at: nat)
    requires at + 2 <= |d|
    ensures Le16(Get16(d, at)) == d[at..at + 2]
  {
  }

  /** Encoding undoes decoding: the segment at the front of a datagram is written as the same
      bytes. */
  lemma HeadAgain(d: bytes)
    requires |d| >= OVERHEAD && |d| - OVERHEAD >= Get32(d, 20)
    ensures Encode(DecodeHead(d)) == d[..OVERHEAD + Get32(d, 20)]
  {
    hide Le32, Le16, Get32, Get16, LowFirst;
    var n := OVERHEAD + Get32(d, 20);
    WordAgain(d, 0);
    HalfAgain(d, 6);
    WordAgain(d, 8);
    WordAgain(d, 12);
    WordAgain(d, 16);
    WordAgain(d, 20);
    var s := DecodeHead(d);
    assert Wrap(|s.data|) == Get32(d, 20);
    assert s.cmd % 256 == s.cmd && s.frg % 256 == s.frg && s.wnd % 0x1_0000 == s.wnd;
    assert [s.cmd % 256, s.frg % 256] == d[4..6];
    assert EncodeHeader(s) == d[0..4] + d[4..6] + d[6..8] + d[8..12] + d[12..16] + d[16..20] + d[20..24];
    SevenPieces(d, n);
  }

  lemma SevenPieces(d: bytes, n: nat)
    requires 24 <= n <= |d|
    ensures d[0..4] + d[4..6] + d[6..8] + d[8..12] + d[12..16] + d[16..20] + d[20..24] + d[24..n] == d[..n]
  {
  }

  /** Why the loop of `ikcp_input` stops in front of these bytes. */
  function StopCode(rest: bytes, conv: u32): int {
    if |rest| < 24 then 0
    else if LowFirst(rest[0..4]) != conv then -1
    else if LowFirst(rest[20..24]) > |rest| - 24 || LowFirst(rest[20..24]) >= 0x8000_0000 then -2
    else -3
  }

  /** Decoding any bytes whatever: the segments taken are, written again, the bytes up to where
      the loop stops, and the code says why it stops there. */
  lemma {:induction false} DecodeExactly(d: bytes, conv: u32) returns (rest: bytes)
    ensures var dec := Decode(d, conv);
            && EncodeAll(dec.segs) + rest == d && dec.code == StopCode(rest, conv)
            && (dec.code == -3 ==> |rest| > 4 && rest[4] !in {81, 82, 83, 84})
            && forall s <- dec.segs :: s.conv == conv && s.cmd in {81, 82, 83, 84}
    decreases |d|
  {
    hide Get32, LowFirst, Encode, DecodeHead, Decode, KnownCmd, StopCode;
    if Stops(d, conv) {
      StopsExactly(d, conv);
      rest := d;
      assert [] + d == d;
    } else {
      GoesOn(d, conv);
      var n := OVERHEAD + Get32(d, 20);
      rest := DecodeExactly(d[n..], conv);
      var more := Decode(d[n..], conv).segs;
      assert ([DecodeHead(d)] + more)[1..] == more;
      Regroup(d, n, EncodeAll(more), rest);
    }
  }

  predicate Stops(d: bytes, conv: u32) {
    |d| < OVERHEAD || Get32(d, 0) != conv || |d| - OVERHEAD < Get32(d, 20) || Get32(d, 20) >= TWO31 || !KnownCmd(d[4])
  }

  lemma StopsExactly(d: bytes, conv: u32)
    requires Stops(d, conv)
    ensures Decode(d, conv) == Decoded([], StopCode(d, conv))
    ensures StopCode(d, conv) == -3 ==> |d| > 4 && d[4] !in {81, 82, 83, 84}
  {
    hide Get32, LowFirst;
    if |d| >= OVERHEAD {
      WordAgain(d, 0);
      WordAgain(d, 20);
    }
  }

  lemma GoesOn(d: bytes, conv: u32)
    requires !Stops(d, conv)
    ensures |d| >= OVERHEAD + Get32(d, 20)
    ensures var n, s := OVERHEAD + Get32(d, 20), DecodeHead(d);
            && Decode(d, conv) == Decoded([s] + Decode(d[n..], conv).segs, Decode(d[n..], conv).code)
            && Encode(s) == d[..n] && s.conv == conv && s.cmd in {81, 82, 83, 84}
  {
    hide Get32, Encode;
    HeadAgain(d);
  }

  lemma Regroup(d: bytes, n: nat, x: bytes, y: bytes)
    requires n <= |d| && x + y == d[n..]
    ensures d[..n] + x + y == d
  {
    assert d[..n] + x + y == d[..n] + (x + y);
  }

  // ----- packing segments into datagrams

  /** The datagrams handed to the output callback so far and the buffer being filled. */
  datatype Packer = Packer(done: seq<bytes>, cur: bytes)

  /** Flush the buffer first when `need` more bytes would exceed the MTU.  The output
      function swallows an empty buffer. */
  function MakeRoom(p: Packer, need: int, mtu: int): Packer {
    if |p.cur| + need > mtu then Packer(if p.cur == [] then p.done else p.done + [p.cur], []) else p
  }

  function Put(p: Packer, s: Seg, mtu: int): Packer
  {
    var q := MakeRoom(p, OVERHEAD + |s.data|, mtu);
    q.(cur := q.cur + Encode(s))
  }

  function PutAll(p: Packer, ss: seq<Seg>, mtu: int): Packer
    decreases |ss|
  {
    if ss == [] then p else PutAll(Put(p, ss[0], mtu), ss[1..], mtu)
  }

  function Finish(p: Packer): seq<bytes> {
    if p.cur == [] then p.done else p.done + [p.cur]
  }

  /** All the datagrams one flush emits for the segments `ss`. */
  function Pack(ss: seq<Seg>, mtu: int): seq<bytes>
  {
    Finish(PutAll(Packer([], []), ss, mtu))
  }

  lemma {:induction false} PutAllConcat(p: Packer, xs: seq<Seg>, ys: seq<Seg>, mtu: int)
    ensures PutAll(p, xs + ys, mtu) == PutAll(PutAll(p, xs, mtu), ys, mtu)
    decreases |xs|
  {
    if xs == [] {
      assert xs + ys == ys;
    } else {
      assert (xs + ys)[1..] == xs[1..] + ys;
      PutAllConcat(Put(p, xs[0], mtu), xs[1..], ys, mtu);
    }
  }

  /** What the receiver reads out of a list of datagrams, in order. */
  function DecodeEach(ds: seq<bytes>, conv: u32): seq<Seg> {
    if ds == [] then [] else DecodeEach(ds[..|ds| - 1], conv) + Decode(ds[|ds| - 1], conv).segs
  }

  /** A datagram that the peer decodes to the end without complaint. */
  predicate CleanDatagram(d: bytes, conv: u32, mtu: int) {
    0 < |d| <= mtu && Decode(d, conv).code == 0 && OVERHEAD <= |d|
  }

  predicate Fits(s: Seg, conv: u32, mtu: int) {
    Transportable(s, conv) && OVERHEAD + |s.data| <= mtu
  }

  /** What the packer holds while it works: clean finished datagrams, and a buffer that is
      the encoding of the segments `open`; together they are the segments `ss` put in. */
  ghost predicate PackerHolds(p: Packer, ss: seq<Seg>, open: seq<Seg>, conv: u32, mtu: int) {
    && (forall d <- p.done :: CleanDatagram(d, conv, mtu))
    && AllTransportable(open, conv)
    && p.cur == EncodeAll(open)
    && |p.cur| <= mtu
    && DecodeEach(p.done, conv) + open == ss
  }

  lemma PutHolds(p: Packer, s: Seg, ss: seq<Seg>, open: seq<Seg>, conv: u32, mtu: int)
    returns (open': seq<Seg>)
    requires PackerHolds(p, ss, open, conv, mtu) && Fits(s, conv, mtu)
    ensures PackerHolds(Put(p, s, mtu), ss + [s], open', conv, mtu)
  {
    if |p.cur| + OVERHEAD + |s.data| > mtu && p.cur != [] {
      open' := [s];
      CloseHolds(p, ss, open, conv, mtu);
      assert EncodeAll(open') == Encode(s);
    } else {
      open' := open + [s];
      EncodeAllAppend(open, s);
      assert DecodeEach(p.done, conv) + open' == ss + [s];
    }
  }

  lemma CloseHolds(p: Packer, ss: seq<Seg>, open: seq<Seg>, conv: u32, mtu: int)
    requires PackerHolds(p, ss, open, conv, mtu) && p.cur != []
    ensures forall d <- p.done + [p.cur] :: CleanDatagram(d, conv, mtu)
    ensures DecodeEach(p.done + [p.cur], conv) == ss
  {
    DecodeEncodeAll(open, conv);
    assert open != [];
    assert (p.done + [p.cur])[..|p.done|] == p.done;
  }

  lemma {:induction false} PutAllHolds(p: Packer, more: seq<Seg>, ss: seq<Seg>, open: seq<Seg>, conv: u32, mtu: int)
    returns (open': seq<Seg>)
    requires PackerHolds(p, ss, open, conv, mtu)
    requires forall s <- more :: Fits(s, conv, mtu)
    ensures PackerHolds(PutAll(p, more, mtu), ss + more, open', conv, mtu)
    decreases |more|
  {
    if more == [] {
      open' := open;
      assert ss + more == ss;
    } else {
      var mid := PutHolds(p, more[0], ss, open, conv, mtu);
      assert ss + more == ss + [more[0]] + more[1..];
      open' := PutAllHolds(Put(p, more[0], mtu), more[1..], ss + [more[0]], mid, conv, mtu);
    }
  }

  /** Packing round trip: every emitted datagram is non-empty, within the MTU and decodes
      with result 0, and decoding them in order gives back exactly the packed segments. */
  lemma PackRoundTrip(ss: seq<Seg>, conv: u32, mtu: int)
    requires mtu >= OVERHEAD
    requires forall s <- ss :: Fits(s, conv, mtu)
    ensures forall d <- Pack(ss, mtu) :: CleanDatagram(d, conv, mtu)
    ensures DecodeEach(Pack(ss, mtu), conv) == ss
  {
    assert PackerHolds(Packer([], []), [], [], conv, mtu);
    var open := PutAllHolds(Packer([], []), ss, [], [], conv, mtu);
    assert [] + ss == ss;
    var p := PutAll(Packer([], []), ss, mtu);
    if p.cur != [] {
      CloseHolds(p, ss, open, conv, mtu);
    } else {
      assert open == [];
    }
  }

  /** The size of the segment at the front. */
  function FrontSize(d: bytes): int {
    if |d| < OVERHEAD then 0 else OVERHEAD + Get32(d, 20)
  }

  /** No datagram would have held the first segment of the next one too. */
  predicate Tight(ds: seq<bytes>, mtu: int) {
    forall i :: 0 <= i < |ds| - 1 ==> |ds[i]| + FrontSize(ds[i + 1]) > mtu
  }

  predicate TightPacker(p: Packer, mtu: int) {
    Tight(Finish(p), mtu) && (p.cur == [] ==> p.done == []) && (p.cur != [] ==> |p.cur| >= OVERHEAD)
  }

  lemma FrontSizeOf(s: Seg, rest: bytes)
    requires |s.data| < TWO31
    ensures FrontSize(Encode(s) + rest) == OVERHEAD + |s.data|
  {
    hide EncodeHeader, Get32, Le32;
    var d := Encode(s) + rest;
    assert d[..OVERHEAD] == EncodeHeader(s);
    HeaderSlices(s, d);
    GetLe32(Wrap(|s.data|), d, 20);
  }

  lemma FrontSizeKept(d: bytes, more: bytes)
    requires |d| >= OVERHEAD
    ensures FrontSize(d + more) == FrontSize(d)
  {
  }

  lemma PutTight(p: Packer, s: Seg, mtu: int)
    requires TightPacker(p, mtu) && |s.data| < TWO31
    ensures TightPacker(Put(p, s, mtu), mtu)
  {
    hide FrontSize, Encode;
    var ds, ds' := Finish(p), Finish(Put(p, s, mtu));
    FrontSizeOf(s, []);
    assert Encode(s) + [] == Encode(s) && [] + Encode(s) == Encode(s);
    if p.cur != [] { FrontSizeKept(p.cur, Encode(s)); }
    forall i | 0 <= i < |ds'| - 1 ensures |ds'[i]| + FrontSize(ds'[i + 1]) > mtu {
      if i < |ds| - 1 { assert |ds[i]| + FrontSize(ds[i + 1]) > mtu; }
    }
  }

  lemma {:induction false} PutAllTight(p: Packer, ss: seq<Seg>, mtu: int)
    requires TightPacker(p, mtu) && forall s <- ss :: |s.data| < TWO31
    ensures TightPacker(PutAll(p, ss, mtu), mtu)
    decreases |ss|
  {
    hide TightPacker;
    if ss != [] {
      PutTight(p, ss[0], mtu);
      PutAllTight(Put(p, ss[0], mtu), ss[1..], mtu);
    }
  }

  /** Packing is greedy: a datagram is handed over only when the next segment would not fit, so no
      two neighbours could have been one. */
  lemma PackGreedy(ss: seq<Seg>, mtu: int)
    requires forall s <- ss :: |s.data| < TWO31
    ensures Tight(Pack(ss, mtu), mtu)
  {
    PutAllTight(Packer([], []), ss, mtu);
  }

  /** Membership form of the round trip: a segment read from an emitted datagram is one of
      the packed segments. */
  lemma {:induction false} DecodeEachMember(ds: seq<bytes>, conv: u32, d: bytes, s: Seg)
    requires d in ds && s in Decode(d, conv).segs
    ensures s in DecodeEach(ds, conv)
  {
    var last := |ds| - 1;
    if d != ds[last] {
      assert d in ds[..last];
      DecodeEachMember(ds[..last], conv, d, s);
    }
  }
}
