/** Two KCP endpoints and an adversarial network.  A step sends, receives, updates or flushes
    at one end, or hands one end any datagram the other has ever emitted: the network may
    lose, repeat, reorder and delay.  Connections are of any length, so that sequence numbers
    come round again; a fragment is known by its position in the stream, and the 32-bit word
    that travels stands for that position. */
module Connection {
  import opened Words
  import opened Wire
  import opened Kcp
  import opened SenderInvariant
  import opened ReceiverInvariant
  import opened Endpoint
  import Rtt
  import Congestion

  /** A datagram handed to the output callback, with the positions it can speak of: its data
      lies from `first` up to `next` in the emitter's stream, its acknowledgements from `low`
      on in the other stream, and its `una` field means position `una` there. */
  datatype Datagram = Datagram(d: bytes, first: int, next: int, low: int, una: int)

  /** One end with its history: messages accepted by `ikcp_send`, messages returned by
      `ikcp_recv`, every datagram ever emitted, and a position below which no acknowledgement
      is waiting to be sent. */
  datatype Peer = Peer(k: Kcb, sent: seq<bytes>, got: seq<bytes>, net: seq<Datagram>, low: nat)

  datatype World = World(a: Peer, b: Peer)

  datatype Move = Say(msg: bytes) | Hear(len: int) | Clock(t: u32) | FlushNow | Arrive(j: nat)

  /** A move of the first end, or of the second. */
  datatype Event = AtA(move: Move) | AtB(move: Move)

  /** How many fragments of its stream an end has numbered. */
  function Numbered(x: Peer): int
    requires x.k.cfg.mss > 0
  {
    |Stream(x.sent, x.k.cfg.mss)| - |x.k.snd.queue|
  }

  /** The left edge of the send window, as a position. */
  function LeftEdge(x: Peer): int
    requires x.k.cfg.mss > 0
  {
    Back(Numbered(x), x.k.snd.una)
  }

  /** How many fragments of the other end's stream, cut at `mss`, have been put in order. */
  function InOrder(y: Peer, mss: u32): nat
    requires mss > 0
  {
    |Stream(y.got, mss)| + |y.k.rcv.queue|
  }

  function Recorded(out: seq<bytes>, x: Peer, una: int): seq<Datagram>
    requires x.k.cfg.mss > 0
  {
    seq(|out|, i requires 0 <= i < |out| => Datagram(out[i], LeftEdge(x), Numbered(x), x.low, una))
  }

  /** The end `x` after a flush. */
  function AfterFlush(x: Peer, y: Peer): Peer
    requires x.k.cfg.mss > 0 && y.k.cfg.mss > 0
  {
    var x1 := x.(k := Flush(x.k).k);
    var una := InOrder(x, y.k.cfg.mss);
    x1.(net := x.net + Recorded(Flush(x.k).out, x1, una), low := if x.k.updated then una else x.low)
  }

  function PeerStep(x: Peer, y: Peer, m: Move): Peer
    requires x.k.cfg.mss > 0 && y.k.cfg.mss > 0
  {
    match m
    case Say(msg) =>
      if |msg| < TWO31 && Sendable(msg, x.k.cfg) then x.(k := Send(x.k, msg), sent := x.sent + [msg]) else x
    case Hear(len) =>
      var r := Recv(x.k, len);
      x.(k := r.k, got := GotAfter(x.got, r, len))
    case Clock(t) =>
      var a := Advance(x.k, t);
      var x1 := x.(k := a.k);
      if a.flush then AfterFlush(x1, y) else x1
    case FlushNow => AfterFlush(x, y)
    case Arrive(j) =>
      if j < |y.net| then x.(k := Input(x.k, y.net[j].d).k, low := Min(x.low, Max(0, y.net[j].first))) else x
  }

  function WorldStep(w: World, e: Event): World
    requires w.a.k.cfg.mss > 0 && w.b.k.cfg.mss > 0
  {
    match e
    case AtA(m) => w.(a := PeerStep(w.a, w.b, m))
    case AtB(m) => w.(b := PeerStep(w.b, w.a, m))
  }

  function Start(ca: Config, cb: Config): World {
    World(Peer(Fresh(ca), [], [], [], 0), Peer(Fresh(cb), [], [], [], 0))
  }

  // ----- the stream of fragments

  /** All the fragments of the messages sent so far; the fragment at position i travels under
      sequence number Wrap(i). */
  function Stream(msgs: seq<bytes>, mss: u32): seq<Frag>
    requires mss > 0
  {
    if msgs == [] then [] else Stream(msgs[..|msgs| - 1], mss) + Fragments(msgs[|msgs| - 1], mss)
  }

  lemma StreamSnoc(msgs: seq<bytes>, m: bytes, mss: u32)
    requires mss > 0
    ensures Stream(msgs + [m], mss) == Stream(msgs, mss) + Fragments(m, mss)
  {
    assert (msgs + [m])[..|msgs|] == msgs;
  }

  lemma {:induction false} StreamPrefix(msgs: seq<bytes>, j: nat, mss: u32)
    requires mss > 0 && j <= |msgs|
    ensures Stream(msgs[..j], mss) <= Stream(msgs, mss)
  {
    if j < |msgs| {
      assert msgs[..|msgs| - 1][..j] == msgs[..j];
      StreamPrefix(msgs[..|msgs| - 1], j, mss);
    } else {
      assert msgs[..j] == msgs;
    }
  }

  // ----- what holds of a stream in flight

  predicate Carries(s: Seg, st: seq<Frag>, i: int) {
    0 <= i < |st| && st[i] == Frag(s.frg, s.data)
  }

  /** The sending half: `n` fragments have numbers, the rest wait in `snd_queue`. */
  predicate SendHalf(s: Sender, st: seq<Frag>, n: int) {
    && 0 <= n == |st| - |s.queue| && s.nxt == Wrap(n) && s.queue == st[n..]
    && (forall f <- s.buf :: n - TWO31 < Back(n, f.seg.sn) < n && Carries(f.seg, st, Back(n, f.seg.sn)))
  }

  /** The receiving half: `m` fragments are in order, those of the messages already returned
      before those of `rcv_queue`. */
  predicate RecvHalf(r: Receiver, st: seq<Frag>, n: int, m: int) {
    && |r.queue| <= m <= n <= |st| && r.nxt == Wrap(m)
    && (forall i :: 0 <= i < |r.queue| ==> st[m - |r.queue| + i] == Frag(r.queue[i].frg, r.queue[i].data))
    && (forall s <- r.buf :: Ahead(m, s.sn) < n && Carries(s, st, Ahead(m, s.sn)))
  }

  predicate Buffered(buf: seq<Seg>, m: int, i: int) {
    exists s <- buf :: Ahead(m, s.sn) == i
  }

  /** The receiver has fragment `i`: delivered, queued or buffered. */
  predicate Accepted(buf: seq<Seg>, m: int, i: int) {
    i < m || Buffered(buf, m, i)
  }

  predicate InFlight(buf: seq<Flight>, n: int, i: int) {
    exists f <- buf :: Back(n, f.seg.sn) == i
  }

  /** No loss: a numbered fragment is still held by the sender or has reached the receiver. */
  predicate Covered(flights: seq<Flight>, n: int, buf: seq<Seg>, m: int) {
    forall i :: 0 <= i < n ==> Accepted(buf, m, i) || InFlight(flights, n, i)
  }

  /** The word `sn` stands for an accepted fragment not below `low`. */
  ghost predicate Acked(buf: seq<Seg>, m: int, low: int, sn: u32) {
    exists i :: low <= i && Wrap(i) == sn && Accepted(buf, m, i)
  }

  /** What the segments of a datagram say is true: data carries the stream, acknowledgements
      and `una` name only fragments the receiver has. */
  predicate TrueData(s: Seg, st: seq<Frag>, g: Datagram) {
    s.cmd == CMD_PUSH ==> g.first <= Back(g.next, s.sn) < g.next && Carries(s, st, Back(g.next, s.sn))
  }

  ghost predicate TrueAck(s: Seg, g: Datagram, buf: seq<Seg>, m: int) {
    s.una == Wrap(g.una) && (s.cmd == CMD_ACK ==> Acked(buf, m, g.low, s.sn))
  }

  predicate DataTrue(g: Datagram, conv: u32, st: seq<Frag>, n: int) {
    0 <= g.first <= g.next <= n && forall s <- Decode(g.d, conv).segs :: TrueData(s, st, g)
  }

  ghost predicate AcksTrue(g: Datagram, conv: u32, buf: seq<Seg>, m: int) {
    0 <= g.low <= g.una <= m && forall s <- Decode(g.d, conv).segs :: TrueAck(s, g, buf, m)
  }

  predicate NetData(x: Peer, st: seq<Frag>, n: int) {
    forall g <- x.net :: DataTrue(g, x.k.cfg.conv, st, n)
  }

  ghost predicate NetAcks(y: Peer, m: int) {
    forall g <- y.net :: AcksTrue(g, y.k.cfg.conv, y.k.rcv.buf, m)
  }

  ghost predicate AckList(buf: seq<Seg>, m: int, low: int, acks: seq<Ack>) {
    low <= m && forall a <- acks :: Acked(buf, m, low, a.sn)
  }

  /** The stream from `x` to `y`. */
  ghost predicate Flow(x: Peer, y: Peer) {
    x.k.cfg.mss > 0 &&
    var st, n, m := Stream(x.sent, x.k.cfg.mss), Numbered(x), InOrder(y, x.k.cfg.mss);
    && Admissible(x.sent, x.k.cfg)
    && y.got <= x.sent
    && SendHalf(x.k.snd, st, n)
    && RecvHalf(y.k.rcv, st, n, m)
    && Covered(x.k.snd.buf, n, y.k.rcv.buf, m)
    && NetData(x, st, n)
    && AckList(y.k.rcv.buf, m, y.low, y.k.acks)
    && NetAcks(y, m)
  }

  ghost predicate WorldOk(w: World) {
    && EndpointOk(w.a.k) && EndpointOk(w.b.k)
    && w.a.k.cfg.conv == w.b.k.cfg.conv
    && Flow(w.a, w.b) && Flow(w.b, w.a)
  }

  // ----- the sender takes an honest acknowledgement

  lemma UnaCovered(s: Sender, st: seq<Frag>, n: int, buf: seq<Seg>, m: int, u: int)
    requires SendHalf(s, st, n) && u <= m <= n <= u + TWO31 + 1 && Covered(s.buf, n, buf, m)
    ensures var s' := Shrink(s.(buf := DropUna(s.buf, Wrap(u))));
            SendHalf(s', st, n) && Covered(s'.buf, n, buf, m)
  {
    hide TimeDiff, Wrap, Back, DropUna;
    var k := DropUnaSuffix(s.buf, Wrap(u));
    forall i | 0 <= i < n ensures Accepted(buf, m, i) || InFlight(s.buf[k..], n, i) {
      if !Accepted(buf, m, i) {
        assert InFlight(s.buf, n, i);
        var f :| f in s.buf && Back(n, f.seg.sn) == i;
        var j :| 0 <= j < |s.buf| && s.buf[j] == f;
        if j < k {
          BackWord(n, f.seg.sn);
          TimeDiffIsExactWithinHalf(u, i);
        } else {
          assert s.buf[k..][j - k] == f;
        }
      }
    }
  }

  lemma AckCovered(s: Sender, st: seq<Frag>, n: int, buf: seq<Seg>, m: int, low: int, sn: u32)
    requires SendHalf(s, st, n) && Covered(s.buf, n, buf, m) && m <= n <= low + TWO32
    requires Acked(buf, m, low, sn) && forall i :: Accepted(buf, m, i) ==> i < n
    ensures var s' := Shrink(ParseAck(s, sn));
            SendHalf(s', st, n) && Covered(s'.buf, n, buf, m)
  {
    hide TimeDiff, Wrap, Back, DropAcked;
    var acked :| low <= acked && Wrap(acked) == sn && Accepted(buf, m, acked);
    WrapAround(n);
    BackIs(n, if acked == n - TWO32 then n else acked);
    var b' := ParseAck(s, sn).buf;
    var at := DropAckedCut(s.buf, sn);
    forall i | 0 <= i < n ensures Accepted(buf, m, i) || InFlight(b', n, i) {
      if !Accepted(buf, m, i) {
        assert InFlight(s.buf, n, i);
        var f :| f in s.buf && Back(n, f.seg.sn) == i;
        assert f in b';
      }
    }
  }

  lemma WrapAround(n: int)
    ensures Wrap(n - TWO32) == Wrap(n)
  {
  }

  lemma TakeSegSender(p: Progress, s: Seg, st: seq<Frag>, n: int, g: Datagram, buf: seq<Seg>, m: int)
    requires SendHalf(p.k.snd, st, n) && Covered(p.k.snd.buf, n, buf, m) && TrueAck(s, g, buf, m)
    requires g.una <= m <= n <= g.low + TWO32 && n <= g.una + TWO31 + 1 && forall i :: Accepted(buf, m, i) ==> i < n
    ensures var snd := TakeSeg(p, s).k.snd;
            SendHalf(snd, st, n) && Covered(snd.buf, n, buf, m)
  {
    hide SendHalf, Covered, Acked, Accepted, DropUna, DropAcked, TimeDiff, Wrap, Rtt.Update, Kcp.ParseData, Outstanding;
    UnaCovered(p.k.snd, st, n, buf, m, g.una);
    if s.cmd == CMD_ACK { AckCovered(TakeHeader(p.k, s).snd, st, n, buf, m, g.low, s.sn); }
  }

  lemma {:induction false} TakeAllSender(p: Progress, ss: seq<Seg>, st: seq<Frag>, n: int, g: Datagram,
    buf: seq<Seg>, m: int)
    requires SendHalf(p.k.snd, st, n) && Covered(p.k.snd.buf, n, buf, m) && forall s <- ss :: TrueAck(s, g, buf, m)
    requires g.una <= m <= n <= g.low + TWO32 && n <= g.una + TWO31 + 1 && forall i :: Accepted(buf, m, i) ==> i < n
    ensures var snd := TakeAll(p, ss).k.snd;
            SendHalf(snd, st, n) && Covered(snd.buf, n, buf, m)
    decreases |ss|
  {
    hide SendHalf, Covered, TrueAck, Accepted, TakeSeg;
    if ss != [] {
      TakeSegSender(p, ss[0], st, n, g, buf, m);
      TakeAllSender(TakeSeg(p, ss[0]), ss[1..], st, n, g, buf, m);
    }
  }

  // ----- the receiver takes honest data

  /** The receiver never gives up a fragment. */
  ghost predicate Grown(buf: seq<Seg>, m: int, buf': seq<Seg>, m': int) {
    m <= m' && forall i :: Accepted(buf, m, i) ==> Accepted(buf', m', i)
  }

  lemma GrownAcked(buf: seq<Seg>, m: int, buf': seq<Seg>, m': int, low: int, low': int, sn: u32)
    requires Grown(buf, m, buf', m') && low' <= low && Acked(buf, m, low, sn)
    ensures Acked(buf', m', low', sn)
  {
    hide Accepted;
  }

  lemma DeliverOne(r: Receiver, wnd: u32, st: seq<Frag>, n: int, m: int)
    requires ReceiverLoose(r, wnd) && RecvHalf(r, st, n, m)
    requires r.buf != [] && r.buf[0].sn == r.nxt
    ensures var r1 := Receiver(Wrap(r.nxt + 1), r.buf[1..], r.queue + [r.buf[0]]);
            RecvHalf(r1, st, n, m + 1) && Grown(r.buf, m, r1.buf, m + 1)
  {
    hide Wrap, Ahead, Dist;
    var r1 := Receiver(Wrap(r.nxt + 1), r.buf[1..], r.queue + [r.buf[0]]);
    assert r.buf[0] in r.buf;
    AheadIs(m, m);
    WrapAdds(m, 1);
    forall s | s in r1.buf ensures Ahead(m + 1, s.sn) == Ahead(m, s.sn) && s in r.buf {
      var j :| 0 <= j < |r1.buf| && r1.buf[j] == s;
      assert s == r.buf[j + 1];
      AheadLater(m, r.buf[0].sn, s.sn);
    }
    forall i | Accepted(r.buf, m, i) ensures Accepted(r1.buf, m + 1, i) {
      if i > m {
        var s :| s in r.buf && Ahead(m, s.sn) == i;
        assert s in r1.buf;
      }
    }
    forall i | 0 <= i < |r1.queue| ensures st[m + 1 - |r1.queue| + i] == Frag(r1.queue[i].frg, r1.queue[i].data) {
      if i < |r.queue| { assert r1.queue[i] == r.queue[i]; }
    }
  }

  lemma AheadLater(m: int, a: u32, b: u32)
    requires Dist(Wrap(m), a) < Dist(Wrap(m), b)
    ensures Ahead(m + 1, b) == Ahead(m, b) > m
  {
    hide Wrap, Dist;
    AheadMoves(m, m + 1, b);
  }

  lemma {:induction false} DeliverReceiver(r: Receiver, wnd: u32, st: seq<Frag>, n: int, m: int) returns (m': int)
    requires ReceiverLoose(r, wnd) && RecvHalf(r, st, n, m)
    ensures var r' := Deliver(r, wnd);
            && RecvHalf(r', st, n, m') && Grown(r.buf, m, r'.buf, m') && m' - |r'.queue| == m - |r.queue|
    decreases |r.buf|
  {
    hide RecvHalf, ReceiverLoose, Accepted, Wrap;
    if r.buf != [] && r.buf[0].sn == r.nxt && |r.queue| < wnd {
      var r1 := Receiver(Wrap(r.nxt + 1), r.buf[1..], r.queue + [r.buf[0]]);
      DeliverOne(r, wnd, st, n, m);
      DeliverStep(r, wnd);
      m' := DeliverReceiver(r1, wnd, st, n, m + 1);
    } else {
      m' := m;
    }
  }

  lemma DistOfPositions(m: int, i: int)
    requires m - TWO32 <= i < m + TWO31
    ensures Dist(Wrap(m), Wrap(i)) == if m <= i then i - m else i - m + TWO32
  {
    WrapOfDifference(i, m);
  }

  /** The comparisons with the window, for a fragment at most one circle behind its end. */
  lemma WindowPosition(m: int, wnd: u32, i: int)
    requires wnd < TWO31 && m + wnd - TWO32 <= i < m + TWO31
    ensures Dist(Wrap(m), Wrap(i)) < wnd <==> m <= i < m + wnd
    ensures TimeDiff(Wrap(i), Wrap(Wrap(m) + wnd)) < 0 <==> m + wnd - TWO31 <= i < m + wnd
  {
    hide Wrap, Dist, TimeDiff;
    DistOfPositions(m, i);
    WrapAdds(m, wnd);
    TimeDiffByDist(Wrap(i), Wrap(m + wnd));
    DistOfPositions(m + wnd, i);
  }

  lemma WrapAdds(m: int, k: int)
    ensures Wrap(Wrap(m) + k) == Wrap(m + k)
  {
  }

  lemma InsertReceiver(r: Receiver, wnd: u32, s: Seg, st: seq<Frag>, n: int, m: int, i: int)
    requires ReceiverOk(r, wnd) && wnd < TWO31 && RecvHalf(r, st, n, m)
    requires s.sn == Wrap(i) && m <= i < m + wnd && i < n && Carries(s, st, i)
    ensures var r1 := r.(buf := Insert(r.buf, s));
            && RecvHalf(r1, st, n, m) && Grown(r.buf, m, r1.buf, m) && Accepted(r1.buf, m, i)
            && ReceiverLoose(r1, wnd)
  {
    hide Wrap, Ahead, Dist, TimeDiff, Insert;
    WindowPosition(m, wnd, i);
    AheadIs(m, i);
    var r1 := r.(buf := Insert(r.buf, s));
    InsertSorted(r.nxt, wnd, r.buf, s);
    assert Accepted(r1.buf, m, i) by {
      if Absent(r.buf, s.sn) {
        assert s in r1.buf;
      } else {
        var y :| y in r.buf && y.sn == s.sn;
        assert y in r1.buf;
      }
    }
    forall k | Accepted(r.buf, m, k) ensures Accepted(r1.buf, m, k) {
      if k >= m {
        var y :| y in r.buf && Ahead(m, y.sn) == k;
        assert y in r1.buf;
      }
    }
  }

  lemma ParseDataReceiver(r: Receiver, wnd: u32, s: Seg, st: seq<Frag>, n: int, m: int, i: int) returns (m': int)
    requires ReceiverOk(r, wnd) && wnd < TWO31 && RecvHalf(r, st, n, m)
    requires s.sn == Wrap(i) && m + wnd - TWO32 <= i < n && i < m + TWO31 && Carries(s, st, i)
    ensures var r' := ParseData(r, wnd, s);
            && RecvHalf(r', st, n, m') && Grown(r.buf, m, r'.buf, m') && m' - |r'.queue| == m - |r.queue|
            && (i < m + wnd ==> Accepted(r'.buf, m', i))
  {
    hide Insert, Deliver, Ahead, Dist, TimeDiff, Wrap, Carries;
    WindowPosition(m, wnd, i);
    WindowTest(r, wnd, s.sn);
    m' := m;
    if m <= i < m + wnd {
      InsertReceiver(r, wnd, s, st, n, m, i);
      m' := DeliverReceiver(r.(buf := Insert(r.buf, s)), wnd, st, n, m);
    }
  }

  lemma TakePushReceiver(k: Kcb, s: Seg, st: seq<Frag>, n: int, m: int, low: int, i: int) returns (m': int)
    requires EndpointOk(k) && RecvHalf(k.rcv, st, n, m) && AckList(k.rcv.buf, m, low, k.acks)
    requires s.sn == Wrap(i) && low <= i && m + k.cfg.rcvWnd - TWO32 <= i < n <= m + TWO31 && Carries(s, st, i)
    ensures var k' := TakePush(k, s);
            && RecvHalf(k'.rcv, st, n, m') && Grown(k.rcv.buf, m, k'.rcv.buf, m')
            && m' - |k'.rcv.queue| == m - |k.rcv.queue|
            && AckList(k'.rcv.buf, m', low, k'.acks)
            && (m + k.cfg.rcvWnd - TWO31 <= i < m + k.cfg.rcvWnd ==> Accepted(k'.rcv.buf, m', i) && k'.acks != [])
  {
    hide Ahead, Dist, TimeDiff, Wrap, Carries, ParseData, Accepted, ReceiverOk, SenderOk, CargoOk, TimersOk;
    var wnd := k.cfg.rcvWnd;
    WindowPosition(m, wnd, i);
    m' := ParseDataReceiver(k.rcv, wnd, s, st, n, m, i);
    var k' := TakePush(k, s);
    PushedAsParsed(k, s);
    forall a | a in k'.acks ensures Acked(k'.rcv.buf, m', low, a.sn) {
      if a in k.acks { GrownAcked(k.rcv.buf, m, k'.rcv.buf, m', low, low, a.sn); }
    }
  }

  /** The tests of `ikcp_input` let nothing through that `ikcp_parse_data` would refuse. */
  lemma PushedAsParsed(k: Kcb, s: Seg)
    ensures TakePush(k, s).rcv == ParseData(k.rcv, k.cfg.rcvWnd, s)
  {
    hide Deliver, Insert, TimeDiff, Wrap;
  }

  /** The data of a datagram of `x` is timely at `y`: at most 2^32 fragments, less a receive
      window, have been numbered since the oldest that it can be. */
  predicate TimelyData(y: Peer, x: Peer, g: Datagram)
    requires x.k.cfg.mss > 0
  {
    Numbered(x) + y.k.cfg.rcvWnd <= g.first + TWO32
  }

  /** What it acknowledges is timely: at most 2^32 fragments of `y` have been numbered since the
      oldest it can acknowledge, and at most 2^31 and one since its `una`. */
  predicate TimelyAcks(y: Peer, g: Datagram)
    requires y.k.cfg.mss > 0
  {
    Numbered(y) <= g.low + TWO32 && Numbered(y) <= g.una + TWO31 + 1
  }

  predicate Timely(y: Peer, x: Peer, g: Datagram)
    requires x.k.cfg.mss > 0 && y.k.cfg.mss > 0
  {
    TimelyData(y, x, g) && TimelyAcks(y, g)
  }

  lemma TakeSegReceiver(p: Progress, s: Seg, g: Datagram, st: seq<Frag>, n: int, m: int, low: int) returns (m': int)
    requires EndpointOk(p.k) && s.wnd <= WINDOW_MAX && TrueData(s, st, g)
    requires RecvHalf(p.k.rcv, st, n, m) && AckList(p.k.rcv.buf, m, low, p.k.acks)
    requires low <= g.first && g.next <= n <= m + TWO31 && n + p.k.cfg.rcvWnd <= g.first + TWO32
    ensures var k' := TakeSeg(p, s).k;
            && RecvHalf(k'.rcv, st, n, m') && Grown(p.k.rcv.buf, m, k'.rcv.buf, m')
            && m' - |k'.rcv.queue| == m - |p.k.rcv.queue|
            && AckList(k'.rcv.buf, m', low, k'.acks)
            && (s.cmd == CMD_PUSH && m + p.k.cfg.rcvWnd - TWO31 <= Back(g.next, s.sn) < m + p.k.cfg.rcvWnd ==>
                  Accepted(k'.rcv.buf, m', Back(g.next, s.sn)) && k'.acks != [])
  {
    hide RecvHalf, AckList, Accepted, Back, Wrap, Carries, TimeDiff, DropUna, TakePush, TakeAck, EndpointOk;
    HeaderKeeps(p.k, s);
    HeaderRest(p.k, s);
    m' := m;
    if s.cmd == CMD_PUSH {
      BackWord(g.next, s.sn);
      InOrderAtMost(p.k.rcv, st, n, m);
      m' := TakePushReceiver(TakeHeader(p.k, s), s, st, n, m, low, Back(g.next, s.sn));
    } else if s.cmd == CMD_ACK {
      AckRest(Progress(TakeHeader(p.k, s), p.mark), s);
    }
  }

  lemma InOrderAtMost(r: Receiver, st: seq<Frag>, n: int, m: int)
    requires RecvHalf(r, st, n, m)
    ensures 0 <= m <= n <= |st|
  {
  }

  lemma HeaderRest(k: Kcb, s: Seg)
    ensures var k' := TakeHeader(k, s);
            k'.rcv == k.rcv && k'.acks == k.acks && k'.cfg == k.cfg && k'.probe == k.probe && k'.snd.nxt == k.snd.nxt
  {
  }

  lemma AckRest(p: Progress, s: Seg)
    ensures TakeAck(p, s).k.rcv == p.k.rcv && TakeAck(p, s).k.acks == p.k.acks
  {
  }

  lemma GrownTrans(a: seq<Seg>, m: int, b: seq<Seg>, m1: int, c: seq<Seg>, m2: int)
    requires Grown(a, m, b, m1) && Grown(b, m1, c, m2)
    ensures Grown(a, m, c, m2)
  {
    hide Accepted;
  }

  lemma {:induction false} TakeAllReceiver(p: Progress, ss: seq<Seg>, g: Datagram, st: seq<Frag>, n: int, m: int,
    low: int)
    returns (m': int)
    requires EndpointOk(p.k) && forall s <- ss :: s.wnd <= WINDOW_MAX && TrueData(s, st, g)
    requires RecvHalf(p.k.rcv, st, n, m) && AckList(p.k.rcv.buf, m, low, p.k.acks)
    requires low <= g.first && g.next <= n <= m + TWO31 && n + p.k.cfg.rcvWnd <= g.first + TWO32
    ensures var k' := TakeAll(p, ss).k;
            && RecvHalf(k'.rcv, st, n, m') && Grown(p.k.rcv.buf, m, k'.rcv.buf, m')
            && m' - |k'.rcv.queue| == m - |p.k.rcv.queue|
            && AckList(k'.rcv.buf, m', low, k'.acks)
    decreases |ss|
  {
    hide EndpointOk, TrueData, RecvHalf, AckList, TakeSeg, Accepted;
    if ss == [] {
      m' := m;
    } else {
      var p1 := TakeSeg(p, ss[0]);
      TakeSegKeeps(p, ss[0]);
      var m1 := TakeSegReceiver(p, ss[0], g, st, n, m, low);
      m' := TakeAllReceiver(p1, ss[1..], g, st, n, m1, low);
      GrownTrans(p.k.rcv.buf, m, p1.k.rcv.buf, m1, TakeAll(p, ss).k.rcv.buf, m');
    }
  }

  // ----- messages come out of the queue whole

  lemma {:induction false} SpanOfFragments(queue: seq<Seg>, f: seq<Frag>)
    requires 0 < |f| <= |queue|
    requires forall i :: 0 <= i < |f| ==> f[i] == Frag(queue[i].frg, queue[i].data) && f[i].frg == |f| - 1 - i
    ensures Span(queue) == |f| && Payload(queue[..|f|]) == Cargo(f)
  {
    assert queue[..|f|][0] == queue[0] && queue[..|f|][1..] == queue[1..][..|f| - 1];
    if |f| == 1 {
      assert f[1..] == [] && queue[1..][..0] == [];
    } else {
      forall i | 0 <= i < |f[1..]| ensures f[1..][i] == f[i + 1] && queue[1..][i] == queue[i + 1] {}
      SpanOfFragments(queue[1..], f[1..]);
    }
  }

  /** The fragments of the next message follow those of the messages already returned. */
  lemma NextInStream(sent: seq<bytes>, got: seq<bytes>, cfg: Config)
    requires cfg.mss > 0 && got < sent
    ensures Stream(got + [sent[|got|]], cfg.mss) == Stream(got, cfg.mss) + Fragments(sent[|got|], cfg.mss)
    ensures Stream(got, cfg.mss) + Fragments(sent[|got|], cfg.mss) <= Stream(sent, cfg.mss)
  {
    hide Stream, Fragments;
    var m := sent[|got|];
    StreamSnoc(got, m, cfg.mss);
    assert got + [m] == sent[..|got| + 1];
    StreamPrefix(sent, |got| + 1, cfg.mss);
  }

  /** The queue holds the front of the fragments `f` of its next message. */
  predicate HeadOf(queue: seq<Seg>, f: seq<Frag>) {
    forall i :: 0 <= i < |f| && i < |queue| ==> f[i] == Frag(queue[i].frg, queue[i].data)
  }

  lemma AlignedHead(st: seq<Frag>, before: seq<Frag>, f: seq<Frag>, r: Receiver, n: int, m: int)
    requires before + f <= st && RecvHalf(r, st, n, m) && m == |before| + |r.queue|
    ensures HeadOf(r.queue, f)
  {
    forall i | 0 <= i < |f| && i < |r.queue| ensures f[i] == Frag(r.queue[i].frg, r.queue[i].data) {
      assert (before + f)[|before| + i] == f[i] == st[|before| + i];
    }
  }

  predicate Admissible(sent: seq<bytes>, cfg: Config)
    requires cfg.mss > 0
  {
    forall m <- sent :: |m| < TWO31 && Sendable(m, cfg)
  }

  /** The queue starts on a message boundary, and its head tells how many fragments the next
      message has. */
  lemma NextBoundary(sent: seq<bytes>, got: seq<bytes>, cfg: Config, r: Receiver, n: int, m: int)
    requires cfg.mss > 0 && Admissible(sent, cfg) && got <= sent && r.queue != []
    requires RecvHalf(r, Stream(sent, cfg.mss), n, m) && m == |Stream(got, cfg.mss)| + |r.queue|
    ensures got < sent
    ensures var f := Fragments(sent[|got|], cfg.mss);
            0 < |f| < WND_RCV && r.queue[0].frg == |f| - 1 && HeadOf(r.queue, f)
  {
    assert got != sent;
    var msg := sent[|got|];
    assert msg in sent;
    FragmentsShape(msg, cfg.mss);
    NextInStream(sent, got, cfg);
    AlignedHead(Stream(sent, cfg.mss), Stream(got, cfg.mss), Fragments(msg, cfg.mss), r, n, m);
  }

  /** A successful receive returns exactly the next message that was sent. */
  lemma ReceivesNext(sent: seq<bytes>, got: seq<bytes>, cfg: Config, r: Receiver, n: int, m: int)
    requires cfg.mss > 0 && Admissible(sent, cfg) && got <= sent && PeekSize(r.queue) >= 0
    requires RecvHalf(r, Stream(sent, cfg.mss), n, m) && m == |Stream(got, cfg.mss)| + |r.queue|
    ensures |got| < |sent| && NextMessage(r.queue) == sent[|got|]
    ensures Span(r.queue) <= |r.queue|
    ensures |Stream(got + [sent[|got|]], cfg.mss)| == |Stream(got, cfg.mss)| + Span(r.queue)
  {
    NextBoundary(sent, got, cfg, r, n, m);
    NextInStream(sent, got, cfg);
    assert sent[|got|] in sent;
    FragmentsShape(sent[|got|], cfg.mss);
    SpanOfFragments(r.queue, Fragments(sent[|got|], cfg.mss));
  }

  // ----- steps of the receiving end

  /** The receiving end may move to any state that keeps the stream and gives up nothing. */
  lemma FlowReceiverMoves(x: Peer, y: Peer, y': Peer)
    requires Flow(x, y) && y'.got <= x.sent && y'.k.cfg == y.k.cfg && y'.net == y.net
    requires RecvHalf(y'.k.rcv, Stream(x.sent, x.k.cfg.mss), Numbered(x), InOrder(y', x.k.cfg.mss))
    requires Grown(y.k.rcv.buf, InOrder(y, x.k.cfg.mss), y'.k.rcv.buf, InOrder(y', x.k.cfg.mss))
    requires AckList(y'.k.rcv.buf, InOrder(y', x.k.cfg.mss), y'.low, y'.k.acks)
    ensures Flow(x, y')
  {
    hide Stream, SendHalf, RecvHalf, NetData, Admissible, Accepted, Decode, AckList;
    var m, m' := InOrder(y, x.k.cfg.mss), InOrder(y', x.k.cfg.mss);
    forall g | g in y'.net ensures AcksTrue(g, y'.k.cfg.conv, y'.k.rcv.buf, m') {
      GrownDatagram(g, y.k.cfg.conv, y.k.rcv.buf, m, y'.k.rcv.buf, m');
    }
  }

  lemma GrownDatagram(g: Datagram, conv: u32, buf: seq<Seg>, m: int, buf': seq<Seg>, m': int)
    requires AcksTrue(g, conv, buf, m) && Grown(buf, m, buf', m')
    ensures AcksTrue(g, conv, buf', m')
  {
    hide Decode, Grown, Acked;
    forall s | s in Decode(g.d, conv).segs ensures TrueAck(s, g, buf', m') {
      if s.cmd == CMD_ACK { GrownAcked(buf, m, buf', m', g.low, g.low, s.sn); }
    }
    GrownForward(buf, m, buf', m');
  }

  lemma GrownForward(buf: seq<Seg>, m: int, buf': seq<Seg>, m': int)
    requires Grown(buf, m, buf', m')
    ensures m <= m'
  {
  }

  /** A step that leaves the receiving half and the network alone. */
  lemma FlowReceiverIdle(x: Peer, y: Peer, y': Peer)
    requires Flow(x, y) && y'.got == y.got && y'.k.cfg == y.k.cfg && y'.net == y.net && y'.low == y.low
    requires y'.k.rcv == y.k.rcv && y'.k.acks == y.k.acks
    ensures Flow(x, y')
  {
    hide Stream, SendHalf, RecvHalf, NetData, Admissible, Acked, Covered, Decode;
  }

  /** The sending end may move to any state that keeps the stream and its cover. */
  lemma FlowSenderMoves(x: Peer, x': Peer, y: Peer)
    requires Flow(x, y) && x'.sent == x.sent && x'.net == x.net && x'.k.cfg == x.k.cfg
             && x'.k.snd.queue == x.k.snd.queue
    requires SendHalf(x'.k.snd, Stream(x.sent, x.k.cfg.mss), Numbered(x))
    requires Covered(x'.k.snd.buf, Numbered(x), y.k.rcv.buf, InOrder(y, x.k.cfg.mss))
    ensures Flow(x', y)
  {
    hide Stream, SendHalf, RecvHalf, Admissible, Covered, AckList, NetAcks, Decode;
  }

  function GotAfter(got: seq<bytes>, r: Received, len: int): seq<bytes> {
    if r.code >= 0 && len >= 0 then got + [r.data] else got
  }

  lemma RecvReceiver(k: Kcb, len: int, sent: seq<bytes>, got: seq<bytes>, cfg: Config, n: int, m: int) returns (m': int)
    requires cfg.mss > 0 && Admissible(sent, cfg) && got <= sent && ReceiverOk(k.rcv, k.cfg.rcvWnd)
    requires RecvHalf(k.rcv, Stream(sent, cfg.mss), n, m) && m == |Stream(got, cfg.mss)| + |k.rcv.queue|
    ensures var r := Recv(k, len);
            && GotAfter(got, r, len) <= sent && Grown(k.rcv.buf, m, r.k.rcv.buf, m')
            && RecvHalf(r.k.rcv, Stream(sent, cfg.mss), n, m')
            && m' == |Stream(GotAfter(got, r, len), cfg.mss)| + |r.k.rcv.queue|
  {
    hide Stream, Deliver, Admissible, RecvHalf, Accepted, PeekSize, NextMessage, Span, ReceiverLoose;
    m' := m;
    if k.rcv.queue != [] && 0 <= PeekSize(k.rcv.queue) <= Rtt.Abs(len) {
      if len < 0 {
        m' := DeliverReceiver(k.rcv, k.cfg.rcvWnd, Stream(sent, cfg.mss), n, m);
      } else {
        m' := RecvTakes(k, len, sent, got, cfg, n, m);
      }
    }
  }

  lemma RecvTakes(k: Kcb, len: nat, sent: seq<bytes>, got: seq<bytes>, cfg: Config, n: int, m: int) returns (m': int)
    requires cfg.mss > 0 && Admissible(sent, cfg) && got <= sent && ReceiverOk(k.rcv, k.cfg.rcvWnd)
    requires RecvHalf(k.rcv, Stream(sent, cfg.mss), n, m) && m == |Stream(got, cfg.mss)| + |k.rcv.queue|
    requires k.rcv.queue != [] && 0 <= PeekSize(k.rcv.queue) <= len
    ensures var r := Recv(k, len);
            && r.code >= 0 && got + [r.data] <= sent && Grown(k.rcv.buf, m, r.k.rcv.buf, m')
            && RecvHalf(r.k.rcv, Stream(sent, cfg.mss), n, m')
            && m' == |Stream(got + [r.data], cfg.mss)| + |r.k.rcv.queue|
  {
    hide Stream, Deliver, Admissible, RecvHalf, Accepted, PeekSize, NextMessage, Span, ReceiverLoose;
    var c := Span(k.rcv.queue);
    ReceivesNext(sent, got, cfg, k.rcv, n, m);
    var rest := k.rcv.(queue := k.rcv.queue[c..]);
    ConsumeReceiver(k.rcv, c, k.cfg.rcvWnd, Stream(sent, cfg.mss), n, m);
    m' := DeliverReceiver(rest, k.cfg.rcvWnd, Stream(sent, cfg.mss), n, m);
  }

  lemma ConsumeReceiver(r: Receiver, c: nat, wnd: u32, st: seq<Frag>, n: int, m: int)
    requires RecvHalf(r, st, n, m) && c <= |r.queue| && ReceiverOk(r, wnd)
    ensures var rest := r.(queue := r.queue[c..]);
            RecvHalf(rest, st, n, m) && ReceiverLoose(rest, wnd)
  {
    hide Ahead, Wrap;
    var q := r.queue[c..];
    forall i | 0 <= i < |q| ensures st[m - |q| + i] == Frag(q[i].frg, q[i].data) && q[i].sn == Wrap(r.nxt - (|q| - i)) {
      assert q[i] == r.queue[c + i];
    }
  }

  lemma RecvKeepsRest(k: Kcb, len: int)
    ensures var k' := Recv(k, len).k;
            k'.cfg == k.cfg && k'.acks == k.acks && k'.snd == k.snd
  {
  }

  lemma GrownList(buf: seq<Seg>, m: int, buf': seq<Seg>, m': int, low: int, low': int, acks: seq<Ack>)
    requires AckList(buf, m, low, acks) && Grown(buf, m, buf', m') && low' <= low
    ensures AckList(buf', m', low', acks)
  {
    hide Acked;
    GrownForward(buf, m, buf', m');
    forall a | a in acks ensures Acked(buf', m', low', a.sn) {
      GrownAcked(buf, m, buf', m', low, low', a.sn);
    }
  }

  lemma HearFlow(x: Peer, y: Peer, len: int)
    requires EndpointOk(y.k) && Flow(x, y) && y.k.cfg.mss > 0
    ensures Flow(x, PeerStep(y, x, Hear(len)))
  {
    hide Stream, Recv, NetAcks, NetData, SendHalf, Covered, Admissible, Grown, RecvHalf, AckList;
    var r, mss := Recv(y.k, len), x.k.cfg.mss;
    RecvKeepsRest(y.k, len);
    var m' := RecvReceiver(y.k, len, x.sent, y.got, x.k.cfg, Numbered(x), InOrder(y, mss));
    GrownList(y.k.rcv.buf, InOrder(y, mss), r.k.rcv.buf, m', y.low, y.low, y.k.acks);
    FlowReceiverMoves(x, y, y.(k := r.k, got := GotAfter(y.got, r, len)));
  }

  lemma InputReceiver(k: Kcb, g: Datagram, st: seq<Frag>, n: int, m: int, low: int) returns (m': int)
    requires EndpointOk(k) && RecvHalf(k.rcv, st, n, m) && AckList(k.rcv.buf, m, low, k.acks)
    requires DataTrue(g, k.cfg.conv, st, n)
    requires low <= g.first && n <= m + TWO31 && n + k.cfg.rcvWnd <= g.first + TWO32
    ensures var k' := Input(k, g.d).k;
            && RecvHalf(k'.rcv, st, n, m') && Grown(k.rcv.buf, m, k'.rcv.buf, m')
            && m' - |k'.rcv.queue| == m - |k.rcv.queue|
            && AckList(k'.rcv.buf, m', low, k'.acks)
  {
    hide TakeAll, Decode, RecvHalf, AckList, TrueData, EndpointOk, Accepted;
    m' := m;
    if |g.d| >= OVERHEAD {
      var segs := Decode(g.d, k.cfg.conv).segs;
      var p := Progress(k, NoMark);
      DecodedWindows(g.d, k.cfg.conv);
      m' := TakeAllReceiver(p, segs, g, st, n, m, low);
      TakeAllKeepsConfig(p, segs);
      EndpointConfig(k);
      SettleRest(TakeAll(p, segs), k.snd.una);
    }
  }

  lemma EndpointConfig(k: Kcb)
    requires EndpointOk(k)
    ensures ValidConfig(k.cfg) && k.cfg.mss > 0 && k.cfg.rcvWnd <= WINDOW_MAX
  {
  }

  lemma SettleRest(p: Progress, prevUna: u32)
    requires p.k.cfg.mss > 0
    ensures var k := Settle(p, prevUna);
            && k.rcv == p.k.rcv && k.acks == p.k.acks && k.probe == p.k.probe && k.rmtWnd == p.k.rmtWnd
            && k.snd.nxt == p.k.snd.nxt && k.snd.queue == p.k.snd.queue
  {
  }

  /** The receiving end after an arrival. */
  function Heard(y: Peer, g: Datagram): Peer
    requires y.k.cfg.mss > 0
  {
    y.(k := Input(y.k, g.d).k, low := Min(y.low, Max(0, g.first)))
  }

  lemma ArriveStep(y: Peer, x: Peer, j: nat)
    requires x.k.cfg.mss > 0 && y.k.cfg.mss > 0
    ensures PeerStep(y, x, Arrive(j)) == if j < |x.net| then Heard(y, x.net[j]) else y
  {
    hide Input;
  }

  lemma InputConfig(k: Kcb, d: bytes)
    requires k.cfg.mss > 0
    ensures Input(k, d).k.cfg == k.cfg
  {
    StepKeepsConfig(k, OpInput(d));
  }

  lemma HeardReceiver(x: Peer, y: Peer, g: Datagram)
    requires EndpointOk(x.k) && EndpointOk(y.k) && Flow(x, y) && x.k.cfg.conv == y.k.cfg.conv && y.k.cfg.mss > 0
    requires g in x.net && TimelyData(y, x, g)
    ensures var mss, y' := x.k.cfg.mss, Heard(y, g);
            && RecvHalf(y'.k.rcv, Stream(x.sent, mss), Numbered(x), InOrder(y', mss))
            && Grown(y.k.rcv.buf, InOrder(y, mss), y'.k.rcv.buf, InOrder(y', mss))
            && AckList(y'.k.rcv.buf, InOrder(y', mss), y'.low, y'.k.acks)
  {
    hide Stream, NetAcks, SendHalf, Covered, Admissible, Grown, RecvHalf, AckList, Input, EndpointOk, TrueData,
      Decode, LeftEdge;
    var mss := x.k.cfg.mss;
    assert DataTrue(g, x.k.cfg.conv, Stream(x.sent, mss), Numbered(x));
    var low := Min(y.low, g.first);
    WindowsAgree(x, y);
    EndpointConfig(y.k);
    GrownHere(y.k.rcv.buf, InOrder(y, mss));
    GrownList(y.k.rcv.buf, InOrder(y, mss), y.k.rcv.buf, InOrder(y, mss), y.low, low, y.k.acks);
    var m' := InputReceiver(y.k, g, Stream(x.sent, mss), Numbered(x), InOrder(y, mss), low);
    assert m' == InOrder(Heard(y, g), mss);
  }

  lemma ArriveFlowReceiver(x: Peer, y: Peer, j: nat)
    requires EndpointOk(x.k) && EndpointOk(y.k) && Flow(x, y) && x.k.cfg.conv == y.k.cfg.conv && y.k.cfg.mss > 0
    requires j < |x.net| ==> TimelyData(y, x, x.net[j])
    ensures Flow(x, PeerStep(y, x, Arrive(j)))
  {
    hide EndpointOk, PeerStep, Input, Stream, SendHalf, RecvHalf, Covered, NetData, NetAcks, AckList, Admissible,
      TimelyData, Grown;
    ArriveStep(y, x, j);
    if j < |x.net| {
      HeardReceiver(x, y, x.net[j]);
      InputConfig(y.k, x.net[j].d);
      FlowReceiverMoves(x, y, Heard(y, x.net[j]));
    }
  }

  lemma GrownHere(buf: seq<Seg>, m: int)
    ensures Grown(buf, m, buf, m)
  {
  }

  // ----- flushing

  /** Everything a flush emits is true: data of the stream, and acknowledgements of fragments
      the receiving half has. */
  lemma FlushedSegTrue(k: Kcb, s: Seg)
    requires EndpointOk(k) && s in FlushSegs(k)
    ensures s.una == k.rcv.nxt && s.wnd == WndUnused(k)
    ensures s.cmd == CMD_ACK ==> exists a <- k.acks :: a.sn == s.sn
    ensures s.cmd == CMD_PUSH ==>
              exists f <- Admitted(k).buf :: f.seg.sn == s.sn && f.seg.frg == s.frg && f.seg.data == s.data
  {
    if s in Sweep(k, Admitted(k).buf).out {
      AdmittedCargo(k);
      var f := SweptOut(k, Admitted(k).buf, s);
      assert FlightOk(f, k.cfg);
    } else if s in AckSegs(k, k.acks) {
      var i :| 0 <= i < |k.acks| && s == AckSegs(k, k.acks)[i];
      assert k.acks[i] in k.acks;
    } else {
      assert s in ProbeSegs(k, Probing(k.probe, k.rmtWnd, k.current));
    }
  }

  lemma FlushedDatagram(k: Kcb, d: bytes, s: Seg)
    requires EndpointOk(k) && d in Flush(k).out && s in Decode(d, k.cfg.conv).segs
    ensures s in FlushSegs(k)
  {
    FlushRoundTrip(k);
    DecodeEachMember(Flush(k).out, k.cfg.conv, d, s);
  }

  /** What is recorded with a datagram of a flush. */
  lemma NewDatagram(x: Peer, y: Peer, g: Datagram)
    requires x.k.cfg.mss > 0 && y.k.cfg.mss > 0 && g in AfterFlush(x, y).net && g !in x.net
    ensures g.d in Flush(x.k).out && g.low == x.low && g.una == InOrder(x, y.k.cfg.mss)
    ensures Flush(x.k).k.cfg.mss > 0 && g.next == Numbered(AfterFlush(x, y)) && g.first == LeftEdge(AfterFlush(x, y))
  {
    hide Stream, Back, Flush;
    FlushRest(x.k);
    var x1 := x.(k := Flush(x.k).k);
    var added := Recorded(Flush(x.k).out, x1, InOrder(x, y.k.cfg.mss));
    assert g in added;
    var i :| 0 <= i < |added| && added[i] == g;
    assert Numbered(x1) == Numbered(AfterFlush(x, y)) && LeftEdge(x1) == LeftEdge(AfterFlush(x, y));
  }

  lemma FlushFlowReceiver(x: Peer, y: Peer)
    requires EndpointOk(y.k) && Flow(x, y) && y.k.cfg.mss > 0
    ensures Flow(x, AfterFlush(y, x))
  {
    hide Stream, NetData, SendHalf, Covered, Admissible, RecvHalf, Acked, EndpointOk, Decode, FlushSegs, Admitted,
      Sweep, Pack, LeftEdge, Flush;
    var k, y' := y.k, AfterFlush(y, x);
    var m := InOrder(y, x.k.cfg.mss);
    FlushRest(k);
    RecvNumber(k.rcv, Stream(x.sent, x.k.cfg.mss), Numbered(x), m);
    forall g | g in y'.net ensures AcksTrue(g, k.cfg.conv, k.rcv.buf, m) {
      if g !in y.net {
        NewDatagram(y, x, g);
        forall s | s in Decode(g.d, k.cfg.conv).segs ensures TrueAck(s, g, k.rcv.buf, m) {
          FlushedDatagram(k, g.d, s);
          FlushedSegTrue(k, s);
        }
      }
    }
  }

  lemma RecvNumber(r: Receiver, st: seq<Frag>, n: int, m: int)
    requires RecvHalf(r, st, n, m)
    ensures r.nxt == Wrap(m)
  {
  }

  lemma FlushRest(k: Kcb)
    ensures Flush(k).k.rcv == k.rcv && Flush(k).k.cfg == k.cfg
    ensures k.updated ==> Flush(k).k.acks == [] && Flush(k).k.snd == Admitted(k).(buf := Sweep(k, Admitted(k).buf).buf)
    ensures !k.updated ==> Flush(k) == Flushed(k, [], [])
  {
  }

  /** No more flights than numbers between the edges of the window. */
  lemma FlightBound(una: u32, nxt: u32, buf: seq<Flight>, i: nat)
    requires Ordered(una, nxt, buf) && i < |buf|
    ensures i <= Dist(una, buf[i].seg.sn)
  {
    if i > 0 { FlightBound(una, nxt, buf, i - 1); }
  }

  /** Every flight lies between the edges of the window, as a position. */
  lemma FlightsInWindow(s: Sender, cfg: Config, n: int)
    requires SenderOk(s, cfg) && s.nxt == Wrap(n)
    ensures n - WINDOW_MAX <= Back(n, s.una) <= n
    ensures forall f <- s.buf :: Back(n, s.una) <= Back(n, f.seg.sn) < n
    ensures |s.buf| <= WINDOW_MAX
  {
    hide Wrap, Dist;
    forall f | f in s.buf ensures Back(n, s.una) <= Back(n, f.seg.sn) < n {
      var i :| 0 <= i < |s.buf| && s.buf[i] == f;
      DistRebase(s.una, f.seg.sn, s.nxt);
    }
    if s.buf != [] { FlightBound(s.una, s.nxt, s.buf, |s.buf| - 1); }
  }

  lemma LaunchedCarries(k: Kcb, frags: seq<Frag>, st: seq<Frag>, n: int)
    requires 0 <= n && n + |frags| <= |st| && st[n..n + |frags|] == frags && |frags| <= WINDOW_MAX
    ensures var added := Launched(k, frags, Wrap(n));
            forall i :: 0 <= i < |added| ==>
              Back(n + |frags|, added[i].seg.sn) == n + i && Carries(added[i].seg, st, n + i)
  {
    hide Wrap, Back;
    var added := Launched(k, frags, Wrap(n));
    forall i | 0 <= i < |added|
      ensures Back(n + |frags|, added[i].seg.sn) == n + i && Carries(added[i].seg, st, n + i) {
      WrapAdds(n, i);
      BackIs(n + |frags|, n + i);
      assert frags[i] == st[n..n + |frags|][i] == st[n + i];
    }
  }

  /** The flights keep their positions while `c` more fragments are numbered. */
  lemma ExtendHalf(s: Sender, s': Sender, added: seq<Flight>, st: seq<Frag>, n: int, c: nat)
    requires SendHalf(s, st, n) && c <= |s.queue| && s'.nxt == Wrap(n + c) && s'.queue == s.queue[c..]
             && s'.buf == s.buf + added
    requires |added| == c <= WINDOW_MAX
    requires forall i :: 0 <= i < c ==> Back(n + c, added[i].seg.sn) == n + i && Carries(added[i].seg, st, n + i)
    requires forall f <- s'.buf :: n + c - WINDOW_MAX <= Back(n + c, f.seg.sn) < n + c
    ensures SendHalf(s', st, n + c) && forall f <- s.buf :: Back(n + c, f.seg.sn) == Back(n, f.seg.sn)
  {
    hide Wrap, Back, Carries;
    assert st[n + c..] == s.queue[c..];
    forall f | f in s.buf ensures Back(n + c, f.seg.sn) == Back(n, f.seg.sn) {
      BackMoves(n, n + c, f.seg.sn);
    }
    forall f | f in s'.buf ensures Carries(f.seg, st, Back(n + c, f.seg.sn)) {
      if f !in s.buf {
        var i :| 0 <= i < |added| && added[i] == f;
      }
    }
  }

  lemma SenderOf(k: Kcb)
    requires EndpointOk(k)
    ensures SenderOk(k.snd, k.cfg) && SenderOk(Admitted(k), k.cfg)
  {
    hide Admit;
    AdmitKeepsSender(k, k.snd, k.cfg, UsableWindow(k));
  }

  /** Numbering more fragments keeps the sending half and covers the new numbers. */
  lemma AdmittedHalf(k: Kcb, st: seq<Frag>, n: int, buf: seq<Seg>, m: int) returns (n': int)
    requires EndpointOk(k) && SendHalf(k.snd, st, n) && Covered(k.snd.buf, n, buf, m)
    ensures n <= n' <= n + WINDOW_MAX && n' == |st| - |Admitted(k).queue|
    ensures SendHalf(Admitted(k), st, n') && Covered(Admitted(k).buf, n', buf, m)
    ensures 0 <= Back(n', Admitted(k).una)
            && forall f <- Admitted(k).buf :: Back(n', Admitted(k).una) <= Back(n', f.seg.sn) < n'
  {
    hide Wrap, Back, Carries, Admit, Covered, SenderOk, EndpointOk, Launched;
    var s := k.snd;
    var c := AdmitShape(k, s, UsableWindow(k));
    n' := n + c;
    var added := Launched(k, s.queue[..c], s.nxt);
    WrapAdds(n, c);
    SenderOf(k);
    FlightsInWindow(Admitted(k), k.cfg, n');
    assert st[n..n + c] == s.queue[..c];
    LaunchedLength(k, s.queue[..c], s.nxt);
    LaunchedCarries(k, s.queue[..c], st, n);
    ExtendHalf(s, Admitted(k), added, st, n, c);
    CoverExtends(s.buf, added, n, buf, m);
    EdgeHalf(Admitted(k), k.cfg, st, n');
  }

  lemma LaunchedLength(k: Kcb, frags: seq<Frag>, sn: u32)
    ensures |Launched(k, frags, sn)| == |frags|
  {
  }

  lemma EdgeHalf(s: Sender, cfg: Config, st: seq<Frag>, n: int)
    requires SenderOk(s, cfg) && SendHalf(s, st, n)
    ensures 0 <= Back(n, s.una)
  {
    hide Wrap, Back;
    BackWordSelf(n);
    if s.buf != [] { assert s.buf[0] in s.buf; }
  }

  lemma BackWordSelf(n: int)
    ensures Back(n, Wrap(n)) == n
  {
  }

  lemma CoverExtends(flights: seq<Flight>, added: seq<Flight>, n: int, buf: seq<Seg>, m: int)
    requires Covered(flights, n, buf, m)
    requires forall i :: 0 <= i < |added| ==> Back(n + |added|, added[i].seg.sn) == n + i
    requires forall f <- flights :: Back(n + |added|, f.seg.sn) == Back(n, f.seg.sn)
    ensures Covered(flights + added, n + |added|, buf, m)
  {
    hide Back, Accepted;
    var n' := n + |added|;
    forall i | 0 <= i < n' ensures Accepted(buf, m, i) || InFlight(flights + added, n', i) {
      if i >= n {
        assert added[i - n] in flights + added;
      } else if !Accepted(buf, m, i) {
        assert InFlight(flights, n, i);
        var f :| f in flights && Back(n, f.seg.sn) == i;
        assert f in flights + added;
      }
    }
  }

  lemma SameCargoHalf(s: Sender, b: seq<Flight>, st: seq<Frag>, n: int, buf: seq<Seg>, m: int)
    requires SendHalf(s, st, n) && SameCargoes(s.buf, b) && Covered(s.buf, n, buf, m)
    ensures SendHalf(s.(buf := b), st, n) && Covered(b, n, buf, m)
  {
    hide Back, Wrap, Accepted;
    forall g | g in b ensures n - TWO31 < Back(n, g.seg.sn) < n && Carries(g.seg, st, Back(n, g.seg.sn)) {
      var i :| 0 <= i < |b| && b[i] == g;
      assert SameCargo(s.buf[i], b[i]) && s.buf[i] in s.buf;
    }
    forall i | 0 <= i < n ensures Accepted(buf, m, i) || InFlight(b, n, i) {
      if !Accepted(buf, m, i) {
        assert InFlight(s.buf, n, i);
        var f :| f in s.buf && Back(n, f.seg.sn) == i;
        var j :| 0 <= j < |s.buf| && s.buf[j] == f;
        assert SameCargo(s.buf[j], b[j]) && b[j] in b;
      }
    }
  }

  lemma WiderHalf(r: Receiver, st: seq<Frag>, n: int, n': int, m: int)
    requires RecvHalf(r, st, n, m) && n <= n' <= |st|
    ensures RecvHalf(r, st, n', m)
  {
    hide Ahead, Wrap;
  }

  /** The datagrams of a flush carry the stream. */
  lemma FlushedDataTrue(k: Kcb, st: seq<Frag>, n: int, g: Datagram)
    requires EndpointOk(k) && g.d in Flush(k).out && SendHalf(Admitted(k), st, n)
    requires g.next == n && g.first == Back(n, Admitted(k).una) >= 0
    requires forall f <- Admitted(k).buf :: g.first <= Back(n, f.seg.sn) < n
    ensures DataTrue(g, k.cfg.conv, st, n)
  {
    hide Back, Wrap, EndpointOk, Flush, Decode, Admitted, FlushSegs;
    BackUpTo(n, Admitted(k).una);
    forall s | s in Decode(g.d, k.cfg.conv).segs ensures TrueData(s, st, g) {
      FlushedDatagram(k, g.d, s);
      FlushedSegTrue(k, s);
    }
  }

  lemma BackUpTo(n: int, w: u32)
    ensures Back(n, w) <= n
  {
  }

  lemma FlushFlowSender(x: Peer, y: Peer)
    requires EndpointOk(x.k) && Flow(x, y) && y.k.cfg.mss > 0
    ensures Flow(AfterFlush(x, y), y)
    ensures Numbered(x) <= Numbered(AfterFlush(x, y)) <= Numbered(x) + WINDOW_MAX
  {
    hide Stream, Admissible, RecvHalf, AckList, NetAcks, EndpointOk, Admitted, Sweep, Pack, Back, Wrap, Decode,
      FlushSegs, SendHalf, Covered, SenderOk;
    var k := x.k;
    FlushRest(k);
    if k.updated {
      var st, n, m := Stream(x.sent, k.cfg.mss), Numbered(x), InOrder(y, k.cfg.mss);
      var x' := AfterFlush(x, y);
      var s, buf := Admitted(k), y.k.rcv.buf;
      var n' := AdmittedHalf(k, st, n, buf, m);
      SweepSameCargo(k, s.buf);
      SameCargoHalf(s, Sweep(k, s.buf).buf, st, n', buf, m);
      HalfBounds(s, st, n');
      WiderHalf(y.k.rcv, st, n, n', m);
      forall g | g in x'.net ensures DataTrue(g, k.cfg.conv, st, n') {
        if g in x.net {
          DataTrueLater(g, k.cfg.conv, st, n, n');
        } else {
          NewDatagram(x, y, g);
          FlushedDataTrue(k, st, n', g);
        }
      }
    } else {
      assert x.net + [] == x.net;
    }
  }

  lemma DataTrueLater(g: Datagram, conv: u32, st: seq<Frag>, n: int, n': int)
    requires DataTrue(g, conv, st, n) && n <= n'
    ensures DataTrue(g, conv, st, n')
  {
    hide TrueData, Decode;
  }

  lemma HalfBounds(s: Sender, st: seq<Frag>, n: int)
    requires SendHalf(s, st, n)
    ensures 0 <= n <= |st| && n == |st| - |s.queue| && s.nxt == Wrap(n)
  {
  }

  // ----- steps of the sending end

  lemma LongerHalves(s: Sender, r: Receiver, st: seq<Frag>, more: seq<Frag>, n: int, m: int)
    requires SendHalf(s, st, n) && RecvHalf(r, st, n, m)
    ensures SendHalf(s.(queue := s.queue + more), st + more, n) && RecvHalf(r, st + more, n, m)
  {
    hide Back, Ahead, Wrap;
    assert (st + more)[n..] == st[n..] + more;
  }

  lemma LongerNetData(x: Peer, st: seq<Frag>, more: seq<Frag>, n: int)
    requires NetData(x, st, n)
    ensures NetData(x, st + more, n)
  {
    hide Decode, Back;
    forall g | g in x.net ensures DataTrue(g, x.k.cfg.conv, st + more, n) {
      forall s | s in Decode(g.d, x.k.cfg.conv).segs ensures TrueData(s, st + more, g) {
        assert TrueData(s, st, g);
      }
    }
  }

  lemma SayFlow(x: Peer, y: Peer, msg: bytes)
    requires Flow(x, y) && y.k.cfg.mss > 0
    ensures Flow(PeerStep(x, y, Say(msg)), y)
  {
    hide Stream, Fragments, SendHalf, RecvHalf, Covered, NetAcks, AckList, Decode, TrueData;
    if |msg| < TWO31 && Sendable(msg, x.k.cfg) {
      var st, n := Stream(x.sent, x.k.cfg.mss), Numbered(x);
      StreamSnoc(x.sent, msg, x.k.cfg.mss);
      LongerHalves(x.k.snd, y.k.rcv, st, Fragments(msg, x.k.cfg.mss), n, InOrder(y, x.k.cfg.mss));
      LongerNetData(x, st, Fragments(msg, x.k.cfg.mss), n);
    }
  }

  lemma SettleSender(p: Progress, prevUna: u32, st: seq<Frag>, n: int, buf: seq<Seg>, m: int)
    requires EndpointOk(p.k) && SendHalf(p.k.snd, st, n) && Covered(p.k.snd.buf, n, buf, m)
    ensures var snd := Settle(p, prevUna).snd;
            SendHalf(snd, st, n) && Covered(snd.buf, n, buf, m)
  {
    hide Covered, Back, Wrap, CountSkipped, Outstanding, Congestion.Grow;
    SettleKeeps(p, prevUna);
    SameCargoHalf(p.k.snd, Settle(p, prevUna).snd.buf, st, n, buf, m);
  }

  lemma AcceptedNumbered(r: Receiver, st: seq<Frag>, n: int, m: int)
    requires RecvHalf(r, st, n, m)
    ensures m <= n && forall i :: Accepted(r.buf, m, i) ==> i < n
  {
    hide Ahead, Wrap;
  }

  lemma InputSender(k: Kcb, g: Datagram, st: seq<Frag>, n: int, r: Receiver, m: int)
    requires EndpointOk(k) && SendHalf(k.snd, st, n) && RecvHalf(r, st, n, m) && Covered(k.snd.buf, n, r.buf, m)
    requires AcksTrue(g, k.cfg.conv, r.buf, m) && n <= g.low + TWO32 && n <= g.una + TWO31 + 1
    ensures var snd := Input(k, g.d).k.snd;
            SendHalf(snd, st, n) && Covered(snd.buf, n, r.buf, m)
  {
    hide TakeAll, Settle, Decode, SendHalf, RecvHalf, Covered, TrueAck, EndpointOk;
    if |g.d| >= OVERHEAD {
      var segs := Decode(g.d, k.cfg.conv).segs;
      var p := Progress(k, NoMark);
      AcceptedNumbered(r, st, n, m);
      DecodedWindows(g.d, k.cfg.conv);
      TakeAllKeeps(p, segs);
      TakeAllSender(p, segs, st, n, g, r.buf, m);
      SettleSender(TakeAll(p, segs), k.snd.una, st, n, r.buf, m);
    }
  }

  lemma ArriveFlowSender(x: Peer, y: Peer, j: nat)
    requires EndpointOk(x.k) && Flow(x, y) && x.k.cfg.conv == y.k.cfg.conv && y.k.cfg.mss > 0
    requires j < |y.net| ==> TimelyAcks(x, y.net[j])
    ensures Flow(PeerStep(x, y, Arrive(j)), y)
  {
    hide Stream, NetData, SendHalf, Covered, Admissible, RecvHalf, AckList, Input, EndpointOk, AcksTrue;
    if j < |y.net| {
      var g := y.net[j];
      assert AcksTrue(g, y.k.cfg.conv, y.k.rcv.buf, InOrder(y, x.k.cfg.mss));
      InputSender(x.k, g, Stream(x.sent, x.k.cfg.mss), Numbered(x), y.k.rcv, InOrder(y, x.k.cfg.mss));
      InputKeeps(x.k, g.d);
      FlowSenderMoves(x, x.(k := Input(x.k, g.d).k, low := Min(x.low, Max(0, g.first))), y);
    }
  }

  // ----- every step of the world

  lemma AdvanceFlow(x: Peer, y: Peer, t: u32)
    requires EndpointOk(x.k) && Flow(x, y) && Flow(y, x)
    ensures var x1 := x.(k := Advance(x.k, t).k);
            EndpointOk(x1.k) && Flow(x1, y) && Flow(y, x1)
  {
    hide Flow;
    var x1 := x.(k := Advance(x.k, t).k);
    FlowSenderSame(x, x1, y);
    FlowReceiverIdle(y, x, x1);
  }

  lemma FlowSenderSame(x: Peer, x': Peer, y: Peer)
    requires Flow(x, y) && x'.sent == x.sent && x'.net == x.net && x'.k.cfg == x.k.cfg && x'.k.snd == x.k.snd
    ensures Flow(x', y)
  {
    hide Stream, SendHalf, RecvHalf, Covered, AckList, NetAcks, Decode, Admissible;
    FlowSenderMoves(x, x', y);
  }

  lemma FlowConfigured(x: Peer, y: Peer)
    requires Flow(x, y)
    ensures x.k.cfg.mss > 0
  {
  }

  lemma FlushFlow(x: Peer, y: Peer)
    requires EndpointOk(x.k) && Flow(x, y) && Flow(y, x)
    ensures x.k.cfg.mss > 0 && y.k.cfg.mss > 0 && Flow(AfterFlush(x, y), y) && Flow(y, AfterFlush(x, y))
  {
    hide Flow, EndpointOk, AfterFlush;
    FlowConfigured(x, y);
    FlowConfigured(y, x);
    FlushFlowSender(x, y);
    FlushFlowReceiver(y, x);
  }

  lemma ClockFlow(x: Peer, y: Peer, t: u32)
    requires EndpointOk(x.k) && Flow(x, y) && Flow(y, x) && x.k.cfg.mss > 0 && y.k.cfg.mss > 0
    ensures Flow(PeerStep(x, y, Clock(t)), y) && Flow(y, PeerStep(x, y, Clock(t)))
  {
    hide Flow, EndpointOk, AfterFlush;
    AdvanceFlow(x, y, t);
    if Advance(x.k, t).flush { FlushFlow(x.(k := Advance(x.k, t).k), y); }
  }

  lemma HearIdle(x: Peer, y: Peer, len: int)
    requires Flow(x, y) && y.k.cfg.mss > 0
    ensures Flow(PeerStep(x, y, Hear(len)), y)
  {
    hide Flow, Recv;
    FlowConfigured(x, y);
    RecvKeepsRest(x.k, len);
    FlowSenderSame(x, PeerStep(x, y, Hear(len)), y);
  }

  lemma SayIdle(x: Peer, y: Peer, msg: bytes)
    requires x.k.cfg.mss > 0 && Flow(y, x)
    ensures y.k.cfg.mss > 0 && Flow(y, PeerStep(x, y, Say(msg)))
  {
    hide Flow;
    FlowConfigured(y, x);
    FlowReceiverIdle(y, x, PeerStep(x, y, Say(msg)));
  }

  /** The move is not the arrival of a datagram that is too old. */
  predicate TimelyMove(x: Peer, y: Peer, m: Move)
    requires x.k.cfg.mss > 0 && y.k.cfg.mss > 0
  {
    m.Arrive? && m.j < |y.net| ==> Timely(x, y, y.net[m.j])
  }

  /** The stream of either direction survives any step of either end. */
  lemma MoveFlow(x: Peer, y: Peer, m: Move)
    requires EndpointOk(x.k) && EndpointOk(y.k) && x.k.cfg.conv == y.k.cfg.conv
    requires x.k.cfg.mss > 0 && y.k.cfg.mss > 0 && Flow(x, y) && Flow(y, x) && TimelyMove(x, y, m)
    ensures Flow(PeerStep(x, y, m), y) && Flow(y, PeerStep(x, y, m))
  {
    hide Flow, EndpointOk, PeerStep, Stream, TimelyData, TimelyAcks;
    match m
    case Say(msg) =>
      SayFlow(x, y, msg);
      SayIdle(x, y, msg);
    case Hear(len) =>
      HearFlow(y, x, len);
      HearIdle(x, y, len);
    case Clock(t) => ClockFlow(x, y, t);
    case FlushNow =>
      FlushFlow(x, y);
      FlushStep(x, y);
    case Arrive(j) =>
      ArriveFlowSender(x, y, j);
      ArriveFlowReceiver(y, x, j);
  }

  lemma FlushStep(x: Peer, y: Peer)
    requires x.k.cfg.mss > 0 && y.k.cfg.mss > 0
    ensures PeerStep(x, y, FlushNow) == AfterFlush(x, y)
  {
  }

  lemma MoveKeepsConfig(x: Peer, y: Peer, m: Move)
    requires x.k.cfg.mss > 0 && y.k.cfg.mss > 0
    ensures PeerStep(x, y, m).k.cfg == x.k.cfg
  {
    if m.Arrive? && m.j < |y.net| { StepKeepsConfig(x.k, OpInput(y.net[m.j].d)); }
  }

  lemma MoveKeepsEndpoint(x: Peer, y: Peer, m: Move)
    requires EndpointOk(x.k) && x.k.cfg.mss > 0 && y.k.cfg.mss > 0
    ensures EndpointOk(PeerStep(x, y, m).k)
  {
    hide EndpointOk, Flush, Recv, Send, Input;
    match m
    case Say(msg) => if |msg| < TWO31 { SendKeeps(x.k, msg); }
    case Hear(len) => RecvKeeps(x.k, len);
    case Clock(t) => UpdateKeeps(x.k, t);
    case FlushNow => FlushKeeps(x.k);
    case Arrive(j) => if j < |y.net| { InputKeeps(x.k, y.net[j].d); }
  }

  predicate Configured(w: World) {
    w.a.k.cfg.mss > 0 && w.b.k.cfg.mss > 0
  }

  lemma StepKeepsConfigured(w: World, e: Event)
    requires Configured(w)
    ensures Configured(WorldStep(w, e))
    ensures WorldStep(w, e).a.k.cfg == w.a.k.cfg && WorldStep(w, e).b.k.cfg == w.b.k.cfg
  {
    hide PeerStep;
    match e
    case AtA(m) => MoveKeepsConfig(w.a, w.b, m);
    case AtB(m) => MoveKeepsConfig(w.b, w.a, m);
  }

  function Run(w: World, es: seq<Event>): (r: World)
    requires Configured(w)
    ensures r.a.k.cfg == w.a.k.cfg && r.b.k.cfg == w.b.k.cfg
  {
    if es == [] then w
    else
      var before := Run(w, es[..|es| - 1]);
      StepKeepsConfigured(before, es[|es| - 1]);
      WorldStep(before, es[|es| - 1])
  }

  predicate TimelyEvent(w: World, e: Event)
    requires Configured(w)
  {
    match e
    case AtA(m) => TimelyMove(w.a, w.b, m)
    case AtB(m) => TimelyMove(w.b, w.a, m)
  }

  /** Every arrival of the run is timely.  Nothing else is asked of the network, and nothing of
      the length of the run. */
  predicate TimelyRun(w: World, es: seq<Event>)
    requires Configured(w)
  {
    es == [] || (TimelyRun(w, es[..|es| - 1]) && TimelyEvent(Run(w, es[..|es| - 1]), es[|es| - 1]))
  }

  lemma StepKeepsWorld(w: World, e: Event)
    requires WorldOk(w) && Configured(w) && TimelyEvent(w, e)
    ensures WorldOk(WorldStep(w, e))
  {
    hide EndpointOk, Flow, PeerStep, TimelyMove;
    StepKeepsConfigured(w, e);
    match e
    case AtA(m) =>
      MoveKeepsEndpoint(w.a, w.b, m);
      MoveFlow(w.a, w.b, m);
    case AtB(m) =>
      MoveKeepsEndpoint(w.b, w.a, m);
      MoveFlow(w.b, w.a, m);
  }

  predicate Paired(ca: Config, cb: Config) {
    ValidConfig(ca) && ValidConfig(cb) && ca.conv == cb.conv
  }

  lemma StartOk(ca: Config, cb: Config)
    requires Paired(ca, cb)
    ensures WorldOk(Start(ca, cb))
  {
    hide EndpointOk, Flow;
    FreshOk(ca);
    FreshOk(cb);
    StartFlow(ca, cb);
    StartFlow(cb, ca);
  }

  lemma StartFlow(ca: Config, cb: Config)
    requires ValidConfig(ca) && ca.mss > 0
    ensures Flow(Peer(Fresh(ca), [], [], [], 0), Peer(Fresh(cb), [], [], [], 0))
  {
  }

  /** Every reachable state satisfies the invariant, for every interleaving of the two ends and
      every behaviour of a network that delivers no number that has come round again. */
  lemma {:induction false} ReachableWorld(ca: Config, cb: Config, es: seq<Event>)
    requires Paired(ca, cb) && TimelyRun(Start(ca, cb), es)
    ensures WorldOk(Run(Start(ca, cb), es))
  {
    hide WorldOk, WorldStep, TimelyEvent;
    if es == [] {
      StartOk(ca, cb);
    } else {
      ReachableWorld(ca, cb, es[..|es| - 1]);
      StepKeepsWorld(Run(Start(ca, cb), es[..|es| - 1]), es[|es| - 1]);
    }
  }

  // ----- connections on which no number comes round again

  /** At most 2^31 sequence numbers have been used each way. */
  predicate Short(w: World)
    requires Configured(w)
  {
    && |Stream(w.a.sent, w.a.k.cfg.mss)| <= TWO31
    && |Stream(w.b.sent, w.b.k.cfg.mss)| <= TWO31
  }

  lemma SentGrows(x: Peer, y: Peer, m: Move, mss: u32)
    requires x.k.cfg.mss > 0 && y.k.cfg.mss > 0 && mss > 0
    ensures |Stream(x.sent, mss)| <= |Stream(PeerStep(x, y, m).sent, mss)|
  {
    hide Flush, Recv, Input;
    if m.Say? { StreamSnoc(x.sent, m.msg, mss); }
  }

  lemma ShortBefore(w: World, e: Event)
    requires Configured(w) && Configured(WorldStep(w, e)) && Short(WorldStep(w, e))
    ensures Short(w)
  {
    hide PeerStep, Stream;
    StepKeepsConfigured(w, e);
    match e
    case AtA(m) => SentGrows(w.a, w.b, m, w.a.k.cfg.mss);
    case AtB(m) => SentGrows(w.b, w.a, m, w.b.k.cfg.mss);
  }

  /** While numbers are few, every datagram ever emitted is timely. */
  lemma ShortTimely(x: Peer, y: Peer, g: Datagram)
    requires EndpointOk(x.k) && EndpointOk(y.k) && Flow(x, y) && Flow(y, x) && g in y.net
    requires x.k.cfg.mss > 0 && y.k.cfg.mss > 0
    requires |Stream(x.sent, x.k.cfg.mss)| <= TWO31 && |Stream(y.sent, y.k.cfg.mss)| <= TWO31
    ensures Timely(x, y, g)
  {
    hide Stream, SendHalf, RecvHalf, Covered, AckList, Admissible, Decode, EndpointOk;
    EndpointConfig(x.k);
    EndpointConfig(y.k);
    HalfBounds(x.k.snd, Stream(x.sent, x.k.cfg.mss), Numbered(x));
    HalfBounds(y.k.snd, Stream(y.sent, y.k.cfg.mss), Numbered(y));
    assert AcksTrue(g, y.k.cfg.conv, y.k.rcv.buf, InOrder(y, x.k.cfg.mss));
    assert DataTrue(g, y.k.cfg.conv, Stream(y.sent, y.k.cfg.mss), Numbered(y));
  }

  lemma WindowPositive(k: Kcb)
    requires EndpointOk(k)
    ensures k.cfg.rcvWnd > 0
  {
  }

  lemma {:induction false} ShortIsTimely(ca: Config, cb: Config, es: seq<Event>)
    requires Paired(ca, cb) && Short(Run(Start(ca, cb), es))
    ensures TimelyRun(Start(ca, cb), es)
  {
    hide Flow, EndpointOk, WorldStep, Short, Timely;
    if es != [] {
      var before, e := Run(Start(ca, cb), es[..|es| - 1]), es[|es| - 1];
      ShortBefore(before, e);
      ShortIsTimely(ca, cb, es[..|es| - 1]);
      ReachableWorld(ca, cb, es[..|es| - 1]);
      ShortEvent(before, e);
    }
  }

  lemma ShortEvent(w: World, e: Event)
    requires WorldOk(w) && Configured(w) && Short(w)
    ensures TimelyEvent(w, e)
  {
    hide Flow, EndpointOk, Timely;
    match e
    case AtA(m) => if m.Arrive? && m.j < |w.b.net| { ShortTimely(w.a, w.b, w.b.net[m.j]); }
    case AtB(m) => if m.Arrive? && m.j < |w.a.net| { ShortTimely(w.b, w.a, w.a.net[m.j]); }
  }

  // ----- the main results

  /** End-to-end safety: what either application reads is a prefix of what the other sent,
      message boundaries and bytes intact, on connections of any length. */
  lemma InOrderDelivery(ca: Config, cb: Config, es: seq<Event>)
    requires Paired(ca, cb) && TimelyRun(Start(ca, cb), es)
    ensures var w := Run(Start(ca, cb), es);
            w.b.got <= w.a.sent && w.a.got <= w.b.sent
  {
    hide Run;
    ReachableWorld(ca, cb, es);
  }

  /** No loss from `x` to `y`: every numbered fragment is still in `snd_buf` or has reached the
      receiver, every fragment without a number is still in `snd_queue`, and no datagram ever
      emitted, nor any acknowledgement waiting to be sent, names a fragment that has not
      arrived. */
  ghost predicate NoneLost(x: Peer, y: Peer)
    requires x.k.cfg.mss > 0
  {
    var st, n, buf, m := Stream(x.sent, x.k.cfg.mss), Numbered(x), y.k.rcv.buf, InOrder(y, x.k.cfg.mss);
    && 0 <= n <= |st| && x.k.snd.queue == st[n..]
    && (forall i :: 0 <= i < n ==> Accepted(buf, m, i) || InFlight(x.k.snd.buf, n, i))
    && (forall k <- y.k.acks :: Acked(buf, m, y.low, k.sn))
    && (forall g <- y.net :: AcksTrue(g, y.k.cfg.conv, buf, m))
  }

  lemma FlowNoneLost(x: Peer, y: Peer)
    requires Flow(x, y)
    ensures NoneLost(x, y)
  {
    hide Stream, Accepted, Acked, AcksTrue, InFlight, Back, Ahead, Wrap, Admissible;
  }

  lemma NothingLost(ca: Config, cb: Config, es: seq<Event>)
    requires Paired(ca, cb) && TimelyRun(Start(ca, cb), es)
    ensures var w := Run(Start(ca, cb), es);
            NoneLost(w.a, w.b) && NoneLost(w.b, w.a)
  {
    hide Run, Flow, NoneLost;
    ReachableWorld(ca, cb, es);
    var w := Run(Start(ca, cb), es);
    FlowNoneLost(w.a, w.b);
    FlowNoneLost(w.b, w.a);
  }

  /** The two ends' windows: the receiver never runs ahead of the sender, the sender's left
      edge is at most one receive window beyond the receiver's, and not beyond it at all
      while the receive queue has room. */
  lemma WindowsAgree(x: Peer, y: Peer)
    requires EndpointOk(x.k) && EndpointOk(y.k) && Flow(x, y)
    ensures InOrder(y, x.k.cfg.mss) <= Numbered(x) <= LeftEdge(x) + WINDOW_MAX
    ensures LeftEdge(x) <= InOrder(y, x.k.cfg.mss) + y.k.cfg.rcvWnd
    ensures |y.k.rcv.queue| < y.k.cfg.rcvWnd ==> LeftEdge(x) <= InOrder(y, x.k.cfg.mss)
  {
    hide Stream, Back, Wrap, NetData, NetAcks, AckList, Admissible, Decode, Ahead;
    var s, r, wnd, n, m := x.k.snd, y.k.rcv, y.k.cfg.rcvWnd, Numbered(x), InOrder(y, x.k.cfg.mss);
    FlightsInWindow(s, x.k.cfg, n);
    BufferedInWindow(r, wnd, m);
    var edge := LeftEdge(x);
    EdgeNotNegative(x, y);
    if edge > m {
      assert !InFlight(s.buf, n, edge - 1) && Accepted(r.buf, m, edge - 1);
    }
    if |r.queue| < wnd && m < n {
      GapAtNext(r, wnd, m);
      assert !Accepted(r.buf, m, m) && InFlight(s.buf, n, m);
    }
  }

  lemma EdgeNotNegative(x: Peer, y: Peer)
    requires EndpointOk(x.k) && Flow(x, y)
    ensures 0 <= LeftEdge(x)
  {
    hide Stream, Back, NetData, NetAcks, AckList, Admissible, RecvHalf, Covered, SendHalf;
    EdgeHalf(x.k.snd, x.k.cfg, Stream(x.sent, x.k.cfg.mss), Numbered(x));
  }

  lemma BufferedInWindow(r: Receiver, wnd: u32, m: int)
    requires ReceiverOk(r, wnd) && r.nxt == Wrap(m)
    ensures forall s <- r.buf :: m <= Ahead(m, s.sn) < m + wnd
  {
    hide Wrap, Dist;
    forall s | s in r.buf ensures m <= Ahead(m, s.sn) < m + wnd {
      var j :| 0 <= j < |r.buf| && r.buf[j] == s;
      assert Dist(r.nxt, r.buf[j].sn) < wnd;
    }
  }

  lemma GapAtNext(r: Receiver, wnd: u32, m: int)
    requires ReceiverOk(r, wnd) && |r.queue| < wnd && r.nxt == Wrap(m)
    ensures !Accepted(r.buf, m, m)
  {
    hide Wrap, Ahead;
    forall s | s in r.buf ensures Ahead(m, s.sn) != m {
      AheadWord(m, s.sn);
      var j :| 0 <= j < |r.buf| && r.buf[j] == s;
      assert j == 0 || Dist(r.nxt, r.buf[0].sn) < Dist(r.nxt, r.buf[j].sn);
      if s.sn == r.nxt { DistZero(r.nxt); }
    }
  }

  lemma DistZero(w: u32)
    ensures Dist(w, w) == 0
  {
  }

  /** A full receive queue can always be read, so a closed window can always reopen. */
  lemma FullQueueReadable(x: Peer, y: Peer)
    requires Flow(x, y) && |y.k.rcv.queue| == y.k.cfg.rcvWnd >= WND_RCV
    ensures PeekSize(y.k.rcv.queue) >= 0 && |y.got| < |x.sent|
    ensures forall len :: len >= PeekSize(y.k.rcv.queue) ==>
              Recv(y.k, len).code >= 0 && Recv(y.k, len).data == x.sent[|y.got|]
  {
    hide Stream, SendHalf, RecvHalf, Covered, AckList, NetAcks, NetData, Admissible, Fragments, Deliver;
    NextBoundary(x.sent, y.got, x.k.cfg, y.k.rcv, Numbered(x), InOrder(y, x.k.cfg.mss));
    ReceivesNext(x.sent, y.got, x.k.cfg, y.k.rcv, Numbered(x), InOrder(y, x.k.cfg.mss));
  }

  /** The window and readability facts from `x` to `y`. */
  predicate WindowsHold(x: Peer, y: Peer)
    requires x.k.cfg.mss > 0
  {
    var m, wnd := InOrder(y, x.k.cfg.mss), y.k.cfg.rcvWnd;
    && x.k.snd.nxt == Wrap(Numbered(x)) && y.k.rcv.nxt == Wrap(m)
    && m <= Numbered(x) <= LeftEdge(x) + WINDOW_MAX && LeftEdge(x) <= m + wnd
    && (|y.k.rcv.queue| < wnd ==> LeftEdge(x) <= m)
    && (|y.k.rcv.queue| == wnd ==> PeekSize(y.k.rcv.queue) >= 0)
  }

  lemma FlowWindows(x: Peer, y: Peer)
    requires EndpointOk(x.k) && EndpointOk(y.k) && Flow(x, y)
    ensures WindowsHold(x, y)
  {
    hide Stream, SendHalf, RecvHalf, Covered, AckList, NetAcks, NetData, Admissible, PeekSize, Back, Wrap;
    WindowsAgree(x, y);
    HalfBounds(x.k.snd, Stream(x.sent, x.k.cfg.mss), Numbered(x));
    RecvNumber(y.k.rcv, Stream(x.sent, x.k.cfg.mss), Numbered(x), InOrder(y, x.k.cfg.mss));
    if |y.k.rcv.queue| == y.k.cfg.rcvWnd { FullQueueReadable(x, y); }
  }

  lemma ReachableWindows(ca: Config, cb: Config, es: seq<Event>)
    requires Paired(ca, cb) && TimelyRun(Start(ca, cb), es)
    ensures var w := Run(Start(ca, cb), es);
            WindowsHold(w.a, w.b) && WindowsHold(w.b, w.a)
  {
    hide Flow, EndpointOk, WindowsHold, Run;
    ReachableWorld(ca, cb, es);
    var w := Run(Start(ca, cb), es);
    FlowWindows(w.a, w.b);
    FlowWindows(w.b, w.a);
  }
}
