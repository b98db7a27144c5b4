/** How far behind the data of a datagram may be: a receive window short of 2^32 fragments,
    exactly.  One fragment later the receiver buffers it under the number that now stands for a
    position not yet sent, and in the end reads it there. */
module StaleData {
  import opened Words
  import opened Wire
  import opened Kcp
  import opened SenderInvariant
  import opened ReceiverInvariant
  import opened Endpoint
  import opened Connection
  import opened Recovery
  import opened LongTalk
  import Rtt
  import StaleAck

  // ----- a receiver that also holds an old segment

  /** The control block with `z` at the end of `rcv_buf`. */
  function With(k: Kcb, z: Seg): Kcb {
    k.(rcv := k.rcv.(buf := k.rcv.buf + [z]))
  }

  function PeerWith(y: Peer, z: Seg): Peer {
    y.(k := With(y.k, z))
  }

  /** The world in which the second end also holds `z`. */
  function Haunt(w: World, z: Seg): World {
    w.(b := PeerWith(w.b, z))
  }

  lemma {:induction false} DeliverWith(r: Receiver, wnd: u32, z: Seg)
    requires Deliver(r, wnd).nxt != z.sn
    ensures Deliver(r.(buf := r.buf + [z]), wnd) == Deliver(r, wnd).(buf := Deliver(r, wnd).buf + [z])
    decreases |r.buf|
  {
    if r.buf != [] && r.buf[0].sn == r.nxt && |r.queue| < wnd {
      var r1 := Receiver(Wrap(r.nxt + 1), r.buf[1..], r.queue + [r.buf[0]]);
      assert (r.buf + [z])[1..] == r.buf[1..] + [z];
      DeliverWith(r1, wnd, z);
    }
  }

  lemma InsertWith(buf: seq<Seg>, s: Seg, z: Seg)
    requires s.sn != z.sn && TimeDiff(s.sn, z.sn) <= 0
    ensures Insert(buf + [z], s) == Insert(buf, s) + [z]
  {
    hide TimeDiff;
    assert (buf + [z])[..|buf|] == buf;
  }

  /** Parsing commutes with holding `z`, for a segment before `z`. */
  lemma ParseDataWith(r: Receiver, wnd: u32, s: Seg, z: Seg)
    requires ParseData(r, wnd, s).nxt != z.sn
    requires BelowWindowEnd(r, wnd, s.sn) && TimeDiff(s.sn, r.nxt) >= 0 ==> s.sn != z.sn && TimeDiff(s.sn, z.sn) <= 0
    ensures ParseData(r.(buf := r.buf + [z]), wnd, s) == ParseData(r, wnd, s).(buf := ParseData(r, wnd, s).buf + [z])
  {
    hide TimeDiff, Wrap, Insert, Deliver;
    if BelowWindowEnd(r, wnd, s.sn) && TimeDiff(s.sn, r.nxt) >= 0 {
      InsertWith(r.buf, s, z);
      DeliverWith(r.(buf := Insert(r.buf, s)), wnd, z);
    }
  }

  lemma TakeSegWith(p: Progress, s: Seg, z: Seg)
    requires s.cmd == CMD_PUSH ==>
               && ParseData(p.k.rcv, p.k.cfg.rcvWnd, s).nxt != z.sn
               && (BelowWindowEnd(p.k.rcv, p.k.cfg.rcvWnd, s.sn) && TimeDiff(s.sn, p.k.rcv.nxt) >= 0 ==>
                     s.sn != z.sn && TimeDiff(s.sn, z.sn) <= 0)
    ensures TakeSeg(p.(k := With(p.k, z)), s) == TakeSeg(p, s).(k := With(TakeSeg(p, s).k, z))
  {
    hide TimeDiff, Wrap, ParseData, ParseAck, DropUna;
    if s.cmd == CMD_PUSH { ParseDataWith(p.k.rcv, p.k.cfg.rcvWnd, s, z); }
  }

  lemma SettleWith(p: Progress, prevUna: u32, z: Seg)
    requires p.k.cfg.mss > 0
    ensures Settle(p.(k := With(p.k, z)), prevUna) == With(Settle(p, prevUna), z)
  {
  }

  lemma SweepOneWith(k: Kcb, f: Flight, z: Seg)
    ensures SweepOne(With(k, z), f) == SweepOne(k, f)
  {
    hide TimeDiff, Wrap, Signed32;
  }

  lemma {:induction false} SweepWith(k: Kcb, buf: seq<Flight>, z: Seg)
    ensures Sweep(With(k, z), buf) == Sweep(k, buf)
  {
    hide SweepOne, With;
    if buf != [] {
      SweepOneWith(k, buf[0], z);
      SweepWith(k, buf[1..], z);
    }
  }

  lemma {:induction false} AdmitWith(k: Kcb, s: Sender, window: u32, z: Seg)
    ensures Admit(With(k, z), s, window) == Admit(k, s, window)
    decreases |s.queue|
  {
    hide TimeDiff, Wrap;
    if TimeDiff(s.nxt, Wrap(s.una + window)) < 0 && s.queue != [] {
      AdmitWith(k, Sender(s.una, Wrap(s.nxt + 1), s.queue[1..], s.buf + [Launch(k, s.queue[0], s.nxt)]), window, z);
    }
  }

  lemma FlushWith(k: Kcb, z: Seg)
    ensures Flush(With(k, z)) == Flush(k).(k := With(Flush(k).k, z))
  {
    hide Sweep, Admit, Pack;
    AdmitWith(k, k.snd, UsableWindow(k), z);
    SweepWith(k, Admitted(k).buf, z);
    assert AckSegs(With(k, z), k.acks) == AckSegs(k, k.acks);
  }

  lemma RecvWith(k: Kcb, len: int, z: Seg)
    requires Recv(k, len).k.rcv.nxt != z.sn
    ensures Recv(With(k, z), len) == Recv(k, len).(k := With(Recv(k, len).k, z))
  {
    hide Deliver, PeekSize, NextMessage, Span;
    SpanBound(k.rcv.queue);
    var queue := if len < 0 then k.rcv.queue else k.rcv.queue[Span(k.rcv.queue)..];
    if k.rcv.queue != [] && 0 <= PeekSize(k.rcv.queue) <= Rtt.Abs(len) {
      DeliverWith(k.rcv.(queue := queue), k.cfg.rcvWnd, z);
    }
  }

  // ----- the receiver near the end of the first circle

  /** The numbers are in the second half of their first circle, so a word is its position. */
  predicate Late(m: int) {
    TWO31 <= m < TWO32
  }

  lemma LateWord(i: int)
    requires Late(i)
    ensures Wrap(i) == i != 0 && TimeDiff(Wrap(i), 0) < 0
  {
  }

  lemma PushWith(p: Progress, s: Seg, g: Datagram, st: seq<Frag>, n: int, m: int, m': int, z: Seg)
    requires EndpointOk(p.k) && RecvHalf(p.k.rcv, st, n, m) && TrueData(s, st, g) && s.cmd == CMD_PUSH && z.sn == 0
    requires g.next <= n <= TWO32 && n <= m + TWO31 && n + p.k.cfg.rcvWnd <= g.first + TWO32 && Late(m) && Late(m')
    requires RecvHalf(TakeSeg(p, s).k.rcv, st, n, m')
    ensures TakeSeg(p.(k := With(p.k, z)), s) == TakeSeg(p, s).(k := With(TakeSeg(p, s).k, z))
  {
    hide TimeDiff, Wrap, Back, Dist, ParseData, TakeSeg, Carries, Ahead, SenderOk, CargoOk, TimersOk, ReceiverOk;
    var i, wnd, r := Back(g.next, s.sn), p.k.cfg.rcvWnd, p.k.rcv;
    BackWord(g.next, s.sn);
    WindowPosition(m, wnd, i);
    WindowTest(r, wnd, s.sn);
    if m <= i { LateWord(i); }
    LateWord(m');
    PushRcv(p, s);
    TakeSegWith(p, s, z);
  }

  lemma PushRcv(p: Progress, s: Seg)
    requires s.cmd == CMD_PUSH
    ensures TakeSeg(p, s).k.rcv == ParseData(p.k.rcv, p.k.cfg.rcvWnd, s)
  {
    hide ParseData, DropUna, TimeDiff;
    HeaderRest(p.k, s);
    PushedAsParsed(TakeHeader(p.k, s), s);
  }

  lemma {:induction false} TakeAllWith(p: Progress, ss: seq<Seg>, g: Datagram, st: seq<Frag>, n: int, m: int,
    low: int, z: Seg)
    requires EndpointOk(p.k) && forall s <- ss :: s.wnd <= WINDOW_MAX && TrueData(s, st, g)
    requires RecvHalf(p.k.rcv, st, n, m) && AckList(p.k.rcv.buf, m, low, p.k.acks) && z.sn == 0
    requires low <= g.first && g.next <= n <= m + TWO31 && n + p.k.cfg.rcvWnd <= g.first + TWO32 && n <= TWO32
    requires Late(m) && m - |p.k.rcv.queue| + |TakeAll(p, ss).k.rcv.queue| < TWO32
    ensures TakeAll(p.(k := With(p.k, z)), ss) == TakeAll(p, ss).(k := With(TakeAll(p, ss).k, z))
    decreases |ss|
  {
    hide EndpointOk, TrueData, RecvHalf, AckList, TakeSeg, Accepted, With;
    if ss != [] {
      var s, p1 := ss[0], TakeSeg(p, ss[0]);
      TakeSegKeeps(p, s);
      var m1 := TakeSegReceiver(p, s, g, st, n, m, low);
      var m2 := TakeAllReceiver(p1, ss[1..], g, st, n, m1, low);
      if s.cmd == CMD_PUSH { PushWith(p, s, g, st, n, m, m1, z); } else { TakeSegWith(p, s, z); }
      TakeAllWith(p1, ss[1..], g, st, n, m1, low, z);
    }
  }

  lemma InputWith(x: Peer, y: Peer, g: Datagram, z: Seg)
    requires EndpointOk(x.k) && EndpointOk(y.k) && Flow(x, y) && x.k.cfg.conv == y.k.cfg.conv && y.k.cfg.mss > 0
    requires g in x.net && TimelyData(y, x, g) && z.sn == 0 && Numbered(x) <= TWO32
    requires Late(InOrder(y, x.k.cfg.mss)) && |Stream(y.got, x.k.cfg.mss)| + |Input(y.k, g.d).k.rcv.queue| < TWO32
    ensures Input(With(y.k, z), g.d).k == With(Input(y.k, g.d).k, z)
  {
    hide TakeAll, RecvHalf, EndpointOk, Decode, AckList, Stream, SendHalf, Covered, NetAcks, Admissible, TrueData,
      Settle, Accepted;
    if |g.d| >= OVERHEAD {
      var st, n, m := Stream(x.sent, x.k.cfg.mss), Numbered(x), InOrder(y, x.k.cfg.mss);
      var p, segs, low := Progress(y.k, NoMark), Decode(g.d, y.k.cfg.conv).segs, Min(y.low, g.first);
      assert DataTrue(g, x.k.cfg.conv, st, n);
      DecodedWindows(g.d, y.k.cfg.conv);
      WindowsAgree(x, y);
      EndpointConfig(y.k);
      GrownHere(y.k.rcv.buf, m);
      GrownList(y.k.rcv.buf, m, y.k.rcv.buf, m, y.low, low, y.k.acks);
      TakeAllKeepsConfig(p, segs);
      SettleRest(TakeAll(p, segs), y.k.snd.una);
      TakeAllWith(p, segs, g, st, n, m, low, z);
      TakeAllKeepsConfig(p.(k := With(p.k, z)), segs);
      SettleWith(TakeAll(p, segs), y.k.snd.una, z);
    }
  }

  // ----- the haunted world does what the other does

  /** The stream from the first end is near the end of its first circle. */
  predicate LateWorld(w: World)
    requires Configured(w)
  {
    Late(InOrder(w.b, w.a.k.cfg.mss)) && Numbered(w.a) <= TWO32
  }

  lemma RecvLate(w: World, len: int, z: Seg)
    requires WorldOk(w) && Configured(w) && z.sn == 0
    requires Configured(WorldStep(w, AtB(Hear(len)))) && LateWorld(WorldStep(w, AtB(Hear(len))))
    ensures Recv(With(w.b.k, z), len) == Recv(w.b.k, len).(k := With(Recv(w.b.k, len).k, z))
  {
    hide Flow, EndpointOk, Recv, Stream, Wrap, PeerStep;
    var w' := WorldStep(w, AtB(Hear(len)));
    StepKeepsWorld(w, AtB(Hear(len)));
    FlowWindows(w'.a, w'.b);
    LateWord(InOrder(w'.b, w'.a.k.cfg.mss));
    HearState(w.b, w.a, len);
    RecvWith(w.b.k, len, z);
  }

  lemma HearState(x: Peer, y: Peer, len: int)
    requires x.k.cfg.mss > 0 && y.k.cfg.mss > 0
    ensures PeerStep(x, y, Hear(len)) == x.(k := Recv(x.k, len).k, got := GotAfter(x.got, Recv(x.k, len), len))
  {
  }

  lemma FlushPeerWith(y: Peer, x: Peer, z: Seg)
    requires x.k.cfg.mss > 0 && y.k.cfg.mss > 0
    ensures AfterFlush(PeerWith(y, z), x) == PeerWith(AfterFlush(y, x), z)
  {
    hide Flush, Stream, Back;
    FlushWith(y.k, z);
    FlushRest(y.k);
    var y1, yz := y.(k := Flush(y.k).k), PeerWith(y, z).(k := Flush(With(y.k, z)).k);
    assert Numbered(y1) == Numbered(yz) && LeftEdge(y1) == LeftEdge(yz);
    assert Recorded(Flush(y.k).out, y1, InOrder(y, x.k.cfg.mss))
      == Recorded(Flush(y.k).out, yz, InOrder(y, x.k.cfg.mss));
  }

  lemma HauntB(w: World, m: Move, z: Seg)
    requires WorldOk(w) && Configured(w) && TimelyEvent(w, AtB(m)) && z.sn == 0
    requires LateWorld(w) && Configured(WorldStep(w, AtB(m))) && LateWorld(WorldStep(w, AtB(m)))
    ensures PeerStep(PeerWith(w.b, z), w.a, m) == PeerWith(PeerStep(w.b, w.a, m), z)
  {
    hide Flow, EndpointOk, Flush, Recv, Input, Stream, AfterFlush, Timely;
    match m
    case Say(msg) => {}
    case Hear(len) => RecvLate(w, len, z);
    case Clock(t) =>
      AdvanceWith(w.b.k, t, z);
      if Advance(w.b.k, t).flush { FlushPeerWith(w.b.(k := Advance(w.b.k, t).k), w.a, z); }
    case FlushNow => FlushPeerWith(w.b, w.a, z);
    case Arrive(j) => if j < |w.a.net| { ArriveWith(w, j, z); }
  }

  lemma AdvanceWith(k: Kcb, t: u32, z: Seg)
    ensures Advance(With(k, z), t) == Advance(k, t).(k := With(Advance(k, t).k, z))
  {
  }

  lemma ArriveWith(w: World, j: nat, z: Seg)
    requires WorldOk(w) && Configured(w) && j < |w.a.net| && Timely(w.b, w.a, w.a.net[j]) && z.sn == 0
    requires LateWorld(w) && Configured(WorldStep(w, AtB(Arrive(j)))) && LateWorld(WorldStep(w, AtB(Arrive(j))))
    ensures Input(With(w.b.k, z), w.a.net[j].d).k == With(Input(w.b.k, w.a.net[j].d).k, z)
  {
    hide Flow, EndpointOk, Input, Stream;
    InputWith(w.a, w.b, w.a.net[j], z);
  }

  lemma HauntA(w: World, m: Move, z: Seg)
    requires Configured(w)
    ensures PeerStep(w.a, PeerWith(w.b, z), m) == PeerStep(w.a, w.b, m)
  {
    hide Flush, Recv, Input, Stream;
  }

  lemma HauntStep(w: World, e: Event, z: Seg)
    requires WorldOk(w) && Configured(w) && TimelyEvent(w, e) && z.sn == 0
    requires LateWorld(w) && Configured(WorldStep(w, e)) && LateWorld(WorldStep(w, e))
    ensures WorldStep(Haunt(w, z), e) == Haunt(WorldStep(w, e), z)
  {
    hide WorldOk, PeerStep, PeerWith, TimelyEvent, LateWorld;
    match e
    case AtA(m) => HauntA(w, m, z); PeerWithConfig(w.b, z);
    case AtB(m) => HauntB(w, m, z); PeerWithConfig(w.b, z);
  }

  lemma PeerWithConfig(y: Peer, z: Seg)
    ensures PeerWith(y, z).k.cfg == y.k.cfg
  {
  }

  // ----- nothing goes back

  lemma NumberedGrows(x: Peer, y: Peer, m: Move)
    requires EndpointOk(x.k) && Flow(x, y) && Flow(y, x) && x.k.cfg.mss > 0 && y.k.cfg.mss > 0
    ensures PeerStep(x, y, m).k.cfg == x.k.cfg && Numbered(x) <= Numbered(PeerStep(x, y, m))
  {
    hide Flow, EndpointOk, Flush, Recv, Input, Stream, AfterFlush, Fragments, Sendable;
    MoveKeepsConfig(x, y, m);
    match m
    case Say(msg) => StreamSnoc(x.sent, msg, x.k.cfg.mss);
    case Hear(len) => RecvKeepsRest(x.k, len);
    case Clock(t) =>
      AdvanceFlow(x, y, t);
      if Advance(x.k, t).flush { FlushFlowSender(x.(k := Advance(x.k, t).k), y); }
    case FlushNow => FlushFlowSender(x, y);
    case Arrive(j) => if j < |y.net| { InputNumbers(x.k, y.net[j].d); }
  }

  lemma InOrderGrows(y: Peer, x: Peer, m: Move)
    requires EndpointOk(x.k) && EndpointOk(y.k) && Flow(x, y) && x.k.cfg.mss > 0 && y.k.cfg.mss > 0
    requires x.k.cfg.conv == y.k.cfg.conv && TimelyMove(y, x, m)
    ensures InOrder(y, x.k.cfg.mss) <= InOrder(PeerStep(y, x, m), x.k.cfg.mss)
  {
    hide Flow, EndpointOk, Flush, Recv, Input, Stream, Fragments, Sendable, Timely;
    match m
    case Say(msg) => {}
    case Hear(len) => HearGrows(y, x, len);
    case Clock(t) => FlushRest(Advance(y.k, t).k);
    case FlushNow => FlushRest(y.k);
    case Arrive(j) => if j < |x.net| { InputGrows(x, y, x.net[j]); }
  }

  lemma HearGrows(y: Peer, x: Peer, len: int)
    requires EndpointOk(y.k) && Flow(x, y) && x.k.cfg.mss > 0 && y.k.cfg.mss > 0
    ensures InOrder(y, x.k.cfg.mss) <= InOrder(PeerStep(y, x, Hear(len)), x.k.cfg.mss)
  {
    hide Stream, Recv, NetAcks, NetData, SendHalf, Covered, Admissible, RecvHalf, AckList, Accepted;
    var m' := RecvReceiver(y.k, len, x.sent, y.got, x.k.cfg, Numbered(x), InOrder(y, x.k.cfg.mss));
  }

  lemma NothingBack(w: World, e: Event)
    requires WorldOk(w) && Configured(w) && TimelyEvent(w, e) && Configured(WorldStep(w, e))
    ensures Numbered(w.a) <= Numbered(WorldStep(w, e).a)
    ensures InOrder(w.b, w.a.k.cfg.mss) <= InOrder(WorldStep(w, e).b, WorldStep(w, e).a.k.cfg.mss)
  {
    hide Flow, EndpointOk, PeerStep, Stream, TimelyMove;
    match e
    case AtA(m) => NumberedGrows(w.a, w.b, m);
    case AtB(m) => InOrderGrows(w.b, w.a, m);
  }

  lemma HauntLag(w: World, e: Event, data: int, una: int, z: Seg)
    requires Configured(w)
    ensures LagEvent(Haunt(w, z), e, data, una) <==> LagEvent(w, e, data, una)
  {
    hide Stream;
    assert Numbered(PeerWith(w.b, z)) == Numbered(w.b);
  }

  /** A whole timely run, with `z` in the buffer all along. */
  lemma {:induction false} HauntRun(w: World, es: seq<Event>, z: Seg, data: int, una: int)
    requires WorldOk(w) && Configured(w) && TimelyRun(w, es) && LagRun(w, es, data, una) && z.sn == 0
    requires LateWorld(w) && LateWorld(Run(w, es))
    ensures WorldOk(Run(w, es))
    ensures Configured(Haunt(w, z)) && Run(Haunt(w, z), es) == Haunt(Run(w, es), z)
    ensures LagRun(Haunt(w, z), es, data, una)
  {
    hide WorldOk, WorldStep, TimelyEvent, LagEvent, Haunt, Stream;
    HauntConfig(w, z);
    if es != [] {
      var front, e := es[..|es| - 1], es[|es| - 1];
      var w1 := Run(w, front);
      TimelyRunOk(w, front);
      NothingBack(w1, e);
      LateBefore(w, front);
      HauntRun(w, front, z, data, una);
      HauntStep(w1, e, z);
      StepKeepsWorld(w1, e);
      HauntLag(w1, e, data, una, z);
    }
  }

  lemma HauntConfig(w: World, z: Seg)
    requires Configured(w)
    ensures Configured(Haunt(w, z))
  {
  }

  lemma {:induction false} TimelyRunOk(w: World, es: seq<Event>)
    requires WorldOk(w) && Configured(w) && TimelyRun(w, es)
    ensures WorldOk(Run(w, es))
  {
    hide WorldOk, WorldStep, TimelyEvent;
    if es != [] {
      TimelyRunOk(w, es[..|es| - 1]);
      StepKeepsWorld(Run(w, es[..|es| - 1]), es[|es| - 1]);
    }
  }

  lemma {:induction false} LateBefore(w: World, es: seq<Event>)
    requires WorldOk(w) && Configured(w) && TimelyRun(w, es) && LateWorld(w)
    ensures TWO31 <= InOrder(Run(w, es).b, w.a.k.cfg.mss)
  {
    hide WorldOk, WorldStep, TimelyEvent, Stream;
    if es != [] {
      LateBefore(w, es[..|es| - 1]);
      TimelyRunOk(w, es[..|es| - 1]);
      StepKeepsConfigured(Run(w, es[..|es| - 1]), es[|es| - 1]);
      NothingBack(Run(w, es[..|es| - 1]), es[|es| - 1]);
    }
  }

  // ----- the old datagram is buffered

  predicate IsFirst(s: Seg) {
    s.sn == 0 && s.frg == 0 && s.data == [1]
  }

  /** Nothing is held but, perhaps, the first fragment of the connection once more. */
  predicate Holds(r: Receiver, nxt: u32, held: bool) {
    r.nxt == nxt && r.queue == [] && if held then |r.buf| == 1 && IsFirst(r.buf[0]) else r.buf == []
  }

  lemma TakeBuffered(p: Progress, s: Seg, nxt: u32, held: bool)
    requires Holds(p.k.rcv, nxt, held) && nxt != 0 && Dist(nxt, 0) < p.k.cfg.rcvWnd <= WINDOW_MAX
    requires s.cmd == CMD_PUSH ==> IsFirst(s)
    ensures var k := TakeSeg(p, s).k;
            && k.cfg == p.k.cfg && Holds(k.rcv, nxt, held || s.cmd == CMD_PUSH)
            && (forall a <- k.acks :: a in p.k.acks || a.sn == 0)
  {
    hide TimeDiff, Wrap, Dist, DropUna, ParseAck, Deliver;
    if s.cmd == CMD_PUSH {
      WindowTest(p.k.rcv, p.k.cfg.rcvWnd, s.sn);
      if held { assert p.k.rcv.buf == [p.k.rcv.buf[0]]; }
      NotDelivered(Receiver(nxt, if held then p.k.rcv.buf else [s], []), p.k.cfg.rcvWnd);
    }
  }

  lemma NotDelivered(r: Receiver, wnd: u32)
    requires r.buf != [] && r.buf[0].sn != r.nxt
    ensures Deliver(r, wnd) == r
  {
  }

  lemma {:induction false} TakeAllBuffered(p: Progress, ss: seq<Seg>, nxt: u32, held: bool)
    requires Holds(p.k.rcv, nxt, held) && nxt != 0 && Dist(nxt, 0) < p.k.cfg.rcvWnd <= WINDOW_MAX
    requires forall s <- ss :: s.cmd == CMD_PUSH ==> IsFirst(s)
    ensures Holds(TakeAll(p, ss).k.rcv, nxt, held || exists s <- ss :: s.cmd == CMD_PUSH)
    ensures forall a <- TakeAll(p, ss).k.acks :: a in p.k.acks || a.sn == 0
    decreases |ss|
  {
    hide TakeSeg, Holds, IsFirst, Dist;
    if ss != [] {
      TakeBuffered(p, ss[0], nxt, held);
      TakeAllBuffered(TakeSeg(p, ss[0]), ss[1..], nxt, held || ss[0].cmd == CMD_PUSH);
    }
  }

  lemma InputBuffered(k: Kcb, g: Datagram, nxt: u32)
    requires k.cfg.mss > 0 && Kept(g, k.cfg.conv) && Holds(k.rcv, nxt, false) && nxt != 0
    requires Dist(nxt, 0) < k.cfg.rcvWnd <= WINDOW_MAX
    ensures Holds(Input(k, g.d).k.rcv, nxt, true)
    ensures forall a <- Input(k, g.d).k.acks :: a in k.acks || a.sn == 0
  {
    hide TakeAll, Decode, Holds, Dist;
    var p, segs := Progress(k, NoMark), Decode(g.d, k.cfg.conv).segs;
    TakeAllBuffered(p, segs, nxt, false);
    TakeAllKeepsConfig(p, segs);
    SettleRest(TakeAll(p, segs), k.snd.una);
  }

  /** The last number at which the old datagram is still refused, and one more. */
  function Brink(cfg: Config): int {
    TWO32 - cfg.rcvWnd + 1
  }

  lemma BrinkWord(wnd: u32)
    requires 0 < wnd <= WINDOW_MAX
    ensures var nxt := Wrap(TWO32 - wnd + 1);
            (wnd > 1 ==> nxt != 0) && Dist(nxt, 0) < wnd
  {
  }

  lemma BrinkRange(w: World)
    requires WorldOk(w)
    ensures WND_RCV <= w.b.k.cfg.rcvWnd <= WINDOW_MAX
  {
    hide Flow;
  }

  /** The second end with its receiving half put back as it was. */
  function Cleansed(w: World, j: nat): World
    requires Configured(w) && j < |w.a.net|
  {
    var b := PeerStep(w.b, w.a, Arrive(j));
    w.(b := b.(k := b.k.(rcv := w.b.k.rcv)))
  }

  /** One fragment past the limit, the old datagram is buffered; apart from that the world is
      as sound as before. */
  lemma StaleArrives(w: World, g: Datagram, j: nat) returns (z: Seg)
    requires Caught(w) && |w.a.sent| == Brink(w.b.k.cfg) && j < |w.a.net| && w.a.net[j] == g && Kept(g, w.a.k.cfg.conv)
    ensures IsFirst(z) && WorldStep(w, AtB(Arrive(j))) == Haunt(Cleansed(w, j), z)
    ensures Caught(Cleansed(w, j)) && Cleansed(w, j).a.sent == w.a.sent && LateWorld(Cleansed(w, j))
    ensures Cleansed(w, j).a.k.cfg == w.a.k.cfg && Cleansed(w, j).b.k.cfg == w.b.k.cfg
  {
    hide Flow, EndpointOk, Input, Decode, Wrap, Dist, Stream;
    WindowOf(w);
    BrinkRange(w);
    BrinkWord(w.b.k.cfg.rcvWnd);
    CaughtUp(w);
    var nxt := Wrap(|w.a.sent|);
    InputBuffered(w.b.k, g, nxt);
    z := Input(w.b.k, g.d).k.rcv.buf[0];
    InputNumbers(w.b.k, g.d);
    CleansedOk(w, g, j);
  }

  lemma CleansedOk(w: World, g: Datagram, j: nat)
    requires WorldOk(w) && Configured(w) && w.b.sent == [] && j < |w.a.net| && w.a.net[j] == g && g.first == 0
             && g.una == 0
    requires 0 < InOrder(w.b, w.a.k.cfg.mss)
    requires forall a <- Input(w.b.k, g.d).k.acks :: a in w.b.k.acks || a.sn == 0
    ensures WorldOk(Cleansed(w, j))
  {
    hide Flow, EndpointOk, Input, Stream, Wrap;
    var v := Cleansed(w, j);
    var y := PeerStep(w.b, w.a, Arrive(j));
    InputKeeps(w.b.k, g.d);
    CleansedEndpoint(w.b.k, Input(w.b.k, g.d).k);
    SilentAcks(w, g);
    ArriveFlowSender(w.b, w.a, j);
    FlowSenderSame(y, v.b, w.a);
    CleansedFlow(w, g, v.b);
  }

  lemma CleansedEndpoint(k: Kcb, k': Kcb)
    requires EndpointOk(k) && EndpointOk(k') && k'.cfg == k.cfg
    ensures EndpointOk(k'.(rcv := k.rcv))
  {
    hide SenderOk, ReceiverOk, CargoOk;
  }

  lemma SilentAcks(w: World, g: Datagram)
    requires WorldOk(w) && Configured(w) && w.b.sent == [] && g in w.a.net
    ensures TimelyAcks(w.b, g)
  {
    hide SendHalf, RecvHalf, Covered, AckList, NetData, Decode, EndpointOk, TrueAck;
    SilentStream(w.b, w.a);
    assert AcksTrue(g, w.a.k.cfg.conv, w.a.k.rcv.buf, InOrder(w.a, w.b.k.cfg.mss));
  }

  /** The old acknowledgement is true: fragment 0 arrived long ago. */
  lemma CleansedFlow(w: World, g: Datagram, y: Peer)
    requires WorldOk(w) && Configured(w) && g.first == 0 && 0 < InOrder(w.b, w.a.k.cfg.mss)
    requires forall a <- Input(w.b.k, g.d).k.acks :: a in w.b.k.acks || a.sn == 0
    requires y == w.b.(k := Input(w.b.k, g.d).k.(rcv := w.b.k.rcv), low := 0) && y.k.cfg == w.b.k.cfg
    ensures Flow(w.a, y)
  {
    hide Stream, SendHalf, RecvHalf, Covered, NetAcks, NetData, EndpointOk, Admissible, Input, Ahead;
    var buf, m := w.b.k.rcv.buf, InOrder(w.b, w.a.k.cfg.mss);
    GrownHere(buf, m);
    GrownList(buf, m, buf, m, w.b.low, 0, w.b.k.acks);
    WrapSmall(0);
    assert Accepted(buf, m, 0);
    forall a | a in y.k.acks ensures Acked(buf, m, 0, a.sn) {
      if a in w.b.k.acks {}
    }
    FlowReceiverMoves(w.a, w.b, y);
  }

  // ----- and comes out where it does not belong

  /** Every position of the first circle but the last has been read, and the last one is on its
      way in the datagram `g`. */
  predicate AtLast(w: World, g: Datagram)
    requires Configured(w)
  {
    && w.b.k.rcv == Receiver(Wrap(TWO32 - 1), [], []) && |w.b.got| == TWO32 - 1 && |w.a.sent| == TWO32
    && g in w.a.net && LateWorld(w) && Numbered(w.a) == TWO32 && g.first == TWO32 - 1 && LastOnly(g, w.a.k.cfg.conv)
  }

  predicate IsLast(s: Seg) {
    s.sn == Wrap(TWO32 - 1) && s.frg == 0 && s.data == [0]
  }

  predicate LastOnly(g: Datagram, conv: u32) {
    && |g.d| >= OVERHEAD
    && (exists s <- Decode(g.d, conv).segs :: s.cmd == CMD_PUSH)
    && (forall s <- Decode(g.d, conv).segs :: s.cmd == CMD_PUSH ==> IsLast(s))
  }

  /** A sender with nothing outstanding numbers one more message. */
  lemma OneMore(w: World) returns (w': World)
    requires Caught(w) && w.a.k.snd.buf == [] && w.a.k.rmtWnd > 0 && |w.a.sent| == TWO32 - 1
    ensures Line(w, w') && WorldOk(w') && Configured(w') && w'.b == w.b && w'.a.sent == w.a.sent + [[0]]
    ensures Numbered(w'.a) == TWO32 && LeftEdge(w'.a) == TWO32 - 1 && w'.a.k.snd.queue == [] && w'.a.k.cfg == w.a.k.cfg
  {
    hide WorldOk, Path, Line, Stream, Wrap, Back;
    CaughtUp(w);
    SayOne(w, [0]);
    var w1 := WorldStep(w, AtA(Say([0])));
    LineEnds(w, w1);
    w' := Open(w1);
    LinePath(w, w1, w');
    LineEnds(w, w');
    SentKept(w1, w');
    OneByteStream(w'.a.sent, w.a.k.cfg.mss);
    StaleAck.EdgeStays(w, w');
  }

  /** It goes out when it is due. */
  lemma SendLast(w: World) returns (w': World, g: Datagram)
    requires WorldOk(w) && Configured(w) && Numbered(w.a) == TWO32 && LeftEdge(w.a) == TWO32 - 1
             && w.a.k.snd.queue == []
    requires OneByte(w.a.sent) && |w.a.sent| == TWO32 && w.a.sent[TWO32 - 1] == [0]
    requires w.b.k.rcv == Receiver(Wrap(TWO32 - 1), [], []) && |w.b.got| == TWO32 - 1
    requires InOrder(w.b, w.a.k.cfg.mss) == TWO32 - 1
    ensures Path(w, w') && Configured(w') && w'.b == w.b && AtLast(w', g)
  {
    hide Flow, EndpointOk, Path, Stream, Wrap, Back, Flush, FlushSegs, Decode, TimeDiff, Dist, AfterFlush, LastOnly;
    BrinkRange(w);
    var f := NextInFlight(w.a, w.b);
    var t := DueTime(w.a.k.current, f.resendts);
    w' := FlushAt(w, t);
    var x := Ticked(w.a, t);
    var s := DueSegment(x.k, f);
    var d := Emitted(x.k, s);
    RecordedHas(x, w.b, d);
    SentKept(w, w');
    LastEdge(w, w', t);
    g := Datagram(d, LeftEdge(w'.a), Numbered(w'.a), x.low, InOrder(x, w.b.k.cfg.mss));
    LastData(w', g, s);
  }

  lemma LastEdge(w: World, w': World, t: u32)
    requires Configured(w) && Configured(w') && w'.a == AfterFlush(Ticked(w.a, t), w.b) && w.a.k.snd.queue == []
    requires w'.a.k.cfg == w.a.k.cfg
    ensures Numbered(w'.a) == Numbered(w.a) && LeftEdge(w'.a) == LeftEdge(w.a)
  {
    hide Flush, Stream, Back;
    FlushQueue(Ticked(w.a, t).k);
  }

  lemma LastData(w: World, g: Datagram, s: Seg)
    requires WorldOk(w) && Configured(w) && g in w.a.net && g.next == TWO32 && g.first == TWO32 - 1 && |g.d| >= OVERHEAD
    requires OneByte(w.a.sent) && |w.a.sent| == TWO32 && w.a.sent[TWO32 - 1] == [0]
    requires s in Decode(g.d, w.a.k.cfg.conv).segs && s.cmd == CMD_PUSH
    ensures LastOnly(g, w.a.k.cfg.conv)
  {
    hide Decode, Back, Wrap, RecvHalf, SendHalf, Covered, AckList, NetAcks, EndpointOk, Admissible, Stream;
    var st := Stream(w.a.sent, w.a.k.cfg.mss);
    OneByteStream(w.a.sent, w.a.k.cfg.mss);
    assert DataTrue(g, w.a.k.cfg.conv, st, Numbered(w.a));
    forall x | x in Decode(g.d, w.a.k.cfg.conv).segs && x.cmd == CMD_PUSH ensures IsLast(x) {
      assert TrueData(x, st, g);
      BackWord(g.next, x.sn);
    }
  }

  /** From the world without the old segment to the brink of its position. */
  lemma Approach(w: World) returns (w': World, g: Datagram)
    requires Caught(w) && |w.a.sent| <= TWO32 - 1
    ensures Line(w, w') && Configured(w') && AtLast(w', g)
  {
    hide WorldOk, Path, Line, Stream, Wrap, Back, LastOnly;
    var w1 := Fill(w, TWO32 - 1);
    var w2 := Clear(w1);
    LineTrans(w, w1, w2);
    CaughtUp(w2);
    var w3 := OneMore(w2);
    LineTrans(w, w2, w3);
    w', g := SendLast(w3);
    LinePath(w, w3, w');
  }

  /** The receiver before and after the last position arrives, with the old segment held. */
  predicate Waiting(r: Receiver) {
    r.nxt == Wrap(TWO32 - 1) && r.queue == [] && |r.buf| == 1 && IsFirst(r.buf[0])
  }

  predicate Fooled(r: Receiver) {
    r.nxt == 1 && r.buf == [] && |r.queue| == 2 && IsLast(r.queue[0]) && IsFirst(r.queue[1])
  }

  lemma InsertBefore(s: Seg, z: Seg)
    requires IsLast(s) && IsFirst(z)
    ensures Insert([z], s) == [s, z]
  {
    assert [z][..0] == [] && Insert([], s) == [s];
    assert [s] + [z] == [s, z] && TimeDiff(s.sn, z.sn) < 0 && s.sn != z.sn;
  }

  lemma DeliverBoth(s: Seg, z: Seg, wnd: u32)
    requires IsLast(s) && IsFirst(z) && wnd >= 2
    ensures Deliver(Receiver(Wrap(TWO32 - 1), [s, z], []), wnd) == Receiver(1, [], [s, z])
  {
    hide Wrap;
    LastWord();
    assert [s, z][1..] == [z] && [] + [s] == [s];
    assert Deliver(Receiver(Wrap(TWO32 - 1), [s, z], []), wnd) == Deliver(Receiver(0, [z], [s]), wnd);
    assert [z][1..] == [] && [s] + [z] == [s, z];
    assert Deliver(Receiver(0, [z], [s]), wnd) == Deliver(Receiver(1, [], [s, z]), wnd);
  }

  lemma LastWord()
    ensures Wrap(Wrap(TWO32 - 1) + 1) == 0 && Wrap(0 + 1) == 1
  {
  }

  lemma LastInWindow(wnd: u32)
    requires 2 <= wnd <= WINDOW_MAX
    ensures TimeDiff(Wrap(TWO32 - 1), Wrap(Wrap(TWO32 - 1) + wnd)) < 0
    ensures TimeDiff(Wrap(TWO32 - 1), Wrap(TWO32 - 1)) >= 0
  {
  }

  lemma FooledBy(s: Seg, z: Seg, wnd: u32)
    requires IsLast(s) && IsFirst(z) && 2 <= wnd <= WINDOW_MAX
    ensures ParseData(Receiver(Wrap(TWO32 - 1), [z], []), wnd, s) == Receiver(1, [], [s, z])
  {
    hide Wrap, TimeDiff, Insert, Deliver;
    LastInWindow(wnd);
    InsertBefore(s, z);
    DeliverBoth(s, z, wnd);
  }

  lemma TakeLast(p: Progress, s: Seg)
    requires WND_RCV <= p.k.cfg.rcvWnd <= WINDOW_MAX && (Waiting(p.k.rcv) || Fooled(p.k.rcv))
    requires s.cmd == CMD_PUSH ==> IsLast(s)
    ensures var k := TakeSeg(p, s).k;
            && k.cfg == p.k.cfg && (k.rcv == p.k.rcv || Fooled(k.rcv)) && (s.cmd == CMD_PUSH ==> Fooled(k.rcv))
  {
    hide DropUna, ParseAck, Deliver, Insert, Waiting;
    if s.cmd == CMD_PUSH {
      PushRcv(p, s);
      if Waiting(p.k.rcv) { WaitingFooled(p.k.rcv, s, p.k.cfg.rcvWnd); }
    }
  }

  lemma WaitingFooled(r: Receiver, s: Seg, wnd: u32)
    requires Waiting(r) && IsLast(s) && 2 <= wnd <= WINDOW_MAX
    ensures Fooled(ParseData(r, wnd, s))
  {
    hide ParseData;
    assert r == Receiver(Wrap(TWO32 - 1), [r.buf[0]], []);
    FooledBy(s, r.buf[0], wnd);
  }

  lemma {:induction false} TakeAllLast(p: Progress, ss: seq<Seg>)
    requires WND_RCV <= p.k.cfg.rcvWnd <= WINDOW_MAX && (Waiting(p.k.rcv) || Fooled(p.k.rcv))
    requires forall s <- ss :: s.cmd == CMD_PUSH ==> IsLast(s)
    ensures Fooled(p.k.rcv) || (exists s <- ss :: s.cmd == CMD_PUSH) ==> Fooled(TakeAll(p, ss).k.rcv)
    decreases |ss|
  {
    hide TakeSeg, Waiting, Fooled, IsLast;
    if ss != [] {
      TakeLast(p, ss[0]);
      TakeAllLast(TakeSeg(p, ss[0]), ss[1..]);
    }
  }

  lemma InputLast(k: Kcb, g: Datagram)
    requires k.cfg.mss > 0 && WND_RCV <= k.cfg.rcvWnd <= WINDOW_MAX && Waiting(k.rcv) && LastOnly(g, k.cfg.conv)
    ensures Fooled(Input(k, g.d).k.rcv)
  {
    hide TakeAll, Decode, Waiting, Fooled;
    var p, segs := Progress(k, NoMark), Decode(g.d, k.cfg.conv).segs;
    TakeAllLast(p, segs);
    TakeAllKeepsConfig(p, segs);
    SettleRest(TakeAll(p, segs), k.snd.una);
  }

  /** Two messages are there to be read. */
  lemma ReadTwo(k: Kcb)
    requires Fooled(k.rcv)
    ensures var r := Recv(k, 1);
            && r.code >= 0 && Recv(r.k, 1).code >= 0
  {
    var r := k.rcv;
    PeekIsMessageLength(r.queue);
    assert r.queue[..1] == [r.queue[0]];
    assert Payload([r.queue[0]]) == r.queue[0].data + Payload([]);
    var r1 := Recv(k, 1).k.rcv;
    assert r1.queue == [r.queue[1]] && r1.queue[..1] == r1.queue;
    assert Payload(r1.queue) == r1.queue[0].data + Payload([]);
  }

  /** The last three steps, in the world with the old segment. */
  lemma ReadsStale(w: World, g: Datagram, z: Seg, data: int) returns (es: seq<Event>)
    requires WorldOk(w) && Configured(w) && AtLast(w, g) && IsFirst(z) && w.b.sent == [] && 1 <= data
    ensures Configured(Haunt(w, z)) && LagRun(Haunt(w, z), es, data, TWO31 + 1)
    ensures var w' := Run(Haunt(w, z), es);
            |w'.a.sent| < |w'.b.got|
  {
    hide WorldOk, Input, Recv, LastOnly, Stream, Fooled, LagEvent, LagRun, Run;
    var v := Haunt(w, z);
    var j :| 0 <= j < |w.a.net| && w.a.net[j] == g;
    WindowOf(w);
    BrinkRange(w);
    InputLast(v.b.k, g);
    var e1, e2 := AtB(Arrive(j)), AtB(Hear(1));
    LastTimely(w, g, j, z, data);
    LagOne(v, e1, data, TWO31 + 1);
    var v1 := WorldStep(v, e1);
    StepKeepsConfigured(v, e1);
    ReadTwo(v1.b.k);
    HearLag(v1, data);
    LagOne(v1, e2, data, TWO31 + 1);
    var v2 := WorldStep(v1, e2);
    StepKeepsConfigured(v1, e2);
    HearLag(v2, data);
    LagOne(v2, e2, data, TWO31 + 1);
    LagConcat(v, [e1], [e2], data, TWO31 + 1);
    RunConcat(v, [e1], [e2]);
    LagConcat(v, [e1] + [e2], [e2], data, TWO31 + 1);
    RunConcat(v, [e1] + [e2], [e2]);
    es := [e1] + [e2] + [e2];
  }

  lemma HearLag(w: World, data: int)
    requires Configured(w)
    ensures LagEvent(w, AtB(Hear(1)), data, TWO31 + 1)
  {
  }

  lemma LastTimely(w: World, g: Datagram, j: nat, z: Seg, data: int)
    requires WorldOk(w) && Configured(w) && w.b.sent == [] && j < |w.a.net| && w.a.net[j] == g && 1 <= data
    requires Numbered(w.a) == TWO32 && g.first == TWO32 - 1
    ensures Configured(Haunt(w, z)) && LagEvent(Haunt(w, z), AtB(Arrive(j)), data, TWO31 + 1)
  {
    hide WorldOk, Stream;
    SilentAcks(w, g);
    HauntLag(w, AtB(Arrive(j)), data, TWO31 + 1, z);
  }

  /** To the brink, with the first datagram kept. */
  lemma ToBrink(ca: Config, cb: Config) returns (w: World, g: Datagram, j: nat, es: seq<Event>)
    requires Paired(ca, cb)
    ensures LagRun(Start(ca, cb), es, Brink(cb), TWO31 + 1) && w == Run(Start(ca, cb), es)
    ensures Caught(w) && |w.a.sent| == Brink(cb) && w.a.k.cfg == ca && w.b.k.cfg == cb
    ensures j < |w.a.net| && w.a.net[j] == g && Kept(g, ca.conv)
  {
    hide WorldOk, Line, LagRun, Run, TimelyRun, Kept, Stream;
    var w0 := Start(ca, cb);
    StaleAck.WindowLimits(ca, cb);
    var w1, h;
    w1, g, h := FirstCaught(ca, cb);
    w := Fill(w1, Brink(cb));
    LineTrans(w0, w1, w);
    LineEnds(w1, w);
    es := LineEvents(w0, w, Brink(cb), TWO31 + 1);
    j :| 0 <= j < |w.a.net| && w.a.net[j] == g;
  }

  /** From the brink: the old datagram, on to its position, and the reading of it. */
  lemma FromBrink(w: World, g: Datagram, j: nat) returns (es: seq<Event>)
    requires Caught(w) && |w.a.sent| == Brink(w.b.k.cfg) && j < |w.a.net| && w.a.net[j] == g && Kept(g, w.a.k.cfg.conv)
    ensures LagRun(w, es, Brink(w.b.k.cfg), TWO31 + 1) && |Run(w, es).a.sent| < |Run(w, es).b.got|
  {
    hide WorldOk, Line, LagRun, Run, TimelyRun, AtLast, LagEvent, Stream, WorldStep, Haunt, Decode;
    var data, una := Brink(w.b.k.cfg), TWO31 + 1;
    BrinkRange(w);
    var e := AtB(Arrive(j));
    BrinkLag(w, g, j, data);
    LagOne(w, e, data, una);
    var z := StaleArrives(w, g, j);
    var v := Cleansed(w, j);
    var v', g' := Approach(v);
    var hs := LineEvents(v, v', data, una);
    LastIsLate(v', g');
    HauntRun(v, hs, z, data, una);
    LineEnds(v, v');
    var ls := ReadsStale(v', g', z, data);
    LagConcat(w, [e], hs, data, una);
    RunConcat(w, [e], hs);
    LagConcat(w, [e] + hs, ls, data, una);
    RunConcat(w, [e] + hs, ls);
    es := [e] + hs + ls;
  }

  /** The whole run: no arrival lags more than one fragment past the limit, and a message is
      read that was not sent at that place. */
  lemma StaleIsRead(ca: Config, cb: Config) returns (es: seq<Event>)
    requires Paired(ca, cb)
    ensures LagRun(Start(ca, cb), es, Brink(cb), TWO31 + 1)
    ensures var w := Run(Start(ca, cb), es);
            !(w.b.got <= w.a.sent)
  {
    hide Caught, LagRun, Run, Kept;
    var w, g, j, fs := ToBrink(ca, cb);
    var gs := FromBrink(w, g, j);
    es := fs + gs;
    LagConcat(Start(ca, cb), fs, gs, Brink(cb), TWO31 + 1);
    RunConcat(Start(ca, cb), fs, gs);
  }

  lemma LastIsLate(w: World, g: Datagram)
    requires Configured(w) && AtLast(w, g)
    ensures LateWorld(w)
  {
  }

  lemma LineEvents(w: World, w': World, data: int, una: int) returns (es: seq<Event>)
    requires Line(w, w') && w.b.sent == [] && Configured(w)
    requires 0 <= data && TWO32 - w.b.k.cfg.rcvWnd <= data && TWO31 + 1 <= una
    ensures TimelyRun(w, es) && w' == Run(w, es) && LagRun(w, es, data, una)
  {
    hide WorldOk, TimelyRun, Run, LagRun;
    es :| Listens(es) && TimelyRun(w, es) && w' == Run(w, es);
    LineLag(w, es, data, una);
  }

  lemma BrinkLag(w: World, g: Datagram, j: nat, data: int)
    requires Caught(w) && |w.a.sent| == data && j < |w.a.net| && w.a.net[j] == g && g.first == 0
    ensures LagEvent(w, AtB(Arrive(j)), data, TWO31 + 1)
  {
    hide WorldOk, Stream;
    CaughtUp(w);
    SilentAcks(w, g);
  }

  // ----- the exact limit

  /** What either application reads is a prefix of what the other sent, on every run within the
      limits. */
  ghost predicate AlwaysPrefix(ca: Config, cb: Config, data: int)
    requires Paired(ca, cb)
  {
    forall es :: LagRun(Start(ca, cb), es, data, TWO31 + 1) ==>
      var w := Run(Start(ca, cb), es);
      w.b.got <= w.a.sent && w.a.got <= w.b.sent
  }

  lemma {:induction false} FlipLag(w: World, es: seq<Event>, data: int, una: int)
    requires Configured(w) && LagRun(w, es, data, una)
    ensures LagRun(Flip(w), FlipEvents(es), data, una) && Run(Flip(w), FlipEvents(es)) == Flip(Run(w, es))
  {
    hide LagMove, PeerStep;
    FlipRun(w, es);
    if es != [] {
      var front := es[..|es| - 1];
      FlipLag(w, front, data, una);
      assert FlipEvents(es)[..|FlipEvents(es)| - 1] == FlipEvents(front);
    }
  }

  lemma {:induction false} DataLagWidens(w: World, es: seq<Event>, data: int, data': int, una: int)
    requires Configured(w) && LagRun(w, es, data, una) && data <= data'
    ensures LagRun(w, es, data', una)
  {
    hide Run;
    if es != [] { DataLagWidens(w, es[..|es| - 1], data, data', una); }
  }

  /** The exact limit on data: safety holds of every run if and only if no arrival carries data
      further behind than one receive window short of the circle. */
  lemma DataLimitExactly(ca: Config, cb: Config, data: int)
    requires Paired(ca, cb)
    ensures AlwaysPrefix(ca, cb, data) <==> data + Max(ca.rcvWnd, cb.rcvWnd) <= TWO32
  {
    hide Run, LagRun, TimelyRun, FlipEvents;
    if data + Max(ca.rcvWnd, cb.rcvWnd) <= TWO32 {
      forall es | LagRun(Start(ca, cb), es, data, TWO31 + 1)
        ensures var w := Run(Start(ca, cb), es); w.b.got <= w.a.sent && w.a.got <= w.b.sent {
        LagIsTimely(Start(ca, cb), es, data, TWO31 + 1);
        InOrderDelivery(ca, cb, es);
      }
    } else if data + cb.rcvWnd > TWO32 {
      var es := StaleIsRead(ca, cb);
      DataLagWidens(Start(ca, cb), es, Brink(cb), data, TWO31 + 1);
    } else {
      var es := StaleIsRead(cb, ca);
      DataLagWidens(Start(cb, ca), es, Brink(ca), data, TWO31 + 1);
      FlipLag(Start(cb, ca), es, data, TWO31 + 1);
      assert Flip(Start(cb, ca)) == Start(ca, cb);
    }
  }
}
