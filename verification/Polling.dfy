/** Every polling schedule finishes.  The two ends take turns: an end reads what there is, lets
    its clock reach a time at which everything it waits for is due, and flushes; the network
    hands the datagrams of that flush to the other end, in order, unless they are too old.
    From any reachable state, whatever was lost before and whatever the clocks show, a bounded
    number of turns delivers everything. */
module Polling {
  import opened Words
  import opened Wire
  import opened Kcp
  import opened SenderInvariant
  import opened ReceiverInvariant
  import opened Endpoint
  import opened Connection
  import opened Recovery

  // ----- one turn

  /** Reading gives back what the queue and the buffer held. */
  lemma {:induction false} DeliverCount(r: Receiver, wnd: u32)
    ensures var r' := Deliver(r, wnd);
            |r'.queue| + |r'.buf| == |r.queue| + |r.buf|
    decreases |r.buf|
  {
    if r.buf != [] && r.buf[0].sn == r.nxt && |r.queue| < wnd {
      DeliverCount(Receiver(Wrap(r.nxt + 1), r.buf[1..], r.queue + [r.buf[0]]), wnd);
    }
  }

  lemma RecvShrinks(k: Kcb)
    requires PeekSize(k.rcv.queue) >= 0
    ensures var r := Recv(k, PeekSize(k.rcv.queue)).k.rcv;
            |r.queue| + |r.buf| < |k.rcv.queue| + |k.rcv.buf|
  {
    hide Deliver, NextMessage;
    var q := k.rcv.queue;
    SpanBound(q);
    DeliverCount(k.rcv.(queue := q[Span(q)..]), k.cfg.rcvWnd);
  }

  /** The first end reads until the next message is incomplete. */
  function ReadAll(w: World): (r: World)
    requires Configured(w)
    ensures r.b == w.b && Configured(r)
    decreases |w.a.k.rcv.queue| + |w.a.k.rcv.buf|
  {
    var len := PeekSize(w.a.k.rcv.queue);
    if len < 0 then w
    else
      RecvShrinks(w.a.k);
      StepKeepsConfigured(w, AtA(Hear(len)));
      ReadAll(WorldStep(w, AtA(Hear(len))))
  }

  function Flushed1(w: World, t: u32): World
    requires Configured(w)
  {
    w.(a := AfterFlush(Ticked(w.a, t), w.b))
  }

  /** The datagrams of the first end from number `lo` on arrive, the too old ones excepted. */
  function Deliveries(w: World, lo: nat): (r: World)
    requires Configured(w)
    ensures r.a == w.a && Configured(r)
    decreases |w.a.net| - lo
  {
    if lo >= |w.a.net| then w
    else
      StepKeepsConfigured(w, AtB(Arrive(lo)));
      var w1 := if Timely(w.b, w.a, w.a.net[lo]) then WorldStep(w, AtB(Arrive(lo))) else w;
      Deliveries(w1, lo + 1)
  }

  lemma Flushed1Configured(w: World, t: u32)
    requires Configured(w)
    ensures Configured(Flushed1(w, t))
  {
    FlushRest(Ticked(w.a, t).k);
  }

  /** One turn of the first end. */
  function Turn(w: World, t: u32): (r: World)
    requires Configured(w)
    ensures Configured(r)
  {
    var w1 := ReadAll(w);
    Flushed1Configured(w1, t);
    Deliveries(Flushed1(w1, t), |w1.a.net|)
  }

  /** Everything that the end waits for is due at `t`, and the clock is not set back. */
  predicate AllDue(x: Peer, t: u32) {
    && Dist(x.k.current, t) <= TWO31
    && (forall f <- x.k.snd.buf :: TimeDiff(t, f.resendts) >= 0)
    && (x.k.probe.wait > 0 ==> TimeDiff(t, x.k.probe.ts) >= 0)
  }

  function TurnOf(w: World, first: bool, t: u32): (r: World)
    requires Configured(w)
    ensures Configured(r)
  {
    if first then Turn(w, t) else Flip(Turn(Flip(w), t))
  }

  /** Turns by the two ends alternately. */
  function Poll(w: World, first: bool, ts: seq<u32>): (r: World)
    requires Configured(w)
    ensures Configured(r)
    decreases |ts|
  {
    if ts == [] then w else Poll(TurnOf(w, first, ts[0]), !first, ts[1..])
  }

  predicate Schedule(w: World, first: bool, ts: seq<u32>)
    requires Configured(w)
    decreases |ts|
  {
    ts == [] || (AllDue(if first then w.a else w.b, ts[0]) && Schedule(TurnOf(w, first, ts[0]), !first, ts[1..]))
  }

  // ----- a turn is a calm run

  lemma {:induction false} ReadAllPath(w: World)
    requires WorldOk(w) && Configured(w)
    ensures Path(w, ReadAll(w)) && PeekSize(ReadAll(w).a.k.rcv.queue) < 0
    ensures ReadAll(w).a.k.snd == w.a.k.snd && ReadAll(w).a.net == w.a.net && ReadAll(w).a.low == w.a.low
    ensures ReadAll(w).a.k.probe.wait == w.a.k.probe.wait && ReadAll(w).a.k.probe.ts == w.a.k.probe.ts
    ensures ReadAll(w).a.k.current == w.a.k.current && ReadAll(w).a.k.rmtWnd == w.a.k.rmtWnd
    ensures ReadAll(w).a.k.cc == w.a.k.cc && ReadAll(w).a.k.acks == w.a.k.acks
    ensures w.a.k.probe.tell ==> ReadAll(w).a.k.probe.tell
    ensures InOrder(w.a, w.b.k.cfg.mss) <= InOrder(ReadAll(w).a, w.b.k.cfg.mss)
    decreases |w.a.k.rcv.queue| + |w.a.k.rcv.buf|
  {
    hide Flow, EndpointOk, PeekSize, Path, Recv, Stream;
    PathHere(w);
    var len := PeekSize(w.a.k.rcv.queue);
    if len >= 0 {
      ReadsOne(w.b, w.a, len);
      RecvShrinks(w.a.k);
      PathStep1(w, AtA(Hear(len)));
      var w1 := WorldStep(w, AtA(Hear(len)));
      SentKept(w, w1);
      StepKeepsConfigured(w, AtA(Hear(len)));
      RecvLeaves(w.a.k, len);
      ReadAllPath(w1);
      PathTrans(w, w1, ReadAll(w));
    }
  }

  lemma PathStep1(w: World, e: Event)
    requires WorldOk(w) && Configured(w) && Calm(w, e)
    ensures Path(w, WorldStep(w, e))
  {
    hide WorldOk, Calm;
    PathHere(w);
    PathStep(w, w, e);
  }

  lemma RecvLeaves(k: Kcb, len: int)
    ensures var k' := Recv(k, len).k;
            && k'.snd == k.snd && k'.current == k.current && k'.rmtWnd == k.rmtWnd && k'.cc == k.cc && k'.acks == k.acks
            && k'.probe.wait == k.probe.wait && k'.probe.ts == k.probe.ts && (k.probe.tell ==> k'.probe.tell)
  {
    hide Deliver, PeekSize, NextMessage;
  }

  lemma {:induction false} DeliveriesPath(w: World, lo: nat)
    requires WorldOk(w) && Configured(w)
    ensures Path(w, Deliveries(w, lo))
    decreases |w.a.net| - lo
  {
    hide WorldOk, Path, Timely;
    PathHere(w);
    if lo < |w.a.net| {
      var e := AtB(Arrive(lo));
      StepKeepsConfigured(w, e);
      var w1 := if Timely(w.b, w.a, w.a.net[lo]) then WorldStep(w, e) else w;
      if Timely(w.b, w.a, w.a.net[lo]) { PathStep1(w, e); }
      SentKept(w, w1);
      DeliveriesPath(w1, lo + 1);
      PathTrans(w, w1, Deliveries(w, lo));
    }
  }

  lemma TurnPath(w: World, t: u32)
    requires WorldOk(w) && Configured(w) && Dist(w.a.k.current, t) <= TWO31
    ensures Path(w, ReadAll(w)) && Path(ReadAll(w), Flushed1(ReadAll(w), t)) && Configured(Flushed1(ReadAll(w), t))
    ensures Path(Flushed1(ReadAll(w), t), Turn(w, t)) && Path(w, Turn(w, t))
  {
    hide WorldOk, Path, PeekSize, Dist;
    var w1 := ReadAll(w);
    ReadAllPath(w);
    SentKept(w, w1);
    var w2 := FlushAt(w1, t);
    SentKept(w1, w2);
    PathTrans(w, w1, w2);
    DeliveriesPath(w2, |w1.a.net|);
    PathTrans(w, w2, Turn(w, t));
  }

  // ----- what the deliveries of a turn do

  /** Nothing is taken back while datagrams arrive. */
  lemma {:induction false} DeliveriesGrow(w: World, lo: nat)
    requires WorldOk(w) && Configured(w)
    ensures var v := Deliveries(w, lo);
            && InOrder(w.b, w.a.k.cfg.mss) <= InOrder(v.b, w.a.k.cfg.mss) && v.b.got == w.b.got
            && |w.b.k.acks| <= |v.b.k.acks| && (w.b.k.probe.tell ==> v.b.k.probe.tell)
            && Numbered(v.b) == Numbered(w.b) && v.b.k.snd.queue == w.b.k.snd.queue
    decreases |w.a.net| - lo
  {
    hide WorldOk, Timely, Stream, Input;
    if lo < |w.a.net| {
      var e, g := AtB(Arrive(lo)), w.a.net[lo];
      StepKeepsConfigured(w, e);
      var w1 := if Timely(w.b, w.a, g) then WorldStep(w, e) else w;
      if Timely(w.b, w.a, g) { ArriveGrows(w, lo); }
      DeliveriesGrow(w1, lo + 1);
    }
  }

  lemma ArriveGrows(w: World, j: nat)
    requires WorldOk(w) && Configured(w) && j < |w.a.net| && Timely(w.b, w.a, w.a.net[j])
    ensures var v := WorldStep(w, AtB(Arrive(j)));
            && Configured(v) && WorldOk(v) && v.a == w.a && v.b.got == w.b.got && v.b.k.cfg == w.b.k.cfg
            && v.b.k == Input(w.b.k, w.a.net[j].d).k && v.b.sent == w.b.sent
            && InOrder(w.b, w.a.k.cfg.mss) <= InOrder(v.b, w.a.k.cfg.mss)
            && |w.b.k.acks| <= |v.b.k.acks| && (w.b.k.probe.tell ==> v.b.k.probe.tell)
            && Numbered(v.b) == Numbered(w.b) && v.b.k.snd.queue == w.b.k.snd.queue
  {
    hide Flow, EndpointOk, Timely, Stream, Input;
    StepKeepsConfigured(w, AtB(Arrive(j)));
    StepKeepsWorld(w, AtB(Arrive(j)));
    InputGrows(w.a, w.b, w.a.net[j]);
    InputNumbers(w.b.k, w.a.net[j].d);
    InputAcks(w.b.k, w.a.net[j].d);
  }

  lemma InputAcks(k: Kcb, d: bytes)
    requires k.cfg.mss > 0
    ensures |k.acks| <= |Input(k, d).k.acks| && (k.probe.tell ==> Input(k, d).k.probe.tell)
    ensures Input(k, d).k.probe.wait == k.probe.wait && Input(k, d).k.probe.ts == k.probe.ts
  {
    hide TakeAll, Decode, Settle;
    if |d| >= OVERHEAD {
      var p, segs := Progress(k, NoMark), Decode(d, k.cfg.conv).segs;
      TakeAllAcks(p, segs);
      TakeAllWait(p, segs);
      TakeAllKeepsConfig(p, segs);
      SettleRest(TakeAll(p, segs), k.snd.una);
    }
  }

  lemma {:induction false} TakeAllWait(p: Progress, ss: seq<Seg>)
    ensures TakeAll(p, ss).k.probe.wait == p.k.probe.wait && TakeAll(p, ss).k.probe.ts == p.k.probe.ts
    decreases |ss|
  {
    hide ParseData, ParseAck, DropUna, BelowWindowEnd, TimeDiff;
    if ss != [] { TakeAllWait(TakeSeg(p, ss[0]), ss[1..]); }
  }

  /** The fragment wanted next, among the deliveries, is taken; any older one is answered. */
  lemma {:induction false} DeliveriesPush(w: World, lo: nat, j: nat, s: Seg)
    requires WorldOk(w) && Configured(w) && lo <= j < |w.a.net| && Timely(w.b, w.a, w.a.net[j])
    requires var g := w.a.net[j];
             && s in Decode(g.d, w.a.k.cfg.conv).segs && |g.d| >= OVERHEAD && s.cmd == CMD_PUSH
             && Numbered(w.a) - WINDOW_MAX <= g.first && Back(g.next, s.sn) <= InOrder(w.b, w.a.k.cfg.mss)
    ensures var v := Deliveries(w, lo);
            && v.b.k.acks != []
            && (Back(w.a.net[j].next, s.sn) == InOrder(w.b, w.a.k.cfg.mss) && |w.b.k.rcv.queue| < w.b.k.cfg.rcvWnd ==>
                  InOrder(w.b, w.a.k.cfg.mss) < InOrder(v.b, w.a.k.cfg.mss))
    decreases |w.a.net| - lo
  {
    hide WorldOk, Timely, Stream, Input, Decode, Back;
    var e, g := AtB(Arrive(lo)), w.a.net[lo];
    StepKeepsConfigured(w, e);
    var w1 := if Timely(w.b, w.a, g) then WorldStep(w, e) else w;
    if Timely(w.b, w.a, g) { ArriveGrows(w, lo); }
    if lo == j {
      PushArrives(w, j, s);
      DeliveriesGrow(w1, lo + 1);
    } else {
      TimelyStays(w, w1, w.a.net[j]);
      DeliveriesPush(w1, lo + 1, j, s);
      DeliveriesGrow(w1, lo + 1);
    }
  }

  lemma TimelyStays(w: World, w1: World, g: Datagram)
    requires Configured(w) && Configured(w1) && w1.a == w.a && Numbered(w1.b) == Numbered(w.b)
             && w1.b.k.cfg == w.b.k.cfg
    requires Timely(w.b, w.a, g)
    ensures Timely(w1.b, w1.a, g)
  {
    hide Stream;
  }

  lemma PushArrives(w: World, j: nat, s: Seg)
    requires WorldOk(w) && Configured(w) && j < |w.a.net| && Timely(w.b, w.a, w.a.net[j])
    requires var g := w.a.net[j];
             && s in Decode(g.d, w.a.k.cfg.conv).segs && |g.d| >= OVERHEAD && s.cmd == CMD_PUSH
             && Numbered(w.a) - WINDOW_MAX <= g.first && Back(g.next, s.sn) <= InOrder(w.b, w.a.k.cfg.mss)
    ensures var v := WorldStep(w, AtB(Arrive(j)));
            && v.b.k.acks != []
            && (Back(w.a.net[j].next, s.sn) == InOrder(w.b, w.a.k.cfg.mss) && |w.b.k.rcv.queue| < w.b.k.cfg.rcvWnd ==>
                  InOrder(w.b, w.a.k.cfg.mss) < InOrder(v.b, w.a.k.cfg.mss))
  {
    hide Flow, EndpointOk, Timely, Stream, Input, Decode, Back, Accepted, RecvHalf, Wrap;
    var g, mss := w.a.net[j], w.a.k.cfg.mss;
    ArriveGrows(w, j);
    var v := WorldStep(w, AtB(Arrive(j)));
    var m' := InputNext(w.a, w.b, g, s);
    RecvNumber(v.b.k.rcv, Stream(w.a.sent, mss), Numbered(w.a), m');
    ReceiverOf(v.b.k);
    if Back(g.next, s.sn) == InOrder(w.b, mss) && |w.b.k.rcv.queue| < w.b.k.cfg.rcvWnd {
      NextTaken(w.b.k.rcv, v.b.k.rcv, w.b.k.cfg.rcvWnd, InOrder(w.b, mss), m');
    }
  }

  /** A probe among the deliveries is to be answered. */
  lemma {:induction false} DeliveriesAsk(w: World, lo: nat, j: nat, s: Seg)
    requires WorldOk(w) && Configured(w) && lo <= j < |w.a.net| && Timely(w.b, w.a, w.a.net[j])
    requires s in Decode(w.a.net[j].d, w.a.k.cfg.conv).segs && |w.a.net[j].d| >= OVERHEAD && s.cmd == CMD_WASK
    ensures Deliveries(w, lo).b.k.probe.tell
    decreases |w.a.net| - lo
  {
    hide WorldOk, Timely, Stream, Input, Decode;
    var e, g := AtB(Arrive(lo)), w.a.net[lo];
    StepKeepsConfigured(w, e);
    var w1 := if Timely(w.b, w.a, g) then WorldStep(w, e) else w;
    if Timely(w.b, w.a, g) { ArriveGrows(w, lo); }
    if lo == j {
      SameConv(w);
      InputAsk(w.b.k, g.d, s);
      DeliveriesGrow(w1, lo + 1);
    } else {
      TimelyStays(w, w1, w.a.net[j]);
      DeliveriesAsk(w1, lo + 1, j, s);
    }
  }

  lemma SameConv(w: World)
    requires WorldOk(w)
    ensures w.a.k.cfg.conv == w.b.k.cfg.conv
  {
  }

  /** A datagram that says everything has arrived and there is room. */
  predicate Clears(g: Datagram, conv: u32, una: u32) {
    && |g.d| >= OVERHEAD && Decode(g.d, conv).segs != []
    && forall s <- Decode(g.d, conv).segs :: s.una == una && s.wnd > 0
  }

  /** After such deliveries nothing is in flight and the window is open; a sender with nothing in
      flight keeps its congestion window, and no delivery touches the probe timer. */
  lemma {:induction false} DeliveriesClear(w: World, lo: nat, una: u32)
    requires WorldOk(w) && Configured(w) && forall f <- w.b.k.snd.buf :: TimeDiff(una, f.seg.sn) > 0
    requires forall j :: lo <= j < |w.a.net| ==> Timely(w.b, w.a, w.a.net[j]) && Clears(w.a.net[j], w.a.k.cfg.conv, una)
    ensures var v := Deliveries(w, lo);
            && (lo < |w.a.net| ==> v.b.k.snd.buf == [] && v.b.k.rmtWnd > 0)
            && (lo >= |w.a.net| ==> v == w)
            && (w.b.k.snd.buf == [] ==> v.b.k.cc == w.b.k.cc && v.b.k.snd.buf == [])
            && v.b.k.probe.wait == w.b.k.probe.wait
    decreases |w.a.net| - lo
  {
    hide WorldOk, Timely, Stream, Input, Decode, TimeDiff;
    if lo < |w.a.net| {
      var e, g := AtB(Arrive(lo)), w.a.net[lo];
      ArriveGrows(w, lo);
      var w1 := WorldStep(w, e);
      SameConv(w);
      InputClears(w.b.k, g.d, una);
      InputAcks(w.b.k, g.d);
      if w.b.k.snd.buf == [] { InputQuiet(w, g.d); }
      forall j | lo + 1 <= j < |w1.a.net|
        ensures Timely(w1.b, w1.a, w1.a.net[j]) && Clears(w1.a.net[j], w1.a.k.cfg.conv, una) {
        TimelyStays(w, w1, w.a.net[j]);
      }
      DeliveriesClear(w1, lo + 1, una);
    }
  }

  lemma InputQuiet(w: World, d: bytes)
    requires WorldOk(w) && Configured(w) && w.b.k.snd.buf == []
    ensures Input(w.b.k, d).k.cc == w.b.k.cc
  {
    hide Flow, TakeAll, Decode, ReceiverOk, CargoOk, TimersOk;
    if |d| >= OVERHEAD {
      var k := w.b.k;
      var p, segs := Progress(k, NoMark), Decode(d, k.cfg.conv).segs;
      TakeAllQuiet(p, segs);
      TakeAllKeepsConfig(p, segs);
      SettleQuiet(TakeAll(p, segs), k.snd.una);
    }
  }

  lemma {:induction false} TakeAllQuiet(p: Progress, ss: seq<Seg>)
    requires p.k.snd.buf == [] && p.k.snd.una == p.k.snd.nxt
    ensures TakeAll(p, ss).k.snd == p.k.snd && TakeAll(p, ss).k.cc == p.k.cc
    decreases |ss|
  {
    hide ParseData, BelowWindowEnd, TimeDiff;
    if ss != [] { TakeAllQuiet(TakeSeg(p, ss[0]), ss[1..]); }
  }

  lemma SettleQuiet(p: Progress, prevUna: u32)
    requires p.k.cfg.mss > 0 && p.k.snd.buf == [] && p.k.snd.una == prevUna
    ensures Settle(p, prevUna).cc == p.k.cc
  {
  }

  // ----- what a turn does to the stream of the mover

  /** The other end has read everything there is and owes only recent acknowledgements. */
  predicate Drained(w: World)
    requires Configured(w)
  {
    PeekSize(w.b.k.rcv.queue) < 0 && w.b.low == InOrder(w.b, w.a.k.cfg.mss)
  }

  /** And so does the end whose turn it is. */
  predicate Ready(w: World)
    requires Configured(w)
  {
    Drained(w) && Numbered(w.b) <= w.a.low + ROUND
  }

  /** The state in which the datagrams of a turn arrive. */
  lemma Sent(w: World, t: u32) returns (x: Peer, v: World)
    requires WorldOk(w) && Configured(w) && AllDue(w.a, t)
    ensures x == Ticked(ReadAll(w).a, t) && v == Flushed1(ReadAll(w), t) && v.b == w.b && v.a == AfterFlush(x, w.b)
    ensures WorldOk(v) && Configured(v) && EndpointOk(x.k) && x.k.updated && x.k.current == t && x.low == w.a.low
    ensures x.k.snd == w.a.k.snd && x.k.rmtWnd == w.a.k.rmtWnd && x.k.cc == w.a.k.cc && x.k.acks == w.a.k.acks
    ensures x.k.probe.wait == w.a.k.probe.wait && x.k.probe.ts == w.a.k.probe.ts && x.net == w.a.net
    ensures w.a.k.probe.tell ==> x.k.probe.tell
    ensures Turn(w, t) == Deliveries(v, |w.a.net|) && Path(w, Turn(w, t)) && Path(w, v)
    ensures Numbered(w.a) <= Numbered(v.a) <= Numbered(w.a) + WINDOW_MAX && PeekSize(x.k.rcv.queue) < 0
    ensures v.a.low == InOrder(v.a, w.b.k.cfg.mss) == InOrder(x, w.b.k.cfg.mss) && v.a.k.cfg == w.a.k.cfg == x.k.cfg
    ensures v.a.k.rcv == x.k.rcv && v.a.sent == w.a.sent && x.sent == w.a.sent && v.a.k == Flush(x.k).k
    ensures InOrder(w.a, w.b.k.cfg.mss) <= InOrder(v.a, w.b.k.cfg.mss)
  {
    hide WorldOk, Path, PeekSize, Dist, TimeDiff, Flush, Stream;
    var w1 := ReadAll(w);
    ReadAllPath(w);
    SentKept(w, w1);
    TurnPath(w, t);
    x := Ticked(w1.a, t);
    v := FlushAt(w1, t);
    SentKept(w1, v);
    SameNumbered(w.a, w1.a);
    PathTrans(w, w1, v);
    FlushRest(x.k);
  }

  lemma SameNumbered(x: Peer, y: Peer)
    requires x.k.cfg == y.k.cfg && x.k.cfg.mss > 0 && x.sent == y.sent && x.k.snd == y.k.snd
    ensures Numbered(x) == Numbered(y)
  {
  }

  /** A datagram of the turn, where it was recorded. */
  lemma NewAt(x: Peer, y: Peer, j: nat)
    requires x.k.cfg.mss > 0 && y.k.cfg.mss > 0 && |x.net| <= j < |AfterFlush(x, y).net|
    ensures var x' := AfterFlush(x, y);
            && x'.k.cfg == x.k.cfg && j - |x.net| < |Flush(x.k).out|
            && x'.net[j] == Datagram(Flush(x.k).out[j - |x.net|], LeftEdge(x'), Numbered(x'), x.low,
            InOrder(x, y.k.cfg.mss))
  {
    hide Stream, Back, Flush;
    FlushRest(x.k);
    var x1 := x.(k := Flush(x.k).k);
    assert Numbered(x1) == Numbered(AfterFlush(x, y)) && LeftEdge(x1) == LeftEdge(AfterFlush(x, y));
  }

  lemma NewFor(x: Peer, y: Peer, d: bytes) returns (j: nat)
    requires x.k.cfg.mss > 0 && y.k.cfg.mss > 0 && d in Flush(x.k).out
    ensures |x.net| <= j < |AfterFlush(x, y).net| && AfterFlush(x, y).net[j].d == d
  {
    hide Stream, Back, Flush;
    FlushRest(x.k);
    var i :| 0 <= i < |Flush(x.k).out| && Flush(x.k).out[i] == d;
    j := |x.net| + i;
    NewAt(x, y, j);
  }

  /** The datagrams of a turn are fresh. */
  lemma NewTimely(w: World, x: Peer, v: World, j: nat)
    requires WorldOk(v) && Configured(w) && Configured(v) && v.b == w.b && x.low == w.a.low
    requires x.k.cfg.mss > 0 && v.a == AfterFlush(x, w.b)
             && v.a.low == InOrder(v.a, w.b.k.cfg.mss) == InOrder(x, w.b.k.cfg.mss)
    requires Numbered(w.b) <= w.a.low + ROUND && |x.net| <= j < |v.a.net|
    ensures Timely(v.b, v.a, v.a.net[j]) && Numbered(v.a) - WINDOW_MAX <= v.a.net[j].first
    ensures v.a.net[j].next == Numbered(v.a)
  {
    hide Flow, EndpointOk, Stream, AfterFlush, LeftEdge;
    NewAt(x, w.b, j);
    WindowsAgree(v.a, v.b);
    WindowsAgree(v.b, v.a);
    EndpointConfig(v.a.k);
    EndpointConfig(v.b.k);
  }

  /** After a turn, the mover in its place is drained, and the other one ready. */
  lemma TurnDrains(w: World, t: u32)
    requires WorldOk(w) && Configured(w) && AllDue(w.a, t)
    ensures Drained(Flip(Turn(w, t)))
    ensures Drained(w) ==> Ready(Flip(Turn(w, t)))
  {
    hide WorldOk, Path, PeekSize, TimeDiff, Dist, Flush, Stream, AfterFlush, AllDue;
    var x, v := Sent(w, t);
    SentKept(w, Turn(w, t));
    SentKept(w, v);
    if Drained(w) {
      OwesRecent(v);
      DeliveriesOwe(v, |w.a.net|, x);
    }
  }

  lemma OwesRecent(v: World)
    requires WorldOk(v) && Configured(v)
    ensures Numbered(v.a) <= InOrder(v.b, v.a.k.cfg.mss) + 2 * WINDOW_MAX
  {
    hide Flow, EndpointOk, Stream;
    WindowsAgree(v.a, v.b);
    EndpointConfig(v.b.k);
  }

  /** Arrivals of the turn add only recent acknowledgements. */
  lemma {:induction false} DeliveriesOwe(w: World, lo: nat, x: Peer)
    requires WorldOk(w) && Configured(w) && x.k.cfg.mss > 0 && w.a == AfterFlush(x, w.b) && |x.net| <= lo
    requires Numbered(w.a) <= w.b.low + ROUND
    ensures Numbered(w.a) <= Deliveries(w, lo).b.low + ROUND
    decreases |w.a.net| - lo
  {
    hide WorldOk, Timely, Stream, Input, AfterFlush;
    if lo < |w.a.net| {
      var e, g := AtB(Arrive(lo)), w.a.net[lo];
      StepKeepsConfigured(w, e);
      var w1 := if Timely(w.b, w.a, g) then WorldStep(w, e) else w;
      if Timely(w.b, w.a, g) {
        ArriveGrows(w, lo);
        NewAt(x, w.b, lo);
        EdgeRecent(w);
      }
      AfterFlushSame(x, w.b, w1.b);
      DeliveriesOwe(w1, lo + 1, x);
    }
  }

  lemma EdgeRecent(w: World)
    requires WorldOk(w) && Configured(w)
    ensures Numbered(w.a) - WINDOW_MAX <= LeftEdge(w.a)
  {
    hide Flow, EndpointOk, Stream, LeftEdge;
    WindowsAgree(w.a, w.b);
  }

  lemma AfterFlushSame(x: Peer, y: Peer, y': Peer)
    requires x.k.cfg.mss > 0 && y.k.cfg.mss > 0 && y'.k.cfg == y.k.cfg
    ensures AfterFlush(x, y') == AfterFlush(x, y)
  {
  }

  // ----- progress in the mover's turn

  /** How far the mover is from numbering its next fragment, when all others have arrived. */
  function Rank(k: Kcb): nat {
    if k.snd.buf == [] && k.rmtWnd > 0 then (if k.cc.cwnd >= 1 then 0 else 1)
    else if k.snd.buf != [] then 2
    else if k.probe.wait > 0 then 3
    else 4
  }

  /** The datagram with segment `s` of the flush is delivered in the turn. */
  lemma Carried(w: World, x: Peer, v: World, s: Seg) returns (j: nat)
    requires WorldOk(v) && Configured(w) && Configured(v) && v.b == w.b && x.low == w.a.low && Ready(w)
    requires x.k.cfg.mss > 0 && v.a == AfterFlush(x, w.b)
             && v.a.low == InOrder(v.a, w.b.k.cfg.mss) == InOrder(x, w.b.k.cfg.mss)
    requires EndpointOk(x.k) && x.k.updated && s in FlushSegs(x.k) && v.a.k.cfg == x.k.cfg
    ensures |x.net| <= j < |v.a.net| && s in Decode(v.a.net[j].d, v.a.k.cfg.conv).segs && |v.a.net[j].d| >= OVERHEAD
    ensures Timely(v.b, v.a, v.a.net[j]) && Numbered(v.a) - WINDOW_MAX <= v.a.net[j].first
    ensures v.a.net[j].next == Numbered(v.a)
  {
    hide WorldOk, EndpointOk, FlushSegs, Decode, AfterFlush, Stream, Drained, Timely;
    var d := Emitted(x.k, s);
    j := NewFor(x, w.b, d);
    NewTimely(w, x, v, j);
  }

  /** A flight of the mover is due and arrives. */
  lemma FlightArrives(w: World, t: u32, f: Flight)
    requires WorldOk(w) && Configured(w) && AllDue(w.a, t) && Ready(w) && f in w.a.k.snd.buf
    requires Back(Numbered(w.a), f.seg.sn) <= InOrder(w.b, w.a.k.cfg.mss)
    ensures var v := Turn(w, t);
            && v.b.k.acks != []
            && (Back(Numbered(w.a), f.seg.sn) == InOrder(w.b, w.a.k.cfg.mss) ==>
                  InOrder(w.b, w.a.k.cfg.mss) < InOrder(v.b, w.a.k.cfg.mss))
  {
    hide Flow, EndpointOk, Path, Dist, Flush, Stream, AfterFlush, FlushSegs, Decode, Back, TimeDiff, Timely;
    RoomToRead(w);
    var x, v := Sent(w, t);
    var s := DueSegment(x.k, f);
    var j := Carried(w, x, v, s);
    FlightPosition(w.a, w.b, f);
    BackMoves(Numbered(w.a), Numbered(v.a), f.seg.sn);
    DeliveriesPush(v, |w.a.net|, j, s);
  }

  lemma ProbeArrives(w: World, t: u32)
    requires WorldOk(w) && Configured(w) && AllDue(w.a, t) && Ready(w) && w.a.k.rmtWnd == 0 && w.a.k.probe.wait > 0
    ensures Turn(w, t).b.k.probe.tell
  {
    hide Flow, EndpointOk, Path, Dist, Flush, Stream, AfterFlush, FlushSegs, Decode, TimeDiff, Timely, Drained;
    var x, v := Sent(w, t);
    var s := ProbeSegment(x.k);
    var j := Carried(w, x, v, s);
    DeliveriesAsk(v, |w.a.net|, j, s);
  }

  /** Either something is numbered or received in the mover's turn, or its rank is dealt with. */
  lemma MoverTurn(w: World, t: u32)
    requires WorldOk(w) && Configured(w) && AllDue(w.a, t) && Ready(w)
    requires InOrder(w.b, w.a.k.cfg.mss) < Numbered(w.a) || w.a.k.snd.queue != []
    ensures var v, r := Turn(w, t), Rank(w.a.k);
            && WorldOk(v) && v.a.k.cfg == w.a.k.cfg && Further(w, v) && v.a.sent == w.a.sent
            && (Left(v) < Left(w)
                || (&& 0 < r && InOrder(w.b, w.a.k.cfg.mss) == Numbered(w.a)
                    && (r == 1 ==> Rank(v.a.k) == 0)
                    && (r == 2 ==> v.b.k.acks != [])
                    && (r == 3 ==> v.b.k.probe.tell && v.a.k.snd.buf == [])
                    && (r == 4 ==> Rank(v.a.k) == 3)))
  {
    hide Flow, EndpointOk, Path, Dist, Flush, Stream, AfterFlush, TimeDiff, Deliveries, Drained, Back;
    var x, v := Sent(w, t);
    SentKept(w, Turn(w, t));
    DeliveriesGrow(v, |w.a.net|);
    WindowsAgree(w.a, w.b);
    FlushLeaves(x.k);
    FlushQueue(x.k);
    if InOrder(w.b, w.a.k.cfg.mss) < Numbered(w.a) {
      DrainedRoom(w);
      var f := NextInFlight(w.a, w.b);
      FlightArrives(w, t, f);
    } else if w.a.k.snd.buf != [] {
      FlightPosition(w.a, w.b, w.a.k.snd.buf[0]);
      FlightArrives(w, t, w.a.k.snd.buf[0]);
    } else if w.a.k.rmtWnd > 0 {
      if w.a.k.cc.cwnd >= 1 { FlushOpens(x.k); }
      NumberedBy(x, v.a);
    } else {
      ClosedWindowHolds(x.k);
      if w.a.k.probe.wait > 0 { ProbeArrives(w, t); }
    }
  }

  lemma DrainedRoom(w: World)
    requires WorldOk(w) && Configured(w) && Drained(w)
    ensures |w.b.k.rcv.queue| < w.b.k.cfg.rcvWnd
  {
    hide WorldOk;
    RoomToRead(w);
  }

  lemma NumberedBy(x: Peer, y: Peer)
    requires x.k.cfg == y.k.cfg && x.k.cfg.mss > 0 && x.sent == y.sent
    ensures Numbered(y) == Numbered(x) + |x.k.snd.queue| - |y.k.snd.queue|
  {
    hide Stream;
  }

  // ----- and in the other end's

  /** Everything the other end emits in its turn says that all has arrived and there is room. */
  lemma NewClears(w: World, x: Peer, v: World, j: nat)
    requires WorldOk(v) && Configured(w) && Configured(v) && v.b == w.b && EndpointOk(x.k)
             && PeekSize(x.k.rcv.queue) < 0
    requires x.k.cfg.mss > 0 && v.a == AfterFlush(x, w.b) && v.a.k.cfg == x.k.cfg && v.a.k.rcv == x.k.rcv
    requires InOrder(v.a, w.b.k.cfg.mss) == Numbered(w.b) && |x.net| <= j < |v.a.net|
    ensures Clears(v.a.net[j], v.a.k.cfg.conv, w.b.k.snd.nxt)
  {
    hide Flow, EndpointOk, FlushSegs, Decode, AfterFlush, Stream, PeekSize, Wrap, Flush;
    NewAt(x, w.b, j);
    var d := v.a.net[j].d;
    FlushRoundTrip(x.k);
    SegsThere(d, x.k.cfg.conv, x.k.cfg.mtu);
    FlowWindows(v.b, v.a);
    RoomToRead(Flip(v));
    forall s | s in Decode(d, x.k.cfg.conv).segs ensures s.una == w.b.k.snd.nxt && s.wnd > 0 {
      FlushedDatagram(x.k, d, s);
      FlushedSegTrue(x.k, s);
    }
  }

  lemma SegsThere(d: bytes, conv: u32, mtu: int)
    requires CleanDatagram(d, conv, mtu)
    ensures |d| >= OVERHEAD && Decode(d, conv).segs != []
  {
  }

  /** What the other end's turn does for the stream to it, when all that is numbered is there. */
  lemma OtherTurn(w: World, t: u32)
    requires WorldOk(w) && Configured(w) && AllDue(w.a, t) && Ready(w)
    requires InOrder(w.a, w.b.k.cfg.mss) == Numbered(w.b)
    ensures var v := Turn(w, t);
            && (Answering(w.a.k) ==> v.b.k.snd.buf == [] && v.b.k.rmtWnd > 0)
            && (w.b.k.snd.buf == [] ==> v.b.k.snd.buf == [] && v.b.k.cc == w.b.k.cc
                                        && (w.b.k.rmtWnd > 0 ==> v.b.k.rmtWnd > 0))
            && v.b.k.probe.wait == w.b.k.probe.wait
  {
    hide Flow, EndpointOk, Path, Dist, Flush, Stream, AfterFlush, TimeDiff, Drained, PeekSize, Timely, Clears,
      Decode, AllDue;
    var x, v := Sent(w, t);
    WindowsAgree(v.b, v.a);
    forall j | |w.a.net| <= j < |v.a.net|
      ensures Timely(v.b, v.a, v.a.net[j]) && Clears(v.a.net[j], v.a.k.cfg.conv, w.b.k.snd.nxt) {
      NewTimely(w, x, v, j);
      NewClears(w, x, v, j);
    }
    FlightsBehind(w.b, w.a);
    DeliveriesClear(v, |w.a.net|, w.b.k.snd.nxt);
    if Answering(x.k) {
      var d := AnswerDatagram(x.k);
      var j := NewFor(x, w.b, d);
    }
  }

  // ----- rounds of two turns

  lemma LeftNotNegative(w: World)
    requires WorldOk(w) && Configured(w)
    ensures 0 <= Left(w) <= 2 * |Stream(w.a.sent, w.a.k.cfg.mss)|
  {
    hide Stream, Covered, NetAcks, NetData, AckList, Admissible, EndpointOk, Back, Wrap, Ahead;
  }

  function Measure(w: World): int
    requires Configured(w)
  {
    5 * Left(w) + Rank(w.a.k)
  }

  /** A turn of the other end takes nothing back either. */
  lemma OtherGrows(w: World, t: u32)
    requires WorldOk(w) && Configured(w) && AllDue(w.a, t)
    ensures var v := Turn(w, t);
            && Numbered(v.b) == Numbered(w.b) && v.b.k.snd.queue == w.b.k.snd.queue
            && InOrder(w.a, w.b.k.cfg.mss) <= InOrder(v.a, v.b.k.cfg.mss)
            && v.b.k.cfg == w.b.k.cfg && v.b.sent == w.b.sent && WorldOk(v)
  {
    hide WorldOk, Path, Dist, Flush, Stream, AfterFlush, TimeDiff, Deliveries, PeekSize, AllDue;
    var x, v := Sent(w, t);
    SentKept(w, Turn(w, t));
    DeliveriesGrow(v, |w.a.net|);
  }

  /** A turn of each end brings the stream of the first end nearer to its end. */
  lemma RoundOfTwo(w: World, t: u32, u: u32)
    requires WorldOk(w) && Configured(w) && Ready(w) && AllDue(w.a, t) && AllDue(Turn(w, t).b, u)
    requires InOrder(w.b, w.a.k.cfg.mss) < Numbered(w.a) || w.a.k.snd.queue != []
    ensures var v := Flip(Turn(Flip(Turn(w, t)), u));
            WorldOk(v) && Ready(v) && Measure(v) < Measure(w) && v.a.sent == w.a.sent
  {
    hide Flow, EndpointOk, Turn, Stream, Flush, AllDue, Drained;
    var w1 := Turn(w, t);
    var f1 := Flip(w1);
    MoverTurn(w, t);
    TurnDrains(w, t);
    ReadyDrained(w);
    FlipOk(w1);
    var f2 := Turn(f1, u);
    OtherGrows(f1, u);
    TurnDrains(f1, u);
    ReadyDrained(f1);
    FlipOk(f2);
    if Left(w1) == Left(w) { OtherTurn(f1, u); }
  }

  lemma ReadyDrained(w: World)
    requires Configured(w) && Ready(w)
    ensures Drained(w)
  {
  }

  /** The stream of the first end is complete. */
  lemma StreamEnds(w: World)
    requires WorldOk(w) && Configured(w) && Drained(w) && w.b.got != w.a.sent
    ensures InOrder(w.b, w.a.k.cfg.mss) < Numbered(w.a) || w.a.k.snd.queue != []
  {
    hide Flow, EndpointOk, Stream;
    WindowsAgree(w.a, w.b);
    if InOrder(w.b, w.a.k.cfg.mss) == Numbered(w.a) { StillQueued(w); }
  }

  lemma {:induction false} PollPath(w: World, first: bool, ts: seq<u32>)
    requires WorldOk(w) && Configured(w) && Schedule(w, first, ts)
    ensures Path(w, Poll(w, first, ts))
    decreases |ts|
  {
    hide WorldOk, Path, Turn, TimeDiff;
    PathHere(w);
    if ts != [] {
      var w1 := TurnOf(w, first, ts[0]);
      TurnOfPath(w, first, ts[0]);
      SentKept(w, w1);
      PollPath(w1, !first, ts[1..]);
      PathTrans(w, w1, Poll(w, first, ts));
    }
  }

  lemma TurnOfPath(w: World, first: bool, t: u32)
    requires WorldOk(w) && Configured(w) && AllDue(if first then w.a else w.b, t)
    ensures Path(w, TurnOf(w, first, t))
  {
    hide WorldOk, Path, Turn, TimeDiff;
    if first {
      TurnPath(w, t);
    } else {
      FlipOk(w);
      TurnPath(Flip(w), t);
      FlipPath(Flip(w), Turn(Flip(w), t));
      FlipTwice(w);
    }
  }

  lemma StaysComplete(w: World, w': World)
    requires Path(w, w') && w.b.got == w.a.sent
    ensures w'.b.got == w.a.sent
  {
    hide Flow, EndpointOk, Run, CalmRun;
    GotBounded(w');
  }

  /** From a ready world, enough turns complete the stream of the first end. */
  lemma {:induction false} Completes(w: World, ts: seq<u32>)
    requires WorldOk(w) && Configured(w) && Ready(w) && Schedule(w, true, ts) && 2 * Measure(w) <= |ts|
    ensures Poll(w, true, ts).b.got == w.a.sent
    decreases |ts|
  {
    hide WorldOk, Path, Turn, AllDue, Ready, Drained, Rank, Left;
    LeftNotNegative(w);
    if w.b.got == w.a.sent {
      PollPath(w, true, ts);
      StaysComplete(w, Poll(w, true, ts));
    } else {
      ReadyDrained(w);
      StreamEnds(w);
      MeasurePositive(w);
      var t, u := ts[0], ts[1];
      RoundOfTwo(w, t, u);
      var v := Flip(Turn(Flip(Turn(w, t)), u));
      assert ts[1..][1..] == ts[2..] && ts[1..][0] == u;
      Completes(v, ts[2..]);
    }
  }

  lemma MeasurePositive(w: World)
    requires WorldOk(w) && Configured(w)
    requires InOrder(w.b, w.a.k.cfg.mss) < Numbered(w.a) || w.a.k.snd.queue != []
    ensures Measure(w) >= 1
  {
    hide Stream, Covered, NetAcks, NetData, AckList, Admissible, EndpointOk, Back, Wrap, Ahead;
  }

  lemma {:induction false} FlipPoll(w: World, first: bool, ts: seq<u32>)
    requires Configured(w)
    ensures Poll(Flip(w), !first, ts) == Flip(Poll(w, first, ts))
    ensures Schedule(w, first, ts) ==> Schedule(Flip(w), !first, ts)
    decreases |ts|
  {
    hide Turn, AllDue;
    if ts != [] {
      FlipTwice(w);
      FlipPoll(TurnOf(w, first, ts[0]), !first, ts[1..]);
    }
  }

  /** How many turns are enough. */
  function Turns(w: World): nat
    requires Configured(w)
  {
    20 * (|Stream(w.a.sent, w.a.k.cfg.mss)| + |Stream(w.b.sent, w.b.k.cfg.mss)|) + 11
  }

  lemma MeasureBound(w: World)
    requires WorldOk(w) && Configured(w)
    ensures 2 * Measure(w) <= 20 * |Stream(w.a.sent, w.a.k.cfg.mss)| + 8
  {
    hide WorldOk, Left, Stream;
    LeftNotNegative(w);
  }

  /** Two turns, whatever the state, make the world ready for the first end. */
  lemma ReadyAfterTwo(w: World, t: u32, u: u32)
    requires WorldOk(w) && Configured(w) && AllDue(w.a, t) && AllDue(Turn(w, t).b, u)
    ensures var w1 := Turn(w, t);
            var w2 := Flip(Turn(Flip(w1), u));
            && WorldOk(w1) && WorldOk(w2) && Drained(Flip(w1)) && Ready(w2) && w2.a.sent == w.a.sent
            && w2.b.sent == w.b.sent
            && w2.a.k.cfg == w.a.k.cfg && w2.b.k.cfg == w.b.k.cfg && Drained(w2)
  {
    hide WorldOk, Path, Turn, AllDue, Drained, Numbered;
    var w1 := Turn(w, t);
    TurnOfPath(w, true, t);
    SentKept(w, w1);
    TurnDrains(w, t);
    FlipOk(w1);
    TurnDrains(Flip(w1), u);
    TurnOfPath(w1, false, u);
    SentKept(w1, TurnOf(w1, false, u));
    ReadyDrained(TurnOf(w1, false, u));
  }

  /** The stream of the end that moves first. */
  lemma FirstCompletes(w: World, ts: seq<u32>)
    requires WorldOk(w) && Configured(w) && Schedule(w, true, ts)
    requires 20 * |Stream(w.a.sent, w.a.k.cfg.mss)| + 10 <= |ts|
    ensures Poll(w, true, ts).b.got == w.a.sent
  {
    hide WorldOk, Path, Turn, AllDue, Ready, Drained, Measure, Stream;
    var w1 := Turn(w, ts[0]);
    var w2 := TurnOf(w1, false, ts[1]);
    assert ts[1..][0] == ts[1] && ts[1..][1..] == ts[2..];
    ReadyAfterTwo(w, ts[0], ts[1]);
    MeasureBound(w2);
    Completes(w2, ts[2..]);
  }

  /** From any sound world, every schedule of that many turns completes both streams. */
  lemma PollingFinishes(w: World, ts: seq<u32>)
    requires WorldOk(w) && Configured(w) && Schedule(w, true, ts) && Turns(w) <= |ts|
    ensures Poll(w, true, ts).b.got == w.a.sent && Poll(w, true, ts).a.got == w.b.sent
  {
    hide WorldOk, Path, Turn, AllDue, Stream;
    FirstCompletes(w, ts);
    var w1 := Turn(w, ts[0]);
    TurnOfPath(w, true, ts[0]);
    SentKept(w, w1);
    FlipOk(w1);
    FlipPoll(w1, false, ts[1..]);
    FirstCompletes(Flip(w1), ts[1..]);
  }

  /** After any timely run, every polling schedule finishes: the turns are calm runs, and both
      ends come to have read exactly what the other sent. */
  lemma EveryScheduleFinishes(ca: Config, cb: Config, es: seq<Event>, ts: seq<u32>)
    requires Paired(ca, cb) && TimelyRun(Start(ca, cb), es)
    requires Schedule(Run(Start(ca, cb), es), true, ts) && Turns(Run(Start(ca, cb), es)) <= |ts|
    ensures var w, v := Run(Start(ca, cb), es), Poll(Run(Start(ca, cb), es), true, ts);
            && Path(w, v) && v.b.got == v.a.sent == w.a.sent && v.a.got == v.b.sent == w.b.sent
  {
    hide WorldOk, Path, Turn, TimelyRun, Run, Turns, AllDue;
    var w := Run(Start(ca, cb), es);
    ReachableWorld(ca, cb, es);
    PollingFinishes(w, ts);
    PollPath(w, true, ts);
    SentKept(w, Poll(w, true, ts));
  }

  /** There is always such a time: on a live link with nodelay = 1, half a circle after a flush
      everything that the flush left waiting is due. */
  lemma DueAfterFlush(x: Peer, y: Peer)
    requires EndpointOk(x.k) && x.k.updated && x.k.cfg.nodelay == 1 && !x.k.dead && x.k.cfg.mss > 0 && y.k.cfg.mss > 0
    ensures AllDue(AfterFlush(x, y), Wrap(x.k.current + TWO31))
  {
    hide Sweep, Admit, Pack, TimeDiff, Wrap, Dist, EndpointOk, Stream, Back;
    var k := Flush(x.k).k;
    FlushTimers(x.k);
    FlushProbe(x.k);
    DistForward(k.current, TWO31);
    forall f | f in k.snd.buf ensures TimeDiff(Wrap(k.current + TWO31), f.resendts) >= 0 {
      HalfCircleLater(k.current, f.resendts);
    }
    if k.probe.wait > 0 { HalfCircleLater(k.current, k.probe.ts); }
  }

  lemma HalfCircleLater(t: u32, due: u32)
    requires TimeDiff(t, due) < 0
    ensures TimeDiff(Wrap(t + TWO31), due) >= 0
  {
  }

  lemma FlushProbe(k: Kcb)
    requires k.updated
    ensures var p := Flush(k).k.probe;
            p.wait > 0 ==> TimeDiff(k.current, p.ts) < 0
    ensures Flush(k).k.current == k.current && Flush(k).k.cfg == k.cfg
  {
    hide Sweep, Admit, Pack;
    ProbeAhead(k.probe, k.rmtWnd, k.current);
  }

  lemma ProbeAhead(p: Probe, rmtWnd: u32, current: u32)
    ensures var q := Probing(p, rmtWnd, current);
            q.wait > 0 ==> TimeDiff(current, q.ts) < 0
  {
    hide TimeDiff;
    if rmtWnd == 0 {
      LaterTime(current, PROBE_INIT);
      var w0 := Max(p.wait, PROBE_INIT);
      var w1 := Min(Wrap(w0 + w0 / 2), PROBE_LIMIT);
      if w1 > 0 { LaterTime(current, w1); }
    }
  }

  lemma LaterTime(t: u32, n: int)
    requires 0 < n < TWO31
    ensures TimeDiff(t, Wrap(t + n)) < 0
  {
  }
}
