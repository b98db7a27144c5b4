/** Long one-sided conversations: as many one-byte messages as one likes are sent and read,
    with the first datagrams of either end still on the network.  They are what it takes to
    show which delays a connection survives. */
module LongTalk {
  import opened Words
  import opened Wire
  import opened Kcp
  import opened SenderInvariant
  import opened ReceiverInvariant
  import opened Endpoint
  import opened Connection
  import opened Recovery

  // ----- runs with a given lag

  /** An arrival no more than `data` numbers behind for its data, 2^32 for its acknowledgements
      and `una` for its `una` field. */
  predicate LagMove(x: Peer, y: Peer, m: Move, data: int, una: int)
    requires x.k.cfg.mss > 0 && y.k.cfg.mss > 0
  {
    m.Arrive? && m.j < |y.net| ==>
      var g := y.net[m.j];
      && Numbered(y) <= g.first + data
      && Numbered(x) <= g.low + TWO32 && Numbered(x) <= g.una + una
  }

  predicate LagEvent(w: World, e: Event, data: int, una: int)
    requires Configured(w)
  {
    match e
    case AtA(m) => LagMove(w.a, w.b, m, data, una)
    case AtB(m) => LagMove(w.b, w.a, m, data, una)
  }

  predicate LagRun(w: World, es: seq<Event>, data: int, una: int)
    requires Configured(w)
  {
    es == [] || (LagRun(w, es[..|es| - 1], data, una) && LagEvent(Run(w, es[..|es| - 1]), es[|es| - 1], data, una))
  }

  lemma {:induction false} LagConcat(w: World, es: seq<Event>, fs: seq<Event>, data: int, una: int)
    requires Configured(w) && LagRun(w, es, data, una) && LagRun(Run(w, es), fs, data, una)
    ensures LagRun(w, es + fs, data, una)
  {
    hide WorldStep, LagEvent;
    if fs == [] {
      assert es + fs == es;
    } else {
      var front := fs[..|fs| - 1];
      assert (es + fs)[..|es + fs| - 1] == es + front;
      LagConcat(w, es, front, data, una);
      RunConcat(w, es, front);
    }
  }

  lemma LagOne(w: World, e: Event, data: int, una: int)
    requires Configured(w) && LagEvent(w, e, data, una)
    ensures LagRun(w, [e], data, una) && Run(w, [e]) == WorldStep(w, e)
  {
    hide WorldStep, LagEvent;
    assert [e][..0] == [] && Run(w, []) == w;
  }

  /** Below the limits of timeliness, every run is timely. */
  lemma {:induction false} LagIsTimely(w: World, es: seq<Event>, data: int, una: int)
    requires Configured(w) && LagRun(w, es, data, una) && una <= TWO31 + 1
    requires data + w.a.k.cfg.rcvWnd <= TWO32 && data + w.b.k.cfg.rcvWnd <= TWO32
    ensures TimelyRun(w, es)
  {
    hide WorldStep;
    if es != [] { LagIsTimely(w, es[..|es| - 1], data, una); }
  }

  // ----- the second end only listens

  predicate Listens(es: seq<Event>) {
    forall e <- es :: e.AtB? ==> !e.move.Say?
  }

  /** A timely way from `w` to `w'` on which the second end sends no message. */
  ghost predicate Line(w: World, w': World) {
    && WorldOk(w) && WorldOk(w') && Configured(w) && Configured(w')
    && w'.b.sent == w.b.sent && w.b.got <= w'.b.got && w.a.sent <= w'.a.sent && w.a.net <= w'.a.net
    && w.b.net <= w'.b.net
    && w'.a.k.cfg == w.a.k.cfg && w'.b.k.cfg == w.b.k.cfg
    && exists es :: Listens(es) && TimelyRun(w, es) && w' == Run(w, es)
  }

  lemma LineHere(w: World)
    requires WorldOk(w)
    ensures Line(w, w)
  {
    hide WorldOk;
    WorldConfigured(w);
    assert Listens([]) && TimelyRun(w, []) && w == Run(w, []);
  }

  lemma LineSay(w: World, w1: World, msg: bytes)
    requires Line(w, w1)
    ensures Line(w, WorldStep(w1, AtA(Say(msg))))
  {
    hide WorldOk;
    var e := AtA(Say(msg));
    var es :| Listens(es) && TimelyRun(w, es) && w1 == Run(w, es);
    StepKeepsConfigured(w1, e);
    StepKeepsWorld(w1, e);
    assert (es + [e])[..|es|] == es;
    assert Listens(es + [e]) && TimelyRun(w, es + [e]) && WorldStep(w1, e) == Run(w, es + [e]);
  }

  lemma {:induction false} CalmSays(w: World, es: seq<Event>)
    requires Configured(w) && CalmRun(w, es)
    ensures Listens(es)
  {
    hide TimelyEvent, Run;
    if es != [] {
      CalmSays(w, es[..|es| - 1]);
      assert es == es[..|es| - 1] + [es[|es| - 1]];
    }
  }

  lemma LinePath(w: World, w1: World, w2: World)
    requires Line(w, w1) && Path(w1, w2)
    ensures Line(w, w2)
  {
    hide WorldOk, Run, CalmRun, TimelyRun;
    var es :| Listens(es) && TimelyRun(w, es) && w1 == Run(w, es);
    var fs :| CalmRun(w1, fs) && w2 == Run(w1, fs);
    CalmSays(w1, fs);
    RunConcat(w, es, fs);
    CalmIsTimely(w, es, fs);
    assert Listens(es + fs);
  }

  /** A timely run lags no more than one receive window short of the circle. */
  lemma {:induction false} LineLag(w: World, es: seq<Event>, data: int, una: int)
    requires WorldOk(w) && Configured(w) && w.b.sent == [] && Listens(es) && TimelyRun(w, es)
    requires 0 <= data && TWO32 - w.b.k.cfg.rcvWnd <= data && TWO31 + 1 <= una
    ensures LagRun(w, es, data, una) && WorldOk(Run(w, es)) && Run(w, es).b.sent == []
  {
    hide WorldOk, WorldStep, TimelyEvent, LagEvent;
    if es != [] {
      var front, e := es[..|es| - 1], es[|es| - 1];
      LineLag(w, front, data, una);
      var w1 := Run(w, front);
      TimelyLags(w1, e, data, una);
      StepKeepsWorld(w1, e);
      assert e in es;
      BSilent(w1, e);
    }
  }

  lemma BSilent(w: World, e: Event)
    requires Configured(w) && (e.AtB? ==> !e.move.Say?)
    ensures WorldStep(w, e).b.sent == w.b.sent
  {
    hide PeerStep;
    if e.AtB? { GotGrows(w.b, w.a, e.move); }
  }

  lemma TimelyLags(w: World, e: Event, data: int, una: int)
    requires WorldOk(w) && Configured(w) && w.b.sent == [] && TimelyEvent(w, e)
    requires 0 <= data && TWO32 - w.b.k.cfg.rcvWnd <= data && TWO31 + 1 <= una
    ensures LagEvent(w, e, data, una)
  {
    hide EndpointOk;
    if e.AtA? && e.move.Arrive? && e.move.j < |w.b.net| {
      SilentData(w.b, w.a, w.b.net[e.move.j]);
    }
  }

  lemma SilentData(x: Peer, y: Peer, g: Datagram)
    requires Flow(x, y) && x.sent == [] && g in x.net
    ensures Numbered(x) <= g.first
  {
    hide SendHalf, RecvHalf, Covered, AckList, NetAcks, Decode;
    assert DataTrue(g, x.k.cfg.conv, Stream(x.sent, x.k.cfg.mss), Numbered(x));
  }

  // ----- messages of one byte

  predicate OneByte(msgs: seq<bytes>) {
    forall m <- msgs :: |m| == 1
  }

  lemma {:induction false} OneByteStream(msgs: seq<bytes>, mss: u32)
    requires OneByte(msgs) && mss > 0
    ensures |Stream(msgs, mss)| == |msgs|
    ensures forall i :: 0 <= i < |msgs| ==> Stream(msgs, mss)[i] == Frag(0, msgs[i])
  {
    hide Fragments;
    if msgs != [] {
      var last := msgs[|msgs| - 1];
      OneByteStream(msgs[..|msgs| - 1], mss);
      assert last in msgs;
      OneFragment(last, mss);
    }
  }

  lemma OneFragment(msg: bytes, mss: u32)
    requires |msg| <= mss && mss > 0
    ensures Fragments(msg, mss) == [Frag(0, msg)]
  {
  }

  /** One-byte messages were sent one way, and all have been read. */
  ghost predicate Caught(w: World) {
    WorldOk(w) && Configured(w) && OneByte(w.a.sent) && w.b.got == w.a.sent && w.a.sent != [] && w.b.sent == []
  }

  /** All numbered, all received, nothing held. */
  lemma CaughtUp(w: World)
    requires Caught(w)
    ensures Numbered(w.a) == |w.a.sent| == InOrder(w.b, w.a.k.cfg.mss) && w.a.k.snd.queue == []
    ensures w.b.k.rcv == Receiver(Wrap(|w.a.sent|), [], [])
  {
    hide Stream, SendHalf, Covered, AckList, NetAcks, NetData, EndpointOk, Admissible, Ahead, Wrap;
    OneByteStream(w.a.sent, w.a.k.cfg.mss);
    HalfBounds(w.a.k.snd, Stream(w.a.sent, w.a.k.cfg.mss), Numbered(w.a));
    if w.b.k.rcv.buf != [] {
      assert w.b.k.rcv.buf[0] in w.b.k.rcv.buf;
      AheadWord(InOrder(w.b, w.a.k.cfg.mss), w.b.k.rcv.buf[0].sn);
    }
  }

  lemma SayOne(w: World, msg: bytes)
    requires WorldOk(w) && Configured(w) && |msg| == 1
    ensures var w' := WorldStep(w, AtA(Say(msg)));
            && Line(w, w') && w'.b == w.b && w'.a.sent == w.a.sent + [msg] && w'.a.net == w.a.net && w'.a.low == w.a.low
            && w'.a.k == w.a.k.(snd := w.a.k.snd.(queue := w.a.k.snd.queue + [Frag(0, msg)]))
  {
    hide Flow;
    LineHere(w);
    LineSay(w, w, msg);
    EndpointConfig(w.a.k);
    assert Fragments(msg, w.a.k.cfg.mss) == [Frag(0, msg)];
  }

  /** Message after message is sent and read. */
  lemma {:induction false} Fill(w: World, n: nat) returns (w': World)
    requires Caught(w) && |w.a.sent| <= n
    ensures Line(w, w') && Caught(w') && |w'.a.sent| == n
    decreases n - |w.a.sent|
  {
    hide WorldOk, Path, Line, WorldStep;
    if |w.a.sent| == n {
      w' := w;
      LineHere(w);
    } else {
      SayOne(w, [0]);
      var w1 := WorldStep(w, AtA(Say([0])));
      LineEnds(w, w1);
      var w2 := Complete(w1);
      LinePath(w, w1, w2);
      LineEnds(w, w2);
      SentKept(w1, w2);
      w' := Fill(w2, n);
      LineTrans(w, w2, w');
    }
  }

  lemma LineEnds(w: World, w': World)
    requires Line(w, w')
    ensures WorldOk(w') && Configured(w') && w'.b.sent == w.b.sent && w'.a.k.cfg == w.a.k.cfg && w'.b.k.cfg == w.b.k.cfg
    ensures (forall g <- w.a.net :: g in w'.a.net) && (forall g <- w.b.net :: g in w'.b.net)
  {
    hide WorldOk, TimelyRun, Run;
  }

  lemma LineTrans(w: World, w1: World, w2: World)
    requires Line(w, w1) && Line(w1, w2)
    ensures Line(w, w2)
  {
    hide WorldOk, Run, TimelyRun;
    var es :| Listens(es) && TimelyRun(w, es) && w1 == Run(w, es);
    var fs :| Listens(fs) && TimelyRun(w1, fs) && w2 == Run(w1, fs);
    RunConcat(w, es, fs);
    TimelyConcat(w, es, fs);
    assert Listens(es + fs);
  }

  lemma {:induction false} TimelyConcat(w: World, es: seq<Event>, fs: seq<Event>)
    requires Configured(w) && TimelyRun(w, es) && TimelyRun(Run(w, es), fs)
    ensures TimelyRun(w, es + fs)
  {
    hide WorldStep, TimelyEvent;
    if fs == [] {
      assert es + fs == es;
    } else {
      var front := fs[..|fs| - 1];
      assert (es + fs)[..|es + fs| - 1] == es + front;
      TimelyConcat(w, es, front);
      RunConcat(w, es, front);
    }
  }

  // ----- a sender with nothing outstanding

  /** With everything read, the sender can learn so. */
  lemma Clear(w: World) returns (w': World)
    requires Caught(w)
    ensures Line(w, w') && Caught(w') && w'.a.sent == w.a.sent && w'.a.k.snd.buf == [] && w'.a.k.rmtWnd > 0
  {
    hide WorldOk, Path, Line, PeekSize, Recent;
    CaughtUp(w);
    LineHere(w);
    var w1 := Refresh(w);
    LinePath(w, w, w1);
    StillCaught(w, w1);
    w' := w1;
    if w1.a.k.snd.buf != [] || w1.a.k.rmtWnd == 0 {
      CaughtUp(w1);
      var w2 := Nudge(w1, ROUND);
      LinePath(w, w1, w2);
      StillCaught(w1, w2);
      CaughtUp(w2);
      WindowOf(w2);
      w' := Answer(w2, ROUND + 2 * WINDOW_MAX);
      LinePath(w, w2, w');
      StillCaught(w2, w');
    }
  }

  lemma WindowOf(w: World)
    requires WorldOk(w)
    ensures 0 < w.b.k.cfg.rcvWnd <= WINDOW_MAX && 0 < w.a.k.cfg.rcvWnd <= WINDOW_MAX && w.a.k.cfg.conv == w.b.k.cfg.conv
  {
    hide Flow;
  }

  lemma StillCaught(w: World, w': World)
    requires Caught(w) && Path(w, w')
    ensures Caught(w') && w'.a.sent == w.a.sent && w'.b.got == w.b.got
  {
    hide CalmRun, Run, Flow, EndpointOk;
    GotBounded(w');
  }

  // ----- the first message and its datagrams

  /** A datagram with the first fragment of the connection in it, and no other data. */
  predicate Kept(g: Datagram, conv: u32) {
    && |g.d| >= OVERHEAD && g.first == 0 && g.una == 0
    && (exists s <- Decode(g.d, conv).segs :: s.cmd == CMD_PUSH)
    && (forall s <- Decode(g.d, conv).segs :: s.cmd == CMD_PUSH ==> s.sn == 0 && s.frg == 0 && s.data == [1])
  }

  /** A datagram of the other end that says one fragment is in order. */
  predicate Answered(h: Datagram, conv: u32) {
    && |h.d| >= OVERHEAD && h.una == 1 && h.first == 0 && Decode(h.d, conv).segs != []
    && forall s <- Decode(h.d, conv).segs :: s.una == 1 && s.wnd > 0
  }

  lemma FirstFlight(w: World) returns (f: Flight)
    requires WorldOk(w) && Configured(w) && OneByte(w.a.sent) && |w.a.sent| == 1 && w.a.k.snd.queue == []
    requires w.b.got == [] && w.b.k.rcv.queue == [] && w.b.low == 0 && w.b.sent == [] && w.b.k.snd.queue == []
    ensures f in w.a.k.snd.buf && Recent(w, ROUND) && Numbered(w.a) == 1
    ensures InOrder(w.b, w.a.k.cfg.mss) == 0 == Back(1, f.seg.sn)
  {
    hide Flow;
    OneByteStream(w.a.sent, w.a.k.cfg.mss);
    WindowPositive(w.b.k);
    f := NextInFlight(w.a, w.b);
  }

  lemma KeptFirst(w: World, g: Datagram, s: Seg)
    requires WorldOk(w) && Configured(w) && w.a.sent == [[1]] && w.b.sent == [] && g in w.a.net && |g.d| >= OVERHEAD
    requires s in Decode(g.d, w.a.k.cfg.conv).segs && s.cmd == CMD_PUSH
    ensures Kept(g, w.a.k.cfg.conv)
  {
    hide Decode, Back, Covered, AckList, EndpointOk, Admissible, Stream, TrueAck;
    var st := Stream(w.a.sent, w.a.k.cfg.mss);
    OneByteStream(w.a.sent, w.a.k.cfg.mss);
    SilentStream(w.b, w.a);
    assert AcksTrue(g, w.a.k.cfg.conv, w.a.k.rcv.buf, InOrder(w.a, w.b.k.cfg.mss));
    assert DataTrue(g, w.a.k.cfg.conv, st, Numbered(w.a));
    forall x | x in Decode(g.d, w.a.k.cfg.conv).segs && x.cmd == CMD_PUSH
      ensures x.sn == 0 && x.frg == 0 && x.data == [1] && g.first == 0 {
      assert TrueData(x, st, g);
      BackWord(g.next, x.sn);
    }
  }

  lemma SilentStream(x: Peer, y: Peer)
    requires Flow(x, y) && x.sent == []
    ensures Numbered(x) == 0 == InOrder(y, x.k.cfg.mss)
  {
    hide Covered, AckList, NetAcks, NetData, Back, Ahead;
  }

  /** The first fragment is numbered, sent and received. */
  lemma FirstArrives(ca: Config, cb: Config) returns (w: World, g: Datagram)
    requires Paired(ca, cb)
    ensures Line(Start(ca, cb), w) && w.a.sent == [[1]] && w.b.sent == [] && g in w.a.net && Kept(g, ca.conv)
    ensures w.a.k.cfg == ca && w.b.k.cfg == cb && Configured(w) && InOrder(w.b, ca.mss) == 1 && w.b.k.acks != []
  {
    hide WorldOk, Flow, Path, Decode, Input, Timely, Line, Back, Wrap, Accepted, RecvHalf, Stream;
    var w0 := Start(ca, cb);
    StartOk(ca, cb);
    WorldConfigured(w0);
    SayOne(w0, [1]);
    var w1 := WorldStep(w0, AtA(Say([1])));
    LineEnds(w0, w1);
    var w2 := Open(w1);
    LinePath(w0, w1, w2);
    LineEnds(w0, w2);
    SentKept(w1, w2);
    var f := FirstFlight(w2);
    var x, s;
    x, g, s, w := Retransmit(w2, f, ROUND);
    LinePath(w0, w2, w);
    LineEnds(w0, w);
    KeptFirst(w, g, s);
    FirstTaken(w2, w, x, g, s);
  }

  lemma FirstTaken(w2: World, w: World, x: Peer, g: Datagram, s: Seg)
    requires WorldOk(w2) && WorldOk(w) && Configured(w2) && Configured(w) && w.a == x && x.sent == [[1]]
             && x.k.cfg == w2.a.k.cfg
    requires Flow(x, w2.b) && Timely(w2.b, x, g) && g in x.net && Numbered(x) <= g.first + WINDOW_MAX
    requires w.b == w2.b.(k := Input(w2.b.k, g.d).k, low := w.b.low) && w2.b.k.rcv.queue == []
    requires s in Decode(g.d, x.k.cfg.conv).segs && |g.d| >= OVERHEAD && s.cmd == CMD_PUSH
    requires Back(g.next, s.sn) == 0 == InOrder(w2.b, x.k.cfg.mss)
    ensures InOrder(w.b, x.k.cfg.mss) == 1 && w.b.k.acks != []
  {
    hide Flow, Decode, Input, Timely, Back, Wrap, Accepted, RecvHalf, Stream, EndpointOk;
    var m' := InputNext(x, w2.b, g, s);
    InputNumbers(w2.b.k, g.d);
    RecvNumber(w.b.k.rcv, Stream(x.sent, x.k.cfg.mss), Numbered(x), m');
    InOrderAtMost(w.b.k.rcv, Stream(x.sent, x.k.cfg.mss), Numbered(x), m');
    OneByteStream(x.sent, x.k.cfg.mss);
    ReceiverOf(w.b.k);
    WindowPositive(w2.b.k);
    NextTaken(w2.b.k.rcv, w.b.k.rcv, w.b.k.cfg.rcvWnd, 0, m');
    WindowsAgree(w.a, w.b);
  }

  /** The other end answers, and its datagram is kept too. */
  lemma FirstAnswer(w: World) returns (w': World, h: Datagram)
    requires WorldOk(w) && Configured(w) && w.b.sent == [] && OneByte(w.a.sent) && w.b.k.acks != []
    requires InOrder(w.b, w.a.k.cfg.mss) == 1
    ensures Path(w, w') && Configured(w') && h in w'.b.net && Answered(h, w.b.k.cfg.conv)
  {
    hide Flow, EndpointOk, Flush, Decode, TimeDiff, Wrap, Dist, Path, Stream, Back, AfterFlush;
    var v := Flip(w);
    FlipOk(w);
    var t := w.b.k.current;
    DistZero(t);
    var k := Ticked(w.b, t).k;
    var v' := FlushAt(v, t);
    var d := AnswerDatagram(k);
    RecordedHas(Ticked(w.b, t), w.a, d);
    h := Datagram(d, LeftEdge(v'.a), Numbered(v'.a), w.b.low, InOrder(Ticked(w.b, t), w.a.k.cfg.mss));
    FlipPath(v, v');
    FlipTwice(w);
    w' := Flip(v');
    SentKept(w, w');
    AnswerFields(w', h);
    FlowWindows(w.a, w.b);
    WrapSmall(1);
    WindowRoom(w);
  }

  lemma WindowRoom(w: World)
    requires WorldOk(w) && Configured(w) && InOrder(w.b, w.a.k.cfg.mss) == 1
    ensures WndUnused(w.b.k) > 0
  {
    hide Flow;
  }

  lemma AnswerFields(w: World, h: Datagram)
    requires WorldOk(w) && Configured(w) && w.b.sent == [] && h in w.b.net
    ensures h.first == 0
  {
    hide SendHalf, RecvHalf, Covered, AckList, NetAcks, Decode, EndpointOk, Back;
    SilentStream(w.b, w.a);
    assert DataTrue(h, w.b.k.cfg.conv, Stream(w.b.sent, w.b.k.cfg.mss), Numbered(w.b));
  }

  /** The first message has been read, and a datagram of each end is kept. */
  lemma FirstCaught(ca: Config, cb: Config) returns (w: World, g: Datagram, h: Datagram)
    requires Paired(ca, cb)
    ensures Line(Start(ca, cb), w) && Caught(w) && w.a.k.cfg == ca && w.b.k.cfg == cb && |w.a.sent| == 1
    ensures g in w.a.net && Kept(g, ca.conv) && h in w.b.net && Answered(h, cb.conv)
  {
    hide WorldOk, Flow, Path, Line, Kept, Answered, Stream;
    var w0 := Start(ca, cb);
    var w1;
    w1, g := FirstArrives(ca, cb);
    LineEnds(w0, w1);
    var w2;
    w2, h := FirstAnswer(w1);
    LinePath(w0, w1, w2);
    LineEnds(w0, w2);
    SentKept(w1, w2);
    w := Complete(w2);
    LinePath(w0, w2, w);
    LineEnds(w0, w);
    SentKept(w2, w);
    NetKept(w1, w2);
    NetKept(w2, w);
  }

  lemma NetKept(w: World, w': World)
    requires Path(w, w')
    ensures (forall g <- w.a.net :: g in w'.a.net) && (forall g <- w.b.net :: g in w'.b.net)
  {
    hide WorldOk, Run, CalmRun;
  }
}
