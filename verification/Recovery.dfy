/** No deadlock: from every reachable state of a connection, however the network has behaved
    so far, the two ends can still deliver everything that was accepted for sending.  The
    continuation sends nothing new; it only lets time pass, flushes, reads, and hands over
    datagrams that were just emitted. */
module Recovery {
  import opened Words
  import opened Wire
  import opened Kcp
  import opened SenderInvariant
  import opened ReceiverInvariant
  import opened Endpoint
  import opened Connection
  import Retransmission

  // ----- continuations

  function Mover(w: World, e: Event): Peer {
    if e.AtA? then w.a else w.b
  }

  /** A move that sends nothing new, does not set a clock back and delivers nothing too old. */
  predicate Calm(w: World, e: Event)
    requires Configured(w)
  {
    !e.move.Say? && TimelyEvent(w, e) && (e.move.Clock? ==> Dist(Mover(w, e).k.current, e.move.t) <= TWO31)
  }

  predicate CalmRun(w: World, es: seq<Event>)
    requires Configured(w)
  {
    es == [] || (CalmRun(w, es[..|es| - 1]) && Calm(Run(w, es[..|es| - 1]), es[|es| - 1]))
  }

  /** Both invariants hold, nothing new was sent, and nothing read or emitted was taken back. */
  ghost predicate Keeps(w: World, w': World) {
    && WorldOk(w) && WorldOk(w') && Configured(w) && Configured(w')
    && w'.a.sent == w.a.sent && w'.b.sent == w.b.sent && w.a.got <= w'.a.got && w.b.got <= w'.b.got
    && w'.a.k.cfg == w.a.k.cfg && w'.b.k.cfg == w.b.k.cfg && w.a.net <= w'.a.net && w.b.net <= w'.b.net
  }

  ghost predicate Path(w: World, w': World) {
    Keeps(w, w') && exists es :: CalmRun(w, es) && w' == Run(w, es)
  }

  lemma GotGrows(x: Peer, y: Peer, m: Move)
    requires x.k.cfg.mss > 0 && y.k.cfg.mss > 0 && !m.Say?
    ensures x.got <= PeerStep(x, y, m).got && PeerStep(x, y, m).sent == x.sent && x.net <= PeerStep(x, y, m).net
  {
  }

  lemma WorldConfigured(w: World)
    requires WorldOk(w)
    ensures Configured(w)
  {
    hide EndpointOk;
    FlowConfigured(w.a, w.b);
    FlowConfigured(w.b, w.a);
  }

  lemma CalmStep(w: World, e: Event)
    requires WorldOk(w) && Configured(w) && Calm(w, e)
    ensures Keeps(w, WorldStep(w, e))
  {
    hide PeerStep, WorldOk, TimelyEvent;
    StepKeepsConfigured(w, e);
    match e {
      case AtA(m) => GotGrows(w.a, w.b, m);
      case AtB(m) => GotGrows(w.b, w.a, m);
    }
    StepKeepsWorld(w, e);
  }

  lemma PathHere(w: World)
    requires WorldOk(w)
    ensures Path(w, w)
  {
    hide WorldOk;
    WorldConfigured(w);
    assert CalmRun(w, []) && w == Run(w, []);
  }

  lemma PathStep(w: World, w1: World, e: Event)
    requires Path(w, w1) && Calm(w1, e)
    ensures Path(w, WorldStep(w1, e))
  {
    hide WorldOk, WorldStep, Calm;
    CalmStep(w1, e);
    var es :| CalmRun(w, es) && w1 == Run(w, es);
    assert (es + [e])[..|es|] == es;
    assert CalmRun(w, es + [e]) && WorldStep(w1, e) == Run(w, es + [e]);
  }

  lemma {:induction false} RunConcat(w: World, es: seq<Event>, fs: seq<Event>)
    requires Configured(w)
    ensures Run(w, es + fs) == Run(Run(w, es), fs)
    ensures CalmRun(w, es) && CalmRun(Run(w, es), fs) ==> CalmRun(w, es + fs)
  {
    hide WorldStep, Calm;
    if fs == [] {
      assert es + fs == es;
    } else {
      assert (es + fs)[..|es + fs| - 1] == es + fs[..|fs| - 1];
      RunConcat(w, es, fs[..|fs| - 1]);
    }
  }

  lemma PathTrans(w: World, w1: World, w2: World)
    requires Path(w, w1) && Path(w1, w2)
    ensures Path(w, w2)
  {
    hide WorldOk, Run, CalmRun;
    var es :| CalmRun(w, es) && w1 == Run(w, es);
    var fs :| CalmRun(w1, fs) && w2 == Run(w1, fs);
    RunConcat(w, es, fs);
    assert CalmRun(w, es + fs);
  }

  // ----- the other end's point of view

  function Flip(w: World): World { World(w.b, w.a) }

  function FlipEvents(es: seq<Event>): seq<Event> {
    if es == [] then []
    else
      var e := es[|es| - 1];
      FlipEvents(es[..|es| - 1]) + [if e.AtA? then AtB(e.move) else AtA(e.move)]
  }

  lemma {:induction false} FlipRun(w: World, es: seq<Event>)
    requires Configured(w)
    ensures Run(Flip(w), FlipEvents(es)) == Flip(Run(w, es))
    ensures CalmRun(w, es) ==> CalmRun(Flip(w), FlipEvents(es))
  {
    hide PeerStep, Timely;
    if es != [] {
      var front := es[..|es| - 1];
      FlipRun(w, front);
      assert FlipEvents(es)[..|FlipEvents(es)| - 1] == FlipEvents(front);
    }
  }

  lemma FlipPath(w: World, w': World)
    requires Path(w, w')
    ensures Path(Flip(w), Flip(w'))
  {
    hide Flow, EndpointOk;
    var es :| CalmRun(w, es) && w' == Run(w, es);
    FlipRun(w, es);
  }

  // ----- time passes and one end flushes

  function Ticked(x: Peer, t: u32): Peer {
    x.(k := Advance(x.k, t).k)
  }

  /** The first end flushes with its clock at `t`. */
  lemma FlushAt(w: World, t: u32) returns (w': World)
    requires WorldOk(w) && Configured(w) && Dist(w.a.k.current, t) <= TWO31
    ensures Path(w, w') && Configured(w') && w' == w.(a := AfterFlush(Ticked(w.a, t), w.b))
    ensures EndpointOk(Ticked(w.a, t).k) && Flow(Ticked(w.a, t), w.b) && Flow(w.b, Ticked(w.a, t))
    ensures Numbered(w.a) <= Numbered(w'.a) <= Numbered(w.a) + WINDOW_MAX
    ensures w'.a.low == InOrder(w.a, w.b.k.cfg.mss) == InOrder(w'.a, w.b.k.cfg.mss) && w'.a.got == w.a.got
  {
    hide Flow, EndpointOk, Flush, Wrap, TimeDiff, Run, CalmRun;
    var x := Ticked(w.a, t);
    AdvanceFlow(w.a, w.b, t);
    FlushFlowSender(x, w.b);
    FlushRest(x.k);
    PathHere(w);
    PathStep(w, w, AtA(Clock(t)));
    w' := WorldStep(w, AtA(Clock(t)));
    if !Advance(w.a.k, t).flush {
      PathStep(w, w', AtA(FlushNow));
      w' := WorldStep(w', AtA(FlushNow));
    }
  }

  /** The acknowledgements waiting at either end are for recent fragments. */
  predicate Recent(w: World, c: int)
    requires Configured(w)
  {
    Numbered(w.a) <= w.b.low + c && Numbered(w.b) <= w.a.low + c
  }

  /** Room for a few flushes below the 2^31 that timeliness asks. */
  const ROUND: int := 3 * WINDOW_MAX

  /** After both ends have flushed, nothing old is waiting. */
  lemma Refresh(w: World) returns (w': World)
    requires WorldOk(w) && Configured(w)
    ensures Path(w, w') && Configured(w') && Recent(w', ROUND)
    ensures Numbered(w.a) <= Numbered(w'.a) && w'.b.got == w.b.got && w'.b.k.rcv == w.b.k.rcv
  {
    hide Flow, EndpointOk, Flush, TimeDiff, Wrap, Dist, Run, CalmRun;
    DistZero(w.a.k.current);
    DistZero(w.b.k.current);
    var w1 := FlushAt(w, w.a.k.current);
    var v := FlushAt(Flip(w1), w.b.k.current);
    w' := Flip(v);
    FlipPath(Flip(w1), v);
    FlipTwice(w1);
    PathTrans(w, w1, w');
    FlushRest(Ticked(w1.b, w.b.k.current).k);
    WindowsAgree(w'.a, w'.b);
    WindowsAgree(w'.b, w'.a);
    EndpointConfig(w'.a.k);
    EndpointConfig(w'.b.k);
  }

  lemma FlipTwice(w: World)
    ensures Flip(Flip(w)) == w
  {
  }

  /** The time, now or later, at which something due at `due` is due. */
  function DueTime(current: u32, due: u32): (t: u32)
    ensures TimeDiff(t, due) >= 0 && Dist(current, t) <= TWO31
  {
    if TimeDiff(current, due) >= 0 then current else due
  }

  lemma {:induction false} DecodedFrom(ds: seq<bytes>, conv: u32, s: Seg) returns (d: bytes)
    requires s in DecodeEach(ds, conv)
    ensures d in ds && s in Decode(d, conv).segs
  {
    var last := |ds| - 1;
    if s in Decode(ds[last], conv).segs { d := ds[last]; } else { d := DecodedFrom(ds[..last], conv, s); }
  }

  lemma Emitted(k: Kcb, s: Seg) returns (d: bytes)
    requires EndpointOk(k) && k.updated && s in FlushSegs(k)
    ensures d in Flush(k).out && s in Decode(d, k.cfg.conv).segs && |d| >= OVERHEAD && Decode(d, k.cfg.conv).code == 0
  {
    hide EndpointOk, FlushSegs, Decode, DecodeEach, Pack;
    FlushRoundTrip(k);
    d := DecodedFrom(Flush(k).out, k.cfg.conv, s);
  }

  /** The first end flushes at `t`, and the second takes one of the datagrams at once. */
  lemma SendNow(w: World, t: u32, d: bytes, c: int) returns (x: Peer, g: Datagram, w': World)
    requires WorldOk(w) && Configured(w) && Dist(w.a.k.current, t) <= TWO31
    requires Recent(w, c) && ROUND <= c <= 10 * ROUND && d in Flush(Ticked(w.a, t).k).out
    ensures Path(w, w') && Configured(w') && Recent(w', c + WINDOW_MAX)
    ensures x == AfterFlush(Ticked(w.a, t), w.b) && g in x.net && g.d == d && w'.a == x && x.k.cfg == w.a.k.cfg
    ensures EndpointOk(x.k) && Flow(x, w.b) && Timely(w.b, x, g) && g.next == Numbered(x)
            && Numbered(x) - WINDOW_MAX <= g.first
    ensures Numbered(w.a) <= Numbered(x) <= Numbered(w.a) + WINDOW_MAX
    ensures w'.b == w.b.(k := Input(w.b.k, d).k, low := w'.b.low)
  {
    hide Flow, EndpointOk, Flush, Input, TimeDiff, Wrap, Dist, Run, CalmRun;
    var w1 := FlushAt(w, t);
    x := w1.a;
    g := Datagram(d, LeftEdge(x), Numbered(x), w.a.low, InOrder(w.a, w.b.k.cfg.mss));
    RecordedHas(Ticked(w.a, t), w.b, d);
    WindowsAgree(x, w.b);
    WindowsAgree(w.b, x);
    EndpointConfig(w.b.k);
    EndpointConfig(x.k);
    EdgeNotNegative(x, w.b);
    var j :| 0 <= j < |x.net| && x.net[j] == g;
    PathStep(w, w1, AtB(Arrive(j)));
    w' := WorldStep(w1, AtB(Arrive(j)));
    InputNumbers(w.b.k, d);
  }

  lemma InputNumbers(k: Kcb, d: bytes)
    requires EndpointOk(k)
    ensures k.cfg.mss > 0 && Input(k, d).k.snd.queue == k.snd.queue && Input(k, d).k.cfg == k.cfg
  {
    hide Input;
    InputKeeps(k, d);
  }

  lemma RecordedHas(x: Peer, y: Peer, d: bytes)
    requires x.k.cfg.mss > 0 && y.k.cfg.mss > 0 && d in Flush(x.k).out
    ensures var x' := AfterFlush(x, y);
            && x'.k.cfg == x.k.cfg
            && Datagram(d, LeftEdge(x'), Numbered(x'), x.low, InOrder(x, y.k.cfg.mss)) in x'.net
  {
    hide Stream, Back, Flush;
    FlushRest(x.k);
    var x1 := x.(k := Flush(x.k).k);
    var added := Recorded(Flush(x.k).out, x1, InOrder(x, y.k.cfg.mss));
    var i :| 0 <= i < |Flush(x.k).out| && Flush(x.k).out[i] == d;
    assert added[i] in added;
    assert Numbered(x1) == Numbered(AfterFlush(x, y)) && LeftEdge(x1) == LeftEdge(AfterFlush(x, y));
  }

  // ----- a datagram arrives at the receiver

  lemma {:induction false} TakeAllAcks(p: Progress, ss: seq<Seg>)
    ensures |p.k.acks| <= |TakeAll(p, ss).k.acks|
    ensures p.k.probe.tell ==> TakeAll(p, ss).k.probe.tell
    decreases |ss|
  {
    hide ParseData, ParseAck, DropUna, BelowWindowEnd, TimeDiff;
    if ss != [] { TakeAllAcks(TakeSeg(p, ss[0]), ss[1..]); }
  }

  /** A fragment that is the next one wanted, or an older one, is accepted and acknowledged. */
  lemma {:induction false} TakeAllNext(p: Progress, ss: seq<Seg>, s: Seg, g: Datagram, st: seq<Frag>, n: int, m: int,
    low: int)
    returns (m': int)
    requires EndpointOk(p.k) && forall s <- ss :: s.wnd <= WINDOW_MAX && TrueData(s, st, g)
    requires RecvHalf(p.k.rcv, st, n, m) && AckList(p.k.rcv.buf, m, low, p.k.acks)
    requires low <= g.first && g.next <= n <= m + TWO31 && n + p.k.cfg.rcvWnd <= g.first + TWO31
    requires s in ss && s.cmd == CMD_PUSH && g.first <= Back(g.next, s.sn) <= m
    ensures var k' := TakeAll(p, ss).k;
            && RecvHalf(k'.rcv, st, n, m') && m <= m' && m' - |k'.rcv.queue| == m - |p.k.rcv.queue|
            && Accepted(k'.rcv.buf, m', Back(g.next, s.sn)) && k'.acks != []
    decreases |ss|
  {
    hide EndpointOk, RecvHalf, TrueData, TakeSeg, Accepted, AckList, Back;
    var p1 := TakeSeg(p, ss[0]);
    TakeSegKeeps(p, ss[0]);
    var m1 := TakeSegReceiver(p, ss[0], g, st, n, m, low);
    if s == ss[0] {
      WindowPositive(p.k);
      InOrderAtMost(p.k.rcv, st, n, m);
      m' := TakeAllReceiver(p1, ss[1..], g, st, n, m1, low);
      TakeAllAcks(p1, ss[1..]);
    } else {
      m' := TakeAllNext(p1, ss[1..], s, g, st, n, m1, low);
    }
  }

  lemma DataFrom(s: Seg, st: seq<Frag>, g: Datagram)
    requires TrueData(s, st, g) && s.cmd == CMD_PUSH
    ensures g.first <= Back(g.next, s.sn)
  {
  }

  lemma InputNext(x: Peer, y: Peer, g: Datagram, s: Seg) returns (m': int)
    requires EndpointOk(x.k) && EndpointOk(y.k) && Flow(x, y) && x.k.cfg.conv == y.k.cfg.conv && y.k.cfg.mss > 0
    requires g in x.net && s in Decode(g.d, x.k.cfg.conv).segs && |g.d| >= OVERHEAD && Timely(y, x, g)
    requires Numbered(x) - WINDOW_MAX <= g.first
    requires s.cmd == CMD_PUSH && Back(g.next, s.sn) <= InOrder(y, x.k.cfg.mss)
    ensures var k := Input(y.k, g.d).k;
            && RecvHalf(k.rcv, Stream(x.sent, x.k.cfg.mss), Numbered(x), m')
            && InOrder(y, x.k.cfg.mss) <= m' && m' - |k.rcv.queue| == InOrder(y, x.k.cfg.mss) - |y.k.rcv.queue|
            && Accepted(k.rcv.buf, m', Back(g.next, s.sn)) && k.acks != []
  {
    hide TakeAll, Accepted, RecvHalf, TrueData, EndpointOk, Decode, AckList, Stream, Back, SendHalf, Covered,
      NetAcks, Admissible;
    var st, n, m := Stream(x.sent, x.k.cfg.mss), Numbered(x), InOrder(y, x.k.cfg.mss);
    var low, p := Min(y.low, g.first), Progress(y.k, NoMark);
    var segs := Decode(g.d, y.k.cfg.conv).segs;
    assert DataTrue(g, x.k.cfg.conv, st, n);
    DecodedWindows(g.d, y.k.cfg.conv);
    WindowsAgree(x, y);
    EndpointConfig(y.k);
    GrownHere(y.k.rcv.buf, m);
    GrownList(y.k.rcv.buf, m, y.k.rcv.buf, m, y.low, low, y.k.acks);
    DataFrom(s, st, g);
    m' := TakeAllNext(p, segs, s, g, st, n, m, low);
    TakeAllKeepsConfig(p, segs);
    SettleRest(TakeAll(p, segs), y.k.snd.una);
  }

  // ----- the sender retransmits

  /** A segment in flight, once due, goes out again. */
  lemma SweptDue(k: Kcb, buf: seq<Flight>, f: Flight)
    requires f in buf && !Decide(k, f).Hold?
    ensures Resend(k, f).seg in Sweep(k, buf).out
  {
    hide Decide, Resend;
    if f != buf[0] { SweptDue(k, buf[1..], f); }
  }

  lemma DueSegment(k: Kcb, f: Flight) returns (s: Seg)
    requires EndpointOk(k) && f in k.snd.buf && TimeDiff(k.current, f.resendts) >= 0
    ensures s in FlushSegs(k) && s.cmd == CMD_PUSH && s.sn == f.seg.sn
  {
    Retransmission.AdmittedHas(k, f);
    SweptDue(k, Admitted(k).buf, f);
    s := Resend(k, f).seg;
    assert FlightOk(f, k.cfg);
  }

  /** Flush when segment `f` is due, and let the receiver have it. */
  lemma Retransmit(w: World, f: Flight, c: int) returns (x: Peer, g: Datagram, s: Seg, w': World)
    requires WorldOk(w) && Configured(w) && f in w.a.k.snd.buf && Recent(w, c) && ROUND <= c <= 10 * ROUND
    ensures Path(w, w') && Configured(w') && Recent(w', c + WINDOW_MAX)
    ensures g in x.net && w'.a == x && x.k.cfg == w.a.k.cfg && x.sent == w.a.sent
    ensures EndpointOk(x.k) && Flow(x, w.b) && Timely(w.b, x, g) && Numbered(w.a) <= Numbered(x) <= g.first + WINDOW_MAX
    ensures w'.b == w.b.(k := Input(w.b.k, g.d).k, low := w'.b.low)
    ensures s in Decode(g.d, x.k.cfg.conv).segs && |g.d| >= OVERHEAD && s.cmd == CMD_PUSH
    ensures Back(g.next, s.sn) == Back(Numbered(w.a), f.seg.sn)
  {
    hide Flow, EndpointOk, Flush, FlushSegs, Decode, TimeDiff, Wrap, Dist, Back, Input, AfterFlush, Path;
    var t := DueTime(w.a.k.current, f.resendts);
    var k := Ticked(w.a, t).k;
    AdvanceFlow(w.a, w.b, t);
    s := DueSegment(k, f);
    var d := Emitted(k, s);
    x, g, w' := SendNow(w, t, d, c);
    FlightPosition(w.a, w.b, f);
    BackMoves(Numbered(w.a), Numbered(x), f.seg.sn);
    SentKept(w, w');
  }

  lemma SentKept(w: World, w': World)
    requires Path(w, w')
    ensures w'.a.sent == w.a.sent && w'.b.sent == w.b.sent && WorldOk(w')
    ensures w'.a.k.cfg == w.a.k.cfg && w'.b.k.cfg == w.b.k.cfg
  {
    hide WorldOk, CalmRun, Run;
  }

  lemma FlightPosition(x: Peer, y: Peer, f: Flight)
    requires Flow(x, y) && f in x.k.snd.buf
    ensures Numbered(x) - TWO31 < Back(Numbered(x), f.seg.sn) < Numbered(x)
  {
    hide Stream, Back, Wrap, RecvHalf, Covered, AckList, NetAcks, Admissible;
  }

  lemma NextTaken(r: Receiver, r': Receiver, wnd: u32, m: int, m': int)
    requires ReceiverOk(r', wnd) && r'.nxt == Wrap(m') && m' - |r'.queue| == m - |r.queue|
    requires |r.queue| < wnd && m <= m' && Accepted(r'.buf, m', m)
    ensures m < m'
  {
    hide Wrap, Accepted, ReceiverOk;
    if m' == m { GapAtNext(r', wnd, m'); }
  }

  lemma NextInFlight(x: Peer, y: Peer) returns (f: Flight)
    requires EndpointOk(y.k) && Flow(x, y)
    requires InOrder(y, x.k.cfg.mss) < Numbered(x) && |y.k.rcv.queue| < y.k.cfg.rcvWnd
    ensures f in x.k.snd.buf && Back(Numbered(x), f.seg.sn) == InOrder(y, x.k.cfg.mss)
  {
    hide Stream, Back, Wrap, SendHalf, AckList, NetAcks, Admissible, Accepted;
    var m := InOrder(y, x.k.cfg.mss);
    GapAtNext(y.k.rcv, y.k.cfg.rcvWnd, m);
    assert InFlight(x.k.snd.buf, Numbered(x), m);
    f :| f in x.k.snd.buf && Back(Numbered(x), f.seg.sn) == m;
  }

  /** How far the two ends of the stream from the first end have come. */
  predicate Further(w: World, w': World)
    requires Configured(w) && Configured(w')
  {
    Numbered(w.a) <= Numbered(w'.a) && InOrder(w.b, w.a.k.cfg.mss) <= InOrder(w'.b, w'.a.k.cfg.mss)
  }

  /** While a number is outstanding that the receiver lacks, it can get the next one. */
  lemma PushNext(w: World, c: int) returns (w': World)
    requires WorldOk(w) && Configured(w) && Recent(w, c) && ROUND <= c <= 10 * ROUND
    requires InOrder(w.b, w.a.k.cfg.mss) < Numbered(w.a) && |w.b.k.rcv.queue| < w.b.k.cfg.rcvWnd
    ensures Path(w, w') && Configured(w') && Further(w, w')
    ensures InOrder(w.b, w.a.k.cfg.mss) < InOrder(w'.b, w'.a.k.cfg.mss)
  {
    hide Flow, Decode, Input, TimeDiff, Wrap, Dist, Back, Stream, Accepted, RecvHalf, Path, Timely;
    var f := NextInFlight(w.a, w.b);
    var x, g, s;
    x, g, s, w' := Retransmit(w, f, c);
    var m' := InputNext(x, w.b, g, s);
    SentKept(w, w');
    RecvNumber(w'.b.k.rcv, Stream(x.sent, x.k.cfg.mss), Numbered(x), m');
    ReceiverOf(w'.b.k);
    InputNumbers(w.b.k, g.d);
    NextTaken(w.b.k.rcv, w'.b.k.rcv, w.b.k.cfg.rcvWnd, InOrder(w.b, w.a.k.cfg.mss), m');
  }

  lemma ReceiverOf(k: Kcb)
    requires EndpointOk(k)
    ensures ReceiverOk(k.rcv, k.cfg.rcvWnd)
  {
  }

  // ----- the sender asks for an answer

  /** What a flush leaves alone or sets. */
  lemma FlushLeaves(k: Kcb)
    requires k.updated
    ensures Flush(k).k.rmtWnd == k.rmtWnd && Flush(k).k.cc.cwnd >= 1
    ensures k.rmtWnd == 0 && k.probe.wait == 0 ==> Flush(k).k.probe.wait > 0
  {
    hide Sweep, Admit, Pack, TimeDiff;
  }

  lemma ProbeSegment(k: Kcb) returns (s: Seg)
    requires k.rmtWnd == 0 && k.probe.wait > 0 && TimeDiff(k.current, k.probe.ts) >= 0
    ensures s in FlushSegs(k) && s.cmd == CMD_WASK
  {
    s := Control(k, CMD_WASK, LastAck(k.acks));
    assert s in ProbeSegs(k, Probing(k.probe, k.rmtWnd, k.current));
  }

  lemma {:induction false} TakeAllAsk(p: Progress, ss: seq<Seg>, s: Seg)
    requires s in ss && s.cmd == CMD_WASK
    ensures TakeAll(p, ss).k.probe.tell
    decreases |ss|
  {
    hide ParseData, ParseAck, DropUna, BelowWindowEnd, TimeDiff;
    if s == ss[0] { TakeAllAcks(TakeSeg(p, s), ss[1..]); } else { TakeAllAsk(TakeSeg(p, ss[0]), ss[1..], s); }
  }

  lemma InputAsk(k: Kcb, d: bytes, s: Seg)
    requires k.cfg.mss > 0 && |d| >= OVERHEAD && s in Decode(d, k.cfg.conv).segs && s.cmd == CMD_WASK
    ensures Input(k, d).k.probe.tell
  {
    hide TakeAll, Decode;
    var p, segs := Progress(k, NoMark), Decode(d, k.cfg.conv).segs;
    TakeAllAsk(p, segs, s);
    TakeAllKeepsConfig(p, segs);
    SettleRest(TakeAll(p, segs), k.snd.una);
  }

  /** The receiver has something to answer: acknowledgements, or a window to report. */
  predicate Answering(k: Kcb) {
    k.acks != [] || k.probe.tell
  }

  /** A scheduled probe goes out once its time has come, and the receiver owes an answer. */
  lemma AskScheduled(w: World, c: int) returns (w': World)
    requires WorldOk(w) && Configured(w) && Recent(w, c) && ROUND <= c <= 10 * ROUND
    requires w.a.k.rmtWnd == 0 && w.a.k.probe.wait > 0
    ensures Path(w, w') && Configured(w') && Recent(w', c + WINDOW_MAX) && Further(w, w')
    ensures w'.b.got == w.b.got && Answering(w'.b.k)
  {
    hide Flow, EndpointOk, Flush, FlushSegs, Decode, TimeDiff, Wrap, Dist, Back, Input, AfterFlush, Path, Timely,
      Stream;
    var t := DueTime(w.a.k.current, w.a.k.probe.ts);
    var k := Ticked(w.a, t).k;
    AdvanceFlow(w.a, w.b, t);
    var s := ProbeSegment(k);
    var d := Emitted(k, s);
    var x, g;
    x, g, w' := SendNow(w, t, d, c);
    InputAsk(w.b.k, d, s);
    InputGrows(x, w.b, g);
  }

  /** An arrival never takes anything back. */
  lemma InputGrows(x: Peer, y: Peer, g: Datagram)
    requires EndpointOk(x.k) && EndpointOk(y.k) && Flow(x, y) && x.k.cfg.conv == y.k.cfg.conv && y.k.cfg.mss > 0
    requires g in x.net && Timely(y, x, g)
    ensures InOrder(y, x.k.cfg.mss) <= |Stream(y.got, x.k.cfg.mss)| + |Input(y.k, g.d).k.rcv.queue|
  {
    hide Flow, EndpointOk, Input, Stream, Grown, RecvHalf, AckList;
    FlowConfigured(x, y);
    HeardReceiver(x, y, g);
    GrownForward(y.k.rcv.buf, InOrder(y, x.k.cfg.mss), Heard(y, g).k.rcv.buf, InOrder(Heard(y, g), x.k.cfg.mss));
  }

  /** While the peer's window is closed, a probe can go out. */
  lemma AskWindow(w: World, c: int) returns (w': World)
    requires WorldOk(w) && Configured(w) && Recent(w, c) && ROUND <= c <= 9 * ROUND && w.a.k.rmtWnd == 0
    ensures Path(w, w') && Configured(w') && Recent(w', c + 2 * WINDOW_MAX) && Further(w, w')
    ensures w'.b.got == w.b.got && Answering(w'.b.k)
  {
    hide Flow, EndpointOk, Flush, Decode, TimeDiff, Wrap, Dist, Path, Stream;
    if w.a.k.probe.wait > 0 {
      w' := AskScheduled(w, c);
    } else {
      var t := w.a.k.current;
      DistZero(t);
      var w0 := FlushAt(w, t);
      SentKept(w, w0);
      FlushLeaves(Ticked(w.a, t).k);
      StillRecent(w, w0, c);
      w' := AskScheduled(w0, c + WINDOW_MAX);
      PathTrans(w, w0, w');
    }
  }

  /** A flush of the first end moves its numbers by a window and renews its own waiting list. */
  lemma StillRecent(w: World, w': World, c: int)
    requires WorldOk(w') && Configured(w) && Configured(w') && Recent(w, c) && ROUND <= c && w'.b == w.b
    requires Numbered(w'.a) <= Numbered(w.a) + WINDOW_MAX && w'.a.low == InOrder(w'.a, w'.b.k.cfg.mss)
    ensures Recent(w', c + WINDOW_MAX)
  {
    hide Flow, EndpointOk, Stream;
    WindowsAgree(w'.b, w'.a);
    EndpointConfig(w'.a.k);
    EndpointConfig(w'.b.k);
  }

  /** With every number received, a sender that waits can make the receiver answer. */
  lemma Nudge(w: World, c: int) returns (w': World)
    requires WorldOk(w) && Configured(w) && Recent(w, c) && ROUND <= c <= 9 * ROUND
    requires InOrder(w.b, w.a.k.cfg.mss) == Numbered(w.a) && (w.a.k.snd.buf != [] || w.a.k.rmtWnd == 0)
    ensures Path(w, w') && Configured(w') && Recent(w', c + 2 * WINDOW_MAX) && Further(w, w')
    ensures w'.b.got == w.b.got && Answering(w'.b.k)
  {
    hide Flow, EndpointOk, Decode, Input, Path, Timely, Stream, Back, RecvHalf, Accepted;
    if w.a.k.snd.buf != [] {
      var f := w.a.k.snd.buf[0];
      FlightPosition(w.a, w.b, f);
      var x, g, s;
      x, g, s, w' := Retransmit(w, f, c);
      var m' := InputNext(x, w.b, g, s);
    } else {
      w' := AskWindow(w, c);
    }
  }

  // ----- the answer opens the window

  lemma {:induction false} DropAllUna(buf: seq<Flight>, una: u32)
    requires forall f <- buf :: TimeDiff(una, f.seg.sn) > 0
    ensures DropUna(buf, una) == []
  {
    hide TimeDiff;
    if buf != [] { DropAllUna(buf[1..], una); }
  }

  /** An answer that covers every number empties `snd_buf` and opens the window. */
  lemma {:induction false} TakeAllClears(p: Progress, ss: seq<Seg>, una: u32)
    requires forall f <- p.k.snd.buf :: TimeDiff(una, f.seg.sn) > 0
    requires ss != [] && forall s <- ss :: s.una == una && s.wnd > 0
    ensures TakeAll(p, ss).k.snd.buf == [] && TakeAll(p, ss).k.rmtWnd > 0
    decreases |ss|
  {
    hide ParseData, DropUna, BelowWindowEnd, TimeDiff;
    DropAllUna(p.k.snd.buf, una);
    var p1 := TakeSeg(p, ss[0]);
    assert p1.k.snd.buf == [];
    if |ss| > 1 { TakeAllClears(p1, ss[1..], una); } else { assert ss[1..] == []; }
  }

  lemma SettleCleared(p: Progress, prevUna: u32)
    requires p.k.cfg.mss > 0 && p.k.snd.buf == []
    ensures Settle(p, prevUna).snd.buf == []
  {
  }

  lemma InputClears(k: Kcb, d: bytes, una: u32)
    requires k.cfg.mss > 0 && |d| >= OVERHEAD && (forall f <- k.snd.buf :: TimeDiff(una, f.seg.sn) > 0)
    requires Decode(d, k.cfg.conv).segs != []
    requires forall s <- Decode(d, k.cfg.conv).segs :: s.una == una && s.wnd > 0
    ensures Input(k, d).k.snd.buf == [] && Input(k, d).k.rmtWnd > 0
  {
    hide TakeAll, Decode, Settle;
    var p, segs := Progress(k, NoMark), Decode(d, k.cfg.conv).segs;
    TakeAllClears(p, segs, una);
    TakeAllKeepsConfig(p, segs);
    SettleRest(TakeAll(p, segs), k.snd.una);
    SettleCleared(TakeAll(p, segs), k.snd.una);
  }

  lemma AnswerSegment(k: Kcb) returns (s: Seg)
    requires Answering(k)
    ensures s in FlushSegs(k)
  {
    if k.acks != [] {
      s := AckSegs(k, k.acks)[0];
      assert s in AckSegs(k, k.acks);
    } else {
      s := Control(k, CMD_WINS, LastAck(k.acks));
      assert s in ProbeSegs(k, Probing(k.probe, k.rmtWnd, k.current));
    }
  }

  lemma AnswerDatagram(k: Kcb) returns (d: bytes)
    requires EndpointOk(k) && k.updated && Answering(k)
    ensures d in Flush(k).out && |d| >= OVERHEAD && Decode(d, k.cfg.conv).segs != []
    ensures forall s <- Decode(d, k.cfg.conv).segs :: s.una == k.rcv.nxt && s.wnd == WndUnused(k)
  {
    hide EndpointOk, Flush, FlushSegs, Decode;
    var s0 := AnswerSegment(k);
    d := Emitted(k, s0);
    forall s | s in Decode(d, k.cfg.conv).segs ensures s.una == k.rcv.nxt && s.wnd == WndUnused(k) {
      FlushedDatagram(k, d, s);
      FlushedSegTrue(k, s);
    }
  }

  /** Every flight is behind the next number. */
  lemma FlightsBehind(x: Peer, y: Peer)
    requires Flow(x, y)
    ensures forall f <- x.k.snd.buf :: TimeDiff(x.k.snd.nxt, f.seg.sn) > 0
  {
    hide Stream, Back, Wrap, TimeDiff, RecvHalf, Covered, AckList, NetAcks, Admissible;
    var n := Numbered(x);
    forall f | f in x.k.snd.buf ensures TimeDiff(x.k.snd.nxt, f.seg.sn) > 0 {
      BackWord(n, f.seg.sn);
      TimeDiffIsExactWithinHalf(n, Back(n, f.seg.sn));
    }
  }

  /** The receiver flushes its answer and the sender takes it. */
  lemma Answer(w: World, c: int) returns (w': World)
    requires WorldOk(w) && Configured(w) && Recent(w, c) && ROUND <= c <= 9 * ROUND
    requires InOrder(w.b, w.a.k.cfg.mss) == Numbered(w.a)
    requires |w.b.k.rcv.queue| < w.b.k.cfg.rcvWnd && Answering(w.b.k)
    ensures Path(w, w') && Configured(w') && w'.a.k.snd.buf == [] && w'.a.k.rmtWnd > 0
    ensures w'.a.k.snd.queue == w.a.k.snd.queue && w'.b.k.rcv == w.b.k.rcv && w'.b.got == w.b.got
  {
    hide Flow, EndpointOk, Decode, Input, Flush, TimeDiff, Wrap, Dist, Timely, Path, Stream;
    var v := Flip(w);
    var t := v.a.k.current;
    DistZero(t);
    var k := Ticked(v.a, t).k;
    AdvanceFlow(v.a, v.b, t);
    var d := AnswerDatagram(k);
    var x, g, v' := SendNow(v, t, d, c);
    FlipPath(v, v');
    FlipTwice(w);
    w' := Flip(v');
    FlowWindows(w.a, w.b);
    FlightsBehind(w.a, w.b);
    FlushRest(k);
    InputClears(w.a.k, d, w.a.k.snd.nxt);
    InputNumbers(w.a.k, d);
  }

  // ----- an open window lets the next fragment out

  lemma QueueShorter(k: Kcb, s: Sender, window: u32)
    requires TimeDiff(s.nxt, Wrap(s.una + window)) < 0 && s.queue != []
    ensures |Admit(k, s, window).queue| < |s.queue|
  {
    hide TimeDiff, Wrap;
    var n := AdmitShape(k, Sender(s.una, Wrap(s.nxt + 1), s.queue[1..], s.buf + [Launch(k, s.queue[0], s.nxt)]),
      window);
  }

  lemma FlushOpens(k: Kcb)
    requires EndpointOk(k) && k.updated && k.snd.buf == [] && k.snd.queue != [] && k.rmtWnd > 0 && k.cc.cwnd >= 1
    ensures |Flush(k).k.snd.queue| < |k.snd.queue|
  {
    hide Sweep, Admit, Pack;
    QueueShorter(k, k.snd, UsableWindow(k));
  }

  lemma FlushQueue(k: Kcb)
    requires k.updated
    ensures |Flush(k).k.snd.queue| <= |k.snd.queue| && Flush(k).k.snd.una == k.snd.una
    ensures |Flush(k).k.snd.queue| == |k.snd.queue| && k.snd.buf == [] ==> Flush(k).k.snd.buf == []
  {
    hide Admit, Pack;
    var n := AdmitShape(k, k.snd, UsableWindow(k));
  }

  /** A flush, or two when the first has yet to set the congestion window, gives the next
      waiting fragment a number. */
  lemma Open(w: World) returns (w': World)
    requires WorldOk(w) && Configured(w) && w.a.k.snd.buf == [] && w.a.k.snd.queue != [] && w.a.k.rmtWnd > 0
    ensures Path(w, w') && Configured(w') && w'.b == w.b && |w'.a.k.snd.queue| < |w.a.k.snd.queue|
    ensures w'.a.k.snd.una == w.a.k.snd.una
  {
    hide Flow, EndpointOk, Flush, TimeDiff, Wrap, Dist, Path;
    var t := w.a.k.current;
    DistZero(t);
    w' := FlushAt(w, t);
    FlushLeaves(Ticked(w.a, t).k);
    FlushQueue(Ticked(w.a, t).k);
    if |w'.a.k.snd.queue| == |w.a.k.snd.queue| {
      var w1 := w';
      SentKept(w, w1);
      t := w1.a.k.current;
      DistZero(t);
      w' := FlushAt(w1, t);
      FlushOpens(Ticked(w1.a, t).k);
      FlushQueue(Ticked(w1.a, t).k);
      PathTrans(w, w1, w');
    }
  }

  /** While the peer's window is taken to be closed nothing is numbered. */
  lemma ClosedWindowHolds(k: Kcb)
    requires EndpointOk(k) && k.rmtWnd == 0
    ensures Flush(k).k.snd.nxt == k.snd.nxt && Flush(k).k.snd.queue == k.snd.queue
  {
    hide Sweep, Pack, TimeDiff, Wrap;
    NothingAdmitted(k.snd.una, k.snd.nxt);
  }

  lemma NothingAdmitted(una: u32, nxt: u32)
    requires Dist(una, nxt) < TWO31
    ensures TimeDiff(nxt, Wrap(una + 0)) >= 0
  {
  }

  /** A datagram all of whose segments report a closed window. */
  predicate ClosedReport(d: bytes, conv: u32) {
    |d| >= OVERHEAD && Decode(d, conv).segs != [] && forall s <- Decode(d, conv).segs :: s.wnd == 0
  }

  lemma {:induction false} TakeAllClosed(p: Progress, ss: seq<Seg>)
    requires ss != [] && forall s <- ss :: s.wnd == 0
    ensures TakeAll(p, ss).k.rmtWnd == 0
    decreases |ss|
  {
    hide ParseData, ParseAck, DropUna, BelowWindowEnd, TimeDiff;
    if |ss| > 1 { TakeAllClosed(TakeSeg(p, ss[0]), ss[1..]); } else { assert ss[1..] == []; }
  }

  lemma InputClosed(k: Kcb, d: bytes)
    requires EndpointOk(k) && ClosedReport(d, k.cfg.conv)
    ensures k.cfg.mss > 0 && Input(k, d).k.rmtWnd == 0
    ensures Input(k, d).k.snd.nxt == k.snd.nxt && Input(k, d).k.snd.queue == k.snd.queue
  {
    hide TakeAll, Decode, Settle, EndpointOk;
    EndpointConfig(k);
    InputKeeps(k, d);
    var p, segs := Progress(k, NoMark), Decode(d, k.cfg.conv).segs;
    TakeAllClosed(p, segs);
    TakeAllKeepsConfig(p, segs);
    SettleRest(TakeAll(p, segs), k.snd.una);
  }

  /** A report arrives, the clock is set to `t`, and the sender flushes; again and again. */
  function Starve(k: Kcb, rounds: seq<(bytes, u32)>): (r: Kcb)
    requires k.cfg.mss > 0
    ensures r.cfg == k.cfg
  {
    if rounds == [] then k
    else
      var k1 := Starve(k, rounds[..|rounds| - 1]);
      var (d, t) := rounds[|rounds| - 1];
      StepKeepsConfig(k1, OpInput(d));
      Flush(Advance(Input(k1, d).k, t).k).k
  }

  /** However often the sender flushes and whatever the time, a network that hands it a report
      of a closed window before each flush keeps it from numbering anything. */
  lemma {:induction false} ReportsStarve(k: Kcb, rounds: seq<(bytes, u32)>)
    requires EndpointOk(k) && k.cfg.mss > 0 && forall r <- rounds :: ClosedReport(r.0, k.cfg.conv)
    ensures var k' := Starve(k, rounds);
            EndpointOk(k') && k'.snd.nxt == k.snd.nxt && k'.snd.queue == k.snd.queue
  {
    hide EndpointOk, ClosedReport, Input, Flush;
    if rounds != [] {
      var front, r := rounds[..|rounds| - 1], rounds[|rounds| - 1];
      ReportsStarve(k, front);
      var k1 := Starve(k, front);
      assert r in rounds;
      InputClosed(k1, r.0);
      InputKeeps(k1, r.0);
      AdvanceKeeps(Input(k1, r.0).k, r.1);
      ClosedWindowHolds(Advance(Input(k1, r.0).k, r.1).k);
      FlushKeeps(Advance(Input(k1, r.0).k, r.1).k);
    }
  }

  lemma AdvanceKeeps(k: Kcb, t: u32)
    requires EndpointOk(k)
    ensures EndpointOk(Advance(k, t).k)
  {
  }

  // ----- reading

  /** Read messages until the next one is incomplete. */
  lemma {:induction false} Drain(w: World) returns (w': World)
    requires WorldOk(w) && Configured(w)
    ensures Path(w, w') && Configured(w') && w'.a == w.a && PeekSize(w'.b.k.rcv.queue) < 0
    ensures InOrder(w.b, w.a.k.cfg.mss) <= InOrder(w'.b, w'.a.k.cfg.mss)
    decreases |w.a.sent| - |w.b.got|
  {
    hide Flow, EndpointOk, Path, PeekSize, Recv, Stream;
    PathHere(w);
    var len := PeekSize(w.b.k.rcv.queue);
    if len < 0 {
      w' := w;
    } else {
      ReadsOne(w.a, w.b, len);
      PathStep(w, w, AtB(Hear(len)));
      var w1 := WorldStep(w, AtB(Hear(len)));
      SentKept(w, w1);
      w' := Drain(w1);
      PathTrans(w, w1, w');
    }
  }

  lemma ReadsOne(x: Peer, y: Peer, len: int)
    requires EndpointOk(y.k) && Flow(x, y) && len == PeekSize(y.k.rcv.queue) >= 0 && y.k.cfg.mss > 0
    ensures var y' := PeerStep(y, x, Hear(len));
            && y'.k.cfg == y.k.cfg && |y.got| < |y'.got| <= |x.sent|
            && InOrder(y, x.k.cfg.mss) <= InOrder(y', x.k.cfg.mss)
  {
    hide Stream, Admissible, RecvHalf, PeekSize, SendHalf, Covered, NetAcks, NetData, AckList, Accepted, Recv;
    PeekNonempty(y.k.rcv.queue);
    RecvKeepsRest(y.k, len);
    var m' := RecvTakes(y.k, len, x.sent, y.got, x.k.cfg, Numbered(x), InOrder(y, x.k.cfg.mss));
  }

  lemma PeekNonempty(queue: seq<Seg>)
    requires PeekSize(queue) >= 0
    ensures queue != []
  {
  }

  /** With every fragment received and no message left to read, everything has been read. */
  lemma Finished(sent: seq<bytes>, got: seq<bytes>, cfg: Config, r: Receiver, n: int, m: int)
    requires cfg.mss > 0 && Admissible(sent, cfg) && got <= sent && PeekSize(r.queue) < 0
    requires m == |Stream(sent, cfg.mss)| == |Stream(got, cfg.mss)| + |r.queue|
    requires RecvHalf(r, Stream(sent, cfg.mss), n, m)
    ensures got == sent
  {
    hide Stream, Fragments, RecvHalf;
    if got != sent {
      var msg := sent[|got|];
      assert msg in sent;
      FragmentsShape(msg, cfg.mss);
      NextInStream(sent, got, cfg);
      NextBoundary(sent, got, cfg, r, n, m);
    }
  }

  // ----- one round, and all of them

  /** What is still to be numbered or received. */
  function Left(w: World): int
    requires Configured(w)
  {
    2 * |Stream(w.a.sent, w.a.k.cfg.mss)| - Numbered(w.a) - InOrder(w.b, w.a.k.cfg.mss)
  }

  lemma RoomToRead(w: World)
    requires WorldOk(w) && Configured(w) && PeekSize(w.b.k.rcv.queue) < 0
    ensures |w.b.k.rcv.queue| < w.b.k.cfg.rcvWnd
  {
    hide Flow, PeekSize;
    if |w.b.k.rcv.queue| == w.b.k.cfg.rcvWnd { FullQueueReadable(w.a, w.b); }
  }

  lemma StillQueued(w: World)
    requires WorldOk(w) && Configured(w) && PeekSize(w.b.k.rcv.queue) < 0 && w.b.got != w.a.sent
    requires InOrder(w.b, w.a.k.cfg.mss) == Numbered(w.a)
    ensures w.a.k.snd.queue != []
  {
    hide Stream, SendHalf, RecvHalf, Covered, NetAcks, NetData, AckList, PeekSize, Admissible;
    if w.a.k.snd.queue == [] {
      Finished(w.a.sent, w.b.got, w.a.k.cfg, w.b.k.rcv, Numbered(w.a), Numbered(w.a));
    }
  }

  /** One round, after the ends have refreshed: something more is numbered or received. */
  lemma Round(w: World) returns (w': World)
    requires WorldOk(w) && Configured(w) && Recent(w, ROUND) && PeekSize(w.b.k.rcv.queue) < 0 && w.b.got != w.a.sent
    ensures Path(w, w') && Configured(w') && Left(w') < Left(w)
  {
    hide Flow, EndpointOk, PeekSize, Stream, Path;
    RoomToRead(w);
    WindowsAgree(w.a, w.b);
    if InOrder(w.b, w.a.k.cfg.mss) < Numbered(w.a) {
      w' := PushNext(w, ROUND);
      SentKept(w, w');
    } else {
      StillQueued(w);
      w' := RoundAnswered(w);
      SentKept(w, w');
      if Left(w') == Left(w) {
        var w2 := w';
        w' := Open(w2);
        SentKept(w2, w');
        PathTrans(w, w2, w');
      }
    }
  }

  /** Either something was numbered or received on the way, or the window stands open. */
  lemma RoundAnswered(w: World) returns (w': World)
    requires WorldOk(w) && Configured(w) && Recent(w, ROUND) && w.a.k.snd.queue != []
    requires InOrder(w.b, w.a.k.cfg.mss) == Numbered(w.a) && |w.b.k.rcv.queue| < w.b.k.cfg.rcvWnd
    ensures Path(w, w') && Configured(w') && Further(w, w')
    ensures Left(w') < Left(w) || (w'.a.k.snd.buf == [] && w'.a.k.rmtWnd > 0 && w'.a.k.snd.queue == w.a.k.snd.queue)
  {
    hide Flow, EndpointOk, Stream, Path;
    if w.a.k.snd.buf == [] && w.a.k.rmtWnd > 0 {
      w' := w;
      PathHere(w);
    } else {
      w' := Nudge(w, ROUND);
      SentKept(w, w');
      if Left(w') == Left(w) {
        var w1 := w';
        QueueStays(w.a, w1.a, w.b, w1.b);
        w' := Answer(w1, ROUND + 2 * WINDOW_MAX);
        SentKept(w1, w');
        PathTrans(w, w1, w');
      }
    }
  }

  /** The sender's queue is what is left of the stream behind its numbers. */
  lemma QueueStays(x: Peer, x': Peer, y: Peer, y': Peer)
    requires Flow(x, y) && Flow(x', y') && x'.sent == x.sent && x'.k.cfg == x.k.cfg && Numbered(x') == Numbered(x)
    ensures x'.k.snd.queue == x.k.snd.queue
  {
    hide Stream, RecvHalf, Covered, NetAcks, NetData, AckList, Admissible, Back, Wrap;
  }

  lemma LeftFalls(w: World, w': World)
    requires WorldOk(w) && WorldOk(w') && Configured(w) && Configured(w') && Further(w, w')
    requires w'.a.sent == w.a.sent && w'.a.k.cfg == w.a.k.cfg
    ensures 0 <= Left(w') <= Left(w)
  {
    hide Stream, Covered, NetAcks, NetData, AckList, Admissible, EndpointOk, Back, Wrap, Ahead;
  }

  /** The stream to the second end can be completed. */
  lemma {:induction false} Complete(w: World) returns (w': World)
    requires WorldOk(w) && Configured(w)
    ensures Path(w, w') && Configured(w') && w'.b.got == w.a.sent
    decreases Left(w)
  {
    hide WorldOk, PeekSize, Left, Stream;
    var w1 := Drain(w);
    LeftFalls(w, w1);
    w' := w1;
    if w1.b.got != w.a.sent {
      var w2 := Refresh(w1);
      LeftFalls(w1, w2);
      var w3 := Round(w2);
      PathTrans(w, w1, w2);
      PathTrans(w, w2, w3);
      w' := Complete(w3);
      PathTrans(w, w3, w');
    }
  }

  lemma {:induction false} CalmIsTimely(w: World, es: seq<Event>, fs: seq<Event>)
    requires Configured(w) && TimelyRun(w, es) && CalmRun(Run(w, es), fs)
    ensures TimelyRun(w, es + fs)
  {
    hide WorldStep, TimelyEvent;
    if fs == [] {
      assert es + fs == es;
    } else {
      var front := fs[..|fs| - 1];
      assert (es + fs)[..|es + fs| - 1] == es + front;
      CalmIsTimely(w, es, front);
      RunConcat(w, es, front);
    }
  }

  /** No deadlock.  After any run, whatever the network lost, repeated, reordered or delayed,
      the connection can go on, without sending anything new, to a state in which both ends
      have read exactly what the other sent. */
  lemma EverythingCanArrive(ca: Config, cb: Config, es: seq<Event>) returns (more: seq<Event>)
    requires Paired(ca, cb) && TimelyRun(Start(ca, cb), es)
    ensures CalmRun(Run(Start(ca, cb), es), more) && TimelyRun(Start(ca, cb), es + more)
    ensures var w, w' := Run(Start(ca, cb), es), Run(Start(ca, cb), es + more);
            && w'.a.sent == w.a.sent && w'.b.got == w.a.sent
            && w'.b.sent == w.b.sent && w'.a.got == w.b.sent
  {
    hide WorldOk, CalmRun, Run, TimelyRun;
    var w := Run(Start(ca, cb), es);
    ReachableWorld(ca, cb, es);
    var w1 := Complete(w);
    FlipOk(w1);
    var v := Complete(Flip(w1));
    FlipPath(Flip(w1), v);
    PathTrans(w, w1, Flip(v));
    GotBounded(Flip(v));
    more :| CalmRun(w, more) && Flip(v) == Run(w, more);
    RunConcat(Start(ca, cb), es, more);
    CalmIsTimely(Start(ca, cb), es, more);
  }

  lemma FlipOk(w: World)
    requires WorldOk(w)
    ensures WorldOk(Flip(w)) && Configured(Flip(w)) && Flip(Flip(w)) == w
  {
  }

  lemma GotBounded(w: World)
    requires WorldOk(w)
    ensures w.b.got <= w.a.sent && w.a.got <= w.b.sent
  {
  }
}
