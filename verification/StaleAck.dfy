/** How far behind the `una` field of a datagram may be: 2^31 fragments and one, exactly. */
module StaleAck {
  import opened Words
  import opened Wire
  import opened Kcp
  import opened SenderInvariant
  import opened ReceiverInvariant
  import opened Endpoint
  import opened Connection
  import opened Recovery
  import opened LongTalk

  /** A cumulative acknowledgement more than half a circle and less than a whole one behind
      every flight empties `snd_buf`, whatever has been received. */
  lemma {:induction false} StaleUnaDrops(buf: seq<Flight>, n: int, u: int)
    requires forall f <- buf :: u + TWO31 < Back(n, f.seg.sn) < u + TWO32
    ensures DropUna(buf, Wrap(u)) == []
  {
    hide Wrap, Back, TimeDiff;
    forall f | f in buf ensures TimeDiff(Wrap(u), f.seg.sn) > 0 {
      BackWord(n, f.seg.sn);
      StaleUnaTest(u, Back(n, f.seg.sn));
    }
    DropAllUna(buf, Wrap(u));
  }

  lemma StaleUnaTest(u: int, i: int)
    requires u + TWO31 < i < u + TWO32
    ensures TimeDiff(Wrap(u), Wrap(i)) > 0
  {
    WrapOfDifference(u, i);
  }

  /** An acknowledgement one circle behind removes the flight that now has its number. */
  lemma StaleAckDrops(s: Sender, cfg: Config, n: int, i: int)
    requires SenderOk(s, cfg) && s.nxt == Wrap(n)
    ensures forall f <- ParseAck(s, Wrap(i)).buf :: Outstanding(s, Wrap(i)) ==> Back(n, f.seg.sn) != i + TWO32
  {
    hide Wrap, Back, TimeDiff, DropAcked;
    if Outstanding(s, Wrap(i)) {
      OutstandingNear(s, cfg, Wrap(i));
      DropAckedComplete(s.una, s.nxt, s.buf, Wrap(i));
      forall f | f in ParseAck(s, Wrap(i)).buf ensures Back(n, f.seg.sn) != i + TWO32 {
        BackWord(n, f.seg.sn);
        WrapAround(i + TWO32);
      }
    }
  }

  lemma OutstandingNear(s: Sender, cfg: Config, sn: u32)
    requires SenderOk(s, cfg) && Outstanding(s, sn)
    ensures Dist(s.una, sn) < TWO31 && Dist(s.una, s.nxt) < TWO31
  {
    hide Wrap;
    TimeDiffByDist(sn, s.una);
  }

  /** One fragment more than half a circle past the kept answer, and that fragment in flight. */
  lemma HalfWay(ca: Config, cb: Config) returns (w: World, h: Datagram)
    requires Paired(ca, cb)
    ensures Line(Start(ca, cb), w) && WorldOk(w) && Configured(w) && w.b.sent == [] && w.a.k.cfg == ca
            && w.b.k.cfg == cb
    ensures h in w.b.net && Answered(h, cb.conv) && Numbered(w.a) == TWO31 + 3 == |Stream(w.a.sent, ca.mss)|
    ensures InOrder(w.b, ca.mss) == TWO31 + 2 && w.b.k.rcv.buf == [] && LeftEdge(w.a) == TWO31 + 2
  {
    hide WorldOk, Path, Line, Kept, Answered, Stream, Wrap, Back;
    var w0 := Start(ca, cb);
    var g, w1;
    w1, g, h := FirstCaught(ca, cb);
    var w2 := Fill(w1, TWO31 + 2);
    LineTrans(w0, w1, w2);
    var w3 := Clear(w2);
    LineTrans(w0, w2, w3);
    CaughtUp(w3);
    SayOne(w3, [0]);
    var w4 := WorldStep(w3, AtA(Say([0])));
    LineTrans(w0, w3, w4);
    LineEnds(w3, w4);
    w := Open(w4);
    LinePath(w0, w4, w);
    LineEnds(w0, w);
    LineEnds(w1, w2);
    LineEnds(w2, w3);
    LineEnds(w3, w4);
    NetKept(w4, w);
    SentKept(w4, w);
    OneByteStream(w.a.sent, ca.mss);
    EdgeStays(w3, w);
  }

  /** The left edge stays where it was when nothing was in flight. */
  lemma EdgeStays(w: World, w': World)
    requires WorldOk(w) && WorldOk(w') && Configured(w) && Configured(w') && w.a.k.snd.buf == []
    requires w'.a.k.snd.una == w.a.k.snd.una && Numbered(w.a) <= Numbered(w'.a) <= Numbered(w.a) + WINDOW_MAX
    ensures LeftEdge(w'.a) == Numbered(w.a)
  {
    hide Stream, Back, Wrap, RecvHalf, Covered, NetData, NetAcks, AckList, Admissible;
    BackWordSelf(Numbered(w.a));
    BackMoves(Numbered(w.a), Numbered(w'.a), w.a.k.snd.una);
  }

  /** A run whose last arrival is one fragment past the limit and loses a fragment for good. */
  lemma StaleUnaLoses(ca: Config, cb: Config, data: int) returns (es: seq<Event>)
    requires Paired(ca, cb) && data == TWO32 - Max(ca.rcvWnd, cb.rcvWnd)
    ensures LagRun(Start(ca, cb), es, data, TWO31 + 2)
    ensures var w := Run(Start(ca, cb), es);
            !NoneLost(w.a, w.b)
  {
    hide WorldOk, Line, LagRun, Run, TimelyRun, LagEvent, WorldStep, NoneLost, Paired;
    var w0 := Start(ca, cb);
    var w, h := HalfWay(ca, cb);
    LineRun(w0, w);
    var fs :| Listens(fs) && TimelyRun(w0, fs) && w == Run(w0, fs);
    StartOk(ca, cb);
    WindowLimits(ca, cb);
    ShortLag(w0, fs, data);
    var j :| 0 <= j < |w.b.net| && w.b.net[j] == h;
    var e := AtA(Arrive(j));
    LastLag(w, h, j, data);
    LagOne(w, e, data, TWO31 + 2);
    LagConcat(w0, fs, [e], data, TWO31 + 2);
    RunConcat(w0, fs, [e]);
    es := fs + [e];
    FragmentLost(w, h, j);
  }

  lemma WindowLimits(ca: Config, cb: Config)
    requires Paired(ca, cb)
    ensures ca.rcvWnd <= WINDOW_MAX && cb.rcvWnd <= WINDOW_MAX
  {
  }

  lemma LineRun(w: World, w': World)
    requires Line(w, w')
    ensures Configured(w) && exists es :: Listens(es) && TimelyRun(w, es) && w' == Run(w, es)
  {
    hide WorldOk, TimelyRun, Run;
  }

  lemma LastLag(w: World, h: Datagram, j: nat, data: int)
    requires WorldOk(w) && Configured(w) && w.b.sent == [] && j < |w.b.net| && w.b.net[j] == h && 0 <= data
    requires h.una == 1 && h.first == 0 && Numbered(w.a) == TWO31 + 3
    ensures LagEvent(w, AtA(Arrive(j)), data, TWO31 + 2)
  {
    hide SendHalf, RecvHalf, Covered, AckList, NetData, Decode, EndpointOk, Stream, TrueAck;
    SilentData(w.b, w.a, h);
    assert AcksTrue(h, w.b.k.cfg.conv, w.b.k.rcv.buf, InOrder(w.b, w.a.k.cfg.mss));
  }

  /** The fragment in flight is dropped, and the receiver does not have it. */
  lemma FragmentLost(w: World, h: Datagram, j: nat)
    requires WorldOk(w) && Configured(w) && j < |w.b.net| && w.b.net[j] == h && Answered(h, w.b.k.cfg.conv)
    requires Numbered(w.a) == TWO31 + 3 && InOrder(w.b, w.a.k.cfg.mss) == TWO31 + 2 && w.b.k.rcv.buf == []
    requires LeftEdge(w.a) == TWO31 + 2
    ensures var w' := WorldStep(w, AtA(Arrive(j)));
            w'.a.k.cfg.mss > 0 && !NoneLost(w'.a, w'.b)
  {
    hide Stream, Decode, Input, Back, Wrap, NetData, NetAcks, AckList, Admissible, Covered, RecvHalf, TimeDiff;
    var n, k := Numbered(w.a), w.a.k;
    FlightsInWindow(k.snd, k.cfg, n);
    WrapSmall(1);
    forall f | f in k.snd.buf ensures TimeDiff(1, f.seg.sn) > 0 {
      BackWord(n, f.seg.sn);
      StaleUnaTest(1, Back(n, f.seg.sn));
    }
    InputClears(k, h.d, 1);
    InputNumbers(k, h.d);
    var w' := WorldStep(w, AtA(Arrive(j)));
    assert Numbered(w'.a) == n;
    assert !InFlight([], n, TWO31 + 2) && !Accepted(w'.b.k.rcv.buf, TWO31 + 2, TWO31 + 2);
  }

  /** While numbers are few, the data of every arrival is within the limit. */
  lemma {:induction false} ShortLag(w: World, es: seq<Event>, data: int)
    requires WorldOk(w) && Configured(w) && TimelyRun(w, es)
    requires |Stream(Run(w, es).a.sent, w.a.k.cfg.mss)| <= data && |Stream(Run(w, es).b.sent, w.b.k.cfg.mss)| <= data
    ensures LagRun(w, es, data, TWO31 + 2) && WorldOk(Run(w, es))
  {
    hide WorldOk, WorldStep, Stream, TimelyEvent, LagEvent;
    if es != [] {
      var front, e := es[..|es| - 1], es[|es| - 1];
      var w1 := Run(w, front);
      MoreSent(w1, e);
      ShortLag(w, front, data);
      ShortLags(w1, e, data);
      StepKeepsWorld(w1, e);
    }
  }

  lemma MoreSent(w: World, e: Event)
    requires Configured(w)
    ensures |Stream(w.a.sent, w.a.k.cfg.mss)| <= |Stream(WorldStep(w, e).a.sent, w.a.k.cfg.mss)|
    ensures |Stream(w.b.sent, w.b.k.cfg.mss)| <= |Stream(WorldStep(w, e).b.sent, w.b.k.cfg.mss)|
  {
    hide PeerStep, Stream;
    match e
    case AtA(m) => SentGrows(w.a, w.b, m, w.a.k.cfg.mss);
    case AtB(m) => SentGrows(w.b, w.a, m, w.b.k.cfg.mss);
  }

  lemma ShortLags(w: World, e: Event, data: int)
    requires WorldOk(w) && Configured(w) && TimelyEvent(w, e)
    requires |Stream(w.a.sent, w.a.k.cfg.mss)| <= data && |Stream(w.b.sent, w.b.k.cfg.mss)| <= data
    ensures LagEvent(w, e, data, TWO31 + 2)
  {
    hide EndpointOk, Stream, Flow;
    match e
    case AtA(m) => if m.Arrive? && m.j < |w.b.net| { DataNotNegative(w.b, w.a, w.b.net[m.j]); }
    case AtB(m) => if m.Arrive? && m.j < |w.a.net| { DataNotNegative(w.a, w.b, w.a.net[m.j]); }
  }

  lemma DataNotNegative(x: Peer, y: Peer, g: Datagram)
    requires Flow(x, y) && g in x.net
    ensures 0 <= g.first && Numbered(x) <= |Stream(x.sent, x.k.cfg.mss)|
  {
    hide SendHalf, RecvHalf, Covered, AckList, NetAcks, Decode, Stream;
    assert DataTrue(g, x.k.cfg.conv, Stream(x.sent, x.k.cfg.mss), Numbered(x));
  }

  /** No fragment is ever lost, whatever runs within the limits do. */
  ghost predicate NeverLoses(ca: Config, cb: Config, data: int, una: int)
    requires Paired(ca, cb)
  {
    forall es :: LagRun(Start(ca, cb), es, data, una) ==>
      var w := Run(Start(ca, cb), es);
      NoneLost(w.a, w.b) && NoneLost(w.b, w.a)
  }

  /** The exact limit on `una`: with the data of arrivals within its own limit, nothing is lost
      on any run if and only if no `una` is more than 2^31 and one behind. */
  lemma UnaLimitExactly(ca: Config, cb: Config, una: int)
    requires Paired(ca, cb)
    ensures NeverLoses(ca, cb, TWO32 - Max(ca.rcvWnd, cb.rcvWnd), una) <==> una <= TWO31 + 1
  {
    hide Run, LagRun, NoneLost, TimelyRun;
    var data := TWO32 - Max(ca.rcvWnd, cb.rcvWnd);
    if una <= TWO31 + 1 {
      forall es | LagRun(Start(ca, cb), es, data, una)
        ensures var w := Run(Start(ca, cb), es); NoneLost(w.a, w.b) && NoneLost(w.b, w.a) {
        LagIsTimely(Start(ca, cb), es, data, una);
        NothingLost(ca, cb, es);
      }
    } else {
      var es := StaleUnaLoses(ca, cb, data);
      LagWidens(Start(ca, cb), es, data, TWO31 + 2, una);
    }
  }

  lemma {:induction false} LagWidens(w: World, es: seq<Event>, data: int, una: int, una': int)
    requires Configured(w) && LagRun(w, es, data, una) && una <= una'
    ensures LagRun(w, es, data, una')
  {
    hide Run;
    if es != [] { LagWidens(w, es[..|es| - 1], data, una, una'); }
  }
}
