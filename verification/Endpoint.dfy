/** The invariant of one endpoint, kept by every operation on any input bytes, and what it
    means for fragmentation, datagram packing, timers and the congestion window. */
module Endpoint {
  import opened Words
  import opened Wire
  import opened Kcp
  import opened SenderInvariant
  import opened ReceiverInvariant
  import Congestion
  import Rtt

  // ----- fragmentation

  function Cargo(frags: seq<Frag>): bytes {
    if frags == [] then [] else frags[0].data + Cargo(frags[1..])
  }

  lemma CountStep(len: nat, mss: u32)
    requires 0 < mss < len
    ensures FragmentCount(len, mss) == 1 + FragmentCount(len - mss, mss)
  {
    if len - mss <= mss {
      assert (len + mss - 1) / mss == 2 by { QuotientIs(len + mss - 1, mss, 2); }
    } else {
      assert (len + mss - 1) / mss == 1 + (len - 1) / mss by {
        DivMul(len - 1, mss);
        QuotientIs(len + mss - 1, mss, 1 + (len - 1) / mss);
      }
    }
  }

  lemma DivMul(x: int, m: int)
    requires m > 0
    ensures x / m * m <= x < x / m * m + m
  {
  }

  lemma QuotientIs(x: int, m: int, q: int)
    requires m > 0 && q * m <= x < q * m + m
    ensures x / m == q
  {
    DivMul(x, m);
    if x / m < q {
      Congestion.MulLe(x / m + 1, q, m);
      Congestion.Distribute(x / m, 1, m);
    }
    if x / m > q {
      Congestion.MulLe(q + 1, x / m, m);
      Congestion.Distribute(q, 1, m);
    }
  }

  /** Fragments number down to zero, none exceeds the segment size, and joined together they
      are the message. */
  lemma {:induction false} FragmentsShape(msg: bytes, mss: u32)
    requires mss > 0 && |msg| < TWO31
    ensures var f := Fragments(msg, mss);
            && |f| == FragmentCount(|msg|, mss) && 0 < |f| <= |msg| + 1
            && (forall i :: 0 <= i < |f| ==> f[i].frg == |f| - 1 - i && |f[i].data| <= mss)
            && Cargo(f) == msg
    decreases |msg|
  {
    if |msg| > mss {
      FragmentsShape(msg[mss..], mss);
      CountStep(|msg|, mss);
      var f := Fragments(msg, mss);
      var rest := Fragments(msg[mss..], mss);
      forall i | 1 <= i < |f| ensures f[i] == rest[i - 1] {}
      assert f[1..] == rest;
      assert msg == msg[..mss] + msg[mss..];
    } else {
      assert Cargo([Frag(0, msg)]) == msg + Cargo([]);
    }
  }

  // ----- the invariant

  lemma CountLimit(len: nat, mss: u32)
    requires mss > 0
    ensures FragmentCount(len, mss) < WND_RCV <==> len <= 127 * mss
  {
    if len > mss {
      var q := (len + mss - 1) / mss;
      DivMul(len + mss - 1, mss);
      if q <= 127 { Congestion.MulLe(q, 127, mss); } else { Congestion.MulLe(128, q, mss); }
    } else {
      Congestion.MulLe(1, 127, mss);
    }
  }

  /** `ikcp_send` in message mode, exactly: a message of at most 127 segments' worth of bytes is
      accepted, and fragments that join to it are appended; a longer one is refused with -2 and
      changes nothing. */
  lemma SendExactly(k: Kcb, msg: bytes) returns (frags: seq<Frag>)
    requires k.cfg.mss > 0 && |msg| < TWO31
    ensures var r := Step(k, OpSend(msg));
            if |msg| <= 127 * k.cfg.mss then
              && r.code == |msg| && r.k == k.(snd := k.snd.(queue := k.snd.queue + frags))
              && Cargo(frags) == msg && 0 < |frags| <= 127
              && (forall i :: 0 <= i < |frags| ==> frags[i].frg == |frags| - 1 - i && |frags[i].data| <= k.cfg.mss)
              && (|frags| == 1 || (|frags| - 1) * k.cfg.mss < |msg|)
            else r.code == -2 && r.k == k
  {
    hide Fragments, FragmentCount;
    CountLimit(|msg|, k.cfg.mss);
    FragmentsShape(msg, k.cfg.mss);
    CountTight(|msg|, k.cfg.mss);
    frags := Fragments(msg, k.cfg.mss);
  }

  lemma CountTight(len: nat, mss: u32)
    requires mss > 0
    ensures FragmentCount(len, mss) == 1 || (FragmentCount(len, mss) - 1) * mss < len
  {
    if len > mss {
      var q := (len + mss - 1) / mss;
      DivMul(len + mss - 1, mss);
      assert (q - 1) * mss == q * mss - mss;
    }
  }

  predicate FragOk(f: Frag, cfg: Config) {
    f.frg < WND_RCV && |f.data| <= cfg.mss
  }

  predicate FlightOk(f: Flight, cfg: Config) {
    f.seg.conv == cfg.conv && f.seg.cmd == CMD_PUSH && f.seg.frg < WND_RCV && |f.seg.data| <= cfg.mss
  }

  predicate CargoOk(s: Sender, cfg: Config) {
    && (forall f <- s.queue :: FragOk(f, cfg))
    && (forall f <- s.buf :: FlightOk(f, cfg))
  }

  predicate Tuned(cfg: Config) {
    cfg.mtu <= 0xFFFF && 0 < cfg.fastResend <= 0x8000
  }

  predicate EndpointOk(k: Kcb) {
    && ValidConfig(k.cfg)
    && SenderOk(k.snd, k.cfg)
    && CargoOk(k.snd, k.cfg)
    && ReceiverOk(k.rcv, k.cfg.rcvWnd)
    && k.rmtWnd <= WINDOW_MAX
    && RTO_NDL <= k.rtt.rto <= Rtt.RTO_MAX
    && (Tuned(k.cfg) ==> Congestion.Consistent(k.cc, k.cfg.mss))
    && TimersOk(k)
  }

  // ----- retransmission timers

  /** 60000 ms, lengthened by half at every transmission after the first. */
  function RtoCeil(xmit: nat): nat {
    if xmit <= 1 then Rtt.RTO_MAX else RtoCeil(xmit - 1) + RtoCeil(xmit - 1) / 2
  }

  function Geometric(n: nat): real {
    if n == 0 then 1.0 else 1.5 * Geometric(n - 1)
  }

  lemma {:induction false} RtoCeilGeometric(xmit: nat)
    requires xmit >= 1
    ensures RtoCeil(xmit) as real <= 60000.0 * Geometric(xmit - 1)
  {
    if xmit > 1 { RtoCeilGeometric(xmit - 1); }
  }

  lemma {:induction false} RtoCeilMonotone(a: nat, b: nat)
    requires a <= b
    ensures RtoCeil(a) <= RtoCeil(b)
    decreases b
  {
    if a < b { RtoCeilMonotone(a, b - 1); }
  }

  lemma RtoCeilFourOn(n: nat)
    requires n >= 1
    ensures RtoCeil(n + 4) <= 6 * RtoCeil(n)
  {
    assert RtoCeil(n + 1) == RtoCeil(n) + RtoCeil(n) / 2;
    assert RtoCeil(n + 2) == RtoCeil(n + 1) + RtoCeil(n + 1) / 2;
    assert RtoCeil(n + 3) == RtoCeil(n + 2) + RtoCeil(n + 2) / 2;
    assert RtoCeil(n + 4) == RtoCeil(n + 3) + RtoCeil(n + 3) / 2;
  }

  lemma RtoCeilFirst()
    ensures RtoCeil(0) == RtoCeil(1) == Rtt.RTO_MAX
  {
  }

  /** Up to the dead-link count the ceiling, and so every timeout, is far below 2^31. */
  lemma RtoCeilFits(xmit: nat)
    requires xmit <= 20
    ensures Rtt.RTO_MAX <= RtoCeil(xmit) <= 466560000 < TWO31
  {
    hide RtoCeil;
    RtoCeilFirst();
    var one: nat :| one == 1;
    RtoCeilMonotone(0, xmit);
    RtoCeilMonotone(xmit, one + 20);
    RtoCeilFourOn(one);
    RtoCeilFourOn(one + 4);
    RtoCeilFourOn(one + 8);
    RtoCeilFourOn(one + 12);
    RtoCeilFourOn(one + 16);
  }

  predicate TimerOk(f: Flight) {
    1 <= f.xmit < 20 && RTO_NDL <= f.rto <= RtoCeil(f.xmit)
  }

  /** With nodelay = 1, the setting the repository uses, and while the link is not dead. */
  predicate TimersOk(k: Kcb) {
    k.cfg.nodelay == 1 && !k.dead ==> forall f <- k.snd.buf :: TimerOk(f)
  }

  /** What a sweep leaves: sent at least once, the timeout bounded by the geometric ceiling,
      and the deadline strictly after the current time even when the clock wraps. */
  predicate Scheduled(k: Kcb, f: Flight) {
    1 <= f.xmit <= 20 && RTO_NDL <= f.rto <= RtoCeil(f.xmit) && TimeDiff(k.current, f.resendts) < 0
  }

  lemma ResendTimer(k: Kcb, f: Flight)
    requires k.cfg.nodelay == 1 && RTO_NDL <= k.rtt.rto <= Rtt.RTO_MAX
    requires f.xmit == 0 || TimerOk(f)
    ensures Scheduled(k, Resend(k, f))
    ensures Decide(k, f).Hold? ==> f.xmit < 20
  {
    match Decide(k, f)
    case Hold =>
    case First => ResendFirst(k, f);
    case Timeout => ResendTimeout(k, f);
    case Fast => ResendFast(k, f);
  }

  lemma ResendFirst(k: Kcb, f: Flight)
    requires k.cfg.nodelay == 1 && RTO_NDL <= k.rtt.rto <= Rtt.RTO_MAX && Decide(k, f).First?
    ensures Scheduled(k, Resend(k, f))
  {
    hide TimeDiff, Wrap, Backoff;
    WrapSmall(k.rtt.rto);
    WrapSmall(f.xmit + 1);
    RtoCeilFirst();
    AheadOf(k.current, k.rtt.rto);
    assert Resend(k, f).resendts == Wrap(k.current + k.rtt.rto);
  }

  lemma ResendTimeout(k: Kcb, f: Flight)
    requires k.cfg.nodelay == 1 && TimerOk(f) && Decide(k, f).Timeout?
    ensures Scheduled(k, Resend(k, f))
  {
    hide TimeDiff, Wrap, Backoff;
    BackoffBound(k, f);
    AheadOf(k.current, f.rto + f.rto / 2);
    NextXmit(f);
  }

  lemma ResendFast(k: Kcb, f: Flight)
    requires k.cfg.nodelay == 1 && TimerOk(f) && Decide(k, f).Fast?
    ensures Scheduled(k, Resend(k, f))
  {
    hide TimeDiff, Wrap, Backoff;
    BackoffBound(k, f);
    AheadOf(k.current, f.rto);
    NextXmit(f);
  }

  lemma NextXmit(f: Flight)
    requires TimerOk(f)
    ensures Wrap(f.xmit + 1) == f.xmit + 1
  {
  }

  lemma BackoffBound(k: Kcb, f: Flight)
    requires k.cfg.nodelay == 1 && TimerOk(f)
    ensures Wrap(f.rto + Backoff(k, f.rto)) == f.rto + f.rto / 2 < TWO31
    ensures 0 < f.rto
    ensures f.rto <= f.rto + f.rto / 2 <= RtoCeil(f.xmit + 1)
  {
    RtoCeilFits(f.xmit);
    SignedSmall(f.rto);
    WrapSmall(f.rto + f.rto / 2);
  }

  lemma AheadOf(t: u32, rto: u32)
    requires 0 < rto < TWO31
    ensures TimeDiff(t, Wrap(t + rto)) == 0 - rto as int
  {
  }

  // ----- every operation keeps the invariant

  lemma SendKeeps(k: Kcb, msg: bytes)
    requires EndpointOk(k) && |msg| < TWO31
    ensures EndpointOk(Send(k, msg))
  {
    FragmentsShape(msg, k.cfg.mss);
    var f := Fragments(msg, k.cfg.mss);
    forall i | 0 <= i < |f| && Sendable(msg, k.cfg) ensures FragOk(f[i], k.cfg) {}
  }

  lemma RecvKeeps(k: Kcb, len: int)
    requires EndpointOk(k)
    ensures EndpointOk(Recv(k, len).k)
  {
    SpanBound(k.rcv.queue);
    ConsumeKeepsReceiver(k.rcv, k.cfg.rcvWnd, 0);
    assert k.rcv.queue[0..] == k.rcv.queue;
    ConsumeKeepsReceiver(k.rcv, k.cfg.rcvWnd, Span(k.rcv.queue));
  }

  /** The same segment with the same retransmission state, except for its fast-ack count. */
  predicate SameButCount(f: Flight, g: Flight) {
    g == f.(fastack := g.fastack)
  }

  /** A buffer thinned or re-counted, its members otherwise as they were. */
  predicate Descends(b: seq<Flight>, b': seq<Flight>) {
    forall g <- b' :: exists f <- b :: SameButCount(f, g)
  }

  lemma DescendsTrans(a: seq<Flight>, b: seq<Flight>, c: seq<Flight>)
    requires Descends(a, b) && Descends(b, c)
    ensures Descends(a, c)
  {
    forall h | h in c ensures exists f <- a :: SameButCount(f, h) {
      var g :| g in b && SameButCount(g, h);
      var f :| f in a && SameButCount(f, g);
      assert SameButCount(f, h);
    }
  }

  lemma DropUnaDescends(b: seq<Flight>, una: u32)
    ensures Descends(b, DropUna(b, una))
  {
    var n := DropUnaSuffix(b, una);
    forall g | g in b[n..] ensures exists f <- b :: SameButCount(f, g) {
      assert SameButCount(g, g);
    }
  }

  lemma ParseAckDescends(s: Sender, sn: u32)
    ensures Descends(s.buf, ParseAck(s, sn).buf)
  {
    var at := DropAckedCut(s.buf, sn);
    forall g | g in ParseAck(s, sn).buf ensures exists f <- s.buf :: SameButCount(f, g) {
      assert g in s.buf && SameButCount(g, g);
    }
  }

  lemma FastackDescends(s: Sender, sn: u32, ts: u32)
    ensures Descends(s.buf, ParseFastack(s, sn, ts).buf)
  {
    var b' := ParseFastack(s, sn, ts).buf;
    CountSkippedEffect(s.buf, sn, ts);
    forall g | g in b' ensures exists f <- s.buf :: SameButCount(f, g) {
      var j :| 0 <= j < |b'| && b'[j] == g;
      assert s.buf[j] in s.buf && SameButCount(s.buf[j], g);
    }
  }

  lemma DescendsKeepsFlights(k: Kcb, b': seq<Flight>)
    requires Descends(k.snd.buf, b') && CargoOk(k.snd, k.cfg) && TimersOk(k)
    ensures forall g <- b' :: FlightOk(g, k.cfg)
    ensures k.cfg.nodelay == 1 && !k.dead ==> forall g <- b' :: TimerOk(g)
  {
    forall g | g in b' ensures FlightOk(g, k.cfg) && (k.cfg.nodelay == 1 && !k.dead ==> TimerOk(g)) {
      var f :| f in k.snd.buf && SameButCount(f, g);
    }
  }

  lemma DescendsSelf(b: seq<Flight>)
    ensures Descends(b, b)
  {
    forall g | g in b ensures exists f <- b :: SameButCount(f, g) {
      assert SameButCount(g, g);
    }
  }

  /** What one segment, from anywhere, may do to the sending half. */
  predicate SenderStep(k: Kcb, k': Kcb) {
    EndpointOk(k') && Advanced(k.snd, k'.snd) && Descends(k.snd.buf, k'.snd.buf)
    && k'.snd.queue == k.snd.queue && k'.cfg == k.cfg && k'.dead == k.dead && k'.cc == k.cc
    && k'.updated == k.updated
  }

  lemma SenderStepTrans(a: Kcb, b: Kcb, c: Kcb)
    requires SenderStep(a, b) && SenderStep(b, c)
    ensures SenderStep(a, c)
  {
    AdvancedTrans(a.snd, b.snd, c.snd);
    DescendsTrans(a.snd.buf, b.snd.buf, c.snd.buf);
  }

  lemma HeaderKeeps(k: Kcb, s: Seg)
    requires EndpointOk(k) && s.wnd <= WINDOW_MAX
    ensures SenderStep(k, TakeHeader(k, s))
  {
    UnaKeepsSender(k.snd, k.cfg, s.una);
    DropUnaDescends(k.snd.buf, s.una);
    DescendsKeepsFlights(k, DropUna(k.snd.buf, s.una));
  }

  lemma TakeAckKeeps(p: Progress, s: Seg)
    requires EndpointOk(p.k)
    ensures SenderStep(p.k, TakeAck(p, s).k)
  {
    AckKeepsSender(p.k.snd, p.k.cfg, s.sn);
    ParseAckDescends(p.k.snd, s.sn);
    DescendsKeepsFlights(p.k, ParseAck(p.k.snd, s.sn).buf);
    Rtt.UpdateTimeoutBounds(p.k.rtt, TimeDiff(p.k.current, s.ts), p.k.cfg.interval, p.k.cfg.minRto);
  }

  lemma TakePushKeeps(k: Kcb, s: Seg)
    requires EndpointOk(k)
    ensures SenderStep(k, TakePush(k, s))
  {
    ParseDataKeepsReceiver(k.rcv, k.cfg.rcvWnd, s);
    DescendsSelf(k.snd.buf);
  }

  lemma TakeSegKeeps(p: Progress, s: Seg)
    requires EndpointOk(p.k) && s.wnd <= WINDOW_MAX
    ensures SenderStep(p.k, TakeSeg(p, s).k)
  {
    var k := TakeHeader(p.k, s);
    HeaderKeeps(p.k, s);
    if s.cmd == CMD_ACK {
      TakeAckKeeps(Progress(k, p.mark), s);
      SenderStepTrans(p.k, k, TakeSeg(p, s).k);
    } else if s.cmd == CMD_PUSH {
      TakePushKeeps(k, s);
      SenderStepTrans(p.k, k, TakeSeg(p, s).k);
    }
  }

  lemma {:induction false} TakeAllKeeps(p: Progress, ss: seq<Seg>)
    requires EndpointOk(p.k) && forall s <- ss :: s.wnd <= WINDOW_MAX
    ensures SenderStep(p.k, TakeAll(p, ss).k)
    decreases |ss|
  {
    if ss == [] {
      DescendsSelf(p.k.snd.buf);
    } else {
      TakeSegKeeps(p, ss[0]);
      TakeAllKeeps(TakeSeg(p, ss[0]), ss[1..]);
      SenderStepTrans(p.k, TakeSeg(p, ss[0]).k, TakeAll(p, ss).k);
    }
  }

  lemma {:induction false} DecodedWindows(d: bytes, conv: u32)
    ensures forall s <- Decode(d, conv).segs :: s.wnd <= WINDOW_MAX && s.conv == conv && s.frg < 256 && KnownCmd(s.cmd)
    decreases |d|
  {
    if |d| >= OVERHEAD && Get32(d, 20) <= |d| - OVERHEAD {
      DecodedWindows(d[OVERHEAD + Get32(d, 20)..], conv);
    }
  }

  lemma MssPositive(cfg: Config)
    ensures ValidConfig(cfg) ==> cfg.mss > 0
    ensures ValidConfig(cfg) && Tuned(cfg) ==> cfg.mss <= 65511
  {
  }

  lemma SettleKeeps(p: Progress, prevUna: u32)
    requires EndpointOk(p.k)
    ensures p.k.cfg.mss > 0
    ensures var k' := Settle(p, prevUna);
            && EndpointOk(k') && k'.snd.una == p.k.snd.una && k'.snd.nxt == p.k.snd.nxt
            && Descends(p.k.snd.buf, k'.snd.buf) && SameCargoes(p.k.snd.buf, k'.snd.buf)
            && k'.snd.queue == p.k.snd.queue && k'.rcv == p.k.rcv && k'.acks == p.k.acks
            && k'.cfg == p.k.cfg && k'.dead == p.k.dead && k'.updated == p.k.updated
            && (Tuned(p.k.cfg) ==> p.k.cc.cwnd <= k'.cc.cwnd <= p.k.cc.cwnd + 2)
  {
    hide TimeDiff, Wrap, SenderOk, CountSkipped, Congestion.Grow, Congestion.Consistent, ReceiverOk, ValidConfig,
      Tuned, TimerOk, FlightOk;
    MssPositive(p.k.cfg);
    DescendsSelf(p.k.snd.buf);
    if p.mark.Mark? {
      FastackKeepsSender(p.k.snd, p.k.cfg, p.mark.sn, p.mark.ts);
      FastackDescends(p.k.snd, p.mark.sn, p.mark.ts);
      DescendsKeepsFlights(p.k, ParseFastack(p.k.snd, p.mark.sn, p.mark.ts).buf);
    }
    if Tuned(p.k.cfg) { Congestion.GrowConsistent(p.k.cc, p.k.rmtWnd, p.k.cfg.mss); }
  }

  /** A datagram of arbitrary bytes keeps the invariant, never moves the left edge of the
      send window backwards, adds nothing to the send buffer, and opens the congestion
      window by at most two segments. */
  lemma InputKeeps(k: Kcb, d: bytes)
    requires EndpointOk(k)
    ensures var k' := Input(k, d).k;
            && EndpointOk(k') && Advanced(k.snd, k'.snd) && Descends(k.snd.buf, k'.snd.buf)
            && k'.snd.queue == k.snd.queue && k'.cfg == k.cfg && k'.dead == k.dead && k'.updated == k.updated
            && (Tuned(k.cfg) ==> k.cc.cwnd <= k'.cc.cwnd <= k.cc.cwnd + 2)
  {
    DescendsSelf(k.snd.buf);
    if |d| >= OVERHEAD {
      var dec := Decode(d, k.cfg.conv);
      DecodedWindows(d, k.cfg.conv);
      TakeAllKeeps(Progress(k, NoMark), dec.segs);
      var p := TakeAll(Progress(k, NoMark), dec.segs);
      if dec.code == 0 {
        SettleKeeps(p, k.snd.una);
        DescendsTrans(k.snd.buf, p.k.snd.buf, Input(k, d).k.snd.buf);
      }
    }
  }

  /** Admission adds only fragments of the queue, not yet sent. */
  lemma AdmittedMembers(k: Kcb)
    ensures forall f <- Admitted(k).buf :: f in k.snd.buf || exists g <- k.snd.queue :: f == Launch(k, g, f.seg.sn)
    ensures forall g <- Admitted(k).queue :: g in k.snd.queue
  {
    var n := AdmitShape(k, k.snd, UsableWindow(k));
    var added := Launched(k, k.snd.queue[..n], k.snd.nxt);
    forall f | f in added ensures exists g <- k.snd.queue :: f == Launch(k, g, f.seg.sn) {
      var i :| 0 <= i < n && f == added[i];
      assert k.snd.queue[i] in k.snd.queue;
    }
  }

  lemma AdmittedCargo(k: Kcb)
    requires CargoOk(k.snd, k.cfg)
    ensures CargoOk(Admitted(k), k.cfg)
  {
    AdmittedMembers(k);
    forall f | f in Admitted(k).buf ensures FlightOk(f, k.cfg) {
      if f !in k.snd.buf {
        var g :| g in k.snd.queue && f == Launch(k, g, f.seg.sn);
        assert FragOk(g, k.cfg);
      }
    }
  }

  lemma AdmittedTimers(k: Kcb)
    requires TimersOk(k) && k.cfg.nodelay == 1 && !k.dead
    ensures forall f <- Admitted(k).buf :: f.xmit == 0 || TimerOk(f)
  {
    AdmittedMembers(k);
  }

  lemma SweptMember(k: Kcb, buf: seq<Flight>, g: Flight) returns (f: Flight)
    requires g in Sweep(k, buf).buf
    ensures f in buf && g == Resend(k, f)
    ensures !Sweep(k, buf).dead ==> Decide(k, f).Hold? || g.xmit < k.cfg.deadLink
  {
    SweepPointwise(k, buf);
    var i :| 0 <= i < |buf| && g == Sweep(k, buf).buf[i];
    f := buf[i];
  }

  lemma SweepCargo(k: Kcb, s: Sender)
    requires CargoOk(s, k.cfg)
    ensures CargoOk(s.(buf := Sweep(k, s.buf).buf), k.cfg)
  {
    forall g | g in Sweep(k, s.buf).buf ensures FlightOk(g, k.cfg) {
      var f := SweptMember(k, s.buf, g);
      assert FlightOk(f, k.cfg);
    }
  }

  /** After a flush with nodelay = 1 on a live link every segment in flight has been sent and
      its deadline is strictly after the current time. */
  lemma FlushTimers(k: Kcb)
    requires EndpointOk(k) && k.updated && k.cfg.nodelay == 1 && !k.dead
    ensures TimersOk(Flush(k).k)
    ensures forall f <- Flush(k).k.snd.buf :: Scheduled(k, f)
  {
    AdmittedTimers(k);
    forall g | g in Flush(k).k.snd.buf ensures Scheduled(k, g) && (!Flush(k).k.dead ==> TimerOk(g)) {
      var f := SweptMember(k, Admitted(k).buf, g);
      ResendTimer(k, f);
    }
  }

  lemma FlushKeepsSender(k: Kcb)
    requires EndpointOk(k) && k.updated
    ensures SenderOk(Flush(k).k.snd, k.cfg) && CargoOk(Flush(k).k.snd, k.cfg)
  {
    AdmitKeepsSender(k, k.snd, k.cfg, UsableWindow(k));
    AdmittedCargo(k);
    SweepCargo(k, Admitted(k));
    SweepSameCargo(k, Admitted(k).buf);
    SameCargoKeepsSender(Admitted(k), k.cfg, Sweep(k, Admitted(k).buf).buf);
  }

  lemma FlushKeepsWindow(k: Kcb)
    requires EndpointOk(k) && k.updated && Tuned(k.cfg)
    ensures Congestion.Consistent(Flush(k).k.cc, k.cfg.mss) && Flush(k).k.cc.cwnd >= 1
  {
    AdmitKeepsSender(k, k.snd, k.cfg, UsableWindow(k));
    var s := Admitted(k);
    var sw := Sweep(k, s.buf);
    Congestion.ReactConsistent(k.cc, sw.fasts > 0, sw.timeouts > 0, Dist(s.una, s.nxt), UsableWindow(k),
                               Resent(k.cfg), k.cfg.mss);
  }

  /** A flush keeps the invariant and leaves a congestion window of at least one segment. */
  lemma FlushKeeps(k: Kcb)
    requires EndpointOk(k)
    ensures EndpointOk(Flush(k).k)
    ensures k.updated && Tuned(k.cfg) ==> Flush(k).k.cc.cwnd >= 1
  {
    if k.updated {
      FlushKeepsSender(k);
      if Tuned(k.cfg) { FlushKeepsWindow(k); }
      if k.cfg.nodelay == 1 && !k.dead { FlushTimers(k); }
    }
  }

  lemma UpdateKeeps(k: Kcb, t: u32)
    requires EndpointOk(k)
    ensures EndpointOk(Update(k, t).k)
  {
    var a := Advance(k, t);
    assert EndpointOk(a.k);
    if a.flush { FlushKeeps(a.k); }
  }

  lemma StepKeeps(k: Kcb, op: Op)
    requires EndpointOk(k) && (op.OpSend? ==> |op.msg| < TWO31)
    ensures EndpointOk(Step(k, op).k)
  {
    hide EndpointOk, Input, Flush, Update, Recv, Fragments;
    match op
    case OpSend(msg) => SendKeeps(k, msg);
    case OpRecv(len) => RecvKeeps(k, len);
    case OpInput(d) => InputKeeps(k, d);
    case OpFlush => FlushKeeps(k);
    case OpUpdate(t) => UpdateKeeps(k, t);
  }

  function RunOps(k: Kcb, ops: seq<Op>): Kcb
    requires k.cfg.mss > 0
    decreases |ops|
  {
    if ops == [] then k else
      assert Step(k, ops[0]).k.cfg == k.cfg by { StepKeepsConfig(k, ops[0]); }
      RunOps(Step(k, ops[0]).k, ops[1..])
  }

  lemma StepKeepsConfig(k: Kcb, op: Op)
    requires k.cfg.mss > 0
    ensures Step(k, op).k.cfg == k.cfg
  {
    if op.OpInput? { TakeAllKeepsConfig(Progress(k, NoMark), Decode(op.d, k.cfg.conv).segs); }
  }

  /** Every state reachable from a fresh endpoint, whatever bytes it is fed, is well formed. */
  lemma {:induction false} RunKeeps(k: Kcb, ops: seq<Op>)
    requires EndpointOk(k) && forall op <- ops :: op.OpSend? ==> |op.msg| < TWO31
    ensures EndpointOk(RunOps(k, ops))
    decreases |ops|
  {
    if ops != [] {
      StepKeeps(k, ops[0]);
      StepKeepsConfig(k, ops[0]);
      RunKeeps(Step(k, ops[0]).k, ops[1..]);
    }
  }

  lemma FreshOk(cfg: Config)
    requires ValidConfig(cfg)
    ensures EndpointOk(Fresh(cfg))
  {
  }

  lemma ReachableOk(cfg: Config, ops: seq<Op>)
    requires ValidConfig(cfg) && forall op <- ops :: op.OpSend? ==> |op.msg| < TWO31
    ensures EndpointOk(RunOps(Fresh(cfg), ops))
  {
    FreshOk(cfg);
    RunKeeps(Fresh(cfg), ops);
  }

  // ----- what a flush emits

  /** Every datagram of a flush is non-empty, within the MTU and decoded by the peer with
      result 0, and the peer reads exactly the flushed segments in order. */
  lemma FlushRoundTrip(k: Kcb)
    requires EndpointOk(k)
    ensures forall d <- Flush(k).out :: CleanDatagram(d, k.cfg.conv, k.cfg.mtu)
    ensures DecodeEach(Flush(k).out, k.cfg.conv) == Flush(k).segs
  {
    if k.updated {
      forall s | s in FlushSegs(k) ensures Fits(s, k.cfg.conv, k.cfg.mtu) {
        if s in Sweep(k, Admitted(k).buf).out {
          DataSegFits(k, s);
        } else {
          ControlSegFits(k, s);
        }
      }
      PackRoundTrip(FlushSegs(k), k.cfg.conv, k.cfg.mtu);
    }
  }

  lemma ControlSegFits(k: Kcb, s: Seg)
    requires ValidConfig(k.cfg) && s in AckSegs(k, k.acks) + ProbeSegs(k, Probing(k.probe, k.rmtWnd, k.current))
    ensures Fits(s, k.cfg.conv, k.cfg.mtu)
  {
  }

  /** A data segment of a flush carries the number, fragment count and payload of a member of
      the admitted buffer. */
  lemma SweptOut(k: Kcb, buf: seq<Flight>, s: Seg) returns (f: Flight)
    requires s in Sweep(k, buf).out
    ensures f in buf && s == Stamp(k, f.seg)
  {
    SweepPointwise(k, buf);
    var i :| 0 <= i < |buf| && !Decide(k, buf[i]).Hold? && s == Resend(k, buf[i]).seg;
    f := buf[i];
  }

  lemma DataSegFits(k: Kcb, s: Seg)
    requires ValidConfig(k.cfg) && CargoOk(k.snd, k.cfg) && s in Sweep(k, Admitted(k).buf).out
    ensures Fits(s, k.cfg.conv, k.cfg.mtu)
  {
    AdmittedCargo(k);
    var f := SweptOut(k, Admitted(k).buf, s);
    assert FlightOk(f, k.cfg);
  }

  /** Acknowledgement conservation: a flush sends each recorded acknowledgement exactly once,
      in the order of arrival and before anything else, and forgets it. */
  lemma FlushSendsAcks(k: Kcb)
    requires EndpointOk(k) && k.updated
    ensures Flush(k).k.acks == []
    ensures var segs := Flush(k).segs;
            && |segs| >= |k.acks|
            && (forall i :: 0 <= i < |k.acks| ==>
                  segs[i].cmd == CMD_ACK && segs[i].sn == k.acks[i].sn && segs[i].ts == k.acks[i].ts)
            && (forall i :: |k.acks| <= i < |segs| ==> segs[i].cmd != CMD_ACK)
  {
    var out := Sweep(k, Admitted(k).buf).out;
    forall s | s in out ensures s.cmd == CMD_PUSH {
      AdmittedCargo(k);
      var f := SweptOut(k, Admitted(k).buf, s);
      assert FlightOk(f, k.cfg);
    }
    var probes := ProbeSegs(k, Probing(k.probe, k.rmtWnd, k.current));
    assert FlushSegs(k) == AckSegs(k, k.acks) + (probes + out);
    forall i | 0 <= i < |probes + out| ensures (probes + out)[i].cmd != CMD_ACK {
      assert i >= |probes| ==> out[i - |probes|] in out;
    }
  }

  /** The test that `ikcp_recv` asserts: the size announced by `ikcp_peeksize` is the length
      of the merged message, for any queue. */
  lemma PeekIsMessageLength(queue: seq<Seg>)
    requires PeekSize(queue) >= 0
    ensures PeekSize(queue) == |NextMessage(queue)|
  {
    if queue[0].frg == 0 {
      assert queue[..1] == [queue[0]];
      assert Payload(queue[..1]) == queue[0].data + Payload([]);
    }
  }

  /** Window recovery: when a receive makes room in a full queue, the next flush reports the
      room to the peer, in a datagram the peer decodes. */
  lemma RecvReportsRoom(k: Kcb, len: int)
    requires EndpointOk(k) && k.updated && WndUnused(k) == 0 && WndUnused(Recv(k, len).k) > 0
    ensures var k' := Recv(k, len).k;
            exists s <- Flush(k').segs :: s.cmd == CMD_WINS && s.wnd == WndUnused(k') && s.una == k'.rcv.nxt
    ensures DecodeEach(Flush(Recv(k, len).k).out, k.cfg.conv) == Flush(Recv(k, len).k).segs
  {
    hide Sweep, Admit, Deliver, PeekSize, Span, NextMessage, Pack, DecodeEach;
    var k' := Recv(k, len).k;
    RecvKeeps(k, len);
    FlushRoundTrip(k');
    var s := Control(k', CMD_WINS, LastAck(k'.acks));
    assert s in ProbeSegs(k', Probing(k'.probe, k'.rmtWnd, k'.current));
    assert s in Flush(k').segs;
  }
}
