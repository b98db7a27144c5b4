/** What one datagram does to the endpoint that takes it, field by field: which segments in
    flight it removes or counts as skipped, what it records, buffers and measures, and how it
    opens the congestion window. */
module Acknowledgement {
  import opened Words
  import opened Wire
  import opened Kcp
  import opened SenderInvariant
  import opened ReceiverInvariant
  import opened Endpoint
  import Congestion
  import Retransmission
  import Rtt

  /** The datagram holds one segment and nothing else. */
  predicate Single(d: bytes, conv: u32, s: Seg) {
    |d| >= OVERHEAD && Decode(d, conv) == Decoded([s], 0)
  }

  /** Not so far behind the left edge that the circular comparison turns over. */
  predicate Near(una: u32, w: u32) {
    TimeDiff(w, una) >= WINDOW_MAX - TWO31
  }

  /** Nor so far behind that it would after the left edge has moved on. */
  predicate WellNear(una: u32, w: u32) {
    TimeDiff(w, una) >= 2 * WINDOW_MAX - TWO31
  }

  lemma InputSingle(k: Kcb, d: bytes, s: Seg)
    requires k.cfg.mss > 0 && Single(d, k.cfg.conv, s)
    ensures TakeSeg(Progress(k, NoMark), s).k.cfg == k.cfg
    ensures Input(k, d) == Taken(Settle(TakeSeg(Progress(k, NoMark), s), k.snd.una), 0)
  {
    hide TakeSeg, Settle, Decode;
    TakeAllKeepsConfig(Progress(k, NoMark), [s]);
    assert [s][1..] == [];
    assert TakeAll(Progress(k, NoMark), [s]) == TakeAll(TakeSeg(Progress(k, NoMark), s), []);
  }

  /** The result of taking any bytes whatever: -1 below the size of a header, and nothing changes;
      otherwise the reason for which the segments end where they do. */
  lemma CodesExactly(k: Kcb, d: bytes) returns (segs: seq<Seg>, rest: bytes)
    requires k.cfg.mss > 0
    ensures EncodeAll(segs) + rest == d
    ensures if |d| < 24 then Input(k, d) == Taken(k, -1)
            else Input(k, d).code == StopCode(rest, k.cfg.conv) && Decode(d, k.cfg.conv).segs == segs
  {
    hide Decode, TakeAll, Settle, EncodeAll, StopCode;
    rest := DecodeExactly(d, k.cfg.conv);
    segs := Decode(d, k.cfg.conv).segs;
    TakeAllKeepsConfig(Progress(k, NoMark), segs);
  }

  // ----- acknowledged segments

  /** Behind the cumulative acknowledgement. */
  predicate Below(una: u32, f: Flight) {
    TimeDiff(una, f.seg.sn) > 0
  }

  lemma BelowFirst(una0: u32, nxt: u32, buf: seq<Flight>, una: u32, i: nat, j: nat)
    requires Ordered(una0, nxt, buf) && Dist(una0, nxt) <= WINDOW_MAX && Near(una0, una) && i < j < |buf|
    ensures Below(una, buf[j]) ==> Below(una, buf[i])
  {
    hide TimeDiff, Dist, Wrap;
    NearDiff(una0, una, buf[i].seg.sn);
    NearDiff(una0, una, buf[j].seg.sn);
  }

  /** For a word that is near, the comparison with a number in the window is the difference of
      their offsets from the left edge. */
  lemma NearDiff(una0: u32, w: u32, sn: u32)
    requires Near(una0, w) && Dist(una0, sn) < WINDOW_MAX
    ensures TimeDiff(w, sn) == TimeDiff(w, una0) - Dist(una0, sn)
  {
    hide TimeDiff, Dist, Wrap;
    TimeDiffByDist(w, una0);
    if TimeDiff(w, una0) >= 0 {
      TimeDiffFromOrigin(una0, w, sn);
    } else {
      SelfDist(una0);
      SelfDist(w);
      BackDist(una0, w);
      DistSum(w, una0, sn);
      TimeDiffFromOrigin(w, w, sn);
    }
  }

  lemma BackDist(a: u32, b: u32)
    requires a != b
    ensures Dist(b, a) == TWO32 - Dist(a, b)
  {
  }

  lemma SelfDist(a: u32)
    ensures Dist(a, a) == 0
  {
  }

  /** The cumulative acknowledgement removes exactly what is below it. */
  lemma UnaExactly(s: Sender, cfg: Config, una: u32)
    requires SenderOk(s, cfg) && Near(s.una, una)
    ensures forall f :: f in DropUna(s.buf, una) <==> f in s.buf && !Below(una, f)
  {
    hide TimeDiff, Dist, Wrap, DropUna, Ordered;
    var n := DropUnaSuffix(s.buf, una);
    forall j | n <= j < |s.buf| ensures !Below(una, s.buf[j]) && s.buf[j] in s.buf[n..] {
      assert s.buf[n..][j - n] == s.buf[j];
      if j > n { BelowFirst(s.una, s.nxt, s.buf, una, n, j); }
    }
  }

  /** The acknowledgement of a number removes exactly that number. */
  lemma SnExactly(s: Sender, cfg: Config, sn: u32)
    requires SenderOk(s, cfg)
    ensures forall f :: f in ParseAck(s, sn).buf <==> f in s.buf && f.seg.sn != sn
  {
    hide TimeDiff, Dist, Wrap, DropAcked, Outstanding, Ordered;
    var at := DropAckedCut(s.buf, sn);
    if Outstanding(s, sn) {
      OutstandingNear(s, cfg, sn);
      DropAckedComplete(s.una, s.nxt, s.buf, sn);
    } else {
      forall f | f in s.buf ensures f.seg.sn != sn {
        FlightOutstanding(s, cfg, f);
      }
    }
  }

  lemma OutstandingNear(s: Sender, cfg: Config, sn: u32)
    requires SenderOk(s, cfg) && Outstanding(s, sn)
    ensures Dist(s.una, sn) < TWO31 && Dist(s.una, s.nxt) < TWO31
  {
    hide Wrap;
    TimeDiffByDist(sn, s.una);
  }

  lemma FlightOutstanding(s: Sender, cfg: Config, f: Flight)
    requires SenderOk(s, cfg) && f in s.buf
    ensures Outstanding(s, f.seg.sn)
  {
    hide TimeDiff, Dist, Wrap;
    var i :| 0 <= i < |s.buf| && s.buf[i] == f;
    TimeDiffFromOrigin(s.una, f.seg.sn, s.nxt);
    SelfDist(s.una);
    TimeDiffFromOrigin(s.una, f.seg.sn, s.una);
  }

  // ----- skipped segments

  /** An acknowledgement of a numbered segment sent later, for something sent no later. */
  predicate SkippedBy(s: Sender, sn: u32, ts: u32, f: Flight) {
    TimeDiff(sn, s.nxt) < 0 && TimeDiff(sn, f.seg.sn) > 0 && TimeDiff(ts, f.seg.ts) >= 0
  }

  function CountedOnce(f: Flight): Flight {
    f.(fastack := Wrap(f.fastack + 1))
  }

  /** Exactly the segments before the acknowledged one, sent no later than it, are counted. */
  lemma {:induction false} CountExactly(una0: u32, nxt: u32, buf: seq<Flight>, sn: u32, ts: u32)
    requires Ordered(una0, nxt, buf) && Dist(una0, nxt) <= WINDOW_MAX && Near(una0, sn)
    ensures var b := CountSkipped(buf, sn, ts);
            && |b| == |buf|
            && forall i :: 0 <= i < |buf| ==>
                 b[i] == if TimeDiff(sn, buf[i].seg.sn) > 0 && TimeDiff(ts, buf[i].seg.ts) >= 0
                         then CountedOnce(buf[i]) else buf[i]
  {
    hide TimeDiff, Dist, Wrap;
    if buf != [] {
      NearDiff(una0, sn, buf[0].seg.sn);
      if TimeDiff(sn, buf[0].seg.sn) < 0 {
        forall i | 0 <= i < |buf| ensures TimeDiff(sn, buf[i].seg.sn) < 0 {
          NearDiff(una0, sn, buf[i].seg.sn);
        }
      } else {
        ZeroDiff(sn, buf[0].seg.sn);
        CountExactly(una0, nxt, buf[1..], sn, ts);
        forall i | 1 <= i < |buf|
          ensures CountSkipped(buf, sn, ts)[i] == CountSkipped(buf[1..], sn, ts)[i - 1] && buf[i] == buf[1..][i - 1] {}
      }
    }
  }

  lemma ZeroDiff(a: u32, b: u32)
    ensures TimeDiff(a, b) == 0 <==> a == b
  {
  }

  lemma FastackExactly(s: Sender, cfg: Config, sn: u32, ts: u32)
    requires SenderOk(s, cfg) && Near(s.una, sn)
    ensures var b := ParseFastack(s, sn, ts).buf;
            && |b| == |s.buf|
            && forall i :: 0 <= i < |s.buf| ==>
            b[i] == if SkippedBy(s, sn, ts, s.buf[i]) then CountedOnce(s.buf[i]) else s.buf[i]
  {
    hide TimeDiff, Dist, Wrap;
    CountExactly(s.una, s.nxt, s.buf, sn, ts);
    if TimeDiff(sn, s.una) < 0 {
      forall i | 0 <= i < |s.buf| ensures TimeDiff(sn, s.buf[i].seg.sn) <= 0 {
        NearDiff(s.una, sn, s.buf[i].seg.sn);
      }
    }
  }

  // ----- one acknowledgement

  /** What stays in flight: neither below `una` nor acknowledged by number. */
  predicate Stays(s: Seg, f: Flight) {
    TimeDiff(s.una, f.seg.sn) <= 0 && f.seg.sn != s.sn
  }

  /** The head of a sorted list of flights, or the next number. */
  predicate LeftEdgeIs(s: Sender) {
    s.una == if s.buf != [] then s.buf[0].seg.sn else s.nxt
  }

  /** A datagram with one acknowledgement, exactly. */
  lemma AckExactly(k: Kcb, d: bytes, s: Seg)
    requires EndpointOk(k) && Single(d, k.cfg.conv, s) && s.cmd == 82
    requires WellNear(k.snd.una, s.una) && WellNear(k.snd.una, s.sn)
    ensures k.cfg.mss > 0
    ensures var k' := Input(k, d).k;
            && (forall f <- k.snd.buf :: Stays(s, f) ==>
                  (if SkippedBy(k.snd, s.sn, s.ts, f) then CountedOnce(f) else f) in k'.snd.buf)
            && (forall g <- k'.snd.buf :: exists f <- k.snd.buf ::
                  Stays(s, f) && g == if SkippedBy(k.snd, s.sn, s.ts, f) then CountedOnce(f) else f)
            && k'.snd.nxt == k.snd.nxt && k'.snd.queue == k.snd.queue && LeftEdgeIs(k'.snd)
            && k'.rmtWnd == s.wnd && k'.rcv == k.rcv && k'.acks == k.acks && k'.probe == k.probe
            && k'.rtt == if TimeDiff(k.current, s.ts) >= 0
                         then Rtt.Update(k.rtt, TimeDiff(k.current, s.ts), k.cfg.interval, k.cfg.minRto) else k.rtt
  {
    hide EndpointOk, Input, TakeSeg, Settle, TimeDiff, Wrap, Dist, Rtt.Update, DropUna, ParseAck, ParseFastack,
      SenderOk, Decode,
      SkippedBy, Stays, CountedOnce, Shrink;
    ConfigMss(k);
    SenderBounds(k);
    InputSingle(k, d, s);
    var p := TakeSeg(Progress(k, NoMark), s);
    var s1 := Shrink(k.snd.(buf := DropUna(k.snd.buf, s.una)));
    var s2 := Shrink(ParseAck(s1, s.sn));
    TakesAck(k, s);
    UnaKeepsSender(k.snd, k.cfg, s.una);
    AckKeepsSender(s1, k.cfg, s.sn);
    NearEnough(k.snd.una, s.una);
    LeftAfterAck(k.snd, k.cfg, s);
    EdgeMoved(k.snd, s1, s2, s.sn);
    FastackExactly(s2, k.cfg, s.sn, s.ts);
    SettledSender(p, k.snd.una);
    CountedSet(s2, ParseFastack(s2, s.sn, s.ts), k.snd, s);
    FastackKeepsSender(s2, k.cfg, s.sn, s.ts);
    EdgeOf(ParseFastack(s2, s.sn, s.ts), k.cfg);
  }

  lemma SenderBounds(k: Kcb)
    requires EndpointOk(k)
    ensures SenderOk(k.snd, k.cfg) && Dist(k.snd.una, k.snd.nxt) <= WINDOW_MAX
  {
  }

  lemma NearEnough(una: u32, w: u32)
    requires WellNear(una, w)
    ensures Near(una, w)
  {
  }

  lemma EdgeOf(s: Sender, cfg: Config)
    requires SenderOk(s, cfg)
    ensures LeftEdgeIs(s)
  {
  }

  /** One acknowledgement taken, before the counting. */
  lemma TakesAck(k: Kcb, s: Seg)
    requires s.cmd == CMD_ACK
    ensures var p := TakeSeg(Progress(k, NoMark), s);
            && p.mark == Mark(s.sn, s.ts)
            && p.k.snd == Shrink(ParseAck(Shrink(k.snd.(buf := DropUna(k.snd.buf, s.una))), s.sn))
            && p.k.snd.nxt == k.snd.nxt && p.k.snd.queue == k.snd.queue
            && p.k.rmtWnd == s.wnd && p.k.rcv == k.rcv && p.k.acks == k.acks && p.k.probe == k.probe
            && p.k.rtt == if TimeDiff(k.current, s.ts) >= 0
                          then Rtt.Update(k.rtt, TimeDiff(k.current, s.ts), k.cfg.interval, k.cfg.minRto) else k.rtt
  {
    hide TimeDiff, Rtt.Update, DropUna, DropAcked, Outstanding;
  }

  /** The flights left by both removals. */
  lemma LeftAfterAck(s0: Sender, cfg: Config, s: Seg)
    requires SenderOk(s0, cfg) && Near(s0.una, s.una)
    ensures var s2 := Shrink(ParseAck(Shrink(s0.(buf := DropUna(s0.buf, s.una))), s.sn));
            forall f :: f in s2.buf <==> f in s0.buf && Stays(s, f)
  {
    hide TimeDiff, Wrap, Dist, DropUna, ParseAck, SenderOk;
    UnaExactly(s0, cfg, s.una);
    UnaKeepsSender(s0, cfg, s.una);
    SnExactly(Shrink(s0.(buf := DropUna(s0.buf, s.una))), cfg, s.sn);
  }

  lemma ConfigMss(k: Kcb)
    requires EndpointOk(k)
    ensures k.cfg.mss > 0
  {
  }

  lemma SettledSender(p: Progress, prevUna: u32)
    requires p.k.cfg.mss > 0 && p.mark.Mark?
    ensures var k := Settle(p, prevUna);
            && k.snd == ParseFastack(p.k.snd, p.mark.sn, p.mark.ts) && k.rmtWnd == p.k.rmtWnd && k.rcv == p.k.rcv
            && k.acks == p.k.acks && k.probe == p.k.probe && k.rtt == p.k.rtt
            && k.snd.nxt == p.k.snd.nxt && k.snd.queue == p.k.snd.queue
  {
    hide TimeDiff, CountSkipped;
  }

  lemma CountedSet(s2: Sender, s3: Sender, s0: Sender, s: Seg)
    requires |s3.buf| == |s2.buf| && s2.nxt == s0.nxt && forall f :: f in s2.buf <==> f in s0.buf && Stays(s, f)
    requires forall i :: 0 <= i < |s2.buf| ==>
               s3.buf[i] == if SkippedBy(s2, s.sn, s.ts, s2.buf[i]) then CountedOnce(s2.buf[i]) else s2.buf[i]
    ensures forall f <- s0.buf :: Stays(s, f) ==>
              (if SkippedBy(s0, s.sn, s.ts, f) then CountedOnce(f) else f) in s3.buf
    ensures forall g <- s3.buf :: exists f <- s0.buf ::
              Stays(s, f) && g == if SkippedBy(s0, s.sn, s.ts, f) then CountedOnce(f) else f
  {
    hide TimeDiff, Stays;
    forall f | f in s0.buf && Stays(s, f)
      ensures (if SkippedBy(s0, s.sn, s.ts, f) then CountedOnce(f) else f) in s3.buf {
      var i :| 0 <= i < |s2.buf| && s2.buf[i] == f;
      assert s3.buf[i] in s3.buf;
    }
    forall g | g in s3.buf
      ensures exists f <- s0.buf :: Stays(s, f) && g == if SkippedBy(s0, s.sn, s.ts, f) then CountedOnce(f) else f {
      var i :| 0 <= i < |s3.buf| && s3.buf[i] == g;
      assert s2.buf[i] in s2.buf;
    }
  }

  /** After the two removals the acknowledged number may have fallen behind the left edge; then
      nothing is before it any more. */
  lemma EdgeMoved(s0: Sender, s1: Sender, s2: Sender, sn: u32)
    requires Advanced(s0, s1) && Advanced(s1, s2) && WellNear(s0.una, sn) && Dist(s0.una, s0.nxt) <= WINDOW_MAX
    ensures Near(s2.una, sn)
  {
    hide TimeDiff, Dist, Wrap;
    DistSum(s0.una, s1.una, s2.una);
    var far := Dist(s0.una, s2.una);
    TimeDiffByDist(sn, s0.una);
    if TimeDiff(sn, s0.una) >= 0 {
      TimeDiffFromOrigin(s0.una, sn, s2.una);
    } else {
      SelfDist(s0.una);
      SelfDist(sn);
      BackDist(s0.una, sn);
      DistSum(sn, s0.una, s2.una);
      TimeDiffFromOrigin(sn, sn, s2.una);
    }
  }

  // ----- one data segment, one probe, one report

  lemma SettledQuiet(p: Progress, prevUna: u32)
    requires p.k.cfg.mss > 0 && p.mark.NoMark?
    ensures var k := Settle(p, prevUna);
            k == p.k.(cc := k.cc)
  {
  }

  /** What every segment that is not an acknowledgement does to the sending half. */
  lemma UnaTaken(k: Kcb, s: Seg)
    requires EndpointOk(k) && WellNear(k.snd.una, s.una)
    ensures var snd := TakeHeader(k, s).snd;
            && (forall f :: f in snd.buf <==> f in k.snd.buf && !Below(s.una, f))
            && snd.nxt == k.snd.nxt && snd.queue == k.snd.queue && LeftEdgeIs(snd)
  {
    hide EndpointOk, TimeDiff, Wrap, Dist, DropUna, SenderOk;
    SenderBounds(k);
    NearEnough(k.snd.una, s.una);
    UnaExactly(k.snd, k.cfg, s.una);
  }

  /** A datagram with one data segment, exactly: it is acknowledged unless it lies beyond the
      window, and stored if and only if it lies inside and was not stored before; all that was
      stored stays, and what is in order moves on. */
  lemma PushExactly(k: Kcb, d: bytes, s: Seg)
    requires EndpointOk(k) && Single(d, k.cfg.conv, s) && s.cmd == 81 && WellNear(k.snd.una, s.una)
    ensures k.cfg.mss > 0
    ensures var k' := Input(k, d).k;
            && k'.acks == (if TimeDiff(s.sn, Wrap(k.rcv.nxt + k.cfg.rcvWnd)) < 0 then k.acks
            + [Ack(s.sn, s.ts)] else k.acks)
            && k.rcv.queue <= k'.rcv.queue && k'.rcv.nxt == Wrap(k.rcv.nxt + (|k'.rcv.queue| - |k.rcv.queue|))
            && (forall x :: x in k'.rcv.queue + k'.rcv.buf <==>
                  x in k.rcv.queue + k.rcv.buf || (x == s && Dist(k.rcv.nxt, s.sn) < k.cfg.rcvWnd
                    && Absent(k.rcv.buf, s.sn)))
            && (k'.rcv.buf != [] && k'.rcv.buf[0].sn == k'.rcv.nxt ==> |k'.rcv.queue| == k.cfg.rcvWnd)
            && (forall f :: f in k'.snd.buf <==> f in k.snd.buf && !Below(s.una, f))
            && k'.snd.nxt == k.snd.nxt && k'.snd.queue == k.snd.queue && LeftEdgeIs(k'.snd)
            && k'.rmtWnd == s.wnd && k'.probe == k.probe && k'.rtt == k.rtt
  {
    hide EndpointOk, Input, Settle, TimeDiff, Wrap, Dist, DropUna, SenderOk, Decode, Below, ParseData, Absent;
    ConfigMss(k);
    InputSingle(k, d, s);
    UnaTaken(k, s);
    HeaderOthers(k, s);
    var p := TakeSeg(Progress(k, NoMark), s);
    SettledQuiet(p, k.snd.una);
    StoredExactly(k, s);
    TakesPush(k, s);
  }

  lemma HeaderOthers(k: Kcb, s: Seg)
    ensures var h := TakeHeader(k, s);
            h == k.(rmtWnd := s.wnd, snd := h.snd)
  {
  }

  lemma TakesPush(k: Kcb, s: Seg)
    requires s.cmd == CMD_PUSH
    ensures var p, h := TakeSeg(Progress(k, NoMark), s), TakeHeader(k, s);
            && p.mark.NoMark? && p.k == h.(acks := p.k.acks, rcv := p.k.rcv)
            && p.k.rcv == ParseData(k.rcv, k.cfg.rcvWnd, s)
            && p.k.acks == (if TimeDiff(s.sn, Wrap(k.rcv.nxt + k.cfg.rcvWnd)) < 0 then k.acks
            + [Ack(s.sn, s.ts)] else k.acks)
  {
    hide TimeDiff, Wrap, Deliver, Insert, DropUna, Shrink;
  }

  /** Moving segments up keeps them all, in order. */
  lemma {:induction false} DeliverExactly(r: Receiver, wnd: u32)
    ensures var r' := Deliver(r, wnd);
            && r'.queue + r'.buf == r.queue + r.buf && r.queue <= r'.queue
            && r'.nxt == Wrap(r.nxt + (|r'.queue| - |r.queue|))
    decreases |r.buf|
  {
    hide Wrap;
    WrapOwn(r.nxt);
    if r.buf != [] && r.buf[0].sn == r.nxt && |r.queue| < wnd {
      var r1 := Receiver(Wrap(r.nxt + 1), r.buf[1..], r.queue + [r.buf[0]]);
      assert r1.queue + r1.buf == r.queue + ([r.buf[0]] + r.buf[1..]) && r.buf == [r.buf[0]] + r.buf[1..];
      DeliverExactly(r1, wnd);
      WrapAgain(r.nxt, |Deliver(r, wnd).queue| - |r.queue|);
    }
  }

  lemma WrapOwn(w: u32)
    ensures Wrap(w + 0) == w
  {
  }

  lemma WrapAgain(w: u32, n: int)
    ensures Wrap(Wrap(w + 1) + (n - 1)) == Wrap(w + n)
  {
  }

  lemma StoredExactly(k: Kcb, s: Seg)
    requires EndpointOk(k)
    ensures var r, r' := k.rcv, ParseData(k.rcv, k.cfg.rcvWnd, s);
            && r.queue <= r'.queue && r'.nxt == Wrap(r.nxt + (|r'.queue| - |r.queue|))
            && (forall x :: x in r'.queue + r'.buf <==>
                  x in r.queue + r.buf || (x == s && Dist(r.nxt, s.sn) < k.cfg.rcvWnd && Absent(r.buf, s.sn)))
            && (r'.buf != [] && r'.buf[0].sn == r'.nxt ==> |r'.queue| == k.cfg.rcvWnd)
  {
    hide TimeDiff, Wrap, Dist, Deliver, Insert, SenderOk, CargoOk, TimersOk, Absent, Sorted, Consecutive;
    var r, wnd := k.rcv, k.cfg.rcvWnd;
    WindowTest(r, wnd, s.sn);
    ParseDataKeepsReceiver(r, wnd, s);
    WrapOwn(r.nxt);
    if Dist(r.nxt, s.sn) < wnd {
      InsertSorted(r.nxt, wnd, r.buf, s);
      DeliverExactly(r.(buf := Insert(r.buf, s)), wnd);
    }
  }

  /** A window probe makes a window report due; a report does nothing more than every segment. */
  lemma ControlExactly(k: Kcb, d: bytes, s: Seg)
    requires EndpointOk(k) && Single(d, k.cfg.conv, s) && (s.cmd == 83 || s.cmd == 84)
    requires WellNear(k.snd.una, s.una)
    ensures k.cfg.mss > 0
    ensures var k' := Input(k, d).k;
            && k'.probe == k.probe.(tell := k.probe.tell || s.cmd == 83)
            && (forall f :: f in k'.snd.buf <==> f in k.snd.buf && !Below(s.una, f))
            && k' == k.(rmtWnd := s.wnd, snd := k'.snd, probe := k'.probe, cc := k'.cc)
            && k'.snd.nxt == k.snd.nxt && k'.snd.queue == k.snd.queue && LeftEdgeIs(k'.snd)
  {
    hide EndpointOk, Input, Settle, TimeDiff, Wrap, Dist, DropUna, SenderOk, Decode, Below, TakeHeader;
    ConfigMss(k);
    InputSingle(k, d, s);
    UnaTaken(k, s);
    HeaderOthers(k, s);
    SettledQuiet(TakeSeg(Progress(k, NoMark), s), k.snd.una);
  }

  // ----- several acknowledgements

  /** The numbers and times of a datagram's acknowledgements lie within half a circle. */
  predicate InOneHalf(ss: seq<Seg>, sn0: u32, ts0: u32) {
    forall s <- ss :: s.cmd == CMD_ACK ==> Dist(sn0, s.sn) < TWO31 && Dist(ts0, s.ts) < TWO31
  }

  predicate LaterIn(sn: u32, ts: u32, m: Mark)
    requires m.Mark?
  {
    TimeDiff(sn, m.sn) > 0 && TimeDiff(ts, m.ts) > 0
  }

  /** The mark that decides what counts as skipped is one of the acknowledgements, and none of
      them is later both in number and in time. */
  predicate MarkOf(m: Mark, ss: seq<Seg>) {
    if m.NoMark? then forall s <- ss :: s.cmd != CMD_ACK
    else
      && (exists s <- ss :: s.cmd == CMD_ACK && s.sn == m.sn && s.ts == m.ts)
      && (forall s <- ss :: s.cmd == CMD_ACK ==> !LaterIn(s.sn, s.ts, m))
  }

  lemma MarkStep(m: Mark, ss: seq<Seg>, s: Seg, sn0: u32, ts0: u32)
    requires MarkOf(m, ss) && InOneHalf(ss + [s], sn0, ts0)
    ensures MarkOf(if s.cmd == CMD_ACK then Later(m, s.sn, s.ts) else m, ss + [s])
  {
    hide TimeDiff, Dist;
    if s.cmd == CMD_ACK && m.Mark? {
      var x :| x in ss && x.cmd == CMD_ACK && x.sn == m.sn && x.ts == m.ts;
      assert x in ss + [s] && s in ss + [s];
      forall y | y in ss && y.cmd == CMD_ACK ensures !LaterIn(y.sn, y.ts, Later(m, s.sn, s.ts)) {
        assert y in ss + [s];
        Transitive(sn0, y.sn, s.sn, m.sn);
        Transitive(ts0, y.ts, s.ts, m.ts);
      }
      Transitive(sn0, s.sn, s.sn, m.sn);
    } else {
      forall y | y in ss + [s] ensures y in ss || y == s {}
      assert s in ss + [s];
      if s.cmd == CMD_ACK { SelfLater(s.sn); }
    }
  }

  lemma SelfLater(a: u32)
    ensures TimeDiff(a, a) == 0
  {
  }

  lemma Transitive(o: u32, a: u32, b: u32, c: u32)
    requires Dist(o, a) < TWO31 && Dist(o, b) < TWO31 && Dist(o, c) < TWO31
    ensures TimeDiff(a, b) > 0 && TimeDiff(b, c) > 0 ==> TimeDiff(a, c) > 0
    ensures TimeDiff(b, b) == 0
  {
    hide TimeDiff, Dist;
    TimeDiffFromOrigin(o, a, b);
    TimeDiffFromOrigin(o, b, c);
    TimeDiffFromOrigin(o, a, c);
    TimeDiffFromOrigin(o, b, b);
  }

  lemma {:induction false} MarkExactly(p: Progress, done: seq<Seg>, ss: seq<Seg>, sn0: u32, ts0: u32)
    requires MarkOf(p.mark, done) && InOneHalf(done + ss, sn0, ts0)
    ensures MarkOf(TakeAll(p, ss).mark, done + ss)
    decreases |ss|
  {
    hide TakeSeg, MarkOf, Later;
    if ss == [] {
      assert done + ss == done;
    } else {
      assert (done + [ss[0]]) + ss[1..] == done + ss;
      assert InOneHalf(done + [ss[0]], sn0, ts0) by {
        forall x | x in done + [ss[0]] ensures x in done + ss {}
      }
      MarkStep(p.mark, done, ss[0], sn0, ts0);
      MarkTaken(p, ss[0]);
      MarkExactly(TakeSeg(p, ss[0]), done + [ss[0]], ss[1..], sn0, ts0);
    }
  }

  lemma MarkTaken(p: Progress, s: Seg)
    ensures TakeSeg(p, s).mark == if s.cmd == CMD_ACK then Later(p.mark, s.sn, s.ts) else p.mark
  {
    hide TimeDiff, ParseAck, DropUna, ParseData;
  }

  /** Fast acknowledgement counts of a whole datagram, exactly: with the mark as above, a segment
      that stays in flight is counted if and only if the mark was sent later, for something sent
      no later. */
  lemma CountsExactly(k: Kcb, d: bytes, sn0: u32, ts0: u32) returns (m: Mark, s: Sender)
    requires EndpointOk(k) && |d| >= OVERHEAD && Decode(d, k.cfg.conv).code == 0
    requires InOneHalf(Decode(d, k.cfg.conv).segs, sn0, ts0)
    ensures k.cfg.mss > 0 && MarkOf(m, Decode(d, k.cfg.conv).segs) && s.nxt == k.snd.nxt
    ensures (forall f <- s.buf :: f in k.snd.buf) && |Input(k, d).k.snd.buf| == |s.buf|
    ensures m.NoMark? ==> Input(k, d).k.snd.buf == s.buf
    ensures m.Mark? && Near(s.una, m.sn) ==>
              forall i :: 0 <= i < |s.buf| ==>
                Input(k, d).k.snd.buf[i]
                  == if SkippedBy(s, m.sn, m.ts, s.buf[i]) then CountedOnce(s.buf[i]) else s.buf[i]
  {
    hide EndpointOk, TakeAll, Decode, TimeDiff, Dist, MarkOf, SkippedBy, CountSkipped, SenderOk, Congestion.Grow,
      Outstanding;
    ConfigMss(k);
    var p0, ss := Progress(k, NoMark), Decode(d, k.cfg.conv).segs;
    var p := TakeAll(p0, ss);
    assert [] + ss == ss;
    NoMarkYet();
    MarkExactly(p0, [], ss, sn0, ts0);
    Retransmission.TakeAllSubset(p0, ss);
    DecodedWindows(d, k.cfg.conv);
    TakeAllKeeps(p0, ss);
    SenderBounds(p.k);
    m, s := p.mark, p.k.snd;
    if m.Mark? {
      SettledSender(p, k.snd.una);
      FastackKeepsSender(s, k.cfg, m.sn, m.ts);
      if Near(s.una, m.sn) { FastackExactly(s, k.cfg, m.sn, m.ts); }
    } else {
      SettledQuiet(p, k.snd.una);
    }
  }

  lemma NoMarkYet()
    ensures MarkOf(NoMark, [])
  {
  }
}
