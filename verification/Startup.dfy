/** The beginning of a connection: what every reachable state keeps of the window probe, and the
    first segment that goes out. */
module Startup {
  import opened Words
  import opened Wire
  import opened Kcp
  import opened Endpoint
  import SenderInvariant
  import ReceiverInvariant
  import Pacing
  import Transmission
  import Polling
  import Connection

  // ----- the probe timer

  /** No probe is pending between operations, and the timer is off or runs from seven seconds to
      two minutes. */
  predicate ProbeOk(p: Probe) {
    !p.ask && (p.wait > 0 ==> 7000 <= p.wait <= 120000)
  }

  lemma FlushProbe(k: Kcb)
    requires EndpointOk(k) && ProbeOk(k.probe)
    ensures ProbeOk(Flush(k).k.probe)
  {
    hide EndpointOk, Flush;
    if k.updated { Transmission.ProbesExactly(k); } else { IdleFlush(k); }
  }

  lemma IdleFlush(k: Kcb)
    requires !k.updated
    ensures Flush(k) == Flushed(k, [], [])
  {
  }

  lemma {:induction false} TakeAllAsk(p: Progress, ss: seq<Seg>)
    ensures TakeAll(p, ss).k.probe.ask == p.k.probe.ask
    decreases |ss|
  {
    hide ParseData, ParseAck, DropUna, BelowWindowEnd, TimeDiff;
    if ss != [] { TakeAllAsk(TakeSeg(p, ss[0]), ss[1..]); }
  }

  lemma InputProbe(k: Kcb, d: bytes)
    requires k.cfg.mss > 0
    ensures Input(k, d).k.probe.ask == k.probe.ask && Input(k, d).k.probe.wait == k.probe.wait
  {
    hide TakeAll, Decode, Settle;
    Polling.InputAcks(k, d);
    if |d| >= OVERHEAD {
      var p, segs := Progress(k, NoMark), Decode(d, k.cfg.conv).segs;
      TakeAllAsk(p, segs);
      TakeAllKeepsConfig(p, segs);
      Connection.SettleRest(TakeAll(p, segs), k.snd.una);
    }
  }

  lemma StepProbe(k: Kcb, op: Op)
    requires EndpointOk(k) && k.cfg.mss > 0 && ProbeOk(k.probe) && (op.OpSend? ==> |op.msg| < TWO31)
    ensures ProbeOk(Step(k, op).k.probe)
  {
    hide Input, Flush, Deliver, Fragments, PeekSize, NextMessage, Span;
    match op
    case OpSend(msg) => {}
    case OpRecv(len) => {}
    case OpInput(d) => InputProbe(k, d);
    case OpFlush => FlushProbe(k);
    case OpUpdate(t) => UpdateProbe(k, t);
  }

  lemma UpdateProbe(k: Kcb, t: u32)
    requires EndpointOk(k) && ProbeOk(k.probe)
    ensures ProbeOk(Update(k, t).k.probe)
  {
    hide Flush, SenderInvariant.SenderOk, ReceiverInvariant.ReceiverOk, CargoOk, TimeDiff, Wrap;
    FlushProbe(Advance(k, t).k);
  }

  /** Every reachable state has its probe timer in order, whatever bytes it was fed. */
  lemma {:induction false} RunProbe(k: Kcb, ops: seq<Op>)
    requires EndpointOk(k) && k.cfg.mss > 0 && ProbeOk(k.probe) && forall op <- ops :: op.OpSend? ==> |op.msg| < TWO31
    ensures ProbeOk(RunOps(k, ops).probe)
    decreases |ops|
  {
    hide EndpointOk, Step;
    if ops != [] {
      StepKeeps(k, ops[0]);
      StepKeepsConfig(k, ops[0]);
      StepProbe(k, ops[0]);
      RunProbe(Step(k, ops[0]).k, ops[1..]);
    }
  }

  lemma ReachableProbe(cfg: Config, ops: seq<Op>)
    requires ValidConfig(cfg) && forall op <- ops :: op.OpSend? ==> |op.msg| < TWO31
    ensures ProbeOk(RunOps(Fresh(cfg), ops).probe)
  {
    FreshOk(cfg);
    RunProbe(Fresh(cfg), ops);
  }

  // ----- the first segment

  /** A block with one message of one fragment queued, and nothing else done. */
  function Loaded(cfg: Config, msg: bytes): Kcb
    requires cfg.mss > 0
  {
    Step(Fresh(cfg), OpSend(msg)).k
  }

  lemma LoadedIs(cfg: Config, msg: bytes)
    requires ValidConfig(cfg) && |msg| <= cfg.mss
    ensures cfg.mss > 0 && EndpointOk(Loaded(cfg, msg))
    ensures Loaded(cfg, msg) == Fresh(cfg).(snd := Sender(0, 0, [Frag(0, msg)], []))
  {
    FreshOk(cfg);
    MssPositive(cfg);
    SendKeeps(Fresh(cfg), msg);
    assert [] + [Frag(0, msg)] == [Frag(0, msg)];
  }

  /** The first update of a block, at whatever time, opens the congestion window to one segment
      and sends nothing unless that window is not used; the next flush, one interval later, sends
      the fragment under number 0, with the whole receive window, for 200 milliseconds. */
  lemma FirstSegment(cfg: Config, msg: bytes, t: u32)
    requires ValidConfig(cfg) && Tuned(cfg) && !cfg.noCwnd && cfg.nodelay == 1 && |msg| <= cfg.mss
    ensures cfg.mss > 0
    ensures var u1 := Update(Loaded(cfg, msg), t);
            var u2 := Update(u1.k, Wrap(t + cfg.interval));
            && u1.segs == [] && u1.k.cc.cwnd == 1
            && u2.segs == [Seg(cfg.conv, 81, 0, cfg.rcvWnd, Wrap(t + cfg.interval), 0, 0, msg)]
            && |u2.k.snd.buf| == 1 && u2.k.snd.buf[0].rto == 200 && u2.k.snd.nxt == 1
            && u2.k.snd.buf[0].resendts == Wrap(t + cfg.interval + 200)
  {
    hide Flush, Update, Wrap, EndpointOk, Waiting, Advance, TimeDiff;
    LoadedIs(cfg, msg);
    var k0, t2 := Loaded(cfg, msg), Wrap(t + cfg.interval);
    assert Waiting(k0, cfg, msg, 0) by { LoadedWaits(cfg, msg); }
    var a := UpdatesAt(k0, t);
    StillWaits(k0, a, cfg, msg, 0);
    FirstFlush(a, cfg, msg);
    var k1 := Update(k0, t).k;
    FlushSchedule(a);
    var b := UpdatesAt(k1, t2);
    StillWaits(k1, b, cfg, msg, 1);
    SecondFlush(b, cfg, msg);
    WrapTwice(t, cfg.interval, 200);
  }

  lemma WrapTwice(t: u32, m: int, n: int)
    ensures Wrap(Wrap(t + m) + n) == Wrap(t + m + n)
  {
  }

  /** One fragment waits, nothing is in flight and nothing has come in. */
  predicate Waiting(k: Kcb, cfg: Config, msg: bytes, cwnd: u32) {
    && k.cfg == cfg && k.snd == Sender(0, 0, [Frag(0, msg)], []) && k.rcv == Receiver(0, [], []) && k.acks == []
    && k.probe == Probe(0, 0, false, false) && k.rmtWnd == 128 && k.rtt.rto == 200 && k.cc.cwnd == cwnd
  }

  lemma LoadedWaits(cfg: Config, msg: bytes)
    requires ValidConfig(cfg) && |msg| <= cfg.mss
    ensures cfg.mss > 0 && Waiting(Loaded(cfg, msg), cfg, msg, 0) && !Loaded(cfg, msg).updated
  {
    LoadedIs(cfg, msg);
  }

  lemma StillWaits(k: Kcb, a: Kcb, cfg: Config, msg: bytes, cwnd: u32)
    requires Waiting(k, cfg, msg, cwnd) && a == k.(current := a.current, updated := true, tsFlush := a.tsFlush)
    ensures Waiting(a, cfg, msg, cwnd)
  {
  }

  /** An update that has never run, or comes at its time, flushes. */
  lemma UpdatesAt(k: Kcb, t: u32) returns (a: Kcb)
    requires 10 <= k.cfg.interval <= 5000 && (k.updated ==> k.tsFlush == t)
    ensures a == k.(current := t, updated := true, tsFlush := a.tsFlush) && Update(k, t) == Flush(a)
    ensures !k.updated ==> a.tsFlush == Wrap(t + k.cfg.interval)
  {
    hide Flush, Wrap, TimeDiff, Update;
    Pacing.UpdateExactly(k, t);
    Pacing.OwnTime(t);
    Pacing.FlushLeavesClock(k.(current := t, updated := true, tsFlush := Update(k, t).k.tsFlush));
    a := k.(current := t, updated := true, tsFlush := Update(k, t).k.tsFlush);
  }

  lemma FlushSchedule(k: Kcb)
    ensures Flush(k).k.tsFlush == k.tsFlush && Flush(k).k.updated == k.updated && Flush(k).k.cfg == k.cfg
  {
    hide Flush;
    Pacing.FlushLeavesClock(k);
  }

  lemma FirstFlush(k: Kcb, cfg: Config, msg: bytes)
    requires Waiting(k, cfg, msg, 0) && k.updated && cfg.sndWnd > 0 && !cfg.noCwnd
    ensures Flush(k).segs == [] && Waiting(Flush(k).k, cfg, msg, 1)
  {
    hide Pack;
    assert UsableWindow(k) == 0 && Admitted(k) == k.snd;
  }

  lemma SecondFlush(k: Kcb, cfg: Config, msg: bytes)
    requires Waiting(k, cfg, msg, 1) && k.updated && cfg.sndWnd > 0 && !cfg.noCwnd && cfg.nodelay == 1 && cfg.rcvWnd > 0
    ensures var u := Flush(k);
            && u.segs == [Seg(cfg.conv, 81, 0, cfg.rcvWnd, k.current, 0, 0, msg)]
            && |u.k.snd.buf| == 1 && u.k.snd.buf[0].rto == 200 && u.k.snd.nxt == 1
            && u.k.snd.buf[0].resendts == Wrap(k.current + 200)
  {
    hide Pack;
    var f := Launch(k, Frag(0, msg), 0);
    assert UsableWindow(k) == 1 && [Frag(0, msg)][1..] == [];
    assert Admitted(k) == Admit(k, Sender(0, 1, [], [] + [f]), 1) == Sender(0, 1, [], [f]);
    assert [f][1..] == [];
    assert Sweep(k, [f]) == Join(SweepOne(k, f), Sweep(k, []));
  }
}
