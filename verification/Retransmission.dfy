/** Results about time: `ikcp_check` as a shortcut for polling `ikcp_update`, and the budget of
    fast retransmissions over the life of a segment. */
module Retransmission {
  import opened Words
  import opened Wire
  import opened Kcp
  import opened SenderInvariant
  import opened Endpoint
  import Congestion
  import ReceiverInvariant

  // ----- ikcp_check

  predicate ResendReached(f: Flight, t: u32) {
    TimeDiff(f.resendts, t) <= 0
  }

  lemma {:induction false} EarliestIsEarliest(buf: seq<Flight>, t: u32, bound: int)
    requires bound > 0
    ensures var e := EarliestResend(buf, t, bound);
            && 0 <= e <= bound
            && (e == 0 <==> exists f <- buf :: ResendReached(f, t))
            && (e > 0 ==> forall f <- buf :: e <= TimeDiff(f.resendts, t))
            && (0 < e < bound ==> exists f <- buf :: TimeDiff(f.resendts, t) == e)
  {
    if buf != [] && !ResendReached(buf[0], t) {
      var next := Min(bound, TimeDiff(buf[0].resendts, t));
      EarliestIsEarliest(buf[1..], t, next);
      var e := EarliestResend(buf[1..], t, next);
      if 0 < e < bound && e == next { assert buf[0] in buf; }
    }
  }

  lemma LaterBy(a: u32, t: u32, n: int)
    requires 0 <= n < TWO31 && 0 < TimeDiff(a, t)
    ensures TimeDiff(a, Wrap(t + n)) == TimeDiff(a, t) - n
    ensures n < TimeDiff(a, t) ==> TimeDiff(Wrap(t + n), a) == n - TimeDiff(a, t)
  {
    hide Wrap, TimeDiff;
    DistForward(t, n);
    TimeDiffByDist(a, t);
    TimeDiffFromOrigin(t, a, Wrap(t + n));
    TimeDiffFromOrigin(t, Wrap(t + n), a);
  }

  /** An update that comes before the time `ikcp_check` gave changes nothing but the clock: it
      does not flush, and no retransmission has come due. */
  lemma CheckIsSafe(k: Kcb, t: u32, n: int)
    requires 10 <= k.cfg.interval <= 5000 && 0 <= n < Dist(t, Check(k, t))
    ensures Update(k, Wrap(t + n)) == Flushed(k.(current := Wrap(t + n)), [], [])
    ensures forall f <- k.snd.buf :: TimeDiff(Wrap(t + n), f.resendts) < 0
  {
    EarliestIsEarliest(k.snd.buf, t, 0x7FFF_FFFF);
    CheckDelay(k, t);
    NotYetDue(k.tsFlush, t, n);
    forall f | f in k.snd.buf ensures TimeDiff(Wrap(t + n), f.resendts) < 0 {
      LaterBy(f.resendts, t, n);
    }
  }

  lemma NotYetDue(due: u32, t: u32, n: int)
    requires 0 < TimeDiff(due, t) <= 10000 && 0 <= n < TimeDiff(due, t)
    ensures -10000 <= TimeDiff(Wrap(t + n), due) < 0
  {
    LaterBy(due, t, n);
  }

  lemma FlushDelay(k: Kcb, t: u32)
    requires TimeDiff(t, k.tsFlush) < 0 && TimeDiff(t, k.tsFlush) >= -10000
    ensures 0 < TimeDiff(k.tsFlush, t) <= 10000
  {
  }

  /** The delay that `ikcp_check` computes. */
  lemma CheckDelay(k: Kcb, t: u32)
    requires 10 <= k.cfg.interval <= 5000
    ensures Dist(t, Check(k, t)) <= k.cfg.interval
    ensures Dist(t, Check(k, t)) > 0 ==>
              && k.updated && 0 < TimeDiff(k.tsFlush, t) <= 10000
              && Dist(t, Check(k, t))
              == Min(Min(EarliestResend(k.snd.buf, t, 0x7FFF_FFFF), TimeDiff(k.tsFlush, t)), k.cfg.interval)
              && EarliestResend(k.snd.buf, t, 0x7FFF_FFFF) > 0
  {
    EarliestIsEarliest(k.snd.buf, t, 0x7FFF_FFFF);
    var packet := EarliestResend(k.snd.buf, t, 0x7FFF_FFFF);
    if k.updated && -10000 <= TimeDiff(t, k.tsFlush) < 0 {
      FlushDelay(k, t);
      if packet > 0 { DistForward(t, Min(Min(packet, TimeDiff(k.tsFlush, t)), k.cfg.interval)); }
    }
  }

  /** The time is never too late and not too early either: it lies within one interval, and
      unless it is a full interval away, something is due when it comes. */
  lemma CheckIsTight(k: Kcb, t: u32)
    requires 10 <= k.cfg.interval <= 5000
    ensures var c := Check(k, t);
            && Dist(t, c) <= k.cfg.interval
            && (Dist(t, c) < k.cfg.interval ==> Advance(k, c).flush || exists f <- k.snd.buf :: ResendReached(f, c))
  {
    hide TimeDiff, Wrap, Dist, Check, Advance;
    CheckDelay(k, t);
    EarliestIsEarliest(k.snd.buf, t, 0x7FFF_FFFF);
    var c := Check(k, t);
    var n := Dist(t, c);
    DistBack(t, c);
    if n == 0 {
      CheckNow(k, t);
    } else if n < k.cfg.interval {
      if n == TimeDiff(k.tsFlush, t) {
        AtFlushTime(k, t);
      } else {
        var f :| f in k.snd.buf && TimeDiff(f.resendts, t) == n;
        LaterBy(f.resendts, t, n);
        assert ResendReached(f, c);
      }
    }
  }

  lemma DistBack(t: u32, c: u32)
    ensures c == Wrap(t + Dist(t, c))
  {
  }

  /** The answer "now" means that an update would flush now or a segment is due. */
  lemma CheckNow(k: Kcb, t: u32)
    requires 10 <= k.cfg.interval <= 5000 && Dist(t, Check(k, t)) == 0
    ensures Advance(k, Check(k, t)).flush || exists f <- k.snd.buf :: ResendReached(f, Check(k, t))
  {
    EarliestIsEarliest(k.snd.buf, t, 0x7FFF_FFFF);
    var packet := EarliestResend(k.snd.buf, t, 0x7FFF_FFFF);
    if k.updated && -10000 <= TimeDiff(t, k.tsFlush) < 0 {
      FlushDelay(k, t);
      if packet > 0 { DistForward(t, Min(Min(packet, TimeDiff(k.tsFlush, t)), k.cfg.interval)); }
    }
  }

  lemma AtFlushTime(k: Kcb, t: u32)
    requires TimeDiff(k.tsFlush, t) > 0
    ensures Advance(k, Wrap(t + TimeDiff(k.tsFlush, t))).flush
  {
  }

  // ----- fast acknowledgement counts

  lemma {:induction false} TakeAllSubset(p: Progress, ss: seq<Seg>)
    ensures forall f <- TakeAll(p, ss).k.snd.buf :: f in p.k.snd.buf
    decreases |ss|
  {
    if ss != [] {
      TakeSegSubset(p, ss[0]);
      TakeAllSubset(TakeSeg(p, ss[0]), ss[1..]);
    }
  }

  lemma TakeSegSubset(p: Progress, s: Seg)
    ensures forall f <- TakeSeg(p, s).k.snd.buf :: f in p.k.snd.buf
  {
    hide TimeDiff, Wrap, DropUna, DropAcked, ParseData, Rtt.Update;
    var snd := TakeHeader(p.k, s).snd;
    var n := DropUnaSuffix(p.k.snd.buf, s.una);
    var at := DropAckedCut(snd.buf, s.sn);
  }

  /** One datagram raises the fast-ack count of a surviving segment by at most one, and only
      for numbers strictly before the largest acknowledgement it recorded. */
  lemma InputFastack(k: Kcb, d: bytes, g: Flight) returns (f: Flight)
    requires k.cfg.mss > 0 && g in Input(k, d).k.snd.buf
    ensures f in k.snd.buf && (g == f || g == f.(fastack := Wrap(f.fastack + 1)))
    ensures g != f ==>
              var mark := TakeAll(Progress(k, NoMark), Decode(d, k.cfg.conv).segs).mark;
              mark.Mark? && TimeDiff(mark.sn, f.seg.sn) >= 0 && mark.sn != f.seg.sn
  {
    hide TimeDiff, Wrap, TakeAll, CountSkipped, Decode, Congestion.Grow;
    f := g;
    if |d| >= OVERHEAD {
      var dec := Decode(d, k.cfg.conv);
      var p := TakeAll(Progress(k, NoMark), dec.segs);
      TakeAllSubset(Progress(k, NoMark), dec.segs);
      if dec.code == 0 && p.mark.Mark? {
        CountSkippedEffect(p.k.snd.buf, p.mark.sn, p.mark.ts);
        var i :| 0 <= i < |Input(k, d).k.snd.buf| && Input(k, d).k.snd.buf[i] == g;
        f := p.k.snd.buf[i];
      }
    }
  }

  // ----- the fast-retransmission budget

  datatype Option<T> = None | Some(value: T)

  /** The control block a step flushes from, if it flushes. */
  function FlushPoint(k: Kcb, op: Op): Option<Kcb> {
    match op
    case OpFlush => if k.updated then Some(k) else None
    case OpUpdate(t) => var a := Advance(k, t); if a.flush then Some(a.k) else None
    case _ => None
  }

  predicate FastAt(k: Kcb, op: Op, sn: u32) {
    var p := FlushPoint(k, op);
    p.Some? && exists f <- p.value.snd.buf :: f.seg.sn == sn && Decide(p.value, f).Fast?
  }

  predicate Present(k: Kcb, sn: u32) {
    exists f <- k.snd.buf :: f.seg.sn == sn
  }

  /** The segment numbered `sn` is in flight before and after every step. */
  predicate AlwaysInFlight(k: Kcb, ops: seq<Op>, sn: u32)
    requires k.cfg.mss > 0
    decreases |ops|
  {
    Present(k, sn) && (ops != [] ==> (StepKeepsConfig(k, ops[0]); AlwaysInFlight(Step(k, ops[0]).k, ops[1..], sn)))
  }

  /** How often a run retransmits the segment numbered `sn` early. */
  function FastCount(k: Kcb, ops: seq<Op>, sn: u32): nat
    requires k.cfg.mss > 0
    decreases |ops|
  {
    if ops == [] then 0
    else
      StepKeepsConfig(k, ops[0]);
      (if FastAt(k, ops[0], sn) then 1 else 0) + FastCount(Step(k, ops[0]).k, ops[1..], sn)
  }

  lemma Unique(una: u32, nxt: u32, buf: seq<Flight>, f: Flight, g: Flight)
    requires Ordered(una, nxt, buf) && f in buf && g in buf && f.seg.sn == g.seg.sn
    ensures f == g
  {
    var i :| 0 <= i < |buf| && buf[i] == f;
    var j :| 0 <= j < |buf| && buf[j] == g;
    assert i == j;
  }

  lemma AdmittedHas(k: Kcb, f: Flight)
    requires f in k.snd.buf
    ensures f in Admitted(k).buf
  {
    var n := AdmitShape(k, k.snd, UsableWindow(k));
  }

  /** What a step does to one segment that stays in flight. */
  lemma FlushFlight(k: Kcb, f: Flight, g: Flight)
    requires EndpointOk(k) && k.updated && f in k.snd.buf && f.xmit + 1 < TWO31
    requires g in Flush(k).k.snd.buf && g.seg.sn == f.seg.sn
    ensures f.xmit <= g.xmit <= f.xmit + 1
    ensures Decide(k, f).Fast? ==> g.xmit == f.xmit + 1 && 1 <= f.xmit <= k.cfg.fastLimit
  {
    hide Admit, Wrap, TimeDiff, Signed32, Ordered, CargoOk, TimersOk, ReceiverInvariant.ReceiverOk, Sweep, Backoff;
    var h := SweptMember(k, Admitted(k).buf, g);
    AdmitKeepsSender(k, k.snd, k.cfg, UsableWindow(k));
    AdmittedHas(k, f);
    Unique(Admitted(k).una, Admitted(k).nxt, Admitted(k).buf, f, h);
    WrapSmall(f.xmit + 1);
    SignedSmall(f.xmit);
  }

  /** A flush works on the same segments; any other step leaves the buffer alone or thins it. */
  lemma FlushPointKeeps(k: Kcb, op: Op)
    requires EndpointOk(k)
    ensures var p := FlushPoint(k, op);
            && (p.Some? ==> EndpointOk(p.value) && p.value.updated && p.value.snd == k.snd && p.value.cfg == k.cfg
                            && Step(k, op).k == Flush(p.value).k)
            && (p.None? && !op.OpInput? ==> Step(k, op).k.snd.buf == k.snd.buf)
  {
    hide TimeDiff, Wrap;
  }

  lemma StepFlight(k: Kcb, op: Op, f: Flight, g: Flight)
    requires EndpointOk(k) && f in k.snd.buf && f.xmit + 1 < TWO31
    requires g in Step(k, op).k.snd.buf && g.seg.sn == f.seg.sn
    ensures f.xmit <= g.xmit <= f.xmit + 1
    ensures FastAt(k, op, f.seg.sn) ==> g.xmit == f.xmit + 1 && 1 <= f.xmit <= k.cfg.fastLimit
  {
    hide Flush, Decide, Input, Recv, Advance, Ordered, CargoOk, TimersOk, ReceiverInvariant.ReceiverOk, ValidConfig;
    var p := FlushPoint(k, op);
    FlushPointKeeps(k, op);
    if p.Some? {
      FlushFlight(p.value, f, g);
      if FastAt(k, op, f.seg.sn) {
        var h :| h in p.value.snd.buf && h.seg.sn == f.seg.sn && Decide(p.value, h).Fast?;
        Unique(k.snd.una, k.snd.nxt, k.snd.buf, f, h);
      }
    } else if op.OpInput? {
      InputKeeps(k, op.d);
      var h :| h in k.snd.buf && SameButCount(h, g);
      Unique(k.snd.una, k.snd.nxt, k.snd.buf, f, h);
    } else {
      Unique(k.snd.una, k.snd.nxt, k.snd.buf, f, g);
    }
  }

  /** Over its whole life a segment is retransmitted early at most five times, fewer the more
      often it has been sent already. */
  lemma {:induction false} FastBudget(k: Kcb, ops: seq<Op>, f: Flight)
    requires EndpointOk(k) && f in k.snd.buf && f.xmit + |ops| < TWO31
    requires forall op <- ops :: op.OpSend? ==> |op.msg| < TWO31
    requires AlwaysInFlight(k, ops, f.seg.sn)
    ensures FastCount(k, ops, f.seg.sn) <= Max(0, 6 - Max(1, f.xmit)) <= 5
    decreases |ops|
  {
    if ops != [] {
      StepKeeps(k, ops[0]);
      StepKeepsConfig(k, ops[0]);
      var k' := Step(k, ops[0]).k;
      assert Present(k', f.seg.sn);
      var g :| g in k'.snd.buf && g.seg.sn == f.seg.sn;
      StepFlight(k, ops[0], f, g);
      FastBudget(k', ops[1..], g);
    }
  }
}
