/** When flushes come: what `ikcp_update` leaves in `ts_flush`, and over whole runs how far apart
    two flushes are when the endpoint is polled, whatever else happens in between. */
module Pacing {
  import opened Words
  import opened Wire
  import opened Kcp
  import opened Endpoint

  /** The clock has reached `ts_flush`, or has been set so far off that the schedule is dropped. */
  predicate FlushDue(k: Kcb, t: u32) {
    !k.updated || TimeDiff(t, k.tsFlush) >= 0 || TimeDiff(t, k.tsFlush) < -10000
  }

  /** An update, exactly: it flushes when a flush is due, and schedules the next one within an
      interval; one that comes on time, at its time plus an interval.  Otherwise it only takes
      the time. */
  lemma UpdateExactly(k: Kcb, t: u32)
    requires 10 <= k.cfg.interval <= 5000
    ensures var u := Update(k, t);
            if FlushDue(k, t) then
              && u == Flush(k.(current := t, updated := true, tsFlush := u.k.tsFlush))
              && 0 < TimeDiff(u.k.tsFlush, t) <= k.cfg.interval
              && (k.updated && 0 <= TimeDiff(t, k.tsFlush) < k.cfg.interval ==>
                    u.k.tsFlush == Wrap(k.tsFlush + k.cfg.interval))
              && (!k.updated || !(-10000 <= TimeDiff(t, k.tsFlush) < 10000) ==> u.k.tsFlush == Wrap(t + k.cfg.interval))
            else u == Flushed(k.(current := t), [], [])
  {
    hide TimeDiff, Wrap, Flush;
    var i := k.cfg.interval;
    FlushLeavesClock(Advance(k, t).k);
    OneAhead(t, i);
    OwnTime(t);
    if k.updated && 0 <= TimeDiff(t, k.tsFlush) < 10000 { NextOne(t, k.tsFlush, i); }
  }

  lemma FlushLeavesClock(k: Kcb)
    ensures Flush(k).k.tsFlush == k.tsFlush && Flush(k).k.updated == k.updated && Flush(k).k.cfg == k.cfg
    ensures Flush(k).k.current == k.current
  {
  }

  lemma OwnTime(t: u32)
    ensures TimeDiff(t, t) == 0
  {
  }

  lemma OneAhead(t: u32, n: int)
    requires 0 < n < TWO31
    ensures TimeDiff(Wrap(t + n), t) == n && TimeDiff(t, Wrap(t + n)) < 0
  {
  }

  /** One interval after a time that `t` has passed by less than ten seconds. */
  lemma NextOne(t: u32, due: u32, n: int)
    requires 0 <= TimeDiff(t, due) < 10000 && 0 < n <= 5000
    ensures TimeDiff(Wrap(due + n), t) == n - TimeDiff(t, due)
    ensures TimeDiff(t, Wrap(due + n)) == TimeDiff(t, due) - n
  {
    hide TimeDiff, Wrap, Dist;
    TimeDiffByDist(t, due);
    DistForward(due, n);
    TimeDiffFromOrigin(due, Wrap(due + n), t);
    TimeDiffFromOrigin(due, t, Wrap(due + n));
  }

  // ----- runs

  /** A poll at a time that never wraps, or any other operation. */
  datatype Event = Poll(at: int) | Other(op: Op)

  predicate Sound(e: Event) {
    e.Other? ==> !e.op.OpUpdate? && (e.op.OpSend? ==> |e.op.msg| < TWO31)
  }

  function After(k: Kcb, e: Event): (r: Kcb)
    requires k.cfg.mss > 0 && Sound(e)
    ensures r.cfg == k.cfg
  {
    match e
    case Poll(at) => FlushLeavesClock(Advance(k, Wrap(at)).k); Update(k, Wrap(at)).k
    case Other(op) => StepKeepsConfig(k, op); Step(k, op).k
  }

  /** A run of events during which no poll flushes, polls in order of time and at most `d` apart
      from `last` on. */
  predicate Quiet(k: Kcb, last: int, es: seq<Event>, d: int)
    requires k.cfg.mss > 0
    decreases |es|
  {
    es == [] ||
    (&& Sound(es[0])
     && (es[0].Poll? ==> last <= es[0].at <= last + d && !FlushDue(k, Wrap(es[0].at)))
     && Quiet(After(k, es[0]), if es[0].Poll? then es[0].at else last, es[1..], d))
  }

  function LastPoll(last: int, es: seq<Event>): int
    decreases |es|
  {
    if es == [] then last else LastPoll(if es[0].Poll? then es[0].at else last, es[1..])
  }

  function AfterAll(k: Kcb, es: seq<Event>): (r: Kcb)
    requires k.cfg.mss > 0 && forall e <- es :: Sound(e)
    ensures r.cfg == k.cfg
    decreases |es|
  {
    if es == [] then k else AfterAll(After(k, es[0]), es[1..])
  }

  lemma OthersKeepSchedule(k: Kcb, op: Op)
    requires k.cfg.mss > 0 && !op.OpUpdate?
    ensures Step(k, op).k.tsFlush == k.tsFlush && Step(k, op).k.updated == k.updated
  {
    hide Flush, Recv, Fragments;
    match op
    case OpSend(msg) => {}
    case OpRecv(len) => RecvKeepsSchedule(k, len);
    case OpInput(d) => InputKeepsSchedule(k, d);
    case OpFlush => FlushLeavesClock(k);
    case OpUpdate(t) => {}
  }

  lemma RecvKeepsSchedule(k: Kcb, len: int)
    ensures Recv(k, len).k.tsFlush == k.tsFlush && Recv(k, len).k.updated == k.updated
  {
  }

  lemma InputKeepsSchedule(k: Kcb, d: bytes)
    requires k.cfg.mss > 0
    ensures Input(k, d).k.tsFlush == k.tsFlush && Input(k, d).k.updated == k.updated
  {
    hide TakeAll, Decode;
    if |d| >= OVERHEAD {
      TakeAllKeepsSchedule(Progress(k, NoMark), Decode(d, k.cfg.conv).segs);
    }
  }

  lemma {:induction false} TakeAllKeepsSchedule(p: Progress, ss: seq<Seg>)
    ensures TakeAll(p, ss).k.tsFlush == p.k.tsFlush && TakeAll(p, ss).k.updated == p.k.updated
    decreases |ss|
  {
    hide ParseData, ParseAck, DropUna, BelowWindowEnd, TimeDiff;
    if ss != [] { TakeAllKeepsSchedule(TakeSeg(p, ss[0]), ss[1..]); }
  }

  /** The next flush is scheduled at `at`, a time that never wraps. */
  predicate ScheduledAt(k: Kcb, at: int) {
    k.updated && k.tsFlush == Wrap(at)
  }

  lemma DueAt(k: Kcb, at: int, t: int)
    requires ScheduledAt(k, at) && -10000 <= t - at < TWO31
    ensures FlushDue(k, Wrap(t)) <==> t >= at
  {
    hide Wrap, TimeDiff;
    TimeDiffIsExactWithinHalf(t, at);
  }

  /** While no poll flushes, no poll has reached the scheduled time. */
  lemma {:induction false} QuietUntil(k: Kcb, last: int, at: int, es: seq<Event>, d: int)
    requires k.cfg.mss > 0 && 10 <= k.cfg.interval <= 5000 && ScheduledAt(k, at)
    requires last < at <= last + 5000 && 0 <= d < TWO31 - 5000 && Quiet(k, last, es, d)
    ensures (forall e <- es :: Sound(e)) && ScheduledAt(AfterAll(k, es), at)
    ensures last <= LastPoll(last, es) < at
    decreases |es|
  {
    hide Wrap, TimeDiff, Update;
    if es != [] {
      var e := es[0];
      if e.Poll? {
        DueAt(k, at, e.at);
        UpdateExactly(k, Wrap(e.at));
        QuietUntil(After(k, e), e.at, at, es[1..], d);
      } else {
        OthersKeepSchedule(k, e.op);
        QuietUntil(After(k, e), last, at, es[1..], d);
      }
    }
  }

  /** Two successive flushes: when a poll at `t0` flushes and the endpoint is polled every `d`
      milliseconds or oftener, whatever else it does, the next poll that flushes comes less than
      one interval and `d` later; every poll an interval after the first, if there was none
      before, does flush; and none flushes before its scheduled time. */
  lemma FlushesAreClose(k: Kcb, t0: int, es: seq<Event>, d: int, t: int)
    requires k.cfg.mss > 0 && 10 <= k.cfg.interval <= 5000 && FlushDue(k, Wrap(t0)) && 0 <= d < TWO31 - 10000
    requires Quiet(After(k, Poll(t0)), t0, es, d) && LastPoll(t0, es) <= t <= LastPoll(t0, es) + d
    ensures forall e <- es :: Sound(e)
    ensures t < t0 + k.cfg.interval + d
    ensures var k' := AfterAll(After(k, Poll(t0)), es);
            && (t >= t0 + k.cfg.interval ==> FlushDue(k', Wrap(t)))
            && (k.updated && TimeDiff(Wrap(t0), k.tsFlush) == 0 ==>
               (FlushDue(k', Wrap(t)) <==> t >= t0 + k.cfg.interval))
  {
    hide Wrap, TimeDiff, Update;
    UpdateExactly(k, Wrap(t0));
    var k1 := After(k, Poll(t0));
    var at := t0 + TimeDiff(k1.tsFlush, Wrap(t0));
    TimeBack(k1.tsFlush, t0);
    UpdatedNow(k, Wrap(t0));
    QuietUntil(k1, t0, at, es, d);
    DueAt(AfterAll(k1, es), at, t);
    if k.updated && TimeDiff(Wrap(t0), k.tsFlush) == 0 { OnTime(k.tsFlush, t0, k.cfg.interval); }
  }

  lemma TimeBack(w: u32, t0: int)
    ensures Wrap(t0 + TimeDiff(w, Wrap(t0))) == w
  {
  }

  lemma OnTime(ts: u32, t0: int, n: int)
    requires TimeDiff(Wrap(t0), ts) == 0 && 0 < n <= 5000
    ensures TimeDiff(Wrap(ts + n), Wrap(t0)) == n
  {
  }

  lemma UpdatedNow(k: Kcb, t: u32)
    ensures Update(k, t).k.updated
  {
    hide TimeDiff, Wrap, Flush;
    FlushLeavesClock(Advance(k, t).k);
  }
}
