/** What one flush does, segment by segment and field by field: which fragments are numbered,
    which segments go out and with what timers, and how the congestion window, the window probe
    and the dead-link flag react. */
module Transmission {
  import opened Words
  import opened Wire
  import opened Kcp
  import opened SenderInvariant
  import opened Endpoint
  import Congestion
  import ReceiverInvariant

  // ----- why a segment goes out

  /** It was sent, and its deadline has been reached. */
  predicate Overdue(k: Kcb, f: Flight) {
    f.xmit >= 1 && TimeDiff(k.current, f.resendts) >= 0
  }

  /** It was sent no more than five times, its deadline is still ahead, and enough later
      segments have been acknowledged. */
  predicate Skipped(k: Kcb, f: Flight) {
    && f.xmit >= 1 && TimeDiff(k.current, f.resendts) < 0 && Signed32(f.xmit) <= 5
    && f.fastack >= if k.cfg.fastResend > 0 then k.cfg.fastResend else 0xFFFF_FFFF
  }

  predicate GoesOut(k: Kcb, f: Flight) {
    f.xmit == 0 || Overdue(k, f) || Skipped(k, f)
  }

  /** The receive window that is left. */
  function Room(k: Kcb): int {
    Max(0, k.cfg.rcvWnd - |k.rcv.queue|)
  }

  /** `g` is `f`, sent now. */
  predicate SentNow(k: Kcb, f: Flight, g: Flight) {
    g.xmit == Wrap(f.xmit + 1) && g.seg == f.seg.(ts := k.current, wnd := Room(k), una := k.rcv.nxt)
  }

  /** The timers of a segment sent for the first time. */
  predicate FirstTimers(k: Kcb, g: Flight) {
    && g.rto == k.rtt.rto
    && g.resendts == Wrap(k.current + k.rtt.rto + if k.cfg.nodelay == 0 then k.rtt.rto / 8 else 0)
  }

  /** The timers of a segment sent again because it is overdue: longer than before. */
  predicate LongerTimers(k: Kcb, f: Flight, g: Flight) {
    && g.resendts == Wrap(k.current + g.rto)
    && (k.cfg.nodelay == 0 ==> g.rto == Wrap(f.rto + Max(f.rto, k.rtt.rto)))
    && (k.cfg.nodelay == 1 && f.rto < TWO31 ==> g.rto == f.rto + f.rto / 2)
    && (k.cfg.nodelay >= 2 ==> g.rto == Wrap(f.rto + k.rtt.rto / 2))
  }

  /** What the pass of a flush makes of a segment. */
  predicate Passed(k: Kcb, f: Flight, g: Flight) {
    if f.xmit == 0 then SentNow(k, f, g) && FirstTimers(k, g) && g.fastack == f.fastack
    else if Overdue(k, f) then SentNow(k, f, g) && LongerTimers(k, f, g) && g.fastack == f.fastack
    else if Skipped(k, f) then
      SentNow(k, f, g) && g.rto == f.rto && g.resendts == Wrap(k.current + f.rto) && g.fastack == 0
    else g == f
  }

  lemma DecideMeans(k: Kcb, f: Flight)
    requires k.cfg.fastLimit == 5
    ensures Decide(k, f).First? <==> f.xmit == 0
    ensures Decide(k, f).Timeout? <==> Overdue(k, f)
    ensures Decide(k, f).Fast? <==> Skipped(k, f)
    ensures Decide(k, f).Hold? <==> !GoesOut(k, f)
  {
    hide TimeDiff, Signed32;
  }

  lemma RoomLeft(k: Kcb)
    ensures WndUnused(k) == Room(k)
  {
  }

  lemma HalfOf(x: u32)
    requires x < TWO31
    ensures TruncDiv(Signed32(x), 2) == x / 2 && Wrap(x + x / 2) == x + x / 2
  {
  }

  lemma ResendPasses(k: Kcb, f: Flight)
    requires k.cfg.fastLimit == 5 && 0 <= k.rtt.rto <= 60000
    ensures Passed(k, f, Resend(k, f))
  {
    hide TimeDiff, Wrap, Signed32, TruncDiv;
    DecideMeans(k, f);
    RoomLeft(k);
    WrapSmall(k.rtt.rto);
    if f.rto < TWO31 { HalfOf(f.rto); }
    assert TruncDiv(k.rtt.rto, 2) == k.rtt.rto / 2 by { HalvesRto(k.rtt.rto); }
  }

  lemma HalvesRto(x: int)
    requires x >= 0
    ensures TruncDiv(x, 2) == x / 2
  {
  }

  // ----- how many fragments are numbered

  /** The least of the windows that apply. */
  function Allowance(k: Kcb): int {
    var w := Min(k.cfg.sndWnd, k.rmtWnd);
    if k.cfg.noCwnd then w else Min(w, k.cc.cwnd)
  }

  /** As many as wait, or as fit. */
  function Fitting(k: Kcb): nat {
    Min(|k.snd.queue|, Max(0, Allowance(k) - Dist(k.snd.una, k.snd.nxt)))
  }

  lemma WindowRoom(una: u32, nxt: u32, window: int)
    requires Dist(una, nxt) <= WINDOW_MAX && 0 <= window <= WINDOW_MAX
    ensures TimeDiff(nxt, Wrap(una + window)) < 0 <==> Dist(una, nxt) < window
    ensures Dist(una, nxt) < window ==> Dist(una, Wrap(nxt + 1)) == Dist(una, nxt) + 1
  {
    hide TimeDiff, Wrap, Dist;
    DistForward(una, window);
    TimeDiffFromOrigin(una, nxt, Wrap(una + window));
    NextDist(una, nxt);
  }

  lemma NextDist(una: u32, nxt: u32)
    requires Dist(una, nxt) < TWO31
    ensures Dist(una, Wrap(nxt + 1)) == Dist(una, nxt) + 1
  {
  }

  lemma {:induction false} AdmitCount(k: Kcb, s: Sender, window: int)
    requires Dist(s.una, s.nxt) <= WINDOW_MAX && 0 <= window <= WINDOW_MAX
    ensures |Admit(k, s, window).queue| == |s.queue| - Min(|s.queue|, Max(0, window - Dist(s.una, s.nxt)))
    decreases |s.queue|
  {
    hide TimeDiff, Wrap, Dist;
    WindowRoom(s.una, s.nxt, window);
    if Dist(s.una, s.nxt) < window && s.queue != [] {
      AdmitCount(k, Sender(s.una, Wrap(s.nxt + 1), s.queue[1..], s.buf + [Launch(k, s.queue[0], s.nxt)]), window);
    }
  }

  lemma AllowanceIs(k: Kcb)
    requires EndpointOk(k)
    ensures UsableWindow(k) == Allowance(k) && 0 <= Allowance(k) <= WINDOW_MAX
            && Dist(k.snd.una, k.snd.nxt) <= WINDOW_MAX
  {
  }

  /** The sending half after admission, piece by piece. */
  lemma AdmittedIs(k: Kcb)
    requires EndpointOk(k)
    ensures var c, s := Fitting(k), Admitted(k);
            && s.una == k.snd.una && s.nxt == Wrap(k.snd.nxt + c) && s.queue == k.snd.queue[c..]
            && s.buf == k.snd.buf + Launched(k, k.snd.queue[..c], k.snd.nxt)
  {
    hide EndpointOk, Admit, UsableWindow, Wrap, Dist;
    AllowanceIs(k);
    AdmitCount(k, k.snd, UsableWindow(k));
    var n := AdmitShape(k, k.snd, UsableWindow(k));
  }

  /** `g` carries fragment `q` under number `sn`, sent now for the first time. */
  predicate NewlySent(k: Kcb, q: Frag, sn: u32, g: Flight) {
    && g.seg == Seg(k.cfg.conv, CMD_PUSH, q.frg, Room(k), k.current, sn, k.rcv.nxt, q.data)
    && g.xmit == 1 && g.fastack == 0 && FirstTimers(k, g)
  }

  /** The whole sending half after a flush: exactly the fragments that fit are numbered, in order,
      and every segment has what its own state calls for. */
  lemma FlushExactly(k: Kcb)
    requires EndpointOk(k) && k.updated
    ensures var c, s, s' := Fitting(k), k.snd, Flush(k).k.snd;
            && s'.una == s.una && s'.nxt == Wrap(s.nxt + c) && s'.queue == s.queue[c..] && |s'.buf| == |s.buf| + c
            && (forall i :: 0 <= i < |s.buf| ==> Passed(k, s.buf[i], s'.buf[i]))
            && (forall i :: 0 <= i < c ==> NewlySent(k, s.queue[i], Wrap(s.nxt + i), s'.buf[|s.buf| + i]))
  {
    hide EndpointOk, Flush, Admitted, Wrap, Resend, Passed, Fitting, Sweep, NewlySent;
    var c, s, s' := Fitting(k), k.snd, Flush(k).k.snd;
    FlushBuffer(k);
    AdmittedIs(k);
    FittingBound(k);
    FlushSetting(k);
    SweepPointwise(k, Admitted(k).buf);
    forall i | 0 <= i < |s.buf| ensures Passed(k, s.buf[i], s'.buf[i]) {
      ResendPasses(k, s.buf[i]);
    }
    forall i | 0 <= i < c ensures NewlySent(k, s.queue[i], Wrap(s.nxt + i), s'.buf[|s.buf| + i]) {
      var f := Launch(k, s.queue[i], Wrap(s.nxt + i));
      assert Admitted(k).buf[|s.buf| + i] == Launched(k, s.queue[..c], s.nxt)[i] == f;
      ResendPasses(k, f);
      LaunchPasses(k, s.queue[i], Wrap(s.nxt + i), Resend(k, f));
    }
  }

  lemma FittingBound(k: Kcb)
    ensures Fitting(k) <= |k.snd.queue|
  {
    hide Dist;
  }

  lemma FlushSetting(k: Kcb)
    requires EndpointOk(k)
    ensures k.cfg.fastLimit == 5 && k.cfg.deadLink == 20 && 30 <= k.rtt.rto <= 60000
  {
  }

  lemma LaunchPasses(k: Kcb, q: Frag, sn: u32, g: Flight)
    requires Passed(k, Launch(k, q, sn), g)
    ensures NewlySent(k, q, sn, g)
  {
    hide TimeDiff;
    RoomLeft(k);
  }

  // ----- what goes out

  predicate SentAt(k: Kcb, i: nat) {
    i < |k.snd.buf| ==> GoesOut(k, k.snd.buf[i])
  }

  /** The segments among the first `n` of `buf` that go out, in order. */
  function Chosen(k: Kcb, buf: seq<Flight>, n: nat): seq<Seg>
    requires n <= |buf|
  {
    if n == 0 then [] else Chosen(k, buf, n - 1) + if SentAt(k, n - 1) then [buf[n - 1].seg] else []
  }

  function Picked(k: Kcb, buf: seq<Flight>): seq<Seg> {
    if buf == [] then []
    else Picked(k, buf[..|buf| - 1]) + if GoesOut(k, buf[|buf| - 1]) then [Resend(k, buf[|buf| - 1]).seg] else []
  }

  lemma {:induction false} SweepSnoc(k: Kcb, buf: seq<Flight>, f: Flight)
    ensures Sweep(k, buf + [f]) == Join(Sweep(k, buf), SweepOne(k, f))
  {
    hide SweepOne;
    if buf == [] {
      assert buf + [f] == [f] && [f][1..] == [];
    } else {
      assert (buf + [f])[1..] == buf[1..] + [f];
      SweepSnoc(k, buf[1..], f);
    }
  }

  lemma {:induction false} SweepOut(k: Kcb, buf: seq<Flight>)
    requires k.cfg.fastLimit == 5
    ensures Sweep(k, buf).out == Picked(k, buf)
  {
    hide Decide, Resend, GoesOut, Sweep;
    if buf == [] {
      NothingSwept(k);
    } else {
      var last := |buf| - 1;
      SweepOut(k, buf[..last]);
      assert buf == buf[..last] + [buf[last]];
      SweepSnoc(k, buf[..last], buf[last]);
      DecideMeans(k, buf[last]);
    }
  }

  lemma NothingSwept(k: Kcb)
    ensures Sweep(k, []) == Swept([], [], 0, 0, false)
  {
  }

  lemma {:induction false} ChosenIsPicked(k: Kcb, buf: seq<Flight>, done: seq<Flight>, n: nat)
    requires n <= |buf| == |done| && k.snd.buf <= buf
    requires forall i :: 0 <= i < |buf| ==> done[i] == Resend(k, buf[i]) && (i >= |k.snd.buf| ==> buf[i].xmit == 0)
    ensures Chosen(k, done, n) == Picked(k, buf[..n])
  {
    hide Resend, Overdue, Skipped;
    if n > 0 {
      ChosenIsPicked(k, buf, done, n - 1);
      assert buf[..n][..n - 1] == buf[..n - 1] && buf[..n][n - 1] == buf[n - 1];
    }
  }

  /** The segments of `snd_buf` come first, then the new ones. */
  lemma AdmittedNew(k: Kcb)
    requires EndpointOk(k)
    ensures var a := Admitted(k).buf;
            && k.snd.buf <= a && (forall i :: |k.snd.buf| <= i < |a| ==> a[i].xmit == 0)
            && (forall i :: 0 <= i < |k.snd.buf| ==> a[i] == k.snd.buf[i])
  {
    hide EndpointOk, Admitted, Wrap, Fitting;
    AdmittedIs(k);
    FittingBound(k);
    var a := Admitted(k).buf;
    forall i | |k.snd.buf| <= i < |a| ensures a[i].xmit == 0 {
      assert a[i] == Launched(k, k.snd.queue[..Fitting(k)], k.snd.nxt)[i - |k.snd.buf|];
    }
  }

  lemma FlushBuffer(k: Kcb)
    requires k.updated
    ensures Flush(k).k.snd == Admitted(k).(buf := Sweep(k, Admitted(k).buf).buf) && Flush(k).segs == FlushSegs(k)
    ensures Flush(k).k.dead == (k.dead || Sweep(k, Admitted(k).buf).dead)
    ensures Flush(k).k.xmit == Wrap(k.xmit + Sweep(k, Admitted(k).buf).timeouts)
  {
    hide Sweep, Admitted, Pack, FlushSegs, Probing, Congestion.React;
  }

  /** A flush emits control segments and then, in the order of `snd_buf`, exactly the segments
      that are new, overdue or skipped, each once. */
  lemma FlushEmits(k: Kcb) returns (control: seq<Seg>)
    requires EndpointOk(k) && k.updated
    ensures var buf := Flush(k).k.snd.buf;
            Flush(k).segs == control + Chosen(k, buf, |buf|)
    ensures forall s <- control :: s.cmd != CMD_PUSH
  {
    hide EndpointOk, Flush, Admitted, Resend, Sweep, Probing, Picked, Chosen, GoesOut;
    control := AckSegs(k, k.acks) + ProbeSegs(k, Probing(k.probe, k.rmtWnd, k.current));
    var a := Admitted(k).buf;
    AdmittedNew(k);
    FlushBuffer(k);
    FlushSetting(k);
    SweepPointwise(k, a);
    SweepOut(k, a);
    ChosenIsPicked(k, a, Flush(k).k.snd.buf, |a|);
    assert a[..|a|] == a;
  }

  lemma {:induction false} ChosenHas(k: Kcb, buf: seq<Flight>, n: nat, s: Seg)
    requires n <= |buf|
    ensures s in Chosen(k, buf, n) <==> exists i :: 0 <= i < n && SentAt(k, i) && buf[i].seg == s
  {
    hide SentAt;
    if n > 0 { ChosenHas(k, buf, n - 1, s); }
  }

  // ----- one segment

  /** Its number goes out in the flush, with its payload. */
  predicate Emits(k: Kcb, f: Flight) {
    exists s <- Flush(k).segs ::
      s.cmd == CMD_PUSH && s.sn == f.seg.sn && s.frg == f.seg.frg && s.data == f.seg.data && s.ts == k.current
  }

  predicate EmitsNumber(k: Kcb, sn: u32) {
    exists s <- Flush(k).segs :: s.cmd == CMD_PUSH && s.sn == sn
  }

  lemma FlightEmitted(k: Kcb, i: nat)
    requires EndpointOk(k) && k.updated && i < |k.snd.buf|
    ensures GoesOut(k, k.snd.buf[i]) ==> Emits(k, k.snd.buf[i])
    ensures !GoesOut(k, k.snd.buf[i]) ==> !EmitsNumber(k, k.snd.buf[i].seg.sn)
  {
    hide EndpointOk, Flush, Chosen, GoesOut, Passed, Wrap;
    var f, s' := k.snd.buf[i], Flush(k).k.snd;
    FlushExactly(k);
    var control := FlushEmits(k);
    NumbersDiffer(k);
    FlightPasses(k, f, s'.buf[i]);
    if GoesOut(k, f) {
      FlightKind(k, f);
      assert SentAt(k, i);
      ChosenHas(k, s'.buf, |s'.buf|, s'.buf[i].seg);
      assert s'.buf[i].seg in Flush(k).segs;
    } else {
      forall s | s in Flush(k).segs && s.cmd == CMD_PUSH ensures s.sn != f.seg.sn {
        ChosenHas(k, s'.buf, |s'.buf|, s);
      }
    }
  }

  lemma FlightKind(k: Kcb, f: Flight)
    requires EndpointOk(k) && f in k.snd.buf
    ensures f.seg.cmd == CMD_PUSH
  {
    assert FlightOk(f, k.cfg);
  }

  lemma FlightPasses(k: Kcb, f: Flight, g: Flight)
    requires Passed(k, f, g)
    ensures g.seg.sn == f.seg.sn && g.seg.cmd == f.seg.cmd && g.seg.frg == f.seg.frg && g.seg.data == f.seg.data
    ensures GoesOut(k, f) ==> g.seg.ts == k.current
  {
  }

  /** No number occurs twice in `snd_buf` after a flush. */
  lemma NumbersDiffer(k: Kcb)
    requires EndpointOk(k) && k.updated
    ensures var buf := Flush(k).k.snd.buf;
            forall i, j :: 0 <= i < |buf| && 0 <= j < |buf| && buf[i].seg.sn == buf[j].seg.sn ==> i == j
  {
    hide Flush, CargoOk, TimersOk, ReceiverInvariant.ReceiverOk;
    FlushKeeps(k);
    OrderedDiffer(Flush(k).k.snd);
  }

  lemma OrderedDiffer(s: Sender)
    requires Ordered(s.una, s.nxt, s.buf)
    ensures forall i, j :: 0 <= i < |s.buf| && 0 <= j < |s.buf| && s.buf[i].seg.sn == s.buf[j].seg.sn ==> i == j
  {
    hide Dist;
  }

  /** Fast retransmission, exactly: a sent segment whose deadline is still ahead goes out if and
      only if enough later ones have been acknowledged and it was sent at most five times. */
  lemma FastExactly(k: Kcb, i: nat)
    requires EndpointOk(k) && k.updated && k.cfg.fastResend > 0 && i < |k.snd.buf|
    requires k.snd.buf[i].xmit >= 1 && TimeDiff(k.current, k.snd.buf[i].resendts) < 0
    ensures var f := k.snd.buf[i];
            var early := f.fastack >= k.cfg.fastResend && Signed32(f.xmit) <= 5;
            && |Flush(k).k.snd.buf| >= |k.snd.buf|
            && (early <==> EmitsNumber(k, f.seg.sn)) && (early ==> Emits(k, f))
            && var g := Flush(k).k.snd.buf[i];
            && (early ==> g.xmit == Wrap(f.xmit + 1) && g.fastack == 0 && g.rto == f.rto
                          && g.resendts == Wrap(k.current + f.rto)
                          && g.seg == f.seg.(ts := k.current, wnd := Max(0, k.cfg.rcvWnd - |k.rcv.queue|), una :=
                          k.rcv.nxt))
            && (!early ==> g == f)
  {
    hide EndpointOk, Flush, Wrap, Signed32, TimeDiff;
    FlushExactly(k);
    FlightEmitted(k, i);
  }

  /** Timeouts, exactly: an overdue segment goes out and waits longer the next time; with
      nodelay = 1, half as long again. */
  lemma TimeoutExactly(k: Kcb, i: nat)
    requires EndpointOk(k) && k.updated && i < |k.snd.buf|
    requires k.snd.buf[i].xmit >= 1 && TimeDiff(k.current, k.snd.buf[i].resendts) >= 0
    ensures |Flush(k).k.snd.buf| >= |k.snd.buf| && Emits(k, k.snd.buf[i])
    ensures var f, g := k.snd.buf[i], Flush(k).k.snd.buf[i];
            && g.xmit == Wrap(f.xmit + 1) && g.fastack == f.fastack && g.resendts == Wrap(k.current + g.rto)
            && (k.cfg.nodelay == 1 && f.rto < TWO31 ==> g.rto == f.rto + f.rto / 2)
            && (k.cfg.nodelay == 0 ==> g.rto == Wrap(f.rto + Max(f.rto, k.rtt.rto)))
            && (k.cfg.nodelay >= 2 ==> g.rto == Wrap(f.rto + k.rtt.rto / 2))
  {
    hide EndpointOk, Flush, Wrap, Signed32, TimeDiff;
    FlushExactly(k);
    FlightEmitted(k, i);
  }

  // ----- congestion, dead link and counters

  function CountOverdue(k: Kcb, buf: seq<Flight>): nat {
    if buf == [] then 0 else CountOverdue(k, buf[..|buf| - 1]) + if Overdue(k, buf[|buf| - 1]) then 1 else 0
  }

  lemma {:induction false} SweepCounts(k: Kcb, buf: seq<Flight>)
    requires k.cfg.fastLimit == 5
    ensures var sw := Sweep(k, buf);
            && sw.timeouts == CountOverdue(k, buf)
            && (sw.timeouts > 0 <==> exists i :: 0 <= i < |buf| && Overdue(k, buf[i]))
            && (sw.fasts > 0 <==> exists i :: 0 <= i < |buf| && Skipped(k, buf[i]))
            && (sw.dead <==>
                  exists i :: 0 <= i < |buf| && GoesOut(k, buf[i]) && Resend(k, buf[i]).xmit >= k.cfg.deadLink)
  {
    hide Decide, Resend, GoesOut, Overdue, Skipped, Sweep;
    if buf == [] {
      NothingSwept(k);
    } else {
      var last := |buf| - 1;
      SweepCounts(k, buf[..last]);
      assert buf == buf[..last] + [buf[last]];
      SweepSnoc(k, buf[..last], buf[last]);
      DecideMeans(k, buf[last]);
    }
  }

  lemma {:induction false} NewNotOverdue(k: Kcb, buf: seq<Flight>, added: seq<Flight>)
    requires forall f <- added :: f.xmit == 0
    ensures CountOverdue(k, buf + added) == CountOverdue(k, buf)
  {
    hide TimeDiff;
    if added == [] {
      assert buf + added == buf;
    } else {
      var last := |added| - 1;
      assert (buf + added)[..|buf + added| - 1] == buf + added[..last]
        && (buf + added)[|buf + added| - 1] == added[last];
      NewNotOverdue(k, buf, added[..last]);
    }
  }

  predicate AnyOverdue(k: Kcb) { exists i :: 0 <= i < |k.snd.buf| && Overdue(k, k.snd.buf[i]) }

  predicate AnySkipped(k: Kcb) { exists i :: 0 <= i < |k.snd.buf| && Skipped(k, k.snd.buf[i]) }

  /** The reaction to loss, on the numbers: a timeout closes the congestion window to one segment
      and halves the threshold from the window in use; a fast retransmission alone halves it from
      what is in flight and goes on above it; without either, only an unset window is set. */
  lemma LossReaction(k: Kcb)
    requires EndpointOk(k) && k.updated && Tuned(k.cfg)
    ensures var c, c', s' := k.cc, Flush(k).k.cc, Flush(k).k.snd;
            if AnyOverdue(k) then
              c'.cwnd == 1 && c'.incr == k.cfg.mss && c'.ssthresh == Max(Allowance(k) / 2, 2)
            else if AnySkipped(k) then
              var half := Max(Dist(s'.una, s'.nxt) / 2, 2);
              && c'.ssthresh == half && c'.cwnd == half + k.cfg.fastResend && c'.incr == c'.cwnd * k.cfg.mss
            else if c.cwnd == 0 then c' == c.(cwnd := 1, incr := k.cfg.mss)
            else c' == c
  {
    hide EndpointOk, Flush, Wrap, Dist, Congestion.React, Congestion.Consistent, AnyOverdue, AnySkipped, Sweep,
      Allowance;
    AdmittedIs(k);
    var a := Admitted(k);
    AnyInAdmitted(k);
    FlushSetting(k);
    SweepCounts(k, a.buf);
    AllowanceIs(k);
    InFlightBound(k);
    FlushCongestion(k);
    MssPositive(k.cfg);
    ConfigValid(k);
    ReactsExactly(k.cc, Sweep(k, a.buf).fasts > 0, Sweep(k, a.buf).timeouts > 0, Dist(a.una, a.nxt), Allowance(k),
      k.cfg.fastResend, k.cfg.mss);
  }

  lemma ConfigValid(k: Kcb)
    requires EndpointOk(k)
    ensures ValidConfig(k.cfg)
  {
  }

  lemma FlushCongestion(k: Kcb)
    requires k.updated && k.cfg.fastResend > 0
    ensures var a, f := Admitted(k), Flush(k).k;
            && f.snd.una == a.una && f.snd.nxt == a.nxt
            && f.cc == Congestion.React(k.cc, Sweep(k, a.buf).fasts > 0, Sweep(k, a.buf).timeouts > 0,
            Dist(a.una, a.nxt),
                                        UsableWindow(k), k.cfg.fastResend, k.cfg.mss)
  {
    hide Sweep, Admitted, Pack, Probing, FlushSegs, Congestion.React, UsableWindow, Dist;
  }

  lemma ReactsExactly(c: Congestion.Window, fast: bool, lost: bool, inflight: u32, used: u32, resent: u32, mss: u32)
    requires inflight <= 0xFFFF && resent <= 0x8000 && mss <= 65511
    ensures var c' := Congestion.React(c, fast, lost, inflight, used, resent, mss);
            if lost then c'.cwnd == 1 && c'.incr == mss && c'.ssthresh == Max(used / 2, 2)
            else if fast then
              var half := Max(inflight / 2, 2);
              c'.ssthresh == half && c'.cwnd == half + resent && c'.incr == c'.cwnd * mss
            else if c.cwnd == 0 then c' == c.(cwnd := 1, incr := mss)
            else c' == c
  {
    hide Congestion.Mul32, Wrap;
    var half := Max(inflight / 2, 2);
    WrapSmall(half + resent);
    Congestion.Mul32Exact(half + resent, mss);
  }

  lemma InFlightBound(k: Kcb)
    requires EndpointOk(k)
    ensures Dist(Admitted(k).una, Admitted(k).nxt) <= WINDOW_MAX
  {
    hide Admit;
    AdmitKeepsSender(k, k.snd, k.cfg, UsableWindow(k));
  }

  /** New segments are neither overdue nor skipped. */
  lemma AnyInAdmitted(k: Kcb)
    requires EndpointOk(k)
    ensures var buf := Admitted(k).buf;
            && (AnyOverdue(k) <==> exists i :: 0 <= i < |buf| && Overdue(k, buf[i]))
            && (AnySkipped(k) <==> exists i :: 0 <= i < |buf| && Skipped(k, buf[i]))
            && CountOverdue(k, buf) == CountOverdue(k, k.snd.buf)
  {
    hide EndpointOk, Admitted, TimeDiff, Signed32;
    AdmittedNew(k);
    var buf := Admitted(k).buf;
    var added := buf[|k.snd.buf|..];
    assert buf == k.snd.buf + added;
    NewNotOverdue(k, k.snd.buf, added);
  }

  /** The link is declared dead exactly when a segment goes out for the twentieth time or later,
      and the counter of timeouts counts them. */
  lemma DeadExactly(k: Kcb)
    requires EndpointOk(k) && k.updated
    ensures var k' := Flush(k).k;
            && k'.xmit == Wrap(k.xmit + CountOverdue(k, k.snd.buf))
            && (k'.dead <==> k.dead || exists i :: 0 <= i < |k.snd.buf| && GoesOut(k, k.snd.buf[i])
                                                   && Wrap(k.snd.buf[i].xmit + 1) >= 20)
  {
    hide EndpointOk, Flush, Admitted, Wrap, Resend, Sweep, GoesOut, CountOverdue, AnyOverdue, AnySkipped;
    FlushBuffer(k);
    AdmittedNew(k);
    AnyInAdmitted(k);
    FlushSetting(k);
    var buf := Admitted(k).buf;
    SweepCounts(k, buf);
    forall i | 0 <= i < |buf| && GoesOut(k, buf[i]) ensures Resend(k, buf[i]).xmit == Wrap(buf[i].xmit + 1) {
      ResendPasses(k, buf[i]);
      OutMeansSent(k, buf[i], Resend(k, buf[i]));
    }
    WrapSmall(1);
  }

  lemma OutMeansSent(k: Kcb, f: Flight, g: Flight)
    requires Passed(k, f, g) && GoesOut(k, f)
    ensures g.xmit == Wrap(f.xmit + 1)
  {
  }

  // ----- control segments

  predicate EmitsCommand(k: Kcb, cmd: u32) {
    exists s <- Flush(k).segs :: s.cmd == cmd
  }

  /** The schedule of window probes: none while the peer has room; otherwise the first one after
      seven seconds, and each next one half as long again after the one before, up to two minutes.
      A probe goes out exactly when its time has come, a window report exactly when one is owed. */
  lemma ProbesExactly(k: Kcb)
    requires EndpointOk(k) && k.updated && !k.probe.ask && (k.probe.wait > 0 ==> 7000 <= k.probe.wait <= 120000)
    ensures var p, p' := k.probe, Flush(k).k.probe;
            && !p'.ask && !p'.tell && (p'.wait > 0 ==> 7000 <= p'.wait <= 120000)
            && (EmitsCommand(k, 84) <==> p.tell)
            && (EmitsCommand(k, 83) <==> k.rmtWnd == 0 && p.wait > 0 && TimeDiff(k.current, p.ts) >= 0)
            && (k.rmtWnd > 0 ==> p'.wait == 0)
            && (k.rmtWnd == 0 && p.wait == 0 ==> p'.wait == 7000 && p'.ts == Wrap(k.current + 7000))
            && (k.rmtWnd == 0 && p.wait > 0 && TimeDiff(k.current, p.ts) < 0 ==> p'.wait == p.wait && p'.ts == p.ts)
            && (k.rmtWnd == 0 && p.wait > 0 && TimeDiff(k.current, p.ts) >= 0 ==>
                  p'.wait == Min(p.wait + p.wait / 2, 120000) && p'.ts == Wrap(k.current + p'.wait))
  {
    hide EndpointOk, Flush, TimeDiff, Wrap;
    var q := Probing(k.probe, k.rmtWnd, k.current);
    FlushParts(k);
    if k.probe.wait > 0 { WrapSmall(k.probe.wait + k.probe.wait / 2); }
    DataIsPush(k);
    var probes := ProbeSegs(k, q);
    if q.ask { assert Control(k, CMD_WASK, LastAck(k.acks)) in probes; }
    if q.tell { assert Control(k, CMD_WINS, LastAck(k.acks)) in probes; }
  }

  lemma FlushParts(k: Kcb)
    requires k.updated
    ensures var q := Probing(k.probe, k.rmtWnd, k.current);
            && Flush(k).segs == AckSegs(k, k.acks) + ProbeSegs(k, q) + Sweep(k, Admitted(k).buf).out
            && Flush(k).k.probe == q.(ask := false, tell := false)
  {
    hide Sweep, Admitted, Pack, Probing, AckSegs, ProbeSegs;
  }

  lemma DataIsPush(k: Kcb)
    requires EndpointOk(k)
    ensures forall s <- Sweep(k, Admitted(k).buf).out :: s.cmd == CMD_PUSH
  {
    AdmittedCargo(k);
    forall s | s in Sweep(k, Admitted(k).buf).out ensures s.cmd == CMD_PUSH {
      var f := SweptOut(k, Admitted(k).buf, s);
      assert FlightOk(f, k.cfg);
    }
  }

  /** Every segment of a flush carries the conversation, the cumulative acknowledgement and the
      room in the receive queue. */
  lemma HeadersExactly(k: Kcb)
    requires EndpointOk(k) && k.updated
    ensures forall s <- Flush(k).segs ::
              s.conv == k.cfg.conv && s.una == k.rcv.nxt && s.wnd == Max(0, k.cfg.rcvWnd - |k.rcv.queue|)
  {
    hide EndpointOk, Flush;
    FlushParts(k);
    RoomLeft(k);
    AdmittedConv(k);
    forall s | s in Sweep(k, Admitted(k).buf).out
      ensures s.conv == k.cfg.conv && s.una == k.rcv.nxt && s.wnd == WndUnused(k) {
      var f := SweptOut(k, Admitted(k).buf, s);
    }
  }

  lemma AdmittedConv(k: Kcb)
    requires EndpointOk(k)
    ensures forall f <- Admitted(k).buf :: f.seg.conv == k.cfg.conv
  {
    AdmittedCargo(k);
    forall f | f in Admitted(k).buf ensures f.seg.conv == k.cfg.conv {
      assert FlightOk(f, k.cfg);
    }
  }
}
