/** How acknowledgements open the congestion window: what one datagram does to it, on the numbers,
    and how many datagrams open one more segment over a run. */
module Growth {
  import opened Words
  import opened Wire
  import opened Kcp
  import opened Endpoint
  import Congestion

  /** The whole datagram was taken, and the cumulative acknowledgement moved forward. */
  predicate Forward(k: Kcb, d: bytes)
    requires k.cfg.mss > 0
  {
    Input(k, d).code == 0 && TimeDiff(Input(k, d).k.snd.una, k.snd.una) > 0
  }

  /** The datagram counts towards a wider window: it moved the acknowledgement forward and the
      peer's window is not reached yet. */
  predicate Opening(k: Kcb, d: bytes)
    requires k.cfg.mss > 0
  {
    Forward(k, d) && k.cc.cwnd < Input(k, d).k.rmtWnd
  }

  /** `c` whole segments are the fewest that hold `b` bytes. */
  predicate Holds(c: int, mss: int, b: int) {
    (c - 1) * mss < b <= c * mss
  }

  lemma OneMore(a: int, m: int)
    ensures (a + 1) * m == a * m + m
  {
  }

  /** The byte count raised by the quotient of the segment's square by it and a sixteenth of a
      segment, on unbounded numbers. */
  function Raised(incr: nat, mss: nat): nat {
    incr + Share(mss, incr) + mss / 16
  }

  function Share(mss: nat, incr: nat): nat {
    if incr == 0 then 0 else mss * mss / incr
  }

  predicate OneWider(c: Congestion.Window, c': Congestion.Window, mss: nat) {
    c'.cwnd == c.cwnd + 1 && c'.incr == c.incr + mss && c'.ssthresh == c.ssthresh
  }

  /** The window follows the raised byte count once a further segment fits, up to the peer's
      window. */
  predicate Follows(c: Congestion.Window, c': Congestion.Window, rmtWnd: u32, mss: nat) {
    var grown := Raised(c.incr, mss);
    && c'.ssthresh == c.ssthresh
    && (if grown < (c.cwnd + 1) * mss then c'.cwnd == c.cwnd && c'.incr == grown
        else if grown <= rmtWnd * mss then Holds(c'.cwnd, mss, grown) && c'.incr == grown
        else c'.cwnd == rmtWnd && c'.incr == rmtWnd * mss)
  }

  /** Congestion avoidance on unbounded numbers: no word wraps. */
  lemma AvoidExactly(w: Congestion.Window, mss: u32)
    requires Congestion.Avoiding(w, mss)
    ensures var w' := Congestion.Avoid(w, mss);
            && w'.incr == Raised(w.incr, mss) && w'.ssthresh == w.ssthresh
            && (if (w.cwnd + 1) * mss <= w'.incr then Holds(w'.cwnd, mss, w'.incr) else w'.cwnd == w.cwnd)
  {
    hide Congestion.Mul32, Wrap, Congestion.NextIncr, Congestion.Div32, Raised, Holds, Congestion.Avoiding;
    WindowSmall(w, mss);
    NextIncrIs(w, mss);
    Congestion.NextIncrBounds(w, mss);
    Congestion.Mul32Exact(w.cwnd + 1, mss);
    WrapSmall(w.cwnd + 1);
    var incr := Congestion.NextIncr(w.incr, mss);
    if (w.cwnd + 1) * mss <= incr { RoundedUp(w, mss, incr); }
  }

  lemma WindowSmall(w: Congestion.Window, mss: u32)
    requires Congestion.Avoiding(w, mss)
    ensures w.cwnd < 0xFFFF && mss <= 65511
  {
  }

  lemma RoundedUp(w: Congestion.Window, mss: u32, incr: u32)
    requires Congestion.Avoiding(w, mss) && (w.cwnd + 1) * mss <= incr < w.incr + mss + mss / 16
    ensures Holds(Congestion.Div32(Wrap(incr + mss - 1), mss), mss, incr)
  {
    Congestion.MulLe(w.cwnd + 1, 0xFFFF, mss);
    WrapSmall(incr + mss - 1);
    var c := Congestion.Div32(incr + mss - 1, mss);
    OneMore(c - 1, mss);
  }

  lemma NextIncrIs(w: Congestion.Window, mss: u32)
    requires Congestion.Avoiding(w, mss)
    ensures Congestion.NextIncr(w.incr, mss) == Raised(w.incr, mss)
  {
    Congestion.NextIncrBounds(w, mss);
    Congestion.Mul32Exact(mss, mss);
    var q := Congestion.Div32(mss * mss, w.incr);
    Congestion.MulLe(w.cwnd + 1, 0x1_0000, mss);
    Congestion.QuotientBound(mss, w.incr, q);
    WrapSmall(w.incr + q + mss / 16);
  }

  /** What a datagram does to the congestion window, on unbounded numbers.  In slow start one
      segment is added.  At or above the threshold the byte count grows by the quotient of the
      segment's square by the byte count and a sixteenth of a segment, and the window follows
      once a further whole segment fits.  The peer's window is the limit.  A datagram that does
      not count, an erroneous one included, changes nothing. */
  lemma InputGrowth(k: Kcb, d: bytes)
    requires EndpointOk(k) && Tuned(k.cfg)
    ensures k.cfg.mss > 0
    ensures var c, k', mss := k.cc, Input(k, d).k, k.cfg.mss;
            if !Opening(k, d) then k'.cc == c
            else if c.cwnd < c.ssthresh then OneWider(c, k'.cc, mss)
            else Follows(c, k'.cc, k'.rmtWnd, mss)
  {
    hide EndpointOk, Input, Congestion.Grow, Follows, Congestion.Consistent;
    Settled(k, d);
    var k' := Input(k, d).k;
    if Opening(k, d) { GrowthExactly(k.cc, k'.rmtWnd, k.cfg.mss); } else if Forward(k,
      d) { Full(k.cc, k'.rmtWnd, k.cfg.mss); }
  }

  lemma Settled(k: Kcb, d: bytes)
    requires EndpointOk(k) && Tuned(k.cfg)
    ensures k.cfg.mss > 0 && k.cfg.mss <= 65511 && Congestion.Consistent(k.cc, k.cfg.mss)
    ensures Input(k, d).k.rmtWnd <= 0xFFFF
    ensures Input(k, d).k.cc == if Forward(k, d) then Congestion.Grow(k.cc, Input(k, d).k.rmtWnd, k.cfg.mss) else k.cc
  {
    hide Decode, TakeAll, Congestion.Grow, TimeDiff, ParseFastack, SenderInvariant.SenderOk,
      ReceiverInvariant.ReceiverOk,
      CargoOk, TimersOk;
    InputKeeps(k, d);
    if |d| >= OVERHEAD {
      DecodedWindows(d, k.cfg.conv);
      TakeAllKeeps(Progress(k, NoMark), Decode(d, k.cfg.conv).segs);
    }
  }

  lemma GrowthExactly(c: Congestion.Window, rmtWnd: u32, mss: u32)
    requires Congestion.Consistent(c, mss) && 0 < mss <= 65511 && c.cwnd < rmtWnd <= 0xFFFF
    ensures var c' := Congestion.Grow(c, rmtWnd, mss);
            if c.cwnd < c.ssthresh then OneWider(c, c', mss)
            else Follows(c, c', rmtWnd, mss)
  {
    hide Congestion.Avoid, Congestion.Mul32, Wrap, Raised, Holds;
    if c.cwnd < c.ssthresh {
      OneMore(c.cwnd, mss);
      Congestion.MulLe(c.cwnd + 1, 0xFFFF, mss);
      WrapSmall(c.cwnd + 1);
      WrapSmall(c.incr + mss);
    } else {
      AvoidExactly(c, mss);
      Congestion.Mul32Exact(rmtWnd, mss);
      Fits(Congestion.Avoid(c, mss).cwnd, rmtWnd, mss, Congestion.Avoid(c, mss).incr);
    }
  }

  lemma Full(c: Congestion.Window, rmtWnd: u32, mss: u32)
    requires mss > 0 && c.cwnd >= rmtWnd
    ensures Congestion.Grow(c, rmtWnd, mss) == c
  {
  }

  /** A window that just holds the bytes is within the peer's if and only if the bytes are. */
  lemma Fits(c: int, r: int, mss: int, b: int)
    requires mss > 0
    ensures Holds(c, mss, b) ==> (c <= r <==> b <= r * mss)
  {
    if Holds(c, mss, b) {
      if c <= r { Congestion.MulLe(c, r, mss); } else { Congestion.MulLe(r, c - 1, mss); }
    }
  }

  /** A datagram that counts adds at least a sixteenth of a segment to the byte count, or it
      widens the window. */
  lemma OpeningAdds(k: Kcb, d: bytes)
    requires EndpointOk(k) && Tuned(k.cfg) && k.cfg.mss > 0 && Opening(k, d)
    ensures var c' := Input(k, d).k.cc;
            c'.cwnd > k.cc.cwnd || (c'.cwnd == k.cc.cwnd && c'.incr >= k.cc.incr + k.cfg.mss / 16)
  {
    hide EndpointOk, Input, Congestion.Consistent, Follows;
    InputGrowth(k, d);
    Settled(k, d);
    if k.cc.cwnd >= k.cc.ssthresh { FollowsAdds(k.cc, Input(k, d).k.cc, Input(k, d).k.rmtWnd, k.cfg.mss); }
  }

  lemma FollowsAdds(c: Congestion.Window, c': Congestion.Window, rmtWnd: u32, mss: nat)
    requires Follows(c, c', rmtWnd, mss) && c.cwnd < rmtWnd
    ensures c'.cwnd > c.cwnd || (c'.cwnd == c.cwnd && c'.incr >= c.incr + mss / 16)
  {
    hide Share;
    var grown := Raised(c.incr, mss);
    if (c.cwnd + 1) * mss <= grown <= rmtWnd * mss && c'.cwnd <= c.cwnd {
      Congestion.MulLe(c'.cwnd, c.cwnd, mss);
      OneMore(c.cwnd, mss);
    }
  }

  // ----- runs

  /** Datagrams come in; everything else leaves the congestion window as it is, which a flush does
      unless it retransmits. */
  predicate Undisturbed(k: Kcb, ops: seq<Op>)
    requires EndpointOk(k)
    decreases |ops|
  {
    MssPositive(k.cfg);
    ops == [] ||
    (&& (ops[0].OpSend? ==> |ops[0].msg| < TWO31)
     && (ops[0].OpInput? || Step(k, ops[0]).k.cc == k.cc)
     && (StepKeeps(k, ops[0]);
         Undisturbed(Step(k, ops[0]).k, ops[1..])))
  }

  /** How many of the datagrams counted. */
  function Openings(k: Kcb, ops: seq<Op>): nat
    requires EndpointOk(k) && Undisturbed(k, ops)
    decreases |ops|
  {
    MssPositive(k.cfg);
    if ops == [] then 0
    else
      StepKeeps(k, ops[0]);
      (if ops[0].OpInput? && Opening(k, ops[0].d) then 1 else 0) + Openings(Step(k, ops[0]).k, ops[1..])
  }

  lemma StepOpens(k: Kcb, op: Op)
    requires EndpointOk(k) && Tuned(k.cfg) && k.cfg.mss > 0
    requires op.OpInput? || Step(k, op).k.cc == k.cc
    ensures var c, c' := k.cc, Step(k, op).k.cc;
            || c'.cwnd > c.cwnd
            || (c'.cwnd == c.cwnd
                && c'.incr >= c.incr + if op.OpInput? && Opening(k, op.d) then k.cfg.mss / 16 else 0)
  {
    hide EndpointOk, Opening, Input;
    if op.OpInput? {
      if Opening(k, op.d) { OpeningAdds(k, op.d); } else { InputGrowth(k, op.d); }
    }
  }

  /** Over any run without retransmissions the congestion window never shrinks, and once the
      datagrams that counted have brought in what was missing to a further segment, at a sixteenth
      of a segment each, it is wider. */
  lemma {:induction false} WindowOpens(k: Kcb, ops: seq<Op>)
    requires EndpointOk(k) && Tuned(k.cfg) && k.cfg.mss > 0 && Undisturbed(k, ops)
    ensures RunOps(k, ops).cc.cwnd >= k.cc.cwnd
    ensures Openings(k, ops) * (k.cfg.mss / 16) >= (k.cc.cwnd + 1) * k.cfg.mss - k.cc.incr ==>
              RunOps(k, ops).cc.cwnd > k.cc.cwnd
    decreases |ops|
  {
    hide EndpointOk, Opening, Step;
    Within(k);
    if ops != [] {
      var k1 := Step(k, ops[0]).k;
      StepKeeps(k, ops[0]);
      StepKeepsConfig(k, ops[0]);
      StepOpens(k, ops[0]);
      WindowOpens(k1, ops[1..]);
      OneMore(Openings(k1, ops[1..]), k.cfg.mss / 16);
    }
  }

  lemma Within(k: Kcb)
    requires EndpointOk(k) && Tuned(k.cfg)
    ensures k.cc.cwnd * k.cfg.mss - k.cfg.mss < k.cc.incr < (k.cc.cwnd + 1) * k.cfg.mss
  {
  }

  /** Whatever the byte count stands at, datagrams worth two segments, at a sixteenth each, open
      at least one. */
  lemma TwoSegmentsOpenOne(k: Kcb, ops: seq<Op>)
    requires EndpointOk(k) && Tuned(k.cfg) && k.cfg.mss > 0 && Undisturbed(k, ops)
    requires Openings(k, ops) * (k.cfg.mss / 16) >= 2 * k.cfg.mss
    ensures RunOps(k, ops).cc.cwnd > k.cc.cwnd
  {
    hide EndpointOk, Undisturbed, Openings, RunOps;
    Within(k);
    OneMore(k.cc.cwnd, k.cfg.mss);
    WindowOpens(k, ops);
  }
}
