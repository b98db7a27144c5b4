/** The congestion window of KCP: growth in `ikcp_input`, and the reaction to fast
    retransmissions and timeouts at the end of `ikcp_flush`. */
module Congestion {
  import opened Words

  const THRESH_MIN: int := 2

  /** `incr` is the congestion window counted in bytes. */
  datatype Window = Window(cwnd: u32, ssthresh: u32, incr: u32)

  function Div32(a: u32, b: u32): (q: u32)
    requires b > 0
    ensures q * b <= a < q * b + b
  {
    a / b
  }

  function Mul32(a: u32, b: u32): u32 {
    Wrap(a * b)
  }

  /** The byte count grows by about mss^2 / incr plus a sixteenth of a segment. */
  function NextIncr(incr: u32, mss: u32): u32
    requires mss > 0
  {
    var base := if incr < mss then mss else incr;
    Wrap(base + Div32(Mul32(mss, mss), base) + mss / 16)
  }

  /** Congestion avoidance: the window follows the byte count once a whole further
      segment fits. */
  function Avoid(w: Window, mss: u32): Window
    requires mss > 0
  {
    var incr := NextIncr(w.incr, mss);
    Window(if Mul32(Wrap(w.cwnd + 1), mss) <= incr then Div32(Wrap(incr + mss - 1), mss) else w.cwnd, w.ssthresh, incr)
  }

  /** Growth after an input that moved `snd_una` forward. */
  function Grow(w: Window, rmtWnd: u32, mss: u32): Window
    requires mss > 0
  {
    if w.cwnd >= rmtWnd then w
    else
      var w1 := if w.cwnd < w.ssthresh then w.(cwnd := Wrap(w.cwnd + 1), incr := Wrap(w.incr + mss))
                else Avoid(w, mss);
      if w1.cwnd > rmtWnd then w1.(cwnd := rmtWnd, incr := Mul32(rmtWnd, mss)) else w1
  }

  function AfterFast(w: Window, inflight: u32, resent: u32, mss: u32): Window {
    var ssthresh := Max(inflight / 2, THRESH_MIN);
    var cwnd := Wrap(ssthresh + resent);
    Window(cwnd, ssthresh, Mul32(cwnd, mss))
  }

  function AfterLoss(w: Window, used: u32, mss: u32): Window {
    Window(1, Max(used / 2, THRESH_MIN), mss)
  }

  /** The end of a flush: `fast` and `lost` say whether any segment was retransmitted
      early or after a timeout, `used` is the window the flush worked with. */
  function React(w: Window, fast: bool, lost: bool, inflight: u32, used: u32, resent: u32, mss: u32): Window {
    var w1 := if fast then AfterFast(w, inflight, resent, mss) else w;
    var w2 := if lost then AfterLoss(w1, used, mss) else w1;
    if w2.cwnd < 1 then w2.(cwnd := 1, incr := mss) else w2
  }

  /** The byte count stays within one segment of the window, and neither word wraps. */
  predicate Consistent(w: Window, mss: u32) {
    && w.cwnd * mss <= w.incr + mss - 1
    && w.incr < (w.cwnd + 1) * mss
    && w.ssthresh >= THRESH_MIN
    && w.cwnd <= 0xFFFF
  }

  lemma MulLe(a: int, b: int, m: int)
    requires a <= b && 0 <= m
    ensures a * m <= b * m
  {
  }

  lemma MulLtCancel(a: int, b: int, m: int)
    requires a * m < b * m && 0 <= m
    ensures a < b
  {
    if b <= a { MulLe(b, a, m); }
  }

  lemma Mul32Exact(a: u32, b: u32)
    requires a <= 0xFFFF && b <= 0x1_0000
    ensures Mul32(a, b) == a * b
  {
    ProductFits(a, b);
    WrapSmall(a * b);
  }

  lemma ProductFits(a: int, b: int)
    requires 0 <= a <= 0xFFFF && 0 <= b <= 0x1_0000
    ensures 0 <= a * b <= 0xFFFF * b
  {
    MulLe(0, a, b);
    MulLe(a, 0xFFFF, b);
  }

  /** The quotient added by congestion avoidance, with `incr` above one segment; it is at
      most half a segment when `incr` is above two. */
  lemma QuotientBound(mss: int, incr: int, q: int)
    requires 0 < mss < incr && 0 <= q && q * incr <= mss * mss
    ensures q < mss
    ensures 2 * mss <= incr ==> 2 * q <= mss
  {
    if q >= mss {
      MulLe(mss, q, incr);
      assert mss * incr > mss * mss by { MulLe(mss + 1, incr, mss); }
      assert false;
    }
    if 2 * mss <= incr && 2 * q > mss {
      MulLe(2 * mss, incr, q);
      MulLe(mss + 1, 2 * q, mss);
      assert false;
    }
  }

  predicate Avoiding(w: Window, mss: u32) {
    Consistent(w, mss) && 0 < mss <= 65511 && THRESH_MIN <= w.cwnd < 0xFFFF
  }

  /** The byte count never wraps and grows by less than 1 + 1/16 segments, by less than
      9/16 when it is above two segments. */
  lemma NextIncrBounds(w: Window, mss: u32)
    requires Avoiding(w, mss)
    ensures mss < w.incr <= NextIncr(w.incr, mss)
    ensures NextIncr(w.incr, mss) < w.incr + mss + mss / 16
    ensures 2 * mss <= w.incr ==> 2 * NextIncr(w.incr, mss) <= 2 * w.incr + mss + 2 * (mss / 16)
  {
    hide Wrap, Mul32, Div32;
    MulLe(2, w.cwnd, mss);
    MulLe(w.cwnd + 1, 0xFFFF, mss);
    Mul32Exact(mss, mss);
    var q := Div32(Mul32(mss, mss), w.incr);
    QuotientBound(mss, w.incr, q);
    WrapSmall(w.incr + q + mss / 16);
  }

  lemma AvoidConsistent(w: Window, mss: u32)
    requires Avoiding(w, mss)
    ensures var w1 := Avoid(w, mss);
            && w1.cwnd * mss <= w1.incr + mss - 1
            && w1.incr < (w1.cwnd + 1) * mss && w.cwnd <= w1.cwnd <= w.cwnd + 2
  {
    hide Wrap, Mul32, NextIncr;
    NextIncrBounds(w, mss);
    WrapSmall(w.cwnd + 1);
    Mul32Exact(w.cwnd + 1, mss);
    if (w.cwnd + 1) * mss <= NextIncr(w.incr, mss) {
      FollowConsistent(w, mss, NextIncr(w.incr, mss));
    }
  }

  /** Rounding the grown byte count up to whole segments. */
  lemma FollowConsistent(w: Window, mss: u32, incr: u32)
    requires Avoiding(w, mss) && (w.cwnd + 1) * mss <= incr
    requires incr < w.incr + mss + mss / 16
    requires 2 * mss <= w.incr ==> 2 * incr <= 2 * w.incr + mss + 2 * (mss / 16)
    ensures var c := Div32(Wrap(incr + mss - 1), mss);
            c * mss <= incr + mss - 1 && incr < (c + 1) * mss && w.cwnd <= c <= w.cwnd + 2
  {
    MulLe(w.cwnd + 1, 0xFFFF, mss);
    WrapSmall(incr + mss - 1);
    var c := Div32(incr + mss - 1, mss);
    Distribute(c, 1, mss);
    Distribute(w.cwnd, 1, mss);
    assert w.cwnd * mss < c * mss;
    MulLtCancel(w.cwnd, c, mss);
    MulLe(3, w.cwnd + 1, mss);
    Distribute(w.cwnd + 1, 2, mss);
    MulLtCancel(c, w.cwnd + 3, mss);
  }

  lemma Distribute(a: int, b: int, m: int)
    ensures (a + b) * m == a * m + b * m
  {
  }

  /** Growth keeps the window and its byte count consistent and raises the window by at
      most two segments. */
  lemma GrowConsistent(w: Window, rmtWnd: u32, mss: u32)
    requires Consistent(w, mss) && 0 < mss <= 65511 && rmtWnd <= 0xFFFF
    ensures Consistent(Grow(w, rmtWnd, mss), mss)
    ensures w.cwnd <= Grow(w, rmtWnd, mss).cwnd <= w.cwnd + 2
  {
    if w.cwnd < rmtWnd {
      if w.cwnd < w.ssthresh {
        SlowStartConsistent(w, mss);
      } else {
        AvoidConsistent(w, mss);
        assert (rmtWnd + 1) * mss == rmtWnd * mss + mss;
        Mul32Exact(rmtWnd, mss);
      }
    }
  }

  lemma SlowStartConsistent(w: Window, mss: u32)
    requires Consistent(w, mss) && 0 < mss <= 65511 && w.cwnd < 0xFFFF
    ensures Consistent(w.(cwnd := Wrap(w.cwnd + 1), incr := Wrap(w.incr + mss)), mss)
  {
    assert (w.cwnd + 1) * mss == w.cwnd * mss + mss;
    assert (w.cwnd + 2) * mss == (w.cwnd + 1) * mss + mss;
    MulLe(w.cwnd + 2, 0x1_0000, mss);
  }

  /** A flush leaves a consistent window of at least one segment. */
  lemma ReactConsistent(w: Window, fast: bool, lost: bool, inflight: u32, used: u32, resent: u32, mss: u32)
    requires Consistent(w, mss) && 0 < mss <= 65511
    requires inflight <= 0xFFFF && resent <= 0x8000
    ensures var w1 := React(w, fast, lost, inflight, used, resent, mss);
            Consistent(w1, mss) && w1.cwnd >= 1
  {
    if fast {
      var w1 := AfterFast(w, inflight, resent, mss);
      Mul32Exact(w1.cwnd, mss);
      assert (w1.cwnd + 1) * mss == w1.cwnd * mss + mss;
    }
    assert 1 * mss == mss && (1 + 1) * mss == 2 * mss;
  }
}
