/** The sending half of one endpoint, for any input bytes whatever: `snd_buf` is strictly
    increasing in circular order inside [snd_una, snd_nxt). */
module SenderInvariant {
  import opened Words
  import opened Kcp

  const WINDOW_MAX: int := 0xFFFF

  predicate Ordered(una: u32, nxt: u32, buf: seq<Flight>) {
    && (forall i :: 0 <= i < |buf| ==> Dist(una, buf[i].seg.sn) < Dist(una, nxt))
    && (forall i, j :: 0 <= i < j < |buf| ==> Dist(una, buf[i].seg.sn) < Dist(una, buf[j].seg.sn))
  }

  predicate SenderOk(s: Sender, cfg: Config) {
    && Dist(s.una, s.nxt) <= Min(cfg.sndWnd, WINDOW_MAX)
    && Ordered(s.una, s.nxt, s.buf)
    && s.una == (if s.buf != [] then s.buf[0].seg.sn else s.nxt)
  }

  /** The left edge moved forward, not past `nxt`, and the window in flight shrank by as much. */
  predicate Advanced(s: Sender, s': Sender) {
    && s'.nxt == s.nxt
    && Dist(s.una, s'.una) + Dist(s'.una, s.nxt) == Dist(s.una, s.nxt)
  }

  // ----- removal of acknowledged segments

  lemma {:induction false} DropUnaSuffix(buf: seq<Flight>, una: u32) returns (n: nat)
    ensures n <= |buf| && DropUna(buf, una) == buf[n..]
    ensures forall i :: 0 <= i < n ==> TimeDiff(una, buf[i].seg.sn) > 0
    ensures n < |buf| ==> TimeDiff(una, buf[n].seg.sn) <= 0
  {
    if buf != [] && TimeDiff(una, buf[0].seg.sn) > 0 {
      var m := DropUnaSuffix(buf[1..], una);
      n := m + 1;
      assert buf[1..][m..] == buf[n..];
      forall i | 0 <= i < n ensures TimeDiff(una, buf[i].seg.sn) > 0 {
        if i > 0 { assert buf[i] == buf[1..][i - 1]; }
      }
    } else {
      n := 0;
    }
  }

  function Cut(buf: seq<Flight>, at: nat): seq<Flight>
    requires at < |buf|
  {
    buf[..at] + buf[at + 1..]
  }

  lemma CutTail(buf: seq<Flight>, at: nat)
    requires 1 <= at < |buf|
    ensures [buf[0]] + Cut(buf[1..], at - 1) == Cut(buf, at)
  {
  }

  /** Either nothing matched or exactly one segment, the one numbered `sn`, is cut out. */
  lemma {:induction false} DropAckedCut(buf: seq<Flight>, sn: u32) returns (at: nat)
    ensures at <= |buf|
    ensures at == |buf| ==> DropAcked(buf, sn) == buf
    ensures at < |buf| ==> buf[at].seg.sn == sn && DropAcked(buf, sn) == Cut(buf, at)
  {
    if buf == [] {
      at := 0;
    } else if sn == buf[0].seg.sn {
      at := 0;
      assert Cut(buf, 0) == buf[1..];
    } else if TimeDiff(sn, buf[0].seg.sn) < 0 {
      at := |buf|;
    } else {
      var m := DropAckedCut(buf[1..], sn);
      at := m + 1;
      if at < |buf| { CutTail(buf, at); }
    }
  }

  /** An acknowledgement of an outstanding number never leaves that number behind: the early
      stop of the search is justified by the order of the buffer. */
  lemma {:induction false} DropAckedComplete(una: u32, nxt: u32, buf: seq<Flight>, sn: u32)
    requires Ordered(una, nxt, buf) && Dist(una, nxt) < TWO31 && Dist(una, sn) < TWO31
    ensures forall f <- DropAcked(buf, sn) :: f.seg.sn != sn
  {
    if buf != [] {
      forall i | 0 < i < |buf| ensures Dist(una, buf[0].seg.sn) < Dist(una, buf[i].seg.sn) {}
      TimeDiffFromOrigin(una, sn, buf[0].seg.sn);
      if sn != buf[0].seg.sn && TimeDiff(sn, buf[0].seg.sn) >= 0 {
        OrderedTail(una, nxt, buf);
        DropAckedComplete(una, nxt, buf[1..], sn);
      }
    }
  }

  lemma OrderedTail(una: u32, nxt: u32, buf: seq<Flight>)
    requires Ordered(una, nxt, buf) && buf != []
    ensures Ordered(una, nxt, buf[1..])
  {
  }

  lemma OrderedSuffix(una: u32, nxt: u32, buf: seq<Flight>, n: nat)
    requires Ordered(una, nxt, buf) && n <= |buf|
    ensures Ordered(una, nxt, buf[n..])
  {
  }

  lemma OrderedCut(una: u32, nxt: u32, buf: seq<Flight>, at: nat)
    requires Ordered(una, nxt, buf) && at < |buf|
    ensures Ordered(una, nxt, Cut(buf, at))
  {
    var cut := Cut(buf, at);
    forall i | 0 <= i < |cut| ensures cut[i] == buf[if i < at then i else i + 1] {}
  }

  /** Re-reading `snd_una` off the head of a thinned buffer restores the invariant. */
  lemma ShrinkRestores(s: Sender, cfg: Config, buf: seq<Flight>)
    requires SenderOk(s, cfg) && Ordered(s.una, s.nxt, buf)
    ensures var s' := Shrink(s.(buf := buf));
            SenderOk(s', cfg) && Advanced(s, s')
  {
    var s' := Shrink(s.(buf := buf));
    if buf != [] {
      DistRebase(s.una, s'.una, s.nxt);
      forall i | 0 <= i < |buf|
        ensures Dist(s'.una, buf[i].seg.sn) == Dist(s.una, buf[i].seg.sn) - Dist(s.una, s'.una) {
        DistRebase(s.una, s'.una, buf[i].seg.sn);
      }
    }
  }

  lemma UnaKeepsSender(s: Sender, cfg: Config, una: u32)
    requires SenderOk(s, cfg)
    ensures var s' := Shrink(s.(buf := DropUna(s.buf, una)));
            SenderOk(s', cfg) && Advanced(s, s')
  {
    var n := DropUnaSuffix(s.buf, una);
    OrderedSuffix(s.una, s.nxt, s.buf, n);
    ShrinkRestores(s, cfg, s.buf[n..]);
  }

  lemma AckKeepsSender(s: Sender, cfg: Config, sn: u32)
    requires SenderOk(s, cfg)
    ensures var s' := Shrink(ParseAck(s, sn));
            SenderOk(s', cfg) && Advanced(s, s')
  {
    if Outstanding(s, sn) {
      var at := DropAckedCut(s.buf, sn);
      if at < |s.buf| { OrderedCut(s.una, s.nxt, s.buf, at); }
      ShrinkRestores(s, cfg, DropAcked(s.buf, sn));
    } else {
      ShrinkRestores(s, cfg, s.buf);
    }
  }

  lemma AdvancedTrans(a: Sender, b: Sender, c: Sender)
    requires Advanced(a, b) && Advanced(b, c)
    ensures Advanced(a, c)
  {
    DistSum(a.una, b.una, c.una);
  }

  // ----- passes that only touch retransmission state

  /** The segments keep their places, numbers and payloads. */
  predicate SameCargo(f: Flight, g: Flight) {
    && g.seg.sn == f.seg.sn && g.seg.frg == f.seg.frg && g.seg.data == f.seg.data
    && g.seg.conv == f.seg.conv && g.seg.cmd == f.seg.cmd
  }

  predicate SameCargoes(a: seq<Flight>, b: seq<Flight>) {
    |a| == |b| && forall i :: 0 <= i < |a| ==> SameCargo(a[i], b[i])
  }

  lemma SameCargoKeepsSender(s: Sender, cfg: Config, buf: seq<Flight>)
    requires SenderOk(s, cfg) && SameCargoes(s.buf, buf)
    ensures SenderOk(s.(buf := buf), cfg)
  {
  }

  /** A fast acknowledgement raises a segment's count by at most one, only for numbers before
      the acknowledged one, and changes nothing else. */
  lemma {:induction false} CountSkippedEffect(buf: seq<Flight>, sn: u32, ts: u32)
    ensures var b := CountSkipped(buf, sn, ts);
            && |b| == |buf|
            && forall i :: 0 <= i < |buf| ==>
                 && (b[i] == buf[i] || b[i] == buf[i].(fastack := Wrap(buf[i].fastack + 1)))
                 && (b[i] != buf[i] ==>
                       TimeDiff(sn, buf[i].seg.sn) >= 0 && sn != buf[i].seg.sn && TimeDiff(ts, buf[i].seg.ts) >= 0)
  {
    hide TimeDiff, Wrap;
    if buf != [] && TimeDiff(sn, buf[0].seg.sn) >= 0 {
      CountSkippedEffect(buf[1..], sn, ts);
      var b := CountSkipped(buf, sn, ts);
      forall i | 1 <= i < |buf| ensures b[i] == CountSkipped(buf[1..], sn, ts)[i - 1] && buf[i] == buf[1..][i - 1] {}
    }
  }

  lemma FastackKeepsSender(s: Sender, cfg: Config, sn: u32, ts: u32)
    requires SenderOk(s, cfg)
    ensures SenderOk(ParseFastack(s, sn, ts), cfg)
    ensures SameCargoes(s.buf, ParseFastack(s, sn, ts).buf)
  {
    CountSkippedEffect(s.buf, sn, ts);
  }

  /** The sweep acts on each segment by itself. */
  lemma {:induction false} SweepPointwise(k: Kcb, buf: seq<Flight>)
    ensures var sw := Sweep(k, buf);
            && |sw.buf| == |buf|
            && (forall i :: 0 <= i < |buf| ==> sw.buf[i] == Resend(k, buf[i]))
            && (forall s <- sw.out ::
                  exists i :: 0 <= i < |buf| && !Decide(k, buf[i]).Hold? && s == Resend(k, buf[i]).seg)
            && (!sw.dead ==>
                  forall i :: 0 <= i < |buf| ==> Decide(k, buf[i]).Hold? || Resend(k, buf[i]).xmit < k.cfg.deadLink)
  {
    if buf != [] {
      SweepPointwise(k, buf[1..]);
      var sw := Sweep(k, buf);
      var tail := Sweep(k, buf[1..]);
      forall i | 1 <= i < |buf| ensures sw.buf[i] == tail.buf[i - 1] && buf[i] == buf[1..][i - 1] {}
      forall s | s in sw.out
        ensures exists i :: 0 <= i < |buf| && !Decide(k, buf[i]).Hold? && s == Resend(k, buf[i]).seg {
        if s in tail.out {
          var i :| 0 <= i < |buf[1..]| && !Decide(k, buf[1..][i]).Hold? && s == Resend(k, buf[1..][i]).seg;
          assert buf[i + 1] == buf[1..][i];
        } else {
          assert s == Resend(k, buf[0]).seg;
        }
      }
    }
  }

  lemma SweepSameCargo(k: Kcb, buf: seq<Flight>)
    ensures SameCargoes(buf, Sweep(k, buf).buf)
  {
    SweepPointwise(k, buf);
  }

  // ----- admission of new segments

  function Launched(k: Kcb, frags: seq<Frag>, sn: u32): seq<Flight> {
    seq(|frags|, i requires 0 <= i < |frags| => Launch(k, frags[i], Wrap(sn + i)))
  }

  /** Admission appends a front part of the queue to the buffer under consecutive numbers. */
  lemma {:induction false} AdmitShape(k: Kcb, s: Sender, window: u32) returns (n: nat)
    ensures n <= |s.queue|
    ensures Admit(k, s, window)
         == Sender(s.una, Wrap(s.nxt + n), s.queue[n..], s.buf + Launched(k, s.queue[..n], s.nxt))
    decreases |s.queue|
  {
    if TimeDiff(s.nxt, Wrap(s.una + window)) < 0 && s.queue != [] {
      var f := Launch(k, s.queue[0], s.nxt);
      var m := AdmitShape(k, Sender(s.una, Wrap(s.nxt + 1), s.queue[1..], s.buf + [f]), window);
      n := m + 1;
      WrapSum(s.nxt, n);
      assert s.queue[1..][m..] == s.queue[n..];
      LaunchedStep(k, s.queue, s.nxt, m);
      assert s.buf + [f] + Launched(k, s.queue[1..][..m], Wrap(s.nxt + 1)) == s.buf + Launched(k, s.queue[..n], s.nxt);
    } else {
      n := 0;
      assert s.buf + Launched(k, s.queue[..0], s.nxt) == s.buf;
    }
  }

  lemma LaunchedStep(k: Kcb, queue: seq<Frag>, sn: u32, m: nat)
    requires m + 1 <= |queue|
    ensures [Launch(k, queue[0], sn)] + Launched(k, queue[1..][..m], Wrap(sn + 1)) == Launched(k, queue[..m + 1], sn)
  {
    var all := Launched(k, queue[..m + 1], sn);
    forall i | 1 <= i < m + 1 ensures all[i] == Launched(k, queue[1..][..m], Wrap(sn + 1))[i - 1] {
      WrapSum(sn, i);
    }
  }

  /** Admission stays within the window. */
  lemma {:induction false} AdmitKeepsSender(k: Kcb, s: Sender, cfg: Config, window: u32)
    requires SenderOk(s, cfg) && window <= Min(cfg.sndWnd, WINDOW_MAX)
    ensures SenderOk(Admit(k, s, window), cfg)
    decreases |s.queue|
  {
    if TimeDiff(s.nxt, Wrap(s.una + window)) < 0 && s.queue != [] {
      AdmitRoom(s.una, s.nxt, window);
      AdmitKeepsSender(k, Sender(s.una, Wrap(s.nxt + 1), s.queue[1..], s.buf + [Launch(k, s.queue[0], s.nxt)]), cfg,
        window);
    }
  }

  lemma WrapSum(a: u32, i: int)
    ensures Wrap(Wrap(a + 1) + (i - 1)) == Wrap(a + i)
  {
  }

  lemma AdmitRoom(una: u32, nxt: u32, window: u32)
    requires Dist(una, nxt) <= WINDOW_MAX && window <= WINDOW_MAX
    requires TimeDiff(nxt, Wrap(una + window)) < 0
    ensures Dist(una, nxt) < window && Dist(una, Wrap(nxt + 1)) == Dist(una, nxt) + 1
  {
    DistForward(una, window);
    TimeDiffFromOrigin(una, nxt, Wrap(una + window));
    DistForward(nxt, 1);
    DistSum(una, nxt, Wrap(nxt + 1));
  }
}
