/** The receiving half of one endpoint, for any input bytes whatever: `rcv_buf` is strictly
    increasing in circular order inside [rcv_nxt, rcv_nxt + rcv_wnd) and `rcv_queue` holds
    the consecutive numbers that end just before `rcv_nxt`. */
module ReceiverInvariant {
  import opened Words
  import opened Wire
  import opened Kcp

  predicate Sorted(nxt: u32, wnd: u32, buf: seq<Seg>) {
    && (forall i :: 0 <= i < |buf| ==> Dist(nxt, buf[i].sn) < wnd)
    && (forall i, j :: 0 <= i < j < |buf| ==> Dist(nxt, buf[i].sn) < Dist(nxt, buf[j].sn))
  }

  predicate Consecutive(nxt: u32, queue: seq<Seg>) {
    forall i :: 0 <= i < |queue| ==> queue[i].sn == Wrap(nxt - (|queue| - i))
  }

  /** The invariant inside an operation, before the front of `rcv_buf` is moved up. */
  predicate ReceiverLoose(r: Receiver, wnd: u32) {
    |r.queue| <= wnd && Consecutive(r.nxt, r.queue) && Sorted(r.nxt, wnd, r.buf)
  }

  predicate ReceiverOk(r: Receiver, wnd: u32) {
    && ReceiverLoose(r, wnd)
    && (r.buf != [] && r.buf[0].sn == r.nxt ==> |r.queue| == wnd)
  }

  /** The two comparisons of `ikcp_input` and `ikcp_parse_data` mean: inside the window. */
  lemma WindowTest(r: Receiver, wnd: u32, sn: u32)
    requires wnd < TWO31
    ensures BelowWindowEnd(r, wnd, sn) && TimeDiff(sn, r.nxt) >= 0 <==> Dist(r.nxt, sn) < wnd
  {
    hide TimeDiff, Wrap, Dist;
    TimeDiffByDist(sn, r.nxt);
    DistForward(r.nxt, wnd);
    if Dist(r.nxt, sn) < TWO31 { TimeDiffFromOrigin(r.nxt, sn, Wrap(r.nxt + wnd)); }
  }

  /** The insertion puts `s` in its place, and is a no-op when its number is present. */
  lemma InsertSorted(nxt: u32, wnd: u32, buf: seq<Seg>, s: Seg)
    requires Sorted(nxt, wnd, buf) && Dist(nxt, s.sn) < wnd < TWO31
    ensures Sorted(nxt, wnd, Insert(buf, s))
    ensures forall x :: x in Insert(buf, s) <==> x in buf || (x == s && Absent(buf, s.sn))
  {
    InsertOrder(nxt, wnd, buf, s);
    InsertMembers(nxt, wnd, buf, s);
  }

  lemma {:induction false} InsertOrder(nxt: u32, wnd: u32, buf: seq<Seg>, s: Seg)
    requires Sorted(nxt, wnd, buf) && Dist(nxt, s.sn) < wnd < TWO31
    ensures Sorted(nxt, wnd, Insert(buf, s))
  {
    hide TimeDiff, Dist, Absent;
    if buf != [] {
      var last := |buf| - 1;
      var front := buf[..last];
      TimeDiffFromOrigin(nxt, s.sn, buf[last].sn);
      if buf[last].sn != s.sn && TimeDiff(s.sn, buf[last].sn) <= 0 {
        DistDistinct(nxt, s.sn, buf[last].sn);
        InsertOrder(nxt, wnd, front, s);
        InsertMembers(nxt, wnd, front, s);
        InsertBelow(nxt, front, s, buf[last]);
        SortedPush(nxt, wnd, Insert(front, s), buf[last]);
      }
    }
  }

  lemma SortedPush(nxt: u32, wnd: u32, front: seq<Seg>, top: Seg)
    requires Sorted(nxt, wnd, front) && Dist(nxt, top.sn) < wnd
    requires forall i :: 0 <= i < |front| ==> Dist(nxt, front[i].sn) < Dist(nxt, top.sn)
    ensures Sorted(nxt, wnd, front + [top])
  {
  }

  lemma {:induction false} InsertMembers(nxt: u32, wnd: u32, buf: seq<Seg>, s: Seg)
    requires Sorted(nxt, wnd, buf) && Dist(nxt, s.sn) < wnd < TWO31
    ensures forall x :: x in Insert(buf, s) <==> x in buf || (x == s && Absent(buf, s.sn))
  {
    hide TimeDiff, Dist;
    if buf != [] {
      var last := |buf| - 1;
      TimeDiffFromOrigin(nxt, s.sn, buf[last].sn);
      assert buf == buf[..last] + [buf[last]];
      if buf[last].sn == s.sn {
        assert buf[last] in buf;
      } else if TimeDiff(s.sn, buf[last].sn) > 0 {
        AbsentAbove(nxt, wnd, buf, s.sn);
      } else {
        InsertMembers(nxt, wnd, buf[..last], s);
      }
    }
  }

  predicate Absent(buf: seq<Seg>, sn: u32) {
    forall y <- buf :: y.sn != sn
  }

  lemma AbsentAbove(nxt: u32, wnd: u32, buf: seq<Seg>, sn: u32)
    requires Sorted(nxt, wnd, buf) && buf != [] && Dist(nxt, buf[|buf| - 1].sn) < Dist(nxt, sn)
    ensures Absent(buf, sn)
  {
    forall y | y in buf ensures y.sn != sn {
      var i :| 0 <= i < |buf| && buf[i] == y;
      assert i == |buf| - 1 || Dist(nxt, buf[i].sn) < Dist(nxt, buf[|buf| - 1].sn);
    }
  }

  lemma DistDistinct(o: u32, a: u32, b: u32)
    requires a != b
    ensures Dist(o, a) != Dist(o, b)
  {
  }

  lemma InsertBelow(nxt: u32, buf: seq<Seg>, s: Seg, top: Seg)
    requires forall x <- buf :: Dist(nxt, x.sn) < Dist(nxt, top.sn)
    requires Dist(nxt, s.sn) < Dist(nxt, top.sn)
    requires forall x <- Insert(buf, s) :: x in buf || x == s
    ensures forall i :: 0 <= i < |Insert(buf, s)| ==> Dist(nxt, Insert(buf, s)[i].sn) < Dist(nxt, top.sn)
  {
    forall i | 0 <= i < |Insert(buf, s)| ensures Dist(nxt, Insert(buf, s)[i].sn) < Dist(nxt, top.sn) {
      assert Insert(buf, s)[i] in Insert(buf, s);
    }
  }

  lemma DeliverStep(r: Receiver, wnd: u32)
    requires ReceiverLoose(r, wnd) && r.buf != [] && r.buf[0].sn == r.nxt && |r.queue| < wnd
    ensures ReceiverLoose(Receiver(Wrap(r.nxt + 1), r.buf[1..], r.queue + [r.buf[0]]), wnd)
  {
    var nxt := Wrap(r.nxt + 1);
    forall i | 0 <= i < |r.buf[1..]| ensures Dist(nxt, r.buf[1..][i].sn) == Dist(r.nxt, r.buf[i + 1].sn) - 1 {
      assert Dist(r.nxt, r.buf[0].sn) < Dist(r.nxt, r.buf[i + 1].sn);
    }
    var queue := r.queue + [r.buf[0]];
    forall i | 0 <= i < |queue| ensures queue[i].sn == Wrap(nxt - (|queue| - i)) {
      if i < |r.queue| { assert queue[i] == r.queue[i]; }
    }
  }

  /** Moving up the front of `rcv_buf` ends with a gap at `rcv_nxt` or a full queue. */
  lemma {:induction false} DeliverRestores(r: Receiver, wnd: u32)
    requires ReceiverLoose(r, wnd)
    ensures ReceiverOk(Deliver(r, wnd), wnd)
    decreases |r.buf|
  {
    if r.buf != [] && r.buf[0].sn == r.nxt && |r.queue| < wnd {
      DeliverStep(r, wnd);
      DeliverRestores(Receiver(Wrap(r.nxt + 1), r.buf[1..], r.queue + [r.buf[0]]), wnd);
    }
  }

  lemma ParseDataKeepsReceiver(r: Receiver, wnd: u32, s: Seg)
    requires ReceiverOk(r, wnd) && wnd < TWO31
    ensures ReceiverOk(ParseData(r, wnd, s), wnd)
  {
    WindowTest(r, wnd, s.sn);
    if Dist(r.nxt, s.sn) < wnd {
      InsertSorted(r.nxt, wnd, r.buf, s);
      DeliverRestores(r.(buf := Insert(r.buf, s)), wnd);
    }
  }

  lemma ConsumeKeepsReceiver(r: Receiver, wnd: u32, n: nat)
    requires ReceiverOk(r, wnd) && n <= |r.queue|
    ensures ReceiverOk(Deliver(r.(queue := r.queue[n..]), wnd), wnd)
  {
    forall i | 0 <= i < |r.queue[n..]| ensures r.queue[n..][i].sn == Wrap(r.nxt - (|r.queue[n..]| - i)) {
      assert r.queue[n..][i] == r.queue[n + i];
    }
    DeliverRestores(r.(queue := r.queue[n..]), wnd);
  }

  /** Distinct numbers inside the window are at most as many as the window is wide. */
  lemma BufferBound(r: Receiver, wnd: u32)
    requires ReceiverOk(r, wnd)
    ensures |r.buf| <= wnd
  {
    if r.buf != [] {
      OffsetAtLeastIndex(r.nxt, wnd, r.buf, |r.buf| - 1);
    }
  }

  lemma {:induction false} OffsetAtLeastIndex(nxt: u32, wnd: u32, buf: seq<Seg>, i: nat)
    requires Sorted(nxt, wnd, buf) && i < |buf|
    ensures i <= Dist(nxt, buf[i].sn)
  {
    if i > 0 { OffsetAtLeastIndex(nxt, wnd, buf, i - 1); }
  }
}
