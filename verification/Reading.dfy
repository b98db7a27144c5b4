/** What reading does, field by field: when a message is handed over, which one, what leaves the
    queue and when the peer is told of the room. */
module Reading {
  import opened Words
  import opened Wire
  import opened Kcp
  import opened ReceiverInvariant
  import opened Endpoint
  import Acknowledgement

  /** The payloads one after the other. */
  function Joined(segs: seq<Seg>): bytes {
    if segs == [] then [] else Joined(segs[..|segs| - 1]) + segs[|segs| - 1].data
  }

  lemma {:induction false} JoinedFirst(s: Seg, segs: seq<Seg>)
    ensures Joined([s] + segs) == s.data + Joined(segs)
  {
    if segs == [] {
      assert [s] + segs == [s] && [s][..0] == [];
    } else {
      var last := |segs| - 1;
      assert ([s] + segs)[..last + 1] == [s] + segs[..last];
      JoinedFirst(s, segs[..last]);
    }
  }

  lemma {:induction false} JoinedIsPayload(segs: seq<Seg>)
    ensures Joined(segs) == Payload(segs)
  {
    if segs != [] {
      assert segs == [segs[0]] + segs[1..];
      JoinedFirst(segs[0], segs[1..]);
      JoinedIsPayload(segs[1..]);
    }
  }

  /** The message at the front of the queue is the first `n` segments: those up to the first one
      that no fragment follows. */
  predicate FrontMessage(queue: seq<Seg>, n: nat) {
    && n <= |queue| && (queue != [] ==> n > 0) && (n > 0 ==> queue[n - 1].frg == 0 || n == |queue|)
    && forall i :: 0 <= i < n - 1 ==> queue[i].frg != 0
  }

  lemma {:induction false} SpanIs(queue: seq<Seg>)
    ensures FrontMessage(queue, Span(queue))
  {
    if queue != [] && queue[0].frg != 0 {
      SpanIs(queue[1..]);
      var n := Span(queue[1..]);
      forall i | 0 <= i < n ensures queue[i].frg != 0 {
        if i > 0 { assert queue[i] == queue[1..][i - 1]; }
      }
    }
  }

  /** The announced number of fragments is there. */
  predicate AllHere(queue: seq<Seg>) {
    queue != [] && |queue| >= queue[0].frg + 1
  }

  lemma PeekIs(queue: seq<Seg>)
    ensures PeekSize(queue) >= 0 <==> AllHere(queue)
    ensures AllHere(queue) ==> PeekSize(queue) == |NextMessage(queue)|
  {
    hide Payload, Span, NextMessage;
    if PeekSize(queue) >= 0 { PeekIsMessageLength(queue); }
  }

  /** What is left in the receiving half after `n` segments are taken: nothing is lost, and what
      is in order moves up until the queue is full. */
  predicate Taken(r: Receiver, r': Receiver, n: nat, wnd: u32)
    requires n <= |r.queue|
  {
    && r'.queue + r'.buf == r.queue[n..] + r.buf && r.queue[n..] <= r'.queue
    && r'.nxt == Wrap(r.nxt + (|r'.queue| - (|r.queue| - n)))
    && (r'.buf != [] && r'.buf[0].sn == r'.nxt ==> |r'.queue| == wnd)
  }

  lemma TakenExactly(k: Kcb, n: nat)
    requires EndpointOk(k) && n <= |k.rcv.queue|
    ensures Taken(k.rcv, Deliver(k.rcv.(queue := k.rcv.queue[n..]), k.cfg.rcvWnd), n, k.cfg.rcvWnd)
  {
    hide Deliver, SenderInvariant.SenderOk, CargoOk, TimersOk, Wrap, Sorted, Consecutive;
    Acknowledgement.DeliverExactly(k.rcv.(queue := k.rcv.queue[n..]), k.cfg.rcvWnd);
    ConsumeKeepsReceiver(k.rcv, k.cfg.rcvWnd, n);
  }

  /** A read, exactly: -1 without data, -2 while fragments are missing, -3 when the message is
      longer than the buffer, and nothing changes; otherwise the message, taken off the queue
      unless the length was negative.  A report to the peer comes to be owed exactly when a full
      queue got room. */
  lemma RecvExactly(k: Kcb, len: int) returns (n: nat)
    requires EndpointOk(k)
    ensures FrontMessage(k.rcv.queue, n)
    ensures var q, r := k.rcv.queue, Recv(k, len);
            if q == [] then r == Received(k, -1, [])
            else if |q| < q[0].frg + 1 then r == Received(k, -2, [])
            else if |Joined(q[..n])| > (if len < 0 then -len else len) then r == Received(k, -3, [])
            else
              && r.data == Joined(q[..n]) && r.code == |r.data|
              && Taken(k.rcv, r.k.rcv, if len < 0 then 0 else n, k.cfg.rcvWnd)
              && r.k == k.(rcv := r.k.rcv, probe := r.k.probe)
              && r.k.probe == k.probe.(tell := k.probe.tell
                                               || (|q| >= k.cfg.rcvWnd && |r.k.rcv.queue| < k.cfg.rcvWnd))
  {
    hide EndpointOk, Deliver, Payload, PeekSize, Taken;
    SpanIs(k.rcv.queue);
    n := Span(k.rcv.queue);
    JoinedIsPayload(k.rcv.queue[..n]);
    PeekIs(k.rcv.queue);
    TakenExactly(k, 0);
    TakenExactly(k, n);
    assert k.rcv.queue[0..] == k.rcv.queue;
  }
}
