/** The KCP control block as the program keeps it: fields updated in place by loops.  Every
    method is proved to compute the function of module Kcp that describes it. */
module KcpControl {
  import opened Words
  import opened Wire
  import opened Kcp
  import opened AckStore
  import Rtt
  import Congestion
  import Endpoint
  import SenderInvariant

  // ----- loops against recursive definitions

  lemma {:induction false} TakeAllSnoc(p: Progress, ss: seq<Seg>, s: Seg)
    ensures TakeAll(p, ss + [s]) == TakeSeg(TakeAll(p, ss), s)
    decreases |ss|
  {
    if ss == [] {
      assert TakeAll(p, [s]) == TakeAll(TakeSeg(p, s), [s][1..]);
    } else {
      assert (ss + [s])[1..] == ss[1..] + [s];
      TakeAllSnoc(TakeSeg(p, ss[0]), ss[1..], s);
    }
  }

  lemma JoinNone(a: Swept)
    ensures Join(a, Swept([], [], 0, 0, false)) == a
  {
  }

  lemma NoneJoin(a: Swept)
    ensures Join(Swept([], [], 0, 0, false), a) == a
  {
    assert [] + a.buf == a.buf && [] + a.out == a.out;
  }

  /** Moving one segment from the part ahead to the part done. */
  lemma SweepStep(k: Kcb, left: seq<Flight>, acc: Swept)
    requires left != []
    ensures Join(acc, Sweep(k, left)) == Join(Join(acc, SweepOne(k, left[0])), Sweep(k, left[1..]))
  {
    hide SweepOne, Join;
    JoinAssoc(acc, SweepOne(k, left[0]), Sweep(k, left[1..]));
  }

  lemma JoinAssoc(a: Swept, b: Swept, c: Swept)
    ensures Join(a, Join(b, c)) == Join(Join(a, b), c)
  {
    assert a.buf + (b.buf + c.buf) == (a.buf + b.buf) + c.buf;
    assert a.out + (b.out + c.out) == (a.out + b.out) + c.out;
  }

  lemma SweepOneKind(k: Kcb, f: Flight)
    ensures SweepOne(k, f).timeouts == (if Decide(k, f).Timeout? then 1 else 0)
    ensures SweepOne(k, f).fasts == (if Decide(k, f).Fast? then 1 else 0)
  {
  }

  lemma PutSnoc(p: Packer, ss: seq<Seg>, s: Seg, mtu: int)
    ensures PutAll(p, ss + [s], mtu) == Put(PutAll(p, ss, mtu), s, mtu)
  {
    PutAllConcat(p, ss, [s], mtu);
    assert PutAll(PutAll(p, ss, mtu), [s], mtu) == PutAll(Put(PutAll(p, ss, mtu), s, mtu), [s][1..], mtu);
  }

  /** Datagrams emitted earlier do not influence the packing. */
  lemma {:induction false} PutAllAfter(e: seq<bytes>, p: Packer, ss: seq<Seg>, mtu: int)
    ensures var q := PutAll(p, ss, mtu);
            PutAll(Packer(e + p.done, p.cur), ss, mtu) == Packer(e + q.done, q.cur)
    decreases |ss|
  {
    if ss != [] {
      var q := Put(p, ss[0], mtu);
      assert e + (p.done + [p.cur]) == (e + p.done) + [p.cur];
      assert Put(Packer(e + p.done, p.cur), ss[0], mtu) == Packer(e + q.done, q.cur);
      PutAllAfter(e, q, ss[1..], mtu);
    }
  }

  lemma FinishAfter(e: seq<bytes>, ss: seq<Seg>, mtu: int)
    ensures Finish(PutAll(Packer(e, []), ss, mtu)) == e + Pack(ss, mtu)
  {
    assert e + [] == e;
    PutAllAfter(e, Packer([], []), ss, mtu);
    var q := PutAll(Packer([], []), ss, mtu);
    assert e + (q.done + [q.cur]) == (e + q.done) + [q.cur];
  }

  lemma DropAckedStep(buf: seq<Flight>, sn: u32)
    ensures DropAcked(buf, sn) == if buf == [] then []
                                  else if sn == buf[0].seg.sn then buf[1..]
                                  else if TimeDiff(sn, buf[0].seg.sn) < 0 then buf
                                  else [buf[0]] + DropAcked(buf[1..], sn)
  {
  }

  lemma CountSkippedStep(buf: seq<Flight>, sn: u32, ts: u32)
    ensures CountSkipped(buf, sn, ts)
         == if buf == [] || TimeDiff(sn, buf[0].seg.sn) < 0 then buf
            else
              var f := if sn != buf[0].seg.sn && TimeDiff(ts, buf[0].seg.ts) >= 0
                       then buf[0].(fastack := Wrap(buf[0].fastack + 1)) else buf[0];
              [f] + CountSkipped(buf[1..], sn, ts)
  {
  }

  lemma InsertAt(buf: seq<Seg>, i: nat, s: Seg)
    requires 0 < i <= |buf|
    ensures Insert(buf[..i], s) == if buf[i - 1].sn == s.sn then buf[..i]
                                   else if TimeDiff(s.sn, buf[i - 1].sn) > 0 then buf[..i] + [s]
                                   else Insert(buf[..i - 1], s) + [buf[i - 1]]
  {
    assert buf[..i][i - 1] == buf[i - 1] && buf[..i][..i - 1] == buf[..i - 1];
  }

  lemma InsertFirst(s: Seg)
    ensures Insert([], s) == [s]
  {
  }

  lemma PayloadStep(segs: seq<Seg>, n: nat)
    requires 0 < n <= |segs|
    ensures Payload(segs[..n]) == segs[0].data + Payload(segs[1..][..n - 1])
  {
    assert segs[..n][0] == segs[0] && segs[..n][1..] == segs[1..][..n - 1];
  }

  lemma NextMessageAt(queue: seq<Seg>, i: nat)
    requires i < |queue|
    ensures NextMessage(queue[i..]) == queue[i].data + (if queue[i].frg == 0 then [] else NextMessage(queue[i + 1..]))
    ensures Span(queue[i..]) == 1 + if queue[i].frg == 0 then 0 else Span(queue[i + 1..])
  {
    var q := queue[i..];
    assert q[0] == queue[i] && q[1..] == queue[i + 1..];
    SpanBound(q);
    SpanBound(q[1..]);
    PayloadStep(q, Span(q));
    assert q[1..][..0] == [];
  }

  lemma FragmentsStep(msg: bytes, mss: u32)
    requires mss > 0
    ensures Fragments(msg, mss) ==
            if |msg| <= mss then [Frag(0, msg)]
            else [Frag(Wrap(|Fragments(msg[mss..], mss)|), msg[..mss])] + Fragments(msg[mss..], mss)
  {
  }

  lemma RecvCases(k: Kcb, len: int)
    ensures k.rcv.queue == [] ==> Recv(k, len) == Received(k, -1, [])
    ensures k.rcv.queue != [] && PeekSize(k.rcv.queue) < 0 ==> Recv(k, len) == Received(k, -2, [])
    ensures k.rcv.queue != [] && PeekSize(k.rcv.queue) > Rtt.Abs(len) ==> Recv(k, len) == Received(k, -3, [])
    ensures k.rcv.queue != [] && 0 <= PeekSize(k.rcv.queue) <= Rtt.Abs(len) ==>
              var q := k.rcv.queue;
              Span(q) <= |q| &&
              var rcv := Deliver(k.rcv.(queue := if len >= 0 then q[Span(q)..] else q), k.cfg.rcvWnd);
              var tell := k.probe.tell || (|q| >= k.cfg.rcvWnd && |rcv.queue| < k.cfg.rcvWnd);
              Recv(k, len) == Received(k.(rcv := rcv, probe := k.probe.(tell := tell)), |NextMessage(q)|,
                NextMessage(q))
  {
    SpanBound(k.rcv.queue);
  }

  lemma TakeAllOfNothing(p: Progress)
    ensures TakeAll(p, []) == p
  {
  }

  lemma DecodeStep(d: bytes, conv: u32)
    ensures |d| < OVERHEAD ==> Decode(d, conv) == Decoded([], 0)
    ensures |d| >= OVERHEAD ==>
              Decode(d, conv) == if Get32(d, 0) != conv then Decoded([], -1)
                                 else if |d| - OVERHEAD < Get32(d, 20) || Get32(d, 20) >= TWO31 then Decoded([], -2)
                                 else if !KnownCmd(d[4]) then Decoded([], -3)
                                 else
                                   var rest := Decode(d[OVERHEAD + Get32(d, 20)..], conv);
                                   Decoded([DecodeHead(d)] + rest.segs, rest.code)
  {
  }

  lemma PutNone(p: Packer, mtu: int)
    ensures PutAll(p, [], mtu) == p
  {
  }

  lemma PutProbes(p: Packer, k: Kcb, probe: Probe, mtu: int)
    ensures var ask, tell := Control(k, CMD_WASK, LastAck(k.acks)), Control(k, CMD_WINS, LastAck(k.acks));
            var q := if probe.ask then Put(p, ask, mtu) else p;
            PutAll(p, ProbeSegs(k, probe), mtu) == if probe.tell then Put(q, tell, mtu) else q
  {
    var ask, tell := Control(k, CMD_WASK, LastAck(k.acks)), Control(k, CMD_WINS, LastAck(k.acks));
    PutSnoc(p, [], ask, mtu);
    PutSnoc(p, [], tell, mtu);
    PutSnoc(p, [ask], tell, mtu);
    assert [] + [ask] == [ask] && [] + [tell] == [tell];
  }

  lemma SweepNone(k: Kcb)
    ensures Sweep(k, []) == Swept([], [], 0, 0, false)
  {
  }

  lemma WrapAdd(x: int, n: int)
    ensures Wrap(Wrap(x) + n) == Wrap(x + n)
  {
  }

  lemma PutThree(p: Packer, a: seq<Seg>, b: seq<Seg>, c: seq<Seg>, mtu: int)
    ensures PutAll(p, a + b + c, mtu) == PutAll(PutAll(PutAll(p, a, mtu), b, mtu), c, mtu)
  {
    PutAllConcat(p, a + b, c, mtu);
    PutAllConcat(p, a, b, mtu);
  }

  /** The buffer after the three parts of a flush, once its rest is handed over. */
  lemma FlushedPacking(k: Kcb, before: seq<bytes>, p: Packer)
    requires p == PutAll(PutAll(PutAll(Packer(before, []), AckSegs(k, k.acks), k.cfg.mtu),
                                ProbeSegs(k, Probing(k.probe, k.rmtWnd, k.current)), k.cfg.mtu),
                         Sweep(k, Admitted(k).buf).out, k.cfg.mtu)
    ensures before + Pack(FlushSegs(k), k.cfg.mtu) == if |p.cur| > 0 then p.done + [p.cur] else p.done
  {
    PutThree(Packer(before, []), AckSegs(k, k.acks), ProbeSegs(k, Probing(k.probe, k.rmtWnd, k.current)),
             Sweep(k, Admitted(k).buf).out, k.cfg.mtu);
    FinishAfter(before, FlushSegs(k), k.cfg.mtu);
  }

  /** The fields an active flush changes, one by one. */
  lemma FlushChanges(k: Kcb)
    requires k.updated
    ensures var f := Kcp.Flush(k).k;
            var sw := Sweep(k, Admitted(k).buf);
            && f.snd == Admitted(k).(buf := sw.buf) && f.xmit == Wrap(k.xmit + sw.timeouts)
            && f.dead == (k.dead || sw.dead)
            && f.probe == Probing(k.probe, k.rmtWnd, k.current).(ask := false, tell := false)
            && f.cc == Congestion.React(k.cc, sw.fasts > 0, sw.timeouts > 0, Dist(Admitted(k).una, Admitted(k).nxt),
                                        UsableWindow(k), Resent(k.cfg), k.cfg.mss)
  {
    hide Admitted, Sweep, Pack, FlushSegs, Probing, Congestion.React;
  }

  lemma IdleFlush(k: Kcb)
    requires !k.updated
    ensures Kcp.Flush(k) == Flushed(k, [], [])
  {
  }

  /** And no others. */
  lemma FlushKeepsOthers(k: Kcb)
    requires k.updated
    ensures var f := Kcp.Flush(k).k;
            f == Kcb(k.cfg, f.snd, k.rcv, [], k.rtt, f.cc, k.rmtWnd, f.probe, k.current, k.tsFlush, k.updated,
              f.xmit, f.dead)
    ensures Kcp.Flush(k).out == Pack(FlushSegs(k), k.cfg.mtu)
  {
    hide Admitted, Sweep, Pack, FlushSegs, Probing, Congestion.React;
  }

  // ----- the searches and copies, on the list they work on

  /** The loop of `ikcp_send`: cut the message into `count` segments. */
  method CutMessage(msg: bytes, mss: u32, count: nat) returns (frags: seq<Frag>)
    requires mss > 0 && |msg| < TWO31 && count == FragmentCount(|msg|, mss)
    ensures frags == Fragments(msg, mss)
  {
    hide Fragments, FragmentCount, Wrap;
    Endpoint.FragmentsShape(msg, mss);
    frags := [];
    var left := msg;
    for i := 0 to count
      invariant |left| <= |msg|
      invariant i < count ==> |Fragments(left, mss)| == count - i
      invariant Fragments(msg, mss) == if i < count then frags + Fragments(left, mss) else frags
    {
      FragmentsStep(left, mss);
      Endpoint.FragmentsShape(left, mss);
      var size := if |left| > mss then mss else |left|;
      frags, left := frags + [Frag(count - i - 1, left[..size])], left[size..];
    }
  }

  /** The merging loop of `ikcp_peeksize` and `ikcp_recv`: join the fragments of the next
      message and count them. */
  method MergeNext(queue: seq<Seg>) returns (data: bytes, used: nat)
    ensures data == NextMessage(queue) && used == Span(queue) <= |queue|
  {
    hide Span, NextMessage;
    data, used := [], 0;
    MessageOfNothing();
    assert queue[0..] == queue;
    while used < |queue|
      invariant 0 <= used <= |queue|
      invariant data + NextMessage(queue[used..]) == NextMessage(queue)
      invariant used + Span(queue[used..]) == Span(queue)
    {
      NextMessageAt(queue, used);
      var seg := queue[used];
      data, used := data + seg.data, used + 1;
      if seg.frg == 0 { return; }
    }
    assert queue[used..] == [];
  }

  lemma MessageOfNothing()
    ensures NextMessage([]) == [] && Span([]) == 0
  {
  }

  /** The loop of `ikcp_parse_ack`; `cut` says whether it deleted a segment. */
  method CutAcked(buf: seq<Flight>, sn: u32) returns (out: seq<Flight>, cut: bool)
    ensures out == DropAcked(buf, sn)
    ensures |buf| == if cut then |out| + 1 else |out|
  {
    hide TimeDiff, DropAcked;
    var left := buf;
    out, cut := [], false;
    while left != [] && sn != left[0].seg.sn && TimeDiff(sn, left[0].seg.sn) >= 0
      invariant DropAcked(buf, sn) == out + DropAcked(left, sn) && |out| + |left| == |buf|
      decreases |left|
    {
      DropAckedStep(left, sn);
      out, left := out + [left[0]], left[1..];
    }
    DropAckedStep(left, sn);
    if left != [] && sn == left[0].seg.sn { left, cut := left[1..], true; }
    out := out + left;
  }

  /** The loop of `ikcp_parse_fastack`. */
  method MarkSkipped(buf: seq<Flight>, sn: u32, ts: u32) returns (out: seq<Flight>)
    ensures out == CountSkipped(buf, sn, ts)
  {
    hide TimeDiff, Wrap, CountSkipped;
    var left := buf;
    out := [];
    while left != [] && TimeDiff(sn, left[0].seg.sn) >= 0
      invariant CountSkipped(buf, sn, ts) == out + CountSkipped(left, sn, ts)
      decreases |left|
    {
      CountSkippedStep(left, sn, ts);
      var f := left[0];
      if sn != f.seg.sn && TimeDiff(ts, f.seg.ts) >= 0 { f := f.(fastack := Wrap(f.fastack + 1)); }
      out, left := out + [f], left[1..];
    }
    CountSkippedStep(left, sn, ts);
    out := out + left;
  }

  /** The backward search of `ikcp_parse_data`; `repeat` says whether the number was there. */
  method InsertSegment(buf: seq<Seg>, seg: Seg) returns (out: seq<Seg>, repeat: bool)
    ensures out == Insert(buf, seg)
    ensures |out| == if repeat then |buf| else |buf| + 1
  {
    hide TimeDiff, Insert;
    var i := |buf|;
    repeat := false;
    assert buf[..i] == buf;
    while i > 0
      invariant 0 <= i <= |buf|
      invariant Insert(buf, seg) == Insert(buf[..i], seg) + buf[i..]
    {
      InsertAt(buf, i, seg);
      if buf[i - 1].sn == seg.sn {
        repeat := true;
        break;
      }
      if TimeDiff(seg.sn, buf[i - 1].sn) > 0 { break; }
      i := i - 1;
    }
    InsertFirst(seg);
    out := if repeat then buf else buf[..i] + [seg] + buf[i..];
    assert buf[..i] + buf[i..] == buf;
  }

  /** `IKCPCB`, its fields grouped by the half of the protocol they serve. */
  class ControlBlock {
    var cfg: Config
    var snd: Sender
    var rcv: Receiver
    var nsndQue: nat
    var nrcvQue: nat
    var nsndBuf: nat
    var nrcvBuf: nat
    const acks: AckList
    var rtt: Rtt.Estimate
    var cc: Congestion.Window
    var rmtWnd: u32
    var probe: Probe
    var current: u32
    var tsFlush: u32
    var updated: bool
    var xmit: u32
    var dead: bool
    /** Every datagram handed to the output callback. */
    var emitted: seq<bytes>

    ghost predicate Valid()
      reads this, acks, acks.data
    {
      && ValidConfig(cfg)
      && acks.Valid()
      && nsndQue == |snd.queue| && nrcvQue == |rcv.queue| && nsndBuf == |snd.buf| && nrcvBuf == |rcv.buf|
    }

    /** The control block as a value. */
    ghost function View(): Kcb
      reads this, acks, acks.data
      requires acks.Valid()
    {
      Kcb(cfg, snd, rcv, acks.Acks(), rtt, cc, rmtWnd, probe, current, tsFlush, updated, xmit, dead)
    }

    // ----- creation and configuration

    /** `ikcp_create` followed by the calls the repository makes before the first send. */
    constructor (conv: u32, mtu: u32, sndWnd: u32, rcvWnd: u32, nodelay: u32, interval: u32, resend: u32, nc: bool)
      requires 50 <= mtu < TWO31 && 0 < sndWnd < TWO31 && 0 < rcvWnd <= 0xFFFF && resend < TWO31
      ensures Valid() && fresh(acks) && fresh(acks.data) && emitted == []
      ensures View() == Fresh(cfg)
      ensures cfg.conv == conv && cfg.mtu == mtu && cfg.sndWnd == sndWnd && cfg.rcvWnd == Max(rcvWnd, WND_RCV)
      ensures cfg.nodelay == nodelay && cfg.fastResend == resend && cfg.noCwnd == nc && cfg.mss == mtu - 24
      ensures cfg.interval == Max(10, Min(interval, 5000)) && cfg.minRto == (if nodelay == 0 then 100 else 30)
      ensures cfg.fastLimit == 5 && cfg.deadLink == 20
      ensures snd == Sender(0, 0, [], []) && rcv == Receiver(0, [], []) && rmtWnd == 128 && rtt.rto == 200
      ensures cc.cwnd == 0 && cc.ssthresh == 2 && tsFlush == 100 && !updated && !dead
    {
      cfg := Config(conv, mtu, mtu - OVERHEAD, sndWnd, Max(rcvWnd, WND_RCV),
                    if interval > 5000 then 5000 else if interval < 10 then 10 else interval,
                    nodelay, if nodelay != 0 then RTO_NDL else RTO_MIN, resend, 5, nc, 20);
      snd, rcv := Sender(0, 0, [], []), Receiver(0, [], []);
      nsndQue, nrcvQue, nsndBuf, nrcvBuf := 0, 0, 0, 0;
      acks := new AckList();
      rtt, cc := Rtt.Estimate(0, 0, RTO_DEF), Congestion.Window(0, 2, 0);
      rmtWnd, probe := WND_RCV, Probe(0, 0, false, false);
      current, tsFlush, updated := 0, 100, false;
      xmit, dead, emitted := 0, false, [];
    }

    // ----- ikcp_send

    /** Refuses a negative length with -1 and 128 or more fragments with -2. */
    method Send(buffer: bytes, len: int) returns (code: int)
      requires Valid() && len <= |buffer| && len < TWO31
      modifies this`snd, this`nsndQue
      ensures Valid()
      ensures len < 0 ==> code == -1 && View() == old(View())
      ensures len >= 0 ==> View() == Kcp.Send(old(View()), buffer[..len])
      ensures len >= 0 ==> code == if Sendable(buffer[..len], cfg) then len else -2
    {
      if len < 0 { return -1; }
      var count := if len <= cfg.mss then 1 else (len + cfg.mss - 1) / cfg.mss;
      if count >= WND_RCV { return -2; }
      var frags := CutMessage(buffer[..len], cfg.mss, count);
      Endpoint.FragmentsShape(buffer[..len], cfg.mss);
      snd, nsndQue := snd.(queue := snd.queue + frags), nsndQue + count;
      return len;
    }

    // ----- ikcp_peeksize and ikcp_recv

    method PeekSize() returns (length: int)
      requires Valid()
      ensures length == Kcp.PeekSize(rcv.queue)
    {
      if nrcvQue == 0 { return -1; }
      if rcv.queue[0].frg == 0 { return |rcv.queue[0].data|; }
      if nrcvQue < rcv.queue[0].frg + 1 { return -1; }
      var data, used := MergeNext(rcv.queue);
      length := |data|;
    }

    /** Move the in-order front of `rcv_buf` into `rcv_queue`. */
    method DeliverReady()
      requires Valid()
      modifies this`rcv, this`nrcvBuf, this`nrcvQue
      ensures Valid() && rcv == Deliver(old(rcv), cfg.rcvWnd)
    {
      while nrcvBuf > 0
        invariant nrcvQue == |rcv.queue| && nrcvBuf == |rcv.buf|
        invariant Deliver(rcv, cfg.rcvWnd) == Deliver(old(rcv), cfg.rcvWnd)
        decreases nrcvBuf
      {
        var seg := rcv.buf[0];
        if seg.sn == rcv.nxt && nrcvQue < cfg.rcvWnd {
          rcv := Receiver(Wrap(rcv.nxt + 1), rcv.buf[1..], rcv.queue + [seg]);
          nrcvBuf, nrcvQue := nrcvBuf - 1, nrcvQue + 1;
        } else {
          break;
        }
      }
    }

    /** A negative `len` peeks with a buffer of `-len` bytes.  The merged length always equals
        the announced size. */
    method Recv(len: int) returns (code: int, data: bytes)
      requires Valid()
      modifies this`rcv, this`nrcvBuf, this`nrcvQue, this`probe
      ensures Valid()
      ensures Received(View(), code, data) == Kcp.Recv(old(View()), len)
    {
      hide Kcp.Recv, Deliver, Span, NextMessage, Kcp.PeekSize, ValidConfig;
      RecvCases(View(), len);
      if nrcvQue == 0 { return -1, []; }
      var cap := if len < 0 then -len else len;
      var peeksize := PeekSize();
      if peeksize < 0 { return -2, []; }
      if peeksize > cap { return -3, []; }
      Endpoint.PeekIsMessageLength(rcv.queue);
      var recover, used := nrcvQue >= cfg.rcvWnd, 0;
      data, used := MergeNext(rcv.queue);
      assert |data| == peeksize;
      if len >= 0 { rcv, nrcvQue := rcv.(queue := rcv.queue[used..]), nrcvQue - used; }
      DeliverReady();
      if nrcvQue < cfg.rcvWnd && recover { probe := probe.(tell := true); }
      code := |data|;
    }

    // ----- acknowledgements

    method UpdateAck(sample: int)
      requires Valid()
      modifies this`rtt
      ensures Valid() && rtt == Rtt.Update(old(rtt), sample, cfg.interval, cfg.minRto)
    {
      var srtt, rttval := rtt.srtt, rtt.rttval;
      if srtt == 0 {
        srtt := sample;
        rttval := TruncDiv(sample, 2);
      } else {
        var delta := Signed32(sample - srtt);
        if delta < 0 { delta := -delta; }
        rttval := Signed32(TruncDiv(Signed32(3 * rttval) + delta, 4));
        srtt := TruncDiv(Signed32(Signed32(7 * srtt) + sample), 8);
        if srtt < 1 { srtt := 1; }
      }
      rtt := Rtt.Estimate(srtt, rttval,
        Min(Max(cfg.minRto, Wrap(srtt + Max(cfg.interval, Wrap(4 * rttval)))), Rtt.RTO_MAX));
    }

    method ShrinkBuf()
      requires Valid()
      modifies this`snd
      ensures Valid() && snd == Shrink(old(snd))
    {
      snd := snd.(una := if nsndBuf > 0 then snd.buf[0].seg.sn else snd.nxt);
    }

    method ParseAck(sn: u32)
      requires Valid()
      modifies this`snd, this`nsndBuf
      ensures Valid() && snd == Kcp.ParseAck(old(snd), sn)
    {
      hide TimeDiff, DropAcked, ValidConfig;
      if TimeDiff(sn, snd.una) < 0 || TimeDiff(sn, snd.nxt) >= 0 { return; }
      var buf, cut := CutAcked(snd.buf, sn);
      snd := snd.(buf := buf);
      if cut { nsndBuf := nsndBuf - 1; }
    }

    method ParseUna(una: u32)
      requires Valid()
      modifies this`snd, this`nsndBuf
      ensures Valid() && snd == old(snd).(buf := DropUna(old(snd).buf, una))
    {
      hide TimeDiff, ValidConfig;
      while nsndBuf > 0
        invariant nsndBuf == |snd.buf| && snd == old(snd).(buf := snd.buf)
        invariant DropUna(snd.buf, una) == DropUna(old(snd).buf, una)
        decreases nsndBuf
      {
        if TimeDiff(una, snd.buf[0].seg.sn) > 0 {
          snd, nsndBuf := snd.(buf := snd.buf[1..]), nsndBuf - 1;
        } else {
          break;
        }
      }
    }

    method ParseFastack(sn: u32, ts: u32)
      requires Valid()
      modifies this`snd
      ensures Valid() && snd == Kcp.ParseFastack(old(snd), sn, ts)
    {
      hide TimeDiff, CountSkipped, ValidConfig;
      if TimeDiff(sn, snd.una) < 0 || TimeDiff(sn, snd.nxt) >= 0 { return; }
      SenderInvariant.CountSkippedEffect(snd.buf, sn, ts);
      var buf := MarkSkipped(snd.buf, sn, ts);
      snd := snd.(buf := buf);
    }

    // ----- ikcp_parse_data

    method ParseData(seg: Seg)
      requires Valid()
      modifies this`rcv, this`nrcvBuf, this`nrcvQue
      ensures Valid() && rcv == Kcp.ParseData(old(rcv), cfg.rcvWnd, seg)
    {
      hide TimeDiff, Wrap, Insert, Deliver, ValidConfig;
      if TimeDiff(seg.sn, Wrap(rcv.nxt + cfg.rcvWnd)) >= 0 || TimeDiff(seg.sn, rcv.nxt) < 0 { return; }
      var buf, repeat := InsertSegment(rcv.buf, seg);
      rcv := rcv.(buf := buf);
      if !repeat { nrcvBuf := nrcvBuf + 1; }
      DeliverReady();
    }

    // ----- ikcp_input

    /** The effect of one decoded segment. */
    method TakeSegment(s: Seg, mark: Mark) returns (mark': Mark)
      requires Valid()
      modifies this`rmtWnd, this`snd, this`rcv, this`nsndBuf, this`nrcvBuf, this`nrcvQue, this`rtt, this`probe, acks,
               acks.data
      ensures Valid() && (acks.data == old(acks.data) || fresh(acks.data))
      ensures Progress(View(), mark') == TakeSeg(Progress(old(View()), mark), s)
    {
      hide TimeDiff, Wrap, DropUna, Shrink, Kcp.ParseAck, Kcp.ParseData, Rtt.Update, ValidConfig, AckList.Acks;
      ghost var k := View();
      rmtWnd := s.wnd;
      ParseUna(s.una);
      ShrinkBuf();
      assert View() == TakeHeader(k, s);
      mark' := mark;
      if s.cmd == CMD_ACK {
        mark' := TakeAckSegment(s, mark);
      } else if s.cmd == CMD_PUSH {
        TakePushSegment(s);
      } else if s.cmd == CMD_WASK {
        probe := probe.(tell := true);
      }
    }

    method TakeAckSegment(s: Seg, mark: Mark) returns (mark': Mark)
      requires Valid()
      modifies this`rtt, this`snd, this`nsndBuf
      ensures Valid() && Progress(View(), mark') == TakeAck(Progress(old(View()), mark), s)
    {
      hide TimeDiff, Shrink, Kcp.ParseAck, Rtt.Update, ValidConfig, AckList.Acks;
      if TimeDiff(current, s.ts) >= 0 { UpdateAck(TimeDiff(current, s.ts)); }
      ParseAck(s.sn);
      ShrinkBuf();
      mark' := mark;
      if mark.NoMark? {
        mark' := Mark(s.sn, s.ts);
      } else if TimeDiff(s.sn, mark.sn) > 0 {
        if TimeDiff(s.ts, mark.ts) > 0 { mark' := Mark(s.sn, s.ts); }
      }
    }

    method TakePushSegment(s: Seg)
      requires Valid()
      modifies this`rcv, this`nrcvBuf, this`nrcvQue, acks, acks.data
      ensures Valid() && (acks.data == old(acks.data) || fresh(acks.data))
      ensures View() == TakePush(old(View()), s)
    {
      hide TimeDiff, Wrap, Kcp.ParseData, ValidConfig, AckList.Acks;
      if TimeDiff(s.sn, Wrap(rcv.nxt + cfg.rcvWnd)) < 0 {
        acks.Push(s.sn, s.ts);
        if TimeDiff(s.sn, rcv.nxt) >= 0 { ParseData(s); }
      }
    }

    /** Growth of the congestion window after an input that acknowledged something. */
    method GrowWindow()
      requires Valid()
      modifies this`cc
      ensures Valid() && cc == Congestion.Grow(old(cc), rmtWnd, cfg.mss)
    {
      hide Congestion.Mul32, Congestion.Div32, Wrap;
      if cc.cwnd < rmtWnd {
        var mss := cfg.mss;
        if cc.cwnd < cc.ssthresh {
          cc := cc.(cwnd := Wrap(cc.cwnd + 1), incr := Wrap(cc.incr + mss));
        } else {
          var incr := if cc.incr < mss then mss else cc.incr;
          incr := Wrap(incr + Congestion.Div32(Congestion.Mul32(mss, mss), incr) + mss / 16);
          cc := cc.(incr := incr);
          if Congestion.Mul32(Wrap(cc.cwnd + 1), mss) <= incr {
            cc := cc.(cwnd := Congestion.Div32(Wrap(incr + mss - 1), mss));
          }
        }
        if cc.cwnd > rmtWnd { cc := cc.(cwnd := rmtWnd, incr := Congestion.Mul32(rmtWnd, mss)); }
      }
    }

    /** Decode and take segment after segment; an error stops the loop with its code. */
    method Input(data: bytes) returns (code: int)
      requires Valid()
      modifies this`rmtWnd, this`snd, this`rcv, this`nsndBuf, this`nrcvBuf, this`nrcvQue, this`rtt, this`probe,
               this`cc, acks, acks.data
      ensures Valid() && (acks.data == old(acks.data) || fresh(acks.data))
      ensures Taken(View(), code) == Kcp.Input(old(View()), data)
    {
      hide TakeSeg, TakeAll, Decode, Settle, Get32, DecodeHead, ValidConfig, AckList.Acks, KnownCmd;
      if |data| < OVERHEAD { return -1; }
      var prevUna := snd.una;
      var at, mark, failed := 0, NoMark, 0;
      ghost var k, done := View(), [];
      TakeAllOfNothing(Progress(k, NoMark));
      assert data[0..] == data;
      while |data| - at >= OVERHEAD && failed == 0
        invariant 0 <= at <= |data| && Valid() && (acks.data == old(acks.data) || fresh(acks.data))
        invariant Progress(View(), mark) == TakeAll(Progress(k, NoMark), done)
        invariant failed == 0 ==>
                  Decode(data, cfg.conv)
                    == Decoded(done + Decode(data[at..], cfg.conv).segs, Decode(data[at..], cfg.conv).code)
        invariant failed != 0 ==> Decode(data, cfg.conv) == Decoded(done, failed)
        decreases |data| - at, failed == 0
      {
        var d := data[at..];
        DecodeStep(d, cfg.conv);
        var len := Get32(d, 20);
        if Get32(d, 0) != cfg.conv {
          failed := -1;
        } else if |d| - OVERHEAD < len || len >= TWO31 {
          failed := -2;
        } else if !KnownCmd(d[4]) {
          failed := -3;
        } else {
          var s := DecodeHead(d);
          mark := TakeSegment(s, mark);
          TakeAllSnoc(Progress(k, NoMark), done, s);
          done := done + [s];
          at := at + OVERHEAD + len;
          assert d[OVERHEAD + len..] == data[at..];
        }
      }
      if failed != 0 { return failed; }
      DecodeStep(data[at..], cfg.conv);
      assert done + [] == done;
      SettleAll(mark, prevUna);
      code := 0;
    }

    method SettleAll(mark: Mark, prevUna: u32)
      requires Valid()
      modifies this`snd, this`cc
      ensures Valid() && View() == Settle(Progress(old(View()), mark), prevUna)
    {
      hide TimeDiff, Kcp.ParseFastack, Congestion.Grow, AckList.Acks;
      if mark.Mark? { ParseFastack(mark.sn, mark.ts); }
      if TimeDiff(snd.una, prevUna) > 0 { GrowWindow(); }
    }

    // ----- ikcp_flush

    /** Hand the buffer to the output callback when `need` more bytes exceed the MTU, then
        append the encoded segment. */
    method Emit(cur: bytes, s: Seg) returns (cur': bytes)
      requires Valid()
      modifies this`emitted
      ensures Packer(emitted, cur') == Put(Packer(old(emitted), cur), s, cfg.mtu)
    {
      cur' := cur;
      if |cur| + OVERHEAD + |s.data| > cfg.mtu {
        if |cur| > 0 { emitted := emitted + [cur]; }
        cur' := [];
      }
      cur' := cur' + Encode(s);
    }

    method FlushAcks(ghost k: Kcb) returns (cur: bytes, last: Ack)
      requires Valid() && SameSetting(k)
      modifies this`emitted
      ensures Packer(emitted, cur) == PutAll(Packer(old(emitted), []), AckSegs(k, acks.Acks()), cfg.mtu)
      ensures last == LastAck(acks.Acks())
    {
      hide Put, PutAll, Control, Encode, ValidConfig, WndUnused, AckList.Acks;
      ghost var start, all := Packer(emitted, []), acks.Acks();
      AcksLength(acks);
      cur, last := [], Ack(0, 0);
      PutNone(start, cfg.mtu);
      for i := 0 to acks.count
        invariant Packer(emitted, cur) == PutAll(start, AckSegs(k, all)[..i], cfg.mtu)
        invariant last == LastAck(all[..i])
      {
        last := acks.Get(i);
        var s := ControlSeg(CMD_ACK, last, k);
        PutSnoc(start, AckSegs(k, all)[..i], s, cfg.mtu);
        assert AckSegs(k, all)[..i + 1] == AckSegs(k, all)[..i] + [s];
        cur := Emit(cur, s);
      }
      assert AckSegs(k, all)[..|all|] == AckSegs(k, all) && all[..|all|] == all;
    }

    static lemma AcksLength(a: AckList)
      requires a.Valid()
      ensures |a.Acks()| == a.count
    {
    }

    method ControlSeg(cmd: u32, a: Ack, ghost k: Kcb) returns (s: Seg)
      requires Valid() && SameSetting(k)
      ensures s == Control(k, cmd, a)
    {
      var wnd := Unused();
      s := Seg(cfg.conv, cmd, 0, wnd, a.ts, a.sn, rcv.nxt, []);
    }

    /** The window-probe timer while the peer's window is closed. */
    method ScheduleProbe()
      requires Valid()
      modifies this`probe
      ensures Valid() && probe == Probing(old(probe), rmtWnd, current)
    {
      hide TimeDiff, Wrap;
      if rmtWnd == 0 {
        if probe.wait == 0 {
          probe := probe.(ts := Wrap(current + PROBE_INIT), wait := PROBE_INIT);
        } else if TimeDiff(current, probe.ts) >= 0 {
          var wait := if probe.wait < PROBE_INIT then PROBE_INIT else probe.wait;
          wait := Wrap(wait + wait / 2);
          if wait > PROBE_LIMIT { wait := PROBE_LIMIT; }
          probe := probe.(ts := Wrap(current + wait), wait := wait, ask := true);
        }
      } else {
        probe := probe.(ts := 0, wait := 0);
      }
    }

    /** Window probes, after the acknowledgements and with the last one's numbers. */
    method FlushProbes(cur: bytes, last: Ack, ghost k: Kcb) returns (cur': bytes)
      requires Valid() && SameSetting(k) && last == LastAck(k.acks)
      modifies this`emitted
      ensures Packer(emitted, cur') == PutAll(Packer(old(emitted), cur), ProbeSegs(k, probe), cfg.mtu)
    {
      hide Put, PutAll, Control, Encode, ValidConfig, WndUnused, AckList.Acks;
      PutProbes(Packer(emitted, cur), k, probe, cfg.mtu);
      cur' := cur;
      if probe.ask {
        var s := ControlSeg(CMD_WASK, last, k);
        cur' := Emit(cur', s);
      }
      if probe.tell {
        var s := ControlSeg(CMD_WINS, last, k);
        cur' := Emit(cur', s);
      }
    }

    /** The fields that a segment on its way out is stamped with have not changed since `k`. */
    ghost predicate SameSetting(k: Kcb)
      reads this
    {
      cfg == k.cfg && rcv == k.rcv && current == k.current && rtt == k.rtt
    }

    method Unused() returns (wnd: u32)
      requires Valid()
      ensures wnd == if |rcv.queue| < cfg.rcvWnd then cfg.rcvWnd - |rcv.queue| else 0
    {
      wnd := if nrcvQue < cfg.rcvWnd then cfg.rcvWnd - nrcvQue else 0;
    }

    method LaunchNext(ghost k: Kcb) returns (f: Flight)
      requires Valid() && nsndQue > 0 && SameSetting(k)
      ensures f == Launch(k, snd.queue[0], snd.nxt)
    {
      var wnd := Unused();
      var frag := snd.queue[0];
      f := Flight(Seg(cfg.conv, CMD_PUSH, frag.frg, wnd, current, snd.nxt, rcv.nxt, frag.data),
                  current, Wrap(rtt.rto), 0, 0);
    }

    /** Number fragments and move them to `snd_buf` while the window allows. */
    method AdmitNew(window: u32, ghost k: Kcb)
      requires Valid() && SameSetting(k)
      modifies this`snd, this`nsndQue, this`nsndBuf
      ensures Valid() && snd == Admit(k, old(snd), window)
    {
      hide TimeDiff, Wrap, ValidConfig, Launch, AckList.Acks;
      while TimeDiff(snd.nxt, Wrap(snd.una + window)) < 0 && nsndQue > 0
        invariant nsndQue == |snd.queue| && nsndBuf == |snd.buf|
        invariant Admit(k, snd, window) == Admit(k, old(snd), window)
        decreases nsndQue
      {
        var f := LaunchNext(k);
        snd := Sender(snd.una, Wrap(snd.nxt + 1), snd.queue[1..], snd.buf + [f]);
        nsndQue, nsndBuf := nsndQue - 1, nsndBuf + 1;
      }
    }

    /** Decide whether one segment goes out now and bring its retransmission state up to date. */
    method ResendOne(f: Flight, ghost k: Kcb) returns (g: Flight, kind: Kind)
      requires Valid() && SameSetting(k)
      ensures g == Resend(k, f) && kind == Decide(k, f)
    {
      hide TimeDiff, Wrap, Signed32, TruncDiv, ValidConfig;
      var resent: u32 := if cfg.fastResend > 0 then cfg.fastResend else 0xFFFF_FFFF;
      var rtomin := if cfg.nodelay == 0 then Wrap(rtt.rto) / 8 else 0;
      g, kind := f, Hold;
      if f.xmit == 0 {
        kind := First;
        g := g.(xmit := Wrap(f.xmit + 1), rto := Wrap(rtt.rto), resendts := Wrap(current + Wrap(rtt.rto) + rtomin));
      } else if TimeDiff(current, f.resendts) >= 0 {
        kind := Timeout;
        var step := if cfg.nodelay == 0 then Max(f.rto, Wrap(rtt.rto))
                    else TruncDiv(if cfg.nodelay < 2 then Signed32(f.rto) else rtt.rto, 2);
        var rto := Wrap(f.rto + step);
        g := g.(xmit := Wrap(f.xmit + 1), rto := rto, resendts := Wrap(current + rto));
      } else if f.fastack >= resent {
        if Signed32(f.xmit) <= cfg.fastLimit || cfg.fastLimit <= 0 {
          kind := Fast;
          g := g.(xmit := Wrap(f.xmit + 1), fastack := 0, resendts := Wrap(current + f.rto));
        }
      }
      if kind != Hold {
        var wnd := Unused();
        g := g.(seg := f.seg.(ts := current, wnd := wnd, una := rcv.nxt));
      }
    }

    /** One turn of the pass: send the segment if it is due, and note a dead link. */
    method SendIfDue(f: Flight, cur: bytes, ghost k: Kcb) returns (g: Flight, cur': bytes, kind: Kind)
      requires Valid() && SameSetting(k)
      modifies this`emitted, this`xmit, this`dead
      ensures kind == Decide(k, f) && SweepOne(k, f).buf == [g]
      ensures Packer(emitted, cur') == PutAll(Packer(old(emitted), cur), SweepOne(k, f).out, cfg.mtu)
      ensures xmit == Wrap(old(xmit) + SweepOne(k, f).timeouts) && dead == (old(dead) || SweepOne(k, f).dead)
    {
      hide Resend, Decide, Put, PutAll, Encode, ValidConfig, Wrap, AckList.Acks;
      PutNone(Packer(emitted, cur), cfg.mtu);
      WrapSmall(xmit);
      g, kind := ResendOne(f, k);
      cur' := cur;
      if kind == Timeout { xmit := Wrap(xmit + 1); }
      if kind != Hold {
        PutSnoc(Packer(emitted, cur), [], g.seg, cfg.mtu);
        assert [] + [g.seg] == [g.seg];
        cur' := Emit(cur', g.seg);
        if g.xmit >= cfg.deadLink { dead := true; }
      }
    }

    /** The pass over `snd_buf`; reports fast retransmissions and timeouts. */
    method SweepBuf(cur: bytes, ghost k: Kcb) returns (cur': bytes, change: nat, lost: bool)
      requires Valid() && SameSetting(k)
      modifies this`snd, this`emitted, this`xmit, this`dead
      ensures Valid() && snd == old(snd).(buf := Sweep(k, old(snd).buf).buf)
      ensures Packer(emitted, cur') == PutAll(Packer(old(emitted), cur), Sweep(k, old(snd).buf).out, cfg.mtu)
      ensures change == Sweep(k, old(snd).buf).fasts && lost == (Sweep(k, old(snd).buf).timeouts > 0)
      ensures xmit == Wrap(old(xmit) + Sweep(k, old(snd).buf).timeouts)
      ensures dead == (old(dead) || Sweep(k, old(snd).buf).dead)
    {
      hide Resend, Decide, Sweep, SweepOne, PutAll, ValidConfig, Wrap, AckList.Acks;
      ghost var start, acc := Packer(emitted, cur), Swept([], [], 0, 0, false);
      cur', change, lost := cur, 0, false;
      var left, done := snd.buf, [];
      SweepNone(k);
      PutNone(start, cfg.mtu);
      WrapSmall(xmit);
      NoneJoin(Sweep(k, left));
      while left != []
        invariant Sweep(k, snd.buf) == Join(acc, Sweep(k, left))
        invariant done == acc.buf && change == acc.fasts && lost == (acc.timeouts > 0)
        invariant Packer(emitted, cur') == PutAll(start, acc.out, cfg.mtu)
        invariant xmit == Wrap(old(xmit) + acc.timeouts) && dead == (old(dead) || acc.dead)
        modifies this`emitted, this`xmit, this`dead
        decreases |left|
      {
        var f, g, kind := left[0], left[0], Hold;
        ghost var one := SweepOne(k, f);
        SweepStep(k, left, acc);
        SweepOneKind(k, f);
        PutAllConcat(start, acc.out, one.out, cfg.mtu);
        WrapAdd(old(xmit) + acc.timeouts, one.timeouts);
        g, cur', kind := SendIfDue(f, cur', k);
        done, left := done + [g], left[1..];
        lost := lost || kind == Timeout;
        change := change + if kind == Fast then 1 else 0;
        acc := Join(acc, one);
      }
      JoinNone(acc);
      SenderInvariant.SweepPointwise(k, snd.buf);
      snd := snd.(buf := done);
    }

    /** Acknowledgements and window probes. */
    method FlushControl(ghost k: Kcb) returns (cur: bytes)
      requires Valid() && k == View() && k.updated
      modifies this`probe, this`emitted, acks
      ensures Valid() && acks.data == old(acks.data) && acks.Acks() == []
      ensures probe == Kcp.Flush(k).k.probe
      ensures Packer(emitted, cur)
           == PutAll(PutAll(Packer(old(emitted), []), AckSegs(k, k.acks), cfg.mtu),
                     ProbeSegs(k, Probing(k.probe, rmtWnd, current)), cfg.mtu)
    {
      hide Probing, PutAll, AckSegs, ProbeSegs, ValidConfig, LastAck, AckList.Acks, Kcp.Flush;
      FlushChanges(k);
      var last;
      cur, last := FlushAcks(k);
      acks.Clear();
      ScheduleProbe();
      cur := FlushProbes(cur, last, k);
      probe := probe.(ask := false, tell := false);
    }

    /** Data segments: admission, the pass over `snd_buf`, and the rest of the buffer. */
    method FlushData(cur: bytes, ghost k: Kcb)
      requires Valid() && SameSetting(k) && snd == k.snd && rmtWnd == k.rmtWnd && cc == k.cc
      requires xmit == k.xmit && dead == k.dead && k.updated
      modifies this`snd, this`nsndQue, this`nsndBuf, this`cc, this`xmit, this`dead, this`emitted
      ensures Valid()
      ensures var f := Kcp.Flush(k).k;
              snd == f.snd && xmit == f.xmit && dead == f.dead && cc == f.cc
      ensures var p := PutAll(Packer(old(emitted), cur), Sweep(k, Admitted(k).buf).out, cfg.mtu);
              emitted == if |p.cur| > 0 then p.done + [p.cur] else p.done
    {
      hide Admit, Sweep, PutAll, Wrap, UsableWindow, ValidConfig, Congestion.React, AckList.Acks, Resent, Kcp.Flush;
      FlushChanges(k);
      var window := Window(k);
      AdmitNew(window, k);
      var rest, change, lost := SweepBuf(cur, k);
      if |rest| > 0 { emitted := emitted + [rest]; }
      ReactToLoss(change > 0, lost, window);
    }

    /** `ikcp_flush`: everything emitted is the packing of the flushed segments. */
    method Flush()
      requires Valid()
      modifies this`snd, this`nsndQue, this`nsndBuf, this`probe, this`cc, this`xmit, this`dead, this`emitted, acks
      ensures Valid() && acks.data == old(acks.data)
      ensures View() == Kcp.Flush(old(View())).k
      ensures emitted == old(emitted) + Kcp.Flush(old(View())).out
    {
      hide Kcp.Flush, Probing, Admitted, Sweep, PutAll, Pack, AckSegs, ProbeSegs, FlushSegs, ValidConfig,
        AckList.Acks, AckList.Valid;
      ghost var k := View();
      if !updated {
        IdleFlush(k);
        return;
      }
      FlushKeepsOthers(k);
      var cur := FlushControl(k);
      FlushedPacking(k, old(emitted), PutAll(Packer(emitted, cur), Sweep(k, Admitted(k).buf).out, cfg.mtu));
      FlushData(cur, k);
    }

    method Window(ghost k: Kcb) returns (window: u32)
      requires cfg == k.cfg && rmtWnd == k.rmtWnd && cc == k.cc
      ensures window == UsableWindow(k)
    {
      window := if cfg.sndWnd <= rmtWnd then cfg.sndWnd else rmtWnd;
      if !cfg.noCwnd { window := if cc.cwnd <= window then cc.cwnd else window; }
    }

    /** The congestion window after the pass. */
    method ReactToLoss(change: bool, lost: bool, window: u32)
      requires Valid()
      modifies this`cc
      ensures Valid()
      ensures cc == Congestion.React(old(cc), change, lost, Dist(snd.una, snd.nxt), window, Resent(cfg), cfg.mss)
    {
      hide Wrap, Congestion.Mul32;
      var resent: u32 := if cfg.fastResend > 0 then cfg.fastResend else 0xFFFF_FFFF;
      if change {
        var inflight := Wrap(snd.nxt - snd.una);
        var ssthresh := if inflight / 2 < 2 then 2 else inflight / 2;
        var cwnd := Wrap(ssthresh + resent);
        cc := Congestion.Window(cwnd, ssthresh, Congestion.Mul32(cwnd, cfg.mss));
      }
      if lost { cc := Congestion.Window(1, if window / 2 < 2 then 2 else window / 2, cfg.mss); }
      if cc.cwnd < 1 { cc := cc.(cwnd := 1, incr := cfg.mss); }
    }

    // ----- ikcp_update and ikcp_check

    /** The clock part of `ikcp_update`; `due` says that a flush follows. */
    method Tick(t: u32) returns (due: bool)
      requires Valid()
      modifies this`current, this`updated, this`tsFlush
      ensures Valid() && Kcp.Tick(View(), due) == Advance(old(View()), t)
    {
      hide TimeDiff, Wrap, ValidConfig, AckList.Acks;
      current := t;
      if !updated { updated, tsFlush := true, t; }
      var slap := TimeDiff(t, tsFlush);
      if slap >= 10000 || slap < -10000 { tsFlush, slap := t, 0; }
      due := slap >= 0;
      if due {
        tsFlush := Wrap(tsFlush + cfg.interval);
        if TimeDiff(t, tsFlush) >= 0 { tsFlush := Wrap(t + cfg.interval); }
      }
    }

    method Update(t: u32)
      requires Valid()
      modifies this`current, this`updated, this`tsFlush
      modifies this`snd, this`nsndQue, this`nsndBuf, this`probe, this`cc, this`xmit, this`dead, this`emitted, acks
      ensures Valid() && acks.data == old(acks.data)
      ensures View() == Kcp.Update(old(View()), t).k
      ensures emitted == old(emitted) + Kcp.Update(old(View()), t).out
    {
      hide Advance, Kcp.Flush, ValidConfig, AckList.Acks, AckList.Valid;
      var due := Tick(t);
      if due { Flush(); }
    }

    method Check(t: u32) returns (next: u32)
      requires Valid()
      ensures next == Kcp.Check(View(), t)
    {
      hide TimeDiff, Wrap, AckList.Acks;
      if !updated { return t; }
      var due := tsFlush;
      if TimeDiff(t, due) >= 10000 || TimeDiff(t, due) < -10000 { return t; }
      if TimeDiff(t, due) >= 0 { return t; }
      var wait, packet, i := TimeDiff(due, t), 0x7FFF_FFFF, 0;
      assert snd.buf[0..] == snd.buf;
      while i < |snd.buf|
        invariant 0 <= i <= |snd.buf| && packet > 0
        invariant EarliestResend(snd.buf, t, 0x7FFF_FFFF) == EarliestResend(snd.buf[i..], t, packet)
      {
        assert snd.buf[i..][0] == snd.buf[i] && snd.buf[i..][1..] == snd.buf[i + 1..];
        var diff := TimeDiff(snd.buf[i].resendts, t);
        if diff <= 0 { return t; }
        if diff < packet { packet := diff; }
        i := i + 1;
      }
      var minimal := if packet < wait then packet else wait;
      if minimal >= cfg.interval { minimal := cfg.interval; }
      next := Wrap(t + minimal);
    }
  }
}
