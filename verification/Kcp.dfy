/** What each KCP operation does to the control block, as functions on values.  The class
    in ControlBlock.dfy runs the loops and is proved to compute exactly these functions. */
module Kcp {
  import opened Words
  import opened Wire
  import Rtt
  import Congestion

  const WND_RCV: int := 128
  const RTO_NDL: int := 30
  const RTO_MIN: int := 100
  const RTO_DEF: int := 200
  const PROBE_INIT: int := 7000
  const PROBE_LIMIT: int := 120000

  // ----- the control block

  /** The fields that stay fixed once the connection is configured. */
  datatype Config = Config(
    conv: u32, mtu: u32, mss: u32, sndWnd: u32, rcvWnd: u32, interval: u32, nodelay: u32,
    minRto: u32, fastResend: u32, fastLimit: int, noCwnd: bool, deadLink: u32)

  /** What `ikcp_create`, `ikcp_setmtu`, `ikcp_wndsize` and `ikcp_nodelay` can produce,
      with a receive window that its 16-bit wire field can carry. */
  predicate ValidConfig(c: Config) {
    && 50 <= c.mtu < TWO31 && c.mss == c.mtu - OVERHEAD
    && 0 < c.sndWnd < TWO31
    && WND_RCV <= c.rcvWnd <= 0xFFFF
    && 10 <= c.interval <= 5000
    && RTO_NDL <= c.minRto <= RTO_MIN
    && c.fastResend < TWO31
    && c.fastLimit == 5 && c.deadLink == 20
  }

  /** A fragment waiting in `snd_queue`: only `frg` and the payload are set there. */
  datatype Frag = Frag(frg: u32, data: bytes)

  /** A segment in `snd_buf`, with its retransmission state. */
  datatype Flight = Flight(seg: Seg, resendts: u32, rto: u32, fastack: u32, xmit: u32)

  datatype Sender = Sender(una: u32, nxt: u32, queue: seq<Frag>, buf: seq<Flight>)

  datatype Receiver = Receiver(nxt: u32, buf: seq<Seg>, queue: seq<Seg>)

  datatype Ack = Ack(sn: u32, ts: u32)

  /** `ts_probe`, `probe_wait` and the two bits of `probe`. */
  datatype Probe = Probe(ts: u32, wait: u32, ask: bool, tell: bool)

  datatype Kcb = Kcb(
    cfg: Config, snd: Sender, rcv: Receiver, acks: seq<Ack>, rtt: Rtt.Estimate,
    cc: Congestion.Window, rmtWnd: u32, probe: Probe, current: u32, tsFlush: u32,
    updated: bool, xmit: u32, dead: bool)

  /** A fresh control block, configured before its first use. */
  function Fresh(cfg: Config): Kcb {
    Kcb(cfg, Sender(0, 0, [], []), Receiver(0, [], []), [], Rtt.Estimate(0, 0, RTO_DEF),
        Congestion.Window(0, 2, 0), WND_RCV, Probe(0, 0, false, false), 0, 100, false, 0, false)
  }

  // ----- ikcp_send

  /** The fragments of a message: `frg` counts the fragments that still follow. */
  function Fragments(msg: bytes, mss: u32): seq<Frag>
    requires mss > 0
    decreases |msg|
  {
    if |msg| <= mss then [Frag(0, msg)]
    else
      var rest := Fragments(msg[mss..], mss);
      [Frag(Wrap(|rest|), msg[..mss])] + rest
  }

  function FragmentCount(len: nat, mss: u32): nat
    requires mss > 0
  {
    if len <= mss then 1 else (len + mss - 1) / mss
  }

  predicate Sendable(msg: bytes, cfg: Config)
    requires cfg.mss > 0
  {
    FragmentCount(|msg|, cfg.mss) < WND_RCV
  }

  /** A message that needs 128 fragments or more is refused with -2. */
  function Send(k: Kcb, msg: bytes): Kcb
    requires k.cfg.mss > 0
  {
    if Sendable(msg, k.cfg) then k.(snd := k.snd.(queue := k.snd.queue + Fragments(msg, k.cfg.mss))) else k
  }

  // ----- ikcp_peeksize and ikcp_recv

  /** How many queued segments the next message takes: up to and including the first one
      with no further fragments. */
  function Span(queue: seq<Seg>): nat {
    if queue == [] then 0 else if queue[0].frg == 0 then 1 else 1 + Span(queue[1..])
  }

  lemma {:induction false} SpanBound(queue: seq<Seg>)
    ensures Span(queue) <= |queue|
  {
    if queue != [] && queue[0].frg != 0 { SpanBound(queue[1..]); }
  }

  function Payload(segs: seq<Seg>): bytes {
    if segs == [] then [] else segs[0].data + Payload(segs[1..])
  }

  function NextMessage(queue: seq<Seg>): bytes {
    SpanBound(queue);
    Payload(queue[..Span(queue)])
  }

  /** -1 while the next message is not complete, otherwise its length. */
  function PeekSize(queue: seq<Seg>): int {
    if queue == [] then -1
    else if queue[0].frg == 0 then |queue[0].data|
    else if |queue| < queue[0].frg + 1 then -1
    else |NextMessage(queue)|
  }

  /** Move the in-order front of `rcv_buf` to `rcv_queue` while the queue has room. */
  function Deliver(r: Receiver, wnd: u32): Receiver
    decreases |r.buf|
  {
    if r.buf != [] && r.buf[0].sn == r.nxt && |r.queue| < wnd then
      Deliver(Receiver(Wrap(r.nxt + 1), r.buf[1..], r.queue + [r.buf[0]]), wnd)
    else r
  }

  datatype Received = Received(k: Kcb, code: int, data: bytes)

  /** `ikcp_recv` with a buffer of `|len|` bytes; a negative `len` only peeks. */
  function Recv(k: Kcb, len: int): Received {
    if k.rcv.queue == [] then Received(k, -1, [])
    else if PeekSize(k.rcv.queue) < 0 then Received(k, -2, [])
    else if PeekSize(k.rcv.queue) > Rtt.Abs(len) then Received(k, -3, [])
    else
      SpanBound(k.rcv.queue);
      var queue := if len < 0 then k.rcv.queue else k.rcv.queue[Span(k.rcv.queue)..];
      var rcv := Deliver(k.rcv.(queue := queue), k.cfg.rcvWnd);
      var recover := |k.rcv.queue| >= k.cfg.rcvWnd && |rcv.queue| < k.cfg.rcvWnd;
      Received(k.(rcv := rcv, probe := if recover then k.probe.(tell := true) else k.probe),
               |NextMessage(k.rcv.queue)|, NextMessage(k.rcv.queue))
  }

  // ----- acknowledgements arriving at the sender

  /** `ikcp_parse_una`: drop the front of `snd_buf` below `una`. */
  function DropUna(buf: seq<Flight>, una: u32): seq<Flight> {
    if buf != [] && TimeDiff(una, buf[0].seg.sn) > 0 then DropUna(buf[1..], una) else buf
  }

  /** `ikcp_shrink_buf` */
  function Shrink(s: Sender): Sender {
    s.(una := if s.buf != [] then s.buf[0].seg.sn else s.nxt)
  }

  predicate Outstanding(s: Sender, sn: u32) {
    TimeDiff(sn, s.una) >= 0 && TimeDiff(sn, s.nxt) < 0
  }

  function DropAcked(buf: seq<Flight>, sn: u32): seq<Flight> {
    if buf == [] then []
    else if sn == buf[0].seg.sn then buf[1..]
    else if TimeDiff(sn, buf[0].seg.sn) < 0 then buf
    else [buf[0]] + DropAcked(buf[1..], sn)
  }

  /** `ikcp_parse_ack` */
  function ParseAck(s: Sender, sn: u32): Sender {
    if Outstanding(s, sn) then s.(buf := DropAcked(s.buf, sn)) else s
  }

  function CountSkipped(buf: seq<Flight>, sn: u32, ts: u32): seq<Flight> {
    if buf == [] || TimeDiff(sn, buf[0].seg.sn) < 0 then buf
    else
      var f := if sn != buf[0].seg.sn && TimeDiff(ts, buf[0].seg.ts) >= 0
               then buf[0].(fastack := Wrap(buf[0].fastack + 1)) else buf[0];
      [f] + CountSkipped(buf[1..], sn, ts)
  }

  /** `ikcp_parse_fastack` */
  function ParseFastack(s: Sender, sn: u32, ts: u32): Sender {
    if Outstanding(s, sn) then s.(buf := CountSkipped(s.buf, sn, ts)) else s
  }

  // ----- data arriving at the receiver

  /** Insert by sequence number, searching from the back; a repeated number changes nothing. */
  function Insert(buf: seq<Seg>, s: Seg): seq<Seg> {
    if buf == [] then [s]
    else
      var last := |buf| - 1;
      if buf[last].sn == s.sn then buf
      else if TimeDiff(s.sn, buf[last].sn) > 0 then buf + [s]
      else Insert(buf[..last], s) + [buf[last]]
  }

  predicate BelowWindowEnd(r: Receiver, wnd: u32, sn: u32) {
    TimeDiff(sn, Wrap(r.nxt + wnd)) < 0
  }

  /** `ikcp_parse_data` */
  function ParseData(r: Receiver, wnd: u32, s: Seg): Receiver {
    if !BelowWindowEnd(r, wnd, s.sn) || TimeDiff(s.sn, r.nxt) < 0 then r
    else Deliver(r.(buf := Insert(r.buf, s)), wnd)
  }

  // ----- ikcp_input

  /** The largest acknowledged number seen in one datagram, for fast retransmission. */
  datatype Mark = NoMark | Mark(sn: u32, ts: u32)

  datatype Progress = Progress(k: Kcb, mark: Mark)

  function Later(m: Mark, sn: u32, ts: u32): Mark {
    if m.NoMark? || (TimeDiff(sn, m.sn) > 0 && TimeDiff(ts, m.ts) > 0) then Mark(sn, ts) else m
  }

  function TakeAck(p: Progress, s: Seg): Progress {
    var rtt := if TimeDiff(p.k.current, s.ts) >= 0
               then Rtt.Update(p.k.rtt, TimeDiff(p.k.current, s.ts), p.k.cfg.interval, p.k.cfg.minRto)
               else p.k.rtt;
    Progress(p.k.(rtt := rtt, snd := Shrink(ParseAck(p.k.snd, s.sn))), Later(p.mark, s.sn, s.ts))
  }

  function TakePush(k: Kcb, s: Seg): Kcb {
    if !BelowWindowEnd(k.rcv, k.cfg.rcvWnd, s.sn) then k
    else
      var k1 := k.(acks := k.acks + [Ack(s.sn, s.ts)]);
      if TimeDiff(s.sn, k.rcv.nxt) >= 0 then k1.(rcv := ParseData(k.rcv, k.cfg.rcvWnd, s)) else k1
  }

  /** Every segment carries a window and a cumulative acknowledgement. */
  function TakeHeader(k: Kcb, s: Seg): Kcb {
    k.(rmtWnd := s.wnd, snd := Shrink(k.snd.(buf := DropUna(k.snd.buf, s.una))))
  }

  function TakeSeg(p: Progress, s: Seg): Progress {
    var k := TakeHeader(p.k, s);
    if s.cmd == CMD_ACK then TakeAck(Progress(k, p.mark), s)
    else if s.cmd == CMD_PUSH then Progress(TakePush(k, s), p.mark)
    else if s.cmd == CMD_WASK then Progress(k.(probe := k.probe.(tell := true)), p.mark)
    else Progress(k, p.mark)
  }

  function TakeAll(p: Progress, ss: seq<Seg>): Progress
    decreases |ss|
  {
    if ss == [] then p else TakeAll(TakeSeg(p, ss[0]), ss[1..])
  }

  /** The work after the last segment: fast acknowledgement counts and window growth. */
  function Settle(p: Progress, prevUna: u32): Kcb
    requires p.k.cfg.mss > 0
  {
    var k := if p.mark.Mark? then p.k.(snd := ParseFastack(p.k.snd, p.mark.sn, p.mark.ts)) else p.k;
    if TimeDiff(k.snd.una, prevUna) > 0 then k.(cc := Congestion.Grow(k.cc, k.rmtWnd, k.cfg.mss)) else k
  }

  lemma {:induction false} TakeAllKeepsConfig(p: Progress, ss: seq<Seg>)
    ensures TakeAll(p, ss).k.cfg == p.k.cfg
    decreases |ss|
  {
    if ss != [] { TakeAllKeepsConfig(TakeSeg(p, ss[0]), ss[1..]); }
  }

  datatype Taken = Taken(k: Kcb, code: int)

  /** A datagram that ends in an error keeps the effect of the segments before the error. */
  function Input(k: Kcb, d: bytes): Taken
    requires k.cfg.mss > 0
  {
    if |d| < OVERHEAD then Taken(k, -1)
    else
      var dec := Decode(d, k.cfg.conv);
      var p := TakeAll(Progress(k, NoMark), dec.segs);
      TakeAllKeepsConfig(Progress(k, NoMark), dec.segs);
      Taken(if dec.code == 0 then Settle(p, k.snd.una) else p.k, dec.code)
  }

  // ----- ikcp_flush

  function WndUnused(k: Kcb): u32 {
    if |k.rcv.queue| < k.cfg.rcvWnd then k.cfg.rcvWnd - |k.rcv.queue| else 0
  }

  /** A control segment as `ikcp_flush` fills it. */
  function Control(k: Kcb, cmd: u32, a: Ack): Seg {
    Seg(k.cfg.conv, cmd, 0, WndUnused(k), a.ts, a.sn, k.rcv.nxt, [])
  }

  function AckSegs(k: Kcb, acks: seq<Ack>): seq<Seg> {
    seq(|acks|, i requires 0 <= i < |acks| => Control(k, CMD_ACK, acks[i]))
  }

  /** Window probes reuse the `sn` and `ts` left by the last acknowledgement. */
  function LastAck(acks: seq<Ack>): Ack {
    if acks == [] then Ack(0, 0) else acks[|acks| - 1]
  }

  function ProbeSegs(k: Kcb, p: Probe): seq<Seg> {
    (if p.ask then [Control(k, CMD_WASK, LastAck(k.acks))] else [])
    + (if p.tell then [Control(k, CMD_WINS, LastAck(k.acks))] else [])
  }

  /** Schedule a window probe while the peer's window is closed. */
  function Probing(p: Probe, rmtWnd: u32, current: u32): Probe {
    if rmtWnd != 0 then p.(ts := 0, wait := 0)
    else if p.wait == 0 then p.(ts := Wrap(current + PROBE_INIT), wait := PROBE_INIT)
    else if TimeDiff(current, p.ts) >= 0 then
      var w0 := Max(p.wait, PROBE_INIT);
      var w1 := Min(Wrap(w0 + w0 / 2), PROBE_LIMIT);
      p.(ts := Wrap(current + w1), wait := w1, ask := true)
    else p
  }

  function UsableWindow(k: Kcb): u32 {
    var w := Min(k.cfg.sndWnd, k.rmtWnd);
    if k.cfg.noCwnd then w else Min(k.cc.cwnd, w)
  }

  function Launch(k: Kcb, f: Frag, sn: u32): Flight {
    Flight(Seg(k.cfg.conv, CMD_PUSH, f.frg, WndUnused(k), k.current, sn, k.rcv.nxt, f.data),
           k.current, Wrap(k.rtt.rto), 0, 0)
  }

  /** Move fragments from `snd_queue` to `snd_buf` while the window allows. */
  function Admit(k: Kcb, s: Sender, window: u32): Sender
    decreases |s.queue|
  {
    if TimeDiff(s.nxt, Wrap(s.una + window)) < 0 && s.queue != [] then
      Admit(k, Sender(s.una, Wrap(s.nxt + 1), s.queue[1..], s.buf + [Launch(k, s.queue[0], s.nxt)]), window)
    else s
  }

  /** Why a segment is (re)transmitted. */
  datatype Kind = Hold | First | Timeout | Fast

  function Resent(cfg: Config): u32 {
    if cfg.fastResend > 0 then cfg.fastResend else 0xFFFF_FFFF
  }

  function Decide(k: Kcb, f: Flight): Kind {
    if f.xmit == 0 then First
    else if TimeDiff(k.current, f.resendts) >= 0 then Timeout
    else if f.fastack >= Resent(k.cfg) && (Signed32(f.xmit) <= k.cfg.fastLimit || k.cfg.fastLimit <= 0) then Fast
    else Hold
  }

  /** How much a timeout lengthens the segment's own timeout. */
  function Backoff(k: Kcb, rto: u32): int {
    if k.cfg.nodelay == 0 then Max(rto, Wrap(k.rtt.rto))
    else if k.cfg.nodelay < 2 then TruncDiv(Signed32(rto), 2)
    else TruncDiv(k.rtt.rto, 2)
  }

  function Stamp(k: Kcb, s: Seg): Seg {
    s.(ts := k.current, wnd := WndUnused(k), una := k.rcv.nxt)
  }

  function Resend(k: Kcb, f: Flight): Flight {
    match Decide(k, f)
    case Hold => f
    case First =>
      var rto := Wrap(k.rtt.rto);
      var rtomin := if k.cfg.nodelay == 0 then rto / 8 else 0;
      Flight(Stamp(k, f.seg), Wrap(k.current + rto + rtomin), rto, f.fastack, Wrap(f.xmit + 1))
    case Timeout =>
      var rto := Wrap(f.rto + Backoff(k, f.rto));
      Flight(Stamp(k, f.seg), Wrap(k.current + rto), rto, f.fastack, Wrap(f.xmit + 1))
    case Fast =>
      Flight(Stamp(k, f.seg), Wrap(k.current + f.rto), f.rto, 0, Wrap(f.xmit + 1))
  }

  datatype Swept = Swept(buf: seq<Flight>, out: seq<Seg>, timeouts: nat, fasts: nat, dead: bool)

  function SweepOne(k: Kcb, f: Flight): Swept {
    var g := Resend(k, f);
    var kind := Decide(k, f);
    Swept([g], if kind.Hold? then [] else [g.seg], if kind.Timeout? then 1 else 0,
          if kind.Fast? then 1 else 0, !kind.Hold? && g.xmit >= k.cfg.deadLink)
  }

  function Join(a: Swept, b: Swept): Swept {
    Swept(a.buf + b.buf, a.out + b.out, a.timeouts + b.timeouts, a.fasts + b.fasts, a.dead || b.dead)
  }

  /** The pass over `snd_buf` that sends what is new, overdue or skipped by later acks. */
  function Sweep(k: Kcb, buf: seq<Flight>): Swept {
    if buf == [] then Swept([], [], 0, 0, false) else Join(SweepOne(k, buf[0]), Sweep(k, buf[1..]))
  }

  /** The sending half with all the new segments the window allows. */
  function Admitted(k: Kcb): Sender {
    Admit(k, k.snd, UsableWindow(k))
  }

  datatype Flushed = Flushed(k: Kcb, segs: seq<Seg>, out: seq<bytes>)

  /** The segments of a flush: acknowledgements, window probes, data. */
  function FlushSegs(k: Kcb): seq<Seg> {
    AckSegs(k, k.acks) + ProbeSegs(k, Probing(k.probe, k.rmtWnd, k.current)) + Sweep(k, Admitted(k).buf).out
  }

  function Flush(k: Kcb): Flushed {
    if !k.updated then Flushed(k, [], [])
    else
      var snd := Admitted(k);
      var sw := Sweep(k, snd.buf);
      var cc := Congestion.React(k.cc, sw.fasts > 0, sw.timeouts > 0, Dist(snd.una, snd.nxt), UsableWindow(k),
                                 Resent(k.cfg), k.cfg.mss);
      var probe := Probing(k.probe, k.rmtWnd, k.current).(ask := false, tell := false);
      Flushed(k.(snd := snd.(buf := sw.buf), acks := [], probe := probe, cc := cc,
                 xmit := Wrap(k.xmit + sw.timeouts), dead := k.dead || sw.dead),
              FlushSegs(k), Pack(FlushSegs(k), k.cfg.mtu))
  }

  // ----- ikcp_update and ikcp_check

  /** The clock part of `ikcp_update`, and whether it goes on to flush. */
  datatype Tick = Tick(k: Kcb, flush: bool)

  function Advance(k: Kcb, t: u32): Tick {
    var due := if k.updated then k.tsFlush else t;
    var slap := TimeDiff(t, due);
    var far := slap >= 10000 || slap < -10000;
    var due1 := if far then t else due;
    if far || slap >= 0 then
      var next := Wrap(due1 + k.cfg.interval);
      var next1 := if TimeDiff(t, next) >= 0 then Wrap(t + k.cfg.interval) else next;
      Tick(k.(current := t, updated := true, tsFlush := next1), true)
    else Tick(k.(current := t, updated := true, tsFlush := due1), false)
  }

  function Update(k: Kcb, t: u32): Flushed {
    var a := Advance(k, t);
    if a.flush then Flush(a.k) else Flushed(a.k, [], [])
  }

  /** The earliest retransmission among `buf`, as a delay after `t`; `bound` when none is
      sooner, 0 when one is already due. */
  function EarliestResend(buf: seq<Flight>, t: u32, bound: int): int {
    if buf == [] then bound
    else if TimeDiff(buf[0].resendts, t) <= 0 then 0
    else EarliestResend(buf[1..], t, Min(bound, TimeDiff(buf[0].resendts, t)))
  }

  function Check(k: Kcb, t: u32): u32 {
    var wait := TimeDiff(k.tsFlush, t);
    if !k.updated || TimeDiff(t, k.tsFlush) >= 0 || TimeDiff(t, k.tsFlush) < -10000 then t
    else
      var packet := EarliestResend(k.snd.buf, t, 0x7FFF_FFFF);
      if packet == 0 then t else Wrap(t + Min(Min(packet, wait), k.cfg.interval))
  }

  // ----- one endpoint as a step system

  datatype Op = OpSend(msg: bytes) | OpRecv(len: int) | OpInput(d: bytes) | OpFlush | OpUpdate(t: u32)

  /** Everything a step shows to the outside: datagrams emitted and a message returned. */
  datatype Effect = Effect(k: Kcb, code: int, data: bytes, out: seq<bytes>)

  function Step(k: Kcb, op: Op): Effect
    requires k.cfg.mss > 0
  {
    match op
    case OpSend(msg) => Effect(Send(k, msg), if Sendable(msg, k.cfg) then |msg| else -2, [], [])
    case OpRecv(len) => var r := Recv(k, len); Effect(r.k, r.code, r.data, [])
    case OpInput(d) => var r := Input(k, d); Effect(r.k, r.code, [], [])
    case OpFlush => var r := Flush(k); Effect(r.k, 0, [], r.out)
    case OpUpdate(t) => var r := Update(k, t); Effect(r.k, 0, [], r.out)
  }
}
