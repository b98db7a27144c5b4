/** What a large step in the numbers loses, and with it what every delivery of a stream comes out
    as: packets that come late are ignored, and each stretch of small steps stands by itself. */
module Restart {
  import opened Words
  import opened Rtp
  import opened Reassembler
  import opened Lossless
  import opened Lossy
  import opened Sparse

  // ----- frames already signalled do not matter

  /** The frames of `o` before those of `q`, and its parameter sets where `q` has none. */
  function Before(o: Out, q: Out): Out {
    Out(o.frames + q.frames, q.frame, if q.sps == [] then o.sps else q.sps, if q.pps == [] then o.pps else q.pps)
  }

  /** The state `s` with all that `o` shows before it. */
  function Behind(o: Out, s: State): State {
    var q := Before(o, Seen(s));
    s.(frames := q.frames, sps := q.sps, pps := q.pps)
  }

  lemma BehindSeen(o: Out, s: State)
    ensures Seen(Behind(o, s)) == Before(o, Seen(s))
  {
  }

  lemma EmitBehind(o: Out, s: State, marker: bool)
    ensures EmitFrame(Behind(o, s), marker) == Behind(o, EmitFrame(s, marker))
  {
    assert o.frames + (s.frames + [s.frame]) == o.frames + s.frames + [s.frame];
  }

  lemma AppendBehind(o: Out, s: State, t: int, unit: bytes)
    requires unit != []
    ensures AppendNal(Behind(o, s), t, unit) == Behind(o, AppendNal(s, t, unit))
  {
  }

  lemma ResetBehind(o: Out, s: State)
    ensures ResetFu(Behind(o, s)) == Behind(o, ResetFu(s))
  {
  }

  lemma SingleBehind(o: Out, s: State, p: Parsed)
    requires p.payload != []
    ensures TakeSingle(Behind(o, s), p) == Behind(o, TakeSingle(s, p))
  {
    hide EmitFrame, AppendNal;
    var s1 := if s.started then ResetFu(s) else s;
    ResetBehind(o, s);
    AppendBehind(o, s1, NalType(p.payload[0]), START_CODE + p.payload);
    EmitBehind(o, AppendNal(s1, NalType(p.payload[0]), START_CODE + p.payload), p.marker);
  }

  lemma StartBehind(o: Out, s: State, p: Parsed)
    requires |p.payload| >= 2
    ensures TakeFuStart(Behind(o, s), p) == Behind(o, TakeFuStart(s, p))
  {
    hide EmitFrame;
    if |p.payload| > 2 {
      var head := RefBits(p.payload[0]) + NalType(p.payload[1]);
      var s1 := s.(fu := [Unit(p.sn, [head] + p.payload[2..])], started := true, startSeq := p.sn,
        expectedSeq := Wrap16(p.sn + 1));
      EmitBehind(o, s1, p.marker);
    }
  }

  lemma NextBehind(o: Out, s: State, p: Parsed)
    requires |p.payload| >= 2
    ensures TakeFuNext(Behind(o, s), p) == Behind(o, TakeFuNext(s, p))
  {
    hide EmitFrame, AppendNal, InsertUnit, Contiguous, Glued, IsFuEnd;
    var s1 := s.(fu := InsertUnit(s.fu, Unit(p.sn, p.payload[2..])), expectedSeq := Wrap16(p.sn + 1));
    ResetBehind(o, s);
    ResetBehind(o, s1);
    var unit := START_CODE + Glued(s1.fu);
    AppendBehind(o, s1, NalType(p.payload[1]), unit);
    ResetBehind(o, AppendNal(s1, NalType(p.payload[1]), unit));
    EmitBehind(o, s1, p.marker);
    EmitBehind(o, ResetFu(s1), p.marker);
    EmitBehind(o, ResetFu(AppendNal(s1, NalType(p.payload[1]), unit)), p.marker);
  }

  lemma ProcessBehind(o: Out, s: State, p: Parsed)
    requires p.payload != []
    ensures Process(Behind(o, s), p) == Behind(o, Process(s, p))
  {
    hide EmitFrame, TakeSingle, TakeFuStart, TakeFuNext;
    EmitBehind(o, s, p.marker);
    ResetBehind(o, s);
    SingleBehind(o, s, p);
    if |p.payload| >= 2 {
      StartBehind(o, s, p);
      NextBehind(o, s, p);
    }
  }

  lemma HandleBehind(o: Out, s: State, packet: bytes)
    ensures Handle(Behind(o, s), packet) == Behind(o, Handle(s, packet))
  {
    hide Process, Parse, Duplicate, LargeGap;
    if |packet| > HEADER {
      HandleParts(Behind(o, s), packet);
      HandleParts(s, packet);
      ProcessBehind(o, s, Parse(packet));
      ProcessBehind(o, ResetFu(s).(frame := []), Parse(packet));
    }
  }

  lemma HandleParts(s: State, packet: bytes)
    requires |packet| > HEADER
    ensures Parse(packet).payload != []
    ensures var p := Parse(packet);
            Handle(s, packet) ==
            if Duplicate(s.lastSeq, p.sn) then s
            else if LargeGap(s.lastSeq, p.sn) then Process(ResetFu(s).(frame := []), p).(lastSeq := p.sn)
            else Process(s, p).(lastSeq := p.sn)
  {
    hide Process, Duplicate, LargeGap;
  }

  // ----- a large step

  lemma FreshAnyLast(last: u16, p: Parsed)
    requires p.payload != []
    ensures Process(Fresh().(lastSeq := last), p).(lastSeq := p.sn) == Process(Fresh(), p).(lastSeq := p.sn)
  {
  }

  /** A packet more than three numbers ahead starts afresh: only what was signalled and the
      parameter sets stay. */
  lemma Restarts(s: State, packet: bytes)
    requires |packet| > HEADER && s.lastSeq != 0 && Parse(packet).sn > s.lastSeq + 3
    ensures Handle(s, packet) == Behind(Seen(s), Handle(Fresh(), packet))
  {
    hide Process, Parse;
    var p, f := Parse(packet), Fresh().(lastSeq := s.lastSeq);
    HandleParts(s, packet);
    HandleParts(Fresh(), packet);
    assert ResetFu(s).(frame := []) == Behind(Seen(s), f);
    ProcessBehind(Seen(s), f, p);
    FreshAnyLast(s.lastSeq, p);
  }

  /** The number processed last. */
  lemma LastTaken(s: State, packet: bytes)
    requires |packet| > HEADER
    ensures Handle(s, packet).lastSeq == if Duplicate(s.lastSeq, Parse(packet).sn) then s.lastSeq else Parse(packet).sn
    ensures Duplicate(s.lastSeq, Parse(packet).sn) ==> Handle(s, packet) == s
  {
    hide Process, Parse, Duplicate, LargeGap;
    HandleParts(s, packet);
  }

  // ----- packets that come late

  function LastOf(n: seq<nat>): int {
    if n == [] then -1 else n[|n| - 1]
  }

  function WithNewer(n: seq<nat>, i: nat): seq<nat> {
    if i > LastOf(n) then n + [i] else n
  }

  /** The packets that were newer than all before them. */
  function Newest(order: seq<nat>): seq<nat> {
    if order == [] then []
    else
      WithNewer(Newest(order[..|order| - 1]), order[|order| - 1])
  }

  lemma {:induction false} NewestAscends(items: seq<Item>, order: seq<nat>)
    requires Possible(items, order)
    ensures Ascending(Newest(order)) && Possible(items, Newest(order))
  {
    hide TotalCount;
    if order != [] { NewestAscends(items, order[..|order| - 1]); }
  }

  lemma {:induction false} AscendingIsItself(order: seq<nat>)
    requires Ascending(order)
    ensures Newest(order) == order
  {
    if order != [] {
      FrontAscends(order);
      AscendingIsItself(order[..|order| - 1]);
    }
  }

  lemma ArrivalTest(items: seq<Item>, a: nat, p: int, i: nat)
    requires SafeNumbers(items, a) && -1 <= p < TotalCount(items) && i < TotalCount(items)
    ensures 1 <= a + i < 0x1_0000 && a + p < 0x1_0000
    ensures Duplicate(if p < 0 then 0 else a + p, a + i) <==> i <= p
  {
  }

  lemma DeliveredSnoc(ps: seq<bytes>, front: seq<nat>, i: nat)
    requires i < |ps| && forall k :: 0 <= k < |front| ==> front[k] < |ps|
    ensures HandleAll(Fresh(), Delivered(ps, front + [i])) == Handle(HandleAll(Fresh(), Delivered(ps, front)), ps[i])
  {
    hide Handle, HandleAll;
    DeliveredFront(ps, front + [i]);
    assert (front + [i])[..|front|] == front;
  }

  /** One more packet, newer than the last one processed or not. */
  lemma NewOrLate(s: State, items: seq<Item>, a: nat, ssrc: u32, p: int, i: nat)
    requires SafeNumbers(items, a) && -1 <= p < TotalCount(items) && i < TotalCount(items)
    requires s.lastSeq == if p < 0 then 0 else a + p
    ensures |StreamPackets(items, a, ssrc)| == TotalCount(items)
    ensures var s' := Handle(s, StreamPackets(items, a, ssrc)[i]);
            if i <= p then s' == s else s'.lastSeq == a + i
  {
    hide Handle, StreamPackets, TotalCount, Where, Parse, Duplicate;
    ArrivesAs(items, a, ssrc, i);
    ArrivalTest(items, a, p, i);
    WrapSmall16(a + i);
    LastTaken(s, StreamPackets(items, a, ssrc)[i]);
  }

  /** Packets that come late or again change nothing. */
  lemma {:induction false} OnlyNewest(items: seq<Item>, a: nat, ssrc: u32, order: seq<nat>)
    requires SafeNumbers(items, a) && Possible(items, order)
    ensures |StreamPackets(items, a, ssrc)| == TotalCount(items) && Possible(items, Newest(order))
    ensures var s := HandleAll(Fresh(), Delivered(StreamPackets(items, a, ssrc), order));
            && s == HandleAll(Fresh(), Delivered(StreamPackets(items, a, ssrc), Newest(order)))
            && s.lastSeq == if Newest(order) == [] then 0 else a + Newest(order)[|Newest(order)| - 1]
  {
    hide Handle, HandleAll, Delivered, StreamPackets, TotalCount, Newest, SafeNumbers;
    StreamLength(items, a, ssrc);
    NewestAscends(items, order);
    var ps := StreamPackets(items, a, ssrc);
    NewestStep(order);
    if order == [] {
      NothingDelivered(ps);
    } else {
      var front, i := order[..|order| - 1], order[|order| - 1];
      NewestAscends(items, front);
      OnlyNewest(items, a, ssrc, front);
      DeliveredFront(ps, order);
      NewOrLate(HandleAll(Fresh(), Delivered(ps, front)), items, a, ssrc, LastOf(Newest(front)), i);
      DeliveredSnoc(ps, Newest(front), i);
    }
  }

  lemma NewestStep(order: seq<nat>)
    ensures order == [] ==> Newest(order) == []
    ensures order != [] ==> Newest(order) == WithNewer(Newest(order[..|order| - 1]), order[|order| - 1])
  {
  }

  lemma NothingDelivered(ps: seq<bytes>)
    ensures HandleAll(Fresh(), Delivered(ps, [])) == Fresh()
  {
  }

  // ----- stretches of small steps

  lemma {:induction false} SplitAtStep(items: seq<Item>, a: nat, ssrc: u32, xs: seq<nat>, ys: seq<nat>)
    requires SafeNumbers(items, a) && Possible(items, xs) && Possible(items, ys) && Ascending(xs) && Ascending(ys)
    requires xs != [] && ys != [] && ys[0] > xs[|xs| - 1] + 3
    ensures |StreamPackets(items, a, ssrc)| == TotalCount(items) && Possible(items, xs + ys)
    ensures var ps := StreamPackets(items, a, ssrc);
            HandleAll(Fresh(), Delivered(ps, xs + ys))
            == Behind(Seen(HandleAll(Fresh(), Delivered(ps, xs))), HandleAll(Fresh(), Delivered(ps, ys)))
  {
    hide Handle, HandleAll, Delivered, StreamPackets, TotalCount, Behind, Seen, SafeNumbers, Ascending, SmallSteps,
      Soon;
    StreamLength(items, a, ssrc);
    var ps := StreamPackets(items, a, ssrc);
    var front, i := ys[..|ys| - 1], ys[|ys| - 1];
    FrontAscends(ys);
    var s := HandleAll(Fresh(), Delivered(ps, xs));
    assert xs + ys == xs + front + [i];
    DeliveredSnoc(ps, xs + front, i);
    DeliveredSnoc(ps, front, i);
    if front == [] {
      assert xs + front == xs;
      NothingDelivered(ps);
      StepRestarts(items, a, ssrc, xs, i);
    } else {
      SplitAtStep(items, a, ssrc, xs, front);
      HandleBehind(Seen(s), HandleAll(Fresh(), Delivered(ps, front)), ps[i]);
    }
  }

  lemma StepRestarts(items: seq<Item>, a: nat, ssrc: u32, xs: seq<nat>, i: nat)
    requires SafeNumbers(items, a) && Possible(items, xs) && Ascending(xs) && i < TotalCount(items)
    requires xs != [] && i > xs[|xs| - 1] + 3
    ensures |StreamPackets(items, a, ssrc)| == TotalCount(items)
    ensures var ps := StreamPackets(items, a, ssrc);
            var s := HandleAll(Fresh(), Delivered(ps, xs));
            Handle(s, ps[i]) == Behind(Seen(s), Handle(Fresh(), ps[i]))
  {
    hide Handle, HandleAll, Delivered, StreamPackets, TotalCount, Behind, Seen, Where, Parse;
    OnlyNewest(items, a, ssrc, xs);
    AscendingIsItself(xs);
    ArrivesAs(items, a, ssrc, i);
    ArrivalTest(items, a, xs[|xs| - 1], i);
    WrapSmall16(a + i);
    Restarts(HandleAll(Fresh(), Delivered(StreamPackets(items, a, ssrc), xs)), StreamPackets(items, a, ssrc)[i]);
  }

  /** A step of more than three numbers loses exactly the frame under way and the fragments held:
      the frames are those signalled before it and those that come of the packets from the step
      on, by themselves. */
  lemma LargeStepLoses(items: seq<Item>, a: nat, ssrc: u32, xs: seq<nat>, ys: seq<nat>)
    requires SafeNumbers(items, a) && Possible(items, xs) && Possible(items, ys) && Ascending(xs) && Ascending(ys)
    requires xs != [] && ys != [] && ys[0] > xs[|xs| - 1] + 3
    ensures |StreamPackets(items, a, ssrc)| == TotalCount(items) && Possible(items, xs + ys)
    ensures var ps := StreamPackets(items, a, ssrc);
            var s, x, y := HandleAll(Fresh(), Delivered(ps, xs + ys)), HandleAll(Fresh(), Delivered(ps, xs)),
                           HandleAll(Fresh(), Delivered(ps, ys));
            && s.frames == x.frames + y.frames && s.frame == y.frame && s.started == y.started && s.fu == y.fu
            && s.sps == (if y.sps == [] then x.sps else y.sps) && s.pps == (if y.pps == [] then x.pps else y.pps)
  {
    hide HandleAll, StreamPackets, TotalCount;
    SplitAtStep(items, a, ssrc, xs, ys);
  }

  /** Where the last stretch of small steps begins. */
  function Stretch(order: seq<nat>): (k: nat)
    ensures k <= |order| && (order != [] ==> k < |order|)
    ensures k > 0 ==> order[k] > order[k - 1] + 3
  {
    if |order| <= 1 then 0
    else if order[|order| - 1] > order[|order| - 2] + 3 then |order| - 1
    else Stretch(order[..|order| - 1])
  }

  lemma {:induction false} StretchSmall(order: seq<nat>)
    requires Ascending(order)
    ensures SmallSteps(order[Stretch(order)..]) && Ascending(order[..Stretch(order)])
  {
    hide SmallSteps, Ascending, Stretch;
    var k := Stretch(order);
    PrefixAscends(order, k);
    if order == [] {
      OneStep(order);
    } else if k == |order| - 1 {
      OneStep(order[k..]);
    } else {
      FrontAscends(order);
      StretchFront(order);
      StretchSmall(order[..|order| - 1]);
      TailSmall(order, k);
    }
  }

  lemma StretchFront(order: seq<nat>)
    requires Stretch(order) < |order| - 1
    ensures Stretch(order[..|order| - 1]) == Stretch(order) && order[|order| - 1] <= order[|order| - 2] + 3
  {
  }

  lemma TailSmall(order: seq<nat>, k: nat)
    requires k < |order| - 1 && SmallSteps(order[..|order| - 1][k..])
    requires order[|order| - 2] < order[|order| - 1] <= order[|order| - 2] + 3
    ensures SmallSteps(order[k..])
  {
    hide SmallSteps;
    var front := order[..|order| - 1];
    assert front[k..][|front[k..]| - 1] == order[|order| - 2];
    SmallSnoc(front[k..], order[|order| - 1]);
    assert order[k..] == front[k..] + [order[|order| - 1]];
  }

  lemma OneStep(order: seq<nat>)
    requires |order| <= 1
    ensures SmallSteps(order)
  {
  }

  lemma PrefixAscends(order: seq<nat>, k: nat)
    requires Ascending(order) && k <= |order|
    ensures Ascending(order[..k])
  {
    forall i | 0 <= i < k - 1 ensures order[..k][i] < order[..k][i + 1] {
      assert order[i] < order[i + 1];
    }
  }

  lemma SmallSnoc(t: seq<nat>, i: nat)
    requires SmallSteps(t) && t != [] && t[|t| - 1] < i <= t[|t| - 1] + 3
    ensures SmallSteps(t + [i])
  {
    forall k | 0 <= k < |t| ensures (t + [i])[k] < (t + [i])[k + 1] <= (t + [i])[k] + 3 {
      if k < |t| - 1 { assert t[k] < t[k + 1] <= t[k] + 3; }
    }
  }

  /** What ascending packets come out as, stretch by stretch. */
  function Rebuilt(items: seq<Item>, a: nat, order: seq<nat>): Out
    requires Possible(items, order)
    decreases |order|
  {
    var k := Stretch(order);
    if k == 0 then Kept(items, a, order)
    else Before(Rebuilt(items, a, order[..k]), Kept(items, a, order[k..]))
  }

  lemma {:induction false} AscendingExactly(items: seq<Item>, a: nat, ssrc: u32, order: seq<nat>)
    requires AllCarriable(items) && SafeNumbers(items, a) && Possible(items, order) && Ascending(order)
    ensures |StreamPackets(items, a, ssrc)| == TotalCount(items)
    ensures Seen(HandleAll(Fresh(), Delivered(StreamPackets(items, a, ssrc), order))) == Rebuilt(items, a, order)
    decreases |order|
  {
    hide HandleAll, StreamPackets, TotalCount, Kept, Held, Seen, Before, Behind, SmallSteps, Ascending, SafeNumbers,
      AllCarriable, Delivered, Follows, Stretch;
    var k := Stretch(order);
    var xs, ys := order[..k], order[k..];
    StretchSmall(order);
    NumbersFit(items, a);
    RowTracks(items, a, ssrc, ys);
    if k == 0 {
      assert ys == order;
    } else {
      AscendingExactly(items, a, ssrc, xs);
      assert order == xs + ys;
      SuffixAscends(order, k);
      assert ys[0] == order[k] && xs[|xs| - 1] == order[k - 1];
      SplitAtStep(items, a, ssrc, xs, ys);
      var ps := StreamPackets(items, a, ssrc);
      BehindSeen(Seen(HandleAll(Fresh(), Delivered(ps, xs))), HandleAll(Fresh(), Delivered(ps, ys)));
    }
  }

  lemma NumbersFit(items: seq<Item>, a: nat)
    requires SafeNumbers(items, a)
    ensures a + TotalCount(items) <= 0x1_0000
  {
  }

  lemma SuffixAscends(order: seq<nat>, k: nat)
    requires Ascending(order) && k <= |order|
    ensures Ascending(order[k..])
  {
    forall i | 0 <= i < |order| - k - 1 ensures order[k..][i] < order[k..][i + 1] {
      assert order[k + i] < order[k + i + 1];
    }
  }

  /** Every delivery of a stream, whatever is lost, repeated or out of order, comes out as exactly
      this: the frames, the frame under way and the parameter sets that the numbers call for. */
  lemma DeliveryExactly(items: seq<Item>, a: nat, ssrc: u32, order: seq<nat>)
    requires AllCarriable(items) && SafeNumbers(items, a) && Possible(items, order)
    ensures |StreamPackets(items, a, ssrc)| == TotalCount(items) && Possible(items, Newest(order))
    ensures Seen(HandleAll(Fresh(), Delivered(StreamPackets(items, a, ssrc), order)))
         == Rebuilt(items, a, Newest(order))
  {
    hide HandleAll, StreamPackets, TotalCount, Rebuilt, Newest;
    OnlyNewest(items, a, ssrc, order);
    NewestAscends(items, order);
    AscendingExactly(items, a, ssrc, Newest(order));
  }
}
