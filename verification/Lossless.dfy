/** Packetizing and lossless in-order reassembly: exactly which NAL units come out, in which
    frames, for every sequence of units and every starting sequence number. */
module Lossless {
  import opened Words
  import opened Rtp
  import opened Reassembler

  /** A NAL unit and the timestamp it is sent with. */
  datatype Item = Item(nal: bytes, ts: u32)

  predicate Carriable(nal: bytes) {
    nal != [] && 0 < NalType(nal[0]) < 24
  }

  predicate AllCarriable(items: seq<Item>) {
    forall i :: 0 <= i < |items| ==> Carriable(items[i].nal)
  }

  // ----- the reference

  /** The condition under which a unit survives: short enough for one packet, or at most 1024
      fragments whose sequence numbers avoid 65535. */
  predicate Deliverable(nal: bytes, c: nat) {
    Single(nal) || (PacketCount(nal) <= MAX_FU_UNITS && Wrap16(c) + PacketCount(nal) <= 65535)
  }

  /** Whether the last packet of a unit signals the frame: a marker bit, unless that packet is
      the one that overflows the fragment map. */
  predicate Signals(nal: bytes)
    requires nal != []
  {
    if Single(nal) then EndsFrame(nal) else PacketCount(nal) != MAX_FU_UNITS + 1
  }

  /** The frames signalled, the frame under way, and the parameter sets kept. */
  datatype Out = Out(frames: seq<bytes>, frame: bytes, sps: bytes, pps: bytes)

  function Seen(s: State): Out {
    Out(s.frames, s.frame, s.sps, s.pps)
  }

  function CloseFrame(o: Out): Out {
    if o.frame != [] then o.(frames := o.frames + [o.frame], frame := []) else o
  }

  function AddNal(o: Out, nal: bytes): Out
    requires nal != []
  {
    var unit := START_CODE + nal;
    o.(frame := o.frame + unit, sps := if NalType(nal[0]) == 7 then unit else o.sps,
       pps := if NalType(nal[0]) == 8 then unit else o.pps)
  }

  /** What one unit sent from counter `c` adds. */
  function AfterUnit(o: Out, nal: bytes, c: nat): Out
    requires nal != []
  {
    var o1 := if Deliverable(nal, c) then AddNal(o, nal) else o;
    if Signals(nal) then CloseFrame(o1) else o1
  }

  // ----- in-order packets pass the filter

  /** The reassembler has seen nothing, or exactly the packet before number `c`. */
  predicate InSync(s: State, c: nat) {
    s.lastSeq == 0 || s.lastSeq == Wrap16(c - 1)
  }

  predicate Idle(s: State) {
    !s.started && s.fu == [] && s.expectedSeq == 0 && s.startSeq == 0
  }

  lemma NextPasses(last: u16, c: nat)
    requires last == 0 || last == Wrap16(c - 1)
    ensures !Duplicate(last, Wrap16(c)) && !LargeGap(last, Wrap16(c))
  {
  }

  lemma HandleNext(s: State, nal: bytes, j: nat, c: nat, ts: u32, ssrc: u32)
    requires nal != [] && j < PacketCount(nal) && InSync(s, c + j)
    ensures Payload(nal, j) != []
    ensures Handle(s, Packet(nal, j, c, ts, ssrc))
         == Process(s, Parsed(Marker(nal, j), Wrap16(c + j), Payload(nal, j))).(lastSeq := Wrap16(c + j))
  {
    hide Process;
    NextPasses(s.lastSeq, c + j);
    ParseHeader(Wrap16(c + j), ts, ssrc, Marker(nal, j), Payload(nal, j));
  }

  // ----- a run of fragments

  function UnitAt(nal: bytes, c: nat, j: nat): Unit
    requires nal != [] && j < PacketCount(nal)
  {
    Unit(Wrap16(c + j), (if j == 0 then [nal[0]] else []) + Chunk(nal, j))
  }

  function Units(nal: bytes, c: nat, lo: nat, hi: nat): seq<Unit>
    requires nal != [] && lo <= hi <= PacketCount(nal)
  {
    seq(hi - lo, i requires 0 <= i < hi - lo => UnitAt(nal, c, lo + i))
  }

  /** How many numbers are left before the counter wraps. */
  function BeforeWrap(c: nat): nat {
    0x1_0000 - Wrap16(c)
  }

  /** The fragment map after the first `n` fragments: numbers after the wrap sort in front. */
  function MapAfter(nal: bytes, c: nat, n: nat): seq<Unit>
    requires nal != [] && n <= PacketCount(nal)
  {
    var k := BeforeWrap(c);
    if n <= k then Units(nal, c, 0, n) else Units(nal, c, k, n) + Units(nal, c, 0, k)
  }

  lemma Wrap16Before(c: nat, j: nat)
    requires j < BeforeWrap(c)
    ensures Wrap16(c + j) == Wrap16(c) + j
  {
  }

  lemma Wrap16After(c: nat, j: nat)
    requires BeforeWrap(c) <= j < BeforeWrap(c) + 0x1_0000
    ensures Wrap16(c + j) == j - BeforeWrap(c)
  {
  }

  /** The keys of fragments `lo` to `hi`, which lie on one side of the wrap. */
  lemma UnitKeys(nal: bytes, c: nat, lo: nat, hi: nat)
    requires nal != [] && lo <= hi <= PacketCount(nal)
    requires hi <= BeforeWrap(c) || BeforeWrap(c) <= lo <= hi <= BeforeWrap(c) + 0x1_0000
    ensures var base := if hi <= BeforeWrap(c) then Wrap16(c) else Wrap16(c) - 0x1_0000;
            forall u <- Units(nal, c, lo, hi) :: base + lo <= u.sn < base + hi
  {
    hide Chunk, Wrap16;
    var base: int := if hi <= BeforeWrap(c) then Wrap16(c) else Wrap16(c) - 0x1_0000;
    forall u | u in Units(nal, c, lo, hi) ensures base + lo <= u.sn < base + hi {
      var i :| 0 <= i < hi - lo && u == Units(nal, c, lo, hi)[i];
      assert u == UnitAt(nal, c, lo + i);
      if hi <= BeforeWrap(c) { Wrap16Before(c, lo + i); } else { Wrap16After(c, lo + i); }
    }
  }

  lemma UnitsSnoc(nal: bytes, c: nat, lo: nat, hi: nat)
    requires nal != [] && lo <= hi < PacketCount(nal)
    ensures Units(nal, c, lo, hi) + [UnitAt(nal, c, hi)] == Units(nal, c, lo, hi + 1)
  {
    hide UnitAt, PacketCount;
  }

  lemma MapGrows(nal: bytes, c: nat, n: nat)
    requires nal != [] && n < PacketCount(nal) && n <= MAX_FU_UNITS
    ensures InsertUnit(MapAfter(nal, c, n), UnitAt(nal, c, n)) == MapAfter(nal, c, n + 1)
    ensures |MapAfter(nal, c, n + 1)| == n + 1
  {
    hide Chunk, PacketCount, Wrap16, InsertUnit;
    var k := BeforeWrap(c);
    var u := UnitAt(nal, c, n);
    assert 0 < k <= 0x1_0000;
    if n < k {
      var front := Units(nal, c, 0, n);
      Wrap16Before(c, n);
      UnitKeys(nal, c, 0, n);
      InsertBetween(front, [], u);
      assert front + [] == front && front + [u] + [] == front + [u];
      UnitsSnoc(nal, c, 0, n);
    } else {
      var front, back := Units(nal, c, k, n), Units(nal, c, 0, k);
      Wrap16After(c, n);
      UnitKeys(nal, c, k, n);
      UnitKeys(nal, c, 0, k);
      InsertBetween(front, back, u);
      UnitsSnoc(nal, c, k, n);
      assert n == k ==> front + back == back;
    }
  }

  lemma {:induction false} UnitsContiguous(nal: bytes, c: nat, lo: nat, hi: nat)
    requires nal != [] && lo <= hi <= PacketCount(nal)
    ensures Contiguous(Units(nal, c, lo, hi), Wrap16(c + lo))
    decreases hi - lo
  {
    if lo < hi {
      assert Units(nal, c, lo, hi)[1..] == Units(nal, c, lo + 1, hi);
      UnitsContiguous(nal, c, lo + 1, hi);
      Wrap16Next(c + lo);
      assert Units(nal, c, lo, hi)[0] == UnitAt(nal, c, lo);
    }
  }

  lemma {:induction false} UnitsGlue(nal: bytes, c: nat, n: nat)
    requires nal != [] && 1 <= n <= PacketCount(nal)
    ensures Glued(Units(nal, c, 0, n)) == [nal[0]] + Concat(nal, n)
  {
    hide Chunk, PacketCount, Wrap16;
    UnitsSnoc(nal, c, 0, n - 1);
    GluedSnoc(Units(nal, c, 0, n - 1), UnitAt(nal, c, n - 1));
    if n == 1 {
      assert Units(nal, c, 0, 0) == [];
    } else {
      UnitsGlue(nal, c, n - 1);
    }
  }

  lemma {:induction false} GluedSnoc(m: seq<Unit>, u: Unit)
    ensures Glued(m + [u]) == Glued(m) + u.data
  {
    if m == [] {
      assert Glued([u]) == u.data + Glued([]);
    } else {
      assert (m + [u])[1..] == m[1..] + [u];
      GluedSnoc(m[1..], u);
    }
  }

  /** The completeness check of a whole run succeeds exactly when the run avoids 65535. */
  lemma WholeRunComplete(s: State, nal: bytes, c: nat)
    requires Carriable(nal) && !Single(nal) && PacketCount(nal) <= MAX_FU_UNITS
    requires s.fu == MapAfter(nal, c, PacketCount(nal)) && s.startSeq == Wrap16(c)
    ensures Complete(s, Wrap16(c + PacketCount(nal) - 1)) <==> Wrap16(c) + PacketCount(nal) <= 65535
    ensures Wrap16(c) + PacketCount(nal) <= 65535 ==> Glued(s.fu) == nal
  {
    hide Wrap16, Chunk, PacketCount, Glued, Concat, Single;
    var m, k := PacketCount(nal), BeforeWrap(c);
    FragmentCountAtLeastTwo(nal);
    if m <= k {
      Wrap16Last(c, m);
      UnitsContiguous(nal, c, 0, m);
      UnitsGlue(nal, c, m);
      ConcatAll(nal);
    } else {
      Wrap16After(c, k);
      assert s.fu[0] == UnitAt(nal, c, k);
    }
  }

  /** The number before `c + m`, against the promoted difference of the completeness check. */
  lemma Wrap16Last(c: nat, m: nat)
    requires 0 < m <= BeforeWrap(c)
    ensures Wrap16(c + m - 1) == Wrap16(c) + m - 1
    ensures Wrap16(c + m - 1) == Wrap16(Wrap16(c) + m) - 1 <==> Wrap16(c) + m <= 65535
  {
  }

  /** The state after the first `n` fragments of a unit, none of them the last. */
  function Midway(s: State, nal: bytes, c: nat, n: nat): State
    requires nal != [] && 1 <= n <= PacketCount(nal)
  {
    if n <= MAX_FU_UNITS then
      s.(fu := MapAfter(nal, c, n), started := true, startSeq := Wrap16(c), expectedSeq := Wrap16(c + n),
        lastSeq := Wrap16(c + n - 1))
    else s.(lastSeq := Wrap16(c + n - 1))
  }

  predicate Fragment(nal: bytes, j: nat) {
    Carriable(nal) && !Single(nal) && j < PacketCount(nal)
  }

  lemma ProcessFragment(s: State, nal: bytes, j: nat, sn: u16, marker: bool)
    requires Fragment(nal, j)
    ensures var p := Parsed(marker, sn, Payload(nal, j));
            && Chunk(nal, j) != [] && |p.payload| > 2 && p.payload[2..] == Chunk(nal, j)
            && NalType(p.payload[1]) == NalType(nal[0]) && IsFuEnd(p.payload[1]) == (j == PacketCount(nal) - 1)
            && RefBits(p.payload[0]) + NalType(p.payload[1]) == nal[0]
            && Process(s, p) == if j == 0 then TakeFuStart(s, p)
                                else if s.started then TakeFuNext(s, p)
                                else EmitFrame(s, marker)
  {
    FragmentCountAtLeastTwo(nal);
    FuFields(nal[0], j == 0, j == PacketCount(nal) - 1);
  }

  lemma FirstFragment(s: State, nal: bytes, c: nat, ts: u32, ssrc: u32)
    requires Fragment(nal, 0) && Idle(s) && InSync(s, c)
    ensures Handle(s, Packet(nal, 0, c, ts, ssrc)) == Midway(s, nal, c, 1)
  {
    hide Wrap16, Chunk, Handle, Process, Packet, PacketCount, Single, FuHeader;
    FragmentCountAtLeastTwo(nal);
    HandleNext(s, nal, 0, c, ts, ssrc);
    Wrap16Next(c);
    ProcessFragment(s, nal, 0, Wrap16(c), false);
    assert MapAfter(nal, c, 1) == [UnitAt(nal, c, 0)];
  }

  lemma MiddleFragment(s: State, nal: bytes, c: nat, n: nat, ts: u32, ssrc: u32)
    requires Fragment(nal, n) && 1 <= n < PacketCount(nal) - 1 && Idle(s)
    ensures Handle(Midway(s, nal, c, n), Packet(nal, n, c, ts, ssrc)) == Midway(s, nal, c, n + 1)
  {
    hide Wrap16, Chunk, MapAfter, InsertUnit, Handle, Process, Carriable, Packet, Contiguous, Glued, PacketCount,
      FuHeader;
    var s1 := Midway(s, nal, c, n);
    HandleNext(s1, nal, n, c, ts, ssrc);
    ProcessFragment(s1, nal, n, Wrap16(c + n), false);
    if n <= MAX_FU_UNITS {
      MapGrows(nal, c, n);
      LaterUnit(nal, c, n);
      Wrap16Next(c + n);
    }
  }

  lemma LaterUnit(nal: bytes, c: nat, j: nat)
    requires nal != [] && 0 < j < PacketCount(nal)
    ensures UnitAt(nal, c, j) == Unit(Wrap16(c + j), Chunk(nal, j))
  {
  }

  lemma Wrap16Next(x: int)
    ensures Wrap16(Wrap16(x) + 1) == Wrap16(x + 1)
  {
  }

  lemma ResetSeen(s: State)
    ensures Idle(ResetFu(s)) && Seen(ResetFu(s)) == Seen(s)
  {
  }

  lemma AppendSeen(s: State, nal: bytes)
    requires nal != []
    ensures Seen(AppendNal(s, NalType(nal[0]), START_CODE + nal)) == AddNal(Seen(s), nal)
  {
  }

  lemma EmitSeen(s: State)
    ensures Seen(EmitFrame(s, true)) == CloseFrame(Seen(s)) && (Idle(s) ==> Idle(EmitFrame(s, true)))
  {
  }

  /** The last fragment, when the fragment map has room for it: the map is whole, and the
      completeness check decides. */
  lemma LastTaken(s: State, nal: bytes, c: nat, p: Parsed) returns (s1: State)
    requires Carriable(nal) && !Single(nal) && Idle(s) && 2 <= PacketCount(nal) <= MAX_FU_UNITS
    requires p == Parsed(true, Wrap16(c + PacketCount(nal) - 1), Payload(nal, PacketCount(nal) - 1))
    ensures s1.fu == MapAfter(nal, c, PacketCount(nal)) && s1.startSeq == Wrap16(c) && Seen(s1) == Seen(s)
    ensures |p.payload| >= 2
    ensures TakeFuNext(Midway(s, nal, c, PacketCount(nal) - 1), p)
         == EmitFrame(ResetFu(if Complete(s1, p.sn) then AppendNal(s1, NalType(nal[0]),
           START_CODE + Glued(s1.fu)) else s1), true)
  {
    hide Wrap16, Chunk, MapAfter, InsertUnit, PacketCount, Single, Payload, Process, IsFuEnd, NalType, RefBits,
      Complete, Glued, EmitFrame, AppendNal;
    var m := PacketCount(nal);
    s1 := Midway(s, nal, c, m - 1);
    ProcessFragment(s1, nal, m - 1, p.sn, true);
    MapGrows(nal, c, m - 1);
    LaterUnit(nal, c, m - 1);
    s1 := s1.(fu := MapAfter(nal, c, m), expectedSeq := Wrap16(p.sn + 1));
  }

  lemma LastFits(s: State, nal: bytes, c: nat, p: Parsed)
    requires Carriable(nal) && !Single(nal) && Idle(s) && 2 <= PacketCount(nal) <= MAX_FU_UNITS
    requires p == Parsed(true, Wrap16(c + PacketCount(nal) - 1), Payload(nal, PacketCount(nal) - 1))
    ensures |p.payload| >= 2
    ensures var s' := TakeFuNext(Midway(s, nal, c, PacketCount(nal) - 1), p);
            Idle(s') && Seen(s') == AfterUnit(Seen(s), nal, c)
  {
    hide Wrap16, MapAfter, PacketCount, Single, Complete, Glued, EmitFrame, AppendNal, ResetFu, TakeFuNext, Midway,
      Seen, Idle, AddNal, CloseFrame, Payload;
    var s1 := LastTaken(s, nal, c, p);
    WholeRunComplete(s1, nal, c);
    var s2 := if Complete(s1, p.sn) then AppendNal(s1, NalType(nal[0]), START_CODE + Glued(s1.fu)) else s1;
    AppendSeen(s1, nal);
    ResetSeen(s2);
    EmitSeen(ResetFu(s2));
  }

  lemma LastFragment(s: State, nal: bytes, c: nat, ts: u32, ssrc: u32)
    requires Carriable(nal) && !Single(nal) && Idle(s)
    ensures PacketCount(nal) >= 2
    ensures var m := PacketCount(nal);
            var s' := Handle(Midway(s, nal, c, m - 1), Packet(nal, m - 1, c, ts, ssrc));
            Idle(s') && InSync(s', c + m) && Seen(s') == AfterUnit(Seen(s), nal, c)
  {
    hide Wrap16, Chunk, MapAfter, InsertUnit, Handle, Process, Packet, Contiguous, Glued, PacketCount, Single, FuHeader;
    FragmentCountAtLeastTwo(nal);
    var m := PacketCount(nal);
    var s1 := Midway(s, nal, c, m - 1);
    var p := Parsed(true, Wrap16(c + m - 1), Payload(nal, m - 1));
    HandleNext(s1, nal, m - 1, c, ts, ssrc);
    ProcessFragment(s1, nal, m - 1, p.sn, true);
    if m <= MAX_FU_UNITS {
      LastFits(s, nal, c, p);
    } else if m == MAX_FU_UNITS + 1 {
      MapGrows(nal, c, m - 1);
      LaterUnit(nal, c, m - 1);
    }
  }

  lemma {:induction false} RunOfFragments(s: State, nal: bytes, c: nat, ts: u32, ssrc: u32, n: nat)
    requires Carriable(nal) && !Single(nal) && Idle(s) && InSync(s, c) && 1 <= n < PacketCount(nal)
    ensures HandleAll(s, Packets(nal, c, ts, ssrc)[..n]) == Midway(s, nal, c, n)
  {
    hide Handle, Wrap16, Packet, Midway, PacketCount, Single;
    var ps := Packets(nal, c, ts, ssrc);
    assert ps[..n][..n - 1] == ps[..n - 1] && ps[..n][n - 1] == Packet(nal, n - 1, c, ts, ssrc);
    if n == 1 {
      assert HandleAll(s, ps[..0]) == s;
      FirstFragment(s, nal, c, ts, ssrc);
    } else {
      RunOfFragments(s, nal, c, ts, ssrc, n - 1);
      MiddleFragment(s, nal, c, n - 1, ts, ssrc);
    }
  }

  lemma SinglePacket(s: State, nal: bytes, c: nat, ts: u32, ssrc: u32)
    requires Carriable(nal) && Single(nal) && Idle(s) && InSync(s, c)
    ensures var s' := Handle(s, Packet(nal, 0, c, ts, ssrc));
            Idle(s') && InSync(s', c + 1) && Seen(s') == AfterUnit(Seen(s), nal, c)
  {
    hide Handle, Wrap16, Packet, Parse;
    HandleNext(s, nal, 0, c, ts, ssrc);
  }

  lemma HandleAllLast(s: State, ps: seq<bytes>)
    requires ps != []
    ensures HandleAll(s, ps) == Handle(HandleAll(s, ps[..|ps| - 1]), ps[|ps| - 1])
    ensures |ps| == 1 ==> HandleAll(s, ps) == Handle(s, ps[0])
  {
    hide Handle;
  }

  /** All the packets of one unit. */
  lemma UnitArrives(s: State, nal: bytes, c: nat, ts: u32, ssrc: u32)
    requires Carriable(nal) && Idle(s) && InSync(s, c)
    ensures var s' := HandleAll(s, Packets(nal, c, ts, ssrc));
            Idle(s') && InSync(s', c + PacketCount(nal)) && Seen(s') == AfterUnit(Seen(s), nal, c)
  {
    hide Handle, HandleAll, Wrap16, Packet, AfterUnit, Idle, InSync, Seen, Midway;
    var ps := Packets(nal, c, ts, ssrc);
    if Single(nal) {
      SinglePacket(s, nal, c, ts, ssrc);
    } else {
      FragmentCountAtLeastTwo(nal);
      RunOfFragments(s, nal, c, ts, ssrc, |ps| - 1);
      LastFragment(s, nal, c, ts, ssrc);
    }
    HandleAllLast(s, ps);
  }

  // ----- whole streams

  function TotalCount(items: seq<Item>): nat {
    if items == [] then 0 else TotalCount(items[..|items| - 1]) + PacketCount(items[|items| - 1].nal)
  }

  /** Every packet the sender emits for `items`, from counter `c`. */
  function StreamPackets(items: seq<Item>, c: nat, ssrc: u32): seq<bytes> {
    if items == [] then []
    else
      var front := items[..|items| - 1];
      StreamPackets(front, c, ssrc)
        + Packets(items[|items| - 1].nal, c + TotalCount(front), items[|items| - 1].ts, ssrc)
  }

  function Reference(o: Out, items: seq<Item>, c: nat): Out
    requires AllCarriable(items)
  {
    if items == [] then o
    else
      var front := items[..|items| - 1];
      AfterUnit(Reference(o, front, c), items[|items| - 1].nal, c + TotalCount(front))
  }

  /** Lossless reassembly does exactly what the reference says, for every stream. */
  lemma {:induction false} StreamArrives(s: State, items: seq<Item>, c: nat, ssrc: u32)
    requires AllCarriable(items) && Idle(s) && InSync(s, c)
    ensures var s' := HandleAll(s, StreamPackets(items, c, ssrc));
            Idle(s') && InSync(s', c + TotalCount(items)) && Seen(s') == Reference(Seen(s), items, c)
  {
    hide HandleAll, StreamPackets, Packets, AfterUnit, Idle, InSync, Seen, PacketCount;
    if items == [] {
      EmptyStream(s, c, ssrc);
    } else {
      var last := |items| - 1;
      StreamArrives(s, items[..last], c, ssrc);
      StreamStep(s, items, c, ssrc);
      UnitArrives(HandleAll(s, StreamPackets(items[..last], c, ssrc)), items[last].nal,
        c + TotalCount(items[..last]), items[last].ts, ssrc);
    }
  }

  lemma EmptyStream(s: State, c: nat, ssrc: u32)
    ensures HandleAll(s, StreamPackets([], c, ssrc)) == s
  {
  }

  lemma StreamStep(s: State, items: seq<Item>, c: nat, ssrc: u32)
    requires items != []
    ensures var front, last := items[..|items| - 1], items[|items| - 1];
            HandleAll(s, StreamPackets(items, c, ssrc)) ==
            HandleAll(HandleAll(s, StreamPackets(front, c, ssrc)),
              Packets(last.nal, c + TotalCount(front), last.ts, ssrc))
  {
    hide Handle, Packets;
    var front, last := items[..|items| - 1], items[|items| - 1];
    HandleAllConcat(s, StreamPackets(front, c, ssrc), Packets(last.nal, c + TotalCount(front), last.ts, ssrc));
  }

  // ----- what the reference keeps

  function Flatten(frames: seq<bytes>): bytes {
    if frames == [] then [] else Flatten(frames[..|frames| - 1]) + frames[|frames| - 1]
  }

  /** Everything seen so far, signalled or not. */
  function AllBytes(o: Out): bytes {
    Flatten(o.frames) + o.frame
  }

  function Marked(items: seq<Item>): bytes {
    if items == [] then [] else Marked(items[..|items| - 1]) + START_CODE + items[|items| - 1].nal
  }

  predicate AllDeliverable(items: seq<Item>, c: nat) {
    items == [] || (AllDeliverable(items[..|items| - 1], c)
                    && Deliverable(items[|items| - 1].nal, c + TotalCount(items[..|items| - 1])))
  }

  lemma CloseKeepsBytes(o: Out)
    ensures AllBytes(CloseFrame(o)) == AllBytes(o)
  {
    if o.frame != [] {
      assert (o.frames + [o.frame])[..|o.frames|] == o.frames;
      assert AllBytes(CloseFrame(o)) == Flatten(o.frames) + o.frame + [];
    }
  }

  lemma NoBytes()
    ensures AllBytes(Out([], [], [], [])) == []
  {
    assert Flatten([]) + [] == [];
  }

  lemma AfterUnitBytes(o: Out, nal: bytes, c: nat)
    requires nal != []
    ensures AllBytes(AfterUnit(o, nal, c)) == AllBytes(o) + if Deliverable(nal, c) then START_CODE + nal else []
  {
    hide Deliverable, Signals, CloseFrame;
    CloseKeepsBytes(o);
    CloseKeepsBytes(AddNal(o, nal));
    assert AllBytes(AddNal(o, nal)) == AllBytes(o) + (START_CODE + nal);
    assert AllBytes(o) + [] == AllBytes(o);
  }

  lemma {:induction false} ReferenceBytes(items: seq<Item>, c: nat)
    requires AllCarriable(items)
    ensures var o := Reference(Out([], [], [], []), items, c);
            && |AllBytes(o)| <= |Marked(items)|
            && (AllDeliverable(items, c) <==> |AllBytes(o)| == |Marked(items)|)
            && (AllDeliverable(items, c) ==> AllBytes(o) == Marked(items))
  {
    hide Deliverable, AfterUnit, AllBytes, PacketCount;
    if items == [] {
      NoBytes();
    } else {
      var last := |items| - 1;
      ReferenceBytes(items[..last], c);
      AfterUnitBytes(Reference(Out([], [], [], []), items[..last], c), items[last].nal, c + TotalCount(items[..last]));
      assert Marked(items[..last]) + START_CODE + items[last].nal
        == Marked(items[..last]) + (START_CODE + items[last].nal);
    }
  }

  /** Pipeline identity, with its exact condition: after lossless in-order delivery the frames
      signalled plus the frame under way are all the units sent, in order, each behind a
      four-byte start code, if and only if every unit fits one packet or is a run of at most
      1024 fragments that avoids sequence number 65535. */
  lemma LosslessIdentity(items: seq<Item>, c: nat, ssrc: u32)
    requires AllCarriable(items)
    ensures AllBytes(Seen(HandleAll(Fresh(), StreamPackets(items, c, ssrc)))) == Marked(items)
            <==> AllDeliverable(items, c)
  {
    StreamArrives(Fresh(), items, c, ssrc);
    ReferenceBytes(items, c);
  }

  /** A unit outside the condition, sent by itself, comes out as nothing at all. */
  lemma UndeliverableDropped(nal: bytes, ts: u32, c: nat, ssrc: u32)
    requires Carriable(nal) && !Deliverable(nal, c)
    ensures AllBytes(Seen(HandleAll(Fresh(), Packets(nal, c, ts, ssrc)))) == []
  {
    hide HandleAll, Packets, Deliverable, AfterUnit, AllBytes;
    UnitArrives(Fresh(), nal, c, ts, ssrc);
    NoBytes();
    AfterUnitBytes(Out([], [], [], []), nal, c);
  }

  /** The first cause, at an input: 1386 bytes make two fragments, here 65534 and 65535. */
  lemma DroppedAtWrap(nal: bytes, ts: u32, ssrc: u32)
    requires |nal| == 1386 && 0 < NalType(nal[0]) < 24
    ensures PacketCount(nal) == 2
    ensures AllBytes(Seen(HandleAll(Fresh(), Packets(nal, 65534, ts, ssrc)))) == []
  {
    UndeliverableDropped(nal, ts, 65534, ssrc);
  }

  /** The second cause: a unit of 1025 fragments, from the first number of a session. */
  lemma DroppedTooLong(nal: bytes, ts: u32, ssrc: u32)
    requires |nal| == 1 + CHUNK * MAX_FU_UNITS + 1 && 0 < NalType(nal[0]) < 24
    ensures PacketCount(nal) == MAX_FU_UNITS + 1
    ensures AllBytes(Seen(HandleAll(Fresh(), Packets(nal, 0, ts, ssrc)))) == []
  {
    UndeliverableDropped(nal, ts, 0, ssrc);
  }
}
