/** Reassembly under arbitrary loss, duplication and reordering: whatever subset of a sender's
    packets arrives, in whatever order and however often, the frames that come out hold only
    whole units that were sent, none twice, in the order they were sent. */
module Lossy {
  import opened Words
  import opened Rtp
  import opened Reassembler
  import opened Lossless

  // ----- which packet belongs to which unit

  /** Unit `n`, packet `j` of that unit. */
  datatype Loc = Loc(n: nat, j: nat)

  function Where(items: seq<Item>, i: nat): Loc
    requires i < TotalCount(items)
  {
    var last := |items| - 1;
    if i < TotalCount(items[..last]) then Where(items[..last], i) else Loc(last, i - TotalCount(items[..last]))
  }

  lemma {:induction false} CountMonotone(items: seq<Item>, n: nat)
    requires n <= |items|
    ensures TotalCount(items[..n]) <= TotalCount(items)
  {
    if n < |items| {
      CountMonotone(items[..|items| - 1], n);
      assert items[..|items| - 1][..n] == items[..n];
    } else {
      assert items[..n] == items;
    }
  }

  lemma CountStep(items: seq<Item>, n: nat)
    requires n < |items|
    ensures TotalCount(items[..n + 1]) == TotalCount(items[..n]) + PacketCount(items[n].nal)
  {
    assert items[..n + 1][..n] == items[..n];
  }

  /** The place of a packet is right: its unit and position give its index and its bytes. */
  lemma {:induction false} WhereIs(items: seq<Item>, i: nat, c: nat, ssrc: u32)
    requires i < TotalCount(items)
    ensures var l := Where(items, i);
            && l.n < |items| && l.j < PacketCount(items[l.n].nal) && TotalCount(items[..l.n]) + l.j == i
            && |StreamPackets(items, c, ssrc)| == TotalCount(items) && items[l.n].nal != []
            && StreamPackets(items, c, ssrc)[i]
            == Packet(items[l.n].nal, l.j, c + TotalCount(items[..l.n]), items[l.n].ts, ssrc)
  {
    hide Packet, PacketCount;
    var last := |items| - 1;
    StreamLength(items, c, ssrc);
    StreamLength(items[..last], c, ssrc);
    if i < TotalCount(items[..last]) {
      WhereIs(items[..last], i, c, ssrc);
      var l := Where(items, i);
      assert items[..last][..l.n] == items[..l.n];
    } else {
      EmptyTakesNone(items[last].nal);
    }
  }

  lemma EmptyTakesNone(nal: bytes)
    ensures PacketCount(nal) > 0 ==> nal != []
  {
  }

  lemma {:induction false} StreamLength(items: seq<Item>, c: nat, ssrc: u32)
    ensures |StreamPackets(items, c, ssrc)| == TotalCount(items)
  {
    if items != [] { StreamLength(items[..|items| - 1], c, ssrc); }
  }

  lemma {:induction false} WhereUnique(items: seq<Item>, n: nat, j: nat)
    requires n < |items| && j < PacketCount(items[n].nal)
    ensures TotalCount(items[..n]) + j < TotalCount(items)
    ensures Where(items, TotalCount(items[..n]) + j) == Loc(n, j)
  {
    hide PacketCount;
    CountStep(items, n);
    CountMonotone(items, n + 1);
    var last := |items| - 1;
    if n < last {
      assert items[..last][..n] == items[..n] && items[..last][..n + 1] == items[..n + 1];
      CountMonotone(items[..last], n + 1);
      WhereUnique(items[..last], n, j);
    }
  }

  // ----- explanations of the output

  /** Which units make up each signalled frame and the frame under way. */
  datatype Trace = Trace(frames: seq<seq<nat>>, frame: seq<nat>)

  function Body(items: seq<Item>, idx: seq<nat>): bytes
    requires forall k :: 0 <= k < |idx| ==> idx[k] < |items|
  {
    if idx == [] then [] else Body(items, idx[..|idx| - 1]) + START_CODE + items[idx[|idx| - 1]].nal
  }

  function Listed(frames: seq<seq<nat>>): seq<nat> {
    if frames == [] then [] else Listed(frames[..|frames| - 1]) + frames[|frames| - 1]
  }

  predicate Increasing(s: seq<nat>) {
    forall i, j :: 0 <= i < j < |s| ==> s[i] < s[j]
  }

  predicate InRange(items: seq<Item>, idx: seq<nat>) {
    forall k :: 0 <= k < |idx| ==> idx[k] < |items|
  }

  /** Every frame is a row of whole units behind start codes, and over all frames together the
      units appear in the order they were sent, none of them twice. */
  predicate Explains(t: Trace, items: seq<Item>, frames: seq<bytes>, frame: bytes) {
    && |t.frames| == |frames|
    && (forall f :: 0 <= f < |frames| ==> InRange(items, t.frames[f]) && frames[f] == Body(items, t.frames[f]))
    && InRange(items, t.frame) && frame == Body(items, t.frame)
    && Increasing(Listed(t.frames) + t.frame)
  }

  /** All units in the trace ended at or before packet `p`. */
  predicate Past(t: Trace, items: seq<Item>, p: int) {
    forall k :: 0 <= k < |Listed(t.frames) + t.frame| ==>
      (Listed(t.frames) + t.frame)[k] < |items| && TotalCount(items[..(Listed(t.frames) + t.frame)[k] + 1]) <= p + 1
  }

  function Signalled(t: Trace): Trace {
    if t.frame == [] then t else Trace(t.frames + [t.frame], [])
  }

  lemma BodyEmpty(items: seq<Item>, idx: seq<nat>)
    requires InRange(items, idx)
    ensures Body(items, idx) == [] <==> idx == []
  {
  }

  lemma SignalExplains(t: Trace, items: seq<Item>, s: State, marker: bool, p: int)
    requires Explains(t, items, s.frames, s.frame) && Past(t, items, p)
    ensures var t' := if marker then Signalled(t) else t;
            var s' := EmitFrame(s, marker);
            Explains(t', items, s'.frames, s'.frame) && Past(t', items, p)
  {
    hide Body, Listed, TotalCount;
    BodyEmpty(items, t.frame);
    if marker && t.frame != [] {
      var t' := Signalled(t);
      BodyEmpty(items, []);
      ListedSnoc(t.frames, t.frame);
      assert Listed(t'.frames) + t'.frame == Listed(t.frames) + t.frame;
    }
  }

  lemma ListedSnoc(frames: seq<seq<nat>>, frame: seq<nat>)
    ensures Listed(frames + [frame]) == Listed(frames) + frame
  {
    assert (frames + [frame])[..|frames|] == frames;
  }

  lemma DropExplains(t: Trace, items: seq<Item>, s: State, p: int)
    requires Explains(t, items, s.frames, s.frame) && Past(t, items, p)
    ensures Explains(Trace(t.frames, []), items, s.frames, []) && Past(Trace(t.frames, []), items, p)
  {
    var all, kept := Listed(t.frames) + t.frame, Listed(t.frames) + [];
    assert forall k :: 0 <= k < |kept| ==> kept[k] == all[k];
  }

  lemma EndsInOrder(items: seq<Item>, n: nat, x: nat)
    requires n < |items| && x < |items|
    ensures n <= x ==> TotalCount(items[..n + 1]) <= TotalCount(items[..x + 1])
  {
    if n <= x {
      CountMonotone(items[..x + 1], n + 1);
      assert items[..x + 1][..n + 1] == items[..n + 1];
    }
  }

  lemma BodySnoc(items: seq<Item>, idx: seq<nat>, n: nat)
    requires InRange(items, idx) && n < |items|
    ensures InRange(items, idx + [n])
    ensures Body(items, idx + [n]) == Body(items, idx) + (START_CODE + items[n].nal)
  {
    assert (idx + [n])[..|idx|] == idx;
  }

  /** A unit that ends at packet `q` comes after everything that ended before. */
  lemma AddExplains(t: Trace, items: seq<Item>, s: State, n: nat, p: int, q: int, nalType: int)
    requires Explains(t, items, s.frames, s.frame) && Past(t, items, p) && p < q
    requires n < |items| && TotalCount(items[..n + 1]) == q + 1
    ensures var t' := Trace(t.frames, t.frame + [n]);
            var s' := AppendNal(s, nalType, START_CODE + items[n].nal);
            Explains(t', items, s'.frames, s'.frame) && Past(t', items, q)
  {
    hide Body, Listed, TotalCount;
    var t' := Trace(t.frames, t.frame + [n]);
    var all := Listed(t.frames) + t.frame;
    assert Listed(t'.frames) + t'.frame == all + [n];
    BodySnoc(items, t.frame, n);
    forall k | 0 <= k < |all| ensures all[k] < n {
      EndsInOrder(items, n, all[k]);
    }
  }

  // ----- the fragments being collected

  /** The numbers of one stream: they start at `a`, do not wrap, and no number is taken for the
      unset value 0 or for a wrapped one. */
  predicate SafeNumbers(items: seq<Item>, a: nat) {
    && 1 <= a && a + TotalCount(items) <= 0x1_0000
    && (3 <= a || a + TotalCount(items) <= 65533)
  }

  /** Packet `i` is a fragment of a longer unit. */
  predicate IsFragment(items: seq<Item>, i: nat) {
    i < TotalCount(items) &&
    var l := Where(items, i);
    l.n < |items| && items[l.n].nal != [] && !Single(items[l.n].nal) && l.j < PacketCount(items[l.n].nal)
  }

  /** A fragment that is not the last of its unit. */
  predicate NotLast(items: seq<Item>, i: nat) {
    IsFragment(items, i) && Where(items, i).j + 1 < PacketCount(items[Where(items, i).n].nal)
  }

  /** The entry the fragment map holds for packet `i`. */
  function Entry(items: seq<Item>, a: nat, i: nat): Unit
    requires IsFragment(items, i)
  {
    var l := Where(items, i);
    Unit(Wrap16(a + i), UnitAt(items[l.n].nal, 0, l.j).data)
  }

  predicate EntryOk(items: seq<Item>, a: nat, u: Unit) {
    a <= u.sn && NotLast(items, u.sn - a) && u == Entry(items, a, u.sn - a)
  }

  /** While a unit is under way: the map starts with a first fragment, ends with the packet
      processed last, ascends, and holds only true fragments, no last one among them. */
  predicate Collecting(s: State, items: seq<Item>, a: nat, p: int) {
    && 0 <= p && a <= s.startSeq && s.startSeq - a <= p
    && IsFragment(items, s.startSeq - a) && Where(items, s.startSeq - a).j == 0
    && s.fu != [] && s.fu[0].sn == s.startSeq && s.fu[|s.fu| - 1].sn == a + p && s.expectedSeq == Wrap16(a + p + 1)
    && (forall k :: 0 <= k < |s.fu| ==> s.fu[k].sn <= a + p && EntryOk(items, a, s.fu[k]))
  }

  /** The invariant of a run; `p` is the packet processed last, -1 before the first. */
  predicate Safe(s: State, t: Trace, items: seq<Item>, a: nat, p: int) {
    && -1 <= p < TotalCount(items)
    && s.lastSeq == (if p < 0 then 0 else a + p)
    && Told(s, t, items, p)
    && (s.started ==> Collecting(s, items, a, p))
  }

  // ----- a complete run is one unit

  /** Consecutive packets from a first fragment on belong to its unit until the last fragment. */
  lemma {:induction false} Chain(items: seq<Item>, first: nat, len: nat)
    requires first + len < TotalCount(items) && Where(items, first).j == 0 && Where(items, first).n < |items|
    requires TotalCount(items[..Where(items, first).n]) == first
    requires forall i :: first <= i < first + len ==> NotLast(items, i)
    ensures Where(items, first + len) == Loc(Where(items, first).n, len)
  {
    if len > 0 {
      Chain(items, first, len - 1);
      assert NotLast(items, first + len - 1);
      WhereUnique(items, Where(items, first).n, len);
    }
  }

  lemma {:induction false} ContiguousAt(m: seq<Unit>, from: u16, k: nat)
    requires Contiguous(m, from) && k < |m|
    ensures m[k].sn == Wrap16(from + k)
  {
    if k > 0 {
      ContiguousAt(m[1..], Wrap16(from + 1), k - 1);
      assert Wrap16(Wrap16(from + 1) + (k - 1)) == Wrap16(from + k);
    }
  }

  /** The numbers of a map that passes the completeness check are first, first + 1, ... , last. */
  lemma CompleteNumbers(s: State, last: u16)
    requires s.fu != [] && |s.fu| <= MAX_FU_UNITS && s.startSeq < last && s.fu[|s.fu| - 1].sn == last
    requires Complete(s, last)
    ensures |s.fu| == last - s.startSeq + 1
    ensures forall k :: 0 <= k < |s.fu| ==> s.fu[k].sn == s.startSeq + k
  {
    forall k | 0 <= k < |s.fu| ensures s.fu[k].sn == Wrap16(s.startSeq + k) {
      ContiguousAt(s.fu, s.startSeq, k);
    }
  }

  /** The map passes the completeness check on its last fragment `q`. */
  predicate Completed(s: State, items: seq<Item>, a: nat, q: nat) {
    && s.fu != [] && |s.fu| <= MAX_FU_UNITS && a + q < 0x1_0000 && Complete(s, a + q)
    && a <= s.startSeq && s.startSeq - a < q
    && IsFragment(items, s.startSeq - a) && Where(items, s.startSeq - a).j == 0
    && IsFragment(items, q) && !NotLast(items, q) && s.fu[|s.fu| - 1] == Entry(items, a, q)
    && (forall k :: 0 <= k < |s.fu| - 1 ==> EntryOk(items, a, s.fu[k]))
  }

  /** A completed map holds one fragment for each packet from the first to `q`. */
  lemma CompletedEntries(s: State, items: seq<Item>, a: nat, q: nat)
    requires Completed(s, items, a, q)
    ensures |s.fu| == q - (s.startSeq - a) + 1
    ensures forall i :: s.startSeq - a <= i < q ==> NotLast(items, i)
    ensures forall i :: s.startSeq - a <= i <= q ==>
              IsFragment(items, i) && s.fu[i - (s.startSeq - a)] == Entry(items, a, i)
  {
    hide Contiguous, Where, PacketCount, Single;
    var first := s.startSeq - a;
    EntryNumber(items, a, q);
    CompleteNumbers(s, a + q);
    forall i | first <= i < q ensures NotLast(items, i) && s.fu[i - first] == Entry(items, a, i) {
      assert EntryOk(items, a, s.fu[i - first]) && s.fu[i - first].sn == a + i;
    }
    forall i | first <= i <= q ensures IsFragment(items, i) && s.fu[i - first] == Entry(items, a, i) {
      assert i < q ==> NotLast(items, i);
    }
  }

  lemma EntryNumber(items: seq<Item>, a: nat, q: nat)
    requires IsFragment(items, q) && a + q < 0x1_0000
    ensures Entry(items, a, q).sn == a + q
  {
  }

  /** The packets of a row of fragments, the last of them the first to end a unit, are the
      packets of that unit. */
  lemma SpanIsUnit(items: seq<Item>, first: nat, q: nat)
    requires first <= q && IsFragment(items, first) && Where(items, first).j == 0
    requires IsFragment(items, q) && !NotLast(items, q)
    requires forall i :: first <= i < q ==> NotLast(items, i)
    ensures var n := Where(items, first).n;
            && n < |items| && items[n].nal != [] && !Single(items[n].nal) && Where(items, q).n == n
            && TotalCount(items[..n]) == first && TotalCount(items[..n + 1]) == q + 1
            && PacketCount(items[n].nal) == q - first + 1
  {
    hide PacketCount, Single, TotalCount, StreamPackets, Packet;
    WhereIs(items, first, 0, 0);
    Chain(items, first, q - first);
    CountStep(items, Where(items, first).n);
  }

  /** A last fragment that completes the map completes exactly the unit it belongs to. */
  lemma CompletesUnit(s: State, items: seq<Item>, a: nat, q: nat)
    requires Completed(s, items, a, q)
    ensures var n := Where(items, q).n;
            n < |items| && TotalCount(items[..n + 1]) == q + 1 && Glued(s.fu) == items[n].nal
  {
    hide Contiguous, PacketCount, Complete, Single, UnitAt, Glued, Where, Entry, EntryOk, TotalCount, NotLast;
    CompletedEntries(s, items, a, q);
    var first := s.startSeq - a;
    SpanIsUnit(items, first, q);
    EntriesAre(s.fu, items, a, first, q - first);
    UnitsAre(s.fu, items[Where(items, first).n].nal, a + first);
  }

  lemma EntriesAre(m: seq<Unit>, items: seq<Item>, a: nat, first: nat, len: nat)
    requires first + len < TotalCount(items) && IsFragment(items, first) && Where(items, first).j == 0
    requires TotalCount(items[..Where(items, first).n]) == first
             && |m| == len + 1 == PacketCount(items[Where(items, first).n].nal)
    requires forall i :: first <= i < first + len ==> NotLast(items, i)
    requires forall i :: first <= i <= first + len ==> IsFragment(items, i) && m[i - first] == Entry(items, a, i)
    ensures forall k :: 0 <= k < |m| ==> m[k] == UnitAt(items[Where(items, first).n].nal, a + first, k)
  {
    hide PacketCount, Single, TotalCount, Chunk, Wrap16;
    forall k | 0 <= k < |m| ensures m[k] == UnitAt(items[Where(items, first).n].nal, a + first, k) {
      Chain(items, first, k);
      assert m[k] == m[first + k - first] == Entry(items, a, first + k);
    }
  }

  lemma UnitsAre(m: seq<Unit>, nal: bytes, c: nat)
    requires nal != [] && !Single(nal) && |m| == PacketCount(nal)
    requires forall k :: 0 <= k < |m| ==> m[k] == UnitAt(nal, c, k)
    ensures Glued(m) == nal
  {
    hide UnitAt, PacketCount, Single;
    assert m == Units(nal, c, 0, PacketCount(nal));
    FragmentCountAtLeastTwo(nal);
    UnitsGlue(nal, c, PacketCount(nal));
    ConcatAll(nal);
  }

  // ----- one packet keeps the invariant

  /** The output half of the invariant. */
  predicate Told(s: State, t: Trace, items: seq<Item>, p: int) {
    Explains(t, items, s.frames, s.frame) && Past(t, items, p)
  }

  lemma ToldLater(s: State, t: Trace, items: seq<Item>, p: int, q: int)
    requires Told(s, t, items, p) && p <= q
    ensures Told(s, t, items, q)
  {
    hide Explains, Listed, TotalCount;
  }

  function AfterMarker(t: Trace, marker: bool): Trace {
    if marker then Signalled(t) else t
  }

  lemma StepSingle(s: State, t: Trace, items: seq<Item>, p: int, i: nat, n: nat, pk: Parsed)
    requires Told(s, t, items, p) && p < i && n < |items| && TotalCount(items[..n + 1]) == i + 1
    requires items[n].nal != [] && pk.payload == items[n].nal
    ensures var s' := TakeSingle(s, pk);
            !s'.started && Told(s', AfterMarker(Trace(t.frames, t.frame + [n]), pk.marker), items, i)
  {
    hide Explains, Past, TotalCount, EmitFrame, AppendNal, Signalled;
    var s1 := if s.started then ResetFu(s) else s;
    AddExplains(t, items, s1, n, p, i, NalType(pk.payload[0]));
    var s2 := AppendNal(s1, NalType(pk.payload[0]), START_CODE + pk.payload);
    SignalExplains(Trace(t.frames, t.frame + [n]), items, s2, pk.marker, i);
    StillStopped(s1, NalType(pk.payload[0]), START_CODE + pk.payload, pk.marker);
  }

  lemma StillStopped(s: State, nalType: int, unit: bytes, marker: bool)
    ensures EmitFrame(AppendNal(s, nalType, unit), marker).started == s.started
  {
  }

  lemma StepStart(s: State, t: Trace, items: seq<Item>, a: nat, p: int, i: nat, pk: Parsed)
    requires Told(s, t, items, p) && p < i && IsFragment(items, i) && Where(items, i).j == 0
    requires a + i < 0x1_0000 && pk == Parsed(false, a + i, Payload(items[Where(items, i).n].nal, 0))
    requires Carriable(items[Where(items, i).n].nal)
    ensures |pk.payload| >= 2
    ensures var s' := TakeFuStart(s, pk);
            s'.started && Told(s', t, items, i) && Collecting(s', items, a, i)
  {
    hide Explains, Past, TotalCount, PacketCount, Chunk, FuHeader, Single;
    var nal := items[Where(items, i).n].nal;
    ProcessFragment(s, nal, 0, pk.sn, false);
    FragmentCountAtLeastTwo(nal);
    ToldLater(s, t, items, p, i);
    assert TakeFuStart(s, pk).fu == [Entry(items, a, i)] by { WrapSmall16(a + i); }
  }

  lemma WrapSmall16(x: int)
    requires 0 <= x < 0x1_0000
    ensures Wrap16(x) == x
  {
  }

  /** The map after a later fragment is added. */
  lemma CollectMore(s: State, items: seq<Item>, a: nat, p: int, i: nat)
    requires Collecting(s, items, a, p) && p < i && IsFragment(items, i) && a + i < 0x1_0000
    ensures Entry(items, a, i).sn == a + i && s.expectedSeq == a + p + 1
    ensures InsertUnit(s.fu, Entry(items, a, i)) == s.fu + [Entry(items, a, i)]
  {
    hide IsFragment, EntryOk, InsertUnit;
    EntryNumber(items, a, i);
    WrapSmall16(a + p + 1);
    var u := Entry(items, a, i);
    forall x | x in s.fu ensures x.sn < u.sn {
      var k :| 0 <= k < |s.fu| && s.fu[k] == x;
    }
    InsertBetween(s.fu, [], u);
    assert s.fu + [] == s.fu && s.fu + [u] + [] == s.fu + [u];
  }

  lemma StepMiddle(s: State, t: Trace, items: seq<Item>, a: nat, p: int, i: nat, pk: Parsed)
    requires Told(s, t, items, p) && Collecting(s, items, a, p) && s.started && p < i && NotLast(items, i)
             && Where(items, i).j > 0
    requires a + i < 0x1_0000 && pk == Parsed(false, a + i, Payload(items[Where(items, i).n].nal, Where(items, i).j))
    requires Carriable(items[Where(items, i).n].nal)
    ensures |pk.payload| >= 2
    ensures var s' := TakeFuNext(s, pk);
            Told(s', t, items, i) && (s'.started ==> Collecting(s', items, a, i))
  {
    hide Explains, Past, TotalCount, PacketCount, Chunk, FuHeader, Single, InsertUnit, Contiguous, Where;
    var l := Where(items, i);
    ProcessFragment(s, items[l.n].nal, l.j, pk.sn, false);
    CollectMore(s, items, a, p, i);
    LaterUnit(items[l.n].nal, 0, l.j);
    ToldLater(s, t, items, p, i);
    assert EntryOk(items, a, Entry(items, a, i));
  }

  lemma StepLast(s: State, t: Trace, items: seq<Item>, a: nat, p: int, i: nat, pk: Parsed) returns (t': Trace)
    requires Told(s, t, items, p) && Collecting(s, items, a, p) && s.started && p < i
    requires IsFragment(items, i) && !NotLast(items, i) && Where(items, i).j > 0
    requires a + i < 0x1_0000 && pk == Parsed(true, a + i, Payload(items[Where(items, i).n].nal, Where(items, i).j))
    requires Carriable(items[Where(items, i).n].nal)
    ensures |pk.payload| >= 2
    ensures var s' := TakeFuNext(s, pk);
            !s'.started && Told(s', t', items, i)
  {
    hide Explains, Past, TotalCount, PacketCount, Chunk, FuHeader, Single, InsertUnit, Contiguous, Where, Glued,
      EmitFrame, AppendNal, Complete, Signalled;
    var l := Where(items, i);
    ProcessFragment(s, items[l.n].nal, l.j, pk.sn, true);
    CollectMore(s, items, a, p, i);
    LaterUnit(items[l.n].nal, 0, l.j);
    ToldLater(s, t, items, p, i);
    var s1 := s.(fu := s.fu + [Entry(items, a, i)], expectedSeq := Wrap16(pk.sn + 1));
    t' := t;
    if pk.sn - s.expectedSeq <= MAX_SEQ_GAP && |s1.fu| <= MAX_FU_UNITS {
      var s2 := s1;
      if Complete(s1, pk.sn) {
        CompletesUnit(s1, items, a, i);
        AddExplains(t, items, s1, l.n, p, i, NalType(pk.payload[1]));
        t' := Trace(t.frames, t.frame + [l.n]);
        s2 := AppendNal(s1, NalType(pk.payload[1]), START_CODE + Glued(s1.fu));
      }
      SignalExplains(t', items, ResetFu(s2), true, i);
      StopStopped(s2);
      t' := Signalled(t');
    }
  }

  lemma StopStopped(s: State)
    ensures !EmitFrame(ResetFu(s), true).started
  {
  }

  // ----- every delivery keeps the invariant

  predicate Numbered(items: seq<Item>, a: nat) {
    AllCarriable(items) && SafeNumbers(items, a)
  }

  /** Packet `i` of the stream as the reassembler parses it. */
  function Arriving(items: seq<Item>, a: nat, i: nat): Parsed
    requires i < TotalCount(items) && Where(items, i).n < |items|
    requires items[Where(items, i).n].nal != [] && Where(items, i).j < PacketCount(items[Where(items, i).n].nal)
  {
    var l := Where(items, i);
    Parsed(Marker(items[l.n].nal, l.j), Wrap16(a + i), Payload(items[l.n].nal, l.j))
  }

  lemma ArrivesAs(items: seq<Item>, a: nat, ssrc: u32, i: nat)
    requires i < TotalCount(items)
    ensures var l := Where(items, i);
            && l.n < |items| && items[l.n].nal != [] && l.j < PacketCount(items[l.n].nal)
            && TotalCount(items[..l.n]) + l.j == i && |StreamPackets(items, a, ssrc)| == TotalCount(items)
            && |StreamPackets(items, a, ssrc)[i]| > HEADER && Arriving(items, a, i).payload != []
            && Parse(StreamPackets(items, a, ssrc)[i]) == Arriving(items, a, i)
  {
    hide StreamPackets, Where, PacketCount, TotalCount;
    WhereIs(items, i, a, ssrc);
    var l := Where(items, i);
    PacketParses(items[l.n].nal, l.j, a + TotalCount(items[..l.n]), items[l.n].ts, ssrc);
  }

  lemma PacketParses(nal: bytes, j: nat, sn: nat, ts: u32, ssrc: u32)
    requires nal != [] && j < PacketCount(nal)
    ensures |Packet(nal, j, sn, ts, ssrc)| > HEADER && Payload(nal, j) != []
    ensures Parse(Packet(nal, j, sn, ts, ssrc)) == Parsed(Marker(nal, j), Wrap16(sn + j), Payload(nal, j))
  {
    PacketFits(nal, j, sn, ts, ssrc);
    ParseHeader(Wrap16(sn + j), ts, ssrc, Marker(nal, j), Payload(nal, j));
  }

  /** A packet newer than all processed before. */
  lemma ProcessSafe(s: State, t: Trace, items: seq<Item>, a: nat, p: int, i: nat) returns (t': Trace)
    requires Numbered(items, a) && p < i < TotalCount(items) && Told(s, t, items, p)
             && (s.started ==> Collecting(s, items, a, p))
    requires Where(items, i).n < |items| && items[Where(items, i).n].nal != [] && Arriving.requires(items, a, i)
    requires Arriving(items, a, i).payload != [] && TotalCount(items[..Where(items, i).n]) + Where(items, i).j == i
    ensures var s' := Process(s, Arriving(items, a, i));
            Told(s', t', items, i) && (s'.started ==> Collecting(s', items, a, i))
  {
    hide Explains, Past, Where, Chunk, FuHeader, TotalCount, Collecting, TakeFuNext, TakeFuStart, TakeSingle,
      EmitFrame, Signalled;
    var l, pk := Where(items, i), Arriving(items, a, i);
    var nal := items[l.n].nal;
    WrapSmall16(a + i);
    if Single(nal) {
      CountStep(items, l.n);
      StepSingle(s, t, items, p, i, l.n, pk);
      t' := AfterMarker(Trace(t.frames, t.frame + [l.n]), pk.marker);
    } else {
      ProcessFragment(s, nal, l.j, pk.sn, pk.marker);
      FragmentCountAtLeastTwo(nal);
      t' := t;
      if l.j == 0 {
        StepStart(s, t, items, a, p, i, pk);
      } else if !s.started {
        ToldLater(s, t, items, p, i);
        SignalExplains(t, items, s, pk.marker, i);
        IdleStays(s, pk.marker);
        t' := AfterMarker(t, pk.marker);
      } else if NotLast(items, i) {
        StepMiddle(s, t, items, a, p, i, pk);
      } else {
        t' := StepLast(s, t, items, a, p, i, pk);
      }
    }
  }

  lemma IdleStays(s: State, marker: bool)
    ensures EmitFrame(s, marker).started == s.started
  {
  }

  lemma CollectingAnyLast(s: State, items: seq<Item>, a: nat, p: int, last: u16)
    ensures Collecting(s, items, a, p) ==> Collecting(s.(lastSeq := last), items, a, p)
  {
  }

  lemma HandleSafe(s: State, t: Trace, items: seq<Item>, a: nat, ssrc: u32, p: int, i: nat) returns (t': Trace, p': int)
    requires Numbered(items, a) && i < TotalCount(items) && Safe(s, t, items, a, p)
    ensures |StreamPackets(items, a, ssrc)| == TotalCount(items)
    ensures Safe(Handle(s, StreamPackets(items, a, ssrc)[i]), t', items, a, p')
  {
    hide Explains, Past, Where, TotalCount, Collecting, Process, StreamPackets, Parse;
    ArrivesAs(items, a, ssrc, i);
    WrapSmall16(a + i);
    t', p' := t, p;
    if p < i {
      var s1 := s;
      if LargeGap(s.lastSeq, a + i) {
        DropExplains(t, items, s, p);
        s1, t' := ResetFu(s).(frame := []), Trace(t.frames, []);
      }
      t' := ProcessSafe(s1, t', items, a, p, i);
      p' := i;
      CollectingAnyLast(Process(s1, Arriving(items, a, i)), items, a, i, a + i);
    }
  }

  /** The packets delivered, by index: any subset, any order, any repetition. */
  function Delivered(packets: seq<bytes>, order: seq<nat>): seq<bytes>
    requires forall k :: 0 <= k < |order| ==> order[k] < |packets|
  {
    seq(|order|, k requires 0 <= k < |order| => packets[order[k]])
  }

  predicate Possible(items: seq<Item>, order: seq<nat>) {
    forall k :: 0 <= k < |order| ==> order[k] < TotalCount(items)
  }

  lemma {:induction false} RunSafe(items: seq<Item>, a: nat, ssrc: u32, order: seq<nat>) returns (t: Trace, p: int)
    requires Numbered(items, a) && Possible(items, order)
    ensures |StreamPackets(items, a, ssrc)| == TotalCount(items)
    ensures Safe(HandleAll(Fresh(), Delivered(StreamPackets(items, a, ssrc), order)), t, items, a, p)
  {
    hide Handle, StreamPackets, TotalCount;
    StreamLength(items, a, ssrc);
    var ps := StreamPackets(items, a, ssrc);
    if order == [] {
      t, p := Trace([], []), -1;
      assert Delivered(ps, order) == [];
    } else {
      var last := |order| - 1;
      t, p := RunSafe(items, a, ssrc, order[..last]);
      var before := HandleAll(Fresh(), Delivered(ps, order[..last]));
      t, p := HandleSafe(before, t, items, a, ssrc, p, order[last]);
      assert Delivered(ps, order)[..last] == Delivered(ps, order[..last]);
    }
  }

  /** The frames of a delivery hold only whole sent units, in send order, none twice. */
  ghost predicate Faithful(items: seq<Item>, a: nat, ssrc: u32, order: seq<nat>)
    requires |StreamPackets(items, a, ssrc)| == TotalCount(items) && Possible(items, order)
  {
    var s := HandleAll(Fresh(), Delivered(StreamPackets(items, a, ssrc), order));
    exists t :: Explains(t, items, s.frames, s.frame)
  }

  /** Loss safety. */
  lemma LossSafety(items: seq<Item>, a: nat, ssrc: u32, order: seq<nat>)
    requires AllCarriable(items) && SafeNumbers(items, a) && Possible(items, order)
    ensures |StreamPackets(items, a, ssrc)| == TotalCount(items) && Faithful(items, a, ssrc, order)
  {
    var t, p := RunSafe(items, a, ssrc, order);
  }

  // ----- the numbers for which it holds

  /** One-byte units, the first of type 2 and the others of type 1. */
  function Probe(n: nat): seq<Item> {
    seq(n, i requires 0 <= i < n => Item(if i == 0 then [2] else [1], 0))
  }

  lemma {:induction false} ProbeCount(n: nat, k: nat)
    requires k <= n
    ensures AllCarriable(Probe(n)) && TotalCount(Probe(n)[..k]) == k
  {
    if k > 0 {
      ProbeCount(n, k - 1);
      assert Probe(n)[..k][..k - 1] == Probe(n)[..k - 1];
    }
  }

  lemma ProbeParses(n: nat, a: nat, ssrc: u32, i: nat)
    requires i < n
    ensures TotalCount(Probe(n)) == n == |StreamPackets(Probe(n), a, ssrc)|
    ensures var p := StreamPackets(Probe(n), a, ssrc)[i];
            |p| > HEADER && Parse(p) == Parsed(true, Wrap16(a + i), if i == 0 then [2] else [1])
  {
    hide StreamPackets, Parse, TotalCount, Where, Wrap16;
    ProbeCount(n, n);
    ProbeCount(n, i);
    assert Probe(n)[..n] == Probe(n);
    StreamLength(Probe(n), a, ssrc);
    WhereUnique(Probe(n), i, 0);
    ArrivesAs(Probe(n), a, ssrc, i);
  }

  lemma HandleShort(s: State, packet: bytes, nal: bytes, sn: u16)
    requires |packet| > HEADER && Parse(packet) == Parsed(true, sn, nal) && (nal == [1] || nal == [2])
    requires s.frame == [] && !s.started && !Duplicate(s.lastSeq, sn)
    ensures var s' := Handle(s, packet);
            s'.frames == s.frames + [START_CODE + nal] && s'.frame == [] && !s'.started && s'.lastSeq == sn
  {
    assert [] + (START_CODE + nal) == START_CODE + nal;
  }

  /** Two packets, the second of them packet 0, that both pass the duplicate test. */
  lemma ProbeTwice(n: nat, a: nat, ssrc: u32, i: nat)
    requires i < n && !Duplicate(Wrap16(a + i), Wrap16(a))
    ensures TotalCount(Probe(n)) == n == |StreamPackets(Probe(n), a, ssrc)|
    ensures !Faithful(Probe(n), a, ssrc, [i, 0])
  {
    hide Handle, StreamPackets, Explains, Parse, HandleAll, Probe, TotalCount, AllCarriable, Duplicate;
    NothingSeen(Wrap16(a + i));
    ProbeParses(n, a, ssrc, i);
    ProbeParses(n, a, ssrc, 0);
    var ps := StreamPackets(Probe(n), a, ssrc);
    var first := if i == 0 then [2] else [1];
    HandleShort(Fresh(), ps[i], first, Wrap16(a + i));
    HandleShort(Handle(Fresh(), ps[i]), ps[0], [2], Wrap16(a));
    HandleTwo(Fresh(), ps[i], ps[0]);
    assert Delivered(ps, [i, 0]) == [ps[i], ps[0]];
    var s := HandleAll(Fresh(), Delivered(ps, [i, 0]));
    assert s.frames == [START_CODE + first, START_CODE + [2]];
    Unexplained(n, first, s.frame);
  }

  lemma NothingSeen(sn: u16)
    ensures !Duplicate(Fresh().lastSeq, sn)
  {
  }

  lemma HandleTwo(s: State, x: bytes, y: bytes)
    ensures HandleAll(s, [x, y]) == Handle(Handle(s, x), y)
  {
    hide Handle;
    assert [x, y][..1] == [x] && |[x][..0]| == 0;
    assert HandleAll(s, [x]) == Handle(HandleAll(s, [x][..0]), x);
  }

  /** No trace puts any unit before the first one. */
  lemma Unexplained(n: nat, nal: bytes, frame: bytes)
    requires |nal| == 1
    ensures forall t :: !Explains(t, Probe(n), [START_CODE + nal, START_CODE + [2]], frame)
  {
    forall t ensures !Explains(t, Probe(n), [START_CODE + nal, START_CODE + [2]], frame) {
      if |t.frames| == 2 && InRange(Probe(n), t.frames[0]) && InRange(Probe(n), t.frames[1]) {
        if Body(Probe(n), t.frames[0]) == START_CODE + nal && Body(Probe(n), t.frames[1]) == START_CODE + [2] {
          OneUnit(n, t.frames[0], nal);
          OneUnit(n, t.frames[1], [2]);
          ListedTwo(t.frames);
          var all := Listed(t.frames) + t.frame;
          assert all[1] == t.frames[1][0] == 0;
          assert !(all[0] < all[1]);
        }
      }
    }
  }

  lemma ListedTwo(frames: seq<seq<nat>>)
    requires |frames| == 2
    ensures Listed(frames) == frames[0] + frames[1]
  {
    assert frames[..1] == [frames[0]] && |frames[..1][..0]| == 0;
    assert Listed(frames[..1]) == Listed(frames[..1][..0]) + frames[0];
  }

  lemma OneUnit(n: nat, idx: seq<nat>, nal: bytes)
    requires InRange(Probe(n), idx) && Body(Probe(n), idx) == START_CODE + nal && |nal| == 1
    ensures |idx| == 1 && Probe(n)[idx[0]].nal == nal
  {
    BodyLength(n, idx);
    assert idx[..0] == [] && Body(Probe(n), idx) == [] + START_CODE + Probe(n)[idx[0]].nal;
    assert ([] + START_CODE + Probe(n)[idx[0]].nal)[4] == (START_CODE + nal)[4];
  }

  lemma {:induction false} BodyLength(n: nat, idx: seq<nat>)
    requires InRange(Probe(n), idx)
    ensures |Body(Probe(n), idx)| == 5 * |idx|
  {
    if idx != [] { BodyLength(n, idx[..|idx| - 1]); }
  }

  /** Every delivery of every stream of `n` packets from number `a` comes out faithfully. */
  ghost predicate AlwaysFaithful(a: nat, n: nat) {
    forall items: seq<Item>, ssrc: u32, order: seq<nat> ::
      AllCarriable(items) && TotalCount(items) == n && Possible(items, order) && |StreamPackets(items, a, ssrc)| == n
      ==> Faithful(items, a, ssrc, order)
  }

  /** Packets depend on the counter only through its low 16 bits. */
  lemma {:induction false} CounterWraps(items: seq<Item>, c: nat, ssrc: u32)
    ensures StreamPackets(items, c, ssrc) == StreamPackets(items, Wrap16(c), ssrc)
  {
    hide Packets, PacketCount, Wrap16;
    if items != [] {
      var front, last := items[..|items| - 1], items[|items| - 1];
      CounterWraps(front, c, ssrc);
      PacketsWrap(last.nal, c, TotalCount(front), last.ts, ssrc);
    }
  }

  lemma PacketsWrap(nal: bytes, c: nat, n: nat, ts: u32, ssrc: u32)
    ensures Packets(nal, c + n, ts, ssrc) == Packets(nal, Wrap16(c) + n, ts, ssrc)
  {
    hide PacketCount, Wrap16, Header, Payload;
    var xs, ys := Packets(nal, c + n, ts, ssrc), Packets(nal, Wrap16(c) + n, ts, ssrc);
    forall j: nat | j < |xs| ensures xs[j] == ys[j] {
      EmptyTakesNone(nal);
      Wrap16Sum(c, n + j);
    }
  }

  lemma Wrap16Sum(c: nat, n: nat)
    ensures Wrap16(c + n) == Wrap16(Wrap16(c) + n)
  {
  }

  /** The counters from which a stream of `n` packets is safe: it must not use number 0, which
      the filter takes for "nothing seen" and which every stream that wraps does use, nor
      combine a number below 3 with one above 65532, which it takes for a wrap. */
  predicate SafeRange(a: nat, n: nat) {
    var b := Wrap16(a);
    1 <= b && b + n <= 0x1_0000 && (3 <= b || b + n <= 65533)
  }

  /** The exact condition of loss safety, for every counter and every number of packets. */
  lemma LossSafetyExactly(a: nat, n: nat)
    requires n >= 1
    ensures AlwaysFaithful(a, n) <==> SafeRange(a, n)
  {
    if SafeRange(a, n) {
      forall items: seq<Item>, ssrc: u32, order: seq<nat> |
        AllCarriable(items) && TotalCount(items) == n && Possible(items, order) && |StreamPackets(items, a, ssrc)| == n
        ensures Faithful(items, a, ssrc, order) {
        LossSafety(items, Wrap16(a), ssrc, order);
        CounterWraps(items, a, ssrc);
      }
    } else {
      UnsafeRange(a, n);
    }
  }

  lemma UnsafeRange(a: nat, n: nat)
    requires n >= 1 && !SafeRange(a, n)
    ensures !AlwaysFaithful(a, n)
  {
    hide Handle, HandleAll, StreamPackets, Explains, Faithful;
    var b := Wrap16(a);
    var i := if b == 0 then 0 else if b + n > 0x1_0000 then 0x1_0000 - b else n - 1;
    Wrap16Sum(a, i);
    ProbeCount(n, n);
    assert Probe(n)[..n] == Probe(n);
    ProbeTwice(n, a, 0, i);
  }

  // ----- loss alone mixes two units across a wrap

  /** A unit of two fragments, 65534 one-packet units, and another unit of two fragments. */
  predicate TwoRounds(items: seq<Item>) {
    && |items| == 65536 && AllCarriable(items)
    && PacketCount(items[0].nal) == 2 && PacketCount(items[65535].nal) == 2
    && (forall i :: 0 < i < 65535 ==> PacketCount(items[i].nal) == 1)
  }

  lemma {:induction false} TwoRoundsCount(items: seq<Item>, k: nat)
    requires TwoRounds(items) && 1 <= k <= 65535
    ensures TotalCount(items[..k]) == k + 1
  {
    hide PacketCount;
    CountStep(items, k - 1);
    if k == 1 {
      assert items[..0] == [];
    } else {
      TwoRoundsCount(items, k - 1);
    }
  }

  /** From number 65532: the packets lost are 65533, 65534 and 65535, and no others. */
  function ThreeLost(k: nat): seq<nat> {
    [0] + seq(k, i requires 0 <= i < k => i + 4)
  }

  lemma FilteredAfter65532(s: State, packet: bytes)
    requires s.lastSeq == 65532 && |packet| > HEADER && Parse(packet).sn <= 65532
    ensures Handle(s, packet) == s
  {
  }

  /** The whole next round, numbers 0 to 65532, is taken for duplicates. */
  lemma {:induction false} RoundFiltered(items: seq<Item>, ssrc: u32, k: nat)
    requires TwoRounds(items) && k <= 65533 && TotalCount(items) == 65538 == |StreamPackets(items, 65532, ssrc)|
    requires Handle(Fresh(), StreamPackets(items, 65532, ssrc)[0]).lastSeq == 65532
    ensures HandleAll(Fresh(), Delivered(StreamPackets(items, 65532, ssrc), ThreeLost(k)))
         == Handle(Fresh(), StreamPackets(items, 65532, ssrc)[0])
  {
    hide Handle, HandleAll, StreamPackets, TotalCount, TwoRounds, ThreeLost;
    var ps := StreamPackets(items, 65532, ssrc);
    LostBounds(k);
    var all := Delivered(ps, ThreeLost(k));
    if k == 0 {
      assert all == [ps[0]];
      HandleAllLast(Fresh(), all);
    } else {
      LostBounds(k - 1);
      RoundFiltered(items, ssrc, k - 1);
      assert all[..k] == Delivered(ps, ThreeLost(k - 1)) && all[k] == ps[k + 3];
      HandleAllLast(Fresh(), all);
      NextRoundFiltered(items, ssrc, k + 3, Handle(Fresh(), ps[0]));
    }
  }

  lemma LostBounds(k: nat)
    ensures |ThreeLost(k)| == k + 1 && ThreeLost(k)[0] == 0
    ensures forall i :: 0 < i <= k ==> ThreeLost(k)[i] == i + 3
  {
  }

  /** One packet of the next round. */
  lemma NextRoundFiltered(items: seq<Item>, ssrc: u32, i: nat, s: State)
    requires 4 <= i <= 65536 && TotalCount(items) == 65538 == |StreamPackets(items, 65532, ssrc)| && s.lastSeq == 65532
    ensures Handle(s, StreamPackets(items, 65532, ssrc)[i]) == s
  {
    hide Handle, StreamPackets, Parse, TotalCount, Where;
    ArrivesAs(items, 65532, ssrc, i);
    FilteredAfter65532(s, StreamPackets(items, 65532, ssrc)[i]);
  }

  lemma TwoRoundsPlaces(items: seq<Item>, ssrc: u32)
    requires TwoRounds(items)
    ensures TotalCount(items) == 65538 == |StreamPackets(items, 65532, ssrc)|
    ensures StreamPackets(items, 65532, ssrc)[0] == Packet(items[0].nal, 0, 65532, items[0].ts, ssrc)
    ensures StreamPackets(items, 65532, ssrc)[65537]
            == Packet(items[65535].nal, 1, 65532 + 65536, items[65535].ts, ssrc)
  {
    hide PacketCount, Packet, StreamPackets;
    TwoRoundsCount(items, 65535);
    CountStep(items, 65535);
    assert items[..65536] == items && items[..0] == [];
    WhereUnique(items, 0, 0);
    WhereUnique(items, 65535, 1);
    WhereIs(items, 0, 65532, ssrc);
    WhereIs(items, 65537, 65532, ssrc);
  }

  /** The second half of one unit completes the first half of another. */
  lemma GluesHalves(s: State, x: bytes, y: bytes, ts: u32, ssrc: u32)
    requires Fragment(x, 0) && PacketCount(x) == 2 && Fragment(y, 1) && PacketCount(y) == 2
    requires s == Midway(Fresh(), x, 65532, 1)
    ensures |x| > 1383 && |y| > 1383
    ensures Handle(s, Packet(y, 1, 65532 + 65536, ts, ssrc)).frames == [START_CODE + (x[..1383] + y[1383..])]
  {
    hide Process, Packet, PacketCount, Single, TakeFuNext, Glued;
    FragmentCountAtLeastTwo(x);
    FragmentCountAtLeastTwo(y);
    PacketParses(y, 1, 65532 + 65536, ts, ssrc);
    var u, v := UnitAt(x, 65532, 0), Unit(65533, Chunk(y, 1));
    assert s.fu == [u] && u == Unit(65532, [x[0]] + x[1..1383]) && v.data == y[1383..];
    ProcessFragment(s, y, 1, 65533, true);
    TakesSecond(s, u, v, Parsed(true, 65533, Payload(y, 1)));
    GluedPair(u, v);
    assert u.data + v.data == x[..1383] + y[1383..];
  }

  lemma TakesSecond(s: State, u: Unit, v: Unit, p: Parsed)
    requires s.fu == [u] && s.startSeq == u.sn == 65532 && s.expectedSeq == v.sn == p.sn == 65533
    requires s.frame == [] && s.frames == [] && |p.payload| > 2 && p.payload[2..] == v.data && IsFuEnd(p.payload[1])
             && p.marker
    ensures TakeFuNext(s, p).frames == [START_CODE + Glued([u, v])]
  {
    hide Complete, Glued, InsertUnit, IsFuEnd;
    InsertBetween([u], [], v);
    assert [u] + [] == [u] && [u] + [v] + [] == [u, v];
    var s1 := s.(fu := [u, v], expectedSeq := Wrap16(p.sn + 1));
    PairComplete(s1, 65533);
    var unit := START_CODE + Glued([u, v]);
    assert [] + unit == unit && [] + [unit] == [unit];
  }

  lemma GluedPair(u: Unit, v: Unit)
    ensures Glued([u, v]) == u.data + v.data
  {
    assert [u, v][1..] == [v] && [v][1..] == [];
    assert Glued([v]) == v.data + Glued([]);
  }

  lemma PairComplete(s: State, sn: u16)
    requires |s.fu| == 2 && s.fu[0].sn == s.startSeq && s.fu[1].sn == sn == s.startSeq + 1 < 65535
    ensures Complete(s, sn)
  {
    assert s.fu[1..] == [s.fu[1]] && s.fu[1..][1..] == [];
  }

  /** Loss safety fails across a wrap without any duplicate or reordering: with three packets
      lost out of 65538, a frame is the front of one unit and the back of another. */
  lemma LossMixesUnits(items: seq<Item>, ssrc: u32)
    requires TwoRounds(items)
    ensures TotalCount(items) == 65538 == |StreamPackets(items, 65532, ssrc)| && Possible(items, ThreeLost(65534))
    ensures var x, y := items[0].nal, items[65535].nal;
            && |x| > 1383 && |y| > 1383
            && HandleAll(Fresh(), Delivered(StreamPackets(items, 65532, ssrc), ThreeLost(65534))).frames
               == [START_CODE + (x[..1383] + y[1383..])]
  {
    hide Handle, StreamPackets, TotalCount, Packet, Midway, HandleAll;
    TwoRoundsPlaces(items, ssrc);
    TwoRoundsFragments(items);
    var ps := StreamPackets(items, 65532, ssrc);
    var s := Midway(Fresh(), items[0].nal, 65532, 1);
    FirstFragment(Fresh(), items[0].nal, 65532, items[0].ts, ssrc);
    MidwayLast(items[0].nal);
    RoundFiltered(items, ssrc, 65533);
    var all := Delivered(ps, ThreeLost(65534));
    assert all[..65534] == Delivered(ps, ThreeLost(65533)) && all[65534] == ps[65537];
    HandleAllLast(Fresh(), all);
    GluesHalves(s, items[0].nal, items[65535].nal, items[65535].ts, ssrc);
  }

  lemma TwoRoundsFragments(items: seq<Item>)
    requires TwoRounds(items)
    ensures Fragment(items[0].nal, 0) && Fragment(items[65535].nal, 1)
  {
  }

  lemma MidwayLast(nal: bytes)
    requires nal != [] && PacketCount(nal) == 2
    ensures Midway(Fresh(), nal, 65532, 1).lastSeq == 65532
  {
  }

  lemma {:induction false} BodyStarts(items: seq<Item>, idx: seq<nat>)
    requires InRange(items, idx) && idx != []
    ensures START_CODE + items[idx[0]].nal <= Body(items, idx)
  {
    if |idx| == 1 {
      assert idx[..0] == [] && Body(items, idx) == [] + START_CODE + items[idx[0]].nal;
    } else {
      BodyStarts(items, idx[..|idx| - 1]);
    }
  }

  /** Such a stream, and the same delivery of it, are outside what loss safety allows. */
  function Mixture(): seq<Item> {
    seq(65536, i => Item(if i == 0 then seq(1386, _ => 2) else if i == 65535 then seq(1386, _ => 3) else [1], 0))
  }

  lemma MixtureUnfaithful(ssrc: u32)
    ensures AllCarriable(Mixture()) && TotalCount(Mixture()) == 65538 == |StreamPackets(Mixture(), 65532, ssrc)|
    ensures Possible(Mixture(), ThreeLost(65534)) && !Faithful(Mixture(), 65532, ssrc, ThreeLost(65534))
  {
    hide HandleAll, StreamPackets, TotalCount, Body, Listed, Increasing;
    var items := Mixture();
    assert TwoRounds(items);
    LossMixesUnits(items, ssrc);
    var frame := START_CODE + (items[0].nal[..1383] + items[65535].nal[1383..]);
    assert frame[4] == 2 && frame[1387] == 3;
    forall t: Trace ensures !(|t.frames| == 1 && InRange(items, t.frames[0]) && Body(items, t.frames[0]) == frame) {
      if |t.frames| == 1 && InRange(items, t.frames[0]) && Body(items, t.frames[0]) == frame {
        MixtureBody(t.frames[0], frame);
      }
    }
  }

  lemma MixtureBody(idx: seq<nat>, frame: bytes)
    requires InRange(Mixture(), idx) && |frame| > 1387 && frame[4] == 2 && frame[1387] == 3
    ensures Body(Mixture(), idx) != frame
  {
    if idx != [] {
      var first := START_CODE + Mixture()[idx[0]].nal;
      BodyStarts(Mixture(), idx);
      assert first[4] == Mixture()[idx[0]].nal[0];
      if idx[0] == 0 { assert first[1387] == 2; }
    }
  }
}
