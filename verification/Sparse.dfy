/** What does come out after loss: for every delivery of one stream, in whatever order and however
    often, exactly which units and which frames, said on the numbers of the packets alone. */
module Sparse {
  import opened Words
  import opened Rtp
  import opened Reassembler
  import opened Lossless
  import opened Lossy

  // ----- what is kept

  /** Every packet of the unit is among those that arrived. */
  predicate Arrived(items: seq<Item>, n: nat, order: seq<nat>)
    requires n < |items|
  {
    forall i :: TotalCount(items[..n]) <= i < TotalCount(items[..n]) + PacketCount(items[n].nal) ==> i in order
  }

  /** It fits one packet, or is at most 1024 fragments that stay clear of number 65535. */
  predicate Carried(items: seq<Item>, a: nat, n: nat)
    requires n < |items|
  {
    var m := PacketCount(items[n].nal);
    m == 1 || (m <= 1024 && a + TotalCount(items[..n]) + m <= 65535)
  }

  predicate Whole(items: seq<Item>, a: nat, n: nat, order: seq<nat>)
    requires n < |items|
  {
    Arrived(items, n, order) && Carried(items, a, n)
  }

  predicate Placed(items: seq<Item>, i: nat) {
    i < TotalCount(items) && Where(items, i).n < |items|
    && Where(items, i).j < PacketCount(items[Where(items, i).n].nal) && items[Where(items, i).n].nal != []
  }

  /** How many fragments are held after these packets: a first fragment opens a row, the others
      join one that is open, and a last fragment, a unit in one packet or a fragment too many ends
      it. */
  function Held(items: seq<Item>, order: seq<nat>): nat
    requires Possible(items, order)
  {
    if order == [] then 0
    else
      var i, held := order[|order| - 1], Held(items, order[..|order| - 1]);
      var l := Where(items, i);
      if !NotLast(items, i) then 0
      else if l.j == 0 then 1
      else if held == 0 || held == 1024 then 0
      else held + 1
  }

  /** What the packets up to the last of `order` leave: a unit is added when its last packet
      arrives and all its packets have; a packet with a marker closes the frame, unless it is the
      fragment too many. */
  function Kept(items: seq<Item>, a: nat, order: seq<nat>): Out
    requires Possible(items, order)
  {
    if order == [] then Out([], [], [], [])
    else
      var front, i := order[..|order| - 1], order[|order| - 1];
      var l := Where(items, i);
      PlacedAll(items, i);
      var nal := items[l.n].nal;
      var o := Kept(items, a, front);
      var o1 := if l.j + 1 == PacketCount(nal) && Whole(items, a, l.n, order) then AddNal(o, nal) else o;
      if Marker(nal, l.j) && (l.j == 0 || Held(items, front) != 1024) then CloseFrame(o1) else o1
  }

  lemma PlacedAll(items: seq<Item>, i: nat)
    requires i < TotalCount(items)
    ensures Placed(items, i) && TotalCount(items[..Where(items, i).n]) + Where(items, i).j == i
  {
    WhereIs(items, i, 0, 0);
  }

  // ----- a row of fragments

  /** All the fragments of a unit up to packet `p`, which is not its last, have arrived, and no
      more than the map takes. */
  predicate SoFar(items: seq<Item>, order: seq<nat>, p: nat) {
    NotLast(items, p) && Where(items, p).j < 1024
    && forall i :: p - Where(items, p).j <= i <= p ==> i in order
  }

  /** The map holds the fragments of that unit and no others. */
  predicate Gathered(s: State, items: seq<Item>, a: nat, p: nat)
    requires NotLast(items, p)
  {
    var l := Where(items, p);
    s.started && l.j <= p && s.startSeq == Wrap16(a + (p - l.j))
    && s.fu == Units(items[l.n].nal, a + (p - l.j), 0, l.j + 1)
  }

  /** The assembler after the packets of `order`, which ascend in small steps. */
  predicate Tracks(s: State, items: seq<Item>, a: nat, order: seq<nat>)
    requires Possible(items, order)
  {
    && Seen(s) == Kept(items, a, order)
    && Held(items, order) == (if s.started then |s.fu| else 0)
    && (order == [] ==> s.lastSeq == 0 && Idle(s))
    && (order != [] ==> Follows(s, items, a, order, order[|order| - 1]))
  }

  predicate Follows(s: State, items: seq<Item>, a: nat, order: seq<nat>, p: nat) {
    && s.lastSeq == Wrap16(a + p)
    && (s.started ==> Collecting(s, items, a, p) && forall u <- s.fu :: u.sn - a in order)
    && (SoFar(items, order, p) ==> Gathered(s, items, a, p))
  }

  // ----- one packet

  lemma KeptStep(items: seq<Item>, a: nat, front: seq<nat>, i: nat)
    requires Possible(items, front) && i < TotalCount(items)
    ensures Placed(items, i) && Possible(items, front + [i])
    ensures var l, order, o := Where(items, i), front + [i], Kept(items, a, front);
            var nal := items[l.n].nal;
            var o1 := if l.j + 1 == PacketCount(nal) && Whole(items, a, l.n, order) then AddNal(o, nal) else o;
            Kept(items, a, order) == if Marker(nal, l.j) && (l.j == 0 || Held(items, front) != 1024)
                                     then CloseFrame(o1) else o1
    ensures Held(items, front + [i]) == if !NotLast(items, i) then 0 else if Where(items, i).j == 0 then 1
                                        else if Held(items, front) == 0 || Held(items, front) == 1024 then 0
                                        else Held(items, front) + 1
  {
    hide Where, TotalCount, PacketCount, AddNal, CloseFrame, Whole, Marker, NotLast;
    PlacedAll(items, i);
    assert (front + [i])[..|front|] == front;
  }

  /** The unit of a single packet is whole. */
  lemma SingleWhole(items: seq<Item>, a: nat, i: nat, order: seq<nat>)
    requires i < TotalCount(items) && i in order && Placed(items, i) && Single(items[Where(items, i).n].nal)
    ensures var l := Where(items, i);
            l.j == 0 && PacketCount(items[l.n].nal) == 1 && Whole(items, a, l.n, order) && !NotLast(items, i)
  {
    hide Where, TotalCount;
    PlacedAll(items, i);
  }

  lemma SingleSeen(s: State, p: Parsed)
    requires p.payload != []
    ensures var o, s' := AddNal(Seen(s), p.payload), TakeSingle(s, p);
            Seen(s') == (if p.marker then CloseFrame(o) else o) && !s'.started
  {
  }

  lemma SingleTracks(s: State, items: seq<Item>, a: nat, front: seq<nat>, i: nat, pk: Parsed)
    requires Possible(items, front) && i < TotalCount(items) && Seen(s) == Kept(items, a, front) && Placed(items, i)
    requires Single(items[Where(items, i).n].nal) && pk == Arriving(items, a, i)
    ensures pk.payload != [] && Possible(items, front + [i])
    ensures Tracks(TakeSingle(s, pk).(lastSeq := Wrap16(a + i)), items, a, front + [i])
  {
    hide Where, TotalCount, Wrap16, Whole, Kept, Held, Seen, TakeSingle, AddNal, CloseFrame;
    KeptStep(items, a, front, i);
    SingleWhole(items, a, i, front + [i]);
    SingleSeen(s, pk);
    SeenAnyLast(TakeSingle(s, pk), Wrap16(a + i));
  }

  lemma SeenAnyLast(s: State, last: u16)
    ensures Seen(s.(lastSeq := last)) == Seen(s)
  {
  }

  /** A packet of a longer unit. */
  predicate Part(items: seq<Item>, a: nat, i: nat) {
    Placed(items, i) && IsFragment(items, i) && a + i < 0x1_0000 && Carriable(items[Where(items, i).n].nal)
  }

  lemma Gather(s: State, items: seq<Item>, a: nat, i: nat)
    requires Part(items, a, i) && Where(items, i).j == 0
    requires s.started && s.startSeq == a + i && s.expectedSeq == Wrap16(a + i + 1)
    requires s.fu == [Entry(items, a, i)] && NotLast(items, i)
    ensures Collecting(s, items, a, i) && Gathered(s, items, a, i)
  {
    hide PacketCount, Single, Chunk, Wrap16;
    WrapSmall16(a + i);
    EntryNumber(items, a, i);
    assert EntryOk(items, a, s.fu[0]);
    assert s.fu == Units(items[Where(items, i).n].nal, a + i, 0, 1);
  }

  lemma FirstTracks(s: State, items: seq<Item>, a: nat, front: seq<nat>, i: nat, pk: Parsed)
    requires Possible(items, front) && Seen(s) == Kept(items, a, front) && Part(items, a, i)
    requires Where(items, i).j == 0 && pk == Arriving(items, a, i)
    ensures |pk.payload| >= 2 && Possible(items, front + [i])
    ensures Tracks(TakeFuStart(s, pk).(lastSeq := Wrap16(a + i)), items, a, front + [i])
  {
    hide Where, TotalCount, Whole, Kept, Held, CloseFrame, PacketCount, Single, Chunk, FuHeader, Collecting, Gathered,
      AddNal, Wrap16;
    var nal := items[Where(items, i).n].nal;
    FragmentCountAtLeastTwo(nal);
    KeptStep(items, a, front, i);
    ProcessFragment(s, nal, 0, pk.sn, false);
    WrapSmall16(a + i);
    var s' := TakeFuStart(s, pk).(lastSeq := Wrap16(a + i));
    assert s'.fu == [Entry(items, a, i)];
    EntryNumber(items, a, i);
    Gather(s', items, a, i);
    assert i in front + [i];
  }

  /** When all fragments up to `i` have arrived, the one before it was the last to arrive. */
  lemma BeforeIt(items: seq<Item>, a: nat, front: seq<nat>, i: nat)
    requires Possible(items, front) && Part(items, a, i) && 0 < Where(items, i).j <= 1024
             && (forall x <- front :: x < i)
    ensures Where(items, i).j <= i
    ensures var l := Where(items, i);
            (forall x :: i - l.j <= x < i ==> x in front) ==>
              i - 1 in front && Where(items, i - 1) == Loc(l.n, l.j - 1) && SoFar(items, front, i - 1)
  {
    hide TotalCount, PacketCount, Single;
    PlacedAll(items, i);
    var l := Where(items, i);
    WhereUnique(items, l.n, l.j - 1);
  }

  /** The fragment of a unit that is not its last leaves what was seen as it was. */
  lemma MiddleKept(items: seq<Item>, a: nat, front: seq<nat>, i: nat)
    requires Possible(items, front) && Part(items, a, i) && NotLast(items, i)
    ensures Possible(items, front + [i]) && Kept(items, a, front + [i]) == Kept(items, a, front)
    ensures Held(items, front + [i]) == if Where(items, i).j == 0 then 1
                                        else if Held(items, front) == 0 || Held(items, front) == 1024 then 0
                                        else Held(items, front) + 1
  {
    hide Where, TotalCount, PacketCount, AddNal, CloseFrame, Whole, Kept, Held;
    KeptStep(items, a, front, i);
  }

  /** The state that `front` left, with `i` the next packet. */
  predicate Ready(s: State, items: seq<Item>, a: nat, front: seq<nat>, i: nat) {
    && Possible(items, front) && Tracks(s, items, a, front) && Part(items, a, i) && Where(items, i).j > 0
    && Soon(front, i)
  }

  /** Packet `i` comes after all of `front`, and at most three after the last of them. */
  predicate Soon(front: seq<nat>, i: nat) {
    forall x <- front :: x <= front[|front| - 1] < i <= front[|front| - 1] + 3
  }

  lemma NotSoFar(s: State, items: seq<Item>, a: nat, front: seq<nat>, i: nat)
    requires Ready(s, items, a, front, i) && Where(items, i).j <= 1024 && Where(items, i).j <= i
    requires forall x :: i - Where(items, i).j <= x < i ==> x in front
    ensures front != [] && front[|front| - 1] == i - 1
    ensures Where(items, i - 1) == Loc(Where(items, i).n, Where(items, i).j - 1)
    ensures SoFar(items, front, i - 1) && Gathered(s, items, a, i - 1)
  {
    hide Where, TotalCount, Kept, Held, PacketCount, Single, SoFar, Gathered;
    BeforeIt(items, a, front, i);
    assert front[|front| - 1] in front;
  }

  lemma GatheredSize(s: State, items: seq<Item>, a: nat, p: nat)
    requires NotLast(items, p) && Gathered(s, items, a, p)
    ensures s.started && |s.fu| == Where(items, p).j + 1
  {
  }

  /** A fragment that finds no row open. */
  lemma IdleTracks(s: State, items: seq<Item>, a: nat, front: seq<nat>, i: nat)
    requires Ready(s, items, a, front, i) && !s.started
    ensures Possible(items, front + [i])
    ensures var marker := Marker(items[Where(items, i).n].nal, Where(items, i).j);
            Tracks(EmitFrame(s, marker).(lastSeq := Wrap16(a + i)), items, a, front + [i])
  {
    hide Where, TotalCount, Kept, Held, PacketCount, Single, SoFar, Gathered, CloseFrame, AddNal, Whole, Seen;
    KeptStep(items, a, front, i);
    var l, s' := Where(items, i), EmitFrame(s, Marker(items[Where(items, i).n].nal, Where(items, i).j));
    if SoFar(items, front + [i], i) { OpenBefore(s, items, a, front, i); }
    if Whole(items, a, l.n, front + [i])
      && l.j + 1 == PacketCount(items[l.n].nal) { WholeBefore(s, items, a, front, i); }
    IdleStays(s, Marker(items[l.n].nal, l.j));
    EmitSeen(s);
    SeenAnyLast(s', Wrap16(a + i));
  }

  lemma OpenBefore(s: State, items: seq<Item>, a: nat, front: seq<nat>, i: nat)
    requires Ready(s, items, a, front, i) && SoFar(items, front + [i], i)
    ensures s.started && |s.fu| == Where(items, i).j <= i && front != [] && front[|front| - 1] == i - 1
    ensures Where(items, i - 1) == Loc(Where(items, i).n, Where(items, i).j - 1) && NotLast(items, i - 1)
    ensures Gathered(s, items, a, i - 1)
  {
    hide TotalCount, Kept, Held, PacketCount, Single, Gathered, Where, Tracks;
    BeforeIt(items, a, front, i);
    FrontHas(items, front, i);
    NotSoFar(s, items, a, front, i);
    GatheredSize(s, items, a, i - 1);
  }

  lemma FrontHas(items: seq<Item>, front: seq<nat>, i: nat)
    requires Soon(front, i)
    ensures forall x :: x in front + [i] && x < i ==> x in front
  {
  }

  lemma WholeBefore(s: State, items: seq<Item>, a: nat, front: seq<nat>, i: nat)
    requires Ready(s, items, a, front, i)
    requires Whole(items, a, Where(items, i).n, front + [i]) && !NotLast(items, i)
    ensures s.started && |s.fu| == Where(items, i).j <= i && front != [] && front[|front| - 1] == i - 1
    ensures Where(items, i - 1) == Loc(Where(items, i).n, Where(items, i).j - 1) && NotLast(items, i - 1)
    ensures Gathered(s, items, a, i - 1) && |s.fu| < 1024
  {
    hide TotalCount, Kept, Held, PacketCount, Single, Gathered, Where, Tracks;
    PlacedAll(items, i);
    BeforeIt(items, a, front, i);
    FrontHas(items, front, i);
    NotSoFar(s, items, a, front, i);
    GatheredSize(s, items, a, i - 1);
  }

  lemma {:induction false} HeldBound(items: seq<Item>, order: seq<nat>)
    requires Possible(items, order)
    ensures Held(items, order) <= 1024
  {
    if order != [] { HeldBound(items, order[..|order| - 1]); }
  }

  /** The map with a later fragment added. */
  function Joined(s: State, items: seq<Item>, a: nat, i: nat): State
    requires IsFragment(items, i)
  {
    s.(fu := s.fu + [Entry(items, a, i)], expectedSeq := Wrap16(a + i + 1))
  }

  /** What a later fragment does when a row is open. */
  lemma Joins(s: State, items: seq<Item>, a: nat, front: seq<nat>, i: nat, pk: Parsed)
    requires Ready(s, items, a, front, i) && s.started && pk == Arriving(items, a, i)
    ensures |pk.payload| >= 2 && NalType(pk.payload[1]) == NalType(items[Where(items, i).n].nal[0])
    ensures var s1 := Joined(s, items, a, i);
            TakeFuNext(s, pk) == if |s1.fu| > 1024 then ResetFu(s1)
                                 else if NotLast(items, i) then EmitFrame(s1, pk.marker)
                                 else EmitFrame(if Complete(s1, pk.sn)
                                                then ResetFu(AppendNal(s1, NalType(pk.payload[1]),
                                                  START_CODE + Glued(s1.fu)))
                                                else ResetFu(s1), pk.marker)
    ensures pk.sn == a + i && pk.marker == !NotLast(items, i)
  {
    hide TotalCount, Kept, Held, PacketCount, Single, Gathered, Where, Chunk, FuHeader, InsertUnit, Contiguous, Glued,
      Complete, SoFar, EmitFrame, AppendNal;
    var l, p := Where(items, i), front[|front| - 1];
    ProcessFragment(s, items[l.n].nal, l.j, pk.sn, pk.marker);
    WrapSmall16(a + i);
    assert p in front;
    CollectMore(s, items, a, p, i);
    LaterUnit(items[l.n].nal, 0, l.j);
  }

  /** The fragments gathered so far and the next one of the same unit. */
  lemma GatherMore(s: State, items: seq<Item>, a: nat, i: nat)
    requires Part(items, a, i) && 0 < Where(items, i).j <= i && NotLast(items, i - 1)
    requires Where(items, i - 1) == Loc(Where(items, i).n, Where(items, i).j - 1) && Gathered(s, items, a, i - 1)
    ensures var l, s1 := Where(items, i), Joined(s, items, a, i);
            && s1.started && s1.startSeq == Wrap16(a + (i - l.j))
            && s1.fu == Units(items[l.n].nal, a + (i - l.j), 0, l.j + 1)
  {
    hide TotalCount, PacketCount, Single, Where, Chunk, Wrap16;
    var l := Where(items, i);
    UnitsSnoc(items[l.n].nal, a + (i - l.j), 0, l.j);
    assert a + (i - l.j) + l.j == a + i;
    assert Entry(items, a, i) == UnitAt(items[l.n].nal, a + (i - l.j), l.j);
  }

  lemma JoinedCollects(s: State, items: seq<Item>, a: nat, front: seq<nat>, i: nat)
    requires Ready(s, items, a, front, i) && s.started && NotLast(items, i)
    ensures Collecting(Joined(s, items, a, i), items, a, i)
    ensures forall u <- Joined(s, items, a, i).fu :: u.sn - a in front + [i]
  {
    hide TotalCount, Kept, Held, PacketCount, Single, Gathered, Where, SoFar, UnitAt, Seen;
    assert front[|front| - 1] in front;
    EntryNumber(items, a, i);
    assert EntryOk(items, a, Entry(items, a, i));
  }

  lemma MiddleTracks(s: State, items: seq<Item>, a: nat, front: seq<nat>, i: nat, pk: Parsed)
    requires Ready(s, items, a, front, i) && s.started && NotLast(items, i) && pk == Arriving(items, a, i)
    ensures |pk.payload| >= 2 && Possible(items, front + [i])
    ensures Tracks(TakeFuNext(s, pk).(lastSeq := Wrap16(a + i)), items, a, front + [i])
  {
    hide TotalCount, Kept, Held, PacketCount, Single, Gathered, Where, SoFar, Collecting, TakeFuNext, AppendNal,
      Complete,
      Glued;
    Joins(s, items, a, front, i, pk);
    HeldBound(items, front);
    MiddleKept(items, a, front, i);
    var s1 := Joined(s, items, a, i);
    JoinedCollects(s, items, a, front, i);
    CollectingAnyLast(s1, items, a, i, Wrap16(a + i));
    FrontEnd(s, items, a, front, i);
    if SoFar(items, front + [i], i) {
      OpenBefore(s, items, a, front, i);
      SoFarFew(items, front + [i], i);
      GatherMore(s, items, a, i);
      GatheredIs(s1.(lastSeq := Wrap16(a + i)), items, a, i);
    }
  }

  lemma FrontEnd(s: State, items: seq<Item>, a: nat, front: seq<nat>, i: nat)
    requires Ready(s, items, a, front, i) && s.started
    ensures Held(items, front) == |s.fu| > 0 && Seen(s) == Kept(items, a, front)
  {
    hide TotalCount, Kept, Held, PacketCount, Single, Gathered, Where, SoFar, Seen;
  }

  lemma SoFarFew(items: seq<Item>, order: seq<nat>, p: nat)
    requires SoFar(items, order, p)
    ensures Where(items, p).j < 1024 && NotLast(items, p)
  {
  }

  lemma GatheredIs(s: State, items: seq<Item>, a: nat, p: nat)
    requires NotLast(items, p) && Where(items, p).j <= p
    requires var l := Where(items, p);
             s.started && s.startSeq == Wrap16(a + (p - l.j))
             && s.fu == Units(items[l.n].nal, a + (p - l.j), 0, l.j + 1)
    ensures Gathered(s, items, a, p)
  {
  }

  /** When the map passes the completeness check, all of the unit has arrived. */
  lemma CompleteArrived(s: State, items: seq<Item>, a: nat, front: seq<nat>, i: nat)
    requires Ready(s, items, a, front, i) && s.started && !NotLast(items, i)
    requires |s.fu| < 1024 && Complete(Joined(s, items, a, i), a + i)
    ensures Whole(items, a, Where(items, i).n, front + [i])
  {
    hide TotalCount, Kept, Held, PacketCount, Single, Gathered, Where, SoFar, UnitAt, Seen, Contiguous;
    hide Complete;
    assert front[|front| - 1] in front;
    EntryNumber(items, a, i);
    assert Completed(Joined(s, items, a, i), items, a, i);
    CompletedWhole(Joined(s, items, a, i), items, a, front, i);
  }

  lemma CompletedWhole(s: State, items: seq<Item>, a: nat, front: seq<nat>, i: nat)
    requires Completed(s, items, a, i) && forall k :: 0 <= k < |s.fu| - 1 ==> s.fu[k].sn - a in front
    ensures Whole(items, a, Where(items, i).n, front + [i])
  {
    hide TotalCount, PacketCount, Single, Where, UnitAt, Contiguous, Complete, NotLast, IsFragment, EntryOk;
    CompletedEntries(s, items, a, i);
    var first := s.startSeq - a;
    SpanIsUnit(items, first, i);
    forall k | first <= k <= i ensures k in front + [i] {
      EntryNumber(items, a, k);
    }
    CompleteClear(s, a + i);
  }

  /** A complete run does not end at 65535. */
  lemma CompleteClear(s: State, sn: u16)
    requires Complete(s, sn) && s.fu != [] && sn == s.startSeq + |s.fu| - 1
    ensures s.startSeq + |s.fu| <= 65535
  {
  }

  lemma WholeComplete(s: State, items: seq<Item>, a: nat, front: seq<nat>, i: nat)
    requires Ready(s, items, a, front, i) && !NotLast(items, i)
    requires Whole(items, a, Where(items, i).n, front + [i])
    ensures s.started && |s.fu| < 1024
    ensures var s1 := Joined(s, items, a, i);
            Complete(s1, a + i) && Glued(s1.fu) == items[Where(items, i).n].nal
  {
    hide TotalCount, Kept, Held, PacketCount, Single, Gathered, Where, SoFar, UnitAt, Tracks, Complete, Glued, Units;
    PlacedAll(items, i);
    WholeBefore(s, items, a, front, i);
    GatherMore(s, items, a, i);
    var nal, m, c := items[Where(items, i).n].nal, Where(items, i).j + 1, a + (i - Where(items, i).j);
    WrapSmall16(c);
    WrapSmall16(a + i);
    FragmentCountAtLeastTwo(nal);
    assert MapAfter(nal, c, m) == Units(nal, c, 0, m);
    WholeRunComplete(Joined(s, items, a, i), nal, c);
  }

  lemma AddNalSeen(s: State, nal: bytes, t: int)
    requires nal != [] && t == NalType(nal[0])
    ensures var s' := EmitFrame(ResetFu(AppendNal(s, t, START_CODE + nal)), true);
            Seen(s') == CloseFrame(AddNal(Seen(s), nal)) && !s'.started
  {
    hide AppendNal, EmitFrame, AddNal, CloseFrame, Seen;
    AppendSeen(s, nal);
    ResetSeen(AppendNal(s, t, START_CODE + nal));
    EmitSeen(ResetFu(AppendNal(s, t, START_CODE + nal)));
  }

  lemma ResetEmitSeen(s: State)
    ensures var s' := EmitFrame(ResetFu(s), true);
            Seen(s') == CloseFrame(Seen(s)) && !s'.started
  {
    ResetSeen(s);
    EmitSeen(ResetFu(s));
  }

  lemma LastTracks(s: State, items: seq<Item>, a: nat, front: seq<nat>, i: nat, pk: Parsed)
    requires Ready(s, items, a, front, i) && s.started && !NotLast(items, i) && pk == Arriving(items, a, i)
    ensures |pk.payload| >= 2 && Possible(items, front + [i])
    ensures Tracks(TakeFuNext(s, pk).(lastSeq := Wrap16(a + i)), items, a, front + [i])
  {
    hide TotalCount, Kept, Held, PacketCount, Single, Gathered, Where, Collecting, TakeFuNext, AppendNal, Complete,
      Glued, Seen, EmitFrame, CloseFrame, AddNal, Whole;
    Joins(s, items, a, front, i, pk);
    HeldBound(items, front);
    FrontEnd(s, items, a, front, i);
    KeptStep(items, a, front, i);
    var s1, nal := Joined(s, items, a, i), items[Where(items, i).n].nal;
    SameSeen(s, items, a, i);
    if Whole(items, a, Where(items, i).n, front + [i]) {
      WholeComplete(s, items, a, front, i);
      AddNalSeen(s1, nal, NalType(pk.payload[1]));
    } else {
      if |s1.fu| <= 1024 && Complete(s1, pk.sn) { CompleteArrived(s, items, a, front, i); }
      ResetSeen(s1);
      ResetEmitSeen(s1);
    }
    SeenAnyLast(TakeFuNext(s, pk), Wrap16(a + i));
  }

  lemma SameSeen(s: State, items: seq<Item>, a: nat, i: nat)
    requires IsFragment(items, i)
    ensures Seen(Joined(s, items, a, i)) == Seen(s)
  {
  }

  // ----- rows of packets

  lemma PacketTracks(s: State, items: seq<Item>, a: nat, ssrc: u32, front: seq<nat>, i: nat)
    requires AllCarriable(items) && a + TotalCount(items) <= 0x1_0000 && i < TotalCount(items)
    requires Possible(items, front) && Tracks(s, items, a, front) && Soon(front, i)
    ensures |StreamPackets(items, a, ssrc)| == TotalCount(items) && Possible(items, front + [i])
    ensures Tracks(Handle(s, StreamPackets(items, a, ssrc)[i]), items, a, front + [i])
  {
    hide TotalCount, Kept, Held, PacketCount, Where, Collecting, Process, StreamPackets, Parse, Gathered, SoFar,
      TakeFuNext,
      TakeFuStart, TakeSingle, EmitFrame, Seen, Wrap16;
    ArrivesAs(items, a, ssrc, i);
    Passes(s, items, a, front, i);
    WrapSmall16(a + i);
    var l, pk := Where(items, i), Arriving(items, a, i);
    var nal := items[l.n].nal;
    assert Handle(s, StreamPackets(items, a, ssrc)[i]) == Process(s, pk).(lastSeq := a + i);
    if Single(nal) {
      ProcessSingle(s, pk);
      SingleTracks(s, items, a, front, i, pk);
    } else {
      ProcessFragment(s, nal, l.j, pk.sn, pk.marker);
      if l.j == 0 {
        FirstTracks(s, items, a, front, i, pk);
      } else if !s.started {
        IdleTracks(s, items, a, front, i);
      } else if NotLast(items, i) {
        MiddleTracks(s, items, a, front, i, pk);
      } else {
        LastTracks(s, items, a, front, i, pk);
      }
    }
  }

  lemma ProcessSingle(s: State, p: Parsed)
    requires Carriable(p.payload)
    ensures Process(s, p) == TakeSingle(s, p)
  {
  }

  /** A step of at most three passes the filter. */
  lemma Passes(s: State, items: seq<Item>, a: nat, front: seq<nat>, i: nat)
    requires Possible(items, front) && Tracks(s, items, a, front) && Soon(front, i) && a + i < 0x1_0000
    ensures !Duplicate(s.lastSeq, Wrap16(a + i)) && !LargeGap(s.lastSeq, Wrap16(a + i))
  {
    hide TotalCount, Kept, Held, PacketCount, Where, Collecting, Gathered, SoFar, Seen;
    if front != [] { assert front[|front| - 1] in front; }
  }

  predicate SmallSteps(order: seq<nat>) {
    forall k :: 0 <= k < |order| - 1 ==> order[k] < order[k + 1] <= order[k] + 3
  }

  predicate Ascending(order: seq<nat>) {
    forall k :: 0 <= k < |order| - 1 ==> order[k] < order[k + 1]
  }

  lemma {:induction false} LastIsLargest(order: seq<nat>)
    requires Ascending(order)
    ensures forall x <- order :: x <= order[|order| - 1]
  {
    if |order| > 1 {
      var last := |order| - 1;
      assert order[last] == order[last - 1 + 1];
      LastIsLargest(order[..last]);
      assert order == order[..last] + [order[last]];
    }
  }

  lemma FrontAscends(order: seq<nat>)
    requires Ascending(order) && order != []
    ensures Ascending(order[..|order| - 1]) && order[..|order| - 1] + [order[|order| - 1]] == order
    ensures |order| > 1 ==> order[|order| - 2] < order[|order| - 1]
    ensures SmallSteps(order) ==> SmallSteps(order[..|order| - 1]) && Soon(order[..|order| - 1], order[|order| - 1])
  {
    var front := order[..|order| - 1];
    forall k | 0 <= k < |front| - 1 ensures front[k] < front[k + 1] {}
    LastIsLargest(front);
    if |order| > 1 { assert order[|order| - 1] == order[|order| - 2 + 1]; }
  }

  lemma DeliveredFront(ps: seq<bytes>, order: seq<nat>)
    requires order != [] && forall k :: 0 <= k < |order| ==> order[k] < |ps|
    ensures Delivered(ps, order)[..|order| - 1] == Delivered(ps, order[..|order| - 1])
    ensures HandleAll(Fresh(), Delivered(ps, order))
         == Handle(HandleAll(Fresh(), Delivered(ps, order[..|order| - 1])), ps[order[|order| - 1]])
  {
    hide Handle;
    assert Delivered(ps, order)[..|order| - 1] == Delivered(ps, order[..|order| - 1]);
  }

  /** In small steps the assembler is always where the numbers say. */
  lemma {:induction false} RowTracks(items: seq<Item>, a: nat, ssrc: u32, order: seq<nat>)
    requires AllCarriable(items) && a + TotalCount(items) <= 0x1_0000 && Possible(items, order) && SmallSteps(order)
    ensures |StreamPackets(items, a, ssrc)| == TotalCount(items)
    ensures Tracks(HandleAll(Fresh(), Delivered(StreamPackets(items, a, ssrc), order)), items, a, order)
  {
    hide Handle, StreamPackets, TotalCount, Tracks;
    StreamLength(items, a, ssrc);
    var ps := StreamPackets(items, a, ssrc);
    if order == [] {
      assert Delivered(ps, order) == [];
      StartsTracked(items, a);
    } else {
      var last := |order| - 1;
      FrontAscends(order);
      DeliveredFront(ps, order);
      RowTracks(items, a, ssrc, order[..last]);
      PacketTracks(HandleAll(Fresh(), Delivered(ps, order[..last])), items, a, ssrc, order[..last], order[last]);
    }
  }

  lemma StartsTracked(items: seq<Item>, a: nat)
    ensures Possible(items, []) && Tracks(Fresh(), items, a, [])
  {
    hide TotalCount;
  }

  // ----- which units

  lemma EndOf(items: seq<Item>, n: nat)
    requires n < |items|
    ensures TotalCount(items[..n + 1]) == TotalCount(items[..n]) + PacketCount(items[n].nal) <= TotalCount(items)
  {
    hide PacketCount;
    Lossy.CountStep(items, n);
    CountMonotone(items, n + 1);
  }

  /** A unit all of whose packets arrived, the last of them not before. */
  lemma NewlyArrived(items: seq<Item>, front: seq<nat>, i: nat, n: nat)
    requires AllCarriable(items) && n < |items| && i < TotalCount(items) && (forall x <- front :: x < i)
    requires Arrived(items, n, front + [i]) && !Arrived(items, n, front)
    ensures Where(items, i) == Loc(n, PacketCount(items[n].nal) - 1)
  {
    hide TotalCount, PacketCount, Where;
    EndOf(items, n);
    SomePacket(items, n);
    var end := TotalCount(items[..n]) + PacketCount(items[n].nal) - 1;
    var k :| TotalCount(items[..n]) <= k <= end && k !in front;
    assert k in front + [i] && end in front + [i];
    WhereUnique(items, n, PacketCount(items[n].nal) - 1);
  }

  lemma SomePacket(items: seq<Item>, n: nat)
    requires AllCarriable(items) && n < |items|
    ensures PacketCount(items[n].nal) > 0
  {
    if !Single(items[n].nal) { FragmentCountAtLeastTwo(items[n].nal); }
  }

  lemma StaysArrived(items: seq<Item>, front: seq<nat>, i: nat, n: nat)
    requires n < |items| && Arrived(items, n, front)
    ensures Arrived(items, n, front + [i])
  {
  }

  /** A unit that arrived ended at or before the last packet. */
  lemma EndedBefore(items: seq<Item>, order: seq<nat>, n: nat, i: nat)
    requires AllCarriable(items) && n < |items| && Arrived(items, n, order) && forall x <- order :: x < i
    ensures TotalCount(items[..n + 1]) <= i
  {
    hide TotalCount, PacketCount;
    EndOf(items, n);
    SomePacket(items, n);
    assert TotalCount(items[..n]) + PacketCount(items[n].nal) - 1 in order;
  }

  ghost predicate Lists(idx: seq<nat>, items: seq<Item>, a: nat, order: seq<nat>) {
    Increasing(idx) && forall n: nat :: n in idx <==> n < |items| && Whole(items, a, n, order)
  }

  lemma ListsMore(idx: seq<nat>, items: seq<Item>, a: nat, front: seq<nat>, i: nat) returns (idx': seq<nat>)
    requires AllCarriable(items) && Lists(idx, items, a, front) && i < TotalCount(items) && Placed(items, i)
    requires forall x <- front :: x < i
    ensures Lists(idx', items, a, front + [i])
    ensures var l := Where(items, i);
            idx' == if l.j + 1 == PacketCount(items[l.n].nal)
              && Whole(items, a, l.n, front + [i]) then idx + [l.n] else idx
  {
    hide TotalCount, PacketCount, Where, Arrived, Carried;
    var l := Where(items, i);
    PlacedAll(items, i);
    EndOf(items, l.n);
    idx' := if l.j + 1 == PacketCount(items[l.n].nal) && Whole(items, a, l.n, front + [i]) then idx + [l.n] else idx;
    forall n: nat | n < |items| && Whole(items, a, n, front + [i]) ensures n in idx' {
      if !Arrived(items, n, front) { NewlyArrived(items, front, i, n); }
    }
    forall n | n in idx ensures Whole(items, a, n, front + [i]) && (|idx'| > |idx| ==> n < l.n) {
      StaysArrived(items, front, i, n);
      EndedBefore(items, front, n, i);
      if l.n <= n { EndsInOrder(items, l.n, n); }
    }
    forall k | 0 <= k < |idx| ensures |idx'| > |idx| ==> idx[k] < l.n { assert idx[k] in idx; }
    assert Increasing(idx');
  }

  lemma {:induction false} KeptUnits(items: seq<Item>, a: nat, order: seq<nat>) returns (idx: seq<nat>)
    requires AllCarriable(items) && Possible(items, order) && Ascending(order)
    ensures Lists(idx, items, a, order) && InRange(items, idx) && AllBytes(Kept(items, a, order)) == Body(items, idx)
  {
    hide TotalCount, PacketCount, Where, Whole, Kept, AllBytes, Body, Lists;
    if order == [] {
      idx := [];
      NoneKept(items, a);
    } else {
      var front, i := order[..|order| - 1], order[|order| - 1];
      FrontAscends(order);
      LastIsLargest(front);
      var idx0 := KeptUnits(items, a, front);
      PlacedAll(items, i);
      idx := ListsMore(idx0, items, a, front, i);
      StepBytes(items, a, front, i, idx0, idx);
    }
  }

  lemma StepBytes(items: seq<Item>, a: nat, front: seq<nat>, i: nat, idx: seq<nat>, idx': seq<nat>)
    requires Possible(items, front) && i < TotalCount(items) && Placed(items, i)
    requires InRange(items, idx) && AllBytes(Kept(items, a, front)) == Body(items, idx)
    requires var l := Where(items, i);
             idx' == if l.j + 1 == PacketCount(items[l.n].nal)
               && Whole(items, a, l.n, front + [i]) then idx + [l.n] else idx
    ensures Possible(items, front + [i]) && InRange(items, idx')
    ensures AllBytes(Kept(items, a, front + [i])) == Body(items, idx')
  {
    hide TotalCount, PacketCount, Where, Whole, Kept, Held, AddNal, CloseFrame, Marker, AllBytes, Body, NotLast;
    var o, l := Kept(items, a, front), Where(items, i);
    KeptStep(items, a, front, i);
    CloseKeepsBytes(o);
    CloseKeepsBytes(AddNal(o, items[l.n].nal));
    BodySnoc(items, idx, l.n);
    AddBytes(o, items[l.n].nal);
  }

  lemma AddBytes(o: Out, nal: bytes)
    requires nal != []
    ensures AllBytes(AddNal(o, nal)) == AllBytes(o) + (START_CODE + nal)
  {
    hide Flatten;
  }

  lemma NoneKept(items: seq<Item>, a: nat)
    requires AllCarriable(items)
    ensures Lists([], items, a, []) && Kept(items, a, []) == Out([], [], [], [])
    ensures AllBytes(Kept(items, a, [])) == [] == Body(items, [])
  {
    NoBytes();
    forall n: nat | n < |items| ensures !Whole(items, a, n, []) {
      SomePacket(items, n);
      var first := TotalCount(items[..n]);
      assert Arrived(items, n, []) ==> first in [];
    }
  }

  /** Packets of one stream in order, with no step of more than three numbers: the units in the
      frames signalled and in the frame under way are exactly the units all of whose packets
      arrived, in order, except those of more than 1024 fragments or with a fragment numbered
      65535. */
  lemma SmallLossExactly(items: seq<Item>, a: nat, ssrc: u32, order: seq<nat>) returns (idx: seq<nat>)
    requires AllCarriable(items) && a + TotalCount(items) <= 0x1_0000 && Possible(items, order) && SmallSteps(order)
    ensures |StreamPackets(items, a, ssrc)| == TotalCount(items)
    ensures InRange(items, idx) && Increasing(idx)
    ensures forall n: nat :: n in idx <==> n < |items| && Arrived(items, n, order) && Carried(items, a, n)
    ensures AllBytes(Seen(HandleAll(Fresh(), Delivered(StreamPackets(items, a, ssrc), order)))) == Body(items, idx)
  {
    hide TotalCount, Kept, Held, HandleAll, StreamPackets, Arrived, Carried, AllBytes, Body;
    RowTracks(items, a, ssrc, order);
    idx := KeptUnits(items, a, order);
  }

  // ----- one input

  predicate OnePacket(nal: bytes) {
    1 <= |nal| <= 1384 && 0 < nal[0] % 32 < 24
  }

  lemma Three(items: seq<Item>)
    requires |items| == 3 && forall k :: 0 <= k < 3 ==> OnePacket(items[k].nal)
    ensures AllCarriable(items) && TotalCount(items) == 3
    ensures forall k :: 0 <= k < 3 ==> Where(items, k) == Loc(k, 0) && TotalCount(items[..k]) == k
  {
    hide Where;
    assert items[..0] == [] && items[..3] == items;
    EndOf(items, 0);
    EndOf(items, 1);
    EndOf(items, 2);
    WhereUnique(items, 0, 0);
    WhereUnique(items, 1, 0);
    WhereUnique(items, 2, 0);
  }

  lemma KeptSingle(items: seq<Item>, a: nat, front: seq<nat>, i: nat)
    requires Possible(items, front) && i < TotalCount(items) && Where(items, i) == Loc(i, 0) && i < |items|
    requires OnePacket(items[i].nal) && TotalCount(items[..i]) == i
    ensures Possible(items, front + [i])
    ensures var nal, o := items[i].nal, AddNal(Kept(items, a, front), items[i].nal);
            Kept(items, a, front + [i])
            == if nal[0] % 32 == 6 || nal[0] % 32 == 7 || nal[0] % 32 == 8 then o else CloseFrame(o)
  {
    hide TotalCount, Where, Kept, Held, AddNal, CloseFrame, NotLast;
    KeptStep(items, a, front, i);
  }

  /** A parameter set, one lost packet and a slice: the frame signalled is both units, each behind
      a start code. */
  lemma OneLost(items: seq<Item>, a: nat, ssrc: u32)
    requires |items| == 3 && a <= 65533 && OnePacket(items[0].nal) && OnePacket(items[1].nal) && OnePacket(items[2].nal)
    requires items[0].nal[0] == 103 && items[2].nal[0] == 101
    ensures |StreamPackets(items, a, ssrc)| == 3
    ensures HandleAll(Fresh(), Delivered(StreamPackets(items, a, ssrc), [0, 2])).frames
         == [[0, 0, 0, 1] + items[0].nal + [0, 0, 0, 1] + items[2].nal]
  {
    hide TotalCount, Where, Kept, Held, HandleAll, StreamPackets, AddNal, CloseFrame, Collecting, Gathered, SoFar;
    var x, z := items[0].nal, items[2].nal;
    Three(items);
    RowSeen(items, a, ssrc, [0, 2]);
    FirstAndThird(items, a);
    TwoClosed(x, z);
  }

  lemma RowSeen(items: seq<Item>, a: nat, ssrc: u32, order: seq<nat>)
    requires AllCarriable(items) && a + TotalCount(items) <= 0x1_0000 && Possible(items, order) && SmallSteps(order)
    ensures |StreamPackets(items, a, ssrc)| == TotalCount(items)
    ensures HandleAll(Fresh(), Delivered(StreamPackets(items, a, ssrc), order)).frames == Kept(items, a, order).frames
  {
    hide HandleAll, StreamPackets, TotalCount, Kept, Held, Follows;
    RowTracks(items, a, ssrc, order);
  }

  lemma FirstAndThird(items: seq<Item>, a: nat)
    requires |items| == 3 && OnePacket(items[0].nal) && OnePacket(items[1].nal) && OnePacket(items[2].nal)
    requires items[0].nal[0] == 103 && items[2].nal[0] == 101
    ensures Possible(items, [0, 2])
    ensures Kept(items, a, [0, 2]) == CloseFrame(AddNal(AddNal(Out([], [], [], []), items[0].nal), items[2].nal))
  {
    hide TotalCount, Where, Kept, Held, AddNal, CloseFrame;
    Three(items);
    NoneKept(items, a);
    KeptSingle(items, a, [], 0);
    KeptSingle(items, a, [0], 2);
    assert [] + [0] == [0] && [0] + [2] == [0, 2];
  }

  lemma TwoClosed(x: bytes, z: bytes)
    requires x != [] && z != []
    ensures CloseFrame(AddNal(AddNal(Out([], [], [], []), x), z)).frames == [[0, 0, 0, 1] + x + [0, 0, 0, 1] + z]
  {
    var first: bytes := [0, 0, 0, 1] + x;
    assert [] + first == first && first + ([0, 0, 0, 1] + z) == first + [0, 0, 0, 1] + z;
  }
}
