/** The stateful H.264 reassembler of the viewer: duplicate and gap filter, FU-A reassembly
    over a map ordered by sequence number, frames emitted at marker bits. */
module Reassembler {
  import opened Words
  import opened Rtp

  const MAX_SEQ_GAP: int := 3
  const MAX_FU_UNITS: int := 1024
  const START_CODE: bytes := [0, 0, 0, 1]

  /** `RtpUnit` */
  datatype Unit = Unit(sn: u16, data: bytes)

  /** The members of `H264RtpReassembler`, with the frames signalled so far.  `fu` lists the
      ordered fragment map in key order. */
  datatype State = State(
    frame: bytes, fu: seq<Unit>, started: bool, lastSeq: u16, startSeq: u16,
    expectedSeq: u16, sps: bytes, pps: bytes, frames: seq<bytes>)

  function Fresh(): State {
    State([], [], false, 0, 0, 0, [], [], [])
  }

  // ----- the ordered map

  /** Insertion into a map ordered by its 16-bit key; an equal key is replaced. */
  function InsertUnit(m: seq<Unit>, u: Unit): seq<Unit> {
    if m == [] then [u]
    else if u.sn < m[0].sn then [u] + m
    else if u.sn == m[0].sn then [u] + m[1..]
    else [m[0]] + InsertUnit(m[1..], u)
  }

  predicate KeysBelow(m: seq<Unit>, sn: int) { forall u <- m :: u.sn < sn }

  predicate KeysAbove(m: seq<Unit>, sn: int) { forall u <- m :: u.sn > sn }

  lemma {:induction false} InsertBetween(a: seq<Unit>, b: seq<Unit>, u: Unit)
    requires KeysBelow(a, u.sn) && KeysAbove(b, u.sn)
    ensures InsertUnit(a + b, u) == a + [u] + b
  {
    if a == [] {
      assert a + b == b;
    } else {
      assert (a + b)[1..] == a[1..] + b && a[0] in a;
      InsertBetween(a[1..], b, u);
    }
  }

  /** The fragments in key order. */
  function Glued(m: seq<Unit>): bytes {
    if m == [] then [] else m[0].data + Glued(m[1..])
  }

  /** The keys, in order, are `from`, `from + 1`, ... on 16-bit words. */
  predicate Contiguous(m: seq<Unit>, from: u16) {
    m == [] || (m[0].sn == from && Contiguous(m[1..], Wrap16(from + 1)))
  }

  // ----- one packet

  function ResetFu(s: State): State {
    s.(fu := [], started := false, expectedSeq := 0, startSeq := 0)
  }

  /** Signal the frame if the marker is set and there is one. */
  function EmitFrame(s: State, marker: bool): State {
    if marker && s.frame != [] then s.(frames := s.frames + [s.frame], frame := []) else s
  }

  /** Append a complete unit to the frame and keep parameter sets. */
  function AppendNal(s: State, nalType: int, unit: bytes): State {
    s.(frame := s.frame + unit,
       sps := if nalType == 7 then unit else s.sps, pps := if nalType == 8 then unit else s.pps)
  }

  function TakeSingle(s: State, p: Parsed): State
    requires p.payload != []
  {
    var s1 := if s.started then ResetFu(s) else s;
    EmitFrame(AppendNal(s1, NalType(p.payload[0]), START_CODE + p.payload), p.marker)
  }

  /** A start fragment; one without data leaves nothing started. */
  function TakeFuStart(s: State, p: Parsed): State
    requires |p.payload| >= 2
  {
    if |p.payload| == 2 then s.(fu := [], started := false, expectedSeq := 0, startSeq := 0)
    else
      var head := RefBits(p.payload[0]) + NalType(p.payload[1]);
      EmitFrame(s.(fu := [Unit(p.sn, [head] + p.payload[2..])], started := true, startSeq := p.sn,
                   expectedSeq := Wrap16(p.sn + 1)), p.marker)
  }

  /** The completeness check compares in plain integers, so a run that ends at 65535 is never
      complete. */
  predicate Complete(s: State, sn: u16) {
    Contiguous(s.fu, s.startSeq) && sn == Wrap16(s.startSeq + |s.fu|) - 1
  }

  /** A middle or end fragment while a unit is under way. */
  function TakeFuNext(s: State, p: Parsed): State
    requires |p.payload| >= 2
  {
    var gap := p.sn - s.expectedSeq;
    if gap < 0 then s
    else if gap > MAX_SEQ_GAP then ResetFu(s)
    else
      var s1 := s.(fu := InsertUnit(s.fu, Unit(p.sn, p.payload[2..])), expectedSeq := Wrap16(p.sn + 1));
      if |s1.fu| > MAX_FU_UNITS then ResetFu(s1)
      else
        var s2 := if !IsFuEnd(p.payload[1]) then s1
                  else if Complete(s1, p.sn) then
                    ResetFu(AppendNal(s1, NalType(p.payload[1]), START_CODE + Glued(s1.fu)))
                  else ResetFu(s1);
        EmitFrame(s2, p.marker)
  }

  /** `_processRtpNalu` */
  function Process(s: State, p: Parsed): State
    requires p.payload != []
  {
    var t := NalType(p.payload[0]);
    if 0 < t < 24 then TakeSingle(s, p)
    else if t != FU_A then EmitFrame(s, p.marker)
    else if |p.payload| < 2 then ResetFu(s)
    else
      var realType := NalType(p.payload[1]);
      if realType == 0 || realType >= 24 then ResetFu(s)
      else if IsFuStart(p.payload[1]) then TakeFuStart(s, p)
      else if s.started then TakeFuNext(s, p)
      else EmitFrame(s, p.marker)
  }

  /** The duplicate test, with its allowance for a counter that wraps. */
  predicate Duplicate(last: u16, sn: u16) {
    last != 0 && sn <= last && !(last > 65535 - MAX_SEQ_GAP && sn < MAX_SEQ_GAP)
  }

  predicate LargeGap(last: u16, sn: u16) {
    last != 0 && (if last > sn then 65535 - last + sn + 1 else sn - last) > MAX_SEQ_GAP
  }

  /** `handleRtp` */
  function Handle(s: State, packet: bytes): State {
    if |packet| <= HEADER then s
    else
      var p := Parse(packet);
      if Duplicate(s.lastSeq, p.sn) then s
      else
        var s1 := if LargeGap(s.lastSeq, p.sn) then ResetFu(s).(frame := []) else s;
        Process(s1, p).(lastSeq := p.sn)
  }

  function HandleAll(s: State, packets: seq<bytes>): State {
    if packets == [] then s else Handle(HandleAll(s, packets[..|packets| - 1]), packets[|packets| - 1])
  }

  lemma {:induction false} HandleAllConcat(s: State, a: seq<bytes>, b: seq<bytes>)
    ensures HandleAll(s, a + b) == HandleAll(HandleAll(s, a), b)
  {
    if b == [] {
      assert a + b == a;
    } else {
      assert (a + b)[..|a + b| - 1] == a + b[..|b| - 1];
      HandleAllConcat(s, a, b[..|b| - 1]);
    }
  }

  // ----- the object

  /** `H264RtpReassembler`; `frames` collects the `onFrameReady` signals. */
  class Assembler {
    var frame: bytes
    var fuBuffer: seq<Unit>
    var fuStarted: bool
    var lastSeq: u16
    var fuStartSeq: u16
    var fuExpectedSeq: u16
    var spsNalu: bytes
    var ppsNalu: bytes
    var frames: seq<bytes>

    ghost function View(): State
      reads this
    {
      State(frame, fuBuffer, fuStarted, lastSeq, fuStartSeq, fuExpectedSeq, spsNalu, ppsNalu, frames)
    }

    constructor ()
      ensures View() == Fresh()
    {
      frame, fuBuffer, fuStarted, lastSeq := [], [], false, 0;
      fuStartSeq, fuExpectedSeq, spsNalu, ppsNalu, frames := 0, 0, [], [], [];
    }

    method ClearFu()
      modifies this`fuBuffer, this`fuStarted, this`fuExpectedSeq, this`fuStartSeq
      ensures View() == ResetFu(old(View()))
    {
      fuBuffer, fuStarted, fuExpectedSeq, fuStartSeq := [], false, 0, 0;
    }

    method Signal(marker: bool)
      modifies this`frame, this`frames
      ensures View() == EmitFrame(old(View()), marker)
    {
      if marker && |frame| > 0 {
        frames := frames + [frame];
        frame := [];
      }
    }

    method Append(nalType: int, unit: bytes)
      modifies this`frame, this`spsNalu, this`ppsNalu
      ensures View() == AppendNal(old(View()), nalType, unit)
    {
      if nalType == 7 { spsNalu := unit; } else if nalType == 8 { ppsNalu := unit; }
      frame := frame + unit;
    }

    /** The loop over the ordered fragment map that checks it for gaps. */
    method IsComplete(sn: u16) returns (complete: bool)
      ensures complete == Complete(View(), sn)
    {
      var ok, rest := true, fuBuffer;
      var expected: int := fuStartSeq;
      while |rest| > 0 && ok
        invariant expected == Wrap16(fuStartSeq + |fuBuffer| - |rest|) || !ok
        invariant Contiguous(fuBuffer, fuStartSeq) == (ok && Contiguous(rest, expected))
        decreases |rest|, ok
      {
        if rest[0].sn != expected {
          ok := false;
        } else {
          expected := Wrap16(expected + 1);
          rest := rest[1..];
        }
      }
      complete := ok && sn == expected - 1;
    }

    method Glue() returns (data: bytes)
      ensures data == Glued(fuBuffer)
    {
      data := [];
      var rest := fuBuffer;
      while |rest| > 0
        invariant data + Glued(rest) == Glued(fuBuffer)
        decreases |rest|
      {
        data, rest := data + rest[0].data, rest[1..];
      }
    }

    method ProcessSingle(p: Parsed)
      requires p.payload != []
      modifies this
      ensures View() == TakeSingle(old(View()), p)
    {
      if fuStarted { ClearFu(); }
      Append(NalType(p.payload[0]), START_CODE + p.payload);
      Signal(p.marker);
    }

    method ProcessFuStart(p: Parsed)
      requires |p.payload| >= 2
      modifies this
      ensures View() == TakeFuStart(old(View()), p)
    {
      fuBuffer, fuStarted, fuStartSeq, fuExpectedSeq := [], true, p.sn, Wrap16(p.sn + 1);
      var unitData: bytes := [RefBits(p.payload[0]) + NalType(p.payload[1])];
      if |p.payload| > 2 {
        unitData := unitData + p.payload[2..];
      } else {
        fuStarted, fuExpectedSeq, fuStartSeq := false, 0, 0;
        return;
      }
      fuBuffer := InsertUnit(fuBuffer, Unit(p.sn, unitData));
      Signal(p.marker);
    }

    method ProcessFuNext(p: Parsed)
      requires |p.payload| >= 2
      modifies this
      ensures View() == TakeFuNext(old(View()), p)
    {
      hide InsertUnit, Glued, Contiguous;
      var gap := p.sn - fuExpectedSeq;
      if gap < 0 { return; }
      if gap > MAX_SEQ_GAP {
        ClearFu();
        return;
      }
      fuBuffer := InsertUnit(fuBuffer, Unit(p.sn, p.payload[2..]));
      fuExpectedSeq := Wrap16(p.sn + 1);
      if |fuBuffer| > MAX_FU_UNITS {
        ClearFu();
        return;
      }
      if IsFuEnd(p.payload[1]) {
        var complete := IsComplete(p.sn);
        if complete {
          var data := Glue();
          Append(NalType(p.payload[1]), START_CODE + data);
        }
        ClearFu();
      }
      Signal(p.marker);
    }

    method ProcessRtpNalu(p: Parsed)
      requires p.payload != []
      modifies this
      ensures View() == Process(old(View()), p)
    {
      var t := NalType(p.payload[0]);
      if t > 0 && t < 24 {
        ProcessSingle(p);
      } else if t == FU_A {
        if |p.payload| < 2 {
          ClearFu();
          return;
        }
        var realType := NalType(p.payload[1]);
        if realType == 0 || realType >= 24 {
          ClearFu();
          return;
        }
        if IsFuStart(p.payload[1]) {
          ProcessFuStart(p);
        } else if fuStarted {
          ProcessFuNext(p);
        } else {
          Signal(p.marker);
        }
      } else {
        Signal(p.marker);
      }
    }

    method HandleRtp(packet: bytes)
      modifies this
      ensures View() == Handle(old(View()), packet)
    {
      hide Process;
      if |packet| <= HEADER { return; }
      var p := Parse(packet);
      if lastSeq != 0 && p.sn <= lastSeq {
        if !(lastSeq > 65535 - MAX_SEQ_GAP && p.sn < MAX_SEQ_GAP) { return; }
      }
      if lastSeq != 0 {
        var seqGap := p.sn - lastSeq;
        if lastSeq > p.sn { seqGap := 65535 - lastSeq + p.sn + 1; }
        if seqGap > MAX_SEQ_GAP {
          frame := [];
          ClearFu();
        }
      }
      ProcessRtpNalu(p);
      lastSeq := p.sn;
    }
  }
}
