/** Splitting an encoder's Annex B byte stream into NAL units at its start codes. */
module AnnexB {
  import opened Words

  /** `nalu_view_t`, as an offset into the buffer. */
  datatype View = View(at: nat, len: nat)

  predicate IsStartCode3(buf: bytes, i: nat) {
    i + 3 <= |buf| && buf[i] == 0 && buf[i + 1] == 0 && buf[i + 2] == 1
  }

  predicate IsStartCode4(buf: bytes, i: nat) {
    i + 4 <= |buf| && buf[i] == 0 && buf[i + 1] == 0 && buf[i + 2] == 0 && buf[i + 3] == 1
  }

  function StartCodeLength(buf: bytes, i: nat): nat {
    if IsStartCode4(buf, i) then 4 else if IsStartCode3(buf, i) then 3 else 0
  }

  /** The views the scan writes from position `i` on, with `start` the beginning of the unit
      under way (-1 before the first) and `room` for that many more views. */
  function Scan(buf: bytes, i: nat, start: int, room: nat): seq<View>
    requires -1 <= start <= i
    decreases |buf| - i
  {
    if i + 3 < |buf| then
      var sc := StartCodeLength(buf, i);
      if sc == 0 then Scan(buf, i + 1, start, room)
      else if start >= 0 && room > 0 then [View(start, i - start)] + Scan(buf, i + sc, i + sc, room - 1)
      else Scan(buf, i + sc, i + sc, room)
    else if 0 <= start < |buf| && room > 0 then [View(start, |buf| - start)]
    else []
  }

  /** `split_annexb_nalus` writes exactly the scanned views into `out`. */
  method Split(buf: bytes, out: array<View>, maxNalus: nat) returns (cnt: nat)
    requires maxNalus <= out.Length
    modifies out
    ensures cnt <= maxNalus && out[..cnt] == Scan(buf, 0, -1, maxNalus)
  {
    cnt := 0;
    var i, start := 0, -1;
    while i + 3 < |buf|
      invariant 0 <= i && -1 <= start <= i && cnt <= maxNalus
      invariant out[..cnt] + Scan(buf, i, start, maxNalus - cnt) == Scan(buf, 0, -1, maxNalus)
      decreases |buf| - i
    {
      var sc := 0;
      if IsStartCode4(buf, i) { sc := 4; } else if IsStartCode3(buf, i) { sc := 3; }
      if sc != 0 {
        if start >= 0 && cnt < maxNalus {
          out[cnt] := View(start, i - start);
          assert out[..cnt + 1] == out[..cnt] + [View(start, i - start)];
          cnt := cnt + 1;
        }
        i := i + sc;
        start := i;
      } else {
        i := i + 1;
      }
    }
    if start >= 0 && start < |buf| && cnt < maxNalus {
      out[cnt] := View(start, |buf| - start);
      assert out[..cnt + 1] == out[..cnt] + [View(start, |buf| - start)];
      cnt := cnt + 1;
    }
  }

  // ----- the stream an encoder writes

  /** One NAL unit behind a start code of three or four bytes. */
  datatype Unit = Unit(long: bool, nal: bytes)

  function StartCode(long: bool): bytes {
    if long then [0, 0, 0, 1] else [0, 0, 1]
  }

  function Joined(units: seq<Unit>): bytes {
    if units == [] then [] else StartCode(units[0].long) + units[0].nal + Joined(units[1..])
  }

  /** What Annex B of ITU-T H.264 guarantees of a NAL unit: not empty, no start code inside,
      no trailing zero byte. */
  predicate WellFormed(nal: bytes) {
    && |nal| > 0 && nal[|nal| - 1] != 0
    && forall i :: 0 <= i < |nal| ==> !IsStartCode3(nal, i)
  }

  predicate AllWellFormed(units: seq<Unit>) {
    forall u <- units :: WellFormed(u.nal)
  }

  function Slice(buf: bytes, v: View): bytes {
    if v.at + v.len <= |buf| then buf[v.at..v.at + v.len] else []
  }

  function Slices(buf: bytes, views: seq<View>): seq<bytes> {
    seq(|views|, i requires 0 <= i < |views| => Slice(buf, views[i]))
  }

  function Nals(units: seq<Unit>): seq<bytes> {
    seq(|units|, i requires 0 <= i < |units| => units[i].nal)
  }

  /** Where a unit's bytes lie, nothing is taken for a start code: not inside, and not across
      its end, because its last byte is not zero. */
  lemma NoCodeInside(buf: bytes, lo: nat, hi: nat, i: nat)
    requires lo <= i < hi <= |buf| && WellFormed(buf[lo..hi])
    ensures StartCodeLength(buf, i) == 0
  {
    var nal := buf[lo..hi];
    assert nal[|nal| - 1] == buf[hi - 1];
    forall j | lo <= j && j + 3 <= hi ensures !IsStartCode3(buf, j) {
      assert !IsStartCode3(nal, j - lo);
      assert nal[j - lo] == buf[j] && nal[j - lo + 1] == buf[j + 1] && nal[j - lo + 2] == buf[j + 2];
    }
    assert IsStartCode4(buf, i) ==> IsStartCode3(buf, i + 1);
  }

  /** The scan runs over a unit without stopping. */
  lemma {:induction false} ScanOver(buf: bytes, lo: nat, hi: nat, i: nat, start: int, room: nat)
    requires lo <= i <= hi <= |buf| && WellFormed(buf[lo..hi]) && -1 <= start <= i
    requires hi == |buf| || hi + 3 < |buf|
    ensures Scan(buf, i, start, room) == Scan(buf, hi, start, room)
    decreases hi - i
  {
    if i < hi && i + 3 < |buf| {
      NoCodeInside(buf, lo, hi, i);
      ScanOver(buf, lo, hi, i + 1, start, room);
    }
  }

  /** Where the parts of a concatenation lie. */
  lemma Parts(buf: bytes, pos: nat, a: bytes, b: bytes, c: bytes)
    requires pos <= |buf| && buf[pos..] == a + b + c
    ensures |buf| == pos + |a| + |b| + |c|
    ensures forall j :: 0 <= j < |a| ==> buf[pos + j] == a[j]
    ensures buf[pos + |a|..pos + |a| + |b|] == b && buf[pos + |a| + |b|..] == c
  {
    var all := a + b + c;
    assert |buf[pos..]| == |all|;
    forall j | 0 <= j < |all| ensures buf[pos + j] == all[j] {
      assert buf[pos..][j] == all[j];
    }
  }

  lemma CodeIs(buf: bytes, pos: nat, long: bool)
    requires pos + |StartCode(long)| <= |buf|
    requires forall j :: 0 <= j < |StartCode(long)| ==> buf[pos + j] == StartCode(long)[j]
    ensures StartCodeLength(buf, pos) == |StartCode(long)|
  {
    assert StartCode(long)[0] == 0 && StartCode(long)[1] == 0;
    assert StartCode(long)[2] == if long then 0 else 1;
    assert long ==> StartCode(long)[3] == 1;
  }

  lemma CodeAt(buf: bytes, pos: nat, units: seq<Unit>)
    requires units != [] && pos <= |buf| && buf[pos..] == Joined(units) && WellFormed(units[0].nal)
    ensures var sc := |StartCode(units[0].long)|;
            var hi := pos + sc + |units[0].nal|;
            && StartCodeLength(buf, pos) == sc && pos + 3 < |buf| && |units[0].nal| > 0
            && hi <= |buf| && buf[pos + sc..hi] == units[0].nal && buf[hi..] == Joined(units[1..])
  {
    hide StartCodeLength;
    Parts(buf, pos, StartCode(units[0].long), units[0].nal, Joined(units[1..]));
    CodeIs(buf, pos, units[0].long);
  }

  lemma JoinedLength(units: seq<Unit>)
    requires AllWellFormed(units) && units != []
    ensures |Joined(units)| > 3
  {
    assert WellFormed(units[0].nal);
  }

  function First(n: nat, s: seq<bytes>): seq<bytes> {
    s[..Min(n, |s|)]
  }

  lemma FirstCons(n: nat, x: bytes, s: seq<bytes>)
    ensures First(n, [x] + s) == if n > 0 then [x] + First(n - 1, s) else []
  {
  }

  lemma SlicesCons(buf: bytes, v: View, vs: seq<View>)
    ensures Slices(buf, [v] + vs) == [Slice(buf, v)] + Slices(buf, vs)
  {
  }

  lemma NalsCons(units: seq<Unit>)
    requires units != []
    ensures Nals(units) == [units[0].nal] + Nals(units[1..])
  {
  }

  /** From the end of a unit that began at `start`, the scan closes it and finds the rest. */
  lemma {:induction false} ScanFinds(buf: bytes, pos: nat, start: nat, units: seq<Unit>, room: nat)
    requires start < pos <= |buf| && buf[pos..] == Joined(units) && AllWellFormed(units)
    ensures Slices(buf, Scan(buf, pos, start, room)) == First(room, [buf[start..pos]] + Nals(units))
    decreases |units|
  {
    hide StartCodeLength, WellFormed, First, Slices, Nals, Joined;
    FirstCons(room, buf[start..pos], Nals(units));
    NoSlices(buf);
    if units == [] {
      EmptyJoined();
      assert |buf[pos..]| == 0;
      var v := View(start, |buf| - start);
      assert [v] + [] == [v] && Slice(buf, v) == buf[start..pos];
      SlicesCons(buf, v, []);
    } else if room > 0 {
      SlicesCons(buf, View(start, pos - start),
        Scan(buf, pos + |StartCode(units[0].long)|, pos + |StartCode(units[0].long)|, room - 1));
      ScanUnits(buf, pos, units, room - 1);
    } else {
      ScanUnits(buf, pos, units, room);
      FirstNone(Nals(units));
    }
  }

  lemma NoSlices(buf: bytes)
    ensures Slices(buf, []) == []
  {
  }

  lemma EmptyJoined()
    ensures Joined([]) == [] && Nals([]) == [] && forall n: nat :: First(n, []) == []
  {
  }

  lemma FirstNone(s: seq<bytes>)
    ensures First(0, s) == []
  {
  }

  /** From a start code on, the scan finds the unit behind it and the rest. */
  lemma {:induction false} ScanUnits(buf: bytes, pos: nat, units: seq<Unit>, room: nat)
    requires pos <= |buf| && buf[pos..] == Joined(units) && AllWellFormed(units) && units != []
    ensures StartCodeLength(buf, pos) == |StartCode(units[0].long)| && pos + 3 < |buf|
    ensures var lo := pos + |StartCode(units[0].long)|;
            Slices(buf, Scan(buf, lo, lo, room)) == First(room, Nals(units))
    decreases |units|, 0
  {
    hide First, Slices, Nals, WellFormed, StartCodeLength, Scan;
    CodeAt(buf, pos, units);
    var lo := pos + |StartCode(units[0].long)|;
    var hi := lo + |units[0].nal|;
    if units[1..] != [] { JoinedLength(units[1..]); }
    ScanOver(buf, lo, hi, lo, lo, room);
    ScanFinds(buf, hi, lo, units[1..], room);
    NalsCons(units);
  }

  /** Splitting undoes joining: of the units an encoder wrote, the first `maxNalus` come back,
      in order and byte for byte. */
  lemma SplitJoined(units: seq<Unit>, maxNalus: nat)
    requires AllWellFormed(units)
    ensures Slices(Joined(units), Scan(Joined(units), 0, -1, maxNalus)) == Nals(units)[..Min(maxNalus, |units|)]
  {
    var buf := Joined(units);
    if units != [] {
      assert buf[0..] == buf;
      ScanUnits(buf, 0, units, maxNalus);
    }
  }

  // ----- any buffer

  /** No start code begins in `lo..hi` that the scan looks for: the last three positions of the
      buffer are not tried. */
  predicate Plain(buf: bytes, lo: nat, hi: nat) {
    forall p :: lo <= p < hi && p + 3 < |buf| ==> !IsStartCode3(buf, p) && !IsStartCode4(buf, p)
  }

  /** From `pos` on the buffer is these units behind their start codes, each reaching to where the
      next start code begins. */
  predicate Parted(buf: bytes, pos: nat, units: seq<Unit>)
    decreases |units|
  {
    if units == [] then pos == |buf|
    else
      var lo := pos + if units[0].long then 4 else 3;
      var hi := lo + |units[0].nal|;
      && pos + 3 < |buf| && hi <= |buf| && buf[lo..hi] == units[0].nal && Plain(buf, lo, hi)
      && (if units[0].long then IsStartCode4(buf, pos) else IsStartCode3(buf, pos) && !IsStartCode4(buf, pos))
      && Parted(buf, hi, units[1..])
  }

  /** A last unit without bytes is not written. */
  function Written(units: seq<Unit>): seq<bytes> {
    if units == [] then []
    else if |units| == 1 && units[0].nal == [] then []
    else [units[0].nal] + Written(units[1..])
  }

  lemma {:induction false} NextCode(buf: bytes, lo: nat, i: nat, start: int, room: nat) returns (hi: nat)
    requires lo <= i <= |buf| && -1 <= start <= i && Plain(buf, lo, i)
    ensures i <= hi <= |buf| && Plain(buf, lo, hi) && Scan(buf, i, start, room) == Scan(buf, hi, start, room)
    ensures hi == |buf| || (hi + 3 < |buf| && StartCodeLength(buf, hi) > 0)
    decreases |buf| - i
  {
    if i + 3 < |buf| {
      if StartCodeLength(buf, i) > 0 {
        hi := i;
      } else {
        hi := NextCode(buf, lo, i + 1, start, room);
      }
    } else {
      hi := |buf|;
    }
  }

  lemma {:induction false} FromCode(buf: bytes, pos: nat, room: nat) returns (units: seq<Unit>)
    requires pos + 3 < |buf| && StartCodeLength(buf, pos) > 0
    ensures units != [] && Parted(buf, pos, units)
    ensures var lo := pos + StartCodeLength(buf, pos);
            lo <= |buf| && Slices(buf, Scan(buf, lo, lo, room)) == First(room, Written(units))
    decreases |buf| - pos
  {
    hide First, Slices, Plain, Written, Scan, StartCodeLength, IsStartCode3, IsStartCode4, Parted;
    CodeFits(buf, pos);
    var sc := StartCodeLength(buf, pos);
    var lo := pos + sc;
    var hi := NextCode(buf, lo, lo, lo, room);
    var u := Unit(sc == 4, buf[lo..hi]);
    if hi == |buf| {
      units := [u];
      assert [u] + [] == [u];
      PartedCons(buf, pos, hi, u, []);
      LastWritten(buf, lo, u, room);
    } else {
      var rest := FromCode(buf, hi, if room > 0 then room - 1 else 0);
      units := [u] + rest;
      PartedCons(buf, pos, hi, u, rest);
      MoreWritten(buf, lo, hi, u, rest, room);
    }
  }

  lemma CodeFits(buf: bytes, pos: nat)
    requires StartCodeLength(buf, pos) > 0
    ensures pos + StartCodeLength(buf, pos) <= |buf| && 3 <= StartCodeLength(buf, pos) <= 4
  {
  }

  lemma PartedCons(buf: bytes, pos: nat, hi: nat, u: Unit, rest: seq<Unit>)
    requires pos + 3 < |buf| && StartCodeLength(buf, pos) > 0 && u.long == (StartCodeLength(buf, pos) == 4)
    requires var lo := pos + StartCodeLength(buf, pos);
             lo <= hi <= |buf| && u.nal == buf[lo..hi] && Plain(buf, lo, hi)
    requires if rest == [] then hi == |buf| else Parted(buf, hi, rest)
    ensures Parted(buf, pos, [u] + rest)
  {
    hide Plain;
    assert ([u] + rest)[1..] == rest;
  }

  lemma MoreWritten(buf: bytes, lo: nat, hi: nat, u: Unit, rest: seq<Unit>, room: nat)
    requires lo <= hi && hi + 3 < |buf| && StartCodeLength(buf, hi) > 0 && u.nal == buf[lo..hi] && rest != []
    requires hi + StartCodeLength(buf, hi) <= |buf|
    requires var next := hi + StartCodeLength(buf, hi);
             Slices(buf, Scan(buf, next, next, if room > 0 then room - 1 else 0))
             == First(if room > 0 then room - 1 else 0, Written(rest))
    ensures Slices(buf, Scan(buf, hi, lo, room)) == First(room, Written([u] + rest))
  {
    hide First, Slices, Written, Scan, StartCodeLength;
    var next := hi + StartCodeLength(buf, hi);
    SliceIs(buf, lo, hi);
    ScanCode(buf, hi, lo, room);
    WrittenCons(u, rest);
    FirstCons(room, u.nal, Written(rest));
    FirstNone(Written(rest));
    SlicesCons(buf, View(lo, hi - lo), Scan(buf, next, next, if room > 0 then room - 1 else 0));
  }

  lemma SliceIs(buf: bytes, lo: nat, hi: nat)
    requires lo <= hi <= |buf|
    ensures Slice(buf, View(lo, hi - lo)) == buf[lo..hi]
  {
  }

  lemma LastWritten(buf: bytes, lo: nat, u: Unit, room: nat)
    requires lo <= |buf| && u.nal == buf[lo..]
    ensures Slices(buf, Scan(buf, |buf|, lo, room)) == First(room, Written([u]))
  {
    hide Scan, Slices, Written;
    NoSlices(buf);
    SliceIs(buf, lo, |buf|);
    ScanEnd(buf, lo, room);
    assert [u] + [] == [u] && buf[lo..|buf|] == buf[lo..];
    WrittenCons(u, []);
    SlicesCons(buf, View(lo, |buf| - lo), []);
  }

  lemma WrittenCons(u: Unit, rest: seq<Unit>)
    ensures Written([u] + rest) == if rest == [] && u.nal == [] then [] else [u.nal] + Written(rest)
    ensures Written([]) == []
  {
    assert ([u] + rest)[1..] == rest;
  }

  lemma ScanEnd(buf: bytes, start: nat, room: nat)
    requires start <= |buf|
    ensures Scan(buf, |buf|, start, room)
         == if start < |buf| && room > 0 then [View(start, |buf| - start)] + [] else []
  {
  }

  lemma ScanCode(buf: bytes, i: nat, start: nat, room: nat)
    requires start <= i && i + 3 < |buf| && StartCodeLength(buf, i) > 0
    ensures var next := i + StartCodeLength(buf, i);
            Scan(buf, i, start, room) == if room > 0 then [View(start, i - start)] + Scan(buf, next, next, room - 1)
                                         else Scan(buf, next, next, 0)
  {
  }

  /** Splitting any buffer whatever: after a lead without start codes it is units behind start
      codes, each reaching to the next one, and the first `maxNalus` of them are written, byte for
      byte, empty ones included unless last. */
  lemma SplitAny(buf: bytes, maxNalus: nat) returns (lead: nat, units: seq<Unit>)
    ensures lead <= |buf| && Plain(buf, 0, lead)
    ensures lead < |buf| ==> units != []
    ensures if units == [] then lead == |buf| else Parted(buf, lead, units)
    ensures Slices(buf, Scan(buf, 0, -1, maxNalus)) == Written(units)[..Min(maxNalus, |Written(units)|)]
  {
    hide Slices, Written;
    lead := NextCode(buf, 0, 0, -1, maxNalus);
    NoSlices(buf);
    if lead == |buf| {
      units := [];
      WrittenCons(Unit(false, []), []);
    } else {
      units := FromCode(buf, lead, maxNalus);
    }
  }
}
