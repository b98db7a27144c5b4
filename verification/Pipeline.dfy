/** From the camera's encoder to the viewer: splitting, packetizing and reassembly composed,
    directly and over a KCP connection. */
module Pipeline {
  import opened Words
  import AnnexB
  import opened Reassembler
  import opened Lossless
  import Kcp
  import Connection
  import Recovery

  const MAX_NALUS: int := 32

  /** One encoded frame as the camera handles it: split, at most 32 units kept, one timestamp. */
  function CameraItems(au: seq<AnnexB.Unit>, ts: u32): seq<Item> {
    var buf := AnnexB.Joined(au);
    Stamped(AnnexB.Slices(buf, AnnexB.Scan(buf, 0, -1, MAX_NALUS)), ts)
  }

  function Stamped(nals: seq<bytes>, ts: u32): seq<Item> {
    seq(|nals|, i requires 0 <= i < |nals| => Item(nals[i], ts))
  }

  function FrameTime(ts: u32, step: u32, k: nat): u32 {
    Wrap(ts + step * k)
  }

  /** Everything the camera sends for its encoded frames; the timestamp advances per frame. */
  function CameraStream(aus: seq<seq<AnnexB.Unit>>, ts: u32, step: u32): seq<Item> {
    if aus == [] then []
    else CameraStream(aus[..|aus| - 1], ts, step) + CameraItems(aus[|aus| - 1], FrameTime(ts, step, |aus| - 1))
  }

  predicate FrameOk(au: seq<AnnexB.Unit>) {
    |au| <= MAX_NALUS && AnnexB.AllWellFormed(au) && forall i :: 0 <= i < |au| ==> Carriable(au[i].nal)
  }

  /** All the units of all the frames, in order, each behind a four-byte start code. */
  function Expected(aus: seq<seq<AnnexB.Unit>>): bytes {
    if aus == [] then [] else Expected(aus[..|aus| - 1]) + ExpectedFrame(aus[|aus| - 1])
  }

  function ExpectedFrame(au: seq<AnnexB.Unit>): bytes {
    if au == [] then [] else ExpectedFrame(au[..|au| - 1]) + START_CODE + au[|au| - 1].nal
  }

  /** The split gives back the units themselves. */
  lemma CameraItemsAre(au: seq<AnnexB.Unit>, ts: u32)
    requires FrameOk(au)
    ensures CameraItems(au, ts) == Stamped(AnnexB.Nals(au), ts)
  {
    AnnexB.SplitJoined(au, MAX_NALUS);
    assert AnnexB.Nals(au)[..|au|] == AnnexB.Nals(au);
  }

  lemma NothingStamped(ts: u32)
    ensures Stamped(AnnexB.Nals([]), ts) == []
  {
  }

  lemma StampedSnoc(au: seq<AnnexB.Unit>, ts: u32)
    requires au != []
    ensures Stamped(AnnexB.Nals(au), ts)
         == Stamped(AnnexB.Nals(au[..|au| - 1]), ts) + [Item(au[|au| - 1].nal, ts)]
  {
  }

  lemma MarkedSnoc(items: seq<Item>, x: Item)
    ensures Marked(items + [x]) == Marked(items) + START_CODE + x.nal
  {
    assert (items + [x])[..|items|] == items;
  }

  lemma {:induction false} MarkedFrame(items: seq<Item>, au: seq<AnnexB.Unit>, ts: u32)
    ensures Marked(items + Stamped(AnnexB.Nals(au), ts)) == Marked(items) + ExpectedFrame(au)
  {
    hide Carriable, Stamped, AnnexB.Nals, Marked;
    var more := Stamped(AnnexB.Nals(au), ts);
    if au == [] {
      NothingStamped(ts);
      assert items + more == items;
    } else {
      var last := |au| - 1;
      MarkedFrame(items, au[..last], ts);
      StampedSnoc(au, ts);
      var front := items + Stamped(AnnexB.Nals(au[..last]), ts);
      assert items + more == front + [Item(au[last].nal, ts)];
      MarkedSnoc(front, Item(au[last].nal, ts));
      assert Marked(items) + ExpectedFrame(au[..last]) + START_CODE + au[last].nal
          == Marked(items) + (ExpectedFrame(au[..last]) + START_CODE + au[last].nal);
    }
  }

  lemma {:induction false} CameraStreamIs(aus: seq<seq<AnnexB.Unit>>, ts: u32, step: u32)
    requires forall k :: 0 <= k < |aus| ==> FrameOk(aus[k])
    ensures AllCarriable(CameraStream(aus, ts, step))
    ensures Marked(CameraStream(aus, ts, step)) == Expected(aus)
  {
    hide FrameOk, CameraItems, ExpectedFrame, FrameTime, Marked, Stamped, Carriable;
    if aus == [] {
      assert Marked([]) == [] by { NothingMarked(); }
    } else {
      var last := |aus| - 1;
      var t := FrameTime(ts, step, last);
      CameraStreamIs(aus[..last], ts, step);
      CameraItemsAre(aus[last], t);
      StampedCarriable(aus[last], t);
      MarkedFrame(CameraStream(aus[..last], ts, step), aus[last], t);
    }
  }

  lemma NothingMarked()
    ensures Marked([]) == []
  {
  }

  lemma StampedCarriable(au: seq<AnnexB.Unit>, ts: u32)
    requires FrameOk(au)
    ensures AllCarriable(Stamped(AnnexB.Nals(au), ts))
  {
  }

  /** End-to-end identity of the video pipeline, with its exact condition. */
  lemma PipelineIdentity(aus: seq<seq<AnnexB.Unit>>, ts: u32, step: u32, c: nat, ssrc: u32)
    requires forall k :: 0 <= k < |aus| ==> FrameOk(aus[k])
    ensures var items := CameraStream(aus, ts, step);
            AllBytes(Seen(HandleAll(Fresh(), StreamPackets(items, c, ssrc)))) == Expected(aus) <==>
            AllDeliverable(items, c)
  {
    CameraStreamIs(aus, ts, step);
    LosslessIdentity(CameraStream(aus, ts, step), c, ssrc);
  }

  // ----- over KCP

  lemma HandleOnlyAppends(s: State, packet: bytes)
    ensures s.frames <= Handle(s, packet).frames
  {
  }

  lemma {:induction false} FramesGrow(s: State, a: seq<bytes>, b: seq<bytes>)
    requires a <= b
    ensures HandleAll(s, a).frames <= HandleAll(s, b).frames
    decreases |b|
  {
    if a != b {
      FramesGrow(s, a, b[..|b| - 1]);
      HandleOnlyAppends(HandleAll(s, b[..|b| - 1]), b[|b| - 1]);
    }
  }

  /** Whatever a network that delivers nothing too old does to the datagrams of the KCP
      connection, the frames the viewer
      has been shown are a prefix of the frames of the reference for everything the camera
      sent. */
  lemma ViewerOverKcp(ca: Kcp.Config, cb: Kcp.Config, es: seq<Connection.Event>, items: seq<Item>, c: nat, ssrc: u32)
    requires Connection.Paired(ca, cb) && Connection.TimelyRun(Connection.Start(ca, cb), es)
    requires AllCarriable(items) && Connection.Run(Connection.Start(ca, cb), es).a.sent == StreamPackets(items, c, ssrc)
    ensures HandleAll(Fresh(), Connection.Run(Connection.Start(ca, cb), es).b.got).frames
         <= Reference(Out([], [], [], []), items, c).frames
  {
    hide Connection.Run, Connection.TimelyRun, HandleAll, StreamPackets, Reference;
    var w := Connection.Run(Connection.Start(ca, cb), es);
    Connection.InOrderDelivery(ca, cb, es);
    FramesGrow(Fresh(), w.b.got, w.a.sent);
    StreamArrives(Fresh(), items, c, ssrc);
  }

  /** And whatever has happened, the connection can go on until the viewer has been shown
      exactly what the reference says, frames, parameter sets and frame under way. */
  lemma ViewerCatchesUp(ca: Kcp.Config, cb: Kcp.Config, es: seq<Connection.Event>, items: seq<Item>, c: nat, ssrc: u32)
    returns (more: seq<Connection.Event>)
    requires Connection.Paired(ca, cb) && Connection.TimelyRun(Connection.Start(ca, cb), es)
    requires AllCarriable(items) && Connection.Run(Connection.Start(ca, cb), es).a.sent == StreamPackets(items, c, ssrc)
    ensures Recovery.CalmRun(Connection.Run(Connection.Start(ca, cb), es), more)
    ensures Seen(HandleAll(Fresh(), Connection.Run(Connection.Start(ca, cb), es + more).b.got))
         == Reference(Out([], [], [], []), items, c)
  {
    hide Connection.Run, Connection.TimelyRun, Recovery.CalmRun, HandleAll, StreamPackets, Reference;
    more := Recovery.EverythingCanArrive(ca, cb, es);
    StreamArrives(Fresh(), items, c, ssrc);
  }
}
