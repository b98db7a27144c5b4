# Verified model of the monitor's transport and video pipeline

The repository streams camera video to a viewer: an encoder's Annex B stream is split into
NAL units, packed into RTP packets, carried over KCP on UDP, and reassembled into frames. This
project models the two parts that have to be right for that to work, and proves what they
promise.

**KCP** (`media/ikcp.c`, `media/ikcp.h`): fragmentation, sliding windows, cumulative and
selective acknowledgements, the out-of-order receive buffer, RTT estimation, timeout and fast
retransmission, congestion control, window probing and datagram packing, all on 32-bit words
that wrap.

**H.264 over RTP**: the Annex B splitter (`camera/rtsp_client.c`), the packetizer with FU-A
fragmentation (`camera/rtsp.c`) and the stateful reassembler
(`car_detect_qt/h264rtpreassembler.cpp`).

## How it is built

| file | content |
|---|---|
| `Words.dfy` | wrapping words, the circular comparison |
| `Wire.dfy` | segment encoding, decoding a datagram, packing |
| `Rtt.dfy`, `Congestion.dfy` | the estimator and the congestion window |
| `Kcp.dfy` | what every KCP operation does, as functions on the control block |
| `SenderInvariant.dfy`, `ReceiverInvariant.dfy`, `Endpoint.dfy` | invariants of one endpoint for arbitrary input bytes |
| `Transmission.dfy`, `Pacing.dfy` | what a flush does, field by field; when flushes come |
| `Acknowledgement.dfy`, `Growth.dfy` | what a datagram does, field by field; how the congestion window opens |
| `Reading.dfy`, `Startup.dfy` | what a read does; the probe timer and the first segment |
| `Retransmission.dfy` | `ikcp_check`, fast retransmission over whole runs |
| `Connection.dfy` | two endpoints and an adversarial network: safety |
| `Recovery.dfy`, `Polling.dfy` | the same system: it can always finish, and every polling schedule does |
| `LongTalk.dfy`, `StaleAck.dfy`, `StaleData.dfy` | the same system: exactly how late a datagram may be |
| `AckList.dfy`, `ControlBlock.dfy` | the objects: every method runs the source's loops and is proved equal to its function in `Kcp.dfy` |
| `Ring.dfy` | the intrusive circular lists on real pointers |
| `AnnexB.dfy`, `Rtp.dfy`, `Reassembler.dfy` | splitter, packetizer, reassembler, each as specification and as object or method |
| `Lossless.dfy`, `Lossy.dfy` | reassembly of every stream without loss; safety under arbitrary loss, duplication and reordering |
| `Sparse.dfy`, `Restart.dfy` | what exactly comes out under loss, duplication and reordering |
| `Pipeline.dfy` | the composition, also over KCP |

The network of `Connection.dfy` keeps every datagram ever emitted and may hand any of them to
the other end at any time, any number of times or never. Connections are of any length, so the
32-bit numbers come round; what is asked of an arrival is that it is timely: its data lags no
more than 2^32 fragments less a receive window, its acknowledgements no more than 2^32, and its
`una` no more than 2^31 and one. The configuration is fixed before the
first send, as `media/MonitorServer.cc` and `camera/kcp.c` do, to anything
`ikcp_create`, `ikcp_setmtu`, `ikcp_wndsize` and `ikcp_nodelay` can set, with message mode, a
receive window of 128 to 65535, and the built-in `fastlimit` of 5 and `dead_link` of 20.

## What the code does not do

Properties one would expect that are false of the code as it stands. Each has its input, and
the condition under which the property holds is proved.

- An FU-A run whose numbers include 65535 is dropped even when nothing is lost, because the
  completeness check compares with `expectedSeq - 1` after integer promotion and walks the
  fragment map by raw key (`Lossless.DroppedAtWrap`). A unit of more than 1024 fragments is
  dropped too (`Lossless.DroppedTooLong`). These are the only causes
  (`Lossless.LosslessIdentity`).
- A repeated packet with number 0 is shown twice, since a last number of 0 means that nothing
  was seen; after packet 0, any packet passes. The sender's counter starts at 0 and wraps, so
  this concerns the first packet of a session and every 65536th after it (`Lossy.ProbeTwice`).
- A stream that uses a number below 3 and one above 65532 can have a late packet taken for a
  wrapped counter, and so shown out of order (`Lossy.ProbeTwice`).
- When the last packet accepted before the counter wraps is 65532, the whole next round up to
  65532 is filtered as duplicates, and packet 65533 of that round can complete the unit that
  was under way: three lost packets are enough for a frame that mixes two units
  (`Lossy.LossMixesUnits`). `Lossy.LossSafetyExactly` gives the exact numbers for which none of
  the last three can happen: no stream that wraps is among them.
- A KCP datagram that the network holds too long does harm. Data is accepted as new, and a
  message is read where it was not sent (`StaleData.StaleIsRead`); safety holds of all runs
  exactly while no data lags more than 2^32 fragments less a receive window
  (`StaleData.DataLimitExactly`). An old `una` makes the sender drop what has not arrived
  (`StaleAck.StaleUnaLoses`); nothing is lost on any run exactly while no `una` lags more than
  2^31 and one (`StaleAck.UnaLimitExactly`).

## Model

| member | source | states |
|---|---|---|
| `Connection.InOrderDelivery` | media/ikcp.c:358-907 | End-to-end safety on connections of any length, with 32-bit numbers that come round: after any interleaving of sends, reads, clock updates and flushes at either end and of timely arrivals of any datagram ever emitted (any order, any number of times, or never), what each application has read is a prefix of what the other sent, message boundaries and bytes intact |
| `Recovery.EverythingCanArrive` | media/ikcp.c:756-1145 | No deadlock, on connections of any length: whatever has happened to the datagrams so far, there is a continuation of clock steps that never go back, flushes, arrivals of emitted datagrams and reads, with nothing new sent, after which both ends have read exactly everything the other sent |
| `Polling.EveryScheduleFinishes` | media/ikcp.c:756-1178 | After any timely run, every polling schedule finishes: the ends take turns to read, to let the clock reach any time at which everything they wait for is due, and to flush, and the network hands over what was just emitted, in order; after at most 20 turns per fragment sent, and 11 more, both ends have read exactly what the other sent |
| `Polling.RoundOfTwo` | media/ikcp.c:938-1145 | One turn of each end brings an unfinished stream strictly nearer to its end: a fragment more is numbered or received, or the sender is a step nearer to numbering one |
| `Polling.MoverTurn` | media/ikcp.c:978-1121 | What the sender's turn achieves: a lacking fragment arrives; or its window is used; or it is owed an answer; or its probe is scheduled |
| `Polling.OtherTurn` | media/ikcp.c:795-804 | What the receiver's turn achieves: its answer empties snd_buf and opens the window, and otherwise the sender keeps what it had |
| `Polling.DueAfterFlush` | media/ikcp.c:1056-1115 | On a live link with nodelay = 1 there is always a next time at which everything is due: half a circle after a flush |
| `Connection.NothingLost` | media/ikcp.c:567-614 | No loss, both ways, in any reachable state: each numbered fragment is still in snd_buf or was accepted by the receiver, the rest of the stream is exactly snd_queue, and no acknowledgement pending or in any emitted datagram names a fragment that has not arrived |
| `Connection.ReachableWindows` | media/ikcp.c:690-739 | Both ways, in every reachable state and as positions in the stream: rcv_nxt <= snd_nxt, snd_una <= rcv_nxt + rcv_wnd, snd_una <= rcv_nxt while the receive queue has room, at most 65535 numbers in flight, and a full receive queue is readable |
| `Connection.ReachableWorld` | media/ikcp.c:756-1145 | The two-endpoint invariant (fragment stream, coverage, truth of all data and acknowledgements in flight) holds in every reachable state |
| `Connection.ShortIsTimely` | media/ikcp.c:136-139 | The condition on arrivals is met by every run, whatever the network does, as long as at most 2^31 numbers are used each way |
| `StaleData.DataLimitExactly` | media/ikcp.c:690-739 | The exact limit on data: with acknowledgements within their limits, what either application reads is a prefix of what the other sent on every run if and only if no arrival carries data more than 2^32 fragments less the larger receive window behind |
| `StaleData.StaleIsRead` | media/ikcp.c:690-739 | For every configuration, a run whose only fault is one datagram delivered one fragment past that limit: it is buffered for a position not yet sent, and ikcp_recv returns its message there |
| `StaleAck.UnaLimitExactly` | media/ikcp.c:600-614 | The exact limit on una: with data within its limit, no fragment is ever lost on any run if and only if no arrival has a una more than 2^31 and one behind |
| `StaleAck.StaleUnaLoses` | media/ikcp.c:600-614 | For every configuration, a run whose only fault is one datagram delivered one fragment past that limit: a fragment that the receiver lacks is dropped from snd_buf |
| `StaleAck.StaleUnaDrops` | media/ikcp.c:600-614 | A una more than half a circle and less than a whole one behind every segment in flight empties snd_buf |
| `StaleAck.StaleAckDrops` | media/ikcp.c:578-598 | An acknowledgement one circle behind removes the segment in flight that now has its number |
| `Connection.FullQueueReadable` | media/ikcp.c:441-463 | When the receive queue is full, ikcp_peeksize succeeds and ikcp_recv with a large enough buffer returns exactly the next message that was sent |
| `Connection.WindowsAgree` | media/ikcp.c:567-576 | The relation between the two ends' windows, from the two-endpoint invariant |
| `Connection.MoveFlow` | media/ikcp.c:358-1178 | Every operation of either end and every timely arrival keeps the stream invariant of both directions |
| `Connection.ReceivesNext` | media/ikcp.c:383-411 | A readable queue holds exactly the fragments of the next message that was sent; the merge loop stops at its last fragment and returns its bytes |
| `Connection.InputReceiver` | media/ikcp.c:822-851 | A timely datagram of true data keeps the receiving half: every buffered or queued segment is the fragment at its position, nothing accepted is given up, every recorded acknowledgement names an accepted fragment |
| `Connection.InputSender` | media/ikcp.c:795-804 | A timely datagram of true acknowledgements removes from snd_buf only fragments the receiver has |
| `Connection.FlushedSegTrue` | media/ikcp.c:949-1121 | Everything a flush emits is true: una is rcv_nxt, wnd is the room left, acknowledgements were recorded, data is a fragment of snd_buf |
| `Recovery.PushNext` | media/ikcp.c:1056-1121 | While the receiver lacks a numbered fragment, the retransmission of the one it waits for, once due, moves rcv_nxt forward |
| `Recovery.AskWindow` | media/ikcp.c:978-1009 | A sender that believes the peer's window closed can always get a window probe to the receiver, from any state of its probe timer, and the receiver then owes an answer |
| `Recovery.Nudge` | media/ikcp.c:822-870 | A sender that waits with everything received can make the receiver owe it an answer, by a retransmission or a probe |
| `Recovery.Answer` | media/ikcp.c:795-804 | The receiver's answer empties the sender's buffer and opens its view of the window |
| `Recovery.Open` | media/ikcp.c:1024-1049 | With the window open, at most two flushes give the next queued fragment its number |
| `Recovery.ClosedWindowHolds` | media/ikcp.c:1023-1029 | While the sender believes the peer's window closed, a flush numbers nothing |
| `Recovery.ReportsStarve` | media/ikcp.c:793-1049 | However often the sender flushes and whatever the time, a network that hands it a report of a closed window before each flush keeps it from numbering anything |
| `Endpoint.ReachableOk` | media/ikcp.c:358-1178 | For arbitrary input bytes, every state reachable from a fresh control block satisfies the endpoint invariant: sender and receiver order, window and timer bounds, consistent congestion window |
| `Endpoint.InputKeeps` | media/ikcp.c:756-907 | For any bytes, ikcp_input keeps the invariant, never moves snd_una backwards or past snd_nxt, only removes from snd_buf or raises fast-ack counts, leaves snd_queue alone, and raises cwnd by 0 to 2 |
| `Endpoint.StepKeeps` | media/ikcp.c:358-1178 | Each single operation keeps the endpoint invariant |
| `Endpoint.FlushKeeps` | media/ikcp.c:938-1145 | A flush keeps the endpoint invariant and leaves cwnd >= 1 |
| `SenderInvariant.AckKeepsSender` | media/ikcp.c:578-598 | ikcp_parse_ack and ikcp_shrink_buf keep snd_buf strictly increasing in circular order inside [snd_una, snd_nxt), with snd_una its head or snd_nxt, moved forward only |
| `SenderInvariant.UnaKeepsSender` | media/ikcp.c:600-614 | The same for ikcp_parse_una, for any una value |
| `SenderInvariant.DropAckedComplete` | media/ikcp.c:578-598 | An acknowledged number within the window is never left in snd_buf: the early stop of the search misses nothing |
| `SenderInvariant.AdmitKeepsSender` | media/ikcp.c:1024-1049 | Admission keeps the order and snd_nxt - snd_una <= snd_wnd |
| `SenderInvariant.AdmitShape` | media/ikcp.c:1028-1049 | Admission moves a front part of snd_queue to the end of snd_buf under consecutive wrapped numbers and changes nothing else |
| `SenderInvariant.CountSkippedEffect` | media/ikcp.c:616-638 | A fast acknowledgement raises a count by at most one, only for earlier numbers sent no later, and changes nothing else |
| `SenderInvariant.SweepPointwise` | media/ikcp.c:1056-1115 | The pass over snd_buf treats every segment by its own state alone, emits only segments it decided to send, and a live link means none reached dead_link |
| `ReceiverInvariant.ParseDataKeepsReceiver` | media/ikcp.c:690-739 | For any segment, ikcp_parse_data keeps rcv_buf strictly sorted, free of duplicates and inside the window, rcv_queue consecutive up to rcv_nxt - 1 and at most rcv_wnd long, and a head equal to rcv_nxt only when the queue is full |
| `ReceiverInvariant.WindowTest` | media/ikcp.c:696-700 | The two signed comparisons hold if and only if the number lies in [rcv_nxt, rcv_nxt + rcv_wnd) on the circle |
| `ReceiverInvariant.InsertSorted` | media/ikcp.c:702-722 | The backward search inserts in circular order, and adds the segment if and only if its number was absent |
| `ReceiverInvariant.DeliverRestores` | media/ikcp.c:414-425 | Moving up the front of rcv_buf ends with a gap at rcv_nxt or a full queue |
| `ReceiverInvariant.BufferBound` | media/ikcp.c:690-726 | rcv_buf never holds more than rcv_wnd segments |
| `Endpoint.FragmentsShape` | media/ikcp.c:509-541 | Fragments number down to zero, none exceeds mss, there are as many as the division says, and joined they are the message |
| `Endpoint.SendExactly` | media/ikcp.c:509-543 | In message mode a message of at most 127 * mss bytes is accepted: its length is returned and fragments that join to it, no more of them than needed and numbered down to zero, are appended; a longer one gets -2 and changes nothing |
| `Reading.RecvExactly` | media/ikcp.c:358-435 | -1 without data, -2 while fragments are missing, -3 when the message is longer than the buffer, and nothing changes; otherwise the payloads up to the first segment without followers, taken off unless peeking, nothing else lost, the queue filled up again, and a window report owed exactly when a full queue got room |
| `Startup.FirstSegment` | media/ikcp.c:234-295 | At an input: from a fresh block with one message, the first update opens the window to one segment and sends nothing, and the update one interval later sends exactly that message under number 0, with the whole receive window and a timeout of 200 ms |
| `Startup.ReachableProbe` | media/ikcp.c:978-998 | For arbitrary input bytes, in every reachable state no probe is left pending and the probe timer is off or between 7 and 120 seconds |
| `Endpoint.PeekIsMessageLength` | media/ikcp.c:441-463 | For any queue, a size announced by ikcp_peeksize is the length ikcp_recv merges, so its assertion never fails |
| `Endpoint.RecvReportsRoom` | media/ikcp.c:427-432 | A read that makes room in a full queue makes the next flush report that room in a datagram the peer decodes |
| `Endpoint.FlushTimers` | media/ikcp.c:1056-1115 | After a flush with nodelay = 1 on a live link, each segment in snd_buf was sent 1 to 20 times, its rto is within the ceiling, and resendts is strictly after current on the circular clock |
| `Endpoint.RtoCeilGeometric` | media/ikcp.c:1064-1078 | The ceiling of a segment's rto is at most 60000 * 1.5^(xmit - 1) |
| `Endpoint.RtoCeilFits` | media/ikcp.c:1064-1078 | The ceiling stays below 2^31 up to the dead-link count |
| `Endpoint.FlushRoundTrip` | media/ikcp.c:913-1121 | Every datagram of a flush is non-empty, at most mtu bytes and decoded with result 0, and decoding them in order gives exactly the flushed segments |
| `Endpoint.FlushSendsAcks` | media/ikcp.c:964-975 | A flush sends each recorded (sn, ts) exactly once, in order and first, sends no other acknowledgement, and empties the list |
| `Transmission.FlushExactly` | media/ikcp.c:1024-1115 | The whole sending half after a flush, on its fields: exactly as many fragments are numbered as wait or fit the least of the windows, and every segment of snd_buf is left as its own deadline, counts and timers call for |
| `Transmission.FlushEmits` | media/ikcp.c:1056-1121 | The data segments of a flush are, in the order of snd_buf and each once, exactly those that are new, overdue or skipped often enough |
| `Transmission.FlightEmitted` | media/ikcp.c:1090-1109 | A segment in flight goes out, with its number and payload and stamped with the current time, if and only if it is new, overdue or skipped often enough |
| `Transmission.FastExactly` | media/ikcp.c:1079-1087 | A sent segment whose deadline is ahead goes out if and only if fastack >= fastresend and xmit <= 5, and then has xmit one higher, fastack 0 and the deadline current + rto; otherwise it is unchanged |
| `Transmission.TimeoutExactly` | media/ikcp.c:1064-1078 | An overdue segment goes out and its rto grows: by half with nodelay = 1, by the larger of its own and rx_rto with nodelay = 0 |
| `Transmission.LossReaction` | media/ikcp.c:1124-1144 | On the numbers: after a timeout cwnd is 1 and ssthresh half the window in use; after a fast retransmission alone ssthresh is half of what is in flight and cwnd that plus fastresend; otherwise both stay |
| `Transmission.DeadExactly` | media/ikcp.c:1111-1113 | The link is dead exactly from the first time a segment goes out for the twentieth time or later; the timeout counter grows by the number of overdue segments |
| `Transmission.ProbesExactly` | media/ikcp.c:978-1021 | A probe goes out exactly when the peer's window is closed and the timer has run out, a report exactly when one is owed; the timer starts at 7 seconds, grows by half, stops at 120 and is off while the window is open |
| `Transmission.HeadersExactly` | media/ikcp.c:949-962 | Every segment of a flush carries the conversation, una = rcv_nxt and the room left in the receive queue |
| `Transmission.AdmitCount` | media/ikcp.c:1028-1049 | The number of fragments admitted is the number waiting or the room left in the window, whichever is less |
| `Pacing.UpdateExactly` | media/ikcp.c:1153-1178 | An update flushes if and only if ts_flush is reached or is ten seconds off; then the next one is due within an interval, at ts_flush + interval when this one came less than an interval late; otherwise only the time is taken |
| `Pacing.QuietUntil` | media/ikcp.c:1153-1178 | While no poll of a run flushes, no poll has reached the scheduled time, whatever else the endpoint does |
| `Pacing.FlushesAreClose` | media/ikcp.c:1153-1178 | Over runs: polled at least every d milliseconds, two successive flushes are less than an interval and d apart, and none comes before its time |
| `Retransmission.CheckIsSafe` | media/ikcp.c:1190-1226 | An ikcp_update at any time before the one ikcp_check gave changes nothing but the clock, and no segment's resendts has been reached |
| `Retransmission.CheckIsTight` | media/ikcp.c:1190-1226 | The time given is within interval, and unless it is a full interval away a flush or a retransmission is due when it comes |
| `Retransmission.EarliestIsEarliest` | media/ikcp.c:1213-1220 | The scan finds the earliest deadline: 0 if and only if one is due, otherwise a lower bound that is attained |
| `Retransmission.FastBudget` | media/ikcp.c:1079-1088 | Over any run during which a segment stays in flight it is fast-retransmitted at most 5 times, fewer the more often it was sent before |
| `Retransmission.InputFastack` | media/ikcp.c:805-821 | One ikcp_input raises a surviving segment's fastack by at most one, and only if its number is strictly before the largest recorded acknowledgement |
| `Acknowledgement.AckExactly` | media/ikcp.c:793-817 | A datagram of one acknowledgement, on the fields: it removes exactly the segments below una and the one acknowledged, counts as skipped exactly those before it that were sent no later, takes the window, and updates the estimator exactly when the time is not ahead of the clock |
| `Acknowledgement.PushExactly` | media/ikcp.c:822-851 | A datagram of one data segment: it is recorded for acknowledgement, number and time, unless it lies beyond the window; it is stored if and only if it lies inside and was absent; all that was stored stays |
| `Acknowledgement.ControlExactly` | media/ikcp.c:852-866 | A probe makes a window report owed, a report does no more than every segment does |
| `Acknowledgement.CodesExactly` | media/ikcp.c:756-793 | The result code of ikcp_input for any bytes, -1 with nothing changed below 24 bytes included |
| `Acknowledgement.MarkExactly` | media/ikcp.c:805-817 | Over a whole datagram, the mark for fast acknowledgement is one of its acknowledgements, and none of them is later both in number and in time |
| `Acknowledgement.CountsExactly` | media/ikcp.c:616-638 | Of the segments a datagram leaves in flight, exactly those before the mark and sent no later get their fast-ack count raised, by one |
| `Retransmission.StepFlight` | media/ikcp.c:1056-1088 | Across any operation the xmit of a segment that stays in flight grows by at most one; a fast retransmission raises it by one and needs 1 <= xmit <= fastlimit |
| `Congestion.GrowConsistent` | media/ikcp.c:882-904 | Growth keeps cwnd*mss <= incr + mss - 1 and incr < (cwnd+1)*mss without 32-bit wrap, and raises cwnd by at most 2 |
| `Growth.InputGrowth` | media/ikcp.c:882-904 | On unbounded numbers: an input that moves snd_una forward with cwnd below the peer's window adds one segment below ssthresh, and otherwise adds mss^2/incr + mss/16 bytes, with cwnd the fewest segments that hold them once one more fits, up to the peer's window; every other input leaves the congestion window as it was |
| `Growth.WindowOpens` | media/ikcp.c:882-904 | Over runs without retransmissions cwnd never shrinks, and it has grown once the inputs that moved snd_una forward, at mss/16 bytes each, have made up what incr lacks to one more segment |
| `Growth.TwoSegmentsOpenOne` | media/ikcp.c:882-904 | Whatever incr stands at, such inputs worth two segments open at least one |
| `Congestion.ReactConsistent` | media/ikcp.c:1124-1144 | The end of a flush keeps the same relation, ssthresh >= 2 and cwnd >= 1 |
| `Congestion.NextIncrBounds` | media/ikcp.c:890-892 | The byte count grows without wrap by less than 17/16 of a segment, by at most 9/16 once it is above two segments |
| `Rtt.RunIsIdeal` | media/ikcp.c:550-565 | While samples stay below R with 8R < 2^31, the 32-bit estimator equals the unbounded one over the whole run, both averages stay in [0, max(R,1)] and rto in [minrto, 60000] |
| `Rtt.UpdateTimeoutBounds` | media/ikcp.c:563-564 | Whatever the sample and state, rx_rto ends in [rx_minrto, 60000] |
| `Words.TimeDiffIsExactWithinHalf` | media/ikcp.c:136-139 | The circular difference is the true difference of the unwrapped numbers if and only if that difference fits a signed 32-bit word |
| `Words.TimeDiffFromOrigin` | media/ikcp.c:136-139 | Within half a circle of a common origin the circular comparison is the comparison of distances |
| `Wire.DecodeEncode` | media/ikcp.c:54-121 | Decoding undoes encoding one segment, with the rest of the datagram decoded after it |
| `Wire.Layout` | media/ikcp.c:913-924 | The header byte by byte: command at 4, fragment at 5, window at 6, then time, number, una and length, all words low byte first, 24 bytes in all |
| `Wire.DecodeExactly` | media/ikcp.c:768-793 | Decoding any bytes: the segments taken are, encoded again, the bytes up to where the loop stops, and the code says why it stops: 0 for less than a header, -1 another conversation, -2 a length that does not fit, -3 an unknown command |
| `Wire.PackGreedy` | media/ikcp.c:964-1121 | Packing is greedy: no datagram of a flush would have held the first segment of the next one too |
| `Wire.PackRoundTrip` | media/ikcp.c:964-1121 | Packing any fitting segments gives non-empty datagrams within the MTU that decode with result 0 to the same segments in order |
| `AckStore.AckList.Push` | media/ikcp.c:644-678 | The doubling array appends the pair to the sequence of pairs; capacity is 8 times a power of two and at most doubles what is needed |
| `AckStore.AckList.Grow` | media/ikcp.c:649-671 | The growth loop ends with room for the new pair and the old pairs copied |
| `AckStore.AckList.Get` | media/ikcp.c:680-684 | Reads the p-th pair |
| `KcpControl.ControlBlock.constructor` | media/ikcp.c:234-295 | A control block in the fresh state, field by field, configured as ikcp_nodelay, ikcp_wndsize and ikcp_setmtu do, interval between 10 and 5000 included |
| `KcpControl.CutMessage` | media/ikcp.c:519-541 | The loop produces exactly the fragments of the message |
| `KcpControl.MergeNext` | media/ikcp.c:383-409 | The loop returns the next message and the number of segments it used |
| `KcpControl.CutAcked` | media/ikcp.c:586-597 | The search removes what the specification removes, and reports a deletion exactly when the list became one shorter |
| `KcpControl.MarkSkipped` | media/ikcp.c:623-637 | The loop counts the skipped segments of the specification |
| `KcpControl.InsertSegment` | media/ikcp.c:702-722 | The backward search inserts as specified, for any buffer, and reports a repeat exactly when the list did not grow |
| `KcpControl.ControlBlock.Send` | media/ikcp.c:469-544 | ikcp_send refines Send: result code and whole new state, error codes -1 and -2 included |
| `KcpControl.ControlBlock.PeekSize` | media/ikcp.c:441-463 | ikcp_peeksize returns the specified size, -1 while incomplete |
| `KcpControl.ControlBlock.Recv` | media/ikcp.c:358-435 | ikcp_recv refines Recv: code, bytes, whole new state, in reading and peeking mode |
| `KcpControl.ControlBlock.UpdateAck` | media/ikcp.c:550-565 | Refines the estimator and changes nothing else |
| `KcpControl.ControlBlock.ParseAck` | media/ikcp.c:578-598 | Refines the specification; nsnd_buf, decremented on a deletion, still equals the list length |
| `KcpControl.ControlBlock.ParseUna` | media/ikcp.c:600-614 | Refines the specification on the whole control block |
| `KcpControl.ControlBlock.ParseFastack` | media/ikcp.c:616-638 | Refines the specification on the whole control block |
| `KcpControl.ControlBlock.ParseData` | media/ikcp.c:690-750 | Refines the specification; nrcv_buf, incremented on a non-repeat, still equals the list length |
| `KcpControl.ControlBlock.Input` | media/ikcp.c:756-907 | ikcp_input refines Input for any bytes: result code, and the effect of the segments before an error |
| `KcpControl.ControlBlock.GrowWindow` | media/ikcp.c:882-904 | Refines the growth of the congestion window |
| `KcpControl.ControlBlock.FlushAcks` | media/ikcp.c:964-975 | Packs one segment per recorded pair, in order, into the output buffer |
| `KcpControl.ControlBlock.ScheduleProbe` | media/ikcp.c:978-998 | Refines the schedule of window probes |
| `KcpControl.ControlBlock.AdmitNew` | media/ikcp.c:1028-1049 | Refines the admission of new segments |
| `KcpControl.ControlBlock.SweepBuf` | media/ikcp.c:1056-1115 | Refines the pass over snd_buf: new retransmission state, datagrams filled, counts, dead link |
| `KcpControl.ControlBlock.ReactToLoss` | media/ikcp.c:1124-1144 | Refines the congestion reaction at the end of a flush |
| `KcpControl.ControlBlock.Flush` | media/ikcp.c:938-1145 | ikcp_flush refines Flush: whole new state, and exactly the specified datagrams handed to the output callback |
| `KcpControl.ControlBlock.Update` | media/ikcp.c:1153-1178 | ikcp_update refines Update: whole new state and datagrams |
| `KcpControl.ControlBlock.Check` | media/ikcp.c:1190-1226 | ikcp_check returns the specified time |
| `Ring.Init` | media/ikcp.h:151-152 | The empty ring |
| `Ring.IsEmpty` | media/ikcp.h:183 | True if and only if the sequence is empty |
| `Ring.Add` | media/ikcp.h:165-167 | Insert-after on the abstract sequence, all next and prev links of the ring well formed, only three nodes written |
| `Ring.AddTail` | media/ikcp.h:169-171 | Append on the abstract sequence, only three nodes written |
| `Ring.Del` | media/ikcp.h:175-178 | Removal from the abstract sequence, the entry's links cleared, only three nodes written |
| `Ring.MoveFirst` | media/ikcp.c:728-739 | Head of one queue to the tail of the other, both rings well formed and apart |
| `Ring.MoveMany` | media/ikcp.c:1028-1037 | A whole run of such moves moves a front part in order |
| `AnnexB.Split` | camera/rtsp_client.c:65-89 | The scan writes exactly the specified views, within the capacity |
| `AnnexB.SplitJoined` | camera/rtsp_client.c:65-89 | Splitting undoes joining: of well-formed units behind three- or four-byte start codes the first max_nalus come back in order, byte for byte |
| `AnnexB.SplitAny` | camera/rtsp_client.c:65-89 | Splitting any buffer: after a lead without start codes it is units behind start codes, each reaching to the next code, and the first max_nalus are written byte for byte, empty ones included unless last |
| `Rtp.ParseHeader` | car_detect_qt/h264rtpreassembler.h:21-47 | Parsing undoes building: sequence number, marker and payload come back |
| `Rtp.ParseHeaderOrigin` | car_detect_qt/h264rtpreassembler.h:21-47 | The timestamp and the source identifier come back too |
| `Rtp.ParseHeaderProfile` | camera/rtsp.c:39-41 | Version 2, no padding, extension or contributing sources, and payload type 96 |
| `Rtp.ShortUnit` | camera/rtsp.c:97-121 | A unit of at most 1384 bytes goes into one packet, read byte by byte, with the marker if and only if its type is not 6, 7 or 8 |
| `Rtp.LongUnit` | camera/rtsp.c:123-178 | A longer unit goes into fragments of 1382 bytes and the rest, read byte by byte: consecutive numbers, the marker on the last, start and end flags, reference bits and type of the unit |
| `Rtp.FuFields` | camera/rtsp.c:145-153 | The FU indicator and FU header give back start flag, end flag and the original NAL header byte |
| `Rtp.PacketFits` | camera/rtsp.c:90-179 | No packet exceeds the buffer it is built in |
| `Rtp.ConcatAll` | camera/rtsp.c:123-178 | The header byte and the chunks of a fragmented unit, in order, are the unit |
| `Rtp.Session.NextSeq` | camera/rtsp.c:53-55 | Returns the low 16 bits of the counter and advances it |
| `Rtp.Session.BuildHeader` | camera/rtsp.c:34-51 | The twelve bytes of the RTP header, written in place |
| `Rtp.Session.SendNal` | camera/rtsp.c:90-179 | rtp_send_h264 sends exactly the specified packets and advances the counter by their number |
| `Rtp.Session.SendFragments` | camera/rtsp.c:123-178 | The FU-A loop sends exactly the specified fragments |
| `Reassembler.Assembler.HandleRtp` | car_detect_qt/h264rtpreassembler.cpp:11-71 | handleRtp refines the specification: duplicate filter, gap reset, whole new state and signalled frames |
| `Reassembler.Assembler.ProcessRtpNalu` | car_detect_qt/h264rtpreassembler.cpp:73-302 | _processRtpNalu refines the specification |
| `Reassembler.Assembler.ProcessFuNext` | car_detect_qt/h264rtpreassembler.cpp:197-280 | A middle or end fragment: insertion by raw 16-bit key, size limit, completeness check, append or reset |
| `Reassembler.Assembler.IsComplete` | car_detect_qt/h264rtpreassembler.cpp:238-251 | The loop accepts exactly a contiguous map whose last key is the promoted expected number minus one |
| `Lossless.WholeRunComplete` | car_detect_qt/h264rtpreassembler.cpp:238-279 | For a whole run of fragments in the map, the completeness check succeeds if and only if the run avoids 65535, and then the glued fragments are the unit |
| `Lossless.UnitArrives` | car_detect_qt/h264rtpreassembler.cpp:121-302 | All packets of one unit, in order: exactly which unit, frame and parameter sets come out, wrap of the counter and oversized units included |
| `Lossless.StreamArrives` | car_detect_qt/h264rtpreassembler.cpp:11-302 | Lossless reassembly of any stream from any starting number equals the reference, frame boundaries and parameter sets included |
| `Lossless.LosslessIdentity` | car_detect_qt/h264rtpreassembler.cpp:11-302 | The output is all units sent, each behind a four-byte start code, if and only if every unit fits one packet or has at most 1024 fragments that avoid 65535 |
| `Lossless.UndeliverableDropped` | car_detect_qt/h264rtpreassembler.cpp:227-279 | A unit outside the condition, sent by itself without loss, comes out as nothing |
| `Lossless.DroppedAtWrap` | car_detect_qt/h264rtpreassembler.cpp:238-279 | At an input: every unit of 1386 bytes sent from number 65534 is dropped |
| `Lossless.DroppedTooLong` | car_detect_qt/h264rtpreassembler.cpp:227-235 | At an input: every unit of 1025 fragments sent from number 0 is dropped |
| `Pipeline.PipelineIdentity` | camera/rtsp_client.c:144-154 | Split, packetize and reassemble is the identity on access units of at most 32 units, with the same exact condition |
| `Pipeline.ViewerOverKcp` | camera/kcp.c:15-19 | With the RTP packets carried over the KCP connection, under any loss, repetition, reordering and timely arrival of its datagrams, the frames shown are a prefix of the reference frames of everything the camera sent |
| `Pipeline.ViewerCatchesUp` | camera/kcp.c:15-19 | After any timely run over KCP there is a continuation, with nothing new sent, after which the viewer's frames, parameter sets and frame under way are exactly the reference for everything the camera sent |
| `Pipeline.FramesGrow` | car_detect_qt/h264rtpreassembler.cpp:296-301 | More packets only add frames |
| `Lossy.LossSafety` | car_detect_qt/h264rtpreassembler.cpp:27-302 | Under any loss, duplication and reordering, every signalled frame and the frame under way are whole sent units behind start codes, in send order, none twice |
| `Lossy.LossSafetyExactly` | car_detect_qt/h264rtpreassembler.cpp:31-44 | For every counter a and every number n of packets: loss safety holds of every stream and every delivery if and only if, with b the low 16 bits of a, b >= 1 and b + n <= 65536 and (b >= 3 or b + n <= 65533) |
| `Lossy.ProbeTwice` | car_detect_qt/h264rtpreassembler.cpp:31-44 | The concrete deliveries that break it: any packet, then packet 0, whenever the duplicate test lets packet 0 through |
| `Lossy.LossMixesUnits` | car_detect_qt/h264rtpreassembler.cpp:29-64 | Across a wrap, loss alone mixes units: of 65538 packets from number 65532, with 65533, 65534 and 65535 lost and all others delivered in order, the one frame signalled is the front of the first unit and the back of the last |
| `Lossy.MixtureUnfaithful` | car_detect_qt/h264rtpreassembler.cpp:238-279 | At an input: that delivery of a concrete stream is outside what loss safety allows |
| `Lossy.HandleSafe` | car_detect_qt/h264rtpreassembler.cpp:27-71 | One packet, new, repeated or late, keeps the invariant of a lossy run |
| `Lossy.CompletesUnit` | car_detect_qt/h264rtpreassembler.cpp:238-279 | A map that passes the completeness check holds exactly the fragments of one unit, never of two |
| `Sparse.SmallLossExactly` | car_detect_qt/h264rtpreassembler.cpp:46-302 | What does come out after loss: of packets in order with steps of at most three numbers, the units in the signalled frames and the frame under way are exactly those all of whose packets arrived, in order, if they fit one packet or have at most 1024 fragments clear of 65535 |
| `Sparse.RowTracks` | car_detect_qt/h264rtpreassembler.cpp:73-302 | For such deliveries the frames, the frame under way and the parameter sets are exactly those that the numbers that arrived call for |
| `Sparse.KeptUnits` | car_detect_qt/h264rtpreassembler.cpp:73-302 | What the numbers call for, as a list of units: exactly the whole ones, increasing |
| `Sparse.OneLost` | car_detect_qt/h264rtpreassembler.cpp:46-64 | At an input: a parameter set, one lost packet and a slice come out as one frame of both units |
| `Restart.LargeStepLoses` | car_detect_qt/h264rtpreassembler.cpp:46-64 | A step of more than three numbers loses exactly the frame under way and the fragments held: the frames are those signalled before and those of the packets from the step on, by themselves |
| `Restart.OnlyNewest` | car_detect_qt/h264rtpreassembler.cpp:29-44 | Packets that come late or again change nothing: only those newer than all before count |
| `Restart.DeliveryExactly` | car_detect_qt/h264rtpreassembler.cpp:11-302 | Every delivery of a stream, whatever is lost, repeated or out of order, comes out as exactly the frames that the numbers call for, stretch by stretch |
| `Restart.HandleBehind` | car_detect_qt/h264rtpreassembler.cpp:11-302 | What was signalled before has no influence on what comes after |

## Left out

- Stream mode of `ikcp_send`: never enabled in this repository.
- `camera/ikcp.c`, `car_detect_qt/ikcp.c` and their headers: copies of the files in `media/`.
- Logging, allocator hooks, allocation failure, NULL buffers, `ikcp_release`, `ikcp_waitsnd`: no protocol content.
- Changing the MTU, windows or nodelay settings after the first send: the repository sets them once.
- Connection.InOrderDelivery: like the other statements about reachable states of two endpoints, for runs whose arrivals are timely. The limits on data and on una are proved exact, each with the other condition in place; for the limit of 2^32 on acknowledged numbers only the step that fails beyond it is given (`StaleAck.StaleAckDrops`), no run, because the limit on una of the same datagram nearly always fails first.
- Recovery.EverythingCanArrive: says that a continuation exists. That all schedules of a kind finish is `Polling.EveryScheduleFinishes`, for turns that wait until everything is due and whose datagrams arrive in order; finer schedules, with partial loss in every turn, are not covered, and a network that also repeats a report of a closed window before every flush starves the sender (`Recovery.ReportsStarve`). A dead link only sets a flag in the code, so it does not stop either.
- Receive windows above 65535: the advertised window is a 16-bit field.
- Endpoint.InputKeeps, Endpoint.FlushKeeps, Growth.InputGrowth, Transmission.LossReaction: the statements about cwnd are for an MTU up to 65535 and a fast-resend threshold of 1 to 32768, which covers the repository's 1450 and 2; beyond that the 32-bit products wrap.
- Acknowledgement.AckExactly: like the statements beside it on one datagram, for a `una` and a number not so far behind that the circular comparison turns over; `StaleAck.StaleUnaDrops` says what happens beyond. The sets are exact for datagrams of one segment; for several, the mark and the counts are (`Acknowledgement.CountsExactly`).
- Restart.DeliveryExactly: for streams whose numbers keep to the range of `Lossy.LossSafetyExactly`; `Sparse.SmallLossExactly` also covers the number 0.
- Endpoint.FlushTimers: for nodelay = 1, the repository's setting, until the link is declared dead; the deadline is after `current` in the sense that the circular difference is negative.
- Retransmission.FastBudget: for runs of fewer than 2^31 operations, after which the transmission count would wrap.
- Rtt.RunIsIdeal: for samples with 8R < 2^31; beyond that the source overflows signed words, which the model wraps.
- KcpControl.ControlBlock.Input: signed overflow, undefined in C, is modelled as wrapping, and an acknowledgement list of 2^31 pairs is not modelled.
- KcpControl.ControlBlock.constructor: the object's fields are grouped into records and its queues are sequences; the intrusive linked lists are proved to refine sequences in `Ring.dfy`, without segments attached.
- KcpControl.ControlBlock.Flush: the output callback appends to a list of datagrams; its return value is ignored in the source too.
- Lossless.LosslessIdentity: for NAL types 1 to 23, the ones the reassembler accepts; types 0 and 24 to 31 are covered by the model of the reassembler but not by the identity.
- Reassembler.Assembler.HandleRtp: one object per stream; the switch between streams, the display and FFmpeg decoding are not part of this model.
- Sockets, epoll, timers, threads and locks, RTSP text parsing, capture, encoding and the user interface: input and output around the modelled cores.
