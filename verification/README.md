# Verification of the FTL client SDK

A Dafny 4.11 model of the protocol and state logic of the FTL streaming SDK, and proofs about it.
`dafny verify dfyconfig.toml` checks everything.

The SDK cuts H.264 NAL units into RTP packets, keeps them in a ring of 2048 slots from which a sender
thread and a retransmission handler work at the same time, paces what it sends, adapts the encoder's
bitrate to what it observes, and tears all its threads down again. The project has one module for each
of these parts:

- `RtpPackets`: the packets of a NAL unit (sections 5.6 and 5.8 of RFC 6184, section 5.1 of RFC 3550), and
  a receiver written from RFC 6184 alone that puts them together again.
- `RetransmitRing`: the ring as a machine whose steps are the sections under its locks, with a producer, a
  sender thread and a NACK handler in any interleaving. Stamping a slot with its new number and filling it
  are two steps, as in the code.
- `VideoPipeline`: `media_send_video` in front of the ring: the gate for audio and key frames, the packet
  loop, what a full ring does; and what a receiver gets of it in the end.
- `MediaComponent`: the same code as classes with in-place updates. A ghost field follows the machine of
  `VideoPipeline`, so what holds of all its runs holds of these methods.
- `NackDecoding`: feedback datagrams into retransmission requests (section 6.2.1 of RFC 4585).
- `Pacing`: the token bucket of the video sender thread.
- `BitrateController`: the adaptive bitrate thread, over whole runs.
- `MediaClock`: RTP timestamps, `struct timeval` arithmetic and the clocks of sender reports.
- `Teardown`: any number of threads in `ftl_ingest_disconnect`, the connection status thread, the six worker
  threads and the media callers, step by step in any order.
- `StatusQueue`: the bounded queue of status messages, as a linked list and as a concurrent machine.
- `Sha512Standard`, `Sha512`, `Hmac`: FIPS 180-4 and RFC 2104 as published, and the code proved equal to them.
- `Bitstream`, `NalUnit`: the bit reader, Exp-Golomb codes and emulation prevention of the demo application.
- `Arithmetic`, `Bytes`, `Octets`: shared arithmetic and machine integers.

Concurrent parts are machines: a `Step` datatype, an `Enabled` predicate, an `Apply` function and a `Run` over
any list of steps; main results say something of every `Run`. Parts that change state in place are classes and
methods whose contracts equate the new state with a function of the old one, and the properties are proved of
that function. Clocks, `sendto`, `recvfrom`, callbacks and statistics snapshots are parameters of the steps.

Where the code does not do what its documentation or a standard says, the code was followed and the exact
condition proved:

- A NAL unit whose RBSP ends in an odd number of zero bytes keeps the final emulation prevention byte as data
  (`NalUnit.RoundTrip`, `NalUnit.FinalThreeIsKept`).
- The code packetises whatever it is given. A unit of type 0 or 24 to 31 in a single packet is not delivered, and a
  fragmented one loses its forbidden bit (`RtpPackets.DeliveredIff`).
- An RTP timestamp is right exactly if its 64-bit product wraps a multiple of 15625 times, so it is wrong for a
  frame well before the first one (`MediaClock.TimestampExactIff`, `MediaClock.BackwardsIsWrong`).
- A raise of the bitrate can lower it if the sum wraps (`BitrateController.IncreaseIff`, `IncreaseCanLower`).
- `media_send_audio` returns on a full ring without unlocking its recursive mutex. A disconnect can still come to its
  end exactly if that has not happened, or media is torn down already, or the thread it happened to is the one that
  disconnects (`Teardown.FinishIff`, `Teardown.LeakerDecides`).
- The pacing credit overflows an int in a long pause: 28 minutes and 40 seconds at 10000 kbps. The level bound and the
  single sleep hold exactly where it does not, or wraps to where it does no harm; the rate bound holds regardless
  (`Pacing.LevelIff`, `Pacing.OneSleepIff`, `Pacing.PauseOverflows`, `Pacing.RateBound`).
- SHA-512 counts the message length in 64 bits, so it pads as the standard exactly below 2^64 bits
  (`Sha512.Context.Finalise`, `Sha512.PadIsStandard`).
- Upgrades are frozen for 180000 ms, although the comments speak of ten minutes (`BitrateController.RunKeepsInv`,
  `BitrateController.RaisesBeforeTenMinutes`).
- The NTP time of a sender report is a sum of doubles and off by up to 1024 units of 2^-32 s; no microsecond is lost
  (`MediaClock.NearNtp`).

## Model

| member | source | states |
|---|---|---|
| RtpPackets.FragmentsMakeUnit | libftl/media.c:962-1012 | called on the bytes left, the packet builder emits exactly the i-th payload of the unit, moves on to the next one, and finishes with the last |
| RtpPackets.TurnMakesPacket | libftl/media.c:716-739 | header, payload and marker of one turn of the packet loop are the i-th packet RFC 6184 and RFC 3550 define for the unit |
| RtpPackets.FragmentIndex | libftl/media.c:1000-1011 | the fragments of a long unit of n bytes are ceil((n-1)/1378), not empty, adjacent, and end at its last byte |
| RtpPackets.SinglePacket | libftl/media.c:977-982 | the packets of a unit of up to 1380 bytes are one packet, which carries it whole |
| RtpPackets.FewestPackets | libftl/media.c:1000-1011 | a longer unit takes the least number of packets that holds its bytes at 1378 in each |
| RtpPackets.FragmentFlags | libftl/media.c:985-996 | S marks exactly the first fragment and E exactly the last, and never both |
| RtpPackets.PacketFields | libftl/media.c:941-960 | a reader of the packet finds the sequence number, the payload, and the marker exactly on the last packet of a unit that ends a frame |
| RtpPackets.HeaderBytes | libftl/media.c:941-960 | byte by byte, in network order: version 2, payload type 96 with the marker on a frame's last packet only, the packet's number, and the unit's timestamp and SSRC in their own places |
| RtpPackets.ReceiveSingle | libftl/media.c:977-982 | a receiver gets a short unit back from its single packet, whatever it was collecting |
| RtpPackets.ReceiveFragment | libftl/media.c:983-1009 | a receiver extends its run by each fragment and delivers the unit with the last |
| RtpPackets.ReceiveUnit | libftl/media.c:962-1012 | the first m packets of a unit deliver nothing, and all of them deliver exactly the unit, NAL header bits included |
| RtpPackets.DeliveredIff | libftl/media.c:962-1012 | a receiver gets a unit of up to 1380 bytes back exactly if its type is 1 to 23, and a longer one exactly if its forbidden bit is 0 |
| RetransmitRing.FullIff | libftl/media.c:803-810 | the full test on numbers modulo 2048 holds exactly when 2047 packets are queued |
| RetransmitRing.QueuedIsDepth | libftl/media.c:826-833 | packets_queued, computed on wrapped numbers, is the number of packets built and not yet picked |
| RetransmitRing.PickIsBuilt | libftl/media.c:857-870 | after a pend, the slot the sender is about to take holds the oldest packet not yet taken, complete and under its own number |
| RetransmitRing.PickedIntact | libftl/media.c:864-900 | a picked packet stays as it was built until it is sent, and the producer never holds its slot |
| RetransmitRing.NackExact | libftl/media.c:905-939 | a number is answered exactly if its packet is among the last 2048 and its slot is not being claimed again, then with the packet last built for it; or if it is claimed and not yet built |
| RetransmitRing.BlockedIff | libftl/media.c:716-936 | the producer and the sender are blocked exactly by a handler that holds the slot of the packet they are at |
| RetransmitRing.AnsweredIff | libftl/media.c:905-939 | in every run, a request puts one packet on the wire exactly under that condition, the requested one; otherwise it cannot be answered |
| RetransmitRing.StepKeepsInv | libftl/media.c:787-939 | every section under a lock keeps the ring, the semaphore, the slots and the history in agreement |
| RetransmitRing.RunKeepsInv | libftl/media.c:702-939 | that agreement holds in every interleaving, across the wrap of sequence numbers |
| RetransmitRing.RunIsSafe | libftl/media.c:702-939 | in every interleaving: depth at most 2047 and equal to semaphore plus pending sections, only built slots picked, picked slots never reclaimed, the wire in order without gaps, every retransmission the packet asked for |
| RetransmitRing.CanCatchUp | libftl/media.c:857-939 | no deadlock: from every reachable state sender and handler alone can go on until every packet posted is on the wire and no slot is held |
| VideoPipeline.StepKeepsInv | libftl/media.c:656-767 | each step of the gate, the packet loop, the sender and the handler keeps the ring, the flags and the log of offers in agreement |
| VideoPipeline.RunKeepsInv | libftl/media.c:656-767 | so in every interleaving: what was built is the packets of the logged units, numbered through |
| VideoPipeline.ReceiveLog | libftl/media.c:702-748 | from the packets of any history, cut units included, a receiver gets exactly the completely queued units |
| VideoPipeline.RoundTrip | libftl/media.c:645-767 | in every interleaving, what a receiver makes of the wire is a prefix of the completely queued units, in order and byte for byte, and all of them once the sender has caught up |
| VideoPipeline.NothingLost | libftl/media.c:702-748 | in every run in which no claim finds the ring full, once the sender has caught up a receiver has exactly the admitted units, in order and byte for byte |
| VideoPipeline.RingsAreSafe | libftl/media.c:702-939 | both rings of the pipeline have the ring's safety in every interleaving |
| VideoPipeline.PacketNumbers | libftl/media.c:962-1012 | the k-th packet of a history has number k modulo 65536 and at most 1392 bytes |
| VideoPipeline.MarkedIff | libftl/media.c:732-736 | packet k of a history is marked exactly if it is the last packet of a completely queued unit that ends a frame |
| VideoPipeline.MarkersEndFrames | libftl/media.c:732-736 | there are as many marked packets as frames queued to their end |
| VideoPipeline.LossRecovery | libftl/media.c:674-714 | after a reference unit was cut, nothing is queued before an SPS, and the first unit queued completely, or in progress, is one |
| VideoPipeline.StartsWithSps | libftl/media.c:656-694 | the first unit with a packet in the ring, queued or in progress, is an SPS |
| VideoPipeline.AdmitsIff | libftl/media.c:656-694 | in every run, a unit offered between calls starts to be queued exactly if audio has been offered and, while the stream waits, it is an SPS (type 7); any other unit is dropped and changes nothing else |
| VideoPipeline.WaitingIff | libftl/media.c:674-714 | the stream waits exactly until its first admitted unit, and again if the last admitted unit was cut with a nal_ref_idc that is not zero |
| VideoPipeline.AudioAdmittedIff | libftl/media.c:593-599 | a free audio ring takes a packet exactly if audio has been offered and an SPS was admitted |
| VideoPipeline.AudioAfterSps | libftl/media.c:593-599 | no audio packet is built before an SPS was admitted |
| VideoPipeline.TurnLeaves | libftl/media.c:702-748 | a turn of the loop queues exactly one packet and moves on, or gives the unit up and builds nothing |
| VideoPipeline.SendIsRun | libftl/media.c:645-767 | a call that no one interferes with is one of the interleavings |
| VideoPipeline.CanDeliver | libftl/media.c:702-903 | from every reachable state the parties have steps after which the unit in progress is complete, the ring is empty, and a receiver has exactly the units completed before and that one |
| MediaComponent.VideoComponent.constructor | libftl/media.c:322-345 | a new component is the initial state of the machine, with 2048 separate empty slots |
| MediaComponent.VideoComponent.GetEmptySlot | libftl/media.c:787-816 | null exactly if the ring is full; else the slot of the number, stamped and otherwise unchanged |
| MediaComponent.VideoComponent.MakeVideoRtpPacket | libftl/media.c:962-1012 | the bytes written to the buffer are header and fragment as the machine defines them |
| MediaComponent.VideoComponent.BuildVideoPacket | libftl/media.c:716-743 | the section under the slot mutex is the machine's build step, for every slot and buffer |
| MediaComponent.VideoComponent.PostPacket | libftl/media.c:744 | the post is the machine's post step |
| MediaComponent.VideoComponent.GiveUp | libftl/media.c:707-714 | the branch for a full ring is the machine's claim step on a full ring |
| MediaComponent.VideoComponent.OfferAudio | libftl/media.c:593-599 | the stream is ready from then on, whether or not a packet may be made yet |
| MediaComponent.VideoComponent.QueuePacket | libftl/media.c:702-748 | a turn of the packet loop is claim, build and post of the machine |
| MediaComponent.VideoComponent.SendVideo | libftl/media.c:645-767 | a whole call is the machine's run for the unit; the result is the total length of the packets it queued, and not 0 exactly if audio is ready, the unit is an SPS or the stream does not wait, and the ring has room |
| MediaComponent.VideoComponent.PickSlot | libftl/media.c:863-870 | the section under nack_slots_lock is the machine's pick step, from any state that has it |
| MediaComponent.VideoComponent.SendSlot | libftl/media.c:872-900 | the section under the slot mutex is the send step, and sends the oldest packet not yet sent, as it was built, whatever moved since the pick |
| MediaComponent.VideoComponent.SendPacket | libftl/media.c:857-903 | both in a row |
| MediaComponent.VideoComponent.MatchSlot | libftl/media.c:914-922 | the slot is found exactly if the machine serves the number |
| MediaComponent.VideoComponent.ResendSlot | libftl/media.c:930-936 | what is sent is the packet asked for at the match, whatever moved since |
| MediaComponent.VideoComponent.NackResendPacket | libftl/media.c:905-939 | both in a row: a packet is sent exactly if the number is served, and then the one last built for it |
| MediaComponent.SetMarkerBit | libftl/media.c:1040-1048 | the marker is set in the buffer, and nothing else changes |
| MediaComponent.WriteRtpHeader | libftl/media.c:941-960 | the first twelve bytes are the RTP header, each field in its place and in network order, and the rest of the buffer is untouched |
| NackDecoding.DecodeFeedback | libftl/media.c:1119-1164 | the resend calls are those the received datagram asks for, whatever else the buffer holds; FCI entries are read inside the datagram only |
| NackDecoding.DecodeEntry | libftl/media.c:1150-1162 | one entry leads to a call for its PID and then for each packet its bitmask reports, in order |
| NackDecoding.EncodedRequests | libftl/media.c:1136-1163 | a generic NACK message, with anything behind it, asks for exactly the packets it reports, in order |
| NackDecoding.AnsweredIff | libftl/media.c:1119-1149 | a datagram leads to a call exactly if it has type 1, packet type 205 and an FCI entry, and is as long as its length field says |
| NackDecoding.LostIff | libftl/media.c:1150-1161 | a number is asked for exactly if it is the PID or its bit is set at its distance from it, across the wrap |
| NackDecoding.BitmaskMeans | libftl/media.c:1150-1162 | an entry whose bitmask is the sum of 2^(k-1) over a set of distances k asks for its packet and for exactly those k behind it, across the wrap |
| NackDecoding.LostInOrder | libftl/media.c:1154-1162 | an entry's bits are asked for in sequence order, each once |
| Pacing.BytesPerMsPositive | libftl/media.c:1230 | up to where kbps * 1000 wraps the rate is kbps / 8 in whole bytes, so it is positive exactly from 8 kbps on |
| Pacing.UpdateExactIff | libftl/media.c:1311-1315 | the update in int arithmetic is the one in unbounded arithmetic exactly if the credit stays below 2^31 or wraps to a full bucket |
| Pacing.LevelIff | libftl/media.c:1311-1315 | an update keeps the level above -1392 exactly unless the credit overflows and wraps below that |
| Pacing.OneSleepIff | libftl/media.c:1258-1262 | one sleep makes the level positive exactly unless the credit overflows and wraps to zero or below |
| Pacing.PauseOverflows | libftl/media.c:1311 | a pause of 28 minutes and 40 seconds at 10000 kbps after which the level is about -2^31 and two sleeps are not enough |
| Pacing.OneSleep | libftl/media.c:1255-1268 | without overflow a packet goes out in the first turn, behind at most one sleep, and leaves more than -1392 |
| Pacing.VideoSender.SetRate | libftl/media.c:1225-1237 | a new peak rate takes effect with the next packet, and the level stays |
| Pacing.VideoSender.UpdateXmitLevel | libftl/media.c:1305-1318 | the level and the time behind an update, in the int arithmetic of the code |
| Pacing.VideoSender.SendPaced | libftl/media.c:1255-1268 | level, sleeps and outcome of the loop for every clock, every result of sendto and every reading of the thread's flag |
| Pacing.LevelBound | libftl/media.c:1255-1268 | over any run without overflow the level stays above -1392 and no packet takes a second sleep |
| Pacing.RateBound | libftl/media.c:1219-1268 | over any run, overflow or not and however the rate changes, the bytes sent between any two times are at most 100 ms of credit at the highest rate, the credit of the time between, and 1391 |
| BitrateController.RecommendedBounds | libftl/media.c:1576-1609 | recommendations stay in range, and a decrease never goes up |
| BitrateController.IncreaseIff | libftl/media.c:1590-1608 | a raise never lowers the bitrate exactly if its sum cannot wrap or the bitrate is at the minimum |
| BitrateController.IncreaseCanLower | libftl/media.c:1590-1608 | otherwise it can: a concrete input |
| BitrateController.RunKeepsInv | libftl/media.c:1709-1983 | in every run: bitrate in range, INCREASED strict and DECREASED never up, changes at least 15000 ms apart, no increase within 180000 ms of an excessive upgrade, a decrease soon after a raise is a revert exactly within 60000 ms, every STABILIZED after an open trigger |
| BitrateController.OneReportPerTrigger | libftl/media.c:1925-1973 | two STABILIZED messages never share a trigger |
| BitrateController.RaisesBeforeTenMinutes | libftl/media.c:1657-1659 | a run with a raise, its revert, and the next raise less than four minutes later |
| BitrateController.WindowTelescopes | libftl/media.c:1722-1783 | whenever the window is evaluated, its sums are the differences of the cumulative counters to the reading five samples before, since the last baseline, and the sum of the last five RTTs |
| BitrateController.VerdictIff | libftl/media.c:1542-1574 | the thresholds in whole numbers, both ways, for every window |
| BitrateController.RunDecides | libftl/media.c:1785-1976 | in every timely run, the readings since the last baseline and the answer of the callback decide what the next turn sends, in numbers: half the bitrate on congestion, 80 per cent within 60000 ms of a raise, 256000 more on health 180000 ms behind the last revert, the report of a stable bitrate, or nothing; and all flags and clocks behind it |
| BitrateController.RecommendedIs | libftl/media.c:1576-1608 | half, 80 per cent, or 256000 more, within the limits; exact where the product does not wrap |
| BitrateController.RunWindow | libftl/media.c:1903-1924 | in every run, cooldowns included, the circular buffers stand for the readings since the last baseline |
| BitrateController.SumOf | libftl/media.c:1757-1782 | the summing loops compute the sum modulo 2^64 |
| BitrateController.BitrateThread.constructor | libftl/media.c:1671-1707 | the thread's variables are the controller's initial state |
| BitrateController.BitrateThread.Sample | libftl/media.c:1722-1743 | a sample replaces the oldest entry of each buffer by the change since the last reading |
| BitrateController.BitrateThread.Evaluate | libftl/media.c:1746-1787 | on the sums N, F, R and D of NACKs, frames, RTTs and drops: reduce exactly if 10 N > F > 0, R > 1500 or the queue is fuller than 0.3; stable exactly if F is 0 or 100 N < F, and D < 5, R < 500 and the queue is emptier than 0.1 |
| BitrateController.BitrateThread.Adapt | libftl/media.c:1785-1902 | revert, decrease and increase, flags and messages, are the controller's decision, which `RunDecides` gives in numbers |
| BitrateController.BitrateThread.Iterate | libftl/media.c:1709-1976 | one turn of the loop is one turn of the controller, for the whole state |
| MediaClock.TicksNearest | libftl/media.c:401-405 | the rounded tick count is never more than half a tick from the elapsed time, however long it is |
| MediaClock.TimestampExactIff | libftl/media.c:404-405 | the timestamp is that count modulo 2^32 exactly if the 64-bit product wrapped a multiple of 15625 times |
| MediaClock.TimestampExact | libftl/media.c:401-405 | so it is right for six years of video that does not go back before its first frame |
| MediaClock.BackwardsIsWrong | libftl/media.c:401-405 | a frame one second before the first gets a wrong timestamp |
| MediaClock.BaseStep | libftl/media.c:396-399 | the base of a stream of frames moves only while it is negative |
| MediaClock.ComponentClock.constructor | libftl/media.c:122-150 | a component starts with no base |
| MediaClock.ComponentClock.Update | libftl/media.c:386-407 | the new base, wall-clock base and timestamp |
| MediaClock.ComponentClock.UpdateAll | libftl/media.c:386-407 | after any number of frames the timestamp is that of the last one against one fixed base: nothing accumulates |
| MediaClock.ComponentClock.SenderReport | libftl/media.c:1475-1501 | none before the stream has started; else the report of the last frame, with its ticks as RTP timestamp and base plus elapsed time as wall time |
| MediaClock.AddExact | libftl/gettimeofday/gettimeofday.c:134-146 | adding microseconds is exact, and normalised exactly if the microseconds do not go below zero |
| MediaClock.SubtractThenAdd | libftl/gettimeofday/gettimeofday.c:117-146 | adding a difference gives the later time back, exactly under that condition |
| MediaClock.SubtractExact | libftl/gettimeofday/gettimeofday.c:95-109 | the result stands for the difference, both fields have its sign, and the return value says whether it is negative |
| MediaClock.NtpWords | libftl/gettimeofday/gettimeofday.c:162-168 | the high word is the seconds since 1900 modulo 2^32, the low word the fraction to 1024 units of 2^-32 s, for the sum of doubles |
| MediaClock.NearNtp | libftl/gettimeofday/gettimeofday.c:162-168 | every NTP time within 1024 units of the exact one stands for the same microsecond |
| MediaClock.NtpRoundTrip | libftl/gettimeofday/gettimeofday.c:162-168 | no microsecond is lost in the NTP form |
| MediaClock.ReportTime | libftl/media.c:1490-1501 | the wall time of a report is the base plus the elapsed microseconds, exactly |
| MediaClock.ReportsAgree | libftl/media.c:1485-1501 | the NTP times of any two reports differ by exactly the elapsed microseconds, their RTP timestamps by whole ticks that are less than one tick off, each modulo its range |
| Teardown.InitInv | libftl/ftl-sdk.c:106-123 | a connected client with media, any number of callers about to disconnect, and maybe a bitrate thread |
| Teardown.BodyKeepsInv | libftl/ftl-sdk.c:231-273 | every step of disconnect, media_destroy and _ingest_disconnect keeps threads, flags, mutexes, sockets and slots in agreement with how far the teardown has come |
| Teardown.BodyProgress | libftl/handshake.c:264-310 | the body only goes forward, and whoever comes second finds nothing left to do |
| Teardown.StatusKeepsInv | libftl/handshake.c:448-537 | so does every step of the connection status thread |
| Teardown.WorkKeepsInv | libftl/media.c:1290-1299 | so does every step of a worker |
| Teardown.StartKeepsInv | libftl/media.c:601-601 | so does a media call that gets its mutex, by any thread, the one that leaked it included |
| Teardown.CallKeepsInv | libftl/media.c:601-614 | so does every step of a media call: the check of the ready flag, packet after packet, the end, and the audio call that ends on a full ring with the mutex held |
| Teardown.RunIsSafe | libftl/ftl-sdk.c:231-273 | in every interleaving DISCONNECT is sent, each thread joined, each socket closed and each side told at most once; the status thread never joins itself; slots and sockets go behind their last user, and DISCONNECT goes out on an open socket before it is closed |
| Teardown.DisconnectIsComplete | libftl/ftl-sdk.c:231-273 | when ftl_ingest_disconnect returns to any caller, DISCONNECT has been sent, every worker joined or gone, both sockets closed and the slots freed, each exactly once, and no state flag is left |
| Teardown.FinishedIsComplete | libftl/handshake.c:501-533 | at the end, if anyone came to disconnect, all of that holds and an application was told |
| Teardown.SlotsSafe | libftl/media.c:232-320 | once _nack_destroy begins no media caller, sender or NACK handler is in a slot or can get one |
| Teardown.SocketsSafe | libftl/handshake.c:264-310 | the ingest socket is closed behind the keepalive thread and the status thread's poll |
| Teardown.Forward | libftl/ftl-sdk.c:231-273 | no circular wait: unless a leaked mutex is in the way, the owner of disconnect_mutex can move, or waits for someone who can, and each such step brings the end nearer |
| Teardown.CanFinish | libftl/ftl-sdk.c:231-273 | those steps lead to the end |
| Teardown.FinishIff | libftl/media.c:297-310 | from a reachable state the end can be reached exactly if the audio mutex is not leaked, or media is torn down, or the leaker owns disconnect_mutex, or no one does and the leaker is still to disconnect |
| Teardown.LeakBlocks | libftl/media.c:607-614 | otherwise nothing is ever torn down and DISCONNECT is never sent |
| Teardown.LeaksCounted | libftl/media.c:607-614 | in every run the mutex is held beyond the calls and the teardown exactly as often as an audio call found 2047 packets queued |
| Teardown.CallQueues | libftl/media.c:607-640 | a call that is past its check queues packet after packet, one post each, until no data is left or 2047 are queued; it then gives its mutex back, except an audio call with data left |
| Teardown.EntersDuringCall | libftl/ftl-sdk.c:231-240 | a thread can begin to disconnect while any other is in a media call |
| Teardown.StatusDetects | libftl/handshake.c:448-520 | after an error the status thread takes up the teardown, if no one else does |
| Teardown.LeakIsReachable | libftl/media.c:607-614 | any thread can leak the mutex: a run that fills the audio ring |
| Teardown.LeakerDecides | libftl/media.c:607-614 | after that run the end can be reached exactly if the leaking thread is one that disconnects |
| StatusQueue.Queue.constructor | libftl/ftl-sdk.c:92-95 | an empty queue |
| StatusQueue.Queue.Append | libftl/ftl_helpers.c:199-212 | the walk to the tail links the element behind the last one |
| StatusQueue.Queue.Enqueue | libftl/ftl_helpers.c:185-228 | the message is last; of eleven the oldest is dropped, and then nothing is posted |
| StatusQueue.Queue.Dequeue | libftl/ftl_helpers.c:230-262 | the oldest message, or a timeout exactly if nothing was posted |
| StatusQueue.RunKeepsInv | libftl/ftl_helpers.c:185-262 | with any number of producers and consumers, list, counter and semaphore agree, FTL_QUEUE_EMPTY is never seen, messages leave in order, and one is lost only as the oldest of eleven |
| StatusQueue.CanDrain | libftl/ftl_helpers.c:230-262 | from every reachable state the consumers alone can take every queued message, in order |
| StatusQueue.EnqueueIsPush | libftl/ftl_helpers.c:214-224 | the machine's enqueue is the list's |
| Sha512.FastIsStandard | libftl/hmac/sha2.c:72-73 | the rewritten Ch and Maj are those of FIPS 180-4 |
| Sha512.Sha512Round | libftl/hmac/sha2.c:81-85 | one macro call is one standard round on renamed registers |
| Sha512.EightRounds | libftl/hmac/sha2.c:125-135 | eight calls with rotated names are eight standard rounds |
| Sha512.TransformFunction | libftl/hmac/sha2.c:92-142 | for every state and block, the unrolled function is the compression of section 6.4.2 of FIPS 180-4 |
| Sha512.Context.constructor | libftl/hmac/sha2.c:153-169 | a context for the empty message |
| Sha512.Context.Update | libftl/hmac/sha2.c:177-216 | the context stands for the message so far plus the data, with less than a block buffered |
| Sha512.Context.Finalise | libftl/hmac/sha2.c:224-274 | the digest is the standard one for every message below 2^64 bits, with one or two final blocks |
| Sha512.PadIsStandard | libftl/hmac/sha2.c:257-266 | the padding is that of section 5.1.2 of FIPS 180-4 exactly below 2^64 bits |
| Hmac.HashPieces | libftl/hmac/sha2.c:177-274 | chunking independence: any pieces give the standard digest of their concatenation |
| Hmac.PadKeys | libftl/hmac/hmac.c:29-39 | the two pads are the zero-filled key xored with the two constants |
| Hmac.HmacSha512Hex | libftl/hmac/hmac.c:12-63 | the result is the hex form of the MAC of section 2 of RFC 2104, for short, block-sized and long keys, and decodes back to it |
| Hmac.WriteHex | libftl/hmac/hmac.c:53-58 | two digits for each byte, and a terminator |
| Hmac.DecodeHex | libftl/ftl_helpers.c:123-130 | each byte is decoded from its two characters |
| Hmac.HexCharacter | libftl/ftl_helpers.c:55-68 | what every character decodes to: digits and letters of either case by their place, others to 0 |
| Hmac.HexDecodes | libftl/ftl_helpers.c:55-68 | decoding the hex form by pairs gives every byte back |
| Bitstream.ChunkIs | ftl_app/bitstream.c:114-121 | the shifts and the mask pick exactly the bits below the bit index |
| Bitstream.ChunkValue | ftl_app/bitstream.c:113-133 | and these are the big-endian value of the bits they cover |
| Bitstream.Reader.constructor | ftl_app/bitstream.c:8-15 | a reader at bit 0 |
| Bitstream.Reader.ReadBits | ftl_app/bitstream.c:97-142 | from any bit offset, the big-endian value of the next bits; the reader moves by exactly that many, or not at all when peeking |
| Bitstream.Reader.Ue | ftl_app/bitstream.c:22-36 | the code number of section 9.1 of ITU-T H.264, and exactly its bits consumed |
| Bitstream.GolombDecodes | ftl_app/bitstream.c:22-36 | the codeword of a value is a code that reads as the value |
| Bitstream.ReadSymbols | ftl_app/bitstream.c:22-142 | u(n) and ue(v) codewords written back to back read back as their values, and the reader ends exactly behind the last |
| NalUnit.UnescapeEscape | ftl_app/nalu.c:66-86 | removing emulation prevention from what section 7.4.1.1 of H.264 makes of an RBSP, in every state of the encoder |
| NalUnit.RoundTrip | ftl_app/nalu.c:66-86 | the RBSP comes back exactly if it ends in an even number of zero bytes, and with one byte too many otherwise |
| NalUnit.FinalThreeIsKept | ftl_app/nalu.c:66-86 | a concrete RBSP that does not come back |
| NalUnit.NoStartCode | ftl_app/nalu.c:70-79 | the encoder the round trip is against lets no start code through |
| NalUnit.ReadTurn | ftl_app/nalu.c:68-84 | one turn of the loop, through the bit reader, removes an emulation prevention byte or copies one byte |
| NalUnit.ReadNalUnit | ftl_app/nalu.c:17-87 | header fields, RBSP and its length, and the reader exactly behind the unit |
| NalUnit.ReadEscaped | ftl_app/nalu.c:17-87 | reading a unit that carries an escaped RBSP, through the bit reader, gives the RBSP and its length back, and one byte too many exactly for an odd number of trailing zeros |

## Left out

- Sockets, DNS, ingest discovery, logging, response parsing, Windows variants, getopt and the application's main
  loop: input and output.
- `media_speed_test`: it resets sequence numbers without draining the ring; it is taken not to run.
- Failures of allocation, thread creation and initialisation, and connecting again while an old status thread ends.
- Statistics: counters are snapshots handed to a step; `frames_sent`, delays and the RTT average are not computed.
- `_update_stats`, and the rate at which a changed peak rate reaches the sender: a send carries the rate in force.
- Callers that find a media mutex taken (`os_trylock_mutex` fails): such a call does nothing and is no step.
- `bitstream_se` and `bitstream_i`: `bitstream_se` gives 0 for every odd code number, so there is nothing to prove.
- NAL unit types 14 and 20: the loop of `nal_unit` does not account for their three extra header bytes.
- Parameter set and slice header parsing, `file_parser.c`.
- Audio packets: the audio ring is driven by a producer with any packets; `_media_make_audio_rtp_packet` and the
  mutex that `media_send_audio` leaks on a full ring are not part of the pipeline (the leak is part of `Teardown`).
- Floating point: ratios, averages and fullness are reals. In `timeval_to_ntp` the sum is rounded as doubles are; the
  product in front of it is taken exact.
- Pacing.VideoSender.UpdateXmitLevel: signed overflow is undefined in C; it is modelled as wrapping around.
- Pacing.VideoSender.SendPaced: asks for a positive rate; below 8 kbps the code divides by zero.
- Pacing.RateBound: for packets that `sendto` takes whole. A packet's time is the clock reading that admitted it, not
  when `sendto` returned.
- MediaClock.ComponentClock.SenderReport: asks for a normalised wall time; a report for a frame well before the first
  one, which has none, is not covered.
- MediaComponent.VideoComponent.QueuePacket: sender and handler stand still during a turn; the sections it is made of
  are proved from any state of theirs.
- MediaComponent.VideoComponent.SendVideo: sender and handler stand still during a call; `RoundTrip` is about all
  interleavings of its steps.
- MediaComponent.VideoComponent.SendPacket: no one moves between pick and send; PickSlot and SendSlot allow it.
- MediaComponent.VideoComponent.NackResendPacket: no one moves between match and resend; MatchSlot and ResendSlot
  allow it.
- BitrateController.RunKeepsInv: asks for limits whose raise cannot wrap (the exact condition is `IncreaseIff`) and for
  waits of full length; a DECREASED message may keep the bitrate if it is at the minimum already.
- VideoPipeline.RoundTrip: for runs whose admitted NAL units come through; `RtpPackets.DeliveredIff` is the exact
  condition for a unit.
- VideoPipeline.CanDeliver: says that there are such steps, not that a scheduler takes them; so does
  `RetransmitRing.CanCatchUp`.
- VideoPipeline.LossRecovery: asks that SPS units be reference units, as H.264 has it.
- Sha512.Context.Finalise: for 2^64 bits and more the digest is that of the padding with the length modulo 2^64.
- Bitstream.Reader.ReadBits: the code does not check the end of the buffer; the bits must be there.
- Bitstream.Reader.Ue: more than 30 leading zeros overflow an int in the code and are not covered. `val |= chunk` is
  modelled as addition; `OrIsPlus` shows on bit vectors that the two agree where the shift left room.
- NalUnit.ReadNalUnit: the unit must have a header byte.
- Teardown.CanFinish: says that the end can be reached, not that a scheduler reaches it.
- Teardown.Forward: semaphores of threads that wait with a timeout are not counted; only the two senders wait for good.
- Teardown.FinishIff: a leaking thread that is not among the disconnecting ones is taken never to disconnect.
