# Verification of srtgo

srtgo is an implementation of SRT, the Secure Reliable Transport protocol (draft-sharabayko-srt).
Its protocol core reads no clock and opens no socket. This project models that core in Dafny and
proves what it keeps over whole runs.

`dafny verify dfyconfig.toml` checks all files.

## How the model is built

- Sequence numbers are 31 bits on the wire. The proofs count with unbounded numbers and relate the
  two by `Wrap`. Numbers less than 2^30 apart compare the same way on both sides.
- Every object that the source updates in place is a class. A ghost value (`view`) stands for its
  contents. `Valid` ties the fields to that value and each method is proved to compute a function
  on it.
- Properties over runs are proved about state machines on these values. A step relation gives what
  can happen next, an invariant is kept by every step, and the theorems follow for every run.
- Clocks, random values, congestion control answers and the results of key generation are
  parameters. Mutexes and buffer pools are not modelled.

| file | subject |
|---|---|
| SeqNum, Bits, Ring, Packets | sequence arithmetic, powers of two, masked rings, packets |
| SendBuffer, RecvWindow, RecvBuffer, Mailbox | the send ring, the receive ring, the out-of-order cache |
| DataPath, Conn | fragmentation, pacing, the connection object |
| Arq, ArqProgress, Link | sender and receiver over an unreliable channel, what can still happen in it, and its refinement by two connection objects |
| ArqMessages, MessageLink | the same with unordered messages |
| Rendezvous | the two-party rendezvous handshake |
| FecXor, FecSender, FecReceiver | XOR parity, rows and staircase columns, row recovery |
| Tsbpd | decoding of 32-bit timestamps across wraps, drift |
| Merge | merging bonded links |
| DeliveryQueue | the bounded application queue |
| KeyWrap, KeyRotation | RFC 3394 key wrap, mid-stream key rotation |
| Wire, NakCodec, HandshakeParts, Handshake | byte formats and their round trips |

## Where expectations fail

The model follows the code where the code departs from its documentation or from what a caller
would expect. The named lemmas say exactly when that happens; others beside them give concrete
inputs.

- `Distance` can be 2^30, one more than documented, exactly for antipodal numbers
  (`SeqNum.DistanceWithinThreshold`).
- `nextPow2` stops smearing at 16 bits and fails when n - 1 has 32 consecutive zero bits below its
  top bit, as in 2^32 + 1 (`Bits.NextPow2Exact`).
- A gap right after the buffer was drained, and the gap consisting of number 0 alone, are not
  reported at once (`RecvWindow.GapReportExact`).
- A packet exactly 2^31 numbers old is taken for a new one (`RecvWindow.PlacedByWireNumber`).
- The advertised buffer size is one too large whenever something is held
  (`RecvWindow.AdvertisedExact`).
- The larger cookie does not always win the contest (`RdvLogic.LargerCookieWins`).
- FEC cannot restore a packet longer than its payload size (`FecXor.RestoreExact`).
- An immediate NAK may list 10000 numbers, the decoder refuses ranges past 8192
  (`NakExchange.GapAnswered`).
- An empty filter, or a group without an identifier, is announced in the extension field but not
  printed, so such a handshake does not read back (`HandshakeSpec.RoundTrip`).
- Extension types that agree modulo 32 count as duplicates (`HandshakeSpec.AliasRefused`).
- A pre-announce of more than half the refresh rate clears the key that is switched to next
  (`RotationRuns.SafeExactly`).
- With the clock at zero the retransmission gate has no effect (`SendWindow.GatesExactly`).
- The cached index of a readable out-of-order message is not cleared when in-order reads pass it. A
  stale index can hide a complete message (`MailboxRuns.StaleCacheHidesMessage`), and once its slot is
  reused it can deliver a lone fragment as a message (`MailboxRuns.StaleCacheDeliversFragment`). The
  exact conditions are `RecvWindow.ReadMissesExactly` and `ArqMessages.ServesExactly`.
- A lite acknowledgement that releases as many packets as were advertised makes the advertised size
  unknown again, and the limit is gone until the next full one (`DataPath.AckMovesEdge`).
- A message with as many packets as the receive ring has slots is never delivered and blocks what
  follows (`ArqProgress.TooLongIsNeverDelivered`); all shorter ones can be (`ArqProgress.CanDeliverAll`).
- The rendezvous AGREEMENT is sent once; if it is lost the responder stays unconnected
  (`RdvRuns.AgreementNotRepeated`).
- A time to live below one microsecond switches off the too-late drop of its packet
  (`SendWindow.ExpiredExact`).
- A sender silent across a timestamp wrap is decoded one wrap short; how long it may be silent is
  `Tsbpd.SilenceExact`.

## Model

| member | source | states |
|---|---|---|
| SeqNum.WrapArith | internal/seq/seq.go:24-46 | Inc, Dec and Add on 31-bit numbers are the images of +1, -1 and +n on unbounded ones, for every n a 32-bit addition takes |
| SeqNum.DistanceCongruent | internal/seq/seq.go:58-108 | Distance is the difference of least magnitude modulo 2^31, antisymmetric, and LessThan is its sign |
| SeqNum.DistanceWithinThreshold | internal/seq/seq.go:57-86 | the documented bound, magnitude at most Threshold, holds if and only if the two numbers are not antipodal (2^30 apart) |
| SeqNum.DistanceExceedsThreshold | internal/seq/seq.go:57-86 | a concrete pair whose distance exceeds Threshold |
| SeqNum.WireOrderIsTrueOrder | internal/seq/seq.go:58-126 | on numbers less than 2^30 apart every wire comparison agrees with the unbounded comparison |
| Bits.MaskIsMod | internal/buffer/send.go:39-47 | masking with 2^k - 1 is the remainder modulo 2^k |
| Bits.NextPow2Exact | internal/buffer/send.go:442-453 | nextPow2(n) is the least power of two at or above n if and only if n - 1 has no 32 consecutive zero bits below its top bit |
| Bits.NextPow2Rounds | internal/buffer/send.go:442-453 | every capacity up to 2^32 rounds up correctly |
| Bits.NextPow2Fails | internal/buffer/send.go:442-453 | 2^k + 1 is not rounded up to 2^(k+1) for any k >= 32 |
| Ring.IndexIsSlot | internal/buffer/recv.go:130-185 | masking the 31-bit number finds the slot of the unbounded number, in any power-of-two ring below 2^30 |
| Ring.HoldsPut | internal/buffer/recv.go:130-185 | writing one slot of the ring changes exactly that place of the window it stands for |
| Ring.HoldsPop | internal/buffer/recv.go:189-204 | clearing the head slot and advancing the start drops exactly the head of the window |
| SendWindow.AckReleasesBelow | internal/buffer/send.go:94-111 | an acknowledgement of an unbounded number a, less than 2^30 away, releases exactly the entries below a and nothing beyond the window |
| SendWindow.FindExact | internal/buffer/send.go:115-133 | a listed number is found if and only if it is the image of a window entry, and then at that entry |
| SendWindow.NakAnswersInWindow | internal/buffer/send.go:115-133 | a loss list is answered by exactly its in-window numbers, in the order asked |
| SendWindow.NakSound | internal/buffer/send.go:115-133 | each retransmission is the buffered packet, R bit set, of a number that was asked for |
| SendWindow.NakTimedGates | internal/buffer/send.go:141-175 | a gated NAK changes only retransmission times, grants only entries outside the gate, gates exactly the listed entries, and sends one packet per newly gated entry |
| SendWindow.GatesExactly | internal/buffer/send.go:141-175 | with an entry outside the gate, a gated NAK gates what it sends, for every loss list, if and only if the clock is nonzero |
| SendWindow.NakTimedAnswers | internal/buffer/send.go:141-175 | a gated NAK answers exactly the listed numbers of window entries outside the gate, in list order, each at its first mention only (at every mention if the clock is zero), and records the clock in exactly those entries |
| SendWindow.NakTimedSound | internal/buffer/send.go:141-175 | each packet it sends is the buffered packet, R bit set, of a number asked for outside the gate |
| SendWindow.ZeroClockRepeats | internal/buffer/send.go:141-175 | with the clock at zero the gate fails: a number listed twice is sent twice |
| SendWindow.ExpiredHeadUnique | internal/buffer/send.go:340-372 | the maximal expired head run is unique, so the drop contract determines the result |
| SendWindow.ExpiredExact | internal/buffer/send.go:340-372 | an entry expires by age beyond the threshold or its own time to live; a time to live below one microsecond switches both off |
| SendRing.SendBuffer.constructor | internal/buffer/send.go:39-47 | an empty ring whose size is the capacity rounded up to a power of two |
| SendRing.SendBuffer.Push | internal/buffer/send.go:50-69 | appends to the window, refused exactly when the ring is full |
| SendRing.SendBuffer.PushBatch | internal/buffer/send.go:74-89 | appends all packets in order, or none when they do not all fit |
| SendRing.SendBuffer.Ack | internal/buffer/send.go:94-111 | drops exactly the released prefix and returns its length |
| SendRing.SendBuffer.DropUntil | internal/buffer/send.go:288-304 | drops exactly the prefix below the given number |
| SendRing.SendBuffer.Nak | internal/buffer/send.go:115-133 | returns the retransmissions of SendWindow.Nak and changes nothing |
| SendRing.SendBuffer.NakTimed | internal/buffer/send.go:141-175 | returns the gated retransmissions and records their times |
| SendRing.SendBuffer.Get | internal/buffer/send.go:179-193 | the packet of an in-window number, nothing otherwise |
| SendRing.SendBuffer.GetAllUnacked | internal/buffer/send.go:309-329 | every packet of the window in order |
| SendRing.SendBuffer.DropTooLateSend | internal/buffer/send.go:340-372 | removes exactly the maximal expired head run and reports its first and last number |
| SendRing.SendBuffer.SetMsgTTL | internal/buffer/send.go:410-421 | tags the last pushed entry and no other |
| SendRing.InRange | internal/buffer/send.go:115-133 | the two wire comparisons of the range check pass exactly on the window |
| RecvWindow.PlacedByWireNumber | internal/buffer/recv.go:130-158 | a packet is stored at offset i if and only if its wire number is that of start + i, i is inside the ring and the slot is free; one 2^31 numbers old is taken for new |
| RecvWindow.InsertCounts | internal/buffer/recv.go:130-185 | an insertion raises the available count by one and the out-of-order count exactly for an out-of-order packet |
| RecvWindow.InsertKeepsAck | internal/buffer/recv.go:857-871 | the acknowledgement point never moves back, and moves forward exactly when the first gap is filled |
| RecvWindow.AckOffsetUnique | internal/buffer/recv.go:857-871 | the acknowledgement point is the one place with no gap before it and a gap, or the end, at it |
| RecvWindow.LossesExact | internal/buffer/recv.go:829-852 | the loss list names exactly the gaps of the window, each once and in order |
| RecvWindow.InsertGaps | internal/buffer/recv.go:130-185 | the gaps after an insertion are the old ones but the filled one, plus those the jump opened |
| RecvWindow.GapReportExact | internal/buffer/recv.go:112-185 | a gap is reported if and only if the buffer was not drained and the gap is not the single number 0; the reported ends are the gap |
| RecvWindow.GapsMissed | internal/buffer/recv.go:112-185 | two concrete losses that go unreported |
| RecvWindow.AdvertisedExact | internal/buffer/recv.go:922-935 | the advertised size is the free slots past the acknowledgement point, plus one whenever something is held |
| RecvWindow.ReleaseFillersExact | internal/buffer/recv.go:99-110 | exactly the maximal head run of read slots is released; the counts stay |
| RecvWindow.ScanMessageExact | internal/buffer/recv.go:287-345 | the scan says complete with n packets if and only if the first n slots hold the message to its end, corrupt if and only if a packet of another message comes first, incomplete if and only if a missing packet comes first |
| RecvWindow.ReadInOrderExact | internal/buffer/recv.go:248-345 | an in-order read returns the head message if and only if all of it is held, changes nothing if and only if a packet of it is missing, and otherwise discards the head packet |
| RecvWindow.ScanAdvances | internal/buffer/recv.go:564-640 | one step of the out-of-order scan keeps: no message ended so far, and the open one is tracked exactly |
| RecvWindow.EndsFirstStartsFirst | internal/buffer/recv.go:564-640 | the complete message that ends first also starts first |
| RecvWindow.NoneLeft | internal/buffer/recv.go:564-640 | once all out-of-order packets are passed no complete message remains |
| RecvWindow.CompletedExact | internal/buffer/recv.go:406-519 | an arrival completes a message if and only if it lies on a contiguous run of its message number that starts and ends the message |
| RecvWindow.CompletedIsMessage | internal/buffer/recv.go:406-446 | what an arrival caches is a complete out-of-order message if and only if the run found carries no order bit and no second message start |
| RecvWindow.FramedArrivalCaches | internal/buffer/recv.go:406-446 | in a window of framed messages an out-of-order arrival that completes its message caches it whole |
| RecvWindow.WalkExact | internal/buffer/recv.go:355-390 | the walk of an out-of-order read ends at the first packet that ends a message, or breaks off at the first slot without a packet |
| RecvWindow.ReadMissesExactly | internal/buffer/recv.go:224-402 | without an available head a read returns nothing, whatever is complete, if and only if nothing is cached or no run of packets from the cached slot ends a message |
| RecvRing.CacheSurvives | internal/buffer/recv.go:248-345 | after m slots leave the head the cached message is still cached if and only if it starts at or past them |
| RecvRing.RecvBuffer.constructor | internal/buffer/recv.go:61-70 | an empty ring at the initial number |
| RecvRing.RecvBuffer.Insert | internal/buffer/recv.go:130-185 | refuses or stores exactly as Placed decides, reports the gap, and updates the out-of-order cache from the -1 state |
| RecvRing.RecvBuffer.ReadNext | internal/buffer/recv.go:189-204 | returns and removes the head packet if it is available, nothing otherwise |
| RecvRing.RecvBuffer.ReadMessage | internal/buffer/recv.go:224-238 | reads in order if the head is available, otherwise whatever the cached index points to, stale or not, and leaves the cache as the code does |
| RecvRing.RecvBuffer.ReadMessageInOrder | internal/buffer/recv.go:248-345 | the in-order read: single packet, whole message, corrupt head or incomplete message |
| RecvRing.RecvBuffer.ReadMessageOutOfOrder | internal/buffer/recv.go:350-402 | returns the packets from the cached slot to the first that ends a message, or nothing when the walk breaks off; marks the slots walked, releases head fillers and rescans |
| RecvRing.RecvBuffer.UpdateFirstReadableOutOfOrder | internal/buffer/recv.go:564-640 | from -1 with no readable head, caches the start of the earliest complete out-of-order message, and stays -1 exactly when there is none |
| RecvRing.RecvBuffer.OnInsertNotInOrderPacket | internal/buffer/recv.go:406-446 | caches the start of the message the new packet completes, if none was cached |
| RecvRing.RecvBuffer.ScanNotInOrderMessageRight | internal/buffer/recv.go:450-485 | finds the end of the contiguous run to the right |
| RecvRing.RecvBuffer.ScanNotInOrderMessageLeft | internal/buffer/recv.go:489-519 | finds the start of the contiguous run to the left |
| RecvRing.RecvBuffer.ReleaseFillerEntries | internal/buffer/recv.go:99-110 | releases the head run of read slots |
| RecvRing.RecvBuffer.GenerateLossList | internal/buffer/recv.go:829-852 | computes the ordered gaps of the window |
| RecvRing.RecvBuffer.AckSequence | internal/buffer/recv.go:857-871 | computes the first gap, or the end of the window |
| RecvRing.RecvBuffer.AvailableSize | internal/buffer/recv.go:922-935 | computes the advertised size |
| MailboxRuns.InOrderReadAndCache | internal/buffer/recv.go:224-345 | an in-order read of m slots keeps the cached message readable if and only if it starts at offset m or later; the cache stays either way |
| MailboxRuns.CachedIsRead | internal/buffer/recv.go:350-402 | a complete message in the cache is what a read without an available head returns |
| MailboxRuns.ReadBoxMisses | internal/buffer/recv.go:224-402 | the exact condition under which such a read returns nothing, on the whole mailbox |
| MailboxRuns.StaleCacheHidesMessage | internal/buffer/recv.go:224-402 | a concrete arrival order, in a ring of any size from 8 on, after which a complete message is never returned |
| MailboxRuns.StaleCacheDeliversFragment | internal/core/conn.go:1401-1574 | a concrete arrival order, in a ring of any size from 8 on, after which the last packet of an incomplete message is delivered as a message |
| MailboxRuns.DeliverTurn | internal/core/conn.go:1566-1574 | each turn of the delivery loop emits one event and lowers the number of available packets, so the loop ends |
| MailboxRuns.ReceiveInOrder | internal/core/conn.go:1401-1574 | while everything held is in order the cache plays no part: the effect of an arrival is that of the cacheless receiver |
| DataPath.FramesExact | internal/core/conn.go:909-950 | fragmentation loses nothing, marks exactly the first and last fragment, fills every fragment but the last, and stamps all with one time, for every payload length and packet size |
| DataPath.NextMsgNoCycles | internal/core/conn.go:1942-1949 | the message counter runs through 1 to 2^26 - 1 and starts over |
| DataPath.WindowExact | internal/core/conn.go:1332-1345 | there is room for another packet if and only if the packets in flight are below the flow window, the congestion window and, when known, the advertised size |
| DataPath.PumpExact | internal/core/conn.go:1143-1241 | pump sends the first frames of the queue under consecutive numbers, each while there was room, and stops only when nothing is queued, there is no room or nothing is due |
| DataPath.PumpKeepsWindow | internal/core/conn.go:1143-1169 | pump never exceeds the flow window, so a ring that covers it never overflows |
| DataPath.PumpPaces | internal/core/conn.go:1143-1185 | everything pump sends is due under the deadline the earlier sends left |
| DataPath.DeadlineCarriesCredit | internal/core/conn.go:1175-1185 | the deadline carries every interval since any earlier send, less at most one burst |
| DataPath.DeadlineNotLate | internal/core/conn.go:1157-1167 | no deadline lies more than one interval past the last send |
| DataPath.NoDrift | internal/core/conn.go:1157-1167 | while timers are late by at most 10 ms the deadlines follow the intervals exactly |
| DataPath.LateStartsOver | internal/core/conn.go:1157-1167 | a send later than that starts the pacing over |
| DataPath.TokenBucket | internal/core/conn.go:1143-1185 | between any two sends i and j the intervals of sends i..j-1 amount to at most the elapsed time plus 10 ms, however late the timer fired |
| DataPath.AckMovesEdge | internal/core/conn.go:1728-1774 | a full acknowledgement sets the advertised size; a lite one keeps the number up to which the peer lets the sender go, if and only if it releases fewer packets than were advertised |
| DataPath.AdvertisementForgotten | internal/core/conn.go:1743-1749 | a concrete lite acknowledgement after which the advertised limit is gone |
| DataPath.StreamDrains | internal/core/conn.go:1601-1609 | stream delivery hands up exactly the maximal run of available packets and leaves no available head |
| Connection.Conn.constructor | internal/core/conn.go:542-579 | both rings cover the flow window |
| Connection.Conn.WriteMsg | internal/core/conn.go:885-951 | queues the frames of the write under the next or the forced message number and pumps |
| Connection.Conn.Enqueue | internal/core/conn.go:909-950 | appends exactly the frames of the write |
| Connection.Conn.PumpSend | internal/core/conn.go:1143-1169 | sends what the window and the pacer allow, in queue order, and arms the pacing timer exactly when only the deadline blocks |
| Connection.Conn.SendHead | internal/core/conn.go:1175-1241 | one send: the packet built from the head frame goes into the ring and out, and the deadline moves on |
| Connection.Conn.HandleACK | internal/core/conn.go:1728-1774 | releases the acknowledged prefix, takes over the advertised window of a full acknowledgement and pumps; the receiving half and the message number stay |
| Connection.Conn.HandleNAK | internal/core/conn.go:1896-1916 | retransmits exactly the listed in-window packets, gated once a round-trip time is known |
| Connection.Conn.RetransmitAll | internal/core/conn.go:1084-1090 | retransmits every unacknowledged packet |
| Connection.Conn.HandleData | internal/core/conn.go:1401-1528 | in either mode and with any order bit: stores the packet, delivers what became readable, reports the gap it opened, counts the packet and sends the lite acknowledgement when due; the sending half stays |
| Connection.Conn.Reply | internal/core/conn.go:1508-1525 | what a stored packet is answered with at once: the gap it opened, and a lite acknowledgement if and only if it is a 64th packet since the last full one |
| Connection.LiteAckExact | internal/core/conn.go:1521-1525 | the counters keep step so that this holds for every stored packet |
| Connection.StalledIsTimed | internal/core/conn.go:1143-1169 | when pump stops with something to send and room for it, the pacing timer is armed for the deadline, and otherwise not |
| Connection.GapListExact | internal/core/conn.go:1865-1876 | an immediate NAK for a gap lists exactly its numbers in order, the first 10000 of them |
| Connection.Conn.SendImmediateNAK | internal/core/conn.go:1865-1876 | lists the gap from its first number on in circular order, at most 10000 numbers |
| Connection.Conn.SendLiteACK | internal/core/conn.go:1718-1726 | acknowledges up to the acknowledgement point |
| Connection.Conn.SendFullACK | internal/core/conn.go:1674-1716 | acknowledges up to the acknowledgement point with the advertised size, unless the peer confirmed it less than a SYN interval ago |
| Connection.Conn.SendPeriodicNAK | internal/core/conn.go:1878-1894 | lists all gaps, and nothing when there are none |
| Connection.Conn.DeliverAll | internal/core/conn.go:1601-1609 | delivers the whole available head run, one event per packet, and leaves no available head |
| Connection.Conn.DeliverAllMessages | internal/core/conn.go:1566-1574 | delivers messages, in order or from the cache, until a read returns nothing; one event per message |
| Connection.Conn.EmitMessage | internal/core/conn.go:1651-1670 | the event carries the concatenated fragments |
| Arq.StepKeeps | internal/core/conn.go:885-1916 | every step of writer, pump, acknowledgement, NAK, timeout, delivery and of a channel that loses, duplicates and reorders keeps the invariant |
| Arq.RunInv | internal/core/conn.go:885-1916 | the invariant holds in every state of every run |
| Arq.StreamDelivery | internal/core/conn.go:1192-1609 | stream mode: in every run the delivered bytes are a prefix of the written bytes |
| Arq.MessageDelivery | internal/core/conn.go:909-1665 | message mode with in-order messages: in every run the delivered messages are the first written messages, whole, in order and under their message numbers |
| Arq.AckedIsDelivered | internal/core/conn.go:1401-1609 | stream mode: in every state of every run exactly the packets below the acknowledgement point have been delivered, one event each with data, number and framing |
| Arq.NothingHeldBack | internal/core/conn.go:1401-1574 | message mode: in every state of every run the receiver lacks a packet of the first message that is not delivered |
| Arq.CompleteDelivers | internal/core/conn.go:1401-1609 | once everything written is sent and the receiver lacks none of it, everything is delivered |
| Arq.AdvertisementKept | internal/core/conn.go:1143-1774 | in every run, from a full acknowledgement to the next and while fewer packets were acknowledged than it advertised, no number at or past the advertised edge is sent |
| Arq.NothingLostIsReleased | internal/core/conn.go:1674-1774 | in every run: sender start <= acknowledgement point <= sender next; the window fits the flow window; and every sent packet the receiver lacks is still in the send buffer, unchanged |
| Arq.LossesAreAnswerable | internal/core/conn.go:1878-1916 | in every run every number the receiver reports lost is found in the send buffer under that number |
| Arq.ResentIsSent | internal/core/conn.go:1896-1916 | a retransmission enters the channel under the number of the packet it repeats |
| Arq.DataKeeps | internal/core/conn.go:1401-1609 | a data packet, new, old or duplicate, keeps the invariant |
| Arq.AckKeeps | internal/core/conn.go:1728-1774 | an acknowledgement, however late, keeps the invariant |
| Arq.PumpKeeps | internal/core/conn.go:1143-1241 | pumping keeps the invariant |
| Arq.RunIsTokenBucket | internal/core/conn.go:1143-1185 | in every run, between any two first transmissions i and j the pacing intervals of sends i..j-1 amount to at most the elapsed time plus 10 ms |
| ArqProgress.RepairsAreSent | internal/core/conn.go:1084-1916 | in every reachable state a timeout resends every packet in flight, a loss report every one it names, a gated one every one it names outside the gate |
| ArqProgress.CanDeliverAll | internal/core/conn.go:885-1916 | nothing deadlocks: from every state of every run the channel and the timers can act so that everything written is delivered, if each message has fewer packets than the receive ring has slots |
| ArqProgress.TooLongIsNeverDelivered | internal/core/conn.go:1401-1574 | a message with at least as many packets as the receive ring has slots is delivered in no run |
| ArqLink.Link.constructor | internal/core/conn.go:542-579 | two connection objects and an empty channel are the initial state of the system |
| ArqLink.Link.Write | internal/core/conn.go:885-951 | a write on the sending object is the step DoWrite, and what it emits is what the step logs |
| ArqLink.Link.PacingTimer | internal/core/conn.go:1143-1169 | the pacing timer is the step DoPump |
| ArqLink.Link.TakeAck | internal/core/conn.go:1728-1774 | an acknowledgement is the step GetAck |
| ArqLink.Link.TakeNak | internal/core/conn.go:1896-1916 | a loss report is the step GetNak, or GetFirstNak before a round-trip time is known, and exactly the retransmissions of that step go out |
| ArqLink.Link.Timeout | internal/core/conn.go:1084-1090 | the retransmission timeout is the step DoRetransmitAll |
| ArqLink.Link.TakeData | internal/core/conn.go:1401-1528 | a data packet is the step GetData followed by the acknowledgements and loss reports the object emits, each of which states the acknowledgement point |
| ArqLink.Link.FullAck | internal/core/conn.go:1674-1716 | the acknowledgement timer is the step PutAck, or no step |
| ArqLink.Link.PeriodicNak | internal/core/conn.go:1878-1894 | the loss report timer is the step PutNak, or no step |
| ArqLink.Link.Delivers | internal/core/conn.go:885-1916 | whatever was called on the two objects, what is delivered is a prefix of what was written and nothing is held back: in stream mode everything acknowledged, in message mode everything before the first message that lacks a packet |
| ArqMessages.InOrderKeeps | internal/buffer/recv.go:248-345 | an in-order read delivers the next undelivered message whole, or nothing, whatever was read out of order before |
| ArqMessages.CachedKeeps | internal/buffer/recv.go:350-402 | a cached read at a slot that is empty or starts a fully held message delivers one whole message not delivered before, or nothing |
| ArqMessages.ServesExactly | internal/buffer/recv.go:350-402 | without an available head, a cached read leaves every message either wholly delivered, once, or wholly undelivered if and only if the cached slot is empty or starts a fully held message |
| ArqMessages.DeliverKeeps | internal/core/conn.go:1566-1574 | the same for the whole delivery loop |
| ArqMessages.StepKeeps | internal/core/conn.go:885-1916 | every step of sender, receiver and channel whose cached reads meet that condition keeps every message whole and delivered at most once |
| ArqMessages.MessagesWhole | internal/core/conn.go:885-1916 | message mode with any mix of ordered and unordered messages: in every run whose cached reads meet that condition, every event is the whole payload of one write and no write is delivered twice |
| ArqMessages.NothingHeldBack | internal/core/conn.go:1401-1574 | in such runs the receiver lacks a packet of the first message that is not delivered |
| ArqMessages.ShortMessagesWhole | internal/core/conn.go:885-1916 | in every run in which each write fits one packet this holds without a condition |
| ArqMessageLink.TakenKeepsAck | internal/core/conn.go:1401-1574 | delivering messages, in order or from the cache, does not move the acknowledgement point |
| ArqMessageLink.MessageLink.constructor | internal/core/conn.go:542-579 | two connection objects in message mode start the empty run |
| ArqMessageLink.MessageLink.Write | internal/core/conn.go:885-951 | a write of either order adds the step DoWrite to the run, and what it emits is what the log gains |
| ArqMessageLink.MessageLink.PacingTimer | internal/core/conn.go:1143-1169 | the pacing timer adds the step DoPump |
| ArqMessageLink.MessageLink.TakeAck | internal/core/conn.go:1728-1774 | an acknowledgement adds the step GetAck |
| ArqMessageLink.MessageLink.TakeNak | internal/core/conn.go:1896-1916 | a loss report adds the step GetNak or GetFirstNak and emits its retransmissions |
| ArqMessageLink.MessageLink.Timeout | internal/core/conn.go:1084-1090 | the retransmission timeout adds the step DoRetransmitAll and emits the whole window |
| ArqMessageLink.MessageLink.TakeData | internal/core/conn.go:1401-1574 | a data packet of either order adds the step GetData and one step per acknowledgement or loss report emitted, each stating the acknowledgement point |
| ArqMessageLink.MessageLink.FullAck | internal/core/conn.go:1674-1716 | the acknowledgement timer adds the step PutAck, or none |
| ArqMessageLink.MessageLink.PeriodicNak | internal/core/conn.go:1878-1894 | the loss report timer adds the step PutNak, or none |
| ArqMessageLink.MessageLink.Delivers | internal/core/conn.go:885-1916 | whatever was called on the two objects: if the cached reads met the condition, or every write fits one packet, each event of the receiving object is the whole payload of one write, none twice |
| RdvLogic.ContestOpposite | internal/core/rendezvous.go:56-71 | the peers reach opposite verdicts, and a draw exactly on equal cookies |
| RdvLogic.LargerCookieWins | internal/core/rendezvous.go:42-71 | the larger signed cookie is the initiator if and only if the cookies differ by at most 2^31 |
| RdvLogic.SmallerCookieCanWin | internal/core/rendezvous.go:42-71 | a concrete pair in which the smaller cookie wins |
| RdvLogic.SwitchExact | internal/core/rendezvous.go:74-181 | the transition table by its columns: which messages connect a side, which are refused and with which code, which are answered with extensions and of which kind, and where the exchange goes |
| RdvLogic.HandleRefuses | internal/core/rendezvous.go:322-376 | a dial fails if and only if the offer is unacceptable or the state refuses the message, with the code of the first reason |
| RdvDialer.Dialer.constructor | internal/core/rendezvous.go:263-319 | a dial starts by sending a WAVEHAND |
| RdvDialer.Dialer.HandleRendezvous | internal/core/rendezvous.go:322-390 | a handshake updates the dialer as the value function Handle says, in role, state, negotiated values and output |
| RdvDialer.Dialer.Emit | internal/core/rendezvous.go:393-430 | sends what the transition asks for |
| RdvDialer.Dialer.RetransmitStep | internal/core/rendezvous.go:434-441 | repeats the message of the current state |
| RdvDialer.Dialer.Switch | internal/core/rendezvous.go:74-181 | takes the transition of the state table and connects or fails accordingly |
| RdvRuns.StepKeeps | internal/core/rendezvous.go:322-489 | every delivery, loss, duplication, reordering and retransmission keeps the two-party invariant |
| RdvRuns.RunInv | internal/core/rendezvous.go:322-489 | the invariant holds in every state of every run of two compatible peers with distinct nonzero cookies |
| RdvRuns.RendezvousSafe | internal/core/rendezvous.go:56-489 | in every run nobody fails, resolved roles are opposite, a connected responder has a connected initiator, a connected initiator has a responder that heard it, and two connected ends hold mirrored parameters: the smaller packet size and window, the larger latency demand per direction and the initiator's key |
| RdvRuns.AtIExact | internal/core/rendezvous.go:322-430 | in every reachable state the initiator connects on exactly the responses it gets after its first step, saying AGREEMENT, and answers everything else with its offer |
| RdvRuns.AtRExact | internal/core/rendezvous.go:322-430 | in every reachable state the responder connects on exactly AGREEMENT, and answers every CONCLUSION with its response |
| RdvRuns.TimersExact | internal/core/rendezvous.go:434-441 | the timer repeats the message of the current step |
| RdvRuns.CanComplete | internal/core/rendezvous.go:56-489 | from every state of every run at most four more deliveries or timer firings connect both ends, with mirrored parameters |
| RdvRuns.AgreementNotRepeated | internal/core/rendezvous.go:434-489 | a connected initiator says nothing more, so only the one AGREEMENT can connect the responder |
| RdvRuns.AgreementNeverEarly | internal/core/rendezvous.go:74-181 | in every run an AGREEMENT reaches the responder only after it has heard a CONCLUSION |
| RdvRuns.SomeoneInitiates | internal/core/rendezvous.go:56-71 | of two distinct cookies one side initiates |
| FecXor.ParityAdd | internal/filter/fec.go:53-68 | a packet can be clipped into a group at any time: the order of arrival does not matter |
| FecXor.ParityMissing | internal/filter/fec.go:53-80 | the parity of a run and of all but one of it differ by exactly the clip of the one |
| FecXor.RestoreExact | internal/filter/fec.go:563-586 | an accumulator that holds one packet restores its timestamp, flag, length and payload if and only if the payload fits the FEC payload size |
| FecXor.ClipData | internal/filter/fec.go:53-63 | the byte loop XORs in the zero-padded payload |
| FecXor.ClipBytes | internal/filter/fec.go:53-63 | in place: bytes past either end are left alone |
| FecLayout.ColumnBaseOffsets | internal/filter/fec.go:323-341 | the loop computes the closed form i + (i mod rows) * cols (staircase) or i (even) |
| FecLayout.ColumnBases | internal/filter/fec.go:127-149 | the loops of configureColumns and extendColumnSeries (345-365) compute the same closed form |
| FecLayout.ExactlyOneGroup | internal/filter/fec.go:157-210 | every packet at or past its column's first lies in exactly one place of exactly one column group |
| FecLayout.PastRampUp | internal/filter/fec.go:127-149 | past the first matrix every packet is protected by a column |
| FecLayout.IndexByteDistinct | internal/filter/fec.go:215-229 | the signed index byte tells columns from rows if and only if there are at most 255 columns, from each other if and only if at most 256, and is the column number if and only if at most 128 |
| FecSending.FecSender.constructor | internal/filter/fec.go:108-149 | empty groups at the closed-form bases |
| FecSending.FecSender.FeedSource | internal/filter/fec.go:157-210 | for any in-order feed: what is emitted is exactly the parity of the row and of the column group, k-th of column i, that this packet completes |
| FecSending.FecSender.FeedRow | internal/filter/fec.go:161-210 | the row accumulator holds the XOR of exactly the row so far, and a full row is emitted and reset |
| FecSending.FecSender.FeedColumn | internal/filter/fec.go:173-202 | each column accumulator holds the XOR of exactly its open group, and a full group is emitted and reset |
| FecSending.GroupComplete | internal/filter/fec.go:157-210 | the clip of a completed column group is the XOR of exactly the rows packets at offsets base_i + (k*rows + j)*cols |
| FecRows.OneMissing | internal/filter/fec.go:563-594 | with the repair packet and all but one member, exactly one packet is missing and the accumulators are it |
| FecRows.ClipNew | internal/filter/fec.go:448-469 | clipping in a packet not seen before keeps the accumulators exact |
| FecRows.LengthFits | internal/filter/fec.go:53-68 | the accumulated length of every row stays below 2^16, so the 16-bit accumulator never loses a bit |
| FecReceiving.StoreKeeps | internal/filter/fec.go:448-469 | storing a data packet keeps the receiver invariant of every row |
| FecReceiving.RepairKeeps | internal/filter/fec.go:472-496 | storing a repair packet keeps it |
| FecReceiving.RebuildKeeps | internal/filter/fec.go:563-594 | rebuilding keeps it |
| FecReceiving.AdvanceKeeps | internal/filter/fec.go:791-833 | dropping the oldest row and forgetting its cells keeps it |
| FecReceiving.MarkedExact | internal/filter/fec.go:777-787 | inside the window a cell is marked if and only if its packet was received or rebuilt |
| FecReceiving.RepairIsRowParity | internal/filter/fec.go:204-229 | what a row-only sender emits for a row is the parity the receiver expects |
| FecReceiving.DroppedFront | internal/filter/fec.go:791-833 | rows leave the front exactly until the packet is at most one row ahead, the newest row staying |
| FecReceiving.DataKeeps | internal/filter/fec.go:375-469 | a data packet keeps the invariant, is known afterwards unless it lies before the window, and nothing known is lost |
| FecReceiving.TakeKeeps | internal/filter/fec.go:472-496 | a repair packet keeps the invariant and is recorded exactly when its row has not left the window |
| FecReceiving.RunKnows | internal/filter/fec.go:375-496 | in every run: of the tracked rows, the packets received or rebuilt include every data packet that arrived, and the recorded repair packets are exactly those that arrived |
| FecReceiving.RecoveredExactlyOnce | internal/filter/fec.go:375-594 | in every run of data and repair packets, in any order and multiplicity: a row still tracked whose repair packet and all members but one arrived has given the missing one back exactly once if it fits the FEC payload size, and not at all otherwise |
| FecReceiving.RecoveredAtMostOnce | internal/filter/fec.go:563-594 | in every run nothing is given back twice, and only packets that fit |
| FecReceiving.RebuiltExactly | internal/filter/fec.go:375-594 | in every run x is given back if and only if it fits the FEC payload size and at some arrival, before the loss report it sets off, its row was tracked with its repair packet and all members but x arrived |
| FecReceiving.FecReceiver.Recovers | internal/filter/fec.go:375-594 | the same of the object: whatever was fed to it, what it handed out is exactly those packets, each once, with their numbers and contents |
| FecReceiving.FecReceiver.constructor | internal/filter/fec.go:288-316 | two empty rows from the initial number on |
| FecReceiving.FecReceiver.ReceiveData | internal/filter/fec.go:375-469 | a data packet in any order, any number of times, is one DataStep of the run of arrivals; what comes out are the packets newly rebuilt, with their numbers and the contents the sender fed |
| FecReceiving.FecReceiver.ReceiveRepair | internal/filter/fec.go:375-496 | a repair packet, repeated or not, is one RepairStep of that run, with the same outputs and the loss report of the rows it passes |
| FecReceiving.FecReceiver.TryRebuild | internal/filter/fec.go:563-594 | rebuilds the one missing packet when the row is ready |
| FecReceiving.FecReceiver.GetRowGroupIndex | internal/filter/fec.go:647-671 | the row of a number, growing the window up to it, negative exactly before the window |
| FecReceiving.FecReceiver.CheckLargeDrop | internal/filter/fec.go:791-833 | computes that drop, and nothing for a packet before the window |
| FecReceiving.FecReceiver.FindLostInRow | internal/filter/fec.go:755-763 | finds the one unmarked number of the row |
| FecReceiving.FecReceiver.CollectLossReport | internal/filter/fec.go:926-981 | takes exactly the rows that are passed off the front and reports exactly their unmarked numbers |
| FecReceiving.ReportPasses | internal/filter/fec.go:926-981 | a loss report passes all rows but the last two, and of two rows the first if and only if more than a third of the second has arrived; without reports on request none |
| Tsbpd.DecodeExact | internal/tsbpd/tsbpd.go:93-104 | a state decodes a true timestamp if and only if it lies in the wrap of its offset, the first minute standing for the next wrap during a wrap period |
| Tsbpd.TracksExact | internal/tsbpd/tsbpd.go:93-104 | everything within 30 s of m decodes if and only if m lies in the stated range of the state |
| Tsbpd.UpdateKeepsDecoding | internal/tsbpd/tsbpd.go:119-138 | taking a timestamp into account does not change how it decodes |
| Tsbpd.UpdateTracks | internal/tsbpd/tsbpd.go:119-138 | an arrival keeps the machine in step with the newest timestamp if and only if it is newer and decodes, or older and not mistaken for the end or the start of a wrap period |
| Tsbpd.RunTracksExactly | internal/tsbpd/tsbpd.go:93-138 | after every arrival of a run, through any number of wraps, everything within 30 s of the newest decodes, if and only if every arrival was in step |
| Tsbpd.RunDecodes | internal/tsbpd/tsbpd.go:93-138 | in particular when every timestamp lies within 30 s of the newest before it |
| Tsbpd.SilenceExact | internal/tsbpd/tsbpd.go:93-138 | after any run in step the next newer timestamp decodes, and keeps track, if and only if it comes before the next wrap, or at most 60 s after it when the wrap period has begun |
| Tsbpd.SilenceBreaks | internal/tsbpd/tsbpd.go:119-138 | a concrete silence past that bound decodes one wrap short |
| Tsbpd.Timer.constructor | internal/tsbpd/tsbpd.go:68-75 | a timer before the first wrap |
| Tsbpd.Timer.UpdateWrap | internal/tsbpd/tsbpd.go:119-138 | takes one step of the machine |
| Tsbpd.Timer.DeliveryTime | internal/tsbpd/tsbpd.go:87-104 | the delivery time is timeBase + decoded time + delay + drift, and right for the true send time T if and only if the state decodes T |
| Tsbpd.Timer.OnACK | internal/tsbpd/tsbpd.go:147-205 | a drift epoch ends at 1000 samples; time base plus drift offset become the old time base plus the average, the old offset being discarded; the time base moves by 5 ms in the direction of an average beyond 5 ms, and not otherwise |
| Tsbpd.TruncDivExact | internal/tsbpd/tsbpd.go:176-188 | averages and half differences are rounded toward zero |
| MergeRuns.MergeDelivers | internal/core/group.go:388-426 | after any calls: delivered numbers strictly increase, each with its first-arrived payload; at most 256 packets are pending; calls = delivered + pending + duplicates |
| MergeRuns.NothingHeldBack | internal/core/group.go:410-426 | after any calls the next number to deliver is missing and the newest is at most 256 past it |
| MergeRuns.SkippedOnlyWhenFarBehind | internal/core/group.go:410-426 | a number is passed over only when some arrival is more than 256 past it |
| MergeRuns.TimelyIsKept | internal/core/group.go:388-426 | a packet that arrives no more than 256 behind the front is delivered or still pending |
| MergeRuns.InOrderIsImmediate | internal/core/group.go:388-426 | packets that arrive in order are delivered at once |
| MergeRuns.OfferKeeps | internal/core/group.go:388-408 | one call keeps the run invariant |
| MergeRuns.DrainOrdered | internal/core/group.go:412-426 | draining keeps the order, the log and the account of gaps |
| MergeRuns.DrainKeeps | internal/core/group.go:412-426 | draining never loses a packet it holds |
| Merging.Merger.constructor | internal/core/group.go:111-118 | an empty merge |
| Merging.Merger.FilterDelivery | internal/core/group.go:388-408 | one call on wire numbers computes one call on unbounded numbers, for copies less than 2^30 from the delivery point |
| Merging.Merger.DrainPending | internal/core/group.go:412-426 | the loop terminates and computes Drain |
| Merging.Merger.PollDelivery | internal/core/group.go:386-386 | hands out the delivered payloads in order, each once |
| QueueRuns.QueueBounded | internal/session/delivery.go:38-102 | in every run of pushes and pops, in any mix of modes: count and byte limits hold, deliveries come out in the order of the pushes, and pushed = popped + queued + dropped, in number and in bytes |
| QueueRuns.ReliablePrefix | internal/session/delivery.go:53-67 | reliable mode never evicts: pops followed by the queue are a prefix of the pushes, all of them until the queue fails |
| QueueRuns.LivePush | internal/session/delivery.go:68-89 | a live push keeps the longest suffix that fits with the new item, and drops the item only when no eviction could make room |
| QueueRuns.FitsExact | internal/session/delivery.go:62-69 | a delivery fits if and only if both limits hold with it, and is too big if and only if it does not fit an empty queue |
| QueueRuns.ReliablePush | internal/session/delivery.go:55-67 | a reliable push is taken if and only if the limits hold with it; otherwise the queue fails, keeps its contents and counts the loss |
| QueueRuns.FailedPush | internal/session/delivery.go:58-61 | a failed queue takes nothing more and counts what it refuses |
| QueueRuns.EvictExact | internal/session/delivery.go:72-74 | eviction terminates at the longest fitting suffix and counts what it drops |
| QueueRing.DeliveryQueue.constructor | internal/session/delivery.go:34-36 | an empty queue with the configured limits |
| QueueRing.DeliveryQueue.Push | internal/session/delivery.go:55-89 | computes the value push, and returns false exactly when it refuses |
| QueueRing.DeliveryQueue.PopLocked | internal/session/delivery.go:38-45 | removes the head, clears its slot and keeps the byte sum exact |
| QueueRing.DeliveryQueue.MakeRoom | internal/session/delivery.go:72-74 | evicts from the head until the item fits |
| QueueRing.DeliveryQueue.Grow | internal/session/delivery.go:75-83 | moves the contents, in order, to a larger ring |
| QueueRing.DeliveryQueue.Store | internal/session/delivery.go:84-86 | appends behind the last item |
| QueueRing.DeliveryQueue.Pop | internal/session/delivery.go:91-102 | returns the oldest item, or nothing when empty |
| KeyWrapSpec.RoundTrip | internal/crypto/keywrap.go:25-120 | unwrapping a wrapped key returns it, for every plaintext of a positive multiple of 8 bytes, every key and every block cipher that is a permutation |
| KeyWrapSpec.UnwrapsOnlyWrapped | internal/crypto/keywrap.go:74-120 | unwrapping w yields p if and only if wrapping p yields w |
| KeyWrapSpec.IndexedIsShifted | internal/crypto/keywrap.go:44-62 | the indexed nested loops compute the shift-register form of section 2.2.1 of RFC 3394 |
| KeyWrapSpec.WrapIsStandard | internal/crypto/keywrap.go:25-69 | wrapping is 6n shift steps of RFC 3394 from A6A6A6A6A6A6A6A6, for exactly the key and plaintext lengths allowed |
| KeyWrapSpec.WrapThenUnwrap | internal/crypto/keywrap.go:47-61 | a backward step undoes a forward step |
| KeyWrapSpec.UnwrapThenWrap | internal/crypto/keywrap.go:96-111 | a forward step undoes a backward step |
| KeyWrapping.Wrap | internal/crypto/keywrap.go:25-69 | the forward loops over arrays compute Wrap, error cases included |
| KeyWrapping.Unwrap | internal/crypto/keywrap.go:74-120 | the backward loops over arrays compute Unwrap, error cases included |
| NakSpec.RoundTrip | internal/packet/packet.go:303-368 | decoding an encoded loss list of up to 8192 numbers, sorted or not, returns it |
| NakSpec.RoundTripExact | internal/packet/packet.go:303-368 | for a list of any length the round trip works if and only if no consecutive pair stands beyond the first 8192 numbers |
| NakSpec.LongRunRefused | internal/packet/packet.go:339-368 | a run longer than 8192 is refused |
| NakSpec.LoneRangeRefused | internal/packet/packet.go:339-368 | a range without its second number is refused |
| NakSpec.ExpandRun | internal/packet/packet.go:349-358 | expanding a range returns its run, also when it ends at 0x7FFFFFFF |
| NakCodec.MarshalCIF | internal/packet/packet.go:303-337 | the nested loops compute the encoding |
| NakCodec.UnmarshalCIF | internal/packet/packet.go:339-368 | the loop computes the decoding, error cases and trailing bytes included |
| NakExchange.GapAnswered | internal/core/conn.go:1865-1876 | the list of an immediate NAK survives the codec if and only if it has at most 8192 numbers, or 8193 with the wrap to zero at the last |
| HandshakeSpec.RoundTrip | internal/packet/cif.go:105-311 | parsing a printed handshake returns it, normalized as printing does, for every version and combination of extensions, if and only if the normalized message is well formed; the condition is on its fields alone |
| HandshakeSpec.ParsedIsSound | internal/packet/cif.go:198-311 | whatever the bytes, parsed strings carry no trailing NUL and keep their bounds, key material is consistent or empty, and the fixed part is untouched by the blocks |
| HandshakeSpec.BaseRoundTrip | internal/packet/cif.go:126-213 | the 48 bytes of the fixed part read back if and only if the number has 31 bits and the address is plain |
| HandshakeSpec.BaseLayout | internal/packet/cif.go:127-141 | the offset of every field of the fixed part |
| HandshakeSpec.BlockTypes | internal/packet/cif.go:143-196 | the type number of every extension block |
| HandshakeSpec.ApplyRefuses | internal/packet/cif.go:249-305 | a block is refused for its length or its key material and for nothing else |
| HandshakeSpec.ApplyIgnores | internal/packet/cif.go:249-305 | blocks of unknown type and group blocks too short for one are passed over |
| HandshakeSpec.ShortBlocks | internal/packet/cif.go:231-248 | a block that promises more than is left is refused; fewer than four trailing bytes are ignored |
| HandshakeSpec.ParseEdges | internal/packet/cif.go:198-230 | when a message is refused or taken without looking at blocks |
| HandshakeSpec.ParseBlock | internal/packet/cif.go:231-308 | reading a printed block applies it and goes on behind it |
| HandshakeSpec.AliasRefused | internal/packet/cif.go:243-248 | a second block is refused as a duplicate if and only if the two types agree modulo 32, also when they differ |
| HandshakeParts.StringRoundTrip | internal/packet/cif.go:553-580 | a string survives padding and word reversal if and only if it has no trailing NUL |
| HandshakeParts.IPRoundTrip | internal/packet/cif.go:519-550 | an address survives if and only if it is IPv4, or IPv6 neither mapped nor zero beyond its first word |
| HandshakeParts.IPLayout | internal/packet/cif.go:519-535 | IPv4, mapped or not, is four bytes and zeros; IPv6 its sixteen bytes; anything else zeros |
| HandshakeParts.ReversedAt | internal/packet/cif.go:553-568 | within each word of a string the bytes are in reverse order |
| HandshakeParts.KmRoundTrip | internal/packet/cif.go:359-505 | key material survives if and only if it is an error response or its fields, salt and wrapped keys are consistent |
| HandshakeParts.KmLayout | internal/packet/cif.go:359-399 | the bytes of a valid key message: type, signature, flags, index, ciphers, lengths in words, salt and keys |
| HandshakeParts.KmComplaintExact | internal/packet/cif.go:411-505 | what the fixed part of a key message must be to be accepted |
| HandshakeParts.KmAccepted | internal/packet/cif.go:401-505 | a key message is taken if and only if it is an error response or its fields and its length are right |
| HandshakeParts.HsRoundTrip | internal/packet/cif.go:321-339 | the HS extension survives |
| HandshakeParts.HsLayout | internal/packet/cif.go:321-339 | the offset of every field of the HS extension |
| HandshakeParts.GroupRoundTrip | internal/packet/cif.go:171-180 | the group extension survives |
| HandshakeParts.GroupLayout | internal/packet/cif.go:171-180 | the offset of every field of the group extension |
| Wire.WordsRoundTrip | internal/packet/packet.go:331-336 | big-endian words read back |
| Wire.WordBytes | internal/packet/packet.go:331-336 | the most significant byte of a word comes first |
| Wire.WordPlace | internal/packet/packet.go:331-336 | word k of a list lies at offset 4 k |
| Wire.WordOfHalves | internal/packet/cif.go:129-131 | two adjacent 16-bit fields are the bytes of one word |
| HandshakeCodec.ReverseWords | internal/packet/cif.go:562-565 | in place: the bytes of every word are reversed |
| HandshakeCodec.MarshalStreamID | internal/packet/cif.go:553-567 | computes the padded, word-reversed string |
| HandshakeCodec.UnmarshalStreamID | internal/packet/cif.go:570-580 | computes the reversed, trimmed string |
| HandshakeCodec.AppendExtension | internal/packet/cif.go:509-516 | behind the unchanged buffer a reader finds the kind, the data, and a length field that covers the data if and only if the data is whole words, at most 65535 of them |
| HandshakeCodec.MarshalBase | internal/packet/cif.go:127-141 | the 48 bytes written field by field, the two 16-bit fields sharing a word, are the ones the parser reads back |
| HandshakeCodec.Normalize | internal/packet/cif.go:106-125 | no empty stream ID remains, and in a version 5 conclusion bit 0, 1 and 2 of the extension field are set exactly when an HS, a key material, or any of the other extensions is present |
| HandshakeCodec.MarshalCIF | internal/packet/cif.go:105-196 | prints the message, fixed part and blocks in order, and leaves it normalized |
| HandshakeCodec.UnmarshalCIF | internal/packet/cif.go:198-311 | the block loop computes the parse, error cases included |
| RotationRuns.ActiveAlwaysLives | internal/core/keyrotation.go:53-101 | in every run, also when key generation fails or replies are lost, the active slot holds a live key and an announced key stays alive until the switch |
| RotationRuns.SafeExactly | internal/core/keyrotation.go:53-88 | the active slot holds a key in every run if and only if twice the pre-announce is at most the refresh rate |
| RotationRuns.OverlapLosesKey | internal/core/keyrotation.go:53-88 | otherwise the second switch goes to a cleared slot |
| RotationRuns.EstablishSafe | internal/core/conn.go:663-669 | setup replaces a pre-announce of 0 or at least the refresh rate by half of it and keeps any other; the settings are safe if and only if that one is at most half |
| RotationRuns.RotationOnTime | internal/core/keyrotation.go:53-88 | in every run each switch goes to a key announced at most pre-announce sends earlier, exactly that many if no due generation failed, and no key encrypts more packets than the refresh rate plus the due generations that failed |
| RotationRuns.RotationOff | internal/core/conn.go:1236-1241 | with a refresh rate of zero the first key encrypts every packet and none is announced |
| RotationRuns.RequestsBounded | internal/core/keyrotation.go:56-101 | a key is announced to the peer at most eleven times |
| RotationRuns.RetryExact | internal/core/keyrotation.go:92-101 | each retry timer repeats exactly the announced key and spends one retry, while it is unconfirmed and retries are left, and does nothing otherwise |
| RotationRuns.ConfirmStops | internal/core/keyrotation.go:92-101 | a confirmed key is not repeated |
| RotationRuns.OldKeyRetires | internal/core/keyrotation.go:71-87 | in every run the old key is cleared a pre-announce window after the switch and its slot stays empty until the next announcement |
| RotationRuns.ClearMissesKeysInUse | internal/core/keyrotation.go:80-87 | a clear never hits the active or the announced key |
| KeyRotating.Rotator.constructor | internal/core/conn.go:663-669 | the settings after setup and the initial keys |
| KeyRotating.Rotator.SendEncrypted | internal/core/conn.go:1192-1241 | a packet goes out under the active key, then the machine steps |
| KeyRotating.Rotator.CheckKeyRotation | internal/core/keyrotation.go:53-88 | announce, switch and decommission in this order, with the early return when generation fails |
| KeyRotating.Rotator.RetryKMREQ | internal/core/keyrotation.go:92-101 | repeats the announced key while unconfirmed and within ten retries |

## Left out

- Connection.Conn.WriteMsg: non-live writes only, without a time to live per message; a live write is one frame.
- RecvRing.RecvBuffer.ReadNext: on a stream-mode buffer; in message mode the code leaves its out-of-order count unadjusted there, and the connection never calls it.
- ArqLink.Link.Write: in message mode for ordered messages; `ArqMessageLink.MessageLink` takes both.
- ArqLink.Link.constructor: ring and flow window together below 2^30 numbers.
- ArqMessageLink.MessageLink.constructor: the same.
- SendWindow.NakTimedGates: for a nonzero clock; `SendWindow.GatesExactly` shows that this is exact.
- Tsbpd.RunDecodes: under a simple sufficient condition; `Tsbpd.RunTracksExactly` has the exact one.
- ArqMessages.MessagesWhole: what remains undelivered for lack of a consulted cache is not bounded.
- ArqProgress.CanDeliverAll: streams and in-order messages; `ArqMessages.NothingHeldBack` is what is shown for unordered ones.
- Arq.StepKeeps: a packet reaches the receiver, and an acknowledgement the sender, while less than 2^30 numbers old; without this bound the 31-bit comparison cannot tell old from new.
- Merging.Merger.FilterDelivery: copies at least 2^30 numbers away from the delivery point are not covered, for the same reason.
- Connection.Conn.constructor: a positive flow window and ring capacities up to 2^29, where the 31-bit order is exact inside a ring.
- SendRing.SendBuffer.constructor: capacities up to 2^29, for the same reason.
- RecvRing.RecvBuffer.constructor: capacities up to 2^29, for the same reason.
- FecReceiving.FecReceiver.ReceiveData: packets of the sender's stream close enough to the window that no full reset happens.
- FecReceiving.FecReceiver.ReceiveRepair: the same.
- FecReceiving.RecoveredExactlyOnce: row-only FEC, arrivals near enough to the window that no full reset happens; the receiver's column recovery trims an index it also uses as an absolute one.
- Branches of the receive ring that its invariant excludes, such as a slot that is marked available but empty.
- `RecvBuffer.Drop` and `DropTooLate`, `SendBuffer.DropExpiredTTL` and `OverrideNextSeq` on a non-empty buffer: they break the contiguous window on purpose.
- Timestamp-based delivery out of the receive ring, too-late drop, drop requests, reorder tolerance and deferred loss reports.
- FEC packet headers on the wire, column recovery at the receiver and cross recovery.
- AES, GCM, PBKDF2 and random generation: the block cipher is an arbitrary permutation and keys are numbered.
- Congestion control and bandwidth estimation: any window and any interval of at least one are allowed.
- Induction handshake, listener, caller retries, HSv4 and connection teardown.
- The ready/backlog split and the change notification of the application queue.
- Link selection, backup activation and time-base synchronization of groups.
- Sockets, multiplexer, sessions, options, statistics, logging, locking and buffer pools.
- Liveness: that completion stays possible is proved; that it happens is not, since the channel may lose everything.
