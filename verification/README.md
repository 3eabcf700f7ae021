# Typenet in Dafny

A model of Typenet's TCP echo server, and proofs about it: the per-connection state machine on 32-bit
circular sequence numbers, the connection table with its retransmission timer, the Internet checksum
in its four forms, and the packet codecs.

`dafny verify dfyconfig.toml` checks everything.

## How the model is built

**Values first.** A connection is a value `Conn`. `Engine.OnSegment`, `Engine.OnClose` and
`Connections.OnTick` say what a segment, an active close and a timer wake-up do to it;
`Connections.DecideReply`, `TickTable` and `CloseTable` lift that to the table.

**Then the code that mutates.** `ConnState`, `TcpConnections` and `EchoServer` are classes with the
source's fields. Their methods follow the source branch by branch, change the fields in place, and are
proved to do to the fields what those functions do to the values. `Server.Run` closes the circle: the
event loop of the mutable server, with all its exits, is the loop of `EventLoop` as a function of the events;
that goes through a run of the table machine; and the packets on the wire are, connection by connection, the
encodings of what that machine sends, up to the first segment that does not encode, where the server stops.
The packet writers fill an `array` in place and are proved against byte strings in the same way.

**Runs.** `Lives.Event` is a segment arriving, a timer wake-up or a close call, in any order and number,
so loss, duplication and reordering need no extra modelling. A `Life` is a connection with a history
kept by an observer, who sees the incoming segments, the sequence variables and what is sent. What the
observer counts as taken or acknowledged is decided by four predicates on the segment and the connection,
`TakesData`, `ProcessesAck`, `OffersWindow` and `AcksFin`. They say when, never what is then done; but the
conditions are the code's own: `TakesData` calls the handshake test `CompletesHandshake`, and
`ProcessesAck` has the guards of the closing states. A life is `Reachable` if some events lead to it from
some birth. That is wider than what the server can do, since neither the flags of the first segment nor the
addresses of the later ones are looked at, so the theorems hold of more than they need to.
`Independence.EveryEntryIsALife` shows that every entry of the table, in every run of the whole server, is
such a life; `EveryLifeIsAnEntry` shows the converse for lives that start with a SYN and whose segments all
come on one 4-tuple; and `LogIsWhatWasSent` that their histories log what the server sends.
`Ledgers.Ledger` further traces each pending segment and each retransmission back to the first transmission
it is a copy of.

**References apart from the code.** Three modules say what the server does without its helper functions:
`Answers` gives the answer to any segment by state, order and acknowledgment number; `WireFormat` gives the
packets by literal offsets, bits and protocol numbers; `ResendTimes` gives the resends by what was on the wire
and when. Each is proved equal to what the code does, for all segments, bytes or runs.

Numbers: `u8`, `u16` and `u32` are integer ranges and the wrapping, saturating and clamping operations
are written out. Time is an integer number of nanoseconds. The clock, the random initial sequence
number (which may fail) and the incoming segments are parameters. `Option<TcpPayload>` is a byte string
in which the empty string is `None`, which `TcpPayload` never is. `HashMap` iteration has no order, so
segments of several connections are compared connection by connection (`Carries`, `OnWire`).

## Where the promise does not hold as written

- *Antipodal acknowledgment.* When nothing is in flight, an acknowledgment of SND.NXT + 2^31 passes the
  acceptance test. `TilingKeptIffNotAntipodal` shows that this one number, in a segment whose
  acknowledgment is looked at, is exactly what breaks the retransmission queue; `AntipodeIsReachable`
  gives the run. Conservation, totality, receive accounting and echo hold even then.
- *Shrunk windows.* First transmissions never pass SND.UNA + SND.WND. Retransmissions can, after the
  peer has shrunk its window (`ResendPastAShrunkWindow`). Pending data ends inside the window exactly as long
  as no more than the window, and our FIN, is in flight (`PendingDataFitsIff`). The timer sends no data past
  the window exactly when each pending segment with data past it comes due no earlier than one that is out
  of retries, so that the connection is given up instead (`TimerStaysInsideIff`, and for runs
  `ResendsStayInsideIff`); with a retry limit of zero that is always so.
- *Stalled echo.* A segment out of order is acknowledged and its window counts, but nothing is drained, so
  buffered bytes can wait with room in the window, nothing in flight, and no timer to send them
  (`StalledRun`). `KeepsFlowingIff` gives the segments that bring this about, exactly.
- *Lost FIN-ACK.* If the FIN-ACK of a passive close is lost, the peer repeats its FIN and is answered with
  a reset (`LostFinAck` is a run). That reset has the sequence number the peer expects next, so that it aborts
  the close and drops the data on the FIN-ACK, exactly when the peer's FIN had acknowledged everything
  (`RepeatedFinIsReset`).
- *Backoff.* The saturating exponent is exact for every configuration in whole milliseconds
  (`BackoffIsExponential`), which are all that `src/config.rs:37-40` builds. The types would also allow
  smaller initial timeouts, where it is not (`BackoffBelowAMillisecond`); `BackoffIsExactIff` gives the
  condition.
- *Naive checksum.* It goes wrong beyond `DEFERRED_CARRIES_MAX_BYTES`
  (`NaiveIsWrongBeyondTheLimit`); `NaiveIsRightIff` gives the condition.
- *Repeated SYN.* The comment at `src/protocol/tcp/send_info.rs:191-193` promises the same SYN-ACK again.
  The code acknowledges the new SYN's number, which is RCV.NXT only if it repeats the first one
  (`RepeatedSyn`).
- *FIN-WAIT-1.* Data that acknowledges our FIN leaves the state as it is (`FinAckedByData` is a run), and
  a partial acknowledgment draws a reset (`FinWait1Exits`).
- *Bytes lost at our FIN.* Bytes still buffered when our FIN goes out were acknowledged to the peer and are
  never sent (`BytesLeftBehind` is a run). All accepted bytes get sent if and only if, before the event
  that sends the FIN, the buffer is empty (close call) or what waits fits into the window (the peer's FIN):
  `AllAcceptedIsSentIff`.
- *Segments that do not encode.* Encoding fails exactly on payloads over 1460 bytes (`EncodePacket`), but
  the reply logic builds larger ones out of ordinary segments (`OversizedReply`, `OversizedRun`), and the
  server then stops for all connections. A run goes through, resends included, if and only if no segment
  of it drains more than 1460 bytes (`RunEncodesIff`, `Server.Run`); `DrainSize` is the lesser of the window
  space and the bytes waiting, both known before the segment is handled.

## Model

| member | source | states |
|---|---|---|
| EchoStream.EchoesTheStream | src/protocol/tcp/send_info.rs:285-402 | End-to-end echo: over any lost, repeated or reordered segments whose data comes from one client stream shorter than 2^32, every data segment sent at ISN + 1 + k, new or retransmitted, carries the stream's bytes from k on, and all bytes sent are a prefix of the stream |
| Independence.ServerEchoesTheStream | src/protocol/tcp/send_info.rs:54-153 | The same for every connection of every interleaved run of the whole server: with the one SYN that opened the connection, if what came on it since carries one stream, the data the server has sent on it since, retransmissions aside, is a prefix of the stream, and what the next event sends there is made of it |
| Independence.LogIsWhatWasSent | src/protocol/tcp/send_info.rs:54-153 | The history of a connection's life logs exactly what the server has sent on its 4-tuple since its SYN, retransmissions aside |
| Encoding.PacketsEchoTheStream | src/server.rs:171-189 | The same in bytes: in a run without drains over 1460 bytes, every packet the next event puts on the wire parses back, for the client, to a segment r from server to client with window 65535 whose data is the piece of the client's stream at r's own sequence number; unless a wake-up repeats an older one, r's acknowledgment number counts the client's ISN, SYN, the bytes taken and its FIN |
| WireFormat.ClientReads | src/protocol/tcp.rs:120-135 | For every connection and every sequence number, acknowledgment number, flags and payload that fits, the packet the server sends is read by the client as exactly these, from server to client, with window 65535 |
| WireFormat.PacketLayout | src/protocol/tcp.rs:192-255 | At which bytes of that packet length, sequence number, acknowledgment number, flags, window and data are |
| EchoStream.StepEchoes | src/protocol/tcp/connections.rs:122-196 | The inductive step: segments, timer and close all keep the queue and the wire pieces of the stream |
| EchoStream.TakesNextPiece | src/protocol/tcp/send_info.rs:309-320 | Data taken in order extends the received prefix of the stream |
| Conservation.AlwaysBalanced | src/protocol/tcp/send_info.rs:220-402 | In every run, with no assumption on the peer: bytes accepted for echo are the bytes sent followed by the buffer; SND.NXT counts ISN, SYN, bytes sent and FIN; RCV.NXT counts client ISN, SYN, bytes taken and the peer's FIN, which has been taken exactly in CLOSING and LAST-ACK |
| Conservation.StepBalances | src/protocol/tcp/connections.rs:122-196 | Every event keeps these books balanced |
| Conservation.NeverFails | src/protocol/tcp/state.rs:299-311 | No reachable connection and no event makes the reply logic return an error |
| Independence.DecideReplyIsTotal | src/protocol/tcp/send_info.rs:54-183 | Given an ISN, `decide_reply` succeeds for every segment after every run of the whole server |
| Conservation.AcksExactlyWhatWasTaken | src/protocol/tcp/send_info.rs:37-39 | Every freshly built ACK or FIN-ACK acknowledges exactly what has been taken so far, counted from the client's ISN |
| Conservation.TakenOnceInOrder | src/protocol/tcp/send_info.rs:309-328 | Data is taken only where the data taken before ended, so no byte is taken twice and none is given back |
| Moves.SegmentOutcome | src/protocol/tcp/send_info.rs:65-151 | Whatever one segment is: no error, only the coded edges, the sequence variables and the buffer move by exactly what the observer saw sent and taken, the reply is well built, and at most 2^31 is in flight before our FIN, even after an antipodal acknowledgment |
| Moves.SegmentQueue | src/protocol/tcp/state.rs:247-255 | The queue becomes exactly what the segment leaves in it (all, what it does not cover, or nothing once the handshake completes), followed by the reply if that consumes sequence numbers |
| Moves.EchoConserves | src/protocol/tcp/send_info.rs:298-320 | Draining and echoing splits the buffer into what is sent and what stays, and advances SND.NXT by what is sent |
| Moves.PassiveCloseConserves | src/protocol/tcp/send_info.rs:369-402 | The passive close does the same and always answers with one FIN-ACK |
| Answers.AnswerIs | src/protocol/tcp/send_info.rs:54-153 | The whole answer to any segment on any sound connection, told by state, order and acknowledgment without naming a handler: a reset at the number it acknowledges, nothing, the SYN-ACK again, or one ACK or FIN-ACK at SND.NXT with what is then taken acknowledged and the drained bytes on it |
| Answers.UnansweredIff | src/protocol/tcp/send_info.rs:220-345 | Exactly which segments are not answered: a RST at RCV.NXT or outside the window, and the bare ACKs that complete the handshake, drain nothing in ESTABLISHED, acknowledge everything in FIN-WAIT-1 or CLOSING, or come in LAST-ACK |
| Answers.StateIs | src/protocol/tcp/send_info.rs:104-150 | The state after any segment, by what it takes and acknowledges |
| Answers.UnaIs | src/protocol/tcp/state.rs:247-255 | SND.UNA after any segment: the acknowledgment number if it is looked at and new, otherwise what it was |
| Answers.RunsAnswer | src/protocol/tcp/send_info.rs:54-153 | In every run each segment draws exactly that answer |
| Answers.BareAcksDrawOnlyData | src/protocol/tcp/send_info.rs:298-304 | In every run, while our send side is open, a bare ACK draws a segment without data if and only if it is not one on which the buffer is drained; so acceptable acknowledgments are never answered with bare ones |
| Answers.UnknownIsAnswered | src/protocol/tcp/send_info.rs:155-183 | A segment of no connection: a SYN is answered with a SYN-ACK and opens one, a RST with nothing, anything else with a RST at its acknowledgment number; the table changes only for a SYN with an ISN, and the one error is a SYN without one |
| Answers.ServerAnswers | src/protocol/tcp/send_info.rs:54-183 | In every run of the whole server, what is sent on each connection about an arriving segment: that answer on its own 4-tuple, known or not, and nothing on any other |
| Answers.ResetsAreNotReset | src/protocol/tcp/send_info.rs:69-89 | In every run of the whole server no reset, on a connection or not, is answered with anything but a challenge ACK |
| Tiling.QueueAlwaysTiles | src/protocol/tcp/state.rs:242-279 | In every run without an antipodal acknowledgment the queue is contiguous, ends at SND.NXT, has SND.UNA in its first segment, and holds at most 65535, or 65536 with our FIN, even if the peer shrinks its window |
| Tiling.TilingKeptIffNotAntipodal | src/protocol/tcp/state.rs:247-255 | One segment keeps the tiling if and only if its acknowledgment is not antipodal |
| Tiling.AntipodeIsReachable | src/protocol/tcp/send_info.rs:322-328 | A three-segment run that breaks the tiling |
| Tiling.NothingForgotten | src/protocol/tcp/pending_segment.rs:67-70 | Every sequence number from SND.UNA up to SND.NXT, SYN and FIN included, is held by a pending segment; the queue is empty exactly when SND.UNA is SND.NXT; FIN-WAIT-2 has nothing in flight |
| Tiling.NothingIsEverForgotten | src/protocol/tcp/state.rs:242-279 | The same over every run without an antipodal acknowledgment |
| Tiling.RetainTiles | src/protocol/tcp/state.rs:252-254 | Dropping what an acknowledgment covers leaves a suffix of the queue that tiles from the acknowledgment |
| FlowControl.NeverPastTheWindow | src/protocol/tcp/state.rs:299-311 | In every run a first transmission of data never ends past SND.UNA + SND.WND |
| FlowControl.EveryDrainIsMaximal | src/protocol/tcp/state.rs:305-310 | In every run, after each drain the buffer is empty or the window is full |
| Stalls.KeepsFlowingIff | src/protocol/tcp/send_info.rs:322-328 | From a connection on which nothing waits that the window has room for, a segment leads to one on which something does if and only if it opens room without draining: out of order, in ESTABLISHED, with bytes waiting |
| Stalls.BytesWaitOnlyForTheWindow | src/protocol/tcp/send_info.rs:298-328 | In every run without such a segment, bytes wait only while the window is full |
| Stalls.TimerDoesNotHelp | src/protocol/tcp/connections.rs:122-160 | With nothing pending, no number of wake-ups changes the connection or sends anything |
| Runs.StalledRun | src/protocol/tcp/send_info.rs:322-328 | A run that leaves a byte waiting in an open window with nothing in flight |
| DrainSizes.ReplyCarriesTheDrain | src/protocol/tcp/state.rs:299-311 | The reply to any segment carries exactly the lesser of the window space its acknowledgment and window leave and the bytes then waiting, or nothing if it drains nothing |
| DrainSizes.AllAcceptedIsSentIff | src/protocol/tcp/send_info.rs:369-402 | Once our FIN has gone out, in every continuation, all accepted bytes are among those sent if and only if the buffer was empty (close call) or all that was waiting fitted into the window (the peer's FIN) |
| DrainSizes.FinIsSentIff | src/protocol/tcp/connections.rs:164-196 | Our FIN goes out exactly on a close call in ESTABLISHED or the peer's FIN in order |
| Runs.BytesLeftBehind | src/protocol/tcp/connections.rs:164-196 | A run after which an accepted byte is never sent, whatever happens later |
| ResendWindow.PendingDataFitsIff | src/protocol/tcp/connections.rs:148-156 | For a tiled queue, no pending data ends past the window in force if and only if no more than the window, and our FIN, is in flight |
| ResendWindow.TimerStaysInsideIff | src/protocol/tcp/connections.rs:138-156 | For any synchronized connection, the timer sends no data past the window, whenever it fires, if and only if each pending segment with data past it comes due no earlier than one that is out of retries |
| ResendWindow.ResendsStayInsideIff | src/protocol/tcp/connections.rs:122-160 | Both over every run without an antipodal acknowledgment: the pending data, and what the timer sends, in terms of what is in flight and of who is given up first |
| Runs.ResendPastAShrunkWindow | src/protocol/tcp/connections.rs:138-156 | A run after which the timer resends a byte past a window that was closed, if the retry limit is not zero, and stays inside if it is zero |
| Encoding.ReplyEncodesIff | src/protocol/tcp.rs:192-255 | The reply to any segment encodes if and only if the segment drains at most 1460 bytes |
| Encoding.RunEncodesIff | src/server.rs:142-189 | In every run of the whole server, all that is sent, resends included, encodes if and only if no segment of the run drains more than 1460 bytes |
| Runs.OversizedReply | src/protocol/tcp/send_info.rs:298-304 | A run of ordinary segments whose reply carries 1461 bytes and does not encode |
| Runs.OversizedRun | src/server.rs:171-189 | The same run at the level of the server |
| Lifecycle.OnlyForward | src/protocol/tcp/state.rs:228-231 | Along every run a connection stays in its kind of state or moves to one of higher rank |
| Lifecycle.StepFollowsEdge | src/protocol/tcp/send_info.rs:104-150 | Every event follows one of the coded edges |
| Lifecycle.FrozenAfterFin | src/protocol/tcp/state.rs:287-295 | Exactly one FIN is ever first sent; from then on, in every continuation, SND.NXT and the buffer are frozen and only pure ACKs, RSTs and verbatim copies of pending segments leave |
| Lifecycle.JustifiedRemoval | src/protocol/tcp/send_info.rs:406-537 | A connection leaves the table if and only if a RST is at exactly RCV.NXT, a due segment has no retries left, or the closing handshake ends; in the last case the peer's FIN was taken in order and ours was acknowledged |
| Lifecycle.RemovalCauses | src/protocol/tcp/connections.rs:138-146 | The same equivalence for any connection value |
| Lifecycle.HandshakeCompletesIff | src/protocol/tcp/send_info.rs:214-262 | SYN-RECEIVED is left exactly on SEG.SEQ = RCV.NXT and SEG.ACK = SND.NXT, to ESTABLISHED by an ACK and to LAST-ACK by a FIN-ACK |
| Lifecycle.FinWait1Exits | src/protocol/tcp/send_info.rs:406-468 | FIN-WAIT-1 in full: next state, removal and reply for every ACK and FIN-ACK; a bare ACK of less than everything and anything out of order change nothing and are reset, data and FIN in order are taken and acknowledged, and data leaves the state as it is even if it acknowledges our FIN |
| Runs.FinAckedByData | src/protocol/tcp/send_info.rs:412-420 | A run in which our FIN is acknowledged by data and the state stays FIN-WAIT-1 |
| Lifecycle.FinWait2Entry | src/protocol/tcp/send_info.rs:422-427 | FIN-WAIT-2 is only entered on an acknowledgment of everything sent, our FIN included |
| ReplyPolicy.WhatIsTakenIsAcked | src/protocol/tcp/send_info.rs:309-499 | In every run, data or a FIN that is taken is acknowledged by the one reply of the same step, the last one included |
| ReplyPolicy.ResetPolicy | src/protocol/tcp/send_info.rs:69-89 | By distance of SEG.SEQ from RCV.NXT: zero removes silently, below 65535 draws one challenge ACK, anything else nothing; the connection is unchanged and no RST is answered with a RST |
| ReplyPolicy.BlindSegmentsChangeNothing | src/protocol/tcp/send_info.rs:69-102 | A SYN, a SYN-ACK, or a reset that is not at RCV.NXT, on a synchronized connection, draws at most one challenge ACK, and in every continuation the connection is where it would be without it and sends what it would have sent |
| ReplyPolicy.RepeatedFinIsReset | src/protocol/tcp/send_info.rs:518-537 | After a passive close, as long as the connection lives, the peer's FIN again is answered with a reset and nothing else; its sequence number is that of our FIN-ACK if and only if the peer's FIN acknowledged everything |
| Runs.LostFinAck | src/protocol/tcp/send_info.rs:518-537 | A run in which a lost FIN-ACK with data ends in a reset at its sequence number |
| ReplyPolicy.OutOfOrderTakesNothing | src/protocol/tcp/send_info.rs:322-328 | Out-of-order data or FIN changes neither RCV.NXT, SND.NXT, the buffer nor what was taken, and draws a duplicate ACK, or a RST after our FIN |
| ReplyPolicy.RepeatedSyn | src/protocol/tcp/send_info.rs:191-206 | A repeated SYN gets the first ISN again; what is acknowledged is RCV.NXT if and only if it repeats the first SYN's number |
| WindowFreshness.WindowIsNewest | src/protocol/tcp/state.rs:257-275 | In runs whose acceptable segments span less than 2^31 sequence and acknowledgment numbers, the window in force is that of the lexicographically greatest (SEQ, ACK), latest on ties |
| WindowFreshness.FreshIsNotOlder | src/protocol/tcp/state.rs:261-263 | The circular freshness test is lexicographic order on integers |
| WindowFreshness.SegmentWindow | src/protocol/tcp/state.rs:196-205 | When a segment replaces the window: the handshake's always, later ones exactly when acceptable and fresh |
| Ledgers.EachIsResentWithinTheLimit | src/protocol/tcp/connections.rs:138-156 | In every run each retransmission is a verbatim copy of one logged first transmission, and no single first transmission is resent more often than the retry limit, for every 8-bit limit |
| Ledgers.ResendsAreBounded | src/protocol/tcp/connections.rs:138-156 | In every run and for every kind of segment (one content, or any set of them) the timer sends at most the retry limit times as many as there were first transmissions of that kind |
| Ledgers.AllResendsAreBounded | src/protocol/tcp/connections.rs:138-156 | So is the number of all retransmissions of a connection |
| Ledgers.ResendsVerbatim | src/protocol/tcp/pending_segment.rs:77-83 | From every reachable connection the timer only sends verbatim copies of segments sent before |
| Ledgers.NeverGivenUpEarly | src/protocol/tcp/connections.rs:141-146 | A connection is given up only when an exhausted segment, since the place in the log where that queue entry was first sent, has waited out every timeout up to the one after the last retry, whatever the clock does |
| ResendTimes.ResentWhenOverdue | src/protocol/tcp/connections.rs:148-156 | In every run a wake-up that does not give the connection up resends a pending segment once if its timeout, for as many copies as it has had on the wire, has run out since its last copy, and not at all otherwise; the queue's own times and counters do not occur in the statement |
| ResendTimes.GivenUpIff | src/protocol/tcp/connections.rs:138-146 | In every run a wake-up gives the connection up if and only if a pending segment is overdue in that sense and has had as many copies as the retry limit |
| ResendTimes.ServerTimeout | src/protocol/tcp/pending_segment.rs:52-65 | The timeout of these two after r copies is clamp(initial * 2^r, 200 ms, 120 s) for every whole number of milliseconds |
| Retransmission.WakingMakesProgress | src/protocol/tcp/connections.rs:122-160 | A wake-up when something is due strictly decreases the sum over connections of 1 + retries left |
| Retransmission.TimerTerminates | src/protocol/tcp/connections.rs:122-160 | With no input there are at most that many wake-ups |
| Retransmission.TickKeepsTheRest | src/protocol/tcp/connections.rs:148-156 | A surviving connection keeps everything but the timers and retry counts of its queue |
| Retransmission.BackoffIsExponential | src/protocol/tcp/pending_segment.rs:52-65 | For every retry count and whole number of milliseconds the saturating computation is clamp(initial * 2^retries, 200 ms, 120 s) |
| Retransmission.BackoffIsExactIff | src/protocol/tcp/pending_segment.rs:55-58 | For any configuration, exactly when the saturation does not show |
| Retransmission.BackoffBelowAMillisecond | src/protocol/tcp/pending_segment.rs:55-58 | A value of the type, below what the server can be configured with, at which it shows |
| Retransmission.BackoffIsMonotone | src/protocol/tcp/pending_segment.rs:55-58 | The timeout never decreases with the retry count |
| Independence.ConnectionsAreIndependent | src/protocol/tcp/send_info.rs:54-153 | Any interleaved run, projected on a 4-tuple, leaves the entry and sends the segments of the run of that 4-tuple's own events on a table holding nothing else |
| Independence.EveryEntryIsALife | src/protocol/tcp/send_info.rs:155-183 | Every entry of the table of every run was opened by a SYN of the run, before which its 4-tuple was not in the table and since which it has been, and is where the later events of its 4-tuple took it |
| Independence.EveryLifeIsAnEntry | src/protocol/tcp/send_info.rs:155-183 | Every life of a connection that has not ended is that of an entry in some run of the server |
| Independence.EveryEntryIsLived | src/protocol/tcp/connections.rs:54-63 | So what is proved of reachable lives holds of every table entry |
| EventLoop.LoopEncodesIff | src/server.rs:112-202 | The loop goes through a run of the table machine on the events it serves, and ends with an encoding error if and only if one of them drains more than 1460 bytes |
| EventLoop.LoopWithoutSignals | src/server.rs:112-202 | Without signals it serves every event and runs on if and only if no event drains more than 1460 bytes |
| EventLoop.DrainingEnds | src/server.rs:130-138 | Once there is a shutdown deadline it does not move, and a wake-up after it ends the loop |
| EventLoop.LoopEndsForAReason | src/server.rs:112-202 | In every run of the loop the deadline is one grace period after the first signal, and each way the loop ends has its reason: nothing established or closing after a signal, a deadline past the last `Instant`, a wake-up past the deadline, or draining with no connection closing any more |
| Server.Run | src/server.rs:112-202 | The event loop on the mutable server, with all its exits, is that loop; its table is the table machine's; its packets are connection by connection the encodings of that machine's segments, up to the first that does not encode, where it stops |
| Server.Turn | src/server.rs:117-201 | The same for one event |
| Server.SendAll | src/server.rs:249-261 | Encodes the segments in order up to the first that does not fit |
| Server.EchoServer.PollTimeout | src/server.rs:268-274 | Blocks for ever exactly when nothing can become due; otherwise at the wake-up the grace period is over or a segment is due, and at no moment before |
| Server.EchoServer.RunWithoutInput | src/server.rs:117-149 | When nothing arrives any more, however late each poll returns, the loop of polls, retransmissions and grace period checks ends within the measure's number of rounds: after the deadline, or with nothing left to retransmit |
| Server.EchoServer.HandleReadable | src/server.rs:152-199 | A packet is answered as the table machine does, and draining ends exactly when no connection is closing any more |
| Server.EchoServer.HandleShutdownInterrupt | src/server.rs:206-244 | The first signal sets the deadline, ends the loop if nothing is closing, or fails; a later one changes nothing; nothing that was closed goes unannounced except on failure |
| Server.EchoServer.DecideShutdown | src/server.rs:289-304 | The first signal leaves no connection ESTABLISHED and starts draining exactly when one is closing, or fails exactly when the deadline is then past the last `Instant`; a later one changes nothing |
| Connections.TcpConnections.constructor | src/protocol/tcp/connections.rs:66-68 | An empty table |
| Connections.TcpConnections.InsertSynRcv | src/protocol/tcp/connections.rs:81-91 | Inserts exactly the SYN-RECEIVED connections |
| Connections.TcpConnections.Remove | src/protocol/tcp/connections.rs:93 | Removes the key and nothing else |
| Connections.TcpConnections.HandleUnknownConn | src/protocol/tcp/send_info.rs:155-183 | The in-place table and reply refine `OnUnknown`, whose answers `UnknownIsAnswered` gives; nothing changes when the random source fails |
| Connections.TcpConnections.DecideReplyTo | src/protocol/tcp/send_info.rs:54-153 | The mutable table and the reply are those of the value machine |
| Connections.TcpConnections.CreateReply | src/protocol/tcp.rs:91-104 | The reply goes from the segment's destination to its source, with the numbers, flags and data decided on, no options and window 65535 |
| Connections.TcpConnections.ClosingInProgress | src/protocol/tcp/connections.rs:97-107 | Whether some connection is in a closing state |
| Connections.TcpConnections.NextRetransmitDeadline | src/protocol/tcp/connections.rs:111-117 | The least due time over all pending segments of all connections, or none if there are none |
| Connections.TcpConnections.ResendDue | src/protocol/tcp/connections.rs:148-156 | Resends each due segment of a connection in queue order and updates exactly those |
| Connections.TcpConnections.MakeRetransmissions | src/protocol/tcp/connections.rs:122-160 | Visiting only the connections with something due, in any order, ticks the whole table and sends each connection's due segments |
| Connections.TcpConnections.CloseEstablished | src/protocol/tcp/connections.rs:164-196 | Closes each ESTABLISHED connection with one FIN-ACK and leaves the others alone, in any order |
| Connections.TickedWhenAllDueAreTicked | src/protocol/tcp/connections.rs:125-134 | Ticking only the connections with a due segment is ticking all of them |
| Engine.HandleKnown | src/protocol/tcp/send_info.rs:68-151 | The in-place handlers leave the connection, reply and removal that the value machine gives |
| Engine.CompleteHandshake | src/protocol/tcp/send_info.rs:270-283 | Establishes with the segment's window, acknowledges the SYN and clears the queue |
| Engine.HandleSynRcv | src/protocol/tcp/send_info.rs:185-266 | The in-place SYN-RECEIVED handler refines `OnSynReceived` |
| Engine.HandleEstablished | src/protocol/tcp/send_info.rs:285-345 | The in-place ESTABLISHED handler refines `OnEstablished`, whose answers `AnswerIs` gives |
| Engine.DataPayload | src/protocol/tcp/send_info.rs:349-364 | Builds the data segment at SND.NXT, advances SND.NXT past it and queues it |
| Engine.BeginPassiveClose | src/protocol/tcp/send_info.rs:369-402 | The in-place passive close refines `PassiveClose`, the error path included |
| Engine.HandleFinWait1 | src/protocol/tcp/send_info.rs:406-468 | The in-place FIN-WAIT-1 handler refines `OnFinWait1` |
| Engine.HandleFinWait2 | src/protocol/tcp/send_info.rs:472-499 | The in-place FIN-WAIT-2 handler refines `OnFinWait2` |
| Engine.HandleClosing | src/protocol/tcp/send_info.rs:503-514 | The CLOSING handler agrees with `OnClosing` and changes nothing |
| Engine.HandleLastAck | src/protocol/tcp/send_info.rs:518-537 | The in-place LAST-ACK handler refines `OnLastAck` |
| State.OpenConnection | src/protocol/tcp/state.rs:45-62 | Opens a fresh SYN-RECEIVED connection from a SYN-ACK, and fails on anything else |
| State.IncomingAckUpdate | src/protocol/tcp/state.rs:242-279 | In place: SND.UNA and the queue follow an acceptable new acknowledgment, the window a fresh acceptable one |
| State.DrainTransmittable | src/protocol/tcp/state.rs:299-311 | In place: removes from the front of the buffer exactly what it returns, and fails exactly when more than 2^31 is in flight |
| State.Drain | src/protocol/tcp/state.rs:299-311 | Fails exactly when more than 2^31 is in flight; what is sent followed by what stays is the old buffer |
| State.Transmittable | src/protocol/tcp/state.rs:305-308 | What is sent fits into window and buffer, and either empties the buffer or fills the window |
| State.Retain | src/protocol/tcp/state.rs:252-254 | Keeps exactly the segments the acknowledgment does not cover |
| PendingSegments.NewPending | src/protocol/tcp/pending_segment.rs:36-48 | A pending segment ends as far past its start as it consumes sequence numbers |
| SeqSpace.CircularRefinesLinear | src/protocol/tcp/seq_space.rs:103-113 | Points less than 2^31 apart compare as unbounded integers do |
| SeqSpace.AntipodesPrecedeEachOther | src/protocol/tcp/seq_space.rs:231-258 | Antipodes precede each other, so the bound is sharp |
| SeqSpace.AcceptanceIsLinear | src/protocol/tcp/state.rs:247 | With at most 2^31 in flight the acceptance test is the linear one, except at one point |
| SeqSpace.ReceiveWindowIsLinear | src/protocol/tcp/send_info.rs:80-83 | The RST window test is exactly a distance below 65535, for all values |
| SeqSpace.WrappingIsModular | src/protocol/tcp/seq_space.rs:124-130 | Wrapping addition and subtraction are those of the integers modulo 2^32 and undo each other |
| Wire.ReplyStaysOnConnection | src/protocol/tcp.rs:120-135 | Swapping the pairs addresses the reply to the connection's client, with every field given |
| Wire.SameConnectionIff | src/protocol/tcp/connections.rs:21-28 | Segments have the same key exactly when both addresses and both ports agree |
| ChecksumProofs.CalculateIsInternetChecksum | src/checksum.rs:4-47 | The wide-lane form is the RFC 1071 checksum for every input within `isize::MAX`, odd lengths and both zeros included |
| ChecksumProofs.AccumulatorNeverOverflows | src/checksum.rs:7-17 | The 128-bit accumulator never wraps on such input |
| ChecksumProofs.EightFoldsSuffice | src/checksum.rs:20-31 | Eight folds bring every 128-bit value into 16 bits |
| ChecksumProofs.AlwaysFoldedIsInternetChecksum | src/checksum.rs:77-89 | The always-folding form is the RFC 1071 checksum |
| ChecksumProofs.RangeCheckedIsInternetChecksum | src/checksum.rs:123-147 | The range-checked form is the RFC 1071 checksum, for inputs of any length |
| ChecksumProofs.RangeCheckedNeverOverflows | src/checksum.rs:131-143 | Its 32-bit accumulator is the fold over unbounded integers and stays below the checked limit, for inputs of any length |
| ChecksumProofs.NaiveIsRightIff | src/checksum.rs:99-113 | The naive form is right if and only if the number of overflows is a multiple of 65535 and no nonzero sum wraps to zero |
| ChecksumProofs.NaiveIsRightUpToTheLimit | src/checksum.rs:49-58 | It is right up to `DEFERRED_CARRIES_MAX_BYTES` |
| ChecksumProofs.NaiveIsWrongBeyondTheLimit | src/checksum.rs:49-58 | One more word of ones and it is wrong |
| ChecksumProofs.TwoFoldsAreCanon | src/checksum.rs:62-68 | Two folds reduce every 32-bit accumulator |
| ChecksumProofs.VerifiesIff | src/checksum.rs:20-46 | Data verifies if and only if its words add up to a positive multiple of 65535 |
| ChecksumProofs.InsertedChecksumVerifies | src/ipv4_header.rs:128-136 | Writing the checksum into its zeroed aligned field makes any data verify |
| ChecksumProofs.OnesForZeroVerifies | src/protocol/udp.rs:86-95 | UDP's all ones in place of zero verify as well |
| ChecksumProofs.OneWordChangeVerifiesIff | src/checksum.rs:20-46 | From verifying data, changing one aligned word still verifies if and only if it is congruent modulo 65535 and not everything is zero |
| ProtocolCodec.PseudoHdrCksum | src/protocol.rs:24-46 | Fails exactly above 1500 bytes, otherwise the RFC 1071 checksum of pseudo-header and data, built up in the buffer |
| WireFormat.PseudoHeaderTotal | src/protocol.rs:24-46 | The words of the pseudo-header add up to the four address words, the protocol number (1, 6 or 17) and the length |
| WireFormat.PseudoChecksumIs | src/protocol.rs:24-46 | The transport checksum is 65535 less the end-around sum of address words, protocol number, length and data words, and verifies exactly when these add up to a multiple of 65535 |
| ProtocolCodec.PseudoInsertVerifies | src/protocol.rs:24-46 | Writing it into a zeroed aligned field makes the data verify, UDP's substitute too |
| ProtocolCodec.ProtocolOf | src/protocol.rs:57-76 | Inverse of the protocol byte, an error on every other byte |
| Ipv4Codec.WriteIpv4 | src/ipv4_header.rs:118-137 | Whatever the buffer held, its first 20 bytes become the header's encoding and the rest stays |
| Ipv4Codec.Ipv4RoundTrip | src/ipv4_header.rs:62-92 | A written header parses back to itself and hands on the payload |
| WireFormat.Ipv4IsAcceptedIff | src/ipv4_header.rs:62-92 | Exactly which bytes parse: version 4, the first twenty verifying, protocol 1, 6 or 17, and as many bytes as the header length |
| WireFormat.Ipv4IsRead | src/ipv4_header.rs:62-92 | What is read from them: total length, protocol, addresses, and the payload after the header length |
| WireFormat.Ipv4Layout | src/ipv4_header.rs:118-137 | The written header byte by byte: 0x45, no service, total length, no identification, do not fragment, time to live 64, protocol number, addresses, and a checksum that verifies |
| TcpCodec.FlagsOf | src/protocol/tcp/flags.rs:31-61 | Inverse of the flags byte, an error on every other combination of the four bits looked at |
| WireFormat.FlagsAre | src/protocol/tcp/flags.rs:31-61 | For every byte, the flags by its ACK, RST, SYN and FIN bits: six of the sixteen combinations, all others an error |
| WireFormat.OtherBitsAreIgnored | src/protocol/tcp/flags.rs:31-61 | Bytes that agree in these four bits give the same |
| TcpCodec.WriteTcp | src/protocol/tcp.rs:192-255 | Succeeds exactly when the segment fits; then only its own range changes, to its encoding |
| TcpCodec.TcpRoundTrip | src/protocol/tcp.rs:148-185 | Every option-free segment that fits parses back to itself |
| WireFormat.TcpIsAcceptedIff | src/protocol/tcp.rs:148-185 | Exactly which bytes parse: 20 to 1500 of them, verifying with the addresses, protocol 6 and the length, with one of the six combinations of flags |
| WireFormat.TcpIsRejectedAs | src/protocol/tcp.rs:148-185 | All others are rejected with the first thing that is wrong: length, checksum, flags |
| WireFormat.TcpIsRead | src/protocol/tcp.rs:148-185 | What is read from them, every field as a big-endian number at its offset, and the data after the header length in byte 12 |
| WireFormat.OptionsAreSkipped | src/protocol/tcp.rs:148-185 | Of an accepted segment with options, exactly what comes after them is the data |
| WireFormat.DamagedTcpIsRejected | src/protocol/tcp.rs:148-185 | From an accepted segment, changing one aligned word by anything but a multiple of 65535 gives one that is rejected |
| WireFormat.OtherFlagsAreIgnored | src/protocol/tcp.rs:148-185 | Accepted segments that differ only in the checksum and the other flag bits are read as the same |
| WireFormat.PushIsIgnored | src/protocol/tcp/flags.rs:31-61 | Any segment with PSH set and its checksum computed anew is read as the segment without it |
| WireFormat.TcpLayout | src/protocol/tcp.rs:192-255 | The written segment byte by byte: ports, numbers, 0x50, the flags byte, window, no urgent pointer, payload, and a checksum that verifies |
| UdpCodec.WriteUdp | src/protocol/udp.rs:66-98 | Succeeds exactly when the datagram fits; then only its own range changes, to its encoding |
| UdpCodec.UdpRoundTrip | src/protocol/udp.rs:32-53 | The encoding parses back to the datagram and never carries a zero checksum |
| WireFormat.UdpIsAcceptedIff | src/protocol/udp.rs:32-53 | Exactly which bytes parse: at least eight, with a zero checksum field, or at most 1500 that verify with protocol 17 |
| WireFormat.UdpIsRead | src/protocol/udp.rs:32-53 | What is read from them: ports and payload |
| WireFormat.UdpLayout | src/protocol/udp.rs:66-98 | The written datagram byte by byte: ports, length, a checksum that is not zero and verifies, payload |
| UdpCodec.UdpEchoes | src/protocol/udp.rs:56-62 | The client reads back its datagram with addresses and ports swapped |
| PacketCodec.EncodePacket | src/server.rs:249-261 | Fails exactly on payloads over 1460 bytes; otherwise the packet is the encoding, whatever the buffer held |
| PacketCodec.PacketRoundTrip | src/protocol/tcp.rs:148-185 | Parsing the whole packet gives back the header, its length and every field of the segment |

## Left out

- Device I/O, polling, signals, the TUN ioctl and `/dev/urandom` (`src/sys.rs`, `src/sys/`): foreign calls; their results are parameters.
- Logging and all `Display` output (`src/logger.rs`, `src/protocol/display.rs`): formatting only.
- Environment loading and wiring (`src/config.rs`, `src/main.rs`, `src/lib.rs`).
- Protocol dispatch and the endpoint marker types (`src/protocol/router.rs`, `src/endpoint.rs`, `src/addr_pairs.rs`): static typing that plain types replace.
- ICMP echo (`src/protocol/icmp_echo.rs`): stateless, and beyond the checksum lemmas it would only add easy members.
- Server.Run: failing polls, reads and writes of the device are not modelled; the events come as a given sequence of parsed segments, wake-ups and signals, and datagrams of other protocols are not among them.
- Ledgers.NeverGivenUpEarly: `Instant` overflow, on which a segment becomes due at once, is not modelled.
- Retransmission.BackoffIsExponential: a configuration whose minimum exceeds its maximum, on which `Duration::clamp` panics, is excluded by the type `RtoConfig`.
- Connections.TcpConnections.ResendDue: a pending segment is a value in a sequence and is replaced by its updated copy, where `retransmit_info` updates the element in place; nothing else refers to it.
- Tiling.QueueAlwaysTiles: requires that no acknowledgment of the run is antipodal; `TilingKeptIffNotAntipodal` shows that this cannot be weakened.
- TcpCodec.TcpRoundTrip: only for headers without options, the only ones the writer produces; `TcpIsRead` and `OptionsAreSkipped` cover the others.
- Ipv4Codec.Ipv4RoundTrip: only for headers without options, the only ones the writer produces; the parser does not check the checksum of options or the total length.
- Overflow of `usize` in `try_add` on buffer offsets (`src/try_ops.rs`): offsets are at most a few thousand.
- The parts of RFC 9293 that the server does not implement: CLOSE-WAIT, TIME-WAIT, reassembly, options, congestion control.
