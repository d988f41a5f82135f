# A verified model of the gateway's media session

The gateway takes camera video from a device SDK and pushes it over TCP to a media server.
This project models the parts of it that have a state to keep right, and proves what they
keep:

- the buffered sender of RTP packets (`Framing.dfy`, `SendBuffer.dfy`): packets are framed,
  collected in a 64 KiB buffer and flushed for lack of room or for a new time stamp;
- the life of a play session (`Sessions.dfy`, `PlaySession.dfy`): connection, SDK play
  handles, starting, sending, stopping, destruction;
- all sessions together with the registry that reclaims them by network handle
  (`World.dfy`, `SessionManage.dfy`, `Gateway.dfy`);
- playback speed, direction and the seek offset (`Playback.dfy`, `Calendar.dfy`);
- the counting semaphore and the event variable (`Monitors.dfy`, `EventVariable.dfy`), and
  the task queue built on the semaphore and a list (`TaskQueue.dfy`; in the program it is
  src/dc_thread_pool/task_queue.h, lines 19 to 49, a file in another encoding, so the rows
  below cite the semaphore and the list);
- the pointer list and the standard-library list that stands in for it in the build
  (`PointerList.dfy`).

Each stateful class of the program is a class here, with its array, fields and loops. Its
methods are proved to do what a function on values says, and the theorems are about all runs
of those functions; `DoAll`, `DoRun` and `InLockstep` carry them over to runs on objects.
`dafny verify dfyconfig.toml` checks everything.

How to read the model:

- A sender holds packets; the class holds the same packets as bytes in an array, and
  `SendMS` is proved to write exactly the frames of the held packets.
- What the network library or the SDK answers is a parameter. A connect yields a new
  non-zero handle, or 0 when it fails. Each session method is one atomic step.
- The time stamp of a packet is the program's wrapping counter (`Counted`) or any given
  value (`Given`); only the batching laws depend on the counter.
- Fields that the constructor does not set: the capacity is taken as 65536; the stamp is
  arbitrary and proved not to matter; the running flag and the download handle are taken as
  false and 0; the direction is arbitrary.
- The condition variable is a set of sleeping and a set of woken threads. Each critical
  section is one step, any sleeper may be picked, newcomers may overtake, and sleepers may
  wake spuriously or by timeout. The semaphore's `post` and `wait` are the same code as the
  event variable's `signal` and `wait`; it is the system without timed waits.
- `mktime` counts days by the calendar in every year; see "Left out" for libraries that do not.
- An SDK call that fails leaves an error code that is not 0.

Where the code does not do what its comments or names promise, the model follows the code.
A theorem says exactly when the promise holds, and a lemma shows an input that breaks it:

- `1 / 2 * m_nSpeed` is an integer quotient, so an accepted slow command gives speed 0 and
  not one half (`Playback.SpeedAsIntendedIff`, `Playback.SlowOnceGivesZero`).
- A session can be started without a connection, and then nothing is ever flushed
  (`Sessions.AlwaysHasConnectionIff`, `SendBuffer.UnconnectedRunStaysIff`,
  `Sessions.FailedConnectOverruns`).
- A start drops the handle of an occupied slot without stopping it
  (`PlayHandles.NothingLostIff`, `PlayHandles.SecondStartLosesHandle`).
- A real-time start whose key frame is refused reports success and starts nothing
  (`Sessions.RealStartPlaysIff`), and one that fails to open runs the session without a
  stream (`Sessions.AlwaysHasStreamIff`, `Sessions.FailedStartRuns`).
- A stop without streams keeps the connection (`Sessions.StopReleasesConnectionIff`,
  `Sessions.IdleStopKeepsConnection`).
- A reconnect, or the destruction of a session whose disconnect failed, gives up a network
  handle without ending it (`World.NoHandleLostIff`, `World.ReconnectLosesHandle`).
- A failed write hides a session from the report that its connection is gone
  (`World.OnCloseReclaimsIff`, `World.DeadSessionStaysRegistered`).
- A stop whose call fails empties the slot all the same, and the stream plays on
  (`PlayHandles.NothingPlaysOnIff`, `PlayHandles.FailedStopPlaysOn`).
- A seek to before the start, or forward by 2^32 - 1 seconds or more, wraps around; one
  second back and 2^32 - 1 seconds ahead it gives the value that means "no offset"
  (`DateText.SeekForwardIff`, `DateText.NoOffsetIff`, `DateText.SeekOneSecondBack`,
  `DateText.SeekTooFarAhead`).

## Model

| member | source | states |
|---|---|---|
| `Bytes.HtonsIsNetworkOrder` | src/PlaySession.cpp:685-686 | The two bytes copied into the header are the length in network byte order, truncated to 16 bits. |
| `Framing.FrameLayout` | src/PlaySession.cpp:683-690 | Byte by byte: each frame starts right behind the one before, with 0x24, the channel, the payload length in two bytes with the high one first, and the payload; nothing else is there. |
| `Framing.DeframeFrames` | src/PlaySession.cpp:683-690 | A receiver of section 10.12 of RFC 2326 gets back exactly the framed packets, in step and with nothing pending. |
| `Framing.FramesDeframe` | src/PlaySession.cpp:683-690 | For any bytes at all, framing what the receiver delivered and adding what it still holds gives the bytes back. |
| `Framing.ChunkingIsInvisible` | src/PlaySession.cpp:683-690 | How the stream is cut into reads makes no difference, whatever the bytes are. |
| `Framing.AnyPartArrived` | src/PlaySession.cpp:683-690 | Whatever part of a framed stream has arrived, in whatever reads, the receiver is in step and has a prefix of the packets; the rest completes them. |
| `Framing.WholeFramesArrived` | src/PlaySession.cpp:683-690 | A part that ends between frames leaves nothing pending. |
| `Framing.FramesInjective` | src/PlaySession.cpp:683-690 | Different packet sequences have different framings. |
| `Framing.FrameSurvivesIff` | src/PlaySession.cpp:685-687 | A frame survives the trip if and only if its payload length fits the 16-bit field. |
| `Network.WireIsFrames` | src/PlaySession.cpp:653-653 | The bytes the network library accepted are the frames of the packets of the successful writes, in order. |
| `SendBuffer.Conservation` | src/PlaySession.cpp:644-703 | Over every run with any stamps, failures, stops, restarts and reconnections: delivered then held packets are the first held then the accepted ones. |
| `SendBuffer.RefinesDirectSending` | src/PlaySession.cpp:644-703 | With successful writes, wire bytes followed by buffer bytes are the frames held at first and those of all packets, in order, as if each had been written straight away. |
| `SendBuffer.ReceiverGetsAll` | src/PlaySession.cpp:644-703 | The receiver of the wire, in any reads, has exactly the delivered packets and nothing pending; the buffer completes them all. |
| `SendBuffer.EachConnectionInStep` | src/PlaySession.cpp:651-679 | On every single connection, over every run with failures and reconnections, the receiver is in step and gets exactly the packets of the successful writes there. |
| `SendBuffer.FitsIff` | src/PlaySession.cpp:651-690 | The store of a packet stays in the buffer if and only if its frame fits an empty buffer (connected) or beside what is held (not connected); a call whose write fails stores nothing. |
| `SendBuffer.LegalAfterIff` | src/PlaySession.cpp:651-690 | A call on a legal buffer leaves a legal buffer if and only if its packet fits. |
| `SendBuffer.BufferBounds` | src/PlaySession.h:19-19 | With packets of at most 65532 bytes and a connection whenever running, every store is in range and the length stays legal, over every run. |
| `SendBuffer.ConnectedRunStaysIff` | src/PlaySession.cpp:651-663 | With a connection a run stays in the buffer if and only if each frame fits an empty buffer. |
| `SendBuffer.UnconnectedRunStaysIff` | src/PlaySession.cpp:651-667 | Without a connection nothing is flushed, so a run stays in the buffer if and only if all frames together fit. |
| `SendBuffer.StaysAtEveryMoment` | src/PlaySession.cpp:651-690 | Staying in the buffer means a legal length at every moment of the run. |
| `SendBuffer.StaysInBufferIff` | src/PlaySession.cpp:651-690 | Any run, with failures, stops and reconnections, stays in the buffer if and only if each packet fits at its time. |
| `SendBuffer.FailStop` | src/PlaySession.cpp:648-679 | Over a run of packets: a failed write stops the session at a frame boundary; the accepted packets are the first ones, the failed write is the last and offered exactly what is held, which with the refused packet is all that is not delivered. Whatever packets, stops and new handles come later, nothing is written or accepted before the session is started again. |
| `SendBuffer.FailedCallStops` | src/PlaySession.cpp:648-679 | The same wherever in a run with stops, restarts and reconnections a write fails. |
| `SendBuffer.StoppedStays` | src/PlaySession.cpp:648-649 | Once stopped, whatever packets, stops and new handles come, nothing is written or accepted and only the handle can change, until the next start. |
| `SendBuffer.ExactBatching` | src/PlaySession.cpp:665-690 | From an empty buffer exactly the last packet waits, or the last two just after the counter passed the sentinel if both frames fit; every write carries one or two whole frames. |
| `SendBuffer.WritesLagByWaiting` | src/PlaySession.cpp:665-690 | What has been written is all packets but those that wait. |
| `SendBuffer.BatchingFromZero` | src/PlaySession.h:20-20 | From counter 0, two frames wait exactly when the number of packets is 0xEFEFEFF0 modulo 2^32 and both fit. |
| `SendBuffer.BatchingSettles` | src/PlaySession.cpp:665-690 | Whatever is held at first and whatever its stamp, from the third packet on exactly the same packets wait as if the buffer had been empty. |
| `SendBuffer.InitialStampIsIrrelevant` | src/PlaySession.h:155-155 | Two senders that differ only in the initial stamp make the same writes and hold the same packets for ever. |
| `SendBuffer.CounterLaw` | src/PlaySession.cpp:665-665 | The counter advances once per accepted packet, and once more for a call that fails in the flush for a new stamp but not for one that fails in the flush for room. |
| `SendBuffer.AdvancedIsModular` | src/PlaySession.cpp:665-665 | Advancing n times is addition of n modulo 2^32. |
| `SendBuffer.CallOfRunning` | src/PlaySession.cpp:644-703 | One call in plain numbers: it writes first if and only if the frame does not fit beside what is held into 65536 bytes, or the stamp is new and the last was not 0xEFEFEFEF; then what is held, stamped, counted and returned, for a write that succeeds or fails. |
| `Sessions.LifeIsSenderRun` | src/PlaySession.cpp:612-703 | A whole life of connects, starts, stops and packets is a run of the sender, with the same state and the same delivered packets. |
| `Sessions.LifeConserves` | src/PlaySession.cpp:612-703 | Over every life, delivered then held packets are the first held then the accepted ones; a restart carries the held ones over. |
| `Sessions.LifeConservesBytes` | src/PlaySession.cpp:612-703 | The same in bytes on the wire. |
| `Sessions.LifeDelivers` | src/PlaySession.cpp:644-703 | Over every life, delivered then held packets are the first held, then on channel 0 the data of the calls made while running that reported success. |
| `Sessions.LifeWireLayout` | src/PlaySession.cpp:683-690 | Over every life of a session that held nothing, the bytes the network took are, for the first of those data, one frame each: 0x24, channel 0, length, data; and nothing else. |
| `Sessions.FreshSessionBatches` | src/PlaySession.cpp:665-690 | A new session, connected and started, holds after any number of packets exactly the last one, or the last two if their number is 0xEFEFEFF0 modulo 2^32 and they fit into 65536 bytes. |
| `Sessions.RunsIff` | src/PlaySession.cpp:238-400 | Over every life, a session runs if and only if a start with everything granted, or having run at first, has not been followed by a stop or a failed write, whatever its handles and connection are. |
| `Sessions.StartThenAccepts` | src/PlaySession.cpp:258-268 | After a real-time start with a granted key frame the session runs and accepts the next packet, whatever the handle and the connection. |
| `Sessions.StartAnswers` | src/PlaySession.cpp:238-354 | A start answers with the code of the first refused call, with success for a refused key frame, else with the code of an open that fails, else with 0. |
| `Sessions.RefusedStartsLeaveNoTrace` | src/PlaySession.cpp:238-354 | Over every life, leaving out the refused starts changes neither the session nor any call it makes. |
| `Sessions.StopAnswers` | src/PlaySession.cpp:356-400 | A stop calls the SDK once for each held handle, in the order record, live, download, and answers with the code of the last call that failed. |
| `Sessions.DisconnectsOnce` | src/PlaySession.cpp:397-397 | A stop with a stream and the destruction disconnect what is connected with one call; a stop without streams makes none. |
| `Sessions.ConstructionStampIsIrrelevant` | src/PlaySession.cpp:25-31 | The stamp field that the constructor leaves unset never shows in calls, results or held packets. |
| `Sessions.StoppedLifeStays` | src/PlaySession.cpp:648-649 | A stopped session writes nothing and keeps its buffer, whatever packets, stops, refused starts, connects and downloads come, until it is started again. |
| `Sessions.FailedSendSilences` | src/PlaySession.cpp:654-679 | So wherever in a life a write fails: what was held is held still, and nothing more is written until the next start. |
| `Sessions.AlwaysHasConnectionIff` | src/PlaySession.cpp:238-354 | A session never runs without a connection if and only if every start finds one and none is taken from it while it runs. |
| `Sessions.LifeStaysInBuffer` | src/PlaySession.cpp:651-690 | Over every life started so, with packets of at most 65532 bytes, the buffer is never overrun. |
| `Sessions.LifeIsSendable` | src/PlaySession.cpp:651-690 | Every call of such a life meets what sendMS needs. |
| `Sessions.LifeStaysIff` | src/PlaySession.cpp:651-690 | Any life stays in the buffer if and only if every packet can be sent at its time. |
| `Sessions.FailedConnectOverruns` | src/PlaySession.cpp:651-690 | A failed connect, a granted real-time start and two packets of 40000 bytes overrun the buffer. |
| `Sessions.RealStartPlaysIff` | src/PlaySession.cpp:238-268 | Success of a real-time start means that the opened handle plays, if and only if the key frame was granted. |
| `Sessions.SuccessesTellOpens` | src/PlaySession.cpp:238-354 | Over every life, the starts that report success are as many as the streams opened, for each slot; for the live slot there are as many more as key frames were refused. |
| `Sessions.AlwaysHasStreamIff` | src/PlaySession.cpp:238-354 | Over a life, a session never runs without a recording or live stream if and only if every real-time start with a granted key frame opens one or finds a recording, and no record start fails to open under a running session without a live stream. |
| `Sessions.FailedStartRuns` | src/PlaySession.cpp:258-268 | A new session whose one start fails to open runs without a stream. |
| `Sessions.IdleStopKeepsConnection` | src/PlaySession.cpp:361-362 | A new session that connects and is stopped without having opened a stream keeps its connection. |
| `PlayHandles.HandlesAreConserved` | src/PlaySession.cpp:342-395 | Over every life, for each play handle: held first plus opened is stopped plus overwritten plus still held. |
| `PlayHandles.StoppedAtMostOnce` | src/PlaySession.cpp:364-395 | A handle opened once is stopped at most once, and not while its slot still holds it. |
| `PlayHandles.NothingLostIff` | src/PlaySession.cpp:258-258 | No handle is lost over a life if and only if no start reaches an occupied slot. |
| `PlayHandles.NothingPlaysOnIff` | src/PlaySession.cpp:356-395 | Over a life, every handle opened has been stopped with success or is still held, if and only if no start reaches an occupied slot and every stop reports success. |
| `PlayHandles.FailedStopPlaysOn` | src/PlaySession.cpp:376-385 | One such life: a live stream whose stop fails; the slots are empty and it plays on. |
| `PlayHandles.SecondStartLosesHandle` | src/PlaySession.cpp:258-258 | From any session, two real-time starts in a row lose a handle. |
| `PlayHandles.StopEmptiesSlots` | src/PlaySession.cpp:356-395 | Every stop issues exactly one stop call per held handle and empties all slots; a repeated stop issues none. |
| `HandleLog.DisciplineMeans` | src/PlaySession.cpp:627-642 | The discipline of a network log in plain terms: no use after the end of a handle, no second successful disconnect, no use of 0, no use before issue. |
| `World.RunsKeepInv` | src/PlaySession.cpp:612-758 | Every operation of every session and of the registry keeps the discipline, the liveness and the uniqueness of handles. |
| `World.HandleDiscipline` | src/PlaySession.cpp:627-679 | Over every run of any number of sessions: no write or disconnect after a handle's successful disconnect or failed write, at most one successful disconnect, never handle 0. |
| `World.NetworkHandlesConserved` | src/PlaySession.cpp:612-642 | Over every run of all sessions, for each network handle: connected is ended by a disconnect or a failed write, held by a session, or abandoned by a reconnect or by the destruction of a session whose disconnect failed. |
| `World.NoHandleLostIff` | src/PlaySession.cpp:612-642 | No network handle is lost if and only if no reconnect and no destruction abandons one. |
| `World.ReconnectLosesHandle` | src/PlaySession.cpp:612-625 | One such run: create, connect, and a second connect that fails; the first handle is lost. |
| `World.OnCloseRemovesTheHolder` | src/PlaySession.cpp:750-758 | After every run, the report that a connection is gone removes exactly the entries of the one session that holds it; every other entry, all sessions and the log stay. |
| `World.OnCloseReclaimsIff` | src/PlaySession.cpp:750-758 | Over every run, the report on a handle that a registered session connected with reclaims that session if and only if the handle has not ended, by a failed write or a successful disconnect, and has not been abandoned. |
| `World.EndedHidesFromOnClose` | src/PlaySession.cpp:750-758 | Once a handle has ended, the report on it never changes anything again. |
| `World.OneKeyPerSession` | src/PlaySession.cpp:728-737 | While only sessions that are not registered are inserted, no session is registered twice, so the report removes at most one entry. |
| `World.FailedWriteHidesFromOnClose` | src/PlaySession.cpp:654-660 | So for the report that follows a failed write. |
| `World.DeadSessionStaysRegistered` | src/PlaySession.cpp:750-758 | One such run: create, connect, start, insert, a packet, a packet whose write fails, the report; the stopped session is still under its key. |
| `World.FirstInsertWins` | src/PlaySession.cpp:716-748 | Over every run, what is found under a key is the session inserted there first since the last removal for the key. |
| `PlaySessions.PlaySession.constructor` | src/PlaySession.cpp:25-31 | A new session holds nothing, whatever the unset fields are. |
| `PlaySessions.PlaySession.ConnectMS` | src/PlaySession.cpp:612-625 | Does the model's connect. |
| `PlaySessions.PlaySession.SetMSAddr` | src/PlaySession.cpp:155-166 | Connects and tells whether that succeeded. |
| `PlaySessions.PlaySession.DisconnectMS` | src/PlaySession.cpp:627-642 | Nothing for handle 0; otherwise one disconnect, which clears the handle only if it succeeds. |
| `PlaySessions.PlaySession.SendMS` | src/PlaySession.cpp:644-703 | On a byte array filled by offset, does the model's push: same state, same result, and writes whose bytes are the frames of the held packets. |
| `PlaySessions.PlaySession.Flush` | src/PlaySession.cpp:653-662 | Writes the buffer out; empties it on success, stops the session on failure. |
| `PlaySessions.PlaySession.Store` | src/PlaySession.cpp:683-690 | The stores by offset put exactly the packet's frame behind the frames held, and stay in range. |
| `PlaySessions.PlaySession.StartRealPlaySession` | src/PlaySession.cpp:238-268 | Does the model's real-time start. |
| `PlaySessions.PlaySession.StartRecordPlaySession` | src/PlaySession.cpp:297-354 | Does the model's record start. |
| `PlaySessions.PlaySession.StartDownloadPlaySession` | src/PlaySession.cpp:549-582 | Does the model's download start. |
| `PlaySessions.PlaySession.StopSession` | src/PlaySession.cpp:356-400 | Does the model's stop. |
| `PlaySessions.PlaySession.Reclaim` | src/PlaySession.cpp:32-44 | The destructor does the model's destroy. |
| `PlaySessions.PlaySession.Do` | src/PlaySession.cpp:238-703 | Any call of a session does what the model of the session does. |
| `PlaySessions.PlaySession.DoAll` | src/PlaySession.cpp:238-703 | Any sequence of calls leaves the object in the state of the life that the model gives for them, having written the bytes of that life to the network and made its SDK calls. |
| `PlaySessions.PlaySession.SeekPlayBack` | src/PlaySession.cpp:416-435 | One seek call, at the difference of the two dates modulo 2^32. |
| `PlaySessions.PlaySession.PlayBackControlDirection` | src/PlaySession.cpp:437-449 | Turns if the device accepts, else leaves the direction. |
| `PlaySessions.PlaySession.SetSpeed` | src/PlaySession.cpp:451-480 | Sets the speed the code computes if the device accepts, else leaves it. |
| `SessionManagers.SessionManage.GetPlaySession` | src/PlaySession.cpp:716-726 | The session under the key, null if none. |
| `SessionManagers.SessionManage.InsertPlaySession` | src/PlaySession.cpp:728-737 | A taken key keeps its session; false only for a null session. |
| `SessionManagers.SessionManage.DelPlaySession` | src/PlaySession.cpp:739-748 | Removes the key's entry and no other. |
| `SessionManagers.SessionManage.DisconnectPlaySession` | src/PlaySession.cpp:750-758 | The loop removes exactly the entries whose session holds the handle. |
| `SessionManagers.SessionManage.GetPlaySessionCount` | src/PlaySession.h:223-227 | The number of registered sessions, if no session is registered twice. |
| `Gateways.DoOne` | src/PlaySession.cpp:238-758 | One operation of the world on the objects: one session acts, is made or dropped, or the registry changes, and all others stay as they are. |
| `Gateways.DoRun` | src/PlaySession.cpp:238-758 | Any run of the world, done on PlaySession objects that share the network library and on their SessionManage: every object, every entry and the bytes on the network are those of the model. |
| `Playback.DirectionIsParity` | src/PlaySession.cpp:437-449 | The direction is the parity of the accepted turns. |
| `Playback.IntendedSpeed` | src/PlaySession.cpp:463-463 | With the halving that the comment asks for, the speed is two to the accepted fast minus slow commands since the last normal. |
| `Playback.ActualSpeed` | src/PlaySession.cpp:451-480 | With the code's integer quotient the speed is 0 from an accepted slow command until the next normal. |
| `Playback.SpeedAsIntendedIff` | src/PlaySession.cpp:464-464 | The code's speed is the intended one if and only if no slow command was accepted since the last normal. |
| `Playback.SlowOnceGivesZero` | src/PlaySession.cpp:464-464 | One accepted slow command gives 0 where one half is meant. |
| `Calendar.TickCounts` | src/PlaySession.cpp:14-23 | The count of seconds advances by one with every tick of clock and calendar. |
| `Calendar.SecondsOrder` | src/PlaySession.cpp:14-23 | The count is strictly monotone in the order of dates and tells them apart. |
| `Calendar.DifferenceIsElapsed` | src/PlaySession.cpp:421-421 | The difference of two counts is the number of ticks from one date to the other. |
| `Calendar.SecondsInvertible` | src/PlaySession.cpp:14-23 | Ticking the count off from the first second of 1970 gives the date back; for earlier dates see the row above. |
| `Calendar.EpochIsZero` | src/PlaySession.cpp:14-23 | The count starts at 0 with the first second of 1970. |
| `Calendar.MkTimeCounts` | src/PlaySession.cpp:21-21 | The closed formula of section 4.16 of the POSIX Base Definitions, less a constant zone offset, is that count, in every year. |
| `Calendar.SecondsAreCivil` | src/PlaySession.cpp:14-23 | The count is, for every date, a closed formula without tables: years and months counted from March, 153 days to five months, 86400 seconds to a day. |
| `Calendar.FourHundredYears` | src/PlaySession.cpp:14-23 | The calendar repeats after 400 years of 146097 days. |
| `DateText.TextOrderIsDateOrder` | src/PlaySession.cpp:14-23 | Valid 14-digit texts compare as texts as their dates do. |
| `DateText.SecondsFollowText` | src/PlaySession.cpp:14-23 | Seconds are strictly monotone in the order of the texts. |
| `DateText.ParseFormat` | src/PlaySession.cpp:17-17 | Reading a formatted date gives the date back. |
| `DateText.FormatParse` | src/PlaySession.cpp:17-17 | Formatting what was read gives the text back. |
| `DateText.TextFromSeconds` | src/PlaySession.cpp:14-23 | The text can be had back from its seconds, counted from any earlier date. |
| `DateText.StringToDatetime` | src/PlaySession.cpp:14-23 | The seconds of the date in the text, less the zone offset. |
| `DateText.SeekOffset` | src/PlaySession.cpp:416-423 | The difference modulo 2^32, the same in every zone. |
| `DateText.OffsetIsCongruent` | src/PlaySession.cpp:416-423 | For any two texts, the offset is congruent modulo 2^32 to the elapsed seconds that this formula gives. |
| `DateText.SeekIsElapsedTime` | src/PlaySession.cpp:419-421 | Forward and below 2^32 - 1 seconds, the offset is the true elapsed time and never 0xffffffff. |
| `DateText.SeekForwardIff` | src/PlaySession.cpp:419-421 | For any two texts, the offset is the elapsed time and not 0xffffffff if and only if the target is not before the start and less than 2^32 - 1 seconds after it. |
| `DateText.NoOffsetIff` | src/PlaySession.cpp:419-421 | The offset is 0xffffffff if and only if the target is one second before the start, give or take a multiple of 2^32 seconds. |
| `DateText.SeekOneSecondBack` | src/PlaySession.cpp:419-421 | From 20240301000000 to 20240229235959 the offset is 0xffffffff. |
| `DateText.SeekTooFarAhead` | src/PlaySession.cpp:419-421 | From 19700101000000 forward to 21060207062815 it is 0xffffffff as well. |
| `Monitors.RunKeepsInv` | src/dc_thread_pool/semaphore.h:45-72 | Every step of any number of threads keeps: while a thread sleeps, permits are at most the woken threads. |
| `Monitors.NoLostWakeup` | src/dc_thread_pool/semaphore.h:50-71 | In every reachable state, permits with every waiter asleep do not occur. |
| `Monitors.PermitsAccounted` | src/event_condition_variable.h:15-48 | Over every run from any state of the invariant, the permits there were and those signalled are consumed, discarded by timed waits or still there, and each wait, inside at first or started later, has its permit or its thread is inside. |
| `Monitors.SignalWakes` | src/dc_thread_pool/semaphore.h:50-59 | A signal of one permit takes exactly the picked sleeper, if any, out of its sleep; of any other number, all sleepers. |
| `Monitors.NobodyWokenInVain` | src/dc_thread_pool/semaphore.h:50-71 | Over every run, the threads that have left their sleep are at most the signals of one permit, the wakeups without a signal, and the sleepers found by other signals. |
| `Monitors.DrainingEnds` | src/dc_thread_pool/semaphore.h:62-71 | Resuming woken threads, in any order, ends after as many steps as threads were woken. |
| `Monitors.CompleteDrainExists` | src/dc_thread_pool/semaphore.h:62-71 | From every reachable state there is a run of resumptions alone after which nobody is woken. |
| `Monitors.Quiescence` | src/event_condition_variable.h:15-48 | At rest, completed waits are the lesser of waits started and permits signalled but not discarded. |
| `Monitors.SemaphoreQuiescence` | src/dc_thread_pool/semaphore.h:45-72 | At rest the semaphore's completed waits are the lesser of permits posted and waits started. |
| `Monitors.NotifyOneSufficesIff` | src/dc_thread_pool/semaphore.h:53-58 | Waking one sleeper for n permits keeps the invariant if and only if nobody else sleeps or the permits do not outnumber the woken threads; for one permit it always does. |
| `Monitors.NotifyOneForTwoLosesWakeups` | src/dc_thread_pool/semaphore.h:53-58 | One state in which waking one sleeper for two permits strands the other. |
| `EventVariables.EventVariable.Signal` | src/event_condition_variable.h:15-27 | Does the signal step. |
| `EventVariables.EventVariable.Wait` | src/event_condition_variable.h:29-37 | Against any turns of the others, the wait loop is exactly the run those turns determine: between two own steps the others do what they can of the given actions. It ends with the first own step that finds a permit, which takes it, or asleep after one own step more than there are turns. |
| `EventVariables.EventVariable.WaitFor` | src/event_condition_variable.h:39-48 | The timed wait is one own step, or two around a single turn of the others; it leaves no permit. |
| `EventVariables.WaitRuns` | src/event_condition_variable.h:29-37 | That run is one of the transition system, from any state of the invariant, with at most one own step more than turns. |
| `TaskQueues.PoolKeepsInv` | src/dc_thread_pool/semaphore.h:45-72 | Over any interleaving of producers, exits and consumers: permits, consumers holding one, refusals and unposted tasks together are the queued tasks and the exits asked for. |
| `TaskQueues.NoUnaskedExit` | src/dc_thread_pool/semaphore.h:45-72 | Never are more consumers told that there is no task than exits were posted. |
| `TaskQueues.SleeperMeansNoTask` | src/dc_thread_pool/semaphore.h:45-72 | With nobody in between, a sleeping consumer means an empty queue and that each exit posted has reached exactly one consumer. |
| `TaskQueues.PoolAtRest` | src/dc_thread_pool/semaphore.h:45-72 | At rest, the calls for a task that came back, with a task or a refusal, are the lesser of the calls made and the tasks put in and exits asked for together. |
| `TaskQueues.TasksConserved` | src/dc_thread_pool/List.h:79-135 | Tasks handed out and tasks queued are together exactly the tasks put in. |
| `TaskQueues.FirstInFirstOut` | src/dc_thread_pool/List.h:79-135 | If tasks are only put at the back, they are handed out in that order. |
| `TaskQueues.FrontIsTaken` | src/dc_thread_pool/List.h:79-135 | A task put at the front is the next one handed out, unless another is put there first. |
| `Lists.List.EmplaceFront` | src/dc_thread_pool/List.h:79-91 | Puts the element first; the chain stays sound. |
| `Lists.List.EmplaceBack` | src/dc_thread_pool/List.h:94-106 | Puts the element last; the chain stays sound. |
| `Lists.List.PopFront` | src/dc_thread_pool/List.h:124-135 | Removes the first element, if any. |
| `Lists.List.Swap` | src/dc_thread_pool/List.h:137-151 | Exchanges contents and chains. |
| `Lists.List.Append` | src/dc_thread_pool/List.h:153-169 | Moves the other list behind this one in order and empties it. |
| `Lists.List.LinkTo` | src/dc_thread_pool/List.h:157-165 | Two chains become one. |
| `Lists.List.Clear` | src/dc_thread_pool/List.h:49-60 | Walks to the end of the chain, freeing all of its nodes, each once and in order, and leaves an empty list. |
| `Lists.List.ForEach` | src/dc_thread_pool/List.h:63-69 | Visits the elements in order, each once. |
| `Lists.List.At` | src/dc_thread_pool/List.h:116-122 | Finds the element at the position. |
| `Lists.LiveList.ForEach` | src/dc_thread_pool/List.h:202-214 | The visit in the build. |
| `Lists.Step` | src/dc_thread_pool/List.h:49-169 | One operation on a family of lists has its effect on one or two of the sequences, leaves the others, and keeps all chains sound and apart. |
| `Lists.InLockstep` | src/dc_thread_pool/List.h:49-200 | Over every run of operations on any number of lists, the linked lists and the live ones have the same contents at every moment, and every chain stays sound, without a cycle, and apart from all others. |

## Left out

- Lists.InLockstep: the freeing of single nodes, appending a list to itself and copy assignment are not modelled; where the standard library leaves taking the first element of an empty list undefined, the live list is left alone, as the linked list leaves itself.
- DateText.StringToDatetime: asks for valid 14-digit texts and a constant zone offset; what the C library makes of other texts, and daylight saving, are not modelled.
- PlaySessions.PlaySession.SeekPlayBack: asks for the same.
- DateText.SeekForwardIff: assumes a `mktime` that counts in every year. POSIX leaves years before 1970 open, and the library of Visual C++, for which the project file is made, is documented to answer -1 before 1970 and after 3000; a text outside those years then does not give these offsets.
- DateText.NoOffsetIff: assumes the same.
- PlaySessions.PlaySession.SetMSAddr: the muxer and the packer, which it creates even after a failed connect, are foreign code and not modelled.
- PlaySessions.PlaySession.SetSpeed: speeds are reals, so the overflow of a 32-bit float after 128 accepted fast commands is not modelled.
- SessionManagers.SessionManage.DisconnectPlaySession: the traversal visits every entry once; the use of an erased iterator is not modelled.
- World.HandleDiscipline: a session outside the registry may be destroyed at any time, which covers every moment at which its last owner can drop it; sharing of owners is not modelled.
- The 2-byte framing of section 2 of RFC 4571: its branch is never taken.
- Races between SDK callbacks and stopping; lock re-entry; `size_t` wrap of the permit count.
- `setSpeed(float)` and `pausePlayBack`, whose intended result cannot be read from the code.
- Elementary stream to program stream to RTP packing, which happens in libraries.
- Running the tasks of the thread pool: which thread executes what.
- The command queue of the gateway, device login, configuration, logging and message formats: plumbing.
