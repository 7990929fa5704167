# A verified model of a screen-sharing backend

This project models the decision logic of a Windows screen-sharing backend in Dafny and proves what
that logic is for. `dafny verify dfyconfig.toml` checks all of it.

What is modelled, file by file:

- **The frame mapping in the bitstream** (`Bytes`, `AnnexB`, `Emulation`, `MappingSei`,
  `MappingRoundTrip`, `MappingReceiver`, `H264Bitstream`, `H264Reports`). A mapping is written as an H.264 SEI unit with emulation
  prevention (sections 7.3.1, 7.3.2.3.1, 7.4.1 and D.1.6 and Annex B of ITU-T H.264), spliced before the
  first slice, and read back. Both scanners of the repository are proved against one definition of the
  byte stream. The round trip holds exactly under a condition that can be checked on the packet, reading is
  stated against a list of messages, and the bitstream inspection is blind to the splice.
- **Host peer ownership** (`PeerLifecycle`, `PeerLifecycleProgress`, `HostMediaSession`, `SessionRuns`,
  `SubscriptionSafety`, `SessionProgress`, `HostPeerRegistry`, `HostRuns`, `HostSafety`, `HostRestarts`, `HostProgress`,
  `HostTicks`, `HostWitness`). A registry of peers and a capture session
  with a bounded command queue and one worker, joined by commands and their replies. Every step of
  submitters, worker, peers and registry is one event, and runs interleave them freely. A reply is visible
  as soon as it is given and read whenever the registry next looks.
- **Room membership** (`RoomPeerRoster`, `RosterRuns`, `RosterProgress`). Snapshots and transport losses drive the add and
  remove hooks.
- **Coalescing and bounded histories** (`InputQueue`, `LineSplitter`, `DiagnosticHistory`,
  `PresentationRecovery`, `FramePresentation`). Short forms that must agree with the history they stand for.
- **Telemetry** (`TelemetryInbox`, `ReceiverTelemetry`, `HostShareTelemetry`). Two packet codecs, and inboxes
  with one binding, increasing sequence numbers and a rate limit.
- **The NV12 crop** (`Nv12Crop`). Which apertures are accepted, and the row copies.

The source's classes are classes here, its loops are loops, and each method states its whole new state as a
function of the old one. The functions carry the run-level theorems: a run is a sequence of events, and the
invariants hold after every one of them. Calls on foreign code are recorded in ghost histories. What foreign
code does is an argument of the call: hooks' answers, polls, capture reports, renders, exceptions, time.

Two kinds of theorems stand side by side. Safety says what no run does: restart too often, leave a subscription behind,
lose an event. Progress says what happens and when: that a lost peer is restarted and at which tick, that an unsettled
removal is tried again, which command succeeds, which snapshot is applied, which packet is heard. The progress theorems
name limits, codes, types and times in figures and go through whole paths of calls.

Six places where the code and its description part:

- `tests/DesktopInputTests.cpp:286` expects every truncated mapping encoding to be rejected. That holds for
  the mapping used there, not for all: when only the stop byte is missing and the image height ends in the
  byte 0x80, the height byte stands in for the stop bit and the mapping is read
  (`MappingRoundTrip.TruncationReads`).
- `backend/codec/H264Bitstream.cpp:122` reads any packet that contains 00 00 01 as a stream. A length-prefixed
  packet is read by its lengths if and only if it contains none and, with two-byte lengths, does not parse with
  four-byte ones (`H264Bitstream.ReadByLengths`). A four-byte length of 256 to 511 is itself such a code
  (`H264Bitstream.MediumUnitsAreMisread`), and a non-IDR slice can be reported as IDR
  (`H264Bitstream.SliceReportedAsIdr`).
- `backend/core/SessionRuntimeControl.cpp:200-202` says that discrete events are always kept. They are, if and only if no
  arrival, even of a move, finds 512 of them waiting (`InputQueue.StreamLosesExactly`, with 513 key presses as the
  input in `InputQueue.KeyIsLost`).
- The same comment says that a later move supersedes an earlier one. For absolute moves the theorems about the latest
  move event make this good. For relative moves it loses motion (`InputQueue.RelativeMotionIsLost`), exactly what
  is replaced or pushed out (`InputQueue.MotionIsAccountedFor`).
- `backend/codec/InputMappingSei.h:59` takes a first byte of 0x80 for the stop bit. A message of type 128 is coded that
  way too, and a mapping behind one in the same unit is not found (`MappingReceiver.HiddenMapping`); with any other
  types every unit is read message by message (`MappingReceiver.UnitIsUnderstood`).
- A version 2 telemetry packet without extended fields is accepted although no encoder here writes it
  (`ReceiverTelemetry.EncodeDecode`).

`backend/media/HostPeerRegistry.h:10-12` demands that closing a peer cancels its queued work, and
`backend/media/webrtc/NativeRoomRuntime.cpp:154` subscribes before the peer is handed over. Nothing enforces it, so it
is part of the result: an incarnation is subscribed after its row is gone only if somebody asked for it after its peer
was closed (`HostSafety.SubscribedOnlyIfAsked`), and `HostWitness.LateSubscriptionSurvives` is a run from the start of the
program in which that happens. What is assumed is ownership: a handle names one native peer, which is handed over
once, and only the registry ticks its policy.

## Model

| member | source | states |
|---|---|---|
| `MappingSei.InsertMappingSei` | backend/codec/InputMappingSei.h:14-40 | Splices the escaped mapping unit before the first slice (types 1 and 5), or at the front when there is none; an invalid mapping changes nothing |
| `MappingSei.FindInsertion` | backend/codec/InputMappingSei.h:30-38 | Finds the first slice start code, three or four bytes long, or 0 |
| `MappingSei.BuildRbsp` | backend/codec/InputMappingSei.h:16-21 | Writes payload type, size, UUID, the seven fields in network order and the stop bit |
| `Emulation.EscapeOnto` | backend/codec/InputMappingSei.h:22-27 | The writer loop with its zero counter is the escaping function |
| `Emulation.Unescaped` | backend/codec/InputMappingSei.h:50-55 | The reader loop is the inverse function, failing on an escape byte followed by a byte above 3 or by nothing |
| `Emulation.UnescapeEscape` | backend/codec/InputMappingSei.h:22-55 | Unescaping undoes escaping for every byte string and every zero run, and goes on with what follows |
| `Emulation.EscapeIsSafe` | backend/codec/InputMappingSei.h:24-27 | Escaped bytes are safe and at most twice as long |
| `Emulation.SafeTriples` | backend/codec/InputMappingSei.h:24-27 | Safe bytes hold 00 00 00, 00 00 01 or 00 00 02 nowhere |
| `Emulation.UnescapeCut` | backend/codec/InputMappingSei.h:50-57 | A cut escape fails or gives a shorter prefix |
| `AnnexB.SplitIsExact` | backend/codec/InputMappingSei.h:44-47 | Splitting a packet into leading bytes and units loses nothing |
| `AnnexB.SplitLeavesNoCode` | backend/codec/InputMappingSei.h:44-47 | Neither the leading bytes nor any unit hides a start code |
| `AnnexB.SplitIsOnly` | backend/codec/InputMappingSei.h:44-47 | The split is the only one: units without start codes are found again from their concatenation |
| `AnnexB.NoUnitExactly` | backend/codec/InputMappingSei.h:44-47 | A packet has no unit exactly when no start code occurs in it |
| `AnnexB.SplitSplice` | backend/codec/InputMappingSei.h:22-39 | A unit spliced behind a four-byte start code becomes exactly one more unit, and the unit before it gains at most one zero byte |
| `AnnexB.SplitTrailingZero` | backend/codec/InputMappingSei.h:44-47 | A zero at the end belongs to the last unit: the byte a unit gains when a mapping is spliced behind it |
| `MappingSei.FindCode` | backend/codec/InputMappingSei.h:44-44 | The scan for the next start code agrees with the split |
| `MappingSei.ReadFfCode` | backend/codec/InputMappingSei.h:60-64 | The run of 255s is read as one number |
| `MappingSei.Strip` | backend/codec/InputMappingSei.h:56-56 | Trailing zeros are dropped, all of them and nothing else |
| `MappingSei.ReadMessages` | backend/codec/InputMappingSei.h:58-75 | The message loop: sizes checked, a second or invalid mapping fails |
| `MappingSei.ReadFields` | backend/codec/InputMappingSei.h:68-71 | The seven fields are read back in order |
| `MappingSei.FieldsRoundTrip` | backend/codec/InputMappingSei.h:18-71 | Reading the twenty field bytes gives the mapping they were written from |
| `MappingSei.ReadMappingSei` | backend/codec/InputMappingSei.h:41-80 | The cursor-based reader computes the unit-by-unit meaning of a packet, with both size caps; which units and messages count is `MappingReceiver.UnitIsUnderstood` and `MappingReceiver.OtherTypes` |
| `MappingRoundTrip.BodyHasNoForbiddenTriple` | backend/codec/InputMappingSei.h:22-27 | The unit that is spliced contains no forbidden triple anywhere |
| `MappingRoundTrip.RoundTrip` | backend/codec/InputMappingSei.h:14-80 | Reading after inserting returns exactly that mapping if and only if the result fits, the other SEI units parse and hold no mapping (the one before counted with its extra zero), and what an unframed packet leads with is harmless |
| `MappingRoundTrip.FramedTail` | backend/codec/InputMappingSei.h:28-39 | A packet with a slice, one that opens with a start code, and the empty packet meet the last of these conditions |
| `MappingRoundTrip.DuplicateDisables` | backend/codec/InputMappingSei.h:66-67 | Inserting twice, whatever the mappings and the packet, reads as no mapping |
| `MappingRoundTrip.TruncatedUnit` | backend/codec/InputMappingSei.h:48-75 | What each proper prefix of the unit reads as |
| `MappingRoundTrip.TruncationReads` | backend/codec/InputMappingSei.h:41-80 | A truncated encoding still reads as the mapping if and only if just the stop byte is missing and the image height ends in 0x80 |
| `MappingRoundTrip.SplitInsert` | backend/codec/InputMappingSei.h:30-39 | The units of a packet after inserting: those before (the last with one more zero), the new one with what led the rest, those after |
| `MappingRoundTrip.OwnUnit` | backend/codec/InputMappingSei.h:48-75 | The spliced unit reads as its mapping exactly when none was found before and its tail is harmless |
| `MappingReceiver.PacketWithoutSei` | backend/codec/InputMappingSei.h:30-80 | A packet that opens with a start code and in which no start code is followed by a byte of type 6 gives every mapping back, up to 83 bytes short of sixteen mebibytes |
| `MappingReceiver.OrdinaryPacket` | backend/codec/InputMappingSei.h:30-80 | The same when the other SEI units, before and behind, hold other messages: the mapping is read back if and only if the result has at most 16777216 bytes |
| `MappingReceiver.UnitIsUnderstood` | backend/codec/InputMappingSei.h:48-76 | A unit of any messages of any types and sizes, escaped, up to 4096 bytes and with zeros behind it, is read message by message: others are passed over, a mapping must be the only one and valid, and a message of type 128 ends the unit |
| `MappingReceiver.ForeignIsPassedOver` | backend/codec/InputMappingSei.h:59-75 | Messages that are not user data with the sixteen bytes of the mapping change nothing |
| `MappingReceiver.OtherTypes` | backend/codec/InputMappingSei.h:48-49 | Units that are not of type 6 change nothing; units of type 6 over 4096 bytes end reading |
| `MappingReceiver.MessagesAreRead` | backend/codec/InputMappingSei.h:58-75 | The message loop reads exactly the messages that were put together, with their type and size codes of 255s |
| `MappingReceiver.HiddenMapping` | backend/codec/InputMappingSei.h:59-59 | A mapping behind a message of type 128 in the same unit is not found |
| `MappingReceiver.WrittenUnit` | backend/codec/InputMappingSei.h:16-27 | What is spliced in is 00 00 00 01 and a unit of type 6 of one message of type 5: the sixteen bytes, generation, width, height, left, top, image width, image height |
| `MappingReceiver.InsertedBeforeSlice` | backend/codec/InputMappingSei.h:30-39 | It goes right before the start code of the first unit of type 1 or 5, of three or four bytes, by the positions of the bytes; only a slice of one byte at the very end is overlooked |
| `MappingReceiver.InsertedInFront` | backend/codec/InputMappingSei.h:30-39 | Without such a unit it goes to the front |
| `MappingReceiver.UnfairIsNotWritten` | backend/codec/InputMappingSei.h:15-15 | Nothing is written exactly for a mapping without generation, too large, or not inside its frame |
| `Emulation.EscapeOnlyWhereNeeded` | backend/codec/InputMappingSei.h:24-27 | A string is written as it is exactly when nowhere two zeros are followed by a byte up to 3 |
| `Emulation.UnescapeRefuses` | backend/codec/InputMappingSei.h:50-55 | A string is refused exactly when somewhere 00 00 03 is followed by a byte above 3 or by nothing |
| `Bytes.NetworkOrder` | backend/codec/InputMappingSei.h:69-69 | Fields of two, four and eight bytes count their first byte most |
| `MappingReceiver.UnstoppedEndsReading` | backend/codec/InputMappingSei.h:56-57 | A unit whose last nonzero byte is not 0x80 ends reading |
| `MappingReceiver.BadEscapeEndsReading` | backend/codec/InputMappingSei.h:53-53 | So does one with an escape byte followed by a byte above 3 or by nothing |
| `MappingReceiver.OverrunEndsReading` | backend/codec/InputMappingSei.h:60-65 | So does one with a message, behind any others, that claims more bytes than there are |
| `MappingReceiver.BadUnitDisables` | backend/codec/InputMappingSei.h:48-65 | One such unit anywhere leaves the packet without a mapping |
| `MappingRoundTrip.TruncatedStillReads` | tests/DesktopInputTests.cpp:286 | A concrete valid mapping whose truncated encoding still reads, which the test expects never to happen |
| `H264Bitstream.FindAnnexBStartCode` | backend/codec/H264Bitstream.cpp:24-39 | Finds the first start code from an offset; the units it skips are none |
| `H264Bitstream.InspectAnnexB` | backend/codec/H264Bitstream.cpp:58-81 | Finds a stream exactly when there is a unit, and reports the types of all units past their leading zeros |
| `H264Bitstream.InspectLengthPrefixed` | backend/codec/H264Bitstream.cpp:92-111 | Accepts exactly when the lengths account for every byte, and reports the types of the units |
| `H264Bitstream.InspectH264AccessUnit` | backend/codec/H264Bitstream.cpp:115-137 | Annex B first, then four-byte, then two-byte lengths; the types reported are those of `H264Reports.UnitsAreReported` and `H264Reports.LengthsAreReported` |
| `H264Bitstream.PrefixedExact` | backend/codec/H264Bitstream.cpp:83-111 | The accepted length-prefixed packets are exactly the serializations of nonempty units that fit, and parsing gives those units back |
| `H264Bitstream.ReadByLengths` | backend/codec/H264Bitstream.cpp:115-137 | A length-prefixed packet is read by its lengths, and all its units reported, if and only if no start code occurs in it and, for two-byte lengths, it does not parse with four-byte ones |
| `H264Bitstream.MediumUnitsAreMisread` | backend/codec/H264Bitstream.cpp:115-124 | Every four-byte packet with a unit of 256 to 511 bytes is read as a byte stream |
| `H264Bitstream.SliceReportedAsIdr` | backend/codec/H264Bitstream.cpp:115-124 | A concrete packet with one non-IDR slice that is reported as an IDR slice |
| `MappingTransparency.OtherUnits` | backend/codec/H264Bitstream.cpp:58-81 | Splicing leaves all other units in place and order |
| `MappingTransparency.InsertIsTransparent` | backend/codec/H264Bitstream.cpp:58-137 | With a start code anywhere, inspection is the same before and after inserting; without one the packet reads as a stream without IDR, SPS or PPS |
| `H264Bitstream.SkipZeros` | backend/codec/H264Bitstream.cpp:70-72 | Skips the zeros at the start of a unit |
| `H264Bitstream.AddUnit` | backend/codec/H264Bitstream.cpp:70-75 | Adds the type of a unit, if it is more than zeros |
| `H264Bitstream.SerializedOfPrefixed` | backend/codec/H264Bitstream.cpp:92-111 | What is accepted is the serialization of the units found |
| `H264Bitstream.PrefixedOfSerialized` | backend/codec/H264Bitstream.cpp:92-111 | A serialization of nonempty units that fit is accepted |
| `H264Reports.UnitsAreReported` | backend/codec/H264Bitstream.cpp:58-81 | A byte stream of any units reports an IDR slice, a sequence or a picture parameter set if and only if the first nonzero byte of some unit is 5, 7 or 8 modulo 32 |
| `H264Reports.StreamIsReported` | backend/codec/H264Bitstream.cpp:24-81 | The same by byte positions, in any packet in which 00 00 01 occurs: some such code is followed, zeros aside, by a byte of that type |
| `H264Reports.LengthsAreReported` | backend/codec/H264Bitstream.cpp:92-111 | Units behind their lengths, read as such, are reported by the first byte of each |
| `H264Reports.NothingIsReported` | backend/codec/H264Bitstream.cpp:115-137 | A packet in neither framing reports nothing |
| `H264Reports.StreamKeyframes` | backend/codec/H264Bitstream.cpp:10-56 | The bytes of a keyframe report all three, with start codes of three and of four bytes |
| `H264Reports.LengthKeyframe` | backend/codec/H264Bitstream.cpp:83-111 | And with lengths of two and of four bytes |
| `PeerLifecycle.PeerConnectionLifecycle.constructor` | backend/media/PeerConnectionLifecycle.h:17-18 | A peer starts connecting, with a deadline of twenty seconds |
| `PeerLifecycle.PeerConnectionLifecycle.Connected` | backend/media/PeerConnectionLifecycle.h:19-27 | New state and answer of an accepted, late or foreign connection |
| `PeerLifecycle.PeerConnectionLifecycle.Disconnected` | backend/media/PeerConnectionLifecycle.h:28-33 | New state and answer of a disconnection; when the restart is due is `PeerLifecycleProgress.LossIsRestarted` |
| `PeerLifecycle.PeerConnectionLifecycle.RequestRestart` | backend/media/PeerConnectionLifecycle.h:34-34 | The same as a disconnection |
| `PeerLifecycle.PeerConnectionLifecycle.RemoteClosed` | backend/media/PeerConnectionLifecycle.h:35-38 | Fails an accepted peer |
| `PeerLifecycle.PeerConnectionLifecycle.Close` | backend/media/PeerConnectionLifecycle.h:39-39 | Closes, whatever the state |
| `PeerLifecycle.PeerConnectionLifecycle.Tick` | backend/media/PeerConnectionLifecycle.h:40-59 | New state and action at a time: deadlines, back-off, budget |
| `PeerLifecycle.PeerConnectionLifecycle.Prune` | backend/media/PeerConnectionLifecycle.h:68-70 | Attempts a minute old go, from the front |
| `PeerLifecycle.PeerConnectionLifecycle.Schedule` | backend/media/PeerConnectionLifecycle.h:71-78 | Backs off, or fails when the minute is used up |
| `PeerLifecycleRuns.StepKeeps` | backend/media/PeerConnectionLifecycle.h:19-78 | Every event at a nondecreasing time keeps the ledger: attempts kept are the latest restarts, restarts are spaced, unanswered ones a deadline apart |
| `PeerLifecycleRuns.RestartBudget` | backend/media/PeerConnectionLifecycle.h:68-78 | In every run any two restarts are a second apart and any four span a minute |
| `PeerLifecycleRuns.RestartNeedsConnection` | backend/media/PeerConnectionLifecycle.h:19-59 | Nothing restarts before the first accepted connection, and a connect timeout means none was accepted |
| `PeerLifecycleRuns.TerminalForever` | backend/media/PeerConnectionLifecycle.h:65-67 | After failing or closing, no connection is accepted, nothing restarts and the failure stays |
| `PeerLifecycleRuns.TerminalRefuses` | backend/media/PeerConnectionLifecycle.h:19-67 | And every call, for every generation and time, is refused and changes nothing |
| `PeerLifecycleRuns.LimitMeansFlapping` | backend/media/PeerConnectionLifecycle.h:71-78 | A peer that fails for the restart limit had a connection accepted after the oldest of its last three restarts |
| `PeerLifecycleRuns.FlappingReachesLimit` | backend/media/PeerConnectionLifecycle.h:28-78 | A run of three and a half seconds that reaches the restart limit |
| `PeerLifecycle.PeerConnectionLifecycle.Fail` | backend/media/PeerConnectionLifecycle.h:79-79 | Notes the failure |
| `PeerLifecycleRuns.TickKeeps` | backend/media/PeerConnectionLifecycle.h:40-59 | A tick restarts only when the ledger allows one more |
| `PeerLifecycleRuns.ScheduleKeeps` | backend/media/PeerConnectionLifecycle.h:71-78 | Backing off keeps the ledger, and failing for the limit means an answer came in between |
| `PeerLifecycleRuns.RunKeeps` | backend/media/PeerConnectionLifecycle.h:19-78 | Every run keeps the ledger |
| `PeerLifecycleProgress.LossIsRestarted` | backend/media/PeerConnectionLifecycle.h:28-59 | A connection that is lost is restarted by every tick from half a second, one or two seconds after the loss on, by the restarts in the last minute, and by no tick before, whatever notices repeat the loss; with three it fails at once |
| `PeerLifecycleProgress.UnansweredIsGivenUp` | backend/media/PeerConnectionLifecycle.h:47-50 | A restart nobody answers is given up by the first tick twenty seconds after it and by none before |
| `PeerLifecycleProgress.UnansweredIsRetried` | backend/media/PeerConnectionLifecycle.h:47-58 | And tried again half a second, one or two seconds after that tick, and not before |
| `PeerLifecycleProgress.FirstConnection` | backend/media/PeerConnectionLifecycle.h:19-46 | A connecting peer is closed by every tick from twenty seconds after its start on and by none before, and accepts its connection exactly until then |
| `PeerLifecycleProgress.AcceptedExactly` | backend/media/PeerConnectionLifecycle.h:19-27 | In every run a connection is accepted exactly when it is for this generation, the peer has neither failed nor closed, and it is not the first or comes within twenty seconds |
| `PeerLifecycleProgress.StaysUp` | backend/media/PeerConnectionLifecycle.h:41-43 | A connection that is up is left alone by ticks, repeated connections and foreign notices |
| `PeerLifecycleProgress.EndsAtOnce` | backend/media/PeerConnectionLifecycle.h:35-41 | Hanging up fails a peer whatever it waits for and the next tick closes it; a peer closed here is not closed again |
| `PeerLifecycleProgress.RecentInRun` | backend/media/PeerConnectionLifecycle.h:68-70 | The attempts left after pruning are the restarts of the last minute, at most three |
| `HostMediaSession.HostMediaSession.Submit` | backend/media/HostMediaSession.cpp:39-62 | Numbers the command; answers a stale stop, one after close and one beyond 64; a current stop cancels what waits |
| `HostMediaSession.HostMediaSession.Refresh` | backend/media/HostMediaSession.cpp:70-106 | Follows the capture state and drops failed consumers, lowest first, remembering the last; publishes unless there is no capture |
| `HostMediaSession.HostMediaSession.DropFailed` | backend/media/HostMediaSession.cpp:92-102 | The erasing loop drops exactly the failed consumers |
| `HostMediaSession.HostMediaSession.RunStart` | backend/media/HostMediaSession.cpp:142-156 | Starts a new generation, announced before its foreign calls, unless there is no factory or capture is there |
| `HostMediaSession.HostMediaSession.RunAdd` | backend/media/HostMediaSession.cpp:157-172 | Subscribes a viewer, with each refusal in its order; in figures and over the whole way of the command in `SessionProgress.AddIsAnswered` |
| `HostMediaSession.HostMediaSession.RunRemove` | backend/media/HostMediaSession.cpp:173-184 | Removes a viewer of that connection, or finds it stale |
| `HostMediaSession.HostMediaSession.RunStop` | backend/media/HostMediaSession.cpp:185-192 | Announces and tears down the current generation only |
| `HostMediaSession.HostMediaSession.Take` | backend/media/HostMediaSession.cpp:108-123 | Drains and leaves when closing, else takes the oldest command |
| `HostMediaSession.HostMediaSession.Turn` | backend/media/HostMediaSession.cpp:124-131 | One turn around a command, with a foreign exception at any of three places |
| `HostMediaSession.HostMediaSession.Perform` | backend/media/HostMediaSession.cpp:121-133 | The turn, published at its end |
| `HostMediaSession.HostMediaSession.Answer` | backend/media/HostMediaSession.cpp:134-134 | Keeps the promise of the active command |
| `HostMediaSession.HostMediaSession.Close` | backend/media/HostMediaSession.cpp:30-35 | Sets closing and nothing else |
| `SessionRuns.StepValid` | backend/media/HostMediaSession.cpp:39-138 | Every step of submitters and worker keeps the session consistent: ledger, viewers, subscriptions, published generation |
| `SessionRuns.Conservation` | backend/media/HostMediaSession.cpp:39-138 | In every run: submitted = replied + queued + at most one active, the queue holds at most 64, and every number is in exactly one of these places |
| `SessionRuns.RepliesAreFinal` | backend/media/HostMediaSession.cpp:45-134 | A reply is given once and never changes |
| `SessionRuns.ExitAnswersAll` | backend/media/HostMediaSession.cpp:113-118 | Once the worker has left, every command ever submitted is answered |
| `SessionRuns.CurrentStopIsAccepted` | backend/media/HostMediaSession.cpp:48-60 | A current stop before close is always queued, alone, and every command it displaced is answered as cancelled |
| `SessionRuns.StaleStopChangesNothing` | backend/media/HostMediaSession.cpp:44-47 | A stale stop is answered at once and changes nothing else, then or when executed |
| `SessionRuns.TurnMonotone` | backend/media/HostMediaSession.cpp:124-156 | A turn never goes back: generations grow, and within one connections grow and capture does not return |
| `SessionRuns.NeverReadmitted` | backend/media/HostMediaSession.cpp:163-168 | A connection generation counted once is refused for the rest of that session, for every viewer |
| `SessionRuns.AdmissionIsCounted` | backend/media/HostMediaSession.cpp:163-170 | A successful add counts its connection, even if the viewer is dropped or the turn fails later in the same turn |
| `SessionRuns.SuccessMeansAdmitted` | backend/media/HostMediaSession.cpp:124-134 | An add answered with success succeeded |
| `SessionRuns.AdmittedOnlyOnce` | backend/media/HostMediaSession.cpp:157-172 | So an incarnation whose add was answered with success is never admitted again in that session |
| `SessionRuns.AnnouncedGeneration` | backend/media/HostMediaSession.cpp:122-189 | A snapshot published in the middle of a turn carries the generation from before or after it |
| `SubscriptionSafety.FifoKeeps` | backend/media/HostMediaSession.cpp:59-119 | Commands are executed in the order of their numbers |
| `SubscriptionSafety.GoneKeeps` | backend/media/HostMediaSession.cpp:157-184 | An incarnation neither subscribed nor asked for stays so, unless someone asks |
| `SubscriptionSafety.RemovalRemoves` | backend/media/HostMediaSession.cpp:173-184 | After a removal answered with success or StaleGeneration the incarnation is not subscribed |
| `SubscriptionSafety.PursuesKeeps` | backend/media/HostMediaSession.cpp:39-134 | While a removal is under way, whatever could add the incarnation stands before it, so a settled reply means it is gone |
| `SubscriptionSafety.StopStops` | backend/media/HostMediaSession.cpp:185-192 | After a stop answered with success or StaleGeneration that session is over |
| `SubscriptionSafety.EndedKeeps` | backend/media/HostMediaSession.cpp:142-192 | A session that is over never comes back |
| `HostMediaSession.HostMediaSession.constructor` | backend/media/HostMediaSession.cpp:15-29 | A fresh, idle session |
| `HostMediaSession.HostMediaSession.CancelQueued` | backend/media/HostMediaSession.cpp:51-53 | Every waiting command is answered as cancelled, in order |
| `HostMediaSession.HostMediaSession.Teardown` | backend/media/HostMediaSession.cpp:63-69 | Capture, distribution and viewers are gone |
| `HostMediaSession.HostMediaSession.Observe` | backend/media/HostMediaSession.cpp:76-89 | The session follows the reported capture state |
| `HostMediaSession.HostMediaSession.Run` | backend/media/HostMediaSession.cpp:142-192 | The body of whichever command it is, to its end or to the foreign call that throws, with what it publishes |
| `SessionRuns.RunValidity` | backend/media/HostMediaSession.cpp:39-138 | Every run keeps the session consistent |
| `SessionRuns.RefreshShrinks` | backend/media/HostMediaSession.cpp:70-106 | A refresh admits nobody and keeps the generation |
| `SessionRuns.RunMonotone` | backend/media/HostMediaSession.cpp:107-135 | Over runs generations grow, and within one connections grow and capture does not return |
| `SubscriptionSafety.PursuesStarts` | backend/media/HostMediaSession.cpp:173-184 | A submitted removal starts the pursuit of its incarnation |
| `SubscriptionSafety.StopPursuesKeeps` | backend/media/HostMediaSession.cpp:185-192 | While a stop is under way, a settled reply means the session is over |
| `SubscriptionSafety.EndedHoldsNobody` | backend/media/HostMediaSession.cpp:63-69 | In a session that is over nobody is subscribed |
| `SessionProgress.AddIsAnswered` | backend/media/HostMediaSession.cpp:157-172 | An add succeeds if and only if it names the current session, capture outlives the refresh before it, the viewer is not zero and not there, a callback is given, the connection is above all before it, and fewer than 63 viewers are there; each refusal has its code; the viewer is then subscribed unless the refresh after it drops it |
| `SessionProgress.RemoveIsAnswered` | backend/media/HostMediaSession.cpp:173-184 | A removal succeeds if and only if the session is current and the viewer is not there under another connection; it takes away that viewer only |
| `SessionProgress.StartIsAnswered` | backend/media/HostMediaSession.cpp:142-156 | A start succeeds if and only if there is a factory and no capture after the refresh; it opens the next generation without viewers or connections |
| `SessionProgress.StopIsAnswered` | backend/media/HostMediaSession.cpp:185-191 | A stop of the current session succeeds and leaves nothing of it |
| `SessionProgress.FaultIsAnswered` | backend/media/HostMediaSession.cpp:124-134 | A foreign exception anywhere is answered as internal and ends the session |
| `SessionProgress.Served` | backend/media/HostMediaSession.cpp:39-134 | From submission to reply with an idle worker: number, answer, and the state published at the end |
| `SessionProgress.SubmitIsAnswered` | backend/media/HostMediaSession.cpp:39-62 | A command waits exactly when the session is not closing and fewer than 64 wait, or it is a current stop; else it is answered at once with its code |
| `SessionProgress.QueueDrains` | backend/media/HostMediaSession.cpp:107-135 | As many rounds of the worker as commands wait answer them all, whatever happens in them |
| `SessionProgress.ClosedLeaves` | backend/media/HostMediaSession.cpp:113-118 | After close the worker finishes what it has in hand and leaves |
| `SessionProgress.RefreshIs` | backend/media/HostMediaSession.cpp:70-106 | A refresh ends the session when capture closed, stopped or failed, and else drops exactly the failed viewers |
| `SessionProgress.RefreshShows` | backend/media/HostMediaSession.cpp:76-103 | The state shown for each state of capture |
| `SessionProgress.RefreshRemembers` | backend/media/HostMediaSession.cpp:96-99 | The failed viewer remembered is the highest of those dropped |
| `HostPeerRegistry.HostPeerRegistry.constructor` | backend/media/HostPeerRegistry.h:43-44 | Starts without rows, bound to a capture session or to none |
| `HostPeerRegistry.HostPeerRegistry.Add` | backend/media/HostPeerRegistry.h:47-56 | Takes a peer, or closes and releases the one it refuses |
| `HostPeerRegistry.HostPeerRegistry.RequestRestart` | backend/media/HostPeerRegistry.h:57-62 | Reaches the policy of the open row of that generation only |
| `HostPeerRegistry.HostPeerRegistry.TickRow` | backend/media/HostPeerRegistry.h:66-77 | One row: clean up when closed; else policy, poll, restart, each of which may close it |
| `HostPeerRegistry.HostPeerRegistry.PollRow` | backend/media/HostPeerRegistry.h:70-77 | Polls the peer of an open row and dispatches a due restart; a failure of either closes the row |
| `HostPeerRegistry.HostPeerRegistry.Tick` | backend/media/HostPeerRegistry.h:63-83 | All rows in ascending order, then the rows that can go; during shutdown only the stop is polled |
| `HostPeerRegistry.HostPeerRegistry.Remove` | backend/media/HostPeerRegistry.h:86-94 | Closes the row and erases it once nothing is pending |
| `HostPeerRegistry.HostPeerRegistry.BeginStop` | backend/media/HostPeerRegistry.h:102-107 | Submits the capture stop, once |
| `HostPeerRegistry.HostPeerRegistry.StopAgain` | backend/media/HostPeerRegistry.h:110-115 | The explicit stop up to its wait: tries a failed shutdown again |
| `HostPeerRegistry.HostPeerRegistry.FinishStop` | backend/media/HostPeerRegistry.h:118-120 | The explicit stop after its wait: reads the answer, and completes exactly when it has settled |
| `HostPeerRegistry.PollStopStops` | backend/media/HostPeerRegistry.h:123-130 | With its answer there, a poll stops the registry exactly when the answer has settled |
| `HostPeerRegistry.HostPeerRegistry.PollStop` | backend/media/HostPeerRegistry.h:123-133 | Reads the answer; closes and releases the rows only when it has settled |
| `HostPeerRegistry.HostPeerRegistry.PollCleanup` | backend/media/HostPeerRegistry.h:148-164 | Submits the removal, or reads its answer; that an answer that has not settled leads to another try is `HostProgress.UnsettledIsRetried` |
| `HostPeerRegistry.HostPeerRegistry.CloseEntry` | backend/media/HostPeerRegistry.h:165-176 | Closes policy and peer once, then turns to the capture side |
| `HostPeerRegistry.HostPeerRegistry.Shut` | backend/media/HostPeerRegistry.h:167-174 | The final status: failed when an operation failed, else closed unless already failed |
| `HostRuns.ActKept` | backend/media/HostPeerRegistry.h:47-176 | Every step keeps: rows hold distinct peers, open exactly when the row is; all other peers are gone |
| `HostRuns.TickIsRun` | backend/media/HostPeerRegistry.h:63-83 | A tick is a run of row steps, so what holds for runs of rows holds for ticks |
| `HostRuns.GoneShape` | backend/media/HostPeerRegistry.h:165-176 | A peer that is gone was polled or restarted only before its one close, and released once after it |
| `HostRestarts.ClosedExactlyOnce` | backend/media/HostPeerRegistry.h:47-176 | In every run each peer ever handed over, accepted or refused, is closed and released exactly once when its row is gone, and is open exactly while its row is |
| `HostRestarts.GoneForGood` | backend/media/HostPeerRegistry.h:47-176 | Once a peer is gone no later step calls it again |
| `HostRestarts.TickedExact` | backend/media/HostPeerRegistry.h:63-77 | What a tick calls on the peer of an open row, in order, and that it touches no other peer |
| `HostRestarts.ShutRowsExact` | backend/media/HostPeerRegistry.h:131-131 | Closing all rows closes the peer of each open one once and touches no other |
| `HostRestarts.DispatchBudget` | backend/media/HostPeerRegistry.h:67-76 | The restart requests made on a peer in any run are a second apart, four of them span a minute, and they carry revisions 1, 2, 3 and so on |
| `HostSafety.InitiallySafe` | backend/media/HostPeerRegistry.h:43-44 | A new registry bound to a started session is safe |
| `HostSafety.ActSafe` | backend/media/HostPeerRegistry.h:47-176 | Every step of registry, session and peers keeps the capture side safe: a row counts as cleaned up only when its incarnation is gone from the session |
| `HostSafety.RunSafe` | backend/media/HostPeerRegistry.h:47-176 | So does every run |
| `HostSafety.RowGoneForGood` | backend/media/HostPeerRegistry.h:86-164 | When Remove, Tick or a stop lets a row go, capture holds no subscription for its viewer and connection, and will hold none while nobody asks for that one again, whichever settled reply ended the cleanup |
| `HostSafety.GoneRowIsOut` | backend/media/HostPeerRegistry.h:86-164 | Over any run in which nobody asks late: whoever had a row and no longer has it under that connection is not subscribed |
| `HostSafety.SubscribedOnlyIfAsked` | backend/media/HostPeerRegistry.h:86-164 | In any run at all: an incarnation is subscribed after its row is gone only if somebody asked for it after its peer had been closed |
| `HostSafety.TickErasesSafely` | backend/media/HostPeerRegistry.h:63-83 | When a tick erases a row, its incarnation is not subscribed |
| `HostSafety.StaysOut` | backend/media/HostPeerRegistry.h:148-164 | An incarnation whose row is gone is not subscribed after any further run in which nobody asks for it |
| `HostSafety.StopClosesLate` | backend/media/HostPeerRegistry.h:102-133 | A peer still open when shutdown begins is closed only once the session it belongs to is over |
| `HostSafety.ActDescends` | backend/media/HostPeerRegistry.h:47-55 | Rows keep their generation and every new row has a higher one than any before |
| `HostWitness.LateSubscriptionSurvives` | backend/media/HostPeerRegistry.h:10-12 | A concrete run from the start of the program in which a subscription asked for after the peer was closed outlives its row |
| `HostWitness.SafeUntilAskedLate` | backend/media/HostPeerRegistry.h:86-164 | Up to that request the run is allowed and safe |
| `HostPeerRegistry.HostPeerRegistry.ShutAll` | backend/media/HostPeerRegistry.h:131-131 | Closes all rows in ascending order |
| `HostPeerRegistry.HostPeerRegistry.ReleaseAll` | backend/media/HostPeerRegistry.h:132-132 | Every row gives up its peer |
| `HostPeerRegistry.HostPeerRegistry.Erase` | backend/media/HostPeerRegistry.h:80-92 | One row gives up its peer |
| `HostRuns.OpenShape` | backend/media/HostPeerRegistry.h:66-77 | An open peer was only polled and restarted |
| `HostRestarts.ActPaced` | backend/media/HostPeerRegistry.h:57-176 | Every step keeps each open peer's policy in step with the restarts requested of the peer |
| `HostRestarts.ActWinds` | backend/media/HostPeerRegistry.h:47-176 | Every event but ticks, restarts and the events of the peers themselves at most closes and releases peers |
| `HostRestarts.ActExtends` | backend/media/HostPeerRegistry.h:47-176 | Calls on peers only accumulate |
| `HostSafety.TickRowSafe` | backend/media/HostPeerRegistry.h:66-77 | A tick of one row keeps the capture side safe |
| `HostSafety.EraseSafe` | backend/media/HostPeerRegistry.h:79-92 | A row that can go is the row of an incarnation that is gone from the session |
| `HostSafety.PollSafe` | backend/media/HostPeerRegistry.h:148-164 | Reading or submitting a cleanup keeps the capture side safe |
| `HostSafety.PollStopSafe` | backend/media/HostPeerRegistry.h:123-133 | The registry counts as stopped only once the session is over |
| `HostSafety.ErasedIsRetired` | backend/media/HostPeerRegistry.h:86-133 | A row disappears only after its peer was closed or the session is over |
| `HostProgress.UnsettledIsRetried` | backend/media/HostPeerRegistry.h:148-164 | After a reply of capacity, cancellation or any other failure, two ticks of the row, with anything the session does in between, submit the same removal under a new number |
| `HostProgress.SettledIsErased` | backend/media/HostPeerRegistry.h:79-82 | After success or staleness the next tick lets a row go that was asked to, and releases its peer; no other row goes |
| `HostProgress.RemovalCompletes` | backend/media/HostPeerRegistry.h:86-94 | A removal from request to disappearance: submitted, answered by an idle session, row gone, peer closed and released once, nobody subscribed for it |
| `HostProgress.AnswerIsRead` | backend/media/HostPeerRegistry.h:150-161 | A tick reads the answer; the row is done exactly for success and staleness |
| `HostProgress.CleanupWaits` | backend/media/HostPeerRegistry.h:151-151 | Until the answer is there a tick of the row does nothing |
| `HostProgress.CleanupIsSubmitted` | backend/media/HostPeerRegistry.h:163-163 | A closed row that waits for no answer submits its removal |
| `HostProgress.RowCloses` | backend/media/HostPeerRegistry.h:66-77 | A tick closes an open row exactly when its policy says so, the poll failed, or a due restart was not accepted; what the row shows then, and that its removal is submitted |
| `HostProgress.AddIsAccepted` | backend/media/HostPeerRegistry.h:47-56 | A peer is taken exactly while the registry is not stopping, for a viewer that is not zero and has no row, with fewer than 63 rows, above every generation before it |
| `HostProgress.RestartReachesPeer` | backend/media/HostPeerRegistry.h:57-62 | A request reaches the policy exactly for an open row of that generation |
| `HostProgress.ShutdownBegins` | backend/media/HostPeerRegistry.h:102-107 | Shutdown begins with the submission of a stop, or is done at once without a session |
| `HostProgress.ShutdownPolls` | backend/media/HostPeerRegistry.h:123-133 | Polling waits for the answer, then either everything is gone or the failed answer is kept and polling changes nothing |
| `HostProgress.StopIsRetried` | backend/media/HostPeerRegistry.h:110-115 | A stop that did not settle is tried again by an explicit stop and only by that |
| `HostTicks.TickReachesAll` | backend/media/HostPeerRegistry.h:63-83 | In every tick before shutdown each open peer takes exactly one turn, with the calls in order, closed ones are left alone, and every row asked to go that waits for no cleanup is gone |
| `HostTicks.RowsTakeTurns` | backend/media/HostPeerRegistry.h:65-78 | Rows taking their turns do not touch each other's peers |
| `HostTicks.RowsGo` | backend/media/HostPeerRegistry.h:79-82 | Exactly the rows that were asked to go and wait for no cleanup are erased, and their peers released |
| `HostTicks.RemoveIsAccepted` | backend/media/HostPeerRegistry.h:86-94 | Without a session a removal is accepted exactly for the row of that generation before shutdown, and the row goes at once |
| `RoomPeerRoster.RoomPeerRoster.Apply` | backend/media/RoomPeerRoster.h:27-49 | Result, membership and every hook call of a snapshot, including the invalid and the outdated one |
| `RoomPeerRoster.RoomPeerRoster.Shrink` | backend/media/RoomPeerRoster.h:35-41 | The erasing loop drops exactly the ids that left, removing the active ones |
| `RoomPeerRoster.RoomPeerRoster.Grow` | backend/media/RoomPeerRoster.h:42-45 | New ids become pending, known ids stay as they are |
| `RoomPeerRoster.RoomPeerRoster.RetryPending` | backend/media/RoomPeerRoster.h:52-62 | Ready pending ids are tried once and are pending no more |
| `RoomPeerRoster.RoomPeerRoster.TransportLost` | backend/media/RoomPeerRoster.h:63-66 | Clears and suspends, unless it is about an older generation |
| `RoomPeerRoster.RoomPeerRoster.Fail` | backend/media/RoomPeerRoster.h:74-79 | Removes an active id and keeps it as failed |
| `RoomPeerRoster.RoomPeerRoster.Clear` | backend/media/RoomPeerRoster.h:81-81 | Removes the active ids and forgets all |
| `RoomPeerRoster.RoomPeerRoster.FailedCount` | backend/media/RoomPeerRoster.h:67-69 | Counts the failed ids |
| `RoomPeerRoster.FailedCountExact` | backend/media/RoomPeerRoster.h:67-69 | The subtraction never underflows: it is the number of failed ids |
| `RosterRuns.Discipline` | backend/media/RoomPeerRoster.h:24-81 | In every run, for every id, adds and removes come in the only allowed order, and pending ids are inactive members |
| `RosterRuns.AddsMatchRemoves` | backend/media/RoomPeerRoster.h:24-81 | Successful adds and removes pair up, but for an active id; destruction settles all |
| `RosterRuns.FailedAddWaits` | backend/media/RoomPeerRoster.h:50-62 | A failed add is tried again only after the id left |
| `RosterRuns.LeavingIsAuthoritative` | backend/media/RoomPeerRoster.h:27-66 | An id leaves only when it is dropped from the membership or the roster is reset |
| `RosterRuns.Converges` | backend/media/RoomPeerRoster.h:27-66 | Whatever the order and repetition, the members are those of the greatest event by generation and revision, a loss standing above all revisions of its generation |
| `RosterRuns.OrderDoesNotMatter` | backend/media/RoomPeerRoster.h:27-66 | Two deliveries that name the same snapshots and losses, in any order, with any repetition, retries, failures and hook answers, end with the same members at the same stamp |
| `RoomPeerRoster.RoomPeerRoster.constructor` | backend/media/RoomPeerRoster.h:22-23 | An empty roster |
| `RoomPeerRoster.RoomPeerRoster.Retire` | backend/media/RoomPeerRoster.h:37-37 | The remove hook for an active id only |
| `RoomPeerRoster.RoomPeerRoster.Try` | backend/media/RoomPeerRoster.h:55-60 | One attempt to add, kept as its outcome |
| `RoomPeerRoster.RoomPeerRoster.ActiveCount` | backend/media/RoomPeerRoster.h:67-67 | Counts the active ids |
| `RosterRuns.StepWalk` | backend/media/RoomPeerRoster.h:24-81 | Every event moves every id along the allowed order |
| `RosterRuns.StepStands` | backend/media/RoomPeerRoster.h:27-66 | An event takes effect on the membership exactly when it stands above what the roster has seen |
| `RosterProgress.AppliedExactly` | backend/media/RoomPeerRoster.h:28-33 | In every run a snapshot is invalid unless it names a generation and at most 63 different ids of 1 to 128 plain characters, is applied exactly when it is newer than every snapshot and loss before it, and else ignored |
| `RosterProgress.SnapshotTreats` | backend/media/RoomPeerRoster.h:34-62 | What an applied snapshot does to each id at once: state and hook calls for every state it can be in |
| `RosterProgress.RetryTries` | backend/media/RoomPeerRoster.h:52-62 | A retry tries every ready pending id once and no other |
| `RosterProgress.LossEmpties` | backend/media/RoomPeerRoster.h:63-66 | A loss of the current or a later generation empties the roster, removing the active ids |
| `InputQueue.MemorySessionRuntimeControl.EnqueueInput` | backend/core/SessionRuntimeControl.cpp:196-239 | Coalesces a move, drops the stale pad state, makes room, and appends |
| `InputQueue.MemorySessionRuntimeControl.FirstPad` | backend/core/SessionRuntimeControl.cpp:209-213 | Finds the first pad state of a slot |
| `InputQueue.MemorySessionRuntimeControl.FirstMotion` | backend/core/SessionRuntimeControl.cpp:224-230 | Finds the first motion or pad state |
| `InputQueue.MemorySessionRuntimeControl.DrainInput` | backend/core/SessionRuntimeControl.cpp:241-247 | Hands out the queue and empties it |
| `InputQueue.WaitingShape` | backend/core/SessionRuntimeControl.cpp:196-239 | At most 512 events wait, one pad state per slot, the last arrival at the back |
| `InputQueue.WaitingSelects` | backend/core/SessionRuntimeControl.cpp:196-239 | What waits is a selection of what arrived, in the order it arrived |
| `InputQueue.DiscreteSuffix` | backend/core/SessionRuntimeControl.cpp:218-236 | The discrete events waiting are the latest that arrived: all but as many as arrivals that found 512 of them |
| `InputQueue.NothingDiscreteLost` | backend/core/SessionRuntimeControl.cpp:218-236 | No discrete event is lost if and only if no arrival found 512 of them waiting |
| `InputQueue.EnqueueReplays` | backend/core/SessionRuntimeControl.cpp:203-216 | One arrival with room to spare replays like a plain append |
| `InputQueue.CoalescingReplays` | backend/core/SessionRuntimeControl.cpp:200-239 | Without overflow every discrete event is replayed under the same pointer, and pointer and pads end the same, as if nothing had been coalesced |
| `InputQueue.StreamReplays` | backend/core/SessionRuntimeControl.cpp:196-247 | The same for any interleaving of arrivals and drains |
| `InputQueue.StreamConservesDiscretes` | backend/core/SessionRuntimeControl.cpp:196-247 | Unless some arrival finds 512 of them, delivered and waiting discrete events are exactly those that arrived, each once and in order |
| `InputQueue.StreamLosesExactly` | backend/core/SessionRuntimeControl.cpp:218-247 | Over any interleaving of arrivals and drains no discrete event is lost if and only if no arrival finds 512 of them |
| `InputQueue.KeyIsLost` | backend/core/SessionRuntimeControl.cpp:200-236 | The 513th key press in a row pushes out the first |
| `InputQueue.EnqueueKeepsTravel` | backend/core/SessionRuntimeControl.cpp:203-208 | An arrival keeps the summed relative motion exactly when the move it replaces or pushes out did not move |
| `InputQueue.MotionIsAccountedFor` | backend/core/SessionRuntimeControl.cpp:200-239 | The motion that waits is the motion that arrived less what was replaced and pushed out, and equal exactly when that is zero |
| `InputQueue.StreamMotion` | backend/core/SessionRuntimeControl.cpp:196-247 | The same for any interleaving of arrivals and drains |
| `InputQueue.RelativeMotionIsLost` | backend/core/SessionRuntimeControl.cpp:200-208 | Of two relative moves in a row only the second counts |
| `InputQueue.MovesCanBeAdjacent` | backend/core/SessionRuntimeControl.cpp:209-216 | Two moves can wait side by side after the pad state between them was superseded |
| `InputQueue.EnqueueShape` | backend/core/SessionRuntimeControl.cpp:196-239 | One arrival keeps the bound and the one state per slot, and goes to the back |
| `InputQueue.EnqueueDiscretes` | backend/core/SessionRuntimeControl.cpp:196-239 | One arrival costs a discrete event exactly when 512 of them are waiting, and then the oldest |
| `InputQueue.PadLeavesNoTrace` | backend/core/SessionRuntimeControl.cpp:209-216 | A superseded pad state can be erased without a trace outside its slot |
| `InputQueue.ReplayAfter` | backend/core/SessionRuntimeControl.cpp:196-247 | A replay depends on what came before only through the pointer and the pads |
| `InputQueue.Superseding` | backend/core/SessionRuntimeControl.cpp:203-218 | A move behind a move takes its place; a pad state goes to the back and the one before it goes |
| `InputQueue.GoingToTheBack` | backend/core/SessionRuntimeControl.cpp:219-238 | Anything else goes to the back; the 513th costs the oldest motion or pad state, or, when only buttons, scrolls, keys and control requests wait, the oldest of them |
| `LineSplitter.LogReader.HandleOutput` | backend/api/ScreenShareAPI.cpp:708-737 | Lines and open line are those of the character-by-character reference on the buffered text |
| `LineSplitter.LogReader.FindFirstBreak` | backend/api/ScreenShareAPI.cpp:723-723 | Finds the next CR or LF |
| `LineSplitter.LinesArePlain` | backend/api/ScreenShareAPI.cpp:721-737 | No line is empty or holds a break |
| `LineSplitter.NothingLost` | backend/api/ScreenShareAPI.cpp:721-737 | Lines and open line hold every other character once, in order |
| `LineSplitter.Resume` | backend/api/ScreenShareAPI.cpp:721-737 | The open line is all that has to be remembered |
| `LineSplitter.ChunksDoNotMatter` | backend/api/ScreenShareAPI.cpp:708-737 | While open line and chunk fit the buffer, any chunking gives the lines and open line of the whole text |
| `LineSplitter.SameTextSameLines` | backend/api/ScreenShareAPI.cpp:708-737 | Two chunkings of the same text agree |
| `LineSplitter.BufferIsBounded` | backend/api/ScreenShareAPI.cpp:715-719 | The open line never exceeds 32768 characters |
| `LineSplitter.OverflowCutsOneLine` | backend/api/ScreenShareAPI.cpp:716-719 | On overflow exactly the lines completed in the dropped text are lost and one line loses its beginning |
| `LineSplitter.OpenLineCompletes` | backend/api/ScreenShareAPI.cpp:723-728 | An open line changes what follows only in its first line, which it completes |
| `LineSplitter.OneCharacter` | backend/api/ScreenShareAPI.cpp:721-735 | A line ends at a carriage return or a line feed and at nothing else; what is empty is no line |
| `LineSplitter.BreaksInARow` | backend/api/ScreenShareAPI.cpp:721-735 | Both kinds of break in a row end one line |
| `LineSplitter.ChunkIsRead` | backend/api/ScreenShareAPI.cpp:714-736 | A chunk is read behind the open line; of more than 32768 characters together only the last 32768 are |
| `DiagnosticHistory.DiagnosticHistory.constructor` | backend/media/DiagnosticHistory.h:31-32 | A limit of at least one, and at most sixteen or a quarter of it for the startup records |
| `DiagnosticHistory.DiagnosticHistory.AddLocked` | backend/media/DiagnosticHistory.h:55-65 | The history grows by the stamped record; records, omitted count, first failure and cache stay those of the whole history |
| `DiagnosticHistory.DiagnosticHistory.HasFailure` | backend/media/DiagnosticHistory.h:57-62 | The loop over the labels finds a failing one exactly when there is one |
| `DiagnosticHistory.DiagnosticHistory.TryAdd` | backend/media/DiagnosticHistory.h:38-42 | Adds when the lock is free, else changes nothing |
| `DiagnosticHistory.DiagnosticHistory.Read` | backend/media/DiagnosticHistory.h:49-53 | Shows what is retained of the whole history, cached or not, and changes nothing in it |
| `DiagnosticHistory.RetainedGrows` | backend/media/DiagnosticHistory.h:63-64 | Erasing after the startup records and appending is what retention of one record more means |
| `DiagnosticHistory.EndsAreKept` | backend/media/DiagnosticHistory.h:63-64 | The startup records and the latest ones are always retained |
| `DiagnosticHistory.RetainedIsSplice` | backend/media/DiagnosticHistory.h:63-64 | Nothing is reordered: one stretch is missing, as long as the omitted count |
| `DiagnosticHistory.FirstFailureIsFirst` | backend/media/DiagnosticHistory.h:57-62 | The first failure is the first failing record of the whole history, retained or not |
| `DiagnosticHistory.FirstFailureIsFinal` | backend/media/DiagnosticHistory.h:57-57 | Once seen it never changes |
| `DiagnosticHistory.DiagnosticHistory.Add` | backend/media/DiagnosticHistory.h:34-37 | Adds a record |
| `DiagnosticHistory.FailsExactly` | backend/media/DiagnosticHistory.h:57-62 | A record fails exactly when its state is failed or its event mentions one of the three words |
| `DiagnosticHistory.KeepsStartAndEnd` | backend/media/DiagnosticHistory.h:31-64 | With startup records the first quarter of the limit, up to sixteen, is never given up, and the latest three quarters are there; without them the latest of the whole limit |
| `PresentationRecovery.PresentationRecovery.Present` | backend/render/PresentationRecovery.h:16-37 | New state, result, and whether render and reset were called |
| `PresentationRecovery.RecoveriesAreBounded` | backend/render/PresentationRecovery.h:16-37 | In every run at most three recoveries, and three more for every thirty fresh frames presented |
| `PresentationRecovery.NoRenderSoonAfter` | backend/render/PresentationRecovery.h:18-34 | No render within 250 ms of a recovery, whatever the clock does |
| `PresentationRecovery.WhenItEnds` | backend/render/PresentationRecovery.h:25-36 | Recovery ends exactly at the fourth loss without renewal; any other failure leaves the policy as it was |
| `PresentationRecovery.FourLosses` | backend/render/PresentationRecovery.h:32-34 | Three losses in a row are recovered from, the fourth is the end |
| `PresentationRecovery.StepPays` | backend/render/PresentationRecovery.h:20-35 | Every presentation keeps recoveries paid for by renewals |
| `PresentationRecovery.RunBacksOff` | backend/render/PresentationRecovery.h:18-34 | Every recovery is followed by its back-off |
| `PresentationRecovery.LossIsRecovered` | backend/render/PresentationRecovery.h:25-37 | The four device losses, by name, are recovered from three times, a quarter of a second apart; every other error is passed on and changes nothing |
| `PresentationRecovery.WhenRendered` | backend/render/PresentationRecovery.h:17-19 | The callback is called by every attempt except during the quarter of a second after the latest recovery and after the end |
| `PresentationRecovery.ThirtyFramesRenew` | backend/render/PresentationRecovery.h:20-24 | Thirty fresh frames presented in a row give all attempts back |
| `FramePresentation.FramePresentationSession.Run` | backend/render/FramePresentationBackend.h:50-97 | New session and result around the recovery policy, with the calls made on factory and backend |
| `FramePresentation.FramePresentationSession.Attempt` | backend/render/FramePresentationBackend.h:55-71 | The policy is asked once; the callback runs if it renders, and a recoverable failure resets the backend |
| `FramePresentation.FramePresentationSession.Note` | backend/render/FramePresentationBackend.h:72-84 | The outcome of a frame and its drop counter |
| `FramePresentation.FramePresentationSession.GiveUp` | backend/render/FramePresentationBackend.h:89-96 | Resets the backend and gives the session up |
| `FramePresentation.FramePresentationSession.Invoke` | backend/render/FramePresentationBackend.h:55-69 | The guarded callback: makes the backend if needed, operates it, and notes what was thrown |
| `FramePresentation.FramePresentationSession.Release` | backend/render/FramePresentationBackend.h:47-47 | Gives up the backend only |
| `FramePresentation.PlayedAgrees` | backend/render/FramePresentationBackend.h:50-97 | In every session the policy is that of its attempts since the last clear, and the statistics agree |
| `FramePresentation.SessionRecoveriesAreBounded` | backend/render/FramePresentationBackend.h:50-97 | The recovery bound for whole sessions; updates do not renew the budget |
| `FramePresentation.NothingSoonAfterRecovery` | backend/render/FramePresentationBackend.h:55-71 | The backend is not made or operated within 250 ms of a recovery |
| `FramePresentation.SilentUntilCleared` | backend/render/FramePresentationBackend.h:51-95 | A session that has given up calls nothing and changes nothing until it is cleared |
| `FramePresentation.WhenSessionsEnd` | backend/render/FramePresentationBackend.h:89-96 | A session gives up exactly when recovery is exhausted or a failure is not one of the four device losses |
| `FramePresentation.EveryFrameIsAccountedFor` | backend/render/FramePresentationBackend.h:72-84 | A frame on a live session is shown, dropped and counted once, failed and counted once, or carries the backend's verdict |
| `FramePresentation.RunCalls` | backend/render/FramePresentationBackend.h:50-97 | Factory and backend are called only when the policy renders |
| `FramePresentation.RunPolicy` | backend/render/FramePresentationBackend.h:54-71 | A live session asks its policy exactly once per call |
| `FramePresentation.FrameIsShown` | backend/render/FramePresentationBackend.h:50-88 | A live session makes its backend if need be and shows the frame, or counts one drop of the kind the backend names |
| `FramePresentation.FailureIsHandled` | backend/render/FramePresentationBackend.h:55-97 | A device loss is reset and counted, any other error or a fourth loss ends the session; the calls made, in order |
| `FramePresentation.ExceptionIsHandled` | backend/render/FramePresentationBackend.h:55-97 | Any other exception, and a factory that makes nothing, ends the session with a general error |
| `FramePresentation.BackoffDrops` | backend/render/FramePresentationBackend.h:72-78 | During the back-off a frame costs one drop and calls nothing |
| `FramePresentation.FramePresentationSession.Clear` | backend/render/FramePresentationBackend.cpp:72-81 | Starts the policy anew and keeps the error and drop counts |
| `ReceiverTelemetry.EncodeReceiverTelemetry` | backend/media/ReceiverTelemetry.h:25-45 | Writes the packet of the lowest version that holds the fields, or nothing |
| `ReceiverTelemetry.DecodeReceiverTelemetry` | backend/media/ReceiverTelemetry.h:46-74 | Reads a packet with the moving cursor and every check |
| `ReceiverTelemetry.DecodeEncode` | backend/media/ReceiverTelemetry.h:17-74 | Decoding the encoding of a message gives it back in all three versions; a message with an invalid observation, an empty or long connection or no sequence gives no packet |
| `ReceiverTelemetry.EncodeDecode` | backend/media/ReceiverTelemetry.h:25-74 | An accepted packet is re-encoded byte for byte, except a version 2 packet without extended fields, which becomes its version 1 form |
| `ReceiverTelemetry.SameBytesExactly` | backend/media/ReceiverTelemetry.h:28-31 | The same bytes come back if and only if it is not that packet |
| `ReceiverTelemetry.Version1SaysTheSame` | backend/media/ReceiverTelemetry.h:28-31 | And that packet says the same as its version 1 form |
| `ReceiverTelemetry.ReceiverTelemetryInbox.Bind` | backend/media/ReceiverTelemetry.h:80-83 | A new connection starts afresh, the same one changes nothing |
| `ReceiverTelemetry.ReceiverTelemetryInbox.Receive` | backend/media/ReceiverTelemetry.h:84-91 | Counts the attempt in its window, then validates, then advances; four per window |
| `ReceiverTelemetry.ReceiverTelemetryInbox.Read` | backend/media/ReceiverTelemetry.h:92-96 | Shows the value while fresh, with its age |
| `TelemetryInbox.StoredIsGreatest` | backend/media/ReceiverTelemetry.h:84-91 | Accepted sequence numbers increase, and what is stored came with the greatest |
| `TelemetryInbox.RejectionRenewsNothing` | backend/media/ReceiverTelemetry.h:86-89 | A rejected packet renews neither value nor freshness |
| `TelemetryInbox.ShownWhileFresh` | backend/media/ReceiverTelemetry.h:92-96 | An observation is shown exactly while the latest acceptance is less than three seconds old |
| `TelemetryInbox.RateIsBounded` | backend/media/ReceiverTelemetry.h:86-87 | In every run with nondecreasing time, of any 2·cap + 1 acceptances the last comes at least a second after the first |
| `TelemetryInbox.RunOrders` | backend/media/ReceiverTelemetry.h:84-91 | Every run keeps the order of sequence numbers |
| `TelemetryInbox.RunWindows` | backend/media/ReceiverTelemetry.h:86-87 | Every run keeps the windows: all but the latest few acceptances came before the window opened, all but the cap more a window earlier |
| `ReceiverTelemetry.EncodedBlocks` | backend/media/ReceiverTelemetry.h:28-43 | Where each block of an encoded message stands |
| `ReceiverTelemetry.Repack` | backend/media/ReceiverTelemetry.h:47-71 | A framed packet is its blocks in order |
| `ReceiverTelemetry.FourAreHeard` | backend/media/ReceiverTelemetry.h:84-91 | A well-formed packet for the bound connection with a new sequence number is accepted while fewer than four packets came within the second before it |
| `ReceiverTelemetry.AtMostEightASecond` | backend/media/ReceiverTelemetry.h:84-91 | No second sees more than eight accepted |
| `ReceiverTelemetry.WireFormat` | backend/media/ReceiverTelemetry.h:25-45 | A packet is written exactly for the observations within bounds, and where each byte and field of it stands |
| `ReceiverTelemetry.ExtendedFormat` | backend/media/ReceiverTelemetry.h:35-44 | Where the fields of versions 2 and 3 stand |
| `TelemetryInbox.QuietIsHeard` | backend/media/ReceiverTelemetry.h:84-91 | A packet is accepted exactly when it decodes, is for the bound connection and is newer than all accepted, unless as many packets as the cap came within the second before it |
| `HostShareTelemetry.EncodeHostShare` | backend/media/HostShareTelemetry.h:19-26 | Writes the packet, or nothing |
| `HostShareTelemetry.DecodeHostShare` | backend/media/HostShareTelemetry.h:27-36 | Reads a packet with every check |
| `HostShareTelemetry.DecodeEncode` | backend/media/HostShareTelemetry.h:19-36 | Decoding the encoding of a message gives it back |
| `HostShareTelemetry.EncodeDecode` | backend/media/HostShareTelemetry.h:19-36 | An accepted packet is re-encoded byte for byte |
| `HostShareTelemetry.HostShareInbox.Bind` | backend/media/HostShareTelemetry.h:42-45 | A new connection starts afresh, the same one changes nothing |
| `HostShareTelemetry.HostShareInbox.Receive` | backend/media/HostShareTelemetry.h:46-53 | Counts the attempt in its window, then validates, then advances; eight per window |
| `HostShareTelemetry.HostShareInbox.Read` | backend/media/HostShareTelemetry.h:54-58 | Shows the state while its lease runs, with its age |
| `HostShareTelemetry.EightAreHeard` | backend/media/HostShareTelemetry.h:46-53 | The same for the share state, with eight packets |
| `HostShareTelemetry.AtMostSixteenASecond` | backend/media/HostShareTelemetry.h:46-53 | No second sees more than sixteen accepted |
| `HostShareTelemetry.WireFormat` | backend/media/HostShareTelemetry.h:19-26 | A packet is written exactly for a connection of 1 to 128 bytes and a sequence above zero, and where each byte and field of it stands |
| `Nv12Crop.TryReadVideoArea` | backend/codec/H264StreamDecoder.cpp:91-131 | Accepts exactly the even, whole-numbered, nonempty areas inside the coded frame |
| `Nv12Crop.SelectVisibleFrameArea` | backend/codec/H264StreamDecoder.cpp:133-146 | The first aperture that is there decides |
| `Nv12Crop.SelectedIsVisible` | backend/codec/H264StreamDecoder.cpp:133-146 | Whatever is selected can be cropped |
| `Nv12Crop.CopyRows` | backend/codec/H264StreamDecoder.cpp:163-188 | The row loop writes exactly those rows, one after the other, and nothing before them |
| `Nv12Crop.CopyVisibleNv12` | backend/codec/H264StreamDecoder.cpp:148-189 | The two plane loops give the crop, or nothing when the buffer is too short |
| `Nv12Crop.CropIsExact` | backend/codec/H264StreamDecoder.cpp:163-188 | Each luma and chroma byte of the crop is the coded byte at the shifted position, inside the frame |
| `Nv12Crop.CropOfCrop` | backend/codec/H264StreamDecoder.cpp:148-189 | Cropping a crop is one crop at the summed offset |
| `Nv12Crop.WholeCropIsFrame` | backend/codec/H264StreamDecoder.cpp:148-189 | Cropping to the whole frame is the frame |
| `Nv12Crop.CopyRow` | backend/codec/H264StreamDecoder.cpp:163-171 | One row is copied and nothing else changes |
| `Nv12Crop.CropFits` | backend/codec/H264StreamDecoder.cpp:150-161 | All rows of an accepted area lie inside the coded frame, in both planes |
| `Nv12Crop.RowsAt` | backend/codec/H264StreamDecoder.cpp:163-188 | Column and row of each copied byte |
| `Nv12Crop.RowsOfRows` | backend/codec/H264StreamDecoder.cpp:163-188 | Rows of rows are rows of the original |
| `Nv12Crop.AcceptedExactly` | backend/codec/H264StreamDecoder.cpp:91-131 | An aperture is accepted exactly when its offsets are whole and not negative, its extent positive, all four even, and its end inside the coded frame |
| `Nv12Crop.FirstApertureDecides` | backend/codec/H264StreamDecoder.cpp:133-146 | The first aperture that is there decides alone; with none the whole frame is the area |

## Left out

- Windows, D3D, Media Foundation, WASAPI, WinRT, HID and ViGEm calls: foreign code. Their results are arguments.
- Mutexes, condition variables and thread wake-ups: each locked section is one step. A command runs as one step;
  a submission during it reads only the published generation, so it falls before or after it
  (`SessionRuns.AnnouncedGeneration`).
- `CaptureDistributor` and `CaptureSession`: a set of subscriptions and a reported state. The statistics and
  source details of host snapshots are not modelled.
- HostPeerRegistry.HostPeerRegistry.StopAgain: the wait for the answer is not a step. `StopAgain` is what comes before it
  and `FinishStop` what comes after; the exception of an unfinished shutdown is the answer `FinishStop` gives.
- HostPeerRegistry.HostPeerRegistry.Tick: the polls' and restarts' answers are fixed for one tick, and the capture
  worker does not run between two rows of it; in `HostRuns.Act` each row is a step of its own, so the theorems about
  runs cover that interleaving.
- PeerLifecycle.PeerConnectionLifecycle.constructor: the registry holds policies as values by peer handle, so two
  handles sharing one lifecycle object are not modelled.
- SessionProgress.AddIsAnswered: starts from an idle worker with nothing waiting, which the worker reaches after as many
  rounds as commands wait (`SessionProgress.QueueDrains`); the same holds for the other commands.
- HostProgress.RemovalCompletes: for an idle session and a turn without a foreign exception. With any other answer
  `HostProgress.UnsettledIsRetried` applies, and the removal is tried as often as it takes.
- HostProgress.RowCloses: an open row waits for no answer, which is part of what `HostSafety.RunSafe` keeps.
- TelemetryInbox.QuietIsHeard: says who is heard while fewer packets than the cap came within the last second. Beyond
  that it depends on when the window opened (`TelemetryInbox.RunWindows`). The clock is not negative.
- HostSafety.RowGoneForGood: says nothing without a bound capture session, where no subscriptions exist.
- RoomPeerRoster.RoomPeerRoster.Apply: an id's readiness and the result of adding it are fixed for one call; hooks that
  throw count as failed additions, and hooks do not reenter. Ids are visited in an arbitrary order, the source's is
  ascending; each id's own calls are exact.
- RoomPeerRoster.RoomPeerRoster.RetryPending: the same holds for the order of the pending ids.
- InputQueue.CoalescingReplays: positions are the latest move event; summed relative motion is the subject of
  `InputQueue.MotionIsAccountedFor`, without rounding. Pad states are compared at the end, not at every discrete event.
- LineSplitter.LogReader.HandleOutput: the log line notification and what is done with each line are not modelled.
- DiagnosticHistory.DiagnosticHistory.Read: sharing of the cached vector between snapshots; its contents are modelled.
- FramePresentation.FramePresentationSession.Run: the window, size and scale arguments that are passed through.
- Machine widths of counters that only grow: operation numbers, generations, revisions, omitted records, recoveries.
- Floating point: positions are reals, stored and compared; only the statements about motion add them, without rounding.
- The point lookup of a frame mapping, the option parsing, command building, log scraping, audio, viewport, shaders,
  windows and measurement scripts.
- Small members such as the ICE candidate hand-off, the GPU submission queue, backend choice and decoder latency
  settings, which would only add easy claims.
