# C-Bus bridge: verified model

A Dafny 4.11 model of the parts of the C-Bus to MQTT bridge where a mistake is hardest to see, with proofs of what
they promise. `dafny verify dfyconfig.toml` checks all of it. The files, by subject:

- **Flow control** (`FlowControl`, `FlowDriver`, `FlowSafety`, `FlowOutcomes`, `FlowEstimates`, `FlowProgress`): the
  ack-clocked sliding window in front of the PCI. `FlowControl` has the controller's transitions as functions and the
  class that performs them in place. `FlowDriver` has the three lanes and the loop, as a step relation and as a class
  whose `Loop` is proved to follow it and to handle all it receives. The other four files prove what holds of every
  run: bounds and conservation of slots, spacing of writes, pauses, lane order, which response released which slot,
  how long each was held, the exact laws of window growth and collapse, the latency estimate, and progress.
- **Wire format** (`Hex`, `Checksum`, `StatusReports`, `Cals`, `Sals`, `Packets`, `Decoder`, `RoundTrip`): encoders
  and decoder of the Rust crate, and the round trip over the wire for every packet it has room for.
- **Framing** (`Streams`, `Framing`, `Lines`): the bounded receive buffer. `Streams` is about any prefix-stable decoder
  and knows nothing of the format; `Framing` shows the decoder to be one; `Lines` says on the bytes which streams may
  be cut anywhere, and that whole conversations arrive as they were sent.
- **Confirmation codes** (`Dicts`, `Confirmations`, `Retransmits`, `SweepTasks`, `SweepRuns`, `SweepFrames`): the pool
  of twenty codes of the Python client and the sweep that writes unconfirmed frames again; with sweeps as one step, and
  with every locked section of every task a step of its own. `SweepRuns` is about the counter of attempts,
  `SweepFrames` about the frames that go out.
- **Firmware** (`CProtocol`, `Bridge`, `Firmware`, `DecodersAgree`, `LightsAgree`): the C parser and encoders, the PCI
  emulation, the ring queue, and the agreement of firmware and Rust crate in what they send and read.
- **MQTT** (`Gateway`, `Topics`): the index of announced lights, what is published for each bus event, and the topic
  names.

The theorems about flow control hold for every configuration that is `Sane`, which the code does not check; the
defaults are.

Code that changes things in place is a class or a loop here as well, and each such method is proved to do what a
function on values says; the lemmas are about those functions. Bytes are integers below 256, masks and shifts are
division and remainder. Times are real seconds and are passed in. Ring counters, the firmware's millisecond clock and
its statistics wrap around as they do there.

Where the code and its own comments disagree, the model follows the code:

- A bare CAL sent to the server is reported with the length of its line plus that of the CAL
  (`rust/cbus-protocol/src/decode.rs:259-262`), so it takes bytes of the line behind it. `Lines.ServerMayBeCutIff`
  proves that cuts of a server stream are invisible exactly when nothing stands behind a bare CAL line, and
  `Framing.BareCalSwallows` that it can; the lines a client sends for packets never are bare CALs.
- The C parser of PCI responses has a branch for two-byte confirmations that its own length test makes unreachable
  (`esp32-firmware/src/cbus_protocol.c:143-151`): `CProtocol.ShortResponsesAreRefused`.
- The C encoder of level reports overwrites the last of its 32 levels with the checksum
  (`esp32-firmware/src/cbus_protocol.c:437-439`); `Bridge.GroupIsReportedIff` says which groups an answer tells.
- The C parser removes a last byte that happens to make the sum zero even from a frame sent without a checksum; see
  `DecodersAgree.UncheckedReportsReadAlikeIff` for exactly when that loses the report.
- The C parser ignores the byte of a reply that says whether it holds states or levels
  (`esp32-firmware/src/cbus_protocol.c:198-243`), so it takes binary reports for levels:
  `LightsAgree.TakenForLevelsIff`, `LightsAgree.BinaryReportIsMisread`.
- The limit of three (`python-legacy/cbus/constants.py:22-23`), there a number of repetitions, counts the first write as
  well. Each protocol object as the program uses it, one object for each connection, keeps its counter of attempts to
  three: `SweepTasks.ProgramKeepsTheLimit`. It rests on that use, for `connection_made` starts a sweep task and cancels
  none: on an object that gets the call n times, exactly the attempts up to 2 + n can be reached
  (`SweepRuns.AttemptsAttainedIff`).
- The frames themselves keep to that limit under a condition only, for the sweep stores the frame it has listed over
  whatever is pending under its code by then (`python-legacy/cbus/protocol/pciprotocol.py:356-358`). A frame is written
  again at most twice (`SweepFrames.ProgramFramesAreLimited`) as long as its code is given to other frames only while no
  task lists it. Given away while one does, the new frame's entry may be replaced by the old frame, and the old frame
  be written more often than it was held; given away while none does, neither can happen
  (`SweepFrames.EntryKeepsItsDataIff`, `SweepFrames.ReuseKeepsBoundIff`). `SweepFrames.FourthWrite` is a run with one
  task in which a frame sent once goes out four times, the counter never above three.
- The sweep writes a frame again even if its confirmation came between listing and writing
  (`python-legacy/cbus/protocol/pciprotocol.py:353-362`). `SweepFrames.ConfirmedIsWrittenAgainIffHeld` says exactly
  when, and `SweepFrames.ConfirmedFrameIsWritten` shows that it happens.

## Model

| member | source | states |
|---|---|---|
| FlowControl.GateIsExact | rust/cbus-transport/src/flow.rs:218-234 | a frame is held back for a full window (only if it is windowed), the floor or a pause, for nothing else, and to the first instant that satisfies floor and pause |
| FlowControl.DefaultIsSane | rust/cbus-transport/src/flow.rs:71-92 | the default settings have what the theorems ask of a configuration: ordered window bounds from 1 up, ordered timeouts, limits of at least 1, weights in [0, 1] |
| FlowControl.ReadyAt | rust/cbus-transport/src/flow.rs:222-228 | never before now, the end of a pause, or the floor after the last write |
| FlowControl.Rto | rust/cbus-transport/src/flow.rs:209-214 | the response timeout lies between its two limits |
| FlowControl.NextDeadline | rust/cbus-transport/src/flow.rs:342-344 | the least deadline of the slots held, absent exactly when none is held |
| FlowControl.FirstMatch | rust/cbus-transport/src/flow.rs:286-288 | the first slot a response matches, absent exactly when none does |
| FlowControl.ExpirySplits | rust/cbus-transport/src/flow.rs:258-274 | expiry splits the slots, losing none: exactly those past their deadline go |
| FlowControl.LiveIsSorted | rust/cbus-transport/src/flow.rs:258-274 | the slots that stay keep their order of sending |
| FlowControl.AckReleasesOldestMatch | rust/cbus-transport/src/flow.rs:283-289 | an ack releases one slot, the oldest of all it matches, and keeps every other one in order |
| FlowControl.AckReleasesItsKind | rust/cbus-transport/src/flow.rs:138-150 | a confirmation releases the first slot that waits for its code, a report the first that waits for its application, block and level; nothing changes exactly when no slot waits for it |
| FlowControl.FlowState.constructor | rust/cbus-transport/src/flow.rs:193-206 | the initial state of the controller |
| FlowControl.FlowState.GateNow | rust/cbus-transport/src/flow.rs:218-234 | decides as the gate function does, whose exactness is `GateIsExact` |
| FlowControl.FlowState.RecordSend | rust/cbus-transport/src/flow.rs:238-249 | takes a slot with the hold of its kind and restarts the floor |
| FlowControl.FlowState.RecordRawSend | rust/cbus-transport/src/flow.rs:252-254 | restarts the floor and changes nothing else |
| FlowControl.FlowState.Expire | rust/cbus-transport/src/flow.rs:258-281 | the round per timeout comes to one transition: all timeouts count, and the window collapses if the count reaches the limit |
| FlowControl.FlowState.Retain | rust/cbus-transport/src/flow.rs:258-274 | one pass keeps the live slots in order and counts the dead ones still owed a response |
| FlowControl.FlowState.OnAck | rust/cbus-transport/src/flow.rs:285-314 | performs the ack transition and reports whether a slot was released |
| FlowControl.FlowState.OnPciError | rust/cbus-transport/src/flow.rs:317-321 | extends the pause, never shortens it, and collapses the window |
| FlowControl.FlowState.CollapseWindow | rust/cbus-transport/src/flow.rs:323-339 | ends the clean run; the window goes to its minimum, marked collapsed only if it was above |
| FlowControl.FlowState.EarliestDeadline | rust/cbus-transport/src/flow.rs:342-344 | the loop finds the least deadline |
| FlowDriver.Lanes.Front | rust/cbus-transport/src/flow.rs:529-540 | a lane with work is served if there is any; commands only when no retransmit waits, background only when neither does |
| FlowDriver.Driver.Enqueue | rust/cbus-transport/src/flow.rs:472-485 | a job joins the end of its own lane |
| FlowDriver.Driver.OnFeedback | rust/cbus-transport/src/flow.rs:510-517 | an ack or a `!` makes the controller's transition and leaves the lanes alone |
| FlowDriver.Driver.TakeTurn | rust/cbus-transport/src/flow.rs:523-567 | expires, then writes the front frame if the gate is open, else says how long to sleep |
| FlowDriver.Driver.Transmit | rust/cbus-transport/src/flow.rs:534-557 | the front frame leaves its lane; a successful write takes a slot or restarts the floor, a failed one does neither |
| FlowDriver.Driver.TakeRound | rust/cbus-transport/src/flow.rs:506-580 | one round of the loop is feedback, jobs, the turn, and what ended its sleep if the turn slept; the plan returned is what the turn came to |
| FlowDriver.Driver.Loop | rust/cbus-transport/src/flow.rs:487-582 | up to the round that drops its handle the whole loop is a run of the step relation, so all that is proved of runs holds of it; the jobs submitted are exactly those received, and so are the responses and `!` handled, in order |
| FlowDriver.AllIsHandled | rust/cbus-transport/src/flow.rs:502-580 | over every script, what rounds handle is what they received: each round's own jobs and then the one that ended its sleep, if it slept and one did; likewise for responses and `!`; each once and in order |
| FlowDriver.RoundIsInOrder | rust/cbus-transport/src/flow.rs:506-580 | within a round feedback comes first, then the jobs in order, then the turn, and last what ended its sleep; all after the rounds before it |
| FlowDriver.LoopHandlesAll | rust/cbus-transport/src/flow.rs:487-582 | so a run over rounds and plans logs, submits and answers just what was received |
| FlowSafety.StepIsSafe | rust/cbus-transport/src/flow.rs:218-339 | every action keeps the whole invariant: window bounds, slots, conservation, spacing, pauses, lane order and rank, estimate |
| FlowSafety.AckIsSafe | rust/cbus-transport/src/flow.rs:285-314 | an ack keeps the invariant |
| FlowSafety.ErrorIsSafe | rust/cbus-transport/src/flow.rs:317-339 | a `!` keeps it |
| FlowSafety.SubmitIsSafe | rust/cbus-transport/src/flow.rs:472-485 | a submission keeps it |
| FlowSafety.ExpireIsSafe | rust/cbus-transport/src/flow.rs:258-281 | expiry keeps it |
| FlowSafety.WriteIsSafe | rust/cbus-transport/src/flow.rs:534-557 | a write the gate allows keeps it, however it ends |
| FlowSafety.ReachableIsSafe | rust/cbus-transport/src/flow.rs:487-582 | in every reachable state: the window is within its bounds; below the maximum the clean run is below the growth limit; at the timeout limit, or once collapsed, the window is the minimum; windowed frames are taken only with room; and the rest of the invariant |
| FlowSafety.SlotsAreConserved | rust/cbus-transport/src/flow.rs:238-314 | windowed writes are acks, expiries and slots held, at most the largest window; a silent slot is held for exactly its time, any other between the two limits of the response timeout |
| FlowSafety.LanesAreFifo | rust/cbus-transport/src/flow.rs:472-485 | for each lane, what was submitted is what was taken off it followed by what waits: nothing is lost, duplicated or reordered |
| FlowSafety.HigherLanesGoFirst | rust/cbus-transport/src/flow.rs:527-556 | when a frame is taken, all that was submitted by then on a higher lane has been taken |
| FlowSafety.WritesAreApart | rust/cbus-transport/src/flow.rs:226-228 | any two successful writes, windowed or not, are at least the floor apart |
| FlowSafety.RateIsBounded | rust/cbus-transport/src/flow.rs:20-22 | every interval holds at most its length over the floor, plus one, successful writes |
| FlowSafety.ErrorsPauseAllWrites | rust/cbus-transport/src/flow.rs:317-321 | after a `!` no write, retransmits included, starts before the pause is over |
| FlowSafety.PauseNeverShrinks | rust/cbus-transport/src/flow.rs:317-321 | over any run the end of the pause never moves backwards |
| FlowOutcomes.WindowIsFold | rust/cbus-transport/src/flow.rs:258-339 | in every reachable state window, clean run, timeout count and mark of a collapse are what the outcomes so far, answered, timed out or refused, give one at a time, in whatever batches slots expired |
| FlowOutcomes.AckedWereWaiting | rust/cbus-transport/src/flow.rs:138-150 | over every run, each slot that was acked waited for exactly its response, with that code, or that application, block and level, so no silent one was acked; its sample is the time from write to response |
| FlowOutcomes.SlotsAreHeldForTheTimeout | rust/cbus-transport/src/flow.rs:209-249 | over every run, the slot of the i-th windowed write is held for the factor times the latency estimated from the responses by then, brought between the two limits; a silent one for its fixed time |
| FlowOutcomes.CollapsedIffAtMinimum | rust/cbus-transport/src/flow.rs:296-339 | with an initial window above the minimum, the mark of a collapse is set exactly while the window is at its minimum |
| FlowOutcomes.UrgentGoesFirst | rust/cbus-transport/src/flow.rs:472-485 | when a frame is taken, every retransmit submitted by then, if it is none itself, and every command, if it is background traffic, has been taken |
| FlowOutcomes.HistoryIsFaithful | rust/cbus-transport/src/flow.rs:523-567 | the history these theorems speak of leaves out nothing: its writes are all attempts that succeeded, its errors all `!` handled, and each attempt is what a turn did |
| FlowEstimates.AimdLaw | rust/cbus-transport/src/flow.rs:285-314 | with no timeout and no `!`, k acks from window w and clean run c give exactly the lesser of the maximum and w + (c + k) / growth limit, over any interleaving with submissions, writes and silent expiries |
| FlowEstimates.CollapseLaw | rust/cbus-transport/src/flow.rs:258-281 | with no releasing ack and no `!`, k response timeouts add k to the count, and the window collapses exactly when the count reaches the limit |
| FlowEstimates.ErrorCollapses | rust/cbus-transport/src/flow.rs:317-339 | in every reachable state a `!` takes the window to its minimum, keeps the slots, and pauses for the full time |
| FlowEstimates.EstimateIsFold | rust/cbus-transport/src/flow.rs:291-294 | latency and deviation are folds over the latencies of the acks so far, the deviation with the estimate from before each sample |
| FlowEstimates.EstimateStaysWithin | rust/cbus-transport/src/flow.rs:209-214 | with seed and samples within an interval the estimate stays there, the deviation between 0 and its length, and the response timeout within what the ends would give |
| FlowEstimates.EstimateConverges | rust/cbus-transport/src/flow.rs:294 | k equal latencies bring the estimate to that value by exactly the k-th power of one minus the weight |
| FlowProgress.WakesForAReason | rust/cbus-transport/src/flow.rs:542-567 | with work queued, a sleep ends strictly later, when a held slot falls due or when floor and pause let the front frame go |
| FlowProgress.WakesAtTheFirst | rust/cbus-transport/src/flow.rs:524-567 | and at the first of these instants |
| FlowProgress.IdleSleeps | rust/cbus-transport/src/flow.rs:470-567 | with nothing queued it sleeps until the first slot falls due, an hour if none is held |
| FlowProgress.SleepIsBounded | rust/cbus-transport/src/flow.rs:470-567 | with work queued, a sleep is at most the longest hold, pause or floor, so never the idle horizon |
| FlowProgress.VainStepCostsPatience | rust/cbus-transport/src/flow.rs:258-274 | the measure behind progress: every wake-up that writes nothing costs a slot, whatever acks and submissions come between |
| FlowProgress.ProgressIsMade | rust/cbus-transport/src/flow.rs:498-581 | with work queued and n slots held, no `!` arriving, one of the next n + 1 wake-ups takes a frame for writing, even if expiries collapse the window on the way |
| Hex.DecodeInvertsEncode | rust/cbus-protocol/src/packet.rs:184-195 | the text of any bytes is all digits and decodes to those bytes |
| Hex.EncodeInvertsDecode | rust/cbus-protocol/src/decode.rs:122-135 | any text that decodes is the text of its bytes |
| Checksum.AcceptedIffSumIsZero | rust/cbus-protocol/src/common.rs:185-190 | a message is accepted exactly when its bytes sum to 0 modulo 256 |
| Checksum.AppendedIsAccepted | rust/cbus-protocol/src/common.rs:177-190 | the appended checksum is accepted, and is the only last byte that is |
| Checksum.OneByteChangeIsRejected | rust/cbus-protocol/src/common.rs:171-190 | changing one byte of an accepted message is always detected |
| Checksum.TwoByteChangeEscapesIffItCancels | rust/cbus-protocol/src/common.rs:171-190 | changing two escapes exactly when the changes cancel modulo 256 |
| Checksum.SumLoopC | esp32-firmware/src/cbus_protocol.c:38-42 | the wrapping byte accumulator holds the sum modulo 256 |
| Checksum.ComputeC | esp32-firmware/src/cbus_protocol.c:38-44 | the C checksum is the Rust one |
| Checksum.VerifyC | esp32-firmware/src/cbus_protocol.c:46-53 | the C check is the Rust one for messages of two bytes or more |
| Checksum.ChecksDifferOnlyOnLoneZero | esp32-firmware/src/cbus_protocol.c:46-53 | the two checks differ on the single message of one zero byte |
| StatusReports.ManchesterRoundTrip | rust/cbus-protocol/src/report.rs:7-35 | a level, or its absence, survives its pair of bytes |
| StatusReports.ManchesterInverts | rust/cbus-protocol/src/report.rs:7-35 | a pair is a level exactly if its nibbles are four of A, 9, 6 and 5, and is the pair of that level |
| StatusReports.LevelsRoundTrip | rust/cbus-protocol/src/report.rs:67-97 | any list of levels survives a level report |
| StatusReports.DecodePairs | rust/cbus-protocol/src/report.rs:67-77 | one level for each pair of bytes, by position |
| StatusReports.UnpackInvertsPack | rust/cbus-protocol/src/report.rs:55-97 | states in whole bytes survive a binary report |
| StatusReports.PackInvertsUnpack | rust/cbus-protocol/src/report.rs:55-97 | every byte string is the binary report of the states it decodes to |
| StatusReports.BinaryRoundTrip | rust/cbus-protocol/src/report.rs:80-97 | states come back padded, so unchanged exactly when they fill whole bytes |
| StatusReports.DecodeBinary | rust/cbus-protocol/src/report.rs:55-64 | the loop pushes the four states of every byte in order |
| Cals.OneRoundTrip | rust/cbus-protocol/src/cal.rs:45-156 | a CAL within the limits of its length fields is read back from the front of any data, and the length reported is its own |
| Cals.OneRoundTripOnlyIfWellFormed | rust/cbus-protocol/src/cal.rs:45-156 | a CAL outside them never comes back as it was |
| Cals.DecodedSpells | rust/cbus-protocol/src/cal.rs:79-156 | what is read, of any bytes, spells the bytes it was read from, up to the bits of a status that say nothing and the pairs that are no level |
| Cals.DecodeOne | rust/cbus-protocol/src/cal.rs:79-156 | a CAL takes at least two bytes and no more than there are, so the loops over CALs end |
| Cals.StreamRoundTripIff | rust/cbus-protocol/src/decode.rs:354-360 | a list of CALs survives the wire exactly when each is within the limits |
| Cals.CollectCals | rust/cbus-protocol/src/decode.rs:354-360 | the loop collects what the recursive decoder gives, errors included |
| Cals.AppendCals | rust/cbus-protocol/src/packet.rs:172-176 | the loop appends the CALs in order |
| Sals.RateCodes | rust/cbus-protocol/src/common.rs:149-154 | the codes of the ramp table are those that are 2 modulo 8 up to 0x7A |
| Sals.RampDurationRoundTrip | rust/cbus-protocol/src/common.rs:118-154 | a duration survives snapping to a rate exactly when it is in the table |
| Sals.RateRoundTrip | rust/cbus-protocol/src/common.rs:139-154 | a rate survives by way of its duration |
| Sals.RampIsRoundedUp | rust/cbus-protocol/src/common.rs:136-146 | a duration is rounded up to the least tabulated one that is not below it, beyond seventeen minutes to seventeen |
| Sals.OneRoundTrip | rust/cbus-protocol/src/sal/mod.rs:117-196 | a representable message is read off the front of any data, which is then decoded as it would be alone |
| Sals.ClockRoundTrip | rust/cbus-protocol/src/sal/clock.rs:14-105 | so are clock messages, among the others of their stream |
| Sals.StreamRoundTrip | rust/cbus-protocol/src/sal/mod.rs:117-213 | a list of representable messages of one application survives |
| Sals.OnlyRepresentableRoundTrips | rust/cbus-protocol/src/sal/mod.rs:117-213 | a message that is not representable fails to encode or comes back changed |
| Sals.EncodingLimits | rust/cbus-protocol/src/sal/mod.rs:117-196 | which messages cannot be encoded, and what becomes of the others that are not representable: a temperature is rounded down to a quarter, a group to the start of its block |
| Sals.LightingIsMaximal | rust/cbus-protocol/src/sal/lighting.rs:9-54 | lighting messages are read up to the first bytes that are none; encoded, they are the bytes before these |
| Sals.ClockVariablesPassedOver | rust/cbus-protocol/src/sal/clock.rs:14-105 | a clock variable of another length, or of an unknown number, is passed over as far as its header says |
| Sals.BadClockValues | rust/cbus-protocol/src/sal/clock.rs:14-105 | a time or date that does not exist makes the frame invalid |
| Sals.WeekdaysFollow | rust/cbus-protocol/src/sal/mod.rs:142-156 | the weekday sent with a date is right, for every date |
| Sals.ThreeByteMessages | rust/cbus-protocol/src/sal/temperature.rs:7-31 | which three bytes are a temperature or a network variable |
| Sals.StatusRequestBytes | rust/cbus-protocol/src/sal/status_request.rs:8-48 | which bytes are a status request, and which make the frame invalid |
| Sals.DecodedBelong | rust/cbus-protocol/src/sal/mod.rs:199-213 | decoding yields messages of the frame's own application only |
| Sals.AppendSals | rust/cbus-protocol/src/packet.rs:154-160 | the loop appends the messages in order and fails with the first that cannot be encoded |
| Packets.EncodeInto | rust/cbus-protocol/src/packet.rs:129-182 | for every packet, special ones included, the token or the buffer the loops fill is its encoding |
| Packets.AppendPayload | rust/cbus-protocol/src/packet.rs:129-182 | the payload goes behind the header, for each of the three addressed kinds |
| Decoder.DecodePpLoop | rust/cbus-protocol/src/decode.rs:317-368 | the loops over bridge hops and CALs give the point-to-point packet |
| RoundTrip.FromPciRoundTrip | rust/cbus-protocol/src/decode.rs:23-290 | every packet with a source address that the format can carry, encoded, terminated and followed by anything, decodes to itself and reports its own length |
| RoundTrip.ToPciRoundTrip | rust/cbus-protocol/src/decode.rs:94-290 | so does every client packet with its prefix and optional confirmation code; device management also bare, or with `@`, which waives the checksum |
| RoundTrip.PointToPointRoundTripIff | rust/cbus-protocol/src/packet.rs:129-204 | a point-to-point frame comes back exactly when each of its CALs is within the limits |
| RoundTrip.LineToPci | rust/cbus-protocol/src/decode.rs:73-168 | any line of digits towards the PCI, however wrapped and followed, is found and unwrapped |
| RoundTrip.BodyRoundTrip | rust/cbus-protocol/src/decode.rs:171-290 | header fields and payload of the packets that can be encoded are read back from the bytes of the body; `DirectRoundTrip` and `BridgedIff` are about the others |
| RoundTrip.DirectRoundTrip | rust/cbus-protocol/src/decode.rs:184-216 | a list of CALs within the limits, sent by the PCI without flags, comes back as the direct reply it is, whatever follows, with or without checksum, if its first byte has low bits other than 3, 5 and 6 and bit 5 clear |
| RoundTrip.DirectText | rust/cbus-protocol/src/decode.rs:184-216 | a line of digits from the PCI whose bytes start in that way is a direct reply of the CALs they decode to, or invalid |
| RoundTrip.BridgedFromPci | rust/cbus-protocol/src/decode.rs:329-352 | a point-to-point frame behind a bridge and up to five hops, which the encoder does not write, comes back with unit, hops and CALs from the PCI |
| RoundTrip.BridgedToPci | rust/cbus-protocol/src/decode.rs:329-352 | and from a client |
| RoundTrip.BridgedIff | rust/cbus-protocol/src/decode.rs:317-360 | which bytes are a bridged frame, and which one |
| RoundTrip.BridgeCodes | rust/cbus-protocol/src/common.rs:157-167 | the code for k hops is 9 (k + 1), for k up to five, and no other byte is one |
| RoundTrip.TextFromPci | rust/cbus-protocol/src/decode.rs:73-168 | bytes that decode to a packet, in digits, with a checksum if one is due and followed by anything, are a frame of the PCI that gives this packet and takes just its line |
| RoundTrip.TextToPci | rust/cbus-protocol/src/decode.rs:94-168 | and so, behind a backslash and with any confirmation code, of a client |
| RoundTrip.TokensFromPci | rust/cbus-protocol/src/decode.rs:23-60 | which tokens the client takes from the PCI outside a frame, and how many bytes each takes |
| RoundTrip.TokensToPci | rust/cbus-protocol/src/decode.rs:43-90 | and which the server takes |
| RoundTrip.NothingToPci | rust/cbus-protocol/src/decode.rs:43-90 | what a server passes over |
| RoundTrip.DamagedIsRefused | rust/cbus-protocol/src/decode.rs:122-168 | a line that is not whole bytes, or whose bytes do not sum to zero, is one invalid packet on either side |
| RoundTrip.LenientIgnoresChecksum | rust/cbus-protocol/src/decode.rs:136-168 | lenient decoding drops the last byte whatever it is |
| RoundTrip.AcceptedManagement | rust/cbus-protocol/src/decode.rs:230-254 | device management is accepted exactly as parameter, zero and value |
| RoundTrip.AcceptedFrames | rust/cbus-protocol/src/decode.rs:217-315 | which bytes are a multipoint frame, or a point-to-point frame without a bridge, and of which header, unit, application and messages; any other address type is refused |
| RoundTrip.LastCharacterIsCode | rust/cbus-protocol/src/decode.rs:94-120 | the last character of a client line is its confirmation code if it is no digit, refused by a strict decoder if it is none; `@` waives the checksum |
| Streams.BytesAreConserved | rust/cbus-transport/src/framing.rs:70-84 | the raw bytes of the events and the leftover are the stream |
| Streams.RestIsSettled | rust/cbus-transport/src/framing.rs:70-84 | what is left over would not parse further |
| Streams.SplitAnywhere | rust/cbus-transport/src/framing.rs:60-86 | parsing a part, then its leftover with the rest, is parsing the whole, if no frame took bytes beyond its line |
| Streams.ReadingIsParsing | rust/cbus-transport/src/framing.rs:60-86 | so does any sequence of parts |
| Streams.CutsShowIffSwallowed | rust/cbus-transport/src/framing.rs:60-86 | no cut of the data changes what is reported exactly when no frame took bytes beyond its line |
| Framing.DecoderIsStable | rust/cbus-protocol/src/decode.rs:23-168 | once bytes are consumed, bytes that arrive later change nothing |
| Framing.DecoderIsAccountable | rust/cbus-protocol/src/decode.rs:23-290 | only a bare CAL to the server consumes beyond its line, and then at least two bytes; a complete line is never waited on |
| Framing.ClientFeedingIsParsing | rust/cbus-transport/src/framing.rs:60-86 | for any sequence of client-side feeds without overflow, events and buffer are those of one parse of the whole stream |
| Framing.ClientChunksDoNotMatter | rust/cbus-transport/src/framing.rs:60-86 | two ways of cutting one client stream cannot be told apart |
| Framing.ShortChunksNeverOverflow | rust/cbus-transport/src/framing.rs:60-69 | the buffer never overflows if every chunk, plus the most bytes the stream has in a row without an end of line, is at most 256 |
| Framing.ServerFeedingIsParsing | rust/cbus-transport/src/framing.rs:60-86 | the server does the same while no bare CAL has bytes to swallow |
| Framing.ServerCutsShowIffSwallowed | rust/cbus-protocol/src/decode.rs:259-262 | some cut of a server stream changes what is reported exactly if some frame of its parse takes bytes beyond its line; `Lines` says the same of the bytes |
| Framing.BareCalSwallows | rust/cbus-protocol/src/decode.rs:259-262 | a bare identify with anything behind it swallows some of it |
| Lines.HasCalIff | rust/cbus-protocol/src/cal.rs:79-156 | which bytes begin with a CAL the decoder accepts |
| Lines.BareCalLineIff | rust/cbus-protocol/src/decode.rs:94-262 | which lines, by their bytes, are taken for a bare CAL |
| Lines.ExactIffNothingBehind | rust/cbus-protocol/src/decode.rs:43-262 | no frame takes bytes beyond its line exactly if, token by token and line by line, nothing stands behind a bare CAL line |
| Lines.ServerMayBeCut | rust/cbus-transport/src/framing.rs:60-86 | a server stream with nothing behind a bare CAL line gives the events of the whole however it is fed without overflow |
| Lines.ServerMayBeCutIff | rust/cbus-transport/src/framing.rs:60-86 | and exactly such a stream: with something behind one, some cut changes what is reported |
| Lines.ClientFramesArrive | rust/cbus-transport/src/framing.rs:60-86 | whatever a client sends, packets behind `\` or as device management, resets and shortcuts in any order, a server fed with it in any pieces reads exactly this and keeps nothing |
| Lines.PciFramesArrive | rust/cbus-transport/src/framing.rs:60-86 | so does a client with whatever the PCI sends: packets, confirmations, `!` and power-ups, the last three with or without an end of line |
| Framing.FrameBuffer.Client | rust/cbus-transport/src/framing.rs:28-34 | an empty buffer that requires checksums |
| Framing.FrameBuffer.Server | rust/cbus-transport/src/framing.rs:38-44 | an empty buffer that does not |
| Framing.FrameBuffer.SetChecksum | rust/cbus-transport/src/framing.rs:48-50 | switching checksums leaves a partial frame waiting as it was |
| Framing.FrameBuffer.Feed | rust/cbus-transport/src/framing.rs:60-86 | reports the parse of buffer and data and keeps the leftover, losing no byte; more than 256 bytes drop the buffer and are none of them read |
| Confirmations.ByAgeIsStable | python-legacy/cbus/protocol/pciprotocol.py:283 | the sort by age is a permutation, ordered, and stable for equal times |
| Confirmations.OldestAreOldest | python-legacy/cbus/protocol/pciprotocol.py:280-286 | the codes picked for forced release are as many as asked for and none is younger than a code that stays |
| Confirmations.CleanupReleasesTheOldest | python-legacy/cbus/protocol/pciprotocol.py:255-295 | a cleanup releases the codes older than 30 seconds; of n left, if n is above 18, a quarter rounded down as well (four of nineteen, five of twenty), none younger than a code kept; every code released leaves the pending table, and nothing else changes |
| Confirmations.SeekTakesTheFirst | python-legacy/cbus/protocol/pciprotocol.py:574-587 | the search takes the first code in cyclic order that is not to be avoided and goes on behind it next time; if it fails all tried were to be avoided |
| Confirmations.AllocationFailsIffAllInUse | python-legacy/cbus/protocol/pciprotocol.py:569-587 | an allocation fails exactly when all twenty codes are in use, and then changes nothing |
| Confirmations.AllocatorIsCorrect | python-legacy/cbus/protocol/pciprotocol.py:557-633 | with nothing else running, a request gets the first code in cyclic order that is free after cleanup, at most 19 are in use then, and the branch that evicts is never reached |
| Confirmations.TryHandsOut | python-legacy/cbus/protocol/pciprotocol.py:569-587 | a code found is valid, was free, and is recorded with the time; no other entry changes |
| Confirmations.EvictHandsOut | python-legacy/cbus/protocol/pciprotocol.py:592-633 | whatever ran since the search failed, eviction hands out a valid code, recorded with the time; the first code if none is in use any more |
| Confirmations.EvictPrefersAnother | python-legacy/cbus/protocol/pciprotocol.py:592-625 | the first of the oldest codes is given up with its frame, and nothing else; it is handed out again exactly if all others are in use |
| Confirmations.EvictTakesTheFirst | python-legacy/cbus/protocol/pciprotocol.py:592-625 | if some code is not in use by then, the first such in turn is handed out and the turn moves behind it; otherwise the turn stays |
| Confirmations.PciProtocol.CleanupState | python-legacy/cbus/protocol/pciprotocol.py:144-155 | a connection made or lost empties both tables and starts over at the first code |
| Confirmations.PciProtocol.ReleaseCode | python-legacy/cbus/protocol/pciprotocol.py:239-253 | a code in use is freed and its frame forgotten, both tables otherwise as before; one not in use changes nothing |
| Confirmations.PciProtocol.CheckAndReleaseTimedOutCodes | python-legacy/cbus/protocol/pciprotocol.py:255-295 | deleting the codes one by one comes to the cleanup described above |
| Confirmations.PciProtocol.NextFree | python-legacy/cbus/protocol/pciprotocol.py:574-587 | the loop is the cyclic search |
| Confirmations.PciProtocol.EvictOldest | python-legacy/cbus/protocol/pciprotocol.py:592-633 | the section that runs when all codes were found in use, its impossible-looking branch included |
| Confirmations.PciProtocol.GetConfirmationCode | python-legacy/cbus/protocol/pciprotocol.py:557-633 | the three sections in a row hand out a valid code and leave at most 19 in use |
| Confirmations.PciProtocol.AwaitConfirmation | python-legacy/cbus/protocol/pciprotocol.py:721-727 | a frame written is pending with one attempt |
| Confirmations.PciProtocol.CollectOverdue | python-legacy/cbus/protocol/pciprotocol.py:326-333 | overdue frames are sorted into those to write again and those to give up, in the order of the table |
| Confirmations.PciProtocol.Sweep | python-legacy/cbus/protocol/pciprotocol.py:313-362 | one sweep with nothing running in between, and the frames it writes; if a write fails, that frame is counted and those behind it are neither counted nor written |
| Retransmits.SweepEffect | python-legacy/cbus/protocol/pciprotocol.py:320-362 | a sweep leaves a frame that is not overdue, writes one with an attempt left exactly once and counts it, gives up any other and frees its code |
| Retransmits.FailedSweepEffect | python-legacy/cbus/protocol/pciprotocol.py:313-362 | if a write fails, those before it were written in the order of a whole sweep; its frame is counted like them, those behind it stay as they were |
| Retransmits.RetriesAreExact | python-legacy/cbus/protocol/pciprotocol.py:297-362 | left alone, a frame with a attempts is written again by exactly the next 3 - a sweeps that are an interval apart, and is gone with its code free exactly one such sweep later |
| Retransmits.ExactlyThreeWrites | python-legacy/cbus/protocol/pciprotocol.py:297-362 | from its first write on, a frame nobody confirms is written three times, an interval apart or more, and its code is free exactly after the third such sweep |
| SweepTasks.TaskStepCounts | python-legacy/cbus/protocol/pciprotocol.py:313-362 | no section of a sweep raises a frame's attempts and the claims on it together |
| SweepTasks.ConnectionsStartOver | python-legacy/cbus/protocol/pciprotocol.py:113-155 | a connection made or lost forgets every code and frame; one that is made brings one more sweep task, and those there were go on |
| SweepTasks.RunIsOk | python-legacy/cbus/protocol/pciprotocol.py:211-362 | the invariant over all interleavings of all sections: a task lists a code once and none it is giving up, and attempts counted and claimed stay within two plus one for each task |
| SweepTasks.AttemptsAreBounded | python-legacy/cbus/protocol/pciprotocol.py:297-362 | in every reachable state of an object a pending frame has between one attempt and two plus one for each sweep task |
| SweepTasks.ProgramKeepsTheLimit | python-legacy/cbus/daemon/cmqttd.py:133-139 | over any run of the program, with any losses and reconnections, each of which makes a new object, the counter of every pending entry of every object is from one to three |
| SweepRuns.AttemptsAttainedIff | python-legacy/cbus/protocol/pciprotocol.py:113-131 | an object on which `connection_made` is called n times, n at least 1, can bring a frame to k attempts exactly if k is from 1 to 2 + n; so its limit of three is kept exactly if the call is made once |
| SweepRuns.TaskAloneIsSweep | python-legacy/cbus/protocol/pciprotocol.py:313-362 | the sections of one task, run without interruption, come to a whole sweep, a failing write included |
| SweepFrames.ConfirmedIsWrittenAgainIffHeld | python-legacy/cbus/protocol/pciprotocol.py:353-362 | whatever other frames its code is given to meanwhile, some continuation that does not send a confirmed frame afresh writes it again exactly if some sweep task had that frame, by code and data, listed or in hand when it was confirmed |
| SweepFrames.ConfirmedFrameIsWritten | python-legacy/cbus/protocol/pciprotocol.py:233-237 | a run from the start, with the one task an object has, in which that happens |
| SweepFrames.WritesAfterConfirmation | python-legacy/cbus/protocol/pciprotocol.py:353-362 | after its confirmation a frame is written no more often than tasks had it listed or in hand then, over every continuation that gives its code to other frames only while no task lists it |
| SweepFrames.ReuseKeepsBoundIff | python-legacy/cbus/protocol/pciprotocol.py:356-358 | when the code of a confirmed frame is given to another frame, every continuation until the next one under that code keeps that bound exactly if no task lists the confirmed frame at that moment |
| SweepFrames.EntryKeepsItsDataIff | python-legacy/cbus/protocol/pciprotocol.py:356-358 | the entry of a frame just sent keeps its data, over every continuation until the next frame under its code, exactly if no task lists the code with other data when it is sent |
| SweepFrames.FramesAreLimited | python-legacy/cbus/protocol/pciprotocol.py:297-362 | a frame that is sent is written again at most once more than the object has tasks, and once for each task that has a copy in hand already, over every continuation that gives its code away only while no task lists it |
| SweepFrames.ProgramFramesAreLimited | python-legacy/cbus/constants.py:22-23 | so, under the same condition, in every object of every run of the program a frame not in hand already is written again at most twice, three times in all |
| SweepFrames.FourthWrite | python-legacy/cbus/protocol/pciprotocol.py:353-358 | a run with one task in which a frame is sent once, confirmed late, its code handed out again in turn to another frame, and the first frame written three times again |
| SweepFrames.SectionSpends | python-legacy/cbus/protocol/pciprotocol.py:313-362 | the measure behind these bounds: no section of a sweep adds to what is written, in hand, or may still be marked |
| SweepTasks.RequestsAlwaysSucceed | python-legacy/cbus/protocol/pciprotocol.py:557-633 | under any interleaving a request ends with a valid code recorded as in use, and the next position is in range |
| CProtocol.HexDecode | esp32-firmware/src/cbus_protocol.c:64-76 | fills the buffer with the bytes of the text, or fails for odd, bad or too long text |
| CProtocol.HexEncode | esp32-firmware/src/cbus_protocol.c:80-90 | writes the digits of the Rust encoder and a zero, or fails for lack of room |
| CProtocol.HexDecodersAgree | esp32-firmware/src/cbus_protocol.c:57-76 | on upper-case text that fits, the C decoder is the Rust one |
| CProtocol.EitherCaseIsRead | esp32-firmware/src/cbus_protocol.c:57-76 | the C decoder reads digits of either case alike, and no other character |
| CProtocol.ManchesterDecode | esp32-firmware/src/cbus_protocol.c:118-131 | the search loops decode a pair as the Rust function does |
| CProtocol.ShortResponsesAreRefused | esp32-firmware/src/cbus_protocol.c:141-151 | a two-byte confirmation, like every text shorter than four, is refused |
| CProtocol.ParsePciResponse | esp32-firmware/src/cbus_protocol.c:141-246 | fills the packet structure, the copy of the bytes included, with what the parser specification says, for every input; `LightsAgree` and `DecodersAgree` compare that with the Rust decoder |
| CProtocol.ParseCommand | esp32-firmware/src/cbus_protocol.c:355-389 | likewise for client commands, with the device-management and escaped forms |
| CProtocol.ShortCommandsAreFilled | esp32-firmware/src/cbus_protocol.c:303-342 | what a command that ends early is taken for: group 0, full brightness, the first block |
| DecodersAgree.ReportsReadAlike | esp32-firmware/src/cbus_protocol.c:141-246 | whatever frame of at most 512 digits the Rust client takes for a level report of a lighting application, the C parser reads with the same source, application, block and count, and each level equal, 0 for a missing one |
| DecodersAgree.EncodedReportsReadAlike | rust/cbus-protocol/src/packet.rs:129-204 | every report frame of the Rust encoder with a checksum is read alike by both decoders |
| DecodersAgree.UncheckedReportsReadAlikeIff | esp32-firmware/src/cbus_protocol.c:160-163 | without a checksum they agree exactly when the bytes do not happen to sum to 0 modulo 256 |
| DecodersAgree.SomeUnitIsMisread | esp32-firmware/src/cbus_protocol.c:160-163 | every report has a unit address for which they disagree |
| LightsAgree.EventsReadAlike | esp32-firmware/src/cbus_protocol.c:141-246 | whatever frame of at most 512 digits the Rust client takes for lighting messages, the C parser reads with the source, application and group of the first: on with 255, off with 0, terminate, or a ramp with its level and a rate of its duration |
| LightsAgree.OtherEvents | esp32-firmware/src/cbus_protocol.c:171-198 | a multipoint frame of another application is told as a clock update exactly if it is one, and refused otherwise |
| LightsAgree.CommandsReadAlike | esp32-firmware/src/cbus_protocol.c:277-352 | every packet of the Rust client behind a backslash, of at most 512 digits, is read as what it is: the first light message of the default application, a status request with kind, application and block, a clock message, a point-to-point frame; the rest is refused; one without messages is refused, or taken for a status request or clock message of zeros if it has a checksum |
| LightsAgree.ManagementReadsAlikeIff | esp32-firmware/src/cbus_protocol.c:255-275 | device management of the Rust client is read exactly in priority class 2, with its parameter and value |
| LightsAgree.BridgeObeys | esp32-firmware/src/cbus_bridge.c:30-126 | the bridge obeys the first light message of the default application in a packet of the Rust client, and no other packet, one without messages included |
| LightsAgree.ManagementSetsSmartMode | esp32-firmware/src/cbus_bridge.c:30-126 | device management turns smart mode on exactly if parameter 0x30 has bit 4 set |
| LightsAgree.ConfirmationIsUnderstood | esp32-firmware/src/cbus_protocol.c:393-400 | a confirmation of the bridge is a success to the Rust client |
| LightsAgree.FirmwareSpeaksAsTheClient | esp32-firmware/src/main.cpp:746-807 | the line the firmware sends for a light is the frame the Rust client sends for that message, and a Rust server reads just this message from it |
| LightsAgree.TakenForLevelsIff | esp32-firmware/src/cbus_protocol.c:198-243 | which replies the C parser takes for levels: the length and the application decide, not the coding |
| LightsAgree.BinaryReportIsMisread | esp32-firmware/src/cbus_protocol.c:198-243 | so a binary status report of a lighting application, of an even number of two bytes or more, is taken for one |
| Bridge.GroupIsReportedIff | esp32-firmware/src/cbus_protocol.c:419-451 | changing the level of a group changes the answer to a status request exactly if the frame fits, the level differs, and the group is one of the 31 from the start of the block |
| Bridge.LastGroupIsNotReported | esp32-firmware/src/cbus_protocol.c:433-439 | so the answer never depends on the 32nd group, whose byte the checksum overwrites |
| Bridge.Bridge.ProcessCommand | esp32-firmware/src/cbus_bridge.c:30-126 | levels, mode, counters and the answer after any command, parsed or refused |
| Bridge.AnswersAre | esp32-firmware/src/cbus_bridge.c:30-126 | which commands are answered, and with what bytes |
| Bridge.StatusFrameTells | esp32-firmware/src/cbus_protocol.c:419-451 | a status frame is a line of 39 bytes that sum to zero, with application, block and the levels of 31 groups |
| Bridge.TextsAreObeyed | esp32-firmware/src/cbus_bridge.c:48-57 | a reset darkens every group and ends smart mode, the shortcut starts it |
| Bridge.CommandsAreCounted | esp32-firmware/src/cbus_bridge.c:30-44 | each command counts once, as processed or as an error |
| Bridge.EncodeLevelStatus | esp32-firmware/src/cbus_protocol.c:419-451 | the status frame in its buffer, or nothing for lack of room |
| Firmware.CommandQueue.Enqueue | esp32-firmware/src/main.cpp:772-781 | the ring is a queue of capacity 31: a packet joins its end, or is dropped if longer than 60 bytes or the queue is full |
| Firmware.CommandQueue.Dequeue | esp32-firmware/src/main.cpp:783-789 | and the oldest packet leaves it |
| Firmware.Sender.SendLight | esp32-firmware/src/main.cpp:791-807 | the command is queued if fewer than 31 wait; its level is recorded in any case |
| Firmware.Sender.ProcessQueue | esp32-firmware/src/main.cpp:783-789 | after 200 ms, clock wrap-around included, the oldest command leaves the queue and goes onto the wire with the next code, or is dropped while disconnected |
| Firmware.Sender.SendCommand | esp32-firmware/src/main.cpp:746-770 | checksum, digits and code, built in the local buffers, are the line on the wire |
| Firmware.LineIsParsed | esp32-firmware/src/cbus_protocol.c:277-352 | a line on the wire is parsed back into packet, checksum and code |
| Firmware.DefaultApplicationIsApplied | esp32-firmware/src/cbus_bridge.c:68-87 | a command of the default application sets its group to its level, whatever its code |
| Firmware.OtherApplicationsAreIgnored | esp32-firmware/src/cbus_protocol.c:305-347 | a command of any other application changes no level |
| Firmware.Run | esp32-firmware/src/main.cpp:746-807 | for any sequence of switches and ticks, with any losses to a full queue or a closed connection: the recorded levels are those of all commands given, the bridge's, once all that is queued has arrived, those of the commands kept; a group agrees in the end exactly if the last command given to it and the last one kept set the same level; and with nothing lost both stay in step |
| Firmware.OnSwitch | esp32-firmware/src/main.cpp:772-807 | a command that finds the queue full is lost, and firmware and bridge are still in step then exactly if its level was recorded before |
| Firmware.OnTick | esp32-firmware/src/main.cpp:746-789 | a command dropped while disconnected leaves them in step exactly if a later one in the queue names its group or the bridge showed its level already; any other tick keeps them in step |
| Firmware.LosesIff | esp32-firmware/src/main.cpp:746-789 | a command is lost on the way exactly if the commands kept are not all that waited or were given |
| Firmware.ReplayIsApplied | esp32-firmware/src/main.cpp:746-807 | draining a queue through checksum, digits, wire, parser and bridge has the effect of its commands, one after the other |
| Firmware.LostHeadIsUnseenIff | esp32-firmware/src/main.cpp:746-789 | a command dropped from the head of the queue while disconnected changes nothing in the end exactly if a later one names its group or the bridge showed its level already |
| Firmware.LostToFullQueueIsUnseenIff | esp32-firmware/src/main.cpp:772-807 | a command lost to a full queue leaves recorded and shown levels equal, after any later commands, exactly if one of those names its group or the level was recorded before |
| Gateway.DiscoveryComesFirst | python-legacy/cbus/daemon/mqtt_gateway.py:286-368 | over any sequence of events, losses and reconnections to fresh handlers included, a state is published only after the discovery of its light since the last loss that cleared the index, and the index marks exactly the lights discovered since then |
| Gateway.DiscoveredOnce | python-legacy/cbus/daemon/mqtt_gateway.py:366-368 | over any events, a light without a label is discovered at most once between losses |
| Gateway.LabelsAreAnnounced | python-legacy/cbus/daemon/mqtt_gateway.py:328-345 | attaching announces each label in order, with subscription and two configurations, and nothing else |
| Gateway.RelaysIffBound | python-legacy/cbus/daemon/cmqttd.py:204-223 | after any events, bus events are relayed exactly if a client was bound to the handler of the moment and its connection was not lost since; so they resume after each reconnection |
| Gateway.AnnouncedAfresh | python-legacy/cbus/daemon/cmqttd.py:204-223 | after loss, reconnection and binding, the next state of a light is preceded by a new discovery of it |
| Gateway.ReportShowsEachLevel | python-legacy/cbus/daemon/mqtt_gateway.py:115-129 | a level report publishes one state for each level present, in order, at its own group, and none while closing |
| Gateway.StatesOfAt | python-legacy/cbus/daemon/mqtt_gateway.py:115-129 | the level at position i is shown as the state of group start + i: off for 0, otherwise on with that brightness, at once and from no unit |
| Gateway.StatesConcat | python-legacy/cbus/daemon/mqtt_gateway.py:115-129 | the states of a report are in the order of its positions, one for each level and none for a missing one |
| Gateway.EventsShowTheirLight | python-legacy/cbus/daemon/mqtt_gateway.py:92-113 | what an on, an off and a ramp from the bus publish, with brightness, transition and source |
| Gateway.SwitchesShowTheirLight | python-legacy/cbus/daemon/mqtt_gateway.py:273-284 | a command from MQTT publishes the brightness and transition asked for, or darkness |
| Gateway.SensorFollowsLight | python-legacy/cbus/daemon/mqtt_gateway.py:347-364 | over every run, each state of a light is followed at once by its binary sensor, on just when the brightness is above zero |
| Gateway.SilentAfterLoss | python-legacy/cbus/daemon/mqtt_gateway.py:72-117 | once a handler is closing, bus events publish nothing |
| Gateway.MqttClient.PublishLight | python-legacy/cbus/daemon/mqtt_gateway.py:286-326 | subscription, two configurations, then the mark in the index |
| Gateway.MqttClient.CheckIsPublished | python-legacy/cbus/daemon/mqtt_gateway.py:366-368 | announces a light exactly if it is not marked |
| Gateway.MqttClient.SwitchLight | python-legacy/cbus/daemon/mqtt_gateway.py:273-284 | the state that follows a command from MQTT |
| Gateway.MqttClient.PublishAllLights | python-legacy/cbus/daemon/mqtt_gateway.py:328-345 | announces the daemon and then every labelled light |
| Gateway.CBusHandler.Rebind | python-legacy/cbus/daemon/cmqttd.py:218-221 | the client is bound to the handler without announcing anything |
| Gateway.CBusHandler.ConnectionLost | python-legacy/cbus/daemon/mqtt_gateway.py:72-90 | the index is cleared if a client is attached; then the handler closes and lets go of it, once |
| Gateway.Session.Reconnect | python-legacy/cbus/daemon/cmqttd.py:133-139 | a new connection has a fresh handler, without client and not closing; client, index and log stay |
| Gateway.Session.Rebind | python-legacy/cbus/daemon/cmqttd.py:218-221 | the loop binds the client it keeps to the handler in use |
| Gateway.CBusHandler.OnLevelReport | python-legacy/cbus/daemon/mqtt_gateway.py:115-129 | the loop publishes what the report function says |
| Topics.ParseInvertsShow | rust/cbus-mqtt/src/topics.rs:100-104 | every 64-bit number, zero-padded to any width with its sign, is read back |
| Topics.GroupStringParts | rust/cbus-mqtt/src/topics.rs:22-32 | neither separator occurs inside a number, so the parts of a topic are the numbers printed into it |
| Topics.TopicRoundTrip | rust/cbus-mqtt/src/topics.rs:109-124 | a command topic names its own group and application, for every group and every 64-bit application |
| Topics.NumbersInTopics | rust/cbus-mqtt/src/topics.rs:109-124 | any 64-bit number in a topic names its group if it is from 0 to 255 and is refused as out of range otherwise, with an application or without |
| Topics.TopicsRefused | rust/cbus-mqtt/src/topics.rs:109-124 | a topic is refused for its prefix, or for a part that is no number, exactly then |
| Topics.NoNumberIff | rust/cbus-mqtt/src/topics.rs:100-104 | what is no number: no digits behind the sign, or more than 64 bits hold |
| Topics.TopicsAreDistinct | rust/cbus-mqtt/src/topics.rs:22-83 | no two topics coincide, whatever light and purpose they are for |

## Left out

- Floating point and clock resolution: durations and the latency estimate are reals here; the original uses `f64` and
  nanosecond clocks, so rounding is not modelled.
- Overflow of the controller's `u32` and `usize` counters, which would take billions of events.
- Retry backoff and jitter (`rust/cbus-transport/src/flow.rs:346-389`): a table of three values and a random factor.
- FlowProgress.ProgressIsMade: says that a frame is taken for writing; whether the transport then accepts it is not
  up to the controller, and a failed write is reported to its submitter and not repeated.
- The channels, tasks and sockets around the controller: a run is given by the order in which its loop receives
  feedback and jobs, which is arbitrary in the model.
- The client proper of the Rust transport (`rust/cbus-transport/src/pci.rs`), a twin of the Python allocator.
- Decode errors carry no text: every one of them becomes the same invalid packet, as it does for the callers.
- Firmware.Run: the wire between firmware and bridge delivers each line whole and in order; the simulated CNI of the
  firmware's own tests is not modelled.
- Bridge.EncodeLevelStatus: the layout of this frame is not that of the reports the parsers read, so no round trip is
  stated for it; `cbus_encode_lighting_event` is left out for the same reason.
- Confirmations.PciProtocol.Sweep: the delay of 0.1 s before each write, and the back-off of the sweep after an error,
  pass without effect on the tables.
- Retransmits.ExactlyThreeWrites: about sweeps taken as one step, with a connected transport; for sections in any
  order `SweepTasks.AttemptsAreBounded` and `SweepFrames.FramesAreLimited` give the bounds that hold.
- JSON texts, names and labels of the MQTT payloads: a publication is its kind, light and level.
- Gateway: the parsing of command payloads and the throttle in front of the bus; `Switched` events carry their values.
- The Python and Rust servers, the simulator, project files, logging, web pages and WiFi set-up: input and output
  without state worth a proof.
