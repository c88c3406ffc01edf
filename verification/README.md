# FixEngine: a verified model

FixEngine is a FIX 4.4 session engine. This project models its deterministic cores in Dafny and proves what
they promise, from single buffers up to the recovery of missed messages between two sessions.

| layer | files |
|---|---|
| session protocol | `Protocol`, `SessionSpec`, `SessionRuns`, `OutboundLog`, `Requests`, `Draining`, `RecoveryPhase`, `Arriving`, `LoggingOut`, `Rejecting`, `Watchdog`, `OwnEvents`, `GapRecovery`; in place: `Session`, `RecoveryCache` |
| two sessions | `TwoEnds`, `Exchanges`, `Answering`, `Directions`, `CatchingUp`, `OneBehind`, `BothBehind`, `Connections`, `Settling`, `Witnesses` |
| stream to messages | `LinearBuffer`, `Ring`, `Framing` (one-shot framing), `Framer`, `Reader`, `Resync` |
| messages to bytes and back | `Wire`, `Decimals`, `FactoryScratch`, `Parser`, `Lexing`, `Damage`, `FrameRoundTrip` |
| store and resend in bytes | `MessageStore`, `MessageFields`, `MessageFactory`, `Resending`, `WireRecovery`, `Schemas`, `SessionMessages`, `Acceptance`, `AcceptedRecovery` |
| validator | `ValidatorSpec`, `Validator`, `TagScratch`, `Conformance`, `Reports`, `Reporting`, `HandlerFields` |
| infrastructure | `MpscRing`, `MpscDraining`, `Arena`, `WritePump`, `Bits`, `Bytes` |

What changes in place is a class whose methods are proved against functions on values; the theorems about whole
runs are about these functions. The main results:

- **A connection of two sessions** (`Connections.HealsExactly`, `Connections.NeverHeals`, `Settling.Heals`): each end
  has missed what the other stored while they were disconnected. They reconnect, and read and send in any order.
  Exactly when do both end up active and up to date? When not both had missed something, and the acceptor has missed
  no application message that asks for a reply. Otherwise they never do (`BothBehind.NeitherRecovers`: each files the
  other's request behind its own gap; `Connections.MoveStaysLost`: the reply comes before the acceptor's Logon).
- **Gap recovery from bytes** (`GapRecovery.GapRecoveryConverges`, `WireRecovery.ReadRecovers`,
  `AcceptedRecovery.RecoverOverNetwork`): a receiver that misses messages of a peer that does not ends up to date,
  with every application message handled once and in order, for every interleaving of the peer's answer with what the
  peer goes on sending: from the peer's store over the network, the read loop, the parser and the validator to the
  session.
- **The recovery phase** (`Draining`, `RecoveryPhase`): what draining the cache does with messages of every kind; the
  invariant of the cache over every run; when the phase ends, and when it cannot end any more.
- **Logging out** (`LoggingOut.FaithfulExactly`): exactly which messages make a session listen again that was stopped
  or has asked for logout.
- **Sequencing** (`SessionRuns`): over every run of a session, handled numbers are consecutive without resets and
  increasing with forward resets. Where the code does not keep this (a gap fill that moves backwards), a concrete
  run shows it and the exact condition is proved.
- **What is not handled** (`Arriving`, `Damage`): exactly which messages are dropped without a trace, rejected, or make
  a session ask for logout, and what that leaves alone over every run; nothing damaged is ever handled.
- **Framing** (`Framers`, `Reader`, `Resyncing.ResyncsExactly`): for every cut of a byte stream into reads the framer
  agrees with a pure one-shot framing; messages behind garbage are found if and only if no header in it is a good one.
- **Codec and resend** (`Wires.ParseOfBuild`, `Lexing.ParsesExactly`, `FrameRoundTrip`, `MessageFactories`): building,
  framing and parsing are inverse; exactly the well-formed wires parse; patching a stored message in place through its
  index changes exactly three fields.
- **Validator** (`Validators`, `Conformance`, `Reporting`): what is accepted and what is reported, told from the bytes.
- **Queue, allocator, write pump** (`MpscRings`, `MpscDraining.EverythingComesOut`, `Arenas`, `WritePumps`).

A session is parametric in `view: Wire -> View`, the result of parsing and validating a wire, so its theorems hold
for every parser and validator; `WireRecovery.ParsedView` puts the modelled parser in and
`AcceptedRecovery.AcceptedView` the modelled validator too. The current time is a parameter of every builder that
reads the clock.

Where code and documentation differ the model follows the code. Two ends that have both missed something recover for
ever, because a request above the expected number is filed and not answered (`BothBehind.BothAskInVain`).
`SessionState` is set to ACTIVE once the cache is drained whatever the drained handlers did
(`Draining.FalselyActiveExactly`, with `Draining.CachedLogout`, `Draining.CachedLowReset` and
`Draining.RefusedThenAccepted` for such caches), and an early admin message takes a session that has asked for logout
back into recovery (`LoggingOut.LeavesLogoutExactly`, `LoggingOut.Revived`). A gap fill may lower the expected number,
because only resets without the gap fill flag are checked (`SessionRuns.BackwardGapFillRepeats`), and one that jumps
over a cached number leaves it stuck (`RecoveryPhase.JumpLeavesStuck`, `RecoveryPhase.StuckForGood`). A sequence reset
on logon leaves the outbound store alone (`OutboundLog.HandleKeepsLog`). A message the validator rejects does not
advance the expected number, so if it is rejected whenever it comes nothing after it is handled
(`Rejecting.RejectedHoldsUp`); a wire with a MsgSeqNum the validator passes but that does not read as an unsigned
number is dropped.

To check everything: `dafny verify dfyconfig.toml`.

## Model

| member | source | states |
|---|---|---|
| `GapRecovery.GapRecoveryConverges` | src/Session.cpp:545-686 | a receiver, logged on or not, that sees message k of a peer that has missed nothing itself while expecting e (after a reconnect: the early Logon of the peer), with the peer's answer to its request and any later live messages interleaved, accepted Logons among them, ends active and up to date with an empty cache; it has handled the replay and then the live messages, i.e. the application messages of the history each once and in order; it asked once and never logged out |
| `Connections.HealsExactly` | src/Session.cpp:188-243 | a connection of two sessions with a queue of messages each way, from the reconnect on: over every run of reads and sends inside the windows after which everything is read, both ends are active, have handled what the other has stored once and in order, and neither has asked for logout, if and only if not both had missed something and the acceptor has missed no application message that asks for a reply |
| `Connections.NeverHeals` | src/Session.cpp:632-654 | if one of the two is the case, both ends are up to date at no point of any run |
| `Settling.Heals` | src/Session.cpp:430-482 | if neither is the case: whichever end reads first when both could, after finitely many reads both ends are up to date |
| `Connections.RunHeals` | src/Session.cpp:586-688 | over every run of such a connection the recovery goes on: missing, asked, answered, level; or the initiator gets a reply before the acceptor's Logon and is lost |
| `Connections.MoveStaysLost` | src/Session.cpp:625-630 | an application message on its way to an initiator that waits for the acceptor's Logon makes it ask for logout, whatever else happens |
| `BothBehind.NeitherRecovers` | src/Session.cpp:634-654 | if both ends have missed something, then over every run of reads and sends inside the windows neither handles or delivers anything, neither answers a request and neither becomes active; once all is read both are recovering |
| `BothBehind.BothAskInVain` | src/Session.cpp:634-654 | the run: the initiator's Logon, the acceptor's request, and the initiator's request, which is filed; nothing is left to read |
| `Witnesses.OneMissed` | src/Session.cpp:402-420 | two concrete ends of which the acceptor has missed an application message: they meet, and heal whichever reads first |
| `Witnesses.BothMissed` | src/Session.cpp:402-420 | two concrete ends that have both missed one: over no run are they up to date |
| `Witnesses.RequestMissed` | src/Session.cpp:977-994 | two concrete ends of which the acceptor has missed a custom request: over no run are they up to date |
| `Witnesses.CodePrints` | src/Parser.cpp:16-77 | messages can be printed so that they are read as what they are |
| `OneBehind.StepOfB` | src/Session.cpp:586-688 | what the end that may be behind does keeps the invariant of the connection |
| `OneBehind.StepOfA` | src/Session.cpp:586-688 | what the other end does keeps it |
| `OneBehind.AReadsRequest` | src/Session.cpp:863-897 | the request in its turn is answered with the replay of the range, behind what is on its way |
| `CatchingUp.ReadAnswer` | src/Session.cpp:545-583 | one more message while the answer is on its way: a live one is filed, a replayed one handled, the last replayed one lets everything cached through; what is said are the replies to what is handled |
| `Answering.DrainReplies` | src/Session.cpp:548-566 | a drain says the replies to the messages it handles, in order, and nothing else |
| `TwoEnds.EarlyRead` | src/Session.cpp:634-654 | a message above the expected number is filed, and asked about once |
| `GapRecovery.PeerAnswersExactly` | src/Session.cpp:632-654 | a peer answers a request with the replay if and only if the request is the message it expects |
| `GapRecovery.ReconnectRecovers` | src/Session.cpp:188-243 | reconnected to a peer that has missed nothing itself, in whatever state the connection was lost, the session gets what it missed out of the peer's answer and ends active and up to date |
| `GapRecovery.ReconnectIsBehind` | src/Session.cpp:188-243 | a reconnect clears the cache and keeps the numbers, so the peer's early Logon opens a gap, also for a session that was recovering |
| `GapRecovery.GapOpens` | src/Session.cpp:625-654 | in every phase but recovery the first early message (before logon: an admin message) sends one ResendRequest(e, k - 1), is filed, and opens the recovery phase |
| `GapRecovery.PeerAnswers` | src/Session.cpp:879-897 | a peer with an aligned log, in whatever phase, answers the request with exactly the replay of that range of its history |
| `GapRecovery.AnswerConverges` | src/Session.cpp:545-570 | the convergence for an answer given as the replay itself, for every interleaving with live messages |
| `GapRecovery.AnswerKeepsAppContent` | include/fix/core/MessageStore.hpp:89-105 | replay followed by the live messages has the application content of the history from e on |
| `WireRecovery.ReadRecovers` | src/Session.cpp:430-482 | recovery from reads: however the bytes of the peer's printed answer and its live messages are cut into chunks, the messages the read loop hands out bring the receiver up to date |
| `WireRecovery.ByteStreamRecovers` | src/Session.cpp:430-482 | the same from bytes to bytes: the peer's printed answer mixed with its live messages, sent as one stream, framed, parsed and handled, brings the receiver up to date |
| `WireRecovery.StreamRecovers` | src/Session.cpp:572-583 | the byte-level convergence for any answer whose messages stand for the replay |
| `WireRecovery.InterleavesMeanings` | src/Session.cpp:636-654 | reading messages as their session meaning maps an interleaving to an interleaving |
| `WireRecovery.ParsedViewPasses` | src/Parser.cpp:16-77 | the modelled parser reads every wire that parses to given fields as the message they stand for |
| `AcceptedRecovery.RecoverOverNetwork` | src/Session.cpp:430-482 | the whole way: the peer answers out of its store, the network carries the answer mixed with what it sends later in chunks of any size, and the read loop, the parser, the validator and the session bring the receiver up to date |
| `AcceptedRecovery.SuchAPeer` | include/fix/core/MessageFactory.hpp:184-202 | with the repository's tables, a peer that has sent a custom message and its Logon is one for which that holds |
| `AcceptedRecovery.PrintedIsRepeatable` | include/fix/core/MessageFactory.hpp:82-192 | what a session prints by itself is accepted with the repository's tables and can be sent again |
| `AcceptedRecovery.AcceptedRecovers` | src/Session.cpp:572-615 | recovery through the modelled parser and validator: if the validator accepts the peer's messages as they were first sent, the receiver recovers from the bytes; nothing else is assumed of what arrives but that it fits a frame |
| `AcceptedRecovery.AcceptedIsUnderstood` | src/Session.cpp:591-603 | everything that arrives passes the validator, also what is sent again and the gap fills |
| `AcceptedRecovery.AcceptedPasses` | src/Session.cpp:572-603 | a message the validator accepts is handed to the session as what it stands for |
| `Acceptance.RegenAccepted` | include/fix/core/MessageFactory.hpp:204-232 | under the standard header and trailer, a validator that accepts a message accepts its resend, with the three fields set, its new length and its new checksum |
| `SessionMessages.GapFillAccepted` | include/fix/core/MessageFactory.hpp:131-151 | the other end's validator accepts a printed gap fill |
| `SessionMessages.PrintedMeans` | include/fix/core/MessageFactory.hpp:82-192 | every message a session prints by itself, field by field as its builder prints it, reads back as that number and kind, as an original |
| `SessionMessages.DetailsArePrinted` | include/fix/core/MessageFactory.hpp:82-192 | what is printed beside the kind of a message: encryption method, reason, tag and text, and when they are left out |
| `SessionMessages.PrintedIsAccepted` | include/fix/core/MessageFactory.hpp:82-192 | the other end's validator accepts every message a session prints by itself |
| `Schemas.ProperIsAccepted` | src/Validator.cpp:69-133 | a message of different fields is accepted if its header is right, every field is named by a schema and taken by all that name it, and what is required is there |
| `Schemas.RepositoryIsStandard` | include/fix/schema/Registry.hpp:44-56 | the registered schemas leave length, checksum and the fields of a resend to header and trailer, and have flat groups only |
| `Acceptance.InsertAccepted` | src/Validator.cpp:69-133 | a field of the header put before the checksum of an accepted message keeps it accepted: groups before it end where they did |
| `Acceptance.UpdateAccepted` | src/Validator.cpp:69-133 | a new value in a field outside of groups, of the right type, keeps a message accepted |
| `Resending.RegenParses` | include/fix/core/MessageFactory.hpp:204-232 | parsing a resend gives version, length, exactly the fields of the resend, and checksum |
| `SessionRuns.RunHandles` | src/Session.cpp:586-688 | over every run the numbers that reach the handlers follow one another, whatever mix of expected, duplicate, early, cached, malformed arrivals, sends, timers and reconnects |
| `SessionRuns.RunHandlesConsecutively` | src/Session.cpp:632-634 | without resets among the handled messages their numbers are n, n + 1, n + 2, ..., the expected number is n plus how many were handled, and the application got exactly its messages among them |
| `SessionRuns.RunHandlesForward` | src/Session.cpp:929-934 | with resets that only move forward the handled numbers still strictly increase |
| `SessionRuns.RunOnlyAdds` | src/Session.cpp:586-688 | over every run what was handled, delivered, sent and stored is only added to |
| `SessionRuns.AheadExactlyWhenForward` | src/Session.cpp:929-934 | the expected number stays above everything handled if and only if the handled message is no backward gap fill and no late resetting logon |
| `SessionRuns.BackwardGapFillRepeats` | src/Session.cpp:929-934 | a concrete gap fill with a lower NewSeqNo after which a number is handled twice |
| `SessionRuns.DispatchHandles` | src/Session.cpp:586-688 | one dispatched wire handles at most one message, the expected one |
| `SessionRuns.DrainLoopHandles` | src/Session.cpp:545-566 | a drain handles cached messages in number order from the expected one on |
| `OutboundLog.RunKeepsLog` | src/Session.cpp:410-420 | over every run the store is exactly what was sent without the resends, and aligned with the numbers given out as long as no resetting logon is handled |
| `OutboundLog.HandleKeepsLog` | src/Session.cpp:780-791 | a handler keeps the log complete; it keeps it aligned if and only if it does not honour a resetting logon after something was stored |
| `OutboundLog.StartedRunIsAligned` | src/Session.cpp:145-185 | from the start of a session that never resets on logon the log is complete and aligned for good |
| `OutboundLog.ResendKeepsLog` | src/Session.cpp:887-897 | answering a resend request changes neither the store nor the next number |
| `OutboundLog.ReplayHasNoOriginals` | src/Session.cpp:736-738 | a replay holds possible duplicates only |
| `RecoveryPhase.RunKeepsRecoveryOk` | src/Session.cpp:545-583 | over every run of events of any kind, with messages of any kind in the cache: in the recovery phase the session is not stopped, the cache is not empty, and every cached number lies above the expected one and inside the window, as long as first gaps fit the window and no handled message jumps over a cached number |
| `RecoveryPhase.ProcessKeepsRecoveryOk` | src/Session.cpp:572-583 | one wire message keeps that invariant |
| `RecoveryPhase.RecoveryOkExactly` | src/Session.cpp:900-935 | with messages that move forward and leave the phase alone, the invariant is kept if and only if none of those handled jumps over a cached number; otherwise that number is stuck |
| `RecoveryPhase.StuckForGood` | src/Session.cpp:548-569 | over every run on the same connection in which the handled messages move forward and leave the phase alone, a cached number that was passed over stays cached and the phase does not end, unless the session asks for logout |
| `RecoveryPhase.JumpLeavesStuck` | src/Session.cpp:900-935 | a concrete gap fill over a cached number, which stays behind |
| `RecoveryPhase.DrainEndsRecoveryExactly` | src/Session.cpp:545-570 | a drain ends the phase if and only if it empties the cache or reaches a Logon or a message that ends the session; it hands over the walk through the cache and stops at a missing number |
| `Draining.DrainWalks` | src/Session.cpp:545-570 | for caches with messages of every kind: what a drain handles, keeps, says and leaves as phase, told from the cached messages alone |
| `Draining.DispatchOutcome` | src/Session.cpp:656-688 | what handling the expected message does to phase, expected number, cache and session, for every kind of message: who is refused, who asks for logout, who stops the session |
| `Draining.WalkIsRun` | src/Session.cpp:548-566 | of harmless messages a drain takes the maximal run of consecutive numbers, in order, and leaves exactly the others |
| `Draining.FalselyActiveExactly` | src/Session.cpp:567-569 | after a drain in which it was stopped or has asked for logout the session calls itself active if and only if the drain reaches a Logout, a refused Logon or a reset to a lower number, and either nothing is left in the cache or an accepted Logon is the last message that decides about the phase |
| `Draining.FalselyActiveWithoutLogons` | src/Session.cpp:567-569 | the same where no Logon is cached: if and only if the drain reaches a Logout or a reset to a lower number and nothing is left |
| `Draining.CachedLogout` | src/Session.cpp:567-569 | a concrete cache after which a stopped session calls itself active |
| `Draining.CachedLowReset` | src/Session.cpp:567-569 | a concrete cache after which a session that has asked for logout, and was not stopped, calls itself active |
| `Draining.RefusedThenAccepted` | src/Session.cpp:567-569 | a concrete cache after which a session that has asked for logout calls itself active with a message still cached |
| `LoggingOut.FaithfulExactly` | src/Session.cpp:586-688 | over every run on one connection, a session that was stopped or has asked for logout never listens again if and only if no message revives it out of AWAITING_LOGOUT and no drain ends active as above |
| `LoggingOut.StaysFaithfulExactly` | src/Session.cpp:586-688 | the same for each event |
| `LoggingOut.LeavesLogoutExactly` | src/Session.cpp:644-647 | exactly an early admin message and an accepted Logon in its turn take a session out of AWAITING_LOGOUT into recovery and activity |
| `LoggingOut.Revived` | src/Session.cpp:644-647 | a concrete run: asked to log out, an early Heartbeat, the missing one, and the session is active again |
| `Rejecting.RejectedHoldsUp` | src/Session.cpp:599-603 | if a message is rejected whenever it comes, nothing from its number on is ever handled, over every run, unless the peer jumps over it |
| `Arriving.OldNumber` | src/Session.cpp:656-666 | a number below the expected one, in every phase that takes it: a possible duplicate changes nothing at all, an original adds one Logout to what is sent, and the session waits for the other end's; nothing else changes |
| `Arriving.DropsExactly` | src/Session.cpp:606-658 | a message leaves a session exactly as it is if and only if its number does not read, or it is a possible duplicate of an old number, or one more copy of what is filed |
| `Arriving.DroppedChangeNothing` | src/Session.cpp:656-658 | any number of possible duplicates below the expected number, in any order, leave the state unchanged |
| `Arriving.DroppedLeaveNoTrace` | src/Session.cpp:656-658 | wherever they come in a run of events of any kind, the run ends as it does without them |
| `Arriving.LogsOutExactly` | src/Session.cpp:586-666 | a message makes a session ask for logout if and only if it does not parse, is none of the session's business, is an application message before logon, an old original or beyond the 512 numbers of a recovery, or is the expected one and ends the session |
| `Arriving.OffenceLogsOut` | src/Session.cpp:572-666 | one of the former adds exactly one Logout, and nothing is handled, delivered, filed or expected anew |
| `Arriving.OffenceShows` | src/Session.cpp:572-666 | whatever comes before and after it in a run, a Logout has been said |
| `Arriving.FaultIsRejected` | src/Session.cpp:599-602 | a message with a fault is answered by a Reject with its number and by nothing else |
| `Arriving.EarlyIsFiled` | src/Session.cpp:634-643 | while recovering, a new early message inside the 512 numbers is filed and nothing else happens |
| `Arriving.HandledHasComeIn` | src/Session.cpp:586-688 | over every run each message that is handled or delivered is what a wire reads as that came in: nothing is made up, and nothing damaged or rejected is handled |
| `Damage.DamagedLogsOut` | src/Session.cpp:572-583 | a wire that does not parse, anywhere in a run: nothing of it is handled, delivered, filed or answered, and the session asks for logout |
| `Damage.UnacceptedIsRefused` | src/Session.cpp:591-602 | a message that parses and is not accepted is rejected by its number, or, if it is none of the session's business, makes it ask for logout |
| `Watchdog.WaitsExactly` | src/Session.cpp:834-836 | after each event: a silence makes a session wait for a sign of life, a handled Heartbeat or a new connection ends the wait, and nothing else changes it |
| `Watchdog.SilentTwice` | src/Session.cpp:339-357 | silence, any run on the connection in which no Heartbeat is handled, and silence again: the session asks for logout |
| `Watchdog.SilentAnsweredSilent` | src/Session.cpp:339-357 | silence, any run in which a Heartbeat is handled, and silence again: it asks for a sign again and not for logout |
| `Watchdog.IntervalExactly` | src/Session.cpp:996-1011 | a Logon in its turn sets the interval of an acceptor if it is from 10 to 120; nothing else changes the interval of a session |
| `Watchdog.InitiatorKeepsInterval` | src/Session.cpp:996-1011 | an initiator keeps its interval over every run |
| `Watchdog.StoppedForGood` | src/Session.cpp:586-587 | a stopped session stays stopped over every run |
| `OwnEvents.OwnEvent` | src/Session.cpp:261-408 | timers and requests: what each says or stops, and that nothing else changes |
| `OwnEvents.NewConnection` | src/Session.cpp:188-242 | a new connection keeps what was counted, stored and handled, and drops what was cached and awaited; the initiator's Logon has its interval and no reset |
| `OwnEvents.StoppedOnceStoppedForGood` | src/Session.cpp:586-587 | from the event that stops a session on, its state stays exactly the same over every run |
| `Exchanges.LogonExactly` | src/Session.cpp:743-810 | two sessions that were just started: both are active on the initiator's interval, each expecting 2, if and only if the interval is from 10 to 120 and a reset that is asked for is allowed; otherwise both stop |
| `Exchanges.SignOfLife` | src/Session.cpp:840-850 | the test request of a silent end is answered with its own text, and the end waits no more |
| `Exchanges.NoEcho` | src/Session.cpp:977-994 | a custom request is answered once, and the reply is not answered |
| `Exchanges.LogoutParts` | src/Session.cpp:812-829 | when one end is asked to log out both stop, with exactly one Logout each |
| `Requests.OpenEndAnswered` | src/Session.cpp:883-897 | a request in its turn with EndSeqNo 0, or with an end that is not below the last number given out, is answered with the replay of everything from its begin on |
| `Requests.RangeAnswered` | src/Session.cpp:883-897 | one with an end inside is answered with the replay of the range |
| `Requests.EmptyRangeAnswered` | src/Session.cpp:883-897 | one from beyond what was sent, or with its end before its begin, is answered with nothing |
| `Requests.EverythingIsAnswered` | src/Session.cpp:879-897 | after any run from the start of a session that never resets on logon, the request for everything from 1 on is answered with duplicates and gap fills that partition the numbers given out and carry the application messages it has sent, in order |
| `Protocol.ReplayPartitions` | include/fix/core/MessageStore.hpp:89-105 | the answer covers the requested numbers without gap or overlap |
| `Protocol.ReplayAnswers` | include/fix/core/MessageStore.hpp:64-105 | each message of an answer is one resendable message again, or a gap fill over a maximal run of admin messages whose NewSeqNo is the start of the next action |
| `Protocol.ReplayKeepsAppContent` | include/fix/core/MessageStore.hpp:64-105 | a replay has exactly the application messages of its range, in order |
| `Protocol.ReplayOfPrefix` | include/fix/core/MessageStore.hpp:64-80 | messages sent after the request do not change the answer |
| `Protocol.RunEnd` | include/fix/core/MessageStore.hpp:95-98 | a run of admin messages is maximal inside the range |
| `Sessions.ResendStream.Next` | include/fix/core/MessageStore.hpp:89-105 | one action at a time the stream walks through the replay of its range |
| `Sessions.Session.ProcessWireMessage` | src/Session.cpp:572-583 | the in-place session does what the session function does to its abstract state: parse, dispatch, drain |
| `Sessions.Session.DispatchView` | src/Session.cpp:586-688 | in place, the expected message is handled, an early one is cached and asked for, a duplicate dropped, an old one ends the session |
| `Sessions.Session.DrainRecoveryCache` | src/Session.cpp:545-570 | in place, cached messages are handled from the expected one on, and the phase ends with the cache |
| `Sessions.Session.DrainTurn` | src/Session.cpp:549-565 | one turn of the drain; the branch for a wire that does not parse is dead |
| `Sessions.Session.Resend` | src/Session.cpp:886-897 | the resend loop sends the replay |
| `RecoveryCaches.RecoveryCache.Insert` | src/RecoveryCache.cpp:27-35 | the cache is a map from number to bytes over its window: the new entry is added and every other keeps its bytes, across growth of the buffer |
| `RecoveryCaches.RecoveryCache.Get` | src/RecoveryCache.cpp:37-41 | exactly the bytes that were inserted come back |
| `RecoveryCaches.RecoveryCache.Consume` | src/RecoveryCache.cpp:43-50 | the entry is gone; rewinding the buffer with the last one loses nothing |
| `RecoveryCaches.RecoveryCache.Start` | src/RecoveryCache.cpp:21-25 | an empty window from the given number on |
| `RecoveryCaches.RecoveryCache.GrowBuffer` | src/RecoveryCache.cpp:69-79 | growth keeps the used bytes |
| `RecoveryCaches.RecoveryCache.Contains` | include/fix/core/RecoveryCache.hpp:52-67 | a slot is taken exactly when the map has the number |
| `RecoveryCaches.FilesInsert` | src/RecoveryCache.cpp:53-67 | appending a message to the buffer keeps all slices right and disjoint |
| `RecoveryCaches.FilesConsume` | src/RecoveryCache.cpp:43-50 | clearing a slot keeps them right, even with the buffer rewound when none is left |
| `RecoveryCaches.FilesFit` | include/fix/core/RecoveryCache.hpp:90-93 | no more than 512 entries |
| `LinearBuffers.LinearBuffer.Push` | include/fix/core/LinearBuffer.hpp:75-79 | the stream grows at its end; what is readable stays at its absolute place |
| `LinearBuffers.LinearBuffer.DiscardPrefix` | include/fix/core/LinearBuffer.hpp:82-99 | only the discard point moves |
| `LinearBuffers.LinearBuffer.Compact` | include/fix/core/LinearBuffer.hpp:102-115 | moving the live bytes down changes no byte at any live absolute offset |
| `LinearBuffers.LinearBuffer.EnsureWritable` | include/fix/core/LinearBuffer.hpp:132-145 | there is room afterwards, and nothing else changes |
| `LinearBuffers.LinearBuffer.Grow` | include/fix/core/LinearBuffer.hpp:147-169 | a new array with the same stream |
| `LinearBuffers.LinearBuffer.Readable` | include/fix/core/LinearBuffer.hpp:44-50 | what is readable is the stream from the discard point on |
| `LinearBuffers.LinearBuffer.AbsToReadableRel` | include/fix/core/LinearBuffer.hpp:64-72 | the two address conversions are inverses |
| `Rings.Ring.Push` | include/fix/core/Ring.hpp:45-71 | a full ring grows, rejects or drops its oldest element, by policy; otherwise the element is appended |
| `Rings.Ring.Enlarge` | include/fix/core/Ring.hpp:47-58 | growing re-linearises and keeps the contents |
| `Rings.Ring.PopFront` | include/fix/core/Ring.hpp:84-88 | drops the first element |
| `Rings.Ring.PopBack` | include/fix/core/Ring.hpp:90-94 | drops the last element |
| `Rings.Ring.Front` | include/fix/core/Ring.hpp:73-76 | the first element |
| `Rings.Ring.Back` | include/fix/core/Ring.hpp:78-82 | the last element, also where the tail has wrapped |
| `Framers.Framer.Append` | src/Framer.cpp:9-15 | what was consumed and what is queued is a prefix of the one-shot framing of the whole stream, and all of it if the queue is not full |
| `Framers.Framer.ParseBuffer` | src/Framer.cpp:18-108 | one step refines the step function; no address conversion and no assertion can fail |
| `Framers.Framer.GetMessage` | src/Framer.cpp:120-135 | the bytes of the earliest queued window of the stream |
| `Framers.Framer.ConsumeMessage` | src/Framer.cpp:112-117 | discards up to the end of that window and keeps the rest of the framing |
| `Framers.Framer.Reset` | src/Framer.cpp:142-147 | back to the empty framer |
| `Framers.StepInStep` | src/Framer.cpp:18-108 | every step keeps queued windows ordered, disjoint, inside the readable range and in step with the one-shot framing |
| `Framers.DiscardInStep` | src/Framer.cpp:38-45 | dropping a garbage prefix drops no message |
| `Framers.GarbageIsDropped` | src/Framer.cpp:38-45 | with nothing queued and no message begun in sight, a step keeps nine bytes at most |
| `Resyncing.HeadExactly` | src/Framer.cpp:50-85 | a header is malformed if and only if its bytes are not "9=" or no number of at most 1 MiB up to SOH; where it is one, the message ends that many bytes and seven behind it |
| `Resyncing.BadHeadersSkipped` | src/Framer.cpp:56-80 | malformed headers, one or many, are passed over whatever follows them |
| `Resyncing.ResyncsExactly` | src/Framer.cpp:33-92 | messages sent behind any bytes are framed, exactly these and nothing else, if and only if none of the headers in these bytes is a good one: no BEGIN, bad lengths and cut-off headers are passed over |
| `Resyncing.ReadBehindGarbage` | src/Session.cpp:430-482 | through the read loop: however garbage without a good header and the messages behind it are cut into reads, exactly these messages are handed out |
| `Framing.FramesExtended` | src/Framer.cpp:11-13 | more bytes only add messages at the end |
| `Framing.FramesInOrder` | src/Framer.cpp:81-92 | framed windows are ordered, disjoint and inside the stream |
| `Framing.ScanExtended` | src/Framer.cpp:33-92 | a decision once taken is not changed by more bytes |
| `Reader.ReadAll` | src/Session.cpp:430-482 | however a stream is cut into reads the same messages come out: the first of the one-shot framing, all of them if they fit the queue |
| `Reader.OnRead` | src/Session.cpp:466-474 | one read hands out everything that can be framed |
| `Wires.ParseOfBuild` | src/Parser.cpp:16-77 | what is built parses, without an error, to version, length, the same fields in order, and checksum |
| `Wires.ParseFieldsOfPrint` | src/Parser.cpp:45-75 | printed fields are read back as they were |
| `Wires.LastChecksumTag` | src/Parser.cpp:21-25 | the last "10=" of a built message is its trailer, whatever the values contain |
| `Wires.BuildReads` | src/FactoryScratch.cpp:38-55 | a built message ends in the sum of everything before its trailer, and its body stands between header and trailer |
| `Lexing.ParsesExactly` | src/Parser.cpp:16-77 | a wire parses, and to which fields, if and only if the digits behind its last "10=" say the sum of the bytes before it modulo 256, and the fields lie one behind the other: one to seven digits, an equals sign, a value that is not empty, SOH |
| `Lexing.FailsExactly` | src/Parser.cpp:45-72 | otherwise it fails with the first fault from the left: no tag, no SOH, or no value, and its tag |
| `Lexing.ChecksumFailsExactly` | src/Parser.cpp:20-43 | a failed checksum is reported if and only if there is no "10=" or what stands behind the last one is not that sum |
| `Lexing.FieldReadExactly` | src/Parser.cpp:48-74 | a field is read where it lies, and only there |
| `Damage.SealFailsExactly` | src/Parser.cpp:34-43 | for any bytes and any three digits behind them the checksum fails if and only if the digits do not say the sum |
| `Damage.ChangedByteShows` | src/Parser.cpp:34-43 | one changed byte in front of the trailer of a built message is always found |
| `Damage.LostByteShowsExactly` | src/Parser.cpp:34-43 | one lost byte is found if and only if it is not zero |
| `Damage.OtherDigitsShowExactly` | src/Parser.cpp:26-43 | other digits in the trailer are found if and only if they say another number |
| `Decimals.ParseDecExactly` | src/Parser.cpp:8-14 | exactly the digits 0 to 9, at least one, read as a number |
| `Decimals.ParseDecOfDec` | src/FactoryScratch.cpp:79-82 | a printed number reads as itself |
| `Decimals.DecLength` | src/FactoryScratch.cpp:58-61 | how many digits a number prints with |
| `FrameRoundTrip.BuiltStreamFramesAndParses` | src/Framer.cpp:33-92 | a concatenation of built messages of up to 1 MiB frames back to exactly those messages, and each parses to its fields |
| `FrameRoundTrip.HeadOfBuild` | src/Framer.cpp:50-85 | the header of a built message says where it ends |
| `Scratch.FactoryScratch.InsertBodyLength` | src/FactoryScratch.cpp:58-75 | the placeholder becomes the length of the body, the rest closes up, nothing else changes |
| `Scratch.FactoryScratch.InsertChecksum` | src/FactoryScratch.cpp:38-56 | the trailer with the mod-256 sum of everything before it, in three digits |
| `Scratch.FactoryScratch.ComputeChecksum` | src/FactoryScratch.cpp:27-36 | the sum of the bytes before the checksum |
| `Scratch.FactoryScratch.AddBodyLengthPlaceholder` | src/FactoryScratch.cpp:93-101 | ten digits of room behind "9=" |
| `Scratch.FactoryScratch.AddString` | src/FactoryScratch.cpp:84-91 | printed at the end, across growth of the buffer |
| `Scratch.FactoryScratch.AddField` | src/FactoryScratch.cpp:134-139 | a field with a signed tag and a text printed at the end |
| `Scratch.FactoryScratch.AddIntField` | src/FactoryScratch.cpp:141-146 | a field with a signed tag and a signed number printed at the end |
| `Decimals.ParseSignedOfSigned` | src/FactoryScratch.cpp:79-82 | a printed signed number reads as itself |
| `Scratch.FactoryScratch.EditWindow` | src/FactoryScratch.cpp:157-161 | a window is overwritten and nothing else |
| `Scratch.FactoryScratch.Grow` | src/FactoryScratch.cpp:148-155 | growth keeps what was printed |
| `Parsers.ParseMessage` | src/Parser.cpp:16-77 | the parser returns the parse of the wire, errors included |
| `Parsers.ReadFields` | src/Parser.cpp:45-75 | the field loop, up to the checksum |
| `MessageStores.CreateMessageIndex` | src/MessageStore.cpp:21-64 | one scan makes the index of the message's fields, up to the checksum |
| `MessageStores.IndexPoints` | src/MessageStore.cpp:40-63 | each patch point is the place of the last field with its tag |
| `MessageStores.IndexNumberAndType` | src/MessageStore.cpp:40-59 | number and type in the index are those of the message |
| `MessageStores.IndexStops` | src/MessageStore.cpp:59-62 | nothing from the checksum on is indexed |
| `MessageStores.MessageStore.StoreOutboundMessage` | src/MessageStore.cpp:80-89 | the store holds all messages back to back and entry n - 1 slices out the n-th, also after the blob grew |
| `MessageStores.MessageStore.GetMessageIndex` | src/MessageStore.cpp:113-116 | entry n - 1 is that of message n |
| `MessageStores.MessageStore.GetMessageWire` | src/MessageStore.cpp:118-123 | the n-th wire as it was stored |
| `MessageStores.MessageStore.GrowBlobBuffer` | src/MessageStore.cpp:66-74 | growth keeps the stored bytes |
| `MessageFields.RegenSetsThreeFields` | include/fix/core/MessageFactory.hpp:204-232 | a resend has 43 set to Y, 122 set to the old 52, 52 set to now; every other field keeps its value and its place among the others |
| `MessageFields.RegenKeepsMeaning` | include/fix/core/MessageFactory.hpp:204-232 | a resend stands for the original message, as a possible duplicate |
| `MessageFields.FlagsExactly` | src/Session.cpp:764-777 | possible duplicate, reset and gap fill are set by the first field with their tag saying Y, and by nothing else |
| `MessageFields.PutGets` | include/fix/core/MessageFactory.hpp:213-226 | setting a field sets that field and no other |
| `MessageFields.NoResendIsAdmin` | include/fix/core/MessageStore.hpp:64-80 | the types a resend skips are the admin messages |
| `MessageFields.GapFillMeaning` | include/fix/core/MessageFactory.hpp:131-151 | the printed gap fill stands for the gap fill of the replay |
| `MessageFields.FromAppMeaning` | include/fix/core/MessageFactory.hpp:194-202 | an application message carries its type and number and is an original |
| `MessageFactories.MessageFactory.RegenerateMessage` | include/fix/core/MessageFactory.hpp:204-232 | editing the stored body in place through the index gives the built wire of the resend's fields |
| `MessageFactories.MessageFactory.Patch` | include/fix/core/MessageFactory.hpp:213-226 | the three edits, each through the index of the stored wire |
| `MessageFactories.MessageFactory.FromApp` | include/fix/core/MessageFactory.hpp:194-202 | the built wire of header and application fields; the next number is used up |
| `MessageFactories.MessageFactory.SequenceResetGapFill` | include/fix/core/MessageFactory.hpp:131-151 | the built wire of a gap fill; no number is used up |
| `MessageFactories.MessageFactory.StampTrailer` | include/fix/core/MessageFactory.hpp:255-258 | length and checksum complete the message |
| `MessageFactories.MessageFactory.GetMsgBody` | include/fix/core/MessageFactory.hpp:260-276 | the body between length and checksum, and where it starts |
| `MessageFactories.IndexOfBuild` | src/MessageStore.cpp:21-64 | the index of a built wire points at the fields of its body |
| `MessageFactories.RegenSteps` | include/fix/core/MessageFactory.hpp:213-226 | the index still holds after each edit |
| `Resending.AnswersMeanReplay` | src/Session.cpp:887-897 | the printed answer to a resend request stands for exactly the replay of what the store stands for |
| `Resending.Outbox.Resend` | src/Session.cpp:886-897 | the wires handed out are the built answer; store and numbers stay |
| `Resending.Outbox.Send` | src/Session.cpp:410-420 | numbers and store stay in step: the next number is the one after the last stored message |
| `Resending.SkipAdmins` | include/fix/core/MessageStore.hpp:95-98 | the skipping loop over the real index stops at the first resendable message |
| `Resending.IndexSays` | src/MessageStore.cpp:40-59 | number and resendability in the index are those of the stored message |
| `MpscRings.RunIsQueue` | include/fix/log/MpscRing.hpp:57-78 | over every interleaving of single loads and stores of any number of producers and one consumer: popped values are those of tickets 0, 1, 2, ..., and every other issued ticket is in its cell or held by exactly one producer |
| `MpscRings.StepKeeps` | include/fix/log/MpscRing.hpp:57-78 | every atomic access keeps the invariant of tickets and epochs |
| `MpscRings.DataIsExclusive` | include/fix/log/MpscRing.hpp:57-78 | no two threads touch the data of one cell at a time |
| `MpscRings.OldestDoesNotWait` | include/fix/log/MpscRing.hpp:61-63 | the oldest ticket that was not popped is never blocked: it is published or its producer's next access succeeds |
| `MpscDraining.EverythingComesOut` | include/fix/log/MpscRing.hpp:57-78 | from every state an empty queue can get to, the pushes under way and the consumer can be run to an end at which everything issued has been popped, in order: nothing gets stuck |
| `MpscDraining.PublishedIsPopped` | include/fix/log/MpscRing.hpp:66-78 | a published value is seen and popped by the consumer alone |
| `MpscRings.SlotsApart` | include/fix/log/MpscRing.hpp:30-32 | tickets less than one round apart have different cells |
| `Bits.MaskIsRemainder` | include/fix/log/MpscRing.hpp:30-32 | with a power of two, masking is taking the remainder |
| `Arenas.Arena.Allocate` | src/Arena.cpp:125-130 | never less than asked for; a block comes off the front of the free list and had no owner, otherwise the heap is used |
| `Arenas.Arena.Write` | src/Arena.cpp:80-82 | writing through one handle changes neither the bytes of another nor the free list |
| `Arenas.Arena.Release` | src/Arena.cpp:84-87 | the block goes to the front of the list, and only that block is written to |
| `Arenas.Arena.Destroy` | src/Arena.cpp:53-59 | the end of a handle frees its block and leaves all other bytes alone |
| `Arenas.Arena.MoveConstruct` | src/Arena.cpp:28-42 | the new handle has what the old one had, the old one has nothing |
| `Arenas.Arena.MoveAssign` | src/Arena.cpp:7-26 | what the target had is given back first; a self-assignment changes nothing |
| `Arenas.Arena.constructor` | src/Arena.cpp:65-72 | all blocks are in the list, in order |
| `Arenas.Arena.WriteNext` | src/Arena.cpp:89-92 | one link changes, all others stay |
| `Arenas.Arena.ReadNext` | src/Arena.cpp:94-99 | the link that was written |
| `Arenas.ChainAcyclic` | src/Arena.cpp:94-99 | a list that reaches the sentinel passes no block twice |
| `Arenas.ChainUnique` | src/Arena.cpp:94-99 | memory and start determine the list |
| `Arenas.SplitTake` | src/Arena.cpp:112-123 | taking the first block: it was not owned, and the rest are still exactly the unowned blocks |
| `Arenas.SplitGive` | src/Arena.cpp:84-87 | giving a block back: the list is again exactly the unowned blocks |
| `WritePumps.WritePump.Run` | src/Session.cpp:484-537 | for every order of enqueues, partial completions and transient errors, accepted bytes followed by unsent bytes are everything enqueued, and a write is marked in flight exactly when one is outstanding |
| `WritePumps.WritePump.SendBytes` | src/Session.cpp:422-428 | enqueued behind the rest; a write is started only if none is outstanding |
| `WritePumps.WritePump.OnWritten` | src/Session.cpp:526-533 | a partial completion moves exactly the accepted bytes |
| `WritePumps.WritePump.OnTransientError` | src/Session.cpp:504-512 | the same bytes are written again |
| `WritePumps.WritePump.Drop` | src/Session.cpp:389-391 | when the connection goes, what was accepted is a prefix of what was enqueued |
| `WritePumps.UnsentSnoc` | src/Session.cpp:422-428 | enqueueing adds to the unsent bytes at the end |
| `Validators.Validator.ValidateMessage` | src/Validator.cpp:69-98 | the reports are exactly those of the message, in order; none if and only if it is accepted; fatal if and only if it is none of the session's business |
| `Validators.Validator.ValidateFields` | src/Validator.cpp:100-133 | reported is what is wrong with the fields of the schema up to the first that stops it; if that is nothing, exactly the fields it accounts for are marked |
| `Validators.Validator.ValidateGroups` | src/Validator.cpp:135-243 | a group passes if and only if its entries end somewhere; the walked fields are marked, or the first fault is reported |
| `Validators.Validator.ValidateEntry` | src/Validator.cpp:189-229 | one entry of a group, in schema order: where it ends and which fields are marked, or what is wrong |
| `Validators.Validator.ValidateHeader` | src/Validator.cpp:10-67 | the first of its tests that fails is reported, and is fatal or not; if none does, what the schema finds |
| `Validators.FatalIsNotAccepted` | src/Validator.cpp:17-62 | what ends the session is not accepted |
| `Validators.Validator.ValidateType` | src/Validator.cpp:245-269 | the loops over the bytes of a value decide its type |
| `Conformance.TypeExactly` | include/fix/schema/Field.hpp:41-99 | a value is taken if and only if it looks as its type asks: an optional sign and digits; the same with one point behind the first digit; Y or N; one byte |
| `Conformance.CountExactly` | include/fix/core/utils.hpp:25-33 | a group count is a signed number from 0 to the greatest int |
| `Conformance.AcceptedConforms` | src/Validator.cpp:69-133 | what is accepted conforms, told from its bytes: every value in and outside of groups looks as its type asks, required fields and members are there, groups have their stated number of entries in schema order, every field is claimed, the version is FIX.4.4 and the parties are the session's |
| `Conformance.ConformingIsAccepted` | src/Validator.cpp:69-243 | what conforms is accepted, groups included, where it can be told from the fields where each entry ends |
| `Conformance.AcceptsExactly` | src/Validator.cpp:69-133 | without groups: a message is accepted if and only if it conforms |
| `Conformance.IllTypedIsReported` | src/Validator.cpp:119-122 | a message with a value that does not look as its type asks is not accepted |
| `Conformance.FatalExactly` | src/Validator.cpp:17-62 | which messages are fatal: no FIX 4.4, or length and type in place and no number, or other parties |
| `Conformance.GroupTaken` | src/Validator.cpp:189-239 | delimited entries are walked through to their end |
| `Conformance.PicksAreTaken` | src/Validator.cpp:191-229 | one entry is, whichever of its optional members are there |
| `Reporting.ReportsAreRight` | src/Validator.cpp:10-243 | every report is right: what its tag and code say is the case in the bytes of the message |
| `HandlerFields.HandlersFind` | src/Session.cpp:744-975 | no look-up of a handler fails: in an accepted message of each type the fields its handler reads are there, and numbers where it reads numbers |
| `Reporting.LastReport` | src/Validator.cpp:100-133 | a field at fault is the last that is reported, unless it is a group with a count that reads |
| `Reporting.FirstReport` | src/Validator.cpp:100-133 | the first report about a schema is about its first field that is not as it should be |
| `ValidatorSpec.AcceptedIsSound` | src/Validator.cpp:69-98 | an accepted message has every required field; a field outside of groups has a tag of a schema and is the first with it, so no tag is unknown and none occurs twice |
| `ValidatorSpec.AcceptedGroup` | src/Validator.cpp:110-117 | an accepted group has exactly the stated number of entries, none empty, in schema order, required members present |
| `Validators.StandardIsFlat` | include/fix/message/Header.hpp:22-62 | the standard header and trailer have the flat groups the validator methods ask for |
| `ValidatorSpec.EntryIsInOrder` | src/Validator.cpp:191-229 | where the walk of an entry stops, the entry is complete |
| `ValidatorSpec.GroupIsEntries` | src/Validator.cpp:189-239 | the walk of a group cuts it into its entries |
| `TagScratches.TagScratch.Full` | include/fix/core/Validator.hpp:86-101 | the word-by-word test is true if and only if every index is marked |
| `TagScratches.TagScratch.Set` | include/fix/core/Validator.hpp:103-105 | one index is marked and no other |
| `TagScratches.TagScratch.Clear` | include/fix/core/Validator.hpp:82-84 | nothing is marked |
| `TagScratches.TagScratch.EnsureBits` | include/fix/core/Validator.hpp:75-80 | room for the message, marks unchanged |
| `Bits.MaskTest` | include/fix/core/Validator.hpp:95-98 | the masked comparison is true if and only if all masked bits are set |
| `Bits.OrSets` | include/fix/core/Validator.hpp:103-105 | or-ing in one bit sets that bit and leaves the others |

## Left out

- GapRecovery.GapRecoveryConverges: the first gap must be smaller than the window of 512 numbers; the code files that message without a test, and the assertion in `RecoveryCache::insert` is the only guard.
- GapRecovery.GapRecoveryConverges: the peer has missed nothing itself (q.nextIn is the number of the request); `GapRecovery.PeerAnswersExactly` and `Connections` say what happens otherwise. The receiver has not asked for logout.
- GapRecovery.GapRecoveryConverges: message k and the live messages after it hold no logout, no sequence reset, and no logon that is refused or resets the numbers; what those do to a recovery is in `Draining` and `RecoveryPhase`. What came before message k may be anything.
- Sessions.Session.ProcessWireMessage: requires the first gap to fit the window, for the same reason, and BeginSeqNo of an inbound resend request is at least 1, as the resend stream indexes with BeginSeqNo - 1.
- GapRecovery.GapOpens: asks for a first gap inside the window, for the same reason.
- Connections.HealsExactly: what is stored fits the window of the other end until that is active, for the same reason; ends send application messages, heartbeats and first test requests, the acceptor's application once its session is active, as an initiator waiting for its Logon refuses what comes before; a message is printed so that the other end reads it as what it is. Timers that end a session, logouts and resets are in `LoggingOut`, `Draining` and `OutboundLog`.
- Sessions.Session.DispatchView: requires the first gap to fit the window, for the same reason.
- RecoveryPhase.RunKeepsRecoveryOk: asks for first gaps inside the window, for the same reason.
- Sessions.Session.SendFromApplication: message text (logout and reject reasons, test request ids) is not part of a message's kind beyond what the peer acts on.
- Framers.Framer.Append: with a full queue of 1024 messages parsing waits for the next call, so equality with the one-shot framing is stated for a queue that is not full.
- Reader.ReadAll: says "all messages" only for streams with fewer than 1024 messages; a read that completes more leaves the rest to the next read.
- MessageFactories.MessageFactory.RegenerateMessage: needs values of equal length, as `edit_window` asserts, a SendingTime, and no tag 10 in the body, where the index stops.
- MessageFactories.MessageFactory.FromApp: stands for all builders that print header, own fields and trailer; `SessionMessages.OwnFields` lists the fields of each.
- Resending.Outbox.Send: asks for messages with one MsgSeqNum, one MsgType, one SendingTime and no checksum among their fields.
- AcceptedRecovery.AcceptedRecovers: for tables with the standard header and trailer and bodies that leave fields 9, 10, 43, 52 and 122 to them, as all of the repository's do; every printed message fits a frame of 1 MiB, messages begin with their type, as all builders print them, and the clock prints something without separators.
- Validators.Validator.ValidateGroups: groups are flat; the code advances its index twice behind a nested group.
- Validators.Validator.ValidateEntry: the array of tag counts is a set of tags seen, as only "more than zero" is asked.
- ValidatorSpec.IsDouble: refuses a lone sign, behind which the code reads the byte after the value, its SOH.
- Reports.MessageFaults: the texts of reports are left out, and a Reject carries the number it refers to, not code and tag.
- Schemas.Registered: the look-up is a case distinction, not a binary search over sorted indices.
- MpscRings.RunIsQueue: memory is sequentially consistent, counters are unbounded, and `try_push`, which gives up a ticket it has taken, is not a step.
- WritePumps.WritePump.Run: within one connection; completions that arrive after a reconnect are not modelled.
- Arenas.Arena.Allocate: one arena; heap memory comes as a new array.
- TagScratches.TagScratch.Set: words are numbers below 2^64 with `&` and `|` defined bit by bit, not bit vectors.
- 32-bit and 64-bit wrap-around of offsets, lengths and sequence numbers, and the 16-bit lengths of patch points: numbers are unbounded.
- Boost.Asio connections, timers, strands and reconnect back-off: a timer or a completion is an event.
- Logging, `LogFileSink`, JSON, the shell, `SessionManager`, `SessionPool`, `Registry`: input and output, or look-ups that would add only easy members.
