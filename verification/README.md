# CNshell: a verified model of the backend's state machines

CNshell is a terminal application whose Rust backend keeps encrypted team terminals, an automation
scheduler, a broker for model-context clients, folders, connections and batches, and drives two
small native programs on Windows (a Kermit and a Mosh adapter).  This project models the parts of it
that are state machines and proves what they promise over every input, every run and every
interleaving.

| file | models |
|---|---|
| `Base.dfy` | options, results, machine bounds |
| `TeamRoom.dfy`, `TeamRoomState.dfy`, `TeamProtocol.dfy` | the host's room, the room objects updated in place, and host, clients and network together |
| `Calendar.dfy`, `Scheduler.dfy` | time zones with gaps and repeated hours, the calendar search, ticks and saves |
| `McpRateLimit.dfy`, `McpPaging.dfy`, `McpPaths.dfy` | the broker's rate limiter, its paged directory listings, its remote paths |
| `FolderForest.dfy` | soft-deletable folders and the recursive queries on them |
| `ReconnectDetector.dfy` | messages found in a chunked byte stream |
| `KermitPackets.dfy`, `KermitFile.dfy` | packets and parity on a line, and the buffered file reader |
| `ConnectionStore.dfy`, `BackupImport.dfy`, `ConnectionCommands.dfy` | updates of several stores that are undone when a later step fails |
| `BatchRun.dfy` | workers that share permits, with a cancel at any moment |
| `SocketTable.dfy` | a table of descriptors over native socket handles |

Check everything with `dafny verify dfyconfig.toml`.

## How it is modelled

Each object that the program updates in place is a class.  Its methods keep the object's invariant,
say what the caller gets, and are tied to functions on values (`RoomState.Grant` and `GrantControl`).
Runs are sequences of steps of those functions, and the theorems are about all runs.  Instants are integers, in nanoseconds.

* **Team terminal.**  Cryptography is ideal: a frame carries its plaintext, and a frame verifies
  exactly when the host signed it.  What the team database says of a device (its member and role, and
  whether the caller is the host) comes with each call.  The network keeps every frame the host ever
  signed and may deliver any of them at any time, any number of times, or never.  Checking an
  encrypted input and committing it are two steps, each commit after a check of its own, and any
  other step may come between.
  Assumed: time does not go back, and an encoded frame is no larger than a buffer can be; where a
  theorem says so, what surrounds a sealed payload takes 40 KiB at most.  Nothing is assumed of lease
  ids.
* **Scheduler.**  A zone is any pair of functions between instants and local time that agree with each
  other, with clocks that never go back across the first instant of a local time; two such families
  (clocks put back, clocks put forward) are shown to qualify.
* **Folders, imports, connections.**  Each command is one atomic change; a failed write changes
  nothing, and undoing succeeds.  Every failure point is a parameter.
* **Kermit.**  `gkermit.h` is not part of this model: `MAXRECORD` is any number from 2 on, and a
  length character stands for its code less 32.
* **Socket table.**  New native handles are new, and closing succeeds.

## Findings

Where a property does not hold of the code as it stands, the model keeps the code, shows an input,
and states the condition under which the property holds.

* `receive_input` names the lease by its id alone.  If a relay gave an id to a later lease again, a
  frame that two handlers have checked could commit twice (`AReusedLeaseIdLetsAFrameCommitTwice`).
  `CommitsAgainIff` says exactly when a frame commits again, and `NoFrameCommitsTwice` that it does
  not unless a later lease carries its id.  The relay in this repository makes a new id for each grant
  (`services/team-relay/src/terminal.rs:365`).
* A calendar schedule that catches up can run twice on one date of the clock.  `RunsAgainTodayIff`
  says exactly when; occurrence dates never repeat.
* The rate limiter reads the clock before it takes the lock.  A request whose reading is behind the
  latest one is judged by the minute before that one, so an eleventh write can get into a minute
  (`OutOfOrderClocksExceedTheLimit`).  `LateReadingsAreJudgedByTheLatestMinute` says exactly when, and
  `SkewShortensTheWindow` what holds for readings out of order by any skew.
* `connection_save` and `connection_duplicate` report an error when the row was written and then could
  not be read back; the row stays, while a save takes the secret back.  The row's reference is then
  without a secret if and only if a secret was given, the connection uses no agent, and it had none
  before (`FailedReadBackMayLoseTheSecret`).  In every other case a failed
  save leaves all stores as they were, and a failed duplicate changes exactly what its clearing up
  erases under the new identifier.  That is nothing if and only if nothing was kept there before in
  the stores it clears (`ErasingChangesNothingIff`).
* A batch that is given one connection twice and is not cancelled concludes with a target still queued,
  and in no other case (`ConclusionIsCompleteIffDistinct`); the command that starts batches removes
  repetitions.
* A batch cancelled before its workers have begun is marked running again
  (`MarkedCancelledIffCancelledAfterBegin`).

## Model

| member | source | states |
|---|---|---|
| TeamRoom.PruneKeepsTheLongestSuffix | src-tauri/src/collaboration.rs:119-128 | pruning keeps exactly the longest suffix of the replay window that is fresh and within 512 frames and 4 MiB |
| TeamRoom.PruneKeepsSuffix | src-tauri/src/collaboration.rs:119-128 | pruning drops only from the front, touches nothing else and keeps the byte count equal to the sum of the stored sizes |
| TeamRoom.PublishedFrameIsKept | src-tauri/src/collaboration.rs:119-128 | of frames of any size, exactly those that fit the window on their own survive the pruning that follows their storing |
| TeamRoom.EveryPublishedFrameIsKept | src-tauri/src/collaboration.rs:830-883 | every frame that is published is in the window afterwards, and no receiver refuses it for its size |
| TeamRoom.ReplayReturnsExactlyTheRest | src-tauri/src/collaboration.rs:885-944 | a replay request succeeds if and only if nothing after the acknowledged frame was pruned or never stored, and then returns exactly the frames after it, in order |
| TeamRoom.ReplayAnswersExactly | src-tauri/src/collaboration.rs:885-944 | a replay is answered if and only if the caller may view, the device takes part under the caller's own member, and every frame after the acknowledged one is still there |
| TeamRoom.InvitationStartsAtTheWindow | src-tauri/src/collaboration.rs:588-708 | an invitation starts the client right before the oldest frame that can still be replayed |
| TeamRoom.InvitationSaysExactly | src-tauri/src/collaboration.rs:588-708 | who is invited, as which member and device, from which frame and input on; what a failure to seal leaves; the lease stays |
| TeamRoom.PruneKeepsInv | src-tauri/src/collaboration.rs:119-128 | pruning brings any window with true books within its limits and keeps the room's invariant |
| TeamRoom.PublishKeepsInv | src-tauri/src/collaboration.rs:830-883 | encrypted and plain publishing keep the window consecutive, within limits and truly counted, and leave the lease, its generation and the participants as they were |
| TeamRoom.JoinKeepsInv | src-tauri/src/collaboration.rs:526-586 | joining keeps the room's invariant and publishes nothing |
| TeamRoom.InvitationKeepsInv | src-tauri/src/collaboration.rs:588-708 | inviting keeps the room's invariant, also when sealing the key fails half way |
| TeamRoom.GrantKeepsInv | src-tauri/src/collaboration.rs:1240-1288 | granting keeps the invariant: a held lease carries the current generation and its holder takes part; the generation never goes back |
| TeamRoom.ApplyKeepsInv | src-tauri/src/collaboration.rs:1290-1366 | so does a lease decided by the online relay, whatever its generation |
| TeamRoom.RemoveKeepsInv | src-tauri/src/collaboration.rs:1368-1400 | removing a device keeps the invariant: its lease goes with it |
| TeamRoom.CheckKeepsInv | src-tauri/src/collaboration.rs:1131-1220 | checking an input keeps the room's invariant, publishes nothing and keeps the lease's generation |
| TeamRoom.CommitKeepsInv | src-tauri/src/collaboration.rs:1402-1471 | committing an input keeps the room's invariant |
| TeamRoom.ReplayKeepsInv | src-tauri/src/collaboration.rs:885-944 | answering a replay request keeps the room's invariant |
| TeamRoom.CheckAnticipatesTheCommit | src-tauri/src/collaboration.rs:1131-1220 | the check passes exactly the frames that were made for the room as it is, under the lease that is held, and that a commit would accept at once |
| TeamRoom.CheckPassesExactly | src-tauri/src/collaboration.rs:1131-1220 | a check passes if and only if the frame was made for this room and lease by the holder at its next sequence number, and the holder may still control |
| TeamRoom.CommitPassesExactly | src-tauri/src/collaboration.rs:1402-1471 | a commit passes if and only if the payload has a proper size and the caller holds the live lease of that id at that sequence number |
| TeamRoom.RefusedInputChangesNothing | src-tauri/src/collaboration.rs:1183-1220 | a check, whatever it answers, and a refused commit leave everything as it was but an overdue lease: a repeated or late frame does not cost its sender control |
| TeamRoom.NonParticipantsAreNotHeard | src-tauri/src/collaboration.rs:908-917 | to a device that does not take part nothing is replayed, and no frame or input of it is accepted, whoever calls |
| TeamRoom.OnlyTheHolderIsHeard | src-tauri/src/collaboration.rs:1402-1471 | while a lease is held, no frame made under any other and no other device is heard |
| TeamRoom.ClosedRoomsAreSilent | src-tauri/src/collaboration.rs:1504-1525 | a closed room publishes, replays and hears nothing and lets nobody in, whoever asks and whenever |
| TeamRoomState.LaterThan | src-tauri/src/collaboration.rs:930-943 | collects exactly the frames after a sequence number |
| TeamRoomState.RoomState.constructor | src-tauri/src/collaboration.rs:455-524 | a new room satisfies the invariant at any time |
| TeamRoomState.RoomState.ExpireLease | src-tauri/src/collaboration.rs:109-117 | no lease is held past its time, and once it is overdue nobody is heard |
| TeamRoomState.RoomState.PruneReplay | src-tauri/src/collaboration.rs:119-128 | the popping loop does what pruning does on values |
| TeamRoomState.RoomState.JoinRoom | src-tauri/src/collaboration.rs:526-586 | succeeds exactly for a device that may view, is not another member's and finds room among 64; one that takes part already keeps its place in its input sequence; the invariant and the lease's fence are kept, and a refusal changes nothing |
| TeamRoomState.RoomState.Invite | src-tauri/src/collaboration.rs:588-708 | succeeds exactly for a device that may enter and a sealed key; the invitation names its recipient, the oldest frame that can still be replayed and the recipient's place in its input sequence; only then is all output encrypted |
| TeamRoomState.RoomState.PublishEncryptedOutput | src-tauri/src/collaboration.rs:830-883 | the frame has the next sequence number and is the last one kept; the invariant is kept, and a refusal changes nothing |
| TeamRoomState.RoomState.PublishOutput | src-tauri/src/collaboration.rs:946-990 | plain output gets the next sequence number, and there is none where encryption is on; the invariant is kept, and a refusal changes nothing |
| TeamRoomState.RoomState.ReplayFrames | src-tauri/src/collaboration.rs:885-944 | exactly the participants are answered, under their own member, and without a gap, from the frame after the acknowledged one to the latest; other callers change nothing |
| TeamRoomState.RoomState.Grant | src-tauri/src/collaboration.rs:1240-1288 | succeeds exactly for a participant who may control and 10 to 300 seconds; then the generation is the next one, only that device is heard, and no frame made under an earlier lease; the invariant is kept, and a refusal changes nothing |
| TeamRoomState.RoomState.ApplyControlLease | src-tauri/src/collaboration.rs:1290-1366 | succeeds exactly for a live lease of a participant that is newer than all before or is the one held; the generation never goes back and only the lease's holder is heard; a refusal changes nothing |
| TeamRoomState.RoomState.Remove | src-tauri/src/collaboration.rs:1368-1400 | a removed device, never the host's, is not heard at any time; another device keeps its lease while it lasts |
| TeamRoomState.RoomState.Revoke | src-tauri/src/collaboration.rs:1473-1494 | nobody is heard afterwards, and the generation stays, so later leases outrank earlier frames |
| TeamRoomState.RoomState.CloseRoom | src-tauri/src/collaboration.rs:1504-1525 | only the host closes the room; it is silent afterwards, for every caller and at every time, and keeps its counters; a refusal changes nothing |
| TeamRoomState.RoomState.CheckEncryptedInput | src-tauri/src/collaboration.rs:1131-1220 | passes exactly the frames that were made for the room as it is, by the holder of the lease at its next sequence number; whatever the answer, a live lease is kept |
| TeamRoomState.RoomState.ReceiveInput | src-tauri/src/collaboration.rs:1402-1471 | exactly the next input of the holder of a live lease is accepted, and it is used up: no check and no commit of it passes in the room it leaves; a refusal leaves a live lease |
| TeamRoomState.ClientRoomState.constructor | src-tauri/src/collaboration.rs:793-828 | of all frames a new session takes only the one the host signed right after the sequence number its invitation names |
| TeamRoomState.AcceptInvitation | src-tauri/src/collaboration.rs:710-828 | a session begins exactly with an invitation that leaves it a next frame and a place in the input sequence |
| TeamRoomState.ClientRoomState.DecryptOutput | src-tauri/src/collaboration.rs:992-1065 | shows a frame if and only if the host signed it as the next one, once, and then waits for the one after it; anything else leaves the session as it was |
| TeamRoomState.ClientRoomState.EncryptInput | src-tauri/src/collaboration.rs:1067-1129 | consecutive input sequence numbers; a refused call uses none up |
| TeamProtocol.RoomsOfARun | src-tauri/src/collaboration.rs:61-137 | every room of every run satisfies the invariant |
| TeamProtocol.SessionsShowExactlyTheLog | src-tauri/src/collaboration.rs:992-1065 | whatever the network loses, repeats, reorders or replays, a session has shown exactly the published log from where it began to its next sequence number, in order and once each |
| TeamProtocol.PlainOutputStopsForGood | src-tauri/src/collaboration.rs:974-983 | in every run the log is plain up to some point and encrypted from there, and where encryption is on every plain output is refused |
| TeamProtocol.ReplayCatchesUp | src-tauri/src/collaboration.rs:885-944 | a client that asks for everything after its last frame and feeds the answer back has shown the whole log |
| TeamProtocol.InvitedMayBegin | src-tauri/src/collaboration.rs:588-828 | an invited device is offered exactly its invitation, and accepting it begins a session right after the frame it names |
| TeamProtocol.PublishedIsShown | src-tauri/src/collaboration.rs:830-1065 | what the host publishes is logged and sent, and shown by every session that is up to date and gets the frame |
| TeamProtocol.DeliverInOrder | src-tauri/src/collaboration.rs:1029-1065 | consecutive frames handed to a session in order are all shown |
| TeamProtocol.AcceptedInputsClimb | src-tauri/src/collaboration.rs:1131-1471 | under every interleaving of checks, commits, grants, online leases, revocations, expiry, removals and rejoining, accepted inputs climb strictly by generation and sequence number |
| TeamProtocol.AcceptedInputsHaveNoGaps | src-tauri/src/collaboration.rs:1402-1471 | in every run, within one lease generation each accepted input has the sequence number after the one before |
| TeamProtocol.TwiceOnlyUnderALaterLease | src-tauri/src/collaboration.rs:1131-1471 | in every run, a frame that is handed to the terminal again comes under a later lease that carries the same id |
| TeamProtocol.NoFrameCommitsTwice | src-tauri/src/collaboration.rs:1131-1471 | an accepted frame is not handed over again if no later lease carries its id, whatever else is reused |
| TeamProtocol.CommitsAgainIff | src-tauri/src/collaboration.rs:1402-1471 | in every run, a checked frame accepted before is accepted again if and only if its device holds a live later lease of the same id, stands at the frame's sequence number again, and the caller may control |
| TeamProtocol.CommitsExactly | src-tauri/src/collaboration.rs:1402-1471 | what a commit of a checked frame asks of the room and the caller, and what it then records |
| TeamProtocol.AcceptedAsSigned | src-tauri/src/collaboration.rs:1131-1471 | under a lease id that was issued once, what is handed over is what was signed, at the generation it was signed for |
| TeamProtocol.AReusedLeaseIdLetsAFrameCommitTwice | src-tauri/src/collaboration.rs:1402-1471 | a run with a check before each commit in which a reused lease id lets one frame commit twice |
| TeamProtocol.ControlLapses | src-tauri/src/collaboration.rs:1240-1471 | whatever goes on in the room meanwhile, from five minutes after the last grant or online lease on no input is accepted, whichever checks passed before |
| TeamProtocol.AHeldLeaseStays | src-tauri/src/collaboration.rs:1131-1525 | in every run a lease is held until its time is over or a newer lease, a revocation, the holder's removal or the end of the room takes it |
| TeamProtocol.TheHolderIsHeard | src-tauri/src/collaboration.rs:1402-1471 | so until then its holder's next input is accepted |
| TeamProtocol.ARemovedDeviceStaysOut | src-tauri/src/collaboration.rs:1368-1400 | in every run a removed device is neither heard nor answered, whoever calls and whenever, until it joins or is invited again |
| TeamProtocol.AClosedRoomStaysSilent | src-tauri/src/collaboration.rs:1504-1525 | a closed room publishes nothing, invites nobody and accepts no input, for good |
| Calendar.NextCalendarRun | src-tauri/src/automation.rs:194-234 | the loop over 15 dates finds what the search on values finds |
| Calendar.NextCalendarIsTheEarliest | src-tauri/src/automation.rs:194-234 | the search returns the earliest later occurrence other than the last one, the first of an ambiguous pair, and fails exactly when none falls on the 15 dates |
| Calendar.LaterOccurrencesFallOnLaterDates | src-tauri/src/automation.rs:194-251 | two occurrences of one pattern never share a local date, even when the wall time comes twice |
| Calendar.WeekdaysFollowOneAnother | src-tauri/src/automation.rs:206-212 | weekdays follow one another, from a Thursday on day 0 |
| Calendar.ClockChangesCohere | src-tauri/src/automation.rs:205-220 | zones whose clocks are put back or forward satisfy the assumption on zones |
| Scheduler.CollectDuePlans | src-tauri/src/automation.rs:268-318 | one pass updates every stored schedule as a tick does and lists the due plans in order |
| Scheduler.DueOfParts | src-tauri/src/automation.rs:268-318 | the due plans of a list are those of its parts, in order |
| Scheduler.TickRunsExactly | src-tauri/src/automation.rs:282-313 | a schedule is run if and only if its next run has come and it does not skip misfires or is late by no more than 120 s by the calendar, 30 s once, or its own interval (15 s when stored with blanks) |
| Scheduler.TickMovesOn | src-tauri/src/automation.rs:253-266 | once the next run has come, run or skipped, a one-off is over, an interval starts anew at the tick, and the calendar goes on with its earliest later occurrence |
| Scheduler.TickWaits | src-tauri/src/automation.rs:274-291 | before that nothing changes but that a missing next run is planned and a one-off whose time is over is switched off |
| Scheduler.NextRunExactly | src-tauri/src/automation.rs:83-137 | a one-off runs at its time, an interval after the later of now and its last run, the calendar at its earliest occurrence |
| Scheduler.SaveKeepsTheCursors | src-tauri/src/automation.rs:139-164 | a save keeps the stored cursors whatever the client sends, and is refused exactly for an invalid schedule, another identifier, or an enabled schedule that would never run |
| Scheduler.RunsStrictlyIncrease | src-tauri/src/automation.rs:83-318 | over any run of ticks and re-saves, runs strictly increase, interval runs are a full interval apart, calendar occurrences fall on distinct dates, and a one-off runs once |
| Scheduler.SkippedMisfiresNeverRunLate | src-tauri/src/automation.rs:288-311 | a schedule that skips misfires never runs later than its grace allows, over any run |
| Scheduler.ASecondPassRunsNothing | src-tauri/src/automation.rs:253-318 | a second pass at the same instant runs nothing |
| Scheduler.RunsAgainTodayIff | src-tauri/src/automation.rs:253-266 | after a run the next one is on the same date of the clock if and only if today's wall time is still to come |
| Scheduler.OnlyALateRunSharesItsDate | src-tauri/src/automation.rs:253-318 | of two runs on one date of the clock the earlier was late, on a later date than its occurrence, or the clock had been put back across midnight for the later; where dates never go back, today's wall time was still to come at the earlier run |
| Scheduler.CatchingUpRunsTwiceOnOneDay | src-tauri/src/automation.rs:268-318 | a daily schedule that catches up an hour before its time runs twice on that date |
| Scheduler.LivesKeepTheirInvariant | src-tauri/src/automation.rs:139-318 | ticks and saves keep every plan's next run after all its earlier ones |
| McpRateLimit.McpRuntime.AuthorizeRate | src-tauri/src/mcp.rs:424-447 | a request touches its own client's queue of its own kind and no other |
| McpRateLimit.LimiterFollowsTheRule | src-tauri/src/mcp.rs:424-447 | the queue decides exactly as "fewer than the limit were accepted in the last 60 s" over the full history |
| McpRateLimit.NoWindowExceedsTheLimit | src-tauri/src/mcp.rs:424-447 | no 60-second window between resets holds more than the limit |
| McpRateLimit.QueueIsTheLastMinute | src-tauri/src/mcp.rs:424-447 | after a request the queue holds exactly the accepted requests of the minute before it |
| McpRateLimit.LateReadingsAreJudgedByTheLatestMinute | src-tauri/src/mcp.rs:424-447 | a request whose clock reading is behind the latest one is let through if and only if the minute before the latest one has room, hence against the rule exactly when its own minute has none |
| McpRateLimit.SkewShortensTheWindow | src-tauri/src/mcp.rs:424-447 | for any series of requests whose clock readings are out of order by some skew at most, no window of 60 seconds less that skew holds more than the limit |
| McpRateLimit.OutOfOrderClocksExceedTheLimit | src-tauri/src/mcp.rs:424-447 | clock readings out of order let an eleventh write into a minute |
| McpPaging.CursorRoundTrip | src-tauri/src/mcp.rs:2632-2645 | a cursor decodes to the offset it was made from, exactly up to a million |
| McpPaging.CursorsDecodeExactly | src-tauri/src/mcp.rs:2636-2645 | exactly the cursors that decode: the prefix, perhaps a plus sign, and digits of a number up to a million |
| McpPaging.DigitsCountByTens | src-tauri/src/mcp.rs:2636-2645 | digits are read as a decimal number |
| McpPaging.BoundedFileListResponse | src-tauri/src/mcp.rs:1374-1403 | the popping loop finds the page that the bound on values finds |
| McpPaging.BoundedIsTheLongestFit | src-tauri/src/mcp.rs:1374-1403 | a page is the longest prefix that fits, never empty when there is something to list |
| McpPaging.PageAdvances | src-tauri/src/mcp.rs:1325-1403 | every page is a further stretch of the listing |
| McpPaging.APageHoldsWhatIsAskedFor | src-tauri/src/mcp.rs:1325-1372 | what a request asks for, 100 entries unless it names 1 to 500, it gets if that fits, with a cursor exactly when more is left |
| McpPaging.PastTheEndThereIsNothing | src-tauri/src/mcp.rs:1325-1372 | a cursor past the end leads to an empty page and no further |
| McpPaging.FollowingTheCursorsListsEverything | src-tauri/src/mcp.rs:1325-1403 | following the cursors ends with the whole directory, every entry once and in order, for any limits and sizes |
| McpPaths.NormalizeRemotePath | src-tauri/src/mcp.rs:2486-2516 | the loop over segments computes the normal form, or refuses |
| McpPaths.NormalizeIsIdempotent | src-tauri/src/mcp.rs:2486-2516 | normalising a normal path is accepted and changes nothing |
| McpPaths.NormalizeOfSegments | src-tauri/src/mcp.rs:2486-2516 | an absolute path is refused if and only if it has a `..`, a NUL or more than 32 KiB, and otherwise keeps its segments but the empty ones and dots |
| McpPaths.EveryPathIsSlashed | src-tauri/src/mcp.rs:2486-2516 | every absolute path is its segments with slashes before them, and every other path is refused |
| McpPaths.WithinMeansComponentPrefix | src-tauri/src/mcp.rs:2518-2524 | on normal paths the textual test holds exactly when the root's components begin the path's |
| FolderForest.Descendants | src-tauri/src/db.rs:280-282 | the recursive query ends on a forest and selects exactly the rows below a folder |
| FolderForest.Database.SaveFolder | src-tauri/src/db.rs:256-293 | accepts a parent exactly when it is another live folder outside the subtree, and keeps the forest |
| FolderForest.Database.DeleteFolder | src-tauri/src/db.rs:294-312 | deletes exactly the live subtree and detaches exactly the connections in it |
| FolderForest.Database.MoveConnection | src-tauri/src/db.rs:313-336 | files a live connection in a live folder or in none |
| FolderForest.SaveRefusesExactlyWhatBreaksTheForest | src-tauri/src/db.rs:265-285 | the checks of a save refuse a parent if and only if accepting it would break the forest |
| FolderForest.SavingKeepsTheForest | src-tauri/src/db.rs:256-293 | a parent outside the folder's own subtree never closes a cycle |
| FolderForest.DeletingKeepsTheForest | src-tauri/src/db.rs:294-312 | after a deletion every live folder's parent is still live |
| FolderForest.LiveFoldersAreAForest | src-tauri/src/db.rs:256-312 | after any series of saves, moves and deletions the live folders are an acyclic forest in which a row is found at one depth only |
| ReconnectDetector.Detector.Observe | src-tauri/src/mosh.rs:65-93 | whatever the chunking, the answer is the one a reader of the whole stream would give |
| ReconnectDetector.TailSuffices | src-tauri/src/mosh.rs:66-80 | the last 512 bytes hide no occurrence that ends in the next chunk, and report none twice |
| ReconnectDetector.ReadLoop | src-tauri/src/mosh.rs:464-494 | sends one status event at each change, and no other |
| ReconnectDetector.EventsAlternate | src-tauri/src/mosh.rs:464-494 | statuses strictly alternate, beginning with reconnecting |
| ReconnectDetector.EveryEventIsJustified | src-tauri/src/mosh.rs:464-494 | reconnecting comes on a chunk that completes a message, online on one two seconds or more after the last such chunk |
| KermitParity.ParityIsExact | scripts/kermit-windows/gkermit-windows-io.c:180-201 | the byte sent is the only one with the right parity that reads back as the data |
| KermitParity.ParityTwice | scripts/kermit-windows/gkermit-windows-io.c:180-201 | a byte that carries its parity is sent unchanged |
| KermitParity.ParityAllTwice | scripts/kermit-windows/gkermit-windows-io.c:291-295 | sending a buffer again sends the same bytes |
| KermitParity.StripUndoesParity | scripts/kermit-windows/gkermit-windows-io.c:252-253 | masking what is read gives back what was sent |
| KermitPackets.Port.Ttinl | scripts/kermit-windows/gkermit-windows-io.c:233-285 | stores exactly one packet, its terminating zero and nothing else, for any line, limit, parity, start and turn character |
| KermitPackets.Port.Ttol | scripts/kermit-windows/gkermit-windows-io.c:287-305 | puts out the whole buffer with its parity, in any pieces, or a proper part of it and an error |
| KermitPackets.Port.AddParity | scripts/kermit-windows/gkermit-windows-io.c:291-295 | gives the buffer its parity in place, and touches nothing past its length |
| KermitPackets.Port.WriteAll | scripts/kermit-windows/gkermit-windows-io.c:296-303 | short writes lose, repeat and reorder nothing |
| KermitPackets.Measure | scripts/kermit-windows/gkermit-windows-io.c:264-275 | the reader's three variables know the packet's length as soon as its header tells it |
| KermitPackets.FrameLengthOfPacket | scripts/kermit-windows/gkermit-windows-io.c:264-277 | a packet's length is known from the second byte of a short and the sixth of a long one, and from no earlier, and is the packet's |
| KermitPackets.PacketsComeThrough | scripts/kermit-windows/gkermit-windows-io.c:233-305 | any short and long packets, under any parity and with any noise between them, are read back as exactly those packets |
| KermitPackets.ReadsExactly | scripts/kermit-windows/gkermit-windows-io.c:233-285 | a read ends the session if and only if it hears three interrupts in a row; otherwise it stores all from the first start character on and stops with the first finished packet, the first byte too many, or the end of the line |
| KermitPackets.SendAll | scripts/kermit-windows/gkermit-windows-io.c:287-305 | packets sent one after the other are on the line in order, each once, with their parity |
| KermitPackets.Transfer | scripts/kermit-windows/gkermit-windows-io.c:233-305 | what one side sends through `ttol`, in whatever pieces, the other reads through `ttinl` as exactly those packets |
| KermitPackets.EncodingIsInjective | scripts/kermit-windows/gkermit-windows-io.c:264-277 | no two packets have the same bytes |
| KermitFile.Reader.ZFillBuf | scripts/kermit-windows/gkermit-windows-io.c:448-469 | takes the next byte off what is still to come, and answers -1 exactly at its end |
| KermitFile.Reader.FillLine | scripts/kermit-windows/gkermit-windows-io.c:450-459 | fills the buffer with the next stretch of the expanded file and stays inside it |
| KermitFile.Reader.FillRecord | scripts/kermit-windows/gkermit-windows-io.c:460-463 | fills the buffer with the next bytes unchanged and stays inside it |
| KermitFile.Reader.constructor | scripts/kermit-windows/gkermit-windows-io.c:344-354 | after opening, the whole file is still to come |
| KermitFile.ReadAll | scripts/kermit-windows/gkermit-windows-io.c:448-469 | reading to the end yields the file, with every line feed expanded when it is text, at any record size |
| KermitFile.ExpansionIsReversible | scripts/kermit-windows/gkermit-windows-io.c:453-459 | any file, whatever its bytes, is got back from its expansion by taking out the carriage return before each line feed |
| KermitFile.ExpandKeepsTheFile | scripts/kermit-windows/gkermit-windows-io.c:453-459 | taking the carriage returns out of the expansion of a file that had none gives the file back |
| ConnectionStore.PutBack | src-tauri/src/commands.rs:193-199 | putting back what was stored undoes any change at that identifier |
| BackupImport.Importer.ImportFile | src-tauri/src/backup.rs:312-460 | all or nothing: succeeds exactly when the file is accepted and every step works, and any error leaves both stores as they were |
| BackupImport.Importer.StoreInputs | src-tauri/src/backup.rs:410-460 | a failing credential or database step undoes everything before it |
| BackupImport.Importer.RollbackCredentials | src-tauri/src/backup.rs:462-470 | works the undo log off from its end |
| BackupImport.Importer.ImportConnections | src-tauri/src/db.rs:99-117 | stores every row or none |
| BackupImport.PrepareInputs | src-tauri/src/backup.rs:372-406 | accepts the file exactly when every entry is valid, renamed where it conflicts and with references only to what is there |
| BackupImport.InputsSayWhatEntriesSay | src-tauri/src/backup.rs:372-406 | an input says what its entry says, but for the identifier and name of a conflicting one and a folder or proxy that is not there |
| BackupImport.TheLastEntryStays | src-tauri/src/backup.rs:410-460 | of the entries with one identifier the last is stored, with its secret and a reference to it where SSH without an agent gives one |
| BackupImport.OneEntryAtATime | src-tauri/src/db.rs:99-117 | other entries bring no secret, and keep the reference of a connection with the same kind of authentication |
| BackupImport.UndoLast | src-tauri/src/backup.rs:462-470 | undoing in reverse takes back the last change first, also for a repeated identifier |
| BackupImport.UndoingForwardsLosesTheValue | src-tauri/src/backup.rs:462-470 | undoing from the front would not |
| BackupImport.SyncKeepsLiveConnections | src-tauri/src/backup.rs:286-383 | synchronising never changes a live local connection or its secret |
| BackupImport.ImportKeepsSecretsBehindReferences | src-tauri/src/backup.rs:410-460 | an import stores a secret for every reference it records |
| BackupImport.ImportedReferencesExist | src-tauri/src/db.rs:72-97 | what an imported row refers to is there |
| ConnectionCommands.App.ConnectionSave | src-tauri/src/commands.rs:63-191 | succeeds exactly when every step it takes works; an error leaves every store as it was unless the row was written and not read back |
| ConnectionCommands.App.SaveForAgent | src-tauri/src/commands.rs:81-105 | the same for connections that keep no secret |
| ConnectionCommands.SaveIsRefusedOnlyFor | src-tauri/src/commands.rs:63-80 | when every step works a save is refused only for invalid input, or a remote-desktop connection without a secret given or kept |
| ConnectionCommands.SaveStoresTheInput | src-tauri/src/db.rs:176-192 | the row holds what was edited, and is live |
| ConnectionCommands.SaveStoresTheSecret | src-tauri/src/commands.rs:106-127 | a secret that is given is stored, with a reference to it |
| ConnectionCommands.SaveKeepsTheSecret | src-tauri/src/db.rs:176-192 | without one, and with the same kind of authentication, the secret and its reference stay: editing a connection does not forget its password |
| ConnectionCommands.SaveDropsTheSecret | src-tauri/src/commands.rs:110-121 | without one, and with another kind of authentication, a live connection loses both, and of a deleted one the secret stays without a reference |
| ConnectionCommands.SaveForAnAgentKeepsNothing | src-tauri/src/commands.rs:81-105 | a connection that uses an agent is left with no secret, bookmark or reference |
| ConnectionCommands.SaveLeavesTheKey | src-tauri/src/commands.rs:128-150 | the key's bookmark is kept for an unchanged path, made anew for another, and taken away otherwise |
| ConnectionCommands.SaveLeavesTheCertificate | src-tauri/src/commands.rs:151-172 | so is the certificate's |
| ConnectionCommands.App.ConnectionDuplicate | src-tauri/src/commands.rs:234-350 | succeeds exactly when every step works; before the row is written a failure has changed nothing, afterwards exactly what the failing step's clearing up erases, and a row that could not be read back stays |
| ConnectionCommands.DuplicateIsRefusedOnlyFor | src-tauri/src/commands.rs:234-255 | when every step works a duplicate is made of every live connection, and refused only for invalid input or an identifier that is taken |
| ConnectionCommands.App.ConnectionPurge | src-tauri/src/commands.rs:362-395 | succeeds exactly on a deleted row when every step works; an error puts everything back |
| ConnectionCommands.ErasingChangesNothingIff | src-tauri/src/commands.rs:256-350 | clearing up after a failed duplicate changes nothing if and only if nothing was kept under the new identifier in the stores it clears |
| ConnectionCommands.FailedDuplicateLeavesNoTrace | src-tauri/src/commands.rs:256-350 | a duplicate under an identifier without a trace leaves every store as it was, whichever step fails |
| ConnectionCommands.RemovingErases | src-tauri/src/commands.rs:256-350 | clearing up takes the copy away, whatever had been copied so far, and leaves exactly the erased state |
| ConnectionCommands.SaveKeepsOthers | src-tauri/src/commands.rs:63-191 | a save changes nothing that belongs to another connection |
| ConnectionCommands.SaveKeepsSecretsBehindReferences | src-tauri/src/commands.rs:63-191 | a save never leaves a reference without its secret |
| ConnectionCommands.FailedReadBackMayLoseTheSecret | src-tauri/src/db.rs:176-192 | after a failed read-back every reference still has its secret if and only if no secret was given, the connection uses an agent, or it had a secret before |
| ConnectionCommands.SecretLostByFailedReadBack | src-tauri/src/db.rs:176-192 | a new connection with a password loses its secret that way |
| ConnectionCommands.DuplicateKeepsOthers | src-tauri/src/commands.rs:234-350 | a duplicate changes nothing that belongs to another connection |
| ConnectionCommands.DuplicateCopiesTheRow | src-tauri/src/commands.rs:201-232 | the copy is the source under a new identifier and name |
| ConnectionCommands.DuplicateCopiesWhatIsKept | src-tauri/src/commands.rs:256-350 | the copy has its own secret, bookmarks and remote-desktop options, equal to the source's |
| ConnectionCommands.PurgeLeavesNoTrace | src-tauri/src/commands.rs:362-395 | after a purge no store mentions the connection, and rows, secrets, bookmarks, state, jump hosts and history of all others are as they were |
| BatchRun.BatchEntry.SetTargetRunning | src-tauri/src/batch.rs:149-159 | marks the first target of that connection running |
| BatchRun.BatchEntry.FinishCancelledTarget | src-tauri/src/batch.rs:160-171 | marks the first target of that connection cancelled |
| BatchRun.BatchEntry.FinishTarget | src-tauri/src/batch.rs:172-213 | the first target of that connection is completed on an exit with code 0, failed on another code or a broken execution, cancelled on an aborted one, with the exit code; no other target changes |
| BatchRun.BatchEntry.CancelAll | src-tauri/src/batch.rs:117-134 | cancels exactly the queued targets |
| BatchRun.CompletedIffEveryTargetIs | src-tauri/src/batch.rs:214-229 | a concluded batch is marked completed if and only if every target is and no cancel came after the beginning |
| BatchRun.TargetsTellWhatWasReported | src-tauri/src/batch.rs:172-213 | in every run over distinct connections a target is completed if and only if its worker reported an exit with code 0, and its exit code is the one reported |
| BatchRun.CompletedIffEveryCommandSucceeded | src-tauri/src/batch.rs:172-229 | a concluded batch is marked completed if and only if every command exited with 0 and no cancel came after the beginning |
| BatchRun.CollectConnections | src-tauri/src/commands.rs:2303-2323 | every connection is chosen once, in the order of first mention, if all are live SSH connections; otherwise the first that is missing or of another kind is reported |
| BatchRun.PermitsSuffice | src-tauri/src/batch.rs:73-104 | never more permits out than there are, in any interleaving |
| BatchRun.EveryRunIsSafe | src-tauri/src/batch.rs:71-229 | at most `concurrency` targets run, every target has ended when the batch is concluded, and a completed batch has only completed targets |
| BatchRun.NeverStuck | src-tauri/src/batch.rs:73-106 | a begun batch that is not concluded always has a worker's step or the conclusion to take |
| BatchRun.StepsAreBounded | src-tauri/src/batch.rs:73-106 | no run takes more than five steps for each connection and one for the conclusion, whatever is cancelled |
| BatchRun.EveryBatchConcludes | src-tauri/src/batch.rs:71-107 | from any point of any run a begun batch reaches its conclusion within the steps that are left |
| BatchRun.ConclusionIsCompleteIffDistinct | src-tauri/src/batch.rs:149-229 | a batch concludes with every target ended if and only if no connection was given twice or it was cancelled at some point |
| BatchRun.CancelledRunsLeaveNothing | src-tauri/src/batch.rs:117-213 | for any connections, after a cancel no target is queued, and every running target has a worker that executes it |
| BatchRun.CancelSticks | src-tauri/src/batch.rs:117-134 | a cancel after the beginning decides the batch's status for good |
| BatchRun.MarkedCancelledIffCancelledAfterBegin | src-tauri/src/batch.rs:71-72 | a begun batch is marked cancelled if and only if a cancel came after the beginning |
| BatchRun.CancelledTargetsNeverRun | src-tauri/src/batch.rs:87-90 | a target whose worker had not read the flag when the batch was cancelled never runs |
| SocketTable.Table.Lookup | scripts/mosh-windows/mosh-windows-compat.cc:36-42 | finds the handle of a descriptor in use, for any descriptor |
| SocketTable.Table.Adopt | scripts/mosh-windows/mosh-windows-compat.cc:49-58 | gives the lowest free descriptor, or none when the table is full |
| SocketTable.Table.Socket | scripts/mosh-windows/mosh-windows-compat.cc:88-106 | a new socket gets the lowest free descriptor, and no handle leaks when it cannot |
| SocketTable.Table.CloseSocket | scripts/mosh-windows/mosh-windows-compat.cc:169-176 | frees exactly that descriptor and its handle |
| SocketTable.Table.DupSocket | scripts/mosh-windows/mosh-windows-compat.cc:178-187 | the lowest free descriptor stands for the same endpoint |
| SocketTable.Table.Dup2Socket | scripts/mosh-windows/mosh-windows-compat.cc:189-203 | the destination stands for the source's endpoint, also when it was occupied or the source itself, and the replaced handle is closed |
| SocketTable.Exchanged | scripts/mosh-windows/mosh-windows-compat.cc:197-202 | replacing a slot's handle keeps every open handle in exactly one slot |
| SocketTable.RefusedIffFull | scripts/mosh-windows/mosh-windows-compat.cc:49-58 | a new socket is refused if and only if 61 native sockets are open |

## Left out

- Key exchange, signatures, sealing, encoding and key storage: idealised as above.
- The manager's map of rooms, its limit of 16 rooms, snapshots, events, terminal and online ids, the
  wall-clock expiry of invitations: they decide whether a call is made, not what it does to a room.
- TeamRoom.EveryPublishedFrameIsKept: what an encoded frame takes besides its payload is a parameter of 40 KiB at most, because the encoder is a library and the identifiers in it have no fixed length.
- Pruning reads the clock once for each call; the program reads it again at each turn of the loop.
- Cron schedules, because their matching is in a library; and dates beyond the calendar's range.
- Scheduler.OnlyALateRunSharesItsDate: in a zone whose clocks were put back across midnight it names two possible causes and does not say which of them holds; elsewhere the cause is exact.
- Scheduler.RunsStrictlyIncrease: the only edit of a saved schedule is its on/off switch; saves of other edits start a new plan.
- The text of schedule expressions, except that surrounding blanks in an interval shorten its misfire grace.
- The steps of automation plans and their execution.
- McpRateLimit.NoWindowExceedsTheLimit: requests are in the order of their clock readings, because the property fails without it; one late reading is stated exactly, and several by the window they shorten.
- Stopping the broker and invalidating clients, which reset the limiter; permits, approvals and audit.
- The directory listing's own cap of 100,000 entries and its failures; prefixes of Windows paths.
- The order of folders and the trimming of their names; the gap between checking and inserting in a save, which is not one transaction.
- ReconnectDetector.ReadLoop: what happens after the stream ends (exit status, clean-up) is not modelled.
- KermitPackets.PacketsComeThrough: the turn character is absent, because no session sets one; the packet reader itself is modelled with it.
- KermitPackets.Port.Ttinl: deadlines and closed pipes are one parameter, the code of the read that finds no more bytes; the length of a control character below 32 is negative.
- Names of files sent and received by Kermit, backups of files, and reading errors within a file.
- ConnectionCommands.App.ConnectionSave: field validation is a parameter, and the row's times are not modelled.
- Undoing that fails, and credential writes that fail half way.
- Opening, decrypting and decoding a backup file: a parameter of the import.
- The validation and the destructiveness test of batch commands; the output and duration of targets; the instant between setting the cancel flag and marking the queued targets.
- Error codes of the system's sockets, the reading and writing of sockets, failing closes, and descriptors near the smallest 32-bit integer.
- Command history and jump hosts of a purged connection are modelled only as references to it.
- Settings, remote desktops, file transfer, monitoring, plugins and the whole user interface.
