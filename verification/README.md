# Verified model of the monitoring agent's state machines and codecs

ServerBox watches servers from an app. A Rust agent on the server collects
metrics and serves a panel, a crate shared with the app prints and parses the
status script, and on iOS a C bridge runs a local shell. This project models the
parts of these that hold state, share it between threads, or write text that
another part has to read back, and proves what they are there for.

| file | models |
|---|---|
| `LoginThrottle.dfy` | login backoff on two keys, with a TTL and size-triggered pruning |
| `PushRateLimiter.dfy` | the sliding window on push deliveries |
| `SessionTable.dfy` | the iOS bridge's table of sessions and their overwrite-oldest rings |
| `PtyDelivery.dfy` | reader thread, reaper thread and receiver of a local shell, interleaved |
| `Utf8.dfy`, `Base64.dfy`, `Text.dfy` | the encodings and string operations the formats below rest on, defined rather than assumed |
| `ScriptSegments.dfy` | the sections of the status script's output |
| `CustomCmdStore.dfy` | the directory of custom commands as an ordered store |
| `CustomCmdListing.dfy` | the listing of that directory that the app parses |
| `FsRoots.dfy` | path resolution against roots, over a file system with symbolic links |
| `ConfigFile.dfy` | saving `config.toml`: backup, pruning, atomic replacement, crashes |
| `ConfigHandlers.dfy` | the three handlers that edit that file, interleaved under one lock |
| `DiskTrees.dfy` | the two walks over a tree of disks |
| `RateSeries.dfy` | network speeds, processor usage and the bounded history |
| `CollectionLoop.dfy` | the collection loop: schedule, failures, values carried forward |
| `SseCodec.dfy` | the codec of the bridge between app and shared crate |
| `OutputCut.dfy` | cutting output at a character boundary |

What the source updates in place is a class whose methods are proved against a
specification function; what it computes is a function. Threads, handlers and
crashes are step relations or recorded histories, and the theorems quantify over
all runs, schedules and failures. Every lemma carries `{:induction false}`: the
proof is the one that is written.

Some promises hold under a condition only, and then the condition is proved, in
both directions where the text says "if and only if":

- A custom-command list reads back if and only if it has at most 999 commands;
  the order prefix of the thousandth has a sixth digit and sorts early. An
  installed list is listed back in its own order if and only if its file names
  ascend; in general the last command of each order and name is, by file name.
- A directory listing parses to exactly the commands in the directory if and only
  if none of its files is misread. A file is misread if its name holds a space or a
  line break and one of the name's lines is taken for a command's. A line that is not
  the last one is, if a command's file name stands before its first space and base64
  of text after it. The last line is, if the file name of a command is all of it or
  stands before its first space, and after that comes nothing but whitespace, the
  content being text, or base64 of text, the content being empty.
- Replacing the custom-command directory is documented to show the old set or the
  new one at every moment. The code removes the old directory, entry by entry,
  before it renames the new one into place, so a replacement that succeeds always
  shows the old list or the new one if and only if there was no command before, or
  one at most and none after. What is met is never some of each.
- The predicted path of something that does not exist yet is the one it gets if
  and only if the deepest ancestor that resolves is a directory and nothing, not
  even a dangling link, has the first missing name.
- Sections round-trip if and only if no command prints a well-formed marker line.
- The codec round-trips if and only if every length is below 2^31.
- A slot of the session table delivers all it was sent if and only if its ring never
  overflowed. A session gets its own terminal's output and nothing else in every run
  in which each handle is closed once at most, and neither closed nor read except
  between its return and its close. Exactly, a step keeps every session apart from
  the others if and only if it is no close out of turn under somebody who has the
  slot, and no read by a handle already closed where somebody else has something to
  read. One handle closed twice is enough to put two sessions into one slot, and one
  read after its close to take a byte from its successor.
- Guesses from an address, or against a username, are bounded by how many of its
  logins are at once between their check and their record: with one, at most twelve
  and one for every five minutes; with c, c times that. Other logins may overlap
  freely. The login handler sets no limit on how many overlap, and each one counts: c
  at once make c guesses every five minutes, so two already break the bound for one.
- A read of a session's emptied ring tells the end if and only if its process has
  exited; until then it answers that there is nothing yet.

## Model

| member | source | states |
|---|---|---|
| LoginThrottle.Check | monitor/src/api/ratelimit.rs:102-112 | the wait is the largest remainder any of the keys imposes; there is none exactly when no key imposes one |
| LoginThrottle.Throttle.RecordFailureAt | monitor/src/api/ratelimit.rs:114-132 | the map becomes what pruning and then one failure per key make of it |
| LoginThrottle.Throttle.RecordSuccess | monitor/src/api/ratelimit.rs:95-100 | both keys of the login are forgotten and every other entry stays |
| LoginThrottle.RecordedEntry | monitor/src/api/ratelimit.rs:114-144 | a failure counts against the address it came from and the username it tried: one more, or the first again after an idle hour; every other key keeps its entry, or is dropped exactly if the map is large and it has been idle |
| LoginThrottle.SuccessForgets | monitor/src/api/ratelimit.rs:95-100 | a success forgets the address and the username of the login and nothing else |
| LoginThrottle.RefusedExactly | monitor/src/api/ratelimit.rs:102-144 | a login is refused exactly if the penalty of its address or of its username has not run out, whatever the other is |
| LoginThrottle.WaitIsExact | monitor/src/api/ratelimit.rs:102-112 | as long as nothing is recorded a refused login stays refused until the wait it was told has passed, each time with what is left of it, and no longer |
| LoginThrottle.EarlierClockWaitsInFull | monitor/src/api/ratelimit.rs:102-112 | a clock reading from before the last failure waits the penalty in full |
| LoginThrottle.PenaltyIsCapped | monitor/src/api/ratelimit.rs:31-67 | no penalty is longer than five minutes, which is less than the TTL |
| LoginThrottle.PruningIsInvisible | monitor/src/api/ratelimit.rs:102-132 | over every run of checks, failures and successes in clock order, from any map and any pruned version of it, every answer is that of a throttle that never prunes |
| LoginThrottle.PruningIsInvisibleFromEmpty | monitor/src/api/ratelimit.rs:38-132 | the same, from the empty map |
| LoginThrottle.CreditOfFreshKey | monitor/src/api/ratelimit.rs:31-67 | the backoff below the cap is worth 3089 seconds in all |
| LoginThrottle.CreditIsBounded | monitor/src/api/ratelimit.rs:31-67 | no entry, however many failures it counts, has more of that left than a fresh one |
| LoginThrottle.OneMoreFailureCosts | monitor/src/api/ratelimit.rs:57-132 | the potential argument: time passed plus credit spent between two failures is at least five minutes, also across a TTL reset |
| LoginThrottle.GuessesApart | monitor/src/api/ratelimit.rs:102-132 | with one login at a time any two failures recorded against a key, an address or a username, are as far apart as the full waits between them, less the credit of a fresh key; with more at once, they fail that often each |
| LoginThrottle.Arrive | monitor/src/api/server.rs:344-355 | the first half of the login handler, its check, is one step of the runs the bound is about |
| LoginThrottle.Finish | monitor/src/api/server.rs:363-392 | the second half of the login handler, unless the request broke off, records how the login ended: one step of the runs the bound is about |
| LoginThrottle.PruningKeepsFailures | monitor/src/api/ratelimit.rs:114-132 | pruning changes neither when failures are recorded in a run of overlapping logins nor how many are in flight |
| LoginThrottle.RecordGoesFurther | monitor/src/api/ratelimit.rs:57-132 | recording a login puts a key five minutes of backoff further than it stood when that login was checked, whatever was recorded meanwhile |
| LoginThrottle.GuessingIsBounded | monitor/src/api/ratelimit.rs:57-132 | checks and records at moments of their own, overlapping at will: with at most c logins from an address, or of a username, in flight and none that succeeds, its failures in any closed interval number at most c times 12 plus one per five minutes, whatever the other key of each is, whatever else is logged in and whatever is pruned |
| LoginThrottle.BoundIsAttained | monitor/src/api/ratelimit.rs:57-132 | an attacker who waits exactly as told, one login at a time, meets that bound with equality, for every number of guesses from 13 on |
| LoginThrottle.EveryLoginInFlightCounts | monitor/src/api/server.rs:344-392 | the factor is real: a run with c logins in flight makes c guesses every five minutes, for as long as it goes on |
| LoginThrottle.OverlappingAttemptsBreakTheBound | monitor/src/api/server.rs:344-392 | two logins in flight already exceed the bound for one, and any number passes in a single instant |
| PushRateLimiter.Limiter.Check | monitor/src/monitoring/push.rs:28-36 | the queue loses exactly its expired head, and the answer is whether fewer than the quota are left; nothing is consumed |
| PushRateLimiter.Limiter.Acquire | monitor/src/monitoring/push.rs:39-45 | one delivery is appended to the queue of that name and no other queue changes |
| PushRateLimiter.CheckThenAcquire | monitor/src/monitoring/rules.rs:48-59 | check and then acquire, as alerts are sent, is one step of the model the theorems are about |
| PushRateLimiter.Expire | monitor/src/monitoring/push.rs:31-33 | what is left of a queue starts within the window, and what was cut off had all left it |
| PushRateLimiter.DroppingHeadsLosesNothing | monitor/src/monitoring/push.rs:28-45 | over every run in clock order the answers are those of a limiter that remembers every delivery and counts those within the window |
| PushRateLimiter.DroppingHeadsLosesNothingFromEmpty | monitor/src/monitoring/push.rs:28-45 | the same, from no deliveries |
| PushRateLimiter.DeliveriesAreSpaced | monitor/src/monitoring/push.rs:28-45 | every delivery of a name is more than a window later than the one a quota before it |
| PushRateLimiter.NoWindowHoldsMoreThanTheQuota | monitor/src/monitoring/push.rs:28-45 | no closed interval of the window's length holds more deliveries of one name than the quota |
| SessionTable.Session.Append | ios/Runner/ish/sbm_ish.c:207-213 | the ring, read from tail to head, becomes the last 262143 bytes of unread and new together |
| SessionTable.Session.Drain | ios/Runner/ish/sbm_ish.c:581-585 | the reader gets the oldest unread bytes, as many as fit, and exactly those leave the ring |
| SessionTable.Session.Claim | ios/Runner/ish/sbm_ish.c:481-483 | a claimed slot is used, empty, without terminal and not exited |
| SessionTable.Table.constructor | ios/Runner/ish/sbm_ish.c:168-177 | a table of eight free, empty slots |
| SessionTable.Table.SessionOf | ios/Runner/ish/sbm_ish.c:182-186 | the first used slot with that terminal, or -1 |
| SessionTable.Table.ConsoleWrite | ios/Runner/ish/sbm_ish.c:195-217 | the table makes the step of a guest's write, and the whole length is reported written even when the bytes are dropped |
| SessionTable.Table.GuestExited | ios/Runner/ish/sbm_ish.c:295-305 | the first used slot of that process records the exit status, shifted as the engine passes it |
| SessionTable.Table.Reserve | ios/Runner/ish/sbm_ish.c:471-484 | the first free slot is claimed, or -EMFILE when there is none and nothing changes |
| SessionTable.Table.Attach | ios/Runner/ish/sbm_ish.c:509-512 | the reserved slot gets its terminal and process |
| SessionTable.Table.Abort | ios/Runner/ish/sbm_ish.c:542-546 | the failure path frees the slot and changes nothing else |
| SessionTable.Table.Read | ios/Runner/ish/sbm_ish.c:549-591 | bytes delivered, 0 for nothing yet, -1 for a finished or unused session, -EINVAL for bad arguments; the buffer holds the bytes and the ring has lost them |
| SessionTable.Table.Close | ios/Runner/ish/sbm_ish.c:626-634 | the slot is freed and its terminal forgotten; an index outside the table changes nothing |
| SessionTable.RunKeepsConsistent | ios/Runner/ish/sbm_ish.c:182-217 | over every run of opens, guest writes, exits, reads and closes, used slots have distinct terminals, and a slot without one has nothing to read |
| SessionTable.GuestWriteReachesItsOwner | ios/Runner/ish/sbm_ish.c:195-217 | a guest's write changes the ring of the one slot that owns its terminal and nothing else in the table |
| SessionTable.CloseOrphans | ios/Runner/ish/sbm_ish.c:626-641 | after a close no used slot owns the terminal |
| SessionTable.OrphanedWritesReachNoSlot | ios/Runner/ish/sbm_ish.c:195-217 | until the terminal is handed out again, what its old guest prints reaches no slot, however the table is used meanwhile |
| SessionTable.ExitIsRecorded | ios/Runner/ish/sbm_ish.c:295-305 | the exit of a process is recorded in the first used slot it runs in, without the signal byte, and nowhere else; that of a process that runs nowhere is not recorded |
| SessionTable.ReadsTellTheEnd | ios/Runner/ish/sbm_ish.c:581-591 | over every run from its reservation on in which the slot stays open, a read answers -1 if and only if its process has exited and its ring is empty; otherwise how many bytes it got: all there are, up to the length asked for |
| SessionTable.ReusedSlotStartsEmpty | ios/Runner/ish/sbm_ish.c:471-512 | in a run that closes no handle twice, a session whose terminal is attached starts with an empty ring, whatever its slot held before |
| SessionTable.StreamIsSubsequence | ios/Runner/ish/sbm_ish.c:195-217 | over any run in which a slot serves one session, what was read and what is unread, together, is a subsequence of what was there and what was written |
| SessionTable.StreamIsConserved | ios/Runner/ish/sbm_ish.c:195-217 | every byte written is read, unread, or counted as overwritten |
| SessionTable.LosslessExactlyWithoutOverflow | ios/Runner/ish/sbm_ish.c:207-213 | a session reads exactly what was written to it, up to what is still unread, if and only if its ring never overflowed |
| SessionTable.CallKeepsOneEach | ios/Runner/ish/sbm_ish.c:466-547 | a step of openers, holders of handles or guest keeps it that a slot has one opener or holder at most, and holds that one's terminal, if and only if it is no close out of turn under somebody who has the slot |
| SessionTable.CallSparesSession | ios/Runner/ish/sbm_ish.c:466-547 | while a session lives, no step reserves its slot anew or gives it another terminal |
| SessionTable.RefusedExactlyWhenFull | ios/Runner/ish/sbm_ish.c:471-546 | in every run that closes no handle twice an open is refused exactly if every slot has an opener or a holder: neither a failed open nor a closed session loses a slot |
| SessionTable.ExitEndsItsSession | ios/Runner/ish/sbm_ish.c:295-305 | the exit of a session's process ends that session and no other |
| SessionTable.HarmlessExactly | ios/Runner/ish/sbm_ish.c:549-634 | a step keeps that, and for every session that what its handle gets and what it could still read is what it could read and what its terminal prints, less what is lost, if and only if it is no close out of turn under somebody who has the slot and no read by a handle already closed that finds something |
| SessionTable.RunIsSoundExactly | ios/Runner/ish/sbm_ish.c:549-634 | the same of every run, step by step |
| SessionTable.SessionReadsItsOwnOutput | ios/Runner/ish/sbm_ish.c:155-163 | in every run from the start in which handles are closed once at most, and closed and read in turn only, each session: what its own handle was given, and what it could still read, is what its terminal printed while it lived, in order; all of it if and only if nothing was overwritten or left unread at its end |
| SessionTable.DoubleCloseMixesSessions | ios/Runner/ish/sbm_ish.c:626-634 | open, close, open, close the first handle again, open: two opens share a slot, and the third session reads what the second one's guest printed |
| SessionTable.LateReadTakesOutput | ios/Runner/ish/sbm_ish.c:549-591 | open, close, open, and read the first handle late: it gets the byte that the second session's guest printed, which the second session misses though nothing was overwritten |
| PtyDelivery.StepKeepsInv | monitor/src/ssh/local_pty.rs:157-220 | every step of reader, reaper or receiver keeps the invariant that ties channel, gate and done flag together |
| PtyDelivery.DeliveryIsOrdered | monitor/src/ssh/local_pty.rs:157-220 | in every interleaving the channel's history is data followed by at most one exit and nothing after; the data is an in-order prefix of the chunks read, short by at most one |
| PtyDelivery.OnlyTheLastChunkIsLost | monitor/src/ssh/local_pty.rs:163-175 | a chunk that is left out is the last one read, found by a closed gate or a dropped receiver |
| PtyDelivery.PromptReaderLosesNothing | monitor/src/ssh/local_pty.rs:157-220 | a reader past its loop before the gate closes, the receiver being there, has everything it read delivered before the exit |
| PtyDelivery.DroppedReceiverCostsAChunk | monitor/src/ssh/local_pty.rs:171-173 | the receiver has to be there: a send that finds it dropped leaves one chunk undelivered with the gate still open |
| PtyDelivery.DrainedReaderLosesNothing | monitor/src/ssh/local_pty.rs:190-220 | if the reaper never gives up waiting for the reader and the receiver is there, everything read is sent, and the exit after it |
| PtyDelivery.ReaderStopsForAReason | monitor/src/ssh/local_pty.rs:157-178 | in every run the reader goes on until its terminal ends, the gate is closed or the receiver is gone, and past its end it reads no more |
| PtyDelivery.ExitCarriesItsStatus | monitor/src/ssh/local_pty.rs:190-220 | in every run an exit that is sent carries the status the child was seen to exit with, and without that there is none |
| PtyDelivery.NoDeadlock | monitor/src/ssh/local_pty.rs:157-220 | in every reachable state some internal step is enabled unless nothing is left to do |
| PtyDelivery.InternalRunsAreShort | monitor/src/ssh/local_pty.rs:157-220 | internal steps run out within a measure of the work there is |
| PtyDelivery.ExitIsDelivered | monitor/src/ssh/local_pty.rs:190-220 | once the child was seen to exit, every schedule in which the receiver drains delivers that exit last, with its status, even with the reader blocked for ever and the channel full |
| Utf8.DecodesExactlyEncodings | crates/sbm_parser/src/script.rs:132-138 | UTF-8 decoding accepts exactly what encoding produces (RFC 3629, section 3) |
| Utf8.TableOfBytes | crates/sbm_parser/src/script.rs:132-138 | the encoding of a character is the row of the table that RFC 3629, section 3, has for it |
| Base64.DecodeEncode | crates/sbm_parser/src/script.rs:127-138 | base64 decoding undoes encoding, in both alphabets |
| Base64.Decode | crates/sbm_parser/src/script.rs:127-138 | whatever decodes is the canonical, padded encoding of what it decodes to (RFC 4648, sections 3.2, 3.5, 4 and 5) |
| Base64.GroupIsSpelled | crates/sbm_parser/src/script.rs:127-138 | a group of one, two or three bytes is spelled by its six-bit parts, high bits first, and padded (RFC 4648, section 4) |
| Base64.AlphabetIs | crates/sbm_parser/src/script.rs:127-138 | the two alphabets, symbol by symbol (RFC 4648, sections 4 and 5) |
| Base64.GroupsFollow | crates/sbm_parser/src/script.rs:127-138 | the groups follow one another |
| Text.TrimCuts | crates/sbm_parser/src/script.rs:431 | trimming cuts all whitespace off both ends and nothing else |
| Text.SpacesAreListed | crates/sbm_parser/src/script.rs:431 | whitespace is the 25 code points of the Unicode property White_Space |
| ScriptSegments.MarkerNameIsExact | crates/sbm_parser/src/script.rs:127-138 | an encoded name decodes to a name exactly when it is the prefix and the encoding of that name |
| ScriptSegments.MarkerIsExact | crates/sbm_parser/src/script.rs:438-445 | a line opens a section exactly when it is the marker the printers produce for that key |
| ScriptSegments.MarkersAreSpelled | crates/sbm_parser/src/script.rs:127-160 | what a marker and a key are, letter by letter |
| ScriptSegments.ParseScriptSegments | crates/sbm_parser/src/script.rs:416-461 | the line loop computes the recursive reading of the lines |
| ScriptSegments.PreambleIsIgnored | crates/sbm_parser/src/script.rs:446-456 | lines before the first marker contribute nothing |
| ScriptSegments.PrintedSectionsParseBack | crates/sbm_parser/src/script.rs:141-160 | any printed sections with plain bodies parse back to their keys, in order, with trimmed bodies, after any plain preamble |
| ScriptSegments.EveryMarkerIsASection | crates/sbm_parser/src/script.rs:416-461 | there are as many sections as marker lines, plus one that was open |
| ScriptSegments.RoundTripNeedsPlainBodies | crates/sbm_parser/src/script.rs:416-461 | the round trip holds if and only if no body line is a well-formed marker |
| ScriptSegments.JoinedOutputsParseApart | monitor/src/monitoring/monitoring.rs:482-498 | two outputs joined by a newline parse to the joined sections, if the second begins with a marker |
| ScriptSegments.CrlfParsesAlike | crates/sbm_parser/src/script.rs:437 | output with CRLF line ends parses as the same output with LF |
| CustomCmdStore.FileNameReadsBack | crates/sbm_parser/src/script.rs:97-125 | a file name gives back its name, with or without the platform's extension, and its order, if and only if a word of 32 bits holds it |
| CustomCmdStore.ListingIsUnique | monitor/src/monitoring/custom_cmds.rs:76-97 | what reading a directory finds is determined, whatever order its entries come in |
| CustomCmdStore.ReadDir | monitor/src/monitoring/custom_cmds.rs:76-97 | the commands returned are those of every file that holds one and can be opened, in the order of the file names; a missing directory reads as none; it is an error exactly if the directory cannot be listed or the type of an entry cannot be told |
| CustomCmdStore.DigitsAreOrdered | crates/sbm_parser/src/script.rs:91-99 | among numbers of one width the order of the digits is that of the numbers |
| CustomCmdStore.FilesAreOrdered | monitor/src/monitoring/custom_cmds.rs:116-119 | up to the 999th command, file-name order is list order |
| CustomCmdStore.ThousandthIsMisplaced | monitor/src/monitoring/custom_cmds.rs:116-119 | the file of the thousandth command sorts before that of its predecessor |
| CustomCmdStore.WrittenListReadsBack | monitor/src/monitoring/custom_cmds.rs:76-128 | a list with distinct names, written and read back, is the same list if and only if it has at most 999 commands |
| CustomCmdStore.Validate | monitor/src/monitoring/custom_cmds.rs:130-155 | a list is refused exactly when it is not valid, for the first fault in it, with the error the checks give in their order |
| CustomCmdStore.FaultExplains | monitor/src/monitoring/custom_cmds.rs:130-155 | what the error says of the command it is about is so: the name is blank, of more than 64 bytes, begins or ends with whitespace, or is that of an earlier command, or the command is blank |
| CustomCmdStore.FirstFaultIsOne | monitor/src/monitoring/custom_cmds.rs:130-155 | the first command that is not valid has one fault and one only |
| CustomCmdStore.Store.RemoveDir | monitor/src/monitoring/custom_cmds.rs:122 | removal goes entry by entry: it shows only parts of the old directory, passes through every number of commands left, and leaves none if it can finish |
| CustomCmdStore.Store.MoveIntoPlace | monitor/src/monitoring/custom_cmds.rs:122-127 | the new directory takes the place of the old, which was gone before |
| CustomCmdStore.AlwaysOldOrNew | monitor/src/monitoring/custom_cmds.rs:99-103 | what is met during a replacement always reads as the old list or the new one, in whatever order the entries go, if and only if there was no command before, or one at most and none after |
| CustomCmdStore.EmptyMomentIsNeither | monitor/src/monitoring/custom_cmds.rs:122-127 | with a command before and one after there is a moment that reads as neither |
| CustomCmdStore.Store.WriteDir | monitor/src/monitoring/custom_cmds.rs:109-128 | success leaves exactly the new set, beside what resisted removal in a left-over temporary directory; whatever fails and whenever a cycle looks, it meets part of the old set or the whole new one; and exactly when it always finds the old list or the new one |
| CustomCmdStore.WhatResistsIsLeft | monitor/src/monitoring/custom_cmds.rs:109-115 | what resists removal from a left-over temporary directory is left as it was, and nothing else |
| CustomCmdStore.WrittenOverReadsBack | monitor/src/monitoring/custom_cmds.rs:109-128 | written over what was left in the temporary directory, a list reads back if and only if it has at most 999 commands and overwrites every command that was left |
| CustomCmdStore.Store.Replace | monitor/src/monitoring/custom_cmds.rs:104-107 | a refused list changes nothing; when a written one reads back, to the same condition |
| CustomCmdListing.ParseCustomCmdsListing | crates/sbm_parser/src/script.rs:323-347 | the loop computes the recursive reading of the lines |
| CustomCmdListing.LineReadsBack | crates/sbm_parser/src/script.rs:302-312 | what a printed line parses to, whatever its file is called and holds |
| CustomCmdListing.ListingIsRead | crates/sbm_parser/src/script.rs:291-347 | what a printed listing parses to, after any noise, with LF or CRLF, whatever the files are called, spaces and line breaks included |
| CustomCmdListing.FileIsReadExactly | crates/sbm_parser/src/script.rs:338-344 | a file reads back as what the directory reader makes of it if and only if it is not misread; if it is, a command is made of a file that holds none |
| CustomCmdListing.ListingReadsBack | crates/sbm_parser/src/script.rs:291-347 | a printed listing parses to exactly the files that are the app's, in printed order, if and only if no file is misread |
| CustomCmdListing.NoListingWithoutMarker | crates/sbm_parser/src/script.rs:323-347 | there is no listing exactly when no line is the directory marker |
| CustomCmdListing.InstalledListsBack | crates/sbm_parser/src/script.rs:233-347 | whatever is installed in whatever order, the listing of the directory parses to the commands sorted by file name, the last of each order and name; and to what was installed if and only if the file names ascend |
| CustomCmdListing.WrittenDirectoryListsBack | monitor/src/monitoring/custom_cmds.rs:109-128 | the listing of what the agent wrote parses to the list it was given, with its orders, if and only if it has at most 999 commands |
| CustomCmdListing.SpacedNameIsMisread | crates/sbm_parser/src/script.rs:338-344 | two files that are misread: an empty one called after a command's file and its content, and one called after a command's file and a space |
| FsRoots.RefusedUpFront | monitor/src/core/fs_roots.rs:159-173 | refused before anything is looked up are exactly the paths that do not start with a slash, and those with two dots between their slashes |
| FsRoots.StepsAreTheParts | monitor/src/core/fs_roots.rs:159-173 | between slashes, nothing and a dot name nothing, two dots go up, and anything else is a name |
| FsRoots.UnrestrictedMeansEverything | monitor/src/core/fs_roots.rs:101-103 | the roots include `/` exactly when every path is a root and names below it |
| FsRoots.Resolve | monitor/src/core/fs_roots.rs:70-81 | the roots are the canonical forms of the configured paths that resolve, in order |
| FsRoots.RootsAreCanonical | monitor/src/core/fs_roots.rs:70-81 | every root exists and passes through no link |
| FsRoots.RootsAreThoseConfigured | monitor/src/core/fs_roots.rs:70-81 | a path is a root exactly if one of those configured leads there |
| FsRoots.RootFromWorkingDirectory | monitor/src/core/fs_roots.rs:70-81 | a canonical path, written relative to the working directory, configures itself |
| FsRoots.RootIsWhatWasWritten | monitor/src/core/fs_roots.rs:70-81 | so it does written absolutely; the empty path configures nothing |
| FsRoots.ResolveNew | monitor/src/core/fs_roots.rs:127-157 | the ancestor walk and the rebuilding compute the anchor and the names below it; the walk terminates |
| FsRoots.Rebuild | monitor/src/core/fs_roots.rs:147-156 | pushing the tail in reverse gives the names below the anchor in order |
| FsRoots.ExistingIsDecided | monitor/src/core/fs_roots.rs:105-182 | for a path that leads to p both resolvers answer p if p is a root and names below it, and refuse it otherwise |
| FsRoots.MissingIsDecided | monitor/src/core/fs_roots.rs:105-182 | a path that leads nowhere is refused by the one; the other accepts it exactly if its deepest ancestor that exists is a root and names below it |
| FsRoots.AcceptedLiesUnderARoot | monitor/src/core/fs_roots.rs:105-182 | whatever either resolver accepts is a root and names below it |
| FsRoots.NewNamesAreAppended | monitor/src/core/fs_roots.rs:127-157 | names that are not there yet, written after an existing directory, are accepted exactly if the directory lies under a root, and then as they were written |
| FsRoots.ReturnedPathsAreFixed | monitor/src/core/fs_roots.rs:109-182 | a canonical path, printed and asked for again, is answered by both resolvers with itself, exactly if it lies under a root |
| FsRoots.ResolversAgreeOnExisting | monitor/src/core/fs_roots.rs:105-157 | for a path that resolves, the two resolvers return the same |
| FsRoots.WalkInLegs | monitor/src/core/fs_roots.rs:132-135 | canonicalising in two legs is canonicalising once |
| FsRoots.LinkStandsForItsTarget | monitor/src/core/fs_roots.rs:109-118 | a link leads where its target does, read from the top or from where the link is, and costs one of the links that may be followed |
| FsRoots.UpTakesBack | monitor/src/core/fs_roots.rs:109-118 | two dots take back the name before them, and stay at the top |
| FsRoots.WalkSurvives | monitor/src/core/fs_roots.rs:132-135 | what is created later does not change where an existing path leads |
| FsRoots.WalkIsCanonical | monitor/src/core/fs_roots.rs:109-118 | a canonical path exists and passes through no link |
| FsRoots.CanonicalIsFixed | monitor/src/core/fs_roots.rs:109-118 | a canonical path is its own canonical form, so opening it opens what was checked |
| FsRoots.CanonicalPrediction | monitor/src/core/fs_roots.rs:109-182 | when the path does not exist yet, the resolver for existing paths returns the prediction once the missing directories are created, if and only if the anchor is a directory and nothing, not even a dangling link, has the first missing name |
| ConfigFile.Directory.WriteFile | monitor/src/core/config_file.rs:81 | a truncating write touches that file only, at every character of it |
| ConfigFile.Directory.PruneBackups | monitor/src/core/config_file.rs:141-168 | only backups go, and the newest five are left if the directory can be listed and the rest removed |
| ConfigFile.NewestKeptIsPruned | monitor/src/core/config_file.rs:141-168 | no two backups being of one age, exactly those with fewer than five newer ones are left |
| ConfigFile.Directory.WriteAtomic | monitor/src/core/config_file.rs:102-134 | the file is replaced exactly if creation, write, flush and rename succeed; at every step it holds all of the old configuration or all of the new one, flushed |
| ConfigFile.Directory.BackUp | monitor/src/core/config_file.rs:78-89 | the backup and the pruning never touch `config.toml`; done without fault they leave what pruning makes of the directory with the new backup |
| ConfigFile.Directory.Write | monitor/src/core/config_file.rs:69-92 | after every system call of a save `config.toml` is wholly old or wholly new; success depends on the replacement alone, never on the backup |
| ConfigFile.HistoryIsBounded | monitor/src/core/config_file.rs:69-168 | over any run of saves at increasing times, the backups are exactly what the last five saves that backed anything up replaced |
| ConfigFile.BackupsAreTheLastFive | monitor/src/core/config_file.rs:69-168 | the same, from a directory without backups |
| ConfigFile.HeldAreEarlier | monitor/src/core/config_file.rs:94-100 | along such a run the backups are older than the next save and of distinct ages |
| ConfigHandlers.AppState.Update | monitor/src/api/server.rs:717-753 | each setting is what the file then holds in its own field, the origins likewise, and the live settings follow from those, field by field; a failed read or write changes nothing |
| ConfigHandlers.AppState.Disable | monitor/src/api/server.rs:781-802 | full access is off in the file and in the running agent; a failure changes neither |
| ConfigHandlers.AppState.Reorder | monitor/src/api/server.rs:842-859 | only the card order changes |
| ConfigHandlers.LiveOfFollows | monitor/src/core/config.rs:198-209 | which live setting comes from which field, with the default where the field is missing, saturating |
| ConfigHandlers.NoFieldIsLost | monitor/src/api/server.rs:715-859 | field by field, the file holds what the last committed request that writes the field put there, and its old value where none did |
| ConfigHandlers.EndpointsCommute | monitor/src/api/server.rs:715-859 | two requests commute on every configuration if and only if they are to different endpoints or the same |
| ConfigHandlers.RunKeepsInv | monitor/src/api/server.rs:715-859 | every interleaving of handlers, with any failures, keeps mutual exclusion and the tie between file, live state and committed requests |
| ConfigHandlers.HandlersAreSerializable | monitor/src/api/server.rs:715-859 | in every interleaving the file is the fold of the committed requests in the order of the lock, no committed field is lost, and full access once disabled stays disabled in the file |
| ConfigHandlers.UndisturbedIsCommitted | monitor/src/api/server.rs:715-859 | a handler that has the lock and meets no fault commits its request and lets go of the lock |
| ConfigHandlers.FaultChangesNothing | monitor/src/api/server.rs:715-859 | one that cannot read or write the file changes nothing and lets go of the lock |
| ConfigHandlers.SomeoneGoesOn | monitor/src/api/server.rs:715-859 | as long as a handler has not answered, some handler can go on |
| ConfigHandlers.IdleAgentRunsWhatIsWritten | monitor/src/api/server.rs:750-797 | whenever the lock is free the live settings are those of the file, and full access is off exactly if a request disabled it |
| ConfigHandlers.SwitchIsOneWay | monitor/src/api/server.rs:797 | no step of any handler switches full access on again, and nothing committed is taken back |
| DiskTrees.WalkFlat | monitor/src/monitoring/monitoring.rs:721-736 | the recursive walk lists the first real node of every path not seen before, parents first |
| DiskTrees.FlattenDisks | monitor/src/monitoring/monitoring.rs:720-740 | the rows are the details of those nodes |
| DiskTrees.WalkSums | monitor/src/monitoring/monitoring.rs:850-876 | the recursive walk accumulates over those same nodes |
| DiskTrees.AggregateDisks | monitor/src/monitoring/monitoring.rs:849-888 | the metrics are their sums, in bytes |
| DiskTrees.PercentIsShare | monitor/src/monitoring/monitoring.rs:831-833 | a percentage is the used part of a hundred of the whole, and nothing of nothing |
| DiskTrees.DetailTells | monitor/src/monitoring/monitoring.rs:723-733 | a row tells where its disk is and what it is, in bytes |
| DiskTrees.RowsAreTheRealPaths | monitor/src/monitoring/monitoring.rs:720-740 | the rows have distinct paths; each is the first node with its path, has a size and is, on Linux, under `/dev`; and every path of such a node has a row |
| DiskTrees.WalksAgree | monitor/src/monitoring/monitoring.rs:720-888 | both views report the same used space; the aggregate total is at most the rows', and equal if and only if no two rows are volumes of one pool |
| DiskTrees.PoolKeyIs | monitor/src/monitoring/monitoring.rs:840-844 | the volumes of one numbered disk with the same size and free space have one key, other disks none |
| DiskTrees.EachPoolCountsOnce | monitor/src/monitoring/monitoring.rs:840-876 | the aggregate total, and the free space, are those of each pool once plus those of every volume that is in no pool |
| RateSeries.TimeSeries.AddPoint | monitor/src/monitoring/timeseries.rs:29-38 | the series holds the last points added, as many as it has room for |
| RateSeries.NetworkTimeSeries.Update | monitor/src/monitoring/timeseries.rs:104-108 | the two latest samples are remembered |
| RateSeries.NetworkTimeSeries.GetRxSpeed | monitor/src/monitoring/timeseries.rs:114-130 | the rate over the last window, if that is a millisecond or more and the counter did not go back |
| RateSeries.NetworkTimeSeries.GetTxSpeed | monitor/src/monitoring/timeseries.rs:114-134 | the same for bytes sent |
| RateSeries.SpeedIsBytesPerSecond | monitor/src/monitoring/timeseries.rs:114-130 | a speed is in bytes per second over the whole milliseconds of the window; there is one exactly if these are one or more and the counter did not go back |
| RateSeries.SpeedsAccountForBytes | monitor/src/monitoring/timeseries.rs:114-130 | over any run, the speeds reported for a counter, received or sent, each over its window, add up to what the counter gained in those windows |
| RateSeries.RatesConserveBytes | monitor/src/monitoring/timeseries.rs:114-130 | over a forward run they add up to exactly the last count less the first, for either counter |
| RateSeries.UsageIsPercent | crates/sbm_parser/src/types.rs:52-60 | the usage lies between 0 and 100 if and only if the idle ticks gained are part of the ticks gained |
| RateSeries.UsagesAgree | monitor/src/monitoring/timeseries.rs:183-206 | the usage of a core from its used ticks equals that from its idle ticks under exactly the same condition |
| RateSeries.EachTickCounts | crates/sbm_parser/src/types.rs:45-49 | every tick counts towards the total, whatever it was spent on |
| RateSeries.UsageIsTheBusyShare | monitor/src/monitoring/monitoring.rs:764-777 | the usage of the machine is the share that was not idle: of the ticks gained on Linux, of the counters themselves elsewhere |
| RateSeries.SummaryIsCpuOrFirst | monitor/src/monitoring/monitoring.rs:742-744 | the core measured for the machine is one named for it, or the first if there is none |
| RateSeries.CoresLeaveOutTheSummary | monitor/src/monitoring/monitoring.rs:779-794 | the cores reported are all others, in order |
| RateSeries.UsageConservesIdle | monitor/src/monitoring/monitoring.rs:758-777 | over a run whose ticks go forward every usage is a percentage, and what is left over adds up to the growth of the idle counter |
| RateSeries.OneShotUsageIsPercent | monitor/src/monitoring/monitoring.rs:771-776 | where the counters are percentages already the usage is one |
| RateSeries.CoreUsageIsPercent | monitor/src/monitoring/timeseries.rs:183-206 | what is computed for a core is a percentage or nothing |
| RateSeries.CoreUsageIsTheUsedShare | monitor/src/monitoring/timeseries.rs:183-206 | the usage of a core is the share of its ticks that were used: of those gained on Linux, if neither count went back, of all elsewhere |
| RateSeries.ClampIsNearest | monitor/src/monitoring/timeseries.rs:183-206 | clamping gives the nearest percentage |
| RateSeries.CpuTimeSeries.Update | monitor/src/monitoring/timeseries.rs:221-235 | the series takes the size of the sample, each core shifting its latest value; a sample without cores changes nothing |
| RateSeries.CpuTimeSeries.GetAverageUsagePercent | monitor/src/monitoring/timeseries.rs:243-262 | the mean of the usages that are known, or none |
| RateSeries.AverageIsTheMean | monitor/src/monitoring/timeseries.rs:243-262 | it is the mean over the newest sample of each core that has a usage, and none if no core has |
| RateSeries.AverageIsPercent | monitor/src/monitoring/timeseries.rs:243-262 | the mean of percentages is one |
| RateSeries.VelocityProcessor.Update | monitor/src/monitoring/velocity.rs:44-65 | one point per cycle with the rates since the last sample, kept only if it could be stored; the series advance either way |
| RateSeries.VelocityProcessor.GetVelocityHistory | monitor/src/monitoring/velocity.rs:73-87 | the last points ever stored: as many as asked for, at most a thousand |
| RateSeries.VelocityProcessor.GetNetworkTotals | monitor/src/monitoring/velocity.rs:89-94 | the totals of the latest sample |
| CollectionLoop.CarriedIsLast | monitor/src/monitoring/monitoring.rs:520-526 | carrying forward keeps the last reading that is not empty |
| CollectionLoop.FailureChangesNothing | monitor/src/monitoring/monitoring.rs:257-294 | a cycle whose script fails leaves metrics and processor baseline as a run without it has them |
| CollectionLoop.SuccessIsStamped | monitor/src/monitoring/monitoring.rs:371-385 | the stamp moves and the custom output is replaced, even by nothing, exactly on cycles whose script ran |
| CollectionLoop.SuccessIsMeasured | monitor/src/monitoring/monitoring.rs:371-374 | each usage is measured against the last cycle that succeeded |
| CollectionLoop.MonitoringLoop.CollectMetrics | monitor/src/monitoring/monitoring.rs:333-385 | a failing script leaves the baseline; otherwise the metrics are those of the merged sample |
| CollectionLoop.MonitoringLoop.Turn | monitor/src/monitoring/monitoring.rs:238-297 | after any run of succeeding and failing cycles: the last non-empty readings, the custom output and the stamp of the last script that worked, the usages since the last success |
| CollectionLoop.ScriptRunsEveryK | monitor/src/monitoring/monitoring.rs:213-216 | with constant settings and no pause the script runs on every K-th cycle, the first included: on the K-th part of the cycles, rounded up |
| CollectionLoop.CadenceIsTheRatioFloored | monitor/src/monitoring/monitoring.rs:213-216 | K cycles take no longer than the interval asked for unless one already does, and one more would |
| CollectionLoop.ScriptRunsUnlessPaused | monitor/src/monitoring/monitoring.rs:213-228 | with any settings the script runs exactly on every K-th cycle on which it is not so that the pause is on and nobody looked for as long as the threshold |
| CollectionLoop.HugeThresholdAlwaysPauses | monitor/src/monitoring/monitoring.rs:223-228 | a threshold of 2^63 seconds or more wraps and pauses every cycle, unless the clock went back that far |
| CollectionLoop.NoIntervalIsASecond | monitor/src/monitoring/monitoring.rs:213-216 | an interval of zero counts as one second |
| CollectionLoop.OutputsAreTheCustomSections | monitor/src/monitoring/monitoring.rs:389-398 | the custom outputs are those of the custom sections the script printed, in order |
| SseCodec.DecodesExactlyWhatFits | crates/sbm_ffi/src/frb_generated.rs:475-971 | decoding what was encoded, any bytes following, gives the value and leaves those bytes, if and only if every length is below 2^31 |
| SseCodec.RoundTrip | crates/sbm_ffi/src/frb_generated.rs:475-971 | what does not fit is never read back, whatever follows: another value or none is decoded |
| SseCodec.DecodedHasShape | crates/sbm_ffi/src/frb_generated.rs:475-670 | whatever the bytes are, what is decoded has the shape asked for, and what is left is their end |
| SseCodec.Layout | crates/sbm_ffi/src/frb_generated.rs:804-971 | how each type is laid out: words with the lowest byte first, flags, lengths before what they count, the first field before the second |
| SseCodec.ItemsAreLaidInOrder | crates/sbm_ffi/src/frb_generated.rs:848-906 | the items of a list follow one another |
| SseCodec.MapRoundTrip | crates/sbm_ffi/src/frb_generated.rs:475-481 | a map listed in any order decodes and collects to the map |
| SseCodec.Serializer.WriteList | crates/sbm_ffi/src/frb_generated.rs:848-906 | the length and then the items are appended |
| SseCodec.Serializer.Write | crates/sbm_ffi/src/frb_generated.rs:804-971 | exactly the encoding of the value is appended |
| SseCodec.Deserializer.ReadText | crates/sbm_ffi/src/frb_generated.rs:483-489 | the counted byte loop and the UTF-8 check read what the specification decodes |
| SseCodec.Deserializer.ReadList | crates/sbm_ffi/src/frb_generated.rs:529-601 | the counted loop reads what the specification decodes, and a negative length is an error |
| SseCodec.Deserializer.Read | crates/sbm_ffi/src/frb_generated.rs:475-670 | the value the specification decodes, with the cursor behind it |
| OutputCut.Cap | monitor/src/api/exec.rs:230-239 | output over the limit is cut where the cut backs off continuation bytes; of any bytes |
| OutputCut.CutKeepsCharacters | monitor/src/api/exec.rs:230-239 | the cut of text is as many whole characters as fit, at most three bytes short, and valid UTF-8 |
| OutputCut.CappedTextIsText | monitor/src/api/exec.rs:230-239 | the same at one mebibyte |
| OutputCut.FirstLine | monitor/src/api/exec.rs:139-149 | the trimmed first line, or as many whole characters of it as 200 bytes hold and an ellipsis |
| OutputCut.FirstLineEndsThere | monitor/src/api/exec.rs:139-149 | the first line is what stands before the first line end, with or without a carriage return, or everything if there is none |
| OutputCut.BoundariesAreBetweenCharacters | monitor/src/api/exec.rs:139-149 | of text, the indices that a line may be cut at are exactly those between two characters |
| OutputCut.KeptIsNearTheLimit | monitor/src/api/exec.rs:230-239 | of any bytes the cut keeps all but three of the limit if and only if one of the last four up to it starts a character |

## Left out

- Clock readings out of order: runs are in clock order; the throttle and the limiter saturate negative differences, and so does the model, but no bound is stated for them.
- LoginThrottle.GuessingIsBounded: with more than one login in flight the rate is attained, but not the constant: a crowd also skips some of the short waits.
- Unicode lower-casing of usernames: a parameter, so every result holds for any folding function.
- SessionTable.Table.Read: without the retried lock and its -EBUSY, and without the timed wait, after which the slot is not rechecked; reads are modelled from the copying loop on.
- SessionTable.Table.Close: without the hang-up signal to the session's process.
- Null buffers, terminal input, resizing and the exit-code query of the iOS bridge; the emulated kernel, its tasks and signals. That its allocator never hands out a terminal still in use is an assumption of the session theorems.
- Pseudo-terminal and process I/O: in `PtyDelivery` what the terminal prints and when the child exits are steps of the environment.
- The shells that run the scripts, the locale in which a glob sorts names, and `df`: only the text that is printed and parsed is modelled.
- Padding and strictness inside the base64 crate: its documented canonical decoding is what `Base64` defines; the crate is not part of this model.
- File systems that take names differing in case for one: `CustomCmdStore` and `CustomCmdListing` keep them apart.
- The installer of the app failing half way: `CustomCmdListing.InstalledListsBack` is about a directory that was installed.
- Time-of-check races in `FsRoots`: one file system state for each resolution; permissions and mount points are not modelled, and the number of links followed is a parameter.
- ConfigFile.HistoryIsBounded: the pruning is taken to work and backups to be written whole; a backup cut short by a full disk stays as a file that no pruning follows. A directory entry that a power cut undoes shows an earlier state, which is one of those met.
- TOML and JSON syntax, authentication, validation of rule thresholds and routing: requests in `ConfigHandlers` are those that passed, and the file is the configuration it parses to. Handler futures dropped between write and publication are not modelled.
- ConfigHandlers.IdleAgentRunsWhatIsWritten: starts with the live settings of the file as it reads; loading the configuration also normalises a flat file of the old layout, and applies overrides from the environment, in memory only, so that until the first save the two may differ.
- The defaults of missing configuration sections: parameters, since they depend on the environment.
- `disk_usage`, the app's own third walk over disks, the fields of memory, GPU, SMART and Windows parsers, the capability table, disk I/O rates: they would add easy members.
- Rounding of floating-point numbers and overflow of byte totals: reals and naturals.
- The database, alert rules and the delivery of pushes: storing a point either succeeds or not; parsing the script's sections into fields is a parameter of a cycle.
- `conn` and `uptime` are carried forward as lists of at most one reading.
- Big-endian hosts: the codec writes native words, modelled little-endian; panics of the decoder are failures.
- OutputCut.Cap: states which bytes are kept, and their text only where the output is UTF-8; the replacement of invalid sequences is not modelled.
- Template replacement in notifications, HTTP, TLS, JWT and the modules under `api::ws`.
