# A verified model of agent-browser's client, daemon and parsers

agent-browser drives a browser from the command line. A short-lived client finds,
starts or replaces a long-lived daemon for a named session and hands it one
command; everything else the client does is reading: its flags, its configuration
layers, a gateway's event stream, cookies, plugin lists and directories. This
project models that code in Dafny and proves what it is for.

- **Session ownership** (`SessionOwnership.dfy`, `DaemonSession.dfy`). A step
  machine with any number of daemons that open and try the lock file, probe the
  socket, clean up, publish, bind, shut down and crash, in any interleaving, with
  every answer the operating system may give. Its invariant is inductive; the
  theorems are about all runs. `acquire`, `cleanup` and `Drop` are then written as
  sequential code whose every file access is one step of that machine, with any
  steps of other processes in between and a log of the calls and their answers.
- **Command delivery and daemon start** (`DaemonTrace.dfy`, `DaemonClient.dfy`).
  The send loop, `ensure_daemon` and their callers as methods over an environment
  that records every call with its answer as a ghost trace; the running totals of
  the trace state at-most-once delivery, justified stops and spawns, that an
  answering daemon is never ignored, that the response handed on is the one that
  was read, and what each error means.
- **Directory walk** (`DaemonWalk.dfy`). Two passes over listings in any order,
  each round acting on the directory as it then is, proved equal to one judgement
  of the directory as it was, which is then characterised exactly.
- **Command line and configuration** (`FlagScan.dfy`, `FlagNames.dfy`,
  `Flags.dfy`, `FlagLaws.dfy`, `CaDecision.dfy`). Three scanners that walk the
  arguments on their own and must agree, over the program's actual flag lists,
  what each kind of flag means wherever it stands, and the certificate-authority
  decision through four layers.
- **Chat** (`ChatStream.dfy`, `ChatHistory.dfy`). The incremental reader, the
  assembly of tool calls, and the loop that keeps the history well formed, with a
  log of all that was asked outside.
- **Parsers and canonical forms** (`WordSplit.dfy`, `Cookies.dfy`,
  `CurlCookies.dfy`, `CookieWeight.dfy`, `CookieFile.dfy`, `CaBundle.dfy`,
  `Plugins.dfy`, `PortHash.dfy`, `Sanitize.dfy`). `Ascii.dfy`, `AsciiLaws.dfy`,
  `Sequences.dfy` and `Wrappers.dfy` hold the shared vocabulary.

What is outside the program (the operating system, other processes, the gateway)
is an oracle: arbitrary functions from the number of a call to its answer, fixed
before the code runs. No code chooses an answer; the methods that ask return the
oracle's answer and record it, and the contracts tie each result to the record.

Text is ASCII wherever case or white space matters. Loops and updated fields of
the source are methods and classes here, each proved against a specification
function or against a statement about the states before and after; the theorems
are lemmas about those specifications, and say what they mean without naming them.

What the proofs turned up, and how it is stated:

- Merging configuration layers is not associative, and a merged configuration may
  hold both a certificate and the clear mark. Both are given their exact
  condition (`MergeAssociatesUnlessWithdrawn`, `MergeHoldsBoth`) and an input
  (`WithdrawnRemoval`, `BothMayBeHeld`); the resolved flags never hold both.
- Cookies that print as a bare header cannot be read back from a file when their
  print looks like a command line, as that of a cookie named `curl a` does
  (`CurlNameIsMisread`). `PrintedFileReadsBack` says that this is exactly when.
- The cleaning scanner gives a literal `true` or `false` to flags that the applying
  scanner treats as bare, and drops three flags the other does not know.
  `ScannersAgree` says position by position that this is the only difference.
- Compaction keeps a chat history well formed exactly when it does not cut inside
  a group of tool results; the search for a cut can fall back on such a place, but
  not in a history that starts as the program starts it (`SplitIsAtUser`).
- The separate push of tool calls at line 339 of `cli/src/chat.rs` is dead code:
  the branch holds `assert false` in `RecordStep`.
- The four line-continuation replacements of the cURL reader, each a pass over the
  whole text, amount to a single pass (`JoinIsOnePass`).

## Model

| member | source | states |
|---|---|---|
| SessionOwnership.StepKeepsInv | cli/src/connection.rs:169-236 | the protocol invariant is inductive: one holder, on the one lock inode; listeners are live owners; the files match the phase of the holder |
| SessionOwnership.RunKeepsInv | cli/src/connection.rs:169-236 | the invariant holds after every run, with any number of starters and crashes anywhere |
| SessionOwnership.OnlyTheHolderTouchesFiles | cli/src/connection.rs:187-211 | a process without the lock changes no file of the session, except that it may create the lock file |
| SessionOwnership.OwnershipIsExclusive | cli/src/connection.rs:169-191 | in no reachable state do two processes hold the session |
| SessionOwnership.MetadataIsTheOwners | cli/src/connection.rs:203-219 | from acquire to the start of Drop the pid, version, config and supervised files hold exactly the owner's values, and the socket of a listening owner leads to it; the only exception is a stale file without a new value that could not be removed |
| SessionOwnership.StepKeepsLockFile | cli/src/connection.rs:223-230 | the lock file is one of the session's files, but neither cleanup nor publication names it, so no step removes, replaces or writes it |
| SessionOwnership.LockFileIsForever | cli/src/connection.rs:169-172 | no run removes or replaces the lock file once it exists |
| SessionOwnership.StartersShareOneInode | cli/src/connection.rs:182-188 | every process that has started and not ended contends on the inode the lock file has now |
| SessionOwnership.RefusedStartIsInert | cli/src/connection.rs:178-201 | a start that could not open the lock file, or was refused by the lock or by an answering socket, changed none of the session's other files at any point of its run |
| SessionOwnership.DropLeavesNothing | cli/src/connection.rs:223-236 | when the cleanup that ends a process is over, also after a failed publication, the lock is free and only files whose removal failed are left |
| SessionOwnership.NextStarterSucceeds | cli/src/connection.rs:178-220 | after any history, if nobody holds the lock and nobody answers, a fresh starter can reach the listening state with exactly its own files in the directory |
| SessionOwnership.AbandonedSessionIsFree | cli/src/connection.rs:169-172 | once every started process is gone the lock is free and at most a daemon from before the lock can answer |
| DaemonSession.SessionDirectory.Cleanup | cli/src/connection.rs:223-230 | a cleanup tries to remove every sidecar of the list once and in order, goes on after failures, and ends in publication or in the end of the process with a free lock and nothing but unremovable files |
| DaemonSession.SessionDirectory.Publish | cli/src/connection.rs:205-218 | publication writes in order and stops at the first failure, with the lock still held |
| DaemonSession.SessionDirectory.ProbeSocket | cli/src/connection.rs:193-201 | the probe is one call whose answer is the operating system's, and a yes needs a listener that can be reached |
| DaemonSession.SessionDirectory.Admit | cli/src/connection.rs:178-201 | the three hurdles, each tried once and in order, the next only if the one before was taken; the refusal is the answer of the last one tried, and nothing was changed |
| DaemonSession.SessionDirectory.Establish | cli/src/connection.rs:203-219 | one whole cleanup and then every metadata file of the launch in order; or a publication that breaks off at the first failed write and a second whole cleanup |
| DaemonSession.SessionDirectory.Acquire | cli/src/connection.rs:178-220 | with any interference between its accesses, the result is decided by the logged calls: each refusal if and only if its own call said no, past the lock only after exactly one probe that nobody answered, and only then one cleanup and the publication; success means ownership with exactly the caller's metadata, a refusal changed no sidecar, a failed publication leaves a free lock and no sidecar |
| DaemonSession.SessionDirectory.Drop | cli/src/connection.rs:232-236 | the destructor tries every removal once, in order, frees the lock and leaves only files whose removal failed |
| DaemonClient.OnlyConnectErrorsInviteResend | cli/src/connection.rs:1148-1175 | whatever text the system or the daemon supplies, a message satisfies `daemon_unreachable` exactly for connect errors |
| DaemonClient.MessageShowsUnknownOutcome | cli/src/connection.rs:1165-1175 | a message announces an unknown outcome exactly when the outcome is unknown |
| DaemonClient.Exchange | cli/src/connection.rs:1315-1333 | success if and only if the last thing read is a non-empty line that decodes to this very response; an unreadable, empty or undecodable line, or a failed write, is the unknown outcome and says so; one request, the given text, was begun |
| DaemonClient.OpenConnection | cli/src/connection.rs:1298-1312 | a failed connect or timeout setting writes nothing and says which of the two it was |
| DaemonClient.SendCommandOnce | cli/src/connection.rs:1298-1333 | one attempt succeeds if and only if the last thing read decodes to the response returned; it begins writing exactly when it succeeds or its outcome is unknown; each error quotes what failed last |
| DaemonClient.SendCommandDetailed | cli/src/connection.rs:1221-1256 | at most five attempts and at most one write, of the given text; the result is that of the last attempt; gives up at once on a lasting failure and on temporary ones only after all attempts and their back-off; the flag, the message and the trace agree on whether anything was sent |
| DaemonClient.SendCommandIfRunning | cli/src/connection.rs:1201-1217 | nothing is started or stopped; a response only if one was read and decodes to it; the failure code tells exactly whether the command may have run |
| DaemonClient.SendCommandWithRespawn | cli/src/main.rs:2259-2274 | recovery happens only after a connect failure and only if allowed, the command is written at most once, stops and spawns included, and a response is the one read last |
| DaemonClient.ResendingNeverReplays | cli/src/connection.rs:1258-1263 | over any number of rounds that resend only when invited, at most one write in all; success means exactly one; the last error tells which |
| DaemonClient.SendWhileUnreachable | cli/src/connection.rs:939-943 | a caller that recovers and resends as long as it is invited writes the command at most once on the trace of all its rounds, and its result tells whether it was written |
| DaemonClient.UnknownIsNotUnreachable | cli/src/connection.rs:1258-1263 | no message is both an unknown outcome and an invitation to resend |
| DaemonTrace.WritesAreCounted | cli/src/connection.rs:1313-1317 | the totals used in the contracts count the write events of the trace |
| DaemonTrace.StopsAreJustified | cli/src/connection.rs:952-972 | every stop in a trace comes right after reading a version or configuration that is not the caller's |
| DaemonTrace.SpawnsAreJustified | cli/src/connection.rs:950-1047 | before every spawn nobody answered the latest probe, or the files of whoever did were removed since |
| DaemonTrace.ChecksPrecedeSpawns | cli/src/connection.rs:974-1043 | before every spawn the socket directory was there or made, a test file could be written in it, and the program was found, in this order |
| DaemonTrace.TotalsAreCounts | cli/src/connection.rs:929-1130 | the other totals used in the contracts count the probes, answers, matching reads, connections, lasting failures, stops, spawns and changes of the trace |
| DaemonTrace.CountsSinceSpawn | cli/src/connection.rs:1044-1119 | the counts of probes, answers and exits since the latest spawn are those of what followed it |
| DaemonTrace.NamedRightBefore | cli/src/connection.rs:751-774 | the process noted with a configuration is the one a pid file named, if that was read right before it |
| DaemonClient.WaitForMatchingDaemon | cli/src/connection.rs:800-809 | ends, with a matching configuration seen last, or with a mismatch seen last and the whole time-out spent |
| DaemonClient.ReadyExistingDaemon | cli/src/connection.rs:776-798 | a running daemon is reported as running only after reading the caller's own configuration, otherwise a mismatch was the last thing read |
| DaemonClient.ReadySpawnedDaemon | cli/src/connection.rs:751-774 | a daemon is reported as new if and only if the pid file, read right before the configuration that matched, named the spawned child; without a match the last thing read was another configuration |
| DaemonClient.RequireExistingDaemon | cli/src/connection.rs:909-927 | changes nothing; success needs an answer, the caller's version and its configuration; each refusal is the thing seen last |
| DaemonClient.StopExistingDaemon | cli/src/connection.rs:833-907 | callable only right after a mismatch; one stop, at most one shutdown request, no user request, and the way is free for a spawn |
| DaemonClient.CheckChild | cli/src/connection.rs:1057-1107 | an exited child is an error only if nobody answers after the grace period; a concurrent winner that answers is adopted if and only if it shows the caller's configuration |
| DaemonClient.AwaitSpawnedDaemon | cli/src/connection.rs:1044-1119 | ends after at most fifty rounds; never-ready is reported only after fifty probes, none of them answered, and five seconds; after an answered probe whose next configuration matches the result is success; other errors only after their own waits |
| DaemonClient.SpawnDaemon | cli/src/connection.rs:974-1130 | at most one spawn, only on a free way and within the path limit; each error tells whether a spawn happened |
| DaemonClient.ReuseOrStop | cli/src/connection.rs:948-972 | a supervised daemon is never touched; reuse needs version and configuration; otherwise exactly one justified stop |
| DaemonClient.EnsureDaemon | cli/src/connection.rs:929-1130 | at most one stop and one spawn, both justified; success if and only if a configuration read in this call matched the caller's, after an answer (and the version, unless it spawned); `restarted` if and only if it stopped a daemon; new if and only if it spawned and the pid file named the child; never-ready only if no probe since the spawn was answered; required or supervised daemons untouched; every error explained by what was seen last |
| DaemonWalk.SocketDirectory.WalkDaemons | cli/src/connection.rs:341-441 | for listings in any order the files and the report are those of judging every entry by the directory as each pass found it |
| DaemonWalk.SocketDirectory.CleanupStaleFiles | cli/src/connection.rs:238-260 | exactly the five sidecars of the session go |
| DaemonWalk.SidecarsHaveOneSession | cli/src/connection.rs:147-161 | no file is a sidecar of two sessions, whatever their names |
| DaemonWalk.JudgedAlike | cli/src/connection.rs:360-421 | what was removed earlier in the walk changes neither what an entry amounts to nor what is reported for it |
| DaemonWalk.LiveSessionsAreUntouched | cli/src/connection.rs:403-414 | no file of a session whose pid file names a living process is removed or changed |
| DaemonWalk.OnlyDeadSessionsLoseFiles | cli/src/connection.rs:341-351 | whatever is removed belongs to a session without a living process; all else stays as it was |
| DaemonWalk.PidFilesNameTheLiving | cli/src/connection.rs:388-414 | afterwards every session pid file names a living process |
| DaemonWalk.SocketsHavePidFiles | cli/src/connection.rs:423-440 | afterwards every socket has its pid file |
| DaemonWalk.SecondWalkCleansNothing | cli/src/connection.rs:341-441 | a second walk removes nothing and reports nothing cleaned |
| DaemonWalk.ReportIsExact | cli/src/connection.rs:411-421 | a session is reported if and only if its pid file names a living process, with that process and the version beside it |
| DaemonWalk.CleanedIsExact | cli/src/connection.rs:352-441 | the cleaned list holds, once each, exactly the sessions and reasons the directory gives before the walk, a socket orphaned by the removal of the dashboard's pid file included; sessions come once each; the dashboard is reported if and only if its pid can be read |
| DaemonWalk.StaleSessionsLoseEverything | cli/src/connection.rs:388-440 | a session whose pid file names no living process, or whose socket has no pid file, loses each of its five files, and any other session keeps what it has |
| DaemonWalk.SidecarsAreRead | cli/src/connection.rs:333-339 | a pid file means the number printed in it if that fits into 32 bits, a version file its text, in both cases without the white space around |
| DaemonTrace.FilesAreReadTrimmed | cli/src/connection.rs:333-339 | a version, configuration or pid file means its text without the white space around it, a pid the number printed there; an unreadable one matches nothing |
| AsciiLaws.NumbersAreRead | cli/src/connection.rs:370-393 | a text is a pid if and only if it is a number below 2^32 in decimal, perhaps behind a plus sign and zeros |
| AsciiLaws.TrimmingRemovesSpaces | cli/src/connection.rs:333-339 | trimming removes all white space on both sides and nothing else |
| AsciiLaws.LoweringFollowsAlphabet | cli/src/validation.rs:10-35 | lowering takes each capital to the small letter at its place in the alphabet and leaves the rest |
| FlagScan.ScannersAgree | cli/src/flags.rs:712-1287 | for every line the applying and the cleaning scanner give each position the same role, but for the doctor flags and a true or false read by one only, and agree whether a command was seen |
| FlagScan.CleaningPartitions | cli/src/flags.rs:1168-1287 | the cleaned command is exactly the positions that are neither flag nor operand, in order |
| FlagScan.OperandsFollowFlags | cli/src/flags.rs:1168-1287 | an operand stands right behind its flag |
| FlagScan.ExtractorFindsAppliedConfig | cli/src/flags.rs:286-336 | the extractor returns the operand of the first `--config` that the applying scanner meets as a flag |
| FlagScan.CleanedIsNormal | cli/src/flags.rs:1168-1287 | cleaning again, applying or extracting does nothing to a cleaned command |
| FlagScan.InsertionKeepsCommand | cli/src/flags.rs:1168-1287 | a value flag and its value put at any unit boundary leave the cleaned command as it was |
| FlagScan.InsertionAddsOneSetting | cli/src/flags.rs:712-1162 | the same insertion adds exactly one setting, at its place in the order |
| FlagScan.SettingsConcatenate | cli/src/flags.rs:712-1162 | the settings of a line cut at a unit boundary are those of its parts |
| FlagLaws.SwitchAnywhere | cli/src/flags.rs:264-276 | wherever a unit may begin, a boolean flag adds one switch at its place: off before a literal false, on before a literal true, which both go with it, and on before anything else, which stays |
| FlagLaws.MarkerFlag | cli/src/flags.rs:712-1162 | a marker adds one mark and never takes the next argument |
| FlagLaws.ValueFlag | cli/src/flags.rs:712-1162 | a value flag takes the next argument, whatever it looks like, and alone at the end of the line adds nothing |
| FlagLaws.ConfigFlag | cli/src/flags.rs:286-336 | `--config` adds no setting, and its operand is what the extractor returns |
| FlagLaws.RestoreAnywhere | cli/src/flags.rs:712-1162 | wherever a unit may begin, `--restore` takes the next argument as a name if and only if no command was seen and that is neither a flag nor a command, and restores the session's own state otherwise |
| FlagLaws.RestoreWithFlag | cli/src/flags.rs:712-1162 | `--restore=name` restores that name, and with an empty name the session's own state |
| FlagLaws.WordArgument | cli/src/flags.rs:712-1162 | a word adds no setting, stays in the command, and decides whether a command was seen |
| FlagLaws.BoolFlagIsDropped | cli/src/flags.rs:1168-1287 | the cleaning scanner drops a boolean flag and a literal true or false behind it |
| FlagLaws.ValueFlagIsDropped | cli/src/flags.rs:1168-1287 | it drops a value flag with its value, or alone at the end |
| FlagLaws.RestoreIsDropped | cli/src/flags.rs:1168-1287 | it drops every form of restore, with its name if it takes one |
| FlagLaws.RestoreBeforeCommand | cli/src/flags.rs:775-791 | before any command of the program `--restore` stands alone, and the command is kept |
| FlagLaws.BoundariesAdvance | cli/src/flags.rs:712-1162 | a unit may begin at the start of a line and behind any unit before which one may begin |
| FlagNames.ListsAgree | cli/src/flags.rs:286-325 | the three scanners' lists name the same value flags, but for `--config`, and the same boolean flags, but for those only one knows |
| FlagNames.ProgramIsCoherent | cli/src/commands.rs:93-181 | the program's own lists and commands have what the agreement needs |
| FlagNames.ProgramScannersAgree | cli/src/flags.rs:712-1287 | agreement, extraction, partition and normal form for every command line of the program |
| Flags.ExtractConfigPath | cli/src/flags.rs:286-336 | the index loop computes its specification |
| Flags.CleanArgs | cli/src/flags.rs:1168-1287 | the index loop with its pending skip computes its specification |
| Flags.ReadUnit | cli/src/flags.rs:266-276 | read by position, the setting and the width are those of the first unit of what is left of the line, optional values and boolean operands included |
| Flags.GlobalFlags.Set | cli/src/flags.rs:937-955 | one setting changes the certificate fields by its opinion, never leaving both after a certificate setting and leaving them alone after any other, and the restore fields as specified |
| Flags.GlobalFlags.ApplyCliFlags | cli/src/flags.rs:712-1162 | the loop applies exactly the settings of the specification, in order, to the fields kept |
| CaDecision.StrongestSourceDecides | cli/src/flags.rs:244-262 | precedence without a fold: the certificate is that of the strongest source that names or removes one, the mark is set if and only if the strongest source that speaks removes it, never both |
| CaDecision.MergeDecides | cli/src/flags.rs:114-123 | merging a layer on top takes the same decision as its opinion |
| CaDecision.EnvironmentDecides | cli/src/flags.rs:244-262 | so does the environment over the configuration |
| CaDecision.MergedLayersDecide | cli/src/flags.rs:114-123 | any number of merged layers amount to the decision of all of them in order |
| CaDecision.SettingsDecide | cli/src/flags.rs:937-955 | any command line after any sources amounts to the decision of all of them in order |
| CaDecision.FlagsHoldTheDecision | cli/src/flags.rs:244-262 | command line over environment over layers, end to end, and never a certificate with the mark |
| FlagLaws.LastCertificateFlagDecides | cli/src/flags.rs:937-955 | on the arguments: whatever the files and the environment say and whatever comes before, the last `--ca-cert x` leaves the certificate x, and the last `--no-ca-cert`, bare or before true, leaves none and the mark; before false it only withdraws the mark |
| FlagLaws.EnvironmentDecidesNext | cli/src/flags.rs:244-262 | with a command line that does not speak of it the environment decides |
| FlagLaws.HigherLayerDecides | cli/src/flags.rs:114-123 | a configuration layer decides over the layers below it |
| Flags.LastRestoreDecides | cli/src/flags.rs:721-791 | the last restore setting alone decides: a name is restored instead of the session's own state, that state beside any name kept from before; other settings change nothing |
| CaDecision.MergeHoldsBoth | cli/src/flags.rs:114-123 | a merged configuration holds both exactly if the lower layer did and the higher is silent |
| CaDecision.MergeAssociatesUnlessWithdrawn | cli/src/flags.rs:114-123 | merging associates exactly unless a certificate is removed and that removal then withdrawn |
| CaDecision.BothMayBeHeld | cli/src/flags.rs:114-123 | layers whose merge holds both, and what the resolution makes of it |
| CaDecision.WithdrawnRemoval | cli/src/flags.rs:114-123 | three layers on which the two ways of merging differ |
| CaDecision.Command.AttachCaCert | cli/src/commands.rs:374-384 | a command other than a launch stays as it is; a launch gains the certificate and the mark of the flags where they have them, and where it had none of its own it has them only then; all other fields stay |
| CaDecision.LaunchCarriesOneDecision | cli/src/commands.rs:374-384 | a launch carries at most one of the two fields, the one all sources together call for; all other fields stay |
| ChatStream.LinesOfJoined | cli/src/chat.rs:413-422 | cutting the text anywhere leaves its complete lines and its open rest the same |
| ChatStream.OpenLineIsIgnored | cli/src/chat.rs:413-422 | an unterminated last line is never read |
| ChatStream.EndMarkerIsFinal | cli/src/chat.rs:424-431 | nothing after the end marker is read |
| ChatStream.StreamTextIsInOrder | cli/src/chat.rs:424-454 | the text of a stream is the non-empty contents of its complete data lines in line order up to the end marker; no chunk is empty |
| ChatStream.WrittenStreamIsRead | cli/src/chat.rs:411-487 | a stream as a gateway writes it, events among any other lines, with either line end, and then an unfinished line or the end marker and anything: the text is the contents of the events in order, the calls are those of their deltas |
| ChatStream.EverythingReceivedArrives | cli/src/chat.rs:411-417 | every chunk counts, in order, up to an error, and nothing after it |
| ChatStream.AssemblyByIndex | cli/src/chat.rs:456-483 | the call at an index is the one its own deltas describe: first id and name, all arguments in order |
| ChatStream.StreamCallsAreReassembled | cli/src/chat.rs:398-503 | one call for every index read from the stream, in increasing index, each described by its own deltas |
| ChatStream.InterleavingIsIrrelevant | cli/src/chat.rs:456-483 | streams with the same deltas per index give the same calls |
| ChatStream.CollectToolCalls | cli/src/chat.rs:494-503 | the map is emptied in the order of its indices |
| ChatStream.AbsorbDelta | cli/src/chat.rs:449-483 | one delta changes the accumulators as the specification says |
| ChatStream.ParseGatewayStream | cli/src/chat.rs:398-492 | for chunks cut anywhere, the text and the calls are those of reading everything that arrived at once |
| ChatHistory.WellFormedMeansMatched | cli/src/chat.rs:285-366 | well formed if and only if every message with calls is followed at once by exactly their results, and results stand nowhere else |
| ChatHistory.CuttingIsSafe | cli/src/chat.rs:157-180 | cut where no result comes first, both parts of a well-formed history are well formed; cut anywhere else, neither is |
| ChatHistory.CompactionIsSafe | cli/src/chat.rs:157-180 | compaction keeps it well formed if and only if it does not cut inside a group of results |
| ChatHistory.SplitIsAtUser | cli/src/native/stream/chat.rs:184-195 | in a history that starts as the program starts it the search ends at a user message |
| ChatHistory.FindSafeSplit | cli/src/native/stream/chat.rs:184-195 | the last user message that keeps the recent ones, or the stated fallback if there is none |
| ChatHistory.ChatSession.RecordStep | cli/src/chat.rs:285-366 | the history grows by at most one message of the assistant, with its text and its calls, and one result for each call that was run, in order; the unmerged push is dead |
| ChatHistory.AnswerIsRecorded | cli/src/chat.rs:285-366 | message by message: nothing for an empty answer, the whole text as one message, the calls merged into it, and the output of each call under its id |
| ChatHistory.JoinKeepsChunks | cli/src/chat.rs:293-296 | the text of a message is all its chunks in order |
| ChatHistory.WrittenAnswerIsRecorded | cli/src/chat.rs:285-366 | an answer as a gateway writes it is recorded as the contents of its events and one call for every index |
| ChatHistory.ChatSession.RunStep | cli/src/chat.rs:229-377 | one look at the clock, one request with the history as it is, and the outcome that the answer calls for: a refusal changes nothing, an answer adds what it says |
| ChatHistory.TurnKeepsShape | cli/src/chat.rs:229-377 | over a turn the history only grows and stays well formed, every request is well formed, the first is the history as it was and each other one is the one before it and one group of calls and results |
| ChatHistory.ChatSession.RunChatTurn | cli/src/chat.rs:195-377 | without a key nothing is sent and the turn fails; with one, a turn of at most fifty steps that goes on exactly while tools are called; success if and only if its last step was answered; the history and the questions asked outside are those of its steps |
| ChatHistory.ChatSession.Compact | cli/src/chat.rs:157-180 | over both limits everything between the prompt and the last user message that leaves six is summarised once, and if a summary comes the history is the prompt, the summary under its heading and that message with all behind it; otherwise nothing changes or is asked |
| ChatHistory.ChatSession.RunInteractive | cli/src/chat.rs:123-190 | over any input the history stays well formed; what is asked is every non-blank line up to the one that quits, trimmed and in order, and each is a round of its own: the question, compaction, one turn, whether the turn succeeds or not |
| ChatHistory.QuestionsUpToQuit | cli/src/chat.rs:135-153 | blank lines are skipped, other lines asked trimmed, and from the first line on that says quit, exit or q nothing is |
| WordSplit.ShellWordsSplit | cli/src/commands.rs:3558-3587 | the character loop computes the specification |
| WordSplit.WordsAreNonEmpty | cli/src/commands.rs:3573-3585 | no word is empty |
| WordSplit.WordsOfJoined | cli/src/commands.rs:3558-3587 | behind a text that ends outside quotes and in no lone backslash, a space starts afresh |
| WordSplit.OpenEndsAreClosed | cli/src/commands.rs:3558-3587 | a quote left open counts as closed at the end, and a last lone backslash is dropped |
| WordSplit.SplittingInvertsQuoting | cli/src/commands.rs:3558-3587 | splitting returns what the words mean, however each is quoted, by any mixture of bare, escaped, single- and double-quoted pieces |
| WordSplit.EveryWordListIsSplit | cli/src/commands.rs:3558-3587 | every list of non-empty words over any characters is the splitting of its escaped form |
| Cookies.ParseCookieHeader | cli/src/commands.rs:317-332 | the loop computes the specification, its error included |
| Cookies.PrintingRoundTrips | cli/src/commands.rs:317-332 | whatever parses prints to a header that parses to the same cookies, and every printable list is the parse of its print |
| Cookies.ParsedCookiesArePrintable | cli/src/commands.rs:317-332 | parsed names and values are trimmed and hold no separator |
| Cookies.TrimmedHeaderParsesAlike | cli/src/commands.rs:317-332 | white space around a header does not matter |
| CurlCookies.MatchQuotedArg | cli/src/commands.rs:259-314 | the scan over three indices ends and computes the specification on suffixes |
| CurlCookies.ScanFindsTheArgument | cli/src/commands.rs:259-314 | behind any words, unquoted arguments and quoted arguments that do not qualify, and whatever follows, the first qualifying argument is found; without one, nothing |
| CurlCookies.TrailingGapIsIgnored | cli/src/commands.rs:262-314 | white space at the end of the line changes nothing |
| CurlCookies.JoinIsOnePass | cli/src/commands.rs:241-246 | the four successive replacements do what one pass over the text does |
| CurlCookies.LinesAreJoined | cli/src/commands.rs:241-246 | a line ending in a backslash or caret, before either kind of line end, goes on with a space, and every other line end stays |
| CurlCookies.ExtractCookieHeader | cli/src/commands.rs:240-257 | the header of the joined line, by the order of preference of the specification |
| CurlCookies.CookieOptionsComeNext | cli/src/commands.rs:247-256 | without a Cookie header `-b` counts, without that `--cookie`, else there is none |
| CookieFile.CurlFileMeansItsHeader | cli/src/commands.rs:196-257 | a cURL file with a quoted Cookie header anywhere behind parts that are none means the cookies of that header |
| CookieFile.CopiedRequestMeansItsHeader | cli/src/commands.rs:185-257 | so does the command as copied on one line |
| CookieFile.PrintedFileReadsBack | cli/src/commands.rs:196-238 | printed cookies kept in a file are read back if and only if the text does not look like a command line, or, where it looks like JSON, if and only if the JSON reader returns them |
| CookieFile.CurlNameIsMisread | cli/src/commands.rs:221-234 | a printable cookie whose print is refused as a command line without a header |
| CookieFile.CurlStartsTheLine | cli/src/commands.rs:221-227 | a text is taken for a command line if and only if it starts with curl, in any case, and white space or a quote right behind it |
| CookieFile.NothingToRead | cli/src/commands.rs:196-238 | white space alone is an empty file; a text without an equals sign that is neither JSON nor a command line holds no cookies; each with its own error |
| CookieWeight.ReadCookiesWeigh | cli/src/commands.rs:317-332 | the cookies read from a header print to no more characters, separators and white space aside, than the header has |
| CookieWeight.FoundWeighsLess | cli/src/commands.rs:259-314 | a header found in a line has fewer such characters than the line |
| CookieWeight.NoLineContainsItself | cli/src/commands.rs:240-257 | no text yields, read as a command line, the cookies it is the print of |
| CookieFile.ParseCurlCookies | cli/src/commands.rs:196-238 | the choice among the formats, with every error |
| CaBundle.Bundle | cli/src/ca_bundle.rs:67-79 | the certificates come out sorted, distinct and the same set; the hash is fed their length-prefixed bytes |
| CaBundle.OrderIsLexicographic | cli/src/ca_bundle.rs:68 | the order is decided by the first byte that differs, a prefix first |
| CaBundle.BytesGiveNumber | cli/src/ca_bundle.rs:70-74 | a length is the number its eight bytes stand for, the highest first |
| CaBundle.FeedExtended | cli/src/ca_bundle.rs:70-74 | each certificate adds its eight-byte length and its bytes |
| CaBundle.MembersDetermineList | cli/src/ca_bundle.rs:68-69 | a sorted list without duplicates is determined by its members |
| CaBundle.FeedDeterminesList | cli/src/ca_bundle.rs:70-74 | the bytes fed to the hash can be decoded |
| CaBundle.DigestInputIsCanonical | cli/src/ca_bundle.rs:67-79 | two lists feed the same bytes if and only if they hold the same set of certificates |
| Plugins.ResolvedPluginsWithCapability | cli/src/plugins.rs:168-181 | the reverse loop with its seen set returns the effective entries with the capability, in source order |
| Plugins.EffectiveMeansFound | cli/src/plugins.rs:140-142 | an entry is effective if and only if no later entry has its name, and then a lookup returns it |
| Plugins.QueryRefinesLookup | cli/src/plugins.rs:164-181 | the query returns, once each, exactly the plugins that a lookup of their name returns and that have the capability |
| Plugins.ProjectShadowsUser | cli/src/flags.rs:196-202 | over merged layers the query gives the unshadowed user results and then the project's, and lookups prefer the project |
| Plugins.ReplaceEntry | cli/src/plugins.rs:671-681 | all entries but those of the name, in order, and the new one last |
| Plugins.ConfigFile.UpsertPluginConfig | cli/src/plugins.rs:662-685 | a file that cannot be read, is no object or has no list is refused with its own error and stays as it is; otherwise, unless writing fails, the list is the saved one, begun if it was missing, and the other fields stay |
| Plugins.SavingReplaces | cli/src/plugins.rs:662-685 | after a save the new entry is the only one of its name and is found; other entries and lookups do not change; an earlier save under the name leaves no trace |
| Plugins.EachEntryIsJudged | cli/src/plugins.rs:671-681 | each entry is kept in its place or dropped by its own name alone, entries without a name are kept, and the new entry comes last |
| PortHash.GetPortForSession | cli/src/connection.rs:460-468 | the wrapping loop yields the port of the signed 32-bit residue of the base-31 polynomial, always in 49152..65534 |
| PortHash.StepMultipliesBy31 | cli/src/connection.rs:462-464 | shifting, subtracting and adding with wrap-around multiplies by 31 and adds, modulo 2^32 |
| PortHash.HashConcat | cli/src/connection.rs:462-464 | the hash of a concatenation follows from the hashes of its parts |
| PortHash.HashStarts | cli/src/connection.rs:461-464 | the hash begins at zero, and that of one character is its code |
| PortHash.PortsAreTight | cli/src/connection.rs:465-467 | a number is some hash's port if and only if it lies in 49152..65534; two hashes share a port if and only if their absolute values are congruent modulo 16383 |
| PortHash.LeastHashHasAPort | cli/src/connection.rs:465-467 | the least 32-bit number has a port in the range |
| PortHash.NamespaceQualifies | cli/src/connection.rs:449-457 | a namespace with a letter or digit in it stands, sanitized, before a colon and the session; any other adds nothing |
| PortHash.IdentityTellsSessionsApart | cli/src/connection.rs:449-457 | valid sessions share an identity if and only if session and sanitized namespace are the same |
| Sanitize.SanitizeSessionComponent | cli/src/validation.rs:10-35 | the two loops compute the specification |
| Sanitize.SanitizingNormalizes | cli/src/validation.rs:1-35 | the result is valid or empty and in normal form; exactly the texts in normal form are left as they are; sanitizing twice is sanitizing once |
| Sanitize.LettersSurvive | cli/src/validation.rs:9-35 | no letter or digit is lost, added or moved; the result is empty only for a text without any |
| Sanitize.GapsBecomeOneSeparator | cli/src/validation.rs:13-30 | whatever stands between two words becomes one separator: its first character if that is a separator, else a hyphen |
| Sanitize.OuterGapsAreDropped | cli/src/validation.rs:13-35 | what stands before the first or behind the last word is dropped |
| Sanitize.WordsAreLowered | cli/src/validation.rs:13-20 | a word is written in small letters |

## Left out

- Real sockets, processes, signals and clocks: they are arbitrary answers of the environment, with the source's own bounds on loops; time only moves forward.
- The configuration fingerprint is an abstract text that client and daemon compare.
- Interference with a session by `kill_stale_daemon` and `walk_daemons`, which delete files without the lock, and daemons from before the lock that start while another acquires: the ownership theorems are about acquire and Drop runs.
- The socket directory's own existence and permissions: failing to create it and failing to open the lock file in it are one outcome of acquire.
- DaemonClient.SendWhileUnreachable: the source resends once; the loop stands for any caller that follows its rule.
- The Windows branches of stopping, walking and cleaning; the port hash is the one Windows-only part that is modelled.
- DaemonWalk: liveness is fixed during a walk and removals succeed; the session name `dashboard` is excluded from `PidFilesNameTheLiving`, as the source treats it apart.
- Flags.GlobalFlags.ApplyCliFlags: keeps the ordered list of settings and the certificate and restore fields; the other fields' values are not decoded, because each is one assignment per arm.
- JSON reading and writing, certificate parsing, SHA-256, lossy UTF-8 and Unicode case mapping: decoders are parameters, text is ASCII.
- CookieFile.CookiesInFile: the JSON format of a cookies file is a parameter, because its reading is a field lookup per element.
- Plugins.ConfigFile.UpsertPluginConfig: error texts, and an entry that cannot be encoded, which a plugin never is.
- CaBundle.SortBy: the library's sort is replaced by an insertion sort with the same contract, which the order determines.
- The estimate of a history's length is an arbitrary function of it, and summaries, tool outputs and the gateway's answers are arbitrary, as the oracle gives them.
- Printing, colours and the JSON summary of a chat turn.
- Most of `parse_command_inner`, the installers, upgrades and skills: one-branch mappings, downloads and printing.
