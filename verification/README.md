# SolidPing: the hard cores, modelled and proved

SolidPing is a monitoring service. Most of it is HTTP and database wiring, but some parts keep promises that
hold only if several functions work together, over whole runs. This project models those parts in Dafny and
proves the promises:

- **The rotating log of devloop** (`rotating_log.dfy`, `rotating_log_theorems.dfy`): a class over a map from
  slot to content. Where a stream is cut does not depend on how it is chunked, exactly when the newline-only
  split keeps within the hard ceiling; no byte is lost or reordered; every file and the directory are bounded.
- **The script lexers of the AI guards** (`script_scanner.dfy`, `script_scanner_theorems.dfy`): the index
  loops of `scanScript` and `maskStrings`, proved against the one way a script falls into lexemes. Stripping is
  stable, and the masked form with its literals put back is the comment-free form.
- **The process supervisor** (`supervisor.dfy`): critical sections as class methods, and every interleaving of
  run loop, reapers and children as a transition system: what stop and shutdown promise, and when exits are quiet.
- **The rebuild pipeline** (`debouncer.dfy`): no save is ever lost, no run builds more often than files were saved,
  and a quiet pipeline ends up built.
- **The replay guard** (`replay_guard.dfy`): a collected cache refines a log that never forgets, and with the
  timestamp window accepts a request at most once, exactly when its retention covers the window.
- **The agent loop and its two wire forms** (`agent_loop.dfy`, `agent_loop_theorems.dfy`): for every provider,
  the history says what the provider, the tools and the nudges said, pairs calls with results, alternates, and
  says the same in both encodings.
- **The run recorder and the repair grant** (`run_recorder.dfy`, `repair_grant.dfy`): sealing is permanent, a
  success is never lost or invented, and host grants only shrink along applied repairs.
- **The webhook queue** (`webhook_queue.dfy`): which wakeups a waiter can miss, exactly.
- **The histogram quantile** (`histogram_quantile.dfy`): monotone, in range, and inverse to the interpolated
  cumulative count, over the reals.
- **The `servers:` rewrite** (`openapi_servers.dfy`): the rewritten document line by line, framing and idempotence,
  on any document.

Code that changes state step by step is a class or a method with loops, proved against a function of its
inputs; the theorems are about that function. `dafny verify dfyconfig.toml` checks the whole project.

## Where the code keeps less than one would expect

Six properties that the code or its comments suggest fail on some inputs. The model follows the code; each has a
lemma with inputs that fail and one saying exactly when the property holds.

- The log's hard ceiling of 2 * maxSize (rotate.go:27-32): the newline branch (rotate.go:93-95) is not clipped to
  it, so a chunk that brings a late newline passes it (`PastCeiling`). A run keeps it if and only if every write
  finds `WithinCeiling` of the active file and its chunk (`DocumentedCeiling`): short lines do, and all runs of
  chunks of at most C bytes do only for C <= 1. The bound that always holds is below 2 * maxSize + C (`RunBounds`).
- Chunking changes the files exactly when some newline that closes a file comes only after the ceiling
  (`ChunkingIndependence`, `SplitAtCeiling`).
- `stop` silences exit reports, but the line is printed after the lock is released, so it may come out after `stop`
  has returned (`AnnouncedAfterStop`). It can if and only if some reaper has decided and not yet printed when `stop`
  takes the lock (`SilenceExactly`); a child that `stop` waited for never speaks (`StoppedChildStaysSilent`).
- `ValidateTimestamp` accepts timestamps 2^63 ns or more ahead of the clock, whose saturated difference negates to
  itself (`AcceptedExactly`, `WindowHolds`).
- `WaitForEvent` reads the notify channel after its snapshot and can park past a match (`SnapshotFirstLosesOne`);
  it misses one exactly when a match arrived between the two reads (`WakeupCharacterised`). The other order loses
  none (`ChannelFirstLosesNone`).
- The cumulative count at the estimated quantile is the target except for a target short of the count of a first
  bucket whose bound is 0 (`ZeroBucketMisses`, `EstimateExactly`).

## Model

| member | source | states |
|---|---|---|
| RotatingLog.RotationCut | server/cmd/devloop/rotate.go:84-106 | a cut takes at least one byte and at most the chunk, so the write loop ends; without one a file below the ceiling stays below it |
| RotatingLog.RotatingWriter.constructor | server/cmd/devloop/rotate.go:42-55 | bad settings fall back to the defaults; a previous session's non-empty file is shifted away, an empty one is not; the active file starts empty if it can be opened |
| RotatingLog.RotatingWriter.Write | server/cmd/devloop/rotate.go:59-75 | always reports the whole chunk; touches nothing when disabled; leaves the directory WriteDisk says as long as every write and reopening succeeds, and when one fails is disabled with the directory of the bytes written until then |
| RotatingLog.RotatingWriter.WriteAndRotate | server/cmd/devloop/rotate.go:70-72 | one rotation of the loop brings the directory to what the longer prefix gives, or disables the writer with what was written |
| RotatingLog.RotatingWriter.WriteLast | server/cmd/devloop/rotate.go:65-69 | the rest of the chunk completes the directory WriteDisk says, or disables the writer with the bytes that landed |
| RotatingLog.PieceWritten | server/cmd/devloop/rotate.go:64-73 | whichever of write and reopening fails, the directory is that of a prefix of the chunk |
| RotatingLog.WrittenNext | server/cmd/devloop/rotate.go:64-73 | after a rotation every longer prefix of the chunk goes on from the fresh file |
| RotatingLog.CutOfPrefix | server/cmd/devloop/rotate.go:84-106 | a cut depends on nothing past it |
| RotatingLog.RotatingWriter.ShiftBackups | server/cmd/devloop/rotate.go:138-148 | the renames, one slot at a time, move every slot up by one at once and drop the oldest |
| RotatingLog.RotatingWriter.Rotate | server/cmd/devloop/rotate.go:126-134 | a disabled writer does nothing; otherwise the chain is shifted and a fresh active file opened, or the writer disabled |
| RotatingLog.RotatingWriter.Open | server/cmd/devloop/rotate.go:156-164 | truncates the active file, or leaves the directory as it is and the writer disabled |
| RotatingLog.RotatingWriter.WriteFile | server/cmd/devloop/rotate.go:108-124 | appends what the write takes, keeps the size field the length of the file, and disables the writer exactly when the write fails |
| RotatingLog.RenamesShift | server/cmd/devloop/rotate.go:138-148 | dropping the oldest slot and renaming downwards is a shift of every slot: no rename lands on a file still wanted, whatever slots are missing |
| RotatingLogTheorems.FeedIsCanonical | server/cmd/devloop/rotate.go:59-106 | one write onto an unrotated file cuts the joined bytes as if they had been written at once |
| RotatingLogTheorems.CutAgrees | server/cmd/devloop/rotate.go:84-106 | the cut found from the file size and the chunk alone is the first newline at file offset maxSize - 1 or later, else exactly the ceiling, so the clamp at 102-104 is never taken |
| RotatingLogTheorems.ChunkingIndependence | server/cmd/devloop/rotate.go:59-106 | every way of writing a stream in chunks cuts it like one write if and only if no newline-closed file of it is past 2 * maxSize |
| RotatingLogTheorems.SplitAtCeiling | server/cmd/devloop/rotate.go:93-105 | a stream with such a file can be broken at a place where the two splits differ |
| RotatingLogTheorems.ShortLinesNeverForced | server/cmd/devloop/rotate.go:77-106 | when no line exceeds maxSize the forced mid-line cut is never taken, and every closed file ends in a newline and is at least maxSize long |
| RotatingLogTheorems.SameFiles | server/cmd/devloop/rotate.go:59-148 | the same stream in any two chunkings leaves the same files, names and contents, on any directory |
| RotatingLogTheorems.FeedBounds | server/cmd/devloop/rotate.go:84-106 | one write leaves the active file below the ceiling, and what it rotates is at least maxSize long and ends at a newline or at the ceiling |
| RotatingLogTheorems.RunBounds | server/cmd/devloop/rotate.go:27-32 | over any run of chunks of at most C bytes every file is below 2 * maxSize + C (or exactly 2 * maxSize) |
| RotatingLogTheorems.DocumentedCeiling | server/cmd/devloop/rotate.go:27-32 | a run of writes keeps the documented ceiling of 2 * maxSize if and only if each write finds the active file such that, with its chunk, every closing newline comes before the ceiling |
| RotatingLogTheorems.CanonicalBelow | server/cmd/devloop/rotate.go:93-105 | one write keeps that ceiling if and only if cutting only after newlines does |
| RotatingLogTheorems.CeilingForShortLines | server/cmd/devloop/rotate.go:27-32 | short lines keep it however they are chunked |
| RotatingLogTheorems.CeilingForAllChunks | server/cmd/devloop/rotate.go:27-32 | all runs of chunks of at most C bytes keep it if and only if C <= 1 |
| RotatingLogTheorems.ShiftChain | server/cmd/devloop/rotate.go:138-148 | what the oldest slot held, then the chain after the shift, is the chain before it |
| RotatingLogTheorems.WriteConserves | server/cmd/devloop/rotate.go:59-75 | dropped bytes, backups oldest first and active file are the directory before followed by the chunk |
| RotatingLogTheorems.RunConserves | server/cmd/devloop/rotate.go:126-148 | the same over any run of writes: no byte lost, doubled or reordered |
| RotatingLogTheorems.RunStaysBounded | server/cmd/devloop/rotate.go:27-32 | at most backups + 1 files, each within the real ceiling, and the directory within their product |
| ScriptScanner.ScanScript | server/internal/aichecks/guards.go:127-159 | the loop's two texts are the lexeme-by-lexeme strip and code of the script |
| ScriptScanner.MaskStrings | server/internal/aichecks/guards.go:537-568 | the loop's masked code and literals are the lexeme-by-lexeme mask numbered from 0 |
| ScriptScanner.FindLineCommentEnd | server/internal/aichecks/guards.go:167-173 | finds the first newline at or after the start, or the end of the script |
| ScriptScanner.FindBlockCommentEnd | server/internal/aichecks/guards.go:176-183 | finds the slash of the first closing mark from two characters in, past the end when there is none |
| ScriptScanner.FindStringEnd | server/internal/aichecks/guards.go:187-204 | finds the first quote of the same kind, or newline outside backquotes, after an even number of backslashes; the last character when there is none |
| ScriptScanner.LiteralEndsFirst | server/internal/aichecks/guards.go:185-204 | skipping the character after each backslash finds exactly the first closing character that no backslash escapes |
| ScriptScannerTheorems.ScanExactly | server/internal/aichecks/guards.go:127-204 | a script falls into comments, literals and other characters in just one way, told by their own marks, quotes, newlines and backslashes; the comment-free text shows a newline, a space or the text itself for each, the code two quotes for a literal, and the recorded literals are those literals |
| ScriptScannerTheorems.FallsIntoLexemes | server/internal/aichecks/guards.go:127-204 | every script falls into such lexemes |
| ScriptScannerTheorems.LiteralEndIsLocal | server/internal/aichecks/guards.go:185-204 | where a string ends depends only on its own characters |
| ScriptScannerTheorems.StripStartsPlain | server/internal/aichecks/guards.go:124-159 | what follows a plain slash in the output is not a slash or a star, so removing a comment opens none |
| ScriptScannerTheorems.StripStable | server/internal/aichecks/guards.go:124-159 | the stripped script holds no comment, stripping it again changes nothing, and its code is that of the original |
| ScriptScannerTheorems.FixedIffCommentFree | server/internal/aichecks/guards.go:124-159 | stripping leaves a script alone exactly when the lexer finds no comment in it |
| ScriptScannerTheorems.CodeIdempotent | server/internal/aichecks/guards.go:116-122 | codeOnly of codeOnly is codeOnly |
| ScriptScannerTheorems.AtoiItoa | server/internal/aichecks/guards.go:518-525 | the number written in a placeholder is the number read back |
| ScriptScannerTheorems.PlaceholderReadBack | server/internal/aichecks/guards.go:518-525 | the placeholder match at the front of the code takes exactly the placeholder, whatever follows |
| ScriptScannerTheorems.LexersAgree | server/internal/aichecks/guards.go:518-568 | putting the literals back into the masked code gives scanScript's comment-free text, for every script |
| ScriptScannerTheorems.UnmaskLeavesOthers | server/internal/aichecks/guards.go:518-525 | a placeholder that numbers no literal is left as it is |
| ScriptScannerTheorems.PlaceholdersInOrder | server/internal/aichecks/guards.go:534-568 | placeholders number the literals in order, each literal starts with one of the three quotes, and no other quote is left |
| Supervisor.Supervisor.Start | server/cmd/devloop/proc.go:90-117 | a launched child takes over cmd and done and clears stopping; a failed launch changes nothing |
| Supervisor.Supervisor.ReportExit | server/cmd/devloop/proc.go:121-136 | clears cmd and asks for an announcement exactly when not stopping |
| Supervisor.Supervisor.MarkStopping | server/cmd/devloop/proc.go:141-145 | sets stopping and nothing else |
| Supervisor.Supervisor.BeginStop | server/cmd/devloop/proc.go:149-158 | takes cmd and done as they were, sets stopping, clears cmd |
| Supervisor.StepKeepsProtocol | server/cmd/devloop/main.go:131-176 | every step of loop, reapers and children keeps the protocol invariant |
| Supervisor.StepKeepsTrace | server/cmd/devloop/proc.go:121-158 | every step keeps what the trace says in agreement with the reapers |
| Supervisor.StepKeepsQuiet | server/cmd/devloop/proc.go:119-145 | no step reports an exit twice or after it was silenced |
| Supervisor.RunKeeps | server/cmd/devloop/proc.go:90-167 | all of these hold at the end of any run |
| Supervisor.Safety | server/cmd/devloop/proc.go:90-167 | in every reachable state at most one child is alive, none once stop has returned; exits are decided at most once and never after a stop or markStopping of their generation; one announced after such a stop was decided before it |
| Supervisor.OwnGenerationOnly | server/cmd/devloop/proc.go:111-128 | a reaper only clears its own generation's cmd, and stop returns only when the child it took is gone |
| Supervisor.StoppedChildStaysSilent | server/cmd/devloop/proc.go:119-136 | a child that stop waits for is not announced before, nor in any run from there, however long after stop has returned |
| Supervisor.SilenceExactly | server/cmd/devloop/proc.go:121-158 | after a stop or markStopping some run announces a child started before it if and only if, when it takes the lock, a reaper has decided to announce and not yet printed |
| Supervisor.LateAnnouncement | server/cmd/devloop/proc.go:121-136 | an announcement after a stop is of a child started before that stop if and only if it was decided before that stop |
| Supervisor.AnnouncedAfterStop | server/cmd/devloop/proc.go:121-136 | a run in which the announcement follows a stop that has returned |
| Supervisor.StopMakesProgress | server/cmd/devloop/proc.go:149-167 | a waiting stop is never stuck: a step that brings its child closer to done is enabled, and no step takes it away |
| Supervisor.StopDrains | server/cmd/devloop/proc.go:147-167 | once stop has returned every child's done channel is closed, unless its reaper decided on its own to announce the exit |
| Supervisor.Restarts | server/cmd/devloop/main.go:162-176 | unless a shutdown has begun, the child can always be stopped and the next one started and supervised |
| Supervisor.NoStartAfterShutdown | server/cmd/devloop/main.go:131-138 | after a shutdown has begun no child is started |
| Supervisor.ShutdownEnds | server/cmd/devloop/proc.go:169-185 | a shutdown can begin whenever the loop waits, and can always end |
| Supervisor.FailedStart | server/cmd/devloop/proc.go:104-106 | a failed launch leaves no child and nothing to stop, and the loop goes on |
| Debouncer.Debounce.OnRelevantEvent | server/cmd/devloop/main.go:239-252 | leaves the timer running, a tick that had fired drained |
| Debouncer.Debounce.OnTick | server/cmd/devloop/main.go:212-218 | forgets the timer and leaves a token queued, full channel or not |
| Debouncer.StepLosesNothing | server/cmd/devloop/main.go:194-226 | every step keeps each uncovered save on its way |
| Debouncer.RunLosesNothing | server/cmd/devloop/main.go:128-140 | and so does every run, builds included |
| Debouncer.ReachableLosesNothing | server/cmd/devloop/main.go:194-252 | in every reachable state a save no build has started after is an undelivered event, or a timer, tick or token is pending |
| Debouncer.QuietRunCoversAll | server/cmd/devloop/main.go:128-140 | when files are left alone every run is finite, and where it can go no further every save is covered |
| Debouncer.DeliverExactly | server/cmd/devloop/main.go:204-211 | a relevant event starts the window anew, an irrelevant one leaves timer and token alone |
| Debouncer.NoBuildWithoutSave | server/cmd/devloop/main.go:194-226 | no run builds more often than files were saved, and none without a save |
| Debouncer.BuildsDoNotOverlap | server/cmd/devloop/main.go:131-140 | a build starts only when the one before it is finished |
| ReplayGuard.NonceCache.constructor | server/internal/agents/nonce.go:47-53 | an empty cache |
| ReplayGuard.NonceCache.MaybeGC | server/internal/agents/nonce.go:79-89 | every 256 inserts or at 100 000 entries the entries left are exactly those within the retention, with their times; otherwise nothing changes |
| ReplayGuard.NonceCache.CheckAndStore | server/internal/agents/nonce.go:57-75 | decides as Decide says; after a collection holds no expired entry but the new one; never holds more than 256 entries above what the last collection kept |
| ReplayGuard.DecideAbstracts | server/internal/agents/nonce.go:57-89 | one call decides like the log and differs from it only by expired entries |
| ReplayGuard.CacheRefinesLog | server/internal/agents/nonce.go:57-89 | from any such cache, every run of requests with a non-decreasing clock gets the log's verdicts |
| ReplayGuard.CollectingIsInvisible | server/internal/agents/nonce.go:77-89 | a fresh cache answers like a log that never forgets |
| ReplayGuard.CacheStaysSmall | server/internal/agents/nonce.go:77-89 | after any number of requests at any times the cache holds at most 256 entries more than there are pairs accepted within the retention before the last collecting request |
| ReplayGuard.VerdictIs | server/internal/agents/nonce.go:57-75 | accepted there means accepted by the run of the cache |
| ReplayGuard.KeyIsInjective | server/internal/agents/nonce.go:60 | different pairs never share a key when agent UIDs hold no NUL |
| ReplayGuard.AcceptedExactly | server/internal/agents/crypto.go:124-140 | which timestamps are accepted, for any skew, with saturation and wrap-around |
| ReplayGuard.RefusedExactly | server/internal/agents/crypto.go:124-140 | the two errors: unreadable text exactly, and every readable timestamp that is not accepted |
| ReplayGuard.WindowHolds | server/internal/agents/crypto.go:122-140 | the window is kept for all timestamps up to a latest one if and only if that one is not 2^63 ns ahead and the skew is not the greatest duration |
| ReplayGuard.AtMostOnce | server/internal/agents/nonce.go:26-32 | with a clock that does not go back, the same agent, nonce and timestamp are never accepted twice if and only if retention is at least twice the skew (or endless, or the skew negative) |
| ReplayGuard.ShortRetentionReplays | server/internal/agents/nonce.go:26-32 | any other retention accepts some request twice |
| AgentLoop.Run | server/internal/ai/loop.go:94-161 | the nested loops return the result, ending and histories sent that one turn after another gives |
| AgentLoop.AnthropicMessages | server/internal/ai/anthropic.go:87-135 | the buffered loop emits each run of tool results as one message before the next spoken one |
| AgentLoop.BuildRequest | server/internal/ai/openai.go:95-141 | the system message, if any, then one wire message per message |
| AgentLoop.EncodeWire | server/internal/ai/openai.go:105-130 | content, reasoning, calls with empty arguments filled in, and call id of one message |
| AgentLoopTheorems.RunSays | server/internal/ai/loop.go:94-161 | field by field: each history sent, and the one returned, is the input, then per turn what the provider answered and either one result per call as the tools returned it or the nudge; the text is the last answer's; the run ends at the first turn that fails, that has no call and no nudge, or that is done after its calls, and else at the cap |
| AgentLoopTheorems.EncodedExactly | server/internal/ai/anthropic.go:105-124 | the blocks of a message: text first unless empty, then each call with its id, name and arguments, empty ones as the empty object |
| AgentLoopTheorems.WireExactly | server/internal/ai/openai.go:105-130 | null content exactly for an assistant without text, reasoning for assistants alone, every call, the call id |
| AgentLoopTheorems.SystemSaid | server/internal/ai/openai.go:99-103 | the system text is sent once, first, and not at all when empty |
| AgentLoopTheorems.RunAccounts | server/internal/ai/loop.go:94-161 | provider calls equal Turns, at most the cap; Usage is the sum over the successful calls; only the last can have failed |
| AgentLoopTheorems.ToolPairingAndAlternation | server/internal/ai/loop.go:94-161 | for every provider each history sent has k results after k calls, ids in order, and encodes to alternating messages with each turn's results in one |
| AgentLoopTheorems.TurnKeepsSendable | server/internal/ai/loop.go:110-158 | one turn keeps a history fit to be sent, whatever is answered |
| AgentLoopTheorems.EncodeThenTools | server/internal/ai/anthropic.go:91-103 | tool results appended to a history come out as one message after it |
| AgentLoopTheorems.EmptyMessageExactly | server/internal/ai/anthropic.go:105-124 | a message encodes to no block exactly for an assistant turn with neither text nor calls |
| AgentLoopTheorems.AnthropicRoundTrip | server/internal/ai/anthropic.go:87-135 | decoding gives every text, call and result back in order |
| AgentLoopTheorems.OpenAIRoundTrip | server/internal/ai/openai.go:95-141 | decoding without the system message gives every text, call and result back in order |
| AgentLoopTheorems.DriversAgree | server/internal/ai/openai.go:95-141 | both forms decode to the same history exactly when only assistants carry calls and only results carry ids |
| AgentLoopTheorems.DriversAgreeOnEveryTurn | server/internal/ai/loop.go:94-161 | which every history the loop sends satisfies |
| RunRecorder.Recorder.Run | server/internal/aichecks/tools.go:211-296 | seals before a run with real values, records the run whatever its end, keeps a passing one by its trimmed text |
| RunRecorder.Recorder.SealTo | server/internal/aichecks/tools.go:158-161 | seals and adds the hosts |
| RunRecorder.Recorder.Record | server/internal/aichecks/tools.go:298-303 | remembers the last run and the last final one |
| RunRecorder.Recorder.Page | server/internal/aichecks/tools.go:77-96 | an outbound page call is held as the loop is held |
| RunRecorder.Recorder.Nudge | server/internal/aichecks/tools.go:331-364 | runs a fenced script not yet passed as final, invites to stop once, and otherwise ends the loop |
| RunRecorder.SealingIsPermanent | server/internal/aichecks/tools.go:148-167 | in any trace, from the first run with real values on every call is held to hosts granted to such runs, and none before |
| RunRecorder.LoopIsSealed | server/internal/aichecks/runner.go:75-107 | call by call: after a call with real values every call is restricted, to granted hosts |
| RunRecorder.SealedFromRun | server/internal/aichecks/tools.go:234-250 | told from the operations: when a script or a nudge's fenced script runs with some secret that is not blank, its own call and every later one is held, to hosts granted to such runs |
| RunRecorder.OpenUntilSecrets | server/internal/aichecks/tools.go:148-167 | until then no call is held |
| RunRecorder.StepCalls | server/internal/aichecks/tools.go:77-96 | which operations make a call, of which hosts, and whether held |
| RunRecorder.RepairLoopHeldExactly | server/internal/aichecks/repair.go:377-393 | in a repair loop every restricted call is held to exactly the one grant |
| RunRecorder.SuccessKept | server/internal/aichecks/tools.go:370-389 | passing is the latest passing final run if there ever was one, else the latest passing run of the answer's fenced script, never a failing run |
| RunRecorder.SuccessSurvives | server/internal/aichecks/tools.go:298-303 | no later step takes a success away |
| RunRecorder.StepRecords | server/internal/aichecks/tools.go:252-303 | each run is recorded with its script and verdict, final as asked and always for a nudge; a refusal is remembered |
| RunRecorder.AttemptIsLatest | server/internal/aichecks/tools.go:305-313 | the attempt shown is the latest final run, else the latest run |
| RunRecorder.DoneExactly | server/internal/aichecks/tools.go:366-368 | the loop is done exactly when its last run was final and up |
| RunRecorder.NudgeAnswers | server/internal/aichecks/tools.go:331-364 | what each nudge answers |
| RunRecorder.AtMostTwoNudges | server/internal/aichecks/tools.go:321-334 | at most two nudges send the model back |
| RepairGrant.GuardsIgnoreComments | server/internal/aichecks/guards.go:211-276 | scripts and their comment-free forms get the same verdict |
| RepairGrant.GuardsCompose | server/internal/aichecks/guards.go:263-276 | passing the guards is reflexive and transitive |
| RepairGrant.PassesExactly | server/internal/aichecks/guards.go:211-276 | which candidates pass, in terms of hosts, try blocks, down literals and protocol globals outside comments (and strings), and which error the others get |
| RepairGrant.StoreCandidateExactly | server/internal/aichecks/repair.go:429-486 | a stored proposal is held to no allowlist, and an applied version exactly to what its predecessor reached within its own hold; script, env and mode are the candidate, and the predecessor's |
| RepairGrant.StoredExactly | server/internal/aichecks/repair.go:572-611 | the stored config field by field, with and without a grant |
| RepairGrant.HoldExactly | server/internal/checkers/checkjs/config/config.go:192-262 | to which hosts a stored config is held, and what storing drops |
| RepairGrant.EditFrees | server/internal/checkers/checkjs/config/config.go:235-262 | a human edit holds to no host until stored, and is free after |
| RepairGrant.Store | server/internal/aichecks/repair.go:429-486 | the early returns of storeCandidate amount to: applied when nothing was found against it in auto mode, rejected when refused outside it, proposed otherwise |
| RepairGrant.RunPassesGuards | server/internal/aichecks/repair.go:429-486 | along applied repairs any later text passes every guard against any earlier one |
| RepairGrant.GrantExactly | server/internal/aichecks/repair.go:599-611 | each grant is the hosts of the version before, within what the human-written version was held to |
| RepairGrant.GrantsOnlyShrink | server/internal/aichecks/repair.go:572-611 | grants, hosts, try blocks and protocol globals never grow and a down literal never goes along applied repairs |
| RepairGrant.TextWithinGrant | server/internal/aichecks/repair.go:565-611 | an applied text stays within its grant if and only if it stays within the human-written version's hold |
| WebhookQueue.ChannelQueue.constructor | server/cmd/scenariodriver/receiver.go:33-37 | no payload, the first channel open |
| WebhookQueue.ChannelQueue.Append | server/cmd/scenariodriver/receiver.go:40-51 | the open channel is numbered by the payloads queued, and exactly the older ones are closed |
| WebhookQueue.ChannelQueue.Snapshot | server/cmd/scenariodriver/receiver.go:54-62 | all payloads in order, exactly one for each channel closed so far |
| WebhookQueue.ChannelQueue.NotifyChan | server/cmd/scenariodriver/receiver.go:66-71 | the one open channel: numbered by the payloads queued, not closed, all older ones closed |
| WebhookQueue.WaiterAlwaysKnows | server/cmd/scenariodriver/receiver.go:163-191 | in every run a parked waiter has examined and rejected all it saw, and the order of its reads bounds the channel by what it saw |
| WebhookQueue.WakeupCharacterised | server/cmd/scenariodriver/receiver.go:163-191 | nil means a match; a waiter nothing will wake missed exactly the payloads between its snapshot and its channel read |
| WebhookQueue.ChannelFirstLosesNone | server/cmd/scenariodriver/receiver.go:170-187 | reading the channel first loses no wakeup |
| WebhookQueue.SnapshotFirstLosesOne | server/cmd/scenariodriver/receiver.go:172-187 | a run in which the code's order loses one |
| WebhookQueue.WokenFinds | server/cmd/scenariodriver/receiver.go:170-190 | a waiter parked on a closed channel, or looking, while a match is queued returns for the first one |
| WebhookQueue.AppendWakes | server/cmd/scenariodriver/receiver.go:40-51 | an append closes the channel a waiter is parked on |
| HistogramQuantile.LabelHistogramQuantile | server/cmd/loadgen/main.go:580-637 | 0 without the family, else the estimate of the two snapshots |
| HistogramQuantile.Collect | server/cmd/loadgen/main.go:589-605 | the nested loops gather all buckets of matching metrics and the largest finite bound |
| HistogramQuantile.GatherSums | server/cmd/loadgen/main.go:598-602 | each bound gets the sum of its counts, no other bound appears, no finite bound exceeds the largest |
| HistogramQuantile.FindQuantile | server/cmd/loadgen/main.go:620-636 | the loop over bounds answers from the first bucket reaching the target |
| HistogramQuantile.EstimateInRange | server/cmd/loadgen/main.go:617-636 | the answer lies within [0, lastFinite] and inside the crossing bucket |
| HistogramQuantile.EstimateMonotone | server/cmd/loadgen/main.go:617-636 | a larger target never gives a smaller answer |
| HistogramQuantile.EstimateExactly | server/cmd/loadgen/main.go:620-636 | the interpolated cumulative count at the answer is the target, except short of a first bucket of no width |
| HistogramQuantile.ZeroBucketMisses | server/cmd/loadgen/main.go:620-636 | bounds 0 and +Inf, five samples at 0 and target 1: the count at the answer is not the target |
| HistogramQuantile.CumulativeIsLinear | server/cmd/loadgen/main.go:620-636 | the cumulative count runs straight from the count of one bound to that of the next |
| HistogramQuantile.FirstBucketIsLinear | server/cmd/loadgen/main.go:618-636 | and from 0 at 0 to the count of the first |
| HistogramQuantile.NoTarget | server/cmd/loadgen/main.go:624-634 | for target 0 the answer is the first bound when its bucket is empty, else 0 |
| HistogramQuantile.CollectedReadOff | server/cmd/loadgen/main.go:589-611 | bounds, counts and lastFinite are the sorted bounds of the matching metrics, what each count summed over them gained, and the largest finite bound |
| HistogramQuantile.UsableIsWellFormed | server/cmd/loadgen/main.go:606-616 | what collecting and sorting usable snapshots gives meets what the estimate needs |
| HistogramQuantile.QuantileCorrect | server/cmd/loadgen/main.go:576-637 | end to end: within [0, lastFinite] and the crossing bucket, lastFinite past the finite ones, with q times what the +Inf count gained below it if and only if that is not short of the count of a first bucket of no width |
| HistogramQuantile.QuantileMonotone | server/cmd/loadgen/main.go:576-637 | a larger q never gives a smaller answer |
| HistogramQuantile.NothingGained | server/cmd/loadgen/main.go:612-616 | the answer is 0 when the +Inf count gained nothing |
| OpenApiServers.RewriteOpenAPIServers | server/internal/app/openapi_spec.go:59-130 | the rewrite, with an unsafe origin or a missing key left as the document |
| OpenApiServers.ReplaceBlock | server/internal/app/openapi_spec.go:72-129 | the key's block replaced by the new one, its trailing blank lines kept in number |
| OpenApiServers.MeasureBlock | server/internal/app/openapi_spec.go:87-105 | the first top-level line after the key, and the blank lines before it |
| OpenApiServers.SafeOriginExactly | server/internal/app/openapi_spec.go:141-154 | an origin is safe exactly when it is http or https, "://" and a non-empty host of allowed characters |
| OpenApiServers.SplitJoin | server/internal/app/openapi_spec.go:72-129 | joining lines without newlines and splitting again gives the same lines |
| OpenApiServers.JoinSplit | server/internal/app/openapi_spec.go:72-129 | splitting and joining gives any text back |
| OpenApiServers.RewriteFrames | server/internal/app/openapi_spec.go:59-130 | re-splitting the result gives the lines built: all up to the key and from the next top-level line kept, around the new block and as many blank lines |
| OpenApiServers.RewriteExactly | server/internal/app/openapi_spec.go:72-129 | the rewritten document line by line: up to the key as it was, the origin as this server, the cloud unless the origin is it up to case, as many blank lines as the block ended with, and every line from the first one not indented on |
| OpenApiServers.BlockExists | server/internal/app/openapi_spec.go:87-105 | every document with the key has such a block |
| OpenApiServers.RewriteLeavesOthers | server/internal/app/openapi_spec.go:68-86 | an unsafe origin or a document without the key changes nothing |
| OpenApiServers.LastRewriteWins | server/internal/app/openapi_spec.go:59-130 | rewriting for one origin and then another is rewriting for the other |
| OpenApiServers.RewriteIdempotent | server/internal/app/openapi_spec.go:59-130 | rewriting twice is rewriting once, any document, any origin |

## Left out

- Log writer: failed renames and removals, the closing of files, and overflow of 2 * maxSize, which starts at a maxSize of 2^62.
- Log sinks: the multi-writer and the prefix of devloop's own lines.
- ScriptScanner: characters stand for runes; invalid UTF-8, which Go turns into replacement runes, is not modelled.
- callSnippet: the cut around the call and the trimming; its unmasking is `Unmask`.
- Guards: regular expressions, URL parsing, host extraction, hidden hosts, added references and the digest are arbitrary functions or findings; that `netCallSites` and `visibleTarget` recognise what they should is not stated.
- Repair configs: host lists are sets; other config fields, the recorded reason, events and mails are not part of the model, and neither are the gates before a repair, the failure classification and revocation.
- Repair mode off: a target in that mode is not loaded, so storeCandidate never sees it.
- RunRecorder.Recorder.Run: the texts given to the model, progress events, unknown-secret notes and scrubbing; how a run ends is a parameter.
- fencedScript: with trimming, an arbitrary function of the text.
- Agent loop: tool definitions, logging, JSON, HTTP retries and how a tool's error becomes its text; roles other than the three; hooks that change the loop itself.
- Supervisor.Safety: one supervisor at a time; stopAll runs this protocol for each child on its own. Signals and the grace timer only make a child's exit possible, which it always is.
- Debouncer.ReachableLosesNothing: changes made before the watches are set up, in directories not yet watched, or dropped by a watcher overflow, and what happens after cancellation.
- ReplayGuard.AtMostOnce: the database-backed guard, a retention that varies from call to call, and timestamps 2^63 ns or more ahead, which the window lets in at any time.
- ReplayGuard.AcceptedExactly: the parsing of RFC 3339 text is a parameter.
- WebhookQueue.WakeupCharacterised: one waiter against any number of senders (waiters only read, so they do not affect each other); the HTTP receiver and channel creation.
- HistogramQuantile.QuantileCorrect: floating-point rounding and NaN bounds.
- OpenApiServers.RewriteOpenAPIServers: how the origin is read off the request; documents with CRLF line ends have no line equal to the key and are left alone, as in the code; case folding beyond ASCII, which a safe origin does not reach.
- HTTP handlers, storage, the frontend, metrics scraping and deployment.
