# Verified models of the Beuvian protocols

Beuvian lets a person drive a coding agent on their own machine from a phone: a backend queues prompts and keeps
sessions, an agent on the machine supervises the coding process and talks to the backend over one WebSocket. This
project models the state machines underneath and proves what they keep over every run.

Each imperative component appears twice: as a class whose methods change fields step by step the way the Go code
does, and as functions of the state that those methods are proved against. The run theorems (`…Runs`,
`Supervision`) are about those functions. `dafny verify dfyconfig.toml` checks everything.

| files | subject |
|---|---|
| `Prompts`, `PromptOrder`, `PromptRuns`, `PromptEffects`, `PromptWitnesses`, `AgentQueue`, `Delivery`, `DeliveryRuns` | a prompt's way from its row to the coding agent's stdin and back as an ACK |
| `Tokens`, `TokenRuns` | refresh-token rotation and reuse detection, statement by statement (section 4.14.2 of RFC 9700) |
| `Ids` | ULID-style identifiers and nonces, down to the wrapping 32-bit accumulator |
| `Protocol`, `Adapter`, `Supervision` | the supervised process: two readers, a reaper, stops and prompts interleaved |
| `ProcessTree` | the snapshot walk behind a forced kill |
| `LogBatch`, `Transcript` | output lines into LOG frames, LOG frames into numbered rows, rows to a polling reader |
| `SleepGuard`, `SleepRuns` | sleep inhibition around a session |
| `Hub` | the two indexes of live connections |
| `Sessions`, `SessionRuns` | session rows: one open per device, ended once |
| `StateFile`, `StateRuns` | the agent's encrypted state file under crashes |
| `Supervisor` | ordered start, reverse stop, one grace period |
| `Paging` | keyset pages over tables that may change |
| `Limiter` | the fixed-window rate limiter |

## What the proofs found

Where code and comments or documentation disagree the models follow the code. Each point below is a lemma, and
what fails is shown to fail on a run from the initial state.

* A prompt is never marked `failed`. Every query leaves out rows with five attempts, so the three branches guarded by
  `Exhausted` cannot be reached (`PromptRuns.RowsOnlyEvolve`); the ACK of a fifth dispatch is dropped, and the row stays
  `dispatched` until someone cancels it (`PromptRuns.LastAttemptIsStranded`,
  `PromptWitnesses.FifthDispatchGoesUnheard`).
* An ACK is matched only against the device's first 100 eligible rows (`PromptRuns.AckDeliversIff`). While the clock
  advances from send to send, rows dispatched from the 20- and 50-row windows stay among them
  (`PromptRuns.WindowedPromptStaysAcknowledgeable`). A clock that is set back lets later prompts in ahead and can cost
  a dispatched one its ACK (`PromptOrder.EnqueueMovesBackIff`, `PromptWitnesses.ClockSetBackLosesAck`), and a direct
  dispatch behind 100 others is never among them (`PromptWitnesses.DirectDispatchGoesUnheard`).
* Revoking a token family is final exactly when no refresh of that family is between its `MarkUsed` and its `Create`
  (`TokenRuns.RevocationIsFinalIff`), and so is the revocation that a replayed token brings on
  (`TokenRuns.ReplayIsFinalIff`). The loser of a race on one token can therefore revoke too early
  (`TokenRuns.RaceOnOneToken`, `TokenRuns.EarlyRevocationHappens`).
* `Time` recovers an identifier's millisecond exactly when it lies in `[0, 2^50)` (`Ids.ClockRoundTrips`), and an
  identifier with an empty prefix does not validate (`Ids.GeneratedIsWellFormed`).
* A stop that arrives while the process is still `starting` is the adapter's only step off the transition table
  (`Supervision.OnlyStopWhileStartingIsOffTable`, `Supervision.StopWhileStartingHappens`). The backend's own row
  refuses the same step, after the stop request has gone out (`SessionRuns.StopWhileStartingIsLost`).
* A StartSession that overlaps the ending of an earlier session can leave an active session without its sleep
  inhibition, in two ways (`SleepRuns.LateReleaseLosesInhibition`, `SleepRuns.EndingInsideStartLosesInhibition`); when
  the two do not overlap it cannot (`SleepRuns.ApartIsHeld`), and `SleepRuns.MayLoseIff` says which states are
  exposed. This is about the manager's interface: the agent as it is wired calls StartSession once
  (`agent/internal/session/manager.go:105`), and both runs need a second call.
* Log lines go out under the session id of the flush. A line left in the buffer when the next session starts, or
  drained by a superseded session's consumer after that, goes out under the wrong session (`LogBatch.UnmixedIff`,
  `LogBatch.BufferedLineGoesAstray`, `LogBatch.LateLineGoesAstray`). Both need a second StartSession too, which the
  agent as wired does not make.
* An over-long line sets the truncation mark before the change of stream it may bring flushes the buffer. The marks
  are right at every point of a run exactly when no over-long line changes the stream while lines are buffered
  (`LogBatch.MarksRightIff`, `LogBatch.MarkGoesAstray`).
* A kill of the inhibitor that the operating system refuses leaks it for good: the field naming it is cleared first
  (`SleepRuns.RefusedKillLeaks`, `SleepRuns.LeakIsForever`).
* The hub leaves an empty inner map exactly when a device reconnects under another owner and the evicted connection
  was the former owner's only one (`Hub.EmptyInnerMapIff`, `Hub.EmptyInnerMapHappens`).
* The limiter names its counters by whole seconds, so windows below a second share them: exactly the first `limit`
  requests of each window are admitted if and only if the window is a second or longer (`Limiter.ExactIffWholeSecond`).
  Such windows may also lose their counts early when the client cuts expiries to whole seconds
  (`Limiter.ShortWindowForgets`). Twice the limit in one window's length is never exceeded, whatever the length
  (`Limiter.AtMostTwiceTheLimit`).
* One stale session that started after the database's clock makes the sweep's single UPDATE fail for every device
  (`SessionRuns.SweepFailsIff`, `SessionRuns.SweepFailsForAll`).
* Log lines are numbered on from the highest number stored. A polling reader misses lines exactly when retention
  deletes rows it has not read, or deletes the highest one it has, so that the next lines reuse its numbers
  (`Transcript.ReaderMissesNothingIff`, `Transcript.ReusedNumberIsMissed`).
* The directory of the state file is never synced. What a crash keeps is always one of the states saved, whole, and it
  is the last one when the rename itself survives (`StateRuns.CrashNeverCorrupts`); a save that reported success may
  otherwise be gone (`StateRuns.RenameMayBeLost`).

## Assumptions

Service calls are atomic, except refreshes, whose statements interleave, and, in the second half of `SleepRuns`, the
manager's starts and endings. A table is a map or a sequence in insertion order, a statement one update of it. The
prompt windows follow the enqueue time, rows of one time in insertion order; SQL may order those otherwise, so what is
said about every answer of the query asks for distinct times. The link may lose, repeat and reorder frames and
ACKs. An agent drains its queue before it serves frames, which is how a connection is set up
(`agent/internal/transport/client.go:276-284`). Random identifiers are fresh, the clock is an integer, text is a
sequence of byte-sized characters. Encryption and JSON are functions that invert. Answers of the outside (did a write
succeed, did a process start, what did the socket say) are parameters, so every answer is covered. Limits that the
configuration requires to be positive (`agent/internal/config/validate.go:163-192`,
`backend/internal/config/validate.go:266-287`) are positive here.

## Model

| member | source | states |
|---|---|---|
| Prompts.PromptService.Enqueue | backend/internal/adapter/postgres/queue_store.go:49-62 | a valid prompt with a new id is appended if the database takes it, and nothing else ever is |
| Prelude.BlankSpells | backend/internal/domain/prompt.go:81-86 | a text counted as blank is the UTF-8 form of white-space code points and nothing else |
| Prelude.WhiteIsBlank | backend/internal/domain/prompt.go:81-86 | and every such text is counted as blank |
| Prompts.PromptService.Update | backend/internal/adapter/postgres/queue_store.go:72-87 | the delivery columns of the one row with that id are replaced; an unknown id is reported and changes nothing |
| Prompts.PromptService.PendingForDevice | backend/internal/adapter/postgres/queue_store.go:98-122 | the device's pending and dispatched rows below the attempt cap, by enqueue time, up to the clamped limit |
| Prompts.PromptService.Deliver | backend/internal/app/prompt.go:178-205 | a frame that cannot be sent changes nothing; one that is sent counts an attempt, unless recording it fails |
| Prompts.PromptService.Send | backend/internal/app/prompt.go:85-175 | the row is committed before any dispatch; success depends on ownership, text, a fresh id and the database, never on the link; other instances are signalled exactly when the local attempt did not go out |
| Prompts.PromptService.DeliverPending | backend/internal/app/prompt.go:212-240 | the flush over the 50-row window, stopping at the first refused frame, against a recursive reading of the window |
| Prompts.PromptService.DeliverById | backend/internal/app/prompt.go:243-256 | at most the named prompt is dispatched, if it is in the 50-row window; otherwise nothing happens and that is no error |
| Prompts.PromptService.Acknowledge | backend/internal/app/prompt.go:262-291 | only the named row changes and only when the 100-row window holds it; what it becomes is PromptEffects.AckEffect |
| Prompts.PromptService.Cancel | backend/internal/app/prompt.go:299-319 | only the owner's own, not yet terminal prompt is cancelled |
| Prompts.PromptService.ReconcilePending | backend/internal/app/prompt.go:333-363 | the sweep device by device, each from the table its predecessors left |
| Prompts.PromptService.SweepDevice | backend/internal/app/prompt.go:340-357 | one device's part: recent rows are skipped and a refused frame does not stop it |
| PromptRuns.OperationProgress | backend/internal/app/prompt.go:85-363 | every operation keeps the table sound, only lets rows evolve, puts only frames of existing rows on the wire, and none but an acknowledgement makes a row delivered |
| PromptRuns.FlushProgress | backend/internal/app/prompt.go:212-240 | whatever the socket answers, the flush never reaches its give-up branch |
| PromptRuns.AckProgress | backend/internal/app/prompt.go:262-291 | a row becomes delivered only through an accepting ACK from its own device for its own id |
| PromptEffects.AckEffect | backend/internal/app/prompt.go:262-291 | an ACK for an eligible row among the first 100 does exactly one thing: accepting, the row is delivered at that time; rejecting, it is pending again, still eligible and at the same rank; every other row is as it was |
| PromptEffects.UnknownAckIsIgnored | backend/internal/app/prompt.go:262-277 | an ACK for any other row changes nothing |
| PromptEffects.SendEffect | backend/internal/app/prompt.go:85-175 | the new row as stored, field by field, the frame that goes out, and the row after it |
| PromptEffects.DispatchEffect | backend/internal/app/prompt.go:178-205 | one dispatch: the frame written out, one attempt more on that row if the write succeeds, nothing else |
| PromptEffects.ByIdEffect | backend/internal/app/prompt.go:243-256 | a dispatch by id sends that prompt's frame if it is eligible with rank below 50 and connected, and otherwise nothing |
| PromptEffects.FlushEffect | backend/internal/app/prompt.go:212-240 | the frames of a flush are those of the leading rows of rank below 50 up to the first the socket refuses, in order; exactly those rows count an attempt, where the write succeeded |
| PromptEffects.SweepEffect | backend/internal/app/prompt.go:333-357 | the frames a sweep of one device adds are exactly those of the eligible rows of rank below 20, enqueued no later than the cutoff, that the socket took, in rank order; those rows count an attempt where the write succeeded, every other row is unchanged, and the count is the number of frames |
| PromptEffects.SweepAllEffect | backend/internal/app/prompt.go:333-363 | the same for the whole sweep: device after device, each row of each connected device judged as above on the table the sweep found |
| PromptEffects.CancelEffect | backend/internal/app/prompt.go:299-319 | exactly the owner's row with that id is cancelled, if it is pending or dispatched |
| PromptRuns.RowsOnlyEvolve | backend/internal/domain/prompt.go:91-135 | over every run rows never disappear, attempts never fall nor pass the cap, delivered and cancelled are final, and no row is ever failed |
| PromptOrder.RowAtRank | backend/internal/adapter/postgres/queue_store.go:98-122 | an eligible row is read at the place that counts the eligible rows of earlier time, or of the same time and inserted earlier |
| PromptOrder.InWindowIff | backend/internal/adapter/postgres/queue_store.go:98-122 | a row is in a window exactly when it is eligible and its rank is below the clamped limit |
| PromptOrder.EnqueueMovesBackIff | backend/internal/adapter/postgres/queue_store.go:98-122 | a new row moves another back exactly when it is eligible for the same device and its enqueue time is earlier |
| PromptOrder.WindowIsAnAnswer | backend/internal/adapter/postgres/queue_store.go:98-122 | on every table the window is an answer of the query, read as SQL |
| PromptOrder.WindowIsTheSqlAnswer | backend/internal/adapter/postgres/queue_store.go:98-122 | with distinct enqueue times it is the only one |
| PromptRuns.RunTimes | backend/internal/app/prompt.go:101-117 | in every run rows are enqueued in insertion order, as far apart as the clock keeps the sends |
| PromptRuns.RunWindows | backend/internal/adapter/postgres/queue_store.go:98-122 | with a clock that advances from send to send every query of the run has one answer, the window |
| PromptRuns.RankNeverGrows | backend/internal/adapter/postgres/queue_store.go:98-122 | while the clock does not run backwards from send to send, nothing ever joins the queue ahead of a prompt |
| PromptRuns.AckDeliversIff | backend/internal/app/prompt.go:262-291 | an accepting ACK delivers exactly the eligible rows of rank below 100 and otherwise changes nothing |
| PromptRuns.WindowedPromptStaysAcknowledgeable | backend/internal/app/prompt.go:212-291 | with a clock that advances from send to send: a prompt once in the query's answer for at most 100 rows and still eligible is in every later answer for the acknowledgement, and an accepting ACK delivers it |
| PromptRuns.LastAttemptIsStranded | backend/internal/domain/prompt.go:135 | a row dispatched for the fifth time never changes again but by cancelling |
| PromptRuns.DirectDispatchBeyondTheWindow | backend/internal/app/prompt.go:161-175 | with 100 eligible rows ahead a direct dispatch goes out and its accepting ACK is dropped |
| PromptWitnesses.DirectDispatchGoesUnheard | backend/internal/app/prompt.go:161-175 | a run from the empty table in which that happens, behind any crowd of 100 or more |
| PromptWitnesses.ClockSetBackLosesAck | backend/internal/app/prompt.go:85-115 | a run in which a prompt is dispatched from its window, the clock is set back, and 100 later prompts cost it its ACK |
| PromptWitnesses.FifthDispatchGoesUnheard | backend/internal/app/prompt.go:178-291 | a run in which a prompt alone in its queue is dispatched five times and the ACK of the fifth is dropped |
| AgentQueue.PromptHandler.QueuePrompt | agent/internal/session/handler.go:160-181 | a prompt already queued is not queued again, a full queue drops its oldest, and success means the state file was written |
| AgentQueue.PromptHandler.HandlePrompt | agent/internal/session/handler.go:65-118 | inject, or store and accept, or refuse with a reason: one ACK a frame in every case |
| AgentQueue.AckTells | agent/internal/session/handler.go:65-118 | the one new ACK accepts if and only if the adapter took the text, or there was no session or a busy one and the state file was written |
| AgentQueue.StoredWhileBusy | agent/internal/session/handler.go:77-103 | without a session or with a busy one the prompt ends up in the queue, on disk too if the write succeeded, and nothing is injected |
| AgentQueue.TakenOrRefused | agent/internal/session/handler.go:83-118 | a prompt the adapter takes is injected and the queue left alone; with a broken adapter the refusal and its reason are all that happens |
| AgentQueue.PromptHandler.DrainPendingPrompts | agent/internal/session/handler.go:188-229 | exactly the prompts before the first refusal are injected, in order, and exactly those leave the queue |
| AgentQueue.DrainTakesOff | agent/internal/session/handler.go:212-224 | after a drain the queue is what was behind the injected prompts, on disk too if the write succeeded |
| Delivery.HandledKeepsNode | agent/internal/session/handler.go:65-181 | handling a frame keeps the queue distinct and bounded, and an accepting ACK always has a kept prompt behind it |
| Delivery.AgentStepKeepsNode | agent/internal/session/handler.go:160-252 | no step of an agent, a crash or another update of its state file included, forgets a prompt it kept |
| DeliveryRuns.AckKeepsInv | backend/internal/app/prompt.go:262-291 | an ACK that arrives late or again never marks a prompt delivered that its agent does not keep |
| DeliveryRuns.RunKeepsInv | agent/internal/transport/client.go:276-284 | the invariant over every run of backend, agents and a link that loses, repeats and reorders |
| DeliveryRuns.DeliveredIsNotLost | agent/internal/session/handler.go:65-229 | a delivered prompt has reached the coding agent's stdin, or waits in its device's queue in memory and on disk, or was evicted by the cap |
| DeliveryRuns.MayBecomeDeliveredIff | backend/internal/app/prompt.go:243-291 | at every point of every run, a prompt of a known device not delivered yet may still be if and only if it is eligible, whatever went wrong before |
| DeliveryRuns.CanStillBeDelivered | backend/internal/app/prompt.go:243-319 | the run that does it: rows too far ahead are cancelled, the device reconnects, and the prompt is dispatched, injected and acknowledged |
| DeliveryRuns.DeliveredByWayOfTheQueue | agent/internal/session/handler.go:65-229 | a run in which the agent is busy, stores the prompt and accepts it, the prompt is marked delivered, and the drain of the next connection injects it |
| DeliveryRuns.LastDispatchIsDeaf | backend/internal/app/prompt.go:243-291 | with one attempt left the recorded dispatch goes out and its accepting ACK changes nothing |
| DeliveryRuns.QueueStaysBounded | agent/internal/session/handler.go:160-181 | every agent's queue has distinct ids and stays within the cap at every point of every run |
| Delivery.EvictsOldestWhenFull | agent/internal/session/handler.go:169-174 | something is evicted exactly when a new prompt meets a full queue, and it is the oldest entry |
| Delivery.ReconnectEffect | agent/internal/session/handler.go:188-252 | a reconnection drains what is in memory, one after a crash what was on disk, and a write of the state file before the crash makes the two the same |
| Delivery.DrainIsItsSteps | agent/internal/session/handler.go:188-229 | the drain as one call equals the drain as single injections followed by one removal |
| Tokens.TokenStore.Create | backend/internal/adapter/postgres/token_store.go:24-34 | a token goes in unused, exactly when neither its id nor its hash is taken |
| Tokens.TokenStore.ByHash | backend/internal/adapter/postgres/token_store.go:40-51 | finds a row with the hash exactly when there is one |
| Tokens.TokenStore.MarkUsed | backend/internal/adapter/postgres/token_store.go:58-68 | compare-and-set: succeeds exactly on an unused row |
| Tokens.TokenStore.RevokeFamily | backend/internal/adapter/postgres/token_store.go:75-79 | removes exactly the family's rows |
| Tokens.TokenStore.DeleteExpired | backend/internal/adapter/postgres/token_store.go:89-96 | removes exactly the rows expired before the instant and counts them |
| Tokens.Refresh | backend/internal/app/auth.go:193-294 | alone, a refresh answers with a token only for one that was unused and not past its expiry, which is then used, and the new one is in its family; a refused call adds no row |
| Tokens.RefreshEffect | backend/internal/app/auth.go:205-259 | on the fields of the presented row: used, its family's rows go and no others; unused and past its expiry, nothing changes; live, it is marked and the replacement joins if its id and hash are new |
| Tokens.Logout | backend/internal/app/auth.go:300-319 | removes the presented token's whole family, or nothing |
| TokenRuns.StepKeepsConsistent | backend/internal/app/auth.go:193-294 | every statement of every interleaved call keeps rows, calls and history in agreement |
| TokenRuns.LookupEffect | backend/internal/app/auth.go:198-226 | what looking up a row leads a call to: a used one to revoking its family, an expired one to its end, a live one to marking, and a logout to revoking |
| TokenRuns.UnknownEffect | backend/internal/app/auth.go:198-204 | a lookup finds nothing exactly when no row has the hash, and ends the call |
| TokenRuns.ExpireEffect | backend/internal/adapter/postgres/token_store.go:89-96 | the expiry job, at any time, keeps exactly the rows that expire at its instant or later |
| TokenRuns.StepKeepsSingleHolder | backend/internal/app/auth.go:220-259 | no interleaving gives a family two unused rows, two rotations, or one of each |
| TokenRuns.AtMostOneLiveToken | backend/internal/app/auth.go:193-294 | at every point of every run unused rows plus rotations under way number at most one a family |
| TokenRuns.NeverExchangedTwice | backend/internal/adapter/postgres/token_store.go:53-68 | no token is exchanged twice, whoever presents it and however calls interleave |
| TokenRuns.DeadNeverExchanges | backend/internal/adapter/postgres/token_store.go:75-79 | from a point with no unused row and no rotation, no run exchanges a token of the family again |
| TokenRuns.RotationRevives | backend/internal/app/auth.go:262-294 | a run in which a pending Create brings its family back and the new token is exchanged |
| TokenRuns.RevocationIsFinalIff | backend/internal/app/auth.go:205-240 | in every reachable state, revoking a family is final if and only if no refresh of it is between MarkUsed and Create |
| TokenRuns.ReplayIsFinalIff | backend/internal/app/auth.go:205-215 | a replayed token leads to the loss of every row of its family, for good if and only if no rotation of the family is under way |
| TokenRuns.RaceOnOneToken | backend/internal/app/auth.go:218-240 | of two calls holding the same row the first rotates and the second revokes, and that revocation is not final if it comes before the first's Create |
| TokenRuns.EarlyRevocationHappens | backend/internal/app/auth.go:218-240 | a run from the empty table: one login, two refreshes of its token, and a revocation about to run that will not be final |
| TokenRuns.RefreshAloneIsARun | backend/internal/app/auth.go:193-294 | the one-call refresh is the interleaved steps run without interruption |
| TokenRuns.LogoutAloneIsARun | backend/internal/app/auth.go:300-319 | the interleaved steps of a logout, run alone, take the whole family of the token found and nothing else |
| Ids.AlphabetSpelling | shared/id/id.go:30-58 | the digits are the 32 letters of Crockford's alphabet in its order |
| Ids.WriteTime | shared/id/id.go:68-74 | the first ten places receive the clock's low 50 bits, the other sixteen are untouched |
| Ids.AppendByte | shared/id/id.go:82-86 | one round of the 32-bit accumulator is one step of the unbounded big-endian value modulo 2^32 |
| Ids.WindowOfWord | shared/id/id.go:88-89 | five bits read from the accumulator are those of the unbounded value, although the word has wrapped |
| Ids.EmitDigits | shared/id/id.go:87-91 | the inner loop stays in bounds and writes digit after digit of the value so far |
| Ids.WriteRandom | shared/id/id.go:81-92 | positions 10 to 25 receive the sixteen base-32 digits of the ten bytes as one number, the first ten are untouched |
| Ids.NewAt | shared/id/id.go:65-95 | the whole identifier: ten clock digits, sixteen random digits |
| Ids.WithPrefix | shared/id/id.go:98-100 | prefix, underscore, identifier |
| Ids.Nonce | shared/id/id.go:166-187 | 26 digits of the sixteen bytes padded with two zero bits |
| Ids.WellFormedThroughBody | shared/id/id.go:122-139 | splitting at the last underscore decides exactly the shape: a body, or a body behind a non-empty prefix |
| Ids.Validate | shared/id/id.go:122-139 | accepts exactly the well-formed texts; each error names what is wrong, the first illegal character included |
| Ids.Time | shared/id/id.go:144-160 | succeeds exactly on well-formed texts and reads the ten digits before the random part |
| Ids.NumberOfDigits | shared/id/id.go:71-74 | writing n digits and reading them back is reduction modulo 32^n |
| Ids.ClockDigits | shared/id/id.go:68-74 | ten digits hold any clock reading, negative ones included, modulo 2^50 |
| Ids.GeneratedIsWellFormed | shared/id/id.go:97-139 | a generated identifier validates; behind a prefix it does if and only if the prefix is not empty |
| Ids.ClockRoundTrips | shared/id/id.go:141-160 | Time gives back the millisecond if and only if it lies in [0, 2^50) |
| Ids.EncodedInjective | shared/id/id.go:65-95 | two identifiers are equal exactly when the clocks agree modulo 2^50 and the random bytes agree |
| Ids.NonceInjective | shared/id/id.go:166-187 | two nonces are equal exactly when their bytes are |
| Ids.TextOrderIsNumberOrder | shared/id/id.go:65-74 | for texts of one length, text order is the order of the numbers written |
| Ids.EarlierSortsFirst | shared/id/id.go:65-95 | within the clock's range an earlier millisecond gives the smaller text, whatever the random bytes |
| Adapter.ClaudeAdapter.Start | agent/internal/coding/claude.go:85-198 | refused while active; a launch that fails changes nothing, one that succeeds starts from a clean state |
| Adapter.ClaudeAdapter.ObserveOutput | agent/internal/coding/claude.go:201-228 | output ends `starting` and `waiting_input` and no other state |
| Adapter.ClaudeAdapter.OfferLine | agent/internal/coding/claude.go:229-241 | a line is queued unless 4096 are waiting, in which case it is dropped |
| Adapter.ClaudeAdapter.RecordExit | agent/internal/coding/claude.go:244-276 | a stop that was asked for or a clean exit ends in stopped, anything else in crashed |
| Adapter.ClaudeAdapter.CloseOutput | agent/internal/coding/claude.go:272-276 | the channel closes, and what it carried stands |
| Adapter.ClaudeAdapter.RequestStop | agent/internal/coding/claude.go:281-300 | the state becomes stopping exactly while a launched process has not exited |
| Adapter.ClaudeAdapter.CheckPrompt | agent/internal/coding/claude.go:370-390 | which states take a prompt, and which error the others answer |
| Adapter.ClaudeAdapter.NotePrompt | agent/internal/coding/claude.go:400-417 | a written prompt resumes a waiting agent |
| Adapter.ClaudeAdapter.MarkWaiting | agent/internal/coding/claude.go:439-445 | only a running agent becomes waiting |
| Supervision.InvAt | agent/internal/coding/claude.go:201-445 | over every interleaving of readers, reaper, stops, prompts and MarkWaiting: exited, terminal state, closed channel and finished readers agree |
| Supervision.OnlyStopWhileStartingIsOffTable | shared/protocol/state.go:37-56 | every state change is an edge of the transition table, with exactly one exception: a stop while starting |
| Supervision.StopWhileStartingHappens | agent/internal/coding/claude.go:281-300 | and that step is taken by a stop right after the start |
| Supervision.TerminalIsFinal | agent/internal/coding/claude.go:244-276 | exited holds exactly in the terminal states, and the state and exit code then never change |
| Supervision.StateChangesIff | agent/internal/coding/claude.go:201-445 | in every run the state changes on exactly these steps: a line read while starting or waiting, a prompt noted while waiting, an idle period while running, a stop before the exit, the exit |
| Supervision.StartingIff | agent/internal/coding/claude.go:213-223 | a process is starting if and only if no line was read, no stop asked for and no exit recorded so far |
| Supervision.ExitIsRecorded | agent/internal/coding/claude.go:244-276 | at every point after the exit the code is the one Wait returned, and the state is stopped if and only if a stop had been asked for or the exit was clean with code 0, crashed otherwise |
| Supervision.PromptPassesIff | agent/internal/coding/claude.go:370-390 | a prompt passes its check if and only if a line was read or a stop asked for before and no exit is recorded |
| Supervision.FirstLineOpensStdin | agent/internal/coding/claude.go:217-223 | the run start, one line, one prompt: the prompt is in stdin |
| Supervision.IdleWaits | agent/internal/coding/claude.go:439-445 | a run in which a process that printed a line idles and is waiting |
| Supervision.PromptEndsWaiting | agent/internal/coding/claude.go:392-417 | from every such point the next prompt written and noted resumes the process and becomes its task |
| Supervision.StdinIsWhatWasWritten | agent/internal/coding/claude.go:392-398 | over every run stdin holds the texts of the writes that succeeded, in their order, each the one its call had checked with |
| Supervision.CallsEnd | agent/internal/coding/claude.go:392-417 | a noted prompt becomes the task and ends its call, a failed write ends it too, and no other step touches a call |
| Supervision.SendNeverPanics | agent/internal/coding/claude.go:229-276 | no line is sent on a closed channel and the channel closes at most once |
| Supervision.AcceptedPrecedesClose | agent/internal/coding/claude.go:244-276 | nothing joins the channel after its close |
| Supervision.AcceptedUnlessFull | agent/internal/coding/claude.go:229-241 | a line joins the channel if and only if fewer than 4096 wait there; otherwise it is dropped |
| Supervision.TakenInOrder | agent/internal/coding/claude.go:229-276 | the consumer has received as many lines as it took turns, never more than there are, and what was accepted before stays in front |
| Supervision.CanWindDown | agent/internal/coding/claude.go:201-276 | from every point of every run the readers, the reaper and the consumer alone can reach the recorded exit, the closed channel and the last line received |
| Supervision.NothingLostWithoutDrop | agent/internal/coding/claude.go:201-276 | if no full buffer dropped a line, the closed channel has carried each stream's lines, all and in order |
| Supervision.NothingWrittenWhileStarting | agent/internal/coding/claude.go:370-390 | no prompt reaches a process that is still starting |
| ProcessTree.BuildChildren | agent/internal/coding/process_windows.go:61-75 | the map lists, for each parent, its children in snapshot order |
| ProcessTree.DescendantPids | agent/internal/coding/process_windows.go:54-89 | terminates on every snapshot, cyclic ones included; lists only descendants, all of them short of the cap; on a tree each once and after its parent |
| ProcessTree.WalkStep | agent/internal/coding/process_windows.go:79-87 | one round of the walk keeps what is listed sound, closed under the processes visited, and on a tree free of repetition |
| ProcessTree.ListsEachOnce | agent/internal/coding/process_windows.go:79-87 | on a tree the children of the next process are all new |
| ProcessTree.DryQueueIsComplete | agent/internal/coding/process_windows.go:79-87 | when the queue runs dry every descendant is listed |
| ProcessTree.CompleteUpToCap | agent/internal/coding/process_windows.go:77-88 | a tree of at most 512 descendants is listed in full even when the walk stops at the cap |
| ProcessTree.KillProcessGroup | agent/internal/coding/process_windows.go:42-51 | the process itself is killed last, and those before it, read backwards, are a listing of its descendants |
| ProcessTree.KillsChildrenFirst | agent/internal/coding/process_windows.go:42-51 | on a tree every process is killed before its parent |
| LogBatch.LogBuffer.AppendLog | agent/internal/session/manager.go:275-304 | cut, then flush on a change of stream, then join, then flush when full |
| LogBatch.AppendEffect | agent/internal/session/manager.go:275-371 | buffer, stream, time, mark and batches after one line, field by field, for a line that joins, one that fills the buffer and one that changes the stream |
| LogBatch.LogBuffer.FlushLocked | agent/internal/session/manager.go:332-371 | a non-empty buffer becomes one batch under the session id of the moment, or is discarded when none is set |
| LogBatch.LogBuffer.SetSession | agent/internal/session/manager.go:179-184 | a new session takes over the id and leaves the buffer as it is |
| LogBatch.TranscriptIsFaithful | agent/internal/session/manager.go:275-371 | over lines, flushes and new sessions, batches followed by buffer are the input lines, cut where over-long, each under its stream, in order; batches are non-empty and bounded, the buffer stays below the batch size |
| LogBatch.UnmixedIff | agent/internal/session/manager.go:233-371 | over every run of consumers, flushes and new sessions, every line goes out under its own session if and only if each new session finds the buffer empty and no superseded session's line follows one |
| LogBatch.BufferedLineGoesAstray | agent/internal/session/manager.go:332-339 | a run in which a line left in the buffer goes out under the next session |
| LogBatch.LateLineGoesAstray | agent/internal/session/manager.go:233-236 | a run in which a superseded consumer's line does, although the new session found the buffer empty |
| LogBatch.MarksRightIff | agent/internal/session/manager.go:279-304 | at every point of a run each batch is marked exactly when it carries a cut line, if and only if no over-long line of the run changes the stream while lines are buffered |
| LogBatch.MarkGoesAstray | agent/internal/session/manager.go:279-304 | a run in which the batch before carries the mark of the over-long line |
| LogBatch.NoSessionSendsNothing | agent/internal/session/manager.go:332-371 | without a session id nothing is sent and the buffer stays bounded |
| Transcript.LogStore.AppendBatch | backend/internal/adapter/postgres/session_store.go:202-226 | a row whose number is taken is skipped, every other is stored |
| Transcript.IngestedAt | backend/internal/adapter/postgres/session_store.go:202-226 | a stored row survives any batch, and a new number gets the first row of the batch that carries it |
| Transcript.LogStore.AppendLogs | backend/internal/app/session.go:269-293 | the frame's lines are numbered on from the highest number stored, the truncation mark on the first only |
| Transcript.LogStore.After | backend/internal/adapter/postgres/session_store.go:232-257 | the rows above a number, ascending, up to the clamped limit |
| Transcript.AppendedAt | backend/internal/app/session.go:264-293 | no line of a frame meets a taken number: all are stored, nothing stored before changes |
| Transcript.NewLinesRead | backend/internal/adapter/postgres/session_store.go:228-269 | exactly which of a frame's lines a reader at a given number will see |
| Transcript.NothingMissedIff | backend/internal/adapter/postgres/session_store.go:259-269 | a reader sees the whole frame if and only if it is not ahead of the highest number stored |
| Transcript.ReaderMissesNothingIff | backend/internal/app/session.go:214-222 | over every run of frames, polls and deletion of any rows: what a reader has and has yet to read are all lines, once and in order, at every point if and only if each deletion leaves what the reader has not read and each frame with lines finds the reader not ahead of what is stored |
| Transcript.ReusedNumberIsMissed | backend/internal/adapter/postgres/session_store.go:259-279 | a run in which retention deletes a row that was read, the next line is given its number, and the reader never sees it |
| SleepGuard.LinuxPower.PreventSleep | agent/internal/power/power_linux.go:61-113 | starts an inhibitor only when none is tracked; a failed start changes nothing |
| SleepGuard.LinuxPower.AllowSleep | agent/internal/power/power_linux.go:116-137 | succeeds exactly when nothing is left held; a refused kill forgets the process and still says prevented |
| SleepGuard.LinuxPower.OnExit | agent/internal/power/power_linux.go:93-104 | only the watcher of the tracked inhibitor clears the record |
| SleepGuard.Manager.StartSession | agent/internal/session/manager.go:133-200 | refused while active or unknown; otherwise inhibit, launch, and either install the session or release |
| SleepGuard.Manager.StopSession | agent/internal/session/manager.go:203-230 | without an adapter nothing happens; otherwise release and forget the adapter |
| SleepGuard.Manager.StreamEnded | agent/internal/session/manager.go:233-272 | only the ending of the manager's own session takes over its state and releases |
| SleepRuns.StartEffect | agent/internal/session/manager.go:133-200 | the manager and the inhibitor after a StartSession, field by field: refused, launched over a tracked or a new inhibitor, or failed |
| SleepRuns.StopEffect | agent/internal/session/manager.go:203-230 | the same for StopSession |
| SleepRuns.EndEffect | agent/internal/session/manager.go:233-272 | the same for the ending of a session, its own and another's |
| SleepRuns.DeathEffect | agent/internal/power/power_linux.go:93-104 | a tracked inhibitor that dies is noticed, and then neither tracked nor reported; the death of another changes nothing |
| SleepRuns.ReasonIsShown | agent/internal/power/power.go:134-163 | over every run the status carries the reason exactly while it reports sleep as prevented |
| SleepRuns.StepKeepsNoLeak | agent/internal/session/manager.go:133-272 | with kills carried out, every event, inhibitor deaths included, keeps one tracked inhibitor at most and none without an active session |
| SleepRuns.InhibitedExactlyWhileActive | agent/internal/session/manager.go:133-272 | over every run with an inhibitor that starts and stays: sleep is inhibited, and reported so, exactly while the manager's state is active |
| SleepRuns.NeverHeldWhileInactive | agent/internal/power/power.go:134-175 | with an inhibitor that may be missing or die: never two, and none without an active session |
| SleepRuns.FailedStartHoldsNothing | agent/internal/session/manager.go:165-177 | at any point of a run a launch that fails leaves nothing held and nothing reported |
| SleepRuns.SupersededEndingKeepsInhibition | agent/internal/session/manager.go:246-255 | at any point of a run the ending of a superseded session leaves the active one active and inhibited |
| SleepRuns.OneReleaseUndoesAll | agent/internal/power/power.go:165-175 | any number of PreventSleep calls, whatever comes of them, is undone by one AllowSleep |
| SleepRuns.LeakIsForever | agent/internal/power/power_linux.go:116-137 | over every run an inhibition nobody tracks stays until its process dies by itself |
| SleepRuns.RefusedKillLeaks | agent/internal/power/power_linux.go:125-133 | a run in which a session is started and stopped, the kill is refused, and the machine stays awake |
| SleepRuns.HeldIffNotReleasedSince | agent/internal/session/manager.go:133-272 | with starts and endings in separate steps, an active session is inhibited if and only if no ending has released since its PreventSleep |
| SleepRuns.ApartIsHeld | agent/internal/session/manager.go:151-188 | if no start begins while an ending has yet to release and none is under way when the session ends, an active session is inhibited |
| SleepRuns.MayLoseIff | agent/internal/session/manager.go:133-272 | at every point of every run, a session starting or running with its inhibition may lose it without having ended or been stopped if and only if an ending has yet to release, or the session before it may still end during its start |
| SleepRuns.LateReleaseLosesInhibition | agent/internal/session/manager.go:246-263 | a run in which an ending's late release hits the next session |
| SleepRuns.EndingInsideStartLosesInhibition | agent/internal/session/manager.go:153-184 | a run in which a stopped session ends inside the next one's start |
| Hub.Hub.Register | backend/internal/adapter/ws/hub.go:98-122 | both indexes after a registration, and that the device's former connection and no other is closed |
| Hub.Hub.Unregister | backend/internal/adapter/ws/hub.go:125-143 | the device entry goes only if it is this connection; an inner map left empty goes too |
| Hub.Hub.DeviceConnected | backend/internal/adapter/ws/hub.go:210-215 | whether the device has an entry |
| Hub.ConnectedIffLive | backend/internal/adapter/ws/hub.go:210-215 | a device has an entry exactly when one of the live connections is its own |
| Hub.Hub.Count | backend/internal/adapter/ws/hub.go:231-239 | the number of (user, connection) entries |
| Hub.Hub.CloseAll | backend/internal/adapter/ws/hub.go:258-273 | every indexed connection is closed and both indexes are empty |
| Hub.RegisterRefines | backend/internal/adapter/ws/hub.go:98-122 | registering refines adding to one set of live connections, less the device's former one |
| Hub.UnregisterRefines | backend/internal/adapter/ws/hub.go:125-143 | unregistering refines removal from that set |
| Hub.LateUnregisterIsANoOp | backend/internal/adapter/ws/hub.go:125-143 | unregistering a connection already evicted or removed changes nothing |
| Hub.CountIsLive | backend/internal/adapter/ws/hub.go:231-239 | Count is the size of the live set |
| Hub.HistoryRefines | backend/internal/adapter/ws/hub.go:98-143 | after every proper history the two indexes stand for the set read off the history |
| Hub.IndexesFollowHistory | backend/internal/adapter/ws/hub.go:98-143 | a connection is in either index if and only if it registered and has since been neither evicted, unregistered nor closed |
| Hub.EmptyInnerMapIff | backend/internal/adapter/ws/hub.go:104-112 | an inner map is left empty if and only if the evicted connection was the only one of another user |
| Hub.EmptyInnerMapHappens | backend/internal/adapter/ws/hub.go:104-112 | two registrations of one device under two users leave the first an empty inner map |
| Sessions.SessionService.ActiveForDevice | backend/internal/adapter/postgres/session_store.go:152-158 | the device's open session that started last, or none exactly when there is none |
| Sessions.SessionService.Start | backend/internal/app/session.go:74-146 | succeeds if and only if device, capability, repository, directory, the one-session rule and the database all allow it, and then opens exactly one row |
| Sessions.SessionService.Update | backend/internal/adapter/postgres/session_store.go:80-97 | state, exit code and end of one row, refused when the end would precede the start |
| Sessions.SessionService.Stop | backend/internal/app/session.go:164-212 | the request goes out exactly for the owner's open session on a connected device, and success means the row took it too |
| Sessions.SessionService.ApplyStatus | backend/internal/app/session.go:243-262 | an illegal transition is dropped without an error and changes nothing |
| Sessions.SessionService.Complete | backend/internal/app/session.go:296-325 | a negative exit code changes nothing, any other closes the session |
| Sessions.SessionService.SweepStale | backend/internal/app/session.go:332-342 | all open sessions of silent devices are closed in one statement and counted, or none |
| SessionRuns.StepKeeps | backend/internal/domain/session.go:75-102 | every operation keeps the invariant, and rows change only along the transition table, with their end kept once written |
| SessionRuns.MovesInto | shared/protocol/state.go:37-56 | the transition table read the other way: from which states each state can be reached |
| SessionRuns.OpenEffect | backend/internal/app/session.go:74-146 | a row is inserted, as it is, exactly when its id is new and no open session of its device stands in the way |
| SessionRuns.StatusEffect | backend/internal/app/session.go:243-262 | the row after a status frame, field by field: the state on a legal move, and the end when that move is terminal and the session open |
| SessionRuns.CompleteEffect | backend/internal/app/session.go:296-325 | the row after a completion: exit code, an end if there was none, the state untouched |
| SessionRuns.SweepEffect | backend/internal/adapter/postgres/session_store.go:166-180 | each row after a sweep, field by field |
| SessionRuns.SweepIsLegal | backend/internal/adapter/postgres/session_store.go:166-180 | the sweep's unconditional crashed is what the transition table would do to every row it touches |
| SessionRuns.AtMostOneOpenSession | backend/internal/adapter/postgres/session_store.go:39-60 | at every point of every run a device has at most one open session, and it is starting, running, waiting or stopping |
| SessionRuns.EndIsWrittenOnce | backend/internal/domain/session.go:56-102 | an end, once written, never changes; the elapsed time is then fixed and not negative |
| SessionRuns.ElapsedFollows | backend/internal/domain/session.go:63-69 | an open session's elapsed time follows the clock, an ended one's stops at its end |
| SessionRuns.EndsExactlyWhen | backend/internal/app/session.go:158-342 | which steps close an open session: a legal terminal status, an exit code not below zero, the sweep; nothing else |
| SessionRuns.SweepUnblocks | backend/internal/app/session.go:327-342 | after a sweep a silent device can start a session again |
| SessionRuns.SweepFailsIff | backend/internal/adapter/postgres/session_store.go:166-180 | the sweep changes nothing if and only if nothing is stale or one stale session started after the database's clock |
| SessionRuns.SweepFailsForAll | backend/internal/adapter/postgres/session_store.go:166-180 | a run in which one device's late session keeps another's from being swept |
| SessionRuns.StopWhileStartingIsLost | backend/internal/app/session.go:195-204 | a run in which a stop that comes while a session starts leaves no trace in its row |
| SessionRuns.EndedRowSaysStarting | backend/internal/domain/session.go:75-92 | a run in which a starting frame follows a stopped one: the row says starting and stays ended |
| SessionRuns.InsertIffNoneOpen | backend/internal/adapter/postgres/session_store.go:39-60 | over every run a start's insert is accepted if and only if the device has no open session |
| StateFile.Store.Load | agent/internal/store/store.go:105-138 | missing and empty files read as no state; a denied read, a missing key and an unreadable content are told apart; memory changes only on success |
| StateFile.ReadsAs | agent/internal/store/store.go:105-138 | each answer of Load and exactly when it is given, down to the key size, the nonce and the parse |
| StateFile.Store.Save | agent/internal/store/store.go:141-147 | memory takes the state even when the write fails; success exactly when every call up to the rename succeeds |
| StateFile.Store.Update | agent/internal/store/store.go:154-163 | the function is applied to memory, under the same rule |
| StateFile.Store.Persist | agent/internal/store/store.go:178-232 | every disk state the write passes through, for every way its calls can fail |
| StateFile.PersistEffect | agent/internal/store/store.go:178-232 | a save that completes leaves one synced file of nonce and ciphertext in place, one that does not leaves the place untouched, and a temporary file stays exactly when it was made, not renamed and not removable |
| StateFile.TempsOnTheWay | agent/internal/store/store.go:200-232 | what the temporary file holds at each point of a save, and that it is synced before the rename |
| StateFile.Store.Reset | agent/internal/store/store.go:236-244 | memory is cleared, the file removed or left |
| StateFile.ResetEffect | agent/internal/store/store.go:236-244 | after a reset that could remove the file a load finds no state; otherwise the disk is as it was |
| StateRuns.EncryptedReadsBack | agent/internal/store/store.go:265-314 | the nonce put in front comes off again: a file written under the key reads back as the state |
| StateRuns.VisitsKeep | agent/internal/store/store.go:178-232 | at every point inside every call the state file is synced and readable |
| StateRuns.CrashNeverCorrupts | agent/internal/store/store.go:105-244 | after any run of calls and crashes, a crash at any point of the next call leaves a file that loads as the state of the last rename it kept, and that no Load takes for corrupt |
| StateRuns.RenameMayBeLost | agent/internal/store/store.go:200-232 | a run in which a save reports success and the directory, never synced, falls back to the file before it |
| StateRuns.SuccessIsTheRename | agent/internal/store/store.go:178-232 | a call that reports success has put its state on disk, one that reports failure has left the file alone |
| StateRuns.CrashIsBeforeOrAfter | agent/internal/store/store.go:172-232 | a crash inside a call finds the file as before it or as after it |
| StateRuns.SavesAreTheSuccesses | agent/internal/store/store.go:140-163 | without crashes the states the file has held are those of the successful calls, in order |
| StateRuns.FailedSaveIsCarried | agent/internal/store/store.go:145-162 | a state whose save failed is carried to disk by the next successful update |
| StateRuns.MemoryIsOnDisk | agent/internal/store/store.go:105-163 | after a load or a successful save memory and file agree |
| Supervisor.Supervisor.constructor | shared/lifecycle/lifecycle.go:93-108 | the grace period is positive: the given one, or fifteen seconds |
| Supervisor.Supervisor.Add | shared/lifecycle/lifecycle.go:110-114 | components keep their registration order |
| Supervisor.Supervisor.Run | shared/lifecycle/lifecycle.go:143-188 | the events of a whole run and the errors returned, for every start failure and every cause |
| Supervisor.Supervisor.Shutdown | shared/lifecycle/lifecycle.go:197-243 | the unwinding of what started, its errors and the time it takes |
| Supervisor.RunDoes | shared/lifecycle/lifecycle.go:143-212 | the events of a run: starts up to the first failure, then the unwinding of those started, last one first |
| Supervisor.RunReports | shared/lifecycle/lifecycle.go:143-242 | the errors of a run: the failed start or the cause first, then exactly one for each Stop that overran, failed or never came, dependents first |
| Supervisor.StoppedOnceInReverse | shared/lifecycle/lifecycle.go:190-212 | every started component is stopped or reported exactly once, none that did not start is, and in reverse order |
| Supervisor.UnwoundAt | shared/lifecycle/lifecycle.go:202-217 | each Stop gets exactly what is left of the grace period; a component is skipped exactly when nothing is left |
| Supervisor.ShutdownNilIff | shared/lifecycle/lifecycle.go:220-242 | no error comes back if and only if every component was stopped without one |
| Supervisor.WithinGraceIff | shared/lifecycle/lifecycle.go:212-217 | shutdown fits in the grace period if and only if every Stop that was made kept to its budget |
| Supervisor.HonouredDeadlinesFit | shared/lifecycle/lifecycle.go:39-41 | components that honour every deadline together stop within the grace period |
| Supervisor.SkippedFromThereOn | shared/lifecycle/lifecycle.go:205-210 | once one component has missed its chance, so have all registered before it |
| Paging.Clamp | backend/internal/adapter/postgres/helpers.go:12-31 | a page size is between 1 and 500; one in that range is kept, a larger one becomes 500, none at all 50 |
| Paging.Store.List | backend/internal/adapter/postgres/session_store.go:104-149 | one row more is read than shown, and decides whether there is a next cursor |
| Paging.PageIff | backend/internal/adapter/postgres/queue_store.go:125-165 | a page holds exactly the matching rows between its cursor and the next, descending, at most the clamped limit, and is full when there is a next |
| Paging.ScanIsTheListing | backend/internal/adapter/postgres/session_store.go:99-149 | on a fixed table the pages concatenate to exactly the matching rows in strictly descending order |
| Paging.ListingIsSorted | backend/internal/adapter/postgres/session_store.go:123 | that order lists every matching row once |
| Paging.ChangingScan | backend/internal/adapter/postgres/session_store.go:99-103 | with any changes between pages an id is returned on at most one page, and on one if and only if it matched when its page was read; what matches throughout is returned exactly once |
| Paging.PagesDescend | backend/internal/adapter/postgres/session_store.go:99-149 | every id of a later page is below every id of an earlier one |
| Paging.ScanEnds | backend/internal/adapter/postgres/session_store.go:143-148 | cursors fall strictly, so a scan ends whatever is inserted meanwhile |
| Limiter.Limiter.Allow | backend/internal/adapter/redis/pubsub.go:183-210 | one unit of the window's counter, refreshed to what the client makes of the window and a second; when Redis cannot answer the request is let through |
| Limiter.BumpedEffect | backend/internal/adapter/redis/pubsub.go:194-204 | a counter expires at its instant, not after it; counting renews its lease and touches no other |
| Limiter.BucketIsUnixSecond | backend/internal/adapter/redis/pubsub.go:189-192 | the window starts at its last multiple and the counter's name is that start in whole seconds since 1970 |
| Limiter.NamesAreExact | backend/internal/adapter/redis/pubsub.go:189-192 | from a second upward two instants share a counter exactly when they share an aligned window |
| Limiter.CountAtLeastOrdinal | backend/internal/adapter/redis/pubsub.go:194-204 | with any expiry that outlasts the window no request is counted below its place in its window |
| Limiter.CountIsPlaceInBucket | backend/internal/adapter/redis/pubsub.go:194-204 | with an expiry that lasts the count answered is the request's place among those of its bucket; windows shorter than a second need the extra second for that, others do not |
| Limiter.SecondOnTopLasts | backend/internal/adapter/redis/pubsub.go:196-198 | the code's own expiry lasts for windows of every length |
| Limiter.WholeSecondsOutlast | backend/internal/adapter/redis/pubsub.go:196-198 | cut to whole seconds it outlasts every window, and lasts if and only if the window is a second or longer |
| Limiter.ShortWindowForgets | backend/internal/adapter/redis/pubsub.go:189-198 | after any given instant, two requests of one bucket, 1.3 seconds apart in windows of 700 ms, of which the second is counted first |
| Limiter.OutlivesItsWindow | backend/internal/adapter/redis/pubsub.go:196-198 | with any expiry that outlasts the window a counter is there until its window ends |
| Limiter.CountIsOrdinal | backend/internal/adapter/redis/pubsub.go:172-210 | from a second upward the count answered is the request's place in its aligned window |
| Limiter.ExactIffWholeSecond | backend/internal/adapter/redis/pubsub.go:183-210 | whatever expiry outlasts the window and however late the history begins, exactly the first `limit` requests of every aligned window are admitted if and only if the window is at least a second |
| Limiter.AtMostTwiceTheLimit | backend/internal/adapter/redis/pubsub.go:174-178 | for windows of every length and any expiry that outlasts them, a half-open stretch that long admits at most twice the limit |
| Limiter.TwiceTheLimitIsReached | backend/internal/adapter/redis/pubsub.go:174-178 | and twice the limit is reached, around the end of every window |

## Left out

- HTTP handlers, OAuth login, JWT signing, the dashboard, notifications, audit, logging and configuration: no state of their own worth a proof.
- Sockets, PostgreSQL, Redis, AES and JSON themselves: parameters, maps and functions that invert.
- Stale read-modify-write between separate backend calls: calls are atomic, except token rotation.
- Exactly-once injection: the agent injects a redelivered frame again, and the model lets it.
- Credential reset in the delivery runs: it clears the queue by design; `StateFile.Store.Reset` has it on its own.
- Idle detection, backoff, the transport's own buffer and its duplicate filter: the link of `Delivery` covers every effect they can have.
- Redis pub/sub between backend instances: `DeliverById` may be called at any time instead.
- RevokeAllForUser: a family-by-family revocation with nothing new to prove.
- Domain rows (`Prompt`, `Session`, `Token`) are values that operations read, change and write back, as the code does with its copies; they are not classes.
- DeliveryRuns.DeliveredIsNotLost: does not bound how often a prompt is injected, because direct injection is not deduplicated.
- Prompts.PromptService.Send: takes the answer of the device lookup as a parameter and leaves session and correlation ids out, because they are only passed through.
- Sessions.SessionService.Complete: leaves the summary message out, because it is a plain insert into another table.
- Sessions.SessionService.ApplyStatus: leaves the current task out, because no other operation reads it.
- Tokens.Refresh: takes the token's hash, because an empty token is refused before anything is looked up.
- Supervision.StdinIsWhatWasWritten: lists prompts as the caller gave them, without the trimming of trailing line breaks and the newline that submits, which no other step reads.
- Adapter.ClaudeAdapter.NotePrompt: keeps the whole prompt as the task, where the code keeps its first line, because it is only displayed.
- Ids.Validate: works on byte-sized characters, as the Go code indexes bytes.
- Limiter.Limiter.Allow: takes Redis's clock to be the caller's, because skew between the two is not part of this model; what the client library makes of a duration is a parameter.
- StateFile.Store.Persist: leaves file permissions out, because nothing depends on them.
- Hub.Hub.Register: leaves the outbound queues out; connections are closed by adding their id to a set.
