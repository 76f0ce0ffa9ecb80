# A verified model of vps-tool

vps-tool is a control plane (Python, `server/`) that sends a fixed catalogue of actions to agents (Go, `agent/`)
over a WebSocket that may drop and come back at any moment. An action may turn the network of its host off and on,
so what matters is that nothing runs twice, that results find their way home, that an interrupted change leaves the
host usable, and that the scheduler starts each occurrence of a task once.

This project models that logic in Dafny and proves such properties for every input, every run and every
interleaving. `dafny verify dfyconfig.toml` checks the whole project.

## How it is laid out

* **Requests** — `Requests` gives every statement on `action_requests` and `action_results` as a function on the two
  tables; `RequestFields` states what each of them does field by field, and `RequestLife` proves what all of them keep;
  `RequestService` and `Gateway` are the objects whose methods update the tables in place, each proved equal to its
  function; `RequestCourse` follows a request from creation to result and proves that repetitions change nothing.
* **The agent** — `Journals` (the bounded request journal, as a specification and as the class that keeps list, index
  and file), `Executors` and `ExecutorProofs` (concurrent calls of `Execute` as threads with a program counter),
  `ExecutorService` (the same call as a method of an object, proved to be what a thread does alone),
  `ExecutorRaces` (which actions can run twice), `AgentSession` (the result queue).
* **The whole** — `Protocol` composes tables, link, agent and journal into one system; a link drops at any point, either
  side restarts at any point, any message may be lost, delayed or repeated, and the other nodes may send anything.
  `ProtocolEvents` states what each event does, `ProtocolProofs` and `ProtocolSuccess` prove its invariants,
  `ProtocolProgress` that they are not kept by doing nothing.
* **The WebSocket** — `Frames` (encoding and parsing of frames), `FrameExamples` (those of RFC 6455), `Messages`
  (reassembly), `WsClient` (the connection object over a byte stream, down to the 64-bit accumulator and short writes of
  the socket).
* **The scheduler** — `Calendar`, `Cron` (fields and search), `CronText` (what the texts of the fields mean, in numbers),
  `Schedules`, `Claims`, `Leases`.
* **Changing the address** — `ChangeIp` (the stages of a run, and what it means to be one), `ChangeIpMachine` (the machine
  itself, against a host that answers anything and takes any time), `ChangeIpLog` (what the log of every run shows),
  `ChangeIpFields` (the same on the fields of calls and replies), `ChangeIpHosts` (three hosts and the runs on them),
  `ChangeIpAction` (what the executor reports).
* **Files** — `Disks` and `Upgrades` (links, renames and rollback of binaries), `Volumes` and `Restores` (xray and x-ui).
* **Nodes** — `Credentials`, `History`.

A class method is proved against a function of the old state; the lemmas are about those functions. Time is an integer,
and faults of the outside world (the disk, the socket, the host, the other side) are arbitrary functions or step
parameters, so that a theorem covers every behaviour of it.

## What the proofs found

* The agent's documentation (`agent/README.md:234-235`) says that a duplicate request id never executes a second time.
  Which actions can, given a journal that has room for
  the record: exactly the read-only ones (`RunsAgainIff`). State-changing actions look the journal up again under
  the mutex and unknown ones are refused, while a read-only one has no second look and may start although its run is on
  record. Over the protocol this never shows, because no command reaches the agent twice (`AtMostOnce`), which also
  makes the reply `request_in_progress` unreachable (`EveryCallIsTheFirst`).
* `_mark_expired` (`server/app/action_service.py:412-423`) has no guard of its own. It is a legal step exactly
  if the row is still queued or the update changes nothing (`MarkExpiredIsSafeIff`); its one caller has just seen the row queued.
* A negative acknowledgement moves `skipped_offline` to `failed` (`SkippedOfflineChangesIff`), and a request in `unknown`
  is not touched by expiry: its node stays busy until that node itself reports (`UnknownStaysActiveUntilItsNodeReports`).
* After the watchdog is armed there are one or two Disarm calls. Two happen exactly if the first failed **and** no
  recovery error was recorded (`SecondDisarmIff`): after a failed recovery the deferred call is the only one, and if it
  fails it is neither repeated nor reported (`WatchdogLeftArmed`). `FailedDisarmMayBeTheOnlyOne` proves it of the
  machine on one host.
* A recovery that saw WARP on returns whatever one more status read says; if that read sees WARP off, the run reports no
  recovery error. This is the only way to end neither on nor with an error (`LeftOffUnreportedIff`), and
  `RecoveryMayEndOff` proves it of the machine on one host.
* A failed `change_ip` falls through to the success branch of the executor (`agent/internal/action/executor.go:221-233`,
  `266-271`): the state it reports is "succeeded" exactly if the parameters decode, whatever the machine's result
  (`ExecuteChangeIp`); `FailureIsReportedAsSuccess` constructs a host on which that happens.
* Restoring an xray archive without `node.env` ignores a failure to remove the present `node.env`
  (`agent/cmd/vps-agent-helper/main.go:619-622`), and a rollback restores no `config.json` if there was none before
  (`641-652`). `RoundTripIff` states exactly when a backup comes back, and `RestoreXray` exactly when a failed restore
  whose rollback works leaves both files as they were. `copyFile` reports a failed `chmod` as a failed copy although the file has been
  replaced (`Volume.Copy`).
* The fallback cron search departs from crontab in IEEE Std 1003.1-2017 in two ways. The standard joins month and day of
  month before it adds the weekday as an alternative, while the code asks for the month in any case; and the standard
  counts weekdays from Sunday, the code from Monday. `RenumberedAgreesIff` and `SameLineAgreesIff` state exactly which
  lines mean the same days in spite of the first, and of both; `StandardDiffersOnALine` is one that does not. Only a
  field that is the single character `*` counts as unrestricted, so `*/2` does not.
* Each occurrence of a task is claimed once whether or not the lease works (`StartsOnce` does not mention it), while
  `server/README.md:115` names the lease as the protection.
* The journal trims by the compact size of its text but refuses to write by the indented size
  (`agent/internal/journal/journal.go:165`, `173-178`), so a record can fail that more trimming would have let
  through (`RecordedIff`).

## Model

| member | source | states |
|---|---|---|
| RequestLife.StepKeepsInv | server/app/action_service.py:77-423 | every table operation, in any order, keeps: one active state-changing request per node, consistent timestamps and attempts per row, one result row per finished request, and every row only moves forward |
| RequestLife.ReachableInv | server/app/action_service.py:77-423 | the table invariant holds after every sequence of create, dispatch, ack, progress, result, expiry, disconnect and reconcile |
| RequestLife.AtMostOneActivePerNode | server/app/action_service.py:107-161 | in every reachable table two active state-changing requests of one node are the same request |
| RequestLife.LifeGoesForward | server/app/action_service.py:201-423 | over any run and any continuation: phases never go back, finished states stay, timestamps once set never change, rows are never lost and results never change |
| RequestLife.SucceededIffSuccessRow | server/app/action_service.py:318-379 | a request is succeeded if and only if a success row exists for it; it has at most one result row; attempts is 0 or 1, and 1 exactly when it has a dispatch time |
| RequestLife.MarkExpiredIsSafeIff | server/app/action_service.py:412-423 | the unguarded expiry keeps the invariant and the row's past exactly when the row is still queued or the update changes nothing |
| RequestLife.SkippedOfflineChangesIff | server/app/action_service.py:271-304 | a skipped_offline row changes under exactly one kind of step, a negative acknowledgement of its own node; it becomes failed with the agent's code, and no result row comes of it |
| RequestLife.UnknownStaysActiveUntilItsNodeReports | server/app/action_service.py:390-410 | no step makes an unknown request inactive except a negative acknowledgement or a result of its own node; expiry does not |
| RequestCourse.RunsItsCourse | server/app/action_service.py:77-388 | from any table the invariant admits, a request that is accepted goes through creation, dispatch, acknowledgement, progress and result to the reported end, with all its times, one attempt and one result row, every other request as it was, and its node free for the next one |
| RequestCourse.FirstResultWins | server/app/action_service.py:318-379 | a repeated result changes nothing, whatever it says |
| RequestCourse.ReconcileSettles | server/app/gateway.py:259-265 | a reconciliation finishes every open request it reports and leaves other nodes alone |
| RequestCourse.ReconcileTwiceIsOnce | server/app/gateway.py:259-265 | reporting the same list again, as the replay after the hello does, changes nothing |
| RequestCourse.PendingIsDrained | server/app/action_service.py:219-229 | with the clock, the registry and the send as each turn meets them, every listed request has been expired, dispatched, lost on the way or left queued as its turn says, is sent at most once, and nothing else changed |
| RequestCourse.RecordedAtMostOnce | server/app/action_service.py:380-388 | a request reaches the address history at most once, whatever happens in between and whoever reports it again |
| RequestService.ExpiryInTwoUpdates | server/app/action_service.py:390-410 | the two UPDATE statements in sequence expire each due row once, queued rows and lost rows each in their own way |
| RequestService.SendCountsOnce | server/app/action_service.py:184-217 | a request that is about to be sent was never sent before and has its one attempt counted |
| RequestService.ActionService.CreateRequest | server/app/action_service.py:77-182 | refuses or inserts exactly as specified, keeps the invariant, and reports which of the outcomes happened |
| RequestService.ActionService.DispatchRequest | server/app/action_service.py:184-217 | a send follows only for a queued, unexpired request of a node that is online, whose attempt count goes from 0 to 1 |
| RequestService.ActionService.DispatchPending | server/app/action_service.py:219-229 | the loop gives every selected request its turn, with clock and registry read anew each time and a send that may raise; it sends in order and each once, and leaves none queued whose node was on line |
| RequestService.ActionService.MarkUnknownRequest | server/app/action_service.py:231-241 | only an in-flight request becomes unknown |
| RequestService.ActionService.MarkNodeUnknown | server/app/action_service.py:243-254 | exactly the in-flight requests of the node become unknown |
| RequestService.ActionService.AcceptRequest | server/app/action_service.py:271-304 | an acknowledgement moves only a request of the sender, forward, with the times kept that were set before |
| RequestService.ActionService.ProgressRequest | server/app/action_service.py:306-316 | progress moves an in-flight request of the sender to running and keeps the first start time |
| RequestService.ActionService.FinishRequest | server/app/action_service.py:318-388 | the first result of the request's own node is stored once, an oversized one as a failure, later ones change nothing; exactly a change_ip result that was stored is handed on to the address history, with verdict, code and message as they came unless it was oversized, and the text as it came |
| RequestService.ActionService.ReconcileResult | server/app/action_service.py:256-269 | a reconciled result has the effect of a result message, no more |
| RequestService.ActionService.ExpireRequests | server/app/action_service.py:390-410 | expires exactly the due queued and in-flight rows |
| RequestFields.MarkedForNode | server/app/action_service.py:243-254 | exactly the dispatched, accepted and running requests of the node become unknown, with the code result_unknown; every other row is as it was |
| RequestFields.MarkedUnknown | server/app/action_service.py:231-241 | the same for one request, with the code that is given |
| RequestFields.DueAreExpired | server/app/action_service.py:390-410 | a due queued request is expired, a due dispatched, accepted or running one timed out, each with its code; every other row is as it was |
| RequestFields.Dispatching | server/app/action_service.py:184-217 | a queued request that is due is expired, one in time whose node is on line is dispatched, any other is left alone |
| RequestFields.Acknowledging | server/app/action_service.py:271-304 | acceptance moves what was dispatched or unknown; rejection fails whatever has not ended, and skipped requests, with the agent's code or agent_rejected |
| RequestFields.Progressing | server/app/action_service.py:306-316 | what was dispatched, accepted or unknown is running, with its first start time |
| RequestFields.Finishing | server/app/action_service.py:318-379 | row and result row say the same: a success without error, a failure with the reported one, more than 65536 characters as result_too_large |
| RequestFields.NotFinishing | server/app/action_service.py:328-345 | a result for an unknown, foreign or ended request changes nothing and hands nothing on |
| RequestFields.HandingOn | server/app/action_service.py:380-388 | exactly a stored address change goes on to the history, with its text as it came |
| RequestFields.Creating | server/app/action_service.py:97-182 | a new row is queued if the node is on line or may be waited for and skipped otherwise; it lives as long as configured, and long-running actions 1800 seconds at least |
| RequestFields.Deciding | server/app/action_service.py:92-133 | which of the outcomes of a creation holds, in terms of the request, the node, the row with its id and the requests that are open on its node |
| RequestFields.NothingToDo | server/app/action_service.py:184-316 | messages and dispatches for ids that are not in the table change nothing |
| RequestFields.OneBusyRequest | server/app/action_service.py:119-133 | in every reachable table a node has at most one of the nine state-changing actions queued, on its way or unknown |
| Gateway.MessageStaysOnItsNode | server/app/gateway.py:267-307 | no message of a node's agent changes a request of another node or records a result for it |
| Gateway.ConnectionManager.Reconcile | server/app/gateway.py:259-265 | every valid value of a hello is reconciled, in order, and every request it names is settled |
| Gateway.ConnectionManager.HandleMessage | server/app/gateway.py:267-307 | each kind of message has its one effect on the tables, renews the connection's time, and hands on the change of address it completes |
| Gateway.ConnectionManager.DispatchRequest | server/app/action_service.py:184-217 | a send follows only to a node that is registered and was heard from within the timeout |
| Gateway.ConnectionManager.Register | server/app/gateway.py:71-80 | the latest connection of a node is the registered one; the one it replaces, and only that, is to be closed |
| Gateway.ConnectionManager.Remove | server/app/gateway.py:82-89 | the end of a connection marks requests unknown only if it was still the registered one, and then exactly those of its node that were on their way |
| Gateway.ConnectionManager.DisconnectNode | server/app/gateway.py:91-99 | removes a registered connection and marks exactly the node's requests that were on their way unknown |
| Journals.TrimKeepsLongestFittingSuffix | agent/internal/journal/journal.go:154-162 | what is left is a suffix that fits both bounds, and every longer suffix does not |
| Journals.TrimDropsFewest | agent/internal/journal/journal.go:154-162 | the entries that are dropped are the fewest whose removal makes the rest fit |
| Journals.RecordedIff | agent/internal/journal/journal.go:108-136 | a complete entry with a new id is recorded if and only if, after dropping the fewest entries that make the compact text fit, the indented text fits too and the write succeeds |
| Journals.RecordedIsSuffixPlusEntry | agent/internal/journal/journal.go:108-136 | after a successful record the list is a suffix of the old one followed by the new entry |
| Journals.RecordKeepsEntriesOk | agent/internal/journal/journal.go:108-136 | ids stay unique, entries complete and the count within its bound |
| Journals.RetainedIdKeepsFirstValue | agent/internal/journal/journal.go:98-136 | over any sequence of records an id that is still retained keeps the value first recorded |
| Journals.ReopenAfterRecord | agent/internal/journal/journal.go:44-96 | Open accepts what a successful record wrote and gives back the same entries |
| Journals.OutcomeOnFields | agent/internal/journal/journal.go:108-124 | an entry is incomplete exactly if one of its five texts is empty, and otherwise a conflict or a repetition exactly if an entry with its id has another or the same action |
| Journals.IndexIsUnique | agent/internal/journal/journal.go:223-228 | a list has exactly one index that agrees with it |
| Journals.Journal.Open | agent/internal/journal/journal.go:44-96 | opens exactly the acceptable files, with their entries and an index that agrees |
| Journals.Journal.Lookup | agent/internal/journal/journal.go:98-106 | finds an entry if and only if the list holds the id, and then that entry |
| Journals.Journal.Record | agent/internal/journal/journal.go:108-136 | has the specified outcome; a failed record leaves entries and index as they were |
| Journals.Journal.TrimLocked | agent/internal/journal/journal.go:154-162 | the loop leaves the longest fitting suffix |
| Journals.Journal.RebuildIndex | agent/internal/journal/journal.go:223-228 | the rebuilt index agrees with the list in both directions |
| ExecutorProofs.OneStateChangeAtATime | agent/internal/action/executor.go:135-156 | in every interleaving of any number of calls two running state-changing actions are the same thread |
| ExecutorProofs.NoRequestRunsTwiceAtOnce | agent/internal/action/executor.go:127-172 | no request id is running in two threads |
| ExecutorProofs.RecordedRunIsNotRepeated | agent/internal/action/executor.go:135-156 | a state-changing action does not start while the journal retains what an earlier run of its id recorded |
| ExecutorProofs.PersistedOnFields | agent/internal/action/executor.go:146-156 | the result of a call stands if it is recorded or its request and action are on record already, and becomes journal_failed otherwise |
| ExecutorProofs.NothingLeaks | agent/internal/action/executor.go:127-172 | when all calls have returned no claim is left and the mutex is free |
| ExecutorRaces.RunsAgainIff | agent/internal/action/executor.go:94-156 | for every action: some run starts it again while the journal retains the record of its first run, if and only if it is a read-only action of the catalogue |
| ExecutorRaces.ReadOnlyMayRunTwice | agent/internal/action/executor.go:94-156 | the run in which that happens, for every read-only action |
| ExecutorService.AloneIsTenSteps | agent/internal/action/executor.go:94-156 | a thread that runs alone returns, within ten steps, the result, journal and claims that the method Execute computes |
| ExecutorService.AloneOnFields | agent/internal/action/executor.go:94-156 | a call answers with the entry on record, request_conflict, the refusal, request_in_progress or the outcome of the action, in this order, and records the outcome field by field |
| ExecutorService.Executor.Claim | agent/internal/action/executor.go:158-166 | claims an id if and only if it was free |
| ExecutorService.Executor.Release | agent/internal/action/executor.go:168-172 | gives back exactly this id |
| ExecutorService.Executor.Execute | agent/internal/action/executor.go:94-156 | one call end to end: result, whether the action ran, the journal, and claims as before |
| ProtocolProofs.AtMostOnce | agent/cmd/vps-agent/main.go:259-282 | in every run of server, link and agent a command is written at most once, handed to Execute at most once, and its action starts at most once |
| ProtocolProofs.ResultsAreReturned | server/app/action_service.py:318-379 | every result row of the node is what the one call of Execute returned, or its size refusal, whichever way it travelled, and is within what the control plane accepts |
| ProtocolProofs.RowOnFields | agent/cmd/vps-agent/main.go:413-436 | a result row of the node succeeded exactly if its call returned "succeeded", has the code and the message returned, and holds the payload: an object as it is, nothing as {}, any other value under "value"; what exceeds 64 KiB is stored as result_too_large |
| ProtocolEvents.Dispatching | server/app/action_service.py:184-217 | a queued request of the node that is in time goes out over the registered connection, once |
| ProtocolEvents.Writing | server/app/action_service.py:203-217 | a command reaches its connection only while that is up; a send that raises makes the request unknown whether it got through or not |
| ProtocolEvents.Unregistering | server/app/gateway.py:82-89 | the end of the connection makes exactly the requests of the node that were on their way unknown |
| ProtocolEvents.Delivering | server/app/gateway.py:267-307 | an acceptable message that was sent has the effect of its kind on the table, as a message of its own node, and nothing else |
| ProtocolEvents.LimitsOnNumbers | agent/internal/wsclient/client.go:234-239 | no hello of more than 200 entries or 262144 bytes, no result message of more, and no code or text beyond the limits of the payloads gets through |
| ProtocolEvents.DroppingALink | agent/cmd/vps-agent/main.go:176-206 | with a connection go the frames on it and nothing else |
| ProtocolEvents.RestartingTheServer | server/app/gateway.py:53-58 | a restarted control plane has lost its registry and what it was about to write, and keeps its tables |
| ProtocolEvents.RestartingTheAgent | agent/internal/journal/journal.go:44-96 | a restarted agent has lost calls, claims and queue, and keeps its journal if the file is not lost |
| ProtocolEvents.Validating | agent/cmd/vps-agent/main.go:259-263 | a command that is refused is answered negatively and not handed to Execute |
| ProtocolEvents.Acknowledging | agent/cmd/vps-agent/main.go:264-275 | a command is handed to Execute exactly if its acknowledgement was written without an error |
| ProtocolEvents.Collecting | agent/cmd/vps-agent/main.go:306-313 | a returned result enters the queue if it holds fewer than 128 |
| ProtocolEvents.SendingAResult | agent/cmd/vps-agent/main.go:293-323 | the first result of the queue arrives or is lost, and goes back to the end exactly if its send raised |
| ProtocolProofs.EveryCallIsTheFirst | agent/internal/action/executor.go:94-134 | no call of Execute finds its id in the journal or claimed, so request_in_progress is never returned |
| ProtocolProofs.ReachableInv | agent/cmd/vps-agent/main.go:131-174 | the invariant of the composed system holds in every reachable state |
| ProtocolSuccess.SucceededMeansRunOnce | server/app/action_service.py:318-379 | a request shown as succeeded was started on its agent, and exactly once |
| ProtocolProgress.WaitingRequestCanFinish | server/app/action_service.py:184-217 | from every reachable state a queued request of an idle node that can connect (its hello reports at most 200 entries in at most 256 KiB) has a continuation that ends with it finished as its call decided, provided the result fits into a message of 256 KiB and its code and message are within what the control plane accepts |
| AgentSession.ResultsAreConserved | agent/cmd/vps-agent/main.go:293-323 | what a session sent and what still waits are together exactly what was waiting |
| AgentSession.SendIsProtocolStep | agent/cmd/vps-agent/main.go:293-304 | one turn of the result loop is the corresponding event of the protocol |
| AgentSession.Session.QueueResult | agent/cmd/vps-agent/main.go:306-313 | the result is queued at once if there is room; if not, it follows the first one the connection takes out in time, and is dropped if none is |
| AgentSession.Session.RequeueResult | agent/cmd/vps-agent/main.go:315-323 | the result goes to the end of the queue if there is room |
| AgentSession.Session.ResultLoop | agent/cmd/vps-agent/main.go:293-304 | sends a stretch from the front of the queue and puts the one that failed back at its end |
| AgentSession.Session.ReportJournal | agent/cmd/vps-agent/main.go:405-421 | one report per journal entry, in order; its success, code, message and text are those of the entry, with the text as an object in any case |
| Frames.ParseOfEncode | agent/internal/wsclient/client.go:253-345 | parsing an encoded frame gives the frame back and leaves the rest of the stream untouched, for every legal opcode, mask and length within the limit |
| Frames.EncodeOfParse | agent/internal/wsclient/client.go:253-302 | bytes that parse are the encoding of what they parse to if and only if the length takes its shortest form |
| Frames.EightBytes | agent/internal/wsclient/client.go:273-285 | the test of the high bit accepts exactly the lengths that fit a signed 64-bit number |
| Frames.NumberOfBigEndian | agent/internal/wsclient/client.go:316-327 | a number is read back from its big-endian bytes |
| FrameExamples.SingleFrame | agent/internal/wsclient/client.go:304-345 | the first two examples of section 5.7 of RFC 6455, byte by byte: a text in one frame, without and with a mask |
| FrameExamples.TwoFragments | agent/internal/wsclient/client.go:304-345 | the example of a fragmented text in that section |
| FrameExamples.PingAndPong | agent/internal/wsclient/client.go:304-345 | the example of a ping and its pong in that section, and an empty close frame |
| FrameExamples.TurnByOpcode | agent/internal/wsclient/client.go:180-232 | what each opcode of section 5.2 of RFC 6455 makes the reader do: give up with its error, answer, go on, collect or finish |
| FrameExamples.LongFrames | agent/internal/wsclient/client.go:316-327 | the examples of 256 bytes and of 64 KiB in one frame in that section |
| Messages.EverySplitIsRead | agent/internal/wsclient/client.go:180-232 | every split of a text into fragments, with pings and pongs in between, reads as the text, with the pings in order and the rest of the stream untouched |
| Messages.IllOrderedIsRefused | agent/internal/wsclient/client.go:180-232 | the first data frame out of order ends the read with the error for its kind |
| Messages.OverLimitIsRefused | agent/internal/wsclient/client.go:351-357 | the first fragment that exceeds the limit ends the read |
| Messages.MessageMeansSplit | agent/internal/wsclient/client.go:180-232 | whatever is read as a message was sent as such a split, within the limit |
| Messages.WrittenMessageIsRead | agent/internal/wsclient/client.go:234-239 | what WriteMessage puts on a stream reads back as the same text |
| WsClient.StartIsShiftedOut | agent/internal/wsclient/client.go:273-285 | eight shifts push the start value 127 out of the 64-bit accumulator |
| WsClient.Connection.Accumulate | agent/internal/wsclient/client.go:273-285 | the accumulator ends as the number in the eight bytes |
| WsClient.Connection.ReadFrame | agent/internal/wsclient/client.go:253-302 | reads what the parser says and consumes exactly that |
| WsClient.Connection.WriteFrame | agent/internal/wsclient/client.go:304-345 | a success has put exactly the encoded frame on the wire, a failure a beginning of it, and a healthy socket makes it succeed |
| WsClient.Connection.WriteAll | agent/internal/wsclient/client.go:359-370 | despite short writes what is on the wire is a prefix of the data, all of it on success |
| WsClient.Connection.ReadMessage | agent/internal/wsclient/client.go:180-232 | the loop returns what the specification reads from the stream, with one pong per ping, in order, on the wire |
| WsClient.Connection.WriteMessage | agent/internal/wsclient/client.go:234-239 | refuses an oversized text without writing, and otherwise writes one frame |
| Calendar.TickIsNextMinute | server/app/scheduler.py:72-86 | adding a minute, with all carries, is the next minute on the line of minutes |
| Calendar.MinutesDetermine | server/app/scheduler.py:72-86 | two valid dates at the same minute are the same date |
| Calendar.KnownDays | server/app/scheduler.py:72-86 | three days of 1970 and 2000 by number and weekday |
| Cron.CronField | server/app/scheduler.py:30-59 | a field is refused exactly if one of its parts is bad, and otherwise allows exactly what some part admits; what the parts mean is stated by CronText |
| Cron.FieldThatParsesIsOk | server/app/scheduler.py:30-59 | a field that is accepted is not empty, stays in its bounds, and is full if it is a star |
| Cron.RenumberedAgreesIff | server/app/scheduler.py:73-84 | with weekdays renumbered, the code's days are those of the INPUT FILES section of crontab in IEEE Std 1003.1-2017 on every date exactly if month or weekday is a star, or all months are listed and so are all weekdays or the day is restricted |
| Cron.SameLineAgreesIff | server/app/scheduler.py:73-84 | the line as it stands, weekdays counted from Sunday by the standard and from Monday by the code, means the same days exactly if the weekday is a star, or all months are listed and so are all weekdays or, with the day restricted, all days |
| Cron.StandardDiffersOnALine | server/app/scheduler.py:73-84 | midnight on 15 January and weekday 0: dates that the standard names and the code does not, and one the other way round |
| Cron.SearchFrom | server/app/scheduler.py:72-86 | the loop finds the first match of its window, or there is none in it |
| Cron.FallbackCronNext | server/app/scheduler.py:62-86 | bad fields are reported exactly when a field does not parse; otherwise the first match of the window or its absence |
| CronText.StarMeans | server/app/scheduler.py:45-46 | "*" is read and allows every value of the field |
| CronText.EveryMeans | server/app/scheduler.py:37-58 | "*/n" is read exactly if n is positive, and allows every n-th value from the least one on |
| CronText.NumberMeans | server/app/scheduler.py:52-58 | "a" is read exactly if a is in bounds, and allows a alone |
| CronText.SpanMeans | server/app/scheduler.py:47-58 | "a-b" is read exactly if a and b are in bounds and in order, and allows what lies between |
| CronText.SteppedSpanMeans | server/app/scheduler.py:37-58 | "a-b/n" is read exactly if n is positive too, and allows every n-th value from a up to b |
| CronText.SteppedNumberMeans | server/app/scheduler.py:37-58 | "a/n" allows a alone, whatever the step |
| CronText.ListMeans | server/app/scheduler.py:33-58 | a list is read exactly if its first part and the rest are, and allows what either allows |
| CronText.EmptyTexts | server/app/scheduler.py:34-39 | an empty part is refused, an empty step counts as one |
| CronText.SignedSteps | server/app/scheduler.py:38-44 | a step may carry a sign but has to be positive |
| CronText.LineMeans | server/app/scheduler.py:62-84 | a line "a-b/n ..." of five fields is refused exactly if a number is out of its bounds, and allows a minute exactly if minute, hour, month and one of the two days are on their steps |
| CronText.NextOfLine | server/app/scheduler.py:62-86 | for every such line and reference, what is found is the first minute after the reference that the numbers of the line allow |
| CronText.NextEvery | server/app/scheduler.py:62-86 | "*/n * * * *" is refused for n = 0, and otherwise finds the first minute after the reference that is a multiple of n |
| Cron.FoundIsEarliest | server/app/scheduler.py:62-86 | no matching minute after the reference is earlier than the one found |
| Cron.FailsIffWindowIsEmpty | server/app/scheduler.py:62-86 | the search fails exactly when no date within 732 days matches |
| Cron.NeverFailsIff | server/app/scheduler.py:62-86 | the search succeeds from every reference exactly when the fields admit a day that exists in every year |
| Schedules.EightDaysSuffice | server/app/scheduler.py:150-164 | eight days always hold a day that is allowed and late enough |
| Schedules.NextClockRun | server/app/scheduler.py:143-164 | the scan always returns, and returns the first occurrence after the reference |
| Schedules.CronFoundIsNext | server/app/scheduler.py:134-141 | a minute found by the cron search is the first occurrence of the line after the reference, seconds included |
| Schedules.NextRun | server/app/scheduler.py:129-164 | the result is strictly later than the reference and no occurrence lies between; a daily or weekly schedule always has one, and a cron line has none exactly if it is unreadable or has no occurrence in the window after now or after the reference |
| Schedules.DailyOnNumbers | server/app/scheduler.py:143-164 | the next daily run is at the given hour and minute of a day, after the reference and by at most a day |
| Schedules.WeeklyOnNumbers | server/app/scheduler.py:143-164 | the next weekly run is at the given hour and minute of the given weekday, Monday being the first, after the reference and by at most a week |
| Schedules.CronOnCalendar | server/app/scheduler.py:134-141 | the next cron run is the first whole minute after the reference that the fields allow |
| Claims.StartsOnce | server/app/scheduler.py:334-365 | with any number of schedulers holding rows of any age, and any edits, no task is started twice for the same time |
| Claims.ClaimsAreGapFree | server/app/scheduler.py:334-365 | until it is edited, a task is claimed exactly at the times its schedule names from its first run up to its next run, in rising order |
| Claims.ClaimStaysOnSchedule | server/app/scheduler.py:346-363 | a claim, stale or not, leaves the runs of the task a gap-free initial stretch of its schedule |
| Claims.CurrentRowIsClaimed | server/app/scheduler.py:346-363 | a row that is still current is always claimed: its run is new and the task moves to a later time |
| Claims.StepKeepsInv | server/app/scheduler.py:266-365 | every step keeps runs unique and each claimed run with one scheduler until it is started |
| Claims.TaskStore.ClaimDue | server/app/scheduler.py:340-363 | computes the next occurrence from the row that was read and claims if and only if the row has not moved and no run exists |
| Claims.MovedRowIsNotClaimed | server/app/scheduler.py:346-363 | a row that was disabled, deleted or moved on since it was read is left alone |
| Claims.EditingNextRun | server/app/scheduler.py:266-304 | switching a task on or changing its schedule while it is on sets a new next run, switching it off removes it, anything else keeps it |
| Claims.DeletingDisables | server/app/scheduler.py:315-332 | deleting a task disables it and keeps its runs and every other task |
| Claims.FetchedAreDue | server/app/scheduler.py:334-339 | only enabled, undeleted tasks that are due by the reader's clock are read |
| Leases.OneHolder | server/app/scheduler.py:427-449 | at any moment at most one owner's latest acquisition has not run out, and the row names it, however old the clock readings of the acquisitions were |
| Leases.GrantKeepsOthersOut | server/app/scheduler.py:427-449 | after a grant the owner holds the lease, and every attempt of any other owner with a reading of any age changes nothing, at every moment earlier than ten seconds or than three intervals after its reading, and not later |
| Leases.GrantEnds | server/app/scheduler.py:427-449 | if nobody came before, another owner is granted the lease exactly with a reading from both ten seconds and three intervals after on |
| Leases.RefusedIffHeldByAnother | server/app/scheduler.py:427-449 | with a fresh reading an acquisition is refused exactly while another owner's latest one has not run out |
| Leases.OldReadingRefusesMore | server/app/scheduler.py:427-449 | with an older reading it is refused at least then, and exactly if the other owner in the row outlasts the reading |
| Leases.LeaseTable.Acquire | server/app/scheduler.py:427-449 | grants exactly if the row is absent, its own, or over by its reading; the row then runs until ten seconds or three intervals after the reading, whichever is later, and nobody else holds the lease; a refusal changes nothing |
| ChangeIp.FaithfulAt | agent/internal/warpchange/state.go:19-29 | every entry of a machine's log carries the host's answer to that call, and starts where the one before ended, apart from a wait of at most one poll interval after a status read |
| ChangeIpLog.OffOnlyAfterArming | agent/internal/warpchange/state.go:94-141 | on the log of every run, every WarpOff comes after a status on or degraded, a known old address and a successful Arm with this run's deadline and limit |
| ChangeIpLog.OnOnlyAfterSeenOff | agent/internal/warpchange/state.go:138-149 | on the log of every run, WarpOn comes right after a read that saw WARP off, with only reads since a WarpOff that succeeded; or it is the recovery's, right after a read that did not see WARP on, and nothing moves WARP after it |
| ChangeIpLog.CallsAreBounded | agent/internal/warpchange/state.go:131-204 | on the log of every run, WarpOff calls are at most the attempts, attempts at most one more and within the limit, WarpOn calls at most one more than WarpOff calls, and none of them happens unless the watchdog was armed |
| ChangeIpLog.SuccessMeans | agent/internal/warpchange/state.go:154-182 | a run succeeds if and only if its log ends with a read of a new address, a read that saw WARP on and a Disarm that succeeded; the result names that address, and Disarm was called once |
| ChangeIpFields.SuccessOnFields | agent/internal/warpchange/state.go:154-225 | the same on the fields of the replies: a read found the version 6 address if there is one and the version 4 address otherwise, and success means that such a read found another one than the second call did |
| ChangeIpFields.UnchangedOnFields | agent/internal/warpchange/state.go:138-169 | a run that armed the watchdog ends with ip_unchanged exactly if the last attempt it was to make found the old address |
| ChangeIpFields.AddressesAreRead | agent/internal/warpchange/state.go:100-158 | the old address is what the second call found, the new one what the last later read found that found any |
| ChangeIpFields.ArmedOnFields | agent/internal/warpchange/state.go:93-121 | the watchdog is armed exactly after a status on or degraded, an address, and an Arm that succeeded |
| ChangeIpFields.RefusalOnFields | agent/internal/warpchange/state.go:93-121 | a run that did not arm it has the code of the error of its last call, or invalid_state, old_ip_unavailable or precheck_failed by the number of calls |
| ChangeIpFields.IdleOnNumbers | agent/internal/warpchange/state.go:74-92 | a run makes no call exactly if a dependency is missing, the attempts are not one to three, or the timeout is not 30 to 180 seconds, zero standing for the most |
| ChangeIpFields.StepTimeouts | agent/internal/warpchange/state.go:199-275 | WarpOff and WarpOn have the step timeout, or what is left of the run if that is less; in a recovery WarpOn has what is left of its own step timeout |
| ChangeIpLog.SecondDisarmIff | agent/internal/warpchange/state.go:122-204 | on the log of every run that armed the watchdog, the Disarm calls are its end, one or two of them, and two exactly if the first failed and no recovery error was recorded |
| ChangeIpLog.WatchdogLeftArmed | agent/internal/warpchange/state.go:122-204 | the watchdog is left armed exactly if the last call failed, and the result says nothing of it exactly if the recovery had failed too |
| ChangeIpHosts.FailedDisarmMayBeTheOnlyOne | agent/internal/warpchange/state.go:122-204 | a host on which the machine's run ends with one failed Disarm, neither repeated nor reported |
| ChangeIpLog.LeftOffUnreportedIff | agent/internal/warpchange/state.go:188-195 | a run that armed the watchdog ends neither on nor with a recovery error exactly if the last two calls before the disarms are reads of which the first saw WARP on and the second, though it succeeded, did not |
| ChangeIpHosts.RecoveryMayEndOff | agent/internal/warpchange/state.go:253-274 | a host on which the machine's run ends with WARP seen off, no recovery error and the watchdog disarmed |
| ChangeIpHosts.VersionSixDecides | agent/internal/warpchange/state.go:212-225 | a host with two addresses of which only the version 6 one changes: the machine's run on it succeeds and names it |
| ChangeIpLog.EndsOnOrReports | agent/internal/warpchange/state.go:184-204 | if WARP, once seen on, stays on until WarpOff, every run that armed the watchdog ends on or with a recovery error |
| ChangeIpMachine.Machine.Run | agent/internal/warpchange/state.go:74-204 | for every host and every timing: what was added to the log is the run, the log is what the host answered, the run is refused exactly at the first call of the setup that did not go well and otherwise goes on until success, limit or end of time; if operations honour their contexts, all but background disarms is over by the deadline plus two step timeouts |
| ChangeIpMachine.Machine.WaitFor | agent/internal/warpchange/state.go:231-251 | looks at once unless the time is up, then every poll interval; succeeds exactly if its last read saw the wanted state, gives up only when the time is up, and always ends |
| ChangeIpMachine.Machine.Try | agent/internal/warpchange/state.go:138-169 | one attempt in its stages, each entered exactly if the one before went well; a wait in vain has used up the time |
| ChangeIpMachine.Machine.Retry | agent/internal/warpchange/state.go:130-182 | attempts follow each other until one succeeds, the limit is reached, or the time is up when the next is due; the code is that of the last failed stage |
| ChangeIpMachine.Machine.RecoverOn | agent/internal/warpchange/state.go:253-274 | recovery under its own deadline, waiting until that deadline if in vain, over in two step timeouts if operations honour their contexts |
| ChangeIpMachine.Machine.Sleep | agent/internal/warpchange/state.go:286-298 | a wait lasts the poll interval and succeeds exactly if the context is not done before, either way at the same instant, and otherwise lasts until the context is done |
| ChangeIpMachine.Machine.Intervals | agent/internal/warpchange/state.go:300-312 | one second between reads and twenty for a step unless positive values were set |
| ChangeIpAction.ExecuteChangeIp | agent/internal/action/executor.go:206-271 | the state reported is succeeded exactly if the parameters decode, also when the machine failed; the calls and the payload are those of one run of the machine |
| ChangeIpAction.FailureIsReportedAsSuccess | agent/internal/action/executor.go:206-271 | a host on which the change and its recovery fail and the action is reported as succeeded |
| ChangeIpAction.DecodedIsInRange | agent/internal/protocol/protocol.go:179-191 | parameters that decode are in the machine's range |
| ChangeIpAction.ParametersOnNumbers | agent/internal/protocol/protocol.go:179-191 | parameters decode exactly with one to three attempts and 30 to 180 seconds where they are given, and ask the machine for that |
| Disks.RenamedOnFields | agent/cmd/vps-agent-helper/upgrade.go:347-368 | a rename between two links of one file leaves both, any other replaces the new name and removes the old |
| Upgrades.RollBackOne | agent/cmd/vps-agent-helper/upgrade.go:359-368 | one rename of the rollback restores its target and disturbs no other, activated or not |
| Upgrades.RolledBackIsOld | agent/cmd/vps-agent-helper/upgrade.go:359-368 | after the rollback every target is old except those whose own stat or rename failed |
| Upgrades.Activate | agent/cmd/vps-agent-helper/upgrade.go:347-355 | one activation makes its target new and keeps every backup and every other target |
| Upgrades.AllActiveIsNew | agent/cmd/vps-agent-helper/upgrade.go:335-357 | a commit that went through leaves every target new and every backup with the old binary |
| Upgrades.Upgrader.Preserve | agent/cmd/vps-agent-helper/upgrade.go:336-346 | backups are made without touching a target, whatever fails |
| Upgrades.Upgrader.RollBack | agent/cmd/vps-agent-helper/upgrade.go:359-368 | every target is old again except those whose own operations failed, and it is old or new at every moment |
| Upgrades.Upgrader.Commit | agent/cmd/vps-agent-helper/upgrade.go:335-357 | all targets new on success; on failure all old if no operation of the rollback failed; at every moment each target is exactly its old or its new file |
| Upgrades.Upgrader.Install | agent/cmd/vps-agent-helper/upgrade.go:103-121 | a failed restart scheduling also ends with every target old; the whole succeeds unless that or a disk operation fails; cleanup touches no target; without a changed binary nothing is touched |
| Volumes.Volume.Copy | agent/cmd/vps-agent-helper/main.go:774-803 | the destination is replaced as a whole by the fifth of six operations or not at all; the copy succeeds exactly if the sixth does too |
| Restores.PackedHolds | agent/cmd/vps-agent-helper/main.go:470-520 | an archive of both files holds both, and is acceptable exactly if neither exceeds 1 MiB |
| Restores.RoundTripIff | agent/cmd/vps-agent-helper/main.go:549-639 | backup and successful restore give both files back, absence of node.env included, exactly unless the ignored removal failed |
| Restores.BackUpAndRestore | agent/cmd/vps-agent-helper/main.go:470-639 | a backup restored on the same or another host gives config.json back, and node.env, its absence included, exactly unless the ignored removal of a present one failed; without a failing disk operation it succeeds exactly if there is a configuration, neither file exceeds 1 MiB, and xray accepts and restarts |
| Restores.Helper.BackupXray | agent/cmd/vps-agent-helper/main.go:470-520 | the archive holds the present files; node.env is missing from it exactly if it is absent or the look for it failed |
| Restores.Helper.Extract | agent/cmd/vps-agent-helper/main.go:654-709 | accepts exactly sound archives when the disk does not fail, and stages the last entry of each name |
| Restores.Helper.RollBackXray | agent/cmd/vps-agent-helper/main.go:641-652 | puts back what was set aside and removes a node.env that was not there before |
| Restores.Helper.RestoreXray | agent/cmd/vps-agent-helper/main.go:549-639 | success means the archive's files; a failure before the replacements changes neither file; after them, if the looks at the present files and the rollback worked, node.env is as before, and config.json exactly if there was one, or it was not replaced and nothing lay where it would be set aside; without a failing disk operation the outcome is that of the restart |
| Restores.Helper.RestoreDatabase | agent/cmd/vps-agent-helper/main.go:743-772 | all or nothing: the replacement on success, the old database on failure unless putting it back failed |
| History.TopOfTop | server/app/nodes.py:560-571 | trimming before an insertion makes no difference after it |
| History.TopSize | server/app/nodes.py:560-571 | the first hundred are a hundred rows, or all |
| History.TableIsTopOfAll | server/app/nodes.py:526-571 | after any records a node's table is the first hundred, by time and id, of all rows ever put in |
| History.LatestOfAll | server/app/nodes.py:560-571 | of every node the table keeps the latest hundred rows, by time and then id, or all if there are no more |
| History.NothingIsIgnored | server/app/nodes.py:526-543 | if every request is recorded once, those are all rows that were offered |
| History.HistoryAgreesWithResult | server/app/nodes.py:526-543 | the row that a finished change_ip puts into the history has the verdict, code and message of the result row stored for the same report |
| History.HistoryTable.RecordIpChange | server/app/nodes.py:526-571 | keeps that every node's rows are the latest hundred of all ever put in for it, puts in the change field by field, ignores it exactly if its request is in the table, and touches no other node |
| Credentials.StepImplements | server/app/nodes.py:108-449 | every operation on the growing tables does what its counterpart does to a register of one open token and one credential per node |
| Credentials.TablesImplementRegister | server/app/nodes.py:108-449 | after every sequence of operations the tables hold exactly the open tokens, active credentials and live nodes of the register |
| Credentials.AtMostOneOpen | server/app/nodes.py:269-365 | a node never has two open tokens nor two active credentials |
| Credentials.AuthenticatesIffCurrent | server/app/nodes.py:367-376 | a credential authenticates if and only if it is the register's and the node is not deleted |
| Credentials.ActiveIsLatest | server/app/nodes.py:331-346 | an active credential is the last one issued to its node |
| Credentials.ConsumedAtMostOnce | server/app/nodes.py:308-365 | a token that was consumed, or superseded by another, is never accepted again |
| Credentials.NodeStore.CreateNode | server/app/nodes.py:108-172 | keeps that the tables implement the register, which gains a live node with this one open token and no credential |
| Credentials.NodeStore.CreateEnrollmentToken | server/app/nodes.py:269-306 | keeps the register; for a live node no other token is accepted from then on |
| Credentials.NodeStore.ConsumeEnrollmentToken | server/app/nodes.py:308-365 | accepts exactly an open, unexpired token of a live node and keeps the register; then the new credential alone authenticates and the token is not accepted again |
| Credentials.NodeStore.AuthenticateCredential | server/app/nodes.py:367-376 | accepts exactly the credential of the register for a live node |
| Credentials.NodeStore.RotateCredential | server/app/nodes.py:378-416 | keeps the register; for a live node the new credential alone authenticates |
| Credentials.NodeStore.RevokeCredentials | server/app/nodes.py:418-449 | keeps the register; afterwards no credential of the node authenticates |
| Credentials.NodeStore.SoftDelete | server/app/nodes.py:229-267 | keeps the register; afterwards no credential of the node authenticates and none of its tokens is accepted |

## Left out

- The web console, HTTP routes, audit logs, installers, TLS and the opening handshake: plumbing around the logic modelled here.
- `server/app/database.py`, `server/app/utils.py` and `agent/internal/agent/agent.go`: parallel older versions that the entry points do not use.
- SQLite, JSON, tar and gzip: tables are maps and sequences, archives are lists of entries, and the text of a journal is known by its two sizes. Hashes are taken to be injective and random ids and secrets to be new.
- Timestamps as text: instants are integers. Their text drops a zero fraction, so the order of texts can differ from the order of times within one second.
- IANA time zones, daylight saving and the croniter library: schedules are on the wall clock of a fixed offset, and cron is the fallback search.
- The years after 9999, where Python's dates end and the fallback search raises an overflow error.
- The texts of daily and weekly schedules, and digits outside ASCII in cron fields: a schedule enters as its checked numbers.
- The selection of the queued rows of a node (oldest first, at most 100) in `dispatch_pending`: the method takes the list.
- The order and the limit of 50 of the due rows a scheduler reads: a scheduler may read any selection of due rows.
- Liveness: that an unknown request is ever resolved, and that a connection whose hello has more than 200 journal entries or 256 KiB ever succeeds, or a result above the limits of message and payload ever arrives; the sizes of messages are arbitrary functions of their content.
- Progress messages of the modelled agent: it sends none, while the control plane handles those of any node.
- The forced reconnect after route-changing actions, which is a link that drops.
- Instants between operations of the address machine: only calls and waits take time, and a wait ends at the exact instant.
- The messages and the duration in the result of an address change, and the texts of errors; codes are kept.
- Permissions, owners and directories of files, except that the operations on them may fail. The present files are regular.
- Partial failure of a recursive removal of the staging directory: it removes the staged files or fails.
- The crash of the helper in the middle of a restore: for restores only the states at the end are stated, while for upgrades every state in between is.
- Release versions, downloads and checksums: they decide whether an upgrade starts, not what it leaves.
- The node columns that record an address change writes beside the history, and the tasks that deleting a node disables.
- The installation of an index or table from an older schema version.
- AgentSession.Session.QueueResult: of the ten seconds it waits only the outcome is kept, because there is no clock in the session; module Protocol covers the interleaving.
- RequestService.ActionService.DispatchPending: no other coroutine runs between its turns, because the service is one object here; module Protocol has each turn as a step of its own.
- ExecutorService.Executor.Execute: one call without interruption; the interleavings are in Executors and ExecutorProofs.
- Claims.TaskStore.ClaimDue: one row of the due list; the loop over rows, with other schedulers in between, is the step system of Claims.
