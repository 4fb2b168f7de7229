# Mailpeek, modelled and proved in Dafny

Mailpeek catches mail: an SMTP session receives a message, the MIME parser takes it apart, a bounded
store keeps the newest messages (optionally mirrored to files), a broker tells listeners, a blocking
"wait" request and a paged web list read the store. This project models those parts and proves that
they do what they promise, alone and together: over every run, every interleaving, every crash point
and every input.

`dafny verify dfyconfig.toml` checks everything.

| file | part |
|---|---|
| `Retention.dfy`, `StoreSpec.dfy`, `Store.dfy` | the bounded store: a plain sequence of entries, and the object with its map, order list and counters that refines it |
| `Paging.dfy` | cursors, and page walks over a store that changes |
| `Disk.dfy`, `Recovery.dfy`, `CrashRuns.dfy`, `Lives.dfy` | the data directory as single file steps, reloading it, crashes inside one operation, inside whole runs of the store object, and over any number of starts and crashes |
| `Events.dfy`, `Wait.dfy`, `WaitLoop.dfy`, `Broker.dfy` | the wait request against concurrent saves and publishes, its wake-up on the real objects, and the broker |
| `Bytes.dfy`, `DataReader.dfy`, `Session.dfy`, `Outcomes.dfy`, `Connection.dfy`, `Wire.dfy`, `Shutdown.dfy` | the SMTP DATA phase, the command session as a history, what each command does to a history, the session object on its stream of bytes, what clients may type, the shutdown handshake |
| `Failures.dfy` | simulated failures with budgets |
| `MimeWalk.dfy` | the walk over the MIME tree with its limits |
| `UiCache.dfy`, `Highlight.dfy`, `Kinds.dfy` | the web page's list cache, its source view, and what the colours of that view mean |
| `Mail.dfy`, `Filters.dfy` (`Filters`, `Diagnose`), `Sizes.dfy`, `Text.dfy`, `Seqs.dfy` | the message, the server's filter and the client's explanation of a mismatch, sizes as text, strings and sequences |

How the parts are modelled:

- Objects that change are classes whose contracts tie the new state to a function of the old one; what is
  promised about runs is proved of that function.
- Protocols (wait, shutdown, list cache) are state machines. A run is any sequence of enabled steps, and
  the steps are as small as the locks, channels and atomic flags of the program make them.
- Library code is a parameter or a given: JSON and MIME decoding (any decoder that undoes its encoder),
  the table of file name extensions, the set of boundary names of a message, replies and handshakes that
  go through or do not, deadlines as "fresh" or "expired".
- New message ids are assumed not to be in the store (they are random); arrival times increase strictly in
  save order where the reload order matters (`LatestIsNewcomer`, `IncreasingTimesAreSorted`), and
  `ReloadKeepsOrderIff` with `KeyLessIff` says exactly what the reload order needs.
- Where a theorem is about a function of this project, a lemma beside it says in plain terms what the function
  does: with the program's own numbers, and for every input. Tables and constants (verbs, units,
  terminators, defaults, limits) are spelled out once more by small lemmas: `VerbsAreNamed`, `UnitsAre`, `TerminatorsAre`, `DefaultsAre`,
  `LimitsAre`.

Where the program does not do what one might expect, the model follows the program:

- The client's `explainMismatch` says that it mirrors the server's rules, but `q` is not compared with the
  envelope (and a summary has no body). `QueryMatchesIff` says exactly what `q` hits then do not show, and
  `ExplainMismatch` exactly when it stays silent and on which accepted messages it complains
  (`FalseAlarm`); `BlindCopyDoesNotShow` is such a message: the address of a blind copy is looked for.
- A save counts as done before it has removed the files of the messages it evicts. After a crash in between,
  a start under looser limits can bring such messages back; `RestartForgetsIff` says exactly when, and
  `LivesAreOneRun` covers all other limits.
- `ParseSize` multiplies without an overflow check; `ParsedExactIff` says for which texts the value is right, `OverflowIsNegative` gives a whole range in which an accepted value is negative, and `TooManyGigabytes` one member of it.
- Between a failed send and the count of it a waiter can drain its channel, read a count of zero and go
  back to sleep (`Hasty`). That step alone loses a wakeup: `NoLostWakeup` holds in full for every run
  without it, `HastyDecisionsStrand` shows that it does strand the waiter when nothing is left to be
  published, and `UncountedDropCanStrandTheWaiter` is a concrete run. The waiter then sleeps until the next
  event or its timer, which looks again.
- `Shutdown` reads a session's `idle` flag and interrupts it in two steps; `InterruptMayHitData` is a run in
  which the interrupt hits message data. `VisitDecides` says for every run exactly which sessions can be cut
  short and which can be cut short in their data, and `CutOnlyWhenSeenIdle` what must have gone before.

## Model

| member | source | states |
|---|---|---|
| Retention.LongestSuffix | internal/store/store.go:70-76 | A suffix of the arrivals fits both limits exactly when it is no longer than the one that eviction keeps: eviction keeps the longest suffix that fits. |
| Retention.KeptFrom | internal/store/store.go:70-76 | Everything from some message on is kept exactly when there are no more messages from there on than allowed and, unless it is the newest or bytes do not count, no more bytes. |
| Retention.NewestSurvives | internal/store/store.go:70-76 | The message just saved is never evicted, whatever its size. |
| Retention.PathIndependent | internal/store/store.go:70-77 | Evicting after a first batch and again after a second drops the same messages as evicting once at the end. |
| Retention.TighterKeepsFewer | internal/store/disk.go:92-100 | Restarting with tighter limits keeps exactly the newest messages that fit those, the same as if they had applied from the start. |
| StoreSpec.RunKeeps | internal/store/store.go:62-230 | In every run: arrival numbers strictly increase, ids are distinct, sizes are honest, both limits hold, and a later store holds only older entries or newer arrivals. |
| StoreSpec.SizeGrows | internal/store/store.go:19-25 | Each byte of the mail, of its texts and of its attachments counts once towards the size, and nothing else. |
| StoreSpec.SaveDoes | internal/store/store.go:62-90 | A save puts its message last, takes away some oldest ones only, and publishes their deletions, oldest first, before the creation. |
| StoreSpec.DeleteDoes | internal/store/store.go:179-196 | A deletion by id takes just that message and publishes one deletion, and nothing if there is no such message. |
| StoreSpec.DeleteMatchingDoes | internal/store/store.go:198-230 | A deletion by filter takes just what matches and publishes one deletion for each in arrival order; with the empty filter it takes all and publishes one clear. |
| StoreSpec.SavesAreAccounted | internal/store/store.go:62-230 | In every run, messages saved = kept + evicted + deleted. |
| StoreSpec.SaveAllKeepsNewest | internal/store/disk.go:95-100 | Saving a whole list one by one ends with the longest fitting suffix of everything, as if the limits had been applied once. |
| StoreSpec.ReplayRebuilds | internal/store/store.go:86-230 | For every sequential run, folding the published events over an empty list gives the store's arrival order. |
| StoreSpec.ZeroFilterLeavesNone | internal/store/store.go:201-206 | Clearing without looking at the messages is what the general deletion loop would do with the empty filter. |
| Store.MemoryStore.constructor | internal/store/store.go:46-56 | An empty store in step with the empty sequence; a maximum below one becomes one. |
| Store.MemoryStore.SaveItem | internal/store/store.go:62-90 | The map, order, counters and directory follow the plain sequence through a save; the events are the evictions, oldest first, then the creation; the file steps are the write and then the removals. |
| Store.EvictOldest | internal/store/store.go:69-76 | The eviction loop removes exactly the ids outside the longest fitting suffix and leaves map, order and byte count in agreement. |
| Store.MemoryStore.Delete | internal/store/store.go:179-196 | Deletes one id from all fields and the directory, reports whether it was there, publishes only then. |
| Store.MemoryStore.DeleteMatching | internal/store/store.go:198-230 | Removes exactly the matching entries, counts them, publishes one clear for the empty filter and else one deletion each, in arrival order. |
| Store.DeleteFunc | internal/store/store.go:207-215 | The deletion loop splits the entries into those kept and those removed, in order, with map and bytes in agreement. |
| Store.MemoryStore.Page | internal/store/store.go:115-139 | The loop gives the page of PageIsExact: matching entries before the cursor, newest first, at most as many as the limit, with the last one's number as cursor exactly when more follow. |
| Store.Search | internal/store/store.go:118-123 | The binary search finds how many entries come before the cursor. |
| Store.Scan | internal/store/store.go:124-138 | The downward loop yields the first matches up to the limit, and a cursor exactly when there is one more. |
| Store.MemoryStore.Count | internal/store/store.go:141-154 | The count is the length of the list, on the fast path for the empty filter too. |
| Store.MemoryStore.Latest | internal/store/store.go:156-165 | The latest match is the head of the list, none when the list is empty. |
| Store.MemoryStore.ListenerKnowsOrder | internal/store/store.go:86-90 | Replaying what the store has published gives its order field. |
| Paging.PageIsExact | internal/store/store.go:115-139 | A page shows, in strictly decreasing arrival order, all and only the matching entries below its cursor and not below the next one, no more than the limit; there is a next cursor, the last shown number, if and only if a match below the cursor is not shown, and then the page is full. |
| Paging.PagingIsExact | internal/store/store.go:115-139 | Following cursors while the store changes arbitrarily shows nothing twice, nothing saved after page one, and in the end every match that was there at every page. |
| Paging.WalkEnds | internal/store/store.go:115-139 | Such a walk ends after at most one page more than page one's store had messages. |
| Paging.PagesMakeTheList | internal/store/store.go:106-139 | With no changes the pages, for any mix of limits, concatenate to the unpaged list. |
| Disk.SaveIsCrashAtomic | internal/store/disk.go:28-57 | Stop after any file step of a save: a reload gives exactly the contents before or exactly those after, and every metadata file has its mail. |
| Disk.RecoveryIsCrashSafe | internal/store/disk.go:65-105 | Stop a recovery after any step: the next recovery gives the same contents. |
| Disk.RemovalIsCrashAtomicPerMessage | internal/store/disk.go:41-49 | Stop inside a removal of several messages: the directory has lost some first ones of them and nothing else. |
| Disk.ReloadKeepsOrderIff | internal/store/disk.go:88-90 | A new message reloads as the last one exactly when its arrival time and id sort after all the others. |
| Disk.KeyLessIff | internal/store/disk.go:88-90 | A message is loaded before another exactly when it arrived earlier or, at the same time, its id comes first: it stops short of the other or is smaller where they first differ. |
| Disk.Directory.WriteFile | internal/store/disk.go:51-57 | Writing takes the steps of growing a temporary file and then renaming it, and no others. |
| Disk.Directory.Write | internal/store/disk.go:28-39 | The mail is in place before its metadata. |
| Disk.Directory.Remove | internal/store/disk.go:41-49 | For each id the metadata goes before the mail. |
| Recovery.ReadAll | internal/store/disk.go:75-90 | Reading gives every complete, decodable pair of files, with arrival times that never decrease and ids in order among equal ones, and skips the others. |
| Recovery.Persist | internal/store/disk.go:65-105 | Loading ends with the messages that arrived last and fit, in the order of their arrival times with ids in order among equal ones (what is dropped arrived no later than what is kept), with no evictions counted, through exactly the steps of the recovery theorem, and with a directory that mirrors the store: the hypothesis of the crash theorems. |
| Recovery.SortedIffInArrivalOrder | internal/store/disk.go:88-90 | The messages of a store are in reload order exactly when arrival times never decrease along it and ids are in order among equal ones. |
| Recovery.IncreasingTimesAreSorted | internal/store/disk.go:88-90 | Messages saved at strictly increasing times are in reload order. |
| Recovery.LatestIsNewcomer | internal/store/disk.go:88-90 | A message that arrived later than all the stored ones meets what the crash theorems ask of a save. |
| Recovery.StoreSaveIsCrashAtomic | internal/store/store.go:62-84 | The crash theorem for the store's own save: before or after, and a mirror again when it completes. |
| CrashRuns.RunStaysMirrored | internal/store/store.go:62-230 | After every operation of every run of saves and deletions the directory mirrors the store. |
| CrashRuns.OpIsCrashSafe | internal/store/store.go:78-83 | Stop any operation after any number of its file steps: the directory holds exactly the stated messages, and cropped to the limits these are what the part that counts as done leaves, which is a save from the renaming of its metadata on and a removal message by message. |
| CrashRuns.RunIsCrashConsistent | internal/store/store.go:62-230 | Stop a store after any file step of any run: the directory holds exactly the messages stated for that step, the reload finds what the operations that count as done would have left, and every operation that had taken all its file steps is among those. |
| CrashRuns.FinishedSurvive | internal/store/store.go:78-83 | Durability for a run: the operations whose file steps were all taken before the stop survive, with all those before them. |
| Lives.Perform | internal/store/store.go:62-230 | On the store object: every operation takes the file steps of the crash theorem, after each of them a reload finds exactly what counts as done, and the directory mirrors the store again at the end. |
| Lives.RunAll | internal/store/store.go:62-230 | The same for any sequence of operations on the object, with every operation that had taken all its file steps surviving the stop. |
| Lives.Live | internal/store/disk.go:65-105 | A start followed by operations, on the objects, takes exactly the steps of a life in the theorem below. |
| Lives.LifeIsCrashConsistent | internal/store/disk.go:65-105 | Wherever a life stopped, in its start or in its operations, the directory holds exactly the stated messages; under its limits these are what the surviving operations leave, among them every operation that had taken all its file steps. |
| Lives.LivesAreOneRun | internal/store/disk.go:28-105 | In any sequence of lives with limits of their own, each stopped after any file step and none bringing dropped messages back, every start finds the messages of a program that never stopped, whose limits change where the starts were and which does what survived of each life, every finished operation included; and every metadata file has its mail. |
| Lives.RestartForgetsIff | internal/store/disk.go:88-100 | A start under other limits forgets what the limits before had dropped if and only if it drops no fewer of what the directory holds. |
| Lives.NeverLooserIsSteady | internal/store/disk.go:88-100 | That is so whenever no start has looser limits than the one before it, as LivesAreOneRun asks. |
| WaitProtocol.RunKeeps | internal/api/messages.go:80-129 | The invariant of all interleavings of saves, deletions, publishes, lossy sends, closings and the waiter's steps. |
| WaitProtocol.NoLostWakeup | internal/api/messages.go:80-129 | A waiter blocked on an empty channel while a match is stored has that match's event still to come, or a drop is counted or about to be; in every run in which it never went back to sleep between a failed send and its count, the event is still to come. |
| WaitProtocol.RepliesAreExact | internal/api/messages.go:82-127 | In every run, each of the three looks at the store answers with the newest stored match if there is one; 204 comes only from the timer's look, without a match; 503 only from a cancelled request or a channel that is closed and drained. |
| WaitProtocol.QuietWaiterAnswersIff | internal/api/messages.go:103-127 | Once all publishers are done, a blocked waiter with a stored match reaches an answer by its own steps if and only if its channel holds something, which it does in every run without that step. |
| WaitProtocol.HastyDecisionsStrand | internal/api/messages.go:118-123 | The converse: with everything published, a waiter that has drained its channel goes back to sleep on a stored match exactly by that step, and then only its timer wakes it. |
| WaitProtocol.UncountedDropCanStrandTheWaiter | internal/events/broker.go:70-76 | A run through the window between a failed send and its count after which the waiter sleeps on a stored match. |
| WaitLoop.Drain | internal/api/messages.go:108-120 | Draining receives everything buffered, in order, notes whether a creation was among it, and tells a closed channel. |
| WaitLoop.WakeUp | internal/api/messages.go:103-127 | The store is looked at exactly when a creation was received or something was missed, and then its newest match is the answer. |
| WaitLoop.FirstLook | internal/api/messages.go:82-85 | A match that is already stored, the newest one, is the answer at once; without one the request goes on. |
| WaitLoop.LastLook | internal/api/messages.go:95-102 | When the timer fires, the newest match is the answer, and no content without one. |
| Broker.EveryRunConserves | internal/events/broker.go:31-93 | For each subscriber, in every run: offered = received + buffered + missed; received followed by buffered is an in-order subsequence of what was offered; at most 64 are buffered; the channel is closed at most once and never sent to afterwards. |
| Broker.OfferedWhileLive | internal/events/broker.go:45-93 | What is offered is exactly what was published before the first close, and the channel is closed exactly when some close was called. |
| Broker.NeverFullNeverMisses | internal/events/broker.go:67-77 | A subscriber that is never 64 behind gets every event, in order, and misses none. |
| Broker.MissesAreOverruns | internal/events/broker.go:31-77 | In every run the misses, reported or not, are exactly the events that came to an open channel with 64 events waiting; a report leaves none unreported. |
| Broker.TakesAreReceived | internal/events/broker.go:67-77 | A receive gets the oldest event that waits whenever one does, also from a closed channel. |
| Broker.Subscription.Send | internal/events/broker.go:71-75 | The non-blocking send, which needs an open channel. |
| Broker.Subscription.Missed | internal/events/broker.go:31-31 | Reports the drops since the last report and resets the count. |
| Broker.Broker.Subscribe | internal/events/broker.go:45-56 | A new subscription is live, or already closed if the broker is. |
| Broker.Broker.Remove | internal/events/broker.go:58-65 | Closes a live subscription and leaves a closed one alone. |
| Broker.Broker.Publish | internal/events/broker.go:67-77 | Every subscription ever handed out goes through one offer; those closed before are untouched. |
| Broker.Broker.Close | internal/events/broker.go:85-93 | Closes every live subscription once and lists none afterwards. |
| DataReader.ReadData | internal/smtp/session.go:363-395 | For every stream and every buffer of three bytes or more the result is the verdict of the line-by-line reading, and the reader stops right behind the terminator, also for a message that is too large. |
| DataReader.ReadingIsFraming | internal/smtp/session.go:363-395 | A reading exists exactly when the stream is ordinary lines followed by a terminator; the body is those lines without their first dots. |
| DataReader.RoundTrip | internal/smtp/session.go:363-395 | Dot-stuffing any body of whole lines and reading it gives the body and leaves pipelined bytes unread (section 4.5.2 of RFC 5321). |
| DataReader.LineOnTheWire | internal/smtp/session.go:363-395 | A line without a dot in front is taken as it stands, a line with one loses just that dot, unless nothing or a carriage return follows it: then the data ends there. |
| DataReader.StuffedOnTheWire | internal/smtp/session.go:363-395 | Dot-stuffing puts one byte 46 before exactly the lines that start with it (section 4.5.2 of RFC 5321). |
| DataReader.RoundTripOnTheWire | internal/smtp/session.go:363-395 | The round trip for the literal bytes of both terminators. |
| Connection.SmtpSession.Serve | internal/smtp/session.go:44-70 | The session object with its fields and its reader goes through exactly the history that the stream of bytes prescribes, and hands over exactly its deliveries. |
| Connection.SmtpSession.Handle | internal/smtp/session.go:72-102 | Each command does to the fields what the reference says (Outcomes says what that is), and leaves unread what it must: a message, an AUTH answer or, after STARTTLS, the old stream is gone. |
| Connection.SmtpSession.Hello | internal/smtp/session.go:104-124 | A greeting resets the transaction; an empty one fails. |
| Connection.SmtpSession.StartTls | internal/smtp/session.go:126-151 | After the handshake greeting, login, transaction and everything buffered in plain text are gone (section 4.2 of RFC 3207). |
| Connection.SmtpSession.Mail | internal/smtp/session.go:153-180 | Accepted only after a greeting, a login where required, without an open transaction, with a well-formed path and an announced size within the limit. |
| Connection.SmtpSession.Rcpt | internal/smtp/session.go:182-198 | Adds a recipient to an open transaction below the limit and when no failure rule says otherwise. |
| Connection.SmtpSession.Data | internal/smtp/session.go:200-230 | Reads the message from the stream, ends the transaction, and hands over envelope and body unless too large or rejected; what follows the message stays unread. |
| Connection.SmtpSession.Auth | internal/smtp/session.go:232-274 | Logs in once, after a greeting, with valid credentials where they are checked, taking just its answers from the stream. |
| Connection.SmtpSession.Challenge | internal/smtp/session.go:276-298 | An initial response, or else the next line of the stream: cancelled, empty, decoded or undecodable. |
| Connection.SmtpSession.Fail | internal/smtp/session.go:313-320 | Counts a failure; beyond the tenth the session ends. |
| Connection.ReadCommand | internal/smtp/session.go:338-361 | The next line of the stream if it fits the 4096 bytes of the reader; a longer one is skipped whole and reported, whatever the number of buffers it takes. |
| Connection.TalkIsHistory | internal/smtp/session.go:44-70 | The history of every stream of bytes is that of the commands cut out of it, so the theorems about histories hold of every stream. |
| Connection.PipeliningChangesNothing | internal/smtp/session.go:44-70 | A client that sends its commands, AUTH answers and messages all at once, up to a QUIT or whatever else ends the session, gets the history of one that waits for every reply; plain text sent ahead of a TLS handshake has no effect. |
| Connection.MessageIsWhole | internal/smtp/session.go:200-230 | A DATA line with a dot-stuffed message behind it is such a frame, and the Handler gets the message as it was. |
| Wire.LineIsTaken | internal/smtp/session.go:338-361 | A line of up to 4096 bytes with its line end, CRLF or LF, is taken as it was sent; a longer one is reported and skipped whole. |
| Wire.CommandIs | internal/smtp/session.go:61-62 | The verb, in any case, ends at the first space; its argument is the rest without the white space around it. |
| Wire.BracketedPath | internal/smtp/session.go:397-422 | A keyword in any case, white space or none, an address in angle brackets and any parameters are understood as that address and those parameters, unless white space is left in the address. |
| Wire.PlainPath | internal/smtp/session.go:404-410 | The same for an address without brackets. |
| Wire.NoPath | internal/smtp/session.go:397-410 | Without the keyword, without an address or without a closing bracket there is no path. |
| Wire.RoutesAreDropped | internal/smtp/session.go:415-417 | A source route is dropped up to its last colon; an address that does not start with an at sign has none. |
| Wire.OversizedIff | internal/smtp/session.go:168-176 | An announced size counts exactly when its key is SIZE in any case and the number is over the limit. |
| Wire.AnySizeCounts | internal/smtp/session.go:168-176 | One such parameter is enough, wherever it stands among the others. |
| Wire.PlainLoginIs | internal/smtp/session.go:242-248 | PLAIN takes user and password behind the first two zero bytes, and nothing when there are fewer. |
| Wire.LoginConversation | internal/smtp/session.go:232-298 | AUTH LOGIN hears a user, along with the command or on a line of its own, and a password on another line; the server checks the two, and what follows stays unread. |
| Wire.PlainConversation | internal/smtp/session.go:232-298 | AUTH PLAIN hears both in one answer, along with the command or on a line of its own. |
| Wire.ExchangeStops | internal/smtp/session.go:259-266 | A prompt that does not go through and an answer that is cut off or too long end the session; an asterisk and undecodable text are told apart. |
| Wire.ReplacedIffSecured | internal/smtp/session.go:126-151 | The stream is replaced exactly when the session becomes secured, and then by what comes over TLS alone (section 4.2 of RFC 3207). |
| Session.DeliveredEnvelopeEqualsHistory | internal/smtp/session.go:200-230 | In every session each call of the Handler gets the sender of the last accepted MAIL and, in order, exactly the recipients accepted since, within the limits, after a greeting and login later than any STARTTLS. |
| Session.ActsComeFromTurns | internal/smtp/session.go:61-64 | Every accepted greeting, login, sender, recipient and message of a history is what some command of the client said and the failure rules and credential checks allowed, in the order of the commands and no two from the same one. |
| Session.DeliveriesAreUnrejected | internal/smtp/session.go:200-230 | In every session the calls of the Handler belong, in order, to different DATA commands, none of them rejected at the data stage, each with the body transmitted for it. |
| Session.HistoryEndsWell | internal/smtp/session.go:313-320 | Nothing follows the end of a session, and the eleventh failure is followed by it. |
| Outcomes.HelloOutcome | internal/smtp/session.go:104-124 | A greeting with a name is accepted at any time; without one it fails. |
| Outcomes.MailOutcome | internal/smtp/session.go:153-180 | MAIL is accepted if and only if the history has a greeting and, where required, a login since the last STARTTLS, no open transaction, and the sender is good; otherwise it is a failure. |
| Outcomes.RcptOutcome | internal/smtp/session.go:182-198 | RCPT fails exactly without an open transaction or an address, changes nothing exactly at the limit or when a failure rule refuses it, and else is accepted. |
| Outcomes.DataOutcome | internal/smtp/session.go:200-230 | DATA fails exactly without recipients; a complete message is too large, rejected or handed over with the sender and recipients that the history shows. |
| Outcomes.AuthOutcome | internal/smtp/session.go:232-274 | AUTH logs in exactly after a greeting, not twice, by a known mechanism, with credentials that are valid where that matters; what fails and what ends the session. |
| Outcomes.StartTlsOutcome | internal/smtp/session.go:126-151 | STARTTLS fails exactly when it is not offered, already done or has an argument; else the handshake decides. |
| Outcomes.OtherOutcomes | internal/smtp/session.go:72-102 | RSET always resets, NOOP, VRFY and HELP change nothing, QUIT ends the session, anything else fails. |
| Outcomes.ResetsClose | internal/smtp/session.go:82-84 | Behind RSET, an accepted greeting, a STARTTLS that went through and a message that was read no transaction is open and no recipient is left. |
| Outcomes.MailAndRcptBuild | internal/smtp/session.go:178-197 | MAIL opens a transaction without recipients, RCPT adds its recipient at the end. |
| Session.BracketedPathIsUnderstood | internal/smtp/session.go:397-422 | An address in angle brackets is taken as it stands, but for a source route in front of it. |
| Shutdown.NoSessionIsLeftBehind | internal/smtp/server.go:92-136 | In every interleaving, once the pass is over no session is blocked reading a command with a fresh deadline, and when the wait group is at zero the session map is empty. |
| Shutdown.ReturnsWhenAllAreGone | internal/smtp/server.go:105-121 | In every run in which Shutdown has returned, the wait group is at zero, the map is empty and no session is counted: it has waited for all of them, also after closing connections by force. |
| Shutdown.GoneForGood | internal/smtp/server.go:105-136 | That stays so in every continuation. |
| Shutdown.ForceLeavesNobodyWaiting | internal/smtp/server.go:114-120 | In every run, once connections are closed by force no session is left waiting for its client. |
| Shutdown.NoMoreThanAllowed | internal/smtp/server.go:76-89 | In every run no more sessions are served at a time than the server allows. |
| Shutdown.ServedIfRoom | internal/smtp/server.go:76-89 | A tracked session is served exactly if there is room for it. |
| Shutdown.NothingTrackedAfterThePass | internal/smtp/server.go:124-136 | After the pass no step tracks a session or lets one get stuck. |
| Shutdown.RunKeeps | internal/smtp/session.go:338-361 | The invariant of all interleavings of the accept loop, the sessions' flag and deadline steps, and Shutdown. |
| Shutdown.InterruptMayHitData | internal/smtp/server.go:98-101 | A run in which a session seen idle is reading data when the interrupt comes. |
| Shutdown.VisitDecides | internal/smtp/server.go:98-101 | For every run and every session the pass visits: without closing by force, its deadline can still be cut if and only if it was seen idle, and its message data if and only if it was seen reading a command or about to return one. |
| Shutdown.CutOnlyWhenSeenIdle | internal/smtp/server.go:92-122 | In every run a session whose deadline was cut was seen idle and then interrupted, or connections were closed by force. |
| Failures.BudgetsAreExact | internal/failures/failures.go:137-152 | Successive takes return the applying rules in insertion order, each as often as its budget, then nothing, and leave the other rules and their order alone. |
| Failures.TakenIsForThem | internal/failures/failures.go:137-164 | The rule taken is the first one for this stage that is for everybody or for the address of one of the recipients, in any case, one unit poorer; none is taken exactly when none is for them. |
| Failures.ClearDoes | internal/failures/failures.go:122-135 | Clearing takes exactly the rules for the address, in any case, or all of them for no address. |
| Failures.CountdownIs | internal/failures/failures.go:144-149 | A rule is returned once for each unit, each time with one unit less. |
| Failures.UnitsAreConserved | internal/failures/failures.go:41-152 | In every run, units added = taken + removed + remaining; rules stay sane, distinctly numbered and few enough. |
| Failures.Validate | internal/failures/failures.go:76-91 | All complaints about a rule, and none exactly when it is sane. |
| Failures.AddedIff | internal/failures/failures.go:41-91 | A rule is added exactly when stage, code, message and count are in order and fewer than 1000 are pending. |
| Failures.NewRuleIs | internal/failures/failures.go:41-74 | A new rule has the next number and the trimmed address and message; without a message it says by its code whether the failure is temporary. |
| Failures.Set.Add | internal/failures/failures.go:41-74 | Accepts exactly the well-formed requests while there is room, fills in the defaults and numbers the rule. |
| Failures.Set.Take | internal/failures/failures.go:137-152 | The loop takes a unit from the first rule that applies and drops it when used up. |
| Failures.Set.Remove | internal/failures/failures.go:110-120 | Removes the rule with this id and says whether there was one; none is left. |
| Failures.Set.Clear | internal/failures/failures.go:122-135 | Removes the rules for an address, or all, and counts them. |
| MimeWalk.Parser.Walk | internal/mail/parse.go:81-114 | The recursive walk with its counter equals the fold over the nodes in preorder that the limit of 500 allows, multiparts at depth 16 taken as leaves. |
| MimeWalk.ParseTree | internal/mail/parse.go:49-53 | The walk of a whole message has the meaning that WalkFinds gives. |
| MimeWalk.WalkFinds | internal/mail/parse.go:81-143 | Each body is that of the first eligible leaf of its type that has text; every other leaf that is not an empty eligible one before it is an attachment, in order, numbered "1" up to at most 500. |
| MimeWalk.NumberDescribes | internal/mail/parse.go:128-143 | Each attachment shows its part: the data untouched, the part's own name or else one made of number and type, its type and content id, and whether it is inline. |
| MimeWalk.FilesAreAttached | internal/mail/parse.go:98-114 | No file is lost: every leaf that is marked as an attachment, named or not text is among the attachments. |
| MimeWalk.FirstTextIsBody | internal/mail/parse.go:116-126 | A text leaf that is no file is the body of its kind if none with text came before it. |
| MimeWalk.FindAttachment | internal/mail/message.go:79-86 | Looking up the i-th number gives the i-th attachment, any other id none. |
| UiCache.CacheIsConsistent | web/src/hooks/useMessages.ts:25-87 | In every run of refreshes, scrolls, query changes, aborted, late and failed loads and store changes: the list is strictly newest first, from one query, its cursor is that of its last element, scrolling can start a load whenever more exists and none is under way, and a complete list lacks no match that was there at every page. |
| UiCache.QuietListIsExact | web/src/hooks/useMessages.ts:25-87 | A list loaded while the store stands still is the store's list, however many pages it took. |
| UiCache.SyncedIsFresh | web/src/hooks/useMessages.ts:34-58 | In every run a list counts as synced exactly when the load that last replaced it was started behind every refresh and every new query; it then stems from the store as the server saw it since. |
| UiCache.RequestsAreExact | web/src/hooks/useMessages.ts:34-87 | In every run: what is requested by a new query, by scrolling with a fresh or a stale list, and after a refresh. |
| UiCache.RunKeepsInv | web/src/hooks/useMessages.ts:25-87 | Every list shown is the result of a real page walk over the changing store. |
| UiCache.Browse | web/src/hooks/useMessages.ts:16-87 | The hook as an object goes through every run of the page, keeping its list strictly newest first, from one query, with the cursor of its last element, and able to scroll. |
| UiCache.MessageList.StartLoad | web/src/hooks/useMessages.ts:25-53 | Keeps the list in order; the load asks for just the entries missing behind the last one shown, or for everything that is wanted anew. |
| UiCache.MessageList.Answered | web/src/hooks/useMessages.ts:43-58 | Any page the server can give keeps the list in order; a list that is extended keeps what it showed; if more follow, what was wanted is there. |
| UiCache.MessageList.Failed | web/src/hooks/useMessages.ts:59-63 | The list stays, and scrolling can start a load again. |
| UiCache.MessageList.LoadMore | web/src/hooks/useMessages.ts:75-80 | Keeps the list in order; with no load under way and more to show it always starts one, for a page more. |
| UiCache.MessageList.NewQuery | web/src/hooks/useMessages.ts:82-87 | Keeps the list in order; the load that starts begins at the top with the new query, so the old list is not extended. |
| Highlight.HighlightMime | web/src/lib/mimeHighlight.ts:36-90 | Joining the lines gives the text with CRLF turned into LF; each line's tokens cover it side by side at strictly increasing starts; each offset is the line's place in the text and offsets increase, so render keys are unique. |
| Highlight.CutLines | web/src/lib/mimeHighlight.ts:56-89 | The loop with its flag cuts each line as the last boundary or empty line before it says. |
| Highlight.PiecesAreLossless | web/src/lib/mimeHighlight.ts:18-29 | Cutting a value at whatever a search finds loses nothing and makes no empty token. |
| Highlight.FirstMatchIsLeftmost | web/src/lib/mimeHighlight.ts:21-21 | Searching with a regular expression finds its leftmost match. |
| Highlight.SplitJoins | web/src/lib/mimeHighlight.ts:56-56 | Splitting at CRLF or LF and joining with LF is replacing CRLF by LF. |
| Highlight.LinesAreSplit | web/src/lib/mimeHighlight.ts:56-56 | No line keeps a line feed. |
| Kinds.LinesAreColoured | web/src/lib/mimeHighlight.ts:50-90 | Every line is coloured for what it is: a boundary line; among headers a field, the continuation of one or an empty line; else base64 data or body. |
| Kinds.HeadersAre | web/src/lib/mimeHighlight.ts:58-75 | Headers stand where the text or a part begins, up to the first empty line or closing boundary. |
| Kinds.BoundariesAre | web/src/lib/mimeHighlight.ts:60-68 | A known name behind two hyphens starts a part; with two more behind it, and white space or none, it closes the multipart. |
| Kinds.BoundaryLooksLike | web/src/lib/mimeHighlight.ts:60-68 | No other line is a boundary. |
| Kinds.FieldIff | web/src/lib/mimeHighlight.ts:13-13 | A field name is printable characters other than a colon, up to the colon. |
| Kinds.Base64Iff | web/src/lib/mimeHighlight.ts:15-15 | Base64 data is forty or more characters of its alphabet and up to two equals signs. |
| Kinds.EncodedIff | web/src/lib/mimeHighlight.ts:14-14 | An encoded word is found exactly where "=?", a charset, Q or B in either case and a text stand between their question marks. |
| Kinds.PiecesMark | web/src/lib/mimeHighlight.ts:18-29 | The tokens of a value are the matches as they follow each other from the left, and the text between them. |
| Sizes.ParseSize | internal/config/config.go:200-219 | The suffix loop reads the number and the factor of the first unit in the table that ends the text; a negative or malformed number is refused. |
| Sizes.SizeRoundTrip | internal/config/config.go:200-230 | Every size up to the largest int64 is parsed back from its printed form, without overflow. |
| Sizes.TypedIsRead | internal/config/config.go:200-218 | A number and a unit in any case, with or without white space between and around them, are read as their product. |
| Sizes.NumberIsRead | internal/config/config.go:206-218 | A number alone counts bytes. |
| Sizes.PrintedInLargest | internal/config/config.go:220-230 | A size is printed in the largest unit that divides it. |
| Sizes.ParsedExactIff | internal/config/config.go:200-219 | For every text, the value is the product of the number and the factor it spells if and only if that product fits an int64; a malformed text is refused. |
| Sizes.OverflowIsNegative | internal/config/config.go:214-218 | A printed count whose product passes the int64 maximum by less than a factor of two is accepted, with a negative value. |
| Sizes.TooManyGigabytes | internal/config/config.go:214-218 | 2^33 with the suffix "GB" is accepted with a negative value. |
| Diagnose.ExplainMismatch | packages/client/src/diagnose.ts:12-58 | Each reason is given exactly for its cause in the server's terms; a rejected message always gets one; without q and body silence means acceptance; the exact condition for silence, and exactly which accepted messages are complained about. |
| Diagnose.QueryMatchesIff | internal/store/filter.go:41-46 | The server finds q exactly where the summary shows it, in the envelope, or in a body. |
| Filters.MatchIff | internal/store/filter.go:22-99 | A message matches exactly when it is not older than asked for, has the full address among its recipients, and has each of the other words, trimmed and in any case, in the fields it is asked for in; the query in any of them. |
| Diagnose.BlindCopyDoesNotShow | packages/client/src/diagnose.ts:42-49 | A message with its own From and To headers that the server accepts for the address of a blind copy, which the summary does not show. |
| Diagnose.SentToAgrees | internal/store/filter.go:66-81 | Comparing folded strings is the server's case-insensitive comparison, over the same addresses. |

## Left out

- TLS certificates, sockets, real time and HTTP other than the wait request: plumbing without an invariant of its own.
- Login pages, cookies, credentials and translations: static tables and authentication plumbing.
- Header, multipart, base64, quoted-printable, charset and HTML decoding, and the JSON format: library code, taken as given.
- Texts are ASCII: Unicode case folding and white space are not modelled.
- How many bytes arrive at a time: the reader is given everything the peer will ever send, and when a byte arrives does not matter.
- I/O errors of the data directory other than a crash: `onError` only logs them.
- Event replay under concurrent calls: publishing happens after the lock is released, so the order of events can differ from the order of changes.
- A promise that message data in flight completes during shutdown: the program does not give it (`VisitDecides` says when it does).
- The regular expression that collects boundary names and the 256 KiB limit of the source view: the theorem holds for any set of names and any text.
- The client's HTTP transport, the Playwright fixture and the React components: no hard invariant.
- WaitProtocol.NoLostWakeup: says nothing about how long publishing takes; time is only the timer's step.
- Shutdown.NoSessionIsLeftBehind: sockets closed by force are modelled as expired deadlines.
- UiCache.CacheIsConsistent: does not cover the message total, which is a separate request and only displayed.
