# shipard-mail-router: a verified model

The mail router takes mail from Postfix over LMTP, stores each recipient's copy as a row of an
SQLite table, and a worker posts the rows to the shpd server of the addressed data source. A
policy service tells Postfix beforehand which recipients exist, and a timer refreshes the file
that says where each data source lives.

This project models that behaviour in Dafny and proves what it promises over whole runs: no
acknowledged mail is lost, one mail becomes at most one record, each answer of shpd has the
promised outcome, sends are bounded and spaced, the queue drains and starves nobody, redelivery converges, the two gates agree, and the lookup
file is never torn.

## How it is laid out

- **Text and time.** `Text` (Python string operations on ASCII), `Timestamps` (the two text
  formats SQLite compares), `Address` and `Keys` (recipients and idempotency keys), `Json` and
  `Client` (shpd's answers).
- **The table.** `Table` gives each SQL statement its meaning; `QueueStore` has the `Queue` class
  that runs them on text timestamps.
- **The pipeline as a step system.** `Delivery` has one label per atomic thing that can happen:
  a recipient stored, a batch fetched, a request answered or lost, a row settled, a worker
  crashing or starting, a prune, the clock moving. A run is any sequence of enabled steps, with any
  number of LMTP sessions and workers. `NoLoss`, `OneRecord`, `Custody`, `SendCount`,
  `Spacing`, `Progress`, `Convergence` and `Outcomes` prove one property each about every run.
- **The programs.** `WorkerLoop` and `Receiver` have the `Worker` and `LMTPHandler` classes.
  `Refinement.RunForeverRefines` and `Receiver.DataRefines` show that whatever their loops do, and
  however they end, is a run of the step system, so the properties of runs are about these loops.
- **Around it.** `Policy` (the Postfix policy protocol), `Lookup` (the cached table),
  `LookupSync` (its refresh from the hosting), `Alerts` (the throttle).

## What is assumed

- SHA-256 has no collision among the key texts of one run and yields 64 hexadecimal digits
  (`Delivery.ValidConfig`); the random part of a `nomid-` key is arbitrary, and never repeats
  where `NoLoss.KeysTell` is assumed.
- Each SQL statement, and the transaction of `dequeue_batch`, is atomic and durable, and ids are
  never used twice (AUTOINCREMENT). The order of rows received in the same second is open.
- shpd keeps its contract for requests with a key (`docs/architecture.md:81-86`): one record per
  key at an endpoint, and success is only reported with the stored record. It may store the record
  and answer with an error, and any answer may be lost.
- The lookup may gain and lose data sources between any two steps but never moves one to another
  server; allowed hosts contain no `/`.
- Where a theorem says so: no worker starts while another holds a batch (`Custody.OrderlyRun`;
  `Custody.StartKeepsCustodyIff` shows that this is exactly what is needed), the clock never runs
  backwards (`Spacing.ForwardRun`), retired ETags never return (`LookupSync.MayHappen`;
  `LookupSync.ReusedTagGoesStale` shows what happens otherwise).
- Text is ASCII.
- An exception that leaves `_process` (from the lookup, the parser or a statement, a malformed
  shpd body, a message id SQLite cannot bind, an empty back-off list, a date beyond year 9999)
  ends the worker like a crash, with the row in flight.

## Where code and documentation differ

The model follows the code.

- `docs/architecture.md:90-91` delivers on any 2xx and exempts 408 and 429 from dead-lettering.
  The code delivers only on a 201 whose body says so, and dead-letters every other answer below 500
  (`Client.Verdicts`).
- `docs/architecture.md:92` lists a first delay of 0 s; the first retry uses `backoff[1]`
  (`Spacing.NthAttempt`).
- The id patterns end in `$`, which tolerates one trailing newline (`Address.ValidDsIdForm`,
  `Address.TrailingNewlineAccepted`).
- The key of a mail is cut at the first `@`, its address is parsed at the last one; with several
  `@` different mailboxes can share a key (`Keys.MailboxMergedIff`), though never different data
  sources (`Keys.KeyDeterminesDs`).
- The payload of a key is joined with `/` and does not escape it, so two accepted recipients of
  one data source can share it; `Keys.PayloadSharedIff` says exactly when. Mail that follows
  RFC 5321 and RFC 5322 is never confused (`Keys.SameKeySameMail`).
- `StreamReader.readline` raises on a line over 64 KiB, so a longer request is answered with a
  deferral (`Policy.RoundTripIff`).
- The policy service strips the recipient, RCPT does not (`Receiver.RawGatesAgreeIff`), and
  `validate_payload` lets hosts with white space around them through
  (`Receiver.TrimmedHostsAgreeIff` is for files without such hosts).
- The lookup cache remembers the mtime of a second `stat`, so a replacement between the read and
  that `stat` goes unnoticed until the next one (`Lookup.StaleIffOvertaken`).

## Model

| member | source | states |
|---|---|---|
| Timestamps.DueTextIsTimeOrder | mail_router/queue.py:149-160 | for all instants of years 1 to 9999, `next_attempt_at <= now` on text (naive with optional microseconds against seconds with `+00:00`) holds exactly when the retry instant is not after the clock truncated to seconds |
| Timestamps.ClockTextIsTimeOrder | mail_router/queue.py:257-261 | two stored clock readings compare as text exactly as they do in time, for `delivered_at < cutoff` and `ORDER BY received_at` |
| Timestamps.NaiveReadsBack | mail_router/queue.py:44-54 | a written retry time reads back as the same instant, to the microsecond |
| Timestamps.ClockReadsBack | mail_router/queue.py:40-54 | a written clock reading reads back as the same second |
| Timestamps.WrittenShape | mail_router/queue.py:40-41 | both texts are `YYYY-MM-DD HH:MM:SS`, digit for digit; the clock goes on with `+00:00`, a retry time with six decimals where it has any |
| Timestamps.MonthTable | mail_router/queue.py:40-54 | the days before each month are those of the almanac, one more after February in a leap year |
| Address.ParsePrinted | mail_router/address.py:21-51 | parsing undoes printing for every id, either separator, any mailbox even with `+`, `--` or `@`, and any allowed domain |
| Address.ParseIffPrinted | mail_router/address.py:21-51 | an address is accepted as given parts exactly when it is some printing of them |
| Address.ReprintStable | mail_router/address.py:21-51 | re-printing a parsed address with either separator and parsing again changes nothing |
| Address.ParseIgnoresOtherHosts | mail_router/address.py:27-32 | the allowed hosts only accept or reject; they never change what is parsed |
| Address.ValidDsIdForm | mail_router/address.py:7-18 | the accepted ids in closed form: the slug pattern without `--`, up to one trailing newline; the hash-id pattern adds nothing |
| Address.ValidDsIdIff | mail_router/address.py:7-18 | accepted are exactly the texts `x` or `x` plus a newline, where `x` has no `--` and is one letter or digit, or two around up to 61 letters, digits and dashes |
| Address.HashIdIsHash | mail_router/address.py:7 | the hash-ids are exactly four groups of four letters or digits joined by dashes |
| Address.HashIsWeb | mail_router/address.py:7-8 | every hash-id is also a valid web-id |
| Address.ValidDsIdChars | mail_router/address.py:11-18 | an accepted id is lower case, 1 to 63 characters, without `+`, `@`, `/` or `--`, and does not end in `-` |
| Address.TrailingNewlineAccepted | mail_router/address.py:8 | an id with a trailing newline is accepted |
| Keys.SameKeySameMail | mail_router/parser.py:146-148 | with single-`@` recipients, local parts without `<` and Message-IDs that open with `<`, equal keys mean the same Message-ID and the same parsed recipient |
| Keys.KeyDeterminesDs | mail_router/parser.py:146-148 | whatever the Message-IDs hold, mails with one key text have one domain and one data source |
| Keys.PayloadSharedIff | mail_router/parser.py:146-148 | an accepted recipient and a stripped Message-ID share their key text with another such pair exactly when the local part holds a separator and there is a `/`, not followed by white space, in the local part, or in the Message-ID before its first `@` and not at its end |
| Keys.MailboxMergedIff | mail_router/receiver.py:76-78 | an accepted recipient shares every key with a differently addressed one exactly when its local part holds a separator |
| Keys.DigestIsNotNoMid | mail_router/worker.py:95 | no digest is mistaken for a key of the `nomid-` family |
| Client.Verdicts | mail_router/client.py:131-168 | success exactly on a 201 whose JSON object has a truthy first `success` field, retry exactly on 500 and above, never both |
| Client.RaisesIff | mail_router/client.py:140-151 | exactly which JSON bodies make the interpretation raise |
| Client.ReportedId | mail_router/client.py:140-148 | a confirmed answer whose `data` object has this value as its first `message_id` field gives a success with this id |
| Client.NoReportedId | mail_router/client.py:140-148 | the id of a confirmed answer is null exactly when the answer carries none, or null |
| Client.ReplayTold | mail_router/client.py:140-148 | a delivery counts as a replay exactly when the `data` object of the answer has a truthy `idempotent_replay` |
| Client.CauseTold | mail_router/client.py:150-155 | a failure keeps the status and, as cause, the code and message of the `error` object, each exactly if it is there, or else the first 2000 characters of the text |
| Client.RetryableOutcomes | mail_router/client.py:106-128 | the transport retries exactly when no answer came or the server failed |
| Client.ResultTells | mail_router/client.py:106-168 | for whatever the transport produces: the status, and a cause exactly when nothing was delivered, which names the timeout, the transport error, or what the answer says |
| Table.Insert | mail_router/queue.py:118-143 | the INSERT keeps the primary key and the unique index |
| Table.StoredIsDue | mail_router/queue.py:118-162 | a mail with a new key gets a row of its own, untried and with no error, that is due at once and stays due until it is fetched |
| Table.RetriedIsDue | mail_router/queue.py:149-216 | a row put off until an instant is due from the first whole second not earlier |
| Table.RewriteKeepsIndexes | mail_router/queue.py:14-39 | a statement that inserts nothing and leaves ids and mails alone keeps both indexes |
| Table.RequeuedIsDue | mail_router/queue.py:231-239 | a row in flight is due at once after a restart, with its mail and attempts; no other row changes |
| QueueStore.SelectIsBatch | mail_router/queue.py:149-162 | the SELECT on text timestamps returns a batch: due in time, oldest first, full unless every due row is in it |
| QueueStore.PruneOnText | mail_router/queue.py:256-263 | the DELETE on text timestamps removes exactly the delivered rows older than the cutoff in time |
| QueueStore.Queue.Enqueue | mail_router/queue.py:105-143 | a new key adds one row, untried and due at every later clock, and changes no other; a known key changes nothing; either way the id is that of the row with the key |
| QueueStore.Queue.DequeueBatch | mail_router/queue.py:145-176 | moves a batch of due rows to in_flight and returns them as they were before |
| QueueStore.Queue.MarkDelivered | mail_router/queue.py:178-190 | the row with this id, in whatever state, becomes delivered now, with the message id and no error; nothing changes when the message id cannot be bound |
| QueueStore.Queue.MarkRetry | mail_router/queue.py:192-216 | the row with this id, in whatever state, becomes pending with the given attempt count, time and error; nothing else changes, and nothing at all if the row is gone |
| QueueStore.Queue.MarkDeadLetter | mail_router/queue.py:218-229 | the row with this id, in whatever state, becomes dead_letter with the reason; nothing else changes |
| QueueStore.Queue.RequeueInFlight | mail_router/queue.py:231-239 | every in_flight row is pending, due at once and keeps its attempts; their number is returned, none is left in flight |
| QueueStore.Queue.PruneDelivered | mail_router/queue.py:256-263 | the rows removed, in time, and their number; nothing changes when the cutoff leaves the calendar |
| QueueStore.DaysSpanIsDays | mail_router/queue.py:257-258 | the cutoff is the same time of day, that many calendar days before |
| Delivery.StepKeepsTable | mail_router/queue.py:14-39 | every step keeps the primary key and the unique index |
| Delivery.RowRemains | mail_router/queue.py:256-263 | only the DELETE removes a row, and only a delivered one old enough |
| Delivery.RowKept | mail_router/queue.py:178-239 | no step changes the mail or the arrival time of a row |
| Delivery.RowDelivered | mail_router/worker.py:98-109 | a row becomes delivered only when a worker settles a success, with the id that success reported |
| Delivery.RowAdded | mail_router/receiver.py:71-91 | a new row is the mail of the recipient being stored |
| NoLoss.StepLosesNothing | mail_router/receiver.py:70-108 | every step keeps each handled recipient accounted for |
| NoLoss.NoAcknowledgedMailLost | mail_router/receiver.py:60-108 | in every run, each recipient of a message answered 250 did not parse at DATA, or has a row under its key that is in the table or was deleted after delivery |
| NoLoss.AcknowledgedMailIsHeld | mail_router/receiver.py:71-91 | and, unless hashes collide or random ids repeat, that row holds this very copy, with the envelope sender, the recipient, its mailbox and the raw bytes, or, where there is a Message-ID, a mail for the same domain and data source, with the same Message-ID and parsed recipient if both follow the RFCs |
| OneRecord.SameKeySameDs | mail_router/worker.py:76-96 | mails that share a key belong to one data source |
| OneRecord.HeaderOfAuthentic | mail_router/worker.py:95 | the idempotency header is sent exactly for mail with a Message-ID |
| OneRecord.OneKeyPerMail | mail_router/worker.py:87-96 | all requests for one domain, local part and Message-ID carry one key to one endpoint, in every run, also after pruning and redelivery |
| OneRecord.AtMostOneRecord | mail_router/worker.py:87-99 | in every run with lost replies, crashes, requeues, redeliveries and prunes, at most one record exists per key over all endpoints |
| OneRecord.DeliveredHasRecord | mail_router/worker.py:98-99 | every row of mail with a Message-ID that is marked delivered, still stored or pruned, has its record at shpd and carries the id of that record, which shpd sent in `data.message_id` |
| Custody.BatchesDisjoint | mail_router/queue.py:145-176 | with any number of workers, unless one starts while another holds a batch, outstanding batches are disjoint and their rows are in flight as fetched |
| Custody.FlightIsHeld | mail_router/queue.py:145-176 | in the same runs every in_flight row is in the batch of a worker, or its holder crashed and no worker has started since |
| Custody.StartKeepsCustodyIff | mail_router/queue.py:231-239 | starting a worker keeps that exactly when no other worker holds a batch |
| Custody.FinishedRowsRest | mail_router/queue.py:178-229 | no `mark_*` of a worker hits a delivered or dead-lettered row |
| Custody.Absorbing | mail_router/queue.py:178-229 | a delivered or dead-lettered row never changes again, and only a delivered one is deleted |
| Custody.SingleWorkerOwnsFlight | mail_router/worker.py:42-62 | with one worker, at every step the in_flight rows are exactly the unprocessed rest of its batch; none when it is idle |
| SendCount.SendCountLaw | mail_router/worker.py:98-129 | requests for a row = recorded failures + requests cut short + one if a request ended it + one while outstanding |
| SendCount.SendBound | mail_router/worker.py:115-121 | a row is sent at most max(1, max_attempts) times plus once per requeue |
| WorkerRules.OutcomeOverWire | mail_router/worker.py:98-129 | unless an exception escapes, and column by column: a confirmed answer makes the row delivered with the id it carries; no answer or a 5xx makes it pending with one attempt more and the retry time of the configured list, until the last attempt; everything else makes it dead_letter; with the status and cause as error |
| WorkerRules.EscapesIff | mail_router/worker.py:98-129 | exactly when deciding raises: an id SQLite cannot bind, an empty back-off list, a retry time outside the calendar |
| WorkerRules.UnbindableValues | mail_router/queue.py:178-190 | the message ids SQLite refuses are the arrays, the objects and the integers beyond 64 bits |
| WorkerRules.BackoffIsClamped | mail_router/worker.py:140-143 | attempt j waits the j-th entry of the configured list, or its last one when the list is shorter |
| Outcomes.SettledByWire | mail_router/worker.py:87-129 | in every orderly run, what settling leaves of a row follows, column by column, from what came over the wire for a request made for that row |
| Outcomes.GivenUp | mail_router/worker.py:76-85 | an item whose data source is unknown, or whose mail does not parse, is dead-lettered with that reason and without a request |
| Outcomes.PrunedWhenOld | mail_router/queue.py:256-263 | a prune deletes a delivered row exactly when the second of its delivery lies before the second of the cutoff |
| Spacing.RetriesSpaced | mail_router/worker.py:115-129 | any two requests for a row are at least the configured delays between their attempts apart, as the list gives them, across crashes that forget the retry time |
| Spacing.NthAttempt | mail_router/worker.py:140-143 | attempts are numbered without a hole, and attempt b follows attempt k by at least the sum of `backoff[min(j, len-1)]` for k < j <= b |
| Progress.EveryItemDrains | mail_router/worker.py:61-62 | while nothing is enqueued, every finished item lowers the sum of remaining attempts |
| Progress.RequestsBounded | mail_router/worker.py:87-96 | a single worker makes at most as many requests as the queue had attempts left |
| Progress.QueueDrains | mail_router/worker.py:53-62 | after as many ticks that found a row due, or nothing left to do, as the queue had attempts left, every row is delivered or dead-lettered, however many ticks in between found live rows but none due |
| Progress.NoStarvation | mail_router/queue.py:153-172 | a due row is fetched within W / batch_size + 1 ticks, W being the attempts left in the other live rows received no later, if no later arrival shares or precedes its arrival time |
| Progress.StoredIsFetched | mail_router/queue.py:105-172 | a mail that is stored is fetched within W / batch_size + 1 ticks, under the same conditions |
| Convergence.PlanCovers | mail_router/receiver.py:71-91 | what one call stores: every recipient's key, one mail per new key, nothing else |
| Convergence.RetriesConverge | mail_router/receiver.py:60-108 | any number of calls for one message, failing after any prefixes, then an acknowledged one, leave of this message what a single call leaves, while other mail arrives in other sessions, workers run and rows are pruned, as long as none of that stores or deletes a mail under one of its keys |
| WorkerLoop.CarrySpends | mail_router/worker.py:98-129 | carrying out the decision on a held row takes it out of flight, costs at least one remaining attempt, and changes no other row |
| WorkerLoop.PrefixProcessed | mail_router/worker.py:61-62 | after n items of a batch, each of them is out of flight and has spent an attempt, and all other rows are untouched |
| WorkerLoop.TickAdvances | mail_router/worker.py:53-62 | over the whole table a tick spends one attempt per finished item and touches no finished row and no mail |
| WorkerLoop.Worker.Process | mail_router/worker.py:66-129 | one item: unless an exception escapes, which changes nothing, the held row becomes what `Becomes` tells from the wire, or is dead-lettered for an unknown data source or a mail that does not parse |
| WorkerLoop.Worker.Tick | mail_router/worker.py:53-62 | one poll: nothing when the query fails, else the batch is a batch, the table is the fold of its items, and the rows in flight afterwards are those before and exactly those of the unfinished items |
| WorkerLoop.Worker.RunForever | mail_router/worker.py:42-51 | the table is what the polls made leave of the requeued one; the items processed never exceed the attempts the table had left; after a normal stop nothing is in flight |
| Refinement.ItemRefines | mail_router/worker.py:66-138 | processing one item to its end is a run of the step system with the same table and the same records at shpd |
| Refinement.EscapeRefines | mail_router/worker.py:66-138 | an exception that leaves an item is a run too, with the request if one was made, that ends in a crash |
| Refinement.TickRefines | mail_router/worker.py:53-62 | a tick, for whatever batch, answers and exceptions, is a run of the step system |
| Refinement.RunForeverRefines | mail_router/worker.py:42-62 | the life of a worker, from its start to a stop or a crash, is a run of the step system with the same table and the same records at shpd |
| Refinement.ExecIsRun | mail_router/worker.py:53-62 | what executing the labels reaches, a run reaches |
| Receiver.LMTPHandler.HandleRcpt | mail_router/receiver.py:44-58 | the reply opens with 2 or 5, and the recipient is kept exactly when it opens with 2 |
| Receiver.RcptAnswersTell | mail_router/receiver.py:52-58 | what is not accepted is refused for good (section 4.2.1 of RFC 5321), as malformed exactly when it does not parse |
| Receiver.LMTPHandler.HandleData | mail_router/receiver.py:60-108 | stores the recipients up to the first exception; the reply text opens with 2 exactly when there is none, and else with 4, so that Postfix keeps the mail |
| Receiver.AcknowledgedIff | mail_router/receiver.py:70-108 | the reply opens with 2 exactly when the lookup answered for each recipient and each INSERT that was made went through; a recipient that does not parse is passed over |
| Receiver.AckedIsStored | mail_router/receiver.py:70-108 | rows never leave or change while recipients are stored, and every recipient that got through and parsed has a row under its key |
| Receiver.ContentsArePlan | mail_router/receiver.py:71-91 | with a Message-ID the loop stores exactly the plan of the message, whatever random ids it draws |
| Receiver.DataRefines | mail_router/receiver.py:60-108 | one call is a run of the step system with the same table, which logs the acknowledgement exactly when the reply text opens with 2 |
| Receiver.GatesAgree | mail_router/policy.py:89-99 | the verdict is OK exactly when RCPT answers 250 for the stripped recipient under the same view of the lookup |
| Receiver.ProtocolGatesAgree | mail_router/policy.py:102-114 | over the protocol the verdict on a request is OK exactly when RCPT accepts the recipient it names last |
| Receiver.RawGatesAgreeIff | mail_router/receiver.py:52-58 | on raw text the gates differ exactly when the stripped address is served and stripping decides whether its host is allowed |
| Receiver.TrimmedHostsAgreeIff | mail_router/policy.py:90-95 | where no allowed host has white space around it, they differ exactly for an acceptable address with white space around it |
| Receiver.AcceptedIsResolvable | mail_router/worker.py:76-79 | an accepted recipient that is stored is stored for a data source the lookup resolved at RCPT |
| Lookup.LookupTable.constructor | mail_router/lookup.py:20-27 | the table starts as what the file loads to |
| Lookup.LookupTable.LoadFile | mail_router/lookup.py:50-73 | the three fields become what the document loads to, or stay as they were when the load raises |
| Lookup.LookupTable.MaybeReload | mail_router/lookup.py:40-48 | reloads exactly when the file exists with another mtime |
| Lookup.LookupTable.Lookup | mail_router/lookup.py:35-38 | the answer for any letter case, after a reload where one is due |
| Lookup.LookupTable.AllowedDomains | mail_router/lookup.py:30-33 | the hosts, after a reload where one is due |
| Lookup.EntriesResolve | mail_router/lookup.py:61-67 | a key resolves to the last entry that differs from it only in letter case; nothing else resolves |
| Lookup.LoadIsSaid | mail_router/lookup.py:50-67 | a load yields exactly the hosts the document lists, in lower case, and for each key the last entry up to letter case, with its URL without trailing slashes and its token; it raises exactly for a document with no such content |
| Lookup.CacheAgrees | mail_router/lookup.py:40-48 | over every history of edits, restarts and queries in which no load is disturbed between its read and its second stat, a query of an existing file answers as a fresh load of the file it looked at would, and raises exactly when that would |
| Lookup.LoadAgrees | mail_router/lookup.py:50-73 | a query that loads answers as a fresh load of the file it read, disturbed or not |
| Lookup.RemovedStillAnswers | mail_router/lookup.py:40-44 | while the file is missing, queries answer what the last load read |
| Lookup.StaleIffOvertaken | mail_router/lookup.py:50-73 | over every history, disturbed at any point: the cache is stale exactly when the file was replaced between the read and the second stat of the load that filled it, by a document that loads differently, and not since |
| Lookup.StaleUntilReplaced | mail_router/lookup.py:40-48 | queries do not notice it, and the next edit of the file ends it |
| LookupSync.AcceptedLoads | mail_router/lookup_sync.py:44-69 | a document that validates loads without an exception |
| LookupSync.AcceptedIff | mail_router/lookup_sync.py:44-69 | accepted are exactly the documents with a list of hosts and an object of data sources whose entries have a URL and a token, each a text that is not blank |
| LookupSync.AcceptedResolves | mail_router/lookup_sync.py:44-69 | each of its keys resolves in any letter case, to the last entry that differs only in case |
| LookupSync.Directory.WriteAtomic | mail_router/lookup_sync.py:80-95 | wherever it fails or dies, the target is the old file or all of the new, and no other file is touched |
| LookupSync.SyncOnce | mail_router/lookup_sync.py:98-169 | the files and the exit code, 2 when not configured, of one cycle at every stopping point |
| LookupSync.TagReadsBack | mail_router/lookup_sync.py:72-77 | a written tag is read back for the next request |
| LookupSync.FetchedTagIsAsked | mail_router/lookup_sync.py:72-77 | the tag of a fetch, once written, is what the next request asks about; none if there was none |
| LookupSync.InstalledIsLoaded | mail_router/lookup_sync.py:149-157 | the lookup table loads from an installed file what the published document loads to |
| LookupSync.NeverTorn | mail_router/lookup_sync.py:156-162 | over every history of publications and cycles, the lookup file is what it was or a whole document that validates |
| LookupSync.NotModifiedIsCurrent | mail_router/lookup_sync.py:112-132 | a cycle answered 304 finds the server's current document in the file, even after cycles that died between the two writes (section 13.1.2 and section 15.4.5 of RFC 9110) |
| LookupSync.ReusedTagGoesStale | mail_router/lookup_sync.py:156-162 | if a tag returns after such a death, 304 keeps the version that was rolled back |
| Policy.Reader.ReadLine | mail_router/policy.py:105-107 | the next line with its newline, empty at the end, an exception for a line over the limit |
| Policy.ReadRequest | mail_router/policy.py:102-114 | against `Policy.Reading`: the request at the front of the stream, or none, or an exception, and where reading stops |
| Policy.ReadsLine | mail_router/policy.py:102-114 | a line with a `=`, whatever white space stands in it, adds the text around its first `=`, stripped on both sides |
| Policy.SkipsNoise | mail_router/policy.py:111-112 | a line without a `=` within the limit is passed over |
| Policy.HandleClient | mail_router/policy.py:58-87 | against `Policy.Replies`: everything that is written for a whole stream, reply by reply, up to its end, a line that is too long, an exception, or a reset of the connection |
| Policy.DictionaryRoundTrip | mail_router/policy.py:102-114 | a dictionary with trimmed fields and `=`-free keys comes back whole, in any order of its items |
| Policy.RoundTripIff | mail_router/policy.py:102-114 | a request of plain fields comes back exactly when each of its lines is within the limit of the stream reader; otherwise reading raises |
| Policy.StreamRoundTrip | mail_router/policy.py:102-114 | any sequence of requests reads back as that sequence |
| Policy.LastFieldWins | mail_router/policy.py:113-114 | of a repeated key the last value counts |
| Policy.CutRequestIsRead | mail_router/policy.py:106-107 | a request cut short at the end of the stream is evaluated on the fields that arrived |
| Policy.RepliesAnswer | mail_router/policy.py:63-69 | reply n is the verdict on request n, for every request up to the first exception, which is answered with a deferral |
| Policy.RepliesReadBack | mail_router/policy.py:68 | whatever was asked, the replies written so far can be split again, one `action` each, in order, each one of the four verdicts |
| Policy.ConversationReadsBack | mail_router/policy.py:63-69 | what Postfix reads as answer i is the verdict on its request i |
| Policy.VerdictsTell | mail_router/policy.py:63-99 | what is written starts with `REJECT 550`, is `OK`, or defers exactly for an exception, and names an empty recipient exactly when there is none left after stripping |
| Alerts.Alerter.Notify | mail_router/alerts.py:29-42 | the table of send times afterwards, and whether the call passes |
| Alerts.SuppressedOnlyAfterPass | mail_router/alerts.py:36-42 | an active alerter suppresses a call exactly when the last passed call of its event is less than the throttle earlier |
| Alerts.PassesApart | mail_router/alerts.py:36-42 | two passes of one event are at least the throttle apart |
| Alerts.RateBound | mail_router/alerts.py:36-42 | in a window of length L an event passes at most floor(L / throttle) + 1 times, whatever other events are mixed in |
| Alerts.ZeroIsForgotten | mail_router/alerts.py:39 | a pass at clock 0.0, and only that, leaves no trace |

## Left out

- Client.Verdicts: the wording of error texts and the fields of the request body are not modelled; a cause keeps only what the text is built from.
- Timestamps.NaiveReadsBack: `_parse_ts` is modelled on the shapes the queue writes, not on every form `datetime.fromisoformat` accepts.
- OneRecord.DeliveredHasRecord: says nothing about mail without a Message-ID, because its requests carry no key and shpd's contract covers keyed requests only.
- WorkerLoop.Worker.RunForever: runs a given number of polls, because the stop signal comes from outside; the wait between polls and the backlog alert are not modelled.
- Receiver.LMTPHandler.HandleData: other processes do not touch the table during the call; that they may is part of `Delivery` and its theorems, and `Receiver.DataRefines` leads from one to the other.
- LookupSync.SyncOnce: the authorization header and the warning about an empty document.
- LookupSync.InstalledIsLoaded: that `json.loads` undoes `json.dumps` is a condition of it, not proved; elsewhere the text is an arbitrary function of the document.
- MIME parsing (`parse_eml`) is an arbitrary predicate on the raw mail, and the Message-ID scan an arbitrary function of it.
- HTTP transport, SMTP and LMTP sockets, aiosmtpd, asyncio scheduling, signals, systemd and install scripts: only their outcomes appear, as choices of the environment.
- SQLite internals: WAL, fsync, locking and the limit on bound variables.
- `stats`, `list_dead_letters`, `get`, `iter_all`, the admin command line, configuration loading and logging: they read and print.
- Sending the alert mail after the throttle has let it pass.
- Unicode: letter case beyond ASCII, other white space, and undecodable bytes.
- Manual changes to the table or to the lookup file while the programs run.
