# swarf: the revocation log and the streams that read it

swarf records UCAN revocations. A revoker's command line finds the chain of
delegations that proves its authority and publishes it; the service validates
the revocations of a request concurrently, stores the valid ones with one
write, and streams the log to subscribers as server-sent events; a client
library reads that stream across any number of reconnections.

This project models that path from end to end and proves what each part
promises. Nothing here executes swarf.

## How it is laid out

- `Types.dfy`: CIDs, records, revocations, `Option` and `Result`. A CID is its
  rank in the text order the database sorts by. Times are integers.
- `PostgresStream.dfy`: the polling firehose. Rows carry a record time and
  become visible up to `lag` later; a poll reads the clock, takes a snapshot,
  delivers row by row and then advances and prunes; inserts may come anywhere.
  One inductive invariant ties cursor, seen map, delivered rows, snapshots and
  table together.
- `PostgresClient.dfy`: the client reading that firehose record by record, over
  any number of connections; `PostgresDelivery.dfy`: the same from bytes, with
  connections cut anywhere.
- `PostgresBatch.dfy`: the one-statement batch insert, its flat array, and `Get`.
- `MemoryStore.dfy`, `MemoryStream.dfy`: the in-memory store as a class, and its
  writers and subscribers as interleaved steps with program counters.
- `Submissions.dfy`: what writers submit, and what the repeat check makes of it.
- `StoresAgree.dfy`: the two stores side by side.
- `Sse.dfy`, `SseLimit.dfy`, `SseBytes.dfy`, `SseReference.dfy`,
  `SsePrinter.dfy`: the event stream scanner, its two size bounds, an
  independent interpreter written from section 9.2.6 of the WHATWG HTML
  standard, and the printer; `SseStandard.dfy`: what any client written to that
  standard makes of what is printed.
- `ClientStream.dfy`, `ClientResume.dfy`: the client's reconnect loop, and when
  it yields each revocation once; `CallDelivery.dfy`: the systems below are calls
  of it.
- `EndToEnd.dfy`: in-memory store, printer, connections cut at any byte,
  scanner and client together; `MemoryDelivery.dfy`: the same when record times
  do not follow the lock; `FirehoseDelivery.dfy`: both, and Postgres, with the
  generated codec over a JSON library.
- `Delegations.dfy`, `WitnessPath.dfy`, `RevokeServer.dfy`, `Acceptance.dfy`:
  finding a witness path, publishing it, and the service's verdict on it.
- `Validations.dfy`, `BatchRoute.dfy`: the concurrent validation of a request,
  its receipts and its one store write.
- `DagJson.dfy`, `DagJsonRoundTrip.dfy`, `DagJsonReading.dfy`: the generated
  codecs, token by token, the round trip, and exactly what the decoders accept.

Code that updates state in place is a class or a method with loops, proved
against a function or predicate; what is promised over whole runs is proved
about a transition system that shares those functions. Concurrency is
interleaving: one step is what happens under one lock, one statement or one
channel operation.

## Where the code and its documentation differ

- `pkg/client/client.go:221-223` says one `Stream` call yields each revocation
  once. A call yields no cause twice if and only if no cause is received again
  after some other record time was (`ClientResume.YieldsOnceIff`). Over the
  Postgres firehose, whose rows can be emitted out of record time order, a call
  that reconnects at most `n` times never yields a revocation twice if and only
  if rows are visible as soon as they are recorded or `n` is 0, and never loses
  one if and only if rows are visible at once, or `n` is 0 and rows are visible
  within the settle window (`PostgresClient.OnceIff`, and from bytes
  `PostgresDelivery.OnceInBytesIff`). With any commit delay at all one
  reconnection is enough for either failure; the lost one was recorded before
  the record the client resumes at, and appeared after it.
- `pkg/store/store.go:52-56` says a consumer that resumes from the time of its
  last record misses nothing. The in-memory store reads the clock before it
  takes the lock (`pkg/store/memory/store.go:61-62`), so a record can be stored
  after one with a later time; a client that is reconnecting then never gets it.
  Given what is submitted, no client ever misses a current record if and only if
  no current entry was stored after an entry with a later time
  (`MemoryDelivery.NeverMissesIff`, where no superseded cause is submitted again).
- `pkg/store/store.go:52-56` says the stream is of all revocation records. The
  in-memory one is of those that are current when a subscriber looks: every
  subscriber from time zero that has caught up was yielded all records if and
  only if no delegation is revoked for two causes (`MemoryStream.AllYieldedIff`).
- `pkg/store/store.go:44-46` says a revocation already stored keeps its first
  record. The in-memory store recognises a repeat only while it is the current
  record of its delegation, so this holds if and only if no cause is submitted
  again once another has taken its delegation (`Submissions.StoredOnceIff`); on
  the same condition no subscriber is yielded a cause twice
  (`MemoryStream.YieldedOnceIff`). Both are stated where a cause names one
  delegation.
- `pkg/store/store.go:39-51` is one interface, but its two stores can answer
  differently. They agree after every batch, for any submissions at all, if and
  only if what each delegation had last keeps the record it first came with, and
  no other cause for it first came later, or at the same time with a greater id
  (`StoresAgree.AlwaysAgreeIff`). Where times tell the causes of a delegation
  apart, that is when no cause returns once superseded (`StoresAgree.GetsAgreeIff`).
- The disorder of the Postgres firehose is bounded by the commit delay, and
  that bound is reached (`PostgresClient.EmissionGoesBack`): it stays strictly
  below the settle window if and only if the delay does
  (`PostgresClient.DisorderWithinWindowIff`).
- From 2^31 witnesses in one batch on, the `int32` bounds of
  `pkg/store/postgres/store.go:81-89` wrap and some row would get the wrong path
  (`PostgresBatch.RowsAreIff`, an if-and-only-if). Such a batch cannot reach the
  statement: every array element takes four bytes of the message for its length
  alone, and the length of a message is itself an `int32`, so the write fails
  first.

## Model

| member | source | states |
|---|---|---|
| PostgresStream.ExactlyOnce | pkg/store/postgres/store.go:142-199 | in every interleaving of inserts and polls, with rows visible within the settle window, each completed poll yields, sorted, exactly the rows recorded at or after `from` that its snapshot shows and no earlier snapshot did; nothing is yielded twice |
| PostgresStream.NothingTwice | pkg/store/postgres/store.go:173-180 | nothing is yielded twice, whatever the delay between a row's record time and its appearance |
| PostgresStream.NeverMissesIffSettled | pkg/store/postgres/store.go:22-25 | no run misses a row if and only if rows never take longer than the settle window to become visible |
| PostgresStream.LateRowIsMissed | pkg/store/postgres/store.go:182-189 | for every longer delay, a run whose advanced cursor passes a row before it appears |
| PostgresStream.PruningRefinesSimple | pkg/store/postgres/store.go:154-189 | advancing the cursor and pruning the map yields the same sequence as re-reading everything and forgetting nothing |
| PostgresStream.SeenIsUnsettled | pkg/store/postgres/store.go:152-189 | after every step the seen map is exactly the delivered rows at or above the cursor, with their record times |
| PostgresStream.BoundedDisorder | pkg/store/postgres/store.go:147-153 | a row yielded before another was recorded at most the commit delay after it |
| PostgresStream.UndeliveredIsLater | pkg/store/postgres/store.go:147-153 | so was a row delivered before one that is still to come |
| PostgresStream.NextKeeps | pkg/store/postgres/store.go:156-197 | every step of clock, inserts and polls keeps the invariant that ties cursor, seen, delivered and table |
| PostgresStream.SeenIffShown | pkg/store/postgres/store.go:173-180 | the next row of a poll is skipped exactly when an earlier snapshot showed it |
| PostgresStream.Firehose.Poll | pkg/store/postgres/store.go:163-189 | one turn of the loop, given the clock and the rows it read: a completed poll, a query that fails after them, or a consumer that stops among them; after a completed poll the cursor is the larger of the old one and the clock less the settle window, and seen holds exactly the old entries and those of the rows just yielded, of them only what is at or after a cursor that has moved |
| PostgresStream.FinishSettles | pkg/store/postgres/store.go:182-189 | the same of the step that ends a poll, in any run and whatever the delay: nothing below the cursor stays in seen, and nothing else leaves it |
| PostgresStream.StepsDoPoll | pkg/store/postgres/store.go:163-189 | the transition system's steps for one poll come to what that turn does at once |
| PostgresStream.RecordsFrom | pkg/store/postgres/store.go:201-214 | the query's answer on a snapshot: the rows at or after the cursor, ordered by record time and id |
| PostgresStream.OrderedUnique | pkg/store/postgres/store.go:207-214 | that order leaves one possible listing of given rows |
| PostgresClient.OnceIff | pkg/client/client.go:218-281 | over the firehose, a Stream call with at most `most` reconnections never yields a revocation twice if and only if rows are visible as soon as they are recorded or `most` is 0, and never misses one if and only if they are, or `most` is 0 and they are visible within the settle window |
| PostgresClient.OnceIffVisibleAtOnce | pkg/client/client.go:218-223 | so, however often a call is interrupted, each of the two promises holds if and only if rows are visible as soon as they are recorded |
| PostgresClient.OneConnectionYieldsOnce | pkg/client/client.go:226-249 | a call that does not reconnect yields no revocation twice, whatever the delay |
| PostgresClient.OneConnectionMissesNothing | pkg/client/client.go:226-249 | and misses nothing a completed poll showed, when rows are visible within the settle window |
| PostgresClient.OnceWhenVisibleAtOnce | pkg/client/client.go:218-281 | without delay, over any number of connections dropped anywhere, nothing is yielded twice and nothing a completed poll showed is missed |
| PostgresClient.NextKeeps | pkg/client/client.go:236-249 | every step of the writers, the stream, the connection and the client keeps the invariant behind that, as a step of the resume protocol |
| PostgresClient.LostOverPostgres | pkg/client/client.go:243-246 | for every positive delay, a run with one reconnection whose client has received all its stream sent, without a row recorded at or after `from` that the stream's own poll saw in the table |
| PostgresClient.EmissionGoesBack | pkg/store/postgres/store.go:147-153 | for every positive delay within the window, a run that emits a row before one recorded exactly that delay earlier |
| PostgresClient.DisorderWithinWindowIff | pkg/store/postgres/store.go:22-25 | rows are emitted out of order by strictly less than the settle window if and only if the commit delay is less |
| PostgresClient.OnceFailsOverPostgres | pkg/client/client.go:218-223 | for every positive delay, a run with one reconnection in which the call yields a revocation twice |
| PostgresDelivery.OnceInBytesIff | pkg/client/client.go:218-328 | the same exact conditions from bytes up: rows printed as events, connections cut at any byte, scanner and client reading what arrived |
| PostgresDelivery.ReadingIsSeen | pkg/client/client.go:307-328 | from any first bytes of a connection the client has made exactly what it makes of the rows that arrived whole, and sees no corruption |
| PostgresDelivery.RunSeen | pkg/client/client.go:288-329 | every run of the system of bytes is one of the system of records |
| PostgresDelivery.RunInBytes | pkg/client/client.go:288-329 | and every run of records is what some run of bytes comes to |
| PostgresBatch.BuildArrays | pkg/store/postgres/store.go:57-90 | the arrays hold, for the first occurrence of each cause in order, its id, its delegation and the int32 bounds of its path in the flat array; it fails with the first missing path or failed encoding, and only when there is one |
| PostgresBatch.FaultlessIff | pkg/store/postgres/store.go:57-90 | building succeeds if and only if every revocation has a path and, unless its cause came before, it and its witnesses can be encoded |
| PostgresBatch.FailsWithFirst | pkg/store/postgres/store.go:57-90 | each error names the first revocation for which that fails, and what fails of it |
| PostgresBatch.EncodeWitnesses | pkg/store/postgres/store.go:82-88 | the index of the first witness that cannot be encoded |
| PostgresBatch.RowsAreIff | pkg/store/postgres/store.go:54-105 | slicing the flat array gives every row its own path back if and only if the witnesses number less than 2^31 |
| PostgresBatch.FlattenSlice | pkg/store/postgres/store.go:54-56 | the paths of a batch, end to end, are each recovered by the lengths before them |
| PostgresBatch.BatchRefinesSingles | pkg/store/postgres/store.go:92-105 | the one INSERT leaves the table that adding the revocations one by one at the same time leaves, first occurrence winning |
| PostgresBatch.Store.AddBatch | pkg/store/postgres/store.go:46-110 | each error exactly when the code returns it, encoding and write failures included, nothing stored on any of them, and the new table otherwise, whether or not the bounds wrap |
| PostgresBatch.Store.Get | pkg/store/postgres/store.go:113-139 | a query error if and only if the query fails; otherwise not found if and only if no row revokes the delegation, a decoding error if and only if the row last by record time and id does not decode, and else that row's record |
| StoresAgree.AlwaysAgreeIff | pkg/store/store.go:39-51 | of any submissions whatever: both stores' Get return the same record for every delegation after every batch if and only if what each delegation had last keeps the record it first came with, and no other cause for it first came later, or at that time with a greater id |
| StoresAgree.GetsAgreeIff | pkg/store/store.go:39-51 | where times tell the causes of a delegation apart, that is if and only if no cause is submitted again once superseded |
| StoresAgree.AgreeUnlessReturned | pkg/store/store.go:39-51 | they agree after every batch of such a history |
| StoresAgree.EachAgrees | pkg/store/memory/store.go:68-85 | submission by submission, the memory store's current record of a delegation is its latest row |
| StoresAgree.KnownIffRepeat | pkg/store/memory/store.go:70-74 | unless a cause returns, the memory store's repeat check and the primary key recognise the same revocations |
| StoresAgree.ReturnRestamps | pkg/store/memory/store.go:70-84 | the first submission that returns a cause is current in memory at its own time, while Postgres keeps the cause's strictly older row |
| StoresAgree.BatchRestamps | pkg/store/memory/store.go:68-85 | and so it is when the rest of its batch is stored |
| Submissions.StoredOnceIff | pkg/store/store.go:44-46 | every cause is stored once, keeping its first record, if and only if none is submitted again after another took its delegation |
| Submissions.ReturnsNoneIff | pkg/store/memory/store.go:70-74 | a submission returns nothing exactly when its cause is new or the repeat check recognises it |
| Submissions.BatchIsEach | pkg/store/memory/store.go:68-85 | a batch stores what adding each of its revocations at the same time does |
| Submissions.StoredCauses | pkg/store/memory/store.go:68-85 | the causes ever stored are those submitted |
| Submissions.HistoryInTime | pkg/store/memory/store.go:61-62 | when times are read in lock order, record times follow sequence numbers |
| MemoryStream.NoLostWakeup | pkg/store/memory/store.go:112-157 | in every interleaving a subscriber waiting with an empty slot has yielded every current record it asked for, and no sequence number is yielded to it twice |
| MemoryStream.NeverStuck | pkg/store/memory/store.go:135-155 | a subscriber that is not up to date can always take a step of its own |
| MemoryStream.YieldsInOrder | pkg/store/memory/store.go:159-173 | when record times are read in lock order, a subscriber is sent records in the order of both |
| MemoryStream.CauseYieldedOnce | pkg/store/memory/store.go:68-85 | when writers bring back no superseded cause, a cause is yielded to a subscriber at most once |
| MemoryStream.YieldedOnceIff | pkg/store/memory/store.go:70-74 | given what is submitted, no subscriber is ever yielded a cause twice if and only if none is submitted again once superseded |
| MemoryStream.YieldsAll | pkg/store/memory/store.go:135-155 | for any submissions, a run whose subscriber is yielded everything stored, repeats of returned causes included |
| MemoryStream.AllYieldedIff | pkg/store/store.go:52-57 | every subscriber from time zero that waits has been yielded everything ever stored, in every run that submits these, if and only if no delegation is revoked for two causes |
| MemoryStream.NextKeeps | pkg/store/memory/store.go:61-92 | every step of writers and subscribers keeps the invariant behind these |
| MemoryStream.AddKeepsHistory | pkg/store/memory/store.go:68-85 | a batch only appends to the history, and what it replaces is replaced by new entries alone |
| MemoryStore.Store.AddBatch | pkg/store/memory/store.go:48-93 | each error exactly when the code returns it and with nothing changed; otherwise the new records, and every subscriber's slot full |
| MemoryStore.Store.Put | pkg/store/memory/store.go:68-85 | the loop under the lock stores the batch and keeps the store valid |
| MemoryStore.Store.Notify | pkg/store/memory/store.go:86-91 | afterwards every slot is full, those that already were included |
| MemoryStore.Store.Get | pkg/store/memory/store.go:96-109 | the record that the agreement of the stores speaks of, unless the context is done |
| MemoryStore.Store.RecordsFrom | pkg/store/memory/store.go:159-173 | exactly the current entries past a sequence number that match `from`, sorted by time and number, with the number they are current to |
| MemoryStore.Store.Subscribe | pkg/store/memory/store.go:119-128 | a snapshot of everything, and a fresh subscriber with an empty slot |
| MemoryStore.FirstWithoutPath | pkg/store/memory/store.go:55-59 | the index of the first revocation without a path, if there is one |
| MemoryStore.Insert | pkg/store/memory/store.go:166-171 | sorted insertion by time and then sequence number keeps the entries and their order |
| EndToEnd.Delivery | pkg/client/client.go:218-281 | when writers read times in lock order and bring back no superseded cause, whatever they, the subscribers and the network do, the client never yields a cause twice, yields only stored records at or after `from` in time order, and at quiescence has yielded every current one |
| EndToEnd.WritersMakeOrder | pkg/store/memory/store.go:61-85 | what is asked of the writers makes every cause stored once and in time order, through the repeat check |
| MemoryDelivery.NeverMissesIff | pkg/store/store.go:52-56 | given what is submitted, no superseded cause again, no client ever misses a current record at quiescence, in any run from writers to bytes, if and only if no current entry was stored after an entry with a later time |
| MemoryDelivery.PassedIsMissed | pkg/store/memory/store.go:61-62 | for each such entry, a run with one reconnection that never gives the client its record |
| MemoryDelivery.InTimeIsInTurn | pkg/store/memory/store.go:61-62 | times read in lock order leave no such entry |
| MemoryDelivery.NextKeeps | pkg/client/client.go:236-249 | every step keeps the invariant behind that: what is later than an entry stored in turn is sent after it, and the client is not past it without having yielded it |
| FirehoseDelivery.FirehoseDelivers | pkg/fx/app.go:505-524 | delivery with the generated codec, over a JSON library that writes and reads back the records submitted |
| FirehoseDelivery.FirehoseNeverMissesIff | pkg/fx/app.go:505-524 | with the generated codec, what can be missed over the in-memory store depends on the order of the times submitted alone |
| FirehoseDelivery.FirehoseOnceIff | pkg/fx/app.go:505-524 | and over Postgres, on the delay of rows and the number of reconnections alone |
| FirehoseDelivery.CodecCarries | pkg/fx/app.go:552-558 | every record the library handles is printed on one line within MaxEventBytes and decoded back equal |
| EndToEnd.QuiescentIsComplete | pkg/store/memory/store.go:135-155 | once the subscriber waits, a client that has read all that was yielded to it misses no current record at or after `from` |
| EndToEnd.ReadingEmits | pkg/client/client.go:307-328 | from any prefix of a connection's bytes the client has emitted exactly the records that arrived whole, and sees no corruption |
| EndToEnd.NextKeeps | pkg/client/client.go:236-249 | every step of store, connection and client keeps the invariant behind these |
| Sse.Scanner.constructor | internal/sse/scanner.go:54-58 | a new scanner has everything its input holds still to report |
| Sse.Scanner.Scan | internal/sse/scanner.go:61-100 | the fields after each call, for an event, the end, and an event too long; what it reports and what remains make up what there was |
| Sse.ScanEverything | internal/sse/scanner.go:37-45 | the loop of its callers collects exactly the events of the whole input, and whether it ended too long |
| Sse.Next | internal/sse/scanner.go:70-97 | a call that reports an event or an error consumes at least one line |
| SseLimit.LimitIsExact | internal/sse/scanner.go:18-35 | an event with data is reported, whole and under its own type, if and only if its joined data is within MaxEventBytes |
| SseLimit.BlockOutcome | internal/sse/scanner.go:70-97 | from the middle of any event, its type and joined data alone decide the outcome |
| SseLimit.LayoutDoesNotMatter | internal/sse/scanner.go:23-30 | two layouts of the same type and data are read alike, whatever follows |
| SseLimit.ScanAfterFailure | internal/sse/scanner.go:61-64 | after either bound was exceeded, later calls report nothing and the error stays |
| SseBytes.LimitIsExactInBytes | internal/sse/scanner.go:23-34 | on bytes, with both bounds in force, the accumulated bound is always the one that decides |
| SseBytes.OverlongStops | internal/sse/scanner.go:115-119 | an event with a line past the line bound ends scanning with the one error |
| SseBytes.OverlongIsOverEvent | internal/sse/scanner.go:26-30 | a data line past the line bound is data past the event bound |
| SsePrinter.ScanPrinted | pkg/fx/app.go:505-524 | scanning any byte prefix of what was printed gives back exactly the messages that lie whole within it, in order, and no error |
| SsePrinter.PiecesRead | internal/sse/scanner.go:70-99 | a reader that reads each piece as its event whatever follows, and as nothing until it is whole, reads the first bytes of many as those that are whole |
| SsePrinter.RoundTrip | pkg/fx/app.go:519 | scanning all of it gives back every message |
| SsePrinter.CutReportsNothing | internal/sse/scanner.go:70-99 | nothing is reported of a message until its last byte has arrived |
| SsePrinter.WholeMessageScans | pkg/fx/app.go:519 | what follows a whole message is read as if it came first |
| SsePrinter.BlockCarries | pkg/fx/app.go:560-566 | a printed record or error carries its data and its type |
| SseReference.AgreesWithStandard | internal/sse/scanner.go:37-45 | on streams with LF or CRLF line ends and plain, short lines, the scanner reports the events the standard dispatches, or those before the first that is too long |
| SseReference.ReadLinesSplits | internal/sse/scanner.go:115-119 | on such streams it reads the lines the standard does |
| SseReference.TrimsSpace | internal/sse/scanner.go:80-82 | an event's type loses the white space around it, all of that and nothing else |
| SseStandard.PrintedForAnyone | pkg/fx/app.go:519 | a client written to the standard reads every printed message as its event, and has the id of the last record |
| SseReference.PlainIffSameReading | internal/sse/scanner.go:80-84 | the plain lines are exactly those that scanner and standard read alike |
| SseReference.NextAgrees | internal/sse/scanner.go:70-97 | one call agrees with the standard's buffers from the middle of any event |
| ClientResume.YieldsOnceIff | pkg/client/client.go:218-249 | whatever is received, a call yields no cause twice if and only if no cause is received again after another record time was |
| ClientResume.EmitTracks | pkg/client/client.go:228-249 | resume is the last time received, and seen the causes received since that time began |
| ClientResume.OnceAcrossReconnects | pkg/client/client.go:218-281 | over any number of interruptions each record is yielded once, in order, without gaps behind the resume point, and all of them once caught up |
| ClientResume.SeenIsYieldedAtResume | pkg/client/client.go:229-231 | seen is always exactly the causes yielded at the resume time |
| ClientResume.LateRecordRepeats | pkg/client/client.go:243-246 | without ordered publication a reconnection yields a record again |
| ClientResume.OnceIffOrdered | pkg/client/client.go:218-249 | two protocols compared: the one that publishes in record time order never yields a cause twice, the one that does not has a run that does |
| ClientResume.RepeatsIffBehind | pkg/client/client.go:243-249 | of any reachable state without a repeat so far: what is published already can still be yielded twice if and only if the client has gone back behind a record it yielded (one later than its resume time, or at it and no longer in seen), or its connection still has a record from before the resume time to send |
| ClientResume.NextKeeps | pkg/client/client.go:236-249 | every step of publishing, connecting, receiving and dropping keeps the invariant behind these |
| ClientStream.StreamCall.EmitRecord | pkg/client/client.go:237-249 | the callback skips, or moves resume and seen and yields, and tells when the consumer stops |
| ClientStream.StreamCall.StreamConn | pkg/client/client.go:288-329 | the decoded revocations of the body are emitted in order, all of them or up to the one the consumer stops at, and which of the four endings the connection has |
| ClientStream.ReadMeans | pkg/client/client.go:307-328 | the same of any events, in the middle of a call |
| ClientStream.StreamCall.ReadEvents | pkg/client/client.go:307-328 | the scanning loop, over whatever the scanner has yet to report |
| ClientStream.StreamCall.Stream | pkg/client/client.go:226-281 | the reconnect loop over any attempts, each answered at the resume time that the ones before it leave: the client has emitted the decoded revocations of them all, one connection after another, or those up to the record the consumer stops at; none before the last ends the call, and the last one tells why it returns |
| ClientResume.Stream | pkg/client/client.go:218-281 | the call itself yields no cause twice if and only if, in what it received, no cause comes again after another record time did |
| CallDelivery.RunIsCall | pkg/client/client.go:226-281 | every run of in-memory store, printer and network is such a call: its client is the one the call has after replies that are, each, as much of what was printed for stored entries as arrived |
| CallDelivery.NetRunIsCall | pkg/client/client.go:226-281 | so is every run of the Postgres firehose and the network, with replies printed for rows of its table |
| CallDelivery.CallReturns | pkg/client/client.go:226-281 | a call with those replies returns only when there is no attempt left, with that client |
| ClientStream.ConnectFailureIsFatalIff | pkg/client/client.go:261-271 | failing to connect ends a call if and only if it is the first thing that happens to it |
| ClientStream.CorruptIff | pkg/client/client.go:283-328 | with a consumer that keeps reading, a connection ends corrupt if and only if an event is too long or a revocation cannot be decoded, and is otherwise retried |
| Delegations.ByLink | cmd/swarf/revoke.go:127-130 | the map has the link of every delegation, and under it a delegation of that link |
| WitnessPath.BuildWitnessPath | cmd/swarf/revoke.go:126-171 | succeeds exactly for a direct revocation or when unique parents lead to a self-issued root without repeating, and returns that path; each error names what blocked it |
| WitnessPath.Walk | cmd/swarf/revoke.go:140-165 | terminates, with a walk that reached a root or the walk and the reason that blocked it |
| WitnessPath.BlockedMeans | cmd/swarf/revoke.go:147-162 | what blocks a walk: a witness nobody was the audience for, or more than one was, or a parent met before |
| WitnessPath.FindParent | cmd/swarf/revoke.go:147-156 | the only witness whose audience is the issuer, or that there is none, or several |
| WitnessPath.ReverseInPlace | cmd/swarf/revoke.go:166-169 | the swaps reverse the array |
| WitnessPath.WalkReversed | cmd/swarf/revoke.go:140-170 | the reversed walk is root first, linked, repeat-free and self-issued at its root alone |
| WitnessPath.WitnessIsOnlyChain | cmd/swarf/revoke.go:147-170 | no other linked chain to the revoked delegation has its root as its one self-issued member |
| WitnessPath.WitnessMeansUnblocked | cmd/swarf/revoke.go:147-162 | where a witness path exists no walk is blocked, so no error is returned |
| WitnessPath.ChainFollowsWalk | cmd/swarf/revoke.go:142-165 | any chain to the revoked delegation follows the walk as far as both go |
| RevokeServer.RevocationPath | pkg/fx/app.go:280-333 | succeeds exactly when some path is acceptable, with that path; a refusal names the check that failed |
| RevokeServer.Check | pkg/fx/app.go:280-333 | the checks in their order, each with the reason it gives |
| RevokeServer.MayRevokeIff | pkg/fx/app.go:280-333 | what is accepted, in terms of the delegations carried: direct and valid, or in the named order a linked chain of valid tokens from a self-issued root, each with the root's subject or none, one of them issued by the revoker |
| RevokeServer.RefusedMeans | pkg/fx/app.go:280-333 | each reason for a refusal, in the same terms |
| RevokeServer.ValidPathIff | pkg/fx/app.go:352-375 | the path check passes exactly those chains |
| RevokeServer.Resolve | pkg/fx/app.go:304-311 | the delegations the argument path names, or the first index that is missing |
| RevokeServer.ValidateRevocationPath | pkg/fx/app.go:352-375 | no fault exactly for a non-empty, self-issued, linked chain of valid tokens with fitting subjects; a fault is the first there is |
| RevokeServer.AcceptedOrRefused | pkg/fx/app.go:280-333 | no request is both acceptable and refusable, and the stored path is determined |
| RevokeServer.AcceptedIsSound | pkg/fx/app.go:318-330 | whatever is accepted holds an issuer equal to the revoker from which a linked chain of valid tokens leads to the revoked delegation |
| Acceptance.AcceptedIff | cmd/swarf/revoke.go:60-80 | publishing what the search found is accepted if and only if every token on it is valid, every later subject is the root's or undefined and the revoker issued one of them; the stored path is the found one |
| Acceptance.Revoke | cmd/swarf/revoke.go:60-80 | the whole flow: when it finds a path, and the service's verdict on it |
| Acceptance.PublishFound | cmd/swarf/revoke.go:77-80 | publishing a found path is accepted exactly when the path is acceptable, and what is stored is the found path |
| Acceptance.Publish | pkg/client/client.go:90-101 | the request that is sent |
| Acceptance.PublishedNames | pkg/client/client.go:90-101 | that request carries and names exactly the found path, and names none for a direct revocation |
| Acceptance.RevokedIsOptional | pkg/client/client.go:91-93 | giving the revoked delegation at the end of the witness path makes no difference |
| Validations.BoundedConcurrency | pkg/fx/app.go:205-227 | over every schedule, panicking goroutines included, at most 16 validations run at once |
| Validations.JoinedIsSequential | pkg/fx/app.go:210-255 | once joined every slot is released and the results are those of validating in item order: the path or the very error that revocationPath returned, and errValidationPanicked if and only if it panicked |
| Validations.NeverStuck | pkg/fx/app.go:216-225 | no schedule deadlocks |
| Validations.RunsAreBounded | pkg/fx/app.go:218-225 | every schedule terminates, in at most four steps an item and one more |
| BatchRoute.RevokeRoute | pkg/fx/app.go:174-203 | one write, of exactly the items that validated in item order; success for those alone and only after it; the failures of the others; nothing stored and no success when the write fails, by cancellation, encoding or the statement |
| BatchRoute.Collect | pkg/fx/app.go:177-188 | the batch and the failure receipts, or the first failure that could not be issued |
| BatchRoute.Acknowledge | pkg/fx/app.go:196-200 | success for each item of the batch, up to the first that cannot be set |
| BatchRoute.ConcurrentIsValidated | pkg/fx/app.go:176 | whatever the schedule, an item goes on as valid if and only if its validation did not panic and some path of it is acceptable; one that is refused keeps the reason that applies to it |
| BatchRoute.BatchHoldsAll | pkg/fx/app.go:177-188 | the batch holds each valid item, under its own cause and with its own path, and nothing else |
| BatchRoute.ReceiptsMean | pkg/fx/app.go:177-203 | an item that failed has its own failure; a valid one has success once all are acknowledged, and nothing before |
| BatchRoute.BatchIsSound | pkg/store/store.go:40-43 | each stored path ends in the delegation its invocation names and proves its issuer's authority over it |
| DagJson.Writer.Marshal | pkg/api/json_gen.go:283-395 | null for a nil receiver; otherwise it succeeds exactly for the values within its bounds and the room there is, having written all of their tokens; on an error, of a bound or of the writer, it has written a proper beginning of them |
| DagJson.Writer.MarshalPath | pkg/api/json_gen.go:333-344 | the elements with commas between them, up to the first that does not fit or cannot be written |
| DagJson.Reader.Unmarshal | pkg/api/json_gen.go:396-527 | the decoder's loop over fields comes to the function that `DagJsonReading.DecodesIff` characterises |
| DagJson.Reader.ReadNext | pkg/api/json_gen.go:418-527 | one turn of that loop: a field and what separates or closes, and how the rest goes on from there |
| DagJson.Reader.ReadField | pkg/api/json_gen.go:418-511 | one name and value, known or discarded |
| DagJson.Reader.ReadPath | pkg/api/json_gen.go:460-483 | the elements of a path, within its bound |
| DagJsonRoundTrip.RoundTrip | pkg/api/json_gen.go:23-527 | every value either encoder accepts is decoded back equal, a path of 8192 entries included |
| DagJsonRoundTrip.PresentedIsDecoded | pkg/api/json_gen.go:396-527 | so is any object that presents the value with its fields permuted and unknown fields among them, whose values need only close their brackets, up to 8192 in all |
| DagJsonRoundTrip.DecodesObject | pkg/api/json_gen.go:396-527 | any object of known and unknown fields is decoded by applying them in turn, and refused exactly when it has too many fields or too long a path |
| DagJsonRoundTrip.DiscardsValue | pkg/api/json_gen.go:506-510 | discarding an unknown field skips exactly its value, however nested |
| DagJsonReading.DecodesIff | pkg/api/json_gen.go:396-527 | an input is decoded, to a given value, if and only if it begins with an object of fitting fields within the bounds whose fields, applied in turn, make that value |
| DagJsonReading.CutOffIsRefused | pkg/api/json_gen.go:400-404 | an object cut off after any of its tokens but the last is refused |
| DagJsonReading.WrongKindIsRefused | pkg/api/json_gen.go:418-503 | so is an object with a known field whose value is of the wrong kind, whatever is around it |
| DagJsonRoundTrip.FirehoseFits | internal/sse/scanner.go:33 | with CIDs of at most 500 bytes and times of at most 100, every encodable firehose record fits MaxEventBytes |

## Left out

- HTTP, Echo routing, CORS, fx wiring, configuration, migrations, logging and response flushing: plumbing over libraries.
- Signature checks, DID resolution and `validator.ValidateToken`: an uninterpreted verdict on each delegation, constant for a request.
- CID and CBOR encoding of delegations and invocations: a link names one delegation (`Delegations.LinksName`), and whether something can be encoded or decoded is an input.
- The SQL engine and pgx: one-statement snapshots, conflict-do-nothing on the primary key, ordering and array slicing only.
- The clock: it never runs back, and the database's `now()` is the one every row's record time comes from.
- `bufio.Scanner` internals: a line reader with a length limit that stops for good at the first line past it; read errors other than that end the input.
- RFC 3339 formatting and parsing of times, clock precision, poll interval, back-off growth and jitter: times are integers, sleeps are steps.
- Wrap-around of the `uint64` sequence and subscriber numbers of the in-memory store: they are unbounded here.
- Copying of records and slices (`copyRecord`, `slices.Clone`): records are values, so aliasing is not modelled; nor is the zero-value `Store` whose maps are nil.
- Unicode white space: `strings.TrimSpace` is modelled for ASCII white space.
- SseReference.AgreesWithStandard: neither side strips a byte order mark, and agreement is stated where a carriage return ends a line, before a line feed or at the end; elsewhere the scanner takes it for part of the line.
- Consumers that stop and queries that fail in the transition system of `PostgresStream`: they end a stream, as any prefix of a run may.
- The delay between the database's record time and a row's visibility: one bound for all rows, an input of every result about it.
- Cancellation of an in-memory subscriber: it may leave at any step, without the final error it is given.
- Columns of a row other than its id and record time in `PostgresStream`: they travel with the row.
- The text level of DAG-JSON: tokens are what the reader and writer library hands over; an undefined CID is taken as one the writer refuses.
- EndToEnd.Delivery: as in `MemoryDelivery` and `PostgresDelivery`, the codec is any pair of functions that keeps a record to one printable line and reads it back (`Carries`), as `FirehoseDelivery` shows of the generated one; over the in-memory store, record times are not before time zero.
- FirehoseDelivery.FirehoseDelivers: the text of single tokens is the JSON library's, assumed to be on one line, within 500 bytes for a CID and 100 for a time, and read back as written; a decoded record without one of its links, which an object that omits the field makes, is taken as undecodable.
- DagJson.Writer.Marshal: the underlying writer fails between tokens, after any number of them; the text of a token cut short is not modelled.
- Receipt contents, their expiry, and the failures the dispatcher issues for an error the handler returns.
- Publish's nil checks, signing and transport, `PublishBatch`, the client's `Get`, and the `get` and `stream` commands: thin wrappers.
- Go's map iteration order: loops over maps pick any remaining key.
