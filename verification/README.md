# FProto delivery core, in Dafny

A model of the server side of FProto, with proofs that hold over every run of it. A message is routed to
a Kafka topic and written to an outbox table. A relay polls the outbox and publishes to topic logs. A sync
service consumes the logs, removes duplicates through Redis and stores messages in per-user inboxes. A
reconnecting client pages through its inbox. Beside this pipeline the project models sessions, group sender
keys, the receive queue of the WebSocket transports, QUIC framing, the connection pool and reconnect backoff.

`dafny verify dfyconfig.toml` checks everything.

## How it is built

The outbox with its relay (`Outbox`, `OutboxRuns`) and the sync service with any number of concurrent workers
(`Sync`) are step systems. Each step is one call to the database, the broker or Redis. It succeeds or has no
effect; the relay may crash and a worker may die between any two steps; records are redelivered in any order
and any number of times; dedup keys expire at any moment. `Pipeline` interleaves the two systems freely.

The code itself is imperative and is modelled so: `RelayService`, `Handler`, `Offline`, `Session`, `WsQueue`,
`Quic` and `Pool` have classes whose methods update fields, each proved against a function on values.
`PollIsRun`, `OutRunIsRun` and `HandleIsRun` then show that whatever these methods do is a run of the step
systems, so every theorem about runs is a theorem about them.

The outcome of each external call, the clock, random draws and map iteration order are parameters, and every
result holds for all of them. `SELECT … ORDER BY created_at LIMIT n` is a relation (`TimeQuery.IsPage`): rows
of equal time come in any order.

A message is carried as a value, so marshalling is the identity. Proto3 does not tell empty bytes from absent
ones and the generated code yields nil for both, so a NOT NULL column filled from an empty field refuses the
insert.

## What is proved

- **Outbox.** In every run rows are never lost, rewritten or reopened. The copies of a row in its topic log are
  exactly one if it is published or sent and about to be marked, plus one for every mark that was lost
  (`ExactAccounting`). A row is dead-lettered only after five failed publishes. While only topic sends fail, a
  bounded number of polls settles every row exactly once, in one of the two logs (`EachRowEndsOnce`).
  A row can end in both logs; `InBothLogsIff` says exactly when, by the marks that were lost.
- **Order.** While no publish fails, rows are published in creation order across polls, inserts and crashes
  (`PublishedInCreationOrder`, with ties `PublishedInTimeOrder`). Whatever fails, a poll keeps the published rows
  a prefix if and only if no publish succeeds after a failed one or behind a dead-lettered row
  (`PollKeepsOrderIff`).
- **Pipeline.** Each inbox row comes from exactly one accepted message and goes to the recipient that message
  names, and no user has a message twice. Inserts and pushes are counted exactly over every run, so that a
  message is stored if and only if fewer inserts were lost or are under way than its key was taken (`StoredIff`).
  An accepted deliverable message is always waiting, dead-lettered, in flight or in its inbox, except exactly
  when every insert begun under its live key was lost (`NothingIsLost`, `LostIffEveryInsertLost`).
- **Dedup cache.** The cached handler equals one without a cache after every delivery if and only if no delivery
  is hidden by a key without a row (`TransparentIffNothingHidden`).
- **Backfill.** While workers add rows to the inbox, pages never repeat a row and come in time order, and of all
  rows asked for exactly those tied with the end of a page that lacks them are missed (`HandsOverAllButTies`). On an inbox that does
  not change, the backfill is complete if and only if no two rows of equal time sit on two sides of a page
  boundary: from a known cursor among the later rows (`CompleteIffBoundariesClean`), from an empty one first
  among the undelivered rows and then among all later ones (`CompleteFromStartIff`).
- **Sessions, keys, transports.** See the table.

## Where the code does not do what one may expect

- The dedup key is taken before the inbox insert, so an insert error strands the message until the key expires
  (`StrandedUntilExpiry`). `docs/LLD.md:605-612` sets the key after the insert, for 30 days; the code sets it
  first, for 48 hours. The model follows the code.
- Signaling messages are routed to user topics but have no sender, which the inbox requires, so no inbox ever
  holds one (`SignalingIsNeverDeliverable`). The same holds for group chats that name no recipient.
- A publish whose mark fails counts as failed, so a row can be in its topic log, even five times, and in the
  dead-letter log (`SentFiveTimesAndDeadLettered`).
- `docs/Data-Flows.md:438` locks the fetched rows with FOR UPDATE SKIP LOCKED. The code takes no lock, so the
  model has one relay.
- Rows created at the same instant on two sides of a page boundary are missed by the backfill, and for every page
  size there are runs that lead to such an inbox (`TieFromStartIsReachable`, `TieAfterCursorIsReachable`).
- A connection registered twice under one id is counted twice in the number returned. Registrations that overlap
  can exceed the maximum (`OverlapExceedsMaximum`).
- The index of a user's sessions lists expired ones (`IndexedIff`), and connections outlive their session
  (`ConnectionsOutliveSession`), since only the session's own hash has a time to live.
- A destroyed session whose PostgreSQL row could not be deleted is found by `GetSession` ever after
  (`DestroyedMayLinger`, `DestroyedIsFound`).
- A record that was handled without error, and so marked as consumed, need not be stored
  (`WhenSuccessMeansStored`, `CacheHidesRedelivery`).
- Decrypting panics on a public key that is not 32 bytes long, which is not checked when it is distributed, and on
  a validly signed message with a nonce that is not twelve bytes long, the signature covering the ciphertext
  alone (`SurvivesIff`, `CutNonceIsNotSurvived`). Encrypting panics on a private key that is not 64 bytes long
  (`SendsAllIff`).
- A QUIC write that reports an error may have delivered its message (`WriteThenRead`, `FailedWriteDelivers`).
- A session that has ended, even one that logged out, becomes active again if a transition to a live status had read
  the status before and writes after (`RevivedIff`, `PacketRevivesExpired`).
- The first reconnect wait is not capped by the maximal delay.
- The TypeScript SDK's transport has no close handler, so its waiting reads stay pending.

## Model

| member | source | states |
|---|---|---|
| Hex.HexDecode | server/internal/sync/handler.go:113-122 | the scanning loop returns every scanned pair, or an error exactly if some pair does not scan |
| Hex.DecodesIff | server/internal/sync/handler.go:113-122 | exactly which strings decode and to which bytes: two digits of either case, a digit before anything else, or a digit after a blank; an odd last character is ignored |
| Hex.DecodeEncode | server/internal/sync/handler.go:113-122 | decoding undoes the lowercase encoding of topic names for all byte strings |
| Hex.EncodeDecode | server/internal/sync/handler.go:113-122 | encoding undoes the lenient decoder on exactly the even-length lowercase hex strings |
| Topics.TopicsInjective | server/internal/kafka/topics.go:28-35 | two users, or two groups, share a topic only if they are the same |
| Topics.TopicsDisjoint | server/internal/kafka/topics.go:20-35 | user, group and static topics never clash, and the static ones are those the sync service does not consume |
| Router.UnroutableIff | server/internal/dispatcher/router.go:18-108 | exactly which messages are refused by routing, in one condition over all bodies |
| Router.RouteThenExtract | server/internal/sync/handler.go:80-111 | extraction recovers what routing encoded: the partition key as recipient on user topics, the group as conversation; only chats and signaling reach consumed topics; nothing routes to dead-letter |
| Router.StaticRoutes | server/internal/dispatcher/router.go:18-95 | "commands" if and only if a command, "media-events" if and only if media, "events" if and only if a sender key or another body, with the partition key of each |
| Router.ConversationIsTopic | server/internal/sync/handler.go:103-111 | the conversation of anything but a chat is the name of its topic |
| Router.SignalingHasNoSender | server/internal/sync/handler.go:96-101 | a routed signaling message has its recipient but never a sender |
| TimeQuery.Select | server/internal/outbox/store.go:49-52 | an answer to ORDER BY created_at LIMIT: distinct, sorted, as many rows as allowed, none left out earlier than one returned |
| TimeQuery.PageIsWhole | server/internal/outbox/store.go:49-52 | a page leaves out a row only when its limit is reached |
| Outbox.InvStep | server/internal/outbox/relay.go:49-84 | every call of dispatcher and relay keeps the invariant, only adds or advances rows, and only appends to the logs |
| Outbox.AccountStep | server/internal/outbox/relay.go:49-84 | each call changes a row's copies, dead-letter copies and retry counter by exactly the marks and increments lost at it |
| Outbox.RecordsApart | server/internal/outbox/relay.go:67-84 | records of different rows differ, and no topic record is a dead-letter record |
| OutboxRuns.RunKeepsInv | server/internal/outbox/relay.go:49-84 | over every run accepted rows keep their message, a published or failed row never changes again, logs only grow |
| OutboxRuns.StatusMeansLogged | server/internal/outbox/relay.go:67-84 | a published row is in its topic log under its key, a failed one in the dead-letter log keyed by its topic |
| OutboxRuns.ExactAccounting | server/internal/outbox/relay.go:56-83 | copies in a log are the row's status plus the marks lost; the retry counter is the failed publishes less the lost increments |
| OutboxRuns.DeadLetteredAfterFiveFailures | server/internal/outbox/relay.go:57-62 | no row is in the dead-letter log before five of its publishes failed |
| BothLogs.InBothLogsIff | server/internal/outbox/relay.go:56-84 | over every run a row is in both logs if and only if it was sent and dead-lettered, counted by marks made, to come and lost; a failed row exactly if a publish mark was lost, a published one exactly if a failure mark was |
| BothLogs.SentFiveTimesAndDeadLettered | server/internal/outbox/relay.go:56-84 | for every acceptable message, a run that leaves it exactly five times in its topic log, once in the dead-letter log, and failed |
| RelayService.Store.Insert | server/internal/outbox/store.go:41-47 | appends one pending row, unless the call fails, a required field is missing or the message id is taken; then nothing changes |
| RelayService.Store.FetchPending | server/internal/outbox/store.go:49-71 | returns a page of the pending rows by creation time |
| RelayService.Store.MarkPublished | server/internal/outbox/store.go:73-79 | sets one row's status and nothing else |
| RelayService.Store.MarkFailed | server/internal/outbox/store.go:81-85 | sets one row's status and nothing else |
| RelayService.Store.IncrementRetry | server/internal/outbox/store.go:87-91 | adds one to one row's counter and nothing else |
| RelayService.Producer.SendTo | server/internal/kafka/producer.go:32-51 | appends one record, or nothing on an error |
| RelayService.Dispatcher.DispatchMessage | server/internal/dispatcher/dispatcher.go:23-46 | succeeds exactly on routable messages with a fresh id, a key and no database error, and then appends the one pending row; an error leaves the table alone |
| RelayService.Relay.Publish | server/internal/outbox/relay.go:67-73 | sends and then marks; an error of the mark leaves the record in the log and the row pending |
| RelayService.Relay.SendToDeadLetter | server/internal/outbox/relay.go:75-84 | marks failed only after the dead-letter send went through |
| RelayService.Relay.PollEntry | server/internal/outbox/relay.go:56-64 | what it adds to which log and what becomes of the row, for all outcomes: dead-lettered on the fetched counter even if counting fails |
| RelayService.Relay.Poll | server/internal/outbox/relay.go:49-65 | the loop over a fetched batch does what processing the batch entry by entry does, for all outcomes |
| RelayService.PollIsRun | server/internal/outbox/relay.go:49-84 | every poll, with any failures, is a run of the step system ending idle |
| Drain.PollDrops | server/internal/outbox/relay.go:49-65 | a poll lowers the measure of remaining attempts by at least the rows fetched, and fetches some if any is pending |
| Drain.OutboxDrains | server/internal/outbox/relay.go:49-65 | with only topic sends failing, nothing is pending after as many polls as the measure |
| Drain.PollSettles | server/internal/outbox/relay.go:49-84 | such a poll adds a copy of a row exactly when it settles it, in the log its new status names |
| Drain.EachRowEndsOnce | server/internal/outbox/relay.go:49-84 | after those polls each pending row gained exactly one record, in one of the two logs, matching its status; settled rows gained none |
| Order.PublishedInCreationOrder | server/internal/outbox/store.go:49-52 | without failed publishes the published rows are a prefix in creation order and the log is that prefix up to crash repeats |
| TimeOrder.PublishedInTimeOrder | server/internal/outbox/store.go:49-52 | with any ties in creation time, records enter the logs by creation time and no pending row is older than a sent one, while no publish fails |
| Order.LogIsPublishedPrefix | server/internal/outbox/store.go:49-52 | without crashes too the log is exactly the published prefix and the row about to be marked |
| Order.FailureBreaksOrder | server/internal/outbox/relay.go:56-64 | an instance: an entry with retries left that fails, and the next one going through, publish a later row first |
| PollOrder.PollKeepsOrderIff | server/internal/outbox/relay.go:49-84 | for any fetch and any outcomes the published rows stay a prefix if and only if no publish succeeds after a failed one or for a row behind a dead-lettered one |
| PollOrder.OrderSurvivesIff | server/internal/outbox/relay.go:49-84 | with nothing dead-lettered yet, if and only if no publish succeeds after a failed one |
| PollOrder.PublishedAfter | server/internal/outbox/relay.go:56-73 | a row is published after a poll if and only if it was before or its own publish succeeded |
| Sync.DedupKeyInjective | server/internal/sync/dedup.go:23-27 | different deliveries never share a Redis key |
| Sync.DedupKeyIs | server/internal/sync/dedup.go:23-27 | the key as it is spelled |
| Sync.SyncInvStep | server/internal/sync/handler.go:31-78 | every step of every worker keeps inbox uniqueness and provenance and pushes only stored messages; the inbox only grows |
| Sync.CacheStep | server/internal/sync/dedup.go:29-36 | a live key keeps a row, or a worker about to insert it, at every step but one that loses the insert |
| Sync.PushBalanceStep | server/internal/sync/handler.go:67-75 | each step changes the balance of pushes by exactly the expirations and lost pushes |
| Sync.InsertBalanceStep | server/internal/sync/handler.go:43-65 | each step changes the balance of inserts under way by exactly the expirations, lost inserts and made inserts |
| Sync.UpsertStores | server/internal/inbox/store.go:42-49 | after an insert the message is stored, no earlier row is touched, and no other key becomes stored |
| Pipeline.OutPart | server/internal/outbox/relay.go:49-84 | the outbox's part of a pipeline run is a run of the outbox with the same counts |
| Pipeline.OutRunIsRun | server/internal/outbox/relay.go:49-84 | every run of the outbox is a run of the pipeline that leaves the sync service alone |
| Pipeline.PipeRunKeepsInv | server/internal/sync/handler.go:31-78 | every interleaving keeps both invariants and only adds inbox rows |
| Pipeline.EveryInboxRowHasOneSource | server/internal/sync/handler.go:55-65 | each inbox row has exactly one outbox row as source, same id and payload, the named recipient, sender and conversation; no user has a message twice |
| Pipeline.DirectChatsAreDeliverable | server/internal/dispatcher/router.go:42-62 | every accepted one-to-one chat with a sender can be delivered to its recipient |
| Pipeline.LiveKeyHasRow | server/internal/sync/handler.go:43-65 | in every run a live key whose insert was never lost has its row or a worker about to insert it |
| Pipeline.NothingIsLost | server/internal/sync/handler.go:31-78 | without a lost insert each deliverable message waits, is dead-lettered, is in its log ready to be handled, or is in its inbox |
| Pipeline.InExactlyOnePlace | server/internal/sync/handler.go:31-78 | if no mark was lost either, in exactly one of the four |
| Pipeline.StoredIff | server/internal/sync/handler.go:43-65 | over every run made, lost and coming inserts equal the times the key was taken; a message is stored if and only if lost and coming ones are fewer |
| Pipeline.LostIffEveryInsertLost | server/internal/sync/handler.go:43-65 | over every run a deliverable message is in none of the four places if and only if it was sent, its key is live, nobody is inserting, and lost inserts are one more than expirations |
| Pipeline.FailedInsertStrands | server/internal/sync/handler.go:43-65 | one failed insert suffices: a run that strands any waiting message |
| Pipeline.WaitingCanBeStored | server/internal/sync/handler.go:31-65 | a message in its log with its key free is stored by the next worker that handles it |
| Pipeline.UndeliverableIsNeverStored | server/internal/sync/handler.go:37-65 | a message that is not deliverable is in no inbox in any run, so that condition is exact |
| Pipeline.SignalingIsNeverDeliverable | server/internal/sync/handler.go:96-101 | every accepted signaling message is consumed, has a recipient, and cannot be stored |
| Pipeline.StrandedUntilExpiry | server/internal/sync/handler.go:43-65 | a stranded message stays out of the inbox over every run in which its key does not expire |
| Pipeline.PushesAreBounded | server/internal/sync/handler.go:67-75 | pushes made, pending and lost equal the key's expirations plus one if it is live; each push has its inbox row |
| Pipeline.EveryPushIsInInbox | server/internal/sync/handler.go:67-75 | in every run whatever was pushed to a user is, unchanged, a message in the inbox of that user |
| Handler.SyncHandler.IsDuplicate | server/internal/sync/dedup.go:29-36 | tests and takes the key at once, or changes nothing on an error |
| Handler.SyncHandler.InsertInbox | server/internal/inbox/store.go:42-49 | refuses missing required fields; appends the row exactly if no row has the same user and message |
| Handler.SyncHandler.Handle | server/internal/sync/handler.go:31-78 | the whole new state for all outcomes; an error exactly if there is a recipient and the dedup check fails or the key is free and the insert fails; nothing at all without a recipient |
| Handler.GroupChatIsSkipped | server/internal/sync/handler.go:37-41 | in every run an accepted group chat without a recipient is handled without error and without effect, whatever the calls and the stores |
| Handler.WhenHandledIsStored | server/internal/sync/handler.go:31-65 | after handling, the message is stored if and only if it was before, or its key was free and the insert went through |
| Handler.WhenSuccessMeansStored | server/internal/sync/handler.go:31-78 | after a call without error the message is stored if and only if it was before or its key was free; after an error, if and only if it was before |
| Handler.HandleIsRun | server/internal/sync/handler.go:31-78 | whatever handling a record does is a run of the pipeline |
| Handler.CacheIsTransparent | server/internal/sync/handler.go:43-65 | if no attempted insert fails, any deliveries leave the inbox of a handler without a cache |
| Handler.TransparentIffNothingHidden | server/internal/sync/handler.go:43-65 | the two inboxes agree after every delivery if and only if no delivery is hidden by a live key without a row |
| Handler.CacheHidesRedelivery | server/internal/sync/handler.go:43-65 | one failed insert makes a redelivery disappear, without an error, that a handler without a cache stores |
| Offline.ReachableInboxIsTable | server/internal/inbox/store.go:10-25 | every reachable inbox has present and per-user unique message ids |
| Offline.TrimmedPage | server/internal/sync/offline.go:33-52 | fetching one row more and cutting it off gives a page and tells exactly whether rows remain |
| Offline.OfflineSync.GetUndelivered | server/internal/inbox/store.go:52-57 | a page of the user's undelivered rows |
| Offline.OfflineSync.GetAfterMessageID | server/internal/inbox/store.go:68-76 | a page of the user's rows later than the cursor's row; nothing for an unknown cursor |
| Offline.OfflineSync.GetMissedMessages | server/internal/sync/offline.go:33-52 | one page of what the cursor asks for, and whether more remain |
| Offline.OfflineSync.GetMissedMessagesPaginated | server/internal/sync/offline.go:55-73 | terminates if finitely many rows are added meanwhile; its pages answer the successive cursors; it stops exactly at the first failing query or callback; without one the last request is exhausted |
| Offline.CursorAdvances | server/internal/sync/offline.go:55-73 | each page moves the cursor on and leaves strictly fewer rows |
| Offline.PagesInOrder | server/internal/sync/offline.go:55-73 | no row twice, time order across pages, all pages but the last full, also when interrupted |
| Offline.HandsOverAllButTies | server/internal/sync/offline.go:55-73 | any row, there at the start or added meanwhile, is handed over if and only if some request asked for it and it is not tied with the end of a page that lacks it |
| Offline.BackfillIsExact | server/internal/sync/offline.go:55-73 | with distinct times a known cursor yields each later row there was at the start once, and otherwise only later rows added meanwhile |
| Offline.BackfillCoversUndelivered | server/internal/sync/offline.go:55-88 | with distinct times an empty cursor yields every row undelivered at the start once, and only rows of the user |
| Offline.BackfillAll | server/internal/sync/offline.go:18-88 | as set up by default, with no failing call and distinct times: from a row exactly the later rows of the user; from no row all rows not delivered, and on the first page only such |
| Offline.UnknownCursorGetsNothing | server/internal/inbox/store.go:68-76 | a cursor that names no row of the user gets no page |
| OfflineTies.CompleteIffBoundariesClean | server/internal/sync/offline.go:55-73 | from a known cursor the backfill is complete if and only if no two rows of equal time sit on two sides of a page boundary |
| OfflineTies.CompleteFromStartIff | server/internal/sync/offline.go:55-88 | from an empty cursor it hands over all undelivered rows and all later ones if and only if the first boundary is clean in the undelivered rows and the others in all rows after it |
| ReachableTies.AnyInboxIsReachable | server/internal/sync/handler.go:31-78 | for every user and every list of times there is a run of dispatches, polls and handled records that leaves one row for each in the inbox |
| ReachableTies.TieFromStartIsReachable | server/internal/sync/offline.go:55-88 | for every page size there is a run after which every finished backfill from an empty cursor misses a row |
| ReachableTies.TieAfterCursorIsReachable | server/internal/sync/offline.go:55-73 | and one after which the same holds from the cursor of an earlier row |
| Session.WalkEndsAtExpired | proto-core/session/machine.go:46-77 | nothing follows expired and nothing returns to connecting |
| Session.Manager.CreateSession | proto-core/session/manager.go:23-52 | a connecting session in Redis, index and PostgreSQL; a PostgreSQL error is reported with the session already live |
| Session.Manager.GetSession | proto-core/session/manager.go:55-61 | Redis first, PostgreSQL otherwise |
| Session.Manager.TransitionSession | proto-core/session/manager.go:64-99 | moves along the table in both stores and keeps user and device; exactly when it returns an error, and then nothing changes; a destroyed session leaves Redis |
| Session.Manager.RegisterConnection | proto-core/session/manager.go:113-126 | never exceeds the maximum; the number returned is right if and only if the connection id is new, and always right with the refusal at the maximum |
| Session.Manager.UnregisterConnection | proto-core/session/manager.go:129-131 | removes one connection of one session and nothing else |
| Session.EverySessionIsAWalk | proto-core/session/manager.go:23-99 | over every run with failing stores and expiring hashes a session's statuses are a walk of the table ending at the current one, which is reported while Redis has it; any reported status was held; live sessions are indexed |
| Session.SessionKeepsOwner | proto-core/session/manager.go:23-99 | over every run a session that is reported, from either store, has the user and device it was created for |
| Session.MirrorIsCurrent | proto-core/session/manager.go:64-99 | without a failed mirror call PostgreSQL holds exactly the live session's row |
| Session.DestroyedMayLinger | proto-core/session/manager.go:55-85 | over every run, at any later moment a destroyed session is found if and only if its PostgreSQL row was there and not deleted, and then as connecting |
| Session.GoneStaysGone | proto-core/session/manager.go:23-99 | over every run a session gone from Redis never returns there or to an index, and its PostgreSQL row is left alone |
| Session.DestroyedIsFound | proto-core/session/manager.go:75-83 | a run of two calls after which a destroyed session is found |
| Session.SessionsAreIndependent | proto-core/session/manager.go:23-99 | over every run the stores hold of a session, its rows and its connections, what its own steps alone would have left |
| SessionOverlap.RevivedIff | proto-core/session/manager.go:64-99 | with transitions whose read and write overlap in any way, an ended session can come back if and only if one to a live status was under way when it ended |
| SessionOverlap.PacketRevivesExpired | proto-core/session/manager.go:64-99 | accesses by which a logged-out session becomes active again |
| SessionOverlap.AloneIsFired | proto-core/session/manager.go:64-99 | a transition nothing comes between moves the status as in the runs of whole operations |
| SessionIndex.IndexedIff | proto-core/session/manager.go:133-136 | over every run the index lists a session if and only if its hash was written and it was not destroyed; the session is gone if and only if it has expired as well |
| Connections.RegisteredIff | proto-core/session/redis_store.go:121-137 | over every run a connection is registered if and only if it was added and since then neither unregistered nor its session destroyed |
| Connections.ConnectionsOutliveSession | proto-core/session/redis_store.go:44-48 | a run after which the session has expired and its connection and index entry remain |
| Connections.ConnectionsStayBounded | proto-core/session/manager.go:113-126 | over every run with at most m registrations of a session under way it has at most the maximum and m - 1 more connections |
| Connections.OverlapExceedsMaximum | proto-core/session/manager.go:113-126 | two overlapping registrations one below the maximum exceed it |
| Connections.RegisterIsRun | proto-core/session/manager.go:113-126 | a registration nothing comes between is a run that stores the one connection |
| Session.Manager.DeleteFromRedis | proto-core/session/redis_store.go:100-111 | removes the hash, the connections and the index entry and nothing else |
| SenderKeys.RatchetN | server/internal/senderkeys/ratchet.go:18-27 | the loop ends at the n-th chain key and fills in the n message keys in order |
| SenderKeys.KeysAreDerived | server/internal/senderkeys/ratchet.go:8-27 | the chain and message keys through the hash with the labels "ratchet" and "message" |
| SenderKeys.MessageKeysAreNotChainKeys | server/internal/senderkeys/ratchet.go:8-15 | with labels that give different keys, no message key is a chain key that follows, at any distance |
| SenderKeys.RatchetSplits | server/internal/senderkeys/ratchet.go:11-27 | a + b steps are a steps and then b more, for chain and keys |
| SenderKeys.ReceiverIsInStep | server/internal/senderkeys/decrypt.go:12-30 | after any stream whatever a receiver is as many steps along as messages it accepted |
| SenderKeys.ForgeriesAreIgnored | server/internal/senderkeys/decrypt.go:12-16 | wrongly signed messages change nothing, anywhere in any stream, if and only if the public key is 32 bytes, or there is no message or a signed one |
| SenderKeys.SurvivesIff | server/internal/senderkeys/decrypt.go:12-27 | a stream is received without a panic if and only if it is empty, or the public key is 32 bytes and every validly signed message has a nonce of twelve bytes and a ciphertext within the limit |
| SenderKeys.CutNonceIsNotSurvived | server/internal/senderkeys/decrypt.go:12-27 | for every message: received as sent, not survived with its nonce cut or with a public key of the wrong size |
| SenderKeys.RejectedIsIgnored | server/internal/senderkeys/decrypt.go:12-30 | any message refused at its place can be inserted there without effect |
| SenderKeys.DecryptConcat | server/internal/senderkeys/decrypt.go:12-30 | receiving two streams in turn is receiving their concatenation, a panic in the first ending both |
| SenderKeys.EncryptedRoundTrip | server/internal/senderkeys/encrypt.go:21-43 | decrypting what was encrypted, up to a panic if there is one, yields the texts in order and the same final chain key, for every signing key |
| SenderKeys.MessagesAre | server/internal/senderkeys/encrypt.go:21-43 | the i-th message carries the key id and the i-th nonce, is the i-th text sealed under the i-th message key with it, and is signed over the ciphertext |
| SenderKeys.SendsAllIff | server/internal/senderkeys/encrypt.go:21-43 | a sender gets to the end if and only if there is nothing to send or its key is 64 bytes and no text is too long |
| SenderKeys.ChainsStayInStep | server/internal/senderkeys/decrypt.go:12-30 | the same with any wrongly signed messages mixed in, both chains ending where the ratchet loop ends, for every public key of 32 bytes |
| WsQueue.WsConn.OnMessage | starters/node/src/transport.ts:27-33 | a message goes to the longest waiting read, else to the queue |
| WsQueue.WsConn.OnClose | starters/node/src/transport.ts:34-40 | the loop answers every waiting read and empties the list |
| WsQueue.WsConn.ReadMessage | starters/node/src/transport.ts:43-53 | takes from the queue, else is rejected if closed, else waits |
| WsQueue.DeliversInOrder | starters/node/src/transport.ts:27-53 | over every run, messages handed to reads in call order followed by the queue are the arrivals in order; queue or waiters is empty |
| WsQueue.KthReadGetsKthMessage | sdk/typescript/src/transport.ts:30-56 | without a close the k-th read gets the k-th message once both have happened |
| WsQueue.CloseAnswersTheWaiting | starters/node/src/transport.ts:34-40 | a close answers exactly the waiting reads and leaves queue and earlier results |
| WsQueue.ClosedDrainsThenRejects | starters/node/src/transport.ts:43-53 | on a closed connection reads get the queue in order and only then rejections |
| Quic.QuicConn.ReadFull | proto-core/transport/quic.go:94-108 | exactly n bytes, or all that is left on a short stream |
| Quic.QuicConn.ReadMessage | proto-core/transport/quic.go:94-108 | result and remaining stream for every input, errors included |
| Quic.QuicConn.WriteMessage | proto-core/transport/quic.go:110-120 | which error is returned and how much of the frame is on the stream, for all outcomes of the two writes; the length is cut to 32 bits |
| Quic.FrameIs | proto-core/transport/quic.go:110-112 | the four length bytes, most significant first, and the message after them |
| Quic.QuicConn.Write | proto-core/transport/quic.go:113-118 | puts on the stream the bytes it takes, all of them without an error |
| Quic.WriteThenRead | proto-core/transport/quic.go:94-120 | after a write that may have failed the reader gets all earlier messages, and the last if and only if its whole frame was taken |
| Quic.FailedWriteDelivers | proto-core/transport/quic.go:110-120 | a payload write that takes everything and errs delivers the message |
| Quic.ReadsExactlyFrames | proto-core/transport/quic.go:94-120 | a read yields a message if and only if the stream starts with its frame and it is within the limit; it consumes that frame only |
| Quic.RoundTripIffWithinLimit | proto-core/transport/quic.go:94-120 | a message survives the trip if and only if it is at most 65536 bytes, whatever its length |
| Quic.OversizeIsRefused | proto-core/transport/quic.go:94-108 | a larger message is refused with its payload still on the stream |
| Quic.StreamRoundTrip | proto-core/transport/quic.go:94-120 | any list of messages comes out as it went in, and a following oversize one is refused after them |
| Quic.CutStreamDeliversWholeFrames | proto-core/transport/quic.go:94-108 | a stream cut at any byte delivers exactly the messages whose frames are whole |
| Pool.ConnPool.AddConn | proto-core/transport/pool.go:41-51 | refuses exactly when full, else adds the connection with nothing received |
| Pool.ConnPool.RemoveConn | proto-core/transport/pool.go:53-58 | removes that connection only |
| Pool.ConnPool.UpdateSeqOf | proto-core/transport/pool.go:60-68 | sets one known connection's number |
| Pool.ConnPool.Best | proto-core/transport/pool.go:71-101 | for every iteration order the first entry nothing beats; there is one exactly when the pool is not empty |
| Pool.TransportDecides | proto-core/transport/pool.go:71-101 | among connections with equal numbers QUIC is best, then WebSocket, then gRPC, then any other |
| Pool.LatestReceiverIsBest | proto-core/transport/pool.go:41-101 | over every run with growing packet numbers the connection that received the latest packet is the only best one until it is removed or added anew |
| Pool.PoolStaysWithinCapacity | proto-core/transport/pool.go:41-68 | no run of operations exceeds the capacity |
| Backoff.ConnectWithReconnect | sdk/go/reconnect.go:30-63 | how often it connects, when it gives up, and each wait it makes, with the defaults exactly if no initial delay is set |
| Backoff.DefaultWaits | sdk/go/reconnect.go:19-27 | by default the waits double from one second up to thirty, with a jitter of a fifth and no limit |
| Backoff.CapCommutes | sdk/go/reconnect.go:58-61 | capping at every step is capping once, for any monotone growth of the two kinds named |
| Backoff.LoopMatchesNextDelayIff | sdk/go/reconnect.go:36-82 | the loop's delays are those of the closed formula if and only if the initial delay is within the cap |
| Backoff.DelaysGrow | sdk/go/reconnect.go:58-61 | delays never fall and never exceed the cap |
| Backoff.JitterBounds | sdk/go/reconnect.go:65-73 | the wait stays within the jitter fraction of the delay |
| Backoff.WaitsAreTheWholeRange | sdk/go/reconnect.go:65-73 | a wait comes from some draw if and only if it is from (1 - j) times up to (1 + j) times the delay |
| Backoff.WaitIsNextDelay | sdk/go/reconnect.go:50-82 | each wait is what NextDelay gives for the same draw |
| Backoff.WaitIsBounded | sdk/go/reconnect.go:50-73 | no wait is above (1 + jitter) times the cap |

## Left out

- Drain.EachRowEndsOnce: assumes that only topic sends fail, because a database that never comes back drains nothing.
- Order.PublishedInCreationOrder: assumes strictly increasing creation times, because rows of equal time may be fetched in any order; TimeOrder.PublishedInTimeOrder covers ties.
- TimeOrder.PublishedInTimeOrder: assumes that an insert is not dated before an existing row; a clock that goes back breaks the order of any relay that sorts by it.
- Backoff.LoopMatchesNextDelayIff: does not cover negative multipliers or delays, for which neither form is a delay.
- Backoff.ConnectWithReconnect: observes the unbounded loop up to any given number of waits; rounding to whole nanoseconds is not modelled.
- OfflineTies.CompleteIffBoundariesClean: the inbox does not change during the backfill; with rows added meanwhile Offline.HandsOverAllButTies is the exact statement.
- OfflineTies.CompleteFromStartIff: the same.
- Offline.OfflineSync.GetMissedMessagesPaginated: rows are added but none marked as delivered between two pages.
- Session.EverySessionIsAWalk: operations on one session do not overlap; SessionOverlap.RevivedIff says what becomes of its end when transitions do; session ids are distinct random draws; a hash does not expire in the middle of one operation; and a Redis pipeline takes effect as a whole, while proto-core/session/redis_store.go:44-48 uses one without a transaction, whose hash can land with the index entry missing and an error reported.
- Session.Manager.CreateSession: the same assumption on the pipeline.
- Session.Manager.DeleteFromRedis: the same assumption on the pipeline.
- Session.Manager.TransitionSession: the same, so that a failed delete changes nothing.
- SenderKeys.ChainsStayInStep: the primitives only have the laws of correct decryption and verification; that replayed or reordered messages are rejected is a security property and is not modelled.
- Several relays at once, which the code does not guard against, and offsets and rebalancing of Kafka consumers, which arbitrary redelivery covers.
- Marking rows as delivered or read, the history query and the published_at column.
- UpdateCryptoState, last-active times and their TTL refresh, and the encoding of connections in Redis.
- The Noise handshake, group management, media storage and gRPC services.
- The ports of the protocol to other languages, generated code, deployment and examples.
