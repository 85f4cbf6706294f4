# Protocol proofs for the backend

A Dafny model of the parts of this backend whose correctness depends on several statements, several
functions or several processes agreeing: guarded row updates against a shared database, run by API
processes, relays, workers and webhooks in any interleaving, and a few algorithms beside them.
`dafny verify dfyconfig.toml` checks everything.

## How to read it

- **State machines** (`Charges`, `Outbox`, `Idempotency`, `Permissions`, `RefreshTokens`, `Chat`, `Owners`,
  `Otp`): `Next(s, step)` is a total function, a step whose guard fails changes nothing, and `Run` applies a
  list of steps. One step is one database statement, one transaction, or one provider, queue or cache
  action, so a list of steps is any interleaving of any number of actors, with crashes, retries and
  duplicates. Results hold for every list. In-flight actors are part of the state, with what they read
  before, so a stale actor can act at any later time.
- **Tables and services as classes** (`ChargeableItems.Table`, `OutboxRows.Relay`, `RoleStore.Store`,
  `SessionStore.Store`, `ChatStore.Store`, `IdempotentTransaction.Store`, `Otp.Store`, `Owners.Store`,
  `Payments.PaymentTable`, `RateLimit.BoundedRateLimitFallback`, `Retention.Table`): methods run the
  program's statements in their order, in place, with the rollback a transaction gives them, and are proved
  to do to the table what the row function or the protocol's step does.
- **Algorithms** (`TenantScope`, `CanonicalJson`, `AuditPayload`, `Texts`, `ClientIp`, `ClientIpKeys`, `Cidr`,
  `Payments`): functions, loops as methods proved equal to them, and an independent meaning they are
  compared with.

## What turned out false, and exactly when

- An organization can lose its last active owner: `acceptInvitation` overwrites the accepter's membership
  without the owner check the other operations make. `Owners.OwnedExactlyWhenNeverDemoted` shows this is
  the only way, `Owners.SoleOwnerCanDemoteItself` gives a run.
- The bounded rate-limit fallback exceeds its bound when its oldest entry is filed under the empty string,
  because eviction stops at a falsy key (`RateLimit.IncrementKeepsBound`, `RateLimit.EmptyKeyOverflows`).
  Keys built by `enforceRateLimit` are never empty, and for non-empty keys the bound holds.
- Exclusion under an idempotency key is not unconditional. `Idempotency.JoinedExactlyWhenUnshielded` says for
  every reachable state when a running call can be joined by another without time passing: exactly when the
  record is gone, its answer has expired, its lock has ended, or its lock belongs to yet another call that is
  running, saving or releasing, since each of these may still fail and give the record up. For a call nobody
  has taken over from that is: record gone or lock ended (`Idempotency.OwnersAreJoinedExactly`). Account erasure
  removes records of running calls, and a lease runs out; `Idempotency.ErasureBreaksExclusion` and
  `Idempotency.OverrunBreaksExclusion` are instances.
- Scoping a query overwrites an explicit null owner on a model that has no ownerless rows, so such a query
  selects the organization's rows, exactly when some row matches the rest of it
  (`TenantScope.ScopingPreservesMeaning`, `TenantScope.NullOwnerIsOverwritten`); the two query rewrites fail to
  commute exactly when a filter query on a soft-deletable model has no argument object
  (`TenantScope.RewritesCommute`, `TenantScope.MissingArgumentsDoNotCommute`).
- Text a client puts in front of a forwarded header can move the resolved address.
  `Cidr.InventedEntriesMatterExactly` says when, for every text and header;
  `Cidr.WellFormedEntriesNeverMatterExactly`: no well-formed text does if and only if the hops end, or an
  untrusted address is met, within what the proxies wrote; `Cidr.InventedEntriesNeverMatterExactly`: no text at
  all does if and only if, besides, the answer is the socket's address, because one malformed entry falls back
  to that.
- With authoritative reads in the mix, payment projection can depend on delivery order.
  `Payments.DeliveriesLeaveExactly` says which rows deliveries of given events can leave, and
  `Payments.DeliveryOrderDoesNotMatter` that order and repetition are harmless exactly when all authoritative
  events of the intent project one row and no event is later, or, without any, when the latest candidates have
  one status. A single event processed twice can break this, because each run asks the provider again
  (`Payments.ReprocessingOrderMatters`).
- `runIdempotentTransaction` can answer with an expired record. When the attempt that deletes it meets a unique
  violation, the deletion is undone and the lookup of a winner replays the old answer.
  `IdempotentTransaction.ExpiredAnswersExactly` says exactly when, `IdempotentTransaction.ExpiredAnswerIsReplayed`
  gives a case with nobody else at work.
- `listMessages` with both `afterSeq` and `beforeSeq` forgets `afterSeq`: both are spread under one key. The page
  then starts over at the first message, except in the cases `Chat.BeforeSeqLosesCatchUpExactly` lists;
  `Chat.BeforeSeqStartsOver` is a reachable instance.

## Assumptions

- Statements and transactions are atomic steps; nothing finer about isolation levels is modelled.
- Unique constraints are those of `prisma/schema.prisma`: idempotency rows on (actorKey, scope, keyHash),
  messages on (conversationId, seq) and (conversationId, clientMessageId), token hashes, one reset token
  per challenge, one membership per organization and user. Tables are maps keyed accordingly.
- Random tokens and generated identifiers are new; hashes are injective, so rows are identified with what
  was hashed; there is one active hashing key; decrypting undoes encrypting. A stored idempotent answer is
  the JSON value of the response, which is what a replay returns.
- The payment provider returns the same intent for the same idempotency key, refuses the key with other
  parameters, and never leaves `succeeded` or `canceled`.
- A queue accepts a job identifier at most once. Outbox and chat rows are never soft-deleted by other code.
- All processes of one protocol read one clock where lease times are compared.
- The tenant scope extension runs before the soft-delete extension on every call, as the order in which the
  client is extended suggests, and a call without arguments hands the extensions no argument object.
- The platform's `isIPv4` and `isIPv6` accept the canonical dotted quad and the forms of section 2.2 of
  RFC 4291; JavaScript prints distinct finite numbers as distinct texts.

## Model

| member | source | states |
|---|---|---|
| Charges.AtMostOneLiveIntent | src/modules/stripe/stripe.charges.service.ts:86-150 | In every interleaving of charge calls, retries, provider events and webhooks, an item has at most one payment intent that is not canceled |
| Charges.ConsumedForever | src/modules/stripe/stripe.webhooks.service.ts:199-253 | CONSUMED is never left, over every run, and the payment recorded on the row never changes |
| Charges.ConsumedItemsArePaid | src/modules/stripe/stripe.chargeable.ts:166-182 | A consumed item was paid by a succeeded intent made for it, and no intent pays for two items |
| Charges.RetriesResumeOnePayment | src/modules/stripe/stripe.charges.service.ts:120-150 | Two answers for the same business key, however many retries apart, name the same payment |
| Charges.SucceededWebhookConsumes | src/modules/stripe/stripe.webhooks.service.ts:213-224 | Whatever the API process wrote before crashing, the webhook of a succeeded intent leaves its item consumed by it |
| Charges.ReopenedOnlyAfterCancel | src/modules/stripe/stripe.webhooks.service.ts:226-242 | An item goes back to OPEN only by a webhook and only when the intent under its reservation key is canceled |
| Charges.StepsInterfere | src/modules/stripe/stripe.chargeable.ts:122-164 | Every protocol step is an interference the reservation loop is proved against |
| Charges.RunKeepsInv | src/modules/stripe/stripe.chargeable.ts:122-182 | The invariant behind these: a live intent's reservation hash is on its item, which is RESERVED or CONSUMED under it |
| ChargeableItems.Table.Reserve | src/modules/stripe/stripe.chargeable.ts:122-164 | Two rounds of read and claim under interference: a reservation is returned only for a row reserved under this key at its price; alone, the outcome is determined |
| ChargeableItems.Table.RecordPaymentIntent | src/modules/stripe/stripe.chargeable.ts:166-182 | Records the payment exactly when the reservation still belongs to it, consuming on success |
| ChargeableItems.Table.ProjectChargeableItem | src/modules/stripe/stripe.webhooks.service.ts:199-253 | The three guarded updates of reconciliation, in place |
| OutboxRows.Relay.ClaimBatch | src/modules/outbox/outbox.relay.ts:28-65 | Claims exactly the oldest claimable rows up to the limit, skipping those peers have locked, under one token |
| OutboxRows.Relay.SettleClaim | src/modules/outbox/outbox.relay.ts:67-123 | Marks enqueued or gives back the claim, and only a claim still held under this token |
| OutboxRows.Relay.RelayBatch | src/modules/outbox/outbox.relay.ts:125-143 | One batch settles every claim it made by the queue's answer and touches nothing else |
| OutboxRows.Relay.RelayAvailable | src/modules/outbox/outbox.relay.ts:145-162 | Ticks never overlap; batches follow until one is short, ten at most |
| OutboxRows.TickOnlyRelays | src/modules/outbox/outbox.relay.ts:125-162 | A tick leaves no claim behind, keeps generations and attempts, and touches only waiting rows |
| Outbox.RunMovesForward | src/queues/notification.worker.ts:128-308 | Over every run (generation, phase) never falls, and DELIVERED is final |
| Outbox.StepMovesForward | src/modules/outbox/outbox.service.ts:84-136 | Only a redrive raises the generation, by one, and only out of DEAD_LETTER |
| Outbox.OneWorkerPerGeneration | src/queues/notification.worker.ts:226-240 | At most one worker is between start and finish for an event and generation |
| Outbox.JobsBoundedByGeneration | src/modules/outbox/outbox.policy.ts:13-15 | At most generation plus one distinct queue jobs were ever created for an event |
| Outbox.EnqueuedEventsHaveAJob | src/modules/outbox/outbox.relay.ts:82-123 | No event is enqueued, running or delivered in a generation the queue never got a job for |
| Outbox.LiveLeaseIsNeverTakenOver | src/modules/outbox/outbox.relay.ts:28-65 | While a claim's lease lasts and its owner has not settled it, the row stays as claimed or its generation is over |
| Outbox.SupersededForever | src/modules/outbox/outbox.relay.ts:67-123 | A token that no longer matches a row never matches it again |
| Outbox.StaleActorsWriteNothing | src/queues/notification.worker.ts:128-195 | A superseded relay, and a worker or reconciler of an older generation, write nothing |
| Outbox.RunKeepsInv | src/queues/notification.worker.ts:197-308 | The invariant over rows, claims in hand, jobs and in-flight workers holds in every run, account deletion included |
| Idempotency.AtMostOneFreshAnswer | src/lib/idempotency.ts:108-197 | For each record at most one call returns an unreplayed answer, across lease takeovers |
| Idempotency.ReplaysAreExact | src/lib/idempotency.ts:80-96 | Every answer handed out for a record is the same, for the same request fingerprint |
| Idempotency.TimelyRunsExclude | src/lib/idempotency.ts:60-197 | If the operations on a key finish within their lease and its record is not erased, no two calls run on the key at once, whatever happens on other keys |
| Idempotency.OnlySameRequestRuns | src/lib/idempotency.ts:133-194 | While a record is unexpired or incomplete, only calls with its fingerprint start the operation, across failures and retention |
| Idempotency.GuardedRecordStays | src/maintenance/retention.ts:107-133 | Clean-up never removes an unexpired or incomplete record, and no step changes its fingerprint |
| Idempotency.JoinedExactlyWhenUnshielded | src/lib/idempotency.ts:116-194 | For every reachable state: a running call can be joined without time passing if and only if its record is gone, expired, unlocked, or locked by another call that is running, saving or releasing |
| Idempotency.OwnersAreJoinedExactly | src/lib/idempotency.ts:133-165 | A call nobody has taken over from can be joined if and only if its record is gone or its own lock has ended |
| Idempotency.ErasureBreaksExclusion | src/modules/auth/auth.account.service.ts:208-212 | An instance: after account deletion a timely operation can be joined |
| Idempotency.OverrunBreaksExclusion | src/lib/idempotency.ts:137-149 | An instance: a first operation can be joined if and only if at least a lease has passed |
| Idempotency.RunKeepsInv | src/lib/idempotency.ts:108-197 | The invariant tying records, calls and stored answers holds in every run |
| IdempotentTransaction.Store.Execute | src/lib/idempotency.ts:215-255 | One attempt commits one record and one business write together or leaves every table as it was; what the caller sees of it, a lost acknowledgement included |
| IdempotentTransaction.WritesOnceOrNever | src/lib/idempotency.ts:257-284 | However the attempts go: one business write exactly when the last attempt commits, reported as a fresh answer or, when its acknowledgement is lost, as a lost connection; otherwise none. A reported answer is the one its key carries, and the retry budget error never surfaces |
| IdempotentTransaction.ExpiredAnswersExactly | src/lib/idempotency.ts:266-281 | A call replays an answer that has expired if and only if its last attempt made room for a record, met a unique violation, and the lookup finds an expired record of the same request |
| IdempotentTransaction.ExpiredAnswerIsReplayed | src/lib/idempotency.ts:213-281 | An instance: the operation violates a unique column while an expired record of its request stands |
| IdempotentTransaction.RepeatsAreReplayed | src/lib/idempotency.ts:224-230 | While its record answers, a repeated request writes nothing and gets that very answer, or fails exactly when the database fails it |
| IdempotentTransaction.LostAnswersAreReplayed | src/lib/idempotency.ts:204-285 | Once an attempt has committed, acknowledged or not, the same request sent again before it expires writes nothing and gets the committed answer or a database failure, whatever others commit that spares the record |
| IdempotentTransaction.Store.RunIdempotentTransaction | src/lib/idempotency.ts:257-284 | The retry loop over concurrent commits computes that course of attempts, with at most one write per record |
| IdempotentTransaction.OthersAreFound | src/lib/idempotency.ts:204-285 | Whatever any number of other callers, leases and clean-ups commit, in any order, meets what the retry loop assumes of the tables it finds |
| IdempotentTransaction.Store.RunAmongOthers | src/lib/idempotency.ts:204-285 | The same promises for a call among any number of others, whose commits fall between its statements |
| TenantScope.ScopedFilterIsLocal | src/lib/tenant-scope.ts:88-164 | A scoped filter operation behaves as if the addressed organization's rows were the whole table and changes no other row |
| TenantScope.ScopedFilterNonInterference | src/lib/tenant-scope.ts:134-164 | Two databases agreeing on those rows cannot be told apart by it |
| TenantScope.ScopingPreservesMeaning | src/lib/tenant-scope.ts:88-102 | The rewritten query selects what the original selects on the organization's rows, exactly unless a null owner was overwritten and matched rows |
| TenantScope.ScopedCreateIsLocal | src/lib/tenant-scope.ts:104-123 | A scoped create changes no existing row at all, adds none outside the organization's and the ownerless ones, and sees of foreign rows only whether an id is taken |
| TenantScope.ScopedUpsertIsLocal | src/lib/tenant-scope.ts:142-147 | A scoped upsert changes the rows it selects or adds one; no foreign row changes, and of those it sees what a create sees |
| TenantScope.ScopedRowsAreOwned | src/lib/tenant-scope.ts:104-123 | A created row belongs to the organization, or to nobody where that is allowed and spelled out |
| TenantScope.UnscopedQueriesStayOwnerless | src/lib/tenant-scope.ts:173-206 | What a request without an organization may run on a scoped model selects, changes and adds ownerless rows alone |
| TenantScope.RewritesCommute | src/lib/prisma.ts:48-84 | Tenant scope and soft-delete filter commute exactly when there is an argument object to filter |
| TenantScope.MissingArgumentsDoNotCommute | src/lib/prisma.ts:48-53 | A query without arguments for which the two orders differ |
| TenantScope.NullOwnerIsOverwritten | src/lib/tenant-scope.ts:94-101 | A query for ownerless rows that selects the organization's row instead |
| TenantScope.InstalledOrderSelectsLiveRows | src/lib/prisma.ts:48-104 | In the installed order a scoped filter selects live rows of its addressee only, in every table, unless it mentions deletion |
| TenantScope.OtherOrderSelectsLiveRowsExactly | src/lib/prisma.ts:48-104 | In the other order it does so if and only if there is an argument object |
| TenantScope.ScopeCreateData | src/lib/tenant-scope.ts:104-123 | The in-place rewrite on aliased objects: the records before the named refusing row are scoped, that row refuses, and all others are as they were |
| Permissions.DecisionsAreLinearizable | src/middleware/access-control.ts:128-158 | Every decision equals the user's global grant at some moment between authentication and decision, cached or not |
| Permissions.GrantsFollowEpochs | src/modules/roles/roles.service.ts:64-190 | A live user's global grants change only together with the user's permission epoch |
| Permissions.EntriesStayAgreed | src/middleware/access-control.ts:140-155 | A cached or landing decision stays true to every request that may still read it |
| Permissions.SeenIsHistory | src/middleware/access-control.ts:10-66 | What a request is recorded as having seen was true at a moment inside the request |
| Permissions.RunKeepsInv | src/middleware/access-control.ts:117-158 | Cache, pending writes and in-flight requests agree with the grant tables in every run |
| RoleStore.Store.AssignRoleTo | src/modules/roles/roles.service.ts:64-96 | Assigning restores or adds the row and bumps the epoch together, or does nothing |
| RoleStore.Store.RevokeRoleFrom | src/modules/roles/roles.service.ts:97-126 | Revoking retires the row and bumps the epoch exactly when the assignment was active |
| RoleStore.Store.SetRolePermissions | src/modules/roles/roles.service.ts:128-190 | The retire-and-restore loop leaves exactly the desired permissions active and invalidates every holder of a platform role |
| CanonicalJson.CanonicalIsExact | src/modules/audit/audit.integrity.ts:21-30 | Two values print to the same text if and only if they are the same JSON value, member order aside |
| CanonicalJson.ValuesReadBack | src/lib/idempotency.ts:31-39 | Unique readability: equal texts with anything legal after them have equal values and equal continuations |
| CanonicalJson.EqualValuesPrintEqually | src/lib/idempotency.ts:31-39 | Member order and key insertion order never show in the text |
| CanonicalJson.QuotedReadsBack | src/modules/audit/audit.integrity.ts:22-28 | Escaped strings, lone surrogates included, can be read back from any continuation |
| AuditPayload.PayloadIsExact | src/modules/audit/audit.integrity.ts:32-54 | Two records have the same signed text exactly when all signed content agrees; versions never share a text |
| AuditPayload.TamperingIsDetected | src/modules/audit/audit.integrity.ts:58-70 | A signature made for one record verifies for another exactly when nothing it covers differs |
| AuditPayload.ReattributionIsDetected | src/modules/audit/audit.integrity.ts:39-41 | Moving a row to another tenant breaks its signature from version 2 on and only then |
| AuditPayload.VersionUpgradeIsDetected | src/modules/audit/audit.integrity.ts:36-41 | Changing a signed row's version breaks its signature |
| RefreshTokens.OneLiveToken | src/modules/auth/auth.sessions.service.ts:60-147 | In every run an unrevoked session's tokens form one chain by replacement whose end is its only unspent token |
| RefreshTokens.PresentRotatesOrRevokes | src/modules/auth/auth.sessions.service.ts:81-134 | A known token either rotates or revokes its session with every token |
| RefreshTokens.OldTokensRaiseAlarm | src/modules/auth/auth.sessions.service.ts:91-108 | Any token of a session but the last of its chain raises the reuse alarm |
| RefreshTokens.RevokedForever | src/modules/auth/auth.sessions.service.ts:149-193 | Once a session is over, by whatever revocation, no token of it rotates again and it gets no new one |
| RefreshTokens.RotatesAtMostOnce | src/modules/auth/auth.sessions.service.ts:110-134 | A token rotates at most once over every run |
| RefreshTokens.RunKeepsInv | src/modules/auth/auth.sessions.service.ts:21-193 | Chains and revocations agree after every run of logins, rotations, revocations, suspensions, deletions and retention |
| SessionStore.Store.CreateSessionFor | src/modules/auth/auth.sessions.service.ts:21-58 | Session and first token appear together, or nothing does when the account is gone |
| SessionStore.Store.RotateRefreshToken | src/modules/auth/auth.sessions.service.ts:60-137 | The statements of the rotation do what the protocol's step does; the race branch cannot be reached |
| SessionStore.Store.RevokeOneSession | src/modules/auth/auth.sessions.service.ts:149-172 | Revokes the user's session and its tokens |
| SessionStore.Store.RevokeAllSessions | src/modules/auth/auth.passwords.service.ts:128-136 | Revokes every session of the user, or every other one |
| SessionStore.Store.UpdateUserStatus | src/modules/users/users.service.ts:172-184 | Suspending or disabling revokes everything in the same transaction |
| Chat.NumbersAreDense | src/modules/chat/chat.service.ts:205-298 | In every run a conversation's sequence numbers are exactly 1..lastSeq, tombstones keeping theirs |
| Chat.SendsAreIdempotent | src/modules/chat/chat.service.ts:281-297 | All sends of one client id name the same message, and at most one call is told it is new |
| Chat.DuplicatesAreFound | src/modules/chat/chat.service.ts:284-295 | A send whose insert hit the unique constraint always finds the original |
| Chat.ForwardPage | src/modules/chat/chat.service.ts:312-321 | With afterSeq a page is the stretch above the bound in effect, oldest first, whether or not beforeSeq is given too |
| Chat.CatchUpPage | src/modules/chat/chat.service.ts:304-325 | A catch-up page, asked for with afterSeq alone, is the next stretch of numbers, nothing skipped, of at most a page |
| Chat.BeforeSeqLosesCatchUpExactly | src/modules/chat/chat.service.ts:316-317 | With beforeSeq given too the page is still the catch-up page exactly when nothing was seen and nothing is cut off, or both are empty |
| Chat.BeforeSeqStartsOver | src/modules/chat/chat.service.ts:316-317 | An instance: after two sends, a client that saw message 1 and also gives a bound is shown messages 1 and 2 |
| Chat.HistoryPage | src/modules/chat/chat.service.ts:312-321 | Scrolling back shows the newest numbers below the given one, newest first |
| Chat.CatchUpIsUnbroken | src/modules/chat/chat.service.ts:300-325 | Catching up while others write yields one unbroken stretch, no number twice, none skipped |
| Chat.CatchUpFinishes | src/modules/chat/chat.service.ts:300-325 | With nobody writing, one page per full page of missed messages yields exactly all of them and then an empty page |
| Chat.ListingSucceeds | src/modules/chat/chat.service.ts:26-31 | However a page is asked for, it fails exactly for non-participants and when its greatest number is past the JSON-safe range |
| Chat.UnreadCountIsExact | src/modules/chat/chat.service.ts:95-102 | The subtraction equals the number of messages above the reader's position |
| Chat.RunKeepsInv | src/modules/chat/chat.service.ts:205-361 | Density, unique client ids, read positions and in-flight calls agree in every run |
| ChatStore.Store.SendMessage | src/modules/chat/chat.service.ts:205-298 | Alone, a send takes the next number or returns the original unchanged, and keeps the invariant |
| ChatStore.Store.MarkRead | src/modules/chat/chat.service.ts:327-343 | Alone, the position becomes the maximum and never passes the conversation |
| ChatStore.Store.DeleteMessage | src/modules/chat/chat.service.ts:345-361 | Only the sender's undeleted message becomes a tombstone; its number and row stay |
| ClientIp.Ipv4IsExact | src/lib/client-ip.ts:17-20 | The quad parser accepts exactly the canonical text of each four bytes |
| ClientIp.Ipv6IsExact | src/lib/client-ip.ts:22-60 | The parser accepts exactly the text forms of section 2.2 of RFC 4291 and reads the sixteen bytes each denotes |
| ClientIp.LegalTextParses | src/lib/client-ip.ts:22-60 | Every legal form, full, elided or with a dotted quad, parses to its bytes |
| ClientIp.PlatformAgrees | src/lib/client-ip.ts:78-81 | The platform's check, defined by the forms of section 2.2 of RFC 4291, and the program's parser accept the same texts |
| ClientIp.ClientIpIsExact | src/lib/client-ip.ts:70-84 | A client address is a quad or a legal IPv6 text, whose mapped form counts as IPv4 |
| ClientIpKeys.ClientIpKeysAgree | src/lib/client-ip.ts:100-105 | Two inputs share a key exactly when both are unresolved, or the same IPv4 address, or in the same IPv6 /64 |
| ClientIpKeys.SpellingDoesNotMatter | src/lib/client-ip.ts:70-84 | Every spelling of an address, zone or not, mapped or not, resolves alike |
| ClientIpKeys.ParseIpv6Bytes | src/lib/client-ip.ts:22-60 | The loop over groups computes the parser function |
| ClientIpKeys.CheckIpv4Mapped | src/lib/client-ip.ts:62-67 | The loop recognises exactly the mapped prefix of section 2.5.5.2 of RFC 4291 |
| ClientIpKeys.Hextets | src/lib/client-ip.ts:86-92 | The loop prints the leading bytes two at a time |
| ClientIpKeys.ParseAddress | src/lib/client-ip.ts:70-84 | The method with its loops computes the address function |
| ClientIpKeys.ComputeKey | src/lib/client-ip.ts:100-105 | The method with its loops computes the key |
| Cidr.WithinPrefix | src/lib/client-ip.ts:128-137 | True exactly when the addresses, as numbers, are equal after dividing by two to the number of host bits |
| Cidr.CidrIsExact | src/lib/client-ip.ts:112-126 | A block is an address, alone or with a decimal prefix that fits its family, and nothing else |
| Cidr.MappedBlockNeedsIpv4Prefix | src/lib/client-ip.ts:116-125 | A block on a mapped address takes a prefix of at most 32 bits |
| Cidr.CidrModeResolves | src/lib/client-ip.ts:162-187 | In CIDR mode the result is the first untrusted address from the right, or the leftmost |
| Cidr.MatchAny | src/lib/client-ip.ts:140-148 | The loop over networks finds one of the same family that contains the address, if there is one |
| Cidr.InventedEntriesMatterExactly | src/lib/client-ip.ts:157-187 | For every text put in front of any header: well-formed, it leaves the answer exactly when the resolved place lies before it or holds the same text as the last place before it; malformed, exactly when the answer was the socket address |
| Cidr.WellFormedEntriesNeverMatterExactly | src/lib/client-ip.ts:175-186 | No well-formed text in front moves the answer if and only if the hops end or an untrusted address is met before it |
| Cidr.InventedEntriesNeverMatterExactly | src/lib/client-ip.ts:162-187 | No text whatever in front moves the answer if and only if, besides, the answer is the socket address |
| Cidr.ResolveClientAddress | src/lib/client-ip.ts:162-187 | The method with its loop computes the resolution function |
| RateLimit.IncrementKeepsBound | src/lib/rate-limit.ts:58-65 | A call keeps the table within its bound exactly unless a full live table starts with the empty key |
| RateLimit.MemoryIsBounded | src/lib/rate-limit.ts:34-82 | Over every run of non-empty keys the table never exceeds its maximum |
| RateLimit.EmptyKeyStopsEviction | src/lib/rate-limit.ts:59-63 | A live empty key in front lets every new key lengthen the table |
| RateLimit.EmptyKeyOverflows | src/lib/rate-limit.ts:59-63 | The smallest run that exceeds the bound |
| RateLimit.AgreesWithUnbounded | src/lib/rate-limit.ts:43-71 | While live keys fit and time does not run back, every answer equals that of an unbounded fixed-window counter, deletions included |
| RateLimit.AtMostTwiceTheLimit | src/lib/rate-limit.ts:158-163 | Then at most twice the limit is accepted in any span of one window |
| RateLimit.RetryAfterIsEnough | src/lib/rate-limit.ts:49-55 | Waiting as long as an answer says ends the window it counted in, and a running window asks for at least a second |
| RateLimit.BoundedRateLimitFallback.Create | src/lib/rate-limit.ts:37-41 | Only a positive maximum is accepted |
| RateLimit.BoundedRateLimitFallback.IncrementKey | src/lib/rate-limit.ts:43-67 | The method, with its clean-up and eviction loops, computes the increment function |
| RateLimit.BoundedRateLimitFallback.RemoveExpired | src/lib/rate-limit.ts:77-81 | The loop that deletes while iterating keeps exactly the unexpired entries in order |
| RateLimit.BoundedRateLimitFallback.Delete | src/lib/rate-limit.ts:69-71 | Removes the key's entry and no other |
| Payments.DeliveriesLeaveExactly | src/modules/stripe/stripe.webhooks.service.ts:133-196 | For every table and list of events: the rows that some delivery, in any order with any repetition, leaves are exactly the projections of the authoritative events and of what is later than one of them; without any, of the latest candidates, the recorded one first |
| Payments.DeliveryIsHarmlessExactly | src/modules/stripe/stripe.webhooks.service.ts:133-196 | From any starting row: every delivery leaves the row of a greatest candidate if and only if no candidate that may win projects another, which for agreeing payloads means that every authoritative event projects it |
| Payments.GreatestEventWins | src/modules/stripe/stripe.webhooks.service.ts:133-196 | From any starting row, with a cursor, without one, or absent: if authoritative events, where there are any, project the row of a greatest candidate, the row ends with the status and cursor of the greatest (createdAt, id) |
| Payments.DeliveryOrderDoesNotMatter | src/modules/stripe/stripe.webhooks.service.ts:170-195 | All deliveries of the same events on top of the same table leave the same row if and only if its authoritative events project one row and nothing is later, or, without any, its latest candidates have one status |
| Payments.LastAuthoritativeAndAfter | src/modules/stripe/stripe.webhooks.service.ts:171-174 | With authoritative events the row is that of the last of them or of a later event delivered after it |
| Payments.AuthoritativeOrderMatters | src/modules/stripe/stripe.webhooks.service.ts:171-174 | An instance: two authoritative reads of one intent |
| Payments.ReprocessingOrderMatters | src/modules/stripe/stripe.webhooks.service.ts:421-451 | An instance: one event processed twice, with what the provider said each time |
| Payments.PaymentTable.UpsertPayment | src/modules/stripe/stripe.webhooks.service.ts:133-196 | The two statements compute the projection |
| Payments.PaymentTable.TryUpsert | src/modules/stripe/stripe.webhooks.service.ts:147-168 | A transaction collides when the row was absent at its lookup and there at its insert, or on another unique column; it projects an attributed event and marks it, or leaves nothing behind |
| Payments.TwoAttemptsAreEnough | src/modules/stripe/stripe.webhooks.service.ts:453-589 | Projections of the same intent never make an event fail: a collision or failure that surfaces comes from another statement, and a processed event is projected once, if it can be attributed, on top of what committed before |
| Payments.PaymentTable.ProcessStoredEvent | src/modules/stripe/stripe.webhooks.service.ts:453-589 | One retry after a collision and none after another failure; exactly a committed attempt marks the event, attributed or not |
| Owners.OrganizationsStayOwned | src/modules/organizations/organizations.service.ts:254-342 | Every organization keeps an active owner through any run in which no sole owner accepts a lesser role |
| Owners.OwnedExactlyWhenNeverDemoted | src/modules/organizations/organizations.service.ts:407-472 | Organizations are owned at every moment if and only if no such acceptance happens |
| Owners.AcceptKeepsOwnerExactly | src/modules/organizations/organizations.service.ts:439-456 | One acceptance leaves the organization owned exactly when it does not demote its sole owner |
| Owners.SoleOwnerCanDemoteItself | src/modules/organizations/organizations.service.ts:439-456 | A reachable run that leaves an organization without an owner |
| Owners.DeletionKeepsOwner | src/modules/auth/auth.account.service.ts:93-166 | Account deletion leaves every organization owned |
| Owners.OwnersAreLive | src/modules/auth/auth.account.service.ts:163-166 | An active owner is never a deleted account |
| Owners.Store.DeleteUser | src/modules/auth/auth.account.service.ts:93-166 | The loop over owned organizations refuses the deletion exactly when one of them would be orphaned |
| Owners.Store.ChangeRoleOf | src/modules/organizations/organizations.service.ts:254-299 | Changes one membership, or refuses for the role, the membership or the last owner |
| Owners.Store.RemoveMemberOf | src/modules/organizations/organizations.service.ts:301-342 | Suspends one membership, or refuses |
| Owners.Store.AcceptInvitationOf | src/modules/organizations/organizations.service.ts:407-472 | Upserts the membership for the verified recipient of an open invitation |
| Otp.AttemptsAreBounded | src/modules/auth/auth.otp.service.ts:20-31 | Attempts never exceed the maximum, reaching it is what locks, and a locked code was never verified or consumed |
| Otp.LockedForGood | src/modules/auth/auth.otp.service.ts:189-194 | A lock is never lifted and a locked code is never consumed, over every run |
| Otp.CodesAreConsumedOnce | src/modules/auth/auth.otp.service.ts:189-194 | No code is consumed twice, for any purpose |
| Otp.PasswordsChangeOnce | src/modules/auth/auth.password-reset.service.ts:167-210 | Each reset token, and each challenge behind one, changes a password at most once |
| Otp.OneLiveTokenPerUser | src/modules/auth/auth.password-reset.service.ts:115-134 | A user never has two usable reset tokens |
| Otp.ConfirmSucceedsExactly | src/modules/auth/auth.password-reset.service.ts:167-201 | A confirmation succeeds exactly for a live unexpired token of an active user, and then leaves the user none |
| Otp.RunKeepsInv | src/modules/auth/auth.password-reset.service.ts:81-213 | Challenges, tokens and the history of changes agree in every run, deletion and retention included |
| Otp.Store.RecordInvalidAttempt | src/modules/auth/auth.otp.service.ts:20-31 | The counting statement |
| Otp.Store.ConsumeCode | src/modules/auth/auth.otp.service.ts:190-194 | Consumes a code exactly when it is neither consumed nor locked |
| Otp.Store.IssueResetToken | src/modules/auth/auth.password-reset.service.ts:115-143 | Verifies the challenge, retires the user's live tokens and issues one, or does nothing |
| Otp.Store.ConfirmPasswordReset | src/modules/auth/auth.password-reset.service.ts:167-210 | Three guarded updates, undone together when one of them misses |
| Retention.Table.DeleteInBatches | src/maintenance/retention.ts:55-76 | Of the rows nobody else writes to meanwhile, the loop removes only eligible ones, and all of those unless aborted; alone, exactly the eligible rows, with their exact count; a non-positive batch size is refused |

## Left out

- Delivery records, provider calls and exactly-once delivery: the outbox promises at-least-once, and a crash
  while PROCESSING leaves a row where it is; only safety is proved.
- Liveness everywhere: nothing says a waiting row is eventually claimed or a retry eventually succeeds.
- Permission checks in scope `organization` or `context`: global roles held through memberships are not
  epoch-bumped, so no such agreement holds for them.
- PostgreSQL isolation below one transaction: two statements of one transaction are never interleaved with
  another, so races that isolation levels decide (an owner promoted during a deletion, say) are not seen.
- Chat.RunKeepsInv: says nothing about read positions rising, because `markRead` reads and writes in two
  steps and two racing calls can lower the position.
- Tenant filters inside chat queries, participants' limits and direct-conversation keys.
- Relation filters and nested writes in tenant-scoped queries; update data never writes the owner column.
- Payment columns besides status and cursor, subscriptions and saved payment methods: skipped undefined
  fields and the soft-delete filter make them order-dependent.
- Payments.PaymentTable.ProcessStoredEvent: whether the event can be attributed and whether another statement of the
  transaction collides or fails are parameters, the contents of those statements are not modelled; the provider read before the loop is part of the event.
- Other chargeable resolvers than the default one, the amount bounds, and the parameters of an intent.
- Rotation of hashing and signing keys: each secret has one hash.
- Cryptography, token generation and clocks: symbols, parameters or assumptions as listed above.
- OutboxRows.Relay.RelayBatch: one time stamp stands for the claim and for the release of the same batch.
- Retention.Table.DeleteInBatches: others make finitely many changes while it runs; for rows they write to, only
  that they are deleted while eligible. In the protocol models retention is a step.
- Memberships held by suspended accounts count as owners, as they do in the program.
- Upload completion and quotas, pagination cursors, the scheduler lock, environment validation, HTTP
  wiring: mostly I/O.
