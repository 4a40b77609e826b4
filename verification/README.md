# Mppx: a verified model of its stores, codecs and schedulers

Mppx is a payment SDK: servers answer with `402` and a `WWW-Authenticate: Payment …` challenge, clients
pay and retry, and servers keep channels, replay claims and leases in a key-value store. This project
models the parts of it that are state machines, parsers and concurrent protocols, and proves what they
are for. `dafny verify dfyconfig.toml` checks all of it.

**The atomic store** (`StoredValues`, `AtomicStore`, `CompareAndSwap`, `StoreBackends`, `BackendSteps`,
`StoreObjects`).
Any number of clients run `update` beside `get`, `put`, `delete` and `tryClaim`. Each request to the backing
store is one step, and anything may land between two requests of a client. A log records the writes in
the order they landed. In every interleaving each `update` that returned took effect at one place of
that log between its start and its return, and one that gave up left no trace and lost every attempt to
another client's write. The same is proved of the retry loop itself, written as a loop with other
clients acting at every wait. `StoreBackends` has the operations of the memory map, one Durable Object
and the SQL table, which `BackendSteps` shows to be those steps, and `StoreObjects` shows that the
per-key objects of a namespace, beside its replay shards, act as one map.

**Replay claims** (`Claims`, `ReplayShards`). Claims made by the memory map, an object's marker, one SQL
statement or the `update` fallback never overlap on a key; neither do those of a replay shard, whose
alarm comes for every claim and clears exactly what has expired.

**Structural equality** (`DeepEqual`). Native compare-and-swap compares value graphs with cycles and
aliases. Equality is exactly isomorphism of what is reachable, and it always terminates.

**The challenge codec** (`AuthScanners`, `ChallengeCodec`, `SchemeScan`, `ParameterRoundTrip`,
`ChallengeRoundTrip`, `ChallengeLists`, `HandwrittenChallenges`), over sections 5.6.4, 11.2 and 11.6.1 of
RFC 9110. Texts are sequences of UTF-16 code units, lone surrogates included. A printed list of challenges,
with challenges of other schemes anywhere among them, reads back as the Payment challenges in order.
One that others wrote, with any white space, unquoted values and escapes, reads as its parameters say, and
repeated, malformed and unterminated parameters are refused.

**The settlement scheduler** (`Settlement`, `SettlementRuns`, `SettlementTimes`, `CloseRequests`). Writes,
alarms and queue sends of one channel object interleave, and writes land while a send awaits the queue. A
channel is never lost, never sent without bound, and sent exactly when it is time.

**The event-stream parser** (`EventStream`, `EventStreamPrinting`). However a text is cut into chunks, the
events are those of section 9.2.6 of the WHATWG HTML Living Standard for the whole text, and events written
out as such a text come back.

**Lookup index and leases** (`LookupIndex`, `ChannelIndex`, `Leases`). The index of a payer's channels is
bounded in every interleaving, and each entry exact for as long as it has room; a settlement lease keeps
two jobs apart until one of them lapses.

**Redirects** (`Redirects`, section 15.4 of RFC 9110) and **Accept-Payment** (`AcceptPayment`,
`AcceptPaymentRoundTrip`, `HandwrittenPreferences`, `PaymentRanking`, `ChallengeSelection`, sections 5.6.1 and
12.4.2 of RFC 9110).

## Where the code does not meet its own promise

- A comment in the scheduler promises that a threshold's worth of vouchers the last send did not capture
  goes at once (src/cloudflare/ChannelStore.ts:134-137). There are two ways it does not. A send may
  capture *less* than the one before it, as after a credit, while new vouchers land; the write is compared
  with the older send, and they wait for the watchdog (`SettlementRuns.VouchersCanWait`). Or `maxAttempts`
  is 1 and the vouchers land during the only send: that write does not restart the count, and they wait
  for the end of the server's close marker (`SettlementRuns.OneAttemptCanWait`), or are given up without
  one. `UrgentNeverWaits` and `WaitsIffTheSendIsExposed` show these are all.
- The scheduler means to send a close request that the last send did not cover at once
  (src/cloudflare/ChannelStore.ts:71-74). It does not when the request was sent before, was withdrawn or
  hidden, and comes back with the same timestamp while a send of the open channel awaits the queue: the
  write takes it for covered, and the watchdog that is then set counts as an open channel's, ten minutes off
  with the default settings instead of two (`CloseRequests.CloseRequestsCanWait`). A send lets that happen if
  and only if it no longer has the close request the last one covered, nothing more was settled since, and the
  watchdog delay is not 0 (`CloseRequests.WaitsIffTheSendUncovers`); in runs without such a send, and without
  a write during a send that takes back what was settled on-chain, no uncovered close request waits
  (`CloseRequests.CloseRequestsNeverWait`).
- The one-statement SQL claim and the marker-inspecting claim disagree on a key that holds a stored
  `null`: its value reads as absent, so the others claim it, while SQL finds a row without an expiry and
  never does (src/Store.ts:127, src/Store.ts:1273). `Claims.OneStatementAgrees` shows it is the only case.
- A replay shard's alarm goes past an expiry when a claim sets it after that expiry has come
  (src/Store.ts:922), by no more than the millisecond after the clock was read:
  `ReplayShards.ALateAlarm`. `AlarmInTimeIffNoClaimIsLate` shows no other operation does.
- The entry of a lookup key is exact only while the key has at most eight resumable channels
  (`LookupIndex.IndexAgreesExactlyWhileItFits`, both ways), and a failed removal from it is not made up
  for by later writes of a channel that stays away (`LookupIndex.NextWriteRepairs`).

## Model

| member | source | states |
|---|---|---|
| `AtomicStore.UpdatesLinearize` | src/Store.ts:154-183 | In every interleaving of updates, puts, deletes and claims, the writes in the order they landed rebuild the store; an update that returned applied its callback to the value stored at one place between its start and its return, its only write coming right there; one that gave up wrote nothing and each of its attempts was overtaken by another client's write to the key. By case: right after its place a deleted key is absent, a set key reads as the value, an unchanged one is as before, and no other key changed there |
| `AtomicStore.RequestsLinearize` | src/Store.ts:940-993 | Every `get`, `put`, `delete` and `tryClaim` takes effect at its place of the log: it answers what the contents there say, and its write is the very next one |
| `AtomicStore.RequestsLeave` | src/Store.ts:940-993 | Right after its place in the log a `put` key reads as the value put, a deleted one is absent, a claimed one holds a marker with the expiry, and a read or a failed claim wrote nothing |
| `AtomicStore.OrderRespectsRealTime` | src/Store.ts:494-506 | Of any two operations, updates and requests alike, one that returned before the other started takes effect first |
| `AtomicStore.StepKeepsPlain` | src/Store.ts:940-993 | No later step changes where a request took effect |
| `AtomicStore.StepKeepsInvariant` | src/Store.ts:638-677 | Every step of every client keeps what linearizability rests on |
| `AtomicStore.OthersWriteIsHarmless` | src/Store.ts:148-153 | A write by anybody else, to any key, falsifies nothing known about a call, running or finished |
| `AtomicStore.OwnWriteLinearizes` | src/Store.ts:171-175 | A swap that applied takes effect where it landed, even if the value was changed and changed back since it was read |
| `AtomicStore.ConflictIsConsistent` | src/Store.ts:176-182 | A lost swap means another write to the same key landed since the read, so giving up takes `maxAttempts` of them |
| `AtomicStore.SkippedDeleteIsConsistent` | src/Store.ts:1223-1224 | Deleting what was read as absent, for which SQL sends no statement, takes effect at the read |
| `AtomicStore.RunIsConsistent` | src/Store.ts:171-173 | A callback that changes nothing takes effect where its value was read, however late it runs |
| `CompareAndSwap.CompareAndSwap` | src/Store.ts:154-183 | The retry loop, with any writes of others at every wait: its answer is one atomic application of the callback, right after which a deleted key is absent, a set one reads as the value and an unchanged one is as before; and the conflict error means no write of its own and at least `maxAttempts` of others to the key |
| `CompareAndSwap.Overtaken` | src/Store.ts:176-180 | A key that reads otherwise than before was written in between |
| `CompareAndSwap.Namespace.Swap` | src/Store.ts:967-978 | What a swap promises when others may act until it arrives |
| `CompareAndSwap.Namespace.ReadRaw` | src/Store.ts:170 | A read returns the value current when it arrives |
| `StoreBackends.MemoryStore.Get` | src/Store.ts:1434-1438 | Reads what is stored, `null` for an absent key |
| `StoreBackends.MemoryStore.Put` | src/Store.ts:1439-1441 | Afterwards the key reads as the value written, and no other key changed |
| `StoreBackends.MemoryStore.Delete` | src/Store.ts:1442-1444 | Removes the key alone |
| `StoreBackends.MemoryStore.Update` | src/Store.ts:1445-1451 | One atomic application of the callback: a deleted key is absent afterwards, a set one reads as the value, a noop changes nothing, and no other key changes |
| `StoreBackends.MemoryStore.TryClaim` | src/Store.ts:1452-1459 | Claims exactly when the expiry is ahead and the key reads as `null` or holds an expired marker, and then stores the marker |
| `StoreBackends.StoreObject.StoreSwap` | src/Store.ts:967-978 | Applies exactly when the key holds the expected value, and otherwise hands back what it holds and changes nothing |
| `StoreBackends.StoreObject.StoreClaim` | src/Store.ts:981-993 | The same claim decision, with the clock read again after the value was fetched |
| `StoreBackends.StoreObject.Commit` | src/Store.ts:1039-1050 | Writes or deletes one key |
| `StoreBackends.SqlTable.constructor` | src/Store.ts:1180-1184 | An empty table satisfies the column invariant |
| `StoreBackends.SqlTable.Read` | src/Store.ts:1209-1212 | Reads the value column as the one map of keys |
| `StoreBackends.SqlTable.Swap` | src/Store.ts:1221-1240 | The three statements together are one compare-and-swap (deleting an absent value sends none), and every row's `expires` stays the expiry of the marker in its value |
| `StoreBackends.SqlTable.Put` | src/Store.ts:1249-1255 | The key reads as the value written, and the column invariant stands |
| `StoreBackends.SqlTable.Delete` | src/Store.ts:1256-1258 | Removes the key alone, and the column invariant stands |
| `StoreBackends.SqlTable.TryClaim` | src/Store.ts:1269-1283 | Judging by the `expires` column alone is judging the stored marker; the marker is written exactly when the claim wins, and success is reported only while unexpired |
| `BackendSteps.ObjectSwapIsTheStep` | src/Store.ts:967-978 | A client's swap step at a Durable Object is the object's compare-and-swap on the value its callback saw, and a lost one goes on with the value found |
| `BackendSteps.SqlSwapIsTheStep` | src/Store.ts:1221-1240 | A client's swap step at a SQL table is the statements' compare-and-swap, and a lost one reads anew |
| `BackendSteps.ClaimIsTheRequest` | src/Store.ts:980-993 | The claims of the interleavings are the claims the stores are proved to make |
| `BackendSteps.ClaimIsTheKind` | src/Store.ts:1269-1283 | So are the claims that never overlap |
| `StoreObjects.KeyObjectIsInjective` | src/Store.ts:561-564 | No two keys share an object |
| `StoreObjects.KeyObjectIsNoShard` | src/Store.ts:488-492 | No key's object is named like a replay shard |
| `StoreObjects.ShardOfIsAShard` | src/Store.ts:622-623 | Every shard's name matches the pattern shards are told by |
| `StoreObjects.ShardsDiffer` | src/Store.ts:622-623 | Two shards have one name exactly when their versions and their numbers are the same, whatever the digits |
| `StoreObjects.StepRefines` | src/Store.ts:560-564 | With one place per object for a value or a table of claims, an operation on a key's object is that operation on one map of keys, and one on a shard is that operation on the shard's own table |
| `StoreObjects.StepKeepsSeparate` | src/Store.ts:561-564 | No operation makes two keys reach one object, a key reach an object that holds claims, or a claim reach an object that serves a key |
| `StoreObjects.ObjectsActAsOneMap` | src/Store.ts:494-506 | After any run of operations the objects together hold exactly what one map of keys and the tables of the shards would; an object serves at most one key, and none serves a key and holds claims |
| `StoreObjects.ObjectsAreNotShared` | src/Store.ts:561-564 | The object a key's operation reached serves no other key, is not named like a shard and holds no claims |
| `Claims.OneStatementAgrees` | src/Store.ts:1269-1283 | The one-statement claim decides as the marker-inspecting one on the same value and time if and only if no value reading as `null` is stored |
| `Claims.StoredNullBlocksTheStatement` | src/Store.ts:1273 | A stored `null`: claimable for the others, never for the statement |
| `Claims.KindsAgree` | src/Store.ts:52-58 | Read at one instant, all four ways of claiming a stored key decide alike, the statement except exactly on a stored `null` |
| `Claims.CommitsOnlyOverFreeKeys` | src/Store.ts:105-112 | However stale its clock readings, a claim commits only over a key that reads as `null` or holds a marker that has expired, and only before the expiry it checked |
| `Claims.FreeKeysAreClaimed` | src/Store.ts:105-112 | Every way of claiming commits over an absent key or an expired marker, with the expiry ahead at all its readings |
| `Claims.FallbackDecidesWhereItTookEffect` | src/Store.ts:125-134 | A fallback claim reports success exactly when the key could be claimed at the place its update took effect, and exactly then its marker is the very next write |
| `Claims.StepKeepsInvariant` | src/Store.ts:105-112 | After every claim, all earlier claims are over, or the last is the stored marker |
| `Claims.ClaimsNeverOverlap` | src/Store.ts:113-135 | Claims by memory, object, statement and fallback, mixed and interleaved with stale clock readings: a later one commits no earlier than the expiry of a former |
| `Claims.ClaimsSpareValues` | src/Store.ts:113-135 | In every run of claims a stored value that is no marker stays as it is |
| `ReplayShards.ReplayShard.ClaimReplay` | src/Store.ts:904-930 | The claim with its alarm, rolled back when the alarm cannot be read or set |
| `ReplayShards.ReplayShard.ReleaseReplay` | src/Store.ts:933-935 | Removes the key's claim alone |
| `ReplayShards.ReplayShard.Alarm` | src/Store.ts:857-868 | Keeps exactly the unexpired claims and sets the alarm to the earliest of them |
| `ReplayShards.ShardDecidesAsAStore` | src/Store.ts:904-916 | A shard's claim decides as a store's does that holds the claim's marker |
| `ReplayShards.NewAlarmsAreAhead` | src/Store.ts:867-922 | A claim that moves the alarm sets it to its own expiry, or to the next millisecond if that has come already; an alarm that is set rings later than its setting |
| `ReplayShards.EarliestIsMinimum` | src/Store.ts:864-866 | The earliest expiry is the only minimum of the table |
| `ReplayShards.StepKeepsAlarm` | src/Store.ts:918-928 | Every operation, failing ones included, leaves an alarm for every claim, by its expiry or the millisecond after the clock was read |
| `ReplayShards.OnlyLateClaimsSpoilTheAlarm` | src/Store.ts:921-922 | An operation takes an alarm in time past an expiry if and only if it is a claim that sets its alarm when its own expiry has already come |
| `ReplayShards.StepKeepsHeld` | src/Store.ts:904-935 | No operation frees a reported claim before its expiry, but its release |
| `ReplayShards.ShardRunsAreSafe` | src/Store.ts:857-935 | In every run of claims, releases, alarms and failing alarm calls, a shard with claims has an alarm, by its earliest expiry or the millisecond after the clock was read, and reported claims stand until they expire or are released |
| `ReplayShards.AlarmInTimeIffNoClaimIsLate` | src/Store.ts:857-935 | The alarm comes by the earliest expiry at every point of a run if and only if no claim of it is late |
| `ReplayShards.ALateAlarm` | src/Store.ts:922 | A late claim: made at 0 until 3 with its alarm set at 5, it is cleared at 6 |
| `ReplayShards.ShardClaimsNeverOverlap` | src/Store.ts:899-930 | A claim succeeds only once the key's last one, unless released, is over |
| `ReplayShards.AlarmClearsTheExpired` | src/Store.ts:857-868 | After an alarm exactly the unexpired claims remain, with the alarm at the earliest of them, or the old one if setting it failed |
| `ReplayShards.FailedClaimsRollBack` | src/Store.ts:923-927 | A failed claim leaves none of its key behind and frees no live claim |
| `DeepEqual.EqualIffIsomorphic` | src/Store.ts:265-347 | `deepEqual` answers true exactly when a one-to-one mapping of the reachable objects preserves kind, key order, primitives and aliasing |
| `DeepEqual.SameValueZeroIs` | src/Store.ts:245-248 | Primitives compare as `===` does, but that `NaN` equals itself |
| `DeepEqual.CompareIsSound` | src/Store.ts:271-290 | An equal comparison pairs objects one-to-one, agreeing in all they hold, and only reachable ones |
| `DeepEqual.CompareIsComplete` | src/Store.ts:271-290 | Isomorphic graphs compare equal, whatever was paired so far in line with the mapping |
| `DeepEqual.MatchingCoversPaths` | src/Store.ts:271-278 | Whatever a path reaches on one side, the mapping reaches on the other |
| `DeepEqual.InverseMatches` | src/Store.ts:275-278 | The pairs read backwards match the other side |
| `DeepEqual.AcceptedIffAllComparable` | src/Store.ts:211-228 | `assertComparable` accepts a value exactly when every reachable object is of a comparable kind with primitive keys |
| `DeepEqual.ComparableNeverThrows` | src/Store.ts:321-346 | Comparing values whose objects are all comparable never throws |
| `DeepEqual.AcceptedValuesAreDecided` | src/Store.ts:207-210 | Two accepted values compare as equal or different, never with an error |
| `DeepEqual.CopyIsEqualIffComparable` | src/Store.ts:257-264 | A value read back from storage, as a copy, equals what was written exactly when all of it is comparable |
| `DeepEqual.PairMaps.DeepEqual` | src/Store.ts:265-347 | The comparison that fills two shared maps gives the verdict of the pure one and leaves its pairs |
| `DeepEqual.SeenSet.AssertComparable` | src/Store.ts:211-228 | The check that fills a shared set gives the verdict of the pure one |
| `AuthScanners.FindSchemeStarts` | src/Challenge.ts:516-545 | The flag-keeping scan returns the starts defined by what precedes each place |
| `AuthScanners.ReadQuotedAuthParamValue` | src/Challenge.ts:446-491 | The segment-joining loop reads a quoted-string as unit-by-unit unescaping does, and fails exactly on unterminated ones |
| `AuthScanners.ReadAuthParamValue` | src/Challenge.ts:437-443 | Reads a quoted value, or a trimmed one up to the next comma |
| `AuthScanners.ReadAuthParam` | src/Challenge.ts:410-430 | Reads one parameter, or stops at another scheme |
| `AuthScanners.ParseAuthParams` | src/Challenge.ts:405-434 | The loop reads all parameters up to another scheme; what that means for printed and handwritten ones, repeated, malformed and unterminated ones included, the rows below state |
| `AuthScanners.LowerFoldsLetters` | src/Challenge.ts:415 | Two texts have one lower-case form exactly when they differ at most in the case of ASCII letters |
| `SchemeScan.ExactlyThePaymentsStart` | src/Challenge.ts:516-545 | In a list of well-formed challenges of any schemes, the scan finds exactly where the Payment ones start, whatever their quoted values contain |
| `SchemeScan.ScanJoin` | src/Challenge.ts:516-545 | The same from any place of a longer list |
| `SchemeScan.QuotedBodyIsSkipped` | src/Challenge.ts:524-529 | Nothing within a quoted-string starts a scheme |
| `SchemeScan.WordHoldsNoScheme` | src/Challenge.ts:494-498 | A name, token or bare scheme holds no scheme start past its first unit |
| `SchemeScan.ScanAuth` | src/Challenge.ts:521-542 | One challenge adds a start exactly if it is a Payment one |
| `ParameterRoundTrip.UnquoteUndoesEscape` | src/Challenge.ts:338-349 | Reading back an escaped value, quotes, backslashes and units above Latin-1 included, gives the value |
| `ParameterRoundTrip.EscapedTextStaysQuoted` | src/Challenge.ts:338-349 | An escaped value never closes its quoted-string |
| `ParameterRoundTrip.EscapeOneUnit` | src/Challenge.ts:340-347 | The three replacements act on each unit by itself |
| `ParameterRoundTrip.HexReadsBack` | src/Challenge.ts:464-466 | Four printed hexadecimal digits read back as the unit |
| `ParameterRoundTrip.ReadWrittenParameter` | src/Challenge.ts:404-434 | A printed parameter reads back with its lower-case name and value |
| `ParameterRoundTrip.ReadWrittenParameters` | src/Challenge.ts:405-434 | All printed parameters read back, whatever their names, in a list followed by anything that ends parsing; a repeated name is refused |
| `ParameterRoundTrip.PrintedParametersParse` | src/Challenge.ts:405-434 | Any non-empty list of printed parameters parses to exactly those pairs if and only if their lower-case names are distinct, and otherwise to the error for a repeated one |
| `ParameterRoundTrip.AnotherSchemeEndsThem` | src/Challenge.ts:420-421 | Parsing stops before a following challenge of another scheme |
| `HandwrittenChallenges.HandwrittenParametersParse` | src/Challenge.ts:405-443 | Parameters written in any form (commas and white space between them and around `=`, unquoted values with white space after them, quoted ones with plain, escaped and numbered units) parse to what they mean, unless a name is repeated |
| `HandwrittenChallenges.FormsParse` | src/Challenge.ts:405-434 | The same with anything after them, where parsing goes on |
| `HandwrittenChallenges.FormReads` | src/Challenge.ts:409-427 | One parameter in any of these forms reads as its lower-case name and value |
| `HandwrittenChallenges.UnquotePieces` | src/Challenge.ts:446-491 | Quoted units read as what they mean, with numbers in either case of digit and an escaped `u` that no number follows as itself |
| `HandwrittenChallenges.UnterminatedQuotesAreRefused` | src/Challenge.ts:490 | After any parameters, a quoted value without its closing quote is refused, even when the text ends with a backslash |
| `HandwrittenChallenges.MalformedParametersAreRefused` | src/Challenge.ts:416 | After any parameters, one that does not begin with a name is refused |
| `HandwrittenChallenges.HandwrittenChallengeReads` | src/Challenge.ts:368-402 | A Payment challenge in any of these forms, its scheme in any case, deserializes as its parameters say; one without any is refused as missing |
| `ChallengeRoundTrip.PresentReads` | src/Challenge.ts:315-332 | Exactly the fields that are set are written, under distinct names |
| `ChallengeRoundTrip.DeserializeFirst` | src/Challenge.ts:368-402 | A Payment challenge, its scheme in any case and with whatever printed parameters, deserializes to what they say, whatever other schemes follow it |
| `ChallengeRoundTrip.RepeatedParametersAreRefused` | src/Challenge.ts:429 | A challenge that repeats a parameter, in whatever case, deserializes to the error for it |
| `ChallengeRoundTrip.WhatIsRead` | src/Challenge.ts:368-391 | Exactly which parameters make a challenge: the required ones, no `meta`, a request within the limit that decodes, and well-formed others; and each field is what was written, absent when empty |
| `ChallengeRoundTrip.PrintedIsPaid` | src/Challenge.ts:314-335 | A printed challenge is well-formed, and reads as the map of its parameters |
| `ChallengeRoundTrip.ReadBackIsNormal` | src/Challenge.ts:377-390 | What reads back validates exactly when the challenge was valid, and is its normal form |
| `ChallengeRoundTrip.RoundTrip` | src/Challenge.ts:314-391 | One challenge without line breaks round-trips to its normal form exactly when it is valid |
| `ChallengeRoundTrip.ReprintingChangesNothing` | src/Challenge.ts:314-391 | Whatever text a challenge was read from, printing it and reading that gives it again, exactly when its request prints within the limit |
| `ChallengeRoundTrip.PrintsALegalHeader` | src/Challenge.ts:338-349 | Printing fails exactly for a line break in a field, and what it gives holds Latin-1 units alone and no line break |
| `ChallengeLists.DeserializeChunks` | src/Challenge.ts:658-664 | The slices between starts each hold one Payment challenge, of whatever parameters, and the other schemes after it |
| `ChallengeLists.ReadsExactlyThePayments` | src/Challenge.ts:652-665 | With other schemes anywhere among them, `deserializeList` reads exactly the Payment challenges, of whatever parameters, in order, and fails as the first that fails |
| `ChallengeLists.RepeatedParametersRefuseTheHeader` | src/Challenge.ts:429 | A list that repeats a parameter within a Payment challenge is refused, with the error for it unless an earlier one is refused |
| `ChallengeLists.OtherSchemesAreRefused` | src/Challenge.ts:652-656 | A list without a Payment challenge is refused by both readers |
| `ChallengeLists.ListRoundTrip` | src/Challenge.ts:644-665 | Serializing a list, joining with ", " and deserializing gives all Payment challenges in order and normal form, exactly when all are valid |
| `Settlement.SettleableAmount` | src/tempo/session/server/ChannelStore.ts:590-611 | The greatest voucher that is spent and above what is settled, or what is settled |
| `Settlement.Threshold` | src/cloudflare/ChannelStore.ts:374-384 | The greatest of a tenth of the deposit, the configured minimum and 1 |
| `Settlement.DueByVouchers` | src/cloudflare/ChannelStore.ts:391-399 | A channel is due exactly when it is not finalized and has a voucher to capture, and at once exactly when one captures a threshold's worth |
| `Settlement.MarkersCountFor55Seconds` | src/cloudflare/ChannelStore.ts:325-371 | The server's marker counts for 55 seconds after the second it stands for, and only then hides a close request |
| `Settlement.PendingCloseEndIsExact` | src/cloudflare/ChannelStore.ts:342-371 | The end of the close marker is exactly the first millisecond at which it no longer counts |
| `Settlement.Watchdog` | src/cloudflare/ChannelStore.ts:194-198 | A closing channel waits at most two minutes, and no delay is negative |
| `Settlement.WatchdogDoubles` | src/cloudflare/ChannelStore.ts:194-198 | The first delay is the configured one and each is twice the one before, cut at two minutes for a closing channel |
| `Settlement.ChannelObject.WakeBy` | src/cloudflare/ChannelStore.ts:354-358 | The alarm becomes the earlier of both times |
| `Settlement.ChannelObject.Write` | src/cloudflare/ChannelStore.ts:53-104 | Stores the channel, and keeps, restarts or drops the bookkeeping and moves the alarm: one step of the runs |
| `Settlement.ChannelObject.Alarm` | src/cloudflare/ChannelStore.ts:107-177 | The handler's effect up to the queue send, and which channel it sends; when it sends one, `SettlementTimes` states |
| `Settlement.ChannelObject.Sent` | src/cloudflare/ChannelStore.ts:189-209 | The bookkeeping after an accepted send, counted against what a write during it left |
| `Settlement.ChannelObject.SendFailed` | src/cloudflare/ChannelStore.ts:180-188 | The bookkeeping and back-off after a failed send |
| `SettlementRuns.StepKeepsInvariant` | src/cloudflare/ChannelStore.ts:53-210 | Every write, alarm, accepted and failed send keeps counts and alarm consistent |
| `SettlementRuns.NeverLosesAChannel` | src/cloudflare/ChannelStore.ts:53-210 | In every interleaving, outside a handler, bookkeeping comes with an alarm, and a channel with something to settle has bookkeeping or was given up after exactly `maxAttempts` accepted sends without a restart |
| `SettlementRuns.AtMostMaxAttemptsSends` | src/cloudflare/ChannelStore.ts:165-209 | Between two restarts of the count at most `maxAttempts` sends are accepted, writes during sends included |
| `SettlementRuns.SentCountsSends` | src/cloudflare/ChannelStore.ts:189-206 | The count is the number of accepted sends since the last restart |
| `SettlementRuns.NeverSleepsPastTheMarker` | src/cloudflare/ChannelStore.ts:95-103 | While bookkeeping exists the alarm never sleeps past the end of the close marker, but to back off from a failed send |
| `SettlementRuns.StepKeepsUrgentInvariant` | src/cloudflare/ChannelStore.ts:68-103 | Every step that is not exposed keeps uncaptured vouchers from waiting, and keeps them to the first send of a count |
| `SettlementRuns.UrgentNeverWaits` | src/cloudflare/ChannelStore.ts:134-151 | While no step of a run is exposed, a threshold's worth of uncaptured vouchers never waits for the watchdog: its alarm was due when they were written or backs off from a failed send; with `maxAttempts` 1, and then alone, it may be the end of the close marker |
| `SettlementRuns.WaitsIffTheSendIsExposed` | src/cloudflare/ChannelStore.ts:74-104 | When a send starts, some write during it that takes back nothing settled on-chain can leave a threshold's worth waiting if and only if the send is exposed (it captures less than the one before, with no more settled since, and the watchdog does not ring at once or finds the attempts spent) or is the only attempt |
| `SettlementRuns.VouchersCanWait` | src/cloudflare/ChannelStore.ts:134-137 | A concrete run, with the default settings, in which 3 500 wait ten minutes after a credit |
| `SettlementRuns.OneAttemptCanWait` | src/cloudflare/ChannelStore.ts:74-76 | A concrete run with a single attempt and no exposed step in which 2 000 wait for the close marker |
| `SettlementRuns.StepKeepsClosingInvariant` | src/cloudflare/ChannelStore.ts:195-198 | Each send of a closing channel comes within two minutes of the one before |
| `SettlementRuns.ClosingSendsFitTheGracePeriod` | src/cloudflare/ChannelStore.ts:242-246 | All sends of a channel closing since its first fall within (`maxAttempts` - 1) * 2 minutes of it, with alarms on time and no restart |
| `SettlementTimes.AlarmsSendExactlyInTime` | src/cloudflare/ChannelStore.ts:106-152 | In every run, an alarm that fires sends an unsent channel exactly when it had no write for `staleAfterMs`, has a threshold's worth unsettled or is closing; and a sent one exactly for a new close request, or with attempts left when its watchdog rang, its last send failed or a threshold's worth is uncaptured |
| `SettlementTimes.NeverOversleeps` | src/cloudflare/ChannelStore.ts:95-104 | At rest with attempts left, the alarm never sleeps past the time a channel goes stale, nor past a sent one's watchdog, but to back off from a failed send |
| `SettlementTimes.StepKeepsTimes` | src/cloudflare/ChannelStore.ts:53-210 | Every step keeps the stored times those of the last write and the last accepted send |
| `SettlementTimes.FailuresBackOff` | src/cloudflare/ChannelStore.ts:180-188 | A send that fails, with no write meanwhile, is tried again `retryMs` later and no sooner |
| `CloseRequests.CloseRequestsNeverWait` | src/cloudflare/ChannelStore.ts:71-103 | While no step of a run is exposed, a close request no send covers never waits: at rest its alarm has come, or backs off from a failed send |
| `CloseRequests.WaitsIffTheSendUncovers` | src/cloudflare/ChannelStore.ts:71-79 | When a send starts, some write during it that takes back nothing settled on-chain can leave its close request waiting if and only if the send no longer has the close request the last one covered, with nothing more settled since, and the watchdog delay is not 0 |
| `CloseRequests.CloseRequestsCanWait` | src/cloudflare/ChannelStore.ts:71-79 | A concrete run, with the default settings, in which a close request waits ten minutes |
| `EventStream.Parser.constructor` | src/internal/sse.ts:18-23 | A new parser has emitted what the standard gives for the empty text |
| `EventStream.Parser.ParseLine` | src/internal/sse.ts:25-40 | One line acts on the kept fields as the standard's line processing acts on its buffers |
| `EventStream.Parser.Accept` | src/internal/sse.ts:44-53 | Drops a leading byte order mark once, and the line feed of a `\r\n` split across chunks |
| `EventStream.Parser.TakeLines` | src/internal/sse.ts:58-77 | The scan with two cached positions processes exactly the finished lines and keeps the rest |
| `EventStream.Parser.Feed` | src/internal/sse.ts:44-78 | After every chunk the events emitted are those of the standard for the text so far, and all that is kept is a function of that text |
| `EventStream.ParseChunks` | src/internal/sse.ts:9-17 | However a text is cut into chunks, the events are those of the whole text |
| `EventStream.Advance` | src/internal/sse.ts:49-77 | What is kept after a longer text follows from what was kept and the new chunk alone |
| `EventStream.FoldAppend` | src/internal/sse.ts:58-77 | Processing the lines of a text in two parts is processing them at once, breaks cut in half included |
| `EventStream.EventsAreNeverWithdrawn` | src/internal/sse.ts:9-17 | More text never changes the events already emitted |
| `EventStreamPrinting.PrintedEventsComeBack` | src/internal/sse.ts:25-40 | Events with types and data of any lines, written out as a stream, are the events of that stream |
| `EventStreamPrinting.PrintAndParse` | src/internal/sse.ts:9-40 | A parser fed such a stream, however it is cut, emits exactly the events written |
| `EventStreamPrinting.OtherLinesAreIgnored` | src/internal/sse.ts:32-35 | Comments and other fields change nothing |
| `EventStreamPrinting.ShortLines` | src/internal/sse.ts:26-39 | A type without data is forgotten at the blank line, and a bare field name has the empty value |
| `EventStreamPrinting.OneSpaceIsDropped` | src/internal/sse.ts:37 | One space after the colon is dropped, if there is one |
| `LookupIndex.LookupKeys` | src/cloudflare/Channels.ts:390-403 | Exactly the keys of the payer and of the signer, of a channel that resumes, and none twice |
| `LookupIndex.UpdatesKeepBounds` | src/cloudflare/Channels.ts:49-84 | Each atomic update of an entry keeps it free of duplicates and within eight channels, whatever was read before it |
| `LookupIndex.EntriesStayBounded` | src/cloudflare/Channels.ts:60-87 | So does every interleaving of them |
| `LookupIndex.AddedComesFirst` | src/cloudflare/Channels.ts:60-64 | An added channel comes first and any two others stand in the order they stood; those taken for closed make room, and with none of them a full entry drops its oldest channel: `[id]` and the first seven |
| `LookupIndex.FullEntriesDropTheClosedFirst` | src/cloudflare/Channels.ts:60-84 | A full entry drops an open channel only when all eight are open, and then the oldest |
| `LookupIndex.RoomDropsNothing` | src/cloudflare/Channels.ts:71-82 | An entry with room drops nothing, not even a closed channel |
| `LookupIndex.RemovalKeepsOrder` | src/cloudflare/Channels.ts:53 | Removing a channel leaves any two others in their order |
| `LookupIndex.WithoutKeepsOrder` | src/cloudflare/Channels.ts:53-81 | Filtering an entry leaves any two kept channels in their order |
| `LookupIndex.SyncAt` | src/cloudflare/Channels.ts:97-106 | What a write and its sync do to one entry with room, whatever other keys hold and whichever entry updates fail: nothing to other channels, and the channel's own place put right unless this update failed |
| `LookupIndex.WriteKeepsAgreement` | src/cloudflare/Channels.ts:97-106 | A write and its sync keep the entry of every key with room exact, however full others are |
| `LookupIndex.NextWriteRepairs` | src/cloudflare/Channels.ts:89-96 | After any subset of entry updates failed, the channel's next write puts every missing entry in, and an entry stays inexact if and only if a removal from it failed that the next write does not make up for |
| `LookupIndex.AgreementNeedsRoom` | src/cloudflare/Channels.ts:368-369 | An entry cannot be exact for a key with more than eight channels |
| `LookupIndex.IndexAgreesExactlyWhileItFits` | src/cloudflare/Channels.ts:89-106 | For every sequence of writes and every key, whatever other keys do: the key's entry is exact after every write if and only if the key never has more than eight channels |
| `ChannelIndex.Store.Remove` | src/cloudflare/Channels.ts:49-58 | Afterwards the entry does not list the channel, and without other writers nothing else changed |
| `ChannelIndex.Store.FindClosed` | src/cloudflare/Channels.ts:71-72 | Without other writers, exactly the listed channels that no longer resume |
| `ChannelIndex.Store.Add` | src/cloudflare/Channels.ts:65-87 | With others writing at every wait, it ends within three rounds, and then the entry lists the channel or the channel no longer resumes |
| `ChannelIndex.Store.Sync` | src/cloudflare/Channels.ts:97-106 | Without other writers, moves exactly the entries of the previous state to those of the next, but for those whose update fails |
| `ChannelIndex.Store.Write` | src/cloudflare/Channels.ts:108-138 | A put, delete or update and its sync, alone: exactly one write of the sequences the agreement is proved for |
| `Leases.ChannelKey.Claim` | src/cloudflare/Channels.ts:297-313 | Takes the lease exactly when the value is a channel without a lease running at the captured time |
| `Leases.ChannelKey.Renew` | src/cloudflare/Channels.ts:316-328 | Extends the lease only for its owner |
| `Leases.ChannelKey.Release` | src/cloudflare/Channels.ts:331-337 | Removes the lease only for its owner |
| `Leases.StepKeepsInvariant` | src/cloudflare/Channels.ts:297-337 | Every claim, renewal and release, committed with a stale clock reading, keeps running leases stored |
| `Leases.RunningLeaseIsStored` | src/cloudflare/Channels.ts:244-250 | While the last lease a job wrote runs, it is the stored one |
| `Leases.NoTwoSettleWithinTheirLeases` | src/cloudflare/Channels.ts:292-296 | Two jobs settle a channel at once only after the lease of one of them lapsed |
| `Leases.TakeoverNeedsALapse` | src/cloudflare/Channels.ts:297-303 | A claim succeeds only after every other settling job's lease lapsed, and the stored one already when the claim read its clock |
| `Leases.LateStepsTouchNoOtherLease` | src/cloudflare/Channels.ts:315-337 | A late renewal or release changes nothing while another job's lease runs |
| `Leases.FinishedJobsHoldNothing` | src/cloudflare/Channels.ts:251-254 | A released or refused job owns no lease, even with renewals of it still under way |
| `Leases.UpdatesTouchTheLeaseAlone` | src/cloudflare/Channels.ts:297-337 | A claim, renewal or release changes no more of the channel than its lease, makes and removes no channel, and leaves another owner's lease |
| `Leases.JobsTouchTheLeaseAlone` | src/cloudflare/Channels.ts:297-337 | So does every run of jobs without other writers |
| `Leases.OwnersRelease` | src/cloudflare/Channels.ts:331-337 | A settling job that releases while its lease runs leaves the same channel without a lease |
| `Leases.FreeChannelsAreClaimed` | src/cloudflare/Channels.ts:297-313 | Once no lease runs, a job that starts takes the channel |
| `Redirects.Prepare` | src/client/Mppx.ts:668-754 | Against any server: at most `maxRedirects` + 1 requests, each following from the one before and its answer; when and how it ends; and the recorded hops are those between the requests |
| `Redirects.FollowTo` | src/client/Mppx.ts:733-752 | Each hop, header by header, builds exactly the request the runs are proved for |
| `Redirects.WhatIsFollowed` | src/client/Mppx.ts:703-731 | Exactly which answers are followed, and where to |
| `Redirects.WhatEndsTheRun` | src/client/Mppx.ts:697-731 | How every other answer ends the run |
| `Redirects.MethodsGoOn` | src/client/Mppx.ts:733-742 | Which requests go on as a GET without a body; all others keep method and body |
| `Redirects.DropCredentials` | src/client/Mppx.ts:743-748 | Removes exactly the listed headers and the values of the Payment scheme |
| `Redirects.DropBodyHeaders` | src/client/Mppx.ts:738-742 | Removes exactly the headers of a body |
| `Redirects.HttpsIsNeverLeft` | src/client/Mppx.ts:728-731 | Once a request of a run is https, every later one is |
| `Redirects.HopStripsCredentials` | src/client/Mppx.ts:743-748 | A hop to another origin leaves no credential, and no later hop brings one back |
| `Redirects.CredentialsStayBehind` | src/client/Mppx.ts:743-748 | After the first hop to another origin no request of the run carries a listed header, or a Payment value but an injected `Accept-Payment` |
| `Redirects.HopKeepsBareGet` | src/client/Mppx.ts:735-742 | A switch to GET drops body and body headers, and no hop brings them back |
| `Redirects.GetCarriesNoBody` | src/client/Mppx.ts:735-742 | After a switch to GET every request of the run is a GET without body or body headers |
| `Redirects.PlainHopsRepeatTheRequest` | src/client/Mppx.ts:733-752 | Hops that keep origin and method repeat the first request's method, body and headers |
| `Redirects.OrdinaryHeadersTravelOn` | src/client/Mppx.ts:733-748 | A header that is no credential and describes no body travels on every hop of a run |
| `Redirects.HopsAddNoHeaders` | src/client/Mppx.ts:733-752 | No hop adds a header but an injected `Accept-Payment` |
| `Redirects.AcceptPaymentFollowsThePolicy` | src/client/Mppx.ts:775-787 | Every request of a run carries the configured `Accept-Payment` exactly where the policy says, and one the caller set is never replaced, and kept within its origin |
| `AcceptPayment.ReadParameters` | src/internal/AcceptPayment.ts:304-317 | The loop keeps the last weight and stops at the first error |
| `AcceptPaymentRoundTrip.TrimmingShortens` | src/internal/AcceptPayment.ts:372-377 | The two replacements leave a fraction without trailing zeros, and none at all for zero |
| `AcceptPaymentRoundTrip.FormattedQReadsBack` | src/internal/AcceptPayment.ts:354-377 | `formatQ`'s trimming is undone by `parseHeaderQ`, for every number of thousandths below 1 |
| `AcceptPaymentRoundTrip.SerializedSplits` | src/internal/AcceptPayment.ts:126-129 | A printed list splits into exactly its printed entries |
| `AcceptPaymentRoundTrip.QTextReads` | src/internal/AcceptPayment.ts:304-324 | The printed parameter of an entry gives its weight back |
| `AcceptPaymentRoundTrip.RenderedEntryParses` | src/internal/AcceptPayment.ts:291-320 | A printed entry parses to itself with its place as index |
| `AcceptPaymentRoundTrip.ParseGivesValidEntries` | src/internal/AcceptPayment.ts:125-134 | Whatever a header says, the entries read have token or `*` names, a weight of at most 1 and their places as indexes |
| `AcceptPaymentRoundTrip.RoundTrip` | src/internal/AcceptPayment.ts:124-144 | Printing entries and parsing gives the same entries indexed by place, exactly when there are any and all are valid |
| `AcceptPaymentRoundTrip.CanonicalFormMeansTheSame` | src/internal/AcceptPayment.ts:124-144 | Printing what a header was read as, and reading that, changes nothing |
| `HandwrittenPreferences.HandwrittenHeaderReads` | src/internal/AcceptPayment.ts:125-134 | A header with white space around every mark, empty members and any parameters reads as its entries in order, each with the weight of its last `q`, 1 without one; it is refused exactly if it lists none or has an invalid `q` |
| `HandwrittenPreferences.PreferenceReads` | src/internal/AcceptPayment.ts:291-320 | The same of one entry |
| `HandwrittenPreferences.WeightsAreTheForms` | src/internal/AcceptPayment.ts:354-359 | The weights accepted are exactly those of the grammar, 0 with up to three digits and 1 with up to three zeros, each with its thousandths |
| `HandwrittenPreferences.WeightIsRead` | src/internal/AcceptPayment.ts:303-318 | Parameters of other names change nothing, the last `q` decides, and an invalid one is refused wherever it stands |
| `HandwrittenPreferences.OnlyTheseAreEntries` | src/internal/AcceptPayment.ts:292-302 | Nothing else is read as an entry: two tokens with a slash between, white space around it, and parameters behind a semicolon |
| `HandwrittenPreferences.OnlyTheseAreParameters` | src/internal/AcceptPayment.ts:307-313 | Nothing else is read as a parameter: a name, `=`, white space around it, and a value without any |
| `HandwrittenPreferences.MalformedParametersAreRefused` | src/internal/AcceptPayment.ts:311-313 | A malformed parameter is refused, wherever it stands |
| `PaymentRanking.BestMatch` | src/internal/AcceptPayment.ts:248-271 | Returns a matching preference that none exceeds in specificity, then weight, then place, or none exactly when none matches |
| `PaymentRanking.BestQIsUnique` | src/internal/AcceptPayment.ts:146-151 | The weight of the best match does not depend on which one is picked |
| `PaymentRanking.QIgnoresOrder` | src/internal/AcceptPayment.ts:146-151 | Nor on the order or repetition of preferences |
| `PaymentRanking.WeightByTiers` | src/internal/AcceptPayment.ts:146-151 | The weight is the greatest written for both names, else for one with a wildcard, else for two wildcards, else 0 |
| `PaymentRanking.SortSorts` | src/internal/AcceptPayment.ts:162 | Sorting orders by weight with ties in list order |
| `PaymentRanking.SortedIsUnique` | src/internal/AcceptPayment.ts:162 | That order is the only one |
| `PaymentRanking.Rank` | src/internal/AcceptPayment.ts:152-164 | Exactly the offers of positive weight, by falling weight, ties in offer order |
| `PaymentRanking.RankingIgnoresPreferenceOrder` | src/internal/AcceptPayment.ts:152-164 | There is one ranking, the same for permuted preferences |
| `PaymentRanking.ExactOptOutWins` | src/internal/AcceptPayment.ts:149-150 | An exact preference of weight 0 keeps an offer out, whatever the wildcards say |
| `ChallengeSelection.GroupSigners` | src/internal/AcceptPayment.ts:196-202 | Groups the methods by key, in order, and throws exactly for a nameless one |
| `ChallengeSelection.KeysMatchByName` | src/internal/AcceptPayment.ts:196-228 | Keys match exactly when both names do, as no method name holds a slash |
| `ChallengeSelection.AddCandidates` | src/internal/AcceptPayment.ts:205-228 | Appends exactly the eligible pairs of one challenge |
| `ChallengeSelection.SortCandidates` | src/internal/AcceptPayment.ts:229-234 | Keeps the candidates and orders them by protocol, weight, challenge and method |
| `ChallengeSelection.SelectCandidates` | src/internal/AcceptPayment.ts:190-239 | Exactly the eligible pairs, native before x402, then by falling weight, then as offered and configured |
| `ChallengeSelection.NativeComesFirst` | src/internal/AcceptPayment.ts:287-289 | Every native challenge precedes every x402 one |

## Left out

- `AtomicStore.UpdatesLinearize`: a callback or encoder that throws ends its call without another step, so such a call is one that never returns; the backoff's length and lost responses are not modelled either.
- `StoreBackends.StoreObject.Commit`: a subclass's `onWrite` runs in the same transaction; module `Settlement` models the one of the channel store, and the hook in general is left out.
- `DeepEqual.EqualIffIsomorphic`: dates, regular expressions, boxed primitives, buffers and typed arrays are leaves with their own equality; views that share a buffer are not told apart.
- `Claims.ClaimsNeverOverlap`: covers every claim that commits; the wrapper's last check, which turns a claim that expired meanwhile into a refusal, only reports fewer.
- `ReplayShards.ShardRunsAreSafe`: an alarm handler that throws is delivered again, as the runtime does; expiries are whole milliseconds.
- `StoreObjects.ShardOfIsAShard`: the hash that picks a shard is any number, since nothing depends on it but the shard.
- `StoreObjects.ObjectsActAsOneMap`: an object's storage is one place for what it serves, not a map of its own keyed by the key again; the settlement bookkeeping kept beside a value is in module `Settlement`.
- `ChannelIndex.Store.Sync`: the entries of one sync are updated one after another; they are different keys, which no update shares.
- `ChannelIndex.Store.Write`: with other writers, promises the bounds of every entry and no agreement, which then need not hold.
- `LookupIndex.IndexAgreesExactlyWhileItFits`: the lookup key is a record of the addresses and the chain instead of the joined text, and a channel is stored under its own id.
- `Redirects.Prepare`: identity providers, how URLs resolve and which URLs a request refuses are left to the caller, and so is a content type a runtime adds by itself.
- `ChallengeRoundTrip.RoundTrip`: request and correlation data are encoded by a codec with a stated inverse; base64url and JSON are not modelled, nor is the HMAC of the id.
- `Settlement.ChannelObject.Alarm`: a missing queue binding, which fails the alarm, and delays that are not whole milliseconds are left out; the object holds one channel, so the bookkeeping's key is implicit.
- Markers whose stored expiry is not a finite number, which only a direct write could store.
- `resolveChannelId` and the message loop of `settle`: branch readings over the lookup and the lease.
- The Redis, Upstash and Cloudflare KV stores and key prefixes: thin wrappers over a client's own operations.
- Copying a store class's prototype chain for Workers RPC.
- Servers, middlewares, the proxy, the command line, HTML and MCP: request plumbing over modules that are not part of this model.
