# VelChat's stateful cores, modelled and proved

VelChat is a chat backend. Most of it moves data between HTTP, SQL and Redis; this project models the
parts whose correctness is an argument over whole graphs, runs or interleavings, and proves it.

| module | what it models |
|---|---|
| `FlagEngine`, `Variants`, `FlagService` | feature flags: one flag's decision, bucketing and weighted variants, and the memoised evaluator with its cycle guard over an arbitrary dependency graph |
| `NumberTheory`, `Bignum`, `Codecs`, `Oprf` | the RSA oblivious pseudo-random function: big-integer arithmetic, octet-string and base64url codecs, blinding protocol, stored keys |
| `SeqProtocol`, `SeqNext`, `SeqExact`, `SeqLimits`, `SendProtocol` | message sequence numbers over a volatile and a durable counter, what an uninterrupted call hands out, exactly when they keep rising, runs in which they do not, and idempotent send over two unique indexes |
| `StreamBus`, `BusStart` | the Redis Streams bus: delivery, retry, dead-lettering, reclaim and crashes; and starting it again after late subscriptions |
| `WorkflowJobs`, `Outbox` | the durable workflow job chain and the push outbox |
| `Membership`, `ChannelsRepository`, `ChannelsService` | groups, channels and direct messages, last-owner protection, the sender-key epoch, and the projection other services build from events; and the service's own steps over the rows of its two tables |
| `Media`, `ViewOnce` | content-addressed blobs with reference-counted removal, and concurrent view-once consumption |
| `RateLimit`, `SendQueue` | the edge's fixed-window limiter and the per-connection send queue |

Code that changes its own state is a class whose methods are proved against a function or an
invariant: the flag evaluator, the bus's `start`, the outbox worker, the channel service, the
projection, the media service, the limiter, the queue. Code that several processes run at once is a
state machine in which every Redis, Mongo or Postgres call, every handler run and every crash is one
step (`Do`), a run is any list of steps (`Exec`), and a theorem about `Exec` is a theorem about every
interleaving. `StreamBus.Consumer.HandleEntry` then runs one delivery in the source's own control flow
and is proved to take only steps of that machine.

Clocks, random draws, hashes, providers' answers and handlers' outcomes are parameters. A feature
flag's bucket is a parameter of the engine too, so its theorems hold for any hash; `Variants.HashBucket`
is the hash the source uses. Percentages and weights are exact reals.

## Where the code does less than it says

Each of these is proved: a lemma exhibits the failure, and the condition under which the promise holds
is stated beside it.

- The counter's comment calls a reset impossible. Numbers keep rising above everything stored, counted,
  held and handed out, however a run goes on, if and only if four conditions hold at its steps
  (`RisesExactlyWhenCareful`; `StepRisesExactly` for each step of each reachable state):
  - a key is lost only when it is not above the durable floor, and while every send is current, that is,
    what it has read of the floor is still right and what it holds is durable (`LossIsSafeExactly`).
    Otherwise numbers are handed out again: one whose send was given up (`LossReissues`), one still
    held (`LossInFlightReissues`), or one already stored (`StaleReaderReissues`);
  - Redis comes back only while every send is current, and none is on the fallback path
    (`RestartIsSafeExactly`, `RestartInFlightReissues`);
  - Redis stops only when it has no key (`OutageIsSafeExactly`);
  - a read of the floor, which counts as zero when it fails, fails only where zero does no harm
    (`FailedReadIsSafeExactly`, `BlindNumberIsFreshExactly`, `FailedReadReissues`,
    `FailedFallbackReadReissues`).

  In runs of such steps a send's first attempt always goes through (`InsertNeverCollides`). If only
  lost keys above the floor are let in as well, a number may repeat one that was never stored, but none
  that is stored or held (`FreshInEveryRun`).
- An outage during which Redis keeps its key leaves the warm key behind. However many senders follow,
  each collides at most once per message stored meanwhile above the key; a lone one collides exactly
  that often (`WarmKeyBehind`). Three attempts suffice for all of them exactly when fewer than three
  messages were stored (`ThreeAttemptsSufficeExactly`), and every such state is reached by a run
  (`BehindIsReachable`).
- The bus's processed mark carries no group. With one handling group, acknowledged means handled or
  dead-lettered (`SoleGroupHandlesItself`); with a second one, publishing any new event can leave it
  acknowledged there without that group's handler ever running (`SecondGroupSkips`). A group never
  skips a new event exactly when it is the only one with a handler (`NeverSkipsExactlyWhenSole`).
- The coverage key of a subscription joins group and topic by a space. Two group ids share a key for
  some topics exactly when one continues the other after a space (`KeysCollideExactly`), and then a
  subscription never gets a reader (`SecondIsLostExactly`); after a start, all subscriptions have one
  exactly when their keys are distinct (`Bus.Start`).
- The sampling width accepts at least about half of the draws exactly when the bound's bit length is a
  multiple of eight; in general one in 256 (`SamplingWidth`, `SamplingCanBeSlow`).
- A workflow step that took effect takes effect again if enqueueing the next job fails, or if marking
  the job done fails, and in the second case the rest of the chain runs twice as well. Steps take
  effect exactly once and in order, however a run goes on, if and only if no such call fails while its
  job has runs left (`OnceEachExactlyWhenNoSlip`).
- Two rows of a workflow chain can be running at once, since the next job is enqueued before the
  current one is marked done (`TwoRowsRunning`); the earlier one is then about to be marked done
  (`LiveRows`), and only one has its step still to run (`OneStepAtATime`).
- `setMemberRole` keeps admins from making owners, but `addMember` lets an admin add a newcomer as
  owner (`AdminAddsOwner`); these, promotion by an owner and creation are all the ways to become one
  (`NewOwnerExactly`).
- `leaveChannel` changes a group's members without rotating its epoch (`LeavingKeepsTheEpoch`).
- Re-creating a direct message that one side has left puts the leaver back into the projection, and a
  community's announcement channel never reaches it (`StaysSyncedExactlyWhenAnnounced`,
  `ReopenedDmDiverges`).
- A streamed upload records a content hash but stores under the media id; buffering the same bytes
  later then yields a ready row without a blob (`StreamThenBuffered`). Streaming again to a ready row
  and failing removes the blob the row still points to (`FailedRestream`). No row's blob is ever
  missing, in a run of any operations, if and only if neither happens (`BlobsPresentExactly`).

## Model

| member | source | states |
|---|---|---|
| FlagEngine.OnExactlyWhen | libs/feature-automation/src/feature-flags/evaluation.engine.ts:100-152 | a flag is on exactly when it is on by itself and every dependency is on |
| FlagEngine.DecisionOrder | libs/feature-automation/src/feature-flags/evaluation.engine.ts:92-152 | over the flag's and the context's own fields: for each reason exactly when it is reported, in order maintenance, kill switch, dependencies, override, rules, segments, percentage; and the value and variant that come with it, a rolled-out experiment's being those of the variant that serves its bucket |
| FlagEngine.DecidedIsUnique | libs/feature-automation/src/feature-flags/evaluation.engine.ts:92-152 | no other result fits that description |
| FlagEngine.MatchRuleExactly | libs/feature-automation/src/feature-flags/evaluation.engine.ts:49-75 | a rule matches exactly when its attribute is known and its operator, over plain values, numbers or versions, says so |
| FlagEngine.OperatorLaws | libs/feature-automation/src/feature-flags/evaluation.engine.ts:49-75 | for a known attribute exactly one of eq and neq and one of semverGte and semverLt holds, in with one value is eq, gte and lte together mean equal numbers |
| FlagService.OnSetIsFixpoint | libs/feature-automation/src/feature-flags/feature-flags.service.ts:434-453 | the set of on flags satisfies "locally on and all dependencies on", on any graph |
| FlagService.OnSetIsLeast | libs/feature-automation/src/feature-flags/feature-flags.service.ts:434-453 | it is the least such set: contained in every set closed under the rule |
| FlagService.OnByPaths | libs/feature-automation/src/feature-flags/feature-flags.service.ts:434-453 | a flag is on exactly when every dependency chain from it stays among known, locally-on flags and is no longer than the flag set |
| FlagService.CycleIsOff | libs/feature-automation/src/feature-flags/feature-flags.service.ts:442-445 | a flag that reaches a dependency cycle, its own included, is off |
| FlagService.Evaluator.constructor | libs/feature-automation/src/feature-flags/feature-flags.service.ts:419-433 | a fresh evaluation starts with an empty memo and stack |
| FlagService.Evaluator.EvalKey | libs/feature-automation/src/feature-flags/feature-flags.service.ts:434-452 | memoised evaluation under a cycle guard terminates, restores the stack, keeps the memo right, and yields the flag's least-fixpoint result whatever is on the stack or in the memo |
| FlagService.Evaluator.EvaluateFlag | libs/feature-automation/src/feature-flags/evaluation.engine.ts:100-152 | the decision with dependencies looked up through the memo, stopping at the first that is off, is the one DecisionOrder describes |
| FlagService.EvaluateSet | libs/feature-automation/src/feature-flags/feature-flags.service.ts:411-461 | every flag of the bundle, and no other, gets its least-fixpoint result, as DecisionOrder describes it |
| FlagService.OrderDoesNotMatter | libs/feature-automation/src/feature-flags/feature-flags.service.ts:454-455 | permuting the flags changes no result |
| FlagService.MergeScopes | libs/feature-automation/src/feature-flags/feature-flags.service.ts:362-378 | one flag per key, the tenant's overriding the global one, in first-insertion order |
| FlagService.ByKeyIsLast | libs/feature-automation/src/feature-flags/feature-flags.service.ts:419 | of several flags with a key the last one counts |
| FlagService.KeyOrderIsFirst | libs/feature-automation/src/feature-flags/feature-flags.service.ts:362-378 | keys stand in the order of their first insertion |
| FlagService.RaisingRolloutIsMonotone | libs/feature-automation/src/feature-flags/evaluation.engine.ts:112-151 | raising any rollout percentages turns no flag off through any dependencies, and leaves the full result of on flags unchanged |
| Variants.HashBucket | libs/feature-automation/src/feature-flags/evaluation.engine.ts:9-18 | the loop computes the 32-bit FNV-1a hash of seed:key, reduced to 0..9999 |
| Variants.FnvVectors | libs/feature-automation/src/feature-flags/evaluation.engine.ts:9-18 | the hash gives the published FNV-1a values |
| Variants.PickVariant | libs/feature-automation/src/feature-flags/evaluation.engine.ts:77-88 | the scan finds the first variant whose running weight exceeds the scaled bucket, or a default |
| Variants.PickBetweenEdges | libs/feature-automation/src/feature-flags/evaluation.engine.ts:78-88 | a bucket goes to a variant exactly when it lies between two rounded running weights; the last-resort return is unreachable |
| Variants.PickServes | libs/feature-automation/src/feature-flags/evaluation.engine.ts:78-88 | a bucket goes to the variant whose share of the positive weights, laid end to end, contains the bucket's share of the buckets, or to the first if no weight is positive |
| Variants.FairShare | libs/feature-automation/src/feature-flags/evaluation.engine.ts:78-88 | each variant receives 10000 times its weight over the sum of the positive ones, to within one bucket, and zero or negative weights none |
| Variants.BucketsAddUp | libs/feature-automation/src/feature-flags/evaluation.engine.ts:78-88 | the variants partition the 10000 buckets |
| Bignum.NormaliseIsMod | libs/crypto/src/oprf/bignum.ts:22 | the double-remainder idiom is the mathematical residue, also for negative numbers |
| Bignum.ModPow | libs/crypto/src/oprf/bignum.ts:18-30 | square-and-multiply returns base^exp mod m for every integer base, exponent and positive modulus |
| Bignum.ExtGcdIsGcd | libs/crypto/src/oprf/bignum.ts:32-37 | the result divides both arguments and is the stated combination of them |
| Bignum.ExtGcdIsGreatest | libs/crypto/src/oprf/bignum.ts:32-37 | every common divisor divides the result |
| Bignum.ModInverseExists | libs/crypto/src/oprf/bignum.ts:39-44 | the call succeeds exactly for coprime arguments, and the result in [0, m) is an inverse |
| Bignum.ModInverseUnique | libs/crypto/src/oprf/bignum.ts:39-44 | any inverse below the modulus is the one returned |
| NumberTheory.Fermat | libs/crypto/src/oprf/rsa-oprf.ts:64-68 | Fermat's little theorem, on which the protocol rests; proved by the product of a residue's multiples |
| Oprf.RsaIdentity | libs/crypto/src/oprf/rsa-oprf.ts:43-45 | raising to e*d is the identity modulo a product of two distinct primes |
| Oprf.ObliviousEqualsDirect | libs/crypto/src/oprf/rsa-oprf.ts:32-73 | blind, evaluate, unblind yields exactly the direct token for every key of two distinct primes, every input and every r coprime to n, and fails to unblind for every other r |
| Oprf.DirectTokenSucceeds | libs/crypto/src/oprf/rsa-oprf.ts:47-73 | the token is the digest of the fixed-width octets of m^d mod n, m being the big-endian value of the input's own expansion modulo n, and never fails for length |
| Oprf.OnTheWire | libs/crypto/src/oprf/rsa-oprf.ts:32-45 | the client sends m * r^e mod n and gets the d-th power of what it sent |
| Oprf.KeyRoundTrip | libs/crypto/src/oprf/keys.ts:44-62 | each stored field is the text of its own number, and a stored key comes back unchanged exactly when its byte length is that of its modulus, as in every valid key |
| Codecs.BytesToBigIntIsOs2ip | libs/crypto/src/oprf/bignum.ts:3-6 | reading the hexadecimal text is OS2IP, section 4.2 of RFC 8017 |
| Codecs.EncodeDecode | libs/crypto/src/oprf/bignum.ts:8-16 | conversion to a fixed width succeeds exactly when the number fits, has that width, and decodes to the number |
| Codecs.DecodeEncode | libs/crypto/src/oprf/bignum.ts:3-16 | every non-empty octet string comes back from its value |
| Codecs.Base64UrlRoundTrip | libs/crypto/src/oprf/bignum.ts:61-71 | base64url text decodes to the octets it was made from, for every length |
| Codecs.ToBase64UrlIs | libs/crypto/src/oprf/bignum.ts:61-66 | three octets become the four characters for their 24 bits, one or two at the end two or three, without padding |
| Codecs.Alphabet | libs/crypto/src/oprf/bignum.ts:61-66 | the alphabet of section 5 of RFC 4648, in order |
| Codecs.CharSextetExactly | libs/crypto/src/oprf/bignum.ts:68-71 | the decoder reads that alphabet, the plain one's two other characters, and nothing else |
| Codecs.BigIntBase64RoundTrip | libs/crypto/src/oprf/bignum.ts:61-71 | a number comes back from its base64url text |
| Codecs.SamplingWidth | libs/crypto/src/oprf/bignum.ts:46-54 | max < 256^L <= 256*max, and 256^L <= 2*max exactly when the bit length is a multiple of eight |
| Codecs.SamplingCanBeSlow | libs/crypto/src/oprf/bignum.ts:49-54 | for the bound 256 fewer than one draw in 256 is accepted |
| Codecs.RandomBigIntBelow | libs/crypto/src/oprf/bignum.ts:53-59 | rejection returns the first draw in [2, max) |
| Codecs.OneDrawPerValue | libs/crypto/src/oprf/bignum.ts:46-59 | uniformity: each value in range is the value of exactly one draw |
| SeqProtocol.RunKeepsInv | libs/feature-chat/src/chat/seq.service.ts:32-138 | the counters' invariant holds in every interleaving of sends, crashes, failed best-effort writes, harmless failed reads, and of key losses and outages as far as SeqExact proves them safe |
| SeqProtocol.FreshInEveryRun | libs/feature-chat/src/chat/seq.service.ts:32-138 | in every such run each number handed out exceeds everything stored, the counter document, everything still held, everything since the last key loss, and, absent a loss of a key above the floor, everything ever handed out; cold-start races and fallback runs included |
| SeqProtocol.InsertNeverCollides | libs/feature-chat/src/chat/seq.service.ts:13-21 | in every such run no send holds a number that is stored or that another send holds, and its first of three attempts goes through |
| SeqNext.NextAlwaysHandsOut | libs/feature-chat/src/chat/seq.service.ts:32-138 | from every state a tame run reaches, a sender left to itself anywhere in next() is handed exactly the number after the key, or without one after the durable floor, within seven calls; the key and the counter are as they should be, and one more call stores the message |
| SeqNext.RaceLoserGetsNext | libs/feature-chat/src/chat/seq.service.ts:53-54 | whoever lost the race for the key is handed the number after it |
| SeqExact.RisesExactlyWhenCareful | libs/feature-chat/src/chat/seq.service.ts:32-138 | over a whole run: numbers keep rising from each of its points, however it goes on with careful steps, if and only if all of its own steps are careful |
| SeqExact.StepRisesExactly | libs/feature-chat/src/chat/seq.service.ts:32-138 | for every step of every reachable state: numbers keep rising in every careful continuation exactly when the step is careful |
| SeqExact.LossIsSafeExactly | libs/feature-chat/src/chat/seq.service.ts:46-54 | losing the key is safe in every continuation exactly when it is not above the durable floor and every sender's readings and holdings are current |
| SeqExact.RestartIsSafeExactly | libs/feature-chat/src/chat/seq.service.ts:55-59 | Redis coming back is safe in every continuation exactly when every sender is current, so that none is on the fallback path |
| SeqExact.OutageIsSafeExactly | libs/feature-chat/src/chat/seq.service.ts:55-64 | Redis stopping is safe in every continuation exactly when it has no key |
| SeqLimits.LossReissues | libs/feature-chat/src/chat/seq.service.ts:97-107 | a run from an empty conversation, with nothing in flight at the loss, in which 1 is handed out twice |
| SeqExact.FailedReadIsSafeExactly | libs/feature-chat/src/chat/seq.service.ts:75-95 | a failed floor read is safe in every continuation exactly when, on the cold-start path, Redis is down, has a key, or nothing is stored or counted, and, on the fallback path, the counter has kept up with the messages |
| SeqExact.BlindNumberIsFreshExactly | libs/feature-chat/src/chat/seq.service.ts:92-94 | whatever others do between a failed read and its number: the number is fresh exactly when nothing is stored or counted (cold start), or the counter is as far as the key, or without one the messages (fallback) |
| SeqLimits.StaleReaderReissues | libs/feature-chat/src/chat/seq.service.ts:47-49 | a run in which a floor read before another send, with the key lost after it, makes a cold start hand out that send's stored number |
| SeqLimits.FailedReadReissues | libs/feature-chat/src/chat/seq.service.ts:92-94 | a run in which a failed read makes a cold start hand out the stored 1 |
| SeqLimits.FailedFallbackReadReissues | libs/feature-chat/src/chat/seq.service.ts:123-133 | a run in which a failed read makes the fallback hand out the stored 2 |
| SeqLimits.LossInFlightReissues | libs/feature-chat/src/chat/seq.service.ts:47-51 | a run in which a key lost before its number is durable gives two senders the number 1 |
| SeqLimits.RestartInFlightReissues | libs/feature-chat/src/chat/seq.service.ts:55-59 | a run in which a restart in the middle of a fallback gives two senders the number 1 |
| SeqLimits.BehindIsReachable | libs/feature-chat/src/chat/seq.service.ts:55-64 | for every k a run from an empty conversation has an outage that leaves the key k messages behind |
| SeqLimits.CollisionsBounded | libs/feature-chat/src/chat/chat.service.ts:79-89 | with k messages stored above the key, every sender of every interleaving afterwards collides at most k times |
| SeqLimits.WarmKeyBehind | libs/feature-chat/src/chat/chat.service.ts:79-89 | a lone send collides exactly k times and then stores its message, or throws when k is three or more |
| SeqLimits.ThreeAttemptsSufficeExactly | libs/feature-chat/src/chat/chat.service.ts:72-103 | three attempts are enough for every send of every run after the outage exactly when k is below three |
| SendProtocol.RunKeepsInv | libs/feature-chat/src/chat/chat.service.ts:40-103 | both unique indexes, the calls' phases and the publications agree in every interleaving |
| SendProtocol.AtMostOneMessage | libs/feature-chat/src/chat/chat.service.ts:40-103 | a client message id has at most one document, and every acknowledgement of it is that document's |
| SendProtocol.AckedIsStored | libs/feature-chat/src/chat/chat.service.ts:45-47 | an acknowledged send is stored |
| SendProtocol.SendAlone | libs/feature-chat/src/chat/chat.service.ts:40-103 | from every reachable state, a send left to itself acknowledges the stored document of its message, or stores, announces and acknowledges the first free of its three numbers, or throws and changes nothing |
| SendProtocol.LoserAcksWinner | libs/feature-chat/src/chat/chat.service.ts:83-87 | a send that meets the document of another send of its message acknowledges that one |
| SendProtocol.OwnAckIsPublished | libs/feature-chat/src/chat/chat.service.ts:91-99 | a call that acknowledged its own document has published it, exactly once |
| SendProtocol.UnpublishedIsUnfinished | libs/feature-chat/src/chat/chat.service.ts:81-99 | a stored document that is not published belongs to a call about to publish it or cut off |
| SendProtocol.PublishedOnce | libs/feature-chat/src/chat/chat.service.ts:91-99 | message.sent is published at most once per client message id |
| SendProtocol.OnlyInserterPublishes | libs/feature-chat/src/chat/chat.service.ts:79-99 | only the call that inserted the document publishes it, and after inserting |
| SendProtocol.CrashIs | libs/feature-chat/src/chat/chat.service.ts:79-99 | a crashed call makes no further call and takes nothing back |
| SendProtocol.EveryCallEnds | libs/feature-chat/src/chat/chat.service.ts:72-103 | within three attempts, eleven store calls, a call has returned or thrown |
| StreamBus.RunKeepsInv | libs/event-bus/src/adapters/redis-streams.bus.ts:178-300 | the groups', marks' and deliveries' invariant holds in every run, with crashes between any two steps |
| StreamBus.EntriesPartitioned | libs/event-bus/src/adapters/redis-streams.bus.ts:207-234 | each entry since a group's creation is exactly one of undelivered, pending, acknowledged |
| StreamBus.GroupIsAsCreated | libs/event-bus/src/adapters/redis-streams.bus.ts:146-163 | over every run a group exists exactly if created; its handler is the one its first creation named, and it starts at the end the log had then |
| StreamBus.NothingFromBefore | libs/event-bus/src/adapters/redis-streams.bus.ts:150 | nothing published before a group was created is ever pending, acknowledged, handled, dead-lettered or delivered for it |
| StreamBus.EnoughReads | libs/event-bus/src/adapters/redis-streams.bus.ts:178-206 | as many reads as entries are missing deliver everything published since |
| StreamBus.LogIsPublished | libs/event-bus/src/adapters/redis-streams.bus.ts:107-109 | the log is the published events, in order |
| StreamBus.DeliveryStarts | libs/event-bus/src/adapters/redis-streams.bus.ts:178-234 | a read takes the next entry and starts its delivery, a reclaim starts another for a pending entry |
| StreamBus.MarkedOnlyAfterSuccess | libs/event-bus/src/adapters/redis-streams.bus.ts:264-273 | an event id is marked only after a completed handler run for it |
| StreamBus.AckedForAReason | libs/event-bus/src/adapters/redis-streams.bus.ts:242-300 | an entry is acknowledged only when its event is marked, after a DLQ attempt, or without a handler |
| StreamBus.BoundedRuns | libs/event-bus/src/adapters/redis-streams.bus.ts:264-291 | a delivery runs the handler at most three times and dead-letters only after all three |
| StreamBus.PendingCanFinish | libs/event-bus/src/adapters/redis-streams.bus.ts:207-234 | from every reachable state every pending entry can still be reclaimed and acknowledged, with a handler run unless it is marked, unparseable or unhandled |
| StreamBus.SoleGroupHandlesItself | libs/event-bus/src/adapters/redis-streams.bus.ts:253-289 | without another handling group, acknowledged means this group's handler completed for the event or the entry was dead-lettered |
| StreamBus.NeverSkipsExactlyWhenSole | libs/event-bus/src/adapters/redis-streams.bus.ts:72 | from every reachable state: a handling group never skips an event published from then on, in any run without new groups, exactly when no other group handles the stream |
| StreamBus.SecondGroupSkips | libs/event-bus/src/adapters/redis-streams.bus.ts:72 | with a second handling group, from every caught-up reachable state a new event can be acknowledged there unhandled |
| StreamBus.CrashIs | libs/event-bus/src/adapters/redis-streams.bus.ts:178-234 | a crash forgets the delivery only; its entry stays pending |
| StreamBus.Consumer.constructor | libs/event-bus/src/adapters/redis-streams.bus.ts:157-165 | a consumer begins on a given bus with no call made |
| StreamBus.Consumer.HandleEntry | libs/event-bus/src/adapters/redis-streams.bus.ts:236-300 | an uninterrupted handling takes only steps of the bus; the entry is acknowledged with the fitting reason if XACK succeeds and stays pending if not; the handler runs up to the first attempt that works, or three times before dead-lettering; nothing else changes |
| StreamBus.Consumer.RunAttempts | libs/event-bus/src/adapters/redis-streams.bus.ts:264-290 | the retry loop stops at the first attempt that both handles and marks, and dead-letters after three; either way it acknowledges if XACK succeeds |
| BusStart.KeysCollideExactly | libs/event-bus/src/late-subscription.ts:27-31 | two different group ids share a coverage key for some topics exactly when one continues the other after a space |
| BusStart.SecondIsLostExactly | libs/event-bus/src/late-subscription.ts:34-38 | exactly for such ids there are topics for which the second of two subscriptions is dropped |
| BusStart.PendingSubscriptions | libs/event-bus/src/late-subscription.ts:22-41 | the two loops return the first subscription of each key not covered, in order |
| BusStart.CoveredExactlyWhenDistinct | libs/event-bus/src/late-subscription.ts:22-41 | once every key has one reader, every subscribed pair has one exactly when no two pairs share a key |
| BusStart.PlainIdsAreDistinct | libs/event-bus/src/late-subscription.ts:30-35 | the caller's check: if no group id continues another, all keys are distinct |
| BusStart.Bus.constructor | libs/event-bus/src/adapters/redis-streams.bus.ts:59-64 | a new bus has no subscription and no reader and is not running |
| BusStart.Bus.Subscribe | libs/event-bus/src/adapters/redis-streams.bus.ts:111-113 | subscribing appends, and disturbs no reader |
| BusStart.Bus.Start | libs/event-bus/src/adapters/redis-streams.bus.ts:127-176 | after any start every key registered so far has exactly one reader, with the last handler known at its covering start, and so every pair exactly when keys are distinct; running readers stay, and with no new key none is added |
| WorkflowJobs.BackoffSchedule | libs/feature-automation/src/automation/backoff.ts:5-16 | waits of 1, 2, 4, 8, 16, 30 minutes, then dead |
| WorkflowJobs.FailureSchedules | libs/feature-automation/src/automation/job.worker.ts:65-68 | a failing attempt puts the job off by its wait of the schedule, before which nobody can claim it; the seventh buries it; nothing else changes |
| WorkflowJobs.JobRuns | libs/feature-automation/src/automation/job.worker.ts:59-129 | a job run without failure takes its step once, is done, and leaves exactly the next job, due after the step's delay |
| WorkflowJobs.ChainCompletes | libs/feature-automation/src/automation/job.worker.ts:94-129 | every workflow can run to its end, each step exactly at the trigger plus the delays before it |
| WorkflowJobs.OnceEachExactlyWhenNoSlip | libs/feature-automation/src/automation/job.worker.ts:59-74 | steps take effect once each, in order, however a run goes on from any of its points, if and only if no enqueue or done-mark of the run fails after its job's step took effect while the job has runs left |
| WorkflowJobs.RunKeepsInv | libs/feature-automation/src/automation/job.worker.ts:59-129 | without such a failure the chain's invariant holds under any number of workers, other failures included |
| WorkflowJobs.StepsInOrder | libs/feature-automation/src/automation/job.worker.ts:94-129 | without such a failure steps take effect 0,1,2,... each exactly once |
| WorkflowJobs.StepsOnTime | libs/feature-automation/src/automation/job.worker.ts:94-129 | whatever fails, no step takes effect before the trigger plus the delays before it |
| WorkflowJobs.OneStepAtATime | libs/feature-automation/src/automation/job.worker.ts:94-129 | without such a failure at most one job of the chain still has its step to run |
| WorkflowJobs.LiveRows | libs/feature-automation/src/automation/job.worker.ts:63-64 | without such a failure, of two live rows the earlier is exactly one about to be marked done |
| WorkflowJobs.AtMostSevenRuns | libs/feature-automation/src/automation/automation.repository.ts:125-157 | whatever fails, a job runs at most seven times and is dead exactly after seven failures |
| WorkflowJobs.Outcome | libs/feature-automation/src/automation/job.worker.ts:59-129 | when nothing is waiting or running, all steps took effect or the last job is dead |
| WorkflowJobs.TwoRowsRunning | libs/feature-automation/src/automation/job.worker.ts:63-64 | every workflow of two or more steps has a failure-free run with two rows running |
| WorkflowJobs.SlipRepeats | libs/feature-automation/src/automation/job.worker.ts:64-68 | after an enqueue or done-mark that fails so, some failure-free continuation repeats the step |
| Outbox.BackoffSeconds | libs/feature-notification/src/notify/notification.repository.ts:224 | waits of 20, 40, 80, 160, 320 seconds; the hour's cap is never reached |
| Outbox.FailedClaimIs | libs/feature-notification/src/notify/notification.repository.ts:211-230 | after its n-th failed claim a row waits as scheduled, and after the sixth it is dead |
| Outbox.RowLivesItsLife | libs/feature-notification/src/notify/notification.repository.ts:192-230 | over any sequence of passes a row's value is the life of its claims, each failed or not |
| Outbox.SettledWithinSix | libs/feature-notification/src/notify/notification.repository.ts:211-230 | in such a life six claims settle a row, and it is dead exactly when the first six all failed |
| Outbox.SixClaimsSettle | libs/feature-notification/src/notify/outbox.worker.ts:66-144 | over any sequence of passes a new row is claimed at most six times, and after six it is sent or dead |
| Outbox.Worker.constructor | libs/feature-notification/src/notify/outbox.worker.ts:15-26 | the worker starts on an empty outbox |
| Outbox.Worker.Enqueue | libs/feature-notification/src/notify/notification.repository.ts:176-190 | one push per dedupe key |
| Outbox.Worker.Register | libs/feature-notification/src/notify/notification.repository.ts:98-120 | registering replaces the device's endpoint and touches nothing else |
| Outbox.Worker.Claim | libs/feature-notification/src/notify/notification.repository.ts:192-204 | a claim counts the attempt and leaves the row pending |
| Outbox.Worker.TryEndpoints | libs/feature-notification/src/notify/outbox.worker.ts:90-129 | each endpoint is tried once; the counters tell delivered and transient apart, and exactly the readable endpoints reported gone are removed |
| Outbox.Worker.DeliverRow | libs/feature-notification/src/notify/outbox.worker.ts:74-143 | a row is retried or dead only when nothing was delivered and something failed transiently, else sent; its successful sends are new |
| Outbox.Worker.Tick | libs/feature-notification/src/notify/outbox.worker.ts:66-144 | in a pass each claimed row is settled by one claim, no endpoint receives a row a second time, and only endpoints reported gone disappear |
| Membership.SucceedsExactly | libs/feature-group-channel/src/channels/channels.service.ts:19-278 | whom and what each operation asks for, over the table: roles of actor and target, sole owners, sizes, kinds, visibility |
| Membership.RolesAre | libs/feature-group-channel/src/channels/channels.service.ts:19-278 | each user's role in each conversation after each operation |
| Membership.ConversationsAre | libs/feature-group-channel/src/channels/channels.service.ts:19-136 | which conversations exist, with what kind, visibility and epoch; a group's epoch moves exactly when a member is added or removed |
| Membership.EventsAre | libs/feature-group-channel/src/channels/channels.service.ts:19-278 | exactly what each operation announces |
| Membership.OwnersAndSize | libs/feature-group-channel/src/channels/channels.service.ts:38-127 | in every run each group and channel keeps an owner and each group at most 1024 members |
| Membership.OnlyOwnersChangeRoles | libs/feature-group-channel/src/channels/channels.service.ts:234-278 | setMemberRole changes a role only when an owner calls it, and never who is a member |
| Membership.NewOwnerExactly | libs/feature-group-channel/src/channels/channels.service.ts:41-127 | exactly which operations make somebody an owner: creation, an admin's adding a newcomer in that role, an owner's promotion |
| Membership.OwnersAreMade | libs/feature-group-channel/src/channels/channels.service.ts:41-278 | over a run, whoever is an owner at the end but not at the start was made one by such a step |
| Membership.AdminAddsOwner | libs/feature-group-channel/src/channels/channels.service.ts:93-106 | an admin can add an owner but not promote anybody to one |
| Membership.EpochNamesMembers | libs/feature-group-channel/src/channels/channels.service.ts:93-136 | a group's epoch never decreases, and without leaveChannel equal epochs mean equal member sets |
| Membership.LeavingKeepsTheEpoch | libs/feature-group-channel/src/channels/channels.service.ts:217-232 | a member who may leave a group does so within the epoch |
| Membership.MembersProjection.constructor | libs/feature-notification/src/notify/members.projection.ts:8-13 | the projection starts empty |
| Membership.MembersProjection.Consume | libs/feature-notification/src/notify/members.projection.ts:15-29 | consuming an event keeps every stored set equal to the fold of all events consumed |
| Membership.StaysSyncedExactlyWhenAnnounced | libs/feature-group-channel/src/channels/channels.service.ts:19-136 | exactly which successful operations keep the projection equal to the member table |
| Membership.ProjectionIsTableExactly | libs/feature-group-channel/src/channels/channels.service.ts:41-278 | over any run, folding the emitted events in order yields the member table at every point if and only if every successful operation is announced |
| Membership.ReopenedDmDiverges | libs/feature-group-channel/src/channels/channels.service.ts:28-35 | a direct message left by one side and opened again projects the leaver back in |
| ChannelsRepository.Repository.GetMemberRole | libs/feature-group-channel/src/channels/channels.repository.ts:54-60 | the scan of the member rows finds the member's role |
| ChannelsRepository.Repository.MemberCount | libs/feature-group-channel/src/channels/channels.repository.ts:62-68 | the rows counted are the conversation's members, each once |
| ChannelsRepository.Repository.CountByRole | libs/feature-group-channel/src/channels/channels.repository.ts:71-77 | the rows counted are the members with that role |
| ChannelsRepository.Repository.AddMember | libs/feature-group-channel/src/channels/channels.repository.ts:26-36 | a new row makes a member, an existing key is left alone, and the keys stay unique |
| ChannelsRepository.Repository.RemoveMember | libs/feature-group-channel/src/channels/channels.repository.ts:38-43 | exactly that member goes |
| ChannelsRepository.Repository.SetMemberRole | libs/feature-group-channel/src/channels/channels.repository.ts:208-213 | exactly that member's role changes, and none appears |
| ChannelsRepository.Repository.BumpEpochIfGroup | libs/feature-group-channel/src/channels/channels.repository.ts:114-121 | exactly a group's epoch goes up by one |
| ChannelsService.BatchMakesGroup | libs/feature-group-channel/src/channels/channels.repository.ts:79-102 | the batch makes the creator owner and everyone else a member, repeats included |
| ChannelsService.Service.CreateGroup | libs/feature-group-channel/src/channels/channels.service.ts:41-66 | deduplication, limit, batch and event, on the tables, amount to the modelled creation, and keep every owner, size and the projection right |
| ChannelsService.Service.AddMember | libs/feature-group-channel/src/channels/channels.service.ts:93-106 | on the tables: success adds exactly this user, with the role if new, leaves every other role and conversation alone, bumps exactly a group's epoch, and keeps owners, size and projection right |
| ChannelsService.Service.RemoveMember | libs/feature-group-channel/src/channels/channels.service.ts:112-127 | on the tables: success removes exactly this user, bumps exactly a group's epoch, and no owner is lost for good |
| ChannelsService.Service.JoinChannel | libs/feature-group-channel/src/channels/channels.service.ts:202-215 | on the tables: success adds exactly this user, and no epoch or other role changes |
| ChannelsService.Service.LeaveChannel | libs/feature-group-channel/src/channels/channels.service.ts:221-232 | on the tables: success removes exactly this user, the epoch stays, and an owner remains |
| ChannelsService.Service.SetMemberRole | libs/feature-group-channel/src/channels/channels.service.ts:240-278 | on the tables: success changes exactly this member's role and nobody's membership, and an owner remains |
| Media.SucceedsExactly | libs/feature-media/src/media/media.service.ts:49-218 | creation, uploads with bytes of a legal size, the owner's delete and the one view succeed, and nothing else |
| Media.RowsAre | libs/feature-media/src/media/media.service.ts:49-295 | each row after each operation |
| Media.BlobsAre | libs/feature-media/src/media/media.service.ts:49-295 | each blob after each operation: deduplication, streaming, failed streaming, and removal with the last reference |
| Media.ReadyRowsHaveBlobs | libs/feature-media/src/media/media.service.ts:49-89 | in every run without streaming a ready row's bytes are in storage and have the row's hash |
| Media.StoredWhileReferenced | libs/feature-media/src/media/media.service.ts:283-295 | a stored blob outlives every run without streaming that always leaves a row referring to it |
| Media.RowStays | libs/feature-media/src/media/media.service.ts:187-218 | over any run a row stays, with its owner and view-once mark, unless its owner deletes it or it is view-once and consumed |
| Media.KeepsBlobsExactly | libs/feature-media/src/media/media.service.ts:49-143 | of all operations, streaming included, exactly two lose a blob a row needs: buffering against bytes stored under another key, and a failing stream to an id whose key is in use |
| Media.BlobsPresentExactly | libs/feature-media/src/media/media.service.ts:49-295 | over a whole run no row's blob is ever missing if and only if no operation is one of those two |
| Media.StreamThenBuffered | libs/feature-media/src/media/media.service.ts:110-143 | a run in which the same bytes streamed and then buffered leave a ready row without a blob |
| Media.FailedRestream | libs/feature-media/src/media/media.service.ts:132-139 | a run in which a second, failing stream leaves a ready row without its blob |
| Media.Service.UploadBuffered | libs/feature-media/src/media/media.service.ts:49-89 | the steps perform the modelled upload, and report a duplicate exactly when nothing was stored |
| Media.Service.PurgeRow | libs/feature-media/src/media/media.service.ts:283-295 | the blob is reported removed exactly when no other row refers to it |
| Media.Service.ConsumeViewOnce | libs/feature-media/src/media/media.service.ts:203-218 | succeeds exactly for a ready, unviewed view-once row; then that row alone is gone, its blob too unless another row uses it, and every other row keeps its blob; a failing call changes nothing |
| ViewOnce.AtMostOneView | libs/feature-media/src/media/media.repository.ts:92-102 | under any interleaving of consumes at most one per media id succeeds |
| ViewOnce.LoneConsume | libs/feature-media/src/media/media.service.ts:203-218 | a caller left to itself is served exactly when the row is there unviewed, and takes it away |
| RateLimit.WindowIs | apps/edge-gateway/src/gateway/rate-limit.ts:16-22 | a window is opened by a request, lasts windowMs from it, and counts that and all later ones before its end |
| RateLimit.OpensUnlessRunning | apps/edge-gateway/src/gateway/rate-limit.ts:18-21 | a request opens a window unless its address has one still running |
| RateLimit.PassesWithinCap | apps/edge-gateway/src/gateway/rate-limit.ts:18-34 | the n-th request of a window passes exactly when n is at most max(1, limit), so the first always does |
| RateLimit.RateLimiter.constructor | apps/edge-gateway/src/gateway/rate-limit.ts:8-9 | a limiter starts with no window |
| RateLimit.RateLimiter.RateLimit | apps/edge-gateway/src/gateway/rate-limit.ts:11-38 | the decision and the table are those of the whole request log |
| RateLimit.Independent | apps/edge-gateway/src/gateway/rate-limit.ts:17-23 | an address is treated as if it were alone |
| RateLimit.WindowCap | apps/edge-gateway/src/gateway/rate-limit.ts:18-23 | a window lets through at most max(1, limit) |
| RateLimit.IntervalBound | apps/edge-gateway/src/gateway/rate-limit.ts:8-39 | any half-open interval of one window's length lets through at most 2*max(1, limit) - 1 |
| RateLimit.BoundReached | apps/edge-gateway/src/gateway/rate-limit.ts:8-39 | that bound is reached |
| SendQueue.Queue.constructor | libs/feature-realtime/src/fabric/send-queue.ts:16-19 | a queue starts empty |
| SendQueue.Queue.Enqueue | libs/feature-realtime/src/fabric/send-queue.ts:21-33 | durable frames are kept in order, a type has one waiting ephemeral frame, the latest; a frame is refused exactly when ephemeral, with none of its type waiting, at the watermark |
| SendQueue.Queue.Drain | libs/feature-realtime/src/fabric/send-queue.ts:35-39 | draining hands out the whole queue and empties it, losing nothing durable |

## Left out

- Feature flags: segments and the maintenance switch arrive resolved, and JavaScript's `Number` and the semver reader are parameters; version, audit, schedule and cache bookkeeping is not modelled.
- Sequence numbers: one conversation stands for all, since no call touches two; the in-process counter used without any backend is not modelled.
- SeqProtocol.RunKeepsInv: does not cover the steps that are not tame, because each of them breaks it; SeqExact proves that they do, and SeqLimits has a run for each kind.
- SeqProtocol.FreshInEveryRun: the same hypotheses, for the same reason.
- SeqProtocol.InsertNeverCollides: the same hypotheses, for the same reason.
- Redis calls that time out after taking effect, which skip a number.
- Send: edits, reactions and deletes, which change no id, number or client message id.
- Bus: stream trimming, and expiry of the processed marks after seven days.
- BusStart.Bus.Start: does not model a start whose group creation or connection fails half way, nor two overlapping starts.
- Jobs: reminders and plain webhooks, a workflow deleted while running, a worker that crashes holding a claim, a failing call that took effect all the same.
- WorkflowJobs.RunKeepsInv: without the failures of OnceEachExactlyWhenNoSlip, because each of those forks the chain or repeats a step.
- WorkflowJobs.StepsInOrder: the same hypothesis, for the same reason.
- WorkflowJobs.OneStepAtATime: the same hypothesis, for the same reason.
- Outbox: several workers, for whom a claim is no lock because it leaves the row pending and due; database errors inside a pass.
- Membership: concurrent operations, whose check and write are separate statements; read marks, notification levels, channel details.
- Media: concurrent uploads and removals, renditions and usage reports; the best-effort removal after a failed stream is taken to succeed; a blob orphaned by uploading other bytes to the same id is not ruled out.
- Variants.FairShare: is about exact arithmetic, where the source divides in floating point.
- The Kafka bus, HTTP, push, mail, call and storage adapters, and key generation.
