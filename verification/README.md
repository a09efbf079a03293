# Verified model of the sharded lock-free ring

The ring is a bounded multi-producer, single-consumer buffer made of shards. A shard is a circular
array of slots, each with a sequence number; producers claim positions with a compare-and-swap and
publish values through the sequence number, and the one consumer takes them in position order.
Writers drive the ring with one of seven retry strategies. This project models the ring in three
layers and proves what each promises.

* **The concurrent protocol.** `ShardProtocol` is one shard under any number of producers and one
  consumer, one step per load, store or compare-and-swap. Its invariant gives each slot one position
  of the window `[R, R + size)`, where R counts the released positions. `ShardRuns` draws the
  conclusions for whole runs. `RingProtocol` puts shards, writing threads (any strategy) and the
  reading loops together; `RingRuns` proves exactly-once delivery, per-producer order, conservation,
  bounded waiting and the meaning of a short read for the whole ring.
* **The ring used by one thread.** `ShardModel` is a shard with its wrapping 64-bit words, and the
  bounded FIFO queue it stands for; `RingModel` is the sharded ring and its family of queues.
  `LockFreeRing` has the shard and the ring as classes whose methods update arrays and fields in
  place; each method is proved equal to the value model, about which the queue results are proved.
* **The retry strategies.** `Strategies` gives each write call's attempts, pauses and result against
  an arbitrary environment; `StrategyLayout` says where each event of a call stands; `StrategyRuns` proves
  results over many calls of one writer; `WriterPromises` joins them for a configuration; `QuietRing`
  runs NextShard and Hybrid on a real ring; `Writers` has the strategy loops, the writer and its
  state as imperative code proved against that specification; `StrategyThreads` turns their calls
  into runs of the concurrent ring.

`Bits`, `Words` and `NextPowerOfTwo` hold the binary arithmetic: bitwise operators defined digit by
digit, 64-bit words, and the rounding helper of the integration tests. `Values` holds the values
written, which may be nil.

The layers meet in four places. `StrategyThreads.CallIsRun` shows that every finished call of every
strategy is a call of a thread of the concurrent ring, with the strategy's shards among the thread's
`choices` (one shard for SleepBackoff, AdaptiveBackoff, SpinThenYield and AutoAdaptive), whatever the
other threads and the reader do between its accesses. `QuietRing.CallOnQuietRing` runs a call on the
shards of the sequential ring, attempt by attempt. `ShardRuns.UninterruptedWrite` shows that a write
call alone on the concurrent shard does what the sequential shard does.
`ShardProtocol.SlotExclusive` shows that the plain accesses to the value field never race, which is
what allows one step per access.

## Where the code and its descriptions differ

* A shard of capacity 1 is accepted by the constructor (ring.go:57-60) but is not a queue:
  `ShardModel.OneSlotOverwrites`. Over runs of unlimited length the sizes that work are exactly the
  powers of two from 2 on (`ShardModel.RefinesQueueIff`); every size of at least 2 works for the first
  2^64 operations (`ShardModel.RefinesQueueBelow2To64`).
* `Write` is documented to return false when the shard is full (ring.go:93-94). With other producers
  at work it also does so with room left: `ShardRuns.RefusedWithRoom`, and on every new shard
  `ShardRuns.RefusedWithRoomReached`; the exact condition is `ShardProtocol.RefusedIff`.
* `ErrInvalidSize` says the capacity must be divisible by the number of shards (ring.go:10); the
  constructor does not check this and rounds down: `LockFreeRing.ShardedRing.New`,
  `LockFreeRing.CapacityRoundsDown`.
* `nextPowerOf2` is documented to give the least power of two (integration-tests/config.go:249); it does
  so exactly under the condition of `NextPowerOfTwo.NextPowerOf2`, and first fails at 2^32 + 1:
  `NextPowerOfTwo.FirstWrongInput`.
* README.md:500 says that writers claim with `atomic.AddUint64`; the code, and the model, use
  compare-and-swap. README.md:623 bounds the distance of the positions by the buffer size; it exceeds
  that by one exactly in the states of `ShardProtocol.Occupancy`, and such a state is reached on every
  new shard: `ShardRuns.OccupancyPeaks`.
* `Len` compares position words without regard to wrapping (ring.go:223). It counts the items of a ring
  of fewer than 2^64 exactly when no shard's live positions straddle a multiple of 2^64
  (`RingModel.LenIsTotal`), and a shard that straddles is reached: `RingModel.LenMissesAnItem`.

## Model

| member | source | states |
|---|---|---|
| ShardProtocol.InitInv | ring.go:62-73 | A new shard of at least two slots, empty, with any number of idle producers, satisfies the slot-window invariant |
| ShardProtocol.ProducerStepInv | ring.go:101-132 | Every single access of a write call keeps the invariant: each slot carries p or p+1 for its one window position p, unpublished claims are owned by one producer each, and writePos stays between R and R+size |
| ShardProtocol.ConsumerStepInv | ring.go:150-175 | Every single access of a tryRead call keeps the invariant, including the step where the released count runs ahead of readPos |
| ShardProtocol.RefusedIff | ring.go:104-114 | write returns false at its sequence load exactly when the shard is full at the newest position or another call has published at the loaded position; otherwise that position lies in the window |
| ShardProtocol.AccessOutcome | ring.go:101-132 | Of all the accesses of a write call only a sequence load refuses it, and that exactly for one of these reasons; a call that loses its swap loads the position again and changes nothing else |
| ShardProtocol.LoadedHead | ring.go:156-159 | The consumer's check succeeds, and it goes on to read, exactly when the value at its position has been published |
| ShardProtocol.SlotExclusive | ring.go:118-128 | No two producers between claim and publication are on one slot, nor is one on the slot the consumer is reading, clearing or releasing |
| ShardProtocol.SlotServesWindow | ring.go:156-169 | Each slot serves exactly one window position; its sequence number tells whether that is published, and a slot whose position is unclaimed holds nil |
| ShardProtocol.PendingOwner | ring.go:118-128 | A claimed and unpublished position has exactly one producer working on it |
| ShardProtocol.RetriesArePaidFor | ring.go:102-121 | Failed swaps of a call are at most the growth of writePos since it began, and its accesses at most three times that plus five |
| ShardProtocol.Occupancy | ring.go:169-172 | writePos - readPos lies between 0 and the size, and is size+1 exactly when the consumer stands between its two last stores and the producers have claimed every released position |
| ShardRuns.ReachableInv | ring.go:101-175 | The invariant holds after every run of any number of producers and one consumer |
| ShardRuns.ExactlyOnceFifo | ring.go:101-175 | After every run the values read are the first claims in compare-and-swap order, and both records only ever grew at their ends |
| ShardRuns.LenTermBound | ring.go:218-228 | With any steps between the two loads of Len, a shard's term is at most size+1, and at most size when the consumer calls it between reads |
| ShardRuns.HeadIsFound | ring.go:150-159 | A head published at some point is found by any later check of the consumer that has not passed it |
| ShardRuns.UninterruptedWrite | ring.go:101-132 | A write call nobody interrupts returns true exactly when the shard is not full, and then claims and publishes the next position, whatever other producers left half done |
| ShardRuns.RefusedOnlyIf | ring.go:101-132 | Over any run, whatever the others do and however many swaps the call has lost: a call that ends refused was refused by a sequence load that found the shard full at the newest position, or published at the position it loaded, and made no access after it |
| ShardRuns.RefusedWithRoom | ring.go:93-114 | A producer overtaken between its two loads is refused although the shard has room |
| ShardRuns.RefusedWithRoomReached | ring.go:93-114 | On every new shard of at least two slots with two producers, a run leads to such a refusal |
| ShardRuns.WriteBeforeAdvance | ring.go:169-172 | In every state where the consumer has released and not advanced and one position is free, a write call brings the distance of the positions to size+1 |
| ShardRuns.OccupancyPeaks | ring.go:101-175 | On every new shard of at least two slots a run of one producer and the consumer reaches the distance size+1 |
| RingProtocol.NextInv | ring.go:95-213 | Every step of a writing thread under any strategy, and of the reading loops, keeps the ring's invariant |
| RingRuns.ReachableInv | ring.go:48-213 | The ring's invariant holds after every run from a new ring |
| RingRuns.NeverStuck | ring.go:101-213 | A thread in a call and the reader in a loop always have a next step |
| RingRuns.ResultTellsClaim | ring.go:95-132 | A call that returned true claimed exactly one position in exactly one shard, for its own value; a call that returned false claimed none |
| RingRuns.RefusedReturn | ring.go:101-132 | The same in the whole ring: an attempt of a thread that returns without being accepted was refused by such a load of its own; a lost swap alone never refuses it |
| RingRuns.OutputIsClaims | ring.go:137-213 | Every item handed out is the value of one claim, items of a shard come in position order, and no claim is handed out twice |
| RingRuns.ReadPositionsAreOutput | ring.go:137-213 | Every claimed position the reader has passed was handed out |
| RingRuns.ProducerOrder | strategies.go:15-37 | For a thread whose strategy stays on one shard, when the value of a later accepted call is handed out, that of every earlier accepted call was handed out before |
| RingRuns.Conservation | ring.go:95-213 | The multiset of the values handed out plus that of the values claimed and unread is the multiset of the values claimed |
| RingRuns.BoundedWait | ring.go:137-147 | Of n consecutive reads that ask for an item, one returns the item that was published at the head of a given shard before them, across the overflow of readStartShard and with producers interleaved |
| RingRuns.ShortRead | ring.go:194-213 | When a read returns fewer items than it was asked for, then, whatever the producers did meanwhile, for each shard there was a step of the call at which its next position was not published |
| RingRuns.ShortReadDrains | ring.go:137-213 | Such a read has handed out every value that was published, without gaps from the head of its shard, when the call began |
| RingRuns.ReadInOrder | ring.go:194-213 | A read hands out at most as many items as it was asked for, from the shards in cyclic order from the rotating start, whatever the producers do meanwhile |
| ShardModel.NewIsEmpty | ring.go:62-73 | A new shard holds the empty queue |
| ShardModel.WriteAppends | ring.go:101-132 | Single-threaded, write succeeds exactly when the queue has room, appends, and otherwise changes nothing |
| ShardModel.ReadTakes | ring.go:150-175 | Single-threaded, tryRead takes the first item exactly when there is one, and otherwise changes nothing |
| ShardModel.RefinesQueueIff | ring.go:101-175 | A shard answers every run as the bounded FIFO queue does, through all overflows of its words, exactly when its size is a power of two other than 1 |
| ShardModel.RefinesQueueBelow2To64 | ring.go:101-175 | For every size of at least 2, the first 2^64 operations answer as the queue does |
| ShardModel.OneSlotOverwrites | ring.go:57-60 | A shard of one slot accepts a second value while it is full |
| ShardModel.MisalignedRefusal | ring.go:104-114 | When 2^64 does not fall on slot 0, the empty shard at position 2^64 refuses a write |
| RingModel.WriteAppendsToAffinityQueue | ring.go:95-98 | A value goes to the end of the queue of the producer's shard when that has room, and to no other |
| RingModel.ReadBatchIsLinePrefix | ring.go:194-213 | A batch is the longest prefix, up to maxItems, of the queues joined in cyclic order from the rotating shard; the queues keep suffixes that are the rest; a short batch leaves every queue empty |
| RingModel.TryReadIsLineHead | ring.go:137-147 | A single read returns the first item of that line, and none only when every queue is empty |
| RingModel.TryReadIsBatchOfOne | ring.go:137-147 | A single read is a batch read of one item |
| RingModel.StartRotates | ring.go:138-139 | Every read, single or batch, moves the start on by one, in 64-bit words |
| RingModel.NextReadServes | ring.go:196-202 | After k reads the next one takes from the line that starts k shards after the first start, in cyclic order, through overflow of the start word |
| RingModel.ReadsReachEveryShard | ring.go:134-147 | As many reads in a row as there are shards, single or batches of at least one, take the head of every queue that was not empty before them |
| RingModel.LenTermExact | ring.go:221-225 | Len counts a shard's items exactly, unless its live positions straddle a multiple of 2^64, when it counts none |
| RingModel.LenIsTotal | ring.go:218-228 | With fewer than 2^64 items in the ring, Len is at most their number, and equal to it exactly when no shard straddles a multiple of 2^64; without that bound, Len is their number as a 64-bit word when none straddles |
| RingModel.LenMissesAnItem | ring.go:218-228 | On every shard of at least two slots a run leaves one item queued that Len does not count |
| LockFreeRing.Shard.constructor | ring.go:64-72 | The initialising loop leaves an empty shard |
| LockFreeRing.Shard.Write | ring.go:101-132 | The in-place write has the value model's effect and result |
| LockFreeRing.Shard.TryRead | ring.go:150-175 | The in-place tryRead has the value model's effect and result |
| LockFreeRing.ShardedRing.New | ring.go:48-80 | Which arguments are refused and with which error; otherwise a fresh ring of separate empty shards of the rounded-down capacity, which together hold the capacity asked for exactly when the number of shards divides it |
| LockFreeRing.ShardedRing.Write | ring.go:95-98 | The in-place write changes only the producer's shard, as the value model says |
| LockFreeRing.ShardedRing.Probe | ring.go:141-142 | One probe reads the shard that is next in cyclic order and leaves the others as they are |
| LockFreeRing.ShardedRing.ProbeShards | ring.go:140-146 | The probing loop has the value model's effect and result |
| LockFreeRing.ShardedRing.TryRead | ring.go:137-147 | A single read, with its rotating start, has the value model's effect and result |
| LockFreeRing.ShardedRing.DrainInto | ring.go:203-209 | The inner loop appends what one shard yields, up to maxItems in all |
| LockFreeRing.ShardedRing.ReadBatchInto | ring.go:194-213 | The nested loops have the value model's effect and result |
| LockFreeRing.ShardedRing.Len | ring.go:218-228 | The loop adds up the shards' terms in 64-bit words |
| LockFreeRing.ShardedRing.Cap | ring.go:230-236 | Cap is the number of items that fit into the shards together, as a 64-bit word |
| LockFreeRing.CapacityRoundsDown | ring.go:57-60 | A ring whose shards have the quotient as their size holds the capacity asked for exactly when the number of shards divides it, and otherwise fewer items |
| Bits.IsPowerOfTwoIff | ring.go:83-85 | The bit trick recognises exactly the powers of two |
| Words.MaskIsPlace | ring.go:88-91 | Masking with n-1 is the remainder by n for a power of two n, for every word |
| Words.ShardIndexIsCyclic | ring.go:138-142 | Probing start, start+1, ... visits the shards in cyclic order, also when the word overflows |
| Words.CyclicReaches | ring.go:140-146 | n consecutive probes reach every shard |
| Words.CyclicDistinct | ring.go:140-146 | n consecutive probes visit no shard twice |
| Words.AlwaysAlignedIff | ring.go:104-106 | Wrapping a position never moves it to another slot exactly when the size is a power of two |
| NextPowerOfTwo.NextPowerOf2 | integration-tests/config.go:250-261 | The result is one more than the smear of n-1 over 32 bits, in 64-bit arithmetic; it is the least power of two not below n exactly when n <= 1, or n <= 2^62 and n-1 has no 32 consecutive zero bits below its top bit; up to 2^32 it always is, and passes the ring's shard-count check |
| NextPowerOfTwo.NoZeroRunBelow | integration-tests/config.go:255-259 | A smear of width w has no gap for numbers below 2^w, so j doubling shifts suffice up to 2^(2^j) |
| NextPowerOfTwo.TooWideExample | integration-tests/config.go:250-261 | 2^32 + 1 violates that condition |
| NextPowerOfTwo.FirstWrongInput | integration-tests/config.go:250-261 | For 2^32 + 1 the result is not the least power of two |
| Strategies.CallShape | strategies.go:15-308 | Under every strategy, attempts are made with the call's value and go only to shards the strategy may pick, the producer's own for the one-shard strategies; the call returns true exactly when its last attempt is accepted, and no other attempt is |
| Strategies.RandomPickAvoidsHome | strategies.go:84-88 | A random pick is never the affinity shard when there are at least two shards |
| Strategies.RandomPickFollowsDraw | strategies.go:85-88 | The pick is the remainder of the drawn number by the number of shards, or the next shard if that is the affinity shard; every other shard is the pick of some number |
| Strategies.CallAttempts | strategies.go:15-308 | A call that is not accepted has made, in every round, exactly MaxRetries attempts on the producer's shard, or MaxRetries times the number of shards for the strategies that search the ring; an accepted call has made as many in each round before the last, and its last round adds at least one and at most that number |
| Strategies.CallPauses | strategies.go:15-308 | Every pause of a call is one its strategy makes: the configured sleep, a yield, the adaptive sleep, or for the exponential strategies a sleep of some length |
| Strategies.BackoffBudget | strategies.go:26-32 | The kept count grows by the pauses and one for giving up; with a limit, a call that gives up paused exactly as often as the limit left room for, and no call runs longer; a call not yet over has paused after every round |
| StrategyLayout.CallIsLaid | strategies.go:15-308 | Every event of a call stands in its place: MaxRetries attempts on one shard, or on each shard in cyclic order, or on the affinity shard and then on the pick of each of numShards-1 draws; each is answered by the environment, and a pause comes exactly after each complete round |
| Strategies.CountDecides | strategies.go:15-37 | Outside the exponential and adaptive strategies, the count of backoffs is all a call takes from the state |
| StrategyRuns.LifetimeBudget | strategies.go:26-32 | All calls of a writer between resets together pause at most MaxBackoffs - 1 times |
| StrategyRuns.CallsGrow | strategies.go:131-145 | The kept backoff depends only on the number of pauses since creation or reset, whatever the results in between |
| StrategyRuns.GrownStep | strategies.go:113-145 | Each backoff is the one before times the configured multiplier (2 if zero), the fraction dropped, or the configured cap (10 ms if zero) if that is less |
| StrategyRuns.GrownDoubles | strategies.go:113-145 | With multiplier 2 and a start within the configured cap, k pauses give min(B * 2^k, cap) |
| StrategyRuns.SleepsFollowFactors | strategies.go:136-145 | Over any calls, the i-th pause is a sleep of the i-th backoff times the factor drawn for it, the fraction dropped |
| StrategyRuns.SleepsGrow | strategies.go:131-145 | So with factors from 0.75 to 1.25 the i-th sleep is 3/4 to 5/4 of the i-th backoff; under any multiplier only the first may exceed 5/4 of the configured cap |
| StrategyRuns.CallsSleepBounds | strategies.go:136-145 | k jittered sleeps total at most 5/4 of the sum of the first k backoffs, and at least 3/4 up to rounding |
| StrategyRuns.FreshGrows | writer.go:234-246 | A new or reset writer starts at BackoffDuration B: with multiplier 2 and B within the cap it stands after k pauses over any calls at min(B * 2^k, cap), and its i-th sleep is 3/4 to 5/4 of min(B * 2^i, cap) |
| StrategyRuns.FreshGivesUp | writer.go:274-280 | A new or reset writer counts from zero: with MaxBackoffs M its first call, if it gives up, has paused exactly M-1 times, and is over after M rounds |
| StrategyRuns.CallFollowsPlan | strategies.go:113-145 | The pauses of one call continue the writer's plan, growing sleeps for the exponential strategies and yields then sleeps for AutoAdaptive (strategies.go:264-307); the state is further along the plan by the pauses, or, after an accepted AutoAdaptive call, at the start of one with the full warmup |
| StrategyRuns.CallsFollowPlan | strategies.go:264-307 | So do the pauses and the state over any number of calls, for AutoAdaptive as long as none is accepted |
| StrategyRuns.YieldsThenSleeps | strategies.go:244-307 | Over any calls not accepted, from a state with a warmup of W, the first W+I+1 pauses are yields and all later ones sleeps, with I and the sleep as configured (100000 and 100 microseconds if zero) |
| StrategyRuns.FreshYields | writer.go:274-280 | From a new or reset writer the first I+1 pauses are yields and all later ones sleeps |
| StrategyRuns.AcceptanceRestarts | strategies.go:264-275 | An accepted call leaves yield mode, no idle iterations and the configured warmup (1000 if zero) |
| StrategyRuns.YieldsAfterAcceptance | strategies.go:264-307 | After an accepted call the first W+I+1 pauses are yields, W and I the configured warmup and idle limit, and all later ones sleeps |
| StrategyRuns.AdaptiveInvariant | strategies.go:264-307 | In every state reached, sleep mode means the warmup is used up and the idle count stands one above the configured limit |
| StrategyRuns.AcceptanceWakes | strategies.go:266-275 | A call that starts in sleep mode ends in yield mode exactly when it is accepted |
| StrategyRuns.OnlyAcceptanceWakes | strategies.go:264-307 | Calls that take a writer out of sleep mode include an accepted one |
| StrategyRuns.FreshStartsSchedule | writer.go:274-280 | A fresh or reset writer stands at the start of a schedule without warmup |
| StrategyRuns.QuietCallIsComplete | strategies.go:42-63 | With nobody interfering, NextShard and Hybrid are accepted exactly when some shard has room, by the first in cyclic order |
| QuietRing.AttemptsOnRing | strategies.go:185-199 | Attempts made one after the other on the shards as the attempts before left them: every one is answered by the room the call found, and at the end the queues differ by the accepted value only |
| QuietRing.CallOnQuietRing | strategies.go:174-205 | On the ring's shards, changed by nothing but the call's own attempts: the value is appended to the first queue with room and no other, and the call gives up only when the whole ring is full |
| QuietRing.WriterOnQuietRing | writer.go:249-266 | The same of a writer whose configuration names NextShard or Hybrid |
| WriterPromises.ResolvedKeeps | writer.go:249-266 | The call that the configuration resolves to keeps the promises of the strategy it names, an unknown one those of SleepBackoff: where attempts go, in which order and how many, when numbers are drawn, which pauses it makes, how its state goes on, and which fields it leaves alone |
| StrategyThreads.TurnIsRun | ring.go:101-132 | A thread in a call may always begin the next attempt of its strategy, and the attempt, with others' steps anywhere in between, is a legal run that records its answer |
| StrategyThreads.CallIsRun | strategies.go:15-308 | Every finished call of every strategy whose attempts the ring answers is a legal run of the concurrent ring; the thread's record then ends with the call's value and its result, naming the shard of the last attempt if accepted |
| StrategyThreads.AloneTurn | ring.go:101-132 | An attempt nobody interrupts is such a turn, accepted exactly when its shard has room |
| Writers.RetryShard | strategies.go:20-24 | The retry loop makes the specified attempts with the call's value |
| Writers.SweepShards | strategies.go:190-199 | The loop over all shards makes the specified round |
| Writers.TryRandomShards | strategies.go:84-96 | The loop over random shards makes the specified attempts |
| Writers.WriteWithSleepBackoff | strategies.go:15-37 | The loop's attempts, pauses, state changes and result are the specified ones |
| Writers.WriteWithNextShard | strategies.go:41-67 | The same for NextShard |
| Writers.WriteWithRandomShard | strategies.go:71-105 | The same for RandomShard |
| Writers.WriteWithAdaptiveBackoff | strategies.go:109-147 | The same for AdaptiveBackoff |
| Writers.WriteWithSpinYield | strategies.go:151-169 | The same for SpinThenYield |
| Writers.WriteWithHybrid | strategies.go:173-218 | The same for Hybrid |
| Writers.WriteWithAutoAdaptive | strategies.go:243-308 | The same for AutoAdaptive |
| Writers.SleepAndGrow | strategies.go:207-216 | The jittered sleep and the capped increase have the specified effect |
| Writers.YieldOrSleep | strategies.go:283-306 | The pause by mode has the specified effect |
| Writers.WriteWithBackoff | writer.go:296-319 | The direct write makes the attempts and sleeps and has the result of a SleepBackoff call of a fresh writer against the same environment |
| Writers.Writer.constructor | writer.go:234-246 | A new writer has BackoffDuration as its backoff, no backoffs counted, yield mode, and its strategy resolved |
| Writers.Writer.Write | writer.go:269-271 | A call hands its value to the strategy resolved at creation, on the writer's own state, and keeps the promises of the strategy that the configuration names |
| Writers.Writer.Reset | writer.go:274-280 | The state is that of a new writer, field by field |

## Left out

* Weak memory: atomic operations are sequentially consistent steps.
* Overflow of positions in the concurrent machine: positions are unbounded there; overflow is treated in
  `ShardModel`, for one thread.
* Time: sleeping and yielding are recorded events; what others do meanwhile is the environment's choice.
* Termination of calls without a backoff limit: a call is watched for any number of rounds and may be
  unfinished after them.
* Writers.SleepAndGrow: does not model the rounding of float64; durations are scaled by real numbers and
  truncated.
* Writers.WriteWithAdaptiveBackoff: the same for its durations.
* Writers.WriteWithHybrid: the same for its durations.
* Which answers the concurrent ring gives to the attempts of a call: `StrategyThreads.CallIsRun` takes them
  from the run; that a refused or accepted answer occurs at all is the environment's matter, except for
  attempts nobody interrupts (`StrategyThreads.AloneTurn`).
* Overflow of the int counters `backoffCount` and `idleIterations`.
* The retry loop of `Shard.write` in the single-threaded class: its swap cannot fail there, so the loop
  body appears once.
* The memory of the buffer passed to `ReadBatchInto`: the result is a sequence; appending in place into the
  caller's slice is not modelled.
* `ReadBatch`, which only allocates and calls `ReadBatchInto`.
* RandomShard visits of particular shards: it does not promise any.
* Configuration presets, `String`, `NumShards`, and the test and data-generation programs: no state, or I/O.
* `cmd/ring` is not part of this model.
