# Verified model of the node's core

A model, in Dafny, of the stateful and arithmetic core of the C++ node under
`oktools/old-native/src`, and proofs of what its parts promise.

| part | files |
|---|---|
| address manager: seven linked structures, its operations, its own consistency check, its file format | `AddrTables`, `AddrSteps`, `AddrMoves`, `AddrEviction`, `AddrRuns`, `AddrBounds`, `AddrDisk`, `AddrHistories`, `AddrAging`, `AddrShares`, `AddrSpill`, `AddrCheck`, `AddrMan` |
| message stream: send queue with partial writes, reassembly from arbitrary chunks | `MessageFrames`, `NetNode` |
| block assembly: a priority queue over a graph of waiting transactions | `BlockPlan`, `BlockRounds`, `BlockAssembly` |
| mnemonic phrases, following BIP-0039, section "Generating the mnemonic" | `Bits`, `WordLists`, `Mnemonic`, `MnemonicPhrases` |
| key derivation paths | `KeyPath`, `KeyTexts` |
| Merkle tree, block locator, median time past | `Merkle`, `Locator`, `MedianTime` |
| stake modifier | `StakeModifier` |
| big numbers, compact difficulty bits, Base58 | `Radix`, `BigNums`, `Base58` |
| bloom filter, page locks | `Bloom`, `PageLock` |
| shared definitions | `Arithmetic`, `Ascending`, `Octets`, `Options`, `Sequences`, `Sorting`, `Texts` |

`dafny verify dfyconfig.toml` checks everything.

How the model is built:

- Objects whose methods change fields are classes with the same fields; each
  method is tied to a function or relation on plain values (a `View`, a step
  predicate), and the theorems are lemmas about those.
- Random choices are nondeterministic; answers from code outside the model are
  nondeterministic or a function given as a parameter.
  Hashes are arbitrary functions, injective where a statement says so.
- Integers are unbounded unless a width matters: sizes and compact forms wrap at
  32 bits, path elements fit 32 bits, addresses 64. Shifts and masks on bytes are
  defined bit by bit in `Bits`.
- `double` priorities are reals.

Where the code departs from its comments, the model follows the code:

- `SelectTried` swaps before it records the position, so the slot it returns need
  not hold the oldest entry inspected
  (`SelectTriedHoldsOldest`, `SelectTriedCanMissOldest`); and the oldest entry of a
  whole bucket is never the one to go unless it is one of the first four
  (`EvictableExactly`).
- `IsRelevantAndUpdate` promises to add the output that matched; it adds that one
  and every later output the update mode allows
  (`AddedFrom`, `OnlyMatchesAdded`, `UnmatchedIsAdded`).
- An address is meant to sit in one of the 32 new buckets its source selects; the
  entry that makes way for a promoted one can end in another bucket
  (`EvictedOutside`, `GoodSpillsExactly`, `EvictionCanSpill`).
- `CreateNewBlock` means to skip free transactions past the minimum block size; it
  takes in the one at which the order turns to fees
  (`UnearnedAtTheTurn`, `RunEarned`, `FreeRide`).
- From 128 bytes of entropy on, `MnemonicDecode` takes too many bits for checksum,
  so no such phrase decodes to what was encoded (`WordsRoundTrip`).
- `ExtractExtKeyPath` refuses a zero element unless it is the first or the last
  (`PathRoundTrip`).
- `Good_` with a time that is not positive leaves a state its own check rejects
  (`GoodTimes`).

## Model

| member | source | states |
|---|---|---|
| AddrHistories.RunKeeps | oktools/old-native/src/addrman.cpp:92-368 | Every run of add, good, attempt, connected, get-addresses and save-and-load from an empty manager keeps the invariant that ties the seven structures together, whatever times and random draws occur. |
| AddrCheck.RunPasses | oktools/old-native/src/addrman.cpp:439-496 | In every run, also through the disk, in which Good gets positive and Attempt non-negative times, the consistency check passes after every step. |
| AddrCheck.InvPasses | oktools/old-native/src/addrman.cpp:439-496 | Of a manager that keeps the invariant the check returns 0 exactly when the recorded times are sound. |
| AddrCheck.RecordsPass | oktools/old-native/src/addrman.cpp:449-471 | The check of one record passes exactly when its times are non-negative and a tried one has a success. |
| AddrCheck.TriedLeftStep | oktools/old-native/src/addrman.cpp:473-481 | A bucket either uses up listed tried ids, or some id is listed the wrong number of times. |
| AddrCheck.NewLeftStep | oktools/old-native/src/addrman.cpp:483-494 | A bucket either meets outstanding references, or some id has the wrong number of references. |
| AddrCheck.LeftEmpty | oktools/old-native/src/addrman.cpp:473-494 | Nothing is left over after the buckets exactly when every id is in the number of buckets it should be in. |
| AddrHistories.StepKeeps | oktools/old-native/src/addrman.cpp:92-368 | One operation keeps the invariant. |
| AddrHistories.RunTimes | oktools/old-native/src/addrman.cpp:260-387 | The recorded times stay sound along a run with a sound clock. |
| AddrBounds.NeverOverfull | oktools/old-native/src/addrman.h:122-132 | Never more than 64*64 + 256*64 addresses; the shuffled vector, both maps and the two counters agree on how many. |
| AddrBounds.NewEverywhere | oktools/old-native/src/addrman.h:105-111 | Untried addresses are at most what the 256 buckets of 64 hold. |
| AddrBounds.TriedGroupIsBounded | oktools/old-native/src/addrman.h:112-116 | The design goal for tried entries: one address range never has more than 4 buckets of 64. |
| AddrBounds.TriedBucketInGroup | oktools/old-native/src/addrman.cpp:8-20 | The tried bucket of a service is one of the four its range selects. |
| AddrBounds.NewBucketInGroup | oktools/old-native/src/addrman.cpp:22-34 | The new bucket of an address is one of the thirty-two the range of its source selects. |
| AddrBounds.RangesSettle | oktools/old-native/src/addrman.cpp:22-34 | The new bucket of an address is settled by its range and that of its source. |
| AddrBounds.OwnRangeMatters | oktools/old-native/src/addrman.cpp:22-34 | And its own range matters: some hash tells two ranges apart. |
| AddrBounds.OwnKeyMatters | oktools/old-native/src/addrman.cpp:8-20 | The address and port of a service matter for its tried bucket: some hash tells two of one range apart. |
| AddrShares.RunShare | oktools/old-native/src/addrman.h:106-107 | In every run, whoever announces what, the untried entries heard of from one range are at most 32 buckets full, plus one for each operation that could spill over: another range repeats one of its addresses, or a promotion from a bucket not open to it finds the tried bucket full and there an entry of the range that can be driven out and whose new bucket is full. |
| AddrShares.StepSpills | oktools/old-native/src/addrman.cpp:202-368 | One operation adds at most one address to those of a range that sit in buckets not open to it, and none unless it could spill over. |
| AddrShares.ShareIsBounded | oktools/old-native/src/addrman.h:106-107 | In a sound state the untried entries heard of from a range are at most 32 buckets full and those in other buckets. |
| AddrShares.RunAddsInside | oktools/old-native/src/addrman.cpp:311-368 | In every run, an address announced changes no new bucket but the 32 open to the range that announces it. |
| AddrShares.EvictedOutside | oktools/old-native/src/addrman.cpp:231-258 | An evicted entry ends in a bucket not open to its source exactly when its own new bucket is full apart from the promoted entry and the promoted one was found in a bucket not open to it. |
| AddrSpill.EvictionCanSpill | oktools/old-native/src/addrman.cpp:231-258 | A sound manager and a promotion in which that happens. |
| AddrShares.GoodSpillsExactly | oktools/old-native/src/addrman.cpp:202-309 | Before the call: some draws make Good put an entry of a range into a new bucket not open to that range exactly when the tried bucket is full, the promoted address sits in a bucket not open to the range, and an entry of the range there can be driven out and has its own new bucket full. |
| AddrEviction.EvictableExactly | oktools/old-native/src/addrman.cpp:124-146 | Some draws make SelectTried answer a given entry of a full bucket exactly when one of the first four entries has not been successful later; so the oldest of a bucket is never evicted unless it is one of the first four. |
| AddrEviction.OnlyOutlived | oktools/old-native/src/addrman.cpp:124-146 | Whatever the draws, the entry answered has one of the first four no younger than itself. |
| AddrShares.RunStaysIn | oktools/old-native/src/addrman.h:106-107 | A range that announces alone, all along a run, stays in its 32 new buckets. |
| AddrShares.StepStaysIn | oktools/old-native/src/addrman.h:106-107 | One operation keeps it so, as long as no other range announces. |
| AddrRuns.GoodKeeps | oktools/old-native/src/addrman.cpp:260-309 | Good forgets no address: the ids stay; it moves at most this id from new to tried and at most one other the opposite way; any time value keeps the structure sound. |
| AddrRuns.MoveKeeps | oktools/old-native/src/addrman.cpp:202-258 | Moving an id to its tried bucket keeps the invariant and changes the side of at most one other id. |
| AddrRuns.GoodTimes | oktools/old-native/src/addrman.cpp:260-309 | After Good the times are sound exactly when the time given was positive or the call changed nothing. |
| AddrRuns.AttemptTimes | oktools/old-native/src/addrman.cpp:370-387 | After Attempt the times are sound exactly when the time given was not negative or the call changed nothing. |
| AddrRuns.AddKeeps | oktools/old-native/src/addrman.cpp:311-368 | Add keeps the invariant, answers whether a routable address was new, and forgets at most one id, an untried one that lost its last reference in a full bucket. |
| AddrRuns.FileKeeps | oktools/old-native/src/addrman.cpp:148-200 | Filing a counted reference, after shrinking a full bucket, repairs the count raised before it. |
| AddrRuns.RefCountIsBounded | oktools/old-native/src/addrman.h:140-141 | An address is in at most four new buckets, and an untried one in at least one. |
| AddrRuns.AttemptKeeps | oktools/old-native/src/addrman.cpp:370-387 | Attempt keeps the invariant and the ids. |
| AddrRuns.ConnectedKeeps | oktools/old-native/src/addrman.cpp:515-533 | Connected keeps the invariant and the ids. |
| AddrRuns.GetAddrKeeps | oktools/old-native/src/addrman.cpp:499-513 | Answering addresses only reshuffles; the answer has known and pairwise different network addresses. |
| AddrAging.RunPast | oktools/old-native/src/addrman.cpp:260-387 | Along any run a record holds the number of attempts since the last success, and the times of the last try and success, of the calls made about its address. |
| AddrAging.RunTerrible | oktools/old-native/src/addrman.cpp:36-54 | In any run an address is terrible exactly when it was not tried in the last minute, and is dated more than ten minutes ahead, or not seen in thirty days, or was tried three times and never reached, or tried in vain ten times and not reached in seven days. |
| AddrAging.GoodIsKept | oktools/old-native/src/addrman.cpp:260-309 | After a success an address is terrible exactly from thirty days later on. |
| AddrAging.GoodSeen | oktools/old-native/src/addrman.cpp:260-309 | After a success the time an address was seen is the time given, but for a multiple of 2^32. |
| AddrAging.ThirdAttempt | oktools/old-native/src/addrman.cpp:370-387 | An address never reached, seen lately and not dated ahead, is terrible exactly from a minute after its third attempt on. |
| AddrAging.TenthAttempt | oktools/old-native/src/addrman.cpp:370-387 | One that was reached, exactly from a minute after its tenth attempt in vain and seven days after it was reached on. |
| AddrAging.RunForgets | oktools/old-native/src/addrman.cpp:148-200 | In any run, what Add forgets was in a full bucket, and terrible by its past unless nothing in that bucket was. |
| AddrAging.NewsMovesForward | oktools/old-native/src/addrman.cpp:320-333 | News never moves the time an address was last seen back nor past the time announced; exactly when it moves it; and services are only added. |
| AddrAging.NewsOfUnseen | oktools/old-native/src/addrman.cpp:320-333 | An address never seen takes the time announced less the penalty, but not below zero. |
| AddrMoves.SelectTriedHoldsOldest | oktools/old-native/src/addrman.cpp:124-146 | The slot answered holds the oldest inspected entry exactly when that entry's own draw was its own slot; the bucket is permuted. |
| AddrMoves.SelectTriedCanMissOldest | oktools/old-native/src/addrman.cpp:124-146 | A full bucket of 64 and four draws for which the slot answered does not hold the oldest inspected entry. |
| AddrMoves.PromoteKeeps | oktools/old-native/src/addrman.cpp:202-230 | Moving an id into a tried bucket with room keeps the invariant. |
| AddrMoves.DisplaceKeeps | oktools/old-native/src/addrman.cpp:231-258 | Exchanging an id for an entry of a full tried bucket keeps the invariant. |
| AddrMoves.RoomAtOrigin | oktools/old-native/src/addrman.cpp:239-247 | The bucket an evicted entry goes back to always has room; the fallback is the bucket the new id has just left. |
| AddrMoves.ShuffleKeepsMultiset | oktools/old-native/src/addrman.cpp:124-146 | The swaps of SelectTried permute the bucket. |
| AddrSteps.SwapKeepsShuffled | oktools/old-native/src/addrman.cpp:104-122 | Swapping two slots keeps the shuffled vector and its back-pointers in agreement. |
| AddrSteps.ForgetKeepsIndexed | oktools/old-native/src/addrman.cpp:161-167 | Forgetting an id keeps id map, address map and shuffled vector in agreement. |
| AddrSteps.CreateKeeps | oktools/old-native/src/addrman.cpp:92-102 | A created record leaves exactly one reference still to be filed. |
| AddrSteps.RaiseKeeps | oktools/old-native/src/addrman.cpp:350-352 | A raised count leaves exactly one reference still to be filed. |
| AddrSteps.PlaceKeeps | oktools/old-native/src/addrman.cpp:362-366 | Filing it completes the invariant. |
| AddrSteps.DropKeeps | oktools/old-native/src/addrman.cpp:156-199 | Dropping a reference from a bucket keeps the invariant and forgets the id exactly when it was the last. |
| AddrSteps.TouchKeeps | oktools/old-native/src/addrman.cpp:260-387 | Changing times and attempts of a record keeps the invariant. |
| AddrManager.AddrMan.Find | oktools/old-native/src/addrman.cpp:79-90 | Finds the id of a network address exactly when it is known. |
| AddrManager.AddrMan.Create | oktools/old-native/src/addrman.cpp:92-102 | The whole new state: one more record, indexed, at the end of the shuffled vector; the counter of new entries is left to the caller. |
| AddrManager.AddrMan.SwapRandom | oktools/old-native/src/addrman.cpp:104-122 | The vector and the records with two slots exchanged. |
| AddrManager.AddrMan.SelectTried | oktools/old-native/src/addrman.cpp:124-146 | The permuted bucket, the draws, and the slot drawn in the round that met the oldest entry. |
| AddrManager.AddrMan.ShrinkNew | oktools/old-native/src/addrman.cpp:148-200 | Drops the first terrible entry, or of four drawn the one seen longest ago, and forgets it with its last reference. |
| AddrManager.AddrMan.OldestAt | oktools/old-native/src/addrman.cpp:171-189 | Of the entries at four positions, the one seen longest ago. |
| AddrManager.AddrMan.MakeTried | oktools/old-native/src/addrman.cpp:202-258 | The whole new state of moving an id to its tried bucket, with or without an eviction. |
| AddrManager.AddrMan.EraseFromNew | oktools/old-native/src/addrman.cpp:206-214 | The id is in no new bucket, its count lowered by as many as held it. |
| AddrManager.AddrMan.FindNewBucket | oktools/old-native/src/addrman.cpp:285-299 | The first bucket holding the id, looking round from a random one, or none. |
| AddrManager.AddrMan.Good_ | oktools/old-native/src/addrman.cpp:260-309 | Carries out a good step and keeps the invariant. |
| AddrManager.AddrMan.Add_ | oktools/old-native/src/addrman.cpp:311-368 | Carries out an add step and keeps the invariant. |
| AddrManager.AddrMan.Attempt_ | oktools/old-native/src/addrman.cpp:370-387 | Carries out an attempt step and keeps the invariant. |
| AddrManager.AddrMan.Connected_ | oktools/old-native/src/addrman.cpp:515-533 | Carries out a connected step and keeps the invariant. |
| AddrManager.AddrMan.GetAddr_ | oktools/old-native/src/addrman.cpp:499-513 | Carries out a get-addresses step and keeps the invariant. |
| AddrManager.AddrMan.CheckRecord | oktools/old-native/src/addrman.cpp:449-471 | 0 exactly when the record passes, otherwise the code of its first fault; an address missing from the map is added, as the code's lookup does. |
| AddrManager.AddrMan.StochasticTest | oktools/old-native/src/addrman.cpp:343-348 | Of the numbers that may be drawn, one in 2^n lets an entry with n references through. |
| AddrManager.AddrMan.CheckTried | oktools/old-native/src/addrman.cpp:473-481 | Passes exactly when every tried id is listed once and nothing else is. |
| AddrManager.AddrMan.CheckNew | oktools/old-native/src/addrman.cpp:483-494 | Passes exactly when every untried id is in as many buckets as it counts. |
| AddrManager.AddrMan.Check_ | oktools/old-native/src/addrman.cpp:439-496 | 0 exactly when the state meets every condition the code tests; otherwise the code of the first that it does not meet, in the order of the tests. |
| AddrDisk.RenamedIsSound | oktools/old-native/src/addrman.h:278-378 | A renamed copy of a sound manager, numbered as reading numbers it, is sound. |
| AddrDisk.ReadIsRenamed | oktools/old-native/src/addrman.h:318-378 | What reading builds up is a renamed copy of what was written, its last tries at zero, packed as reading numbers it, and sound. |
| AddrCheck.ReloadPasses | oktools/old-native/src/addrman.h:318-378 | A manager read back passes the consistency check exactly when the success times written were sound. |
| AddrHistories.ReloadTimes | oktools/old-native/src/addrman.h:318-378 | The times read back are sound exactly when the success times written were. |
| AddrDisk.RoomForTried | oktools/old-native/src/addrman.h:346-358 | A tried bucket being read back has room for every id it held. |
| AddrDisk.WriteOrderIs | oktools/old-native/src/addrman.h:284-306 | The order of writing lists every id once, the new ones first. |
| AddrDisk.StreamLayout | oktools/old-native/src/addrman.h:268-317 | Where the header, the records and the buckets stand in a written stream. |
| AddrManager.AddrMan.Serialize | oktools/old-native/src/addrman.h:278-317 | Writes exactly the stream of a sound manager. |
| AddrManager.AddrMan.ReadTriedRecords | oktools/old-native/src/addrman.h:341-360 | Reads all tried records and loses none. |
| AddrManager.AddrMan.Unserialize | oktools/old-native/src/addrman.h:318-378 | Reading what a sound manager wrote gives a sound manager: the same addresses, new-bucket sets and tried membership, up to renaming ids; it passes the consistency check exactly when the success times written were sound. |
| NetNode.Relay | oktools/old-native/src/net.cpp:644-772 | Whatever part of the queued messages the socket took and however it was cut up on arrival, the receiver accepts it exactly when the header of the first message that is too big has not arrived whole; it then holds the first messages, in order and unchanged, and at most a strict part of the next; refusing, it holds all the messages before the one too big. |
| MessageFrames.ShortOfBig | oktools/old-native/src/net.cpp:675-704 | What a receiver can hold of a queue ends before the header of the first message that is too big. |
| MessageFrames.Delivery | oktools/old-native/src/net.cpp:644-673 | What is received of a prefix of sent bytes is the first messages sent and a strict part of the next, and not even the header of one that is too big. |
| MessageFrames.SameBytesSameFrames | oktools/old-native/src/net.h:208-246 | The bytes of a stream determine its frames. |
| MessageFrames.SameStart | oktools/old-native/src/net.h:227-232 | Two frames that begin one stream are equal, and a partial one is shorter. |
| Octets.Le32RoundTrip | oktools/old-native/src/net.h:560-566 | An unsigned int stored as four little-endian bytes is read back modulo 2^32. |
| NetNode.NetMessage.ReadHeader | oktools/old-native/src/net.cpp:675-704 | Takes at least one byte and exactly those it answers, or refuses an oversized header. |
| NetNode.NetMessage.ReadData | oktools/old-native/src/net.cpp:706-729 | Takes at least one byte and exactly those it answers, growing the buffer as it goes. |
| NetNode.NetMessage.TakenIs | oktools/old-native/src/net.h:227-232 | A message is complete exactly when the bytes it has taken are a whole frame. |
| NetNode.Node.ReceiveMsgBytes | oktools/old-native/src/net.cpp:644-673 | Accepts all the bytes and appends them to what the queue has taken, or refuses an oversized header, all messages before it being in the queue; it terminates. |
| NetNode.Node.SocketSendData | oktools/old-native/src/net.cpp:731-772 | Offers the unsent rest of the first message, then each next one whole, up to the first not taken whole; that one and those after it stay. Bytes written plus bytes pending are what they were; the size counter stays exact. |
| NetNode.OfferedSays | oktools/old-native/src/net.cpp:731-772 | A queue that is not empty is offered to the socket, and a socket that takes all it is offered empties it. |
| NetNode.Node.BeginMessage | oktools/old-native/src/net.h:531-538 | Starts a message of no payload: a whole header that is itself a frame, with the network's mark, from which the command is read back up to its twelve bytes. |
| NetNode.Node.EndMessage | oktools/old-native/src/net.h:550-584 | Queues the message with its size and checksum filled in, or drops it; if it is the only one, offers it to the socket at once. |
| NetNode.RejectedAt | oktools/old-native/src/net.cpp:644-704 | A receiver that refuses part of a stream of messages does so at the first that is too big, having taken all those before it and the header of that one. |
| NetNode.BigFrameIsRejected | oktools/old-native/src/net.cpp:693-695 | A frame announcing more than the limit is refused. |
| NetNode.SealedIsFrame | oktools/old-native/src/net.h:550-572 | A sealed message is acceptable to a receiver exactly when its payload is within the limit, and keeps its command. |
| BlockAssembly.CollectTransactions | oktools/old-native/src/miner.cpp:160-399 | Whatever the checks made elsewhere answer, the block is what a run of rounds that empties the queue leaves, each of which took the highest in the queue by priority or, later, by fee rate. It lists eligible transactions only, each once, after all its in-pool parents, cleared by every check, at the fee it was priced at, within size and sigop limits, with the right totals; and an eligible transaction is left out only if the finished block could not take it (size, sigops, too low a fee rate, a failed check) or lacks one of its parents. |
| BlockRounds.NothingForgotten | oktools/old-native/src/miner.cpp:277-399 | At the end of a run the eligible transactions that are not in the block are barred from it as it stands, or spend one that is not in it; and only eligible ones are in it. |
| BlockRounds.RunSound | oktools/old-native/src/miner.cpp:277-399 | Every state of a run has its block in order and cleared, within the limits, all refused ones barred, and loses track of no eligible transaction. |
| BlockRounds.StepKeeps | oktools/old-native/src/miner.cpp:277-399 | One round keeps all that and the set of tracked transactions. |
| BlockRounds.BarredLater | oktools/old-native/src/miner.cpp:288-364 | What bars a transaction from a block bars it from every larger one. |
| BlockRounds.TurnsDiffer | oktools/old-native/src/miner.cpp:277-286 | No transaction gets a second turn in a run. |
| BlockRounds.RunTakesHighest | oktools/old-native/src/miner.cpp:97-116 | Every round of a run takes, once the order is by fees, a transaction of the highest fee rate in the queue, and of equal ones the highest priority; before, the highest priority, and of equal ones the highest fee rate. |
| BlockRounds.UnearnedAtTheTurn | oktools/old-native/src/miner.cpp:305-316 | Past the minimum block size a transaction of too low a fee rate is taken in exactly when the block was not yet ordered by fees and the transaction is not one for the priority part: the order turns to fees at it. |
| BlockRounds.RunEarned | oktools/old-native/src/miner.cpp:277-399 | Along a whole run everything in the block has earned its place exactly when no round took in such a transaction. |
| BlockRounds.FreeRide | oktools/old-native/src/miner.cpp:305-316 | A pool and a whole run in which one is taken in. |
| BlockAssembly.Fill | oktools/old-native/src/miner.cpp:262-399 | Leaves a run of rounds from the queue given to an empty one, with the dependency sets struck accordingly and exact totals; it terminates. |
| BlockAssembly.Turn | oktools/old-native/src/miner.cpp:277-399 | One round: a best entry leaves the queue, and is refused, or goes into the block and frees those that waited for it alone. |
| BlockAssembly.Consider | oktools/old-native/src/miner.cpp:283-364 | The early exits together: the entry is taken exactly when nothing bars it, and the order turns to fees exactly when it is an ordinary one there is room and time for. |
| BlockAssembly.Best | oktools/old-native/src/miner.cpp:97-116 | An entry that none of the others comes before. |
| BlockAssembly.Release | oktools/old-native/src/miner.cpp:379-398 | Strikes a hash off every dependant's set and queues exactly those left with none, each once. |
| BlockAssembly.ScanInputs | oktools/old-native/src/miner.cpp:181-226 | What a transaction waits for, whether an input is missing, its value in and its aged value. |
| BlockAssembly.TakeStock | oktools/old-native/src/miner.cpp:166-259 | The queue and the waiting orphans of the whole pool, with the right priorities and fee rates. |
| BlockRounds.StockedKept | oktools/old-native/src/miner.cpp:166-259 | After stock-taking the invariant of the rounds holds and exactly the eligible transactions are tracked. |
| BlockPlan.IncludeKeeps | oktools/old-native/src/miner.cpp:367-398 | Including a transaction and freeing its dependants keeps order, uniqueness and the tracked set. |
| BlockPlan.RefuseKeeps | oktools/old-native/src/miner.cpp:284-364 | Refusing one keeps them too. |
| BlockPlan.InOrderGrows | oktools/old-native/src/miner.cpp:367-372 | A block in order stays so with one more transaction whose parents are in it. |
| BlockPlan.NothingIsLost | oktools/old-native/src/miner.cpp:272-399 | With the queue empty, a tracked transaction is in the block, refused, or waits for one that is not in it. |
| MnemonicPhrases.RoundTrip | oktools/old-native/src/extkey.cpp:978-1198 | For entropy of a multiple of four bytes, from 4 to 1024, and any list of 2048 distinct words, decoding the encoding gives the entropy back with its checksum accepted exactly when it is shorter than 128 bytes and the phrase shorter than 2048. |
| MnemonicPhrases.WordsRoundTrip | oktools/old-native/src/extkey.cpp:1112-1195 | The same between entropy and word numbers: from 128 bytes on the checksum length is misjudged. |
| MnemonicPhrases.JoinedWords | oktools/old-native/src/extkey.cpp:990-1040 | The words of entropy hold the entropy, then the leading bits of its hash. |
| MnemonicPhrases.MnemonicEncode | oktools/old-native/src/extkey.cpp:978-1070 | Returns the phrase, or the code of the error, that the specification gives. |
| MnemonicPhrases.MultiplesAreReadable | oktools/old-native/src/extkey.cpp:1001-1036 | Entropy of a multiple of four bytes never has its last word read past the array. |
| MnemonicPhrases.MnemonicDecode | oktools/old-native/src/extkey.cpp:1072-1198 | Returns the entropy, or the code of the error, that the specification gives. |
| MnemonicPhrases.LeadingBits | oktools/old-native/src/extkey.cpp:1180-1188 | The leading bits of the hash, the rest of the last byte zero. |
| MnemonicPhrases.PhraseIsRead | oktools/old-native/src/extkey.cpp:1060-1110 | A phrase written with either kind of space is cut into its words again. |
| Mnemonic.SplitIntoWords | oktools/old-native/src/extkey.cpp:1013-1041 | Word k is the number that bits 11k to 11k+10 of the input spell. |
| Mnemonic.GatherSpells | oktools/old-native/src/extkey.cpp:1017-1036 | The shifts and masks over two or three bytes give the eleven bits from any bit position. |
| Mnemonic.JoinWords | oktools/old-native/src/extkey.cpp:1127-1163 | The bytes that the bits of the words spell, padded with zeros. |
| Mnemonic.AddWord | oktools/old-native/src/extkey.cpp:1140-1160 | Adding a word at a bit position sets its bits and no others. |
| Mnemonic.BytesOfBits | oktools/old-native/src/extkey.cpp:1127-1163 | A byte string is determined by its bits. |
| WordLists.GetWord | oktools/old-native/src/extkey.cpp:856-878 | The word on line o of a newline-terminated list, or an error when there is none. |
| WordLists.GetWordOffset | oktools/old-native/src/extkey.cpp:880-913 | The first line equal to the word, or an error when there is none. |
| WordLists.ReplaceStrInPlace | oktools/old-native/src/util.cpp:1215-1223 | Replaces every occurrence from left to right. |
| WordLists.ReplaceSeparators | oktools/old-native/src/extkey.cpp:1066-1078 | Replacing the separator of a phrase changes the separators and nothing else. |
| Texts.TokensOfJoin | oktools/old-native/src/extkey.cpp:1100-1122 | Tokens of words joined by a separator are the words. |
| MnemonicPhrases.OffsetsOfListed | oktools/old-native/src/extkey.cpp:880-913 | Looking up the words of a list of distinct words gives their numbers. |
| KeyPath.PathRoundTrip | oktools/old-native/src/extkey.cpp:198-318 | Parsing a printed path gives it back, with a leading 0 for "m", exactly when it fits 510 characters and no element before the last is zero; the errors otherwise are 2 and 6. |
| KeyPath.ReadsDecimal | oktools/old-native/src/extkey.cpp:118-184 | A printed number is read back up to 2^32-1, and reported out of range above. |
| KeyPath.Strtou32max | oktools/old-native/src/extkey.cpp:118-184 | The number, or the kind of error, that sign, mark and digits of the base spell. |
| KeyPath.AccumulatedNext | oktools/old-native/src/extkey.cpp:151-171 | The cut-off test notices exactly the digit that makes the number too large. |
| KeyPath.ExtractExtKeyPath | oktools/old-native/src/extkey.cpp:198-291 | The path, or the code of the first error, of a text. |
| KeyPath.ParseElement | oktools/old-native/src/extkey.cpp:232-277 | The number or error of one element: hardened marks, bases two, ten and sixteen. |
| KeyPath.ParsesElement | oktools/old-native/src/extkey.cpp:232-277 | Every printed element is parsed back, hardened or not. |
| KeyTexts.ReadsNumber | oktools/old-native/src/extkey.cpp:118-184 | After white space and a sign, digits of any base up to 36, in small or capital letters, are read as their number; bases are found by their marks; a minus sign gives the negative modulo 2^32; too large is out of range. |
| KeyTexts.NumeralIsParsed | oktools/old-native/src/extkey.cpp:232-277 | A decimal, hexadecimal or binary element, in small or capital letters, is its number, or with a hardened mark that much above 2^31; above 2^32 - 1 it is error 5, and hardened from 2^31 on error 8. |
| KeyTexts.OnlyNumerals | oktools/old-native/src/extkey.cpp:232-277 | Error 4 exactly when the element neither begins with the letter m nor is such a numeral. |
| KeyTexts.DigitIs | oktools/old-native/src/extkey.cpp:152-162 | A byte is a digit exactly of the value at which the table of letters has it. |
| KeyPath.PathToString | oktools/old-native/src/extkey.cpp:293-318 | The printed form of the numbers stored in the bytes. |
| KeyPath.LoadedStored | oktools/old-native/src/extkey.cpp:107-114 | Numbers pushed as four bytes each are the numbers read back. |
| KeyPath.PushUInt32 | oktools/old-native/src/extkey.cpp:107-114 | Appends the four little-endian bytes of a number. |
| Merkle.BranchChecks | oktools/old-native/src/main.h:832-861 | The branch of any leaf leads from the leaf to the root. |
| Merkle.OnlyTheBranchChecks | oktools/old-native/src/main.h:832-861 | With an injective pair hash, a branch of tree height checks at an index exactly when hash and branch are the leaf's own. |
| Merkle.RootBinds | oktools/old-native/src/main.h:813-830 | With an injective pair hash, lists of one length have the same root exactly when they are equal. |
| Merkle.RepeatedLast | oktools/old-native/src/main.h:813-830 | Repeating an odd last transaction leaves the root as it was, and it checks at the index past the end. |
| Merkle.FlatIsTree | oktools/old-native/src/main.h:813-830 | The flat array is the recursive tree, node by node, its root last. |
| Merkle.WidthStep | oktools/old-native/src/main.h:2032-2035 | The width formula halves, rounding up, from each level to the next. |
| Merkle.LevelWidth | oktools/old-native/src/main.h:2032-2035 | Every level is as wide as the formula says. |
| Merkle.Block.BuildMerkleTree | oktools/old-native/src/main.h:813-830 | Fills the flat array and returns the root, 0 for no transactions. |
| Merkle.Block.GetMerkleBranch | oktools/old-native/src/main.h:832-846 | The siblings of an index, level by level, building the tree first if there is none. |
| Merkle.CheckMerkleBranch | oktools/old-native/src/main.h:848-861 | 0 for index -1, otherwise the hash climbed along the branch. |
| Locator.HitIsNear | oktools/old-native/src/main.h:1764-1827 | For chains forking f blocks below the sender's tip, the first hit is f deep when f is at most 11, otherwise at most 2f - 11 deep or the trailing genesis block; no block above the fork is hit. |
| Locator.Locate | oktools/old-native/src/main.h:1764-1827 | The block found and the distance answered by a peer, for any fork. |
| Locator.DepthIs | oktools/old-native/src/main.h:1764-1780 | The entries are 0 to 11 blocks deep, then at distances that double. |
| Locator.BoundIsMet | oktools/old-native/src/main.h:1764-1780 | The bound 2f - 11 is reached at every doubling. |
| Locator.CBlockLocator.Set | oktools/old-native/src/main.h:1764-1780 | The hashes at those depths, then the genesis hash. |
| Locator.LocateThin | oktools/old-native/src/main.h:1782-1827 | For a thin client's locator a peer finds the block asked from at distance 0, or the genesis block at distance 1. |
| Locator.CBlockLocator.GetDistanceBack | oktools/old-native/src/main.h:1792-1811 | The exact depth of the first hit when that is a regular entry. |
| Locator.CBlockLocator.GetBlockIndex | oktools/old-native/src/main.h:1813-1827 | The block of the first hit, or the genesis block. |
| MedianTime.MedianNeverDecreases | oktools/old-native/src/main.h:1249-1271 | Along a chain whose blocks are later than their parents' past time limits, across the protocol switch, the median never decreases and never exceeds the block's own time. |
| MedianTime.MedianIsMonotone | oktools/old-native/src/main.h:1249-1271 | The same between any two blocks of the chain. |
| MedianTime.MedianMoves | oktools/old-native/src/main.h:1259-1271 | A block later than the median moves it on, and not past itself. |
| MedianTime.MedianAt | oktools/old-native/src/main.h:1259-1271 | The median is at least m exactly when no more than half the window is below m. |
| MedianTime.GetMedianTimePast | oktools/old-native/src/main.h:1259-1271 | The middle of the last eleven times in order. |
| MedianTime.GetPastTimeLimit | oktools/old-native/src/main.h:1249-1255 | The block's own time or the median, by protocol version, and between the two on a valid chain. |
| Sorting.SortSorts | oktools/old-native/src/main.h:1269-1270 | Sorting orders a sequence and keeps its elements. |
| StakeModifier.ComputeNextStakeModifier | oktools/old-native/src/kernel.cpp:180-264 | Keeps the old modifier within an interval; otherwise min(64, n) rounds all succeed, each picks as specified against those before, and bit r is the entropy bit of the block of round r. |
| StakeModifier.SelectBlockFromCandidates | oktools/old-native/src/kernel.cpp:70-115 | Of the unselected candidates up to the stop time the one with the smallest selection hash, the first among equals, or the earliest one if none is that early. |
| StakeModifier.OneChoice | oktools/old-native/src/kernel.cpp:70-115 | A round has only one possible choice. |
| StakeModifier.PicksDiffer | oktools/old-native/src/kernel.cpp:222-236 | Different rounds pick different blocks. |
| StakeModifier.StopsGrow | oktools/old-native/src/kernel.cpp:52-65 | Each stop time is later than the one before, and the last is the last interval boundary at or before the previous block. |
| StakeModifier.SectionIs | oktools/old-native/src/kernel.cpp:50-56 | Section r is the whole part of 600 * 63 / (189 - 2 r) seconds. |
| StakeModifier.SectionsGrow | oktools/old-native/src/kernel.cpp:50-56 | Sections never shrink from one round to the next, from a third of the interval in the first to the whole of it in the last. |
| StakeModifier.SectionIsPositive | oktools/old-native/src/kernel.cpp:50-56 | Each section lies between 200 and 600 seconds. |
| StakeModifier.GetStakeModifierSelectionInterval | oktools/old-native/src/kernel.cpp:59-65 | The sum of the sixty-four sections. |
| StakeModifier.GetLastStakeModifier | oktools/old-native/src/kernel.cpp:21-32 | The last generated modifier and its time, or failure exactly when there is none. |
| StakeModifier.GatherCandidates | oktools/old-native/src/kernel.cpp:204-216 | The blocks of the window, in order of time and hash. |
| StakeModifier.CandidatesAre | oktools/old-native/src/kernel.cpp:204-216 | The candidates are the blocks of the window, distinct and ordered, and never none. |
| StakeModifier.RunRounds | oktools/old-native/src/kernel.cpp:218-236 | The rounds, their picks and the bits they give. |
| BigNums.SmallLoss | oktools/old-native/src/bignum.h:447-482 | The compact form of a positive number is not larger and less than one part in 2^15 smaller. |
| BigNums.SqueezeIsMonotone | oktools/old-native/src/bignum.h:447-482 | Larger numbers never have smaller compact forms. |
| BigNums.CompactTwice | oktools/old-native/src/bignum.h:447-482 | A second pass through the compact form changes nothing. |
| BigNums.NegativeMirrors | oktools/old-native/src/bignum.h:447-482 | A negative number has its opposite's compact form with the sign bit set. |
| BigNums.CanonicalCompact | oktools/old-native/src/bignum.h:447-482 | A compact form is returned unchanged exactly when its body is normal and its unused bytes are zero. |
| BigNums.SqueezedIs | oktools/old-native/src/bignum.h:447-482 | The compact form keeps up to three bytes whole and otherwise cuts off what is below the top three. |
| BigNums.BodyRoundTrip | oktools/old-native/src/bignum.h:408-445 | The bytes written for a number read back as it and have no byte to spare. |
| BigNums.BodyIsUnique | oktools/old-native/src/bignum.h:408-445 | Only one such byte string reads as a number. |
| BigNums.CBigNum.SetCompact | oktools/old-native/src/bignum.h:447-460 | The number its compact form spells. |
| BigNums.CBigNum.GetCompact | oktools/old-native/src/bignum.h:462-482 | Size byte and top three bytes, wrapped to 32 bits. |
| BigNums.CBigNum.SetVch | oktools/old-native/src/bignum.h:408-425 | The number that little-endian signed bytes spell. |
| BigNums.CBigNum.GetVch | oktools/old-native/src/bignum.h:427-445 | Bytes that SetVch reads back as the number. |
| Base58.DecodeEncode | oktools/old-native/src/base58.h:32-125 | Decoding an encoding gives every byte string back, leading zeros included. |
| Base58.EncodeDecode | oktools/old-native/src/base58.h:32-125 | Encoding a decoding gives every text over the alphabet back. |
| Base58.DecodedExactly | oktools/old-native/src/base58.h:80-125 | A text decodes to v exactly when it is the encoding of v with white space around it. |
| Base58.CheckedRoundTrip | oktools/old-native/src/base58.h:137-165 | A text over the alphabet decodes, checksum included, to v exactly when it is the checksummed encoding of v. |
| Base58.EncodeBase58 | oktools/old-native/src/base58.h:32-70 | The digits of the number, after a 1 for every leading zero byte. |
| Base58.DecodeBase58 | oktools/old-native/src/base58.h:80-125 | The byte string, or failure, that the specification gives. |
| Base58.EncodeBase58Check | oktools/old-native/src/base58.h:137-144 | The encoding with four bytes of hash appended. |
| Base58.DecodeBase58Check | oktools/old-native/src/base58.h:148-165 | The payload when the hash agrees; otherwise failure and an empty result. |
| Radix.DigitsOfValue | oktools/old-native/src/base58.h:48-58 | The digits of a number without leading zeros are unique. |
| Radix.ValueOfDigits | oktools/old-native/src/base58.h:93-110 | The digits of a number spell it. |
| Bloom.NeverForgets | oktools/old-native/src/bloom.cpp:41-83 | With at least one hash function an inserted key stays contained through any later insertions, scans and UpdateEmptyFull. |
| Bloom.NeedsHashes | oktools/old-native/src/bloom.cpp:41-83 | That holds of every later run exactly when there is a hash function. |
| Bloom.SpendIsSeen | oktools/old-native/src/bloom.cpp:111-202 | Under BLOOM_UPDATE_ALL, and under BLOOM_UPDATE_P2PUBKEY_ONLY for outputs to public keys, a transaction that spends a matched output is relevant whenever it is seen. |
| Bloom.OthersAddNothing | oktools/old-native/src/bloom.cpp:132-177 | In the other modes, and for transactions with no output to public keys under BLOOM_UPDATE_P2PUBKEY_ONLY, nothing is added. |
| Bloom.CBloomFilter.Insert | oktools/old-native/src/bloom.cpp:41-53 | Adds the positions of the key, unless the filter counts as full. |
| Bloom.CBloomFilter.Contains | oktools/old-native/src/bloom.cpp:69-83 | Whether all positions of the key are set, subject to the full and empty flags. |
| Bloom.CBloomFilter.Clear | oktools/old-native/src/bloom.cpp:99-104 | No position is set. |
| Bloom.CBloomFilter.UpdateEmptyFull | oktools/old-native/src/bloom.cpp:204-216 | The flags say exactly whether all positions or none are set. |
| Bloom.CBloomFilter.IsRelevantAndUpdate | oktools/old-native/src/bloom.cpp:111-202 | A full filter takes everything and an empty one nothing; otherwise relevant exactly when wanted or an output or input matches, and every updatable output from the first match on is added. Flags true of the data change none of that. |
| Bloom.AddedFrom | oktools/old-native/src/bloom.cpp:132-177 | An output is added exactly when it has data, the mode updates it, and it is at or after the first match, or the transaction itself is wanted. |
| Bloom.OnlyMatchesAdded | oktools/old-native/src/bloom.cpp:132-177 | So only outputs that match are added exactly when, from there on, every output the mode updates matches. |
| Bloom.UnmatchedIsAdded | oktools/old-native/src/bloom.cpp:132-177 | A filter and a transaction whose second output does not match and is added. |
| Bloom.CBloomFilter.SetBit | oktools/old-native/src/bloom.cpp:50-50 | Sets one position and no other. |
| Bloom.RunGrows | oktools/old-native/src/bloom.cpp:41-202 | No operation but clear takes a position away. |
| PageLock.RunMatches | oktools/old-native/src/allocators.h:57-100 | After any run of locks, and unlocks of ranges held, each page's count is the number of held ranges touching it, and the pages with a count are those some range touches. |
| PageLock.UnlockKeeps | oktools/old-native/src/allocators.h:80-100 | Unlocking a held range never meets a page without a count, and keeps the counts exact. |
| PageLock.LockKeeps | oktools/old-native/src/allocators.h:57-77 | Locking a range keeps the counts exact. |
| PageLock.PagesAre | oktools/old-native/src/allocators.h:61-64 | The pages the loop visits are those with an address in common with the range. |
| PageLock.AllUnlocked | oktools/old-native/src/allocators.h:80-100 | Once nothing is held no page is locked. |
| PageLock.LockedPageManager.LockRange | oktools/old-native/src/allocators.h:57-77 | Raises the count of exactly the touched pages; exactly the pages with a count are locked. |
| PageLock.LockedPageManager.UnlockRange | oktools/old-native/src/allocators.h:80-100 | The assertion holds exactly when every touched page has a count; then exactly their counts are lowered and pages at zero unlocked. |
| PageLock.LockedPageManager.GetLockedPageCount | oktools/old-native/src/allocators.h:103-107 | The number of locked pages. |

## Left out

- AddrMan: `Select_` and `GetChance`, whose acceptance odds are floating point.
- AddrMan: one reading of the clock serves a whole operation; the code reads it again for each `IsTerrible`.
- AddrMan: overflow of the 32-bit id counter and attempt counter.
- AddrManager.AddrMan.Unserialize: reads only what a sound manager with the same bucket count wrote; the path for another bucket count inserts without the cap of 64, and truncated or malformed streams are not modelled.
- NetNode: sockets, timeouts, locks, logging and the disconnection that follows a refused header; the header is 24 bytes of which only the size field is interpreted, the magic and the checksum being checked elsewhere.
- NetNode.Node.ReceiveMsgBytes: after a refusal nothing is said of the last message of the receive queue, because the peer is then disconnected.
- NetNode.Node.EndMessage: a payload of 2^32 bytes or more, whose size field wraps.
- BlockAssembly.CollectTransactions: a pool in which a transaction spends an unconfirmed pool transaction and, in a later input, one that is nowhere; the code then frees an orphan that `mapDependers` still points to. Spent outputs are taken to exist.
- BlockAssembly: bodies of `FetchInputs`, `ConnectInputs`, `CheckAnonInputs`, `GetMinFee` and the script operation counts, whose answers are arbitrary, per transaction, since each has one turn; coinbase, coinstake and header fields.
- BlockAssembly.Best: which of several equal entries the heap yields is left open.
- MnemonicPhrases.MnemonicEncode: `Readable` leaves out lengths above about a thousand bytes, not multiples of four, for which the last word is read past the end of the code's array.
- MnemonicPhrases.MnemonicDecode: detection of the language, the number `WLL_MAX` that the range check lets through, and phrases of more than 744 words, whose checksum is compared past the end of the hash.
- MnemonicPhrases.MnemonicEncode: the code appends to the caller's `sWordList`; the model's starts empty.
- MnemonicPhrases: `MnemonicAddChecksum` and `MnemonicToSeed`.
- KeyPath: `errno` is a returned value.
- Merkle: `CPartialMerkleTree` beyond its width formula.
- Merkle.Block.GetMerkleBranch: a tree built before the transactions changed, and negative indices.
- StakeModifier: the thin-client variants, the kernel hash and its lookup window, and log output.
- Locator: the thin-client class.
- BigNums: OpenSSL's functions beyond the MPI format of integers shorter than 2^32 bytes; hexadecimal conversion.
- Base58: address versions and secure strings.
- Bloom.CBloomFilter.constructor: takes the sizes directly; the formulas for them are floating point.
- Bloom.CBloomFilter.IsRelevantAndUpdate: a filter without data that counts neither as full nor as empty, where the code divides by zero. Scripts are lists of the data of their operations; `Solver` is a flag of the output.
- PageLock: the page size is any positive number, masking being division; the power-of-two check, the mutex, and ranges at the very top of the address space, where the code's loop would wrap around.
- The React interface, configuration, databases, networking threads and cryptography of the repository.
