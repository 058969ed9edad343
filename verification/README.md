# PWRB cores in Dafny

A model of the parts of the PWRB node whose correctness rests on invariants over whole
runs, on exchange arguments or on carry arithmetic, with proofs of what they promise.
`dafny verify dfyconfig.toml` checks all of it.

| files | what they model |
|---|---|
| `AddrManState`, `AddrManOps`, `AddrManRecords`, `AddrMan`, `AddrManStream`, `AddrManForeign`, `AddrManCheck` | the address manager: its redundant tables, its operations, its records over runs, saving and loading, and its self-check |
| `CheckQueue` | the queue of script checks shared by one master and any number of workers |
| `Coins`, `CoinsView`, `CoinsCache` | the outputs of a transaction, and stacked caches of them over the database |
| `VarInt`, `CoinsCodec`, `Compressor` | the stored form of coins and amounts |
| `Radix`, `Base58` | positional numbers and Base58 texts |
| `Denominations`, `DenominationChoice` | choosing zerocoin mints by denomination |
| `ArithLimbs`, `ArithShift`, `ArithUint`, `ArithCompact` | multi-limb integers and their compact form |
| `Chain` | block index entries, their skip list, and the active chain |
| `Payments`, `Budget` | the masternode payee tally, and the block builder and checker of budgets |

## How to read it

Code that changes state step by step is modelled by classes and by methods with loops.
Each such method is tied by its contract to a function of the old state, or to a property
stated outright, and the theorems are lemmas about those functions.

**Address manager.** `State` is the value of all fields. `Core(h, s, pending)` is the
conjunction of everything `Check_` demands, where ids in `pending` may for the moment be
without a bucket; `Inv` is `Core` without exemptions. Bucket and position functions are
arbitrary functions with results in range, and every random draw is an argument. `Run`
proves the invariant for every sequence of operations from an empty manager. `Check_` is
proved to return zero exactly on the states it should accept, and `Valid()` to be that
plus the two things `Check_` does not look at. `SameUpTo(order, s, t)` says that two
managers agree when id `k` of `t` stands for `order[k]` of `s`.

**Check queue.** A system has one shared record and any number of threads, thread 0 being
the master. Steps are the atomic sections of the source: adding checks, one passage
through the locked section up to a wait, a return or the start of a batch, running one
check outside the lock, and a spurious wake-up.

**Coins.** A view is the database or a layer over a view. `Good` is the flag discipline:
an entry that is not DIRTY shows what the base shows, a FRESH one has nothing unspent below
it. `Agrees(v, maps)` compares every level with a flat map.

**Integers.** Numbers are lists of 32-bit limbs of any length; `Num` is their value and
`Modulus` is 2^BITS. `Times` and `ByB` are multiplication, written as repeated addition.

**Denominations.** A map from denominations to counts is a list of counts in the order of
the denominations. `Chain(v)` says that these ascend and that each divides the next.

## Where the code is not what its text says

- `Add_` returns true for an unknown address even when the entry is dropped at once
  (`AddKeepsUnknownIff` has the exact condition for keeping it, `AddedAndDropped` a case).
- `Check_` accepts addresses recorded for nobody (`StrayAddressPasses`) and ids beyond the
  counter, and it records a missing address of id 0 by looking it up.
- `Flush` of a cache that does not know its best block overwrites that of its parent
  (`FlushKeepsBestIff`, `FlushCanLoseBest`); the database alone guards against it.
- `x *= x` on a multi-limb integer clears the operand before it is read and gives zero,
  which is right exactly if the lower half of its bits is zero (`SquareInPlaceIff`,
  `SquareInPlaceFails`).
- VARINT loses negative numbers, hence a negative version or height of stored coins
  (`NegativeIsLost`, `RoundTripIsExactIff`).
- Two of the encodings listed for VARINT, of 16511 and 65535, are not those the code
  writes (`WriteExamples`).
- The stored form of coins is documented without the coinstake bit: the code has the bits
  of the first outputs one place higher and counts in sixteens (`Layout`, `Example`).
- `calculateChange` says that it returns zero for too many spends; a choice it
  returns is beyond the limit exactly if the largest coins within the limit do not exceed the target
  (`CalculateChange`, `LargestDecide`, `SpendLimitIsNotKept`).
- `getSpends` picks the same mints again when asked for more than there are, and does not
  end when there is none (`PicksOnceIff`, `GetSpendsEndsIff`).  The wallet gives it counts of
  mature mints beside a list that need not be mature, which is safe exactly if the counts
  are within the list (`MapIsSafeIff`).
- The budget checker rejects what the builder made when fewer than ten masternodes are
  enabled (`BuilderAndCheckerAgreeIff`, `FewMasternodesRefuse`).
- Asked again about a transaction it accepted, a budget calls it a double payment
  (`SecondVerdictDiffersIff`); the checker accepts it again exactly if another budget, for
  another proposal, finds its own payment among the outputs and unpaid
  (`SecondCheckIsValidIff`, `SecondCheckCanBeValid`).

## Model

| member | source | states |
|---|---|---|
| `AddrManState.CreateKeepsCore` | src/addrman.cpp:92-102 | Entering a new address keeps every condition of `Check_`; only the new id may be without a bucket. |
| `AddrManState.SwapKeepsCore` | src/addrman.cpp:104-122 | Swapping two places of the random vector keeps every condition. |
| `AddrManState.DeleteKeepsCore` | src/addrman.cpp:124-136 | Deleting an untried entry without references keeps every condition and removes exactly that id. |
| `AddrManState.UnrefKeepsCore` | src/addrman.cpp:138-151 | Emptying an occupied new slot and uncounting the reference keeps every condition; the id is exempt from having a bucket only if the count reached zero. |
| `AddrManState.ClearNewKeepsCore` | src/addrman.cpp:138-151 | Clearing a new slot keeps every condition, empties the slot, and loses no id but its occupant. |
| `AddrManState.PlaceKeepsCore` | src/addrman.cpp:308-311 | Entering an id into a free slot at its hashed position, with fewer than eight references, keeps every condition. |
| `AddrManState.UnplaceKeepsCore` | src/addrman.cpp:155-165 | Taking an id out of every new bucket keeps every condition for all other ids. |
| `AddrManState.UntryKeepsCore` | src/addrman.cpp:172-181 | Taking the occupant out of a tried slot keeps every condition for all other ids. |
| `AddrManState.TryKeepsCore` | src/addrman.cpp:194-199 | Moving an unreferenced id into its free tried slot keeps every condition. |
| `AddrManState.UpdateKeepsCore` | src/addrman.cpp:321-341 | Changing an entry without touching its place, address, flag or count keeps every condition. |
| `AddrManOps.EvictKeepsCore` | src/addrman.cpp:172-193 | Returning the occupant of a tried slot to the new table keeps every condition and changes no entry that is being moved but its random position. |
| `AddrManOps.MakeTriedKeepsInv` | src/addrman.cpp:153-199 | MakeTried keeps the whole invariant, the eviction included. |
| `AddrManOps.GoodKeepsInv` | src/addrman.cpp:201-251 | Good_ at a positive time keeps the whole invariant. |
| `AddrManOps.SettleKeepsInv` | src/addrman.cpp:297-317 | The end of Add_ gives the entry a place or drops it; the invariant holds without exemption afterwards. |
| `AddrManOps.AddKnownKeepsInv` | src/addrman.cpp:262-318 | Announcing a known address keeps the invariant for every draw of the stochastic test. |
| `AddrManOps.AddKeepsInv` | src/addrman.cpp:253-319 | Add_ keeps the invariant for every address, source, penalty, time and draw. |
| `AddrManOps.StepKeepsInv` | src/addrman.cpp:92-341 | Every operation keeps the invariant. |
| `AddrManOps.EmptyIsConsistent` | src/addrman.h:451-470 | A cleared manager with a key satisfies the invariant. |
| `AddrManOps.Run` | src/addrman.cpp:92-524 | From an empty manager, every run of operations ends in a state that satisfies the invariant, hence every assertion on the way holds. |
| `AddrManOps.Shuffle` | src/addrman.cpp:467-486 | The swaps of GetAddr_ keep the invariant and the length of the random vector. |
| `AddrManOps.DrawReaches` | src/addrman.cpp:478 | Every later position can be drawn, and none before. |
| `AddrManOps.PresentableMeans` | src/addrman.cpp:467-486 | GetAddr_ gives exactly the addresses of the passed ids that are not terrible. |
| `AddrManOps.GoodPromotes` | src/addrman.cpp:201-251 | After Good_ a known service is in its own tried slot under its old id, with success and try time set, failures reset and the last good time recorded. |
| `AddrManOps.MakeTriedPromotes` | src/addrman.cpp:153-199 | MakeTried makes the id tried and leaves its statistics and address alone. |
| `AddrManOps.FoundWhereTried` | src/addrman.cpp:79-90 | A tried entry is found under its address and in the tried slot it hashes to. |
| `AddrManOps.AttemptCountsOnce` | src/addrman.cpp:321-341 | Of two attempts in a row, at a time not before the last success, at most one failure is counted. |
| `AddrManOps.ConnectedKeepsTimeRecent` | src/addrman.cpp:488-506 | The recorded time never goes back and never lags a connection by more than twenty minutes; repeating the call changes nothing. |
| `AddrManOps.ClearNewLosesOnlyLastReference` | src/addrman.cpp:138-151 | ClearNew loses an entry only with its last reference. |
| `AddrManOps.MakeTriedLosesOnlyLastReference` | src/addrman.cpp:153-199 | MakeTried loses an entry only if it had one reference, in the new slot that the evicted entry takes. |
| `AddrManOps.SettleDropsOnlyTerrible` | src/addrman.cpp:297-317 | Another entry is displaced for good only if it is terrible and had a single reference. |
| `AddrManOps.AddDropsOnlyTerrible` | src/addrman.cpp:253-319 | Add_ forgets a known address only if it is terrible and had a single reference. |
| `AddrManOps.AddKeepsUnknownIff` | src/addrman.cpp:290-318 | An unknown routable address is kept by Add_ exactly if its slot is free, or its occupant is terrible or has further references. |
| `AddrManOps.SettleKeepsOwnAddress` | src/addrman.cpp:297-317 | A new entry keeps its address exactly if it may take the slot. |
| `AddrManOps.DeleteForgetsAddress` | src/addrman.cpp:124-136 | A deleted entry is no longer found under its address. |
| `AddrManOps.SomeBucketHolds` | src/addrman.cpp:230-245 | Every untried entry is in some new bucket at its hashed position: the bail-out of Good_ is unreachable. |
| `AddrManRecords.StepNoCredit` | src/addrman.cpp:253-524 | Every operation but Good_, with attempts dated not before the last success, leaves an entry at most as many countable failures as before, and gives new entries new ids. |
| `AddrManRecords.RunFrom` | src/addrman.cpp:92-524 | Runs from any consistent state end in a consistent one. |
| `AddrManRecords.FailuresCountOnce` | src/addrman.cpp:321-341 | In every run without a success, with attempts dated not before the last one and whatever else happens, at most one failure is counted for an entry, and none if one was counted since the last success. |
| `AddrManRecords.AnnouncingKnown` | src/addrman.cpp:262-318 | Announcing a known address: its services are united with the announced ones, its time becomes the announced one less the penalty exactly if it was unset or older by more than the hour or day and the penalty, nothing else of its record changes, and it gains a reference in the slot of the source exactly if the announcement is newer than that time, it is untried with fewer than eight references, the draw is zero modulo 2^references, and the slot is free or held by another, terrible entry; no other record changes. |
| `AddrManRecords.AnnouncingUnknown` | src/addrman.cpp:290-318 | A new address that is kept has the announced service, services and source, the announced time less the penalty, no history, one reference, and the slot of its source; no other record changes. |
| `AddrManRecords.AnnouncingUnroutable` | src/addrman.cpp:255-256 | An address that cannot be routed changes nothing. |
| `AddrManRecords.SettleMeans` | src/addrman.cpp:297-317 | Settling gives the entry one reference more in the slot if it can enter, and otherwise leaves all as it is, or drops the entry if it has none. |
| `AddrManRecords.TerribleIff` | src/addrman.cpp:37-55 | Terrible is: not tried in the last minute, and from the future, without a time, older than thirty days, never reached in three attempts, or not reached for a week in ten. |
| `AddrManRecords.AttemptMeans` | src/addrman.cpp:321-341 | An attempt is dated; a failure is counted exactly if asked for and none was counted since the last success; nothing else changes. |
| `AddrManRecords.SetServicesMeans` | src/addrman.cpp:508-524 | The services of the entry are those given, and nothing else changes. |
| `AddrManRecords.ConnectedMeans` | src/addrman.cpp:488-506 | The time of the entry becomes the given one exactly if that is more than twenty minutes later, and nothing else changes. |
| `AddrManRecords.UnknownServiceChangesNothing` | src/addrman.cpp:207-217 | Calls for a service that is not known, or known with another port, change no entry. |
| `AddrManRecords.EvictMeans` | src/addrman.cpp:172-193 | The evicted entry keeps its record and has one reference, in the new slot of its own source. |
| `AddrManRecords.MakeTriedMeans` | src/addrman.cpp:153-199 | MakeTried changes the record of the promoted and of the evicted entry, and of no other. |
| `AddrManRecords.AddedAndDropped` | src/addrman.cpp:290-318 | With one slot for all, the second address is reported as new and is not there. |
| `AddressManager.AddrMan.constructor` | src/addrman.h:451-475 | A new manager is the empty one and is consistent. |
| `AddressManager.AddrMan.SwapRandom` | src/addrman.cpp:104-122 | Computes the swap of two places of the random vector; its assertions hold by the precondition. |
| `AddressManager.AddrMan.Create` | src/addrman.cpp:92-102 | Computes the state with the new entry, and returns the id. |
| `AddressManager.AddrMan.Delete` | src/addrman.cpp:124-136 | Computes the state without the entry. |
| `AddressManager.AddrMan.ClearNew` | src/addrman.cpp:138-151 | Computes the state with the slot cleared, also while nNew is off by the entries in transit; the reference count assertion holds. |
| `AddressManager.AddrMan.MakeTried` | src/addrman.cpp:153-199 | Computes the promotion and leaves a consistent manager. |
| `AddressManager.AddrMan.ForgetNew` | src/addrman.cpp:155-165 | The loop over all new buckets removes every reference to the entry and brings its count to zero. |
| `AddressManager.AddrMan.ReturnToNew` | src/addrman.cpp:172-193 | Computes the eviction of a tried slot. |
| `AddressManager.AddrMan.Good_` | src/addrman.cpp:201-251 | Computes Good_, for any random start of the bucket search, and leaves a consistent manager. |
| `AddressManager.AddrMan.FindNewBucket` | src/addrman.cpp:230-245 | The search from a random start always finds a bucket that holds the entry. |
| `AddressManager.AddrMan.Settle` | src/addrman.cpp:297-317 | Computes the end of Add_. |
| `AddressManager.AddrMan.TakeSlot` | src/addrman.cpp:308-311 | Clears the slot and places the entry; the entry survives the clearing. |
| `AddressManager.AddrMan.AddUnknown` | src/addrman.cpp:290-318 | Computes Add_ of an unknown address. |
| `AddressManager.AddrMan.AddKnown` | src/addrman.cpp:262-318 | Computes Add_ of a known address. |
| `AddressManager.AddrMan.Add_` | src/addrman.cpp:253-319 | Computes Add_; the result is true exactly for unknown routable addresses. |
| `AddressManager.AddrMan.Attempt_` | src/addrman.cpp:321-341 | Computes Attempt_ and leaves a consistent manager. |
| `AddressManager.AddrMan.Connected_` | src/addrman.cpp:488-506 | Computes Connected_ and leaves a consistent manager. |
| `AddressManager.AddrMan.SetServices_` | src/addrman.cpp:508-524 | Computes SetServices_ and leaves a consistent manager. |
| `AddressManager.AddrMan.PassOne` | src/addrman.cpp:474-485 | One turn of GetAddr_: a swap, and the address if it is presentable. |
| `AddressManager.AddrMan.GetAddrLimitIs` | src/addrman.cpp:469-471 | The limit is twenty-three percent of the entries, rounded down, and at most 2500. |
| `AddressManager.AddrMan.GetAddr_` | src/addrman.cpp:467-486 | Gives the presentable addresses of the ids passed, at most the limit, and stops only at the end or at the limit; the manager stays consistent. |
| `AddressManager.AddrMan.Serialize` | src/addrman.h:303-350 | Writes the stream of the manager for any walk of the id map; its assertions on the counts hold. |
| `AddressManager.AddrMan.SaveNew` | src/addrman.h:316-326 | Writes the referenced entries in walking order and indexes them. |
| `AddressManager.AddrMan.SaveTried` | src/addrman.h:327-335 | Writes the tried entries in walking order. |
| `AddressManager.AddrMan.CountBucket` | src/addrman.h:337-341 | Counts the occupied positions of a bucket. |
| `AddressManager.AddrMan.SaveBucket` | src/addrman.h:343-348 | Writes the index of each occupant of a bucket. |
| `AddressManager.AddrMan.SaveBuckets` | src/addrman.h:336-349 | Writes all buckets. |
| `AddressManager.AddrMan.Unserialize` | src/addrman.h:353-448 | Into a manager without entries: the stream of a consistent manager gives the same entries, tables and counts up to the numbering, and a consistent manager; so does every completed read of a stream with a key, counts that are not negative, and entries of distinct addresses of which the tried ones have succeeded, whatever its version and buckets; whatever the stream, a completed read leaves the random vector in agreement with the id map. |
| `AddressManager.AddrMan.Clear` | src/addrman.h:451-470 | Everything but the two maps of entries is as in a new manager. |
| `AddressManager.AddrMan.LoadStream` | src/addrman.h:359-448 | The part after Clear, with the same guarantees. |
| `AddressManager.AddrMan.LoadBody` | src/addrman.h:364-448 | The part after the header, with the same guarantees. |
| `AddressManager.AddrMan.LoadNew` | src/addrman.h:373-391 | Reads the referenced entries, numbered in order. |
| `AddressManager.AddrMan.LoadTried` | src/addrman.h:393-412 | Reads the tried entries into their slots; for a saved manager none is lost. |
| `AddressManager.AddrMan.EnterTriedOrLose` | src/addrman.h:395-411 | A tried entry is entered if its slot is free, and is lost otherwise. |
| `AddressManager.AddrMan.PlaceBySource` | src/addrman.h:380-389 | Without a usable layout an entry gets the slot of its source exactly if it is free. |
| `AddressManager.AddrMan.LoadSlot` | src/addrman.h:421-428 | Re-enters one stored reference at the position the entry hashes to exactly if the layout is usable, the position free and the count below eight, and changes nothing otherwise. |
| `AddressManager.AddrMan.LoadBucket` | src/addrman.h:416-429 | Reads one bucket; for a saved manager every slot of it is restored. |
| `AddressManager.AddrMan.LoadBuckets` | src/addrman.h:414-430 | Reads all buckets. |
| `AddressManager.AddrMan.Prune` | src/addrman.h:432-442 | Drops entries without any reference; a restored manager has none. |
| `AddrManStream.RenumberingKeepsInv` | src/addrman.h:353-448 | A manager that is the same up to numbering satisfies the invariant as well. |
| `AddrManStream.LoadOrderEnumerates` | src/addrman.h:303-350 | The order in which entries are written lists every id once, nNew referenced ones and then nTried tried ones: the assertions on the counts hold. |
| `AddrManStream.IndexIsPlace` | src/addrman.h:316-326 | The index written for a referenced id is its place among the saved entries. |
| `AddrManStream.IndexCovers` | src/addrman.h:336-349 | Every id in a new slot has an index, and it leads back to the id. |
| `AddrManStream.ReadHeader` | src/addrman.h:359-371 | A stored bucket layout is used only if it has the number of buckets of this version. |
| `AddrManStream.HeaderRoundTrip` | src/addrman.h:307-371 | The header read is the header written; the flipped bit of the bucket count is undone. |
| `AddrManStream.StreamParts` | src/addrman.h:303-350 | The stream is the header, the entries in load order, and the buckets. |
| `AddrManStream.StreamStarts` | src/addrman.h:307-315 | The stream starts with 1, 32, the key, the two counts, and 1024 with bit 30 flipped. |
| `AddrManStream.HeaderOf` | src/addrman.h:359-371 | Of any six numbers only the key size is checked; version 0 has the number of buckets as it is, others with bit 30 flipped, and the buckets are used exactly for version 1 with 1024 of them. |
| `AddrManStream.SavedHeader` | src/addrman.h:359-371 | The header of a saved manager is accepted and its entries lie ahead. |
| `AddrManStream.LoadNewStep` | src/addrman.h:374-390 | Reading one referenced entry restores one more entry of the saved manager. |
| `AddrManStream.LoadTriedStep` | src/addrman.h:395-411 | Reading one tried entry finds its slot free and restores one more entry. |
| `AddrManStream.LoadSlotStep` | src/addrman.h:421-428 | Re-entering one reference restores one more slot. |
| `AddrManStream.NextOccupied` | src/addrman.h:343-348 | The indices of a bucket belong to its occupied positions, in order. |
| `AddrManStream.NextStored` | src/addrman.h:418-429 | Each stored index is accepted: it is in range, its position is free, and its count is below eight. |
| `AddrManStream.LoadedTriedIsSame` | src/addrman.h:393-412 | The tried table read is the saved one up to numbering. |
| `AddrManStream.RestoredIsSame` | src/addrman.h:353-448 | Once everything is read, the manager is the saved one up to numbering. |
| `AddrManStream.RestoredKeepsInv` | src/addrman.h:353-448 | Once everything is read, the invariant holds. |
| `AddrManForeign.EnterKeepsCore` | src/addrman.h:374-379 | Entering an entry for the new table under an unknown address keeps every condition but having a place. |
| `AddrManForeign.EnterTriedKeepsCore` | src/addrman.h:395-407 | So does entering a tried entry whose slot is free. |
| `AddrManForeign.PlaceKeepsLoose` | src/addrman.h:421-428 | So does a reference at the right free position. |
| `AddrManForeign.DeleteKeepsLoose` | src/addrman.h:434-438 | So does dropping an entry without a place. |
| `AddrManForeign.NothingPending` | src/addrman.h:432-442 | When every untried entry has a place, the invariant holds. |
| `AddrManForeign.SaneEnter` | src/addrman.h:374-390 | Reading an entry of a stream of distinct addresses finds its address unknown. |
| `AddrManForeign.SaneEnterTried` | src/addrman.h:395-411 | So does reading a tried one. |
| `AddrManCheck.InvPasses` | src/addrman.cpp:390-464 | A consistent manager passes Check_. |
| `AddrManCheck.RandomIsFull` | src/addrman.cpp:390-464 | As many places as ids, and every id at its own place, leaves no place of the random vector to a stranger. |
| `AddrManCheck.PassesMeansInv` | src/addrman.cpp:390-464 | A manager that passes Check_, has no stray addresses and no id beyond the counter is consistent. |
| `AddrManCheck.StrayAddressPasses` | src/addrman.cpp:390-464 | An address recorded for nobody passes, and is not consistent. |
| `AddrManCheck.VisitTried` | src/addrman.cpp:429-441 | Each tried slot is accepted exactly as the tried table demands. |
| `AddrManCheck.TriedDone` | src/addrman.cpp:429-457 | The set of tried ids is used up exactly if the tried table is right. |
| `AddrManCheck.VisitNew` | src/addrman.cpp:443-454 | Each accepted new slot takes one reference off its entry. |
| `AddrManCheck.RejectNew` | src/addrman.cpp:443-454 | A rejected new slot shows that the new table or a count is wrong. |
| `AddrManCheck.NewDone` | src/addrman.cpp:443-459 | The map of reference counts is used up exactly if the new table and the counts are right. |
| `AddrManCheck.CheckEntry` | src/addrman.cpp:398-422 | Zero exactly for an entry that passes; looking up a missing address inserts it with id 0, and after zero the address leads to the entry. |
| `AddrManCheck.CheckEntries` | src/addrman.cpp:398-422 | Zero exactly if all entries pass; the ids are sorted into tried and new, and the look-ups insert nothing but zeros. |
| `AddrManCheck.CheckTried` | src/addrman.cpp:429-441 | Ends with nothing left exactly if the tried table is right. |
| `AddrManCheck.CheckNew` | src/addrman.cpp:443-454 | Ends with nothing left exactly if the new table and the counts are right. |
| `AddrManCheck.CheckTables` | src/addrman.cpp:429-463 | Zero exactly if both tables and the key are right. |
| `AddrManCheck.CheckAll` | src/addrman.cpp:390-464 | Zero exactly for the managers that pass before the call; the look-ups insert nothing but zeros. |
| `AddrManCheck.Check_` | src/addrman.cpp:390-464 | Zero exactly for the managers that pass; with what it does not look at, that is exactly the invariant before the call. The look-ups insert missing addresses with id 0 and change nothing else; after zero every entry is recorded under its address. |
| `CheckQueue.BatchLength` | src/checkqueue.h:104-109 | A batch takes at least one check and no more than there are. |
| `CheckQueue.BatchIsShare` | src/checkqueue.h:104-109 | A batch is the most that is within the batch size and a share of the queue for every thread, but at least one. |
| `CheckQueue.InitialIsConsistent` | src/checkqueue.h:129-130 | A new queue satisfies the invariant. |
| `CheckQueue.AddKeepsInv` | src/checkqueue.h:145-157 | Adding checks keeps the invariant: nTodo counts the queue and the batches in flight, and the flag and the unfinished checks together tell whether all added checks pass. |
| `CheckQueue.AddWakes` | src/checkqueue.h:145-157 | One check wakes one sleeping worker if there is one, several wake them all, and no other thread changes. |
| `CheckQueue.ExecKeepsInv` | src/checkqueue.h:120-124 | Running one check outside the lock keeps the invariant. |
| `CheckQueue.LockKeepsInv` | src/checkqueue.h:76-119 | Every passage through the locked section keeps the invariant. |
| `CheckQueue.StepKeepsInv` | src/checkqueue.h:68-157 | Every step of every thread, spurious wake-ups included, keeps the invariant. |
| `CheckQueue.Run` | src/checkqueue.h:68-157 | Every interleaving of any number of threads, with any batch size, keeps the invariant. |
| `CheckQueue.WaitIsCorrect` | src/checkqueue.h:68-142 | In every run, Wait returns true if and only if all checks added since the previous Wait pass; afterwards the queue is empty, nothing is to do, all threads are idle and the flag is set. |
| `CheckQueue.UnusedIsIdle` | src/checkqueue.h:163-189 | A queue to which nothing was added since the last Wait is idle: the assertion of the control object holds. |
| `CheckQueue.MasterIsNotForgotten` | src/checkqueue.h:79-103 | While the master sleeps, some worker holds an unreported batch that is part of nTodo. |
| `CheckQueue.LastReportWakesMaster` | src/checkqueue.h:79-90 | The worker that reports the last batch wakes the master. |
| `CheckQueue.SomeoneCanMove` | src/checkqueue.h:68-126 | During a Wait some thread can always take a step that is not a wake-up. |
| `CheckQueue.MovesUseWork` | src/checkqueue.h:68-126 | Every such step uses up work, unless it ends the Wait. |
| `CheckQueue.WaitEnds` | src/checkqueue.h:68-142 | So many such steps cannot be taken without Wait having returned. |
| `CheckQueueObject.Queue.constructor` | src/checkqueue.h:129-130 | The fields of a new queue. |
| `CheckQueueObject.Queue.LockedSection` | src/checkqueue.h:76-119 | The locked section computes the transition of the protocol, and notifies the master exactly when the last check is reported. |
| `CheckQueueObject.Queue.AddChecks` | src/checkqueue.h:145-157 | Add appends the checks and counts them. |
| `CheckQueueObject.RunBatch` | src/checkqueue.h:120-124 | The flag stays true exactly if it was and every check of the batch passes. |
| `Coins.Trim` | src/coins.h:124-130 | Drops null outputs at the end, and nothing else. |
| `Coins.TrimmedIsPrunedIffEmpty` | src/coins.h:260-266 | Trimmed coins are fully spent exactly if no output is left. |
| `Coins.CleanedKeepsOutputs` | src/coins.h:124-130 | Cleanup keeps every unspent output where it was and does not change whether the coins are spent. |
| `Coins.VisibleIsSame` | src/coins.h:151-161 | Coins look the same to a reader exactly if they are equal: fully spent ones all are. |
| `Coins.Cleanup` | src/coins.h:124-130 | The loop computes the trimmed coins. |
| `Coins.Spend` | src/coins.cpp:39-55 | Succeeds exactly on an available output, nulls only that one, and remembers it; the metadata is remembered exactly if nothing is left. |
| `CoinsView.LookupIsTrimmed` | src/coins.cpp:112-120 | What any view of a consistent stack returns is trimmed. |
| `CoinsView.FetchExtends` | src/coins.cpp:93-110 | Fetching keeps the stack consistent and changes no lookup at any level. |
| `CoinsView.BeginKeeps` | src/coins.cpp:122-142 | Starting a modification changes no lookup. |
| `CoinsView.BeginHandsOut` | src/coins.cpp:122-142 | The modifier is given what the lookup shows, or empty coins. |
| `CoinsView.FinishUpdates` | src/coins.cpp:294-306 | Ending a modification changes the lookup of that transaction only, to the cleaned coins. |
| `CoinsView.ModifyUpdates` | src/coins.cpp:122-142 | A whole modification updates one transaction of the flat map and keeps the stack consistent. |
| `CoinsView.FreshWhenMissing` | src/coins.cpp:176-215 | What a child has and its parent does not know is FRESH: the assertion of BatchWrite holds. |
| `CoinsView.FlagsOfNewEntries` | src/coins.cpp:93-142 | A fetched entry is clean, and FRESH exactly if nothing is unspent below; one that is begun is DIRTY, and FRESH under the same condition. |
| `CoinsView.SpentFreshIsForgotten` | src/coins.cpp:176-306 | What is FRESH and ends fully spent is forgotten, at the end of a modification and in a merge. |
| `CoinsView.WrittenIsClean` | src/txdb.cpp:53-78 | The database never holds fully spent coins: dirty entries are written exactly if something is unspent, and others are left alone. |
| `CoinsView.MergeKeepsEntry` | src/coins.cpp:176-215 | Merging one entry gives the parent what the child showed, with right flags. |
| `CoinsView.BatchWriteKeeps` | src/coins.cpp:176-215 | After BatchWrite the parent shows what the child showed and is consistent. |
| `CoinsView.FlushKeeps` | src/coins.cpp:217-223 | Flush changes no lookup; parent and child agree afterwards. |
| `CoinsView.HaveCoinsIsUnspent` | src/coins.cpp:154-162 | Testing for an empty output list is testing for unspent outputs. |
| `CoinsView.CacheBestKeeps` | src/coins.cpp:164-169 | Asking for the best block changes no answer. |
| `CoinsView.FlushKeepsBestIff` | src/coins.cpp:217-223 | Flush keeps the best block exactly if the child knows one, or its parent is the database, or has none of its own, or has the same as is known below it. |
| `CoinsView.FlushCanLoseBest` | src/coins.cpp:176-223 | A child that was never asked for its best block wipes that of its parent. |
| `CoinsView.KnownBestSurvivesFlush` | src/coins.cpp:164-223 | Once a child was asked for a known best block, Flush keeps it. |
| `CoinsView.StepAgrees` | src/coins.cpp:93-306 | Every operation on a stack acts on the flat maps, one for each level, as it should. |
| `CoinsView.FlatRun` | src/coins.cpp:93-306 | In every run of fetches, modifications, flushes, pushes and pops, every level shows its flat map. |
| `CoinsView.DatabaseAgrees` | src/txdb.cpp:35-52 | A database of trimmed unspent coins is where a run can start. |
| `CoinsCache.TotalSplits` | src/coins.cpp:89-92 | The cache usage is the sum of the usages of its entries, in any order. |
| `CoinsCache.Database.GetCoins` | src/txdb.cpp:35-38 | Reads the map. |
| `CoinsCache.Database.BatchWrite` | src/txdb.cpp:53-78 | Writes dirty entries, erases spent ones, and sets the best block unless it is null. |
| `CoinsCache.Cache.constructor` | src/coins.cpp:82 | An empty cache on a base shows what the base shows, has no modifier, and its usage is exact. |
| `CoinsCache.Cache.FetchCoins` | src/coins.cpp:93-110 | Computes the fetch through all levels; the usage stays exact and no modifier changes at any level. |
| `CoinsCache.Cache.GetCoins` | src/coins.cpp:112-120 | Returns the lookup; no modifier changes at any level. |
| `CoinsCache.Cache.HaveCoins` | src/coins.cpp:154-162 | True exactly if there are unspent outputs; no modifier changes at any level. |
| `CoinsCache.Cache.ModifyCoins` | src/coins.cpp:122-142 | Computes the start of a modification, for a cache without a modifier; it has one then, and the levels below are as before. |
| `CoinsCache.Cache.EndModify` | src/coins.cpp:294-306 | Computes the end of a modification; the usage is exact again and there is no modifier. |
| `CoinsCache.Cache.GetBestBlock` | src/coins.cpp:164-169 | Returns the nearest known best block and caches it; no modifier changes at any level. |
| `CoinsCache.Cache.Merge` | src/coins.cpp:176-215 | Merges one entry as BatchWrite does; its assertion holds. |
| `CoinsCache.Cache.BatchWrite` | src/coins.cpp:176-215 | Merges all dirty entries, in any order. |
| `CoinsCache.Cache.Flush` | src/coins.cpp:217-223 | Computes the flush of a consistent cache; it is empty afterwards, its usage is zero, and no modifier changes at any level. |
| `CoinsCache.ModifyThrough` | src/coins.cpp:122-306 | A modification from start to end, at any level. |
| `CoinsCache.ReadAndFlush` | src/coins.cpp:112-223 | What is read through a cache is what the database holds after its flush. |
| `CoinsCache.StackedUse` | src/coins.cpp:82-306 | Two caches on a database: what is modified in the upper one is read below after one flush and from the database after two, and nothing else changes. |
| `VarInt.ReadWrite` | src/serialize.h:369-401 | Reading what was written gives the number back and leaves the rest. |
| `VarInt.WriteIs` | src/serialize.h:330-346 | The bytes of a number: the most significant first, high bits on all but the last, and the documented sum is the number. |
| `VarInt.WriteExamples` | src/serialize.h:346-352 | The encodings of ten numbers; those of 16511 and 65535 are not the documented ones. |
| `VarInt.NegativeIsLost` | src/serialize.h:369-401 | A negative number is written as one byte and comes back as its remainder by 128. |
| `VarInt.WriteRead` | src/serialize.h:369-401 | Bytes that were read are the bytes that the number is written as. |
| `VarInt.EveryNumberHasOneEncoding` | src/serialize.h:369-401 | No number has two encodings. |
| `VarInt.WriteVarInt` | src/serialize.h:369-384 | The loops write the encoding. |
| `VarInt.ReadVarInt` | src/serialize.h:386-401 | The loop reads it, and fails only at the end of the bytes. |
| `CoinsCodec.CalcMaskSize` | src/coins.cpp:20-37 | Counts the mask bytes up to the last that is not zero, and those that are not zero. |
| `CoinsCodec.BlockIsSpent` | src/coins.cpp:24-33 | Eight outputs are all spent exactly if their mask byte is zero. |
| `CoinsCodec.AvailByte` | src/coins.h:193-200 | A mask byte has the bits of the available outputs. |
| `CoinsCodec.MaskCovers` | src/coins.cpp:20-37 | Every available output has its bit in the mask. |
| `CoinsCodec.ReadMaskBack` | src/coins.h:218-232 | Counting down the mask bytes that are not zero reads exactly the mask, whose length is not stored. |
| `CoinsCodec.ReadOutsBack` | src/coins.h:233-241 | The outputs are read back to their places, the spent ones as null. |
| `CoinsCodec.TrimRestored` | src/coins.h:243-244 | Outputs beyond the last available one do not matter after Cleanup. |
| `CoinsCodec.CodeIsNat` | src/coins.h:181-192 | For coins that are not fully spent the header code is not negative. |
| `CoinsCodec.Layout` | src/coins.h:181-208 | Version, header code, mask, outputs and height in this order; each bit of the code, and the count above them. |
| `CoinsCodec.Example` | src/coins.h:45-58 | The bytes of 600 coins in output 1 at height 203998; the header code is 8, not 4 as documented. |
| `CoinsCodec.RoundTrip` | src/coins.h:181-244 | Reading what was written gives the same outputs, flags, height and version for coins that are not fully spent, and consumes exactly what was written. |
| `CoinsCodec.RoundTripIsExactIff` | src/coins.h:181-244 | The very same value comes back exactly if version and height are not negative, the outputs are trimmed, and the spent ones carry no leftovers. |
| `CoinsCodec.SerializeCoins` | src/coins.h:181-208 | The loops write the format. |
| `CoinsCodec.UnserializeCoins` | src/coins.h:211-244 | The loops read the format, or fail where the bytes end. |
| `Compressor.DecompressCompress` | src/compressor.cpp:140-183 | Decompression inverts compression on every natural number. |
| `Compressor.CompressDecompress` | src/compressor.cpp:140-183 | Compression inverts decompression on every natural number. |
| `Compressor.CompressBound` | src/compressor.cpp:140-157 | A code is at most nine times the amount. |
| `Compressor.CompressIs` | src/compressor.cpp:131-138 | The code of an amount with last digit d before e zeros, fewer than nine: 1 + 10 * (9 * q + d - 1) + e. |
| `Compressor.CompressBillions` | src/compressor.cpp:131-138 | The code of m billions is ten times m. |
| `Compressor.CompressExamples` | src/test/compress_tests.cpp:42-47 | The codes of six amounts that the tests list. |
| `Compressor.StripScale` | src/compressor.cpp:140-147 | Mantissa and zeros are found again. |
| `Compressor.StripZeros` | src/compressor.cpp:144-148 | The loop takes off the trailing zeros, at most nine. |
| `Compressor.CompressAmount` | src/compressor.cpp:140-157 | In 64 bits the code is the mathematical one modulo 2^64. |
| `Compressor.DecompressAmount` | src/compressor.cpp:159-183 | In 64 bits the amount is the mathematical one modulo 2^64. |
| `Compressor.MoneyFits` | src/chainparams.cpp:120 | Up to the money limit every value that either function computes on the way fits into 64 bits, so both are exact. |
| `Base58.EncodeRatio` | src/base58.cpp:95 | 256^100 <= 58^138: the ratio used for the buffer. |
| `Base58.DecodeRatio` | src/base58.cpp:37 | 58^1000 <= 256^733: the ratio used for the buffer. |
| `Base58.EncodeFits` | src/base58.cpp:95-105 | For every length the encoding buffer holds every number of that many bytes. |
| `Base58.DecodeFits` | src/base58.cpp:37-51 | For every length the decoding buffer holds every number of that many digits. |
| `Base58.MulAdd` | src/base58.cpp:44-51 | The carry loop multiplies the buffer and adds; what does not fit is the carry. |
| `Base58.PushDigit` | src/base58.cpp:97-107 | One turn appends a digit to the number; the carry is zero. |
| `Base58.ToBase58` | src/base58.cpp:86-107 | The buffer ends with the number of the bytes. |
| `Base58.ToBase256` | src/base58.cpp:37-54 | The buffer ends with the number of the digits; fails exactly on a character outside the alphabet. |
| `Base58.EncodeBase58` | src/base58.cpp:86-119 | Writes a one for each leading zero and then the digits of the number. |
| `Base58.DecodeParts` | src/base58.cpp:25-69 | Spaces, ones, digits and spaces, taken apart as the loops do, give the decoding. |
| `Base58.DecodeBase58` | src/base58.cpp:25-69 | Fails exactly on texts that are not digits between spaces, and gives the bytes of the number after a zero for each leading one. |
| `Base58.AlphabetIs` | src/base58.cpp:22-23 | The digits are letters and figures without 0, O, I and l, in the order of their codes. |
| `Base58.EncodeExample` | src/base58.cpp:86-119 | Zero, a and b become 18Qq. |
| `Base58.DecodeEncode` | src/base58.cpp:25-119 | Decoding inverts encoding on every byte string, leading zeros included. |
| `Base58.EncodeDecode` | src/base58.cpp:25-119 | Encoding inverts decoding on every valid text, up to spaces around it. |
| `Base58.EncodeBase58Check` | src/base58.cpp:131-138 | Appends four bytes of the hash and encodes. |
| `Base58.DecodeBase58Check` | src/base58.cpp:140-155 | Fails on bad digits, on fewer than four bytes, and on a wrong checksum. |
| `Base58.DecodeEncodeCheck` | src/base58.cpp:131-155 | Checked decoding inverts checked encoding, for any function to 32-byte hashes. |
| `Base58.EncodeDecodeCheck` | src/base58.cpp:131-155 | Checked encoding inverts checked decoding, up to spaces. |
| `Denominations.ZerocoinListIsChain` | src/libzerocoin/Denominations.h:16-29 | The denominations ascend and each divides the next. |
| `Denominations.GreedyMeetsMultiple` | src/denomination_functions.cpp:41-63 | With enough coins, the greedy choice meets every multiple of the largest denomination. |
| `Denominations.Exchange` | src/denomination_functions.cpp:41-63 | Smaller coins worth at least d large ones contain coins worth exactly d large ones, at least d of them. |
| `Denominations.GreedyIsOptimal` | src/denomination_functions.cpp:41-63 | If some choice within the holdings meets the target, the greedy one does, with no more coins. |
| `Denominations.GreedyLeavesLess` | src/denomination_functions.cpp:41-63 | What the greedy choice leaves is less than any coin still held. |
| `Denominations.GreedyIffExact` | src/denomination_functions.cpp:41-63 | The greedy choice meets the target exactly if some choice does. |
| `Denominations.ChangeMeets` | src/denomination_functions.cpp:68-88 | Change for a multiple of the smallest denomination is exact. |
| `Denominations.ChangeIsFewest` | src/denomination_functions.cpp:68-88 | Change uses the fewest coins. |
| `Denominations.ChangeCountPositive` | src/denomination_functions.cpp:68-88 | There is change exactly for positive amounts. |
| `DenominationChoice.GetNumberOfCoinsUsed` | src/denomination_functions.cpp:13-22 | Counts the coins. |
| `DenominationChoice.GetSpendCoins` | src/denomination_functions.cpp:41-63 | The loops make the greedy choice. |
| `DenominationChoice.GetChange` | src/denomination_functions.cpp:68-88 | The loops make the greedy change. |
| `DenominationChoice.FillBelow` | src/denomination_functions.cpp:234-247 | The greedy choice for one unit less than the target, from the given denomination down; something always remains. |
| `DenominationChoice.AddOneAbove` | src/denomination_functions.cpp:252-261 | Adds the smallest coin above the remainder that is still held, if there is one, and then overshoots. |
| `DenominationChoice.SomeCoinAbove` | src/denomination_functions.cpp:234-261 | If the holdings exceed the target and no exact choice exists, such a coin is left. |
| `DenominationChoice.Overshoot` | src/denomination_functions.cpp:234-261 | The first two stages: the greedy choice strictly below the target and the smallest held coin above what remains; within the holdings, and above the target if that can only be overpaid. |
| `DenominationChoice.RemoveOverlap` | src/denomination_functions.cpp:272-282 | Takes equal coins out of spend and change. |
| `DenominationChoice.TakeFromTop` | src/denomination_functions.cpp:359-375 | Coins from the highest down until the target is met: all of them if it is not, and otherwise the fewest that reach it. |
| `DenominationChoice.TopIsBest` | src/denomination_functions.cpp:359-375 | No choice of at most as many coins is worth more than one from the top. |
| `DenominationChoice.LastCoinIsNeeded` | src/denomination_functions.cpp:359-375 | A choice from the top that falls short without its last coin has the fewest coins. |
| `DenominationChoice.LargestDecide` | src/denomination_functions.cpp:311-390 | Whether some coins within the limit exceed the target is decided by the largest ones. |
| `DenominationChoice.AlternativeAmount` | src/denomination_functions.cpp:226-282 | The worth of that without the coins that would come back as change; it can be met exactly, and exceeds the target under the same condition. |
| `DenominationChoice.MinimizeChange` | src/denomination_functions.cpp:214-303 | With the alternative amount so defined: the result is the smaller of the given change count and the change of the alternative if at most the limit of coins are worth the alternative, and the given one otherwise; the coins are the fewest worth the alternative exactly if it has less change, and those given otherwise. |
| `DenominationChoice.ChangeIsLeast` | src/denomination_functions.cpp:295-302 | The change is no more than that of the first choice, nor than that of an affordable alternative, and is one of the two. |
| `DenominationChoice.ChangeFromOneCoin` | src/denomination_functions.cpp:329-357 | With one coin above the target the result overpays by exactly the change counted; it is within the limit exactly if some choice above the target is. |
| `DenominationChoice.ChangeFromManyCoins` | src/denomination_functions.cpp:358-389 | Without one, the same, and change is found whenever the holdings exceed a target that has no exact choice. |
| `DenominationChoice.CalculateChange` | src/denomination_functions.cpp:311-390 | The first choice is the smallest held coin above the target, or else the coins from the top; the result has the smaller change of that and of an affordable alternative. A positive result n is a choice within the holdings above the target whose excess is n change coins; it is positive whenever the holdings exceed a target without exact choice; it keeps the limit on spends exactly if some choice above the target does. |
| `DenominationChoice.SpendLimitIsNotKept` | src/denomination_functions.cpp:306-390 | On the zerocoin denominations, three fives for eleven with a limit of one spend: more than one is spent. |
| `DenominationChoice.SmallerChange` | src/denomination_functions.cpp:329-347 | On the zerocoin denominations, one five, one ten and one fifty for eleven: the fifty would bring back eight coins, and the five and the ten, which are chosen, four. |
| `DenominationChoice.TakeMints` | src/denomination_functions.cpp:106-117 | One pass over the mints takes as many unused ones of a denomination as fit. |
| `DenominationChoice.GreedyIsFewest` | src/denomination_functions.cpp:94-118 | The greedy choice has the fewest coins of all exact ones. |
| `DenominationChoice.GetIdealSpends` | src/denomination_functions.cpp:94-118 | True exactly if some choice of unused mints meets the target, and then with the fewest. |
| `DenominationChoice.PicksAre` | src/denomination_functions.cpp:123-143 | As many mints are picked as asked for, all of them unused and of the right denomination. |
| `DenominationChoice.EndsIff` | src/denomination_functions.cpp:131-141 | The do-while loop of a denomination ends exactly if nothing is asked for or there is an unused mint of it. |
| `DenominationChoice.GetSpendsEndsIff` | src/denomination_functions.cpp:123-143 | getSpends ends exactly if every denomination asked for has an unused mint. |
| `DenominationChoice.SpentMintNeverEnds` | src/denomination_functions.cpp:131-141 | A used mint, asked for once, is looked for without end. |
| `DenominationChoice.PickedByAre` | src/denomination_functions.cpp:131-141 | Pass after pass, as many mints of a denomination are picked as asked for. |
| `DenominationChoice.PickedOnceIff` | src/denomination_functions.cpp:131-141 | No mint of a denomination is picked twice exactly if there are enough of them. |
| `DenominationChoice.OneMintTwice` | src/denomination_functions.cpp:131-141 | One mint, asked for twice, is picked twice. |
| `DenominationChoice.PicksOnceIff` | src/denomination_functions.cpp:123-143 | No mint is picked twice exactly if the counts are within what the list holds. |
| `DenominationChoice.MapEndsIff` | src/denomination_functions.cpp:396-428 | With a map of held counts beside the list, every choice within it ends exactly if each denomination of the map has an unused mint in the list. |
| `DenominationChoice.MapIsSafeIff` | src/denomination_functions.cpp:396-428 | And no choice within it repeats a mint exactly if the map is within the list. |
| `DenominationChoice.PickPasses` | src/denomination_functions.cpp:131-141 | The do-while loop picks those mints, in the number of passes after which nothing is left. |
| `DenominationChoice.GetSpends` | src/denomination_functions.cpp:123-143 | Picks mints for the counts, wherever it ends: as many as asked for, of their value, and none twice exactly if the counts are within the list. |
| `DenominationChoice.SelectMintsFromList` | src/denomination_functions.cpp:396-428 | The mints returned pay exactly with the fewest within the limit, or overpay by exactly the change returned, within the limit exactly if some choice above the target is; none is returned twice if the held map is within the list; the number of needed spends is the fewest that would be exact, and is reported only beyond the limit. |
| `ArithLimbs.AddIsSum` | src/arith_uint256.h:140-150 | Limb-wise addition is the sum modulo 2^BITS. |
| `ArithLimbs.IncValue` | src/arith_uint256.h:178-185 | The increment wraps only from the largest number to zero. |
| `ArithLimbs.NegValue` | src/arith_uint256.h:82-89 | Complement and increment is the negative modulo 2^BITS. |
| `ArithLimbs.SubIsDifference` | src/arith_uint256.h:152-156 | Adding the negative is the difference modulo 2^BITS. |
| `ArithLimbs.CompareIsOrder` | src/arith_uint256.cpp:116-126 | Comparing limbs from the top is comparing numbers. |
| `ArithLimbs.MulAddValue` | src/arith_uint256.cpp:74-88 | A row of the product with its carry is the exact product of a word and a number. |
| `ArithShift.OrAdds` | src/arith_uint256.cpp:28-60 | Or-ing numbers without common bits adds them. |
| `ArithShift.LoIsMod` | src/arith_uint256.cpp:28-43 | A limb shifted left in 32 bits is the product modulo 2^32. |
| `ArithShift.ShlIsProduct` | src/arith_uint256.cpp:28-43 | Shifting left multiplies by a power of two modulo 2^BITS, for every shift. |
| `ArithShift.ShrIsQuotient` | src/arith_uint256.cpp:45-60 | Shifting right is the floor quotient by a power of two, for every shift. |
| `ArithUint.AddAssign` | src/arith_uint256.h:140-150 | The carry loop computes limb-wise addition, also of a number to itself. |
| `ArithUint.Increment` | src/arith_uint256.h:178-185 | The loop computes the increment. |
| `ArithUint.Negated` | src/arith_uint256.h:82-89 | Computes the negative. |
| `ArithUint.SubAssign` | src/arith_uint256.h:152-156 | Computes the difference, also of a number from itself. |
| `ArithUint.CompareTo` | src/arith_uint256.cpp:116-126 | Minus one, zero or one as the numbers compare. |
| `ArithUint.ShiftLeft` | src/arith_uint256.cpp:28-43 | The loop computes the left shift in place. |
| `ArithUint.ShiftRight` | src/arith_uint256.cpp:45-60 | The loop computes the right shift in place. |
| `ArithUint.Bits` | src/arith_uint256.cpp:213-226 | The number of bits: the least power of two above the number. |
| `ArithUint.SetBit` | src/arith_uint256.cpp:107 | Setting a quotient bit adds its power of two when no lower bit is set. |
| `ArithUint.DivideBit` | src/arith_uint256.cpp:104-111 | One turn of the loop keeps number = quotient * divisor + rest and halves the bound on the rest. |
| `ArithUint.DivideBits` | src/arith_uint256.cpp:104-112 | The loop ends with the quotient decided and the rest below the divisor. |
| `ArithUint.DivAssign` | src/arith_uint256.cpp:90-114 | Fails exactly on zero; otherwise gives the floor quotient, and the working number ends as the remainder. |
| `ArithUint.SumFits64` | src/arith_uint256.cpp:62-88 | The sum of a carry, a limb and a product of limbs is below 2^64, and its carry is a limb. |
| `ArithUint.MulLimb` | src/arith_uint256.cpp:62-88 | One limb of a product and its carry, without overflow of 64 bits. |
| `ArithUint.MulWord` | src/arith_uint256.cpp:62-72 | The loop computes the row of a word; no 64-bit sum overflows. |
| `ArithUint.MulWordIsProduct` | src/arith_uint256.cpp:62-72 | That row is the product modulo 2^BITS. |
| `ArithUint.AddRow` | src/arith_uint256.cpp:80-85 | The inner loop adds one row, without overflow of 64 bits; a zero number multiplied in place stays zero. |
| `ArithUint.MulAssign` | src/arith_uint256.cpp:74-88 | The loops compute the schoolbook rows; a number multiplied by itself in place becomes zero, which is its square modulo 2^BITS exactly if the lower half of its bits is zero. |
| `ArithUint.MulIsProduct` | src/arith_uint256.cpp:74-88 | The rows are the product modulo 2^BITS. |
| `ArithUint.SquareDivides` | src/arith_uint256.cpp:74-88 | 2^(2k) divides a square exactly if 2^k divides its root. |
| `ArithUint.SquareInPlaceIff` | src/arith_uint256.cpp:74-88 | A square is zero modulo 2^BITS exactly if the lower half of the bits of its root is zero. |
| `ArithUint.SquareInPlaceFails` | src/arith_uint256.cpp:74-88 | One, multiplied by itself in place, becomes zero. |
| `ArithCompact.OverflowIff` | src/arith_uint256.cpp:273-291 | The overflow flag is set exactly if mantissa * 256^(exponent - 3) does not fit into 256 bits. |
| `ArithCompact.SetCompact` | src/arith_uint256.cpp:273-291 | The number is that value modulo 2^256, exact without overflow; both flags are as defined. |
| `ArithCompact.GetTop` | src/arith_uint256.cpp:293-302 | Cuts out the top three bytes. |
| `ArithCompact.GetCompact` | src/arith_uint256.cpp:293-314 | Computes the compact form; the assertions on mantissa and size hold. |
| `ArithCompact.CompactRoundTrip` | src/arith_uint256.cpp:273-314 | Decoding the compact form of x gives at most x and more than x minus one unit of the mantissa, x itself up to three bytes, and the sign. |
| `ArithCompact.CompactFits` | src/arith_uint256.cpp:273-314 | No 256-bit number is encoded into an overflow. |
| `ArithCompact.CompactIsStable` | src/arith_uint256.cpp:273-314 | Encoding what was decoded gives the same word. |
| `Chain.SkipHeight` | src/main.cpp:4186-4199 | The skip of a block is lower than the block. |
| `Chain.SkipFromEven` | src/main.cpp:4186-4199 | An even height skips to itself without its lowest one. |
| `Chain.SkipFromOdd` | src/main.cpp:4186-4199 | An odd height skips to itself without the two lowest ones above its last bit. |
| `Chain.BlockIndex.constructor` | src/chain.h:183-190 | A block index entry linked to its parent has the next height. |
| `Chain.BlockIndex.AtAt` | src/chain.h:534-567 | Ancestors of ancestors are ancestors. |
| `Chain.BlockIndex.GetAncestor` | src/main.cpp:4201-4222 | The walk over skips and parents gives what the walk over parents gives, and nothing out of range. |
| `Chain.BlockIndex.BuildSkip` | src/main.cpp:4229-4233 | The skip set is the ancestor at the skip height, also for all ancestors. |
| `Chain.ActiveChain.SetTip` | src/chain.cpp:16-27 | Afterwards entry h is the ancestor of the tip at height h, for every h, although the walk stops early. |
| `Chain.ActiveChain.EntriesAreAncestors` | src/chain.h:534-539 | Each entry is the ancestor of every later one. |
| `Chain.ActiveChain.ContainsIff` | src/chain.h:549-552 | A block is in the chain exactly if it is the ancestor of the tip at its height. |
| `Chain.ActiveChain.Next` | src/chain.h:555-561 | The successor is the child in the chain; there is none exactly for the tip and for blocks outside. |
| `Chain.ActiveChain.FindFork` | src/chain.cpp:58-67 | The highest ancestor of the block that is in the chain, or nothing if there is none. |
| `Chain.ActiveChain.GetLocator` | src/chain.cpp:29-56 | Ancestors from the start to the genesis block at the heights of a locator, at most 12 + log2(height + 1) of them; the index gives what the walk would. |
| `Chain.ActiveChain.LocatorHeights` | src/chain.cpp:29-56 | Entry i is i below the start up to the twelfth and 9 + 2^(i - 10) below beyond, but never below the genesis block. |
| `Chain.ActiveChain.LocatorEnds` | src/chain.cpp:29-56 | Entries are ancestors of the start, the first is the start, and only the last is the genesis block. |
| `Chain.ActiveChain.LocatorCovers` | src/chain.cpp:29-56 | For every height up to the start some entry is at or below it and at most twice as far below the start. |
| `Chain.ActiveChain.LocatorLength` | src/chain.cpp:29-56 | A listing whose steps double after ten has at most that length. |
| `Payments.AddPayeeCounts` | src/masternode-payments.h:107-120 | One vote more for that payee, and for no other. |
| `Payments.AddPayeeKeepsDistinct` | src/masternode-payments.h:107-120 | No payee is entered twice. |
| `Payments.AddWinnerKeepsExact` | src/masternode-payments.cpp:510-535 | A winner message keeps the votes equal to a recount of the messages. |
| `Payments.AddWinnerCounts` | src/masternode-payments.cpp:510-535 | A message with a known block and a new hash is recorded and gives its payee one vote at its height, and nobody else; otherwise nothing changes. |
| `Payments.CleanKeepsExact` | src/masternode-payments.cpp:621-648 | Cleaning keeps them equal, in any order of the messages. |
| `Payments.RunIsExact` | src/masternode-payments.cpp:510-648 | In every run each payee has, at each height, as many votes as there are recorded messages for it, and is listed once. |
| `Payments.RunRecords` | src/masternode-payments.cpp:510-648 | After any run, a hash is recorded exactly if an earlier message of it had a known block and no later clean-up found it old; the message recorded is that one. |
| `Payments.GetPayee` | src/masternode-payments.h:122-135 | The first payee with the most votes, if any has a count that is not negative. |
| `Payments.HasPayeeWithVotes` | src/masternode-payments.h:137-146 | True exactly if an entry of that payee has enough votes. |
| `Payments.IsTransactionValid` | src/masternode-payments.cpp:537-577 | Valid exactly if no payee has enough votes, or one that has is paid. |
| `Payments.PaymentManager.CountVote` | src/masternode-payments.h:107-120 | The loop counts the first entry of the payee up, or appends it. |
| `Payments.PaymentManager.AddWinningMasternode` | src/masternode-payments.cpp:510-535 | Returns true exactly for a new hash with a known block; then the message is recorded and one vote is added for its payee at its height and nowhere else, and otherwise nothing changes; the tally stays exact. |
| `Payments.PaymentManager.CleanPaymentList` | src/masternode-payments.cpp:621-648 | The loop erases exactly the old messages and their heights; the tally stays exact. |
| `Budget.Highest` | src/masternode-budget.cpp:633-657 | The highest vote count of a budget whose window holds the height, or the floor: no such count is higher, and above the floor it is attained. |
| `Budget.Winner` | src/masternode-budget.cpp:541-558 | A budget with the most votes among those of the height, or none if there are no votes. |
| `Budget.WinnerIff` | src/masternode-budget.cpp:541-558 | The winner is the first of the budgets of the height with the most votes, if there are any. |
| `Budget.PaymentBlockIff` | src/masternode-budget.cpp:633-657 | A payment block has a budget of its height with more votes than a twentieth of the masternodes. |
| `Budget.FillMeans` | src/masternode-budget.cpp:560-591 | With a winner, a staked block keeps its outputs and gets the payment appended, and a mined one has its first output with the block value and the payment; without one, nothing changes but that value. |
| `Budget.PaymentBlockHasWinner` | src/masternode-budget.cpp:633-657 | A budget payment block has a winner. |
| `Budget.WinnerIsReached` | src/masternode-budget.cpp:659-736 | The walk over the budgets reaches the unpaid winner and judges the block valid, whatever was rejected before. |
| `Budget.NoneAboveThreshold` | src/masternode-budget.cpp:659-736 | Without a budget above the threshold nothing is valid. |
| `Budget.BuilderAndCheckerAgreeIff` | src/masternode-budget.cpp:534-736 | The transaction that FillBlockPayee builds for a payment block with an unpaid winner is judged valid exactly if at least ten masternodes are enabled. |
| `Budget.FewMasternodesRefuse` | src/masternode-budget.cpp:534-736 | Nine masternodes with two votes: the builder pays the budget and the checker answers that the vote is below the threshold. |
| `Budget.CheckFromIs` | src/masternode-budget.cpp:2119-2165 | The verdict and history of one budget from the number of matching outputs and what was paid. |
| `Budget.SecondVerdictDiffersIff` | src/masternode-budget.cpp:2084-2165 | Asked again, a budget answers differently exactly if one output matches and its proposal was unpaid: first valid, then a double payment. |
| `Budget.CheckIsValidIff` | src/masternode-budget.cpp:659-736 | The checker finds a transaction valid exactly if the vote is high enough and some budget above the threshold has its payment among the outputs once, unpaid; paid is what the records, the windows of the budgets before it and their repeated payments say. |
| `Budget.CheckStatusIs` | src/masternode-budget.cpp:659-736 | Every answer: below the threshold exactly if the vote is high enough and no budget, whatever its window, is above; a double payment exactly if none accepts and the last budget above for the height has its payment repeated or paid; invalid exactly if the vote is too low, or none accepts, some budget is above and the last for the height has no payment among the outputs. |
| `Budget.CheckLeaves` | src/masternode-budget.cpp:659-736 | The first such budget decides, and the history that is left. |
| `Budget.SecondCheckIsValidIff` | src/masternode-budget.cpp:659-736 | A valid transaction is found valid again exactly if another budget above the threshold, for another proposal, has its payment among the outputs once and finds it unpaid in what the first check left, said of the history before it. |
| `Budget.SingleProposalIsNotRepeatable` | src/masternode-budget.cpp:659-736 | With one proposal among those budgets the second check does not find it valid. |
| `Budget.SecondCheckCanBeValid` | src/masternode-budget.cpp:659-736 | Two budgets with the same payment for two proposals: both checks find it valid. |
| `Budget.BudgetManager.HighestCount` | src/masternode-budget.cpp:633-657 | The loop computes the highest vote count. |
| `Budget.BudgetManager.IsBudgetPaymentBlock` | src/masternode-budget.cpp:633-657 | True exactly if the highest count exceeds a twentieth of the enabled masternodes, rounded down. |
| `Budget.BudgetManager.WinningPayment` | src/masternode-budget.cpp:541-558 | The loop finds the payment of the winner. |
| `Budget.BudgetManager.FillBlockPayee` | src/masternode-budget.cpp:534-592 | Computes the filled outputs for both kinds of blocks. |
| `Budget.BudgetManager.IsPaidAlready` | src/masternode-budget.cpp:2084-2117 | Forgets payments outside the window, then finds or records the proposal. |
| `Budget.BudgetManager.BudgetAccepts` | src/masternode-budget.cpp:2119-2165 | Computes the verdict of one budget and the new history. |
| `Budget.BudgetManager.IsTransactionValid` | src/masternode-budget.cpp:659-736 | Computes the verdict over all budgets and the new history. |

## Left out

- Hashing, keys and signatures: bucket functions, checksums and message hashes are arbitrary functions or plain identifiers.
- Clocks, random draws, the order in which maps are walked, whether a block is known, and the number of enabled masternodes are arguments.
- Fixed-width counters (`nIdCount`, `nNew`, `nTodo`, vote counts, coin counts) are unbounded integers; widths are modelled where they matter: 32-bit limbs and times, and the 64-bit steps of amount compression.
- `Select_` and `GetChance`: weighted random choice, whose termination is only probable.
- `RandomInt`: a draw below its bound.
- AddressManager.AddrMan.Unserialize: only into a manager without entries, because `Clear` does not empty the id and address maps and the entries left in them keep their counts and flags; streams are lists of values rather than bytes, and the closing debug check is not called. For streams with repeated addresses only the random vector is described.
- AddressManager.AddrMan.PassOne: the address list is returned, not appended to.
- AddrManCheck.Check_: that it is compiled only for debugging.
- AddrManCheck.CheckEntries: examines and collects the entries in two passes where the source uses one.
- CheckQueue.WaitEnds: excludes endless spurious wake-ups and endless additions, which only the environment can rule out.
- CheckQueueObject.Queue.AddChecks: the notification of workers is in the protocol (`AddWakes`), not in the object.
- CheckQueue.Run: thread interruption, `fQuit` and the weak memory effects of code outside the lock are not modelled.
- Coins.Cleanup: does not model releasing the vector's spare capacity.
- The field `nRounds` of an output, which is not stored.
- CoinsCache.Cache.EndModify: memory usage is any function of the coins.
- CoinsCache.Database.BatchWrite: batches always succeed, and the database is a map.
- `AccessCoins`, `HaveInputs`, `GetValueIn`, `GetPriority` and `GetStats`: sums and tests over lookups.
- CoinsCodec.RoundTrip: script compression is any codec that reads back what it wrote, and amounts are written without a bound; coins are trimmed by the reader.
- VarInt.ReadVarInt: the number read is unbounded, so the wrap-around on foreign bytes that encode too large a number is not modelled.
- CoinsCodec.UnserializeCoins: likewise, numbers and amounts read from foreign bytes are unbounded.
- Base58.DecodeBase58: texts do not contain the NUL character, at which the source stops.
- `CBase58Data` and addresses built on it.
- DenominationChoice.GetSpends: the method is called only where the source ends; where it does not, `GetSpendsEndsIff` says so.
- DenominationChoice.SelectMintsFromList: every denomination of the held map has an unused mint in the list; without one the source may not end (`MapEndsIff`).
- 64-bit overflow of amounts in the choice of denominations.
- ArithUint.DivAssign: dividing by zero is a result instead of an exception.
- Bitwise operators, conversions to text and to floating point of multi-limb integers.
- Chain.BlockIndex.GetAncestor: the number of steps the skip list saves.
- Chain.ActiveChain.Next: the proof-of-stake variant of `Tip` is not modelled.
- Payments.RunRecords: a hash identifies its message, as the source takes it to.
- Payments.PaymentManager.AddWinningMasternode: whether the block of the message is known is an argument; `CanVote`, which remembers only the last height of a voter, is not modelled.
- Budget.BudgetManager.FillBlockPayee: heights, block value and finalized budgets are given; `GetTotalBudget` and the making of finalized budgets are not modelled.
- Initialisation, RPC, HTTP, logging, networking, synchronisation and file handling.
