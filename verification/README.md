# Verified models of Samosa's core

Samosa runs a large mixture-of-experts model on a small machine. This project models the parts of it whose
correctness is hard to see by reading one function, and proves what they promise:

- **Expert cache** (`Cache*.dfy`, `HashIndex.dfy`, `ExpertCache.dfy`): a policy engine with byte budgets, floors,
  pins, LRU and 2Q eviction, a wrapping clock, and admission in two passes of which the second trusts the first. A
  pure state machine carries the theorems, books kept by its caller foresee its answers, and a class over arrays,
  with a tombstoned hash index, refines it operation by operation.
- **Tokenizer** (`Tok*.dfy`): byte-level BPE merged in place, a hand-written matcher standing in for an ordered
  regular expression, a trust policy that decides what may become a control token, and a lossless round trip on all
  byte strings.
- **Sessions** (`KvPlane.dfy`, `Session*.dfy`): prefill, decoding, saving, resuming, hot growth and compaction on
  cached layers give the transcript of a meaning that has no cache at all.
- **Scheduler** (`Scheduler.dfy`): tickets, one slot, interactive before background, over any interleaving.
- **Copy with receipts, inventory** (`CopyProtocol.dfy`, `Inventory.dfy`): crash safety and completion of copy and
  undo-copy; the bounded folder walk does what an unbounded listing says, as far as its budgets let it.
- **Text** (`Utf8.dfy`, `Html*.dfy`): two UTF-8 checkers that agree, repair, and extraction that puts the meaning of
  well-nested documents and is valid on everything.
- **Digests, cache entries, sampling** (`Sha256Stream.dfy`, `Json*.dfy`, `Calibration.dfy`).

`Basics.dfy` holds what several modules share.

`dafny verify dfyconfig.toml` checks everything.

## How to read it

State that the source updates in place is a class or an array here, and each method's postcondition ties the new
state to a function of the old one; the theorems are about those functions. What the source gets from outside is a
parameter: the hash of a key, the Unicode classes, the network's per-token step, the sampling choice, the SHA-256
compression function, C library number parsing, the outcome of the system calls that copy and walk make on what
they find, the clock and the cancel signal. All results hold for every value of these (a few shape conditions are
stated where they are used).

Six promises turned out not to hold as written, and the exact conditions are proved:

- `src/expert_cache.h` promises exact recency for LRU. Renormalising the clock can merge two stamps, and the tie
  then goes by slot: `LruIsNotExact` gives a run, `StepKeepsExactLru` says exactly which operations keep the order.
- It also promises that the cold queue of 2Q is first in, first out, which the same merging breaks:
  `FifoIsNotExact` gives a run, `StepKeepsExactFifo` the exact condition.
- The pattern in `tokenizer.json` (line 214) takes number characters one at a time, the matcher up to three:
  `SingleDigitPattern` says exactly where the two differ, `TwelveDiffers` gives the text 12.
- `read_cache_put` writes contract and fingerprint unescaped: an entry is found again (`GetFindsExactly`), and
  answers its own pair and no other (`AnswersExactly`), exactly when neither holds a quote or a backslash.
  `ForgedAnswer` gives a contract under which a lookup of another pair returns a result that was never stored.
- Copy and undo-copy take a destination or a receipt that they fail to look at for absent. An undo can then report
  success with the destination in place and its receipt gone (`FailedStatDropsReceipt`, `FailedOpenKeepsReceipt`,
  `UndoCanMislead`). `CompletionMeansDone`, `StaysHealthy` and `ForeignUntouched` state exactly when completion,
  recovery and a foreign destination's folder suffer; `CallsAreHarmless` and `ForeignStays` hold regardless.
- The folder walk takes a failing `readdir` for the end of the folder, so a report that is not partial may miss
  entries: `ShortFolder` gives one, `CompleteExactly` says that nothing is missing exactly when no folder walked was
  read short.

The scheduler has a state that only shutdown leaves, a background request at the head of the queue with an
interactive one behind it: `ProgressExactly`, `BlockedForever` and `BlockedIsReachable` describe it.

## Model

| member | source | states |
|---|---|---|
| `CacheTypes.PayloadCharge` | src/expert_cache.c:85-107 | the charge is the size rounded up to the alignment; zero size is an error, and overflow is reported exactly when the rounded size passes 64 bits |
| `CacheTypes.RoundedIsLeast` | src/expert_cache.c:85-107 | the rounded size is the least multiple of the alignment that is not below the size |
| `CachePolicy.LeastExists` | src/expert_cache.c:449-474 | among eligible entries there is always a policy-least one |
| `CachePolicy.LeastUnique` | src/expert_cache.c:432-447 | the policy order has one least candidate, so the scanning loops and the specification name the same victim |
| `CachePolicy.EligibleExactly` | src/expert_cache.c:416-430 | the floor test offers a base if and only if it is unpinned and unmarked and its layer would keep both floors without it |
| `CachePolicy.VictimExactly` | src/expert_cache.c:462-474 | the policy has a base to offer exactly when some base may leave, and offers the first of them in policy order |
| `CacheModel.ProtectedStays` | src/expert_cache.c:548-566 | a slot that is never offered as a victim keeps its base while room is made |
| `CachePlan.PlanAgrees` | src/expert_cache.c:498-566 | planning succeeds if and only if executing reaches its goal; the execution then demotes residuals only, evicts exactly the planned bases in the planned order, and no unpinned residual is left if any base goes |
| `CachePlan.PolicySensible` | src/expert_cache.c:449-474 | under either policy, with or without a protected slot, a residual is offered while one may be demoted, only unpinned entries are offered, and the base offered depends on base planes alone |
| `CachePlan.EvictionPhase` | src/expert_cache.c:498-566 | step by step, the greedy loop over plan marks and the greedy loop over the live state take the same bases |
| `CachePlan.StuckPhase` | src/expert_cache.c:498-546 | when the greedy plan runs out, so does the execution, short of its goal |
| `CacheInvariant.ReclaimsRoom` | src/expert_cache.c:548-566 | making room only removes planes of unpinned entries and logs each removal |
| `CacheInvariant.ReclaimsPressure` | src/expert_cache.c:789-829 | memory pressure only removes planes of unpinned entries and logs each removal |
| `CacheRuns.InvReclaims` | src/expert_cache.c:344-414 | removing planes keeps the full invariant |
| `CacheRuns.InvAdmit` | src/expert_cache.c:690-723 | admitting a base into a free slot within the budget keeps the full invariant, peak included |
| `CacheRuns.InvAttach` | src/expert_cache.c:752-774 | attaching a residual within the budget keeps the full invariant |
| `CacheRuns.TickFresh` | src/expert_cache.c:295-307 | a new stamp is nonzero and strictly above every resident stamp, renormalised or not |
| `CacheRuns.HalveMonotone` | src/expert_cache.c:297-305 | renormalising never inverts two stamps and merges exactly an even one with its successor |
| `CacheRuns.TouchRecency` | src/expert_cache.c:575-621 | a lookup keeps stamps aligned with the history of touches |
| `CacheRuns.AdmitRecency` | src/expert_cache.c:690-709 | an admission keeps stamps aligned with the histories of touches and arrivals |
| `CacheRuns.LruVictim` | src/expert_cache.c:432-447 | LRU evicts the least recently touched candidate, up to ties that exist only after 2^64 stamps |
| `CacheRuns.TwoQueueVictim` | src/expert_cache.c:432-447 | 2Q takes no hot base while a cold one is eligible; cold ones go by arrival, hot ones by recency, up to the same ties |
| `CacheRuns.ConservedReclaims` | src/expert_cache.c:344-414 | every handle that leaves appears in exactly one release event |
| `CacheTheorems.StepSafe` | src/expert_cache.c:575-976 | every operation keeps the invariant, conservation and recency; releases come from unpinned entries only; the corrupt status is never returned; an error changes nothing |
| `CacheTheorems.InsertSafe` | src/expert_cache.c:665-723 | the same for admission of a base, whose corrupt return is unreachable |
| `CacheTheorems.PromoteSafe` | src/expert_cache.c:725-774 | the same for promotion |
| `CacheTheorems.RunGood` | src/expert_cache.c:575-976 | every state reachable by any finite run satisfies invariant, conservation and recency |
| `CacheTheorems.OwnershipConserved` | src/expert_cache.c:325-414 | over any run the handles admitted are those resident plus those in release events, none is held twice, and a successful destroy has released all |
| `CacheTheorems.RoomMade` | src/expert_cache.c:548-566 | after a successful plan the newcomer fits the budget and, if it needs one, there is a free slot |
| `CacheTheorems.ProtectedUnchanged` | src/expert_cache.c:725-774 | a promotion leaves its own entry exactly as it was while making room |
| `CacheTheorems.RoomRespectsFloors` | src/expert_cache.c:416-430 | no run of automatic evictions takes a layer below either floor |
| `CacheTheorems.AdmissionRespectsFloors` | src/expert_cache.c:498-566 | the same for every admission under either policy |
| `CacheTheorems.PressureObeysPolicy` | src/expert_cache.c:789-829 | WARN releases no base; CRITICAL keeps floors and touches bases only when no unpinned residual is left; PARTIAL means nothing eligible remains; the bytes reported are those of the release events |
| `CacheTrace.RoomTraced` | src/expert_cache.c:548-566 | making room is a trace of single releases, each while room is short and each the first in policy order: an unpinned residual while there is one, else a base its floors can spare; it ends when there is room or nothing may go |
| `CacheTrace.PressTraced` | src/expert_cache.c:805-826 | the same for pressure: releases only above the target, bases only at CRITICAL, each with the reason of its level |
| `CacheTrace.DestroyTraced` | src/expert_cache.c:961-976 | destroying releases every plane, a residual before its base, and leaves nothing |
| `CacheSpace.ClearsUnique` | src/expert_cache.c:498-546 | there is one list of bases that leave, in policy order, when all that may leave do |
| `CacheSpace.InsertNoSpace` | src/expert_cache.c:665-723 | an admission with nothing else against it answers ErrNoSpace exactly when its charge exceeds the budget, or does not fit once every unpinned residual and every base on that list is gone, or a slot is needed and no base may leave; and OK otherwise |
| `CacheSpace.PromoteNoSpace` | src/expert_cache.c:725-774 | the same for a promotion, which needs no slot and spares its own base |
| `CacheSpace.InsertEvicts` | src/expert_cache.c:548-566 | a full cache in which one base may leave takes a newcomer that fits the budget |
| `CacheSpace.PressureExactly` | src/expert_cache.c:789-829 | a target above the budget is refused and NORMAL changes nothing; else OK is answered exactly when the payload is at the target or below, and PARTIAL exactly when not |
| `CacheSpace.PartialExactly` | src/expert_cache.c:805-829 | after PARTIAL every entry is pinned, or has no residual and, at CRITICAL, a base its floors cannot spare |
| `CacheLedger.BooksAgree` | src/expert_cache.c:575-976 | books kept as a map from keys, from operations, statuses and release events alone, agree with the cache after any run: planes, charges, prefetch marks, pins, queues, histories and peak |
| `CacheLedger.AnswersAreForeseen` | src/expert_cache.c:575-976 | after any run the books foresee the next status, the outcome of a lookup and the entry shown, but for what space and pressure decide |
| `CacheLedger.ReleasesAreHonest` | src/expert_cache.c:344-414 | every release event hands back what the books hold under its key, unpinned, a residual before its base |
| `CacheLedger.PinsCount` | src/expert_cache.c:635-663 | the pin count of an entry is the number of successful pins less successful unpins of its key since its last admission |
| `CacheLedger.PinnedIsKept` | src/expert_cache.c:344-414 | no operation releases anything of a key with a pin outstanding |
| `CacheLedger.InsertIs` | src/expert_cache.c:688-722 | a successful insertion is a trace that makes room and then the newcomer, with fresh stamps and no pins, in the lowest vacant slot |
| `CacheLedger.PromoteIs` | src/expert_cache.c:748-773 | a successful promotion is a trace that makes room around the entry and then its residual |
| `CacheOrder.HalvedExact` | src/expert_cache.c:297-305 | renormalising keeps a stamped order exact if and only if it merges no pair whose later entry is in the lower slot |
| `CacheRecency.AdmitsExactly` | src/expert_cache.c:665-723 | an admission succeeds if and only if the payload is not null and not held, the layer in range, the size chargeable, the key absent and a plan found |
| `CacheRecency.StepKeepsExactLru` | src/expert_cache.c:295-307 | for every operation: the LRU order stays the exact order of last touches, unless the operation stamps an entry with the clock at its maximum and a merging pair survives it with neither entry stamped; then it does not |
| `CacheRecency.StepKeepsExactFifo` | src/expert_cache.c:295-307 | the same exact condition for the 2Q cold queue and the order of arrivals |
| `CacheStampRun.LruIsNotExact` | src/expert_cache.h:64-66 | a run of 2^64 stamps after which LRU evicts a more recently touched entry, against the header's promise of exact recency |
| `CacheStampRun.FifoIsNotExact` | src/expert_cache.h:67-69 | a run after which 2Q evicts the later of two cold arrivals, against the header's promise of a FIFO cold queue |
| `HashIndex.LookupRefinesMap` | src/expert_cache.c:246-274 | probing finds a key if and only if some slot holds it, and then that slot |
| `HashIndex.IndexInsert` | src/expert_cache.c:695-709 | writing a bucket on the probe path keeps the index right |
| `HashIndex.IndexErase` | src/expert_cache.c:288-293 | a tombstone keeps every other key reachable |
| `HashIndex.EmptyBucketExists` | src/expert_cache.c:109-130 | with at most a quarter tombstones and twice as many buckets as entries some bucket is empty |
| `CacheAudit.SomeBucketIsEmpty` | src/expert_cache.c:246-274 | in every valid cache some bucket is empty, so probing for an absent key ends |
| `ExpertCache.BucketCount` | src/expert_cache.c:109-130 | the least power of two with room for twice the entries, and exactly when each error is answered |
| `ExpertCache.Create` | src/expert_cache.c:179-231 | a new cache is valid and empty, and there is one exactly when alignment, entries and layers are not zero and twice the entries have a power of two in 32 bits above them |
| `ExpertCache.Cache.HashFind` | src/expert_cache.c:246-274 | the probing loop on the bucket array computes the specified probe |
| `ExpertCache.Cache.HashRebuild` | src/expert_cache.c:276-286 | rebuilding in place clears the tombstones and keeps the map |
| `ExpertCache.Cache.HashErase` | src/expert_cache.c:288-293 | erasing leaves one tombstone more, one slot bucket less, and the index right for the other keys |
| `ExpertCache.Cache.VacateSlot` | src/expert_cache.c:410-412 | a slot is emptied and its key erased; rebuilding keeps the tombstones within a quarter of the buckets |
| `ExpertCache.Cache.ReleaseResidual` | src/expert_cache.c:344-376 | one residual leaves; the global and per-layer counters follow |
| `ExpertCache.Cache.ReleaseBase` | src/expert_cache.c:378-414 | one base leaves with its residual; counters and index follow |
| `ExpertCache.Cache.BaseFloorAllows` | src/expert_cache.c:416-430 | the floor test on layer counters and plan fields allows a base exactly when, unpinned and unmarked, its layer would keep both floors without it in the planned state |
| `ExpertCache.Cache.ChooseBase` | src/expert_cache.c:462-474 | the scan returns the policy-least eligible base of the planned state |
| `ExpertCache.Cache.ChooseResidual` | src/expert_cache.c:449-460 | the scan returns the policy-least unpinned residual |
| `ExpertCache.Cache.CanMakeRoom` | src/expert_cache.c:498-546 | answers whether the greedy plan exists and leaves every field as it was, plan marks cleared |
| `ExpertCache.Cache.ReclaimRoom` | src/expert_cache.c:548-566 | the mutating loop computes the specified execution, and answers whether the goal was reached or the candidates ran out first |
| `ExpertCache.PlanReaches` | src/expert_cache.c:548-566 | after a successful plan the goal is reached, so the exit without candidates is dead |
| `ExpertCache.Cache.NextClock` | src/expert_cache.c:295-307 | the clock step with renormalisation in place |
| `ExpertCache.Cache.Get` | src/expert_cache.c:575-621 | new state and reply are those of the state machine; the full object invariant is kept |
| `ExpertCache.Cache.Peek` | src/expert_cache.c:623-633 | finds what a lookup would find and changes nothing |
| `ExpertCache.Cache.PinEntry` | src/expert_cache.c:635-648 | new state and reply are those of the state machine |
| `ExpertCache.Cache.UnpinEntry` | src/expert_cache.c:650-663 | new state and reply are those of the state machine |
| `ExpertCache.Cache.Insert` | src/expert_cache.c:665-723 | new state and reply are those of the state machine, through plan, eviction, rebuild and insertion |
| `ExpertCache.Cache.PromoteEntry` | src/expert_cache.c:725-774 | new state and reply are those of the state machine |
| `ExpertCache.Cache.RemoveEntry` | src/expert_cache.c:776-787 | new state and reply are those of the state machine |
| `ExpertCache.Cache.ApplyPressure` | src/expert_cache.c:789-829 | new state and reply are those of the state machine |
| `ExpertCache.Cache.DestroyCache` | src/expert_cache.c:961-976 | new state and reply are those of the state machine |
| `CacheAudit.Validate` | src/expert_cache.c:855-959 | on any arrays as allocated the diagnostic answers OK if and only if every one of its checks holds, the bucket count included |
| `CacheAudit.ValidIsSound` | src/expert_cache.c:855-959 | the object invariant implies every check of the diagnostic |
| `CacheAudit.SoundMeans` | src/expert_cache.c:855-930 | a diagnostic that passes means that the index is right for every key, no key or payload is held twice and every charge is that of its size |
| `CacheAudit.SoundCounts` | src/expert_cache.c:931-958 | and that every global and layer counter counts |
| `CacheAudit.RunAndValidate` | src/expert_cache.c:855-959 | after any operations on a new cache the diagnostic answers OK unless the cache is destroyed, the object is where the state machine says, and some bucket is empty |
| `TokBytes.BuildByteMap` | src/tok.h:72-86 | the two tables are the byte alphabet and its inverse |
| `TokBytes.SymbolInjective` | src/tok.h:72-86 | two bytes never share a symbol |
| `TokBytes.SymbolIs` | src/tok.h:72-86 | the alphabet in full: printable bytes stand for themselves, the other 68 for 256 to 323 in order |
| `TokBytes.UnspellSpell` | src/tok.h:56-86 | spelling bytes and reading them back is the identity, from any offset |
| `TokBpe.BestPair` | src/tok.h:190-196 | the scan finds the mergeable pair of least rank, leftmost among equals, or shows that there is none |
| `TokBpe.FuseAt` | src/tok.h:198-200 | widening one tile and shifting the rest down in place is the merge of two neighbours |
| `TokBpe.SplitSymbols` | src/tok.h:184-187 | the tiles cover the string, one for each byte symbol |
| `TokBpe.MergeAll` | src/tok.h:189-201 | the merge loop reaches the specified fixed point of best merges |
| `TokBpe.BpePiece` | src/tok.h:173-207 | appends the specified ids, cut at the output capacity |
| `TokBpe.BpeRegroups` | src/tok.h:173-207 | merging only regroups the bytes and stays inside a closed vocabulary |
| `TokBpe.PieceRoundTrip` | src/tok.h:173-207 | a piece decodes to its bytes and costs at most one id a byte |
| `TokPretok.MatcherIsPattern` | src/tok.h:211-261 | at every position the hand-written matcher ends where the first match of the ordered, greedy, backtracking pattern ends |
| `TokPretok.NeverFallsThrough` | src/tok.h:219-261 | some alternative always applies, so the final fallback is dead |
| `TokPretok.SingleDigitPattern` | src/tok.h:236-237 | against the published pattern, which takes one number character at a time, the matcher agrees if and only if it is not taking a number that another number follows |
| `TokPretok.TwelveDiffers` | src/tok.h:236-237 | on the text 12 the matcher takes one piece and the published pattern two |
| `TokPretok.NextPiece` | src/tok.h:211-261 | the scanning code computes the specified end of the piece |
| `TokCodec.PretokChunk` | src/tok.h:211-265 | appends the ids of the pieces of a chunk, cut at the capacity |
| `TokCodec.FindHit` | src/tok.h:280-287 | the nearest added token, and the first in table order among those that start there |
| `TokCodec.EncodePolicy` | src/tok.h:271-295 | computes the specified encoding, cut at the capacity |
| `TokCodec.Decode` | src/tok.h:308-320 | computes the specified text, cut at the capacity |
| `TokCodec.RoundTrip` | src/tok.h:173-320 | decode of encode is the identity on every byte string under either policy, and an encoding is no longer than its text |
| `TokCodec.EncodeThenDecode` | src/tok.h:271-320 | with buffers of the size of the text nothing is cut and the text comes back |
| `TokTrust.UntrustedIsPlain` | src/tok.h:271-277 | untrusted text never yields an added token |
| `TokTrust.TrustedIsWoven` | src/tok.h:278-295 | trusted text is cut at the leftmost occurrences of added tokens that do not overlap, and each gap is encoded as untrusted text of its own |
| `TokTrust.AddedExactly` | src/tok.h:271-295 | the added ids of a trusted encoding are exactly those occurrences, in order, and every text has such occurrences |
| `TokTrust.PlainIsPieces` | src/tok.h:211-265 | plain text is cut where first matches of the pattern end, one after the other, and its ids are those of the pieces |
| `TokTrust.PieceExactly` | src/tok.h:173-207 | a piece found whole is one id when merges are to be ignored there; any other is what one best merge after the other leaves of its bytes, until none is left |
| `TokTrust.NextReadsCharacter` | src/tok.h:56-70 | a character of valid UTF-8 is read as the scalar value it spells |
| `CopyProtocol.RunKeepsInv` | src/samosa_fs.c:1555-1637 | the protocol invariant, which says at every step what is on disk and what failed reads have missed of it, holds in every state reachable with crashes, failing calls and edits between attempts |
| `CopyProtocol.CallsAreHarmless` | src/samosa_fs.c:1555-1637 | no system call of any attempt removes or overwrites a destination that is not the receipt with the expected content, or touches source, other files or other partial copies |
| `CopyProtocol.ForeignStays` | src/samosa_fs.c:1555-1637 | whatever fails, attempts leave a foreign destination in place with its content |
| `CopyProtocol.ForeignUntouched` | src/samosa_fs.c:1559-1567 | with a foreign destination nothing at all changes on disk if and only if no attempt, its look at the destination having failed, creates a partial copy or removes the receipt; an attempt that saw it only reads and refuses |
| `CopyProtocol.CompletionMeansDone` | src/samosa_fs.c:1559-1632 | a copy that reports success left the destination linked to the receipt; after an undo that does, destination and receipt are each gone if and only if its own failed read did not miss it |
| `CopyProtocol.SuccessIsEarned` | src/samosa_fs.c:1568-1632 | success is reported only when every call that was to change something went through and was synced; no partial copy is left, and `already` says exactly that the destination was before as asked for |
| `CopyProtocol.StaysHealthy` | src/samosa_fs.c:1555-1637 | without outside edits every cut leaves one of three recoverable disks, if and only if no attempt has removed or replaced the receipt of a destination that its failed look missed |
| `CopyProtocol.FailedStatDropsReceipt` | src/samosa_fs.c:1559-1579 | an undo whose look at an existing destination fails removes the receipt, reports success and leaves the destination |
| `CopyProtocol.FailedOpenKeepsReceipt` | src/samosa_fs.c:1560-1583 | an undo that cannot open a receipt waiting to be linked reports success and leaves it |
| `CopyProtocol.UndoCanMislead` | src/samosa_fs.c:1559-1579 | a finished copy and a foreign destination on which that happens |
| `CopyProtocol.UndoCompletes` | src/samosa_fs.c:1568-1582 | from any recoverable disk every undo whose calls succeed is done after at most five of them, with destination and receipt removed and nothing else changed |
| `CopyProtocol.CopyCompletes` | src/samosa_fs.c:1583-1632 | from any recoverable disk every copy whose calls succeed, whatever the sizes of its writes, is done and linked after at most seven calls more than there are bytes, resuming from a receipt when one is there |
| `Inventory.Inventory` | src/samosa_fs.c:1050-1097 | what was done is the listing of what reading the tree gives or a prefix of it, with at most one record of a spent budget; the report counts it within every budget; a report that is not partial has that whole listing, which is of all that is there if and only if no folder walked was read short; one that is partial has a reason |
| `Inventory.CompleteExactly` | src/samosa_fs.c:914 | the listing of a tree is that of the same tree with every folder read to its end, if and only if each folder it walks is |
| `Inventory.ShortFolder` | src/samosa_fs.c:914 | a folder with a file, whose reading fails at once, gives a report without records that is not partial |
| `Inventory.ListingFits` | src/samosa_fs.c:934-1044 | every mark of a listing stands for a node it fits: a file record only for a regular file of that size within the limit that no rule keeps out, each skip reason only under its guard and where no earlier one applies, nothing deeper than the depth limit allows |
| `Inventory.CutFits` | src/samosa_fs.c:893-1048 | the same for a walk cut short, but for the one record of a spent budget, which stands at the path of such a mark |
| `Inventory.ListingReaches` | src/samosa_fs.c:893-1048 | every entry that reading gives, with a writable path and ancestors that may all be walked, has a mark of its own |
| `Inventory.ListingOnce` | src/samosa_fs.c:893-1048 | with distinct names in each folder no entry is recorded, counted or entered twice |
| `Inventory.Walker.Walk` | src/samosa_fs.c:893-1048 | on every tree and every clock and cancel schedule, adds the listing of the directory, or is cut within it; counts and budgets are kept |
| `Inventory.Walker.Visit` | src/samosa_fs.c:934-1044 | adds exactly what the listing has for the entry: its skip record, its file record, or the directory and what is inside, or is cut within it |
| `Inventory.Walker.VisitFile` | src/samosa_fs.c:1021-1044 | records the file, or the skip for its size exactly above the limit; otherwise a spent budget is recorded in its place and the walk is cut |
| `Inventory.Walker.VisitDirectory` | src/samosa_fs.c:976-1015 | counts the directory and adds what the listing has inside, by depth and file system; with the directory budget spent, records that and is cut |
| `KvPlane.PlacedView` | src/qwen36b.c:4221-4245 | writing one row of every head of a [head][capacity][dim] buffer appends it to what each head remembers |
| `KvPlane.Regrow` | src/qwen36b.c:4225-4245 | copying the stepped words to a new stride keeps what every head remembers |
| `KvPlane.Load` | src/qwen36b.c:3980-3992 | reading words into a zeroed buffer makes every head remember exactly them |
| `SessionSpec.MindShaped` | src/qwen36b.c:3035-3040 | the fold of a well-shaped network has the shape the buffers hold |
| `SessionSpec.AnswerExactly` | src/qwen36b.c:3604-3633 | every token of an answer is the one chosen from the logits of everything before it, and the answer goes on exactly while it has not ended and the budget is not spent |
| `SessionSpec.TurnExactly` | src/qwen36b.c:3738-3743 | a turn is refused exactly when old transcript, new text and answer budget do not fit the context together, or nothing is said; else the transcript grows by the text and at least one token |
| `SessionSpec.CompactionExactly` | src/qwen36b.c:5157-5182 | a compaction takes place exactly when it leaves at least two tokens and fewer than there were, within the context |
| `SessionSpec.ConversationFits` | src/qwen36b.c:4646-4649 | no transcript is longer than the context |
| `SessionFile.ReadFileComplete` | src/qwen36b.c:3793-4012 | reading a sealed session gives back its transcript and state, whatever follows it in the file |
| `SessionFile.ReadFileSound` | src/qwen36b.c:3947-4012 | whatever reading accepts is a sealed session that fits the model and the context |
| `SessionModel.SteppedView` | src/qwen36b.c:3035-3060 | stepping the cached layers at a position extends what they remember by that token |
| `SessionModel.Model.Step` | src/qwen36b.c:3035-3060 | a chunk at absolute positions leaves the state of the longer prefix, and the logits of its last token |
| `SessionModel.Model.Prefill` | src/qwen36b.c:3196-3226 | any chunking leaves the same state and logits |
| `SessionModel.Model.Decode` | src/qwen36b.c:3604-3633 | the loop stores the answer of the cache-free meaning and leaves all tokens but the last stepped |
| `SessionModel.Model.Generate` | src/qwen36b.c:3513-3645 | a new conversation is the prompt and its cache-free answer; len tokens stored, len - 1 stepped |
| `SessionModel.Model.GenerateContinue` | src/qwen36b.c:4018-4167 | from any state that holds len - 1 tokens the continuation is the cache-free answer to the whole transcript, and the invariant holds again |
| `SessionModel.Model.Grow` | src/qwen36b.c:4225-4254 | growing keeps what was stepped under the new stride; refusing changes nothing |
| `SessionModel.Model.Save` | src/qwen36b.c:3793-3845 | the file is the sealed transcript with the state of all tokens but the last; shorter than two tokens is refused |
| `SessionModel.Model.Resume` | src/qwen36b.c:3947-4012 | accepts exactly the files that start with a sealed session of this model that fits, and restores it with room for more |
| `SessionModel.Model.Reload` | src/qwen36b.c:3947-4012 | resuming what was saved restores the invariant |
| `SessionModel.Model.PrefillSave` | src/qwen36b.c:5157-5182 | a prompt-only save is the sealed transcript with the state of all tokens but the last |
| `SessionModel.SealedOnce` | src/qwen36b.c:3793-4012 | two sealed sessions that start the same file are the same session |
| `SessionModel.Converse` | src/qwen36b.c:4571-4760 | any sequence of turns, evictions and compactions, hot or from the file, gives the transcript of the cache-free meaning, within the context |
| `SessionModel.ConverseBoth` | src/qwen36b.c:4014-4017 | a conversation run on the caches as it came and the same one run without evictions and chunking give equal transcripts |
| `Scheduler.RunKeepsInv` | src/qwen36b.c:4918-4984 | over any interleaving: one holder at most, counters count, parked tickets are exactly those from serving to next until shutdown, admissions are in ticket order, waiters stay within the limit, no sleeper has missed its wake-up |
| `Scheduler.AdmissionRule` | src/qwen36b.c:4933-4941 | the slot goes to the serving ticket, when free, and to a background request only when no interactive one waits |
| `Scheduler.RefusedExactly` | src/qwen36b.c:4925-4932 | a newcomer is turned away exactly at shutdown or when the scheduler is in use and as many threads are parked as may be; else it holds the slot or is parked on the next ticket |
| `Scheduler.LookExactly` | src/qwen36b.c:4933-4942 | a parked thread that looks is admitted exactly when its ticket is served, the slot free and the class rule met, and otherwise sleeps on or leaves at shutdown |
| `Scheduler.IdleExactly` | src/qwen36b.c:4978-4984 | the slot is taken without a ticket exactly when nobody holds it or is parked |
| `Scheduler.IdleAdmitsAtOnce` | src/qwen36b.c:4925-4941 | an idle scheduler admits a newcomer of either class without waiting |
| `Scheduler.ProgressExactly` | src/qwen36b.c:4933-4935 | with the slot free and waiters present some waiter may go if and only if the head is not a background request with an interactive one behind it |
| `Scheduler.BlockedForever` | src/qwen36b.c:4933-4935 | once the head blocks, nothing but shutdown ever admits anyone |
| `Scheduler.BlockedIsReachable` | src/qwen36b.c:4933-4935 | four ordinary calls lead to that state |
| `Scheduler.StopDrains` | src/qwen36b.c:4933-4940 | after shutdown every waiter that looks again leaves, and nobody is admitted |
| `Scheduler.ServeScheduler.Acquire` | src/qwen36b.c:4925-4942 | up to its return or first wait, the fields follow the state machine |
| `Scheduler.ServeScheduler.Look` | src/qwen36b.c:4933-4942 | one test of the wait loop and what follows it follow the state machine |
| `Scheduler.ServeScheduler.Release` | src/qwen36b.c:4944-4947 | follows the state machine and wakes every sleeper |
| `Scheduler.ServeScheduler.TryIdle` | src/qwen36b.c:4978-4984 | takes the slot exactly when nobody holds it or waits |
| `Scheduler.ServeScheduler.Shutdown` | src/qwen36b.c:5891-5892 | follows the state machine and wakes every sleeper |
| `Utf8.ValidIsCharacters` | src/samosa_html.c:60-79 | valid text is exactly a sequence of characters of the grammar in section 4 of RFC 3629 |
| `Utf8.EncodeIsChar` | src/samosa_html.c:220-241 | a scalar value encodes to a character that spells it |
| `Utf8.CharIsEncoded` | src/samosa_html.c:220-241 | a character spells a scalar value that encodes to it |
| `Utf8.ValidUtf8` | src/samosa_html.c:60-79 | answers whether the text is valid, by second-byte ranges |
| `Utf8.SequenceWidth` | src/samosa_html.c:81-100 | the width of the character at a position, or 0, by ranges of the number spelled: the same characters as the other checker |
| `Utf8.ScanIsValid` | src/samosa_html.c:60-79 | reading byte by byte ends between characters exactly on valid text |
| `HtmlText.TextValid` | src/samosa_html.c:102-117 | accepts exactly non-empty valid text without controls, with the right error |
| `HtmlText.Repair` | src/samosa_html.c:456-468 | computes the specified repair within three bytes for each input byte |
| `HtmlText.RepairedExactly` | src/samosa_html.c:448-475 | repaired text passes strict validation; repair is the identity exactly on text that already passes; repairing twice is repairing once |
| `HtmlText.RepairedChar` | src/samosa_html.c:456-468 | repair keeps every character that is no control |
| `HtmlText.RepairedByte` | src/samosa_html.c:456-468 | where no character starts, or a control stands, it puts the replacement character for one byte |
| `HtmlText.NormalizeWhitespace` | src/samosa_html.c:293-312 | the in-place pass computes the specified normal form |
| `HtmlText.NormalIsTidy` | src/samosa_html.c:293-312 | no whitespace at either end, no two in a row, only blanks and newlines |
| `HtmlText.NormalKeepsInk` | src/samosa_html.c:293-312 | nothing but whitespace is lost |
| `HtmlText.NormalOfWord` | src/samosa_html.c:293-312 | a word stays as it is |
| `HtmlText.NormalOfGap` | src/samosa_html.c:293-312 | whitespace between words becomes a newline if it holds a line break and a blank otherwise; at either end it goes |
| `HtmlText.NormalScans` | src/samosa_html.c:293-312 | normalising valid text leaves valid text |
| `HtmlExtract.NumberIsValue` | src/samosa_html.c:261-270 | giving up early refuses exactly the numbers beyond the last code point |
| `HtmlExtract.EntityIsChar` | src/samosa_html.c:243-291 | a decoded entity is one character and no control |
| `HtmlExtract.ActScans` | src/samosa_html.c:348-430 | one pass of the loop keeps the text at the place in a character where it must be |
| `HtmlExtract.BodyIsText` | src/samosa_html.c:328-439 | extracted text, raw and normalised, is valid UTF-8 without controls |
| `HtmlExtract.SkippedIsSilent` | src/samosa_html.c:377-390 | inside a skipped element nothing is put anywhere |
| `HtmlExtract.PlainTextStays` | src/samosa_html.c:410-429 | text without markup comes out as it is |
| `HtmlDocument.HtmlFits` | src/samosa_html.c:201-218 | the extraction treats names by this vocabulary: the elements it skips, title and head, the tags that break the line, items and cells |
| `HtmlDocument.DocumentMeans` | src/samosa_html.c:348-430 | wherever a well-nested document of elements, comments, entities and text stands in the input, the loop puts its meaning, text and title, and goes on behind it in the mode it was in |
| `HtmlDocument.FileMeans` | src/samosa_html.c:328-439 | text and title of a file that is such a document |
| `HtmlDocument.SkippedEnds` | src/samosa_html.c:377-390 | a skipped element ends at its closing tag, at any depth of nesting, with nothing put |
| `HtmlDocument.ScriptEnds` | src/samosa_html.c:377-390 | after each of the seven skipped elements around bytes without a tag the text goes on as if it had just begun |
| `HtmlExtract.Extract` | src/samosa_html.c:328-446 | succeeds exactly on valid input whose text fits the limit, each error exactly in its case; the text is valid UTF-8 without controls, tidy and within the limit, and the title is the first 4096 bytes of what titles put, normalised |
| `HtmlExtract.ExtractReplacing` | src/samosa_html.c:448-480 | input is refused as too long exactly when three bytes for each of its bytes would not fit; on any other non-empty input the only error is the output limit, and the text is valid UTF-8 within it |
| `Sha256Stream.Absorb` | src/qwen36b.c:483-494 | the block loop all three updates share: whole blocks compressed in order, the rest buffered |
| `Sha256Stream.Finish` | src/samosa_fs.c:178-192 | padding in one or two blocks is the padding of section 5.1.1 of FIPS 180-4 |
| `Sha256Stream.ZeroCountIsLeast` | src/qwen36b.c:496-505 | the zero bytes are as few as the standard asks |
| `Sha256Stream.StandardLength` | src/qwen36b.c:496-505 | below 2^64 bits the wrapping length is the exact length |
| `Sha256Stream.LengthIsWritten` | src/qwen36b.c:496-505 | the eight last bytes of the padding write the length, most significant first |
| `Sha256Stream.CompressedInOrder` | src/qwen36b.c:483-494 | whole blocks are compressed one after the other from the initial value |
| `Sha256Stream.BitCounting.Update` | src/read_cache.h:60-63 | the context has absorbed the bytes so far, with a wrapping bit count |
| `Sha256Stream.BitCounting.Final` | src/samosa_fs.c:174-199 | the digest of everything absorbed |
| `Sha256Stream.ByteCounting.Update` | src/qwen36b.c:483-494 | the same with a byte count, refusing exactly what passes 2^64 - 1 bytes |
| `Sha256Stream.ByteCounting.Final` | src/qwen36b.c:496-510 | the digest of everything absorbed |
| `Sha256Stream.HashChunks` | src/read_cache.h:60-75 | any two splits of the same bytes, on either kind of context, give one function of the bytes |
| `JsonCache.EscapeInto` | src/read_cache.h:102-114 | never writes past the buffer, stops early only for lack of room, and with the 6n + 16 bytes put allocates never does |
| `JsonCache.EscapedHasNoControls` | src/read_cache.h:102-114 | an escaped string holds no control byte, as section 7 of RFC 8259 demands |
| `JsonCache.ParseString` | src/json.h:49-91 | the decoding loop computes the specified string and rest |
| `JsonCache.EscapeRoundTrip` | src/json.h:49-91 | parsing an escaped NUL-free string gives the string back, whatever follows |
| `JsonStrings.StringReads` | src/json.h:49-91 | any string of bytes, short escapes, code points and surrogate pairs written by section 7 of RFC 8259 reads as what it stands for, in UTF-8 |
| `JsonStrings.CodeBytesExactly` | src/json.h:76-81 | a code point becomes its UTF-8 character exactly when it is a scalar value; half a surrogate pair becomes bytes that are none |
| `JsonStrings.EscapeKeeps` | src/read_cache.h:102-114 | escaping leaves alone what need not be escaped |
| `JsonFields.ClosedReads` | src/json.h:49-91 | a closed field, with no bare quote and no unfinished escape, reads as its decoded text, whatever follows |
| `JsonFields.GetAnswers` | src/read_cache.h:149-187 | with closed fields a get under any pair returns what was put exactly when the pair is what the two fields read as, and nothing otherwise |
| `JsonFields.ForgedAnswer` | src/read_cache.h:149-187 | a contract that closes its own quote makes a get under another pair return a result that was never put |
| `JsonExact.GetFindsExactly` | src/read_cache.h:152-187 | an entry is found under its own contract and fingerprint if and only if neither holds a quote or a backslash |
| `JsonExact.AnswersExactly` | src/read_cache.h:149-187 | of all pairs asked for, its own is answered with what was put and every other with nothing, under the same condition and no other |
| `JsonExact.QuoteIsLost` | src/read_cache.h:152-187 | an entry put under a contract of one quote is never found again |
| `JsonExact.FieldExactly` | src/json.h:58-84 | an unescaped field is read back if and only if it holds no quote and no backslash |
| `Calibration.ExactlyCount` | src/qwen36b.c:4371-4382 | of all ordinals exactly the requested number is selected, all of them inside the range |
| `Calibration.SelectedGrows` | src/qwen36b.c:4371-4382 | the selected ordinals strictly increase |
| `Calibration.SelectedIsMiddle` | src/qwen36b.c:4371-4382 | cut into equal parts, the positions have their selected ordinal in the middle of each part |
| `Calibration.EvenlySpread` | src/qwen36b.c:4371-4382 | neighbours are as far apart as the parts are long, to within one position |
| `Calibration.IsCalibration` | src/qwen36b.c:4371-4382 | leaving early agrees with plain membership; the overflow stop is taken exactly when a product overflows before the answer is settled |

## Left out

- Telemetry counters of the cache, its workspace layout and alignment, and the hash mixing constants: any hash
  function will do, and the counters saturate independently of everything else.
- Range checks on enumerations and the rule that an absent residual has zero fields: the types here rule both out.
- The tokenizer's own hash maps and the parsing of `tokenizer.json` into them: they are finite maps here.
- Unicode tables: letter, number and space are parameters; the one fact used is that carriage return and newline
  count as space.
- TokCodec.RoundTrip: assumes a vocabulary with all 256 byte symbols that is closed under its merges, with
  distinct ids, and added ids apart from vocabulary ids; the source checks none of these.
- Floating point, attention and sampling: one token's step, a chunk as the fold of such steps, the logits and the
  choice of a token stay abstract.
- Cancelled turns: their trimmed transcript deliberately keeps the later recurrent state, so the session results
  are about turns that run to their end.
- Vision tokens and multi-axis positions in generate and generate_continue.
- SessionModel.Model.Resume: one word stands for one number in the file, whatever its width in bytes; running out of
  memory and failing writes are not modelled.
- SessionModel.Converse: budgets are at least one token, as the command line and the server both demand; with none,
  generate would leave every stored token stepped.
- CopyProtocol.CopyCompletes: checks of modification times, the creation of parent directories, opening the folders
  and taking the lock (a failure there is refused before anything is looked at), and reordering of writes at power
  loss are not modelled, and outside edits happen between attempts only.
- Moving and undoing a move: a simpler instance of the copy protocol.
- Inventory.Inventory: failure to build an output line is not modelled, and the tree does not change during a walk.
- Scheduler.ServeScheduler.Acquire: tickets are unbounded numbers, not 64-bit ones.
- HtmlDocument.DocumentMeans: tags that do not nest, a tag cut off by the end of the input, and an ampersand that
  starts no entity are outside the documents it is about.
- JsonCache.ParseString: reading past the end of a truncated escape is reported as an error, where the source reads
  beyond its text.
- JsonFields.GetAnswers: file names, locking and atomic publication of an entry are not part of this model; for
  fields that are not closed only the loss of their own pair and the forged answer are shown.
- The SHA-256 compression function: the three copies of it are one parameter here.
- The HTTP server, process spawning, document renderers, evidence and memory-plan validators, and the analysis tools.
