# Hollow relay: a verified model

A Dafny model of the logic at the centre of the relay (`relay-uws/src`), with proofs of what
that logic promises. Nothing here was executed: the model is checked by the Dafny verifier
alone (`dafny verify dfyconfig.toml`). Every lemma turns automatic induction off, so each proof by
induction is written out.

The relay keeps four kinds of state that anyone may write to and that must come out right:
who belongs to an identity, what a device missed while it was away, who gives way when
memory runs short, and what survives a restart.

| part | files | what is shown |
|---|---|---|
| who gives way | `FairShare`, `Shelf` | the indexes agree with a plain walk; whoever is evicted belongs to a share holding more than the budget split evenly, and a modest share loses nothing over a whole run |
| a session's stream | `Stream`, `Ring`, `Resume` | the ring with its lazily merged tombstones and linked share index refines a plain numbered stream; replay depends on that stream alone; a device can always resume, catches up exactly and never gets a number twice |
| the session pool | `OfflineIndex`, `Matching`, `Pool` | across all rings the pool is charged exactly once for each frame and each shared buffer, and stays within its budget; a frame is dropped only while a limit is exceeded, and is then the one the order names |
| the session table | `SessionBook` | the victim index is a walk of the table, and making room keeps the table within its maximum |
| the identity roster | `Order`, `Closure`, `Roster`, `RosterFacts`, `RosterLists`, `RosterMerge`, `RosterLoops`, `RosterFold`, `RosterReading`, `RosterRanking`, `RosterCeilings`, `RosterPermanence`, `RosterLimits`, `RosterFirstSight`, `RosterVerify`, `RosterPayload`, `RosterBook`, `RosterWaiting` | the merge is commutative, and associative and idempotent while no ceiling cuts; the fold is the least fixed point it means; exactly which removals stay in force past every ceiling, and that only founded devices' statements can push one by a founded device out; first sight protects asks, and seven days after it an ask is in force; nobody speaks for one who did not sign; the cached verification is the full one |
| join locks | `JoinLock` | a held chain always verifies, and its tip only moves by a signature of its own change key or of the owner |
| memory and work budgets | `Ledger`, `Breaker` | the send ledger is exact, closes and dooms the right socket and only while it must, and takes no trickle for progress; an honest payer never climbs the ladder, and a pause is always long enough |
| codecs | `Base58`, `Codec`, `Snapshot`, `SnapshotSession`, `SnapshotBody`, `SnapshotData`, `SnapshotLayout`, `SnapshotUpgrade`, `SnapshotWire` | base58 and the snapshot format round trip, a snapshot's bytes are laid out field by field, no snapshot is the front of another, and whatever an older version decodes to can be written and read again |

Where the relay calls into a library (Ed25519, SHA-256, JSON sizes) the model takes a
function: `Rosters.Crypto`, `JoinLocking.LockCrypto`, `RosterBook.jsonBytes`. What a
signature covers is a datatype with the payload's fields (`Rosters.Message`,
`JoinLocking.Payload`), which the payload texts name uniquely (`RosterPayloads.TextNames`,
`JoinLocking.TextNamesPayload`). Hashes are assumed free of collisions only among the recoveries at
hand (`RosterFacts.Distinct`), and the empty string to be no key (`RosterVerify.NoEmptyKey`;
`crypto.cpp` refuses anything that is not 36 bytes). A shared buffer is a value that carries
its address (`Streams.Buf`), so equal values are the same buffer. The C++ field `by` of
vouches and removals is called `signer`.

Three places where the code and its comments differ from what one might expect are kept as
the code has them: in `relay-uws/src/session.h` a compaction leaves tombstones at most one
more than the frames, while between compactions they may exceed them by 64; in
`relay-uws/src/roster.h` compaction keeps the pending joins least in order, so
`merged_by_first_sight` has to trim both sides before it merges; and while
`relay-uws/src/roster_book.h` says that nothing shown later takes a removal back, a removal
past its ceiling is cut (`RosterLimits.RemovalOutranked`), so the exact condition is stated
instead (`RosterPermanence.InForceExactly`, `RosterBooks.RemovedForGood`).

## Model

| member | source | states |
|---|---|---|
| FairShares.VictimIsHeavy | relay-uws/src/fair_share.h:80-84 | while a table is past its budget, whoever gives way belongs to a share holding at least as much as every other, and more than the budget divided by the number of shares |
| FairShares.ModestShareKept | relay-uws/src/fair_share.h:80-84 | over a whole run of evict-while-over-budget, a share within its even part of the budget keeps every entry |
| FairShares.TotalWithin | relay-uws/src/fair_share.h:98-117 | the whole is at most the number of shares times the most any one holds |
| FairShares.FairShare.Put | relay-uws/src/fair_share.h:29-34 | the entry is charged to its share at its weight as used now, every other entry is untouched, and all four indexes stay exact |
| FairShares.FairShare.Touch | relay-uws/src/fair_share.h:36-43 | only the moment of use changes, and only in its own share's use order |
| FairShares.FairShare.Reweigh | relay-uws/src/fair_share.h:46-55 | only the weight changes; held order, share totals and the grand total follow |
| FairShares.FairShare.Remove | relay-uws/src/fair_share.h:57-63 | the entry and nothing else leaves, and says whether it was there |
| FairShares.FairShare.Victim | relay-uws/src/fair_share.h:80-84 | agrees with a plain walk: the least recently used entry of the heaviest share, none only for an empty table |
| FairShares.FairShare.VictimExcept | relay-uws/src/fair_share.h:89-96 | agrees with a plain walk that passes over one entry |
| FairShares.FairShare.Link | relay-uws/src/fair_share.h:119-127 | indexes exact for all entries but one become exact for all |
| FairShares.FairShare.Unlink | relay-uws/src/fair_share.h:129-142 | indexes exact for all entries become exact for all but one |
| Shelves.Shelf.EnforceBudget | relay-uws/src/roster_book.h:127-134 | ends within the budget, by evicting again and again the victim of what is left; the records kept are unchanged |
| Shelves.ModestKept | relay-uws/src/roster_book.h:18-20 | a record of a share within its even part of the budget survives |
| Streams.RunsMeaning | relay-uws/src/session.h:189-205 | a replay tells each kept frame under its own number and each maximal run of gone ones as one gap |
| Streams.RunsUnique | relay-uws/src/session.h:189-205 | nothing else reads that way: the replay is the only such sequence |
| Streams.ReplayAfterAck | relay-uws/src/session.h:168-205 | acking anything up to what the device holds changes nothing a replay sends |
| Streams.VictimUnique | relay-uws/src/session.h:214-223 | the frame to evict next is decided by the stream alone |
| Streams.EvictedUnique | relay-uws/src/session.h:226-230 | what an eviction run to within the limits drops is decided by the stream alone |
| Rings.Ring.Push | relay-uws/src/session.h:141-150 | the stream grows by one frame under the next number; entries, counters, links and ranking stay exact |
| Rings.Ring.PushGap | relay-uws/src/session.h:153-166 | the stream grows by one gone number, merged into a run that ends it |
| Rings.Ring.Ack | relay-uws/src/session.h:173-185 | an ack in range drops exactly the frames up to it and hands them back; any other changes nothing and says so |
| Rings.Ring.ReplayAfter | relay-uws/src/session.h:189-205 | the replay is a function of the abstract stream, whatever merging and compaction did to the entries |
| Rings.Ring.GapAfter | relay-uws/src/session.h:207-212 | true exactly when some later number is gone |
| Rings.Ring.EvictOne | relay-uws/src/session.h:217-223 | buries the frame a naive scan would choose: the first of the share whose bytes, with 1024 more for each frame, are most, of two as heavy the one that starts earlier; tombstones end at most 64 over the frames |
| Streams.VictimExactly | relay-uws/src/session.h:308 | the order in bytes and counts, both ways: the victim is exactly the oldest frame of the share with the most bytes plus 1024 a frame, summed over the slots |
| Streams.MoreBytesGoFirst | relay-uws/src/session.h:308 | of two shares with as many frames the one with more bytes loses first |
| Streams.OverInBytes | relay-uws/src/session.h:225-230 | a ring is over exactly when its frames hold more bytes, or are more, than the limits |
| Rings.Ring.Enforce | relay-uws/src/session.h:226-230 | ends within both limits; each frame buried was the scan's choice while a limit was exceeded, so within the limits nothing changes; hands back what it dropped |
| Rings.Ring.EvictStamp | relay-uws/src/session.h:234-243 | buries the frame with that stamp wherever it stands, or finds that there is none |
| Rings.Ring.TakeAll | relay-uws/src/session.h:247-260 | hands back every kept frame in order and leaves everything acked |
| Rings.Restore | relay-uws/src/session.h:264-288 | accepts exactly the well-formed entry lists and rebuilds a whole ring with the same stream, so with the same victims |
| Rings.Ring.Restores | relay-uws/src/session.h:262-288 | a ring is accepted by a restore if and only if every frame it keeps came with bytes |
| Rings.TallyUp | relay-uws/src/session.h:264-288 | the checking pass accepts exactly the well-formed lists and counts bytes, frames and tombstones |
| Rings.Ring.Hold | relay-uws/src/session.h:325-337 | the frame joins the linked index of its share as its newest |
| Rings.Ring.Unhold | relay-uws/src/session.h:340-360 | the frame leaves the linked index from anywhere in its share's list |
| Rings.Ring.DropFront | relay-uws/src/session.h:363-374 | the first entry leaves with everything it stands for |
| Rings.Ring.Bury | relay-uws/src/session.h:379-408 | one number turns from kept to gone, wherever it is, and nothing else; tombstones stay at most frames + 64 |
| Rings.Ring.Compact | relay-uws/src/session.h:411-424 | the stream is unchanged, no two tombstones touch any more, and they are at most one more than the frames |
| Resume.StepKeeps | relay-uws/src/session.h:96-205 | every step of the protocol (push, gap, ack, eviction, delivery, a dead path, a resume) keeps the invariant |
| Resume.RunKeeps | relay-uws/src/session.h:96-205 | so it holds after every run |
| Resume.NeverTurnedAway | relay-uws/src/session.h:168-169 | after any run the device's count can be resumed from, and with nothing on the path it equals what was sent |
| Resume.HandledOnce | relay-uws/src/session.h:96-99 | everything the device handled follows on from the one before, and a real frame is the one pushed under that number |
| Resume.NoFrameTwice | relay-uws/src/session.h:96-99 | no number is delivered twice |
| Resume.AckOutOfRange | relay-uws/src/session.h:173-185 | a stale or future ack changes nothing |
| Resume.ResumeCatchesUp | relay-uws/src/session.h:187-205 | a completed replay brings the device to exactly what was sent, and the ring lets go of what the device had counted and of nothing else |
| OfflineIndexes.Conserved | relay-uws/src/offline_index.h:138-146 | the table weighs 1024 per stamp and each distinct buffer once |
| OfflineIndexes.OfflineIndex.RingBytesExact | relay-uws/src/offline_index.h:138-146 | so does `ring_bytes()` in every reachable state |
| OfflineIndexes.OfflineIndex.StampSession | relay-uws/src/offline_index.h:68-88 | a frame takes the next stamp, its holding charged to the ring's share; its buffer is charged to the sender's share unless some ring holds it already; no other charge moves |
| OfflineIndexes.OfflineIndex.Forget | relay-uws/src/offline_index.h:105-125 | a stamp leaves, and its buffer only with its last holder; no other charge moves |
| OfflineIndexes.OfflineIndex.FramesOf | relay-uws/src/offline_index.h:129-136 | the stamps a pool entry answers for: one for a holding; for a buffer exactly the stamps that hold that buffer, each once |
| Matching.MatchedCounts | relay-uws/src/offline_index.h:68-136 | index entries and ring frames correspond one to one, and so do the buffers |
| Matching.EvictedLoses | relay-uws/src/session_bounds.h:78-85 | what an eviction run drops is exactly what the rings lose |
| Matching.PurgedBuffer | relay-uws/src/session_bounds.h:61-62 | the stamps a buffer answers for are exactly those of the frames with that buffer, over all rings |
| Matching.PoolTurnIsFair | relay-uws/src/session_bounds.h:51-71 | whoever gives way to the pool belongs to a share charged more than the budget split evenly over the shares |
| Matching.TurnCosts | relay-uws/src/session_bounds.h:51-71 | what one turn costs, slot by slot: for a holding, the first slot that the sender with the most bytes in that ring has there, each frame counted as 1024 more, and no other slot of any ring; for a buffer, every ring loses exactly the frames that hold it |
| Pools.Relay.PoolExact | relay-uws/src/offline_index.h:138-146 | the pool's bytes are 1024 per frame held in some ring plus each distinct shared buffer once |
| Pools.Relay.RingPush | relay-uws/src/session_bounds.h:78-85 | the frame gets its number, as a gap if no ring may hold it; the ring then buries only while past its limits and the pool takes turns only while past its budget, each the right victim; both end within |
| Pools.RoomCostsNothing | relay-uws/src/session_bounds.h:78-85 | a frame that fits beside what is held costs nobody anything |
| Pools.Relay.RingAck | relay-uws/src/session_bounds.h:89-91 | only that ring changes, by the ack, and its charges go |
| Pools.Relay.RingTakeAll | relay-uws/src/session_bounds.h:96-104 | the ring is emptied, handed over in order, and its charges go |
| Pools.Relay.BuryOverPool | relay-uws/src/session_bounds.h:55-71 | a run of turns, each taken past the budget and falling on the table's victim; ends within the budget, and changes nothing when already within |
| Pools.Relay.GiveWay | relay-uws/src/session_bounds.h:57-70 | one turn: a holding costs its ring that ring's own next victim, a buffer's bytes cost every ring exactly the frames with that buffer; each turn frees bytes, so the loop ends |
| Pools.Relay.EvictFrom | relay-uws/src/session_bounds.h:63-66 | that ring loses its own next victim, and no other ring anything |
| SessionBooks.Book.Add | relay-uws/src/session.h:531-535 | a live session of the share, whatever the peer had before |
| SessionBooks.Book.ToGrace | relay-uws/src/session.h:538-545 | into grace after every session already there |
| SessionBooks.Book.ToLive | relay-uws/src/session.h:548-555 | live again, its address slot given up |
| SessionBooks.Book.Drop | relay-uws/src/session.h:557-561 | the session and nothing else leaves, indexes exact |
| SessionBooks.Book.TableVictim | relay-uws/src/session.h:565-572 | agrees with a walk: the first to end (those in grace by entry, then live ones) of a share whose count with the newcomer is greatest; its own share where counts are equal |
| SessionBooks.VictimEndsFirst | relay-uws/src/session.h:520-525 | in the sessions' own state: nobody of the victim's share is in grace while it is live, or went into grace before it, or ends as early under a lesser name; no share has more sessions once the newcomer is counted; of shares that tie the newcomer's own loses; and between other shares with as many, none has a session that ends before it |
| SessionBooks.Book.GraceSlots | relay-uws/src/session.h:575-578 | as many as the sessions in grace with a slot at the address |
| SessionBooks.Book.GraceSlotVictim | relay-uws/src/session.h:580-587 | the earliest into grace of that address, passing over one device |
| SessionBooks.MakeRoom | relay-uws/src/session_bounds.h:134-149 | ending what it names keeps the table within its maximum after the mint, ends no more than needed, and each named session was the table's victim in its turn |
| Closures.ClosureIs | relay-uws/src/roster.h:583-591 | the least set that holds the seeds and is closed under vouches |
| Closures.ClosureIsReachable | relay-uws/src/roster.h:583-591 | exactly what chains of vouches reach |
| Closures.StandingKeys | relay-uws/src/roster.h:277-319 | who stands, breadth first in two tiers, is the closure of roots and asks together |
| Closures.StandingTiers | relay-uws/src/roster.h:277-319 | the first tier is the closure of the roots; in it each device is a root or has a voucher one step nearer, and vouches reach at most one step further |
| Closures.RootsPlaced | relay-uws/src/roster.h:277-319 | every root is placed before all else, however else it is vouched for |
| RosterLoops.ReadCurrent | relay-uws/src/roster.h:229-245 | the two passes find the latest moment, its least base id, the union of its keeps and whether any waives the wait |
| RosterLoops.ReadStanding | relay-uws/src/roster.h:277-319 | the frontier loop gives every standing device its tier and depth |
| RosterLoops.SplitVouches | relay-uws/src/roster.h:372-382 | exactly the first vouch of the list for each standing device, of a ranked list the best-ranked, before the others; nothing is lost |
| RosterLoops.CutUnnamed | relay-uws/src/roster.h:421-426 | of the unnamed devices' consents the first eight are kept, and every other consent |
| RosterLoops.Compact | relay-uws/src/roster.h:323-431 | the loops compute the compaction the laws below are about |
| RosterLists.CurrentBase | relay-uws/src/roster.h:229-250 | the base is the least id among the latest recoveries |
| RosterLists.CompactedFacts | relay-uws/src/roster.h:323-431 | while no ceiling but the asks' cuts: the current base's statements, and of vouches and removals those by devices that stand |
| RosterLists.SameFacts | relay-uws/src/roster.h:120-132 | sorted lists with the same statements are the same roster |
| RosterFacts.CompactSettles | relay-uws/src/roster.h:323-431 | compacting twice is compacting once |
| RosterFacts.CompactAssociates | relay-uws/src/roster.h:509-525 | the associative law on the sets of statements |
| RosterMerge.CompactedCanonical | relay-uws/src/roster.h:323-431 | what compaction leaves is in the form the merge laws ask for |
| RosterMerge.MergeCommutes | relay-uws/src/roster.h:509-525 | which side is shown first does not matter, whatever the lists hold, ceilings or not |
| RosterMerge.MergeIdempotent | relay-uws/src/roster.h:509-525 | showing the same roster again changes nothing |
| RosterMerge.MergeAssociates | relay-uws/src/roster.h:509-525 | in whatever order three rosters meet, the holder ends with the same one |
| RosterLimits.MergeOrderMatters | relay-uws/src/roster.h:323-431 | three canonical rosters whose merge depends on which two meet first once the asks are past their ceiling |
| RosterMerge.MergeKeepsWinners | relay-uws/src/roster.h:509-525 | the latest recoveries' base wins; all its statements from either side survive, of every kind, and no other base's do |
| RosterFold.VouchClosure | relay-uws/src/roster.h:583-591 | the repeated passes end and compute the closure, of all vouches or of those that still count |
| RosterFold.ReadRemovals | relay-uws/src/roster.h:612-628 | each removed device's first remover, and what all its effective removals keep |
| RosterFold.Fold | relay-uws/src/roster.h:564-652 | members, removed and pending are the least fixed points the identity design means |
| RosterReading.FoldExactly | relay-uws/src/roster.h:564-652 | the whole state read off the statements: a member is led to by vouches from a consenting start or an unrefused ask of seven days, each vouch spared by every removal of its maker that counts, and no removal that counts names it; who is removed, by whom first, and who is pending, likewise both ways |
| RosterReading.AskMatures | relay-uws/src/roster.h:592-608 | a consenting device that asks in the current base and that no removal there names is a member 604800000 ms after its first sight, unless a newest recovery forbids waiting |
| RosterReading.MemberWaited | relay-uws/src/roster.h:592-608 | and conversely a member the roots do not lead to is led to from such an ask, at least that old and refused by nobody who belongs |
| RosterReading.LoneAsk | relay-uws/src/roster.h:592-652 | a device with nothing but its ask is a member if and only if that time has passed and waiting is allowed, and pending otherwise |
| RosterReading.RemovedStaysOut | relay-uws/src/roster.h:592-652 | whom a device that belongs removed is neither member nor pending, and is listed as removed if it asks or joined |
| RosterPermanence.MemberByPath | relay-uws/src/roster.h:630-647 | a member is exactly a device not removed to which a chain of counting vouches leads from a consented root or a matured ask |
| RosterPermanence.MembersConsented | relay-uws/src/roster.h:566-591 | every member consented |
| RosterPermanence.MemberFoundedOrWaited | relay-uws/src/roster.h:592-608 | a member outside the founded set descends from an unrefused ask first seen at least seven days ago |
| RosterPermanence.RefusedNeverMember | relay-uws/src/roster.h:592-647 | what a founded device removed is no member, for any clock and whatever matured |
| RosterRanking.TreeFirstIs | relay-uws/src/roster.h:372-381 | the tree holds exactly the first vouch of the ranked list for each standing device |
| RosterRanking.ConsentKept | relay-uws/src/roster.h:402-428 | a standing device's consent is kept if and only if fewer than 96 standing devices rank before it, however many others consent |
| RosterRanking.TreeVouchKept | relay-uws/src/roster.h:372-386 | a best vouch is kept if and only if fewer than 128 best vouches rank before it, and once one is cut nothing but best vouches is kept |
| RosterRanking.FoundedExactly | relay-uws/src/roster.h:360-428 | on every roster: a device is founded after compaction if and only if the roots reach it, fewer than 96 standing devices rank before it and, unless it is a root, fewer than 128 best vouches rank before its own |
| RosterRanking.OnlyFoundedAhead | relay-uws/src/roster.h:360-428 | whatever ranks before a founded device, its vouches or its removals is a founded device's, so no stranger can push it out |
| RosterCeilings.ConsentsKept | relay-uws/src/roster.h:402-428 | which consents are kept, whoever's: of those neither standing nor named only the first eight, and then those with fewer than 96 before them, where rank orders the standing devices, who come first, and named ones come before strangers |
| RosterCeilings.RecoveriesKept | relay-uws/src/roster.h:325-332 | the newest recoveries with fewer than four before them |
| RosterCeilings.AdmitsKept | relay-uws/src/roster.h:335-340 | the admissions later than every recovery with fewer than 64 such before them |
| RosterCeilings.LegacyKept | relay-uws/src/roster.h:340-341 | claims only while there is no recovery, those with fewer than 64 before them |
| RosterCeilings.AsksKept | relay-uws/src/roster.h:345-355 | the asks of the base with fewer than 16 of them before |
| RosterCeilings.CompactedWithin | relay-uws/src/roster.h:323-431 | what compaction leaves is within every ceiling a showing is held to |
| RosterCeilings.StatementOrder | relay-uws/src/roster.h:56-104 | the order statements are cut in, field by field |
| RosterCeilings.LongOrder | relay-uws/src/roster.h:56-104 | the same for removals and recoveries |
| RosterCeilings.AheadIs | relay-uws/src/roster.h:119-120 | rank is tier, then depth, then id; removals of one signer are ranked by their fields |
| RosterRanking.RemovalSurvives | relay-uws/src/roster.h:387-400 | a removal survives compaction if and only if it is of the current base, its signer stands and fewer than 96 standing removals rank before it |
| RosterPermanence.CompactedKept | relay-uws/src/roster.h:323-431 | what compaction leaves is of one base, whatever was cut |
| RosterPermanence.InForceExactly | relay-uws/src/roster.h:323-431 | on every roster: a removal is in force after compaction if and only if it was stated, is of the current base, its signer stays founded and fewer than 96 standing removals rank before it |
| RosterPermanence.RefusedExactly | relay-uws/src/roster.h:323-431 | so who founded devices have removed after compaction is exactly whom such removals name |
| RosterPermanence.MergedInForce | relay-uws/src/roster.h:509-525 | a merge has in force exactly what either side states and there is room for |
| RosterPermanence.MergeKeepsRemoval | relay-uws/src/roster.h:509-525 | a removal in force stays in force through a merge if and only if nothing is merged or, among the statements of both, the base is still its own and there is room for it |
| RosterLimits.RemovalOutranked | relay-uws/src/roster_book.h:69-101 | two showings to a fresh record: the first has a removal in force; the second, a canonical roster of 96 removals by the removed root, whose name is the lesser, is taken as it is and pushes that removal out, and the removed device is a member again |
| RosterPermanence.RefusedWhileFit | relay-uws/src/roster.h:509-525 | while founded devices and their removals fit their ceilings, a merge refuses exactly whom the devices the roots reach removed, whatever others state |
| RosterPermanence.MergeKeepsRefusals | relay-uws/src/roster.h:509-525 | so a merge that keeps the base, with room for the phrase's and the master's own statements, then keeps everyone removed: one case of the exact condition, which a caller can count |
| RosterPermanence.RemovedForGood | relay-uws/src/roster_book.h:11-16 | over any run of merges a removal in force stays so throughout if and only if at each merge the joined statements keep its base and fewer than the ceilings rank before it, its signer and the vouch that signer rests on; the device is then never a member at any point, however far the clock runs |
| RosterFirstSight.FirstSightAsks | relay-uws/src/roster.h:531-560 | the asks left are those of the resulting base seen first, as many as fit |
| RosterFirstSight.FirstSightProtects | relay-uws/src/roster.h:531-560 | a flood of asks by unseen devices pushes out no ask already held |
| RosterVerify.CachedIsFull | relay-uws/src/roster.h:436-505 | skipping the check of statements already held gives what the full check gives |
| RosterVerify.VerifiedGenuine | relay-uws/src/roster.h:436-505 | every statement that passes verifies for the master under the roster's key |
| RosterVerify.DevicesChecked | relay-uws/src/roster.h:467-502 | consents, vouches and removals that pass are exactly the well-shaped ones signed by the device or by the signer over master, base, device and what is kept |
| RosterVerify.MasterChecked | relay-uws/src/roster.h:482-493 | asks and claims that pass are exactly the well-shaped ones the master signed |
| RosterVerify.PhraseChecked | relay-uws/src/roster.h:443-465 | recoveries and admissions that pass are exactly those at most 600000 ms ahead, well shaped, and signed over the same text by the recovery key and the master |
| RosterVerify.VerifiedUnforged | relay-uws/src/roster.h:436-505 | an id no signature verifies for has no consent, vouch or removal in what passes, a master none of its own statements, a recovery key none of its |
| RosterPayloads.TextNames | relay-uws/src/roster.h:140-176 | the signed texts of two statements, of one kind or two, are equal only if the statements are |
| RosterVerify.CompactedPart | relay-uws/src/roster.h:323-431 | compaction only drops statements, ceilings or not |
| RosterVerify.MergedGenuine | relay-uws/src/roster.h:509-560 | merging genuine rosters leaves a genuine one, under the recovery key already held if there is one |
| RosterBooks.ShownSound | relay-uws/src/roster_book.h:69-101 | every showing keeps a record genuine and of one base, its asks within their ceiling, and its clock of exactly those |
| RosterBooks.Unforgeable | relay-uws/src/roster_book.h:69-101 | over any run of showings, a device that never signed has stated nothing and is no member, and without the master's signature there is no member at all |
| RosterWaiting.SeenSince | relay-uws/src/roster_book.h:88-95 | the relay's clock of an ask held since a showing stands at that showing's moment, whatever was shown since |
| RosterWaiting.AskOwns | relay-uws/src/roster_book.h:11-16 | so seven days after the showing that brought it, an ask no removal names is a member by the relay's own clock |
| RosterWaiting.NewBaseRestarts | relay-uws/src/roster_book.h:15-16 | a showing that changes the base starts every clock anew |
| RosterBooks.ShownCached | relay-uws/src/roster_book.h:79-81 | the cached verification a showing makes is the full one |
| RosterBooks.ShownProtects | relay-uws/src/roster_book.h:78-97 | no held ask and no first sight of one is lost to asks the relay has not seen |
| RosterBooks.RemovedForGood | relay-uws/src/roster_book.h:11-16 | over any run of showings, of any rosters to any record, a removal in force stays so throughout if and only if at each showing, once verified and its asks cut by first sight, the same holds; the device then never owns the inbox, whoever asks, consents or vouches |
| RosterBooks.RosterBook.Show | relay-uws/src/roster_book.h:69-112 | the record becomes the fully verified merge; members, removed, pending and the verdict are the fold's; the charge moves only for a new record or a member, and the book ends within its budget; a roster past its ceilings or of another master changes nothing |
| JoinLocking.VerifyChain | relay-uws/src/join_lock.h:128-140 | names the one owner every link of a chain is bound to, or none |
| JoinLocking.RelayPut | relay-uws/src/join_lock.h:149-187 | an extension, a continuation, a reset past the tip or a compaction is taken, anything else refused |
| JoinLocking.NumbersRise | relay-uws/src/join_lock.h:122-140 | numbers rise along a chain |
| JoinLocking.PutAdvances | relay-uws/src/join_lock.h:149-187 | whatever is offered, the chain speaks for the same owner and its tip is the same lock or a later one reached by signatures from the old tip's change key or an owner-signed link past it |
| JoinLocking.MovedBySignature | relay-uws/src/join_lock.h:103-126 | a tip moves only by a signature of its own change key over the next number, server, door and change key in place, or of an owner's key over a greater number; each link after that is signed by the key the one before it names |
| JoinLocking.NoKeyNoMove | relay-uws/src/join_lock.h:149-187 | while no such signature verifies, whatever is offered leaves number, door and change key as they are |
| JoinLocking.KeyMoves | relay-uws/src/join_lock.h:149-162 | a well-formed link so signed by the tip's key is appended while there is room |
| JoinLocking.OwnerMoves | relay-uws/src/join_lock.h:163-187 | one so signed by the owner past the tip starts the chain anew |
| JoinLocking.TextNamesPayload | relay-uws/src/join_lock.h:103-107 | well-formed links have one signed text only if they say the same of the same server |
| JoinLocking.ShapeExactly | relay-uws/src/join_lock.h:71-101 | what the shape check lets through, field by field |
| JoinLocking.TipNeverFalls | relay-uws/src/join_lock.h:149-187 | over any run of puts the tip's number never falls and a different lock has a larger one |
| JoinLocking.LockHolds | relay-uws/src/join_lock.h:149-187 | over any run of puts a lock nobody can sign past stays as it is |
| JoinLocking.RecordHolds | relay-uws/src/join_lock.h:149-187 | so does a record's, through any put to the table |
| JoinLocking.KeyNames | relay-uws/src/join_lock.h:142-144 | a record's key names its server and, for a legacy id, its owner |
| JoinLocking.WrongOwnerExactly | relay-uws/src/join_lock.h:281-284 | refused whatever is stored: no links, or, under a legacy id, links that begin with an owner's one that the owner named did not sign; a self-certifying id asks for no name |
| JoinLocking.JoinLocks.Put | relay-uws/src/join_lock.h:275-303 | every chain held verifies under the owner its key names, the table stays within its budget, and a held chain only moves as above |
| Ledgers.Ledger.TotalExact | relay-uws/src/send_budget.h:328-331 | the total is the sum of the bytes the sockets hold |
| Ledgers.Ledger.Out | relay-uws/src/send_budget.h:178-198 | a socket's unsent bytes are as reported, and the victim order follows |
| Ledgers.TrickleIsNoProgress | relay-uws/src/send_budget.h:178-198 | over any run of reports in which what drains within half a window stays below the threshold, the socket stays as stale as it was |
| Ledgers.DrainIsProgress | relay-uws/src/send_budget.h:178-198 | reports within a minute that drain half of what is unsent, or 65536 bytes, are progress at one of them |
| Ledgers.OneDrainCounts | relay-uws/src/send_budget.h:178-198 | one report that drains as much is, and so is the first byte of an empty buffer |
| Ledgers.Ledger.In | relay-uws/src/send_budget.h:202-215 | a socket's inbound bytes are as reported, and the victim order follows |
| Ledgers.DribbleIsNoProgress | relay-uws/src/send_budget.h:202-215 | nor does a frame that comes in below the threshold count as moving, over any run of reports |
| Ledgers.ArrivalCounts | relay-uws/src/send_budget.h:202-220 | a new frame, a finished message or 65536 bytes more than marked are progress |
| Ledgers.TrickleAfterProgress | relay-uws/src/send_budget.h:182-196 | each report that counts starts the sum anew: a trickle after it, however long, leaves the socket at that moment |
| Ledgers.DribbleAfterProgress | relay-uws/src/send_budget.h:205-210 | after an inbound report that counts, none counts until 65536 bytes more have come |
| Ledgers.GrowthCounts | relay-uws/src/send_budget.h:205-210 | in any run of inbound reports, one that has filled 65536 more than an earlier one is preceded or met, after that one, by a report that counts |
| Ledgers.Ledger.Forget | relay-uws/src/send_budget.h:218-226 | the socket leaves every index |
| Ledgers.Ledger.WriteFits | relay-uws/src/send_budget.h:235-256 | a write that goes out keeps socket, budget and, past half the budget, share within their caps; each socket doomed for it was the stalest left of the share while the write did not fit, and none is doomed otherwise; it is refused there only when the receiver is next itself |
| Ledgers.Ledger.AdmitFanout | relay-uws/src/send_budget.h:272-285 | passes only within the limit, never closes the sender, refuses exactly what can never fit, and trips only when the sender is the stalest socket of the heaviest share |
| Ledgers.Ledger.OverBudget | relay-uws/src/send_budget.h:290-302 | ends within the limit and, past half of it, with each share within its cap; each socket closed was the stalest of the heaviest share |
| Ledgers.Ledger.FirstToGo | relay-uws/src/send_budget.h:373-384 | a socket of a share that holds as many bytes as any; a side of it that holds bytes moved no later than any that does of another socket of the share, and of two alike it holds no less |
| Ledgers.StalestExactly | relay-uws/src/send_budget.h:343-366 | the rank order is exactly that, on the sockets' own fields |
| Ledgers.ClosedIsStalest | relay-uws/src/send_budget.h:290-302 | each socket closed was no fresher than any of its share left at that moment |
| Ledgers.DoomedIsStalest | relay-uws/src/send_budget.h:235-258 | nor was each one doomed |
| Ledgers.Ledger.Settle | relay-uws/src/send_budget.h:410-424 | the charge, the share's total and the rank follow what the socket holds |
| Breakers.WaitReaches | relay-uws/src/breaker.h:138-166 | waiting `ms_until` brings the level to its target |
| Breakers.WaitIsLeast | relay-uws/src/breaker.h:156-160 | the wait it says is the least after which the level is reached |
| Breakers.JudgedExactly | relay-uws/src/breaker.h:514-519 | a frame is judged at its cost unless that is past what a full bucket keeps beside the reserve |
| Breakers.SumIsWindow | relay-uws/src/breaker.h:416-440 | the sum over the slots is exactly what was charged since the window began |
| Breakers.WithinBudget | relay-uws/src/breaker.h:105-107 | what a bucket that never went into debt spent in the window is at most its cap plus the refill over the window |
| Breakers.DefaultIsSane | relay-uws/src/breaker.h:69-102 | the limits every relay runs on meet what the results ask of limits |
| Breakers.Sum | relay-uws/src/breaker.h:424-431 | the loop adds up the slots of the window |
| Breakers.Account.Judge | relay-uws/src/breaker.h:522-530 | refills, then trips exactly on a missing join or on work the level cannot pay |
| Breakers.Account.ChargeFrame | relay-uws/src/breaker.h:534-539 | work and join buckets pay what the frame cost, and the window sees the same charge |
| Breakers.Account.PauseFor | relay-uws/src/breaker.h:729-756 | the pause is exactly the least wait, or a minute, plus the slack, or the cooldown when longer and the ladder steps; it steps exactly when the last ten parts of the window hold more than a full bucket and a window's refill, so never for a full payer without debt; after it a Work or Joins trip does not recur |
| Base58.EncodeFits | relay-uws/src/crypto.cpp:117-119 | 138 digits for every 100 bytes, and one, always suffice |
| Base58.DecodeFits | relay-uws/src/crypto.cpp:80-81 | 733 bytes for every 1000 digits, and one, always suffice |
| Base58.MulAdd | relay-uws/src/crypto.cpp:86-90 | the in-place carry loop multiplies and adds, keeping the value |
| Base58.PushDigit | relay-uws/src/crypto.cpp:121-128 | the carry left over is always zero, so dropping it loses nothing |
| Base58.AlphabetIs | relay-uws/src/crypto.cpp:72-73 | a digit's letter and a letter's value are its place in the 58-letter alphabet, and no other character has one |
| Base58.Encode | relay-uws/src/crypto.cpp:113-137 | the digits of the number the bytes write, and a `1` for each leading zero byte |
| Base58.Decode | relay-uws/src/crypto.cpp:77-98 | the bytes of the number the letters write, a zero byte for each leading `1`, nothing for a foreign character |
| Base58.DecodeUndoesEncode | relay-uws/src/crypto.cpp:77-137 | decoding undoes encoding on every byte string |
| Base58.EncodeUndoesDecode | relay-uws/src/crypto.cpp:77-137 | only one string stands for each byte string |
| Base58.PeerIdNamesKey | relay-uws/src/crypto.cpp:100-165 | every Ed25519 key's peer id names that key |
| Base58.KeyHasOnePeerId | relay-uws/src/crypto.cpp:100-165 | an id that names a key is that key's own |
| SnapshotSessions.SessionRoundTrip | relay-uws/src/snapshot_codec.h:306-406 | a session parses back from its record, and only its record parses to it |
| SnapshotBodies.ReadIsWritten | relay-uws/src/snapshot_codec.h:550-748 | for every version, what is read is exactly what would be written |
| SnapshotBodies.PrefixFree | relay-uws/src/snapshot_codec.h:550-748 | no snapshot is the front of another |
| SnapshotDatas.DecodeUndoesEncode | relay-uws/src/snapshot_codec.h:410-748 | decoding undoes encoding, no session dropped |
| SnapshotLayouts.EncodeIsLayout | relay-uws/src/snapshot_codec.h:306-546 | the bytes of every snapshot, field after field: each record's fields, the sections and columns, the tags and the version, in their order |
| SnapshotDatas.DecodePrefixFree | relay-uws/src/snapshot_codec.h:548-552 | every truncation and every extension is refused |
| SnapshotUpgrades.DecodedIsCanonical | relay-uws/src/snapshot_codec.h:550-748 | whatever any version from 1 to 11 decodes to can be written again |
| SnapshotUpgrades.UpgradeKeepsAll | relay-uws/src/snapshot_codec.h:20-34 | and then decodes to the same data with no session dropped |
| SnapshotWires.Writer.Number | relay-uws/src/snapshot_codec.h:226-242 | appends the number's bytes, the low one first |
| SnapshotWires.Reader.Number | relay-uws/src/snapshot_codec.h:247-272 | reads them back and moves on, or refuses |
| SnapshotWires.Reader.Str | relay-uws/src/snapshot_codec.h:279-286 | refuses a length past the bytes left or past the bound |
| SnapshotWires.ReadList | relay-uws/src/snapshot_codec.h:287-294 | a count, then so many records, refusing a count past the bytes left |
| SnapshotWires.WriteFrames | relay-uws/src/snapshot_codec.h:344-355 | one ring entry after another: a run's two numbers, or all fields of a frame |
| SnapshotWires.ReadFrames | relay-uws/src/snapshot_codec.h:391-402 | reads them back, refusing an index past the buffers |
| SnapshotWires.WriteSubscriptions | relay-uws/src/snapshot_codec.h:318-323 | one room after another, each with its topics |
| SnapshotWires.ReadSubscriptions | relay-uws/src/snapshot_codec.h:371-383 | reads them back by two nested loops |
| SnapshotWires.WriteSession | relay-uws/src/snapshot_codec.h:306-357 | writes the record the round trip is about, field by field |
| SnapshotWires.ReadSession | relay-uws/src/snapshot_codec.h:360-406 | parses exactly one record, field by field; a buffer index not below their number is refused |
| SnapshotWires.EncodeSnapshot | relay-uws/src/snapshot_codec.h:410-546 | writes the sections in their order |
| SnapshotWires.DecodeSnapshot | relay-uws/src/snapshot_codec.h:550-748 | reads the sections its version has, dropping only session records that do not parse |

## Left out

- Sockets, TLS, HTTP, timers, the fd store and logging: input and output only. Clocks and addresses are parameters.
- The JSON readers and writers of rosters and lock links: the model starts from the parsed values.
- `breaker::Distinct` and its estimate: whether a deposit reaches the count of strangers is part of `Breakers.Plan`.
- `breaker::CooldownBook`, `CleanSeen`, `StartPools`, `Allowance` and `Tally`: tables over the fair share with easier invariants. What a ladder step costs is a parameter of `PauseFor`.
- `send_budget::Recipients`, `predict` and `Ledger::stalled`: single-pass counts that would add easy members only.
- The queue and topic sides of `OfflineIndex`: the same charges without sharing.
- `RosterBook::restore`, `JoinLocks::restore` and `JoinLocks::get`: they repeat the filing path.
- `detail::book` of `session_bounds.h`, which rebuilds a session book found out of step: `SessionBooks.MakeRoom` takes the book to be in step with the table, so the rebuild is not modelled.
- Branches proved unreachable are not written: the fallback of `bury_over_pool` for a pool entry without a frame behind it, the missing-victim exits of `admit`, the refusal of a carry left over in `base58_decode`.
- `session_snapshot.h`, `kill_list.h`, `door_room.h`, `reports`, `conn_rate.h`, `link_guess.h`, `license_pool.h`, `ring_evict.h` and the other bounded tables: they repeat patterns shown here.
- Base58.Encode: `unsigned char` and `int` are natural numbers with their bounds as invariants, so machine overflow is ruled out rather than modelled.
- Rings.Ring.Push: 64-bit frame numbers are natural numbers; the stream is assumed to stay below 2^63 frames, as the source does.
- RosterMerge.MergeAssociates: stated while no ceiling cuts. Past one it fails: what a ceiling cuts is ranked by who stands, and that depends on what has met so far (`RosterLimits.MergeOrderMatters`).
- SnapshotWires.ReadList: takes a record other than a session's as the codec's value for it; only the session record is read field by field.
- SnapshotWires.EncodeSnapshot: likewise writes each record other than a session's as one value.
- SnapshotWires.DecodeSnapshot: records other than a session's, and the ring-metadata and share sections, are read as one value each, not by a loop per field.
