# The limit-order matching engine, its journal and its oracle, verified

This project models the single-threaded matching engine of `include/engine/`, the flat
reference implementation the repository tests it against, the command journal with its
CRC-32, replay, and the generator of the baseline workload, and proves what the
repository promises of them for every input and every run.

How it is laid out:

- `Types`, `Sequences`, `Matching`: the meaning of the engine. A book is one sequence of
  resting orders for each side, best first; `Step` is one command and `Run` a list of
  commands. `Step` takes the width in which the fill-or-kill pre-check adds up, because
  that is the one point where the engine (`Word32`) and the oracle (`Exact`) differ.
- `Invariant`: what every command keeps true of such a book.
- `Pool`, `PriceLevels`, `IdMap`: the three containers as classes over arrays, each proved
  against a ghost value (the free list and the freed handles, the levels in order, a map).
- `Linkage`, `Structure`, `LevelList`: how slots, links, levels and ids together represent
  a book, and the linked-list operations in place.
- `Book`: the engine as a class. Each command does to the arrays what the source does and
  is proved to do to the represented book what `Step(Word32, ...)` does. The hash is an
  arbitrary function and appears in no result, so no result depends on it.
- `Audit`: the engine's own structural check.
- `Oracle`: the flat reference as a class, proved to be `Step(Exact, ...)`.
- `Differential`: when the two agree over a whole run, as an if-and-only-if.
- `Sweeping`, `Histories`: what a sweep and a run amount to, said without following them.
- `Promises`: what each command promises, from prices, accounts and quantities alone. Engine
  and oracle are proved against one specification; this module fixes what that specification
  means without using its own predicates.
- `Bytes`, `Crc`, `Journal`, `JournalIo`, `Replay`: the journal format as functions on
  byte sequences, the encoder and reader that work through positions in a buffer, and replay.
- `Format`: the layout byte by byte, the status of any bytes, and known values.
- `Workload`: the generator with its dense list and swap-removal.

Main results:

- **The engine refines the oracle over every run, exactly as far as it does.** For every
  capacity, hash and command list, running both side by side (`Differential.RunBoth`)
  finds no difference in outcomes, trades, snapshots or structure if and only if no command
  meets one condition that can be checked before it runs: a fill-or-kill order whose
  liquidity sums to 2^32 or more and wraps below the quantity asked for
  (include/engine/book.hpp:395 adds up in 32 bits, tests/support/oracle.hpp:156 in 64).
  `WrapKillsAFillableOrder` is a concrete instance: the specification of fill-or-kill is
  not met by the code there, and the code is modelled as it is.
- **The structural check is exact.** `invariant_violation` finds nothing if and only if
  slots, links, levels and id map represent some book and the free list ends and holds all
  other slots (`Audit.InvariantViolation`); that book is unique (`Audit.OneBook`), and after
  every command of every run there is nothing to find (`Audit.RunChecked`).
- **Backward-shift deletion keeps a probing table a map**, for any hash (`IdMap.Map.Erase`).
- **Every damage within 32 consecutive bits is caught** wherever it lies in a record after
  the kind byte (`Journal.DamagedRecord`), from injectivity of the CRC step and a residue
  argument that treats message and checksum as one string.
- **Replaying a journal cut anywhere is the live run of a prefix** (`Replay.ReplayIsLivePrefix`),
  and for arbitrary bytes cutting at `valid_bytes` replays to the same book with status End.
- **Every command does what its time in force, limit and account promise**: acceptance, trades
  within the limit, what stops a sweep, what rests and what stays untouched (`Promises`).
- **Conservation, time priority, numbering and greedy matching over whole runs**
  (`Histories`, `Sweeping`).

## Model

| member | source | states |
|---|---|---|
| Book.Book.constructor | include/engine/book.hpp:37-41 | A new engine of any capacity and with any hash function satisfies the full invariant and represents the empty book. |
| Book.Book.Apply | include/engine/replay.hpp:32-55 | One command of any kind keeps the full invariant and yields exactly the state and outcome (flags, resting quantity, trades) of the pure specification, whatever the hash. |
| Book.Book.AddLimitOrder | include/engine/book.hpp:87-130 | A limit order of any time in force equals the specified add: rejection, 32-bit fill-or-kill pre-check, sweep, self-match stop, resting or pool exhaustion. |
| Book.Book.AddMarketOrder | include/engine/book.hpp:146-168 | A market order sweeps with no price bound and never rests. |
| Book.Book.ModifyOrder | include/engine/book.hpp:188-226 | A modify equals the specified one: reduce in place, reject what would cross, else move behind every order at the new price; id map and generations are unchanged, so every handle stays good. |
| Book.Book.CancelOrder | include/engine/book.hpp:230-248 | A cancel removes exactly the named order, or reports that none rests; the stale-handle guard is proved unreachable. |
| Book.Book.Cross | include/engine/book.hpp:350-382 | The nested loops terminate and do exactly what the recursive sweep over the opposite side says: trades, makers left, quantity left, self-match flag. |
| Book.Book.SweepLevel | include/engine/book.hpp:356-377 | The inner loop is the part of that sweep within the best level. |
| Book.Book.FillOne | include/engine/book.hpp:357-376 | One fill is the first trade of the sweep, and the rest of the sweep starts where it leaves the book; either an order goes or the taker's quantity falls. |
| Book.Book.AvailableBeforeSelfTrade | include/engine/book.hpp:393-408 | The pre-check returns the true liquidity before the price bound or an own order, modulo 2^32. |
| Book.Book.Rest | include/engine/book.hpp:418-429 | An order rests exactly when the pool has room, at its place by price and arrival; otherwise nothing is left behind, not even the level made for it. |
| Book.Book.Reposition | include/engine/book.hpp:215-224 | Unlinking and appending again is removal and insertion at the new place, including in the same level or when it empties its only level. |
| Book.Book.WouldCross | include/engine/book.hpp:433-436 | Looking at the best opposite level decides whether the price would trade with the best opposite order. |
| Book.Book.Snapshot | include/engine/book.hpp:276-281 | Following the levels and links yields every resting order: bids best first, then asks best first. |
| LevelList.LevelAppend | include/engine/level.hpp:20-30 | Appending in place is linking the order in behind all orders at its price; the level's ends follow. |
| LevelList.LevelUnlink | include/engine/level.hpp:39-57 | Unlinking in place joins the neighbours, resets the order's own links and moves the level's ends. |
| LevelList.AvailableIn | include/engine/book.hpp:395-407 | The walk over levels and orders adds up the specified liquidity in a 32-bit word. |
| LevelList.AppendSide | include/engine/book.hpp:337-345 | The walk over a side appends exactly its orders in priority order. |
| Linkage.UnthreadKeepsThreads | include/engine/level.hpp:39-57 | After unlinking any order, every remaining slot holds its order with correct links both ways. |
| Linkage.ThreadKeepsThreads | include/engine/level.hpp:20-30 | After linking an order in, every slot holds its order with correct links both ways. |
| Linkage.LevelsFit | include/engine/book.hpp:35-41 | There are never more non-empty levels than orders, so an array of capacity + 1 levels does not overflow. |
| Linkage.NextLevelFollows | include/engine/price_levels.hpp:57-60 | Behind the last order of a level comes the first order of the next rank, and behind the last rank nothing. |
| Structure.MappedIffRests | include/engine/book.hpp:92-92 | An id is in the id map exactly when an order with it rests. |
| Invariant.StepKeepsValid | include/engine/book.hpp:284-288 | Every command leaves a valid book valid: sorted, no zero quantity, distinct ids, within capacity and never crossed, also after self-match stops, exhaustion and rejected modifies. |
| Invariant.RunKeepsValid | include/engine/book.hpp:284-288 | The same over every run, and each command takes one sequence number. |
| Invariant.SweepLeavesTail | include/engine/book.hpp:350-382 | A sweep leaves a tail of the makers whose head alone may have lost quantity, and stops short of the price bound only if filled or self-matched. |
| Audit.InvariantViolation | include/engine/book.hpp:289-298 | No violation is found if and only if slots, links, levels and id map represent some book that is not crossed, and the free list ends and holds every other slot; cyclic and incomplete free lists included. |
| Audit.CountsDecide | include/engine/book.hpp:294-296 | Once both sides are found, the two counts are right if and only if the id map and the pool hold exactly the linked orders and the free list exactly the other slots. |
| Audit.CheckSide | include/engine/book.hpp:304-334 | No violation on a side if and only if it is a threaded, strictly ordered side with no empty level whose orders the id map names. |
| Audit.CheckLevel | include/engine/book.hpp:309-331 | The walk of one level ends, and passes if and only if the level is a run of fitting orders with the right tail. |
| Audit.CheckOrder | include/engine/book.hpp:315-327 | An order passes if and only if links, side, price, quantity, sequence number and id map entry are right. |
| Audit.CountsTell | include/engine/book.hpp:294-296 | The two counts are right exactly when id map and pool hold nothing but the visited orders. |
| Audit.ValidIsRepresented | include/engine/book.hpp:283-298 | The structures of every valid engine represent its book, so the check is silent in every reachable state. |
| Audit.OneBook | include/engine/book.hpp:283-298 | The structures never represent two different books. |
| Audit.RepresentedIsOk | include/engine/book.hpp:283-298 | A represented book is sorted, has distinct ids and positive quantities and is not crossed. |
| Audit.RunChecked | include/engine/book.hpp:283-298 | For every capacity, hash and command list, the check finds nothing before the first command and after every one, hazards included. |
| Pool.FixedPool.constructor | include/engine/pool.hpp:54-58 | All slots of a new pool are free and in the free list. |
| Pool.FixedPool.Allocate | include/engine/pool.hpp:63-69 | Allocation fails exactly when every slot is in use; otherwise the handle is live, its slot was free, and no live handle has that index. |
| Pool.FixedPool.FreeSlot | include/engine/pool.hpp:75-81 | A live handle's slot is freed and its handle retired; other live handles stay live; a handle that does not validate changes nothing; one that validates for a free slot closes the free list to a circle, and exactly then the pool is broken. |
| Pool.FixedPool.StaleValidatesOnlyAfterWrap | include/engine/pool.hpp:90-93 | A freed handle validates again if and only if its slot was freed a multiple of 2^32 times since, so never within 2^32 frees. |
| Pool.FixedPool.FreeSlots | include/engine/pool.hpp:112-121 | The walk returns the length of the list if the list ends and capacity + 1 if it does not, in a 32-bit count that does not overflow. |
| Pool.CountStopsIff | include/engine/pool.hpp:115-121 | With a 32-bit count the walk stops if and only if the capacity is below 4294967295 or the list ends: at that capacity a cycle is followed forever. |
| Pool.PopFree | include/engine/pool.hpp:63-69 | The free list without its head is again distinct and exactly the free slots. |
| Pool.PushFree | include/engine/pool.hpp:75-81 | A freed slot in front of the free list keeps it distinct and exactly the free slots. |
| Pool.PushTwice | include/engine/pool.hpp:75-81 | Freeing a free slot again leaves links that never end. |
| IdMap.Map.constructor | include/engine/id_map.hpp:29-34 | The table is the smallest power of two of slots, from 2 on, that is at least twice the entries. |
| IdMap.Map.Find | include/engine/id_map.hpp:36-42 | Probing ends and returns what the map holds for the id, absent ids included. |
| IdMap.Map.Insert | include/engine/id_map.hpp:49-56 | Insertion adds exactly one entry and keeps every entry reachable. |
| IdMap.Map.Erase | include/engine/id_map.hpp:62-80 | Deletion with wrap-around removes exactly the id, says whether it was there, and keeps every other entry reachable by probing from its home. |
| IdMap.Map.ShiftBack | include/engine/id_map.hpp:69-77 | The backward-shift loop ends and closes the hole with no entry lost, doubled or unreachable. |
| IdMap.FillHole | include/engine/id_map.hpp:72-75 | Moving an entry whose probe path crosses the hole keeps the table good but for the new hole. |
| IdMap.SkipEntry | include/engine/id_map.hpp:72-72 | Leaving an entry that the hole does not cut off keeps the table good but for the hole. |
| IdMap.CloseHole | include/engine/id_map.hpp:69-77 | At the end of the run clearing the hole leaves a good table. |
| IdMap.CircleIsModulo | include/engine/id_map.hpp:72-72 | Successor and distance on the circle of slots are the masked sums and differences. |
| PriceLevels.Levels.Lower | include/engine/price_levels.hpp:115-118 | Binary search finds where the price sits or belongs. |
| PriceLevels.Levels.Find | include/engine/price_levels.hpp:62-65 | The level at the price is found if and only if there is one. |
| PriceLevels.Levels.GetOrInsert | include/engine/price_levels.hpp:87-96 | The levels are as before, or the same with one empty level more in its place; strict best-first order is kept on both sides. |
| PriceLevels.Levels.Erase | include/engine/price_levels.hpp:99-104 | Exactly the level at the price goes; order is kept. |
| PriceLevels.Levels.PopBest | include/engine/price_levels.hpp:51-54 | Exactly the best level goes. |
| Oracle.Oracle.Submit | tests/support/oracle.hpp:164-199 | The flat list with its scans does exactly the specified add, with an unbounded fill-or-kill sum. |
| Oracle.Oracle.Modify | tests/support/oracle.hpp:80-95 | The flat list does exactly the specified modify. |
| Oracle.Oracle.Cancel | tests/support/oracle.hpp:68-74 | The flat list does exactly the specified cancel. |
| Oracle.Oracle.Snapshot | tests/support/oracle.hpp:100-110 | The sorted flat list is bids best first, then asks best first. |
| Oracle.Oracle.BestOpposite | tests/support/oracle.hpp:135-144 | The scan finds the best candidate, or none if and only if there is none. |
| Oracle.BestIsHead | tests/support/oracle.hpp:135-144 | What a full scan finds best is the first order of the opposite side, if that is within the bound. |
| Oracle.Oracle.FillableBeforeSelfTrade | tests/support/oracle.hpp:148-162 | Collecting, sorting and adding up gives the true liquidity before the bound or an own order. |
| Oracle.SortIsUnique | tests/support/oracle.hpp:100-110 | Orders have one sorted sequence, so the sorting algorithm does not matter. |
| Differential.StepsAgreeIff | include/engine/book.hpp:95-100 | A command does the same on engine and oracle without the hazard, and shows different outcomes with it. |
| Differential.RunsAgreeIff | tests/support/diff.hpp:81-150 | Engine and oracle give a whole run the same outcomes if and only if no command of it meets the hazard; then the books agree too. |
| Differential.RunBoth | tests/support/diff.hpp:81-150 | Running both and comparing outcomes, structure and snapshots after each command reports nothing if and only if there is no hazard, and otherwise the first command that meets it. |
| Differential.SameState | tests/support/diff.hpp:124-150 | The state comparison never fails on structure and passes exactly when the resting orders are the same. |
| Differential.WrapKillsAFillableOrder | include/engine/book.hpp:395-403 | With asks of 4294967295 and 2, a fill-or-kill buy of 5 is killed by the engine and filled by the oracle. |
| Differential.TwoAsksRest | include/engine/book.hpp:87-130 | That book is reached by two ordinary limit orders. |
| Sweeping.TradesAreGreedy | include/engine/book.hpp:356-377 | Trade i is with maker i, at its price, for all of it or what the taker still lacks, within the longest marketable run before an own order. |
| Sweeping.SweepGoesOn | include/engine/book.hpp:352-356 | The sweep ends only when the taker is filled or that run is exhausted. |
| Sweeping.MakersLeft | include/engine/book.hpp:366-379 | The makers left are the unconsumed suffix with at most its head reduced. |
| Sweeping.QuantityLeft | include/engine/book.hpp:352-381 | The quantity left and the self-match flag, in closed form. |
| Sweeping.FillableIsReach | include/engine/book.hpp:393-408 | The pre-check adds up exactly what the sweep can reach. |
| Sweeping.SweepConserves | include/engine/book.hpp:362-367 | What the taker got is what the makers gave. |
| Sweeping.FillOrKill | include/engine/book.hpp:72-104 | A passed pre-check, even a wrapped one, means a complete fill with no self-match stop; a failed one changes only the sequence counter. |
| Sweeping.KilledRightly | include/engine/book.hpp:94-104 | The engine fills if and only if enough is within reach, exactly when the sum does not wrap below the quantity; filling is always justified. |
| Promises.AcceptedIff | include/engine/book.hpp:87-248 | Which commands are accepted, for every kind: adds with a quantity and a fresh id, cancels of a resting id, modifies with a quantity of a resting id at a price strictly beyond every opposite order. |
| Promises.RejectedChangesNothing | include/engine/book.hpp:92-92 | A command that is not accepted changes the sequence counter alone. |
| Promises.TradesWithinLimit | include/engine/book.hpp:113-119 | No trade is beyond the taker's limit price or with its own account; a market order has no limit. |
| Promises.TakesWhatItMay | include/engine/book.hpp:350-382 | Trades, quantity traded and self-match flag of every order that is not killed, from the makers' prices, accounts and quantities alone. |
| Promises.LeavesNothingItMayTake | include/engine/book.hpp:350-382 | An order that still lacks quantity leaves nothing it may trade with: a market order an empty side, a limit order only prices beyond its limit, unless an own order is in front, and exactly then it is stopped. |
| Promises.FillsOrKills | include/engine/book.hpp:94-104 | A fill-or-kill order fills if and only if what it may take, summed modulo 2^32 (exactly, for the oracle), is enough; otherwise only the sequence counter moves. |
| Promises.RestsIff | include/engine/book.hpp:121-129 | Something rests, or the pool is reported full, if and only if an accepted, unstopped good-till-cancelled limit order lacks quantity, decided by the room left; no other order rests. |
| Promises.RestsInPlace | include/engine/book.hpp:418-429 | What rests is one more order with the quantity lacking and the command's number; the rest of its side is unchanged. |
| Promises.NewIdsAreResting | include/engine/types.hpp:19-24 | No command but a good-till-cancelled limit order that rests brings an id into the book. |
| Promises.CancelTakesOne | include/engine/book.hpp:230-248 | An accepted cancel takes out the order with that id and nothing else. |
| Promises.ModifyChangesOne | include/engine/book.hpp:202-225 | An accepted modify sets price and quantity of one order, gives it a new number unless it stays at its price with no more quantity, and changes nothing else. |
| Promises.PriceThenTime | include/engine/book.hpp:271-276 | In every valid book higher bids and lower asks come first, at one price the earlier, and every bid is below every ask. |
| Histories.RunNumbers | include/engine/book.hpp:228-231 | Command i takes number i whatever its outcome, its trades carry that number, and trade ids are consecutive over the run. |
| Histories.AddConserves | include/engine/book.hpp:113-129 | An add's quantity is traded, rests or is dropped, and nothing is dropped from an accepted good-till-cancelled order unless a flag says so. |
| Histories.StepConserves | include/engine/book.hpp:87-248 | One command changes the resting quantity by what rested, less what traded, less what was cancelled, plus what a modify changed. |
| Histories.RunConserves | include/engine/book.hpp:87-248 | The same balance over every run. |
| Histories.StepContinues | include/engine/book.hpp:202-224 | An order that no accepted modify sends to the back keeps price, side and sequence number while it rests and never gains quantity; rejected modifies do not matter. |
| Histories.RunKeepsPriority | include/engine/book.hpp:202-224 | Of two orders at one price the one in front stays in front over any run while both rest and neither is repositioned by an accepted modify. |
| Histories.RepositionedGoesLast | include/engine/book.hpp:215-224 | An accepted modify that loses priority puts the order behind every order already at its price. |
| Histories.ModifyIsCancelAndAdd | include/engine/book.hpp:202-224 | A modify that loses priority gives the book of cancel and resubmit, up to the sequence number, with no trade. |
| Crc.MakeTable | include/engine/journal.hpp:27-35 | Entry i of the table is eight register steps from i. |
| Crc.Crc32 | include/engine/journal.hpp:64-68 | The table-driven CRC-32 of any bytes equals the bit-at-a-time definition (section 8 of RFC 1952). |
| Crc.UpdateIsEightBits | include/engine/journal.hpp:66-66 | One table look-up is absorbing the eight bits of a byte. |
| Crc.BurstChangesRegister | include/engine/journal.hpp:64-68 | Messages that differ only within 32 consecutive bits and leave the same register are equal. |
| Crc.FitsIffResidue | include/engine/journal.hpp:64-68 | A checksum fits its message if and only if the register over both together ends at one constant. |
| Crc.BurstIsDetected | docs/adr/ADR-010-journal-format.md:64-66 | Two messages with fitting checksums that differ only within 32 consecutive bits, across the boundary too, are equal. |
| Crc.CheckValue | tests/unit/test_journal.cpp:117-122 | The checksum of the digits 1 to 9 is 0xCBF43926 and that of nothing is 0. |
| Crc.ResidueValue | include/engine/journal.hpp:27-35 | The residue is 0xDEBB20E3, that of the CRC-32 of zlib and Ethernet. |
| Journal.ReadWrittenRecord | include/engine/journal.hpp:150-188 | An encoded command followed by anything reads back as its canonical form and exact length. |
| Journal.ReadsExactlyEncodings | include/engine/journal.hpp:150-188 | A record reads as a command if and only if the data starts with the encoding of that canonical command: decoding is unique. |
| Journal.ReadCutRecords | include/engine/journal.hpp:150-188 | For every command list and every cut the reader returns the maximal run of whole records, the last record boundary, and End on a boundary or Truncated otherwise. |
| Journal.GoodPartIsRecords | include/engine/journal.hpp:125-130 | For arbitrary bytes the part up to valid_bytes is the encoding of the commands read, and the record there is the one that stopped it. |
| Journal.CutAtValidReadsClean | include/engine/journal.hpp:125-130 | Cutting arbitrary bytes at valid_bytes reads the same commands with status End. |
| Journal.DamagedRecord | docs/adr/ADR-010-journal-format.md:64-66 | A good record altered within any 32 consecutive bits after its kind byte reads as BadChecksum. |
| Journal.DamagedHeader | docs/adr/ADR-010-journal-format.md:64-66 | A good header altered within any 32 consecutive bits does not open; it reads as BadField if the magic was hit and as BadChecksum otherwise. |
| Journal.OpensExactlyHeaders | include/engine/journal.hpp:135-145 | A header opens with a capacity if and only if the data starts with the header encoded for it. |
| Journal.WordIsNumber | include/engine/journal.hpp:39-47 | Writing a checksum word byte by byte is writing its number in little-endian form, and reading four bytes as a word or as a number is the same. |
| Format.RecordLayout | docs/adr/ADR-010-journal-format.md:21-26 | Length, kind byte, position and value of every field of every kind of record, little-endian and in two's complement, and the checksum behind them. |
| Format.FourBytes | include/engine/journal.hpp:43-47 | Numbers are stored with the lowest byte first. |
| Format.StatusIff | include/engine/journal.hpp:150-188 | For any bytes: End if and only if there are none, BadKind if the first is not 1 to 4, Truncated if fewer are left than the kind needs, BadChecksum if the checksum does not fit, BadField if it does and a side or time-in-force byte is out of range. |
| Format.ReplayStatusIff | include/engine/replay.hpp:146-151 | Replay reports the status of the bytes at which the good part ends. |
| Format.OpenIff | include/engine/journal.hpp:135-145 | What opening reports for any bytes: length, magic letters, checksum, version and capacity. |
| Format.UnusedAreDefaults | include/engine/command.hpp:14-21 | Fields a record does not store read back as a new command has them. |
| Format.KnownHeader | tests/unit/test_journal.cpp:45-47 | The 20 bytes of the header for capacity 65536. |
| Format.KnownRecord | tests/unit/test_journal.cpp:57-58 | The 13 bytes of the record of a cancel of the largest id. |
| JournalIo.EncodeTo | include/engine/journal.hpp:80-114 | The encoder writes exactly the record and returns its length, at most 31. |
| JournalIo.EncodeHeaderTo | include/engine/journal.hpp:72-77 | The header encoder writes exactly the 20 header bytes. |
| JournalIo.GetAt | include/engine/journal.hpp:43-47 | The loop reads the little-endian number at a position. |
| JournalIo.Reader.Open | include/engine/journal.hpp:135-145 | The reader accepts and refuses headers as specified and starts behind them. |
| JournalIo.Reader.Next | include/engine/journal.hpp:150-188 | The reader returns the specified reading at its position and moves past a good record only. |
| Replay.Replay | include/engine/replay.hpp:137-154 | Replaying any bytes gives the outcomes, status, valid bytes and book of running the commands read on a fresh book of the recorded capacity. |
| Replay.RunCanonical | include/engine/command.hpp:3-5 | The fields a record does not store never matter to any run. |
| Replay.ReplayIsLivePrefix | include/engine/replay.hpp:133-154 | Replaying a journal cut anywhere equals the live run of exactly the commands whose records are whole, or is refused as truncated if the header is not whole. |
| Replay.ReplayAgain | include/engine/replay.hpp:133-154 | For arbitrary bytes with a good header, cutting at valid_bytes and replaying gives the same outcomes and book with status End. |
| Replay.ReplayStopsAtDamage | include/engine/replay.hpp:133-154 | With a record damaged within 32 bits, replay yields exactly the run before it and reports BadChecksum at its start. |
| Workload.Shadow.Forget | bench/workload.hpp:107-114 | Swap-removal keeps the list and its index a bijection and forgets exactly one id. |
| Workload.TakeTrades | bench/workload.hpp:143-147 | After the trades of an add the shadow holds exactly the quantities the swept book holds. |
| Workload.Emit | bench/workload.hpp:120-155 | Each command is what the draws say: a cancel of the drawn live order if the draw falls within the share of cancels, else the drawn limit order with the next id; the book accepts it and the shadow stays equal to the book. |
| Workload.Generate | bench/workload.hpp:93-157 | The output is the workload that the draws determine over the run of the book; every command succeeds on a fresh book of that capacity; ids, accounts, quantities and prices are as stated, and with fewer than 2^32 commands no self-match ever stops one. |
| Workload.DrawLimit | bench/workload.hpp:131-140 | Side, rank, price, quantity, id and account as functions of three draws; no price overflows. |
| Workload.ZipfCdf | bench/workload.hpp:83-91 | The table holds the cumulative weights and increases strictly, in 64 bits and with a 32-bit counter that do not overflow. |
| Workload.CounterPassesIff | bench/workload.hpp:86-89 | The 32-bit loop counter gets past the size, and the loop ends, if and only if the size is below 4294967295. |
| Workload.WeightBound | bench/workload.hpp:81-82 | The weights of up to 2^e ranks sum to at most 2^40 (e + 1), so the total is far below 2^64. |
| Workload.SpanHoldsIff | bench/workload.hpp:50-57 | Every price that can be drawn lies within max_offset of the middle if and only if cross_shift is at most max_offset + 1. |
| Workload.SpanFails | bench/workload.hpp:50-57 | With max_offset 1 and cross_shift 3 every buy lands at mid + 2, outside the span. |
| Workload.PricesFitIff | bench/workload.hpp:135-136 | No price of any rank overflows if and only if those of the first and the last rank do not. |
| Workload.LiveRest | bench/workload.hpp:122-123 | Exactly as many ids are live as orders rest, so the cancel probability is computed without overflow. |
| Workload.CancelShare | bench/workload.hpp:57-59 | With target_resting orders live the share of cancels is cancel_percent, capped at nine in ten; it grows with the number live and is 0 for none. |
| Workload.RunNeverStops | bench/workload.hpp:139-140 | In any run in which every new order has its id as its account, no self-match ever stops a command. |
| Workload.UpperBound | bench/workload.hpp:134-134 | Binary search finds the first entry above the draw. |

## Left out

- `journal::Writer` and `journal::load`: file input and output, flushing and syncing.
- Text formatting in replay (`line`, `append_events`, `serialize_book`): structured outcomes, trades and snapshots are compared instead.
- Damage to a record's kind byte that makes it another valid kind: the length changes, and the design claims only overwhelming probability (docs/adr/ADR-010-journal-format.md:69-73).
- Deleted or reordered journal records: not detected by design (docs/adr/ADR-010-journal-format.md:85-88).
- The mixing constants of the id hash and of the random generator: the hash is an arbitrary function, the draws an arbitrary stream.
- Benchmark timing, allocation counters, charts, shell tools, heap and cache claims: not functional properties.
- Exhaustion of the 64-bit sequence and trade counters and of the oracle's 64-bit sum: these are natural numbers here. 32-bit wrap-around is modelled for the fill-or-kill sum, the slot generations, the count of free slots and the generator's loop counter.
- By-value overloads, getters and the reuse of result buffers: an add returns its outcome as one value.
- `std::sort`, `std::lower_bound`, `std::upper_bound` and `std::copy` are modelled by insertion sort (its result is unique), binary search and loops.
- The handle's packing into 64 bits: a handle is a pair of index and generation; the nil index is outside every pool, so no minted handle is the invalid one.
- Audit.InvariantViolation: asks that the id map's table is well formed in itself and that links of free slots lead to free slots or nowhere, since the source reads the inactive member of the union or beyond the array otherwise; an order link that leads to a free slot counts as a violation for the same reason. At capacity 4294967295 it also asks that the free list ends, because the source does not return otherwise (`Pool.CountStopsIff`).
- Workload.Generate: asks what the source needs to be defined: a max_offset below 4294967295 (the table's loop does not end there, `Workload.CounterPassesIff`), and, unless no command is asked for, positive max_offset, max_qty and target_resting and prices of the first and last rank that fit 64 bits (`Workload.PricesFitIff`).
- Oracle.Oracle.Submit: the capacity of the oracle is a natural number.
- Where comment and code differ: bench/workload.hpp:50 promises prices within max_offset of the middle, which holds exactly under the condition of `Workload.SpanHoldsIff`; the model follows the code.
- Where comment and code differ: include/engine/book.hpp:75-86 promises fill-or-kill by the liquidity on offer, while the code adds it up in 32 bits. The model follows the code.
