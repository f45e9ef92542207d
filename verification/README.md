# Verified models of the SQLite core behind doltlite

This project models eight stateful algorithms of the doltlite source tree and proves what
they are for. The C code is not run here; every statement is checked by the Dafny verifier
(`dafny verify dfyconfig.toml`).

| modules | source | what is modelled |
|---|---|---|
| RunCounts, Stat4, Stat4Insert, Stat4Cover, Stat4Accum, Stat4Rows, StatText | analyze.c | the one-pass STAT4 sampler with its deferred counts, and the text form of its results |
| BackupImage, Backup, BackupCommit, BackupRun, BackupSchedule | backup.c | online backup between databases of different page sizes, under any interleaving with writes to the source |
| BtreeMutex, BtreeCode | btmutex.c | the try / release later locks / reacquire protocol, interleaved over any number of connections, and the loops of one connection that follow it |
| ProbeTable, Bitvec | bitvec.c | the self-converting bit set: bitmap, probing hash, radix tree |
| LalrTables, LalrStack, LalrMachine, LalrDriver | lempar.c | the table-driven parser with fallback, wildcard, fused shift-reduce and a growing stack |
| LalrPlain, LalrExample | tool/lemon.c | the compression of the parsing tables, and tables it writes |
| ChunkMerge, ChunkIndex, ChunkRead | chunk_index.c, prolly_hash.c | the sorted content-address index: search, the two merges, reading it from a file |
| RenameText, RenameEdit | alter.c, util.c | editing the tokens of an SQL statement in place |
| IndexColumns, WithoutRowid, ColumnMap, DestroyTable, Affinity, CreateStmt, CreateRead | build.c | schema transformations |

`Arith` holds what the others share: an optional value, bytes, and a few facts about division and sets.

How to read the models: an object that the C code updates in place is a class with the same
fields; a loop of the C code is a loop here. Beside each class stands a specification on
values (sets, sequences, rows, trees) that does not mention the fields, and the methods are
proved against it. Ghost parameters carry only what a proof needs.

- **Sampler.** The sampler never sees whole rows; it is told which column changed first. The
  history of those calls (`chg`) determines runs of rows that share a prefix. A count of 0 in
  a retained sample means that its run is still open. `Stat4Rows` ties runs back to the rows.
- **Backup.** A database is a byte sequence. `Synced` says which bytes already agree;
  `Complete` is what a finished backup promises. A handle's `dest` is what its own connection
  sees, and `committed` what a rollback brings back.
- **Mutexes.** A state has a program counter for each connection; a step is one mutex
  operation of one connection. Theorems range over all reachable states and all schedules.
- **Parser.** The tables are parameters. `Valid` relates them to a grammar through a
  certificate: for each state, what is known about the stack below it. Where the generator
  leaves out a rule with one symbol and no code, the symbol below stands for the one above,
  and derivations put the rule back. `Encodes` says that tables are what the generator writes
  for a plain automaton. `LalrExample` has tables that meet both.

## Model

| member | source | states |
|---|---|---|
| Stat4Rows.AnalyzeIndex | doltlite-src/src/analyze.c:558-779 | for every strictly sorted index, each sample that comes back has anEq, anLt and anDLt equal to the number of rows with its prefix, of rows below it, and of distinct prefixes below it, and carries its own row's rowid; samples are in row order, at most mxSample; with q = mxSample/3, row r is kept as a periodic sample exactly if r + 1 is a multiple of nEst/(q+1) + 1, so that as many consecutive rows contain one, and if nEst is the number of rows and at least q(q+1), exactly q samples are periodic; if the array never filled, every proper prefix of every row has a sample |
| Stat4Rows.PeriodicSamples | doltlite-src/src/analyze.c:460-460 | which rows are periodic samples, how many, and how far apart |
| Stat4.FullShare | doltlite-src/src/analyze.c:460-460 | with the period as chosen, an estimate that is right and not tiny gives exactly mxSample/3 periodic rows |
| Stat4Rows.CountIsSamePrefix | doltlite-src/src/analyze.c:267-281 | the length of a run, computed from the changed-column history alone, is the number of rows with the same prefix |
| Stat4Rows.StartIsLowerRows | doltlite-src/src/analyze.c:267-281 | where a run starts is the number of rows with a smaller prefix |
| Stat4Rows.RunsBeforeIsLowerPrefixes | doltlite-src/src/analyze.c:267-281 | the runs before a run are as many as the distinct smaller prefixes |
| Stat4Rows.PrefixOrder | doltlite-src/src/analyze.c:1160-1215 | of two rows the later has an equal prefix if no row between changed a column of it, and otherwise a greater one |
| Stat4Rows.FirstChanged | doltlite-src/src/analyze.c:1160-1197 | the scan loop reports the first column in which a row differs from the one before |
| Stat4Rows.DistinctPrefixes | doltlite-src/src/analyze.c:868-878 | the divisor of each stat1 estimate is the number of distinct prefixes in the index |
| Stat4.RetainedAppend | doltlite-src/src/analyze.c:671-743 | a retained sample whose runs from the changed column on are closed keeps its exactness when the next row arrives, including the meaning of its zeros |
| Stat4.CandidateAppend | doltlite-src/src/analyze.c:766-772 | a best candidate that was not overtaken still is the last row of a finished longer run or the current row, and still has the most frequent longer prefix of its run |
| Stat4.BetterIsDominant | doltlite-src/src/analyze.c:511-525 | a row preferred by sampleIsBetterPost has a prefix at least as frequent as any in the open run |
| Stat4.CurrentBeats | doltlite-src/src/analyze.c:766-772 | a row that continues the run of the candidate just before it is preferred to that candidate |
| Stat4.NewRanksAbove | doltlite-src/src/analyze.c:580-590 | the assertions of sampleInsert: an older open sample has a larger iCol and ranks below the new one |
| Stat4.UpgradedIsRetained | doltlite-src/src/analyze.c:591-595 | raising the priority of an older sample leaves all its counts right |
| Stat4.NewComesLast | doltlite-src/src/analyze.c:614-618 | with no older sample in the run the new one lies after all others, as the source asserts |
| Stat4.BetterTransitive | doltlite-src/src/analyze.c:535-552 | sampleIsBetter is transitive, so best and least do not depend on the order of comparison |
| Stat4.BetterMeans | doltlite-src/src/analyze.c:511-552 | the order of preference spelled out: the more frequent own prefix, then the shorter one, then the first longer prefix that differs, then the hash |
| Stat4.PeriodicRowsFit | doltlite-src/src/analyze.c:460-460 | with nPSample as chosen, at most mxSample/3 rows are periodic, so they never fill the array |
| Stat4.PeriodicRowsCount | doltlite-src/src/analyze.c:757-759 | n rows have exactly n / nPSample periodic ones |
| Stat4Insert.FindUpgrade | doltlite-src/src/analyze.c:572-590 | finds a periodic sample of the open run if there is one, else one that no other open sample beats, else nothing |
| Stat4Insert.FindNewMin | doltlite-src/src/analyze.c:629-639 | in a full array iMin becomes a non-periodic sample that beats no other; there always is one |
| Stat4Insert.Inserted | doltlite-src/src/analyze.c:571-626 | nothing changes if a periodic sample covers the run; else the best older sample is upgraded; else the new one is appended, in place of iMin if the array was full; all counts stay right and no periodic sample is lost |
| Stat4Insert.InsertInto | doltlite-src/src/analyze.c:571-640 | the array and iMin after sampleInsert |
| Stat4Cover.CoverInsert | doltlite-src/src/analyze.c:558-640 | while there is room, the run a sample was offered for is represented afterwards and no represented run is lost |
| Stat4Cover.CoverAppend | doltlite-src/src/analyze.c:650-661 | the next row ends exactly the runs whose candidates were offered |
| Stat4Accum.StatAccum.constructor | doltlite-src/src/analyze.c:401-478 | the accumulator starts empty and valid, the tie-break hash at the mix of its arguments |
| Stat4Accum.StatAccum.StatPush | doltlite-src/src/analyze.c:702-779 | keeps the whole invariant: current counts, the best candidates, exact or open counts of every sample, order, size, coverage, periodic samples |
| Stat4Accum.StatAccum.SampleInsert | doltlite-src/src/analyze.c:558-640 | the fields after sampleInsert, tied to the specification of an insertion |
| Stat4Accum.StatAccum.Offer | doltlite-src/src/analyze.c:655-661 | the candidate gets the count of the ended run; it is inserted exactly if there is room or it beats the sample at iMin; a full array changes only for a sample that is better than its least |
| Stat4Accum.StatAccum.SampleRow | doltlite-src/src/analyze.c:755-764 | the new row gets the next tie-break hash in 32-bit arithmetic and is sampled if periodic |
| Stat4Accum.StatAccum.SamplePushPrevious | doltlite-src/src/analyze.c:650-680 | offers the candidates of the ended runs and closes every open count from the changed column on |
| Stat4Accum.StatAccum.SamplePeriodic | doltlite-src/src/analyze.c:757-764 | adds the row exactly when a multiple of nPSample lies between it and the next |
| Stat4Accum.StatAccum.UpdateBest | doltlite-src/src/analyze.c:766-772 | after the new row every column again has its best candidate |
| Stat4Accum.StatAccum.Flush | doltlite-src/src/analyze.c:882-886 | every count of every sample is exact, and the array keeps its order, its periodic samples and its coverage |
| Stat4Accum.AdvanceRow | doltlite-src/src/analyze.c:729-742 | the counters of the current row after its first changed column |
| Stat4Accum.FillOpen | doltlite-src/src/analyze.c:670-679 | exactly the zero counts from the column on take the current row's counts |
| StatText.RoundTrip | doltlite-src/src/analyze.c:911-916 | a printed count vector reads back as itself, for all 64-bit values |
| StatText.DecimalShape | doltlite-src/src/analyze.c:911-913 | a printed number consists of digits and has no zero in front |
| StatText.ExtraSpace | doltlite-src/src/analyze.c:1536-1549 | a second space reads as an empty number, 0 |
| StatText.Stuck | doltlite-src/src/analyze.c:1536-1549 | anything but a digit or a space is never passed: all further slots are 0 |
| StatText.Wraps | doltlite-src/src/analyze.c:1536-1541 | a number that does not fit is read modulo 2^64 |
| StatText.PrintCounts | doltlite-src/src/analyze.c:911-916 | the loop with its trailing space taken off prints the numbers separated by single spaces |
| StatText.DecodeIntArray | doltlite-src/src/analyze.c:1520-1553 | for any text, the slots filled are the specified numbers and the rest keep their values |
| StatText.PrintStat1 | doltlite-src/src/analyze.c:867-879 | the text is the row count, or nEst if rows were skipped, and one estimate for each key column |
| StatText.EstimateMeans | doltlite-src/src/analyze.c:850-873 | the estimate is 1 exactly up to the ratio 1.1 and otherwise rows per distinct prefix rounded up |
| StatText.EstimatesFall | doltlite-src/src/analyze.c:870-878 | the estimates never increase from one key column to the next |
| Backup.BackupOnePage | doltlite-src/src/backup.c:226-279 | for every pair of page sizes, exactly the bytes of the source page change in the destination, except on its lock page and, for a first copy, the page count in the header, which then reads as the source's page count; it fails exactly if a page of the destination that it lies on fails, other than the lock page |
| Backup.PageCountWritten | doltlite-src/src/backup.c:270-272 | bytes 28 to 31 of a first copy are the page count of the source, high byte first |
| Backup.ChunkOverlays | doltlite-src/src/backup.c:251-274 | one turn of the copy loop extends what is copied by one destination page's share |
| Backup.TurnBounds | doltlite-src/src/backup.c:251-260 | the offsets of the loop stay inside the source page and the destination page |
| BackupCommit.FinishCommit | doltlite-src/src/backup.c:423-547 | DONE means complete: every byte below the source size outside the source lock page and the rewritten header fields equals the source byte; the schema cookie at byte 40, the change counter at 24 and 92 and the version at 96 are the given ones, and the WAL versions are 2 if the destination is in WAL mode; the destination is as large as the source, unless the source ends with its lock page, and never larger; an empty source gives the new database page |
| BackupCommit.PokedHeader | doltlite-src/src/backup.c:422-442 | the header fields read back as they were written |
| BackupRun.CookieChanges | doltlite-src/src/backup.c:422-431 | the new schema cookie differs from the one the destination had |
| BackupCommit.CompleteSize | doltlite-src/src/backup.c:531-537 | a complete destination has the size of the source, unless the source ends with its lock page |
| BackupCommit.FixSize | doltlite-src/src/backup.c:474-547 | truncation to the source size, after the pages behind the lock page are written |
| BackupCommit.WriteBehindLockPage | doltlite-src/src/backup.c:511-529 | the extra writes supply the source pages that share the destination's lock page |
| BackupCommit.TruncateTarget | doltlite-src/src/backup.c:453-488 | the source's assertions about nDestTruncate |
| BackupCommit.CopiedNext | doltlite-src/src/backup.c:396-407 | a copied page extends the range in step |
| BackupCommit.SkippedNext | doltlite-src/src/backup.c:396-407 | stepping over the source lock page extends it too |
| BackupCommit.UpdatedPage | doltlite-src/src/backup.c:675-689 | a pushed page keeps the range in step |
| BackupCommit.UncopiedPage | doltlite-src/src/backup.c:675-676 | a write beyond iNext needs no push |
| BackupCommit.CommitIsComplete | doltlite-src/src/backup.c:439-547 | header rewrite, truncation and extra writes together complete the copy |
| BackupRun.CopyPages | doltlite-src/src/backup.c:396-407 | the copy loop: how far iNext goes, everything below it is in step, and it fails exactly if it meets a page that fails |
| BackupRun.CopyOne | doltlite-src/src/backup.c:396-407 | one page of it, lock page included |
| BackupRun.Handle.constructor | doltlite-src/src/backup.c:302-309 | a new handle has copied nothing, has locked nothing and is not attached |
| BackupSchedule.RunSchedule | doltlite-src/src/backup.c:139-713 | from a source without backups, under every schedule of opening, stepping and finishing any number of backups, page writes with or without a failing destination, growth over the lock page, truncations, foreign changes and write transactions: a backup that is done was left with a destination complete for the source at the moment of one of its steps, outside of a write transaction, and nothing has touched it since; for any other backup rolling back gives the destination it was opened with, and finishing does so; no step within a write transaction of the source changes any destination; what the source holds depends only on what was written to it; a result is logged exactly for each step and finish carried out, and a logged DONE is that of a done backup |
| BackupSchedule.Round | doltlite-src/src/backup.c:139-713 | one operation more keeps all of that |
| BackupSchedule.StillCompleted | doltlite-src/src/backup.c:559-559 | a backup once done stays done, with the same destination |
| BackupSchedule.AfterWrite | doltlite-src/src/backup.c:667-694 | in a schedule every write to a page of the source or the next one, other than the lock page, is carried out |
| BackupRun.Handle.Step | doltlite-src/src/backup.c:314-572 | keeps the invariant of all backups of the source; a source in a write transaction gives BUSY, then come errors of the read transaction and of the lock, and READONLY for a WAL or in-memory destination of another page size, each with nothing copied and the lock only taken in its turn; after that OK, DONE or the error of the commit; DONE only with a complete destination whose schema cookie is one more than the one read with the lock; which pages are copied, and that the handle is attached when pages remain |
| BackupRun.Handle.Open | doltlite-src/src/backup.c:343-389 | busy source, source transaction, destination lock taken once, and the page-size check, in this order |
| BackupRun.Handle.Attach | doltlite-src/src/backup.c:302-309 | the handle becomes the head of the pager's list |
| BackupRun.Handle.Push | doltlite-src/src/backup.c:675-689 | a source write reaches an attached backup that has copied the page; the handle fails exactly if that write does |
| BackupRun.Handle.Restart | doltlite-src/src/backup.c:709-712 | iNext is 1 again and the handle in step with any new content |
| BackupRun.Handle.Finish | doltlite-src/src/backup.c:577-625 | the handle, and no other, leaves the list; what was not committed is rolled back; DONE is reported as OK |
| BackupRun.Source.WritePage | doltlite-src/src/backup.c:667-694 | a page write keeps every non-fatal backup in step and does nothing to one that is done or has failed |
| BackupRun.Source.BackupUpdate | doltlite-src/src/backup.c:667-691 | the walk reaches every backup on the list |
| BackupRun.Source.ExternalChange | doltlite-src/src/backup.c:707-713 | after a restart all attached backups begin at page 1, whatever the file holds now |
| BackupRun.Source.Shrink | doltlite-src/src/backup.c:396-416 | a truncated source leaves every backup in step |
| BackupRun.Source.GrowOverLockPage | doltlite-src/src/backup.c:398-398 | growth over the lock page, which is never pushed, leaves every backup in step |
| BtreeMutex.StepKeepsInv | doltlite-src/src/btmutex.c:71-152 | every step of every connection keeps: which wanted locks are held at each point of the protocol, and each held mutex belongs to exactly the connection whose flag is set and that BtShared.db names |
| BtreeMutex.ReachableInv | doltlite-src/src/btmutex.c:71-152 | so it holds in every reachable state |
| BtreeMutex.MutualExclusion | doltlite-src/src/btmutex.c:27-50 | two connections never hold the same mutex, and db names the holder |
| BtreeMutex.BlockedHoldsSmaller | doltlite-src/src/btmutex.c:118-136 | a connection blocked on a mutex holds only mutexes of smaller address |
| BtreeMutex.WaitChainEnds | doltlite-src/src/btmutex.c:105-137 | from any blocked connection the chain of waiting ends at a mutex owner that is not blocked |
| BtreeMutex.AssertionsHold | doltlite-src/src/btmutex.c:27-50 | the assertions of lockBtreeMutex and unlockBtreeMutex |
| BtreeMutex.BalancedCallsRestore | doltlite-src/src/btmutex.c:93-152 | balanced nested calls restore a connection exactly, however the others run; outside Enter and Leave the locked btrees are those with wantToLock > 0 |
| BtreeMutex.RunWant | doltlite-src/src/btmutex.c:93-152 | wantToLock counts Enter calls minus Leave calls over any run |
| BtreeMutex.SomeoneCanFinish | doltlite-src/src/btmutex.c:105-152 | in every reachable state with work left some connection can take a step that finishes part of it |
| BtreeMutex.CanAlwaysDrain | doltlite-src/src/btmutex.c:105-152 | from every reachable state a schedule without new Enter calls releases every lock |
| BtreeCode.Connection.LockBtreeMutex | doltlite-src/src/btmutex.c:27-35 | wherever it is called, only mutexes of smaller address are held |
| BtreeCode.Connection.UnlockBtreeMutex | doltlite-src/src/btmutex.c:41-50 | the assertions hold wherever it is called |
| BtreeCode.Connection.BtreeEnter | doltlite-src/src/btmutex.c:71-97 | one count more for this btree and no other; afterwards the locked btrees are those with wantToLock > 0, each held and named by db |
| BtreeCode.Connection.LockCarefully | doltlite-src/src/btmutex.c:105-137 | from the point of trying to the end of Enter, whether or not the first attempt succeeds |
| BtreeCode.Connection.ReleaseLater | doltlite-src/src/btmutex.c:123-130 | at each turn the locks held are those the interleaved protocol allows there |
| BtreeCode.Connection.RelockLater | doltlite-src/src/btmutex.c:132-136 | the same on the way back, in ascending order |
| BtreeCode.Connection.BtreeLeave | doltlite-src/src/btmutex.c:143-152 | one count less; the mutex is given up with the last one |
| BtreeCode.Connection.EnterAll | doltlite-src/src/btmutex.c:186-199 | every sharable btree of the connection is locked, in whatever order they are entered |
| BtreeCode.Connection.LeaveAll | doltlite-src/src/btmutex.c:203-211 | one count less for each of them |
| Bitvec.Bitvec.Set | doltlite-src/src/bitvec.c:170-235 | the mathematical set gains exactly i, in all three representations and across their conversion |
| Bitvec.Bitvec.Clear | doltlite-src/src/bitvec.c:243-275 | the set loses exactly i, also for an i above iSize where the C code stays inside its arrays |
| Bitvec.Bitvec.TestNotNull | doltlite-src/src/bitvec.c:131-153 | membership, also for 0 and for numbers out of range |
| Bitvec.Test | doltlite-src/src/bitvec.c:154-156 | a null set holds nothing |
| Bitvec.Bitvec.Subdivide | doltlite-src/src/bitvec.c:211-229 | turning the hash into a tree loses and invents no bit; the recursion ends because children are smaller |
| Bitvec.Bitvec.SetInHash | doltlite-src/src/bitvec.c:189-234 | insertion, or conversion to a tree exactly if the index is new, 62 are stored, and its slot was taken or 123 are stored |
| Bitvec.Bitvec.Rebuild | doltlite-src/src/bitvec.c:258-273 | clearing rebuilds the table without i |
| Bitvec.SubSize | doltlite-src/src/bitvec.c:220-222 | child size is smaller than the parent and NPTR children cover it |
| Bitvec.Bin | doltlite-src/src/bitvec.c:176-178 | every child index is below NPTR |
| Bitvec.SameChildSameIndex | doltlite-src/src/bitvec.c:177-178 | child and rest determine the number |
| Bitvec.SetOneBit | doltlite-src/src/bitvec.c:186-186 | setting or clearing one bit of a byte leaves the other seven |
| Bitvec.RunOps | doltlite-src/src/bitvec.c:438-467 | any program of Set and Clear leaves the set that the mathematical operations leave |
| Bitvec.SelfTest | doltlite-src/src/bitvec.c:394-495 | the built-in self test reports no difference for any program |
| ProbeTable.FreeSlot | doltlite-src/src/bitvec.c:193-211 | fewer than NINT numbers leave a free slot |
| ProbeTable.ProbeStep | doltlite-src/src/bitvec.c:146-150 | each probe comes closer to a free slot |
| ProbeTable.ProbeEnd | doltlite-src/src/bitvec.c:146-151 | a free slot on the probe path means the number is absent |
| ProbeTable.Inserted | doltlite-src/src/bitvec.c:231-234 | filling the slot where the probe ended keeps every number reachable |
| LalrDriver.ParseAll | doltlite-src/lempar.c:879-1080 | whatever tables meet the condition, an accepted input is derivable from the start symbol, token by token up to fallback and wildcard, and the machine accepts it; and if the machine accepts it within the fuel, so does the parser, unless some size that its stack grows to is refused |
| LalrDriver.Parser.Parse | doltlite-src/lempar.c:879-1080 | one token: the outcome, the stack, the error count and whether an error is reported; the stack and outcome are those of the machine unless the stack overflows, and it overflows only if some size it grew to or asked for was refused; accept leaves the stack at its base |
| LalrDriver.Parser.Turn | doltlite-src/lempar.c:915-1068 | one pass of the loop is one step of the machine; only a full stack grows, by one size, and only a refused one overflows |
| LalrDriver.FindShiftAction | doltlite-src/lempar.c:549-608 | direct hit, fallback, wildcard and default in the order of the specification; the fallback loop ends |
| LalrDriver.Parser.ShiftToken | doltlite-src/lempar.c:685-724 | the level pushed for a shift or a fused shift-reduce, growing the stack if needed |
| LalrDriver.Parser.Reduce | doltlite-src/lempar.c:742-789 | the right-hand side leaves the stack, the left-hand side enters with the goto of the uncovered state |
| LalrDriver.Parser.GrowStack | doltlite-src/lempar.c:297-334 | growth to twice the size and 100 more succeeds exactly if that size can be had, and keeps every entry; failure changes nothing |
| LalrDriver.Parser.MakeRoom | doltlite-src/lempar.c:936-960 | room for an empty rule's left-hand side |
| LalrDriver.Parser.PopAll | doltlite-src/lempar.c:643-659 | the stack returns to its base |
| LalrDriver.Parser.RejectToken | doltlite-src/lempar.c:1042-1066 | error count, report and, at the end of the input, an emptied stack |
| LalrDriver.Parser.constructor | doltlite-src/lempar.c:353-367 | the parser starts at its base |
| LalrStack.ShiftOk | doltlite-src/lempar.c:685-724 | a shift keeps: trees on the stack derive what was shifted, and every state's knowledge of the stack below it is right |
| LalrStack.ReduceOk | doltlite-src/lempar.c:742-789 | so does a reduce, and the goto looked up exists, as the source asserts |
| LalrStack.Handle | doltlite-src/lempar.c:742-789 | the symbols popped are the right-hand side of the rule, up to rules left out |
| LalrStack.AcceptIsSound | doltlite-src/lempar.c:963-967 | on accept the stack holds only what stands for the start symbol, and the shifted tokens are derived from that |
| LalrMachine.ActionKinds | doltlite-src/lempar.c:915-972 | the looked-up action always is one of the four kinds and never an unassigned code |
| LalrPlain.PlainImpliesFused | doltlite-src/tool/lemon.c:5236-5281 | whatever the plain automaton, which shifts to states that can only reduce, does on a token sequence, the driver does on the compressed tables, in no more passes: accept, error or neither at the same token, the same terminals shifted, the same code run in the same order, the same states on the stack up to pending reduces |
| LalrPlain.FusedImpliesPlain | doltlite-src/tool/lemon.c:5236-5281 | and the other way round; the plain machine never gets stuck |
| LalrPlain.SameLanguage | doltlite-src/tool/lemon.c:5162-5282 | the compressed tables accept exactly what the automaton accepts |
| LalrPlain.SameStep | doltlite-src/lempar.c:915-972 | one pass of the driver's loop is one move of the plain machine, and after a reduce as many more as rules were left out |
| LalrPlain.Climb | doltlite-src/tool/lemon.c:5255-5281 | where rules without code were left out, the plain machine reduces by them and then is in the state that the driver entered at once |
| LalrPlain.ActionWritten | doltlite-src/tool/lemon.c:5236-5249 | what the driver looks up is the automaton's action, a shift to a state that only reduces being a SHIFTREDUCE |
| LalrMachine.PendingIgnoresToken | doltlite-src/lempar.c:915-963 | a pending reduce is carried out first, whatever the token |
| LalrMachine.RunOn | doltlite-src/lempar.c:879-1080 | runs on consecutive tokens compose |
| LalrMachine.FirstIsRead | doltlite-src/lempar.c:879-1080 | a run that accepts at the last token reads the first one in no more passes, and then accepts the rest |
| LalrTables.Image | doltlite-src/lempar.c:549-608 | the token that decides is the token itself, its fallback, or the wildcard |
| LalrTables.ImageLaws | doltlite-src/lempar.c:565-608 | a token's own action comes before that of its fallback and that before the wildcard's, which never stands for the end of the input |
| LalrExample.CmdIsValid | doltlite-src/tool/lemon.c:4837-4853 | the condition on tables holds for those of a fragment of the SQL grammar, with padding, a rule left out and several states |
| LalrExample.CmdAccepts | doltlite-src/src/parse.y:166-169 | both the automaton and the tables accept a single SEMI, through the rule that the tables leave out |
| LalrExample.CmdEncodes | doltlite-src/tool/lemon.c:5236-5281 | they are what is written for the fragment's automaton |
| LalrTables.WrapDerives | doltlite-src/tool/lemon.c:5255-5260 | the rules left out can be put back into a derivation, which still derives the same terminals |
| LalrDriver.FindReduceAction | doltlite-src/lempar.c:614-638 | the goto, found where the source asserts it is |
| ChunkMerge.Compare | doltlite-src/src/prolly_hash.c:15-17 | comparing bytes is comparing big-endian numbers, and zero means equal |
| ChunkMerge.Conservation | doltlite-src/src/chunk_index.c:367-383 | the merge holds every pending entry and every index entry whose hash is not pending, with multiplicity, and nothing else |
| ChunkMerge.MergeMembers | doltlite-src/src/chunk_index.c:367-383 | membership in the merge |
| ChunkMerge.KeepsOrder | doltlite-src/src/chunk_index.c:367-383 | sorted inputs, duplicates allowed, give a sorted merge |
| ChunkMerge.StaysUnique | doltlite-src/src/chunk_index.c:367-383 | with a duplicate-free index the merge is duplicate-free exactly when the pending entries are |
| ChunkMerge.BlockFirst | doltlite-src/src/chunk_index.c:343-350 | index entries below the first pending one come first, as one block |
| ChunkIndex.MergeSmall | doltlite-src/src/chunk_index.c:336-365 | lower bounds and block copies write exactly the two-pointer merge, for any pending entries |
| ChunkIndex.MergeLarge | doltlite-src/src/chunk_index.c:367-387 | the two-pointer loop writes the merge |
| ChunkIndex.MergeIndex | doltlite-src/src/chunk_index.c:313-388 | the whole function, with its empty and out-of-memory results |
| ChunkIndex.IndexLowerBound | doltlite-src/src/chunk_index.c:295-311 | the first entry from lo on that is not below the hash |
| ChunkIndex.SearchIndex | doltlite-src/src/chunk_index.c:167-185 | an entry with the hash, or -1 exactly if there is none |
| ChunkIndex.LookupAfterMerge | doltlite-src/src/chunk_index.c:167-185 | searching the merge finds a hash exactly if the index or the pending entries had it, and then a pending entry if there is one |
| ChunkRead.Deserialize | doltlite-src/src/chunk_index.c:187-194 | CORRUPT exactly when the mapped entry has a negative size, else that entry |
| ChunkRead.PackedRoundTrip | doltlite-src/src/chunk_index.h:20-24 | a packed entry maps back to itself and decodes to itself unless its size is negative |
| ChunkRead.MappedRoundTrip | doltlite-src/src/chunk_index.h:20-24 | no two byte strings map to the same entry |
| ChunkRead.EntryFields | doltlite-src/src/chunk_index.c:187-194 | offset and size byte by byte, low byte first, negative exactly if the top bit is set |
| ChunkRead.ReadIndex | doltlite-src/src/chunk_index.c:196-286 | exactly when each result comes back, for every header, file and failure; what the index then holds; that only the decoding path rejects negative sizes |
| ChunkRead.ReadEntries | doltlite-src/src/chunk_index.c:271-282 | the entries as decoded, or CORRUPT exactly if one has a negative size |
| RenameEdit.EditSql | doltlite-src/src/alter.c:1217-1312 | the in-place edit from right to left equals replacing every token at once, and never leaves the allocated buffer |
| RenameEdit.ReplaceLast | doltlite-src/src/alter.c:1266-1309 | one pass of the loop |
| RenameEdit.Splice | doltlite-src/src/alter.c:1299-1307 | memmove and memcpy replace one token and keep the rest |
| RenameEdit.ChooseReplacement | doltlite-src/src/alter.c:1272-1297 | which text replaces a token; snprintf truncates nothing |
| RenameEdit.RenameCtx.ColumnTokenNext | doltlite-src/src/alter.c:1041-1053 | unlinks the token with the largest offset and only that one |
| RenameEdit.RenameCtx.TokenFind | doltlite-src/src/alter.c:967-990 | the token moves between the lists; none is lost or doubled |
| RenameEdit.EditStep | doltlite-src/src/alter.c:1266-1309 | after replacing the last token left, the text from its start on is final |
| RenameEdit.SpareStep | doltlite-src/src/alter.c:1244-1251 | the buffer size computed beforehand covers each replacement |
| RenameText.AnyOrder | doltlite-src/src/alter.c:1041-1053 | the result does not depend on the order of the token list |
| RenameText.PlainRun | doltlite-src/src/alter.c:1299-1307 | text where no token starts is unchanged |
| RenameText.ReplacementMeans | doltlite-src/src/alter.c:1272-1297 | a replacement on its own stands for the new name or the old string |
| RenameText.QuotedOrNot | doltlite-src/src/alter.c:1272-1280 | a word is replaced by the name as it is unless quotes are asked for, and anything quoted by a quoted name |
| RenameText.EditReadsBack | doltlite-src/src/alter.c:1272-1309 | read at the place of a quoted replacement, the edited statement gives the new name or the old string exactly if no token of the list that is quoted too starts where this one ends, or a quote followed already |
| RenameText.ApartReadsBack | doltlite-src/src/alter.c:1284-1288 | in particular if no token of the list starts where this one ends |
| RenameText.AdjacentRunTogether | doltlite-src/src/alter.c:1272-1280 | two adjacent tokens that do run together |
| RenameText.UnquotedEnds | doltlite-src/src/alter.c:1273-1275 | a name put in without quotes ends where the old one did |
| RenameText.ReadsBackIff | doltlite-src/src/util.c:305-326 | a quoted text followed by something reads back as itself exactly if no quote follows |
| RenameText.ReplacementLength | doltlite-src/src/alter.c:1240-1251 | how long a replacement can be |
| RenameText.QuoteRoundTrip | doltlite-src/src/util.c:305-326 | dequoting a quoted name gives the name |
| RenameText.BracketRoundTrip | doltlite-src/src/util.c:305-326 | the same for names in brackets and backticks |
| RenameText.WordsEnd | doltlite-src/src/alter.c:1273-1273 | no quote, bracket, white space or operator belongs to a word |
| IndexColumns.FirstsDistinct | doltlite-src/src/build.c:2417-2432 | the primary key keeps no (column, collation) pair twice |
| IndexColumns.FirstsMember | doltlite-src/src/build.c:2417-2432 | and loses none |
| IndexColumns.SecondaryHasKey | doltlite-src/src/build.c:2451-2483 | a secondary index ends with exactly the primary-key columns its key lacks, once each, so the whole key can be read from it |
| IndexColumns.Covering | doltlite-src/src/build.c:2485-2503 | the primary-key index has every non-virtual column of the table, and a virtual one only if the key names it |
| IndexColumns.OthersAscend | doltlite-src/src/build.c:2493-2503 | the added columns come once each, in table order |
| IndexColumns.OthersMember | doltlite-src/src/build.c:2488-2503 | exactly the non-virtual columns not in the key are added |
| IndexColumns.WideEnough | doltlite-src/src/build.c:2505-2505 | the assertion that the index is at least as wide as the stored record |
| WithoutRowid.Index.RemoveRepeated | doltlite-src/src/build.c:2422-2432 | in-place compaction keeps the first occurrences in order |
| WithoutRowid.Index.AppendKey | doltlite-src/src/build.c:2457-2482 | a secondary index becomes its key and the missing primary-key columns; bAscKeyBug is set exactly for a descending one among them |
| WithoutRowid.Index.CoverTable | doltlite-src/src/build.c:2487-2504 | the counting loop and the appending loop agree, though they test against different prefixes |
| WithoutRowid.Index.Resize | doltlite-src/src/build.c:2190-2217 | columns are kept, new ones are zero |
| WithoutRowid.Table.Convert | doltlite-src/src/build.c:2354-2507 | all indexes of the table after the conversion; column by column and letter by letter up to case: the key keeps every part given for it, none twice, and nothing else; every secondary index holds them all; behind its key the primary-key index has every other stored column once, in table order, under its own collation or BINARY; primary-key columns become NOT NULL except in an imposter table |
| IndexColumns.BothKept | doltlite-src/src/build.c:2284-2291 | a column that the key names under two collations stays in it twice |
| IndexColumns.SameMeans | doltlite-src/src/build.c:2284-2291 | a column is a duplicate exactly if its number is the same and its collation is, letter by letter up to case |
| IndexColumns.SecondaryHolds | doltlite-src/src/build.c:2451-2483 | every part given for the key is found in a converted secondary index |
| WithoutRowid.Table.ConvertSecondary | doltlite-src/src/build.c:2454-2483 | every index is converted and none disturbs another |
| WithoutRowid.Table.MarkNotNull | doltlite-src/src/build.c:2365-2374 | exactly the primary-key columns become NOT NULL |
| WithoutRowid.IsDupColumn | doltlite-src/src/build.c:2274-2293 | column and collation must both match |
| WithoutRowid.HasColumn | doltlite-src/src/build.c:2252-2259 | membership among the first columns |
| ColumnMap.TableColumnToStorage | doltlite-src/src/build.c:1155-1171 | the storage number of a column, for every column and for the rowid |
| ColumnMap.StorageColumnToTable | doltlite-src/src/build.c:1107-1115 | the loop with the moving bound stays in range and inverts it on stored columns |
| ColumnMap.StorageOrder | doltlite-src/src/build.c:1120-1145 | distinct columns have distinct numbers, virtual ones come last, each kind keeps its order |
| ColumnMap.StorageRange | doltlite-src/src/build.c:1120-1145 | numbers are below the number of columns, and at or above the number of stored ones exactly for virtual columns |
| ColumnMap.StorageOnto | doltlite-src/src/build.c:1120-1145 | every number is used |
| DestroyTable.DestroyTable | doltlite-src/src/build.c:3398-3441 | each distinct nonzero root page once, largest first; in every database that holds them, destroying them in this order removes exactly the table and its indexes |
| DestroyTable.DropsItsOwn | doltlite-src/src/build.c:3399-3414 | the same for any order with these properties |
| DestroyTable.LargestRoot | doltlite-src/src/build.c:3418-3431 | one pass finds the largest page below the last one destroyed |
| DestroyTable.DescendingIsSafe | doltlite-src/src/build.c:3399-3414 | when the largest root page moves into each freed slot, every destroy in descending order hits the page's own table or index, and nothing else is lost |
| DestroyTable.AscendingIsNotSafe | doltlite-src/src/build.c:3399-3414 | the counterexample of the source's comment |
| Affinity.AffinityType | doltlite-src/src/build.c:1651-1692 | one pass with a rolling 32-bit hash gives the affinity of the documented substring rules |
| Affinity.Words | doltlite-src/src/build.c:1638-1688 | the words looked for, as text |
| Affinity.RuleOrder | doltlite-src/src/build.c:1651-1688 | which word decides when a type holds several |
| Affinity.HashTests | doltlite-src/src/build.c:1660-1690 | each comparison of the hash recognises exactly its word, in any case |
| Affinity.RankedStep | doltlite-src/src/build.c:1660-1690 | how the precedence of the rules follows from the order of the tests |
| CreateStmt.CreateTableStmt | doltlite-src/src/build.c:2112-2182 | the text is the specified statement, ended by NUL, inside the buffer sized beforehand |
| CreateRead.StatementReadsBack | doltlite-src/src/build.c:2108-2175 | a reader of CREATE TABLE statements gets back the name of the table, and the name and the type of each column, in order |
| CreateStmt.ColumnsFit | doltlite-src/src/build.c:2119-2138 | the sizes added up beforehand cover the column list |
| CreateStmt.IdentPut | doltlite-src/src/build.c:2084-2106 | one identifier, quoted if it needs to be |
| CreateStmt.IdentLength | doltlite-src/src/build.c:2063-2069 | the length of the quoted identifier |
| CreateStmt.IdentReadsBack | doltlite-src/src/build.c:2076-2098 | the identifier written dequotes to the name, and unquoted it is no keyword |
| CreateStmt.QuotedIff | doltlite-src/src/build.c:2083-2101 | quotes are left off exactly for words of letters, digits and underscores that do not start with a digit and are no keywords |
| CreateStmt.IdentIsWord | doltlite-src/src/build.c:2083-2101 | an identifier that is not quoted is one word |
| CreateStmt.TypeNameKeepsAffinity | doltlite-src/src/build.c:2169-2172 | the type written for a column has the column's affinity again |

## Left out

- LalrDriver.Parser.Parse: the loop has a fuel parameter, because nothing in the tables rules out an endless chain of empty reduces; with fuel left over the outcome is the driver's own.
- LalrDriver.ParseAll: a parse that goes on after a reported syntax error is not followed; the tables must come with a certificate, and none is given for the whole SQL grammar.
- LalrExample.CmdIsValid: four rules of the grammar only.
- LalrPlain.SameLanguage: how the automaton is built from the grammar, the choice of default reduces, and how the table entries are packed; `Encodes` states what the finished tables must hold.
- StatText.PrintStat1: overflow of nRow + nDistinct and of nRow * 10 in 64 bits.
- StatText.DecodeIntArray: the logarithmic output aLog, and the flags that may follow the numbers.
- Stat4Rows.AnalyzeIndex: requires that the row estimate is not below the number of rows; the analysis limit and mxSample == 0 are not modelled.
- ChunkIndex.MergeIndex: qsort() is a parameter that yields any sorted arrangement of the pending entries.
- ChunkRead.ReadIndex: a mapping that reaches beyond the end of the file does not succeed; after a failed allocation the index is empty here, where the C code keeps the old nIndex beside a null pointer.
- WithoutRowid.Table.Convert: for an INTEGER PRIMARY KEY table the index that is first created for it is given; generated code and root pages are left out; the three parallel arrays are one array of parts.
- Affinity.AffinityType: the estimate of the field width.
- CreateStmt.CreateTableStmt: the flexible numeric affinity, which is written like the numeric one.
- BackupRun.Handle.Step: copying a whole file without a destination connection (the VACUUM mode), journal and sync calls; a destination page size once chosen is a constant; errors of a copy or of the commit are fatal; nRemaining is given in 32-bit arithmetic, with no claim that it is not wrapped when the source has shrunk.
- BackupRun.Source.WritePage: a page more than one beyond the last is written only after the pages before it; the gap at the lock page is GrowOverLockPage.
- BackupSchedule.RunSchedule: nobody else changes a destination between opening and finishing its backup, as the interface demands.
- Bitvec.Bitvec.Set: allocation always succeeds; the members of the union are separate arrays.
- Bitvec.SelfTest: the operation code that makes the test fail on purpose, and random positions, which are part of the program here.
- Bitvec.Bitvec.Clear: an index outside the bitmap, or above iSize in a tree, for which the C code would leave its arrays.
- RenameText.EditReadsBack: that the tokenizer splits the edited statement as before, except at the replaced tokens.
- RenameEdit.EditSql: tokens are assumed pairwise disjoint and not empty, and double-quoted when there is no new name; tokenizing, and how tokens get on the list, are not modelled.
- btmutex.c: the interleaving of several connections is modelled as steps over values (BtreeMutex), the loops of one connection as methods of a class (BtreeCode), in which other connections are seen only through the mutexes they hold; btrees that are not sharable.
- analyze.c: samples are values in a sequence, so that exchanging the arrays of an evicted sample is not visible; code generation for the scan; LogEst.
- lempar.c: grammar actions, destructors, the error symbol, a size limit for the stack, tracing.
- chunk_index.c: getters, memory mapping itself.
- build.c: parsing, nested SQL, and code generation around the loops modelled.
- alter.c: the tree walks that choose the tokens.
- Memory allocation failure elsewhere, except where a result code is named above.
