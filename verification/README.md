# Verified models of the SQLite core in WCDBOptimizedSQLCipher

The application vendors an SQLite with SQLCipher extensions under
`Spotify/Pods/WCDBOptimizedSQLCipher`. This project models the parts of it whose
correctness rests on an argument that no comment writes down, and proves that
argument in Dafny 4.11. `dafny verify dfyconfig.toml` checks the whole project.

Code that changes things step by step has two forms here. A function on values
says what an operation does, every branch and error code included, and a class
or a method with the loops and fields of the source is proved to do the same.
The properties are lemmas about the functions, so they hold of the methods. The
asserts of the source are part of the model. Where a function can meet a state in
which one would fail, that has an outcome of its own (`AssertFails`, `Fault`), and the
main results exclude that outcome; elsewhere the method asserts the same, as at
`backup.c:270-273`, and callers have to prove it. The assert at `backup.c:731` is an
assumption about writes to the source, see below. What a pager, a file, a mutex or an
allocator answers is a parameter or a nondeterministic choice, without any assumption
about it that is not stated.

## What is modelled

**ANALYZE with STAT4** (`analyze.c`; modules `IndexOrder`, `Sample...`, `Stat4`,
`StatText`, `StatGroups`, `StatAverages`, `StatWitness`). One pass over a sorted index
keeps prefix counts and at most 24 samples, which are inserted with zeros in `anEq[]`,
upgraded in place, evicted, and completed later. The unwritten meaning of a zero is the
invariant: between two rows `anEq[j]` is zero exactly when the sample shares its first
j+1 columns with the row just scanned. From it follow all asserts, the order of the
samples, the bound of a third on periodic samples, and the main theorem: at the end
every sample carries the exact counts of its row in the whole index. `SampleCoverage`
adds what the samples stand for: no prefix has two of them that are not both periodic; a
full array takes a candidate exactly if it is better than one of those that are not
periodic; and so, of the prefixes without a sample, none is shared by more rows than one
that has its own. `SampleBest` shows that the row offered for a group comes from the
largest of its subgroups. The numbers are followed further: to the text stored in
`sqlite_stat1` and `sqlite_stat4`, back through `decodeIntArray()`, and into the
averages of `initAvgEq()`, which are the exact averages over the keys that no sample
stands for.

**Online backup** (`backup.c`; modules `Backup...`). Both databases are byte images.
Steps of any size interleave with writes to the source, truncation and restarts;
page sizes may differ either way, and each side skips its own page at the pending
byte. Invariant of every calm run, one in which no page copy and no commit of an
unattached backup answers BUSY or LOCKED: all source pages before `iNext` are in the
destination. A step that answers DONE leaves a complete copy and nothing behind it,
and `BackupAnswers` says when it does answer DONE, BUSY or READONLY. What BUSY and
LOCKED do in the other runs is proved as well, in `BackupFailure`.

**Mutexes of shared-cache b-trees** (`btmutex.c`; modules `Btree...`). Any number of
connections take single mutex operations in any order. A blocked connection holds
only mutexes with smaller addresses than the one it waits for; so from each blocked
connection a chain leads to one that can move. Enter and Leave are a recursive lock,
EnterAll and LeaveAll undo each other, whatever the others do in between.

**Bitvec** (`bitvec.c`; modules `Bitvec...`). Bitmap, open-addressing hash and tree
all stand for a plain set of integers, through every conversion, and the probe loops
and the recursion of Set end.

**LALR parser driver** (`parse.c`; modules `Parser...`). The tables are parameters.
`Fits` says what it takes for them to implement a grammar, whose rules may have a class
of terminals at one place as in `expr ::= expr EQ|NE expr`: LR items for each state that
justify every action. Which action the tables decide on for a token is stated as a
relation on the arrays, and the search is proved to find it. For all such tables and all
tokens no assertion fails, the stack stays within 100 entries, its trees spell the
tokens shifted so far, and what is accepted derives from the start symbol. Over a whole
stream of tokens the parser with pending reductions simulates the one that makes them at
once. `ParserWitness` gives tables that satisfy `Fits`, and `parser_tables.py` lists the
conditions of `Fits` that the tables in a `parse.c` do not meet.

**ALTER TABLE RENAME** (`alter.c`; modules `Rename...`). Editing the statement token by
token from the right, in a buffer, is the simultaneous substitution of all tokens,
whatever the order of the list. `RenameNames` reads the result back: at each token
stands an identifier, quoted or plain, which is the new name, except where it runs
together with what follows.

**sqlite3_complete()** (`complete.c`; modules `Complete...`). The scanner and its table
of transitions are proved to accept exactly the texts made of whole statements, where
a `CREATE TRIGGER` ends only at a semicolon, END and a semicolon; and what appending
one text to another does.

**Function registry** (`callback.c`; modules `Function...`). The hash of built-in
functions with its two kinds of links, and the choice among overloads: the first of
the best matches, in the list that takes precedence.

## Where the code does not do what it seems to promise

The model keeps the code as it is; the lemmas named here say when each case arises.

- `iNext` advances even when a page copy fails. A copy that answers BUSY or LOCKED is
  lost, since neither is fatal: `CopyIsSafeIff` says for which pages and answers the
  step is safe, and `RefusedContent` gives the content that is lost. The assert at
  `backup.c:731` takes for granted that it does not happen.
- A backup that copies everything in its first step is not yet attached when it
  commits. If the commit answers BUSY or LOCKED, the source may change unnoticed before
  the next step; `StepIsSafeIff` says that this is the only such case, and
  `RefusedCommitOccurs` gives one.
- Finishing a backup rewrites not only the page count in bytes 28 to 31 of page 1: the
  schema cookie in bytes 40 to 43 and, in WAL mode, the versions in bytes 18 and 19
  change as well (`DoneHeader`), also if the commit has to be repeated
  (`HeaderIsRewritten`).
- `nRemaining` is unsigned and wraps around exactly when the source has shrunk below
  the pages already copied (`CountersAddUpIff`), which a truncation between two steps
  brings about (`WrapOccurs`).
- A function just created is a perfect match for the same request exactly if its number
  of arguments fits a signed byte (`CreatedIsPerfect`).
- A `Bitvec` hash is converted at half its size only when a collision occurs; without
  collisions it fills up to one slot less than it has (`FillWithoutCollision`).
- A new name that is put in quotes directly before a double quote, as when the column
  `a` is renamed in `a"b"`, reads as one name together with what follows. `TokenReads`
  says exactly when the new name is read back; `NamesRunTogether` is that statement.
- With the estimates of `sqlite_stat1`, `aAvgEq` may be 1 although keys without a sample
  have more rows, because the number of distinct values is estimated too small:
  `AverageIsUpperBoundIff` says exactly when, and `AverageTooSmall` follows an index of
  51 rows through ANALYZE to such an average.

## Model

| member | source | states |
|---|---|---|
| SampleTheorem.AnalyzeExact | Spotify/Pods/WCDBOptimizedSQLCipher/src/analyze.c:556-684 | For every index (rows sorted, entries distinct) of no more rows than were announced to stat_init(), no assert fails during the whole scan and the last samplePushPrevious(p,0); at most 24 samples are left, at most 8 of them periodic, and each carries the exact numbers of rows equal to it, rows below it and distinct values below it on each number of leading columns, counted over the whole index |
| SampleTheorem.PeriodicAtMostThird | Spotify/Pods/WCDBOptimizedSQLCipher/src/analyze.c:778-786 | While no more rows than announced have been pushed, at most a third of the 24 samples are periodic |
| SampleCoverage.AnalyzeCovers | Spotify/Pods/WCDBOptimizedSQLCipher/src/analyze.c:556-684 | For every such index no two samples are kept for the same prefix, unless both are periodic; every prefix of every row has a sample, or 24 are kept and each that is not periodic stands for a prefix that at least as many rows share: nothing larger was passed over, and with fewer than 24 nothing at all |
| SampleCoverage.CandidateStands | Spotify/Pods/WCDBOptimizedSQLCipher/src/analyze.c:659-665 | A completed candidate gets a sample for its prefix exactly if there is room or it is better than some sample that is not periodic; otherwise a[] is left as it was |
| SampleCoverage.PeriodicExactly | Spotify/Pods/WCDBOptimizedSQLCipher/src/analyze.c:454-454 | Over a whole index one periodic sample is kept for every nPSample rows: eight if the announced number of rows was exact and at least 72 |
| SampleCoverage.UpgradeApart | Spotify/Pods/WCDBOptimizedSQLCipher/src/analyze.c:570-597 | An upgrade never picks a sample whose prefix another one already stands for |
| SampleCoverage.PushStands | Spotify/Pods/WCDBOptimizedSQLCipher/src/analyze.c:729-797 | One stat_push() keeps both: no prefix has two samples, and none is passed over while there is room |
| SampleTheorem.PushOk | Spotify/Pods/WCDBOptimizedSQLCipher/src/analyze.c:729-797 | One stat_push() keeps the invariant of the accumulator, for any next row and any change column |
| SampleTheorem.ZeroMeansOpen | Spotify/Pods/WCDBOptimizedSQLCipher/src/analyze.c:570-645 | Between two stat_push() calls a sample has anEq[j] equal to 0 exactly when it shares its first j+1 columns with the row just scanned |
| SampleTheorem.BestNext | Spotify/Pods/WCDBOptimizedSQLCipher/src/analyze.c:789-794 | A candidate aBest[i] that is not replaced stays the right candidate of its group: its counts right of column i are final |
| SampleBest.BestIsLargest | Spotify/Pods/WCDBOptimizedSQLCipher/src/analyze.c:789-794 | After every prefix of the index the candidate aBest[i] lies in the current group of i+1 columns, and no row of that group shares i+2 columns with more rows than it does |
| SampleTheorem.LastRowCounts | Spotify/Pods/WCDBOptimizedSQLCipher/src/analyze.c:849-896 | anDLt of the last row is one less than the number of distinct prefixes in the whole index |
| SampleTheorem.ScanOk | Spotify/Pods/WCDBOptimizedSQLCipher/src/analyze.c:1083-1111 | After every prefix of the index the accumulator is exact for that prefix, and no assert has failed |
| SampleFlush.PushPreviousOk | Spotify/Pods/WCDBOptimizedSQLCipher/src/analyze.c:653-684 | When the groups from column iChng on end, every count right of it becomes exact and what stays zero shares its prefix with the current row; the assert at 671 and all those of sampleInsert() hold |
| SampleFlush.PushCandidateOk | Spotify/Pods/WCDBOptimizedSQLCipher/src/analyze.c:659-665 | Offering one completed candidate leaves no sample that is not periodic open at its column |
| SampleFlush.InsertCloses | Spotify/Pods/WCDBOptimizedSQLCipher/src/analyze.c:556-644 | sampleInsert() of a completed candidate never fails an assert and closes the candidate's column, whether it appends, upgrades in place or is blocked by a periodic sample |
| SampleFlush.FilledOk | Spotify/Pods/WCDBOptimizedSQLCipher/src/analyze.c:675-683 | The closing loop replaces every zero from iChng on by the exact count and keeps iMin valid |
| SampleFlush.FlushingNoZero | Spotify/Pods/WCDBOptimizedSQLCipher/src/analyze.c:671-671 | No zero lies at or right of nMaxEqZero |
| SampleInsertion.AppendOk | Spotify/Pods/WCDBOptimizedSQLCipher/src/analyze.c:599-643 | Making room and appending keeps the samples ascending, their counts exact or open, all periodic rows present, and iMin the least preferred sample |
| SampleInsertion.UpgradeOk | Spotify/Pods/WCDBOptimizedSQLCipher/src/analyze.c:570-597 | Upgrading in place keeps the invariant, with the sample's count at the new column exact |
| SampleInsertion.EvictionKeepsPeriodic | Spotify/Pods/WCDBOptimizedSQLCipher/src/analyze.c:599-612 | The sample that makes room is never a periodic one |
| SampleInsertion.PickedHasNoZeroRight | Spotify/Pods/WCDBOptimizedSQLCipher/src/analyze.c:579-594 | The sample picked for an upgrade has no zero right of the candidate's column, so that the upgrade makes all its counts from that column on exact |
| SampleInsertion.AllUpgradable | Spotify/Pods/WCDBOptimizedSQLCipher/src/analyze.c:579-589 | Every open sample met in the upgrade scan satisfies the asserts at 583-584 |
| SampleInsertion.StandInBeats | Spotify/Pods/WCDBOptimizedSQLCipher/src/analyze.c:586-588 | Of two open samples the one that stands for the longer prefix is preferred, so the upgrade scan never picks the other |
| SampleAccuracy.CandidateBeats | Spotify/Pods/WCDBOptimizedSQLCipher/src/analyze.c:529-550 | A completed candidate is preferred to every open sample of a column further right |
| SampleAccuracy.PeriodicBound | Spotify/Pods/WCDBOptimizedSQLCipher/src/analyze.c:454-454 | Before the (m+1)st period of rows is complete there are at most m periodic samples |
| SampleAccuracy.RoomForOthers | Spotify/Pods/WCDBOptimizedSQLCipher/src/analyze.c:599-612 | So a full array holds a sample that is not periodic, and iMin exists whenever room has to be made |
| SampleAccuracy.OpenCount | Spotify/Pods/WCDBOptimizedSQLCipher/src/analyze.c:570-645 | For an open sample the count of the current row at the column is the count it will get |
| SamplePreference.StrictWeakOrder | Spotify/Pods/WCDBOptimizedSQLCipher/src/analyze.c:505-550 | sampleIsBetter() is a strict weak order |
| SamplePreference.PreferenceMeans | Spotify/Pods/WCDBOptimizedSQLCipher/src/analyze.c:505-519 | Of two samples for equally many rows and columns the better one has the larger count at the first column right of there in which the counts differ; if none differs, the larger hash decides |
| SamplePreference.MinFromFinds | Spotify/Pods/WCDBOptimizedSQLCipher/src/analyze.c:633-643 | The loop for iMin finds a sample that is not periodic and is better than no other |
| SamplePreference.FindUpgradeFinds | Spotify/Pods/WCDBOptimizedSQLCipher/src/analyze.c:579-589 | The upgrade scan finds the best open sample, or a periodic one that blocks it |
| SamplePreference.IsBetterLocal | Spotify/Pods/WCDBOptimizedSQLCipher/src/analyze.c:529-550 | Filling in counts left of the compared columns does not change a preference |
| IndexOrder.CountsAdvance | Spotify/Pods/WCDBOptimizedSQLCipher/src/analyze.c:754-763 | How the three counts change when a row is appended to a sorted index |
| IndexOrder.CountsSettled | Spotify/Pods/WCDBOptimizedSQLCipher/src/analyze.c:653-684 | Once the prefix has changed, later rows leave the counts of an earlier row alone |
| IndexOrder.DistinctInAll | Spotify/Pods/WCDBOptimizedSQLCipher/src/analyze.c:849-896 | Distinct prefixes below the last row, plus one, are all distinct prefixes |
| SampleScan.Change | Spotify/Pods/WCDBOptimizedSQLCipher/src/analyze.c:1158-1208 | The column handed to stat_push() is the first in which two neighbouring rows differ |
| SampleScan.AdvancedOk | Spotify/Pods/WCDBOptimizedSQLCipher/src/analyze.c:754-763 | The counters of the current row are exact after the step to the next row |
| SampleScan.PushPeriodicOk | Spotify/Pods/WCDBOptimizedSQLCipher/src/analyze.c:780-786 | Every nPSample-th row is kept as a periodic sample |
| Stat4.SampleIsBetterPost | Spotify/Pods/WCDBOptimizedSQLCipher/src/analyze.c:505-519 | The comparison loop computes the specified preference |
| Stat4.SampleIsBetter | Spotify/Pods/WCDBOptimizedSQLCipher/src/analyze.c:529-550 | The comparison computes the specified preference |
| Stat4.Stat4Accum.constructor | Spotify/Pods/WCDBOptimizedSQLCipher/src/analyze.c:399-480 | The initial accumulator |
| Stat4.Stat4Accum.ScanForUpgrade | Spotify/Pods/WCDBOptimizedSQLCipher/src/analyze.c:579-589 | The loop finds what the specification says |
| Stat4.Stat4Accum.FindMin | Spotify/Pods/WCDBOptimizedSQLCipher/src/analyze.c:633-643 | The loop finds the least preferred sample that is not periodic |
| Stat4.Stat4Accum.MakeRoom | Spotify/Pods/WCDBOptimizedSQLCipher/src/analyze.c:599-612 | The array is shifted in place over the evicted sample |
| Stat4.Stat4Accum.AppendSample | Spotify/Pods/WCDBOptimizedSQLCipher/src/analyze.c:614-628 | The new sample goes to the end with its counts zeroed |
| Stat4.Stat4Accum.SampleInsert | Spotify/Pods/WCDBOptimizedSQLCipher/src/analyze.c:556-644 | The in-place insertion refines the specified one; its asserts are proved |
| Stat4.Stat4Accum.SamplePushPrevious | Spotify/Pods/WCDBOptimizedSQLCipher/src/analyze.c:653-684 | The in-place update refines the specified one; its asserts are proved |
| Stat4.Stat4Accum.FillSamples | Spotify/Pods/WCDBOptimizedSQLCipher/src/analyze.c:675-683 | The double loop fills the zeros in place |
| Stat4.Stat4Accum.AdvanceCounts | Spotify/Pods/WCDBOptimizedSQLCipher/src/analyze.c:754-763 | The two loops over the counters |
| Stat4.Stat4Accum.UpdateBest | Spotify/Pods/WCDBOptimizedSQLCipher/src/analyze.c:789-794 | The loop over aBest[] |
| Stat4.Stat4Accum.StatPush | Spotify/Pods/WCDBOptimizedSQLCipher/src/analyze.c:729-797 | stat_push() in place refines the specified step |
| Stat4.Stat4Accum.StatGetStat1 | Spotify/Pods/WCDBOptimizedSQLCipher/src/analyze.c:849-896 | The text of the sqlite_stat1 numbers, from the counters of the last row |
| Stat4.LeftmostChange | Spotify/Pods/WCDBOptimizedSQLCipher/src/analyze.c:1158-1190 | The chain of comparisons finds the left-most changed column |
| Stat4.ScanIndex | Spotify/Pods/WCDBOptimizedSQLCipher/src/analyze.c:1158-1208 | The scan loop over an index leaves the accumulator exact for it |
| Stat4.AnalyzeIndex | Spotify/Pods/WCDBOptimizedSQLCipher/src/analyze.c:1083-1111 | The whole analysis of an index: exact samples, none twice for a prefix, those of the largest groups kept, and the text of the rows per distinct prefix, rounded up |
| StatText.RoundTrip | Spotify/Pods/WCDBOptimizedSQLCipher/src/analyze.c:1472-1488 | decodeIntArray() reads back what stat_get() has written, modulo 2 to the power of 32, as many numbers as it has room for |
| StatText.FaithfulIff | Spotify/Pods/WCDBOptimizedSQLCipher/src/analyze.c:1472-1488 | A list of numbers survives being written and read exactly if each of them fits a tRowcnt |
| StatText.JoinedFits | Spotify/Pods/WCDBOptimizedSQLCipher/src/analyze.c:876-895 | The 25 bytes per number that stat_get() allocates hold the text of 64-bit numbers and its terminator, and no number is cut off |
| StatText.StatGetCounts | Spotify/Pods/WCDBOptimizedSQLCipher/src/analyze.c:929-943 | The loop that writes the counts of a sample, cutting off the last space |
| StatText.DecodeIntArray | Spotify/Pods/WCDBOptimizedSQLCipher/src/analyze.c:1472-1488 | The two loops fill aOut[] with the specified numbers and leave the rest of it and of the text alone |
| StatGroups.ClosesIs | Spotify/Pods/WCDBOptimizedSQLCipher/src/analyze.c:1651-1658 | anDLt[] of neighbouring samples differs exactly if they do not share the prefix, which is what the loop tests |
| StatGroups.GroupsCounted | Spotify/Pods/WCDBOptimizedSQLCipher/src/analyze.c:1651-1658 | sumEq is the number of rows that share a prefix with a sample, each counted once, and nSum100 a hundred times the number of those prefixes |
| StatGroups.CoveredBelow | Spotify/Pods/WCDBOptimizedSQLCipher/src/analyze.c:1637-1640 | Leaving out the last sample restricts both sums to the rows below it |
| StatAverages.AverageIsExact | Spotify/Pods/WCDBOptimizedSQLCipher/src/analyze.c:1637-1664 | Without an estimate from sqlite_stat1, aAvgEq is the exact average, rounded down, of rows per prefix over the prefixes below the last sample that no sample has, and 1 if there are none |
| StatAverages.AverageIsUpperBoundIff | Spotify/Pods/WCDBOptimizedSQLCipher/src/analyze.c:1641-1664 | With the estimates of the same ANALYZE aAvgEq is at least the average over all prefixes without a sample exactly if the estimated number of prefixes exceeds those that have a sample, or that average is at most 1; it is exact if the average that was rounded up was a whole number |
| StatWitness.AverageTooSmall | Spotify/Pods/WCDBOptimizedSQLCipher/src/analyze.c:1641-1664 | An index of 51 rows for which the numbers and samples that ANALYZE writes make aAvgEq 1, although the one key without a sample has two rows or more |
| StatAverages.AnalyzeThenLoad | Spotify/Pods/WCDBOptimizedSQLCipher/src/analyze.c:1455-1513 | What ANALYZE has written for an index of fewer than 2 to the power of 32 rows is loaded unchanged: at least one sample, all with the exact counts of their rows, and the estimates of the whole index |
| StatAverages.InitAvgEq | Spotify/Pods/WCDBOptimizedSQLCipher/src/analyze.c:1614-1667 | The nested loops compute the specified averages, and 1 for the last column |
| BtreeMutexSafety.StepInv | Spotify/Pods/WCDBOptimizedSQLCipher/src/btmutex.c:71-152 | Every step of every connection keeps: locks match mutexes, and each connection is at a legal place of the protocol |
| BtreeMutexSafety.RunInv | Spotify/Pods/WCDBOptimizedSQLCipher/src/btmutex.c:71-214 | The invariant in every reachable interleaving of any number of connections |
| BtreeMutexProgress.WaitsUpward | Spotify/Pods/WCDBOptimizedSQLCipher/src/btmutex.c:105-137 | A blocked connection waits for a mutex that another holds, and holds only mutexes with smaller addresses |
| BtreeMutexProgress.NoDeadlock | Spotify/Pods/WCDBOptimizedSQLCipher/src/btmutex.c:105-137 | From any blocked connection, following who holds what leads upward to a connection that can move |
| BtreeMutexProgress.SomeoneCanMove | Spotify/Pods/WCDBOptimizedSQLCipher/src/btmutex.c:105-199 | In every reachable state in which a call is in progress some connection can move, although EnterAll locks in the order of aDb[] |
| BtreeMutexProgress.SomeCallProceeds | Spotify/Pods/WCDBOptimizedSQLCipher/src/btmutex.c:105-199 | If no mutex is held by a connection between calls, a call in progress can take its next step |
| BtreeMutexProgress.StepsRunDown | Spotify/Pods/WCDBOptimizedSQLCipher/src/btmutex.c:105-137 | Each step of a call brings its end nearer |
| BtreeMutexProgress.OthersStay | Spotify/Pods/WCDBOptimizedSQLCipher/src/btmutex.c:71-152 | A step of one connection changes no other connection |
| BtreeMutexCalls.AtRestMatches | Spotify/Pods/WCDBOptimizedSQLCipher/src/btmutex.c:41-97 | Between calls a btree is wanted exactly when it is locked, and exactly then its mutex is held with BtShared.db set |
| BtreeMutexCalls.EnterIsRecursiveLock | Spotify/Pods/WCDBOptimizedSQLCipher/src/btmutex.c:71-137 | Enter counts once more, restores all locks given up on the way, and leaves every other count alone, whatever other connections do meanwhile |
| BtreeMutexCalls.LeaveUndoesEnter | Spotify/Pods/WCDBOptimizedSQLCipher/src/btmutex.c:143-152 | Leave after Enter restores the connection |
| BtreeMutexCalls.EnterAllHoldsAll | Spotify/Pods/WCDBOptimizedSQLCipher/src/btmutex.c:186-237 | EnterAll establishes HoldsAllMutexes |
| BtreeMutexCalls.LeaveAllUndoes | Spotify/Pods/WCDBOptimizedSQLCipher/src/btmutex.c:203-214 | LeaveAll restores every count |
| BtreeMutexCalls.MutexAsserts | Spotify/Pods/WCDBOptimizedSQLCipher/src/btmutex.c:27-50 | The asserts of lockBtreeMutex() and unlockBtreeMutex() hold wherever a connection is about to call them |
| BtreeConnection.Connection.LockBtreeMutex | Spotify/Pods/WCDBOptimizedSQLCipher/src/btmutex.c:27-35 | A blocking lock, allowed only above every mutex held; records the connection in BtShared.db |
| BtreeConnection.Connection.UnlockBtreeMutex | Spotify/Pods/WCDBOptimizedSQLCipher/src/btmutex.c:41-50 | Releases the mutex of one btree; the assert that BtShared.db is this connection is proved |
| BtreeConnection.Connection.BtreeLockCarefully | Spotify/Pods/WCDBOptimizedSQLCipher/src/btmutex.c:105-137 | The loops over pNext end with exactly the locks held before, and the new one |
| BtreeConnection.Connection.BtreeEnter | Spotify/Pods/WCDBOptimizedSQLCipher/src/btmutex.c:71-97 | Counts, and locks on the first entry |
| BtreeConnection.Connection.BtreeLeave | Spotify/Pods/WCDBOptimizedSQLCipher/src/btmutex.c:143-152 | Counts down, and unlocks on the last leave |
| BtreeConnection.Connection.BtreeEnterAll | Spotify/Pods/WCDBOptimizedSQLCipher/src/btmutex.c:186-202 | The loop over aDb[] |
| BtreeConnection.Connection.BtreeLeaveAll | Spotify/Pods/WCDBOptimizedSQLCipher/src/btmutex.c:203-214 | The loop over aDb[] that undoes it |
| BtreeConnection.Connection.HoldsAllMutexes | Spotify/Pods/WCDBOptimizedSQLCipher/src/btmutex.c:223-237 | Decides whether all mutexes of aDb[] are held |
| BackupCopy.OnePageOk | Spotify/Pods/WCDBOptimizedSQLCipher/src/backup.c:247-336 | backupOnePage() puts every byte of the source page where the destination can hold it, for all pairs of page sizes, and touches no byte outside the page |
| BackupCopy.TurnInOnePage | Spotify/Pods/WCDBOptimizedSQLCipher/src/backup.c:308-333 | What one turn of the loop copies lies within one destination page |
| BackupCopy.HoleIsPendingPage | Spotify/Pods/WCDBOptimizedSQLCipher/src/backup.c:310-311 | An offset lies in the skipped destination page exactly when it lies in the hole after the pending byte |
| BackupRun.RunKeeps | Spotify/Pods/WCDBOptimizedSQLCipher/src/backup.c:371-620 | Over every run of steps, source writes, truncations and restarts in which no page copy and no commit of an unattached backup answers BUSY or LOCKED: while rc is not fatal, every source page before iNext is in the destination, except for pending-byte pages and the header bytes that finishing a backup rewrites |
| BackupRun.StepKeeps | Spotify/Pods/WCDBOptimizedSQLCipher/src/backup.c:371-620 | A step keeps that invariant, if no page copy answers BUSY or LOCKED and no commit of an unattached backup does |
| BackupRun.WriteKeeps | Spotify/Pods/WCDBOptimizedSQLCipher/src/backup.c:713-740 | A source write delivered through backupUpdate() keeps it; a write to a page that is not copied yet changes nothing, whatever the pager would answer |
| BackupRun.OtherEventsKeep | Spotify/Pods/WCDBOptimizedSQLCipher/src/backup.c:753-759 | So do truncation of the source and restarts |
| BackupFailure.CopyIsSafeIff | Spotify/Pods/WCDBOptimizedSQLCipher/src/backup.c:444-455 | Whatever the page holds, copying it keeps the invariant exactly if the answer is not BUSY or LOCKED, or the page lies in the destination's pending-byte page: iNext advances even if the copy failed |
| BackupFailure.RefusedContent | Spotify/Pods/WCDBOptimizedSQLCipher/src/backup.c:444-455 | A page content that is lost when its copy is refused |
| BackupFailure.UnattachedCommitGoesStale | Spotify/Pods/WCDBOptimizedSQLCipher/src/backup.c:456-464 | If the commit of a backup that copied everything in its first step answers BUSY or LOCKED, there is a write to page 1 of the source that does not reach it, whatever the pager answers |
| BackupFailure.StepIsSafeIff | Spotify/Pods/WCDBOptimizedSQLCipher/src/backup.c:456-464 | After a step whose copies were not refused, every write to page 1 reaches the backup exactly if the step did not end with such a commit |
| BackupWitness.RefusedCommitOccurs | Spotify/Pods/WCDBOptimizedSQLCipher/src/backup.c:456-464 | A source of one page of 512 bytes on which it happens |
| BackupDone.BackupCompletes | Spotify/Pods/WCDBOptimizedSQLCipher/src/backup.c:371-620 | From initialisation through any such run, a step that answers DONE leaves in the destination file every page of the source as it is then, except its pending-byte page, the page count and the schema cookie, and the versions if WAL mode was ever seen; and nothing beyond the end, also for an empty source |
| BackupDone.DoneMeansComplete | Spotify/Pods/WCDBOptimizedSQLCipher/src/backup.c:471-595 | The same for one step from any state that satisfies the invariant; the file ends where the source ends |
| BackupHeader.DoneHeader | Spotify/Pods/WCDBOptimizedSQLCipher/src/backup.c:475-486 | A step that answers DONE leaves in the file, read as big-endian numbers: in bytes 40 to 43 the schema cookie taken when the destination was locked plus one, in bytes 28 to 31 the number of source pages if the step began with page 1, both modulo 2 to the power of 32; and version 2 in bytes 18 and 19 in WAL mode |
| BackupHeader.HeaderIsRewritten | Spotify/Pods/WCDBOptimizedSQLCipher/src/backup.c:475-486 | The cookie, again as a big-endian number, and the versions of the image are rewritten whatever the commit answers |
| BackupHeader.DeliveredCount | Spotify/Pods/WCDBOptimizedSQLCipher/src/backup.c:325-330 | A write to page 1 of the source that is delivered leaves that page's own page count, not the number of source pages |
| BackupModel.FourBytesValue | Spotify/Pods/WCDBOptimizedSQLCipher/src/backup.c:325-330 | The four bytes written for the page count and for the cookie read as the big-endian number modulo 2 to the power of 32 |
| BackupAnswers.StepAnswers | Spotify/Pods/WCDBOptimizedSQLCipher/src/backup.c:371-470 | If no routine fails a step answers BUSY, and changes nothing, while the source is in a write transaction; READONLY, before any page, for WAL mode with another page size; and otherwise DONE exactly if nPage reaches past the last source page |
| BackupAnswers.MemoryAnswers | Spotify/Pods/WCDBOptimizedSQLCipher/src/backup.c:274-279 | If no routine fails and a page has to be copied, a database in memory with another page size is refused with READONLY, and nothing is written |
| BackupAnswers.DoneMeansSuccess | Spotify/Pods/WCDBOptimizedSQLCipher/src/backup.c:371-595 | A step answers DONE only if the source was not in a write transaction and every routine that it needs has succeeded, each page read included; IOERR_NOMEM is never answered but turned into NOMEM |
| BackupDone.ExtraWritesOk | Spotify/Pods/WCDBOptimizedSQLCipher/src/backup.c:560-574 | The extra loop writes exactly the pages from the first to the last that it should, and nothing else |
| BackupDone.HolePages | Spotify/Pods/WCDBOptimizedSQLCipher/src/backup.c:560-574 | Which source pages lie in the destination's pending-byte page |
| BackupDone.ExtraRange | Spotify/Pods/WCDBOptimizedSQLCipher/src/backup.c:560-574 | The extra loop covers exactly the skipped source pages, as far as the source goes |
| BackupLimits.DestTruncateCovers | Spotify/Pods/WCDBOptimizedSQLCipher/src/backup.c:503-536 | nDestTruncate is positive, satisfies the assert at 532-536 for all sizes, and one page fewer would be too few |
| BackupLimits.PageSizesFit | Spotify/Pods/WCDBOptimizedSQLCipher/src/backup.c:308-311 | All page sizes that are powers of two from 512 to 65536 meet the geometry that the other results assume |
| BackupLimits.OkStep | Spotify/Pods/WCDBOptimizedSQLCipher/src/backup.c:444-464 | A step that answers OK has copied exactly nPage pages, and nRemaining + iNext - 1 is the page count |
| BackupLimits.RemainingFalls | Spotify/Pods/WCDBOptimizedSQLCipher/src/backup.c:456-458 | Each such step lowers nRemaining by nPage |
| BackupLimits.OkStepsRunOut | Spotify/Pods/WCDBOptimizedSQLCipher/src/backup.c:444-464 | There are fewer consecutive OK steps than pages |
| BackupLimits.CopyFileEnds | Spotify/Pods/WCDBOptimizedSQLCipher/src/backup.c:801-808 | The single step of sqlite3BtreeCopyFile() never ends with OK |
| BackupLimits.CountersAddUpIff | Spotify/Pods/WCDBOptimizedSQLCipher/src/backup.c:456-458 | After a step whose copying succeeded nRemaining + iNext - 1 is the page count exactly if the source has not shrunk below the pages copied; if it has, nRemaining has wrapped around |
| BackupWitness.WrapOccurs | Spotify/Pods/WCDBOptimizedSQLCipher/src/backup.c:456-458 | A run of two steps, with the source truncated in between, after which it has |
| BackupLimits.FatalForever | Spotify/Pods/WCDBOptimizedSQLCipher/src/backup.c:238-240 | Every result code but OK, BUSY and LOCKED is absorbing: no event changes the backup any more, except that a restart resets iNext |
| BackupObjects.BackupHandle.constructor | Spotify/Pods/WCDBOptimizedSQLCipher/src/backup.c:205-211 | The new backup object |
| BackupObjects.BackupHandle.CopyPage | Spotify/Pods/WCDBOptimizedSQLCipher/src/backup.c:247-336 | The loop over destination pages refines the specified copy; the asserts at 270-273 are proved before it |
| BackupObjects.StepLocksFirst | Spotify/Pods/WCDBOptimizedSQLCipher/src/backup.c:270-273 | A step that has copied a page has locked the destination, so these asserts hold for every page delivered later |
| BackupObjects.BackupHandle.CopySome | Spotify/Pods/WCDBOptimizedSQLCipher/src/backup.c:444-455 | The copy loop of a step |
| BackupObjects.BackupHandle.WriteHole | Spotify/Pods/WCDBOptimizedSQLCipher/src/backup.c:560-574 | The extra write loop |
| BackupObjects.BackupHandle.Complete | Spotify/Pods/WCDBOptimizedSQLCipher/src/backup.c:471-595 | The end of a step |
| BackupObjects.BackupHandle.Advance | Spotify/Pods/WCDBOptimizedSQLCipher/src/backup.c:371-620 | A whole step, up to the attachment |
| BackupObjects.SourcePager.AttachBackupObject | Spotify/Pods/WCDBOptimizedSQLCipher/src/backup.c:359-366 | The backup goes to the head of the pager's list |
| BackupObjects.SourcePager.BackupStep | Spotify/Pods/WCDBOptimizedSQLCipher/src/backup.c:371-620 | sqlite3_backup_step() refines the specified step; it attaches the backup exactly when the step does |
| BackupObjects.SourcePager.BackupUpdate | Spotify/Pods/WCDBOptimizedSQLCipher/src/backup.c:713-740 | Every backup in the list receives the page |
| BackupObjects.SourcePager.BackupRestart | Spotify/Pods/WCDBOptimizedSQLCipher/src/backup.c:753-759 | Every backup in the list starts over |
| BackupObjects.SourcePager.BackupFinish | Spotify/Pods/WCDBOptimizedSQLCipher/src/backup.c:625-671 | The backup leaves the list, the others keep order and state; DONE is reported as OK |
| BitvecHash.ProbeFails | Spotify/Pods/WCDBOptimizedSQLCipher/src/bitvec.c:145-150 | A probe that ends at an empty slot has shown that the value is not stored |
| BitvecHash.ProbeInserts | Spotify/Pods/WCDBOptimizedSQLCipher/src/bitvec.c:228-231 | Storing there keeps every value reachable and adds exactly that value |
| BitvecHash.ProbeMoves | Spotify/Pods/WCDBOptimizedSQLCipher/src/bitvec.c:145-150 | Each turn of a probe comes nearer to an empty slot, so the probe loops end |
| BitvecHash.EmptySlot | Spotify/Pods/WCDBOptimizedSQLCipher/src/bitvec.c:188-231 | As long as fewer values than slots are counted there is an empty slot |
| BitvecHash.CountUpdate | Spotify/Pods/WCDBOptimizedSQLCipher/src/bitvec.c:228-231 | nSet counts the occupied slots |
| BitvecBits.SetAt | Spotify/Pods/WCDBOptimizedSQLCipher/src/bitvec.c:184-187 | Setting a bit of the bitmap sets that bit only |
| BitvecBits.ClearAt | Spotify/Pods/WCDBOptimizedSQLCipher/src/bitvec.c:252-253 | Clearing a bit of the bitmap clears that bit only |
| BitvecObjects.BinInRange | Spotify/Pods/WCDBOptimizedSQLCipher/src/bitvec.c:175-183 | Every bin index is below BITVEC_NPTR, and sub-bitmaps are smaller than their parent |
| BitvecObjects.BinIsUnique | Spotify/Pods/WCDBOptimizedSQLCipher/src/bitvec.c:175-183 | A value is determined by its bin and its place in the bin |
| BitvecObjects.RegatheredIs | Spotify/Pods/WCDBOptimizedSQLCipher/src/bitvec.c:175-183 | What happens to the set of a sub-bitmap happens to the whole set |
| BitvecObjects.Bitvec.constructor | Spotify/Pods/WCDBOptimizedSQLCipher/src/bitvec.c:115-123 | A new Bitvec stands for the empty set |
| BitvecObjects.Bitvec.Probe | Spotify/Pods/WCDBOptimizedSQLCipher/src/bitvec.c:145-150 | The probe loop decides membership and finds the slot for a new value |
| BitvecObjects.Bitvec.TestNotNull | Spotify/Pods/WCDBOptimizedSQLCipher/src/bitvec.c:130-155 | Test(i) holds exactly for the members, for every i, in all three forms |
| BitvecObjects.Bitvec.Set | Spotify/Pods/WCDBOptimizedSQLCipher/src/bitvec.c:169-232 | A successful Set adds exactly i; a failed one invents nothing; it terminates on the size of the node and on whether it is divided |
| BitvecObjects.Bitvec.Subdivide | Spotify/Pods/WCDBOptimizedSQLCipher/src/bitvec.c:209-227 | The conversion of the hash to sub-bitmaps loses and invents no element |
| BitvecObjects.Bitvec.Clear | Spotify/Pods/WCDBOptimizedSQLCipher/src/bitvec.c:240-272 | Clear removes exactly i |
| BitvecObjects.Bitvec.RebuildHash | Spotify/Pods/WCDBOptimizedSQLCipher/src/bitvec.c:255-270 | The hash rebuilt without i holds the other values |
| BitvecReplay.FillWithoutCollision | Spotify/Pods/WCDBOptimizedSQLCipher/src/bitvec.c:188-206 | Values with home slots of their own fill a hash up to one slot less than it has, far beyond BITVEC_MXHASH, without its being converted |
| BitvecReplay.Replay | Spotify/Pods/WCDBOptimizedSQLCipher/src/bitvec.c:337-384 | After any sequence of operations, unless memory ran out, the Bitvec stands for exactly the set they describe |
| BitvecReplay.BuiltinTest | Spotify/Pods/WCDBOptimizedSQLCipher/src/bitvec.c:337-410 | The built-in test reports a difference exactly when the operations made one, and none if opcode 5 was not used |
| ParserTables.FoundFor | Spotify/Pods/WCDBOptimizedSQLCipher/parse.c:2127-2190 | The column of an action stands for the token itself, its fallback, or the wildcard, which is never taken for the end of input |
| ParserTables.FoundDecides | Spotify/Pods/WCDBOptimizedSQLCipher/parse.c:2127-2190 | Stated on the arrays alone: the entry in the token's own column is the action if there is one, otherwise that of its fallback, otherwise, for the token or its fallback, that of the wildcard, and only if there is none of these the default of the state; the search finds exactly that action |
| ParserForest.TreeDerives | Spotify/Pods/WCDBOptimizedSQLCipher/parse.c:3069-3128 | A parse tree is a derivation of its leaves from its symbol, step by step in the grammar |
| ParserForest.TreeReads | Spotify/Pods/WCDBOptimizedSQLCipher/parse.c:2147-2182 | The leaves read each token as something it may be taken for |
| ParserMachine.Handle | Spotify/Pods/WCDBOptimizedSQLCipher/parse.c:3069-3128 | The symbols on top of the stack spell the part of the rule before the dot, for every item of the top state |
| ParserSafety.ReduceOk | Spotify/Pods/WCDBOptimizedSQLCipher/parse.c:3069-3128 | A reduction finds its goto, replaces the handle by one tree and keeps the tokens; an empty rule on a full stack overflows |
| ParserSafety.ShiftOk | Spotify/Pods/WCDBOptimizedSQLCipher/parse.c:2270-2307 | A shift adds the token to the yield, or overflows exactly on a full stack |
| ParserSafety.TurnOk | Spotify/Pods/WCDBOptimizedSQLCipher/parse.c:5171-5289 | One turn of the driver's loop: no assert fails, the stack stays within its bounds, its trees keep spelling the tokens |
| ParserSafety.TurnEnds | Spotify/Pods/WCDBOptimizedSQLCipher/parse.c:5171-5289 | A turn ends in a syntax error, in a shift or in a reduction exactly as the action so decided says, and as the stack has room |
| ParserSafety.OverflowIff | Spotify/Pods/WCDBOptimizedSQLCipher/parse.c:2284-2289 | The loop ends on an overflow exactly when a full stack would have to grow; the stack is then popped to its bottom |
| ParserSafety.DriveOk | Spotify/Pods/WCDBOptimizedSQLCipher/parse.c:5135-5303 | A whole call keeps the invariant, whatever its outcome |
| ParserSafety.FeedOk | Spotify/Pods/WCDBOptimizedSQLCipher/parse.c:5135-5303 | Over every run, the trees on the stack spell exactly the tokens shifted so far |
| ParserSafety.AcceptedDerives | Spotify/Pods/WCDBOptimizedSQLCipher/parse.c:5094-5114 | Acceptance implies that the tokens, after fallback or wildcard, derive from the start symbol |
| ParserSafety.DelayedIsPlain | Spotify/Pods/WCDBOptimizedSQLCipher/parse.c:2299-2305 | A stack with pending reductions behaves like the one on which they were made at once, for every next token |
| ParserSafety.DelayedRunIsPlain | Spotify/Pods/WCDBOptimizedSQLCipher/parse.c:2299-2305 | Over any stream of tokens that the parser making each reduction at once shifts, the parser with pending reductions shifts it, too, and its stack settles into the stack of the other |
| ParserSafety.DelayedOutcomeIsPlain | Spotify/Pods/WCDBOptimizedSQLCipher/parse.c:2299-2305 | The token at which the run ends, by acceptance, an error or an overflow, ends it in the same way and with the same stack |
| ParserSafety.PendingSettles | Spotify/Pods/WCDBOptimizedSQLCipher/parse.c:2299-2305 | Every pending reduction can be made at once, with the same yield |
| ParserWitness.SmallFits | Spotify/Pods/WCDBOptimizedSQLCipher/parse.c:273-299 | Compressed tables satisfy Fits for a grammar with a place for two terminals, an empty rule, a unit rule that is optimised out, the wildcard, and a fallback whose token has an entry of its own in one state |
| ParserWitness.SmallAccepts | Spotify/Pods/WCDBOptimizedSQLCipher/parse.c:5171-5289 | With them the parser accepts, with the trees given: sentences that need a fallback, the second terminal of a place and the missing unit rule; the wildcard, for any token; the empty rule; and a keyword in the state in which it has its own entry, as itself |
| ParserObjects.YyFindShiftAction | Spotify/Pods/WCDBOptimizedSQLCipher/parse.c:2127-2190 | The loop over fallbacks finds the specified action |
| ParserObjects.YyParser.YyStackOverflow | Spotify/Pods/WCDBOptimizedSQLCipher/parse.c:2225-2244 | The pops end at the bottom entry |
| ParserObjects.YyParser.YyShift | Spotify/Pods/WCDBOptimizedSQLCipher/parse.c:2270-2307 | The shift on the array of entries |
| ParserObjects.YyParser.YyReduce | Spotify/Pods/WCDBOptimizedSQLCipher/parse.c:3069-3128 | The reduction on the array of entries |
| ParserObjects.YyParser.Parse | Spotify/Pods/WCDBOptimizedSQLCipher/parse.c:5135-5303 | The do-while loop refines the specified run |
| RenameModel.EditLeft | Spotify/Pods/WCDBOptimizedSQLCipher/src/alter.c:1037-1061 | Replacing one more token, left of those already replaced, is one edit of the text as it is then |
| RenameModel.ReplacedToken | Spotify/Pods/WCDBOptimizedSQLCipher/src/alter.c:1037-1061 | At a token the simultaneous substitution puts the replacement and goes on behind the token |
| RenameModel.ReplacedCopies | Spotify/Pods/WCDBOptimizedSQLCipher/src/alter.c:1037-1061 | Text outside the tokens is copied |
| RenameModel.RenameToSame | Spotify/Pods/WCDBOptimizedSQLCipher/src/alter.c:1037-1061 | If every token already carries the new name the substitution is the identity |
| RenameNames.TokenReads | Spotify/Pods/WCDBOptimizedSQLCipher/src/alter.c:1017-1061 | What stands in the result at each token: with bQuote, or where the token does not begin like an identifier, a name in double quotes that reads back as the new name exactly if no double quote follows; otherwise the new name itself, which, being a plain identifier, reads back as such exactly if no identifier character follows |
| RenameNames.QuotedReads | Spotify/Pods/WCDBOptimizedSQLCipher/src/alter.c:1017-1017 | Whatever the name, its quoted form reads back as the name, with doubled quotes undone, exactly if no double quote follows |
| RenameNames.NamesRunTogether | Spotify/Pods/WCDBOptimizedSQLCipher/src/alter.c:1017-1061 | A statement with a quoted name directly behind the token: the two names then read as one |
| RenameObjects.RenameList.Map | Spotify/Pods/WCDBOptimizedSQLCipher/src/alter.c:688-701 | The new token heads the list |
| RenameObjects.RenameList.Remap | Spotify/Pods/WCDBOptimizedSQLCipher/src/alter.c:708-717 | The first token of the old element is reassigned, no other |
| RenameObjects.RenameCtx.TokenFind | Spotify/Pods/WCDBOptimizedSQLCipher/src/alter.c:775-788 | The first token of the element moves to the context; nothing else changes |
| RenameObjects.RenameCtx.TokenNext | Spotify/Pods/WCDBOptimizedSQLCipher/src/alter.c:852-864 | Exactly the rightmost remaining token is taken out |
| RenameObjects.EditToken | Spotify/Pods/WCDBOptimizedSQLCipher/src/alter.c:1051-1059 | One token is replaced in the buffer, with the rest of the text moved |
| RenameObjects.EditSql | Spotify/Pods/WCDBOptimizedSQLCipher/src/alter.c:997-1071 | For any order of the list of disjoint tokens the result is the simultaneous substitution, plain or quoted, within nSql+nList*nQuot+1 bytes |
| CompleteScan.SqliteComplete | Spotify/Pods/WCDBOptimizedSQLCipher/src/complete.c:104-261 | The scanning loop computes the specified decision for every text |
| CompleteScan.Scan | Spotify/Pods/WCDBOptimizedSQLCipher/src/complete.c:144-256 | The switch finds the next token |
| CompleteLaws.Concatenation | Spotify/Pods/WCDBOptimizedSQLCipher/src/complete.c:104-261 | If a text is complete and does not end in an open line comment, appending another is complete exactly if that one is complete or blank |
| CompleteLaws.OpenComment | Spotify/Pods/WCDBOptimizedSQLCipher/src/complete.c:170-179 | A line comment at the end swallows what follows on the line |
| CompleteLaws.StartOrInvalid | Spotify/Pods/WCDBOptimizedSQLCipher/src/complete.c:112-123 | START differs from INVALID only in that nothing need follow |
| CompleteLaws.TriggerEndsOnlyAfterEnd | Spotify/Pods/WCDBOptimizedSQLCipher/src/complete.c:112-123 | From TRIGGER the machine returns to START only through a semicolon, END and a semicolon, with whitespace between and further semicolons only before END |
| CompleteLaws.TriggerEndsAfterEnd | Spotify/Pods/WCDBOptimizedSQLCipher/src/complete.c:112-123 | And there it does return |
| CompleteLaws.TailStates | Spotify/Pods/WCDBOptimizedSQLCipher/src/complete.c:112-123 | The states SEMI and END remember exactly the tail of the definition |
| CompleteLaws.OrdinaryComplete | Spotify/Pods/WCDBOptimizedSQLCipher/src/complete.c:104-261 | A text without the keyword CREATE is complete exactly if it closes what it opens and its last token is a semicolon |
| CompleteStatements.CompleteIff | Spotify/Pods/WCDBOptimizedSQLCipher/src/complete.c:104-261 | Every text: it is complete exactly if it closes what it opens and its significant tokens are a sequence of statements, each ended by a semicolon, or, if it begins with CREATE, any TEMPs and TRIGGER, also behind EXPLAIN and another token, by a semicolon, END and a semicolon |
| CompleteStatements.TriggerComplete | Spotify/Pods/WCDBOptimizedSQLCipher/src/complete.c:112-123 | A text that begins as such a trigger, whose body ends nowhere earlier, is complete exactly if it closes what it opens and ends with a semicolon, END and a semicolon |
| CompleteStatements.StartIff | Spotify/Pods/WCDBOptimizedSQLCipher/src/complete.c:112-123 | The table of transitions returns to START exactly on the sequences of statements |
| CompleteStatements.ItemsComplete | Spotify/Pods/WCDBOptimizedSQLCipher/src/complete.c:104-261 | The same over texts put together from keywords in any case, other words, quoted strings, brackets, comments, blanks and semicolons |
| CompleteStatements.OpenIncomplete | Spotify/Pods/WCDBOptimizedSQLCipher/src/complete.c:157-193 | A text that ends inside a quote, a bracket or a block comment is not complete |
| CompleteStatements.LineComplete | Spotify/Pods/WCDBOptimizedSQLCipher/src/complete.c:170-179 | A line comment that is still open at the end makes no difference |
| FunctionMatch.ScoreMeans | Spotify/Pods/WCDBOptimizedSQLCipher/src/callback.c:251-283 | When a score is positive, at least 4, or perfect |
| FunctionMatch.ScoreTable | Spotify/Pods/WCDBOptimizedSQLCipher/src/callback.c:251-283 | Every score: 6 or 0 for the question whether there is any callable definition; otherwise 0 unless the argument count fits, 4 to 6 for the exact count and 1 to 3 for any count, and within these two more for the same encoding and one more for the other order of UTF-16 |
| FunctionMatch.ExactCountWins | Spotify/Pods/WCDBOptimizedSQLCipher/src/callback.c:251-283 | The right number of arguments beats any encoding |
| FunctionMatch.CreatedIsPerfect | Spotify/Pods/WCDBOptimizedSQLCipher/src/callback.c:406-423 | A definition just created scores as a perfect match for the same request exactly if the encoding and the argument count survive being stored in its fields |
| FunctionRegistry.SearchBest | Spotify/Pods/WCDBOptimizedSQLCipher/src/callback.c:367-374 | The loop settles on the first definition with the highest positive score |
| FunctionRegistry.FuncDefHash.FunctionSearch | Spotify/Pods/WCDBOptimizedSQLCipher/src/callback.c:286-297 | The walk along the hash chain finds the list of the name, if there is one |
| FunctionRegistry.FuncDefHash.OverloadsAre | Spotify/Pods/WCDBOptimizedSQLCipher/src/callback.c:302-324 | Each name heads exactly one chain entry, whose list holds exactly its definitions |
| FunctionRegistry.FuncDefHash.Insert | Spotify/Pods/WCDBOptimizedSQLCipher/src/callback.c:302-324 | A definition goes second in the list of its name or starts an entry; no other name changes |
| FunctionRegistry.FuncDefHash.InsertBuiltinFuncs | Spotify/Pods/WCDBOptimizedSQLCipher/src/callback.c:302-324 | After the loop every list holds the definitions of its name, old and new |
| FunctionRegistry.Database.FindFunction | Spotify/Pods/WCDBOptimizedSQLCipher/src/callback.c:347-429 | The function found is a best match, first of those with the highest score, among those of the application, or among the built-in ones if there is none or the flag prefers them; null exactly if nothing matches or the match cannot be called |
| FunctionRegistry.ChosenMeans | Spotify/Pods/WCDBOptimizedSQLCipher/src/callback.c:367-400 | Which list the best match is taken from, and when there is none |
| FunctionRegistry.Database.FindOrCreate | Spotify/Pods/WCDBOptimizedSQLCipher/src/callback.c:347-429 | With createFlag a perfect match is reused, and otherwise a new definition heads the list; a later search for the same name, argument count and encoding finds what was returned, if the encoding fits its two bits and the argument count its byte |
| FunctionRegistry.PerfectHead | Spotify/Pods/WCDBOptimizedSQLCipher/src/callback.c:367-374 | A perfect match at the head of a list is found again |

## Left out

ANALYZE
- The registers and opcodes of `analyzeOneTable()`: the scan is a loop over the entries, and `OP_Count` is the number of entries.
- Stat4.Stat4Accum.constructor: counts are unbounded integers; the 32-bit `tRowcnt` is modelled only where text is read back, so an index of 2 to the power of 32 rows or more is not covered by the loading results.
- Stat4.Stat4Accum.AppendSample: the source recycles the arrays of the evicted sample; here a sample is a value, so sharing of these arrays is not modelled.
- StatText.DecodeIntArray: the flags `unordered`, `sz=` and `noskipscan` behind the numbers, and `aLog`, whose function `sqlite3LogEst()` is not part of this model.
- StatAverages.AnalyzeThenLoad: the SQL statements that store and read the rows are left out; the samples come back in the order in which they were written.
- STAT3, and the memory of rowids and blobs.

Backup
- `findBtree()`, the checks of `sqlite3_backup_init()`, codecs, threads and mutexes.
- BackupRun.RunKeeps: the runs are calm; what other runs lose is stated in `BackupFailure`.
- BackupDone.BackupCompletes: the pagers are assumed never to answer DONE themselves (`NeverDone`), and the run to be calm.
- BackupObjects.BackupHandle.Complete: the loop at 544-554 that journals destination pages is reduced to the answer it gives; `sqlite3BtreeNewDb()` is reduced to its result code.
- BackupLimits.DestTruncateCovers: page numbers are unbounded, so the width of `nDestTruncate` is not modelled.
- BackupObjects.SourcePager.BackupFinish: the rollback of the destination and the release of the handle.

Mutexes
- Cursors, incremental blob handles and the database mutex; which b-trees are sharable is fixed.
- BtreeConnection.Connection.MutexTry: other connections appear only as the chance that the mutex is taken; the interleaving is the subject of the machine in `BtreeMutex`.

Bitvec
- BitvecObjects.Bitvec.Set: the union is three separate arrays, so the reuse of its memory is modelled as copying out the hash before the conversion; the descent into sub-bitmaps is a recursion instead of a loop; whether an allocation fails is a free choice.
- `sqlite3BitvecDestroy()`, and the random numbers of the built-in test, whose operations are a parameter.

Parser
- The generated tables: that those of the repository satisfy `Fits` is not proved here; `parser_tables.py` derives their item sets and lists what they break.
- ParserObjects.YyParser.YyReduce: the 369 semantic actions are not modelled; each builds a node of a parse tree.
- ParserObjects.YyParser.Parse: for arbitrary tables the loop of reductions need not end, so the method takes a number of turns within which it does; that the repository's tables always end is not shown.
- Tracing, and the growing stack of builds with `YYSTACKDEPTH` zero.
- `parserDoubleLinkSelect()`, which turns round the links of a compound SELECT.

Rename
- RenameObjects.EditSql: tokens must not be empty and must not overlap, as those of one statement; the source relies on this too.
- RenameNames.TokenReads: an identifier is read here as a run of identifier characters or as text in double quotes; that a plain name may be a keyword or begin with a digit is not modelled.
- The walkers that collect the tokens, parsing, and the check for dangling elements in debug builds.

Complete
- UTF-16, EBCDIC, and builds without triggers.

Function registry
- FunctionRegistry.Database.FindOrCreate: `sqlite3Hash` is a map, so its buckets are not modelled; an allocation that fails is a free choice.
- Collating sequences, and clearing of schemas.

Everything else
- `attach.c`: the fixer visits every node of a tree and would add only easy members.
- The Objective-C headers of the application and its other libraries: declarations without bodies.
