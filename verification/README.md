# A verified model of the concurrent key-value store

The program reads job files from a directory. A pool of threads runs them against one shared hash
table of 26 chained buckets, each bucket with its own read/write lock, under one more global
read/write lock. `WRITE`, `READ` and `DELETE` sort their keys, lock the buckets they name, and then
work pair by pair; `SHOW` prints the table; `BACKUP` forks a child that prints its copy of the table
to a file, and a counter limits how many such children are alive. The second part of the program
adds client sessions: a ring buffer between the host thread and the session managers, and slots for
subscribers in every node of the table.

The project models the final version of the first part (`SO-Parte1/grupo5-ex3`), what only the
second part has (`SOParte2/src/server`), and the script that generates job files
(`SO-Parte1/grupo5-ex1/gerador_testes.py`).

## How it is built

| file | what is in it |
|---|---|
| `Text`, `Store`, `Sorting`, `Listing` | `strcmp` and decimal numbers; the table as values and the map it stands for; the insertion sort on arrays; the text of `SHOW` |
| `HashTable`, `Subscriptions` | the linked nodes on the heap, proved against `Store`; the subscriber slots |
| `Commands`, `Answers` | what a command does pair by pair, and what that means on the map; the text of READ and DELETE, byte by byte |
| `Protocol` | job threads, locks, backup children and the main thread as a machine of small steps |
| `Locking`, `Serial`, `Linearizability`, `RealTime`, `AtomicMap` | lock balance and race freedom; the one-command-at-a-time machine; the refinement between the two; its order in time; the map machine behind it |
| `Backups`, `Throttling`, `Dispatch` | backup counter, files and names; the exact limit; who runs which job |
| `OutputFiles`, `Directory`, `Sharing` | the output files; which files a run writes, and whether scripts are among them; what the names of the entries decide |
| `Progress`, `Termination`, `Deadlock`, `Overlap` | no deadlock for ordered commands; every run can end; disordered commands can deadlock; which commands can run at the same time |
| `Grammar`, `RoundTrip`, `Recovery`, `Lookahead`, `Limits`, `Parser` | what the parser accepts; parser and printer are inverse; where it goes on after an error; it never looks ahead, and comments; what fits; the byte-at-a-time reader with its arrays |
| `Operations` | one thread running a job file from bytes to output through the reader, the sort, the locks and the heap table |
| `Histories`, `Sessions`, `SessionOrder`, `AtomicSessions` | requests of clients beside the job threads: one serial order for pairs, slots and answers; no deadlock; the end |
| `OneJob`, `Examples`, `Conformance` | a program of one job is that job run alone; the repository's job files give its expected results |
| `RingBuffer`, `Generator` | the session hand-over; the job file generator |

In `Protocol` one step is one lock, one unlock, one pair applied, one key read, one node printed, one
fork, one `wait`. A run is any list of actions (`After`): an action that is not enabled when its turn
comes is skipped, so every list stands for an interleaving and every interleaving has a list.
Numbers of threads, jobs and commands are arbitrary. A lock is granted when no conflicting holder
exists; nothing is assumed about who is preferred among waiting readers and writers. Locks are
numbered in nesting order: job counter mutex, backup mutex, global lock, buckets 0 to 25.

A linearization orders whole commands by their *lock point*, the step at which the last lock loop
ends (for `SHOW` and `BACKUP`, the step after which the command has all its locks). `Linearizable`
relates every reachable state to the serial machine run on that order: same table, output, places
in the jobs and backups, up to what the commands in progress still have to do.

`Sessions` puts client sessions beside that machine: a session locks the bucket of its request for
writing, serves it in one step, and unlocks. Its serial order takes a command at its lock point and a
request when it is served.

## Results that differ from what one might expect

- **Sorting does not always order the locks.** `strcmp` puts digits before capitals before small
  letters, the hash folds case and lays digits over the first ten letters. A command locks its
  buckets in ascending order, and so cannot cause a deadlock, exactly when `Ascending` holds of its
  sorted keys; keys that begin in one class (all small, all capital, all digits) suffice. For every
  command without it there is an ordinary `WRITE` with which two threads deadlock
  (`Deadlock.AscendingIsNecessary`); `WRITE [(a,1)(B,2)]` is such a command. Safety (serial
  equivalence, race freedom, backups) does not need the condition.
- **A limit of zero backups is not respected.** The thread waits for a child only if there is one,
  and then makes its own. The counter stays within the limit of the command line exactly when that
  limit is at least one (`Throttling.LimitIsExact`); otherwise it behaves as a limit of one.
- **Directory entries need only contain ".job".** Output and backup files are put beside the scripts and
  named after the entry without its last four characters, its stem. Two things can go wrong, and
  `Sharing.NamesDecide` says exactly when. With two equal stems ("a.job.old" and "a.job.bak") there is
  a run in which jobs overwrite each other's backups and outputs. And an entry can have the name of a
  file the program makes: "a.job.out" is its own output file, truncated before its first command is
  read; "a.job-1.bck" is the first backup of "a.job.old". For any names, in all runs: backups are kept
  if and only if the stems are distinct; the scripts are never written to if and only if no entry is
  so taken (`NoneTaken`); each output file ends up as the serial text of its script if and only if
  both hold. For one program, `Directory.OverwritesExactly` counts its BACKUPs. Names that end in
  ".job" are safe (`Backups.JobNamesSuffice`, `Directory.JobNamesNotTaken`).
- **A deadlock is never forced.** Even commands whose keys are out of order have a run that ends, one
  thread at a time (`Termination.SomeRunFinishes`).
- **A mistake can cost the following line too.** A rejected command costs its own line and no more
  exactly when nothing follows that line, or the parser gave up on that line and not within a pair
  (`Recovery.RejectedCostsOneLine`): within a pair it skips to a newline twice, and a short word or a
  key may already have swallowed the newline.
- **The parser takes pairs without commas between them**, `WRITE [(a,1)(b,2)]`, where the help text
  (`SO-Parte1/grupo5-ex3/main.c:154`) shows a comma. The model follows the code.
- **The comment at `SO-Parte1/grupo5-ex1/kvs.c:8` asks for lowercase keys**; the code takes any
  letter or digit, and so does the model.

## What is assumed of the inputs

- A key begins with an ASCII letter or digit (`ValidKey`). For other keys the hash is -1 and the
  program indexes outside its arrays. The parser accepts such keys; the theorems about running
  commands ask for `ValidCommand`.
- `fork` succeeds and a backup child ends by itself.
- What a job prints is a file of its own only under `DistinctStems` of the entries' names, and its
  commands are those of the script found in the directory only under `NoneTaken`; the theorems about
  `out` speak of what each job writes, for the commands it reads. `Sharing` and `Directory` say exactly
  when the two conditions hold and fail. A run in which a script is written to is a run of the program
  up to that write.
- At most 1024 entries, and paths of fewer than 1024 bytes, so that none is truncated.
- Subscribed descriptors are not 0, which marks a free slot, and a new node has free slots.
- In the ring buffer the semaphores are initialised before the first step, and one `read` of the
  registration pipe gives one whole record.

## Model

| member | source | states |
|---|---|---|
| Text.AtMostTotalOrder | SO-Parte1/grupo5-ex3/main.c:28 | the comparison the sort uses is a total order on strings |
| Text.LessIsAtFirstDifference | SO-Parte1/grupo5-ex3/main.c:28 | without recursion: one string is smaller exactly when, at the first place where they differ, it ends or has the smaller byte |
| Text.PrefixIsLess | SO-Parte1/grupo5-ex3/main.c:28 | a proper prefix comes first |
| Text.DecimalReadsBack | SO-Parte1/grupo5-ex3/parser.c:68 | `strtoul` of a printed number gives the number |
| Text.DecimalIsCanonical | SO-Parte1/grupo5-ex3/operations.c:196 | a printed number has no leading zeros, and a text of digits without them is the one printed for its number |
| Store.ReadIsLookup | SO-Parte1/grupo5-ex3/kvs.c:57-70 | reading a pair is looking the key up in the map of a well-formed table |
| Store.WriteIsUpdate | SO-Parte1/grupo5-ex3/kvs.c:32-53 | writing a pair updates the map at that key only, and keeps keys distinct and in their buckets |
| Store.DeleteIsRemoval | SO-Parte1/grupo5-ex3/kvs.c:73-98 | deleting removes exactly that key from the map and keeps the table well formed |
| Store.EmptyMap | SO-Parte1/grupo5-ex3/kvs.c:22-29 | the new table is well formed and stands for the empty map |
| Store.HashIsPlace | SO-Parte1/grupo5-ex3/kvs.c:10-20 | the bucket is the place of the first character in the alphabet, in either case, or among the digits; other keys have none |
| HashTable.HashTable.constructor | SO-Parte1/grupo5-ex3/kvs.c:22-29 | 26 null heads; the table holds nothing |
| HashTable.HashTable.ReadPair | SO-Parte1/grupo5-ex3/kvs.c:57-70 | walking the chain by pointer finds what the table of values says, and changes nothing |
| HashTable.HashTable.WritePair | SO-Parte1/grupo5-ex3/kvs.c:32-53 | overwrites a live key in its node, or puts one fresh node at the head; all other nodes, their order and the subscriber slots stay |
| HashTable.HashTable.DeletePair | SO-Parte1/grupo5-ex3/kvs.c:73-98 | splices out exactly the node of the key, returns 1 when there is none, and keeps every other node in order |
| HashTable.HashTable.NodesAreDistinct | SO-Parte1/grupo5-ex3/kvs.c:50-51 | chains are disjoint and acyclic: a node has one place in one bucket |
| HashTable.HashTable.Show | SO-Parte1/grupo5-ex3/operations.c:161-176 | the walk over the heap prints the listing of the table |
| HashTable.HashTable.AddSubscriber | SOParte2/src/server/kvs.c:52-74 | the result and the new slots of the key's node; pairs and nodes untouched |
| HashTable.HashTable.RemoveSubscriber | SOParte2/src/server/kvs.c:76-93 | likewise for removal |
| Sorting.InsertionSort | SO-Parte1/grupo5-ex3/main.c:18-39 | the two parallel arrays are sorted in place to the stable sort of their pairs; entries beyond `n` stay |
| Sorting.InsertNext | SO-Parte1/grupo5-ex3/main.c:22-37 | one round of shifting inserts entry `i` after the keys that are not larger |
| Sorting.SortIsStable | SO-Parte1/grupo5-ex3/main.c:18-39 | the result is sorted, a permutation, and keeps the order of pairs with equal keys |
| Sorting.SortIsUnique | SO-Parte1/grupo5-ex3/main.c:18-39 | it is the only sequence with these properties |
| Sorting.SortPreservesWrite | SO-Parte1/grupo5-ex3/main.c:72 | storing the pairs in sorted order gives the same map as in the user's order, the last duplicate winning |
| Sorting.SortIgnoresValues | SO-Parte1/grupo5-ex3/main.c:85 | for READ and DELETE the stale value array does not influence where keys go |
| Listing.TextDeterminesTable | SO-Parte1/grupo5-ex3/operations.c:161-191 | two tables with parser-accepted strings that print the same text are the same, bucket by bucket and in order |
| Listing.OnePairText | SO-Parte1/grupo5-ex3/operations.c:169 | one pair prints as "(key, value)" and a newline |
| Listing.ShownByPlace | SO-Parte1/grupo5-ex3/operations.c:164-174 | of two live keys, the one whose first character has the earlier place is shown first |
| Listing.BucketHoldsLivePairs | SO-Parte1/grupo5-ex3/operations.c:164-174 | after any history a bucket lists exactly its live pairs, each once |
| Listing.ListedNewestFirst | SO-Parte1/grupo5-ex3/kvs.c:46-51 | within a bucket, keys stand in reverse order of the insertion that made their node; overwriting does not move a key, deleting and writing again does |
| Listing.AfterIsMapAfter | SO-Parte1/grupo5-ex3/kvs.c:32-98 | any sequence of writes and deletes on the table is the same sequence on the map |
| Slots.AddIsInsert | SOParte2/src/server/kvs.c:58-69 | slots are a set of at most three descriptors: adding succeeds exactly when the descriptor is new and there is room, and then adds just it |
| Slots.DropIsRemove | SOParte2/src/server/kvs.c:82-88 | removal succeeds exactly when the descriptor is there and takes just it away |
| Slots.ThreeFit | SOParte2/src/common/constants.h:2 | three different subscribers fit in that order, and a fourth is refused |
| Subscriptions.PairsIgnoreSubscriptions | SOParte2/src/server/kvs.c:52-93 | over any mix of operations the pairs are those of the history without the subscriptions |
| Subscriptions.SlotsHoldSubscribers | SOParte2/src/server/kvs.c:52-175 | and the slots of each live key hold exactly its subscribers: overwriting keeps them, deleting drops them, no duplicates |
| Commands.WriteMeans | SO-Parte1/grupo5-ex3/operations.c:56-60 | a whole WRITE updates the map with the user's pairs in the user's order |
| Commands.ReadMeans | SO-Parte1/grupo5-ex3/operations.c:89-104 | READ leaves the table and prints one entry per sorted key, its value or KVSERROR |
| Commands.DeleteMeans | SO-Parte1/grupo5-ex3/operations.c:133-148 | DELETE removes its keys and prints nothing, or one bracketed list of the keys it missed |
| Commands.MissingCount | SO-Parte1/grupo5-ex3/operations.c:134-144 | a key the user names m times is missed m - 1 times if it was live and m times if not |
| Answers.SortedKeysAre | SO-Parte1/grupo5-ex3/main.c:85 | the keys a READ visits are the user's, each as often, in `strcmp` order |
| Answers.ReadText | SO-Parte1/grupo5-ex3/operations.c:88-104 | READ prints "[", then "(key,value)" or "(key,KVSERROR)" for each of its sorted keys, then "]" and a newline |
| Answers.ReadOne | SO-Parte1/grupo5-ex3/operations.c:88-104 | the whole text of a READ of one key |
| Answers.ReadTells | SO-Parte1/grupo5-ex3/operations.c:88-104 | two tables on which a READ prints the same agree on every key it names, the literal value "KVSERROR" aside |
| Answers.DeleteText | SO-Parte1/grupo5-ex3/operations.c:132-148 | DELETE prints nothing, or "(key,KVSMISSING)" for each miss in `strcmp` order, in brackets on a line: a key named n times n - 1 times if it was live, n times if not |
| Answers.DeleteOne | SO-Parte1/grupo5-ex3/operations.c:132-148 | the whole text of a DELETE of one key |
| Answers.ReportTells | SO-Parte1/grupo5-ex3/operations.c:132-148 | the text of a DELETE tells the list of keys it missed |
| Protocol.After | SO-Parte1/grupo5-ex3/operations.c:40-176 | in every reachable state each thread's position agrees with its command, its sorted keys and its `hashed` marks |
| Locking.LocksAlwaysMatch | SO-Parte1/grupo5-ex3/operations.c:45-70 | in every reachable state the lock objects say exactly what the threads' positions say |
| Locking.LockBalance | SO-Parte1/grupo5-ex3/operations.c:45-70 | a thread never asks for a lock it holds and only gives back locks it holds |
| Locking.HoldsItsBuckets | SO-Parte1/grupo5-ex3/operations.c:80-87 | while applying, a command holds the buckets of the keys it names and no others, for writing only if it is a WRITE or DELETE |
| Locking.OnlyWritersExclude | SO-Parte1/grupo5-ex3/operations.c:45-54 | a bucket is held exclusively by WRITE and DELETE only, the global lock by SHOW only; at the fork a BACKUP holds every bucket for reading |
| Locking.NoRace | SO-Parte1/grupo5-ex3/operations.c:45-60 | no bucket is changed by one thread while another changes, reads, prints or copies it |
| Locking.OnlyMutationsChange | SO-Parte1/grupo5-ex3/operations.c:56-60 | a step that `NoRace` does not call a change of a bucket leaves the bucket as it is |
| Locking.OnlyLooksSee | SO-Parte1/grupo5-ex3/operations.c:89-104 | a step that it does not call a look does the same whatever the bucket holds |
| Locking.NoCounterRace | SO-Parte1/grupo5-ex3/main.c:180-190 | the job counter and the backup counter are touched by one thread at a time |
| Serial.RunNumbers | SO-Parte1/grupo5-ex3/main.c:119-138 | in the serial machine the backups of each job are numbered 1, 2, ... in order |
| Linearizability.Linearizable | SO-Parte1/grupo5-ex3/operations.c:40-176 | every interleaving, at every state, is a serial run of the same commands at their lock points: table, output, places and backups agree |
| Linearizability.FinalStateIsSerial | SO-Parte1/grupo5-ex3/operations.c:40-176 | when the threads are done, the final table and what each job wrote are those of that serial run, and every job ran to its end |
| Linearizability.OrderOnlyGrows | SO-Parte1/grupo5-ex3/operations.c:45-54 | as a run goes on, the serial order is only added to at its end |
| RealTime.TurnsArePlaces | SO-Parte1/grupo5-ex3/main.c:63-173 | in the serial order a job has had as many turns as commands of it have taken effect |
| RealTime.OrderIsRealTime | SO-Parte1/grupo5-ex3/operations.c:45-54 | if at some point of a run one command has ended and another has not begun, the first has its turn in the serial order before any turn of the second, however the run goes on |
| Linearizability.BackupIsAtomic | SO-Parte1/grupo5-ex3/main.c:126-140 | the table a child gets is the table after a prefix of whole commands |
| AtomicMap.ActsOnMap | SO-Parte1/grupo5-ex3/operations.c:40-159 | run as a whole on a well-formed table, each command acts on its map, and its text is read off the map; only SHOW looks at the order of nodes |
| AtomicMap.SerialIsAtomicMap | SO-Parte1/grupo5-ex3/operations.c:40-159 | the serial machine's table stands for the map on which its commands acted one after another |
| AtomicMap.NextTextIsSaid | SO-Parte1/grupo5-ex3/operations.c:88-104 | what a job's next command adds to its output is a function of that map and the sorted keys |
| AtomicMap.FinalStoreIsAtomicMap | SO-Parte1/grupo5-ex3/operations.c:40-159 | when the threads are done the store is the map on which every command acted, whole, at its lock point |
| AtomicMap.BackupIsAtomicMap | SO-Parte1/grupo5-ex3/main.c:126-140 | every child's copy stands for that map after a prefix of whole commands |
| Linearizability.LeavingMeansAllClaimed | SO-Parte1/grupo5-ex3/main.c:182-186 | a thread leaves only when no job is left |
| Backups.BackupsAlwaysOk | SO-Parte1/grupo5-ex3/main.c:119-143 | what the counter is, at each point of the backup code, compared with the children not yet waited for |
| Backups.Throttled | SO-Parte1/grupo5-ex3/main.c:119-143 | outside the backup mutex the counter is the number of children not waited for; both never exceed the limit, taken as at least one |
| Backups.EndsWithNoChildren | SO-Parte1/grupo5-ex3/main.c:277-282 | when the program ends every child has been waited for and every thread is done |
| Backups.PathsDiffer | SO-Parte1/grupo5-ex3/operations.c:196 | two backup paths are equal exactly when job stem and number are |
| Backups.JobNamesSuffice | SO-Parte1/grupo5-ex3/main.c:217-226 | distinct entries ending in ".job" have distinct stems |
| Backups.ChildPathsDistinct | SO-Parte1/grupo5-ex3/main.c:126-138 | with distinct stems, over a whole run no two backups share a file; `Sharing.NamesDecide` has the converse |
| Backups.BackupFiles | SO-Parte1/grupo5-ex3/operations.c:193-204 | with distinct stems, in every reachable state the files are those of the exited children, each holding the listing of that child's copy; `Sharing.NamesDecide` has the converse |
| OutputFiles.OutPathsDiffer | SO-Parte1/grupo5-ex3/main.c:192-194 | two jobs have the same output path exactly when their stems are equal |
| OutputFiles.OutputFilesHold | SO-Parte1/grupo5-ex3/main.c:51-56 | with distinct stems, in every reachable state each opened output file, truncated on opening and written at its descriptor's offset, holds what its job wrote |
| Directory.ForksAreBackups | SO-Parte1/grupo5-ex3/main.c:119-138 | a job has made as many backups as it has run BACKUP commands |
| Directory.WritesOnlyExpected | SO-Parte1/grupo5-ex3/main.c:192-196 | whatever the names, every file a run has written is the output of a job, or a backup numbered up to the job's number of BACKUPs |
| Directory.WritesAllExpected | SO-Parte1/grupo5-ex3/main.c:277-284 | and at the end of the program all of these have been written |
| Directory.OutputsAreNotBackups | SO-Parte1/grupo5-ex3/operations.c:196 | no output file has the path of a backup |
| Directory.OverwritesExactly | SO-Parte1/grupo5-ex3/main.c:46-51 | for any program: some run writes to one of its scripts if and only if an entry has the name of a job's output or of a backup numbered up to that job's BACKUPs |
| Directory.ScriptsKeptExactly | SO-Parte1/grupo5-ex3/main.c:217-226 | for any names: no program with them ever writes to a script if and only if no entry is the output or a backup of an entry, itself included |
| Directory.JobNamesNotTaken | SO-Parte1/grupo5-ex3/main.c:217-226 | entries that end in ".job" are never taken |
| Sharing.FinalFilesAreSerial | SO-Parte1/grupo5-ex3/main.c:192-196 | with distinct stems, at the end of the program each output file is its job's text in the serial run, and if no entry is taken its script was never written to |
| Sharing.TwinsCollide | SO-Parte1/grupo5-ex3/main.c:217-226 | for any two entries a whole run in which both jobs make their first backup, with different tables, and only one prints |
| Sharing.NamesDecide | SO-Parte1/grupo5-ex3/main.c:217-226 | for any names, in all runs: backups never share a file, and each backup file keeps its backup, if and only if the stems are distinct; scripts are kept if and only if no entry is taken; each output file is its untouched script's text in the serial run if and only if both |
| Sharing.OtherNamesCollide | SO-Parte1/grupo5-ex3/main.c:218 | "a.job.old" and "a.job.bak" have runs in which backups and outputs are lost |
| Sharing.OwnOutput | SO-Parte1/grupo5-ex3/main.c:46-51 | "a.job.out" has a run that overwrites its own script, though its stem is its own |
| Sharing.OthersBackup | SO-Parte1/grupo5-ex3/operations.c:196 | so have "a.job.old" and "a.job-1.bck", by a backup |
| Throttling.LimitIsExact | SO-Parte1/grupo5-ex3/main.c:121-125 | the counter stays within the command line's limit in every run exactly when the limit is at least one |
| Throttling.ZeroIsExceeded | SO-Parte1/grupo5-ex3/main.c:121-125 | a run with limit 0 that has one backup alive |
| Throttling.LimitIsReached | SO-Parte1/grupo5-ex3/main.c:119-143 | for every limit of at least one, a run in which as many children are alive at once as the limit allows |
| Dispatch.JobsAreDispatched | SO-Parte1/grupo5-ex3/main.c:176-197 | every claimed job has one claimant, threads work only on jobs they claimed, and at the end every job has been claimed |
| Dispatch.ClaimsStand | SO-Parte1/grupo5-ex3/main.c:189 | a claim is never taken back |
| Progress.OneClassSuffices | SO-Parte1/grupo5-ex3/kvs.c:11-19 | keys of one class, sorted, are locked in ascending bucket order |
| Progress.WaitsAbove | SO-Parte1/grupo5-ex3/operations.c:45-54 | a thread with an ordered command only waits for locks above all those it holds |
| Progress.NoDeadlock | SO-Parte1/grupo5-ex3/main.c:72-145 | with ordered commands, in every reachable state of an unfinished run somebody can move, whatever the locks prefer, and not just spin on a failing `wait`; covers BACKUP, SHOW and the waits for children |
| Termination.EveryStepShortens | SO-Parte1/grupo5-ex3/main.c:63-200 | every step that can be taken in any reachable state lowers a well-founded measure, so no run goes on for ever |
| Termination.CanFinish | SO-Parte1/grupo5-ex3/main.c:277-284 | with ordered commands every reachable state can be run on to the end of the program; as every step shortens, whoever keeps stepping gets there |
| Termination.SomeRunFinishes | SO-Parte1/grupo5-ex3/main.c:176-200 | every program, its commands ordered or not, has a run that ends |
| Deadlock.OutOfOrderDeadlocks | SO-Parte1/grupo5-ex3/operations.c:48-54 | any command not in ascending order has a WRITE, itself ordered, and an interleaving in which two threads are stuck for ever |
| Deadlock.AscendingIsNecessary | SO-Parte1/grupo5-ex3/operations.c:48-54 | a command is ordered if and only if no run beside any ordered WRITE gets stuck |
| Deadlock.MixedCaseIsOutOfOrder | SO-Parte1/grupo5-ex3/kvs.c:11-19 | keys "a" and "B" are sorted against their buckets |
| Overlap.OnlyCompatible | SO-Parte1/grupo5-ex3/operations.c:45-54 | in no run of any program are two commands applied at the same time that share a bucket, unless both only read |
| Overlap.OverlapIsExact | SO-Parte1/grupo5-ex3/operations.c:45-54 | two commands can be applied at the same time if and only if they share no bucket or both only read |
| Grammar.Script | SO-Parte1/grupo5-ex3/main.c:63-173 | the command loop ends on every input, valid or not, after at most one command per byte |
| Grammar.NextCommand | SO-Parte1/grupo5-ex3/parser.c:79-169 | every round takes at least one byte |
| Grammar.GetNext | SO-Parte1/grupo5-ex3/parser.c:85-169 | the end is reported exactly at the end of the input |
| Limits.WordsAreExact | SO-Parte1/grupo5-ex3/parser.c:85-169 | the command words, exactly: which beginnings of the input are which command, and that anything else is invalid |
| Limits.KeyFits | SO-Parte1/grupo5-ex3/parser.c:10-46 | a key is taken exactly when it has at most 39 bytes; a longer one costs its line |
| Limits.PairFits | SO-Parte1/grupo5-ex3/parser.c:171-183 | so are the key and the value of a pair |
| Limits.ListFits | SO-Parte1/grupo5-ex3/parser.c:196-222 | a list is taken exactly when it has at most 1023 entries; a longer list of keys costs its line |
| Limits.DelayFits | SO-Parte1/grupo5-ex3/parser.c:68-72 | a delay is taken exactly when it is at most 4294967295 |
| Limits.DelayThenMore | SO-Parte1/grupo5-ex3/parser.c:278-282 | what stands behind a delay and a blank is skipped with its line; a delay may end the file |
| Limits.ListEnds | SO-Parte1/grupo5-ex3/parser.c:262-265 | behind the "]" of a list comes a newline or a NUL, or the command is invalid |
| Limits.BadStop | SO-Parte1/grupo5-ex3/parser.c:22-38 | a blank or a ")" in a list of keys makes the command invalid, and costs its line |
| Lookahead.NothingAhead | SO-Parte1/grupo5-ex3/parser.c:85-296 | for any input: a command and what it uses up do not depend on anything behind it, unless it came to the end of the file |
| Lookahead.Splice | SO-Parte1/grupo5-ex3/main.c:63-173 | the first n commands of any file stay what they are when something else is put behind them |
| Lookahead.CommentIsEmpty | SO-Parte1/grupo5-ex3/parser.c:158-160 | a line that begins with "#" is one empty command, whatever it says |
| Lookahead.CommentAnywhere | SO-Parte1/grupo5-ex3/parser.c:158-160 | a comment line put between any two commands of any file adds one empty command and changes no other |
| Lookahead.EmptyDoesNothing | SO-Parte1/grupo5-ex3/main.c:165-166 | and so changes nothing that is stored or printed |
| RoundTrip.WordReadsBack | SO-Parte1/grupo5-ex3/parser.c:10-46 | a word without delimiters, followed by one, is read back with what ended it |
| RoundTrip.WordIsExact | SO-Parte1/grupo5-ex3/parser.c:10-46 | an accepted word is the bytes before the first delimiter, fewer than the buffer holds |
| RoundTrip.PairIsExact | SO-Parte1/grupo5-ex3/parser.c:171-183 | what an accepted pair used, free of NULs, is its printed form |
| RoundTrip.WriteAcceptsOnlyPrinted | SO-Parte1/grupo5-ex3/parser.c:185-231 | an accepted list has fewer pairs than the maximum, and its text, free of NULs, is the canonical one |
| RoundTrip.WriteIsExact | SO-Parte1/grupo5-ex3/parser.c:185-231 | the exact language: accepted with these pairs and no NUL if and only if the text is their printed list and a newline, with clean strings and fewer than the maximum |
| RoundTrip.KeysAcceptOnlyPrinted | SO-Parte1/grupo5-ex3/parser.c:233-268 | likewise for an accepted list of keys |
| RoundTrip.KeysAreExactly | SO-Parte1/grupo5-ex3/parser.c:233-268 | the exact language of key lists |
| RoundTrip.WaitIsExact | SO-Parte1/grupo5-ex3/parser.c:270-296 | WAIT succeeds exactly on a number that fits, followed by a blank, a newline, NUL or the end, and gives that number |
| RoundTrip.LineReadsBack | SO-Parte1/grupo5-ex3/parser.c:119-156 | SHOW, BACKUP and HELP are read from a line of their own, with or without its newline at the end of the file |
| RoundTrip.CommandReadsBack | SO-Parte1/grupo5-ex3/parser.c:85-296 | one round of the loop on a printed command gives the command and leaves the rest |
| RoundTrip.ScriptReadsBack | SO-Parte1/grupo5-ex3/parser.c:10-296 | printing any list of well-formed commands and parsing it gives exactly that list and then the end |
| RoundTrip.PrintIsInjective | SO-Parte1/grupo5-ex3/parser.c:10-296 | different scripts print differently |
| Recovery.RejectedResumes | SO-Parte1/grupo5-ex3/parser.c:79-296 | after a rejected command the parser goes on after the next newline from the point where it gave up, or after the one behind that when it gave up within a pair |
| Recovery.RejectedStartsLine | SO-Parte1/grupo5-ex3/parser.c:79-296 | so it goes on at the start of a line, or at the end of the file |
| Recovery.RejectedCostsOneLine | SO-Parte1/grupo5-ex3/parser.c:79-296 | a rejected command costs its own line and no more if and only if nothing follows that line, or the parser gave up on that line and not within a pair |
| Recovery.BadPairLosesNextLine | SO-Parte1/grupo5-ex3/parser.c:171-206 | a WRITE whose first pair has no comma also swallows the line after its own, whatever that line says |
| Parser.Input.ReadByte | SO-Parte1/grupo5-ex3/parser.c:17 | one byte read moves the position by one, none at the end |
| Parser.SkipLine | SO-Parte1/grupo5-ex3/parser.c:79-83 | the position after the next newline, or the end |
| Parser.ReadWord | SO-Parte1/grupo5-ex3/parser.c:10-46 | the loop fills the buffer and stops as the grammar says |
| Parser.ReadNumber | SO-Parte1/grupo5-ex3/parser.c:48-77 | the digits read, the byte after them, and failure above UINT_MAX |
| Parser.ReadPair | SO-Parte1/grupo5-ex3/parser.c:171-183 | key and value, or failure with the line skipped |
| Parser.ReadWrite | SO-Parte1/grupo5-ex3/parser.c:185-231 | fills the two arrays with exactly the grammar's pairs, or returns 0; position as in the grammar in all cases; on success later entries stay |
| Parser.ReadKeys | SO-Parte1/grupo5-ex3/parser.c:233-268 | the same for the key array |
| Parser.ReadWait | SO-Parte1/grupo5-ex3/parser.c:270-296 | the delay or failure, and the position |
| Parser.NextKind | SO-Parte1/grupo5-ex3/parser.c:85-169 | the command word, with short reads and the WAIT/WRITE overlap as in the code |
| Parser.ReadScript | SO-Parte1/grupo5-ex3/main.c:63-173 | the loop on a file gives the grammar's script and ends at the end of the file |
| Operations.LockBuckets | SO-Parte1/grupo5-ex3/operations.c:46-54 | each bucket named is locked once and marked, nothing else |
| Operations.UnlockBuckets | SO-Parte1/grupo5-ex3/operations.c:63-68 | exactly the marked locks are given back |
| Operations.LockedIsGuarded | SO-Parte1/grupo5-ex3/operations.c:45-54 | after the lock loop the bucket of every key named is held in the command's mode, and earlier locks still are: what the loops over the pairs ask for before they touch the table |
| Operations.KvsWrite | SO-Parte1/grupo5-ex3/operations.c:40-72 | the heap table after the sorted pairs; no lock kept |
| Operations.KvsRead | SO-Parte1/grupo5-ex3/operations.c:74-115 | the printed text; the table and the locks as before |
| Operations.KvsDelete | SO-Parte1/grupo5-ex3/operations.c:117-159 | the heap table and the printed text, the opening bracket only before the first missing key; no lock kept |
| Operations.KvsSubscribe | SOParte2/src/server/operations.c:226-240 | the slots and the result under the one bucket lock; pairs untouched, no lock kept |
| Operations.KvsUnsubscribe | SOParte2/src/server/operations.c:242-256 | likewise for removal |
| Operations.SortKeys | SO-Parte1/grupo5-ex3/main.c:85 | READ and DELETE find their keys sorted whatever values an earlier WRITE left in the other array |
| Operations.ProcessJob | SO-Parte1/grupo5-ex3/main.c:42-174 | from the bytes of any job file with usable keys: final heap table and output file are those of running the parsed commands one after another |
| OneJob.OneJobAlone | SO-Parte1/grupo5-ex3/main.c:277-284 | a program of one job, with any number of threads and any limit, in every interleaving: at the end the table, the one output file and the numbered backups are those of its commands run one after another |
| Conformance.JobTwo | SO-Parte1/grupo5-ex3/tests-public/jobs/2.job:1-8 | the repository's job file with READs, any comments before it, gives the output kept in `SOParte2/src/server/tests-public/jobs/2.out` |
| Conformance.JobFive | SO-Parte1/grupo5-ex3/input_dir/5.job:9-19 | the one with BACKUPs gives `input_dir/5.out` and the two backups kept beside it |
| Histories.RowIsOwn | SOParte2/src/server/kvs.c:52-175 | after any history, a bucket's nodes and slots are what its own operations make of them |
| Histories.AnswerMeans | SOParte2/src/server/kvs.c:52-93 | after any history, subscribing succeeds exactly when the key is live, the descriptor new and fewer than three are there; unsubscribing exactly when the key is live and the descriptor there |
| Sessions.Reached | SOParte2/src/server/operations.c:226-256 | in every reachable state of job threads and sessions the slots stand one to one beside the nodes, and each session stands at one of its requests |
| Sessions.JobsAreRuns | SOParte2/src/server/operations.c:226-256 | what jobs do beside sessions is a run of theirs alone, so every theorem about runs holds of it |
| SessionOrder.AlwaysApart | SOParte2/src/server/operations.c:233-237 | a bucket's lock has one session at most, and while it does no thread holds that lock in any mode |
| SessionOrder.AlwaysMade | SOParte2/src/server/operations.c:226-256 | the table and the slots are the result of the changes in the order in which they were made |
| SessionOrder.AlwaysAhead | SOParte2/src/server/operations.c:40-72 | in each bucket the serial order is ahead of the changes made by what the one thread busy there still owes, and otherwise equal to them |
| AtomicSessions.OneOrder | SOParte2/src/server/operations.c:40-72 | without the requests, the serial order is that of `Linearizability`: each whole WRITE or DELETE at its lock point |
| AtomicSessions.SlotsAreSerial | SOParte2/src/server/operations.c:226-256 | in every interleaving, whenever no thread is changing a key's bucket, the slots of the key hold exactly its subscribers in the serial order, and its value is that of the serial order |
| AtomicSessions.AnswersAreSerial | SOParte2/src/server/main.c:372-388 | every client is told success exactly when its request, put at the end of the serial order, succeeds there |
| AtomicSessions.SomebodyMoves | SOParte2/src/server/operations.c:226-256 | with ordered commands and any requests, somebody can move until all jobs are done and all requests answered |
| AtomicSessions.EveryMoveShortens | SOParte2/src/server/operations.c:226-256 | every move lowers a well-founded measure |
| AtomicSessions.AllCanFinish | SOParte2/src/server/operations.c:226-256 | so everything can be brought to its end from every reachable state |
| RingBuffer.BufferAlwaysOk | SOParte2/src/server/main.c:273-313 | in every run: space, pending clients and tokens in use add up to the number of slots; records not yet copied stay in their slots; records are handed out in arrival order, each to one manager, who keeps the one it copied |
| RingBuffer.RoomToReceive | SOParte2/src/server/main.c:275-279 | the slot the host receives into holds no record still to be copied |
| RingBuffer.NoTornCopy | SOParte2/src/server/main.c:279-309 | while the host receives and a manager copies, they use different slots, and the copy gets the oldest record |
| RingBuffer.NeverStuck | SOParte2/src/server/main.c:273-313 | with a manager at hand nothing stands still before the pipe is closed and every record is handed over |
| Generator.Generator.Update | SO-Parte1/grupo5-ex1/gerador_testes.py:73-107 | the key set after reading one emitted line back |
| Generator.ScanPairs | SO-Parte1/grupo5-ex1/gerador_testes.py:79-91 | the index-driven scan finds what stands between parentheses |
| Generator.ChosenIsPrinted | SO-Parte1/grupo5-ex1/gerador_testes.py:21-70 | every line it may emit is a well-formed command of the parser's language |
| Generator.WaitLines | SO-Parte1/grupo5-ex1/gerador_testes.py:60-63 | the WAIT lines are those of 1000, 2000 and 3000 |
| Generator.LinesAreShort | SO-Parte1/grupo5-ex1/gerador_testes.py:21-70 | no line is longer than 48 bytes |
| Generator.LongestLine | SO-Parte1/grupo5-ex1/gerador_testes.py:21-70 | and one has 48 |
| Generator.UpdateFollows | SO-Parte1/grupo5-ex1/gerador_testes.py:73-107 | reading its own line back changes the key set as the command changes the store |
| Generator.GenerateJobFile | SO-Parte1/grupo5-ex1/gerador_testes.py:110-124 | for any choices, the file is the printed commands and the key set the shadowed one |
| Generator.ShadowIsDomain | SO-Parte1/grupo5-ex1/gerador_testes.py:110-124 | from any agreeing store, the key set stays the domain of the store, and no READ or DELETE fails |
| Generator.GeneratedJobsSucceed | SO-Parte1/grupo5-ex1/gerador_testes.py:21-124 | every generated file parses to the chosen commands; run alone from an empty store it leaves exactly the shadowed keys and never prints KVSERROR or KVSMISSING |

## Left out

- Operations.ProcessJob: WAIT's sleep and BACKUP's child have no effect in this one-thread view; `Protocol` has the child, and treats WAIT as a step that does nothing.
- RingBuffer.BufferAlwaysOk: a failed `read` of the registration pipe ends the program and is not a step; a manager's session is one step.
- Termination.CanFinish: waiting for a lock is not a step, so nothing is said about how long a thread waits while others move.
- Parser.ReadWord: buffers grow, so the NUL that the code stores one byte behind a 40-byte buffer when 40 bytes come without a delimiter is not modelled; the failure it reports is.
- Parser.ReadNumber: a number of any length is read; the code's 16-byte buffer, and the bytes after the digits in it when the file ends there, are not modelled.
- The protocol with its threads is a machine on values (states and steps), since interleavings are what it is about; the code of one thread on the heap is in `Operations`, `Parser`, `Sorting` and `HashTable`.
- The three slots of a node are one field holding a sequence that is replaced, not an array inside the node.
- Freeing memory (`free_table`, `free` in `delete_pair`) and failing allocation.
- Fixed-size buffers. The 40-byte buffers of `kvs_read` and `kvs_delete` (`SO-Parte1/grupo5-ex3/operations.c:92`, `SO-Parte1/grupo5-ex3/operations.c:140`) hold an entry only if key and value together have at most 36 bytes, the key of a KVSERROR entry at most 28, and that of a KVSMISSING entry at most 26; the buffer of a number holds 15 digits; paths are truncated at 1023 bytes, and the list of jobs holds 1024 entries.
- Failing to open a file, listing and closing files and directories, FIFOs, `nanosleep`, error messages on standard error.
- The session protocol between client and server, the client program, and `notify_clients`, which nothing calls.
- The second part calls `kvs_show` without its lock (`SOParte2/src/server/main.c:123`); the SHOW snapshot is proved for the first part, and the job threads beside the sessions are those of the first part, SHOW with its lock.
- Which random choices are likely, and the loop that draws keys until one is new.
- The earlier versions of the first part (`grupo5-ex1`, `grupo5-ex2`) other than the generator.
