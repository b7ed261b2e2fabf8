# A model of gh-ost-cpp

gh-ost-cpp changes the schema of a live MySQL table: it copies the rows into a ghost table, replays
the binlog on it, and swaps the two tables with one atomic RENAME. This project models the parts of
it that decide whether that is safe, and proves properties of them for all inputs, all runs and all
interleavings.

- **The two monitors.** `SafeQueue` (bounded queue, one mutex, two condition variables) and
  `ThreadPool` (workers, active counter, draining stop). What a thread does between taking the mutex
  and giving it up is one section. `QueueModel` and `PoolModel` say what a section does, the classes
  `SafeQueue` and `ThreadPool` do it in place, and the protocols interleave the sections of any number
  of threads, with notifications that reach any waiter, spurious wake-ups and timeouts (`Monitor.dfy`).
- **Text.** The wildcard matcher, the SQL and JSON escapers, the comment stripper, split, join,
  replace and trim. Each is the scanning loop of the program, proved equal to a recursive function,
  which in turn is related to an independent notion: glob matching, a reader of SQL literals, the JSON
  string grammar, the one way to split a text.
- **The ALTER parser**: where it cuts, what kind of operation it sees in a piece, and the parse/print fixpoint.
- **The migration run.** The thread in `Run`, the row-copy thread, the events thread and any number of
  threads in `Cancel`, over a catalogue of named tables. Flags are read and stored one at a time,
  statements may be refused or executed without being reported, and other sessions create and drop
  tables of their own. The phases that issue DDL are also methods of a class `Migrator`, which sends
  SQL text that the server reads back, and what they do is shown to be a run of the protocol.
  `MigrationRuns.dfy` says of whole runs what they issue, and what makes them fail, stall or end.
- **Binlog data.** Coordinates and their order, GTID sets, the INSERT, UPDATE and DELETE text of row
  events with a reader for it, the replay of whole recorded histories through that text, batches in a
  transaction, and the UTF-8 filter and validator.

Strings are sequences of characters and each scanner treats its characters one by one, as the
program treats bytes; `Utf8.dfy` works on bytes. Unsigned 64-bit parsing, the wrap-around of the
active counter and the narrowing of `\u` escapes are written out.

## Where the code falls short

The members named here state where an expected property ends: a condition that holds exactly when the
property does, a run or an input that breaks it, or what is guaranteed instead.

- `SetMaxSize(0)` does not notify producers, so it strands those that wait
  (`QueueProtocol.StrandedProducer`, `ProducersServedIff`).
- `MatchesWildcard` tests for an equal character before it tests for `*`, so a text that itself holds
  a `*` is rejected by patterns it matches (`Wildcard.MatchesGlobIff`).
- A `ThreadPool` made with no threads, or told by `SetNumThreads(0)` to have none, accepts tasks and throws
  them away (`PoolProtocol.DiscardsNothingIff`, `ResizedPoolDiscards`).
- The events thread looks at the completion flag after its pop, so the empty pop that opens the way to
  the cut-over can come before row copy is complete, and events queued before completion are then left
  behind (`MigrationProtocol.EarlyEventsAppliedIff`, `EmptyPopMayPrecedeCompletion`). It also ignores whether an
  event could be applied (src/logic/migrator.cpp:490), so "applied" below means handed to the applier.
- A postponed cut-over never renames, whatever is done later (`MigrationProtocol.PostponedNeverRenames`).
- PhaseCleanup joins the heartbeat and throttle threads, which nothing in a run that goes well ends. So the
  run reports success only after somebody cancels it (`MigrationProtocol.SuccessWaitsForCancel`, `CanSucceedIff`).
- A lock whose success went unreported is never given up, nor is one whose UNLOCK was refused
  (`MigrationProtocol.EveryLockIsUnlocked`, `LockLeftBehind`).
- CleanupOnError is idempotent only as far as the drops of its first round were executed
  (`MigrationProtocol.CleanupIsIdempotentIff`, `RefusedDropIsRepeated`).
- Pausing ends row copy for good: Resume does not start it again, so a run paused before row copy is complete
  can only be cancelled (`MigrationRuns.CopyMishapIsFinal`).
- A stopped queue still delivers to `Pop`, but not to `TryPop` or `PopFor`
  (`QueueProtocol.StoppedQueueDeliversToPop`).
- If the changelog or the ghost is configured to have the original's name, the original gets dropped
  (`MigrationProtocol.OriginalAlwaysExistsIff`); the same for a foreign `_old` table (`OldNeverLostIff`).
- `ApplyBatch` does not roll back after a refused commit, and the next batch commits the failed one
  as well (`Batches.RefusedCommitLeaks`, `LeakedInsert`). Its counter includes statements that were rolled back.
- An UPDATE that changes the key value is not replayed (`Replay.ChangeReplaysIff`, `KeyChangeIsLost`), and an UPDATE of a
  table without a column beside the key is not even a statement (`RowSql.UpdateRoundTrip`, `KeyOnlyUpdateIsLost`).
- `>` on coordinates is not the converse of `<` for two different files with one sequence number
  (`Coordinates.OperatorsAgreeIff`, `TwoFilesOneSequence`).
- A binlog file name with a colon does not survive the text form of its coordinates
  (`Coordinates.CoordinatesRoundTripIff`, `ColonFileIsLost`), nor does a GTID set with a domain that holds a
  comma or a colon or starts with white space (`GtidSets.GtidSetRoundTripIff`, `CommaDomainIsLost`).
- `EncodeForUTF8` can return text that `IsValidUTF8` rejects (`Utf8.FilteredIsValidIff`,
  `FilteredMayBeInvalid`), and `IsValidUTF8` accepts overlong forms, surrogates and code points past
  U+10FFFF (`Utf8.WellFormedIff`, `OverlongIsAccepted`).
- `UnescapeFromJSON` keeps only the low byte of a `\u` code (`Json.CodeReads`, `HighByteIsLost`).
- Coordinates parse with a further colon at the end of the text (`Coordinates.ParseIff`).
- Printing an ALTER loses a blank first or last piece (`AlterParser.ParsePrintFixpointIff`, `BlankLastPieceIsLost`).

## Model

| member | source | states |
|---|---|---|
| SafeQueueObject.SafeQueue.constructor | include/utils/safe_queue.hpp:71-73 | a new queue is empty and running, with the given bound and nobody waiting |
| SafeQueueObject.SafeQueue.Push | include/utils/safe_queue.hpp:75-101 | one section of Push: waits while running and full, gives up when stopped, else appends and notifies one consumer |
| SafeQueueObject.SafeQueue.TryPush | include/utils/safe_queue.hpp:103-127 | refuses when stopped or full, else appends and notifies one consumer |
| SafeQueueObject.SafeQueue.Pop | include/utils/safe_queue.hpp:129-145 | one section of Pop: waits while running and empty, throws when stopped and empty, else takes the front and notifies one producer |
| SafeQueueObject.SafeQueue.TryPop | include/utils/safe_queue.hpp:147-159 | nothing when stopped or empty, else the front item and one producer notified |
| SafeQueueObject.SafeQueue.PopFor | include/utils/safe_queue.hpp:161-184 | one section of the timed pop, nothing when stopped even if items are left |
| SafeQueueObject.SafeQueue.Clear | include/utils/safe_queue.hpp:220-227 | empties the queue and notifies all producers |
| SafeQueueObject.SafeQueue.SetMaxSize | include/utils/safe_queue.hpp:229-236 | changes the bound and notifies producers only when the new bound is non-zero and leaves room |
| SafeQueueObject.SafeQueue.Stop | include/utils/safe_queue.hpp:238-244 | stops and notifies everybody |
| SafeQueueObject.SafeQueue.Start | include/utils/safe_queue.hpp:246-250 | runs again, notifying nobody |
| QueueProtocol.RunKeepsInv | include/utils/safe_queue.hpp:75-250 | over every run of any threads: waiters stand where they may, no consumer wake-up is lost, every accepted item is accounted for |
| QueueProtocol.FifoConservation | include/utils/safe_queue.hpp:75-227 | the k-th item to leave is the k-th item accepted, and accepted = left + queued |
| QueueProtocol.WaitingConsumerHasServer | include/utils/safe_queue.hpp:129-184 | if a consumer waits while items are queued, a notified consumer can run and takes the front item |
| QueueProtocol.WaitingProducerHasServer | include/utils/safe_queue.hpp:75-101 | if a producer waits while there is room and no wake-up was lost, a notified producer can run, and its item is accepted, or its push given up when stopped |
| QueueProtocol.NeverAllAsleep | include/utils/safe_queue.hpp:75-184 | producers and consumers are never all asleep together: some notified thread can take its section |
| QueueProtocol.ProducersServedIff | include/utils/safe_queue.hpp:75-250 | no producer wake-up is lost throughout a run iff the run never sets the bound to 0 while a producer waits |
| QueueProtocol.StrandedProducer | include/utils/safe_queue.hpp:229-236 | a run after which a producer sleeps although the queue has no bound and nobody is left to wake it |
| QueueProtocol.GrowthRespectsBound | include/utils/safe_queue.hpp:75-127 | a step that grows the queue leaves it within a non-zero bound and is an accepted push on a running queue |
| QueueProtocol.StoppedQueueDeliversToPop | include/utils/safe_queue.hpp:129-184 | on a stopped queue with items, exactly Pop and Clear still take items out |
| QueueProtocol.StoppedQueueOnlyDrains | include/utils/safe_queue.hpp:238-250 | from Stop to the next Start nothing is accepted and what is left is a tail of what was there |
| QueueProtocol.HistoryDecides | include/utils/safe_queue.hpp:75-250 | in every run, how the next section of any call ends follows from the calls before it: whether Start or Stop came last, the last bound set, and what was accepted and has not left |
| QueueProtocol.StopHolds | include/utils/safe_queue.hpp:238-250 | from the section of a Stop to that of the next Start nothing is accepted, only a tail of the items is left, no section waits, and Pop throws iff the queue is empty |
| QueueProtocol.SetMaxSizeWakesIff | include/utils/safe_queue.hpp:229-236 | SetMaxSize wakes the waiting producers iff the new bound is positive and leaves room |
| ThreadPoolObject.ThreadPool.constructor | src/utils/thread_pool.cpp:11-16 | a new pool is stopped and empty |
| ThreadPoolObject.ThreadPool.Submit | include/utils/thread_pool.hpp:47-56 | refused when stopped, else queued behind all pending tasks |
| ThreadPoolObject.ThreadPool.AwaitWork | src/utils/thread_pool.cpp:68-73 | the worker's wait with its predicate |
| ThreadPoolObject.ThreadPool.Decide | src/utils/thread_pool.cpp:75-84 | exit, retry, or take the front task and count it active |
| ThreadPoolObject.ThreadPool.Finish | src/utils/thread_pool.cpp:89-92 | the active counter goes down, wrapping at zero |
| ThreadPoolObject.ThreadPool.WaitAll | src/utils/thread_pool.cpp:97-102 | returns when stopped or when nothing is pending or active, else waits |
| ThreadPoolObject.ThreadPool.Stop | src/utils/thread_pool.cpp:34-41 | both flags change under the mutex |
| ThreadPoolObject.ThreadPool.BeginStart | src/utils/thread_pool.cpp:22-25 | nothing when running, else the stopped flag is stored alone |
| ThreadPoolObject.ThreadPool.StoreRunning | src/utils/thread_pool.cpp:26-26 | the running flag is stored alone |
| ThreadPoolObject.ThreadPool.SwapTasks | src/utils/thread_pool.cpp:53-55 | the pending tasks are thrown away |
| PoolProtocol.RunKeepsInv | src/utils/thread_pool.cpp:22-108 | over every run of a pool that is made with a thread and always told to have one: the active counter equals the workers between take and decrement, tasks are accounted for, nobody is forgotten |
| PoolProtocol.EachTaskOnce | src/utils/thread_pool.cpp:43-95 | every accepted task is exactly one of finished, executing on one worker, and pending in submission order; none is discarded |
| PoolProtocol.WaitAllMeansFinished | src/utils/thread_pool.cpp:97-102 | a WaitAll that returns unstopped saw every accepted task finished |
| PoolProtocol.WaitAllReturnsIff | src/utils/thread_pool.cpp:97-102 | WaitAll returns iff the pool is stopped or every accepted task is finished and no worker is between its task and the decrement |
| PoolProtocol.PendingWorkCanMove | src/utils/thread_pool.cpp:63-95 | while tasks are pending some worker, submitter or controller step is enabled |
| PoolProtocol.SleepingWaitAllIsServed | src/utils/thread_pool.cpp:63-102 | a sleeping WaitAll has pending work, active work or a worker about to notify, and a step is enabled that brings that on; with nothing pending, one of a worker that is not idle |
| PoolProtocol.NothingLeftToSwap | src/utils/thread_pool.cpp:43-56 | the queue swap of StopAndWait finds no pending task |
| PoolProtocol.StopAndWaitDiscards | src/utils/thread_pool.cpp:43-56 | with no workers StopAndWait throws away everything pending |
| PoolProtocol.ResizedPoolDiscards | src/utils/thread_pool.cpp:104-108 | a run of a pool of any size that SetNumThreads(0) makes discard an accepted task |
| PoolProtocol.DiscardsNothingIff | src/utils/thread_pool.cpp:11-108 | no run discards an accepted task iff the pool is made with at least one thread and 0 is not among the sizes SetNumThreads may be given |
| PoolProtocol.EachCountedOnce | src/utils/thread_pool.cpp:43-95 | with threads or without, every accepted task is taken by a worker, thrown away or pending, and counted once |
| PoolProtocol.SubmitAcceptedIff | include/utils/thread_pool.hpp:47-56 | in every run of every pool a task is accepted iff a start came after the last stop |
| PoolProtocol.StartAgainChangesNothing | src/utils/thread_pool.cpp:22-32 | Start on a pool that was started and has not been stopped since changes nothing |
| PoolProtocol.RestartServes | src/utils/thread_pool.cpp:43-61 | whatever happens meanwhile, behind SetNumThreads(n), or StopAndWait and Start, the pool has exactly its number of threads, none exited, and accepts tasks |
| PoolProtocol.CanRestart | src/utils/thread_pool.cpp:43-108 | from the stop of any pool in any state of any run, some run drains the tasks, joins all workers and ends with the pool started again |
| Wildcard.MatchesWildcard | src/utils/string_utils.cpp:530-558 | the loop decides Matches in fewer than (n + 1)(m + 1) rounds |
| Wildcard.MatchesIsSound | src/utils/string_utils.cpp:530-558 | an accepted text matches the glob, for every text and pattern |
| Wildcard.MatchesIsComplete | src/utils/string_utils.cpp:530-558 | a matching text without stars is accepted: restarting from the last star loses nothing |
| Wildcard.MissedIsRejected | src/utils/string_utils.cpp:537-540 | every text with a star has a pattern that it is rejected by |
| Wildcard.MissedMatches | src/utils/string_utils.cpp:537-540 | and that pattern matches the text |
| Wildcard.MatchesGlobIff | src/utils/string_utils.cpp:530-558 | a text is decided correctly under all patterns iff it holds no star |
| Text.SplitText | src/utils/string_utils.cpp:82-100 | the loop computes Split, or single characters for an empty delimiter |
| Text.JoinParts | src/utils/string_utils.cpp:117-124 | the loop computes Join |
| Text.SplitTextAt | src/utils/string_utils.cpp:72-80 | splitting at a character drops an empty last part |
| Text.JoinOfSplitAt | src/utils/string_utils.cpp:72-80 | joining what getline splits gives the text back, but for a delimiter at its very end |
| Text.JoinOfSplit | src/utils/string_utils.cpp:82-124 | joining a split with its delimiter gives the text back |
| Text.SplitIsUnique | src/utils/string_utils.cpp:82-100 | the split is the only list of parts that joins to the text with each delimiter the first one of its part |
| Text.ReplaceAll | src/utils/string_utils.cpp:183-192 | the in-place loop terminates and computes Replaced, with replaced text never scanned again |
| Text.ReplacedIsJoinOfSplit | src/utils/string_utils.cpp:183-192 | replacing is splitting at the pattern and joining with the replacement |
| Text.TrimIsTrimmed | src/utils/string_utils.cpp:17-34 | a trimmed text has no white space at either end and trimming again changes nothing |
| Text.TrimCutsSpaces | src/utils/string_utils.cpp:17-34 | trimming cuts off white space at both ends and nothing else |
| SqlText.EscapeForSQL | src/utils/string_utils.cpp:407-422 | the loop computes Escape |
| SqlText.EscapedIsInert | src/utils/string_utils.cpp:407-422 | escaped text holds no raw newline, return, tab or NUL, and no quote that is not doubled or behind a backslash |
| SqlText.PlainTextIsKept | src/utils/string_utils.cpp:407-422 | text without special characters is left alone |
| SqlText.QuoteIdentifier | src/utils/string_utils.cpp:431-443 | the loop doubles the quote character inside the quotes |
| SqlText.QuoteRoundTrip | src/utils/string_utils.cpp:407-429 | under the literal rules of section 9.1.1 of the MySQL 8.0 Reference Manual a quoted value reads back as the value and ends where the escaper ended it, iff no quote follows |
| SqlText.IdentifierRoundTrip | src/utils/string_utils.cpp:431-443 | a quoted identifier reads back as the name and ends where it was closed, iff no backtick follows |
| RowSql.ToInsertValuesSQL | src/binlog/binlog_dml_event.cpp:37-52 | the loop writes the parenthesised value list |
| RowSql.ToUpdateSQL | src/binlog/binlog_dml_event.cpp:54-82 | the loop with its skipped key column writes the SET list of the other columns and the key clause |
| RowSql.InsertValuesRoundTrip | src/binlog/binlog_dml_event.cpp:37-52 | the value list of any row reads back as exactly that row, NULL apart from 'NULL', and stops at its parenthesis |
| RowSql.InsertRoundTrip | src/binlog/binlog_dml_event.cpp:125-139 | the INSERT text of any row reads back as that table, those columns and those values |
| RowSql.UpdateRoundTrip | src/binlog/binlog_dml_event.cpp:141-149 | the UPDATE text reads back as the assignment of its non-key columns under its key clause, and as nothing when there are none |
| RowSql.NonKeyAssigns | src/binlog/binlog_dml_event.cpp:54-82 | the assignments are one for each column other than the key, in order, with the value at its place or NULL where the row has none |
| RowSql.KeyOnlyUpdateIsLost | src/binlog/binlog_dml_event.cpp:54-82 | an UPDATE of a key-only table that does not read as a statement |
| RowSql.DeleteRoundTrip | src/binlog/binlog_dml_event.cpp:151-164 | the DELETE text reads back as the deletion by its key clause |
| Json.EscapeForJSON | src/utils/string_utils.cpp:446-470 | the loop computes Escape |
| Json.UnescapeFromJSON | src/utils/string_utils.cpp:472-509 | the index loop computes Unescape, malformed escapes included |
| Json.JsonRoundTrip | src/utils/string_utils.cpp:446-509 | unescaping undoes escaping for every text |
| Json.EscapedIsJsonBody | src/utils/string_utils.cpp:446-470 | escaped text is a string body as in section 7 of RFC 8259: no raw control character, no bare quote |
| Json.EscapeIsShort | src/utils/string_utils.cpp:446-470 | a control character with a short form is written in it, and only what must be escaped is |
| Json.CodeReads | src/utils/string_utils.cpp:486-495 | a `\u` and four hexadecimal digits in either case stand for the low byte of the code |
| Json.HighByteIsLost | src/utils/string_utils.cpp:490-491 | a code past one byte that comes out as another character |
| Json.NoCodeReads | src/utils/string_utils.cpp:488-494 | four characters that do not start with a number give the backslash alone |
| Json.OtherEscapeIsKept | src/utils/string_utils.cpp:496-503 | any other backslash is kept, and so is a `\u` with fewer than four characters behind it |
| Comments.RemoveSQLComments | src/utils/string_utils.cpp:561-622 | the index loop with its two inner loops computes Strip |
| Comments.StripAppend | src/utils/string_utils.cpp:561-622 | a prefix that ends outside strings and comments is stripped on its own, whatever follows, if no two quotes pair up and no comment opens across the seam |
| Comments.LineCommentIsRemoved | src/utils/string_utils.cpp:596-602 | behind such a prefix a line comment is removed up to its newline, which stays, or to the end of the text |
| Comments.BlockCommentIsRemoved | src/utils/string_utils.cpp:604-615 | behind such a prefix a block comment is removed and what follows is scanned afresh; one that never ends takes the rest of the text with it |
| Comments.StringIsKept | src/utils/string_utils.cpp:570-594 | a string in quotes of either kind is kept, with comments and doubled quotes inside it, and what follows is code again |
| Comments.OtherCharIsKept | src/utils/string_utils.cpp:617-618 | a character that opens nothing is kept |
| Comments.EscapedPassesThrough | src/utils/string_utils.cpp:407-622 | inside a string, escaped text passes through unchanged although the scanner ignores backslashes |
| Comments.QuotedValueSurvives | src/utils/string_utils.cpp:407-622 | a quoted value between such a prefix and a suffix without a leading quote is left alone |
| AlterParser.AlterTableParser.ParseOperations | src/sql/parser.cpp:68-151 | appends the parse of the text to the operations |
| AlterParser.AlterTableParser.Normalize | src/sql/parser.cpp:441-452 | prints the table name and the values joined with comma and blank |
| AlterParser.SplitOperations | src/sql/parser.cpp:71-97 | the depth-counting loop keeps the trimmed non-empty top-level pieces |
| AlterParser.ParseOperation | src/sql/parser.cpp:99-150 | the branches set the type and write short column forms out |
| AlterParser.KindIff | src/sql/parser.cpp:103-150 | a piece is of a kind iff it has the words of that kind, in any case: by its first word, and behind ADD and DROP by its second and the key words it mentions |
| AlterParser.ValueIs | src/sql/parser.cpp:103-135 | a piece is printed as written, with COLUMN put in where a column operation leaves it out |
| AlterParser.RenamesIff | src/sql/parser.cpp:136-142 | a statement has a rename, or an engine change, iff one of the pieces kept of it opens with that word in any case |
| AlterParser.SplitJoinInverse | src/sql/parser.cpp:71-97 | the raw pieces are the only cutting of the text at all commas before which parentheses are balanced, and join back to it |
| AlterParser.ClassifyIsStable | src/sql/parser.cpp:99-236 | classifying an operation's printed value gives the operation again, rewritten short forms included |
| AlterParser.ReparseKeepsSurvivors | src/sql/parser.cpp:68-151 | parsing the printed form of any parse gives its operations without a blank first or last one |
| AlterParser.ParsePrintFixpointIff | src/logic/applier.cpp:84-92 | the printed form parses back to the same types and values iff the first and last pieces kept of the text are not blank |
| AlterParser.BlankLastPieceIsLost | src/sql/parser.cpp:71-97 | an operations text whose printed form does not parse back |
| Numbers.DecimalRoundTrip | src/utils/string_utils.cpp:304-313 | a 64-bit number written in decimal parses back |
| Numbers.NineteenDigitsFit | src/utils/string_utils.cpp:304-313 | up to nineteen digits always parse, to their value |
| Numbers.SpelledParses | src/utils/string_utils.cpp:304-313 | white space, a sign and digits are read as the number, negated for a minus, iff the value fits and only white space follows |
| Numbers.ParsedIsSpelled | src/utils/string_utils.cpp:304-313 | nothing else is read as a number |
| Numbers.ValueOrderIsTextOrder | src/binlog/binlog_coordinates.cpp:84-92 | on digit strings of one width numeric order is text order |
| Coordinates.LessIsStrictWeakOrder | src/binlog/binlog_coordinates.cpp:42-48 | `<` is a strict weak order on arbitrary names |
| Coordinates.OperatorsAgreeIff | src/binlog/binlog_coordinates.cpp:42-60 | the four operators agree on a pair iff it is not two files with one sequence number and one position |
| Coordinates.TwoFilesOneSequence | src/binlog/binlog_coordinates.cpp:50-60 | two coordinates each greater than the other and neither less |
| Coordinates.SeriesOrder | src/binlog/binlog_coordinates.cpp:42-92 | within one series `<` is total, is the order of (file name, position), and the other operators agree |
| Coordinates.SequenceIsTail | src/binlog/binlog_coordinates.cpp:84-92 | the sequence number is the number behind the last dot, 0 without a dot or a number |
| Coordinates.ParseText | src/binlog/binlog_coordinates.cpp:62-70 | accepts exactly two colon-separated parts with a numeric second one |
| Coordinates.ParseIff | src/binlog/binlog_coordinates.cpp:62-70 | exactly a file without a colon, a colon and a number parse, with or without a further colon at the end |
| Coordinates.CoordinatesRoundTripIff | src/binlog/binlog_coordinates.cpp:19-70 | writing and parsing restores valid coordinates iff the file has no colon |
| Coordinates.InvalidIsNotWritten | src/binlog/binlog_coordinates.cpp:19-24 | invalid coordinates are written as text that does not parse |
| Coordinates.ColonFileIsLost | src/binlog/binlog_coordinates.cpp:62-70 | coordinates whose text form does not parse back |
| GtidSets.GtidSet.Add | src/binlog/binlog_coordinates.cpp:143-157 | the search loop raises the entry of the domain or appends a new one |
| GtidSets.GtidSet.Contains | src/binlog/binlog_coordinates.cpp:163-171 | true iff an entry of the domain reaches the number |
| GtidSets.GtidSet.ToString | src/binlog/binlog_coordinates.cpp:173-182 | the entries joined with commas |
| GtidSets.GtidSet.Parse | src/binlog/binlog_coordinates.cpp:188-197 | adds what each trimmed part parses to, skipping the rest |
| GtidSets.ParseGtidText | src/binlog/binlog_coordinates.cpp:126-138 | splits at the first colon and parses what follows |
| GtidSets.ParseAtFirstColon | src/binlog/binlog_coordinates.cpp:126-138 | the domain is what stands in front of the first colon, and all that follows must be one number |
| GtidSets.IntervalIsSkipped | src/binlog/binlog_coordinates.cpp:126-138 | an interval of sequence numbers does not parse |
| GtidSets.AddAllMeaning | src/binlog/binlog_coordinates.cpp:143-171 | after any additions in any order there is one entry per domain, and (d, n) is contained iff some valid (d, m) with m >= n was added |
| GtidSets.GtidSetRoundTripIff | src/binlog/binlog_coordinates.cpp:109-197 | parsing the text form into an empty set restores it iff domains have no comma, no colon and no leading white space |
| GtidSets.CommaDomainIsLost | src/binlog/binlog_coordinates.cpp:173-197 | a set whose text form does not parse back |
| Utf8.EncodeForUTF8 | src/sql/encoding.cpp:20-52 | the index loop computes Encode |
| Utf8.IsValidUTF8 | src/sql/encoding.cpp:59-92 | the index loop decides IsValid |
| Utf8.ValidIsKept | src/sql/encoding.cpp:20-92 | the filter leaves valid text alone |
| Utf8.EncodeIsIdempotent | src/sql/encoding.cpp:20-52 | filtering twice is filtering once, on all byte strings |
| Utf8.EncodeIsSubsequence | src/sql/encoding.cpp:20-52 | the filter only removes bytes |
| Utf8.KeptWholeIff | src/sql/encoding.cpp:20-52 | the input comes through whole, in length and in bytes, iff its scan never meets a byte that cannot lead or a lead cut off by the end |
| Utf8.FilteredIsValidIff | src/sql/encoding.cpp:20-92 | what the filter returns is valid iff every sequence it keeps has the tail bytes its lead announces |
| Utf8.FilteredMayBeInvalid | src/sql/encoding.cpp:29-34 | an input whose filtered form fails the validator |
| Utf8.ValidAppend | src/sql/encoding.cpp:59-92 | behind valid text, validity is that of the rest |
| Utf8.WellFormedIff | src/sql/encoding.cpp:59-92 | text is well-formed under section 4 of RFC 3629 iff it is accepted and holds no forbidden lead byte or pair |
| Utf8.OverlongIsAccepted | src/sql/encoding.cpp:67-72 | an accepted text that is not well-formed |
| Replay.ChangeReplaysIff | src/logic/applier.cpp:359-402 | the SQL text of one recorded change turns the table into its next state iff it is not an UPDATE that changes the key or has no other column |
| Replay.KeyChangeIsLost | src/logic/applier.cpp:374-384 | an UPDATE from key 1 to key 2 whose SQL text does not give the next table |
| Replay.HistoryReplaysIff | src/logic/applier.cpp:156-219 | each change of a recorded history is replayed faithfully in turn iff none is such an UPDATE |
| Replay.HistoryReplays | src/logic/applier.cpp:156-219 | replaying the SQL texts of any recorded history without such UPDATEs on a copy of the starting table yields the final table |
| Batches.BatchIsAtomicIff | src/logic/applier.cpp:221-237 | a batch reported done left the full fold; one reported failed left the session untouched iff neither commit nor rollback went wrong |
| Batches.RunCommitsReported | src/logic/applier.cpp:221-237 | over any number of batches the committed table is the fold of exactly the batches reported done, if the others failed before the commit and were rolled back |
| Batches.RefusedCommitLeaks | src/logic/applier.cpp:236-236 | a refused commit leaves the transaction open and the next batch commits both |
| Batches.LeakedInsert | src/logic/applier.cpp:236-236 | a row inserted by a batch that was reported failed |
| BinlogEntries.CommittedHistory | src/logic/applier.cpp:156-237 | entries that carry the rows of a recorded history, in any grouping, give its statements; their batch reported done has produced the final table, and failed cleanly has changed nothing |
| ApplierObject.Connection.Execute | src/mysql/connection.cpp:251-276 | a statement is refused, takes effect, or takes effect and is reported failed; outside a transaction its effect is committed at once |
| ApplierObject.Connection.BeginTransaction | src/mysql/connection.cpp:323-337 | opens the transaction or changes nothing |
| ApplierObject.Connection.Commit | src/mysql/connection.cpp:339-354 | done and closed, or failed with the transaction flag kept and the work committed or not |
| ApplierObject.Connection.RollBack | src/mysql/connection.cpp:356-371 | undone and closed, undone with the flag kept, or refused, as it always is without an open transaction |
| ApplierObject.Applier.BuildInsertSQL | src/logic/applier.cpp:359-372 | the INSERT text for the ghost table |
| ApplierObject.Applier.BuildUpdateSQL | src/logic/applier.cpp:374-384 | the UPDATE text by the unique key column |
| ApplierObject.Applier.BuildDeleteSQL | src/logic/applier.cpp:386-402 | the DELETE text by the unique key column |
| ApplierObject.Applier.ApplyDMLEvent | src/logic/applier.cpp:156-219 | rows are applied in order until one is reported failed, and the counter counts those reported applied |
| ApplierObject.Applier.ApplyBatch | src/logic/applier.cpp:221-237 | true iff committed, then with the full fold committed and the transaction closed; otherwise the session is as it was iff begin, rollback and commit behaved, and every way of failing leaves the session that Ends describes |
| Catalogue.DefaultNamesAreDistinct | src/context/migration_context.cpp:181-195 | the default ghost and changelog names clash with neither the original nor its `_old` name |
| Catalogue.CutOverEffect | src/sql/builder.cpp:217-225 | the RENAME goes through iff original and ghost exist and `_old` is free, and then swaps them keeping the original as `_old` |
| DdlText.DdlRoundTrip | src/sql/builder.cpp:75-255 | the text of every DDL statement reads back as that statement on exactly those names |
| MigrationProtocol.RunKeepsInv | src/logic/migrator.cpp:304-630 | over every interleaving: flags, gates, queue counts and lock counts stay consistent |
| MigrationProtocol.StopIsSeenAsCancel | src/logic/migrator.cpp:315-362 | in the loops of Run, running false implies cancelled true |
| MigrationProtocol.RenameIsGuarded | src/logic/migrator.cpp:340-384 | when RENAME is issued the server holds the lock, copied rows reach the total, copy is complete, the cut-over is not postponed, and the events thread has ended with everything queued up to its last empty pop applied |
| MigrationProtocol.PostponedNeverRenames | src/logic/migrator.cpp:350-362 | no run with a postponed cut-over issues a lock or a RENAME |
| MigrationProtocol.EveryLockIsUnlocked | src/logic/migrator.cpp:372-387 | after a run, every lock reported taken was followed by an UNLOCK, and a lock remains iff its success went unreported or an UNLOCK was refused |
| MigrationProtocol.LockLeftBehind | src/logic/migrator.cpp:373-375 | a failed run that still holds the lock and issued no UNLOCK |
| MigrationProtocol.RunKeepsRows | src/logic/migrator.cpp:169-425 | if ghost and changelog carry neither the original's nor the `_old` name, every run keeps track of where the original rows are |
| MigrationProtocol.OriginalRowsSurvive | src/logic/migrator.cpp:372-404 | under the same condition on the names the original rows are under the original or the `_old` name until a RENAME is reported done and dropping is configured |
| MigrationProtocol.SuccessWaitsForCancel | src/logic/migrator.cpp:399-425 | the joins of PhaseCleanup can return iff the run is cancelled, so every run that reports success has been |
| MigrationProtocol.SucceedsAloneIff | src/logic/migrator.cpp:169-425 | with distinct names, from any start, stale ghost and changelog tables or not, and without help from other sessions, some run reports success iff somebody may call Cancel, the cut-over is not postponed and the `_old` name is free |
| MigrationProtocol.CanSucceedIff | src/logic/migrator.cpp:169-425 | the same with other sessions, who may free the `_old` name |
| MigrationRuns.FailsIff | src/logic/migrator.cpp:54-425 | a run that has ended failed iff a phase failed, a statement on the way to the new table or the swap was not reported done, or a cancellation was seen behind a loop |
| MigrationRuns.SuccessfulScript | src/logic/migrator.cpp:169-412 | every run that reports success issued the same statements in the same order, apart from the drops of stale tables and the configured drop of the original |
| MigrationRuns.CopyMishapIsFinal | src/logic/migrator.cpp:433-456 | once row copy found the run paused or a chunk failed, no continuation completes row copy, renames or succeeds |
| MigrationRuns.CancelledThreadsEnd | src/logic/migrator.cpp:433-469 | once either flag tells them to, the row-copy and events threads end within one round, whatever else happens |
| MigrationRuns.CancelJoinsFirst | src/logic/migrator.cpp:617-630 | a Cancel called while both threads are there only cleans up when both have ended |
| MigrationRuns.ThreadsEndForCause | src/logic/migrator.cpp:427-496 | the events thread only ends with everything processed, and the row-copy thread with row copy complete or after a pause or a failed chunk, unless the flags tell them to end |
| MigrationRuns.LoopsEnd | src/logic/migrator.cpp:314-362 | either flag alone ends each loop of Run within two further steps |
| MigrationRuns.CancelSetsFlags | src/logic/migrator.cpp:615-630 | a Cancel of a run that has started has both flags set while it joins and cleans up |
| MigrationProtocol.SuccessLeaves | src/logic/migrator.cpp:372-425 | a run that reports success renamed once and unlocked, left the ghost under the original's name and its own name free, kept the original as `_old` unless configured to drop it, and, if no drop was refused, left no changelog |
| MigrationProtocol.OriginalAlwaysExistsIff | src/logic/migrator.cpp:169-199 | a table with the original's name exists in every state of every run iff neither ghost nor changelog is configured with that name |
| MigrationProtocol.OldNeverLostIff | src/sql/builder.cpp:243-255 | no step of any run drops or replaces somebody else's `_old` table iff neither ghost nor changelog is configured with that name |
| MigrationProtocol.OtherTablesUntouched | src/sql/builder.cpp:217-255 | no step touches a table under any other name |
| MigrationProtocol.EarlyEventsAppliedIff | src/logic/migrator.cpp:434-482 | in a run that reaches the RENAME everything queued before row copy was complete has been applied iff completion never fell, with an event queued, between an empty pop and the look at the flag behind it |
| MigrationProtocol.EmptyPopMayPrecedeCompletion | src/logic/migrator.cpp:466-482 | a run reaches the RENAME with an event still queued that had arrived before row copy was complete |
| MigrationProtocol.CleanupLeaves | src/logic/migrator.cpp:589-603 | CleanupOnError stops, cancels, and removes exactly the changelog and, if migrated and so configured, the ghost, each unless its drop is refused |
| MigrationProtocol.CleanupIsIdempotentIff | src/logic/migrator.cpp:589-603 | a second CleanupOnError changes nothing iff each of its drops finds no table or is refused, so always when the first drops were executed |
| MigrationProtocol.RefusedDropIsRepeated | src/logic/migrator.cpp:601-602 | a clean-up whose repetition drops the changelog its first round could not |
| MigratorObject.Connection.Execute | src/mysql/connection.cpp:251-276 | text that reads as a statement is refused, executed and reported, or executed and reported as failed |
| MigratorObject.Migrator.PhaseCreateGhostTable | src/logic/migrator.cpp:169-199 | the phase issues exactly the statements the plan prescribes and leaves at the planned stage |
| MigratorObject.Migrator.CutOver | src/logic/migrator.cpp:372-397 | lock, rename and unlock in every combination of outcomes follow the plan |
| MigratorObject.Migrator.PhaseCleanup | src/logic/migrator.cpp:399-425 | drops `_old` only when configured, then the changelog, stops the streamer, and comes back with success iff the run is stopped or cancelled, waiting at the joins otherwise |
| MigratorObject.Migrator.CleanupOnError | src/logic/migrator.cpp:589-603 | clears running, sets cancelled, and issues exactly the planned drops |
| MigratorRefines.CleanupIsARun | src/logic/migrator.cpp:589-603 | what CleanupOnError of the object does is the protocol's clean-up of a failing run with the same effect |
| MigratorRefines.PhaseIsARun | src/logic/migrator.cpp:169-425 | what a phase of the object does is a run of the protocol's thread in Run with the same effect |

## Left out

- Liveness and time: sections and flag accesses are atomic steps in any order; nothing is said about when a step is taken, and timeouts may fire at any moment.
- Destructors, the second controlling thread a ThreadPool would allow, and exceptions thrown by a task: the pool has one controlling thread and tasks that return.
- Reading the binlog: the reader and the stream loop in the repository are placeholders, so events enter the queue at any moment and nothing is claimed about which events reach it.
- Row-copy coverage: the copied and total counters and the completion flag are modelled, the chunk ranges are not; RunRowCopy never advances its key range (src/logic/migrator.cpp:447), so that every row is copied is not decided by this code.
- The contents of the ghost table during a migration: the catalogue knows which table holds the original rows; replay is modelled separately, on tables with the original's columns.
- Statements that select by another column than the key: Execute in Replay.dfy refuses them, since none is generated.
- What the heartbeat and throttle threads do, hooks, status server and progress output: they change no table and no flag that the run's gates read. When the two threads can end is modelled.
- Joins: a join is a plain wait until the thread has ended; that Run and Cancel, or two threads in Cancel, may join one std::thread at once, which is undefined, is not modelled. Cancel's joins of the heartbeat and throttle threads follow its stores to the flags, which let those threads end, and are no steps of their own.
- Pausing: the row-copy thread may find the run paused at any check.
- Names and definitions that the ALTER parser extracts with regular expressions: only the type and value of an operation are modelled.
- MySQL itself: a statement has its documented effect or none; a RENAME of two tables is atomic; locks do not hinder the session that holds them.
- Other sessions: they create and drop tables of their own under any name but the original's, the ghost's and the changelog's.
- Encoding::DecodeString, hexadecimal and number formatting, case-insensitive variants, configuration parsing and validation, inspection queries, checkpoints and the command line: straight-line or library-bound.
- Text.FindText: stands for std::string::find, whose source is not part of this model.
- ApplierObject.Connection.Execute: why a server refuses a statement it could execute is not modelled.
