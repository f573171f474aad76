# Verified model of the steel bar inspection scripts

Dafny model of the hard logic in the Python scripts of the bar inspection system,
with proofs of what that logic promises.  `dafny verify dfyconfig.toml` checks
all of it.

The scripts do five things that are modelled here:

- The legacy importer reads an SQL dump and keeps only rows whose sequence number
  is proved, directly or through foreign keys into rows kept themselves
  (`RelationshipIndex`, `ProvenRows`, `DumpRun`, `DumpFilter`, how many passes it
  needs in `PassLimit`, and what the order of the dump can change in `RunOrders`,
  `EveryOrder`, `OrderExamples`).  Its lexers are modelled too: the streaming
  statement splitter, the tuple, value and token scanners, and the round trip from
  printed dumps back to values (`Values`, `SqlText`, `SqlStatements`, `SqlValues`,
  `SqlTokens`, `SqlRoundTrip`, `SqlDump`, `Decimal`).  `DumpRows` puts the two together,
  from the bytes of a dump to the rows kept.
- It stages a batch directory, verifies it, renames it and commits it, while other
  runs may do the same and any run may fail or stop (`BatchPublication`); the
  verifier derives again what the stager wrote down (`CameraInventory`,
  `StagedBatch`).
- The record importer publishes a record directory, a tile cache and a catalog row,
  with recovery after a stop and rollback after a failed transaction
  (`RecordPublish`); it also cuts the tile pyramid (`TilePyramid`) and finds the
  head row (`HeadDetector`).
- The surface reconstruction builds a triangulated tube (`TubeMesh`) and finds the
  connected defect regions on it (`SurfaceDefects`).
- The maintenance scripts merge trees that may be half moved (`TreeMerge`), run a
  bounded window of tasks fairly over several disks (`TaskScheduler`), and fit a
  shift by pattern search (`PatternSearch`).

A rename and a file replacement are one step each; hashes are equal exactly when
contents are; floating-point numbers are reals.  What comes from outside is a
parameter: the reads of the dump, the outcome of each file operation (`fates`),
where a process stops, the order in which tasks complete, the occupancy of an
image row, the reading of member names, of numerals and of INSERT headers, depth
probes and digests, the candidate mask, edge lengths and the score function.

Where the code does less than one would expect, the model follows the code, and
lemmas give an input together with the exact condition (a sufficient one for the pass
limit):

- A row that meets a contested key is refused although it is proven, and a row kept
  through a key that turns out to be contested is not withdrawn, so the order of the
  dump can decide (`OrderExamples.ContestExample`, `OrderExamples.OrderMatters`).
  Every order keeps the least closed set exactly when no row of that set leads to a
  contested key (`EveryOrder.EveryOrderIff`).
- Rows kept while reading are indexed with four added columns, rows kept in the
  replay without them (`ProvenRows.StampMatters`); this plays no part exactly when no
  foreign key points at one of them (`ProvenRows.StampsIff`).
- The pass limit cannot strike when no chain of foreign keys leads back to its table
  and there are fewer tables than passes (`PassLimit.AcyclicEnds`).  In a table that
  refers to itself a reversed chain meets it, exactly when it has more links than
  there are passes (`PassLimit.ChainLimit`).
- Inside a quoted text two quotes of the other kind in a row are read as one
  (`SqlRoundTrip.CollapseExample`); a text comes back exactly when it has no such pair
  written plainly (`SqlRoundTrip.UnescapeIff`, `SqlRoundTrip.DoubledIff`).
- A stopped import is repaired by the next run exactly when the catalog did not
  already name the hash (`RecordPublish.StopIsHarmless`).  A failed transaction keeps
  catalog and backups, the record exactly when it was not the same record, and the
  caches exactly when there was none for the hash (`RecordPublish.FailedTransaction`);
  a stop can set up the failing case (`RecordPublish.StopThenFailedTransaction`).  A
  stop inside the handler of a failed transaction is harmless exactly as
  `RecordPublish.HandlerStopIff` says.  The skip test looks neither at the hash of the
  directory nor at the cache (`RecordPublish.SkipIff`,
  `RecordPublish.RevertedSourceIsSkipped`).
- Recovery is meant to bring back the complete record that was there last.  It does
  after every stop when recovery follows each broken run (`RecordPublish.AlwaysComplete`)
  or all runs are on one hash (`RecordPublish.CleanRunFinishes`).  Otherwise a run that
  is neither skipped nor refused comes to where recovery may bring back an older record
  exactly when it replaces a record while a different one is left over
  (`RecordPublish.AmbiguousIff`, `RecordPublish.LastRecordIff`; input:
  `RecordPublish.TwoBackups`), and to where it may publish a half-deleted directory
  exactly when a damaged backup is left over and the record does not stay in place
  (`RecordPublish.CompleteIff`; input: `RecordPublish.DamagedBackup`).  A damaged record
  then stays for good (`RecordPublish.DamagedStays`).
- A batch that is not marked failed is final exactly when the run that renamed it has
  given up (`BatchPublication.FrozenIff`).  Before that the run itself can take a commit
  back (`BatchPublication.InterruptAfterCommit`); and a run interrupted between the
  rename and its note leaves a batch that stays prepared for good
  (`BatchPublication.InterruptAfterRename`).
- A fresh batch passes its own verification exactly when no inventory entry has
  `archiveParts` that are not a list (`StagedBatch.FreshBatchAccepted`; input:
  `StagedBatch.NullParts`).
- A mesh can repeat a directed edge exactly at sizes with one column, or two columns
  and three or more rows (`TubeMesh.SizeIff`, `TubeMesh.RepeatsIff`).
- A merge whose rename of a file fails ends in an error, and both trees stay as they
  are (`TreeMerge.MergeNode`): the copy fallback names a module that the script does
  not import.

## Model

| member | source | states |
|---|---|---|
| RelationshipIndex.RowTargetSeq | scripts/bkv_legacy_import.py:717-754 | The loop over the foreign keys, with its early exit, gives the verdict that a statement about all keys at once gives: conflict if some key is ambiguous or two proofs differ, else pending if some key is missing, else accepted, not a target, or unproven |
| RelationshipIndex.Decide | scripts/bkv_legacy_import.py:747-754 | The last tests of the verdict: more than one proof means two different numbers |
| RelationshipIndex.EnterColumn | scripts/bkv_legacy_import.py:1107-1144 | One demanded column of one row changes its own slot only, from absent to the number, or from another number to conflict |
| RelationshipIndex.AddRelationships | scripts/bkv_legacy_import.py:1098-1144 | Indexing a row changes exactly the demanded slots that the row supplies, each once, whatever the order of the columns |
| RelationshipIndex.AgreesStep | scripts/bkv_legacy_import.py:1114-1144 | One slot stays the summary of a plain scan after one more row: absent if no row has the key, the number if all that have it share it, conflict otherwise |
| RelationshipIndex.IndexStep | scripts/bkv_legacy_import.py:1098-1144 | The whole incremental index agrees with a plain scan of the rows indexed so far, and entries move only from absent to a number to conflict |
| RelationshipIndex.OneIndex | scripts/bkv_legacy_import.py:1098-1144 | Saying slot by slot what a row adds determines the index: there is only one |
| RelationshipIndex.SuppliesIff | scripts/bkv_legacy_import.py:730-742 | A row serves a filled foreign key if and only if it is of the table named and its value in the column named is the same text as the child's, or a number of equal value; NULL and a missing column serve nothing |
| RelationshipIndex.SaysIsProof | scripts/bkv_legacy_import.py:717-742 | The numbers that speak for a row are its own sequence number, if it is an integer, and each single number that the index has for a filled foreign key |
| RelationshipIndex.VerdictIff | scripts/bkv_legacy_import.py:717-754 | Each of the five verdicts, if and only if its own condition: conflict if a key is contested or two numbers speak for the row, else pending if a key is unanswered, else unproven if no number speaks for it, else accepted or not a target |
| ProvenRows.StampHarmless | scripts/bkv_legacy_import.py:1157-1160 | If no foreign key points at one of the four added columns, a kept row provides exactly the keys of its own columns |
| ProvenRows.StampsIff | scripts/bkv_legacy_import.py:1157-1160 | The added columns play no part, for all rows and keys, if and only if no foreign key points at one of them |
| ProvenRows.StampMatters | scripts/bkv_legacy_import.py:1368-1388 | Input where it does matter: a foreign key onto the added number column is served by a parent kept while reading |
| ProvenRows.StampedIs | scripts/bkv_legacy_import.py:1157-1160 | The written row keeps table, hash and columns, except the four added ones, which hold the number, the table, the hash and the name of its algorithm |
| ProvenRows.HasParentsIff | scripts/bkv_legacy_import.py:731-734 | A row has parents if and only if a column of one of its foreign keys is filled |
| ProvenRows.LeastIsLeast | scripts/bkv_legacy_import.py:717-754 | The set of pairs of row and number that belong to every set closed under the proof rule is itself closed, and is the least one |
| ProvenRows.LeastByRule | scripts/bkv_legacy_import.py:717-754 | Every member of the least set follows by the proof rule from other members: it is a fixed point |
| ProvenRows.RuleIff | scripts/bkv_legacy_import.py:717-754 | The proof rule over values: a row without fault may have a target as its number if its own number agrees, where it has one, every filled key is matched by a row of that number, and it has a number or a filled key |
| ProvenRows.CarriesIff | scripts/bkv_legacy_import.py:1107-1144 | A kept row serves a key if and only if it is of the table named and the value it provides there, an added one included, is the same text or a number of equal value |
| ProvenRows.RefusalStands | scripts/bkv_legacy_import.py:1357-1362 | A verdict of conflict, not a target, or unproven is final: every later index gives the same verdict |
| ProvenRows.IndexIsScan | scripts/bkv_legacy_import.py:1368-1388 | The index after any list of kept rows is what a plain scan of them says, key by key |
| ProvenRows.AnswerMeans | scripts/bkv_legacy_import.py:1114-1144 | The index answers a filled key with nothing, a number or a conflict, if and only if no kept row serves it, all that do have that number, or two that do have different numbers |
| ProvenRows.IndexHolds | scripts/bkv_legacy_import.py:1098-1144 | The index has an entry if and only if some foreign key points at that table and column and some kept row has the key there |
| ProvenRows.IndexGrows | scripts/bkv_legacy_import.py:1114-1144 | Keeping more rows moves entries only from absent to a number to conflict |
| ProvenRows.KeptFacts | scripts/bkv_legacy_import.py:1409-1422 | A kept row is admissible, and for each of its keys some row kept before it has the key and all that have it say its number |
| ProvenRows.KeptIsProven | scripts/bkv_legacy_import.py:1412-1422 | Sound: every row kept lies, with its number, in every closed set (induction over the order in which rows were kept) |
| ProvenRows.KeptAtMostLeast | scripts/bkv_legacy_import.py:1368-1445 | The rows kept are never more than the least closed set, for every dump |
| ProvenRows.RuleAccepted | scripts/bkv_legacy_import.py:1409-1422 | A row that the rule allows over the kept rows gets the verdict accepted from the final index |
| ProvenRows.OneNumber | scripts/bkv_legacy_import.py:747-753 | A row whose keys are not contested cannot be proved for two numbers |
| ProvenRows.KeptIsClosed | scripts/bkv_legacy_import.py:1368-1445 | Complete: if no row of the least set leads to a contested key, the kept rows form a closed set |
| ProvenRows.KeptIsLeast | scripts/bkv_legacy_import.py:1301-1445 | Then the rows kept, with their numbers, are exactly the least closed set, whatever the order of the dump |
| ProvenRows.KeptTimes | scripts/bkv_legacy_import.py:1301-1445 | Copy for copy: a proven row is kept as often as it occurs in the dump, any other row never |
| ProvenRows.ContestedIsRefused | scripts/bkv_legacy_import.py:743-744 | A row that leads to a key which rows without parents give two numbers is never kept |
| ProvenRows.KeptIsLeastIff | scripts/bkv_legacy_import.py:1301-1445 | Where the keys that proven rows lead to are contested by rows without parents, if at all, the rows kept are the least set if and only if none of its rows leads to a contested key |
| ProvenRows.ContestedChild | scripts/bkv_legacy_import.py:743-744 | Two parents with one key and different numbers: each child of theirs is in the least set and leads to a contested key |
| DumpRun.CountsConserved | scripts/bkv_legacy_import.py:1077-1086 | Per table, accepted + rejected + waiting rows are the rows read |
| DumpRun.InTableSame | scripts/bkv_legacy_import.py:1077-1086 | The number of rows of a table depends on the multiset of rows, not on their order |
| DumpRun.InTableIs | scripts/bkv_legacy_import.py:1077-1086 | The count of a table is the number of places that hold a row of that table |
| DumpRun.EmptyIndex | scripts/bkv_legacy_import.py:1336-1362 | While reading, a row waits if and only if it has parents |
| DumpRun.ReadAllFacts | scripts/bkv_legacy_import.py:1301-1362 | After reading, kept, refused and waiting rows are a partition of the dump, kept rows have no parents, and every refusal has its reason |
| DumpRun.AcceptKeepsInv | scripts/bkv_legacy_import.py:1409-1422 | Accepting and indexing a waiting row keeps the invariant of the run: each kept row was accepted by the index of those before it, rows without parents first, and refusals stand |
| DumpRun.PassFacts | scripts/bkv_legacy_import.py:1395-1432 | A pass makes progress and shrinks the waiting list, or leaves the index alone and every row passed on is still pending on it |
| DumpRun.RejectAllFacts | scripts/bkv_legacy_import.py:1433-1439 | After a pass without progress every row left is refused as unproven, and is still pending on the final index |
| DumpRun.ReplayEnds | scripts/bkv_legacy_import.py:1390-1445 | Without the limit error everything is decided; with no more waiting rows than passes the limit cannot strike |
| DumpRun.FilterEnds | scripts/bkv_legacy_import.py:1038-1445 | The same for the whole run as a function of the dump |
| DumpRun.Conclusion | scripts/bkv_legacy_import.py:1038-1445 | What a finished run means in terms of the dump alone: counts, reasons, and which rows are kept how often |
| DumpRun.RefusalMeans | scripts/bkv_legacy_import.py:1336-1439 | Why a row without fault was refused, each reason if and only if its own cause: a clash of keys or numbers, an own number that is no target, or no proof to the end |
| DumpFilter.ReadRow | scripts/bkv_legacy_import.py:1301-1362 | One parsed row while reading is kept, spooled or refused with its reason, as the run function says |
| DumpFilter.ReadRows | scripts/bkv_legacy_import.py:1301-1362 | The reading loop computes the run function; kept, refused and waiting rows are a partition of the dump |
| DumpFilter.IndexAccepted | scripts/bkv_legacy_import.py:1368-1388 | Indexing the rows already kept, as they were written out, gives the index of those rows, which is a plain scan of them |
| DumpFilter.ReplayRow | scripts/bkv_legacy_import.py:1399-1430 | One waiting row is kept and indexed, refused with the reason of its verdict, or passed on |
| DumpFilter.ReplayPass | scripts/bkv_legacy_import.py:1395-1432 | A pass makes progress and shrinks the waiting list, or leaves the index alone and every row passed on is still pending on it |
| DumpFilter.RejectLeft | scripts/bkv_legacy_import.py:1433-1439 | After a pass without progress every row left is refused as unproven |
| DumpFilter.Replay | scripts/bkv_legacy_import.py:1390-1445 | The loop over the passes computes the replay function, limit error included |
| DumpFilter.FilterSqlDump | scripts/bkv_legacy_import.py:1038-1445 | The whole run: it computes the run function; counts add up per table; every refusal carries the reason that the final index gives; kept rows are within the least set, and equal it copy for copy when none of its rows leads to a contested key (an if and only if where rows without parents contest the keys); the pass limit cannot strike when the foreign keys of fewer than 32 tables have no cycle |
| PassLimit.SameAnswers | scripts/bkv_legacy_import.py:730-754 | The verdict on a row depends only on the index entries it asks for |
| PassLimit.PassAbove | scripts/bkv_legacy_import.py:1395-1432 | If all rows of tables up to rank k are stuck, a pass changes no entry up to rank k, and afterwards all rows up to rank k + 1 are stuck |
| PassLimit.RankedReplay | scripts/bkv_legacy_import.py:1390-1445 | So with more passes than ranks the replay ends, whatever the rows |
| PassLimit.RankedEnds | scripts/bkv_legacy_import.py:1038-1445 | The same for the whole run |
| PassLimit.AcyclicIff | scripts/bkv_legacy_import.py:717-754 | No chain of foreign keys leads back to its table if and only if the tables can be ranked so that every foreign key leads to a smaller rank |
| PassLimit.AcyclicEnds | scripts/bkv_legacy_import.py:1440-1445 | If no chain of foreign keys leads back to its table and there are fewer tables than passes, the limit error cannot occur, for any number of rows |
| PassLimit.ChainReplay | scripts/bkv_legacy_import.py:1390-1445 | In a reversed chain of rows each pass keeps exactly one link |
| PassLimit.ChainLimit | scripts/bkv_legacy_import.py:1440-1445 | A reversed chain in a table that refers to itself meets the limit if and only if it has more links than there are passes |
| RunOrders.ReadSplits | scripts/bkv_legacy_import.py:1336-1362 | Reading keeps the rows without parents and lets the others wait, both in the order of the dump |
| RunOrders.Rerun | scripts/bkv_legacy_import.py:1390-1445 | Every list of rows in which each is accepted by the index of those before it is what the dump in that order keeps, decided within two passes |
| RunOrders.Settle | scripts/bkv_legacy_import.py:1390-1445 | Whatever one order of the dump leads to, given enough passes, another order leads to within two, so the pass limit shuts out no outcome |
| EveryOrder.Exhausts | scripts/bkv_legacy_import.py:730-746 | A derivation that never uses one row has all pairs with its number, unless that row could use it |
| EveryOrder.Reaches | scripts/bkv_legacy_import.py:730-746 | A contested key is carried by a rival whose derivation does not use the row that leads to the key |
| EveryOrder.ChainKept | scripts/bkv_legacy_import.py:1399-1430 | With that derivation at the head of the dump the first pass keeps all of it, if the run is to keep the least set |
| EveryOrder.RivalFirst | scripts/bkv_legacy_import.py:1399-1430 | So that order does not keep the least set |
| EveryOrder.BadOrder | scripts/bkv_legacy_import.py:1038-1445 | If a proven row leads to a contested key, some order of the dump ends without error and does not keep the least set |
| EveryOrder.EveryOrderIff | scripts/bkv_legacy_import.py:1038-1445 | Every order of the dump that ends without error keeps the least closed set if and only if no row of that set leads to a contested key |
| OrderExamples.ContestExample | scripts/bkv_legacy_import.py:743-744 | Two parents with one key and a child: in every order the run ends and does not keep the child, although it is proven; the condition of the if and only if holds there |
| OrderExamples.OrderMatters | scripts/bkv_legacy_import.py:1143-1144 | Five rows in two orders: in one the row is kept and stays kept when its key becomes contested, in the other it is refused |
| SqlText.SkipQuoted | scripts/bkv_legacy_import.py:319-330 | One look-ahead step inside quotes always advances and stays inside the text |
| SqlStatements.DelayedIsLookAhead | scripts/bkv_legacy_import.py:283-305 | From every state the delayed-close automaton ends a statement where the look-ahead scanner does |
| SqlStatements.PiecesFlatten | scripts/bkv_legacy_import.py:266-307 | The dump cut at look-ahead ends concatenates to the dump: nothing lost, duplicated or reordered |
| SqlStatements.PiecesTerminated | scripts/bkv_legacy_import.py:301-307 | Every piece ends at its own first unquoted semicolon, except a last one that has none |
| SqlStatements.EndInPrefix | scripts/bkv_legacy_import.py:318-342 | Where a statement ends does not depend on what follows it |
| SqlStatements.StatementsCover | scripts/bkv_legacy_import.py:303-307 | The statements and a blank tail are the input |
| SqlStatements.OutcomeIs | scripts/bkv_legacy_import.py:266-307 | The first statement above the limit ends the reading with an error after those before it; without one all are yielded, but for a last one that is blank |
| SqlStatements.ReadByte | scripts/bkv_legacy_import.py:283-305 | The three variables quote, escaped and maybe-end behave as one automaton |
| SqlStatements.ReadChunk | scripts/bkv_legacy_import.py:277-305 | One read of any size: whole statements so far, an unfinished one, the rest to come; or the length limit strikes at the same statement as in the reference |
| SqlStatements.IterSqlStatements | scripts/bkv_legacy_import.py:266-307 | The streaming reader yields what the look-ahead cut of the delivered bytes yields, including the statements before the length error |
| SqlStatements.ChunkingIrrelevant | scripts/bkv_legacy_import.py:271-278 | Any two ways of cutting the same bytes into reads give the same statements |
| SqlValues.StepQuoted | scripts/bkv_legacy_import.py:319-330 | The quoted half of the scanner loops is one look-ahead step |
| SqlValues.SplitSqlItems | scripts/bkv_legacy_import.py:310-342 | The loop over quote, escape and depth computes the items function, which the round trip inverts |
| SqlValues.ExtractParenthesized | scripts/bkv_legacy_import.py:345-375 | The loop finds the parenthesised text and its closing parenthesis as the extraction function does |
| SqlValues.Extract | scripts/bkv_legacy_import.py:345-375 | A result lies behind the opening parenthesis and inside the text |
| SqlValues.ExtractFrom | scripts/bkv_legacy_import.py:352-375 | The reported end is a closing parenthesis at or after the scan position |
| SqlValues.MysqlUnescape | scripts/bkv_legacy_import.py:610-639 | The loop computes the unescape function, which the encoder inverts |
| SqlValues.ParseValuesRows | scripts/bkv_legacy_import.py:657-679 | The loop over tuples computes the rows function on the trimmed clause, including the unknown-rows outcome |
| SqlRoundTrip.UnescapeIff | scripts/bkv_legacy_import.py:610-639 | For every text in either quotes, each character plain, behind a backslash or as a doubled quote: unescaping gives its reading, which is the text meant if and only if the other quote does not stand twice in a row |
| SqlRoundTrip.EscapesAre | scripts/bkv_legacy_import.py:611-621 | The six letters that a backslash turns into control characters; any other character behind it stands for itself |
| SqlRoundTrip.DoubledIff | scripts/bkv_legacy_import.py:610-639 | A text whose single quotes and backslashes are doubled comes back if and only if it has no two double quotes in a row |
| SqlRoundTrip.DoubledTuple | scripts/bkv_legacy_import.py:310-375 | A tuple of such texts in single quotes is cut into exactly those texts, and each is read back if and only if it has no two double quotes in a row and is within the field limit |
| SqlRoundTrip.CollapseExample | scripts/bkv_legacy_import.py:628-634 | Input: two double quotes inside single quotes come back as one |
| SqlRoundTrip.BackslashesAre | scripts/bkv_legacy_import.py:610-639 | Every text at all can be written, in either kind of quotes, so that it is read back |
| SqlRoundTrip.ValueQuiet | scripts/bkv_legacy_import.py:318-342 | Every scanner passes a written value without meeting a semicolon outside quotes, or a comma outside quotes and parentheses |
| SqlRoundTrip.ValueRoundTrip | scripts/bkv_legacy_import.py:642-654 | Reading a written NULL, integer, text in either quotes, or decimal number gives its value; a call is refused; the limits of 1048576 bytes and 4300 digits strike exactly above them |
| SqlRoundTrip.NullIff | scripts/bkv_legacy_import.py:646-647 | NULL is the word in small or capital letters or both, and nothing else |
| SqlRoundTrip.Utf8LengthIs | scripts/bkv_legacy_import.py:644 | The length that the field limit looks at is the number of bytes in UTF-8 |
| SqlRoundTrip.SplitBody | scripts/bkv_legacy_import.py:310-342 | Splitting the written body of a tuple, with white space around its values and calls with nested parentheses and commas among them, gives exactly its written values |
| SqlRoundTrip.TupleRoundTrip | scripts/bkv_legacy_import.py:345-375 | The closing parenthesis of a written tuple is found whatever its texts and calls contain |
| SqlRoundTrip.RowsRoundTrip | scripts/bkv_legacy_import.py:657-679 | Written tuples with any white space between them are parsed to one tuple per row, in order; what follows decides |
| SqlRoundTrip.TailDecides | scripts/bkv_legacy_import.py:657-679 | Behind written tuples nothing, or a last comma, keeps the rows; any other text, or something other than a tuple behind a comma, makes them unknown |
| SqlRoundTrip.NoTuple | scripts/bkv_legacy_import.py:657-668 | A clause that is blank or does not begin with a parenthesis has no known rows |
| SqlRoundTrip.ClauseRoundTrip | scripts/bkv_legacy_import.py:657-679 | The same for the whole clause, with or without a semicolon and trailing white space |
| SqlRoundTrip.RoundTrip | scripts/bkv_legacy_import.py:610-679 | All the way: every value of every row is read back at its place, or meets its limit, for every non-empty list of non-empty rows |
| SqlDump.LookInsert | scripts/bkv_legacy_import.py:283-305 | The first end that the splitter finds in a printed INSERT is its own semicolon, whatever quoted names its header and whatever quotes and semicolons its strings hold |
| SqlDump.LookStatement | scripts/bkv_legacy_import.py:283-305 | The same for any other statement whose quotes are closed |
| SqlDump.NamedHeader | scripts/bkv_legacy_import.py:301-302 | Words mixed with backquoted names make such a header |
| SqlDump.SplitDump | scripts/bkv_legacy_import.py:266-307 | Splitting a printed dump of INSERT and other statements gives its statements |
| SqlDump.DumpRoundTrip | scripts/bkv_legacy_import.py:266-375 | The k-th statement found is the k-th one printed, and the text behind its header parses to its tuples |
| SqlDump.DumpValues | scripts/bkv_legacy_import.py:266-679 | From dump to values: every value of every row of every statement is read back at its place or meets its limit |
| SqlDump.ReadDump | scripts/bkv_legacy_import.py:266-307 | The streaming reader, over any reads that deliver a printed dump, yields its statements |
| SqlDump.SpacesAre | scripts/bkv_legacy_import.py:661-673 | White space, by code point |
| DumpRows.ReadStatement | scripts/bkv_legacy_import.py:1263-1335 | The rows of one statement: the tuples of its clause, each read, checked and zipped with the columns; none if it is no INSERT or its rows cannot be told apart |
| DumpRows.FilterText | scripts/bkv_legacy_import.py:1038-1445 | From the reads of a dump to the state: nothing if and only if a statement is too long, else exactly the run over the rows of the statements with 32 passes, limit flag included, with its meaning |
| DumpRows.TupleIsRow | scripts/bkv_legacy_import.py:1301-1335 | A tuple read from written values is the written row, with the fault that its columns and values give it |
| DumpRows.RowsAreRead | scripts/bkv_legacy_import.py:1244-1335 | The rows that the scanners find in a printed dump are the rows printed, in order |
| DumpRows.ZipHas | scripts/bkv_legacy_import.py:1316 | The dictionary of a tuple holds each name once, with the last value given for it |
| DumpRows.NegativeIff | scripts/bkv_legacy_import.py:1327-1335 | The dimension test strikes if and only if the last value of some column that folds to a dimension is negative |
| DumpRows.DimensionIff | scripts/bkv_legacy_import.py:219-242 | The names of dimensions are eight words and seven pairs of words, together or with an underscore |
| DumpRows.FirstErrorIs | scripts/bkv_legacy_import.py:1306-1315 | The first value that cannot be read decides, as too long or as malformed; there is no error if all are read |
| DumpRows.FaultIs | scripts/bkv_legacy_import.py:1289-1335 | The fault of a row: columns that do not fit, else the first value that cannot be read, else an infinite number, else a dimension whose last value is below zero, else none |
| DumpRows.FilterPrinted | scripts/bkv_legacy_import.py:1038-1445 | All the way: for a printed dump in any reads the result is exactly the run over the printed rows, which keeps, refuses and counts them as the meaning of a run says |
| DumpRows.FieldAt | scripts/bkv_legacy_import.py:1316-1327 | With columns that differ when case-folded each field is the value in its column |
| DumpRows.PrintedRowIs | scripts/bkv_legacy_import.py:1290-1335 | A written row has its table and the digest of its text, and no fault if and only if its columns fit, every literal is read as a finite value and the last value of no dimension is below zero; then, with columns that differ when case-folded, each field is what the literal in its column reads as |
| SqlTokens.QuotedSqlTokenEnd | scripts/bkv_legacy_import.py:378-394 | The third scanner, which skips escapes as pairs, ends a quoted token where the look-ahead scanner leaves the quotes |
| SqlDump.TokenEnds | scripts/bkv_legacy_import.py:378-394 | For every text in either quotes: a quoted token ends right behind its closing quote, and one without has no end |
| Decimal.ReadPrintInt | scripts/bkv_legacy_import.py:650-651 | Reading a printed integer gives the integer back |
| Decimal.NoLeadingZero | scripts/bkv_legacy_import.py:650-651 | A printed number begins with a zero only if it is zero |
| Decimal.ReadSplit | scripts/bkv_legacy_import.py:650-651 | Place value: digits in front count ten times for each digit behind them |
| Decimal.ReadSigned | scripts/bkv_legacy_import.py:650-651 | A plus sign changes nothing, a minus sign negates |
| SurfaceDefects.TouchSymmetric | scripts/bar_surface_reconstruct.py:1758-1764 | Being neighbours, with columns wrapping round and rows not, is symmetric for every number of columns |
| SurfaceDefects.TouchIff | scripts/bar_surface_reconstruct.py:1758-1764 | Two different cells are neighbours if and only if both are candidates, their rows differ by at most one and their columns by at most one, the last being next to the first |
| SurfaceDefects.JoinedEquivalence | scripts/bar_surface_reconstruct.py:1755-1766 | Being joined by neighbour steps is an equivalence on the candidate cells |
| SurfaceDefects.ClosedIsComponent | scripts/bar_surface_reconstruct.py:1755-1766 | A set closed under neighbours whose cells are all joined to the seed is the class of the seed |
| SurfaceDefects.TryNeighbour | scripts/bar_surface_reconstruct.py:1760-1766 | One offset: a candidate not yet visited is marked and pushed, anything else changes nothing |
| SurfaceDefects.PushNeighbours | scripts/bar_surface_reconstruct.py:1758-1766 | After the two inner loops every neighbour is visited, and only unvisited neighbours were pushed |
| SurfaceDefects.PopAndPush | scripts/bar_surface_reconstruct.py:1755-1766 | Popping a cell and pushing its neighbours keeps the state of the search: visited cells are the popped ones and those on the stack, each once |
| SurfaceDefects.Shrinks | scripts/bar_surface_reconstruct.py:1755-1766 | The search ends: unvisited candidates become fewer, or the stack shorter |
| SurfaceDefects.Flood | scripts/bar_surface_reconstruct.py:1752-1766 | The flood from a seed collects exactly its class, each cell once, and marks no other cell |
| SurfaceDefects.DetectComponents | scripts/bar_surface_reconstruct.py:1738-1768 | The reported components are exactly the classes of at least max(1, minimum area) cells, disjoint, each led by its first cell of the scan and in scan order |
| TubeMesh.IdInjective | scripts/bar_surface_reconstruct.py:1529-1537 | Vertex numbers of different grid vertices differ |
| TubeMesh.EdgeUnique | scripts/bar_surface_reconstruct.py:1529-1539 | With three or more columns a directed edge names its quad and its corner |
| TubeMesh.TwoColumns | scripts/bar_surface_reconstruct.py:1533-1539 | With two columns two quads share a directed edge if and only if one lies below and beside the other |
| TubeMesh.AcrossReverses | scripts/bar_surface_reconstruct.py:1529-1539 | The quad across an edge uses that edge in the opposite direction |
| TubeMesh.NoEdgeTwice | scripts/bar_surface_reconstruct.py:1538-1539 | Whatever quads are kept, no directed edge occurs twice in the index list |
| TubeMesh.SharedEdges | scripts/bar_surface_reconstruct.py:1538-1539 | An edge is also used in the opposite direction if and only if the quad across it is kept |
| TubeMesh.RepeatsIff | scripts/bar_surface_reconstruct.py:1538-1539 | For any kept quads: no directed edge repeats if and only if there are three or more columns, or two and no kept quad has its twin kept, or one and nothing is kept |
| TubeMesh.SizeIff | scripts/bar_surface_reconstruct.py:1529-1539 | No surface of a size repeats a directed edge if and only if there are three or more columns, fewer than two rows, or two of each; the full surface is the witness |
| TubeMesh.KeptQuadsAre | scripts/bar_surface_reconstruct.py:1529-1539 | The kept quads are exactly the quads that pass the test, each once |
| TubeMesh.QuadFateIs | scripts/bar_surface_reconstruct.py:1504-1527 | A quad is invalid if and only if one of its four vertices is, else it is kept if and only if there is no limit or its four sides and its diagonal are within it, else it is a gap |
| TubeMesh.FatesAddUp | scripts/bar_surface_reconstruct.py:1498-1527 | Kept, invalid and gap quads add up to the candidates |
| TubeMesh.IndicesValid | scripts/bar_surface_reconstruct.py:1507-1509 | Every index is in range and names a valid vertex |
| TubeMesh.CanConnectQuad | scripts/bar_surface_reconstruct.py:1504-1527 | The nested test with its three counters counts one candidate and one fate |
| TubeMesh.AddQuad | scripts/bar_surface_reconstruct.py:1529-1539 | One pass of the loop body extends the mesh by exactly the next quad |
| TubeMesh.MeshIs | scripts/bar_surface_reconstruct.py:1498-1539 | The mesh in terms of places: six indices, in this order, for each place whose quad is kept, row by row, none missing; and the two counters are the numbers of places of each kind |
| TubeMesh.EdgesWithinLimit | scripts/bar_surface_reconstruct.py:1510-1527 | With a positive limit, and lengths that do not depend on direction, no edge of any triangle is longer than it |
| TubeMesh.BuildMesh | scripts/bar_surface_reconstruct.py:1498-1539 | The two loops: 6 indices per kept quad, kept + invalid + gap = (rows-1)*columns, all indices valid, exactly when no directed edge repeats, and which indices and counters in terms of places |
| RecordPublish.RunSplit | scripts/bkv_import_service.py:1030-1210 | Stopping inside a sequence of steps is stopping in its first or in its second part |
| RecordPublish.PublishTable | scripts/bkv_import_service.py:1049-1210 | The whole disk after every number of steps of a publish: record, staged record, caches, staged cache, catalog and backups |
| RecordPublish.PublishEnds | scripts/bkv_import_service.py:1205-1210 | Run to its end a publish leaves exactly the new record, the cache of its hash and no other, the catalog at it, nothing staged, and the backups there were |
| RecordPublish.AttemptIs | scripts/bkv_import_service.py:494-515 | When a run is skipped, when it is refused, and what the disk is then; else it publishes |
| RecordPublish.Stops | scripts/bkv_import_service.py:1030-1210 | Wherever a publish stops: record untouched, moved aside or replaced, backups of other jobs as they were; the catalog names the new hash only when record and cache are there |
| RecordPublish.OldOrNew | scripts/bkv_import_service.py:254-273 | After a stop anywhere, every recovery leaves one complete record directory, the old or the new one, and no backup |
| RecordPublish.AlwaysComplete | scripts/bkv_import_service.py:254-273 | Any number of runs on any hashes, each broken off somewhere and followed by recovery: the record is complete at every moment, and is the one before or the one just published |
| RecordPublish.RecoverAgain | scripts/bkv_import_service.py:254-273 | A recovery that is itself stopped anywhere and run again ends as one recovery could |
| RecordPublish.StaysBetween | scripts/bkv_import_service.py:494-515 | Any number of runs on one hash, each broken off somewhere under its own job, with or without recovery after it: record old or new, or every backup the old one; catalog at the hash only when all is |
| RecordPublish.CleanRunFinishes | scripts/bkv_import_service.py:469-515 | However often runs on one hash broke off, every next recovery leaves one complete record, old or new, and one fault-free run ends with catalog, record directory and tile cache at the new hash |
| RecordPublish.TwoBackups | scripts/bkv_import_service.py:254-270 | Input: runs on different hashes broken off without recovery leave two backups; recovery may bring back the one that was there last, and may bring back the older one |
| RecordPublish.AmbiguousIff | scripts/bkv_import_service.py:1049-1073 | A run can stop where recovery has two different outcomes if and only if it started there, or is neither skipped nor refused and replaces a record while a different one is left over |
| RecordPublish.AmbiguousMeans | scripts/bkv_import_service.py:254-270 | Two different backups and no record: that is when recovery has two different outcomes |
| RecordPublish.LastRecordIff | scripts/bkv_import_service.py:254-270 | After every stop of a run every recovery leaves the record that was there or the new one, if and only if the run is skipped or refused, the record stays in place, or every backup left over is one of the two |
| RecordPublish.DamagedBackup | scripts/bkv_import_service.py:1205-1206 | Input: an error while the backup is removed after the commit, then a broken run on another hash; recovery may publish the half-deleted directory |
| RecordPublish.CompleteIff | scripts/bkv_import_service.py:254-270 | After every stop of a run every recovery leaves a complete record, if and only if it was complete before, and the run is skipped or refused, the record stays in place, or every backup left over is complete |
| RecordPublish.DamagedStays | scripts/bkv_import_service.py:1050-1055 | A damaged record is never replaced: not by any sequence of runs on any hashes, and not by recovery |
| RecordPublish.CatalogNamesHash | scripts/bkv_import_service.py:660-673 | If the catalog named the hash before, some stop makes the next run skip a record whose cache is missing |
| RecordPublish.StopIsHarmless | scripts/bkv_import_service.py:660-673 | A stop anywhere followed by recovery and a clean run under another job ends with all at the hash if and only if the catalog did not name the hash before |
| RecordPublish.FailedTransaction | scripts/bkv_import_service.py:1091-1204 | Whatever backups are left over: a failed transaction leaves catalog and backups as they were, the record if and only if the publish was not of the record already there, and the caches if and only if there was none for this hash |
| RecordPublish.HandlerSteps | scripts/bkv_import_service.py:1197-1204 | The whole disk wherever the handler stops, step by step |
| RecordPublish.HandlerStopIff | scripts/bkv_import_service.py:1197-1204 | If the handler stops, every recovery leaves a complete record, old or new, if and only if the record was not touched yet, or its backup is back, or it is gone and every backup left over fits and there is one |
| RecordPublish.AgreeingIsSafe | scripts/bkv_import_service.py:494-499 | From agreeing catalog and record, whatever backups are left over, the skip test rules that case out, so catalog, record and backups stay as they were |
| RecordPublish.SameRecordLost | scripts/bkv_import_service.py:1056-1060 | In the same-record branch no backup exists and the handler deletes the record |
| RecordPublish.StopThenFailedTransaction | scripts/bkv_import_service.py:1197-1204 | A stop followed by a failed transaction on the same source loses the record that the catalog still lists |
| RecordPublish.SkipIff | scripts/bkv_import_service.py:660-673 | A fault-free run ends with all at the hash if and only if it is not refused, or is skipped with directory and cache at the hash already |
| RecordPublish.RevertedSourceIsSkipped | scripts/bkv_import_service.py:660-673 | After a stop, going back to the old source is skipped although the directory holds the new record |
| RecordPublish.Store.RecoverReplacedRecords | scripts/bkv_import_service.py:254-273 | The recovery loop, in any order of the backups and stopped anywhere, does what the recovery relation says; with enough steps it finishes |
| RecordPublish.Store.PlaceRecordFiles | scripts/bkv_import_service.py:1049-1073 | The record branch performs exactly the steps of the plan, up to the stop |
| RecordPublish.Store.PlaceCacheFiles | scripts/bkv_import_service.py:1075-1079 | The cache is replaced in the steps of the plan, up to the stop |
| RecordPublish.Store.CleanUp | scripts/bkv_import_service.py:1205-1210 | After the commit the backup and the caches of other hashes go, one step each, up to the stop |
| RecordPublish.Store.Undo | scripts/bkv_import_service.py:1197-1204 | The handler removes cache and record and brings the backup back, in the steps of the plan, up to the stop |
| RecordPublish.Store.PublishRecord | scripts/bkv_import_service.py:1021-1210 | An incomplete staged cache, an unreadable record and a backup of the same job in the way raise exactly then and change nothing; every other publish, with a stop anywhere, also inside the handler of a failing transaction, performs exactly the modelled steps |
| RecordPublish.Store.PublishSteps | scripts/bkv_import_service.py:1049-1210 | The steps of a publish that is not refused, up to the stop, with or without a failing transaction |
| RecordPublish.Store.ImportRecord | scripts/bkv_import_service.py:494-515 | One run, with skip test, staging and publish, does exactly what the run function of the stop and recovery results says |
| BatchPublication.OtherRunOk | scripts/bkv_legacy_import.py:4712-4768 | A step of one run keeps the standing of every other run |
| BatchPublication.ActingRunOk | scripts/bkv_legacy_import.py:4656-4689 | A step keeps the standing of the run that takes it |
| BatchPublication.StepKeepsInv | scripts/bkv_legacy_import.py:4656-4768 | Every enabled step of every run, error and stop steps included, keeps the invariant |
| BatchPublication.AlwaysInv | scripts/bkv_legacy_import.py:4694-4768 | The invariant holds in every state of every interleaving of runs |
| BatchPublication.VerifiedEarlier | scripts/bkv_legacy_import.py:4665-4672 | A manifest counts as verified only by an earlier verification while marked prepared |
| BatchPublication.CommittedWasVerified | scripts/bkv_legacy_import.py:2546-2599 | A committed marker stands only in the batch directory, over files and a manifest that passed full verification earlier while marked prepared |
| BatchPublication.AlwaysEvidence | scripts/bkv_legacy_import.py:4712-4768 | In every behaviour failure evidence is marked failed, without content, over a manifest that says so and describes the files, and its run is done |
| BatchPublication.EvidenceStays | scripts/bkv_legacy_import.py:4712-4768 | Failure evidence, once there, is never changed or removed |
| BatchPublication.HandlerEnds | scripts/bkv_legacy_import.py:4746-4768 | A handler that ends has moved all that its run had into the evidence, leaves nothing where it was, and touches nothing else |
| BatchPublication.OnlyOwnerTouches | scripts/bkv_legacy_import.py:4336-4347 | No other run alters the batch directory, committed or not |
| BatchPublication.AlwaysOwned | scripts/bkv_legacy_import.py:4673-4689 | In every behaviour the batch directory has an owner, and while it is committed the owner has just committed it, was just interrupted, or is over |
| BatchPublication.OwnerIff | scripts/bkv_legacy_import.py:4673-4689 | In every behaviour there is an owner if and only if there is a batch directory |
| BatchPublication.GivenUpIsFrozen | scripts/bkv_legacy_import.py:4336-4347 | Once the run that renamed it is over, or was interrupted before it noted its rename, no step of any run ever changes the batch |
| BatchPublication.TakenBack | scripts/bkv_legacy_import.py:4746-4768 | As long as its run has not given up, the behaviour can go on so that the commit is taken back |
| BatchPublication.StillMoves | scripts/bkv_legacy_import.py:4674-4689 | As long as its run has not given up, a prepared batch can still be committed or marked failed |
| BatchPublication.FrozenIff | scripts/bkv_legacy_import.py:4694-4768 | In every behaviour: a batch that is not marked failed stays as it is, however the behaviour goes on, if and only if the run that renamed it has given up; for a committed batch that means the run is over |
| BatchPublication.OnlyCommittedImportable | scripts/bkv_legacy_import.py:4775-4813 | What the import gate lets through is the committed batch with the expected content, verified before |
| BatchPublication.ImportableIff | scripts/bkv_legacy_import.py:4775-4813 | The gate opens if and only if the batch is committed, has the expected content, its archives check out, and it is ready, or partial and reviewed |
| BatchPublication.GateReasons | scripts/bkv_legacy_import.py:4775-4813 | Every refusal of the gate, if and only if its own cause holds and the causes tested before it do not |
| BatchPublication.SoloRunCommits | scripts/bkv_legacy_import.py:4656-4689 | A run that nothing disturbs commits its batch |
| BatchPublication.SoloRunFails | scripts/bkv_legacy_import.py:4712-4768 | A run that fails while it works ends with its evidence and nothing else |
| BatchPublication.SecondRunReturns | scripts/bkv_legacy_import.py:4336-4347 | A second run finds the committed batch, removes what it had itself and leaves the batch as it is |
| BatchPublication.InterruptAfterCommit | scripts/bkv_legacy_import.py:4688-4768 | A behaviour from the empty directory in which a committed batch is taken back by its own run |
| BatchPublication.InterruptAfterRename | scripts/bkv_legacy_import.py:4674-4676 | A behaviour from the empty directory in which a verified batch is renamed, its run is interrupted before it notes this, and the batch stays prepared for good |
| CameraInventory.PathParts | scripts/bkv_legacy_import.py:2953-2956 | The written artifact path splits into its five parts |
| CameraInventory.KindDirectory | scripts/bkv_legacy_import.py:2943-2956 | The fourth part of the path names the kind |
| CameraInventory.ParseRelativePath | scripts/bkv_legacy_import.py:3971-3984 | The verifier reads camera, number and kind back from the written path |
| CameraInventory.MatrixCounts | scripts/bkv_legacy_import.py:4484-4490 | A matrix cell counts exactly the artifacts of its camera, number and kind |
| CameraInventory.ArtifactCountIs | scripts/bkv_legacy_import.py:4478-4479 | The count of a camera is the number of places that hold an artifact of it |
| CameraInventory.KindCountIs | scripts/bkv_legacy_import.py:4484-4487 | Each count by kind is the number of artifacts of that camera and kind |
| CameraInventory.CellCountIs | scripts/bkv_legacy_import.py:4488-4490 | Each count in the matrix is the number of artifacts of that camera, sequence number and kind |
| CameraInventory.KindsAddUp | scripts/bkv_legacy_import.py:4478-4490 | The counts by kind are the sums over the matrix |
| CameraInventory.SeqNosAre | scripts/bkv_legacy_import.py:4480-4483 | A camera lists each of its numbers once, and no other |
| CameraInventory.CellEmpty | scripts/bkv_legacy_import.py:4049-4057 | A cell sums to zero if and only if no artifact belongs there |
| CameraInventory.MissingPairs | scripts/bkv_legacy_import.py:4543-4551 | No pair is missing if and only if every camera has an artifact of every target number |
| CameraInventory.MissingFrom | scripts/bkv_legacy_import.py:4543-4551 | The list of missing pairs holds exactly the pairs with an empty cell |
| CameraInventory.CompleteIff | scripts/bkv_legacy_import.py:4552-4554 | Coverage is complete if and only if every camera has an artifact of every target number; the separate test on present numbers adds nothing |
| CameraInventory.CoverageIs | scripts/bkv_legacy_import.py:4540-4594 | Present and missing numbers and missing pairs: which are listed, in terms of the artifacts alone, and that each list ascends |
| CameraInventory.StageInventory | scripts/bkv_legacy_import.py:4434-4501 | The stager counts, from metadata and the last directory of the path, the inventory of the artifacts put |
| CameraInventory.DeriveInventory | scripts/bkv_legacy_import.py:3958-4021 | The verifier recounts from the paths alone; it fails if and only if some path is not consistent with its artifact |
| CameraInventory.FreshEntries | scripts/bkv_legacy_import.py:3969-3984 | On a fresh batch the verifier reads exactly the entries that the stager counted |
| CameraInventory.SortingKeepsCoverage | scripts/bkv_legacy_import.py:4500-4501 | Sorting the numbers of each camera changes no coverage |
| CameraInventory.SortingKeepsCounts | scripts/bkv_legacy_import.py:4500-4501 | Sorting changes no count, and leaves the same numbers in ascending order |
| CameraInventory.FreshCoverage | scripts/bkv_legacy_import.py:4040-4068 | Inventory, present numbers and coverage that the verifier derives from a fresh batch are the stager's |
| StagedBatch.StageArtifacts | scripts/bkv_legacy_import.py:4403-4477 | Planning and extraction succeed if and only if every image fits its member name, an archive part can be selected for it, and no two paths collide; each image is extracted to its place |
| StagedBatch.FitsIff | scripts/bkv_legacy_import.py:2934-2956 | Flat pictures, depth files and metadata are staged, each as its kind, and nothing else |
| StagedBatch.FileNameIs | scripts/bkv_legacy_import.py:2934-2956 | The file name is what stands behind the last slash of the member name |
| StagedBatch.SelectArchivePart | scripts/bkv_legacy_import.py:2975-3010 | The part selected is a known one that the entry names, and of several the first whose checksum is that of the member |
| StagedBatch.SelectIs | scripts/bkv_legacy_import.py:2975-3010 | Which part is taken: without a checksum the last one named, with one the first that has it or the only one named; none in all other cases |
| StagedBatch.NamedPartsAre | scripts/bkv_legacy_import.py:2975-2990 | The parts an entry names: its non-empty list of texts, else its single part if that is a text |
| StagedBatch.VerifyTables | scripts/bkv_legacy_import.py:3865-3900 | The table loop passes if and only if the manifest names the five tables and each copy has the lines that pointer and manifest say; then all five are found |
| StagedBatch.TablesIff | scripts/bkv_legacy_import.py:3865-3900 | The tables pass if and only if each of the five is named, nothing else is, and the lines named are those of the copy and of the pointer |
| StagedBatch.VerifyArtifacts | scripts/bkv_legacy_import.py:3907-4008 | The artifact loops pass if and only if paths do not collide, are the files on disk, and each artifact agrees with its probe, its path and all fields of its inventory member |
| StagedBatch.ArtifactIff | scripts/bkv_legacy_import.py:3925-4008 | An artifact passes if and only if it is exactly what extracting the listed image of its member gives, with the parts that the verifier expects |
| StagedBatch.VerifiedIff | scripts/bkv_legacy_import.py:4022-4219 | A manifest passes if and only if its tables and artifacts pass and every other field is what the stager writes for these artifacts: the verifier derives nothing more and nothing less |
| StagedBatch.MemberFound | scripts/bkv_legacy_import.py:3964-3968 | In a fresh batch the dictionary of members finds each image, since equal members would collide |
| StagedBatch.MemberIs | scripts/bkv_legacy_import.py:3964-3968 | The dictionary of members holds, of several entries with one name, the last, and no other name |
| StagedBatch.ArtifactsFresh | scripts/bkv_legacy_import.py:3907-4008 | Extracted artifacts pass the artifact checks if and only if every entry has archive parts that are missing or a list |
| StagedBatch.TablesFresh | scripts/bkv_legacy_import.py:3865-3900 | Copied tables pass the table checks |
| StagedBatch.StageBatch | scripts/bkv_legacy_import.py:4403-4655 | From the planning loop to the manifest: staging succeeds if and only if the images can be planned, and writes the fresh manifest |
| StagedBatch.ManifestIs | scripts/bkv_legacy_import.py:4509-4655 | The counts of a fresh manifest: artifacts, accepted and rejected rows as sums over the five tables, rows by table; and that it is eligible, ready and not up for review, or none of these |
| StagedBatch.IntegrityIs | scripts/bkv_legacy_import.py:4502-4630 | Its evidence: members verified if and only if there are some and all are ok, and a checksum failure noted if and only if there is one |
| StagedBatch.ReadyIff | scripts/bkv_legacy_import.py:4505-4572 | A fresh batch is ready if and only if all members are ok, the filter run is complete without any rejection, no depth file is invalid, and each camera photographed each sequence number |
| StagedBatch.FreshBatchAccepted | scripts/bkv_legacy_import.py:4074-4219 | A fresh batch passes every derived check if and only if no entry has archive parts that are not a list; it is ready if and only if all database members are ok, the filter run was complete, every depth file is valid and every camera has every target number; the extra test of the verifier on the five tables adds nothing |
| StagedBatch.NullParts | scripts/bkv_legacy_import.py:3992-3994 | Input: one entry whose archiveParts is null is staged, and its batch fails verification |
| TreeMerge.MergeNode | scripts/rebuild_sick_flow_storage.py:203-250 | One source tree: every content stays at its path in source or target, conflicts stay conflicts, success gives the union; a file whose rename fails stays where it is and the merge fails |
| TreeMerge.MergeDirectory | scripts/rebuild_sick_flow_storage.py:242-250 | Two directories, child by child, then the emptied source is removed |
| TreeMerge.MergeChildren | scripts/rebuild_sick_flow_storage.py:244-245 | The loop over the children, left anywhere: each child is safe |
| TreeMerge.MergeMove | scripts/rebuild_sick_flow_storage.py:203-250 | For all trees and every pattern of faults and stops: nothing lost or invented; without faults it succeeds if and only if the trees agree and not both are missing, and then the source is gone |
| TreeMerge.DirsSafe | scripts/rebuild_sick_flow_storage.py:242-250 | A directory is safe when each child is |
| TreeMerge.Resumed | scripts/rebuild_sick_flow_storage.py:203-250 | Any number of runs cut short or failed anywhere, then one without faults: it succeeds if and only if the trees agreed at the start and one was there, and then the target is the union of the two trees at the start and the source is gone |
| TreeMerge.ConflictKeepsBoth | scripts/rebuild_sick_flow_storage.py:235-243 | Where two different files meet, no run deletes either |
| TreeMerge.MovedHoldsAll | scripts/rebuild_sick_flow_storage.py:203-250 | After success the target holds every file of both trees and no other, and the source none |
| TreeMerge.HasIsContent | scripts/rebuild_sick_flow_storage.py:203-250 | A tree has a content at a path if and only if the path leads to it |
| TreeMerge.AgreeIff | scripts/rebuild_sick_flow_storage.py:203-250 | Two trees agree if and only if no path leads to different things in them |
| TreeMerge.UnionIs | scripts/rebuild_sick_flow_storage.py:203-250 | In the union of two agreeing trees each path leads to what it leads to in either, empty directories included |
| TaskScheduler.IterTasks | scripts/recompress_sick_3d_history.py:528-555 | Every task of every root exactly once: by round, and within a round by root |
| TaskScheduler.TakeFirst | scripts/recompress_sick_3d_history.py:548-555 | Taking from the first iterator and moving it to the back keeps the rotation invariant |
| TaskScheduler.DropFirst | scripts/recompress_sick_3d_history.py:548-553 | So does dropping an exhausted iterator |
| TaskScheduler.ReachedSome | scripts/recompress_sick_3d_history.py:528-555 | At every moment each root has handed out a prefix of its own tasks, in order |
| TaskScheduler.Fair | scripts/recompress_sick_3d_history.py:548-555 | At every moment two roots that still have tasks are at most one task apart |
| TaskScheduler.ShardHolds | scripts/recompress_sick_3d_history.py:497-501 | A flow is in the shard of its remainder, as often as listed, and in no other |
| TaskScheduler.ShardsSplitFlows | scripts/recompress_sick_3d_history.py:497-501 | The shards together are the flows: none shared, none missed |
| TaskScheduler.ShardConcat | scripts/recompress_sick_3d_history.py:497-501 | A shard lists its flows in the order of the directory |
| TaskScheduler.ResultWindow.constructor | scripts/recompress_sick_3d_history.py:558-571 | The window starts empty, with nothing submitted |
| TaskScheduler.ResultWindow.SubmitOne | scripts/recompress_sick_3d_history.py:572-588 | The next task, if there is one, joins the pending set |
| TaskScheduler.ResultWindow.Fill | scripts/recompress_sick_3d_history.py:590-591 | The window is filled up to its size, or the tasks are exhausted |
| TaskScheduler.ResultWindow.YieldOne | scripts/recompress_sick_3d_history.py:594-596 | One result is yielded and one task takes its place |
| TaskScheduler.ResultWindow.CollectRound | scripts/recompress_sick_3d_history.py:592-596 | Every wait yields at least one new result and keeps the window |
| TaskScheduler.ResultWindow.BoundedResults | scripts/recompress_sick_3d_history.py:558-596 | For every completion order each task yields exactly one result; with maximum_pending <= 0 nothing is submitted |
| TaskScheduler.Refilled | scripts/recompress_sick_3d_history.py:594-596 | Never more than the maximum in flight, and a window that is not full means no task is left |
| TaskScheduler.Waited | scripts/recompress_sick_3d_history.py:592-593 | Moving completed tasks out of pending loses none and counts none twice |
| TilePyramid.SideIsCeil | scripts/bkv_import_service.py:804-811 | A side after k halvings is ceil(side / 2^k) |
| TilePyramid.MaxLevel | scripts/bkv_import_service.py:787-791 | The level found is the least at which the longest side is 1 |
| TilePyramid.WorldSize | scripts/bkv_import_service.py:784-785 | The world is as wide as all cameras together and as high as the highest |
| TilePyramid.WidthAdds | scripts/bkv_import_service.py:784-785 | The width of cameras side by side adds up |
| TilePyramid.TopIsOnePixel | scripts/bkv_import_service.py:787-813 | At the top level every camera is one 1x1 tile |
| TilePyramid.TilesCoverOnce | scripts/bkv_import_service.py:812-828 | Along a side every pixel lies in exactly one tile |
| TilePyramid.TilesNotEmpty | scripts/bkv_import_service.py:812-828 | No tile is empty |
| TilePyramid.TilesAre | scripts/bkv_import_service.py:812-813 | Along a side there is a tile wherever one can begin before the end, and at least one |
| TilePyramid.PixelInOneTile | scripts/bkv_import_service.py:812-828 | A tile has a pixel if and only if the pixel is in the level and the tile is the one at its column and row divided by 128 |
| TilePyramid.PyramidHas | scripts/bkv_import_service.py:803-836 | The tiles written are exactly the tiles of every level |
| TilePyramid.LevelAt | scripts/bkv_import_service.py:818-835 | The tiles of a level come column by column, each from the top |
| TilePyramid.PyramidDistinct | scripts/bkv_import_service.py:803-836 | No tile is written twice |
| TilePyramid.StageLevel | scripts/bkv_import_service.py:812-835 | The two tile loops write the tiles of one level, column by column |
| TilePyramid.StageCamera | scripts/bkv_import_service.py:802-836 | The level loop writes the pyramid, and expected = actual number of tiles |
| HeadDetector.StackedAt | scripts/bkv_import_service.py:799-800 | Row y of frame f is row f * height + y of the stacked image |
| HeadDetector.NextRow | scripts/bkv_import_service.py:732-743 | One row more: the window is the occupied run in progress, and eight rows end the search at their first |
| HeadDetector.DetectHeadOffset | scripts/bkv_import_service.py:716-744 | With its window carried across frames the detector returns the earliest row that starts eight occupied rows in the stacked image, or 0 if there is none |
| HeadDetector.HeadIs | scripts/bkv_import_service.py:716-744 | The head in numbers: the earliest place with eight rows in a row of an occupancy of at least 0.12, and 0 if there is none |
| HeadDetector.AlignedHeightPositive | scripts/bkv_import_service.py:778-782 | With equal non-empty frames the aligned height is positive, so its error cannot occur |
| PatternSearch.TryDirections | scripts/fit_array_calibration_cross_section.py:299-308 | One round of eight directions: moves improve by more than 1e-9, and a round without a move means no allowed neighbour is better |
| PatternSearch.EightNeighbours | scripts/fit_array_calibration_cross_section.py:299-302 | The eight directions reach every point one step away along, across or both |
| PatternSearch.FirstStep | scripts/fit_array_calibration_cross_section.py:294-295 | The first step is half the limit up to 2, and 2 without a limit |
| PatternSearch.UnitsDrop | scripts/fit_array_calibration_cross_section.py:305-308 | An improvement of more than 1e-9 lowers a whole-number measure |
| PatternSearch.Descend | scripts/fit_array_calibration_cross_section.py:297-308 | The rounds at one step size end at a point with no better allowed neighbour |
| PatternSearch.StepDrop | scripts/fit_array_calibration_cross_section.py:295-309 | Halving the step lowers a whole-number measure while the step is at least 0.01 |
| PatternSearch.OptimizeTranslation | scripts/fit_array_calibration_cross_section.py:286-310 | The search ends; its result is no worse than no shift and inside a non-negative limit; the last step is a halving of the first between 0.01 and 0.02, and no point one such step away along, across or both is better by more than 1e-9 |

## Left out

- DumpFilter.FilterSqlDump: of the limits only the number of replay passes is modelled; the limits on bytes, rows, index keys and rejected rows are taken as not reached. Schemas are those known at the end of the dump, rows of all tables form one list, and the state is a value that the methods pass on.
- PassLimit.AcyclicEnds: one way; a cycle of foreign keys need not make the limit strike, since a key may point at the column that holds it.
- DumpRows.FilterText: the patterns for CREATE TABLE and INSERT are one function of a statement, given from outside, and so is case folding; the check of the text encoding has no counterpart, since a character here is never half of one.
- ProvenRows.StampsIff: a row with a column of its own named like an added one is indexed with the added value; when output goes to files, the sorted keys of the written row let its own column win instead.
- SqlStatements.IterSqlStatements: one character per byte; UTF-8 decoding is not modelled.
- SqlRoundTrip.ValueRoundTrip: numerals with ASCII digits, and the interpreter's default limit of 4300 digits; the value of a numeral with a fraction or an exponent is given from outside; of other tokens, calls with closed quotes and parentheses stand for all that the parser refuses.
- SqlDump.DumpRoundTrip: the header of a statement is any text with closed quotes and no semicolon outside them; the regular expressions that find its end are not modelled.
- TreeMerge.MergeMove: trees are values handed back by the methods, so links and aliasing are not captured; the copy fallback across volumes is an error.
- RecordPublish.Store.CleanUp: the caches of other hashes go in one step; a removal that leaves something behind counts as a stop there, although the code goes on to the next one; a directory of which anything is deleted counts as unreadable.
- RecordPublish.Store.PublishRecord: an error outside the handler leaves the disk as a stop at that step does; `Stopped` stands for both, and `RecordPublish.Broken` says whether recovery follows.
- BatchPublication.CommittedWasVerified: verification is one predicate over marker, manifest and files; the marker binding is in this module, the derived checks are in `StagedBatch`.
- StagedBatch.FreshBatchAccepted: the repeated listing of the archives, sizes and digests of files, quarantine lines and rejected inventory entries are not modelled.
- TilePyramid.StageCamera: pixel values and JPEG files are not modelled, only sizes and positions of tiles.
- HeadDetector.DetectHeadOffset: the occupancy of a row is given, not computed from pixels.
- SurfaceDefects.DetectComponents: the threshold that makes a cell a candidate and the attributes of a defect (peak, severity, confidence) are not modelled.
- PatternSearch.OptimizeTranslation: the score is any non-negative function, over the reals.
- TaskScheduler.IterTasks: directory listings are given; links and file names are not looked at.
- Order of accepted rows per table in the written files, samples and row hashes.
- Archive handling: ZIP end records, UnRAR processes, source identity checks.
- The 84-byte depth header and depth statistics.
- Circle fits, percentiles, calibration with SciPy, image resampling, ONNX export: floating-point and library code.
- The rebuild lock of the JET history, the rollback of the V2 migration, the acceptance report and quality gate.
- HTTP handlers, SQL text of the catalog, argument parsing, demo client and build stubs: they hold no logic of this kind.
