# A verified model of Baloo's index engine

Baloo is KDE's file indexer. This project models its index engine as one connected
system and proves that what it stores and what its queries answer always agree with
a plain scan of the documents. Four state machines of the indexer daemon are modelled
beside it. `dafny verify dfyconfig.toml` checks everything.

**Write path** (`TermGenerator`, `WriteTransaction`, `StoredTables`, `InvertedIndex`,
`Documents`, `Replacements`, `IndexAgreement`, `Removals`). The forward tables are written at once, the inverted index only through a
log of operations per term that a commit replays. A ghost map from ids to documents says
what the transaction stands for; every operation keeps "stored lists plus replayed log"
equal to the inversion of that map, and a commit makes the stored lists equal to it. The
one exception, terms in several categories or moved between them, is proved with its exact
condition, and so is what a commit and a removal make of an index that has lost terms.

**Directory tree** (`IdTree`, `TreeUpdates`, `AddPaths`, `DocumentUrlDB`, `Urls`,
`Relocations`, `MetadataMover`). Two redundant tables hold the forest of directory
entries. Each operation keeps them inverse to each other and the forest acyclic, or
the exact condition under which it does is proved.

**Query path** (`PostingIterators`, `Cursors`, `Leapfrogging`, `OrMerging`,
`PhraseMatch`, `Phrases`, `SearchTree`, `PostingDB`, `MTimeDB`, `Transaction`,
`CommittedQueries`, `NameIndexing`). A posting iterator is a mutable cursor. Its ghost
state is the set it enumerates and where in it the cursor stands; `next` and `skipTo`
may be mixed and iterators nested in any way. Upon this rest the theorems that a search
right after a commit is a scan of the documents. `TransactionRuns` and `SearchableRuns`
put both paths together: any sequence of operations, with the file system changing between
them, leaves a history of which every moment is in order and follows from the one before
by its operation, up to the answers of a search.

**Codecs** (`Coding`, `PositionCodec`, `DocTermsCodec`). LEB128 integers (section 7.6
of DWARF Version 4), lists of differences modulo 2^32, and prefix-compressed term lists, with
the exact domain on which they work.

**Daemon** (`FileContentIndexer`, `Scheduling`, `FileIndexScheduler`, `FolderCache`,
`Debouncing`, `PendingFileQueue`). The batch loop that bisects its way to files that crash the
extractor, the scheduler, the longest-prefix folder configuration with its
simplification, and the queue that debounces file events. Scheduler and queue have their
states and events on values (`Scheduling`, `Debouncing`), against which the objects are proved.

## How the model reads

- A database table is a map (modification times: a set of pairs). A key is present or
  absent as in the database, so "no empty list is stored" can be stated.
- `Valid()` is a class's invariant. For `WriteTransaction` it holds
  `Represents(posting, position, pending, Inversion(docs))`: the replayed lists are
  strictly ascending and list exactly the documents and positions of each term, the
  stored lists are never empty, the three forward tables list each document's terms
  without repetition, and no document has one term in two categories.
- `Forest(children, files)` says that the two tree tables are inverse (`Mirror`), child
  lists strictly ascending and never stored empty, and that every entry reaches the top
  level (`Acyclic`). `Family(files, p)` is p with all its descendants. `Reaches` says that
  a path and the directories above it can be found up to one that is known.
- A replacement may move a term between categories and then lose it: `Loses` says when.
  `ReplacedIndex` is what the log then represents, lost and doubled terms included. It is
  the inversion of the documents exactly if `IndexAgrees`: no term is lost, and a term in
  several categories keeps the positions of the last one. `StaysSeparate` is the stronger
  condition under which no term is in two categories on the way, as `Valid()` demands.
- `Seen()` is everything about an object at a moment. A history has one moment before the
  first step or event and one after each; `Next` and `After` say what one step does.
- `Leads(files, names, n)` says that names lead from the top level down to n, in any tables;
  in a forest that is the entry with these names.
- `ErasedEverywhere`, `StoredNew` and `StoredReplaced` say, table by table and entry by
  entry, what an operation leaves; the functions beside them (`Without`, `WithRest`, ...)
  compute it and are proved to mean just that.
- `InSequence(text, phrase)`: the words of a nonempty phrase follow one another in a text.
- `Skipped(ids, p, low, q)` and `Stepped(ids, p, q)` say where a cursor over a set goes
  from p: to the least element not below `low`, or above p, if it is not there yet, and
  to the end, for good, when there is none.
- `Represents`, `Good`, `Sorted`, `Kept`, `Processed` are predicates over plain values, so
  that lemmas carry the reasoning and the methods stay close to the program.

## Model

| member | source | states |
|---|---|---|
| IdUtils.InsertIsSetInsert | src/engine/idutils.h:97-111 | insertion keeps an id-ordered list strictly ascending and adds the element exactly when its key is free |
| IdUtils.RemoveIsSetRemove | src/engine/idutils.h:113-120 | removal keeps the list strictly ascending and drops exactly the element with that key |
| InvertedIndex.LogAdd | src/engine/writetransaction.cpp:90-109 | appending an addition to a term's log has, after replay, the effect of giving the document that term, for every term and document; positions that the document has for it already are kept |
| InvertedIndex.LogRemove | src/engine/writetransaction.cpp:145-154 | appending a removal has the effect of taking the term from the document, whether it had it or not |
| InvertedIndex.StoreTerm | src/engine/writetransaction.cpp:300-344 | replaying one term into the stored tables and dropping its log entries changes nothing of what the index represents, so the order of terms is immaterial |
| InvertedIndex.NothingPending | src/engine/writetransaction.cpp:291-348 | with an empty log the stored lists are the inversion, and exactly the terms of some document have one |
| InvertedIndex.IndexDetermined | src/engine/writetransaction.cpp:291-348 | the tables and the log determine the terms and positions of every document |
| Documents.PartLogged | src/engine/writetransaction.cpp:276-289 | what logged removals of a list of terms and additions of new ones do to the index, also where terms overlap or belong to another category |
| Documents.ReplacePartInverts | src/engine/writetransaction.cpp:276-289 | with separate categories that is the inversion of the document with the one category replaced, positions included |
| Documents.RemoveAllInverts | src/engine/writetransaction.cpp:123-127 | the inversion without a document's terms is the inversion without the document |
| Documents.RemoveAllListed | src/engine/writetransaction.cpp:123-127 | logged removals of all three stored lists take exactly the document's terms from any index |
| InvertedIndex.EntryMapHolds | src/engine/writetransaction.cpp:90-109 | a category has exactly the terms of its entries, each with its positions |
| Replacements.DocHolds | src/engine/writetransaction.cpp:61-75 | and a document those of its three categories |
| Replacements.LossIsExact | src/engine/writetransaction.cpp:211-248 | exactly when a replacement loses a term from the index: a replaced category drops the term after an earlier one has brought it, and no later one brings it back |
| Replacements.CrossCategoryMoveIsLost | src/engine/writetransaction.cpp:211-248 | the input that shows it: a document whose file name term becomes a content term |
| Replacements.SeparateOrLost | src/engine/writetransaction.cpp:211-248 | no step puts a term into two categories exactly if none is in two afterwards and no term is lost |
| Replacements.ReplacedInverts | src/engine/writetransaction.cpp:211-248 | then the index has the replaced document's terms with their positions |
| Replacements.PrefixesStaySeparate | src/engine/writetransaction.cpp:197-289 | terms whose category can be told from the term meet that condition in every replacement |
| WriteTransactions.WhenReplaced | src/engine/writetransaction.cpp:211-248 | from tables and log: with the replaced index in the log, it is the inversion of the documents exactly if `IndexAgrees`, the invariant `Sound` holds exactly if no step puts a term into two categories, and every posting list has exactly its documents but for lost terms |
| WriteTransactions.AgreesWhen | src/engine/writetransaction.cpp:211-248 | tables and log are the inversion of the documents exactly if no term is lost and terms in several categories keep the right positions |
| WriteTransactions.RemovalRepairs | src/engine/writetransaction.cpp:111-143 | removing the document makes the index sound again after a replacement has lost or doubled its terms |
| IndexAgreement.KeptAreIndexed | src/engine/writetransaction.cpp:211-248 | the positions that the index has for a term after a replacement: the first of those in categories that are not replaced and of those that a category brings and no later one removes |
| IndexAgreement.AgreementIsExact | src/engine/writetransaction.cpp:211-248 | the replaced index has exactly the terms and positions of the replaced document if and only if no term is lost and of a term in several categories the positions kept are those of the last |
| IndexAgreement.NewAgreement | src/engine/writetransaction.cpp:61-70 | for a new document: exactly if the first category with positions for a term has those of the last category that has the term |
| IndexAgreement.NewTerms | src/engine/writetransaction.cpp:61-70 | the index of a new document has each of its terms with its first positions |
| IndexAgreement.DoubledMayAgree | src/engine/writetransaction.cpp:61-70 | a document with a term in two categories whose index agrees all the same, so separate categories are not necessary for agreement |
| WriteTransactions.WriteTransaction.AddTerms | src/engine/writetransaction.cpp:90-109 | afterwards the log represents the index with all these terms added, whatever the document had; returns the terms in order |
| WriteTransactions.WriteTransaction.RemoveTerms | src/engine/writetransaction.cpp:145-154 | afterwards the log represents the index without these terms |
| WriteTransactions.WriteTransaction.ReplaceTerms | src/engine/writetransaction.cpp:276-289 | afterwards the log represents the index with the old terms gone and the new ones present, also where they overlap |
| WriteTransactions.WriteTransaction.Place | src/engine/writetransaction.cpp:43-59 | enters the document below its directory, which is entered too, and changes no other entry; refused exactly for an empty name; for a document at its path the tables are a forest exactly if the directory can be found up to something known and the id is new or already there; a tree that agrees with the file system still does |
| WriteTransactions.WriteTransaction.Store | src/engine/writetransaction.cpp:61-87 | adds exactly this document to forward tables, times, data and the files to be looked into, entry by entry, and changes no other; each term gets its first positions; tables and log are the inversion exactly if these are the last category's for every term, and the invariant `Sound` holds exactly if no term is in two categories; posting lists are right in any case |
| WriteTransactions.WriteTransaction.AddDocument | src/engine/writetransaction.cpp:22-88 | adds exactly this document to every table, the index and the tree, under its own times and data, or nothing outside the tree if its name is empty; index and documents agree as for `Store`; the exact condition under which the tables stay a forest; times stay mirrored |
| WriteTransactions.WriteTransaction.ReplacePart | src/engine/writetransaction.cpp:211-248 | one category gives way to new terms, the other categories and documents stay, and the log says exactly what that does to the index, whatever the other categories hold |
| WriteTransactions.WriteTransaction.ReplaceAllTerms | src/engine/writetransaction.cpp:211-248 | for any new terms: the log represents `ReplacedIndex`, which is the inversion exactly if `IndexAgrees` and sound exactly if no step puts a term into two categories; posting lists are right but for exactly the lost terms |
| WriteTransactions.WriteTransaction.ReplaceTime | src/engine/writetransaction.cpp:250-260 | the time pairs still mirror the time table exactly when the document's time was known or the new one is not 0 |
| WriteTransactions.WriteTransaction.ReplaceDocument | src/engine/writetransaction.cpp:197-274 | replaces exactly the selected parts, table by table, and no other entry; the log represents `ReplacedIndex`, with the same exact conditions; the exact conditions under which times stay mirrored and the tree stays a forest, for known and unknown ids |
| WriteTransactions.WriteTransaction.RemoveDocument | src/engine/writetransaction.cpp:111-143 | for any index that the log represents: none of the tables keeps an entry of the document, so that it may be added again, each table is as before for all others, and its listed terms are gone from the index; the tree stays a forest exactly when the document is unknown to it or a leaf |
| WriteTransactions.WriteTransaction.RemoveSoundly | src/engine/writetransaction.cpp:111-143 | for a sound index it stays sound, without the document |
| WriteTransactions.WriteTransaction.RemoveRecursively | src/engine/writetransaction.cpp:156-167 | terminates; no table keeps an entry of the document or of any descendant, each is as before for all others, and so are index and tree |
| WriteTransactions.WriteTransaction.RemoveRecursivelyIf | src/engine/writetransaction.cpp:169-195 | erases, table by table, exactly the entries whose whole branch, from the start down to them and everything below them, satisfies the predicate; returns whether the start was erased |
| StoredTables.WithoutErases | src/engine/writetransaction.cpp:111-143 | after a removal none of the tables has an entry of the erased ids, and each has the same entries for all others |
| StoredTables.ErasedIsUnknown | src/engine/writetransaction.cpp:36-42 | so an erased id meets what addDocument asserts of a new one, and for any other id that is as before |
| StoredTables.NewIsStored | src/engine/writetransaction.cpp:61-87 | a new document's lists, times, data and mark are stored under its id, an empty list or empty data not at all, and nothing else changes |
| StoredTables.ReplacementIsStored | src/engine/writetransaction.cpp:211-266 | after a replacement the selected entries are those of the document, the others and all other ids as before |
| WriteTransactions.WriteTransaction.CommitTerm | src/engine/writetransaction.cpp:300-344 | both stored lists become the replayed ones, although the positions are fetched only on demand |
| WriteTransactions.WriteTransaction.Commit | src/engine/writetransaction.cpp:291-348 | for any index that the log represents, also one with lost terms: the log is empty, each stored list is the strictly ascending list of that index, none is empty, and exactly the terms in use have one, in whatever order terms are visited |
| Removals.RootGoes | src/engine/writetransaction.cpp:189-193 | the start is erased exactly if everything in its subtree satisfies the predicate |
| Removals.BranchThroughChild | src/engine/writetransaction.cpp:182-188 | within a child's subtree, whether an entry's branch goes does not depend on whether it is seen from the parent or the child |
| Removals.RemovedUnfolds | src/engine/writetransaction.cpp:182-194 | what goes below an entry is the union over its children, and the entry goes exactly when all children do |
| Removals.RemovedDownClosed | src/engine/writetransaction.cpp:169-195 | no entry that stays loses its parent |
| CommittedQueries.ListSubtree | src/engine/idtreedb.cpp:99-153 | the subtree iterator lists an entry and all its descendants, ascending, each once |
| CommittedQueries.RemoveListed | src/engine/writetransaction.cpp:156-167 | recursive removal erases exactly the ids that the subtree iterator lists |
| CommittedQueries.CommitAndSearch | src/engine/transaction.cpp:338-366 | after the commit of any transaction a phrase query lists, ascending and once, exactly the documents a scan finds |
| CommittedQueries.CommitAndFindNames | src/engine/transaction.cpp:450-498 | the same for file name queries, with name terms from an arbitrary segmentation function |
| TransactionRuns.Perform | src/engine/writetransaction.cpp:22-348 | any operation is taken exactly when its conditions on arguments and tables hold, and left out otherwise; taken, it means what it says of documents, tables and tree, and leaves index, forward tables, times and tree in order |
| TransactionRuns.Run | src/engine/writetransaction.cpp:22-348 | safety over whole transactions: for any sequence of additions, replacements, removals, moves, commits and changes of the file system, a history in which at every moment stored lists and log are the inversion of the documents and the tree is a forest, and each moment follows from the one before by its operation, taken or left out |
| TransactionRuns.RunOn | src/engine/writetransaction.cpp:22-348 | the same from any index that is in order |
| TransactionRuns.NamesStayUnique | src/engine/writetransaction.cpp:43-59 | which operations keep sibling names unique: an addition or a renaming replacement exactly if each new entry is alone with its name in its directory, every other operation always |
| TransactionRuns.UniqueAfter | src/engine/writetransaction.cpp:43-59 | the same for the table of entries |
| TransactionRuns.RemovedMayReturn | src/engine/writetransaction.cpp:36-42 | after a removal no table keeps a document of the same id from being added: it may be exactly if arguments and directory allow it |
| TransactionRuns.NothingLeftBehind | src/engine/writetransaction.cpp:22-274 | in any run from an empty index, whatever a table holds of an id was stored by a step since the id was last erased |
| TransactionRuns.ReplaceAndStore | src/engine/writetransaction.cpp:197-348 | a loss is stored: after replacement and commit a posting list has exactly the documents with the term but for the one that lost it |
| TransactionRuns.ReplaceAndRemove | src/engine/writetransaction.cpp:111-274 | after any replacement, a removal of the document leaves everything sound |
| SearchableRuns.StepKeepsNames | src/engine/writetransaction.cpp:22-195 | each operation of a run that gives new names their terms keeps the documents searchable by name |
| SearchableRuns.RunKeepsNames | src/engine/writetransaction.cpp:22-195 | so at every moment of any run of such operations they are searchable by name |
| SearchableRuns.RunAndFindNames | src/engine/transaction.cpp:450-498 | from an empty index through any such run and a commit, a file name query lists, ascending and once, exactly what a scan of the stored names finds |
| NameIndexing.NamesAreIndexed | src/engine/filenamequery.h:35-41 | with each document's file name terms those of its stored name, a term is indexed exactly for the documents whose segmented name has the word |
| NameIndexing.AddKeepsNames | src/engine/writetransaction.cpp:43-75 | that survives a new document |
| NameIndexing.RenameKeepsNames | src/file/metadatamover.cpp:109-118 | a rename, which replaces name and terms together |
| NameIndexing.RemovingKeepsNames | src/engine/writetransaction.cpp:111-167 | and removals |
| CommittedQueries.ModifiedBetween | src/engine/mtimedb.cpp:131-180 | while times are mirrored, a range query lists exactly the documents whose time is in the range, ascending and once |
| CommittedQueries.AddAndFindByTime | src/engine/writetransaction.cpp:77-83 | a new document is found by a range query exactly if its modification time is in the range, and no other answer changes |
| CommittedQueries.ReplaceAndFindByTime | src/engine/writetransaction.cpp:250-260 | so is a document whose time is replaced |
| CommittedQueries.RemoveAndFindByTime | src/engine/writetransaction.cpp:135-139 | what is removed with all below it is found by no range query, and no other answer changes |
| CommittedQueries.AddAndSearch | src/engine/transaction.cpp:338-351 | after its commit a new document is found by exactly the terms that it was handed over with, and no other answer changes |
| TreeUpdates.AddMirror | src/engine/documenturldb.cpp:127-149 | adding an entry keeps the tables inverse exactly when the id is new or already in that directory |
| TreeUpdates.MoveAcyclic | src/engine/documenturldb.cpp:78-103 | moving an entry keeps the forest acyclic exactly when the new directory exists and is not inside the moved subtree |
| TreeUpdates.MoveMirror | src/engine/documenturldb.cpp:83-102 | moving keeps the tables inverse except for an unknown id moved to the top level |
| TreeUpdates.DelForest | src/engine/documenturldb.cpp:105-125 | deleting a known entry keeps the tables inverse, and the forest exactly when the entry is a leaf |
| TreeUpdates.RemovalKeepsUp | src/engine/writetransaction.cpp:156-167 | removing whole subtrees leaves every other entry with the same ancestors |
| AddPaths.ChainAgrees | src/engine/documenturldb.cpp:40-62 | when the climb reaches a known ancestor or the root, the tree is a forest, agrees with the file system, and the path is known under its url |
| AddPaths.ClimbFails | src/engine/documenturldb.cpp:54-57 | when an ancestor cannot be found before anything known is reached, whatever was added hangs from an unknown entry |
| DocumentUrlDBs.DocumentUrlDB.Add | src/engine/documenturldb.cpp:127-149 | enters the id in both tables, or nothing for an empty id or name |
| DocumentUrlDBs.DocumentUrlDB.Put | src/engine/documenturldb.cpp:65-76 | refuses exactly an empty id and a name that is none; a forest stays one exactly if a new id gets a known parent or a known one stays where it is |
| DocumentUrlDBs.PutForest | src/engine/documenturldb.cpp:65-76 | the same for the two tables as values |
| DocumentUrlDBs.PlacedForest | src/engine/writetransaction.cpp:43-59 | after addPath for the directory and put for the file: a forest exactly if the directory reaches something known and the file is new or already there |
| DocumentUrlDBs.DocumentUrlDB.AddPath | src/engine/documenturldb.cpp:27-63 | succeeds exactly if the path and the directories above it can be found up to one that is known or the root; exactly then, or if nothing was added, the tables stay a forest; only directories of the path are added, and agreement with the file system survives success |
| DocumentUrlDBs.DocumentUrlDB.UpdateUrl | src/engine/documenturldb.cpp:78-103 | only this entry changes; the exact conditions under which the tables stay inverse and the forest acyclic, for a known id and for a new one |
| DocumentUrlDBs.DocumentUrlDB.Del | src/engine/documenturldb.cpp:105-125 | only this entry goes; the forest survives exactly when it was a leaf |
| DocumentUrlDBs.DocumentUrlDB.Get | src/engine/documenturldb.cpp:162-195 | for any tables, also with cycles and unknown parents: the path if the way up leads through known entries to the top level within the limit, otherwise nothing |
| DocumentUrlDBs.AscentIsUrl | src/engine/documenturldb.cpp:181-194 | in a forest that is the entry's path for all but too deep entries |
| DocumentUrlDBs.AscentEnds | src/engine/documenturldb.cpp:181-194 | an entry with a path is not on or below a cycle |
| DocumentUrlDBs.DocumentUrlDB.GetId | src/engine/documenturldb.cpp:203-221 | the child with that name, and 0 only if there is none |
| DocumentUrlDBs.DocumentUrlDB.DocumentId | src/engine/transaction.cpp:132-153 | in any tables that mirror each other: an entry to which the components of the path lead from the top level; with unique sibling names, 0 exactly when they lead nowhere |
| Urls.LeadsIsNames | src/engine/transaction.cpp:140-152 | in a forest names lead to an entry exactly if they are the names on its path |
| DocumentUrlDBs.NoSuchPath | src/engine/transaction.cpp:145-150 | where the entry reached has no child with the next name, the whole path leads nowhere |
| DocumentUrlDBs.PlacedAgrees | src/engine/documenturldb.cpp:65-76 | a file entered below its known directory is found under its path and the tree still agrees with the file system |
| DocumentUrlDBs.UrlRoundTrip | src/engine/transaction.cpp:123-153 | documentId undoes documentUrl exactly for entries with at most 512 ancestors; deeper ones give 0 |
| Urls.UrlComponents | src/engine/documenturldb.cpp:181-194 | splitting an entry's path at slashes gives back its names |
| Urls.NamesIdentify | src/engine/transaction.cpp:140-152 | with unique sibling names two entries with the same names are the same |
| Relocations.MoveSucceeds | src/engine/documenturldb.cpp:78-103 | in terms of paths: a move to a free place keeps the forest exactly if the target directory is not the moved entry or below it |
| Relocations.MoveLands | src/file/metadatamover.cpp:115-118 | sibling names stay unique and the entry has the new path |
| Relocations.MoveRebases | src/file/metadatamover.cpp:115-118 | exactly the paths of the moved subtree change, and only in the moved part |
| Relocations.OldPlaceEmpty | src/file/metadatamover.cpp:115-118 | nothing is left at the old path |
| Relocations.MoveIsFound | src/file/metadatamover.cpp:90-118 | looking up the new path gives the old id, looking up the old path nothing |
| Relocations.BelowIsPrefix | src/engine/transaction.cpp:140-152 | an entry lies below another exactly when its names start with the other's |
| MetadataMovers.RemoveMetadata | src/file/metadatamover.cpp:56-74 | erases what is known at the path, with everything below it if the path ends in a slash; the forest survives exactly when the target is unknown, a leaf or given with a slash |
| MetadataMovers.UpdateMetadata | src/file/metadatamover.cpp:76-118 | with source and directory known exactly the entry's place, its name terms and their list change in all the tables, otherwise nothing; listeners are told to index the new path without slash if the entry is unknown, and its directory if only that is; times stay mirrored |
| MetadataMovers.SignalsMean | src/file/metadatamover.cpp:87-105 | which of the two paths that is, in terms of the path that was given |
| MetadataMovers.MoveIsRename | src/file/metadatamover.cpp:29-45 | after a move the subtree is found under the new path, the old path is unknown, names are unique; it fails exactly if the target lies inside the source |
| MetadataMovers.MoveFileMetadata | src/file/metadatamover.cpp:29-45 | the whole move: what was overwritten is gone from every table, the rest is renamed as above or left alone, index and times stay in order, the signals say which; the tables are a forest afterwards exactly if no overwritten directory leaves entries behind and the target is not inside the source |
| MetadataMovers.OrphansStay | src/file/metadatamover.cpp:60-74 | entries left behind below an overwritten directory cannot be looked up, so nothing in the move brings them back into the forest |
| Cursors.LeastIsUnique | src/engine/postingiterator.h:20-38 | the promises of next and skipTo leave no choice: they fix the cursor's new place |
| Cursors.SkipBackIsIdle | src/engine/postingiterator.cpp:11-21 | skipping to an id already reached does not move the cursor |
| IdTreeDescent.ChildFamilies | src/engine/idtreedb.cpp:117-121 | the stored children's families are disjoint and make up the descendants |
| IdTreeDescent.Descend | src/engine/idtreedb.cpp:116-121 | the worklist terminates and yields the entry and all its descendants, each once |
| OrMerging.LowestIsNext | src/engine/orpostingiterator.cpp:72-88 | the lowest id on which a child stands is the least element of the union above the current one, and 0 means that there is none |
| OrMerging.CoveredWithout | src/engine/orpostingiterator.cpp:79-91 | pruning an exhausted child loses no id still to be delivered |
| Leapfrogging.SkipLands | src/engine/andpostingiterator.cpp:33-57 | wherever the loop ends is where skipTo over the intersection must land, also after the end and for skips backwards |
| Leapfrogging.NextLands | src/engine/andpostingiterator.cpp:59-70 | a step of the first child followed by the loop is next over the intersection |
| PhraseMatch.CheckIfPositionsMatch | src/engine/phraseanditerator.cpp:33-75 | for nondecreasing positions true exactly when term i occurs at n+i for some n, although no offset ever moves back; for any positions true only then |
| PostingIterators.PostingIterator.CurrentId | src/engine/orpostingiterator.cpp:36-39 | docId is the id the cursor stands on, 0 before the start and after the end |
| PostingIterators.PostingIterator.Next | src/engine/postingiterator.h:25-32 | every kind of iterator steps to the next element of its set |
| PostingIterators.PostingIterator.SkipTo | src/engine/postingiterator.h:25-32 | every kind of iterator skips to the least element of its set not below the id |
| PostingIterators.PostingIterator.DefaultSkipTo | src/engine/postingiterator.cpp:11-21 | stepping until the id is reached meets the promise of skipTo and terminates |
| PostingIterators.PostingIterator.VectorNext | src/engine/vectorpostingiterator.cpp:18-37 | enumerates a stored list; the end is sticky although the list is cleared |
| PostingIterators.PostingIterator.PositionsNext | src/engine/vectorpositioninfoiterator.cpp:19-47 | the same for position lists |
| PostingIterators.PostingIterator.SubtreeNext | src/engine/idtreedb.cpp:111-138 | enumerates the family of an entry in ascending order, from a worklist drained at the first call |
| PostingIterators.PostingIterator.MakeAnd | src/engine/andpostingiterator.cpp:15-24 | the iterator's set is the intersection of its children's, empty with a null child |
| PostingIterators.PostingIterator.AndSkipTo | src/engine/andpostingiterator.cpp:33-57 | skips over the intersection, with termination, from any mixture of calls |
| PostingIterators.PostingIterator.AndNext | src/engine/andpostingiterator.cpp:59-70 | steps through the intersection |
| PostingIterators.PostingIterator.MakeOr | src/engine/orpostingiterator.cpp:12-32 | the iterator's set is the union of its children's, null children left out |
| PostingIterators.PostingIterator.OrSkipTo | src/engine/orpostingiterator.cpp:41-94 | skips over the duplicate-free union, while exhausted children are pruned |
| PostingIterators.PostingIterator.OrNext | src/engine/orpostingiterator.cpp:96-104 | steps through the union |
| PostingIterators.PostingIterator.MakePhrase | src/engine/phraseanditerator.cpp:15-24 | the iterator's set holds the ids common to all children at which the phrase occurs, empty with a null child |
| PostingIterators.PostingIterator.PhraseSkipTo | src/engine/phraseanditerator.cpp:77-105 | skips over that set; a rejected common id moves the search on, so it terminates |
| PostingIterators.PostingIterator.PhraseNext | src/engine/phraseanditerator.cpp:107-118 | steps through that set |
| SearchTree.ConstructAnd | src/lib/searchstore.cpp:403-433 | a conjunction denotes the intersection: null for an empty term, a single term for itself |
| SearchTree.ConstructOr | src/lib/searchstore.cpp:403-433 | a disjunction denotes the union, empty terms left out |
| SearchTree.Construct | src/lib/searchstore.cpp:403-433 | an iterator over exactly the set that the nested expression denotes; null only if that is empty |
| SearchTree.Exec | src/lib/searchstore.cpp:337-343 | calling next until 0 lists all that was left of the set |
| SearchTree.Search | src/lib/searchstore.cpp:323-343 | any nested query, read as a Boolean expression, lists exactly the ids it accepts, ascending and once |
| SearchTree.DenotesAccepted | src/lib/searchstore.cpp:403-433 | the set that a query denotes is that of the ids it accepts: a conjunction those that all its terms accept, a disjunction those that some term does |
| PostingDBs.PrefixInterval | src/engine/postingdb.cpp:126-128 | in key order the keys with a prefix form an interval that starts at the prefix |
| PostingDBs.ScanEnds | src/engine/postingdb.cpp:124-131 | at the first key without the prefix nothing with the prefix is ahead |
| PostingDBs.FetchTermsStartingWith | src/engine/postingdb.cpp:109-138 | all stored terms with the prefix, in key order, and no others |
| PostingDBs.TermIter | src/engine/postingdb.cpp:140-155 | an iterator over the term's documents; null exactly for an unknown term |
| PostingDBs.PrefixIter | src/engine/postingdb.cpp:157-199 | an iterator over the union of all lists under terms that have the prefix and pass the validator; null exactly if there are none |
| MTimeDBs.CollectRange | src/engine/mtimedb.cpp:131-172 | the cursor loop meets exactly the ids with a time in the range |
| MTimeDBs.IterRange | src/engine/mtimedb.cpp:131-180 | an iterator over those ids; null exactly if there are none |
| MTimeDBs.RangeIsScan | src/engine/mtimedb.cpp:131-180 | while the pairs mirror the time table, the range of pairs is a scan of that table |
| Transactions.PhraseIsScan | src/engine/transaction.cpp:353-363 | the phrase iterator's set over the stored position lists is the set of documents that contain the phrase |
| Transactions.PhraseQuery | src/engine/transaction.cpp:353-363 | an iterator over exactly the documents with the phrase; a term without positions empties it |
| Transactions.TermQuery | src/engine/transaction.cpp:344-351 | an iterator over exactly the documents with the term, or with a term that starts with it |
| Transactions.EngineQuery | src/engine/transaction.cpp:338-366 | an iterator over exactly the documents that answer the query, whatever its size |
| Transactions.PhraseSearch | src/engine/transaction.cpp:338-366 | over committed tables the list of answers is the scan, ascending |
| Transactions.IntersectWords | src/engine/transaction.cpp:466-486 | the swapped and reused vectors hold the intersection of all words' lists; the early exits are right |
| Transactions.NarrowingLosesNothing | src/engine/transaction.cpp:466-495 | intersecting first and then checking names finds exactly what checking every name would |
| Transactions.FilenameQuery | src/engine/transaction.cpp:450-498 | exactly the documents in whose segmented name the words of the query follow one another (one word: as a term, or a prefix of one if it is to be expanded and longer than two bytes) |
| Transactions.Search | src/engine/filenamequery.h:35-41 | the search finds the words exactly if they stand in the list one after another, in their order; no words are found nowhere |
| Transactions.KeepMatches | src/engine/transaction.cpp:488-495 | exactly the documents whose names match are kept, in order |
| Phrases.InSequenceSplits | src/engine/filenamequery.h:39-40 | words stand in a list one after another exactly if the list is something, these words, and something |
| TermGenerators.TermGenerator.IndexText | src/engine/termgenerator.cpp:53-60 | each term has as positions the places of that word in all the text so far, ascending, counted from 1 |
| TermGenerators.PhraseIsInText | src/engine/termgenerator.cpp:53-60 | the index has a phrase exactly if its words follow one another in the text |
| TermGenerators.IndexAndAsk | src/engine/termgenerator.cpp:53-60 | from any texts: the document has a phrase exactly if it can be cut out of them |
| Coding.EncodeVarint32Internal | src/codecs/coding.cpp:13-46 | the five unrolled cases write the LEB128 form, at most five bytes, and nothing else |
| Coding.Unrolled4 | src/codecs/coding.cpp:38-44 | the five bytes of a large value, group by group of seven bits, low ones first; `Unrolled1` to `Unrolled3` the shorter forms |
| Coding.VarintSize | src/codecs/coding.cpp:13-46 | a value of 7n bits takes at most n bytes, so the scratch buffer suffices |
| Coding.UnvarintVarint | src/codecs/coding.cpp:92-110 | reading undoes writing and stops at the first byte behind it |
| Coding.GetVarint32PtrFallback | src/codecs/coding.cpp:92-110 | for any bytes: the LEB128 value modulo 2^32, or nothing if five bytes do not end it |
| Coding.GetVarint32Ptr | src/codecs/coding.h:47-60 | the one-byte shortcut changes nothing |
| PositionCodecs.PutVarint32Internal | src/codecs/coding.cpp:48-51 | writes one value within five bytes and keeps what is before it, as long as the position fits an int |
| PositionCodecs.FitsThroughout | src/codecs/coding.cpp:53-67 | the 32-bit write position stays valid all the way exactly if the encoding is shorter than 2^31 bytes |
| PositionCodecs.WhenPositionFits | src/codecs/coding.cpp:53-67 | so for all lists of up to 429 496 728 values, and for none of 2^31 - 1 or more |
| PositionCodecs.PutDifferentialVarInt32 | src/codecs/coding.cpp:53-67 | for exactly those lists: appends size and differences and never leaves the scratch buffer of 5(n+1) bytes, whatever it held before |
| PositionCodecs.GetDifferentialVarInt32 | src/codecs/coding.cpp:69-90 | for any bytes: the running sums modulo 2^32, or nothing if a value is cut off |
| PositionCodecs.UndeltaDeltas | src/codecs/coding.cpp:53-90 | sums undo differences modulo 2^32, also for lists that are not sorted |
| PositionCodecs.DifferenceIs | src/codecs/coding.cpp:60-64 | of ascending values the differences themselves are written, of others their complement to 2^32 |
| PositionCodecs.DifferentialRoundTrip | src/codecs/coding.cpp:53-90 | every list that can be written comes back |
| PositionCodecs.UnfixedFixed | src/codecs/coding.h:23-43 | the bytes of a 64-bit id give back the id |
| PositionCodecs.Encode | src/codecs/positioncodec.cpp:14-25 | the bytes of the entries one after the other, with one scratch buffer passed on from entry to entry |
| PositionCodecs.Decode | src/codecs/positioncodec.cpp:27-47 | for any bytes: the entries read one after the other, or no entry at all if one is cut off |
| PositionCodecs.ListRoundTrip | src/codecs/positioncodec.cpp:14-47 | every list of 64-bit ids and position lists that can be written is read back, sorted or not |
| PositionCodecs.RoundTrip | src/codecs/positioncodec.cpp:14-47 | the same for the two loops themselves |
| DocTermsCodecs.Encode | src/codecs/doctermscodec.cpp:11-33 | each term in full, or what follows the previous term if it starts with that |
| DocTermsCodecs.RestMeans | src/codecs/doctermscodec.cpp:23-29 | a term that starts with the one before takes only the bytes that follow and a 1, any other all its bytes and a 0 |
| DocTermsCodecs.Decode | src/codecs/doctermscodec.cpp:35-66 | for any bytes that an int can count: what a reading term by term gives |
| DocTermsCodecs.PlainRoundTrip | src/codecs/doctermscodec.cpp:11-66 | terms without byte 0 and 1 come back, in any order and with duplicates |
| DocTermsCodecs.DecodedSize | src/codecs/doctermscodec.cpp:42-63 | decoding yields one term for each byte 0 or 1, unless it breaks off at the start |
| DocTermsCodecs.EncodedEnds | src/codecs/doctermscodec.cpp:15-30 | encoding writes one such byte for each term and more if a term holds one |
| DocTermsCodecs.RoundTrip | src/codecs/doctermscodec.cpp:11-66 | a nonempty list whose encoding has fewer than 2^31 bytes comes back exactly when no term holds byte 0 or 1 |
| FileContentIndexers.Log2IsFloor | src/file/filecontentindexer.cpp:196-208 | the number of halvings is the floor of the binary logarithm |
| FileContentIndexers.AllowanceIsProduct | src/file/filecontentindexer.cpp:198-213 | an allowance of log + 1 failed runs for each bad file adds up to the product |
| FileContentIndexers.MarkedIsLess | src/file/filecontentindexer.cpp:199-206 | while a bad file is left, fewer files are marked than are bad |
| FileContentIndexers.AllSorted | src/file/filecontentindexer.cpp:167-170 | with nothing left, exactly the bad files are failed and exactly the others indexed |
| FileContentIndexers.BatchSucceeds | src/file/filecontentindexer.cpp:196-223 | a committed batch makes progress and keeps the loop's promises |
| FileContentIndexers.BatchFails | src/file/filecontentindexer.cpp:198-213 | a failed run is within the bound, and halving keeps the promises |
| FileContentIndexers.LastFileFails | src/file/filecontentindexer.cpp:199-206 | a batch of one that fails holds a bad file; marking it and starting over with the full size keeps the promises |
| FileContentIndexers.FileContentIndexerProvider.Fetch | src/file/filecontentindexerprovider.cpp:19-23 | the least ids of phase one, ascending, as many as asked for or all there are |
| FileContentIndexers.FileContentIndexerProvider.MarkFailed | src/file/filecontentindexerprovider.cpp:31-39 | moves the id from phase one to the failed ones |
| FileContentIndexers.FileContentIndexer.Batch | src/file/filecontentindexer.cpp:171-223 | one batch keeps the promises and either shrinks phase one or, leaving it alone, the batch |
| FileContentIndexers.FileContentIndexer.Run | src/file/filecontentindexer.cpp:157-226 | terminates; unless told to stop, exactly the bad files are marked failed and exactly the others indexed; failed runs never exceed the number of bad files times (floor(log2(batch size)) + 1), stopped or not |
| Scheduling.ScheduledIsGood | src/file/fileindexscheduler.cpp:72-192 | scheduling leaves at most one runner, a busy state only with one, and nothing due without one |
| Scheduling.ChosenIsGood | src/file/fileindexscheduler.cpp:79-191 | the same for what an idle indexer chooses |
| Scheduling.SchedulingRank | src/file/fileindexscheduler.cpp:72-192 | scheduling never adds to the work left |
| Scheduling.DeliveryIsCloser | src/file/fileindexscheduler.cpp:67-192 | each delivered callback brings rest closer |
| Scheduling.FinishingIsCloser | src/file/fileindexscheduler.h:68-71 | so does each finished runner, whatever it leaves for content indexing |
| Scheduling.QuietIsDone | src/file/fileindexscheduler.cpp:72-192 | no lost wakeup: with no runner and no callback outstanding there is nothing due and the state is a resting one |
| Scheduling.AfterIsSound | src/file/fileindexscheduler.cpp:67-287 | every event leaves at most one runner, a busy state only with one, clean queues, the state announced, nothing due without a runner or a callback, and content indexing told to stop whenever it is at work on battery or while suspended |
| Scheduling.QuitsWhen | src/file/fileindexscheduler.cpp:212-267 | content indexing is told to stop exactly by a new configuration, by the change to battery and by suspension while it is at work; only a new start takes that back |
| Scheduling.FirstDueIsNext | src/file/fileindexscheduler.cpp:87-186 | the task taken up is the first in the order of priorities that is due, and there is work exactly if some task is; housekeeping is due only with startup over and on mains |
| Scheduling.StartMeans | src/file/fileindexscheduler.cpp:87-186 | starting a runner empties its own queue, or clears its own check (the first run both checks), and changes nothing else |
| Scheduling.RestMeans | src/file/fileindexscheduler.cpp:79-191 | which state is shown when there is nothing to do, and that nothing else changes |
| Scheduling.QueueMeans | src/file/fileindexscheduler.h:41-66 | at most the announced file comes into a queue, once and at its end, and exactly what an event withdraws goes |
| Scheduling.SwitchesMean | src/file/fileindexscheduler.cpp:67-275 | startup, power and suspension change by exactly their own events |
| Scheduling.ChecksMean | src/file/fileindexscheduler.cpp:222-287 | a check becomes due by exactly its own event and by a new configuration |
| Scheduling.RunnerMeans | src/file/fileindexscheduler.h:68-71 | only the end of a runner changes what runs and what is left for content indexing |
| Scheduling.PostedWhen | src/file/fileindexscheduler.h:41-71 | a callback is posted exactly by the end of startup or of a runner and by a newly queued file at an idle indexer |
| Scheduling.StaysQueued | src/file/fileindexscheduler.cpp:72-239 | no event loses a queued file: it stays queued for its task, a runner for that task is given it, or it is removed or not to be indexed any more |
| Scheduling.NoFileForgotten | src/file/fileindexscheduler.h:41-66 | so in any run: an announced file is still queued at the end, was given to a runner for its task since, or was withdrawn |
| Scheduling.QuietHasSeenToAll | src/file/fileindexscheduler.h:41-66 | once a run has come to rest, unsuspended and with startup over, every file announced was given to a runner or withdrawn |
| FileIndexSchedulers.FileIndexScheduler.constructor | src/file/fileindexscheduler.cpp:26-59 | the initial state: nothing queued, both checks due, in startup |
| FileIndexSchedulers.FileIndexScheduler.IdleIsQuiet | src/file/fileindexscheduler.h:91-97 | in every reachable state isIndexerIdle is true exactly when no runner is at work |
| FileIndexSchedulers.FileIndexScheduler.ScheduleIndexing | src/file/fileindexscheduler.cpp:72-192 | makes the state change that the priorities call for, announces it, and hands a started runner exactly the files that were queued for it; otherwise nothing is announced or handed over |
| FileIndexSchedulers.FileIndexScheduler.StartupFinished | src/file/fileindexscheduler.cpp:67-70 | ends startup with a callback outstanding, and nothing else |
| FileIndexSchedulers.FileIndexScheduler.IndexNewFile | src/file/fileindexscheduler.h:41-48 | queues the file once, with a callback if it was new and the indexer idle; strands nothing |
| FileIndexSchedulers.FileIndexScheduler.IndexModifiedFile | src/file/fileindexscheduler.h:50-57 | queues the file once, with a callback if it was new and the indexer idle; strands nothing |
| FileIndexSchedulers.FileIndexScheduler.IndexXAttrFile | src/file/fileindexscheduler.h:59-66 | queues the file once, with a callback if it was new and the indexer idle; strands nothing |
| FileIndexSchedulers.FileIndexScheduler.RunnerFinished | src/file/fileindexscheduler.h:68-71 | the runner is gone, and a callback is outstanding |
| FileIndexSchedulers.FileIndexScheduler.UpdateConfig | src/file/fileindexscheduler.cpp:203-225 | queues keep exactly the files still to be indexed, both checks are due, running content indexing is told to quit, nothing is stranded |
| FileIndexSchedulers.FileIndexScheduler.HandleFileRemoved | src/file/fileindexscheduler.cpp:194-239 | takes the file, or all below a directory, from the three queues and nothing else |
| FileIndexSchedulers.FileIndexScheduler.PowerManagementStatusChanged | src/file/fileindexscheduler.cpp:241-250 | tells content indexing to stop exactly when it is at work and the change is to battery, else reschedules; nothing is stranded either way |
| FileIndexSchedulers.FileIndexScheduler.SetSuspend | src/file/fileindexscheduler.cpp:252-267 | the same for suspending and resuming |
| FileIndexSchedulers.FileIndexScheduler.CheckUnindexedFiles | src/file/fileindexscheduler.cpp:277-281 | the check becomes due, and work is looked for at once; strands nothing |
| FileIndexSchedulers.FileIndexScheduler.CheckStaleIndexEntries | src/file/fileindexscheduler.cpp:283-287 | the check becomes due, and work is looked for at once; strands nothing |
| FileIndexSchedulers.Run | src/file/fileindexscheduler.cpp:26-287 | safety over whole runs: a history of any sequence of events, the direct call when watches are installed among them, in which every moment is a good one and follows from the one before by its event, with what was announced, handed to a runner and asked of content indexing |
| FileIndexSchedulers.FileIndexScheduler.Deliver | src/file/fileindexscheduler.cpp:67-287 | any event does what it means, and nothing if it cannot occur now |
| FileIndexSchedulers.FileIndexScheduler.Settle | src/file/fileindexscheduler.cpp:67-192 | without new events, runners and callbacks come to an end, with nothing due |
| FolderCaches.LessOrder | src/file/fileindexerconfig.cpp:270-274 | the order of entries is total and irreflexive |
| FolderCaches.LessTransitive | src/file/fileindexerconfig.cpp:270-274 | and transitive |
| FolderCaches.FirstIsLongest | src/file/fileindexerconfig.cpp:216-225 | in that order the first match is the longest configured prefix |
| FolderCaches.VerdictIsLongest | src/file/fileindexerconfig.cpp:210-226 | a path is included through a folder exactly if that is the longest configured prefix and included |
| FolderCaches.EraseKeepsVerdict | src/file/fileindexerconfig.cpp:252-262 | erasing a redundant excluded entry changes the verdict on no path |
| FolderCaches.EraseKeepsSimplified | src/file/fileindexerconfig.cpp:238-267 | a later removal makes no earlier entry redundant, so one pass is enough |
| FolderCaches.FolderCache.AddFolderConfig | src/file/fileindexerconfig.cpp:276-293 | keeps the order and adds the cleaned path; false exactly for an empty path or one that has an entry already |
| FolderCaches.FolderCache.Cleanup | src/file/fileindexerconfig.cpp:228-268 | changes no verdict, keeps all included entries, leaves only excluded ones below an included one, and does nothing the second time |
| FolderCaches.ConfiguredMeans | src/file/fileindexerconfig.cpp:305-331 | included folders win over excluded ones, and these over unusable media |
| FolderCaches.FileIndexerConfig.BuildFolderCache | src/file/fileindexerconfig.cpp:295-338 | the cache, simplified, decides every path as the settings do |
| FolderCaches.FileIndexerConfig.FolderInFolderList | src/file/fileindexerconfig.cpp:210-226 | finds the longest configured prefix if it is included, and nothing else |
| FolderCaches.FileIndexerConfig.ShouldFolderBeIndexed | src/file/fileindexerconfig.cpp:160-195 | true exactly if the longest configured prefix is included and no component after it matches an exclude filter or, unless hidden ones are indexed, starts with a dot |
| FolderCaches.FileIndexerConfig.ShouldBeIndexed | src/file/fileindexerconfig.cpp:147-158 | a file exactly if its folder is, no exclude filter matches its name, and hidden ones are indexed or it is not hidden |
| Debouncing.PendingFile.Merge | src/file/pendingfile.cpp:49-55 | contents are to be indexed exactly if either event says so, and attributes likewise |
| PendingFileQueues.PendingFileQueue.Enqueue | src/file/pendingfilequeue.cpp:47-80 | a change is cached with the timer armed; a removal is passed on at once, after what is cached for the path or below a directory is retracted with exactly the deadlines and records that belong to it; nothing else changes or is told |
| Debouncing.RemovalMeans | src/file/pendingfilequeue.cpp:51-69 | a removal leaves in the cache exactly what is neither at the path nor below a directory, and drops the deadline of the path and of what is cached below, and the records of the latter |
| Debouncing.ChangeMeans | src/file/pendingfilequeue.cpp:72-79 | a change becomes one entry for its path with the flags of all events, the others untouched, and the cache timer starts anew |
| PendingFileQueues.PendingFileQueue.ProcessCache | src/file/pendingfilequeue.cpp:82-126 | each cached change of contents of a pending path doubles the time left, within the two delays; that of a path sent recently waits for the shorter one; any other is sent; every change of attributes alone is sent; what is told is exactly that, in order; exactly the paths not served yet are pending, with the timer armed |
| Debouncing.ProcessedSets | src/file/pendingfilequeue.cpp:84-113 | the new deadline of each path, in terms of the time that was left, without reference to how it is computed |
| Debouncing.ToldOnly | src/file/pendingfilequeue.cpp:84-113 | nothing else is told than attributes alone and contents that neither wait nor were sent recently |
| Debouncing.InTimeWhen | src/file/pendingfilequeue.cpp:115-120 | the timer fires no later than the first deadline exactly if it did not run before, or runs out no later than the first of the deadlines there are now |
| Debouncing.TimerMayBeLate | src/file/pendingfilequeue.cpp:115-120 | so a path can be sent after its deadline: the moment that shows it, with the timer running for another path |
| PendingFileQueues.PendingFileQueue.ProcessPendingFiles | src/file/pendingfilequeue.cpp:151-180 | exactly what is due is sent, each path once, and nothing else is told; the rest keeps its deadline and the timer runs to the first of them |
| PendingFileQueues.PendingFileQueue.ClearRecentlyEmitted | src/file/pendingfilequeue.cpp:128-149 | exactly the records of tracking age are forgotten; the timer runs until the next is |
| Debouncing.EmitIsGood | src/file/pendingfilequeue.cpp:102-108 | sending a path that has no record, or whose deadline has come, keeps the distance to its last emission |
| Debouncing.PostponeIsGood | src/file/pendingfilequeue.cpp:89-101 | a new deadline is far enough from the last emission |
| Debouncing.SpacedPairs | src/file/pendingfilequeue.cpp:82-180 | any two emissions of one path are at least the lesser of minimum and tracking time apart, unless a directory removal came between |
| Debouncing.ServedStep | src/file/pendingfilequeue.cpp:84-113 | one cached file less to serve: it is sent or has a deadline |
| PendingFileQueues.Run | src/file/pendingfilequeue.cpp:47-180 | a history of any sequence of events and timers in which at every moment emissions have kept their distance, nothing waits without a timer, and each moment follows from the one before by its event |
| PendingFileQueues.PendingFileQueue.Deliver | src/file/pendingfilequeue.cpp:47-180 | any event or timer does what it means, at its time |
| PendingFileQueues.PendingFileQueue.Settle | src/file/pendingfilequeue.cpp:82-180 | without new events timers come to an end in whatever order and however late they fire, with nothing cached, pending, remembered or armed; returns the history, in which every change of contents that waited at the start is sent |
| Debouncing.FiringIsCloser | src/file/pendingfilequeue.cpp:82-180 | every timer that fires brings rest closer, although it may fire before anything is due |
| Debouncing.StaysUnserved | src/file/pendingfilequeue.cpp:47-180 | no event loses a change of contents: it goes on waiting, is sent, or a removal takes it back |
| Debouncing.NoChangeForgotten | src/file/pendingfilequeue.cpp:47-180 | so in any run: a change of contents still waits at the end, has been sent since, or was taken back |
| Debouncing.QuietHasSeenToAll | src/file/pendingfilequeue.cpp:47-180 | once no timer of cache and deadlines runs, every change of contents has been sent or taken back |

## Left out

- LMDB: pages, cursors as objects, transaction handles, aborts and error codes; tables are maps, keys in byte or numeric order.
- Text segmentation, Unicode, regular expressions and path cleaning: arbitrary functions that are parameters (`termList`, `nameTerms`, `validate`, `excludeFilter`, `cleanPath`).
- The file system: an injective function from paths to ids, 0 for what cannot be found, which may change between the operations of a run; paths given to it are clean.
- The class hierarchy of iterators: one class with a kind in place of virtual methods; children are owned and disjoint, as the unique pointers of the source make them.
- Vectors: values of type `seq` reassigned by methods, except for the scratch buffer of the codecs, which is an array; sharing and capacity are not modelled.
- Widths: ids, positions and times outside the codecs are unbounded.
- CommittedQueries.CommitAndSearch: assumes positions in the order in which the term generator finds them and no document 0; `CheckIfPositionsMatch` says what holds for positions in any order.
- TermGenerators.TermGenerator.IndexText: plain text only; attribute texts with their prefixes and gaps, and positions set from outside, are left out.
- CommittedQueries.CommitAndFindNames: assumes that a document's file name terms are the segmented words of its stored name; `SearchableRuns.StepKeepsNames` says which operations keep that, a replacement of file name terms without the name need not.
- WriteTransactions.WriteTransaction.AddDocument: requires what the source asserts (unknown id, parent given, terms present) and a clean directory path; what becomes of the forest is stated for documents whose path, id and parent are those of the file system.
- WriteTransactions.WriteTransaction.ReplaceDocument: starts from a sound index, so what a second replacement does to a document whose terms have been lost or doubled is stated only by `ReplacePart`; commit and removal are stated for any index. A replaced name must not be empty, as the source asserts.
- WriteTransactions.WriteTransaction.RemoveRecursively: starts at an entry, not at 0, which stands for the top level and has no document.
- WriteTransactions.WriteTransaction.RemoveRecursivelyIf: starts at an entry as well; the predicate depends on the path alone.
- WriteTransactions.WriteTransaction.CommitTerm: that unchanged positions are not written again is not stated, only that the table holds the right ones.
- DocumentUrlDBs.DocumentUrlDB.AddPath: when an ancestor cannot be found, the entries added so far hang from an unknown one; `Settled` says exactly that, and nothing repairs it.
- DocumentUrlDBs.DocumentUrlDB.GetId: which of several children with the same name is returned is not stated beyond that it has that name.
- MetadataMovers.MoveFileMetadata: starts from a forest with unique sibling names; a target that leaves entries behind or lies inside the source breaks the forest, as its contract states, and nothing repairs it.
- SearchTree.Exec: only the loop that collects; sorting by time, offset, limit and urls of the results are left out.
- SearchTree.Construct: leaves are posting lists; how a term of the query language becomes one is left out beyond the engine, file name and time range queries.
- Transactions.EngineQuery: MIME type queries, property phrase queries (a file name query over other prefixes) and the validators of comparison and regular expression queries, which are a parameter.
- Coding.EncodeVarint32Internal: shifts and masks are written as quotients and remainders.
- PositionCodecs.PutDifferentialVarInt32: encodings of 2^31 bytes and more, where the position overflows, are excluded; `FitsThroughout` says which these are.
- DocTermsCodecs.Decode: data of 2^31 bytes and more, where the index overflows, is excluded, and with it from `Encode` and `RoundTrip`.
- PositionCodecs.Decode: stored values cut off inside an id, where the source reads past the end, give no list here.
- FileContentIndexers.FileContentIndexer.Run: the extractor is a step of the environment that fails exactly on a batch with a bad file and commits all or nothing; a commit of a failed mark that fails ends the source's process and is left out. Time estimates, signals and batch sizes changed during a run are left out.
- FileContentIndexers.FileContentIndexer.LoadStop: stopping may happen at any time and is final during a run; that it happens promptly is not claimed, since a request before the flag is reset is lost.
- FileIndexSchedulers.FileIndexScheduler.Settle: assumes that each runner finishes and that content indexing leaves nothing behind; thread pool, power monitor and time estimates are events and parameters.
- FolderCaches.FileIndexerConfig.ShouldFolderBeIndexed: the root folder and platforms other than Unix are left out; settings and media are fixed sequences.
- PendingFileQueues.PendingFileQueue.Enqueue: a directory removal forgets only what is in the cache, so deadlines of paths below it that are not cached stay; that is stated, silence below the directory is not.
- PendingFileQueues.PendingFileQueue.ProcessCache: the clock never wraps at midnight and the delays are fixed at the start, with the minimum not above the maximum; constant changes put a path off for ever and a running timer is not brought forward, so no final deadline is claimed. The order of what is kept after a partition is that of the cache.
- Emission of signals over D-Bus, file system notification, storage devices, idle and power monitoring, priorities and the processes' main functions.
