# Dash Platform: a verified model of its stateful cores

This project models the parts of Dash Platform whose correctness depends on many
steps taken together, and proves in Dafny what those steps keep:

- `Framing`, `AbciConnection`, `ConnectionFlow`: the ABCI connection cuts a byte
  stream that arrives in arbitrary chunks into length-prefixed requests, keeps one
  in flight, answers in order, holds data back while it is busy, and closes
  gracefully.
- `MerkDb`, `Documents`, `DocumentRuns`, `BlockExecution`, `BlockCommits`,
  `CommitHandling`, `BlockReplay`, `BlockMaps`: an in-memory overlay over a Merk
  tree, the document index beside it, the six store transactions of a block, the
  clones that bring the stores of the previous block along, and the plain maps that
  all of these stand for.
- `ContractCache`: a cache of data contracts shared by two readers.
- `DataTriggers`, `Dpns`, `Registration`, `FeatureFlags`: the checks on DPNS names
  and feature flags, what every registry they can build satisfies, and which names
  can be registered.
- `TransactionFilter`, `FilterElements`, `TransactionCache`, `CacheRuns`,
  `CacheDelivery`, `TransactionStream`, `StreamArrival`, `StreamOrder`,
  `StreamEviction`, `StreamDelivery`: the Bloom filter test (BIP 37, "Filter matching
  algorithm"), the cache of one transaction stream, the stream itself, what each
  event achieves, in what order it sends, and how often one thing.
- `MasternodeList`: the list of masternode diffs under failing requests.
- `Quorums`: the choice of a validator quorum. `StoreProof`: the reader of store
  proofs.
- `Schema`, `SchemaPaths`, `IndexValidation`, `IndexFaults`: binary properties and
  property paths of document schemas, the index rules of data contracts, and which
  fault is reported for what.
- `Buffers`, `ByteOrder`, `Strings`, `Options`: byte order and sorting, splitting and
  joining, optional values.

An object the source updates in place is a class; each of its methods ends in the
state that a step function gives for the state before. What holds over whole runs
is proved about those step functions. Asynchronous code is cut at its awaits:
the code between two of them is one step, and the steps interleave freely.
Hashes, filter positions, decoders of message bodies and lower-casing are
arbitrary functions passed as parameters, so that the theorems hold for all of
them; what a database, a remote call or a socket may answer is a parameter of the
step.

## Findings

Properties that do not hold of the code in general are stated with the exact
condition under which they do, and a concrete input for which they do not.

- Deleting a key that the running transaction itself added leaves it in place: the
  call is ignored or throws, depending on Merk's error text
  (`MerkDb.DeleteDeletesIff`, `MerkDb.OverlayIsPlainMapIff`,
  `MerkDb.AddedKeyOutlivesRemoval`). It throws unless the text starts with "key not
  found"; the integration tests of the store expect "no value found for key". Of a
  document stored and removed in one block the index entry goes and the document
  stays (`Documents.RemoveLeavesOrphanIff`, `Documents.StoredAndDeletedStays`).
- The comments in `persist` ask for sorted keys. Updates and deletions are each
  sorted, but the batch as a whole is ascending only when all updated keys lie
  below all deleted ones (`MerkDb.BatchOrder`, `MerkDb.BatchOutOfOrder`).
- When the index refuses its commit, the other five stores of the block are
  committed and the object can never start, commit or abort again
  (`BlockExecution.StepMatches`, `BlockExecution.FlagMatchesOverRuns`,
  `BlockExecution.RefusedCommitWedges`).
- A second cached block with the hash of the evicted one puts blocks and Merkle
  blocks out of step (`CacheRuns.AddingKeepsAlignedIff`, `CacheRuns.RunAlignedIff`,
  `CacheRuns.DuplicateBlockMisaligns`).
- Evicting a block takes its transactions out of the cache, sent or not. When
  another cached block shares one that was not sent yet, the Merkle block of the
  other goes out without it (`StreamOrder.StreamIsCompleteIff`,
  `StreamOrder.ReactReadyIff`, `StreamEviction.EvictionLosesTransaction`).
- The first turn of the loop sends a collected instant lock without taking its
  hash off the waiting list, so the same lock is sent again when it arrives once
  more (`StreamDelivery.LockSentOnceIff`, `StreamDelivery.CollectedLockIsSentTwice`).
  That it does is an assumption about the ZMQ source: nothing in the repository
  shows it, and nothing excludes it.
- Not every matching output of a transaction is followed: the test stops at the
  first one, and follows none when the hash matched
  (`TransactionFilter.OutputIsFollowedIff`, `TransactionFilter.AllAreFollowedIff`,
  `TransactionFilter.SecondOutputIsNotFollowed`).
- The index rules accept an index on a name that the schema does not define but
  every JavaScript object inherits, `constructor` for one
  (`IndexValidation.ValidatorIsExact`, `IndexValidation.ConstructorIsAccepted`).
- A store proof cut off within the hash or the value of its last operation is
  accepted; one cut off anywhere else inside an operation is not
  (`StoreProof.AcceptedIff`, `StoreProof.MissingHashIsAccepted`,
  `StoreProof.CutKeyIsRejected`).
- The frame encoder is inverted only for the sizes the connection accepts: an
  empty message cannot be read back, and lengths from 2^30 wrap around
  (`Framing.FrameRoundTrip`, `Framing.FrameVerdict`).

## Model

| member | source | states |
|---|---|---|
| Framing.VarintRoundTrip | packages/js-abci/lib/Connection.js:51-56 | decoding undoes encoding for every number, whatever bytes follow |
| Framing.VarintPrefixTruncated | packages/js-abci/lib/Connection.js:106-117 | a varint cut anywhere before its last byte does not decode |
| Framing.VarintBytes | packages/js-abci/lib/Connection.js:53-56 | the bytes of a varint, one by one: seven bits each, lowest first, the top bit on all but the last, none too many |
| Framing.FrameRoundTrip | packages/js-abci/lib/Connection.js:51-67 | what `write` puts on the socket is read back as that message if and only if its length is 1 to MAX_MESSAGE_SIZE; the 32-bit shifts are modelled |
| Framing.FrameVerdict | packages/js-abci/lib/Connection.js:51-67 | what the reader makes of a frame of any size: its length modulo 2^31 as a signed number decides between empty, that many bytes of it, too large, and negative |
| Framing.PrefixWindow | packages/js-abci/lib/Connection.js:106-117 | a prefix is looked at for eight bytes: as long as they all announce another the connection waits, and one that does not ends the waiting once a maximal message would be complete |
| Framing.PartialFrameWaits | packages/js-abci/lib/Connection.js:106-140 | a well-formed frame cut short anywhere is waited for, never misread or rejected |
| Framing.ScanAppend | packages/js-abci/lib/Connection.js:106-145 | bytes arriving behind a complete message do not change it |
| Framing.ReadsIsPrefix | packages/js-abci/lib/Connection.js:142-160 | messages read off the head, followed by those still in the rest, are all messages of the bytes |
| Framing.ReadsDetermined | packages/js-abci/lib/Connection.js:142-160 | how many messages were read fixes which they are and what is left |
| Framing.StreamReads | packages/js-abci/lib/Connection.js:51-67 | a concatenation of well-formed frames and any tail reads back as the messages sent, leaving the tail |
| AbciConnection.Connection.constructor | packages/js-abci/lib/Connection.js:27-44 | a new connection is idle, open and has an empty buffer |
| AbciConnection.Connection.OnData | packages/js-abci/lib/Connection.js:38-43 | a data event is exactly the step "append the chunk, then read the next request" |
| AbciConnection.Connection.ReadNextRequest | packages/js-abci/lib/Connection.js:93-169 | each branch up to the first await: not while closing or reading, wait for more, destroy on empty, oversized or undecodable requests, else consume, pause and hand over |
| AbciConnection.Connection.Write | packages/js-abci/lib/Connection.js:51-67 | prefix then body go out; either write can throw, and the output then holds what was written before |
| AbciConnection.Connection.OnHandlerResolved | packages/js-abci/lib/Connection.js:189-196 | the response is written; the await of the write follows, after which a failed one destroys the socket |
| AbciConnection.Connection.OnHandlerRejected | packages/js-abci/lib/Connection.js:170-178 | an error response is written; the await of the write follows |
| AbciConnection.Connection.OnLastWriteAwaited | packages/js-abci/lib/Connection.js:180-196 | after the write of an error response, or a failed write, the socket is destroyed and the connection never released |
| AbciConnection.Connection.OnHandlerThrew | packages/js-abci/lib/Connection.js:186 | any other handler error leaves the connection reading for good |
| AbciConnection.Connection.OnWriteAwaited | packages/js-abci/lib/Connection.js:198-209 | the connection is released, resumed unless closing, and the next request read if bytes are left |
| AbciConnection.Connection.Close | packages/js-abci/lib/Connection.js:74-78 | closing is set and the socket paused |
| AbciConnection.Connection.OnSocketClosed | packages/js-abci/lib/Connection.js:79-82 | the socket closing decides the race of `close` |
| AbciConnection.Connection.OnCloseRaceSettled | packages/js-abci/lib/Connection.js:84-86 | the socket is ended once the race is decided |
| AbciConnection.RunKeeps | packages/js-abci/lib/Connection.js:38-210 | over every run (of the source as long as no prefix is negative, see StaysModelled): bytes received are the dispatched messages and the buffer; idle and open means no complete message is buffered; `isRequestHandled` is resolved exactly when `isReading` is false; one response per request; the socket is ended only in an orderly close |
| AbciConnection.StaysModelled | packages/js-abci/lib/Connection.js:106-140 | a run leaves the model only if the bytes received, behind their messages, go on with a prefix whose 32-bit value is negative |
| AbciConnection.DispatchFollowsBytes | packages/js-abci/lib/Connection.js:93-169 | the dispatched requests are a prefix of the messages in the received bytes, all of them when idle and open; for streams as in StaysModelled |
| AbciConnection.ChunkingIndependence | packages/js-abci/lib/Connection.js:38-43 | two runs with the same bytes, cut into chunks and interleaved with handlers in any way, dispatch the same requests as far as both got, and have the same buffer when both are idle; for streams as in StaysModelled |
| AbciConnection.FramesAreDispatched | packages/js-abci/lib/Connection.js:93-169 | well-formed frames followed by part of one: the run stays within the model, the requests are the framed messages in order, exactly those once idle, with the partial frame left in the buffer |
| AbciConnection.ResponsesFollowRequests | packages/js-abci/lib/Connection.js:189-196 | the peer reads one response per answered request, in request order |
| AbciConnection.AnsweringDrains | packages/js-abci/lib/Connection.js:198-209 | progress: each answer brings up the next buffered message in order until none is left |
| AbciConnection.NoDispatchAfterClose | packages/js-abci/lib/Connection.js:94-97 | after `close` or a destroy path nothing more is dispatched, over any further run |
| AbciConnection.EndsAfterResponse | packages/js-abci/lib/Connection.js:74-87 | the socket is ended only after `close`, with every dispatched request answered or the socket already closed |
| AbciConnection.CloseCompletes | packages/js-abci/lib/Connection.js:74-87 | a close with a request in flight completes with that one response and ends with all responses on the socket |
| ConnectionFlow.BackPressure | packages/js-abci/lib/Connection.js:162-203 | over any run the socket is paused while a request is in flight or the connection closes, and not paused once it is idle and open |
| ConnectionFlow.BadRequestsDestroy | packages/js-abci/lib/Connection.js:121-158 | over any run in which handler and writes do not fail, the socket is destroyed if and only if the connection came, idle and open, upon an empty, oversized or undecodable request |
| ConnectionFlow.InFlightEnds | packages/js-abci/lib/Connection.js:166-210 | what becomes of the request in flight, for each answer of the handler and each way a write can go: the bytes on the socket, the responses counted, and whether the socket is destroyed |
| ConnectionFlow.ClosingIff | packages/js-abci/lib/Connection.js:74-87 | over any run the connection is closing if and only if close was called, and has ended its socket if and only if close had a turn when the connection was idle or the socket had closed after it |
| MerkDb.Merk.CommitBatch | packages/js-drive/lib/merkDb/MerkDbInMemoryDecorator.js:83-115 | a batch applies its operations in order |
| MerkDb.PutKeeps | packages/js-drive/lib/merkDb/MerkDbInMemoryDecorator.js:38-46 | a put keeps updates and deletions disjoint and sets the key in the view |
| MerkDb.DeleteKeeps | packages/js-drive/lib/merkDb/MerkDbInMemoryDecorator.js:54-69 | a delete keeps the overlay consistent and removes exactly base keys from the view |
| MerkDb.DeleteDeletesIff | packages/js-drive/lib/merkDb/MerkDbInMemoryDecorator.js:54-69 | a deleted key is gone from the view if and only if the base holds it or the transaction never added it; where it stays, the call throws, changing nothing, or says nothing, by the text of the base's error |
| MerkDb.OverlayRefinesMap | packages/js-drive/lib/merkDb/MerkDbInMemoryDecorator.js:16-69 | over any puts, deletes and reads the overlay stands for a plain map whose removals spare keys absent from the base |
| MerkDb.OverlayIsPlainMapIff | packages/js-drive/lib/merkDb/MerkDbInMemoryDecorator.js:16-69 | the overlay agrees with a plain map after every access if and only if no removal is of a key that only the transaction added |
| MerkDb.AddedKeyOutlivesRemoval | packages/js-drive/lib/merkDb/MerkDbInMemoryDecorator.js:54-69 | a concrete run in which a key added and removed in one transaction is still read |
| MerkDb.BatchCommitsView | packages/js-drive/lib/merkDb/MerkDbInMemoryDecorator.js:83-115 | committing the batch turns the base into exactly the view of the overlay |
| MerkDb.BatchIsCanonical | packages/js-drive/lib/merkDb/MerkDbInMemoryDecorator.js:88-112 | the batch depends on the overlay only, not on the order in which its Maps grew |
| MerkDb.BatchOrder | packages/js-drive/lib/merkDb/MerkDbInMemoryDecorator.js:85-112 | the batch names each key once; as a whole it is ascending if and only if every updated key is below every deleted one |
| MerkDb.BatchOutOfOrder | packages/js-drive/lib/merkDb/MerkDbInMemoryDecorator.js:85-112 | an update of one key and the deletion of a lower one give a batch that is not ascending |
| MerkDb.BatchOf | packages/js-drive/lib/merkDb/MerkDbInMemoryDecorator.js:88-112 | updates by ascending key, then deletions by ascending key, each key once |
| MerkDb.MerkDbInMemoryDecorator.GetSync | packages/js-drive/lib/merkDb/MerkDbInMemoryDecorator.js:16-29 | a read answers what the view holds |
| MerkDb.MerkDbInMemoryDecorator.Put | packages/js-drive/lib/merkDb/MerkDbInMemoryDecorator.js:38-46 | the overlay after a put |
| MerkDb.MerkDbInMemoryDecorator.Delete | packages/js-drive/lib/merkDb/MerkDbInMemoryDecorator.js:54-69 | the overlay after a delete, unchanged for keys the base lacks, for which the call throws unless it knows the text of the base's error |
| MerkDb.MerkDbInMemoryDecorator.Persist | packages/js-drive/lib/merkDb/MerkDbInMemoryDecorator.js:76-121 | the base becomes the view of the overlay, which is emptied; the batch is the sorted one |
| MerkDb.MerkDbInMemoryDecorator.Reset | packages/js-drive/lib/merkDb/MerkDbInMemoryDecorator.js:128-133 | updates and deletions are forgotten |
| MerkDb.MerkDbTransaction.Start | packages/js-drive/lib/merkDb/MerkDbTransaction.js:21-29 | a fresh empty overlay, or the error when started already |
| MerkDb.MerkDbTransaction.Commit | packages/js-drive/lib/merkDb/MerkDbTransaction.js:36-46 | the base becomes the view, the overlay is dropped; the error otherwise |
| MerkDb.MerkDbTransaction.Abort | packages/js-drive/lib/merkDb/MerkDbTransaction.js:53-63 | the overlay is dropped and the base untouched |
| MerkDb.MerkDbTransaction.ToObject | packages/js-drive/lib/merkDb/MerkDbTransaction.js:79-98 | a copy of the changes by value |
| MerkDb.MerkDbTransaction.PopulateFromObject | packages/js-drive/lib/merkDb/MerkDbTransaction.js:107-117 | the exported updates and deletions are added to those present |
| MerkDb.MerkDbStore.Put | packages/js-drive/lib/merkDb/MerkDbStore.js:23-45 | writes go to the overlay of a given transaction, else to the base |
| MerkDb.MerkDbStore.Get | packages/js-drive/lib/merkDb/MerkDbStore.js:54-66 | reads come from the view of a given transaction, else from the base; missing keys are null |
| MerkDb.MerkDbStore.Delete | packages/js-drive/lib/merkDb/MerkDbStore.js:74-83 | deletions go to the overlay of a given transaction, which may throw for a key the base lacks, else to the base |
| MerkDb.MerkDbStore.CreateTransaction | packages/js-drive/lib/merkDb/MerkDbStore.js:99-101 | a transaction that is not started, on this store |
| Documents.MongoDBTransaction.Start | packages/js-drive/lib/mongoDb/MongoDBTransaction.js:18-31 | an empty session, or the error when started already |
| Documents.MongoDBTransaction.Commit | packages/js-drive/lib/mongoDb/MongoDBTransaction.js:38-57 | the session reaches the index, or nothing changes |
| Documents.MongoDBTransaction.Abort | packages/js-drive/lib/mongoDb/MongoDBTransaction.js:64-71 | the session is dropped |
| Documents.DocumentsIndexedTransaction.Start | packages/js-drive/lib/document/DocumentsIndexedTransaction.js:42-51 | both inner transactions start with it |
| Documents.DocumentsIndexedTransaction.Commit | packages/js-drive/lib/document/DocumentsIndexedTransaction.js:58-67 | index first, then store; a refused index commit changes neither |
| Documents.DocumentsIndexedTransaction.Abort | packages/js-drive/lib/document/DocumentsIndexedTransaction.js:74-83 | both inner transactions are aborted |
| Documents.DocumentIndexedStoreRepository.Store | packages/js-drive/lib/document/DocumentIndexedStoreRepository.js:19-39 | one step on index and store as the same caller sees them |
| Documents.DocumentIndexedStoreRepository.Delete | packages/js-drive/lib/document/DocumentIndexedStoreRepository.js:103-123 | one step on index and store as the same caller sees them; when the deletion from the store throws, the one from the index has been made |
| Documents.DocumentIndexedStoreRepository.Find | packages/js-drive/lib/document/DocumentIndexedStoreRepository.js:68-92 | the documents of the ids, without the missing ones |
| Documents.IndexStaysInStore | packages/js-drive/lib/document/DocumentIndexedStoreRepository.js:19-123 | over any run in which each id keeps its contract and type, every indexed id is in the store, inside the transaction and outside |
| Documents.FetchAllDropsNothingIff | packages/js-drive/lib/document/DocumentIndexedStoreRepository.js:85-92 | the null filter drops an answer if and only if an id is missing; otherwise the documents come in the order of the ids |
| Documents.FindDropsNothing | packages/js-drive/lib/document/DocumentIndexedStoreRepository.js:68-92 | in every reachable state `find` returns one document per id of the query |
| Documents.RemoveLeavesOrphanIff | packages/js-drive/lib/document/DocumentIndexedStoreRepository.js:103-123 | a transactional delete leaves the document in the store exactly when only this transaction stored it, and the caller is not told exactly when the base words its error the known way |
| Documents.StoredAndDeletedStays | packages/js-drive/lib/document/DocumentIndexedStoreRepository.js:103-123 | of a document stored and deleted in one transaction: the deletion throws, if and only if the base words its error the other way; after a commit the document is in the store, without an index entry |
| Documents.OtherKindBreaks | packages/js-drive/lib/document/DocumentIndexedStoreRepository.js:103-123 | deleting an id under another type breaks the inclusion: a concrete run |
| DocumentRuns.RepositoryRefinesModel | packages/js-drive/lib/document/DocumentIndexedStoreRepository.js:19-123 | over any run at all, index and store show what a plain model holds, committed contents outside and a working copy inside; only a document added in the same transaction outlives its deletion |
| DocumentRuns.StoredIsRead | packages/js-drive/lib/document/DocumentIndexedStoreRepository.js:19-39 | after a document is stored in any reachable state its entry is found with its bytes, nothing else changes, and it stays so through commits until its id is written or the transaction aborted |
| DocumentRuns.FetchAllSplits | packages/js-drive/lib/document/DocumentIndexedStoreRepository.js:85-92 | the answers to a list of ids are those to its parts, in order |
| BlockExecution.StepMatches | packages/js-drive/lib/blockExecution/BlockExecutionStoreTransactions.js:55-103 | a step keeps the flag in agreement with all six transactions if and only if it is not a refused commit of a running block |
| BlockExecution.FlagMatchesOverRuns | packages/js-drive/lib/blockExecution/BlockExecutionStoreTransactions.js:55-112 | over any run `isTransactionsStarted` holds exactly when all six are started, if and only if the index refused no commit of a running block |
| BlockExecution.RefusedCommitWedges | packages/js-drive/lib/blockExecution/BlockExecutionStoreTransactions.js:72-84 | one refused index commit commits the other five stores and leaves an object on which no later start, commit or abort ever succeeds |
| BlockMaps.BlockRefinesMaps | packages/js-drive/lib/blockExecution/BlockExecutionStoreTransactions.js:55-112 | over any run without a refused commit the six transactions stand for six plain maps: a write lands in its own store, a commit makes all working copies the committed maps, an abort drops them |
| BlockExecution.BlockExecutionStoreTransactions.constructor | packages/js-drive/lib/blockExecution/BlockExecutionStoreTransactions.js:18-50 | six transactions, none started, on six stores |
| BlockExecution.BlockExecutionStoreTransactions.Start | packages/js-drive/lib/blockExecution/BlockExecutionStoreTransactions.js:55-65 | the step on all six views; success if and only if none was started |
| BlockExecution.BlockExecutionStoreTransactions.Commit | packages/js-drive/lib/blockExecution/BlockExecutionStoreTransactions.js:72-84 | the step on all six views: every store that can commit does, the flag falls only if all did |
| BlockExecution.BlockExecutionStoreTransactions.Abort | packages/js-drive/lib/blockExecution/BlockExecutionStoreTransactions.js:91-103 | the step on all six views |
| BlockExecution.BlockExecutionStoreTransactions.ToObject | packages/js-drive/lib/blockExecution/BlockExecutionStoreTransactions.js:132-141 | the changes of all six, or the error when one is not started |
| BlockExecution.BlockExecutionStoreTransactions.PopulateFromObject | packages/js-drive/lib/blockExecution/BlockExecutionStoreTransactions.js:147-151 | the changes of each are added to its own transaction in turn, up to the first that is not started; bases unchanged |
| BlockExecution.CloneToPreviousStoreTransactions | packages/js-drive/lib/blockExecution/cloneToPreviousStoreTransactionsFactory.js:26-42 | a new started object on the previous stores with the same changes, sharing no object with the original |
| BlockReplay.CloneHasChanges | packages/js-drive/lib/blockExecution/cloneToPreviousStoreTransactionsFactory.js:26-42 | created, started and populated on whatever the previous stores hold, the clone has exactly the changes of the block |
| BlockReplay.CloneObject | packages/js-drive/lib/blockExecution/cloneToPreviousStoreTransactionsFactory.js:26-42 | the object that is made has the view of that clone on the previous stores, of new objects only |
| BlockReplay.RunFollows | packages/js-drive/lib/abci/handlers/commitHandlerFactory.js:107-187 | over any run of starts, writes, deletions, aborts, commits by the handler, accepted or refused, and commits of the oldest clone: the previous stores are an earlier main state, and each waiting clone, when committed, leads from one main state to the next; the main stores are the last of these until a commit is refused, and from then on the block is dead |
| BlockReplay.ReplicaReplays | packages/js-drive/lib/abci/handlers/commitHandlerFactory.js:107-187 | however far behind, over any run, committing the next n clones brings the previous stores to exactly what the main stores held n blocks later, and all of them to what they hold now unless a commit was refused |
| BlockReplay.StaysOneBehind | packages/js-drive/lib/abci/handlers/commitHandlerFactory.js:107-187 | right after the commit handler the previous stores hold what the main stores held before the block |
| BlockMaps.ReplicaRefinesJournal | packages/js-drive/lib/abci/handlers/commitHandlerFactory.js:107-187 | over any run without a refused commit the replica is a journal with a cursor: main stores and running block are plain maps, every committed state is recorded, the previous stores hold the one at the cursor |
| BlockCommits.Commit | packages/js-drive/lib/blockExecution/BlockExecutionStoreTransactions.js:72-84 | a running block turns each of its six stores into its view |
| BlockCommits.CommitBesideHeld | packages/js-drive/lib/blockExecution/BlockExecutionStoreTransactions.js:72-84 | committing one block, a waiting clone for one, leaves any number of others as they were |
| BlockCommits.CloneThenCommit | packages/js-drive/lib/blockExecution/cloneToPreviousStoreTransactionsFactory.js:26-42 | a block is cloned and then commits: the clone, of new objects, keeps the changes and still runs, and so does whatever waited |
| BlockCommits.CommitPrevious | packages/js-drive/lib/abci/handlers/commitHandlerFactory.js:150-187 | a waiting clone turns the previous stores into the views of its changes; neither the block nor its own clone notices |
| CommitHandling.CommitHandler.constructor | packages/js-drive/lib/abci/handlers/commitHandlerFactory.js:145-149 | before the first commit nothing runs and no clone waits |
| CommitHandling.CommitHandler.StartBlock | packages/js-drive/lib/blockExecution/BlockExecutionStoreTransactions.js:55-65 | the block starts without changes, unless it runs already; the clone that waits and all stores stay as they are |
| CommitHandling.CommitHandler.Write | packages/js-drive/lib/merkDb/MerkDbStore.js:23-45 | a write reaches the running block only, not the clone that waits |
| CommitHandling.CommitHandler.Remove | packages/js-drive/lib/merkDb/MerkDbStore.js:74-83 | so does a deletion |
| CommitHandling.CommitHandler.AbortBlock | packages/js-drive/lib/blockExecution/BlockExecutionStoreTransactions.js:91-103 | aborting drops the changes of the running block only |
| CommitHandling.CommitHandler.HandleCommit | packages/js-drive/lib/abci/handlers/commitHandlerFactory.js:107-187 | in every state that any such calls reach, a commit of a started block leaves the previous stores with exactly what the main stores held before it, the main stores with the view of the block, and its clone waiting; without a started block nothing happens |
| BlockMaps.LedgerRefinesMaps | packages/js-drive/lib/abci/handlers/commitHandlerFactory.js:107-187 | what start, write, deletion, abort and commit do to the ledger of the handler is what they do to plain maps; a commit leaves the maps before it to the previous stores |
| ContractCache.ContractRepository.FetchDataContract | packages/js-drive/lib/dpp/CachedStateRepositoryDecorator.js:87-103 | the cached answer or the committed contract, which is then cached |
| ContractCache.ContractRepository.FindContractForQuery | packages/js-drive/lib/document/fetchDocumentsFactory.js:42-56 | the second reader of the same cache: unknown contracts fail, found ones are cached |
| ContractCache.ContractRepository.StoreDataContract | packages/js-drive/lib/dpp/DriveStateRepository.js:161-165 | contracts go to the block transaction and not to the cache |
| ContractCache.ContractRepository.CreateDataContract | packages/js-dpp/lib/dataContract/stateTransition/DataContractCreateTransition/validation/state/validateDataContractCreateTransitionStateFactory.js:16-32 | a creation is rejected exactly when the fetch finds a contract, else stored in the block transaction |
| ContractCache.FetchIsTwoEvents | packages/js-drive/lib/dpp/CachedStateRepositoryDecorator.js:96-100 | a fetch is the two read events of the run model with nothing in between |
| ContractCache.CacheIsCoherent | packages/js-drive/lib/dpp/CachedStateRepositoryDecorator.js:87-113 | over any run, with suspended readers and evictions, the cached fetch answers what the uncached one would, and nothing of a running or aborted block is cached |
| ContractCache.CommittedStays | packages/js-dpp/lib/dataContract/stateTransition/DataContractCreateTransition/validation/state/validateDataContractCreateTransitionStateFactory.js:16-32 | over any run no step rewrites or removes a committed contract: the check before a creation is enough |
| ContractCache.CacheRefinesPlain | packages/js-drive/lib/dpp/CachedStateRepositoryDecorator.js:87-113 | over any run the cached repository is the one without a cache: the same creations pass, the same contracts are committed, every fetch answers by them |
| ContractCache.CreatedIsFetched | packages/js-drive/lib/dpp/DriveStateRepository.js:161-165 | a contract that passes its check is fetched once the block is committed, not before, and not after an abort |
| ContractCache.CommitCoherentIff | packages/js-drive/lib/dpp/CachedStateRepositoryDecorator.js:87-103 | a commit from any coherent state keeps the cache coherent if and only if it rewrites no contract that is cached or about to be |
| DataTriggers.MatchingMembers | packages/js-dpp/lib/dataTrigger/getDataTriggersFactory.js:148-156 | the filter keeps exactly the matching entries |
| DataTriggers.ReplaceAndDeleteRejected | packages/js-dpp/lib/dataTrigger/getDataTriggersFactory.js:47-135 | replacing or deleting a domain, preorder, contact request or flag meets the rejecting trigger |
| DataTriggers.CreationChecks | packages/js-dpp/lib/dataTrigger/getDataTriggersFactory.js:47-135 | which check a creation can meet; none for preorders |
| DataTriggers.CreationIsChecked | packages/js-dpp/lib/dataTrigger/getDataTriggersFactory.js:47-135 | creating a domain or a flag does meet its check |
| DataTriggers.TriggersAre | packages/js-dpp/lib/dataTrigger/getDataTriggersFactory.js:47-156 | for any contract, document type and action, exactly these checks run and no others |
| Dpns.CreateDomainDataTrigger | packages/js-dpp/lib/dataTrigger/dpnsTriggers/createDomainDataTrigger.js:27-190 | the errors are exactly the violated conditions, in the order of the checks, a missing parent ending them; none if and only if the domain is admissible |
| Dpns.PassesIff | packages/js-dpp/lib/dataTrigger/getDataTriggersFactory.js:47-78 | what passes all triggers: creations of preorders and of admissible domains, nothing else |
| Dpns.RunsAreSound | packages/js-dpp/lib/dataTrigger/dpnsTriggers/createDomainDataTrigger.js:29-188 | in every reachable registry each domain matches the schema and still satisfies what admitted it, preorder and length included |
| Dpns.RegistryGrows | packages/js-dpp/lib/dataTrigger/getDataTriggersFactory.js:54-78 | no submission takes a name away or changes it |
| Dpns.OwnershipOverRuns | packages/js-dpp/lib/dataTrigger/dpnsTriggers/createDomainDataTrigger.js:103-161 | in every reachable registry the chain of parents of a domain is registered without a gap and ends in a top-level domain of the top-level identity; everything below allows no subdomains and has one owner |
| Dpns.ParentNameIff | packages/js-dpp/lib/dataTrigger/dpnsTriggers/createDomainDataTrigger.js:104-118 | for any parent name at all, the parent found carries it if and only if it is not one label and a dot |
| Dpns.ParentIsNamed | packages/dpns-contract/schema/dpns-contract-documents.json:47-54 | the parent found for a domain that matches the schema carries exactly the parent name asked for |
| Dpns.ChainNames | packages/js-dpp/lib/dataTrigger/dpnsTriggers/createDomainDataTrigger.js:103-118 | the chain of a domain runs through the names its full name ends with |
| Dpns.NamesAreLabels | packages/dpns-contract/schema/dpns-contract-documents.json:40-54 | every part of every registered full name is a normalized label, although the pattern of parent names alone also admits empty parts, single characters, hyphens at the ends and a bracket |
| Dpns.FullNameIdentifies | packages/dpns-contract/schema/dpns-contract-documents.json:4-15 | in every reachable registry the full name identifies the domain, although the unique index is on parent name and label |
| Dpns.NameOwnership | packages/js-dpp/lib/dataTrigger/dpnsTriggers/createDomainDataTrigger.js:148-160 | a registered name ending in another registered non-top-level name has the same owner |
| Registration.PreorderBindsName | packages/js-dpp/lib/dataTrigger/dpnsTriggers/createDomainDataTrigger.js:163-188 | without collisions a preorder admits one salt and one name: two domains admitted by the same single preorder agree in both |
| Registration.PreorderIsSaltAndName | packages/js-dpp/lib/dataTrigger/dpnsTriggers/createDomainDataTrigger.js:163-168 | with the identity for the hash, the preorder of an admitted domain is its salt followed by its encoded full name, and without it the domain is not admitted |
| Registration.PreordersAreDistinct | packages/js-dpp/lib/dataTrigger/dpnsTriggers/createDomainDataTrigger.js:163-188 | in every reachable registry each name has a preorder of its own |
| Registration.SubmissionRegisters | packages/js-dpp/lib/dataTrigger/getDataTriggersFactory.js:54-78 | an accepted submission registers exactly the preorders and domains it creates, any other changes nothing |
| Registration.RegisteredMeans | packages/js-dpp/lib/dataTrigger/dpnsTriggers/createDomainDataTrigger.js:27-190 | in every reachable registry: the owner of each domain may have it, by length, label, records and parent, and it was preordered by its salted name |
| Registration.FreeNameCanBeHad | packages/js-dpp/lib/dataTrigger/dpnsTriggers/createDomainDataTrigger.js:27-190 | the other way round: in every reachable registry a free name that its owner may have is registered by a preorder and a creation |
| Registration.LabelIff | packages/dpns-contract/schema/dpns-contract-documents.json:33-46 | the two label patterns are one up to case: a label is what gives a normalized label in lower case, from three characters on |
| Registration.NamesMayBeParents | packages/dpns-contract/schema/dpns-contract-documents.json:47-54 | every name made of normalized labels that is short enough matches the pattern of parent names |
| FeatureFlags.CreateFeatureFlagDataTrigger | packages/js-dpp/lib/dataTrigger/featureFlagsDataTriggers/createFeatureFlagDataTrigger.js:12-48 | which error is reported when; none if and only if the flag is ahead and the owner is the top-level identity |
| FeatureFlags.Query | packages/js-drive/lib/featureFlag/getLatestFeatureFlagFactory.js:31-48 | the flag with the greatest height up to the given one, or none |
| FeatureFlags.LatestFlagIff | packages/js-drive/lib/featureFlag/getLatestFeatureFlagFactory.js:22-49 | for any flag type: the flag of that type with the greatest height up to the given one, once the contract exists; none otherwise |
| FeatureFlags.AcceptedIff | packages/js-dpp/lib/dataTrigger/featureFlagsDataTriggers/createFeatureFlagDataTrigger.js:12-48 | what is accepted: in a running block the creation of a new flag of a known type that is not behind the block, by the top-level identity |
| FeatureFlags.AcceptedIsInForce | packages/js-drive/lib/featureFlag/getLatestFeatureFlagFactory.js:22-49 | an accepted flag is in force at its height, inside the block at once, outside after the commit, not after an abort |
| FeatureFlags.AcceptedCreatesAhead | packages/js-dpp/lib/dataTrigger/getDataTriggersFactory.js:97-134 | whatever is accepted is a creation at or after the current height |
| FeatureFlags.HistoryIsStable | packages/js-drive/lib/featureFlag/getLatestFeatureFlagFactory.js:22-49 | once the block height has passed H the answer at H is the same in every later reachable state, for readers inside and outside the block |
| FeatureFlags.CurrentHeightCanChange | packages/js-drive/lib/featureFlag/getLatestFeatureFlagFactory.js:22-49 | the bound is tight: at the current height the answer can change |
| TransactionFilter.BloomFilter.FilterContainsScript | packages/dapi/lib/transactionsFilter/testTransactionAgainstFilter.js:22-36 | some chunk with data is in the filter |
| TransactionFilter.BloomFilter.CheckOutputs | packages/dapi/lib/transactionsFilter/testTransactionAgainstFilter.js:43-67 | some output matches; only the first one found may insert its outpoint |
| TransactionFilter.BloomFilter.CheckInputs | packages/dapi/lib/transactionsFilter/testTransactionAgainstFilter.js:74-89 | some input spends a followed outpoint or has a matching script |
| TransactionFilter.BloomFilter.TestTransactionAgainstFilter | packages/dapi/lib/transactionsFilter/testTransactionAgainstFilter.js:110-114 | the verdict and the filter afterwards, hash before outputs before inputs |
| TransactionFilter.MatchingIsMonotone | packages/dapi/lib/transactionsFilter/testTransactionAgainstFilter.js:110-114 | what matches a filter matches every larger one |
| TransactionFilter.FilterGrows | packages/dapi/lib/transactionsFilter/testTransactionAgainstFilter.js:43-67 | over any tests the filter only grows |
| TransactionFilter.OnceMatchedAlwaysMatches | packages/dapi/lib/transactionsFilter/testTransactionAgainstFilter.js:110-114 | a transaction that matched once matches after any further tests |
| TransactionFilter.SpendingIsFollowed | packages/dapi/lib/transactionsFilter/testTransactionAgainstFilter.js:56-63 | once an outpoint was inserted, every later transaction spending it matches |
| TransactionFilter.OutputIsFollowedIff | packages/dapi/lib/transactionsFilter/testTransactionAgainstFilter.js:48-64 | an outpoint is followed after a test if and only if its bits were set before or are set together with those of the first matching output, inserted when the hash did not match and the flags say so |
| TransactionFilter.AllAreFollowedIff | packages/dapi/lib/transactionsFilter/testTransactionAgainstFilter.js:48-64 | exactly when all matching outputs that the flags want followed are followed |
| TransactionFilter.SecondOutputIsNotFollowed | packages/dapi/lib/transactionsFilter/testTransactionAgainstFilter.js:48-64 | a transaction with two outputs to a watched key, of which the second is not followed |
| TransactionFilter.OnlyFirstIsFollowed | packages/dapi/lib/transactionsFilter/testTransactionAgainstFilter.js:48-64 | an outpoint with a bit of its own is not followed unless it is the first match, and no new one is when the hash matched |
| FilterElements.MatchesIff | packages/dapi/lib/transactionsFilter/testTransactionAgainstFilter.js:8-114 | a transaction matches if and only if all bits of one of its elements are set: its hash, a push in an output, a spent outpoint with its index in four bytes, or a push in an input |
| FilterElements.TestAddsIff | packages/dapi/lib/transactionsFilter/testTransactionAgainstFilter.js:48-64 | the filter after a test, by flag: the outpoint of the first matching output under flag 1, under flag 2 if it is a public key or multisig output, nothing if the hash matched |
| FilterElements.NoFlagNoGrowth | packages/dapi/lib/transactionsFilter/testTransactionAgainstFilter.js:51-61 | under any other flag no test changes the filter |
| TransactionCache.TransactionHashesCache.AddTransaction | packages/dapi/lib/transactionsFilter/TransactionHashesCache.js:38-55 | the cache afterwards; true exactly for a new hash |
| TransactionCache.TransactionHashesCache.AddBlock | packages/dapi/lib/transactionsFilter/TransactionHashesCache.js:64-132 | expiry, matching, Merkle block, push and eviction |
| TransactionCache.TransactionHashesCache.ExpireHashes | packages/dapi/lib/transactionsFilter/TransactionHashesCache.js:66-76 | exactly the hashes registered more than ten blocks ago go |
| TransactionCache.TransactionHashesCache.RemoveDataByBlockHash | packages/dapi/lib/transactionsFilter/TransactionHashesCache.js:145-151 | the data of the first cached block of that hash goes, if there is one |
| TransactionCache.TransactionHashesCache.RemoveDataByBlock | packages/dapi/lib/transactionsFilter/TransactionHashesCache.js:160-189 | all transactions of the block, the last Merkle block and the last block of its hash go |
| TransactionCache.TransactionHashesCache.GetUnretrievedTransactions | packages/dapi/lib/transactionsFilter/TransactionHashesCache.js:205-216 | exactly the unmarked transactions are handed out, and all are marked |
| TransactionCache.TransactionHashesCache.GetUnretrievedMerkleBlocks | packages/dapi/lib/transactionsFilter/TransactionHashesCache.js:223-234 | exactly the unmarked Merkle blocks are handed out, and all are marked |
| TransactionCache.TransactionHashesCache.AddInstantLock | packages/dapi/lib/transactionsFilter/TransactionHashesCache.js:240-242 | the lock is added, or replaces one of the same transaction in place |
| TransactionCache.TransactionHashesCache.GetUnretrievedInstantLocks | packages/dapi/lib/transactionsFilter/TransactionHashesCache.js:248-254 | the collected locks are handed out and forgotten |
| CacheRuns.AddingKeepsAlignedIff | packages/dapi/lib/transactionsFilter/TransactionHashesCache.js:118-131 | adding a block keeps blocks and Merkle blocks in step if and only if it evicts no block whose hash another one shares |
| CacheRuns.RunAlignedIff | packages/dapi/lib/transactionsFilter/TransactionHashesCache.js:118-189 | over any run: blocks and Merkle blocks match position by position all the time if and only if no block is evicted whose hash another one shares |
| CacheRuns.DuplicateBlockMisaligns | packages/dapi/lib/transactionsFilter/TransactionHashesCache.js:118-131 | a run from the empty cache that ends out of step: ten blocks, each with an added transaction of its own, the first of them arriving twice |
| CacheRuns.RemovalKeepsBackedIff | packages/dapi/lib/transactionsFilter/TransactionHashesCache.js:160-189 | removing a block leaves all flagged transactions cached if and only if no remaining Merkle block flags one of its transactions |
| CacheRuns.RunBackedIff | packages/dapi/lib/transactionsFilter/TransactionHashesCache.js:78-189 | over any run: every cached Merkle block flags a transaction, and only cached ones, all the time if and only if no removal takes a flagged transaction |
| CacheRuns.RunBounded | packages/dapi/lib/transactionsFilter/TransactionHashesCache.js:38-189 | over any run cached transactions are distinct and at most ten blocks are cached |
| CacheRuns.RunInStep | packages/dapi/lib/transactionsFilter/TransactionHashesCache.js:38-189 | while arriving blocks share neither hash nor transactions with the cached ones, all of this holds over the whole run |
| CacheDelivery.AddedMerkleBlock | packages/dapi/lib/transactionsFilter/TransactionHashesCache.js:78-122 | the Merkle block of a new block flags exactly its cached transactions, unless a block of the same hash is evicted for it |
| CacheDelivery.RunInWindow | packages/dapi/lib/transactionsFilter/TransactionHashesCache.js:64-76 | every waiting hash is at most ten blocks old |
| CacheDelivery.WaitsTenBlocks | packages/dapi/lib/transactionsFilter/TransactionHashesCache.js:64-76 | over any run without a lock for it, a waiting hash keeps its place exactly as long as it is at most ten blocks old, however often its transaction arrives; if it waits later, it was registered anew after those ten blocks |
| CacheDelivery.JustAddedWaitsTenBlocks | packages/dapi/lib/transactionsFilter/TransactionHashesCache.js:38-76 | a transaction just added waits through exactly the next ten blocks; after them its hash waits only if it was added again |
| CacheDelivery.TransactionDeliveredOnce | packages/dapi/lib/transactionsFilter/TransactionHashesCache.js:205-216 | during one stay a transaction is handed out at most once, and by the next retrieval: deliveries plus pending are conserved |
| CacheDelivery.MerkleBlockDeliveredOnce | packages/dapi/lib/transactionsFilter/TransactionHashesCache.js:223-234 | the same for a Merkle block, as long as no second block of its hash arrives, whatever other blocks do |
| TransactionStream.Subscription.OnTransaction | packages/dapi/lib/transactionsFilter/subscribeToNewTransactions.js:28-32 | a matching transaction enters the cache and the filter may grow |
| TransactionStream.Subscription.OnBlock | packages/dapi/lib/transactionsFilter/subscribeToNewTransactions.js:35-44 | with no cached block all its transactions are tested first; then it is added |
| TransactionStream.Subscription.OnInstantLock | packages/dapi/lib/transactionsFilter/subscribeToNewTransactions.js:48-80 | before the mempool data is sent locks are collected by filter, afterwards sent by waiting list |
| TransactionStream.Subscription.OnHistoricalBlockSent | packages/dapi/lib/transactionsFilter/subscribeToNewTransactions.js:61-63 | the data of that block is removed; the transactions that the client got with it before count as sent |
| TransactionStream.Subscription.OnMempoolDataSent | packages/dapi/lib/transactionsFilter/subscribeToNewTransactions.js:66-86 | the listener is switched and the first turn of the loop runs |
| TransactionStream.Subscription.OnTick | packages/dapi/lib/transactionsFilter/subscribeToNewTransactions.js:85-104 | one turn: transactions, then waiting locks, then Merkle blocks |
| TransactionStream.Subscription.OnClientDisconnected | packages/dapi/lib/transactionsFilter/subscribeToNewTransactions.js:110-117 | nothing is reacted to afterwards |
| TransactionStream.StreamMatches | packages/dapi/lib/transactionsFilter/subscribeToNewTransactions.js:28-105 | over any run at all everything cached or sent matches the filter, and every waiting hash is at most ten blocks old |
| StreamArrival.BlockIsTested | packages/dapi/lib/transactionsFilter/subscribeToNewTransactions.js:35-44 | a block that arrives while none is cached: exactly those of its transactions that match in their turn are cached on top, and it is cached with a Merkle block that flags exactly its cached transactions if it has one |
| StreamArrival.LaterBlockIsNotTested | packages/dapi/lib/transactionsFilter/subscribeToNewTransactions.js:35-44 | while a block is cached the transactions of another are not tested: filter and transactions stay, and it is cached with its Merkle block if it has a cached transaction |
| StreamArrival.TransactionIsTested | packages/dapi/lib/transactionsFilter/subscribeToNewTransactions.js:28-32 | a transaction that matches is cached and waits for its lock, as one still to be sent if its hash is new; one that does not changes nothing |
| StreamArrival.TurnSendsAll | packages/dapi/lib/transactionsFilter/subscribeToNewTransactions.js:85-101 | a turn of the loop sends every transaction, Merkle block and collected lock that waits, and leaves nothing to send |
| StreamArrival.CachedWereSent | packages/dapi/lib/transactionsFilter/subscribeToNewTransactions.js:85-101 | after a turn in any reachable state the client has every cached transaction |
| StreamArrival.SetLockHolds | packages/dapi/lib/transactionsFilter/TransactionHashesCache.js:240-242 | collecting a lock keeps the others in order, and of its transaction the latest |
| StreamArrival.LockIsTaken | packages/dapi/lib/transactionsFilter/subscribeToNewTransactions.js:48-80 | a lock is collected if its transaction matches before the mempool data is sent, afterwards sent at once if its hash waits, which then no longer does |
| StreamArrival.HistoricalBlockIsDropped | packages/dapi/lib/transactionsFilter/subscribeToNewTransactions.js:61-63 | after a historical block was sent its transactions are gone and all others stay as they were; the last Merkle block and the last block of its hash are gone |
| StreamArrival.DisconnectedForGood | packages/dapi/lib/transactionsFilter/subscribeToNewTransactions.js:110-117 | once the client is gone no further events change anything |
| StreamOrder.TurnOrderedIff | packages/dapi/lib/transactionsFilter/subscribeToNewTransactions.js:85-104 | one turn of the loop keeps the order of transactions and Merkle blocks if and only if every Merkle block still to be sent flags only what is cached or was sent |
| StreamOrder.StreamIsCompleteIff | packages/dapi/lib/transactionsFilter/subscribeToNewTransactions.js:28-105 | over any run at all: whenever the loop sends a Merkle block the client has all transactions it flags, from the loop or with a historical block, if and only if before each turn every Merkle block still to be sent flags only what is cached or was sent |
| StreamOrder.ReactReadyIff | packages/dapi/lib/transactionsFilter/subscribeToNewTransactions.js:28-105 | this survives an event if and only if the block removed by it, should there be one, takes no unsent transaction that a Merkle block still to be sent flags |
| StreamOrder.HistoricalBlockSpares | packages/dapi/lib/grpcServer/handlers/tx-filter-stream/subscribeToTransactionsWithProofsHandlerFactory.js:222-235 | it survives a historical block that was sent with all cached transactions of the block removed for it |
| StreamOrder.StreamIsComplete | packages/dapi/lib/transactionsFilter/subscribeToNewTransactions.js:28-105 | over any run: it holds all the time if and only if no removal takes such a transaction, and then the order is kept |
| StreamOrder.FreshBlocksAreComplete | packages/dapi/lib/transactionsFilter/subscribeToNewTransactions.js:28-105 | it holds all the time, and the order is kept, while arriving blocks share neither hash nor transactions with the cached ones |
| StreamEviction.EvictionLosesTransaction | packages/dapi/lib/transactionsFilter/TransactionHashesCache.js:118-131 | eleven matching blocks arrive before the mempool data is sent, the first two with a transaction in common: the first is evicted, the Merkle block of the second goes out, and the transaction it flags does not |
| StreamDelivery.SentOncePerStay | packages/dapi/lib/transactionsFilter/subscribeToNewTransactions.js:85-104 | in any reachable state: during one stay in the cache a transaction is sent at most once, and by the next turn of the loop if it was not sent before |
| StreamDelivery.StreamIsBounded | packages/dapi/lib/transactionsFilter/subscribeToNewTransactions.js:28-105 | in every reachable state cached transactions are distinct and at most ten blocks are cached |
| StreamDelivery.MerkleBlockSentPerArrival | packages/dapi/lib/transactionsFilter/subscribeToNewTransactions.js:99-101 | over any run, the Merkle blocks of one hash that were sent or are still pending are at most as many as the blocks of that hash that arrived |
| StreamDelivery.MerkleBlockSentOncePerStay | packages/dapi/lib/transactionsFilter/subscribeToNewTransactions.js:99-101 | during one stay in the cache a Merkle block is sent at most once, and by the next turn of the loop if it was not sent before |
| StreamDelivery.LocksSentPerRegistration | packages/dapi/lib/transactionsFilter/subscribeToNewTransactions.js:48-97 | over any run, the locks sent for a hash are at most as many as the times it entered the waiting list, and at most one more: the one collected before the mempool data |
| StreamDelivery.LockSentOnceIff | packages/dapi/lib/transactionsFilter/subscribeToNewTransactions.js:71-97 | from any reachable state on, the locks sent for a hash are the collected one, at most one and none once the mempool data was sent, and those that arrive while it waits, at most one for each time it does; so until it enters the waiting list again at most one is sent if and only if no collected lock is sent or none arrives in time, and none if it does not wait |
| StreamDelivery.CollectedLockIsSentTwice | packages/dapi/lib/transactionsFilter/subscribeToNewTransactions.js:92-97 | a run in which the same lock is sent twice: collected, sent in the first turn, and arriving once more |
| TransactionStream.LocksAreRecent | packages/dapi/lib/transactionsFilter/subscribeToNewTransactions.js:71-97 | every lock sent is for a waiting hash registered at most ten blocks ago; a disconnected client gets nothing |
| TransactionStream.LocksAreRecentOverRuns | packages/dapi/lib/transactionsFilter/subscribeToNewTransactions.js:71-97 | the same in every state that any run can reach |
| MasternodeList.SimplifiedMasternodeList.ApplyDiffs | packages/js-drive/lib/core/SimplifiedMasternodeList.js:17-27 | the diffs are appended, or start the list |
| MasternodeList.SimplifiedMasternodeList.Reset | packages/js-drive/lib/core/SimplifiedMasternodeList.js:42-44 | the list is emptied |
| MasternodeList.Updater.FetchDiffsPerBlock | packages/js-drive/lib/core/updateSimplifiedMasternodeListFactory.js:31-43 | one request per block; all diffs, or nothing at the first failure |
| MasternodeList.Updater.UpdateSimplifiedMasternodeList | packages/js-drive/lib/core/updateSimplifiedMasternodeListFactory.js:55-100 | list and height afterwards for every pattern of failing requests, the outcome, and a bound on the requests |
| MasternodeList.UpdateKeepsChain | packages/js-drive/lib/core/updateSimplifiedMasternodeListFactory.js:55-100 | a call keeps an empty list at height 1 or one gapless chain ending in at least the limit of single-block diffs; success reaches the maximum of the heights with at most limit + 1 requests |
| MasternodeList.UpdateOutcome | packages/js-drive/lib/core/updateSimplifiedMasternodeListFactory.js:55-100 | what a call does to the list, for every pattern of failing requests: it stays, is emptied, or gains one diff per block, after one diff up to the limit when it starts over |
| MasternodeList.RunKeepsChain | packages/js-drive/lib/core/updateSimplifiedMasternodeListFactory.js:24-100 | so after any sequence of calls, whichever requests fail |
| Quorums.SortByScore | packages/js-drive/lib/core/getRandomQuorum.js:46 | the stable sort by score, in place |
| Quorums.GetRandomQuorum | packages/js-drive/lib/core/getRandomQuorum.js:34-51 | the quorum of the first sorted hash, or the error for an empty list |
| Quorums.ChoiceIsLeast | packages/js-drive/lib/core/getRandomQuorum.js:34-51 | the choice is a member of the list, and no quorum of the list has a hash with the entropy that precedes its own in the order of unsigned bytes |
| ByteOrder.LessIff | packages/js-drive/lib/core/getRandomQuorum.js:46-46 | the order of byte buffers: at the first difference the lower byte, from 0 to 255, comes first, and a proper prefix before what goes on |
| Quorums.OrderDoesNotMatterIff | packages/js-drive/lib/core/getRandomQuorum.js:34-51 | every order of the list yields the same quorum if and only if one quorum alone has the least score |
| Quorums.TieDependsOnOrder | packages/js-drive/lib/core/getRandomQuorum.js:34-51 | of two quorums with the same score the first is chosen |
| Quorums.DistinctScoresAreEnough | packages/js-drive/lib/core/getRandomQuorum.js:34-51 | with distinct scores the choice does not depend on the order |
| StoreProof.GetStoreProofData | packages/platform-test-suite/lib/parseStoreTreeProof.js:3-61 | the loop with its cursor computes the outcome of reading the operations one after another, errors included |
| StoreProof.ReadInvertsEncode | packages/platform-test-suite/lib/parseStoreTreeProof.js:11-56 | encoded operations within the size limits are read back in order with no byte left, wherever the cursor stands |
| StoreProof.ParserInvertsEncoder | packages/platform-test-suite/lib/parseStoreTreeProof.js:3-61 | the parser as a whole inverts the encoder |
| StoreProof.BytesOfEachKind | packages/platform-test-suite/lib/parseStoreTreeProof.js:3-61 | a proof of one operation of each kind spelled out in bytes, tags, lengths and order, and what is read from it |
| StoreProof.ReadToTheEndIff | packages/platform-test-suite/lib/parseStoreTreeProof.js:11-48 | a buffer is read to its very end if and only if it is an encoding |
| StoreProof.AcceptedIff | packages/platform-test-suite/lib/parseStoreTreeProof.js:11-51 | a buffer is accepted if and only if it is an encoding, whole or cut off within the hash or the value of its last operation |
| StoreProof.MissingHashIsAccepted | packages/platform-test-suite/lib/parseStoreTreeProof.js:16-20 | a tag without its hash is accepted as an empty hash |
| StoreProof.CutKeyIsRejected | packages/platform-test-suite/lib/parseStoreTreeProof.js:28-35 | a cut within a key or before its length is rejected |
| StoreProof.CollectJoins | packages/platform-test-suite/lib/parseStoreTreeProof.js:5-8 | the lists follow the order of the operations and later values of a key win |
| StoreProof.LastValueWins | packages/platform-test-suite/lib/parseStoreTreeProof.js:45-46 | the key map holds exactly the keys read, each with its last value |
| Schema.PropertiesAgree | packages/js-dpp/lib/dataContract/getBinaryPropertiesFromSchema.js:9-92 | under any prefix the flat map and the lookup, whatever names objects inherit, agree on every path free of brackets |
| Schema.InheritedAnswers | packages/js-dpp/lib/dataContract/getPropertyDefinitionByPathFactory.js:14-49 | inherited names change the lookup for exactly the paths that end at one: it finds a definition without keywords where the schema has nothing |
| Schema.BracketsAreNotFound | packages/js-dpp/lib/dataContract/getPropertyDefinitionByPathFactory.js:14-49 | no definition of the schema is found under a path with a bracket |
| Schema.MapAgreesWithLookup | packages/js-dpp/lib/dataContract/getBinaryPropertiesFromSchema.js:9-107 | for clean schemas, every path and any inherited names: the lookup finds a binary definition exactly where the map has an entry free of brackets, and it is that entry |
| SchemaPaths.LookupWalks | packages/js-dpp/lib/dataContract/getPropertyDefinitionByPathFactory.js:14-49 | the lookup of a path is the walk along its names, through objects and arrays of objects, for all definitions; it throws where the walk would enter an array without `items` |
| SchemaPaths.ItemsAgree | packages/js-dpp/lib/dataContract/getBinaryPropertiesFromSchema.js:9-92 | for a list of items the map has, under the path with the index of an item in brackets, what the lookup finds in that item |
| SchemaPaths.OnlyItems | packages/js-dpp/lib/dataContract/getBinaryPropertiesFromSchema.js:9-92 | every key for a list of items names the index of one of them |
| IndexValidation.CheckProperty | packages/js-dpp/lib/dataContract/validation/validateDataContractFactory.js:185-248 | the errors of one indexed property, and when the check throws |
| IndexValidation.FindDefinitions | packages/js-dpp/lib/dataContract/validation/validateDataContractFactory.js:152-177 | undefined properties are reported in order; a lookup may throw |
| IndexValidation.CheckCompound | packages/js-dpp/lib/dataContract/validation/validateDataContractFactory.js:251-264 | an error exactly for more than one property, neither all nor none of them required |
| IndexValidation.ValidateIndices | packages/js-dpp/lib/dataContract/validation/validateDataContractFactory.js:117-278 | the loop with its counter, flag and fingerprints reports exactly the faults stated index by index |
| IndexValidation.SilentUpToInherited | packages/js-dpp/lib/dataContract/validation/validateDataContractFactory.js:120-278 | nothing is reported or thrown if and only if all rules hold, inherited names exempt |
| IndexValidation.ValidatorIsExact | packages/js-dpp/lib/dataContract/validation/validateDataContractFactory.js:120-278 | as long as no index asks for an inherited name, nothing is reported or thrown if and only if all rules hold; when one does they do not hold, and yet nothing is reported exactly when everything else is in order |
| IndexValidation.InheritedIsAccepted | packages/js-dpp/lib/dataContract/validation/validateDataContractFactory.js:152-249 | an index on an inherited name alone is accepted |
| IndexValidation.ConstructorIsAccepted | packages/js-dpp/lib/dataContract/validation/validateDataContractFactory.js:152-249 | an index on `constructor` is accepted for a document type whose only property is `label` |
| IndexValidation.LimitIsReportedOnce | packages/js-dpp/lib/dataContract/validation/validateDataContractFactory.js:124-135 | the limit of unique indices is reported once exactly when more than three are unique |
| IndexValidation.EarlyReturnKeepsVerdict | packages/js-dpp/lib/dataContract/validation/validateDataContractFactory.js:179-182 | going on after undefined properties would give the same verdict |
| IndexFaults.FaultIff | packages/js-dpp/lib/dataContract/validation/validateDataContractFactory.js:117-278 | which fault is reported, exactly: each kind by the name, definition or index it lies in |
| IndexValidation.ValidateContract | packages/js-dpp/lib/dataContract/validation/validateDataContractFactory.js:111-280 | the section adds no error and does not throw if and only if every document type with indices obeys all rules, inherited names exempt; without exemption as long as no index asks for one |
| IndexFaults.ContractErrorIff | packages/js-dpp/lib/dataContract/validation/validateDataContractFactory.js:111-280 | the errors of a contract are the faults of its document types, each under the name of its type |

## Left out

Weaker than the source, on purpose:

- AbciConnection.RunKeeps: after a prefix whose 32-bit value is negative the
  model stands still in the state `Unmodelled`, where the source goes on slicing;
  `StaysModelled` says for which bytes this cannot happen, and
  `DispatchFollowsBytes` and `ChunkingIndependence` speak of the source for those.
  The varint library is not part of the repository and is modelled from the
  Protocol Buffers Encoding specification, without the rounding of values above
  2^53.
- AbciConnection.ResponsesFollowRequests: speaks of responses of 1 to
  MAX_MESSAGE_SIZE bytes; `Framing.FrameRoundTrip` shows that no other size can be
  read back.
- BlockReplay.ReplicaReplays: any number of waiting clones over values; the
  objects of `CommitHandling.CommitHandler` have at most one, as the handler does.
- CommitHandling.CommitHandler.constructor: that the previous stores start with
  what the main stores hold is assumed.
- CommitHandling.CommitHandler.HandleCommit: the clone is made and both blocks are
  committed, in the handler's order, and the index accepts the commit; what a
  refusal does to the block is `BlockExecution.RefusedCommitWedges`. The document
  databases, fees, contexts and root trees of the handler are not modelled.
- BlockMaps.BlockRefinesMaps: up to the first refused commit, as is
  `ReplicaRefinesJournal`; what follows it is `BlockExecution.RefusedCommitWedges`
  and `BlockReplay.RunFollows`.
- ConnectionFlow.BadRequestsDestroy: for handlers and writes that do not fail; what
  each failure does is `InFlightEnds`.
- BlockExecution.FlagMatchesOverRuns: the refusal of the document index is the
  only failure of a started store's commit; failing disk writes are not modelled.
- MerkDb.Merk.CommitBatch: every deletion of a batch is applied; the integration
  tests of the store note that Merk does not delete its last key.
- MerkDb.MerkDbStore.Get: the base words the error for a missing key in one of the
  two ways that the code knows.
- Documents.IndexStaysInStore: document writes outside a transaction while one
  is open follow one client's view, not MongoDB's snapshots.
- Documents.DocumentIndexedStoreRepository.Store: neither write fails halfway.
- Documents.DocumentIndexedStoreRepository.Delete: the deletion from the store
  fails only for keys that the base lacks.
- Documents.MongoDBTransaction.Commit: retries after an unknown commit result are
  folded into its final answer.
- ContractCache.CacheIsCoherent: writes of contracts outside a block transaction
  are specified by the method but are no event of the runs, and a creation is
  checked and applied before the next request of its connection.
- Dpns.RunsAreSound: a submission is one owner's batch of DPNS documents; the
  unique index on names is assumed as its acceptance states it, and the one on
  `dashUniqueIdentityId` is not modelled. Of the schema the patterns, lengths and
  the one identity record are modelled; `allowSubdomains` is a boolean by its type.
- TransactionFilter.BloomFilter.CheckOutputs: outputs always have a script; a
  missing one would throw.
- TransactionFilter.BloomFilter.TestTransactionAgainstFilter: the filter is a set
  of bits; the special cases of an empty and of a full filter in the library are
  not modelled.
- StreamDelivery.MerkleBlockSentPerArrival: like `SentOncePerStay` it counts what
  the loop sends; of the historical sender only the transactions are known that it
  sent with a block.
- MasternodeList.RunKeepsChain: calls are serialised; the diffs are known by
  their two heights.
- Quorums.GetRandomQuorum: the lookup of the list returns the first quorum of a
  hash; sorting is stable, as in the language since 2019.
- Schema.MapAgreesWithLookup: clean names are those the contract schema admits:
  not empty, without dots and brackets, not twice in one object.
- IndexValidation.CheckProperty: a `type` may be a list; two equal lists in
  `prefixItems` are different objects for `===` and count as unequal in the source,
  as equal here.
- IndexValidation.ValidateIndices: the fingerprint of an index is its list of
  properties, which its JSON text determines.

Not modelled at all:

- sockets, gRPC, ZMQ, JSON-RPC, MongoDB's query evaluation, LevelDB and files
- CBOR, Ajv, RE2, protobuf bodies, the Merk tree and its root hashes, the Merkle
  block builder, `SimplifiedMNListStore`, and the eviction policy of the LRU cache,
  which evicts at any time here
- the index contents of the previous document stores, which the clone does not
  carry over
- the other ABCI handlers, `executeDataTriggers`, the contact request trigger, the
  JSON schema part of the contract validation, identities and asset locks
- dashmate, the SDK, the wallet helpers, logging, error classes, getters and
  transport retries, which would add only easy members
