# Common operation and management services: a verified model

This project models the stateful services of a management framework and proves what they promise, over
every run, for any number of parties and any answers those parties give:

- a **transaction master** that drives a two-phase commit over validators and participants, with explicit
  prepare, per-participant contexts and an idle timer;
- the **managed-object store** the participants keep: a tree of MOs read and written inside transactions
  under two lock policies, kept as one overlay per open transaction over the committed tree;
- the cache's **list of deletion points**, the **event router** and the **event producer** behind it;
- the **model repository**'s default values, containment lists and DN lookup;
- **replicated lists**, **sessions** and **thread contexts**.

Most services are declared as C interface headers whose comments state the contract; where the repository also
has code (deletion points, event producer, replicated lists) the model follows the code.

Each stateful service is written twice. A value machine (`Step`, `Run`) says what one call does and carries the
theorems about all runs. A class with fields, `modifies` clauses and loops is the service as it is kept;
each of its methods is proved to take exactly one step of the machine, so the theorems hold of the class. The
deleted-objects list and the event producer have no `Step`: their methods compute the functions (`Insert`, `Remove`,
`RemoveFirst`, `LifeAfter`) that their theorems are about. The outside world (participants, validators, producers,
destructors) is an unconstrained function passed to the call, and what it was asked is kept in a ghost history that
the theorems speak about.

All lemmas turn Dafny's automatic induction off: every induction is the one the proof writes down.

| file | content |
|---|---|
| `TransactionService`, `TransactionProofs`, `TransactionLifetime`, `PreparedTransactions`, `TransactionMaster` | the coordinator: machine, protocol theorems, timer theorems, explicit prepare, class |
| `CommitDecisions`, `IdleTimeout` | codes, participants, order of calls and timeout, told from requests and answers alone |
| `ManagedObjects`, `Serializability`, `MoStore`, `TransactionalStores` | the MO tree and overlay, locks and interleavings, class, stores as commit participants |
| `StoreAnswers` | what a client of the store can rely on, told from requests and answers alone |
| `DeletionPoints`, `RememberedDeletions` | the deleted-objects list of the transaction cache; what it remembers over runs |
| `EventRouter`, `EventValues`, `RouterHistory`, `EventRouterService` | router machine with what its calls leave producers and what every run keeps; who owns the values; tables and codes by requests; router class |
| `EventProducer`, `ProducerLists`, `EventLife` | the producer's class; the filters it holds, its list of them and the life of its events, in runs of the router |
| `DefaultValues`, `ModelRepository` | encoded default values; containment lists and DN lookup |
| `ReplicatedList`, `Sessions`, `SessionHistory`, `ThreadContext` | the smaller services |

## Where the code and its promises differ

Each is stated as a lemma: an input that shows it, and the exact condition under which the promise holds.

- Deleting a DN with at least two parts that is already the topmost active deletion point makes it dormant, so
  the object is visible again (`InsertDeletesUnlessTwice`, `SecondDeleteRevives`); in a whole run every deletion adds exactly
  its subtree if and only if none is of that kind (`EveryDeletionDeletesIff`).
- Deleting a DN that is not yet on the list, neither as a point nor on the way to one, and is hidden by a deletion below
  the first level records a deletion inside another; nothing else does (`HiddenChildNests`, `DeletionsNeverNest`).
- Below a deleted first level no further deletion is recorded (`FirstLevelForgetsReached`); everywhere else a hidden deletion
  is remembered (`HiddenDeletionIsRemembered`, `RecreatedAfterRun`).
- Re-creating a deleted object shows again every committed descendant that has no deletion point of its own
  (`RecreateRevealsChildren`); the interface promises that deleted objects stay invisible.
- A producer asked to remove a filter removes the first entry of that consumer and event type, whatever its filter
  (`RemovalIsExact`). Subscribing twice to a type and removing the second leaves the producer with the wrong one
  (`SecondFilterOutlivesFirst`), and a second subscription that another producer refuses erases the first
  (`RefusedSecondFilterErasesFirst`). The list is right throughout a run if and only if removals go oldest first and no
  second subscription is taken back (`ProducerListsAgree`).
- A producer ignores the answer to notify after taking a reference for it, so an event whose notification fails inside the
  router is never freed (`FailedNotifyLeaks`, `LeakIsReached`); `EventFreedIff` is the exact condition.
- Popping a replicated list needs the newest number ever pushed to be stored still; after erasing that item, or
  clearing the list, it answers NotExist (`PopRemovesLast`, `EraseOfTheNewestBlocksPop`).
- The push limit compares a 32-bit number with `ULONG_MAX`. Where that is wider than 32 bits the number wraps to
  zero and the traversal loses all items (`PushAppends`, `PushAtTheWrapLosesAll`, and for whole runs
  `EveryPushAppendsIff`); pushing 2^32 items to a new list gets there (`WrapIsReached`).
- The two comments on message iterators pull apart (messages added later appear in the iteration, or the iterator is
  a snapshot). The model takes the snapshot.

## Assumptions where the headers are silent

- The handle of an ended transaction no longer exists. Finish is called on everyone at every ending: commit,
  failed validation, failed prepare, abort and timeout. Idle time counts from the end of the last MO call.
- Commit after explicit prepare validates first. Commit or explicit prepare without participants answers NotExist
  and changes nothing. After explicit prepare, requests other than commit and abort answer Failure, except that
  outstanding MO calls may end and registrations, contexts and the lock policy may be read, as a context is to be available
  during the whole transaction (`dependencies/com_spi/ComOamSpiTransaction_1.h:103-104`). A second registration of
  a participant answers AlreadyExist, a timeout above 86400 InvalidArgument. A validator's error counts as not passing.
- A store that takes part in a transaction installs it if it is told to commit and answers Ok, drops it if it is told to
  abort or, still having it, to finish; nobody but the coordinator ends it there.
- MO locks are exclusive, are released when the transaction ends, and are kept when the operation itself fails; a
  listing of children locks the parent and each child found. A ComLockWrite read sees the transaction's own writes over the
  last committed data. Creating an MO needs its parent to exist.
- The router rolls an offer back when a producer refuses the filter and then answers Failure; it removes the
  filters of an event type that a producer withdraws; a notification whose subscription is gone when it is dispatched
  is not delivered, but its value is returned.
- When a consumer unregisters or a type is withdrawn, the router takes the filters back oldest first; the condition of
  `ProducerListsAgree` relies on it. The value of a notification is handed back to a producer object that still exists
  (`src/generic/incl/EventProducer.h:479-489` does nothing otherwise).
- In an encoded default value a backslash stands only before a space or a backslash; the decoder refuses any other.
- A producer sends an event and then releases it once, and does neither again after the release
  (`src/generic/ntf/CmEventProducer.cc:66-77`).
- A destructor that fails makes setVariable and destroySession answer Failure, and the value is gone all the same. A thread
  bound to a session that another thread has destroyed counts as unbound.

## Model

| member | source | states |
|---|---|---|
| TransactionProofs.AtomicDecision | dependencies/com_spi/ComOamSpiTransactionMaster_2.h:80-98 | in every reachable state, if any participant was told to commit, every participant prepared Ok, was told to commit and finish and never to abort, and a validation that every validator and participant passed came before each commit call |
| TransactionProofs.EndedEverywhere | dependencies/com_spi/ComOamSpiTransactionMaster_2.h:80-98 | in every reachable state an ended or timed-out transaction is committed everywhere or aborted everywhere; while it is open nobody has heard more than a prepare answered Ok |
| TransactionProofs.EveryRunConsistent | dependencies/com_spi/ComOamSpiTransactionalResource_2.h:62-117 | every participant's history is fresh, prepared, prepared-committed-finished or aborted-finished, in step with the transaction's phase, whatever is called and answered |
| TransactionProofs.RegisteredHearsTheEnd | dependencies/com_spi/ComOamSpiTransaction_1.h:61-90 | whoever has registered hears how the transaction ends, in every run that ends it |
| TransactionProofs.CommitCodeTellsStory | dependencies/com_spi/ComOamSpiTransactionMaster_2.h:72-98 | in every reachable state, what the commit code tells of all that participant i has heard, explicitly prepared or not: ValidationFailed, a validator or participant refused and i was aborted without being asked again; PrepareFailed, i was asked exactly if everyone before it agreed and then aborted; CommitFailed and Ok, i prepared, was told to commit and to finish, and all commits were Ok in the second case only |
| CommitDecisions.CommitCodeIs | dependencies/com_spi/ComOamSpiTransactionMaster_2.h:72-98 | in every reachable state, from the answers alone: ValidationFailed if and only if some validator or, all passing, some participant does not pass; else PrepareFailed iff a prepare still to be asked is refused; else CommitFailed iff some commit is; else Ok |
| CommitDecisions.AllOkCommits | dependencies/com_spi/ComOamSpiTransactionMaster_2.h:72-98 | when everyone answers Ok, with or without validators, commit answers Ok and every participant has heard prepare, commit and finish |
| CommitDecisions.CommitAsksInOrder | dependencies/com_spi/ComOamSpiTransactionMaster_2.h:76-98 | no phase begins before the one before it is over, and in each exactly those are asked who should be, in the order they registered |
| CommitDecisions.ExplicitPrepareCodeIs | dependencies/com_spi/ComOamSpiTransactionMaster_2.h:139-169 | explicit prepare answers Ok, and the transaction waits, if and only if every participant prepares; otherwise PrepareFailed and it is gone |
| CommitDecisions.AbortEndsIt | dependencies/com_spi/ComOamSpiTransactionMaster_2.h:126-137 | an abort always succeeds, ends the transaction, and every participant hears abort and finish |
| CommitDecisions.PlainCodes | dependencies/com_spi/ComOamSpiTransaction_1.h:62-133 | a registration answers AlreadyExist exactly for a participant, a context can be set exactly for a participant |
| CommitDecisions.MoCallsAreServed | dependencies/maf_spi/MafOamSpiTransactionMaster_2.h:53-55 | in every run an MO call may begin on any open transaction, and may return if and only if one is outstanding |
| CommitDecisions.PartsAreTheRegistered | dependencies/com_spi/ComOamSpiTransaction_1.h:62-90 | in every run the participants are those whose registration was accepted, in that order |
| CommitDecisions.TermsAreKept | dependencies/com_spi/ComOamSpiTransactionMaster_2.h:41-66 | a transaction starts if and only if its timeout is at most 86400, and keeps the lock policy and timeout it was started with for as long as it is remembered |
| TransactionProofs.AskedIsPrefix | dependencies/com_spi/ComOamSpiTransactionMaster_2.h:86-89 | a participant is asked to prepare if and only if everyone registered before it agreed |
| TransactionProofs.ValidationAsksEveryone | dependencies/com_spi/ComOamSpiTransactionMaster_2.h:190-206 | every validator is asked exactly once in order; the participants are asked if and only if all validators passed |
| TransactionProofs.ValidateOnlyAsks | dependencies/com_spi/ComOamSpiTransactionalResource_2.h:119-134 | a validation adds exactly its verdict requests to the record; no participant hears a protocol call and no transaction changes |
| PreparedTransactions.ExplicitPrepareRefinesCommit | dependencies/com_spi/ComOamSpiTransactionMaster_2.h:139-169 | committing after an explicit prepare, with any calls in between that neither end the transaction nor let it time out, is one plain commit given the early answers to prepare and the late answers to the rest: the same code, and every participant hears the same calls in the same order; if validation refuses, both abort everyone |
| TransactionProofs.FailedExplicitPrepareAborts | dependencies/com_spi/ComOamSpiTransactionMaster_2.h:160-169 | a failed explicit prepare answers PrepareFailed, aborts everywhere and ends the transaction as a plain commit would |
| PreparedTransactions.OnlyCommitOrAbort | dependencies/com_spi/ComOamSpiTransactionMaster_2.h:160-165 | between explicit prepare and the end commit and abort are served; a look-up is served and changes nothing, an outstanding MO call may return and changes the timer only; every other request is refused and changes nothing |
| PreparedTransactions.PreparedStays | dependencies/com_spi/ComOamSpiTransactionMaster_2.h:160-165 | while it neither ends nor times out, a prepared transaction keeps its participants and its record, whatever is called in between |
| TransactionLifetime.RunForward | dependencies/maf_spi/MafOamSpiTransactionMaster_2.h:49-60 | a transaction only moves forward from open to prepared, timed out and forgotten |
| TransactionLifetime.ForgottenForever | dependencies/com_spi/ComOamSpiTransactionMaster_2.h:45-57 | a forgotten handle answers NotExist for ever, whatever happens in between |
| TransactionLifetime.NoTimeoutDuringMoCall | dependencies/maf_spi/MafOamSpiTransactionMaster_2.h:53-55 | in no run does the timer fire while an MO call on the transaction is outstanding, outstanding being counted from the calls and their answers |
| TransactionLifetime.PendingIsOpenCalls | dependencies/maf_spi/MafOamSpiTransactionMaster_2.h:53-55 | the timer's count is the number of accepted MO calls that have not returned |
| TransactionLifetime.LeftAlone | dependencies/maf_spi/MafOamSpiTransactionMaster_2.h:49-60 | an idle transaction that nobody uses, whatever is called on all others, is untouched before its timeout, remembered as timed out for exactly 3600 seconds and forgotten afterwards |
| IdleTimeout.UnusedTimesOut | dependencies/maf_spi/MafOamSpiTransactionMaster_2.h:49-60 | from calls and answers alone: after the last outstanding MO call returns at time n and with nobody using it, a transaction is untouched until n plus the timeout it was started with, answers TimeOut for 3600 seconds from then, and NotExist afterwards |
| IdleTimeout.NeverTimesOutUnused | dependencies/maf_spi/MafOamSpiTransactionMaster_2.h:53-55 | no transaction times out before an MO call on it has returned |
| IdleTimeout.TimedOutMeansAborted | dependencies/maf_spi/MafOamSpiTransactionMaster_2.h:49-60 | in every run every participant of a timed-out transaction has been aborted and told to finish |
| TransactionLifetime.TimeoutAborts | dependencies/com_spi/ComOamSpiTransactionMaster_2.h:45-57 | when the timer fires every participant hears abort and finish; the next use answers TimeOut and the one after it NotExist |
| TransactionLifetime.ContextIsRemembered | dependencies/com_spi/ComOamSpiTransaction_1.h:91-155 | a context once set for a participant is what it reads back after any run that does not set it again |
| TransactionMasterModule.AskAll | dependencies/com_spi/ComOamSpiTransactionMaster_2.h:91-98 | everyone is asked once, in order, whatever anyone answers; the result tells whether all answered Ok |
| TransactionMasterModule.AskToPrepare | dependencies/com_spi/ComOamSpiTransactionMaster_2.h:86-89 | prepare stops after the first refusal and nobody beyond it is asked |
| TransactionMasterModule.TransactionMaster.NewTransaction | dependencies/com_spi/ComOamSpiTransactionMaster_2.h:41-66 | a new handle, never used before, or InvalidArgument above the maximum timeout |
| TransactionMasterModule.TransactionMaster.RegisterParticipant | dependencies/com_spi/ComOamSpiTransaction_1.h:62-90 | one step of the machine: the participant joins, or the state is unchanged |
| TransactionMasterModule.TransactionMaster.SetContextOf | dependencies/com_spi/ComOamSpiTransaction_1.h:91-133 | one step of the machine: the participant's context is set |
| TransactionMasterModule.TransactionMaster.GetContext | dependencies/com_spi/ComOamSpiTransaction_1.h:134-156 | the context last set, NotExist when there is none, TimeOut on first use after a timeout |
| TransactionMasterModule.TransactionMaster.GetLockPolicy | dependencies/com_spi/ComOamSpiTransaction_1.h:157-171 | the policy given when the transaction was started |
| TransactionMasterModule.TransactionMaster.IsRegistered | dependencies/com_spi/ComOamSpiTransactionMaster_2.h:171-188 | whether the participant is in the transaction |
| TransactionMasterModule.TransactionMaster.Validate | dependencies/com_spi/ComOamSpiTransactionMaster_2.h:190-206 | one step of the machine, with the verdict of validators and participants |
| TransactionMasterModule.TransactionMaster.ExplicitPrepareTx | dependencies/com_spi/ComOamSpiTransactionMaster_2.h:139-169 | one step of the machine: prepared, or aborted everywhere |
| TransactionMasterModule.TransactionMaster.CommitTransaction | dependencies/com_spi/ComOamSpiTransactionMaster_2.h:68-125 | one step of the machine: validation, prepare, commit and finish in order, with the code that fits |
| TransactionMasterModule.TransactionMaster.AbortTransaction | dependencies/com_spi/ComOamSpiTransactionMaster_2.h:126-137 | one step of the machine: abort and finish on everyone |
| TransactionMasterModule.TransactionMaster.AdvanceClock | dependencies/maf_spi/MafOamSpiTransactionMaster_2.h:49-60 | one second passes: exactly the idle transactions that are due are aborted and exactly the remembered ones that are due are forgotten |
| TransactionalStores.StoreFollowsCalls | dependencies/com_spi/ComOamSpiTransactionalResource_2.h:82-117 | whatever other requests the store serves meanwhile, it installs the log of its transaction, once, exactly if the first call that ends it is a commit answered Ok |
| TransactionalStores.AllOrNothing | dependencies/com_spi/ComOamSpiTransactionalResource_2.h:20-31 | in every run of the coordinator, with any clients at every store: an ended transaction is installed nowhere, or every participant prepared Ok and was told to commit, and the log installed is exactly its own where it answered Ok and none elsewhere; every committed tree is the serial one |
| TransactionalStores.CommitCodeTellsData | dependencies/com_spi/ComOamSpiTransactionalResource_2.h:20-31 | the commit code decides what is in the store of every participant: Ok its log, validation or prepare failed nothing, commit failed its log exactly if it answered Ok |
| ManagedObjects.OverlayRefinesReplay | dependencies/com_spi/ComOamSpiManagedObject_3.h:289-300 | after any writes and over any committed tree, the overlay shows exactly what replaying the writes on that tree gives |
| ManagedObjects.WriteRefines | dependencies/com_spi/ComOamSpiManagedObject_3.h:289-300 | one in-place overlay update is that write on the tree the overlay shows |
| ManagedObjects.WritesAreExact | dependencies/com_spi/ComOamSpiManagedObject_3.h:561-600 | delete removes exactly the subtree, create adds exactly one MO carrying its key attribute, set changes one MO |
| ManagedObjects.BulkSetReplaces | dependencies/maf_spi/MafOamSpiManagedObject_3_1.h:40-60 | a bulk set replaces each named value completely by the last one given, unsets on no values, and leaves other attributes alone |
| ManagedObjects.ExecKeepsClosed | dependencies/com_spi/ComOamSpiManagedObject_3.h:561-600 | no operation leaves an MO without its parent |
| StoreAnswers.AnswersMean | dependencies/com_spi/ComOamSpiManagedObject_3.h:415-703 | what each operation is answered, by what is in the tree: existence, the values in the order asked, the child keys, and each refusal |
| StoreAnswers.ValuesAfterWrite | dependencies/com_spi/ComOamSpiManagedObject_3.h:561-588 | every attribute after a write: the key and the initial values of a new MO, the last value set |
| StoreAnswers.ReadsOwnWrites | dependencies/com_spi/ComOamSpiManagedObject_3.h:289-300 | in every reachable state a transaction reads at once what it wrote, under either policy, and no lock of others refuses it |
| Serializability.Serializable | dependencies/com_spi/ComOamSpiTransaction_1.h:32-49 | in every interleaving the final tree, and every answer taken under a lock, are those of running the committed transactions one after the other in commit order; for ComLockReadWrite that is every answer, for ComLockWrite every write |
| Serializability.CommittedLogIsWhatWasGiven | dependencies/com_spi/ComOamSpiManagedObject_3.h:289-300 | what commit records and installs are the requests of the transaction with the answers its client was given |
| StoreAnswers.ReadWriteLocksRepeat | dependencies/com_spi/ComOamSpiTransaction_1.h:36-42 | whoever begins with ComLockReadWrite in any run is given equal answers to equal requests with no write of its own between them, whatever others do |
| StoreAnswers.PolicyIsKept | dependencies/com_spi/ComOamSpiTransaction_1.h:32-42 | a transaction has the policy it was begun with for as long as it is open |
| StoreAnswers.NeededIsTouched | dependencies/com_spi/ComOamSpiTransaction_1.h:36-42 | an operation locks exactly the MOs it accesses, and reads lock only under ComLockReadWrite |
| StoreAnswers.EveryAccess | dependencies/com_spi/ComMgmtSpiCommon.h:64-67 | in every reachable state a request is refused with ObjectLocked, changing nothing, if and only if another open transaction has accessed an MO it accesses; otherwise it is answered by its own sight |
| StoreAnswers.EndFrees | dependencies/com_spi/ComOamSpiTransactionalResource_2.h:82-104 | commit and abort end the transaction with all it held and change no other |
| Serializability.RepeatableReads | dependencies/com_spi/ComOamSpiTransaction_1.h:36-42 | the same for a transaction known to have the read/write policy, on its log |
| Serializability.UnlockedReadsFollowCommits | dependencies/com_spi/ComOamSpiTransaction_1.h:34-38 | under ComLockWrite a repeated read gives the old answer after another's commit if and only if the other transaction saw that answer too |
| Serializability.UnlockedReadsMove | dependencies/com_spi/ComOamSpiTransaction_1.h:34-38 | a reachable state in which such a read does change |
| Serializability.UnlockedReadsPass | dependencies/com_spi/ComOamSpiTransaction_1.h:34-38 | a ComLockWrite read is never refused for a lock and answers from the transaction's sight |
| Serializability.UncommittedWorkIsInvisible | dependencies/com_spi/ComOamSpiManagedObject_3.h:292-300 | whatever other transactions do short of committing, a transaction sees the same tree and the committed tree stays |
| Serializability.AbortUndoesAll | dependencies/com_spi/ComOamSpiTransactionalResource_2.h:96-104 | any operations followed by abort leave exactly what aborting at once would leave |
| Serializability.AlwaysPrefixClosed | dependencies/com_spi/ComOamSpiManagedObject_3.h:561-600 | in every reachable state no MO is without its parent, committed or in any transaction's sight |
| Serializability.ExplanationSurvives | dependencies/com_spi/ComOamSpiTransaction_1.h:32-49 | answers explained by one tree stay explained by any tree that leaves the locked MOs untouched and adds no child below a locked parent |
| Serializability.CompatibleIff | dependencies/com_spi/ComOamSpiTransaction_1.h:40-42 | two sets of locks, of single MOs and whole subtrees, are compatible if and only if no MO is covered by both |
| Serializability.RefusedIffCovered | dependencies/com_spi/ComMgmtSpiCommon.h:64-67 | a request is refused with ObjectLocked, changing nothing, if and only if some MO it needs is covered by another transaction's locks |
| MoStoreModule.MoStore.Find | dependencies/com_spi/ComOamSpiManagedObject_3.h:289-300 | a lookup through the overlay finds what the transaction's replayed tree holds |
| MoStoreModule.MoStore.IsFree | dependencies/com_spi/ComMgmtSpiCommon.h:64-67 | scanning the other transactions tells whether what is needed conflicts with any of them |
| MoStoreModule.MoStore.BeginTx | dependencies/com_spi/ComOamSpiTransaction_1.h:32-49 | a new handle over a transaction with the policy asked for, no locks and no writes |
| MoStoreModule.MoStore.SetMoAttributes | dependencies/maf_spi/MafOamSpiManagedObject_3_1.h:40-60 | one step of the machine through the overlay |
| MoStoreModule.MoStore.CreateMo | dependencies/com_spi/ComOamSpiManagedObject_3.h:561-588 | one step of the machine: NotExist without the parent, AlreadyExist if visible, else created in the transaction |
| MoStoreModule.MoStore.DeleteMo | dependencies/com_spi/ComOamSpiManagedObject_3.h:590-600 | one step of the machine: the whole subtree disappears from the transaction |
| MoStoreModule.MoStore.GetMoAttributes | dependencies/com_spi/ComOamSpiManagedObject_3.h:415-470 | on Ok the MO is in the transaction's sight and there is one value list for each name, in the order asked; unset reads as no values |
| MoStoreModule.MoStore.ExistsMo | dependencies/com_spi/ComOamSpiManagedObject_3.h:667-703 | on Ok found tells whether the MO is in the transaction's sight |
| MoStoreModule.MoStore.NewMoIterator | dependencies/com_spi/ComOamSpiManagedObject_3.h:472-509 | the next iterator handle, never given out before nor again, over exactly the keys of the matching children |
| MoStoreModule.MoStore.NextMo | dependencies/com_spi/ComOamSpiManagedObject_3.h:511-559 | the next remaining key whose MO still exists, or the end |
| MoStoreModule.NextSkipsOnlyTheDeleted | dependencies/com_spi/ComOamSpiManagedObject_3.h:296-300 | a deleted MO is never handed out and nothing but deleted MOs is passed over |
| MoStoreModule.MoStore.IterateMoChildren | dependencies/com_spi/ComOamSpiManagedObject_3.h:472-559 | iterating to the end with nothing changed in between gives each child key exactly once |
| MoStoreModule.MoStore.CountMoChildren | src/generic/motransaction/OamSAImmBridge.cc:2134-2166 | the count made by iterating is the number of children the transaction sees |
| MoStoreModule.MoStore.CommitTx | dependencies/com_spi/ComOamSpiTransactionalResource_2.h:82-94 | installs the overlay on what is committed by then, as the machine does with the replayed log, and drops the transaction's iterators |
| MoStoreModule.MoStore.AbortTx | dependencies/com_spi/ComOamSpiTransactionalResource_2.h:96-104 | drops the transaction, its locks and iterators, and nothing else |
| DeletionPoints.InsertExact | src/generic/motransaction/OamSACache.cc:2153-2255 | after an insertion a DN is deleted if it was or lies in the inserted subtree, except for a DN deleted twice, whose own point is what has gone |
| DeletionPoints.InsertDeletesUnlessTwice | src/generic/motransaction/OamSACache.cc:2205-2250 | inserting a DN deletes it if and only if it is not already the topmost active point, below the first level, of its branch |
| DeletionPoints.SecondDeleteRevives | src/generic/motransaction/OamSACache.cc:2226-2243 | deleting the same object of at least two parts twice makes it visible again |
| DeletionPoints.RemoveExact | src/generic/motransaction/OamSACache.cc:2269-2316 | removing an active point not below another leaves deleted, below it, exactly what has a point of its own; in all other cases nothing changes |
| DeletionPoints.RecreateExact | src/generic/motransaction/OamSACache.cc:1851-1858 | what is deleted after deleting and re-creating a visible object, for every DN |
| DeletionPoints.RecreateRestores | src/generic/motransaction/OamSACache.cc:2083-2087 | the pair restores the list's meaning if and only if no dormant point below the object lies uncovered |
| DeletionPoints.RecreateRevealsChildren | src/generic/motransaction/OamSAImmBridge.cc:1820-1828 | a descendant hidden by the deletion is visible after re-creation if and only if no deletion point lies between |
| DeletionPoints.InsertKeepsAntichain | src/generic/motransaction/OamSACache.cc:2155-2162 | no active point lies below another after an insertion, if and only if it does not graft a new path below an active point other than the first part |
| DeletionPoints.DeletionsNeverNest | src/generic/motransaction/OamSACache.cc:2155-2162 | for any run of deletions and creations, no recorded deletion lies inside another at any moment if and only if no deletion grafts a new path below an active point other than the first part |
| DeletionPoints.HiddenChildNests | src/generic/motransaction/OamSAImmBridge.cc:1981-2055 | deleting an object of at least two parts and then a hidden child of it nests them |
| DeletionPoints.EveryDeletionDeletesIff | src/generic/motransaction/OamSACache.cc:2205-2250 | for any run of deletions and creations, every deletion adds exactly its subtree to what is deleted if and only if none is of the topmost active point, below the first level, of its branch |
| DeletionPoints.VisibleDeletionsAreSafe | src/generic/motransaction/OamSAImmBridge.cc:1981-2055 | a run that deletes only visible objects meets both conditions |
| DeletionPoints.DeletedIsWhatWasDeleted | src/generic/motransaction/OamSACache.cc:1927-1949 | for any run of deletions none of which hits the same topmost point again, of visible and hidden objects alike, what is deleted is exactly the union of their subtrees |
| RememberedDeletions.HiddenDeletionIsRemembered | src/generic/motransaction/OamSACache.cc:2226-2243 | deleting an object hidden by a higher one and then creating the higher one again leaves it deleted |
| RememberedDeletions.PointsAreTheRecorded | src/generic/motransaction/OamSACache.cc:2153-2255 | after any run of deletions and creations the points are exactly the deletions made while their first level was not deleted |
| RememberedDeletions.RecreatedAfterRun | src/generic/motransaction/OamSACache.cc:2269-2316 | after any run, creating the topmost deleted object again leaves deleted, below it, exactly the subtrees of the deletions recorded in the run |
| RememberedDeletions.FirstLevelForgetsReached | src/generic/motransaction/OamSACache.cc:2198-2251 | below a deleted first level a deletion is not recorded: creating the first level again shows the object |
| DeletionPoints.DeletedObjectsList.IsDeleted | src/generic/motransaction/OamSACache.cc:2067-2140 | the walk down the parts answers whether the DN or an ancestor is an active point |
| DeletionPoints.DeletedObjectsList.InsertPoint | src/generic/motransaction/OamSACache.cc:2153-2255 | the walk, graft, demotion and silencing compute the insertion |
| DeletionPoints.DeletedObjectsList.RemovePoint | src/generic/motransaction/OamSACache.cc:2269-2316 | the removal, waking the topmost dormant point of each branch below |
| DeletionPoints.DeletedObjectsList.WakeBelow | src/generic/motransaction/OamSACache.cc:2036-2053 | exactly the topmost dormant points below become active |
| ProducerLists.ProducersAgree | dependencies/maf_spi/MafOamSpiEvent_1.h:49-54 | in every run each registered producer, judged by the calls it received, holds exactly the filters of live subscriptions to the types it produces, is never offered one it holds nor told to remove one it does not |
| HeldFilters.HeldOffer | dependencies/maf_spi/MafOamSpiEvent_1.h:238-271 | an offer to many producers leaves every filter held or, after any refusal, everything as it was |
| RouterHistory.TablesAreHistory | dependencies/maf_spi/MafOamSpiEvent_1.h:222-347 | in every run consumers, producers, subscriptions and types are exactly those the requests and their codes say |
| RouterHistory.SubscribeAnswered | dependencies/maf_spi/MafOamSpiEvent_1.h:238-268 | in every run a subscription is accepted if and only if its consumer is registered, it is not there already and every producer of its type accepts it |
| RouterHistory.AnnounceAnswered | dependencies/maf_spi/MafOamSpiEvent_1.h:321-333 | in every run an event type is accepted if and only if its producer is registered, does not produce it already and accepts every subscription to it |
| RouterHistory.OtherCodes | dependencies/maf_spi/MafOamSpiEvent_1.h:191-347 | the code of every other request |
| EventValues.ValuesComeBackOnce | dependencies/maf_spi/MafOamSpiEvent_1.h:60-64 | in every run doneWithValue has been called exactly once for a returned notification and not at all for others, after at most one delivery |
| EventValues.TicketsAreNotifies | dependencies/maf_spi/MafOamSpiEvent_1.h:191-220 | in every run the notifications handed on and given back are exactly those producers made and the router accepted, in order, with their producer, subscription and value |
| EventValues.PendingSurvives | dependencies/maf_spi/MafOamSpiEvent_1.h:60-64 | no registration change ends a pending notification or alters it |
| EventValues.PendingCanFinish | dependencies/maf_spi/MafOamSpiEvent_1.h:115-128 | every pending notification can be brought to its return, whoever has unregistered, and is delivered exactly if its subscription is still there |
| EventRouterService.SelectForSub | dependencies/maf_spi/MafOamSpiEvent_1.h:238-268 | going through the producers selects those that produce the type, in order |
| EventRouterService.SelectForType | dependencies/maf_spi/MafOamSpiEvent_1.h:321-333 | going through the subscriptions selects those to the type, in order |
| EventRouterService.SelectForConsumer | dependencies/maf_spi/MafOamSpiEvent_1.h:288-300 | going through the consumer's subscriptions and the producers selects each pair that matches, in order |
| EventRouterService.EventRouter.OfferAll | dependencies/maf_spi/MafOamSpiEvent_1.h:68-87 | filters are offered one by one and taken back at the first refusal |
| EventRouterService.EventRouter.Subscribe | dependencies/maf_spi/MafOamSpiEvent_1.h:238-268 | one step of the machine: the subscription reaches every producer of its type, or nothing changes |
| EventRouterService.EventRouter.Unsubscribe | dependencies/maf_spi/MafOamSpiEvent_1.h:270-285 | one step of the machine: the filter is taken back from every producer of its type |
| EventRouterService.EventRouter.Unregister | dependencies/maf_spi/MafOamSpiEvent_1.h:288-300 | one step of the machine: all filters of the consumer are taken back |
| EventRouterService.EventRouter.Announce | dependencies/maf_spi/MafOamSpiEvent_1.h:321-333 | one step of the machine: the producer receives the filters of all subscriptions to the type |
| EventRouterService.EventRouter.Withdraw | dependencies/maf_spi/MafOamSpiEvent_1.h:335-347 | one step of the machine: the filters of the type are taken back from the producer |
| EventRouterService.EventRouter.Accept | dependencies/maf_spi/MafOamSpiEvent_1.h:191-220 | one step of the machine: queued, InvalidArgument for an unknown producer, Failure when the router fails |
| EventRouterService.EventRouter.Dispatch | dependencies/maf_spi/MafOamSpiEvent_1.h:60-64 | one step of the machine: the consumer is called if its subscription is still there |
| EventRouterService.EventRouter.GiveBack | dependencies/maf_spi/MafOamSpiEvent_1.h:115-128 | one step of the machine: the value of a handled notification is returned |
| EventProducerModule.RemovalIsExact | src/generic/incl/EventProducer.h:391-408 | removing a filter removes that filter if and only if it is the first of its consumer and event type |
| ProducerLists.SecondFilterOutlivesFirst | src/generic/incl/EventProducer.h:103-105 | the run of the router that subscribes with f, subscribes with g and removes g leaves the subscription f and a producer that has g |
| ProducerLists.RefusedSecondFilterErasesFirst | src/generic/incl/EventProducer.h:391-408 | with f live at two producers, a subscription with g that the second refuses fails and leaves the first producer without f |
| ProducerLists.TwoHoldIsReached | dependencies/maf_spi/MafOamSpiEvent_1.h:238-268 | the state in which that happens is reached by a run |
| ProducerLists.ProducerListsAgree | src/generic/incl/EventProducer.h:369-408 | router and producer together: in every run the producer's own list agrees with the filters the router means it to hold, before and after every call, if and only if each subscription removed is, where the producer holds it, the oldest live one of its consumer and event type, and each that it accepts and another producer refuses is the only one |
| ProducerLists.OrderlyListIsSubscriptions | src/generic/incl/EventProducer.h:369-408 | and then a registered producer's list is the live subscriptions to its types, those of one consumer and event type in the order they were made |
| ProducerLists.OldestFirstIsOrderly | dependencies/maf_spi/MafOamSpiEvent_1.h:238-285 | clients that remove oldest first and have no second subscription refused keep every producer's list right, with any number of filters per event type |
| EventLife.RouterRunsAreLegal | dependencies/maf_spi/MafOamSpiEvent_1.h:60-64 | in every run of the router and the producers' releases only accepted notifications of an event come back, no oftener than they were sent |
| EventLife.EventFreedIff | src/generic/incl/EventProducer.h:137-183 | in every run an event has been freed if and only if its producer has released it, every notify of it found the producer registered and was taken by the router, and the router has handed back every notification of it |
| EventLife.EventNeverUsedAfterFree | src/generic/incl/EventProducer.h:155-177 | in every run whatever is done to an event finds it not yet freed |
| EventLife.PendingEventIsAlive | dependencies/maf_spi/MafOamSpiEvent_1.h:205-209 | in every run the event of a notification not yet given back has not been freed, so a consumer that is called reads it alive |
| EventLife.RefusedEventLeaks | src/generic/incl/EventProducer.h:317-323 | in every run an event one of whose notifications was refused, for whichever reason, is never freed, whatever follows |
| EventLife.FailedNotifyLeaks | dependencies/maf_spi/MafOamSpiEvent_1.h:211-213 | from every state a registered producer whose notify fails is answered Failure, and its event is never freed, whatever follows |
| EventLife.LeakIsReached | src/generic/incl/EventProducer.h:317-323 | with a live subscription, one failed notify and the producer's own release, the event is never freed, whatever others do |
| EventProducerModule.MatchingIs | src/generic/incl/EventProducer.h:303-325 | an event notifies every matching filter as often as it is on the list and no other |
| EventProducerModule.MatchingInOrder | src/generic/incl/EventProducer.h:303-325 | the matching filters keep the order of the list |
| EventProducerModule.EventProducer.OnRemoveFilter | src/generic/incl/EventProducer.h:391-408 | the search and erasure take out the first entry with the key |
| EventProducerModule.EventProducer.NotifyOne | src/generic/incl/EventProducer.h:317-323 | a reference is taken whatever the router answers, and the stored count stays that of the event's history |
| EventProducerModule.EventProducer.Push | src/generic/incl/EventProducer.h:303-325 | exactly the matching filters are notified, in list order, with one reference each; the router's answers are recorded and nothing is done about refusals |
| EventProducerModule.EventProducer.SendEvent | src/generic/ntf/CmEventProducer.cc:66-77 | what remains of an event once it is created, pushed and released: one reference for each match, and no event if nothing matched |
| EventProducerModule.EventProducer.ReleaseRefOf | src/generic/incl/EventProducer.h:164-177 | one reference less; the event is stored exactly until its history frees it |
| EventProducerModule.EventProducer.OnDoneWithValue | src/generic/incl/EventProducer.h:359-367 | a value handed back releases one reference of its event |
| DefaultValues.DecodeEncode | dependencies/com_spi/ComOamSpiModelRepository_1.h:594-601 | for every non-empty list of strings, decoding undoes escaping and joining |
| DefaultValues.EncodeDecode | dependencies/com_spi/ComOamSpiModelRepository_1.h:594-601 | every string that decodes is the encoding of what it decodes to |
| DefaultValues.EncodeInjective | dependencies/com_spi/ComOamSpiModelRepository_1.h:594-601 | different lists never share an encoding |
| DefaultValues.WellFormedIffEncoded | dependencies/com_spi/ComOamSpiModelRepository_1.h:594-601 | a string decodes if and only if it encodes some list |
| DefaultValues.EncodeConcat | dependencies/com_spi/ComOamSpiModelRepository_1.h:594-601 | lists are put together with one space |
| DefaultValues.MarkedText | dependencies/com_spi/ComOamSpiModelRepository_1.h:594-601 | a space and a backslash are each preceded by a backslash |
| DefaultValues.PlainText | dependencies/com_spi/ComOamSpiModelRepository_1.h:594-601 | all other text stands for itself |
| DefaultValues.VersionsAgree | dependencies/com_spi/ComOamSpiModelRepository_2.h:708-717 | version 2 gives a list exactly when version 1 holds its encoding, and NotExist exactly when there is no default |
| ModelRepository.FastFindsWhatFullFinds | dependencies/maf_spi/MafOamSpiModelRepository_4.h:1911-1921 | whatever the full path check finds, the fast lookup finds too |
| ModelRepository.FastAgreesIff | dependencies/maf_spi/MafOamSpiModelRepository_4.h:1911-1921 | the two agree if and only if the last name is not unique or the path check succeeds |
| ModelRepository.FastTrustsTheName | dependencies/maf_spi/MafOamSpiModelRepository_4.h:1911-1921 | where one class only has the last name the fast lookup gives that class, whatever the rest of the DN |
| ModelRepository.FullLookupIsPath | dependencies/maf_spi/MafOamSpiModelRepository_4.h:1911-1921 | the full check finds a class exactly when a containment path from the root with the DN's names leads to it |
| ModelRepository.ListedAll | dependencies/maf_spi/MafOamSpiModelRepository_4.h:687-711 | following the next-links of a class meets all its containments and no others, on either list |
| ModelRepository.ListedInOrder | dependencies/maf_spi/MafOamSpiModelRepository_4.h:687-711 | each is met once, in the order they were added |
| ModelRepository.BothListsAgree | dependencies/com_spi/ComOamSpiModelRepository_1.h:463-474 | the parent's list and the child's list tell the same relations |
| ModelRepository.AddKeepsValid | dependencies/com_spi/ComOamSpiModelRepository_1.h:463-474 | adding a containment keeps both lists complete; it comes last among its parent's children and among its child's parents, and the list of every other class stays as it is |
| ModelRepository.AddContains | dependencies/com_spi/ComOamSpiModelRepository_1.h:463-474 | an addition makes exactly that containment true |
| ReplicatedLists.PushAppends | src/generic/rlist/ComSARlist_imm.cc:929-941 | a push appends one item with a new name if and only if the 32-bit number does not wrap |
| ReplicatedLists.PushAtTheWrapLosesAll | src/generic/rlist/ComSARlist_imm.cc:929-941 | at the wrap the push answers Ok and no item can be traversed any more |
| ReplicatedLists.WrapIsReached | src/generic/rlist/ComSARlist_imm.cc:929-941 | where `ULONG_MAX` is wider than 32 bits, pushing any 2^32 items to a new list reaches the wrap: the last push answers Ok and the list traverses as empty |
| ReplicatedLists.PushesCount | src/generic/rlist/ComSARlist_imm.cc:929-941 | any fewer pushes leave all their items in the list |
| ReplicatedLists.PopRemovesLast | src/generic/rlist/ComSARlist_imm.cc:1044-1189 | a pop removes the last item if and only if the newest number is still stored; otherwise NotExist and unchanged |
| ReplicatedLists.PopsUntilEmpty | src/generic/rlist/ComSARlist_imm.cc:1044-1189 | once a pop works, pops take one item each from the end until none is left |
| ReplicatedLists.EraseOfTheNewestBlocksPop | src/generic/rlist/ComSARlist_imm.cc:1192-1280 | two pushes and erasing the second leave an item that cannot be popped |
| ReplicatedLists.EraseRemovesOne | src/generic/rlist/ComSARlist_imm.cc:1192-1280 | erasing takes out exactly the named item and succeeds exactly if it is in the list |
| ReplicatedLists.ReplaceKeepsPlace | src/generic/rlist/ComSARlist_imm.cc:1685-1760 | replacing changes the data of the named item in its place and succeeds exactly if it is in the list |
| ReplicatedLists.ClearEmpties | src/generic/rlist/ComSARlist_imm.cc:585-638 | clearing leaves no item and a count of zero |
| ReplicatedLists.FindIsMembership | dependencies/com_spi/ComMwSpiReplicatedList_1.h:233-249 | finding by name agrees with what a traversal comes across |
| ReplicatedLists.NamesStayUnique | dependencies/com_spi/ComMwSpiReplicatedList_1.h:151-167 | in every run in which no push wraps the names differ, are in order, and the size is the number of items |
| ReplicatedLists.EveryPushAppendsIff | src/generic/rlist/ComSARlist_imm.cc:929-941 | in any run, every push answered Ok appends its item under the next number if and only if no push wraps |
| ReplicatedLists.LimitStopsTheWrap | src/generic/rlist/ComSARlist_imm.cc:929-941 | where `ULONG_MAX` is the largest 32-bit number, no run wraps |
| ReplicatedLists.FewPushesNeverWrap | src/generic/rlist/ComSARlist_imm.cc:929-941 | elsewhere, no run with fewer than 2^32 pushes wraps |
| ReplicatedLists.ListStore.ListPushBack | src/generic/rlist/ComSARlist_imm.cc:825-1041 | one step on the named list, with the new item's name; other lists stay |
| ReplicatedLists.ListStore.ListPopBack | src/generic/rlist/ComSARlist_imm.cc:1044-1189 | one step on the named list, scanning down for the next newest number |
| ReplicatedLists.ListStore.ListEraseItem | src/generic/rlist/ComSARlist_imm.cc:1192-1280 | one step on the named list; the newest number stays |
| ReplicatedLists.ListStore.ListReplaceItem | src/generic/rlist/ComSARlist_imm.cc:1685-1760 | one step on the named list |
| ReplicatedLists.ListStore.ListClear | src/generic/rlist/ComSARlist_imm.cc:585-638 | the list is emptied; the newest number stays |
| ReplicatedLists.ListStore.ListGetSize | src/generic/rlist/ComSARlist_imm.cc:641-671 | the stored count is the number of items |
| ReplicatedLists.ListStore.ListFindItem | src/generic/rlist/ComSARlist_imm.cc:1592-1682 | Ok with the item's data exactly if the name is in the list |
| ReplicatedLists.ListStore.FindNext | src/generic/rlist/ComSARlist_imm.cc:3379-3450 | the scan finds the smallest stored number from a start on |
| ReplicatedLists.ListStore.Traverse | src/generic/rlist/ComSARlist_imm.cc:1424-1589 | an undisturbed traversal gives every item once, in order of insertion |
| Sessions.LiveOrDestructedOnce | dependencies/com_spi/ComMgmtSpiSession_1.h:219-263 | in every run each value ever installed is in exactly one live variable or has been destructed exactly once |
| Sessions.VariablesExistDuringCallbacks | dependencies/com_spi/ComMgmtSpiSession_1.h:62-68 | in every run a callback about a session's end comes before every destructor that end runs |
| SessionHistory.CallbacksHearOnce | dependencies/com_spi/ComMgmtSpiSession_1.h:52-68 | in every run each callback registered at the time hears of a session's beginning, and of its end, exactly once, and nobody else does |
| SessionHistory.EndDoes | dependencies/com_spi/ComMgmtSpiSession_1.h:152-165 | ending a session calls every callback in order and then destructs every variable it has |
| SessionHistory.BeginDoes | dependencies/com_spi/ComMgmtSpiSession_1.h:107-131 | beginning a session ends with every callback called, in order |
| SessionHistory.AliveIsHistory | dependencies/com_spi/ComMgmtSpiSession_1.h:107-165 | in every run a session is alive exactly from its beginning to its end, and a callback registered exactly until it is withdrawn |
| SessionHistory.StepBinding | dependencies/com_spi/ComMgmtSpiSession_1.h:107-165 | which session a thread is bound to after each request |
| SessionHistory.BindingStays | dependencies/com_spi/ComMgmtSpiSession_1.h:141-150 | a bound thread stays bound through anything other threads do until the session ends |
| SessionHistory.SessionCodes | dependencies/com_spi/ComMgmtSpiSession_1.h:107-263 | what each request is answered |
| Sessions.SetThenRead | dependencies/com_spi/ComMgmtSpiSession_1.h:219-296 | a variable reads as the last value set for it and no other variable of any session changes |
| Sessions.VariableIsRemembered | dependencies/com_spi/ComMgmtSpiSession_1.h:219-296 | a variable reads as it was set after any run that neither sets it again nor ends its session |
| Sessions.NewSessionReadsInputs | dependencies/com_spi/ComMgmtSpiSession_1.h:107-131 | a new session's variables are those it was given, the last of each name, and no other session changes |
| Sessions.SessionService.InitNewSession | dependencies/com_spi/ComMgmtSpiSession_1.h:107-131 | one step of the machine: variables first, then the created-callbacks; AlreadyExist if the thread is bound |
| Sessions.SessionService.GetActive | dependencies/com_spi/ComMgmtSpiSession_1.h:132-139 | the thread's session, NotExist if none is bound |
| Sessions.SessionService.Activate | dependencies/com_spi/ComMgmtSpiSession_1.h:141-150 | one step of the machine: bound, or unbound by 0, and never destroyed |
| Sessions.SessionService.Destroy | dependencies/com_spi/ComMgmtSpiSession_1.h:152-165 | one step of the machine: callbacks, then every destructor, then unbound; Ok exactly if all destructors were |
| Sessions.SessionService.SetSessionVariable | dependencies/com_spi/ComMgmtSpiSession_1.h:219-263 | one step of the machine: created, or overwritten after destructing the old value |
| Sessions.SessionService.GetVariable | dependencies/com_spi/ComMgmtSpiSession_1.h:265-296 | the variable's data exactly if it exists |
| ThreadContext.IteratorIsSnapshot | dependencies/com_spi/ComMgmtSpiThreadContext_2.h:129-145 | in every run what a live iterator has given, followed by what it holds, is the category's messages at its creation |
| ThreadContext.IterationGivesAll | dependencies/com_spi/ComMgmtSpiThreadContext_2.h:147-164 | in every run an iteration that nextMessage brings to its end has given exactly the category's messages at its creation, and gives nothing more |
| ThreadContext.UsableExactlyUntil | dependencies/com_spi/ComMgmtSpiThreadContext_2.h:147-175 | a handle stays usable exactly while its category is not cleared, it is not released and no more is asked for than it had |
| ThreadContext.HandleCodes | dependencies/com_spi/ComMgmtSpiThreadContext_2.h:147-175 | nextMessage answers Ok exactly while the handle is usable, with a message unless the iteration is over; release answers Ok exactly while the handle is there |
| ThreadContext.HoldingStays | dependencies/com_spi/ComMgmtSpiThreadContext_2.h:188-222 | the handle of getMessages stays until it is released |
| ThreadContext.CategoryHoldsAdded | dependencies/com_spi/ComMgmtSpiThreadContext_2.h:109-127 | a category holds what was added since it was last cleared, in order |
| ThreadContext.ThreadContexts.Next | dependencies/com_spi/ComMgmtSpiThreadContext_2.h:147-164 | one step of the machine on the calling thread; other threads' contexts stay |
| ThreadContext.ThreadContexts.Clear | dependencies/com_spi/ComMgmtSpiThreadContext_2.h:166-175 | one step of the machine: the category is emptied and exactly its iterators are invalidated |

## Left out

- `ReplicatedLists.ListStore.ListCreate`: does not model the cluster-restart branch that reuses or removes old files, nor
  failures of the file system and of the information model, because they are outside state.
- `ReplicatedLists.ListStore.NextItem`: does not model the branch for a stored item that vanished from disk, which a
  consistent list never reaches, nor a cursor whose item is erased while it stands there, which the header does not define.
- `PreparedTransactions.OnlyCommitOrAbort`: does not refuse look-ups and the return of outstanding MO calls, which the
  header's sentence would and which a participant needs until the transaction ends.
- `DeletionPoints.DeletedObjectsList.WakeBelow`: visits the subtree in any order over one map from path to kind; the code's
  nested maps, and the object name each point carries, are not modelled.
- `MoStoreModule.MoStore.CommitTx`: does not model a participant that fails to commit; its error code is an answer to the
  coordinator, and `TransactionalStores` says what is then installed.
- `MoStoreModule.MoStore.NewMoIterator`: the order in which keys are given is not modelled, because no interface promises one.
- The other half of the transaction cache: created and modified objects, structs, name translation and administrative
  ownership in the information model.
- Model rules on MOs (known classes and attributes, mandatory and read-only attributes, value ranges), actions and
  attribute types: values are lists of strings.
- Filter matching: a predicate passed to the producer. Nested calls of the router from its own callbacks.
- Memory ownership, null arguments, error texts and real threads: handles are numbers, threads are identifiers and
  concurrency is the interleaving of steps.
- Component start and stop order, the interface portal, crypto, access management, logging, performance and fault
  management structures, and the general properties and documentation getters of the model repository.
