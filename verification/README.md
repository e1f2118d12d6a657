# Ferrocrate core protocols in Dafny

This project models the stateful core of Ferrocrate and proves what it keeps over whole
runs. `dafny verify dfyconfig.toml` checks everything.

**Named networks** (`Network*.dfy`, `JournalFraming.dfy`). Creating and deleting a named
network is a write-ahead protocol over three durable parts: an append-only framed journal,
the network store (`networks.json`) and the kernel's bridge table. A crash may fall between
any two steps; recovery then settles what is pending. The model has three layers.

- `NetworkProtocol` is a state machine. A `World` is journal, store and bridge table; an
  `Event` is one durable step; `Legal` says which steps the protocol allows. A crash leaves
  the state after a prefix of a run, so what is proved for every run holds for every crash
  state.
- `NetworkRuntime.Runtime`, `NetworkLifecycle` and `NetworkRecovery` are the code itself.
  Every durable effect is appended to a ghost trace, and `Valid()` says the trace is a legal
  run that leads to the current state. Any durable step may be the last before a crash, and
  anyone else may change the kernel between two steps (`interference` counts that). Failures
  of the kernel and of the store are counted too (`kernelFaults`, `storeFaults`), so that the
  contracts can say what happens without them.
- `JournalFraming` is the byte format of the journal file.

`Runtime.Valid()` asks of the state the history began in only that its store has no name
twice; the journal need not even be readable. Create uses `Clean()`: the history began in a
state with the full invariant, such as an empty installation. Ids may collide: claims that
need two of them to differ say which two.

**Compose ordering** (`ServiceGraph.dfy`): Kahn's algorithm in batches over the `depends_on`
multigraph. **Compose fan-out** (`Fanout.dfy`, `FanoutReplay.dfy`): digest-bound plans,
dependent plans, the runtime's independent check of the same binding, and durable claims.
**Budgets** (`Budgets.dfy`): two atomic counters under every interleaving of threads.
**Image store** (`ImageStore.dfy`), **installer** (`Installer.dfy`) and the dashboard's
**log buffer** (`LogBuffer.dfy`).

Three properties one might expect, and one comment, are false of the code:

- Minting makes fewer checks than validation. A minted entry keeps the journal readable if
  and only if the name is not empty and no other name with the same uuid owns the chosen
  generation (`MintKeepsHistoryIff`; `EmptyNameBricks` and `SharedUuidBricks` are the inputs). Nothing makes the
  journal readable again (`CorruptForever`). This is a fault of minting that a user of the
  command line does not reach: `validate_network_name` (ferro-cli/src/main.rs:14398, called
  at 14506) keeps empty names out.
- A planned upgrade can work inside a directory it promises to preserve, because the planner
  compares paths component by component and in one direction: exactly when the directory,
  with `..` resolved, is the install directory, lies around it, or is one of the five places
  (`StateDirDisturbedIff`). `AncestorStateDirAccepted` and `DottedStateDirAccepted` are inputs.
- Exact deletion relies on interface indexes never coming back. An identity can come back if
  and only if its index is the 32-bit maximum (`CanReturnIff`), and the program does it by
  itself once its counter is there (`SaturatedCounterReusesIdentity`). Every lower index is
  safe, also after the counter has saturated (`RecreatedBridgeSurvives`).
- The comment above `recover_network_lifecycles` says that absent creates are re-applied.
  The code leaves them pending, and so does the model (`RecoverUnobserved`).

## Model

| member | source | states |
|---|---|---|
| `Bytes.BigEndianRoundTrip` | ferro-cli/src/network_lifecycle.rs:683-684 | reading back a written integer that fits gives the integer |
| `Bytes.BigEndianCanonical` | ferro-cli/src/network_lifecycle.rs:683-684 | writing back a read integer gives the same bytes |
| `Bytes.BigEndianDigit` | ferro-cli/src/network_lifecycle.rs:683-684 | byte `i` from the left is the base-256 digit of that weight |
| `JournalFraming.FramesPrefix` | ferro-cli/src/network_lifecycle.rs:677-708 | unique readability: frames at the front of a frame stream are its first payloads |
| `JournalFraming.JournalUnique` | ferro-cli/src/network_lifecycle.rs:666-710 | a file has at most one reading as a bounded list of payloads |
| `JournalFraming.TruncationIsDetected` | ferro-cli/src/network_lifecycle.rs:663-710 | a strict prefix of a journal is accepted if and only if it is empty or cut at a frame boundary, and then reads as the frames before the cut |
| `JournalFraming.FrameAtIff` | ferro-cli/src/network_lifecycle.rs:678-697 | a frame is read exactly when some payload within bounds is framed there, and it is that payload; anything else is refused |
| `JournalFraming.DecodeJournal` | ferro-cli/src/network_lifecycle.rs:666-710 | decoding returns the file's own reading, whose encoding is the file, and fails only when no reading parses |
| `JournalFraming.EncodeOperations` | ferro-cli/src/network_lifecycle.rs:724-746 | writing fails exactly on the two size bounds and otherwise produces the encoding of the whole list |
| `JournalFraming.WriteThenRead` | ferro-cli/src/network_lifecycle.rs:666-746 | every list that can be written is read back unchanged, for any inverse codec with non-empty output |
| `NetworkTypes.IntendedUpToLinkLocal` | ferro-cli/src/network_lifecycle.rs:1115-1135 | an acceptable observation is exactly the intended identity with a non-zero index, and at most a link-local address that was not asked for |
| `NetworkJournal.SameBindingIff` | ferro-cli/src/network_lifecycle.rs:890-896 | entries have the same binding exactly when they differ in phase, observation and detail alone |
| `NetworkJournal.SingleEntryValidIff` | ferro-cli/src/network_lifecycle.rs:910-951 | what validation asks of an entry on its own, field by field |
| `NetworkJournal.LastIndex` | ferro-cli/src/network_lifecycle.rs:796-814 | the last place where an operation occurs, without reference to the map |
| `NetworkJournal.LatestIsLast` | ferro-cli/src/network_lifecycle.rs:904-955 | the latest-entry map holds exactly the last entry of every operation id |
| `NetworkJournal.HistoryIsLattice` | ferro-cli/src/network_lifecycle.rs:845-955 | entry-by-entry validation accepts exactly the journals with one binding per id, one owner per resource generation and only legal lives |
| `NetworkJournal.LivesAreBounded` | ferro-cli/src/network_lifecycle.rs:845-955 | a create has at most three entries and a delete at most two, and an entry that another follows is not terminal |
| `NetworkJournal.NothingFollowsTerminal` | ferro-cli/src/network_lifecycle.rs:855-888 | no entry of an operation follows its terminal entry |
| `NetworkJournal.ValidateOperationHistory` | ferro-cli/src/network_lifecycle.rs:904-955 | succeeds if and only if the journal forms the identity lattice, and returns the last entry of every id |
| `NetworkJournal.ScanHistory` | ferro-cli/src/network_lifecycle.rs:904-955 | the loop over two maps decides the recursive definition of a valid history |
| `NetworkJournal.CheckEntry` | ferro-cli/src/network_lifecycle.rs:910-951 | the checks against the two maps accept an entry exactly when it may follow all earlier entries |
| `NetworkJournal.NextGenerationIsNext` | ferro-cli/src/network_lifecycle.rs:836-843 | above every generation journaled under the name, and the next one after some such generation or 1 |
| `NetworkJournal.MintKeepsHistoryIff` | ferro-cli/src/network_lifecycle.rs:972-1016 | a minted entry keeps the journal valid if and only if the name is not empty and no other name with the same uuid owns the chosen generation |
| `NetworkJournal.EmptyNameBricks` | ferro-cli/src/network_lifecycle.rs:972-1016 | the failing input: an empty name passes minting on an empty journal and leaves a journal that validation rejects |
| `NetworkJournal.SharedUuidBricks` | ferro-cli/src/network_lifecycle.rs:925-934 | the other failing input: a second name with the uuid of the first is minted at the same generation and leaves a journal that validation rejects |
| `NetworkJournal.CorruptForever` | ferro-cli/src/network_lifecycle.rs:904-955 | no later entry makes an invalid journal valid |
| `NetworkJournal.StepKeepsHistory` | ferro-cli/src/network_lifecycle.rs:1022-1080 | a checkpoint always keeps the history valid; any locked append does unless the journal then holds an empty name or two names with one uuid |
| `NetworkJournal.BuiltJournalIsValid` | ferro-cli/src/network_lifecycle.rs:972-1080 | every journal grown from nothing by locked appends is within the frame bound and valid up to its last entry, and valid altogether unless it holds an empty name or two names with one uuid |
| `NetworkJournal.GenerationsBounded` | ferro-cli/src/network_lifecycle.rs:836-843 | in a reachable journal generations lie between 1 and the number of frames |
| `NetworkJournal.IdsMinted` | ferro-cli/src/network_lifecycle.rs:957-1016 | in a reachable journal every id was minted from its own binding at an earlier journal length |
| `NetworkJournal.MintNeverCollides` | ferro-cli/src/network_lifecycle.rs:972-1016 | unless one of finitely many earlier id inputs collides with the new one, the freshness check never refuses on a reachable journal, so minting succeeds exactly on a consistent request |
| `NetworkJournal.ReadPendingOperations` | ferro-cli/src/network_lifecycle.rs:796-814 | the pending view is exactly the operations whose last entry is not terminal, once each, whatever newer operations share the name |
| `NetworkJournal.NonTerminal` | ferro-cli/src/network_lifecycle.rs:803-813 | filtering the map lists every open operation once, in some order |
| `NetworkKernel.CreatedIsIntended` | ferro-cli/src/network_lifecycle.rs:526-547 | the bridge the kernel makes satisfies the create's intent, whatever the record, and has the next index; the counter moves on by one until its maximum; every other bridge stays |
| `NetworkKernel.CreateEvolves` | ferro-cli/src/network_lifecycle.rs:526-547 | creation hands out only an index the counter has not passed |
| `NetworkKernel.DestroyEvolves` | ferro-cli/src/network_lifecycle.rs:549-564 | destruction removes the named bridge and no other |
| `NetworkKernel.KernelRunOk` | ferro-cli/src/network_lifecycle.rs:525-574 | in every run every live index is one the counter has passed, and the counter never falls |
| `NetworkKernel.IdentityNeverReturns` | ferro-cli/src/network_lifecycle.rs:525-574 | an identity whose index is below the maximum never comes back in any run once it has gone, even after the counter has saturated |
| `NetworkKernel.CanReturnIff` | ferro-cli/src/network_lifecycle.rs:525-574 | over all runs, an identity can come back if and only if its index is the maximum |
| `NetworkKernel.SaturatedCounterReusesIdentity` | ferro-cli/src/network_lifecycle.rs:527-529 | from any kernel whose counter has reached the maximum, the program's own create, delete, create brings the identity back |
| `NetworkStore.SortIsSortedPermutation` | ferro-cli/src/network_lifecycle.rs:1492-1494 | sorting by name orders the records and neither loses nor adds one |
| `Ordering.LeqIsLexicographic` | ferro-cli/src/network_lifecycle.rs:1493 | names are ordered by their first differing character, ascending, and a prefix comes first |
| `NetworkStore.PublishKeepsStore` | ferro-cli/src/network_lifecycle.rs:1480-1495 | publishing a new name keeps the store sorted without repeated names and adds exactly that record |
| `NetworkStore.WithoutName` | ferro-cli/src/network_lifecycle.rs:1669-1673 | unpublishing keeps exactly the records under other names |
| `NetworkStore.UnpublishKeepsStore` | ferro-cli/src/network_lifecycle.rs:1669-1673 | unpublishing keeps names distinct and the order |
| `NetworkProtocol.PrefixIsLegal` | ferro-cli/src/network_lifecycle.rs:1137-1272 | every prefix of a legal run, hence every crash state, is a legal run |
| `NetworkProtocol.StepIsLegal` | ferro-cli/src/network_lifecycle.rs:1137-1410 | every event of a legal run was allowed in the state it met |
| `NetworkProtocol.StartIsGood` | ferro-cli/src/network_lifecycle.rs:449-458 | an empty installation satisfies the invariant |
| `NetworkProtocol.EventKeepsInv` | ferro-cli/src/network_lifecycle.rs:1137-1717 | every single durable step keeps the full invariant |
| `NetworkProtocol.RunInvariant` | ferro-cli/src/network_lifecycle.rs:1497-1717 | in every crash state: the journal is valid unless it holds an empty name or two names with one uuid, each stored record has an observed create with exactly that record, at most one create is pending per name and per bridge, and no two differently named networks among store and pending creates share a bridge |
| `NetworkProtocol.RunKeepsNamesDistinct` | ferro-cli/src/network_lifecycle.rs:1480-1495 | from any journal and kernel, readable or not, every run keeps stored names distinct |
| `NetworkProtocol.AppendKeepsClaims` | ferro-cli/src/network_lifecycle.rs:1625-1655 | admission of a create and every checkpoint keep pending creates unique and bridges unshared |
| `NetworkProtocol.RunBuildsJournal` | ferro-cli/src/network_lifecycle.rs:1022-1080 | the journal of every run is one that locked appends built |
| `NetworkProtocol.JournalOnlyGrows` | ferro-cli/src/network_lifecycle.rs:1033-1041 | an earlier journal is a prefix of every later one |
| `NetworkProtocol.CommittedWhileStored` | ferro-cli/src/network_lifecycle.rs:1533-1561 | every commit entry was appended while its record was in the store |
| `NetworkProtocol.WriteAhead` | ferro-cli/src/network_lifecycle.rs:1137-1193 | whenever a bridge is made or destroyed, a mismatched orphan included, the last entry of the acting operation is a durable intent naming that bridge |
| `NetworkProtocol.StoredUntilRemoved` | ferro-cli/src/network_lifecycle.rs:1677-1717 | a record leaves the store only after the removal of its network was journaled since |
| `NetworkProtocol.KernelsOfRun` | ferro-cli/src/network_lifecycle.rs:525-574 | the bridge tables of a legal run form a run of the kernel |
| `NetworkProtocol.RecreatedBridgeSurvives` | ferro-cli/src/network_lifecycle.rs:549-564 | for every identity whose index is below the maximum: once the observed bridge has gone, no later destruction by that identity removes a recreated one |
| `NetworkProtocol.ClearedBridgeIsUnowned` | ferro-cli/src/network_lifecycle.rs:1160-1189 | whenever a create clears a bridge out of its way in a run, a stored record on that bridge has the create's own name |
| `NetworkRuntime.Runtime.WriteJournal` | ferro-cli/src/network_lifecycle.rs:724-777 | one entry more or nothing; refused only for the frame bound or the entry's size |
| `NetworkRuntime.Runtime.AppendEntry` | ferro-cli/src/network_lifecycle.rs:1022-1041 | on success a readable journal grew by the first entry of a new operation, field by field, and is readable afterwards exactly if the name is usable; without a crash it fails only for one of the checked reasons |
| `NetworkRuntime.Runtime.CheckCheckpoint` | ferro-cli/src/network_lifecycle.rs:1046-1073 | accepts exactly a legal transition of an operation journaled in a readable journal, with an unchanged binding |
| `NetworkRuntime.Runtime.AppendCheckpoint` | ferro-cli/src/network_lifecycle.rs:1046-1080 | the journal grows by exactly the checkpoint or not at all and stays readable or unreadable; without a crash it fails only for one of the checked reasons |
| `NetworkRuntime.Runtime.ObserveBridge` | ferro-cli/src/network_lifecycle.rs:566-574 | answers with the bridge in the table, its absence, or a failure, exactly as the table and its unreadable names say, and changes nothing |
| `NetworkRuntime.Runtime.CreateBridge` | ferro-cli/src/network_lifecycle.rs:526-547 | success makes exactly the record's bridge; an error is a counted kernel fault or the death of the process |
| `NetworkRuntime.Runtime.DestroyBridge` | ferro-cli/src/network_lifecycle.rs:549-564 | removes only the very identity asked for; undisturbed, it succeeds whenever that bridge stands; an error without a fault means another bridge under the name |
| `NetworkRuntime.Runtime.PublishRecord` | ferro-cli/src/network_lifecycle.rs:1480-1495 | without a crash, published exactly if the store could be read and written and no different record holds the name; a stored record changes nothing; a conflict and a store fault are told apart |
| `NetworkRuntime.Runtime.FindByName` | ferro-cli/src/network_lifecycle.rs:1482 | finds the one record with the name if and only if there is one |
| `NetworkRuntime.Runtime.UnpublishRecord` | ferro-cli/src/network_lifecycle.rs:1669-1673 | either nothing changes or exactly the records under this name go |
| `NetworkRuntime.Runtime.ResolveOrphan` | ferro-cli/src/network_lifecycle.rs:1160-1189 | undisturbed, it adopts exactly an intended bridge under a deterministic name, clears a different one, and fails only if the bridge cannot be observed; no other bridge changes |
| `NetworkRuntime.Runtime.RunNetworkCreate` | ferro-cli/src/network_lifecycle.rs:1137-1272 | Ok only with intent and satisfying observation journaled as the last two entries of a readable journal; quarantine is journaled and needs a kernel fault, interference or an unobservable bridge; undisturbed, the identity is known beforehand and only a crash or lack of room prevents success; an unusable name never succeeds |
| `NetworkRuntime.Runtime.BeginCreate` | ferro-cli/src/network_lifecycle.rs:1142-1158 | the durable intent; with room only a crash prevents it, and the observation will then have room too |
| `NetworkRuntime.Runtime.ApplyCreate` | ferro-cli/src/network_lifecycle.rs:1160-1271 | everything after the intent: undisturbed, it ends with the expected identity journaled; only a crash or lack of room prevents that |
| `NetworkRuntime.Runtime.CreateFresh` | ferro-cli/src/network_lifecycle.rs:1191-1271 | undisturbed, it ends with the next identity of the kernel, live and journaled; a kernel fault is journaled as quarantine with what was then observed |
| `NetworkRuntime.Runtime.RecordObservation` | ferro-cli/src/network_lifecycle.rs:1217-1271 | an observation that satisfies the intent is journaled and returned, any other is quarantined with it as evidence; only a crash or lack of room prevents either |
| `NetworkRuntime.Runtime.QuarantineCreate` | ferro-cli/src/network_lifecycle.rs:1201-1214 | the quarantine entry with its evidence and reason, prevented only by a crash or lack of room |
| `NetworkRuntime.Runtime.FindObserved` | ferro-cli/src/network_lifecycle.rs:1504-1517 | the reverse search finds an observed create of this record if and only if the list holds one |
| `NetworkRuntime.Runtime.FoundIsMinted` | ferro-cli/src/network_lifecycle.rs:1503-1517 | whatever order the pending list has, the search finds the operation that was just observed |
| `NetworkRuntime.Runtime.LocateObserved` | ferro-cli/src/network_lifecycle.rs:1503-1517 | succeeds exactly on a readable journal, and what it finds is the newest journal entry: the not-found error cannot occur |
| `NetworkRuntime.Runtime.PublishAndCommit` | ferro-cli/src/network_lifecycle.rs:1519-1561 | Ok with the record stored and committed; quarantined exactly for a different record under the name; a store fault leaves the observed create pending for recovery; otherwise only a crash or lack of room prevents success |
| `NetworkRuntime.Runtime.RunNetworkCreateAndPublish` | ferro-cli/src/network_lifecycle.rs:1497-1561 | on success the journal grew by the complete life of the one minted operation and the record is stored; the store never loses or gains anything else; undisturbed, with room and without a conflicting record, only a crash prevents success |
| `NetworkLifecycle.DeleteRecordKeepsIdentity` | ferro-cli/src/network_lifecycle.rs:1457-1478 | the delete record keeps the whole identity but its index, exactly when no address in it is an empty string; subnet and gateway are the address or the wildcard |
| `NetworkLifecycle.RunNetworkDelete` | ferro-cli/src/network_lifecycle.rs:1291-1410 | success only with the bridge absent and its exact removal journaled; every other bridge, and one with another identity, is untouched; without interference it is quarantined exactly if the bridge cannot be observed, another one stands or the kernel failed; undisturbed, the journal grows by exactly the entries known beforehand, and with room only a crash gives another answer |
| `NetworkLifecycle.DeleteAbsent` | ferro-cli/src/network_lifecycle.rs:1302-1315 | absence is success with its one entry; only a crash or lack of room prevents it |
| `NetworkLifecycle.DeleteExact` | ferro-cli/src/network_lifecycle.rs:1316-1363 | intent, exact destruction and removal in that order, entry by entry; quarantined exactly for a kernel fault; undisturbed and with room only a crash prevents success |
| `NetworkLifecycle.DestroyAndRecord` | ferro-cli/src/network_lifecycle.rs:1327-1362 | after the intent: the standing bridge is destroyed and its removal journaled, or the kernel failed |
| `NetworkLifecycle.RefuseDelete` | ferro-cli/src/network_lifecycle.rs:1364-1409 | a refused delete journals exactly its intent and its quarantine and nothing else happens; only a crash or lack of room prevents it |
| `NetworkLifecycle.RecordDestruction` | ferro-cli/src/network_lifecycle.rs:1328-1362 | removal is journaled exactly for a destroyed or already absent bridge, quarantine for any other failure, each with its reason |
| `NetworkLifecycle.AdmissionChecked` | ferro-cli/src/network_lifecycle.rs:1639-1655 | the two admission scans establish the protocol's admission rule |
| `NetworkLifecycle.Admit` | ferro-cli/src/network_lifecycle.rs:1639-1655 | each refusal before a create has exactly its own cause: an unreadable journal, a pending lifecycle, a store fault, a taken bridge |
| `NetworkLifecycle.CreateAuthorized` | ferro-cli/src/network_lifecycle.rs:1625-1667 | the permit ends as failed exactly on a pending or colliding request, before any effect, and stays unfinished only when not permitted or when journal or store cannot be read; a request that nothing hinders is answered with the identity known beforehand, or the process died |
| `NetworkLifecycle.DeleteAuthorized` | ferro-cli/src/network_lifecycle.rs:1677-1717 | refused before any effect exactly while an endpoint names the network; the record leaves the store only behind a journaled exact removal; undisturbed, with room and nothing to refuse, only a crash prevents success |
| `NetworkRecovery.PendingPhase` | ferro-cli/src/network_lifecycle.rs:845-888 | which phases a pending operation of a valid journal can be in |
| `NetworkRecovery.Settle` | ferro-cli/src/network_lifecycle.rs:1046-1080 | the journal grows by exactly the given ending; without a crash this is refused only if the journal is full or this very entry does not fit a frame |
| `NetworkRecovery.EndingsFitBySize` | ferro-cli/src/network_lifecycle.rs:724-746 | with a frame test by size, an operation that leaves 128 bytes free has room for every entry recovery may write |
| `NetworkRecovery.RecoverUnmarked` | ferro-cli/src/network_lifecycle.rs:1853-1871 | an intent without identity is quarantined, whatever the kernel says |
| `NetworkRecovery.RecoverUnobserved` | ferro-cli/src/network_lifecycle.rs:1878-1907 | left alone if the bridge is absent, otherwise quarantined |
| `NetworkRecovery.RecoverObserved` | ferro-cli/src/network_lifecycle.rs:1909-1974 | committed if and only if the recorded bridge still stands, the store could be read and written and no different record holds the name; otherwise quarantined; never a changed store for a bridge that does not stand |
| `NetworkRecovery.RecoverDelete` | ferro-cli/src/network_lifecycle.rs:1976-2003 | removed exactly if the bridge is absent, otherwise quarantined; never replayed |
| `NetworkRecovery.RecoverOne` | ferro-cli/src/network_lifecycle.rs:1838-2006 | one round: a verdict the bridge table allows, exactly the journal entry of that verdict with its reason, a faithful report line, and an untouched kernel |
| `NetworkRecovery.RoundAdvances` | ferro-cli/src/network_lifecycle.rs:1838-2006 | a round keeps what earlier rounds achieved for all operations visited so far |
| `NetworkRecovery.EndOfRecovery` | ferro-cli/src/network_lifecycle.rs:1831-2009 | after the last round everything pending is of the one kind left alone, and every operation is reported and resolved |
| `NetworkRecovery.RecoverAll` | ferro-cli/src/network_lifecycle.rs:1838-2008 | the loop does this for a pending list in any order |
| `NetworkRecovery.RecoverNetworkLifecycles` | ferro-cli/src/network_lifecycle.rs:1831-2009 | recovery converges: a readable journal with room is stopped only by a crash and an unreadable one before any effect; the kernel is unchanged, only never-observed creates with an absent bridge stay pending, every pending operation ends in a phase its bridge allows, an interrupted publication is committed exactly if the store could be read in its round, and a second recovery changes nothing |
| `ServiceGraph.LevelIsExact` | ferro-compose/src/service_graph.rs:77-101 | a longest chain of `k + 1` is being reachable at level `k + 1` and not before |
| `ServiceGraph.LongChainHasCycle` | ferro-compose/src/service_graph.rs:103-108 | a chain longer than the number of services closes a cycle |
| `ServiceGraph.StuckIffCycle` | ferro-compose/src/service_graph.rs:103-108 | when no level follows, services are left over if and only if the graph has a cycle |
| `ServiceGraph.ReadyIsWithin` | ferro-compose/src/service_graph.rs:81-101 | with levels up to `k` done exactly the services of level `k + 1` have no open edge, repeated edges counted as often as listed |
| `ServiceGraph.AddDependencies` | ferro-compose/src/service_graph.rs:46-61 | one service's list: fails exactly on an unknown required dependency, otherwise every known entry adds one edge and one to the in-degree |
| `ServiceGraph.BuildGraph` | ferro-compose/src/service_graph.rs:36-63 | fails exactly when some required dependency is unknown; otherwise counts and edges agree with every list in multiplicity |
| `ServiceGraph.InitialQueue` | ferro-compose/src/service_graph.rs:65-75 | the queue starts with exactly the services that have no open edge, once each |
| `ServiceGraph.Relax` | ferro-compose/src/service_graph.rs:88-97 | every child loses as many edges as it is listed, and exactly those reaching zero are queued, once each |
| `ServiceGraph.Complete` | ferro-compose/src/service_graph.rs:85-98 | taking a node off the queue moves every count on by that node |
| `ServiceGraph.RunBatch` | ferro-compose/src/service_graph.rs:82-100 | a batch is exactly the queue at its start, and leaves queued exactly what became ready meanwhile |
| `ServiceGraph.NextBatch` | ferro-compose/src/service_graph.rs:81-101 | one turn of the loop completes one level and makes progress |
| `ServiceGraph.RunBatches` | ferro-compose/src/service_graph.rs:77-101 | the batches are the levels, and `processed` counts them when the queue runs dry |
| `ServiceGraph.Finished` | ferro-compose/src/service_graph.rs:103-108 | the final count differs from the number of services exactly when there is a cycle |
| `ServiceGraph.FromCompose` | ferro-compose/src/service_graph.rs:35-111 | unknown-service and cycle errors are exact (self and repeated edges included); on success every service is in the batch of its longest dependency chain and in no other, whatever the map order |
| `ServiceGraph.LevelsRise` | ferro-compose/src/service_graph.rs:113-119 | a service sits strictly above everything it depends on |
| `ServiceGraph.FlatOrderCorrect` | ferro-compose/src/compose.rs:146-156 | flattening the levels gives every service once, dependencies first |
| `ServiceGraph.ComposeUp` | ferro-compose/src/compose.rs:146-156 | succeeds exactly on an acyclic file without unknown services; a permutation of the services with every dependency before its dependents |
| `ServiceGraph.ComposeDown` | ferro-compose/src/compose.rs:164-168 | the same services with every dependency after its dependents |
| `ServiceGraph.ReversalCorrect` | ferro-compose/src/compose.rs:164-168 | reversing a start order gives a stop order |
| `Fanout.MutationHead` | ferro-compose/src/fanout.rs:249-288 | one encoded mutation can be read off the front of any stream in only one way |
| `Fanout.MutationBytesLayout` | ferro-compose/src/fanout.rs:255-261 | where the fields of one mutation stand |
| `Fanout.PlanBytesLayout` | ferro-compose/src/fanout.rs:249-262 | where the fields stand in the hash input of a root plan |
| `Fanout.DependentBytesLayout` | ferro-compose/src/fanout.rs:185-196 | where they stand in that of a dependent plan |
| `Fanout.MutationListInjective` | ferro-compose/src/fanout.rs:249-288 | the mutation list is determined by its bytes although its length is not encoded |
| `Fanout.PlanBytesInjective` | ferro-compose/src/fanout.rs:234-288 | the root plan's hash input determines parent, generation, policy, deadline and the whole mutation list |
| `Fanout.DependentBytesInjective` | ferro-compose/src/fanout.rs:185-213 | the same for the input of a dependent plan |
| `Fanout.IdempotencyBytesInjective` | ferro-compose/src/fanout.rs:197-206 | the same for the input of an idempotency key |
| `Fanout.TagsNeverCoincide` | ferro-compose/src/fanout.rs:185-288 | inputs of the four kinds never coincide, whatever follows the tags |
| `Fanout.PlanDigestBinds` | ferro-compose/src/fanout.rs:234-309 | unless their inputs collide, equal plan digests mean equal plans in all but the attempt |
| `Fanout.FindOrdinal` | ferro-compose/src/fanout.rs:320-322 | finds a child with the ordinal if there is one |
| `Fanout.DerivedPlanIsBound` | ferro-compose/src/fanout.rs:234-309 | child `i` of a derived plan carries the parent, policy, deadline and attempt of the fan-out, mutation `i`, ordinal `i`, the plan's digest, and the key and id these derive; derivation fails exactly beyond 32-bit many mutations |
| `Fanout.DerivedChildExpiresIff` | ferro-compose/src/fanout.rs:316-326 | a derived child verifies exactly up to the deadline of its fan-out and is expired exactly after it |
| `Fanout.DependentPlanIsBound` | ferro-compose/src/fanout.rs:170-232 | a dependent plan has one child, one ordinal on, that carries the root's parent, policy, deadline and attempt and the new mutation; its digest covers the predecessor and its outcome |
| `Fanout.VerifiedIff` | ferro-compose/src/fanout.rs:316-326 | verification accepts exactly the plan's own children up to their deadline; expiry and replay are reported exactly |
| `Fanout.DependentAcceptedIff` | ferro-compose/src/fanout.rs:170-184 | exactly the next committed service and action can be derived, and only from a child of the plan |
| `Fanout.ChainStaysBound` | ferro-compose/src/fanout.rs:170-309 | along every chain of dependent plans the ordinal rises by one and stays below the commitment count, and the last child carries the root's parent, policy, deadline and attempt and the last link's mutation, field by field |
| `FanoutIntegrity.CodesAgree` | ferro-core/src/authorization.rs:354-366 | the two crates' action codes agree exactly on matching actions |
| `FanoutIntegrity.KeyInputsAgree` | ferro-core/src/authorization.rs:335-343 | the runtime's own layout of the key input is byte for byte the planner's, with the runtime's action code |
| `FanoutIntegrity.ChildInputsAgree` | ferro-core/src/authorization.rs:345-348 | the same for the input of the child id |
| `FanoutIntegrity.SameInputIff` | ferro-core/src/authorization.rs:334-366 | both crates hash the same bytes for a child if and only if it is carried with its planned action and service |
| `FanoutIntegrity.IntegrityValidIff` | ferro-core/src/authorization.rs:334-352 | the runtime's check of any context, in the planner's terms |
| `FanoutIntegrity.OriginMustAgree` | ferro-core/src/authorization.rs:506-513 | a request passes only under the id, parent and attempt of the child it carries |
| `FanoutIntegrity.PlannedChildPassesIff` | ferro-core/src/authorization.rs:334-513 | unless the two hash inputs collide, a planned child passes the runtime's separate check if and only if it is carried with its own action and service |
| `FanoutIntegrity.ChainPassesIntegrity` | ferro-core/src/authorization.rs:334-513 | every child on any chain from any root plan passes the runtime's check and stands for the root mutation at its ordinal |
| `FanoutReplay.EventKeepsClaims` | ferro-compose/src/fanout.rs:144-166 | every step of any run keeps claims and executions apart |
| `FanoutReplay.AtMostOnce` | ferro-compose/src/fanout.rs:407-436 | over any interleaving of runs and crashes no child id is executed twice, none without its durable claim, none past its deadline |
| `FanoutReplay.ReplayStore.Claim` | ferro-compose/src/fanout.rs:144-166 | succeeds exactly for a new child id while the database works, which is then durable; a replay is refused exactly as one |
| `FanoutReplay.ClaimValueLayout` | ferro-compose/src/fanout.rs:145-148 | a claim row holds key, plan digest and request digest |
| `FanoutReplay.ReplayStore.ExecuteChild` | ferro-compose/src/fanout.rs:420-433 | the child runs exactly if it verifies, its id is new and the database works, and what is reported is what happened to it |
| `FanoutReplay.ReplayStore.ExecuteFanout` | ferro-compose/src/fanout.rs:407-436 | a completed run reports one status per child in plan order: its outcome if this run executed it, and otherwise a failure that has its cause; the executions are exactly those children, in order, over a history that stays at-most-once |
| `Budgets.BudgetCounter.Record` | ferro-core/src/ai_runtime.rs:190-219 | charged exactly if the budget is unlimited or the sum fits; unchanged otherwise, with the overflow-safe figure in the error |
| `Budgets.BudgetCounter.Release` | ferro-core/src/ai_runtime.rs:228-242 | subtracts, clipping at zero |
| `Budgets.CognitiveBudgets.RecordUsage` | ferro-core/src/ai_runtime.rs:352-359 | both resources are charged or neither is, and the ending names the budget that refused and its figure |
| `Budgets.CognitiveBudgets.ReleaseMemory` | ferro-core/src/ai_runtime.rs:362-364 | subtracts from the memory counter alone, clipping at zero |
| `Budgets.UninterruptedUsage` | ferro-core/src/ai_runtime.rs:352-359 | however its exchanges fail spuriously, a call that no other thread interrupts is at every step on the way to exactly the ending and the counters of the sequential call |
| `Budgets.UsageEnds` | ferro-core/src/ai_runtime.rs:190-359 | and it has ended once five of its steps have not failed spuriously |
| `Budgets.UninterruptedRelease` | ferro-core/src/ai_runtime.rs:304-318 | the same for a release: nothing changes until it succeeds, and then exactly the amount goes |
| `Budgets.TokensBalance` | ferro-core/src/ai_runtime.rs:190-242 | one atomic step of one thread moves the token counter by exactly the change in the grants and in that thread's charge in flight |
| `Budgets.MemoryBalance` | ferro-core/src/ai_runtime.rs:267-318 | the same for the memory counter |
| `Budgets.StepKeepsExact` | ferro-core/src/ai_runtime.rs:190-318 | every step, spurious failures included, keeps both counters equal to the charges outstanding |
| `Budgets.CountersStayExact` | ferro-core/src/ai_runtime.rs:190-359 | under every interleaving, with any thread releasing what any other was granted, each limited counter equals the sum of outstanding charges and never exceeds its budget |
| `Budgets.RollbackIsExact` | ferro-core/src/ai_runtime.rs:352-359 | a charge refused by the memory budget is given back in full, with no clipping |
| `Budgets.ReleaseIsExact` | ferro-core/src/ai_runtime.rs:304-318 | giving back granted memory never clips |
| `ImageStore.AscendingUnique` | ferro-core/src/image_store.rs:398-474 | comparing two ordered inventories as lists compares them as sets |
| `ImageStore.Select` | ferro-core/src/image_store.rs:336-361 | exactly the references of the digest, ascending |
| `ImageStore.LocalImageStore.PutReference` | ferro-core/src/image_store.rs:128-180 | both rows or neither, and neither only for a database fault; every reference keeps a digest row |
| `ImageStore.LocalImageStore.RemoveReferenceIfDigest` | ferro-core/src/image_store.rs:321-334 | removed exactly while it still points at the digest; digest rows stay |
| `ImageStore.LocalImageStore.PrepareDigestDelete` | ferro-core/src/image_store.rs:336-361 | not-found, conflict and success are exact; a plan holds exactly the references of the digest |
| `ImageStore.LocalImageStore.ExecuteDigestDelete` | ferro-core/src/image_store.rs:398-474 | for any writes since planning: both tables unchanged, or exactly the planned references and the digest row are gone; it succeeds exactly with a matching permit per reference, a plan that is still the whole inventory and a working database, and each refusal has its own cause |
| `ImageStore.LocalImageStore.PruneReferences` | ferro-core/src/image_store.rs:555-570 | exactly the selected references go, counted once each; every remaining reference keeps its digest row |
| `ImageStore.DeleteEach` | ferro-core/src/image_store.rs:555-570 | the loop of deletions removes the set of selected references and counts it |
| `Installer.CheckStateDirs` | ferro-core/src/installer.rs:332-348 | the first directory that cannot be preserved decides the error |
| `Installer.PlanUpgrade` | ferro-core/src/installer.rs:327-358 | succeeds exactly on absolute paths with no state directory inside the install directory |
| `Installer.PlannedPlacesDistinct` | ferro-core/src/installer.rs:349-357 | the five places of a plan never coincide |
| `Installer.StartsWithIff` | ferro-core/src/installer.rs:341 | one path lies in another exactly when it goes on from it |
| `Installer.StateDirDisturbedIff` | ferro-core/src/installer.rs:325-348 | with `..` resolved: a planned upgrade works inside a directory it promises to preserve exactly when that directory is the install directory, lies around it, or is the place itself |
| `Installer.PlainStateDirDisturbedIff` | ferro-core/src/installer.rs:325-348 | without `..` in the two paths these are exactly the ancestors of the install directory |
| `Installer.DottedStateDirAccepted` | ferro-core/src/installer.rs:332-348 | the install directory itself, written with `..`, is accepted as a state directory |
| `Installer.AncestorStateDirAccepted` | ferro-core/src/installer.rs:332-348 | a state directory one level above the install directory is accepted, with the binary inside it |
| `Installer.Disk.Replace` | ferro-core/src/installer.rs:380-401 | one artifact is replaced with its backup kept, or the tree is as before up to the old backup |
| `Installer.Disk.RestoreBinary` | ferro-core/src/installer.rs:433-438 | undoing a replacement restores every file but the backups |
| `Installer.Disk.ReplaceObject` | ferro-core/src/installer.rs:405-429 | both artifacts replaced, or both back as they were |
| `Installer.Disk.ExecuteUpgrade` | ferro-core/src/installer.rs:363-430 | succeeds exactly with acceptable staged files and no failing step on its way, then with both installed and what they replaced in the backups; otherwise every file but the older backups ends as it began, and the error says which kind of failure it was |
| `Installer.Disk.ExecuteRollback` | ferro-core/src/installer.rs:446-468 | refused exactly without a backup; otherwise backups return, the rejected binary is parked and nothing else changes; for each rename that can fail, which files then stand where |
| `Installer.Disk.UpgradeThenRollback` | ferro-core/src/installer.rs:363-468 | rollback after an upgrade of both artifacts restores both and parks the rejected binary |
| `LogBuffer.TrimToBytes` | ferro-cli/src/dashboard.rs:229-235 | trimming to a character boundary keeps the longest tail that fits |
| `LogBuffer.Utf8Spells` | ferro-cli/src/dashboard.rs:229-233 | a character takes as many bytes as its UTF-8 encoding, which spells it |
| `LogBuffer.ByteLenIsEncodedLength` | ferro-cli/src/dashboard.rs:229-237 | byte lengths are lengths of UTF-8 encodings |
| `LogBuffer.StillTooLong` | ferro-cli/src/dashboard.rs:239-246 | a suffix that did not fit never fits again |
| `LogBuffer.LogBuffer.Evict` | ferro-cli/src/dashboard.rs:239-246 | eviction stops at the longest suffix that fits both bounds |
| `LogBuffer.LogBuffer.Push` | ferro-cli/src/dashboard.rs:228-247 | after any pushes the entries are the longest suffix of the stored history within both bounds, bytes is their sum, and `truncated` is set exactly when something was dropped or trimmed |
| `LogBuffer.NothingTrimmed` | ferro-cli/src/dashboard.rs:229-236 | without an oversized entry the stored history is the push history |
| `LogBuffer.LogBuffer.Text` | ferro-cli/src/dashboard.rs:249-258 | the stored history from the first entry kept, after the marker exactly when an entry was evicted or a pushed entry exceeded the byte bound |

## Left out

- The journal lock is an atomic exclusive section: each locked append is one step. Reclaiming the lock of a dead owner is not modelled, and two reclaimers may race there.
- `classify_recovery` is not part of the model; nothing calls it.
- SHA-256, the JSON codec and the IPv6 link-local test are function parameters (`Host`, `Sha`, `serialize`, `parse`). Whether an entry's JSON fits a frame is `Host.fits`.
- Kernel calls, bridge command building, fsync and rename of the journal, SQLite and YAML are foreign code. A durable write either took effect or did not, and may be reported as failed either way.
- NetworkRuntime.Runtime.constructor: asks that no name is stored twice, which the program keeps but does not check.
- NetworkProtocol.RunInvariant: does not say that the store equals committed creates minus removals. A crash between a journaled removal and the rewrite of the store leaves a record that recovery never visits.
- NetworkJournal.NextGenerationIsNext: generations are unbounded numbers here and 64-bit in the program; by `GenerationsBounded` they stay far below that limit.
- NetworkRuntime.Runtime.PublishRecord: the program's recognition of a conflict by its error text is an error kind here.
- NetworkLifecycle.CreateAuthorized: a failure to finish the permit is not modelled; a permit is a verdict value. Principals, policies and the witness log are not part of this model.
- The file-backed kernel's effect counter is left out; it never influences an operation.
- NetworkRecovery.Settle: detail texts of journal entries are shortened here; the program appends the observed index or the error to some of them.
- NetworkJournal.ReadPendingOperations: a journal file that cannot be opened, or a lock that cannot be taken, ends the call before any effect and is not modelled, except as the failure of an append.
- ServiceGraph.AddDependencies: both forms of `depends_on` are one list of names with a required flag each.
- ServiceGraph.ComposeDown: reverses a value where the program reverses a vector in place.
- Compose file parsing, profiles and environment files would add only easy members.
- FanoutIntegrity.CodesAgree: runtime actions that no plan uses are one constructor with code 0, as in the program's default branch.
- Budgets.CountersStayExact: atomic operations are sequentially consistent steps; memory orderings are not modelled. Only memory that was granted is released.
- ImageStore.LocalImageStore.PruneReferences: only the deletion transaction is modelled; it does not recheck digests, so writes between the listing and the transaction are not ruled out.
- ImageStore.LocalImageStore.RemoveReferenceIfDigest: a database failure, which changes nothing, is not modelled here, nor in planning and pruning.
- Reference-write plans, lookup by prefix and the legacy directory check of the image store would add only easy members.
- Installer.Disk.ExecuteUpgrade: one forward step may fail and the restoring renames are taken to succeed, as the all-or-nothing promise needs. The disk is keyed by path, so the distinct paths are meant with `..` and links resolved. Directories and permissions are not modelled, and an older backup may be lost.
- Installer.StateDirDisturbedIff: resolves `..` but knows no symbolic links.
- Installer.Disk.UpgradeThenRollback: covers upgrades that replaced both artifacts. After an upgrade without a security object, rollback restores whatever older object backup exists.
- The log channel, terminal handling and the rest of the dashboard are I/O.
- Registry access, process execution, cgroups, floating-point CPU limits and the gateway scripts are not part of this model.
