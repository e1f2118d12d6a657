/**
 * The lifecycle code itself, as a class over its three durable parts. Every durable
 * effect is appended to the ghost `trace`; `Valid()` says the trace is a run of the
 * protocol that leads to the current state. Any durable step may be the last one
 * before a crash: the call then returns `Err(Crash)` and does nothing further, and the
 * next call starts from whatever is on disk. Between any two of its own steps the code
 * may find that someone else has changed the kernel.
 */
module NetworkRuntime {
  import opened Wrappers
  import opened NetworkTypes
  import opened NetworkJournal
  import opened NetworkKernel
  import opened NetworkStore
  import opened NetworkProtocol

  /** A run of the protocol from a state whose store holds no name twice. */
  ghost predicate Lawful(host: Host, origin: World, run: seq<Event>) {
    DistinctNames(origin.store) && LegalRun(host, origin, run)
  }

  /** `Lawful`, in a form that unfolds only where it is asked for. */
  ghost predicate History(host: Host, origin: World, trace: seq<Event>) {
    forall run {:trigger Lawful(host, origin, run)} :: run == trace ==> Lawful(host, origin, run)
  }

  /** How often someone else changed the kernel in a run. */
  function ForeignEvents(run: seq<Event>): nat {
    if run == [] then 0 else
      ForeignEvents(run[..|run| - 1]) + (if run[|run| - 1].Foreign? then 1 else 0)
  }

  /** The bridge called `name` can be observed, and is not there. */
  predicate Absent(kernel: KernelState, name: string) {
    name !in kernel.unreadable && name !in kernel.bridges
  }

  /** The bridge called `name` can be observed, and is this one. */
  predicate Standing(kernel: KernelState, name: string, identity: BridgeIdentity) {
    name !in kernel.unreadable && name in kernel.bridges && kernel.bridges[name] == identity
  }

  /** What an observation of `name` answers: the bridge in the table, its absence, or a failure. */
  ghost predicate Sees(kernel: KernelState, name: string, seen: Result<Option<BridgeIdentity>, Error>) {
    && (forall identity :: seen == Ok(Some(identity)) <==> Standing(kernel, name, identity))
    && (seen == Ok(None) <==> Absent(kernel, name))
    && (seen.Err? <==> name in kernel.unreadable)
  }

  /** Only the bridge called `name` differs between the two tables. */
  ghost predicate OnlyBridgeChanged(before: KernelState, after: KernelState, name: string) {
    before.bridges - {name} == after.bridges - {name}
  }

  predicate JournalError(error: Error) {
    error.JournalCorrupt? || error.JournalIo? || error.Crash?
  }

  /** What a create can fail with. */
  predicate CreateError(error: Error) {
    JournalError(error) || error.QuarantinedError? || error.KernelError? || error.NotFound?
  }

  /** How a permit ends: unused, finished with a verdict, or finished as unknown. */
  datatype PermitEnd = Unfinished | Finished(succeeded: bool) | FinishedUnknown

  class Runtime {
    const host: Host
    var journal: seq<Operation>
    var store: seq<NetworkRecord>
    var kernel: KernelState
    ghost const origin: World  // the state on disk when the history in `trace` began
    ghost var trace: seq<Event>
    ghost var interference: nat  // how often someone else has changed the kernel
    ghost var storeFaults: nat   // how often the store could not be read or written
    ghost var kernelFaults: nat  // how often making or removing a bridge failed of itself

    ghost function Durable(): World
      reads this
    {
      World(journal, store, kernel)
    }

    ghost predicate Valid()
      reads this
    {
      && History(host, origin, trace)
      && Replay(origin, trace) == Durable()
      && interference == ForeignEvents(trace)
    }

    /** The history began in a state that satisfies the full invariant, such as an empty installation. */
    ghost predicate Clean()
      reads this
    {
      Valid() && Inv(host, origin)
    }

    /** Starts on whatever is on disk; the journal need not even be readable. */
    constructor (host: Host, journal: seq<Operation>, store: seq<NetworkRecord>, kernel: KernelState)
      requires DistinctNames(store)
      ensures Valid() && trace == [] && this.host == host
      ensures Durable() == World(journal, store, kernel) && origin == Durable()
    {
      this.host := host;
      this.journal, this.store, this.kernel := journal, store, kernel;
      origin := World(journal, store, kernel);
      trace, interference, storeFaults, kernelFaults := [], 0, 0, 0;
    }

    lemma NamesDistinct()
      requires Valid()
      ensures DistinctNames(store)
    {
      assert Lawful(host, origin, trace);
      RunKeepsNamesDistinct(host, origin, trace);
    }

    lemma InvHolds()
      requires Clean()
      ensures Inv(host, Durable())
    {
      assert Lawful(host, origin, trace);
      RunInvariant(host, origin, trace);
    }

    lemma Extend(e: Event)
      requires Valid() && Legal(host, Durable(), e)
      ensures History(host, origin, trace + [e])
      ensures Replay(origin, trace + [e]) == Apply(Durable(), e)
      ensures ForeignEvents(trace + [e]) == interference + if e.Foreign? then 1 else 0
    {
      assert Lawful(host, origin, trace);
      RunExtends(host, origin, trace, e);
      assert (trace + [e])[..|trace|] == trace;
    }

    // ----- durable steps -----

    /** Someone else may change the kernel here. */
    method Interfere()
      requires Valid()
      modifies this`kernel, this`trace, this`interference
      ensures Valid() && old(trace) <= trace
      ensures interference >= old(interference)
      ensures interference == old(interference) ==> kernel == old(kernel) && trace == old(trace)
    {
      var changed: KernelState := *;
      if Evolves(kernel, changed) {
        Extend(Foreign(changed));
        trace := trace + [Foreign(changed)];
        interference := interference + 1;
        kernel := changed;
      }
    }

    /** Rewrites the journal with one more entry. */
    method WriteJournal(entry: Operation) returns (r: Result<(), Error>)
      requires Valid() && Readable(host, journal) && MayAppend(host, Durable(), entry)
      modifies this`journal, this`trace
      ensures Valid() && old(trace) <= trace
      ensures if trace == old(trace) then journal == old(journal)
              else journal == old(journal) + [entry] && trace == old(trace) + [Appended(entry)]
      ensures r.Ok? ==> journal == old(journal) + [entry] && trace == old(trace) + [Appended(entry)]
      ensures r.Err? && r.error != Crash ==> trace == old(trace) && (|journal| >= MAX_FRAMES || !host.fits(entry))
      ensures r.Err? ==> JournalError(r.error)
    {
      if |journal| + 1 > MAX_FRAMES {
        return Err(JournalCorrupt);
      }
      if !host.fits(entry) {
        return Err(JournalIo);
      }
      var crashBefore: bool := *;
      if crashBefore {
        return Err(Crash);
      }
      ReplaceJournal(entry);
      var crashAfter: bool := *;
      return if crashAfter then Err(Crash) else Ok(());
    }

    method ReplaceJournal(entry: Operation)
      requires Valid() && Legal(host, Durable(), Appended(entry))
      modifies this`journal, this`trace
      ensures Valid() && journal == old(journal) + [entry] && trace == old(trace) + [Appended(entry)]
    {
      Extend(Appended(entry));
      trace := trace + [Appended(entry)];
      journal := journal + [entry];
    }

    /** Mints the first entry of an operation and appends it; an empty name is the end of the journal. */
    method AppendEntry(name: string, action: Action, record: NetworkRecord, phase: Phase,
                       intended: Option<BridgeIdentity>, observed: Option<BridgeIdentity>,
                       detail: Option<string>) returns (r: Result<Operation, Error>)
      requires Valid()
      requires action.Create? ==> Admitted(Durable(), record) && intended == Some(IntendedIdentity(record))
      modifies this`journal, this`trace
      ensures Valid() && old(trace) <= trace && old(journal) <= journal
      ensures r.Ok? ==> journal == old(journal) + [r.value] && trace == old(trace) + [Appended(r.value)]
      ensures r.Ok? ==> IsFirstEntry(old(journal), r.value) && r.value.resource.name == name && r.value.action == action
                        && r.value.record == record && r.value.phase == phase && r.value.intended == intended
                        && r.value.observed == observed && r.value.detail == detail
                        && r.value.resource.uuid == host.uuid(name)
                        && r.value.resource.generation == NextGeneration(old(journal), name)
                        && r.value.opId == host.opId(name, action, r.value.resource.generation, |old(journal)|)
      ensures r.Ok? || journal != old(journal) ==> Readable(host, old(journal))
      ensures r.Ok? ==> (Readable(host, journal) <==> NameUsable(host, old(journal), name))
      ensures r.Err? && r.error != Crash ==> trace == old(trace) && journal == old(journal)
      ensures r.Err? && r.error != Crash ==>
                !CanAppend(host, old(journal), NewOperation(host, old(journal), name, action, record, phase, intended,
                                                            observed, detail))
      ensures r.Err? ==> JournalError(r.error) && |journal| <= |old(journal)| + 1
    {
      ghost var planned := NewOperation(host, journal, name, action, record, phase, intended, observed, detail);
      assert CanAppend(host, journal, planned) ==> FirstFits(host, journal, planned);
      var _ :- ValidateOperationHistory(host, journal);
      var operation :- MintOperation(host, journal, name, action, record, phase, intended, observed, detail);
      MintReadable(host, journal, name, action, record, phase, intended, observed, detail);
      var _ :- WriteJournal(operation);
      return Ok(operation);
    }

    /** The checks a checkpoint passes before anything is written. */
    method CheckCheckpoint(original: Operation, next: Operation) returns (r: Result<(), Error>)
      requires Valid()
      requires SameBinding(original, next)
      ensures r.Ok? <==>
              Readable(host, journal) && original.opId != "" && !IsTerminalPhase(original.phase)
              && CheckpointOn(journal, next)
      ensures r.Err? ==> r.error == JournalCorrupt
    {
      if original.opId == "" || IsTerminalPhase(original.phase) {
        return Err(JournalCorrupt);
      }
      var history :- ValidateOperationHistory(host, journal);
      if original.opId !in history {
        return Err(JournalCorrupt);
      }
      var prior := history[original.opId];
      if !SameBinding(prior, original) || prior.resource != original.resource
         || !IsLegalTransition(original.action, prior.phase, next.phase) {
        return Err(JournalCorrupt);
      }
      return Ok(());
    }

    /**
     * Appends a later entry of an operation that is already journaled; only a readable journal is
     * ever extended, and it stays readable.
     */
    method AppendCheckpoint(original: Operation, phase: Phase, observed: Option<BridgeIdentity>,
                            detail: Option<string>) returns (r: Result<(), Error>, ghost next: Operation)
      requires Valid()
      requires MayCheckpoint(host, Durable(), original.(phase := phase, observed := observed, detail := detail))
      modifies this`journal, this`trace
      ensures next == original.(phase := phase, observed := observed, detail := detail)
      ensures Valid() && old(trace) <= trace
      ensures if trace == old(trace) then journal == old(journal)
              else journal == old(journal) + [next] && trace == old(trace) + [Appended(next)]
      ensures r.Ok? ==>
                CheckpointOn(old(journal), next) && journal == old(journal) + [next]
                && trace == old(trace) + [Appended(next)]
      ensures Readable(host, journal) <==> Readable(host, old(journal))
      ensures journal != old(journal) ==> Readable(host, journal)
      ensures r.Err? && r.error != Crash ==> trace == old(trace) && !CanExtend(host, old(journal), original, next)
      ensures r.Err? ==> JournalError(r.error)
    {
      var checkpoint := original.(phase := phase, observed := observed, detail := detail);
      next := checkpoint;
      assert CanExtend(host, journal, original, next) ==> NextFits(host, journal, original, next);
      var _ :- CheckCheckpoint(original, checkpoint);
      CheckpointReadable(host, journal, checkpoint);
      r := WriteJournal(checkpoint);
    }

    /** Observation; it has no effect of its own. */
    method ObserveBridge(name: string) returns (r: Result<Option<BridgeIdentity>, Error>)
      requires Valid()
      modifies this`kernel, this`trace, this`interference
      ensures Valid() && old(trace) <= trace && interference >= old(interference)
      ensures interference == old(interference) ==> kernel == old(kernel) && trace == old(trace)
      ensures forall identity :: r == Ok(Some(identity)) <==>
                name !in kernel.unreadable && name in kernel.bridges && kernel.bridges[name] == identity
      ensures r == Ok(None) <==> name !in kernel.unreadable && name !in kernel.bridges
      ensures r.Err? <==> name in kernel.unreadable
      ensures r.Err? ==> r.error == KernelError
    {
      Interfere();
      r := if name in kernel.unreadable then Err(KernelError)
           else if name in kernel.bridges then Ok(Some(kernel.bridges[name]))
           else Ok(None);
    }

    /** Creation may fail before or after it took effect. */
    method CreateBridge(record: NetworkRecord, ghost maker: string) returns (r: Result<(), Error>)
      requires Valid()
      requires maker in LatestMap(journal) && LatestMap(journal)[maker].phase.IntentDurable?
               && LatestMap(journal)[maker].record == record
      modifies this`kernel, this`trace, this`interference, this`kernelFaults
      ensures Valid() && old(trace) <= trace && interference >= old(interference) && kernelFaults >= old(kernelFaults)
      ensures interference == old(interference) ==> OnlyBridgeChanged(old(kernel), kernel, record.bridgeName)
      ensures interference == old(interference) && r.Ok? ==> kernel == WithBridge(old(kernel), record)
      ensures r == Err(KernelError) <==> kernelFaults != old(kernelFaults)
      ensures r.Err? ==> r.error == KernelError || r.error == Crash
    {
      Interfere();
      var failsBefore: bool := *;
      if failsBefore {
        r := Fail();
        return;
      }
      MakeBridge(record, maker);
      var failsAfter: bool := *;
      if failsAfter {
        r := Fail();
        return;
      }
      return Ok(());
    }

    /** A kernel operation fails of itself, or the process dies in it. */
    method Fail() returns (r: Result<(), Error>)
      modifies this`kernelFaults
      ensures r == Err(Crash) || r == Err(KernelError)
      ensures kernelFaults == old(kernelFaults) + if r == Err(KernelError) then 1 else 0
    {
      var died: bool := *;
      if died {
        return Err(Crash);
      }
      kernelFaults := kernelFaults + 1;
      return Err(KernelError);
    }

    method MakeBridge(record: NetworkRecord, ghost maker: string)
      requires Valid()
      requires maker in LatestMap(journal) && LatestMap(journal)[maker].phase.IntentDurable?
               && LatestMap(journal)[maker].record == record
      modifies this`kernel, this`trace
      ensures Valid() && kernel == WithBridge(old(kernel), record) && trace == old(trace) + [BridgeMade(maker, record)]
      ensures OnlyBridgeChanged(old(kernel), kernel, record.bridgeName)
    {
      MakingIsLegal(host, Durable(), maker, record);
      Extend(BridgeMade(maker, record));
      trace := trace + [BridgeMade(maker, record)];
      kernel := WithBridge(kernel, record);
    }

    /** Destruction is exact: only the very identity asked for is removed. */
    method DestroyBridge(identity: BridgeIdentity, ghost remover: string) returns (r: Result<(), Error>)
      requires Valid()
      requires remover in LatestMap(journal) && LatestMap(journal)[remover].record.bridgeName == identity.name
      requires var op := LatestMap(journal)[remover];
               op.phase.IntentDurable? || (op.phase.DeleteIntentDurable? && op.intended == Some(identity))
      modifies this`kernel, this`trace, this`interference, this`kernelFaults
      ensures Valid() && old(trace) <= trace && interference >= old(interference) && kernelFaults >= old(kernelFaults)
      ensures interference == old(interference) ==> OnlyBridgeChanged(old(kernel), kernel, identity.name)
      ensures interference == old(interference) && r.Ok? ==>
                HasBridge(old(kernel), identity) && kernel == WithoutBridge(old(kernel), identity.name)
      ensures r.Ok? || r == Err(NotFound) ==> identity.name !in kernel.bridges
      ensures r.Err? ==> r.error == NotFound || r.error == KernelError || r.error == Crash
      ensures kernelFaults != old(kernelFaults) ==> r == Err(KernelError)
      ensures r == Err(KernelError) && kernelFaults == old(kernelFaults) ==>
                identity.name in kernel.bridges && !HasBridge(kernel, identity)
      ensures !HasBridge(old(kernel), identity) && interference == old(interference) ==> kernel == old(kernel)
      ensures HasBridge(old(kernel), identity) && Undisturbed(old(Condition()), Condition()) ==>
                r.Ok? || r == Err(Crash)
      ensures interference == old(interference) ==>
                kernel.nextIfindex == old(kernel).nextIfindex && kernel.unreadable == old(kernel).unreadable
    {
      Interfere();
      var failsBefore: bool := *;
      if failsBefore {
        r := Fail();
        return;
      }
      if identity.name !in kernel.bridges {
        return Err(NotFound);
      }
      if kernel.bridges[identity.name] != identity {
        return Err(KernelError);
      }
      RemoveBridge(identity, remover);
      var failsAfter: bool := *;
      if failsAfter {
        r := Fail();
        return;
      }
      return Ok(());
    }

    method RemoveBridge(identity: BridgeIdentity, ghost remover: string)
      requires Valid() && HasBridge(kernel, identity)
      requires remover in LatestMap(journal) && LatestMap(journal)[remover].record.bridgeName == identity.name
      requires var op := LatestMap(journal)[remover];
               op.phase.IntentDurable? || (op.phase.DeleteIntentDurable? && op.intended == Some(identity))
      modifies this`kernel, this`trace
      ensures Valid() && kernel == WithoutBridge(old(kernel), identity.name)
              && trace == old(trace) + [BridgeGone(remover, identity)]
      ensures OnlyBridgeChanged(old(kernel), kernel, identity.name) && identity.name !in kernel.bridges
    {
      RemovalIsLegal(host, Durable(), remover, identity);
      Extend(BridgeGone(remover, identity));
      trace := trace + [BridgeGone(remover, identity)];
      kernel := WithoutBridge(kernel, identity.name);
    }

    /**
     * Publication is idempotent for the same record and refuses a different one under the
     * same name. It reads the store first, and a store that cannot be read fails it, even
     * for a record that is already there.
     */
    method PublishRecord(record: NetworkRecord, ghost owner: string) returns (r: Result<(), Error>)
      requires Valid()
      requires PendingCreate(LatestMap(journal), owner) && LatestMap(journal)[owner].phase.IdentityObserved?
               && LatestMap(journal)[owner].record == record
      modifies this`store, this`trace, this`storeFaults
      ensures Valid() && old(trace) <= trace
      ensures if trace == old(trace) then store == old(store)
              else store == WithRecord(old(store), record) && trace == old(trace) + [Published(record)]
                   && !NameStored(old(store), record.name)
      ensures forall other :: other in old(store) ==> other in store
      ensures forall other :: other in store ==> other in old(store) || other == record
      ensures record in old(store) ==> trace == old(trace) && !Conflicting(old(store), record)
      ensures r.Ok? ==> record in store
      ensures r != Err(Crash) ==> (r.Ok? <==> storeFaults == old(storeFaults) && !Conflicting(old(store), record))
      ensures r == Err(StoreConflict) <==> storeFaults == old(storeFaults) && Conflicting(old(store), record)
      ensures storeFaults >= old(storeFaults) && (r == Err(JournalIo) <==> storeFaults != old(storeFaults))
      ensures r.Err? && r.error != Crash ==> trace == old(trace)
      ensures r.Err? ==> r.error == StoreConflict || r.error == JournalIo || r.error == Crash
    {
      assert DistinctNames(store) by {
        NamesDistinct();
      }
      var unreadable: bool := *;
      if unreadable {
        storeFaults := storeFaults + 1;
        return Err(JournalIo);
      }
      var existing := FindByName(store, record.name);
      if existing.Some? {
        r := if existing.value == record then Ok(()) else Err(StoreConflict);
      } else {
        PublishKeepsStore(store, record);
        r := SaveWithRecord(record, owner);
      }
    }

    lemma ExtendPublished(record: NetworkRecord, owner: string)
      requires Valid() && !NameStored(store, record.name)
      requires PendingCreate(LatestMap(journal), owner) && LatestMap(journal)[owner].phase.IdentityObserved?
               && LatestMap(journal)[owner].record == record
      ensures History(host, origin, trace + [Published(record)])
      ensures Replay(origin, trace + [Published(record)]) == Durable().(store := WithRecord(store, record))
      ensures ForeignEvents(trace + [Published(record)]) == interference
    {
      Extend(Published(record));
    }

    /** The atomic rewrite of the store with one more record. */
    method SaveWithRecord(record: NetworkRecord, ghost owner: string) returns (r: Result<(), Error>)
      requires Valid() && !NameStored(store, record.name)
      requires PendingCreate(LatestMap(journal), owner) && LatestMap(journal)[owner].phase.IdentityObserved?
               && LatestMap(journal)[owner].record == record
      modifies this`store, this`trace, this`storeFaults
      ensures Valid() && old(trace) <= trace
      ensures if trace == old(trace) then store == old(store)
              else store == WithRecord(old(store), record) && trace == old(trace) + [Published(record)]
      ensures r.Ok? ==> trace != old(trace)
      ensures storeFaults >= old(storeFaults) && (r == Err(JournalIo) <==> storeFaults != old(storeFaults))
      ensures r.Err? ==> r.error == Crash || (r.error == JournalIo && trace == old(trace))
    {
      var fails: bool := *;
      var diedBefore: bool := *;
      var diedAfter: bool := *;
      if diedBefore {
        return Err(Crash);
      }
      if fails {
        storeFaults := storeFaults + 1;
        return Err(JournalIo);
      }
      ReplaceWithRecord(record, owner);
      return if diedAfter then Err(Crash) else Ok(());
    }

    method ReplaceWithRecord(record: NetworkRecord, ghost owner: string)
      requires Valid() && !NameStored(store, record.name)
      requires PendingCreate(LatestMap(journal), owner) && LatestMap(journal)[owner].phase.IdentityObserved?
               && LatestMap(journal)[owner].record == record
      modifies this`store, this`trace
      ensures Valid() && store == WithRecord(old(store), record) && trace == old(trace) + [Published(record)]
    {
      ExtendPublished(record, owner);
      trace := trace + [Published(record)];
      store := WithRecord(store, record);
    }

    static method FindByName(records: seq<NetworkRecord>, name: string) returns (found: Option<NetworkRecord>)
      requires DistinctNames(records)
      ensures found.None? <==> !NameStored(records, name)
      ensures found.Some? ==> forall r :: r in records && r.name == name <==> r == found.value
    {
      for i := 0 to |records|
        invariant forall j :: 0 <= j < i ==> records[j].name != name
      {
        if records[i].name == name {
          assert forall j :: 0 <= j < |records| && j != i ==> records[j].name != name;
          return Some(records[i]);
        }
      }
      return None;
    }

    /** Removes the record of a network whose removal has just been journaled. */
    method UnpublishRecord(name: string) returns (r: Result<(), Error>)
      requires Valid() && journal != [] && IsRemovalOf(journal[|journal| - 1], name)
      modifies this`store, this`trace, this`storeFaults
      ensures Valid() && old(trace) <= trace
      ensures r.Ok? ==> store == WithoutName(old(store), name)
      ensures store == old(store) || store == WithoutName(old(store), name)
      ensures storeFaults >= old(storeFaults) && (r == Err(JournalIo) <==> storeFaults != old(storeFaults))
      ensures r == Err(JournalIo) ==> store == old(store)
      ensures r.Err? ==> r.error == JournalIo || r.error == Crash
    {
      var fails: bool := *;
      var diedAfter: bool := *;
      if fails {
        storeFaults := storeFaults + 1;
        return Err(JournalIo);
      }
      ReplaceWithoutName(name);
      return if diedAfter then Err(Crash) else Ok(());
    }

    method ReplaceWithoutName(name: string)
      requires Valid() && journal != [] && IsRemovalOf(journal[|journal| - 1], name)
      modifies this`store, this`trace
      ensures Valid() && store == WithoutName(old(store), name) && trace == old(trace) + [Unpublished(name)]
    {
      ExtendUnpublished(name);
      trace := trace + [Unpublished(name)];
      store := WithoutName(store, name);
    }

    lemma ExtendUnpublished(name: string)
      requires Valid() && journal != [] && IsRemovalOf(journal[|journal| - 1], name)
      ensures History(host, origin, trace + [Unpublished(name)])
      ensures Replay(origin, trace + [Unpublished(name)]) == Durable().(store := WithoutName(store, name))
      ensures ForeignEvents(trace + [Unpublished(name)]) == interference
    {
      Extend(Unpublished(name));
    }

    // ----- create -----

    /** Records an ambiguous create as quarantined; never a success. */
    method QuarantineCreate(intent: Operation, observed: Option<BridgeIdentity>, detail: string)
      returns (r: Result<BridgeIdentity, Error>)
      requires Valid()
      modifies this`journal, this`trace
      ensures Valid() && old(trace) <= trace && r.Err?
      ensures old(journal) <= journal && |journal| <= |old(journal)| + 1
      ensures r.error == QuarantinedError || JournalError(r.error)
      ensures r.error == QuarantinedError ==>
                journal == old(journal) + [QuarantineEntry(intent, observed, detail)]
      ensures r.error == QuarantinedError ==> LifeEnded(old(journal), journal, intent, Quarantined)
      ensures r.error == QuarantinedError || r.error == Crash
              || !CanExtend(host, old(journal), intent, QuarantineEntry(intent, observed, detail))
      ensures journal != old(journal) ==> Readable(host, old(journal))
      ensures Readable(host, journal) <==> Readable(host, old(journal))
    {
      var quarantined, _ := AppendCheckpoint(intent, Quarantined, observed, Some(detail));
      return Err(if quarantined.Ok? then QuarantinedError else quarantined.error);
    }

    /**
     * A bridge already standing under the requested deterministic name: an exact one is
     * adopted, a different one is destroyed by the identity just observed.
     */
    method ResolveOrphan(record: NetworkRecord, intended: BridgeIdentity, intent: Operation)
      returns (r: Result<Option<BridgeIdentity>, Error>)
      requires Clean() && intended == IntendedIdentity(record)
      requires intent.opId in LatestMap(journal) && LatestMap(journal)[intent.opId] == intent
      requires intent.phase.IntentDurable? && intent.record == record
      modifies this`kernel, this`trace, this`interference, this`kernelFaults
      ensures Valid() && old(trace) <= trace && interference >= old(interference) && kernelFaults >= old(kernelFaults)
      ensures interference == old(interference) ==> OnlyBridgeChanged(old(kernel), kernel, record.bridgeName)
      ensures interference == old(interference) && r.Ok? ==> r.value == Adoptable(host, old(kernel), record)
      ensures interference == old(interference) ==>
                kernel.nextIfindex == old(kernel).nextIfindex && kernel.unreadable == old(kernel).unreadable
      ensures r.Err? ==> r.error == KernelError || r.error == NotFound || r.error == Crash
      ensures r.Err? && r.error != Crash && interference == old(interference) && kernelFaults == old(kernelFaults) ==>
                record.bridgeName in old(kernel).unreadable
      ensures r.Ok? && r.value.Some? ==>
                IsIntendedObservation(host, intended, r.value.value)
                && record.bridgeName in kernel.bridges && kernel.bridges[record.bridgeName] == r.value.value
    {
      if !("fc-" <= record.bridgeName) {
        return Ok(None);
      }
      var seen :- ObserveBridge(record.bridgeName);
      if seen.Some? && IsIntendedObservation(host, intended, seen.value) {
        return Ok(seen);
      }
      if seen.Some? {
        InvHolds();
        assert LiveBridgeOk(kernel, record.bridgeName, seen.value);
        var _ :- DestroyBridge(seen.value, intent.opId);
      }
      return Ok(None);
    }

    /** The create lifecycle: intent, kernel effect, observation, observed identity. */
    method RunNetworkCreate(record: NetworkRecord)
      returns (r: Result<BridgeIdentity, Error>, ghost intent: Option<Operation>)
      requires Clean() && Admitted(Durable(), record)
      modifies this`journal, this`kernel, this`trace, this`interference, this`kernelFaults
      ensures r.Err? ==> CreateError(r.error)
      ensures Valid() && old(trace) <= trace && interference >= old(interference) && kernelFaults >= old(kernelFaults)
      ensures old(journal) <= journal && |journal| <= |old(journal)| + 2
      ensures interference == old(interference) ==> OnlyBridgeChanged(old(kernel), kernel, record.bridgeName)
      ensures intent.None? ==> r.Err? && kernel == old(kernel)
      ensures intent.Some? ==> |trace| > |old(trace)|
      ensures intent.Some? ==>
                |journal| > |old(journal)| && journal[|old(journal)|] == intent.value
                && IsCreateIntent(old(journal), intent.value, record)
                && intent.value == CreateIntent(host, old(journal), record)
      ensures r.Ok? ==> intent.Some? && IsIntendedObservation(host, IntendedIdentity(record), r.value)
                        && journal == old(journal) +
                             [intent.value, intent.value.(phase := IdentityObserved, observed := Some(r.value))]
                        && (interference == old(interference) ==> HasBridge(kernel, r.value))
      ensures r == Err(QuarantinedError) ==>
                intent.Some? && LifeEnded(old(journal) + [intent.value], journal, intent.value, Quarantined)
      ensures r.Ok? ==> Readable(host, journal) && NameUsable(host, old(journal), record.name)
      ensures intent.Some? && !NameUsable(host, old(journal), record.name) ==>
                r.Err? && journal == old(journal) + [intent.value] && !Readable(host, journal)
      // Quarantine needs a cause: a fault, someone else, or a bridge that cannot be observed.
      ensures r == Err(QuarantinedError) ==>
                interference != old(interference) || kernelFaults != old(kernelFaults)
                || record.bridgeName in old(kernel).unreadable
      // Without one, the identity is known beforehand, and only a crash or lack of room prevents success.
      ensures Undisturbed(old(Condition()), Condition()) && record.bridgeName !in old(kernel).unreadable ==>
                && (r.Ok? ==> r.value == ExpectedIdentity(host, old(kernel), record))
                && (r.Ok? || r == Err(Crash) || !CreateRoom(host, old(journal), old(kernel), record))
    {
      intent := None;
      var op :- BeginCreate(record);
      intent := Some(op);
      ghost var before := journal;
      r := ApplyCreate(record, IntendedIdentity(record), op);
      if r.Ok? {
        AppendedTwice(old(journal), op, op.(phase := IdentityObserved, observed := Some(r.value)));
      }
      assert journal != before ==> Readable(host, before);
    }

    /** The durable intent of a create. */
    method BeginCreate(record: NetworkRecord) returns (r: Result<Operation, Error>)
      requires Valid() && Admitted(Durable(), record)
      modifies this`journal, this`trace
      ensures Valid() && old(trace) <= trace && old(journal) <= journal && |journal| <= |old(journal)| + 1
      ensures r.Ok? ==> |trace| > |old(trace)|
      ensures r.Ok? ==> journal == old(journal) + [r.value] && r.value == CreateIntent(host, old(journal), record)
                        && IsCreateIntent(old(journal), r.value, record) && r.value.opId in LatestMap(journal)
                        && LatestMap(journal)[r.value.opId] == r.value
      ensures r.Ok? ==> (Readable(host, journal) <==> NameUsable(host, old(journal), record.name))
      ensures r.Err? ==> JournalError(r.error)
      ensures CreateRoom(host, old(journal), kernel, record) ==>
                || r == Err(Crash)
                || (r.Ok? && CanExtend(host, journal, r.value,
                                       ObservedEntry(r.value, ExpectedIdentity(host, kernel, record))))
    {
      if CreateRoom(host, journal, kernel, record) {
        RoomToStart(host, journal, kernel, record);
      }
      var op :- AppendEntry(record.name, Create, record, IntentDurable, Some(IntendedIdentity(record)), None, None);
      LatestAfterAppend(old(journal), op);
      if CreateRoom(host, old(journal), kernel, record) {
        RoomToObserve(host, old(journal), kernel, record);
      }
      return Ok(op);
    }

    /** Interference and kernel faults so far. */
    ghost function Condition(): (nat, nat)
      reads this
    {
      (interference, kernelFaults)
    }

    /** Creation followed by an observation, whether or not creation succeeded. */
    method CreateAndObserve(record: NetworkRecord, ghost maker: string)
      returns (created: Result<(), Error>, observation: Result<Option<BridgeIdentity>, Error>)
      requires Valid()
      requires maker in LatestMap(journal) && LatestMap(journal)[maker].phase.IntentDurable?
               && LatestMap(journal)[maker].record == record
      modifies this`kernel, this`trace, this`interference, this`kernelFaults
      ensures Valid() && old(trace) <= trace && interference >= old(interference) && kernelFaults >= old(kernelFaults)
      ensures interference == old(interference) ==> OnlyBridgeChanged(old(kernel), kernel, record.bridgeName)
      ensures interference == old(interference) && created.Ok? ==> kernel == WithBridge(old(kernel), record)
      ensures created.Err? ==> created.error == KernelError || created.error == Crash
      ensures created == Err(KernelError) <==> kernelFaults != old(kernelFaults)
      ensures created != Err(Crash) ==> Sees(kernel, record.bridgeName, observation)
    {
      created := CreateBridge(record, maker);
      if created == Err(Crash) {
        return created, Err(Crash);
      }
      observation := ObserveBridge(record.bridgeName);
    }

    /** Everything after the durable intent. */
    method ApplyCreate(record: NetworkRecord, intended: BridgeIdentity, intent: Operation)
      returns (r: Result<BridgeIdentity, Error>)
      requires Clean() && intent.intended == Some(intended) && intended == IntendedIdentity(record)
               && intent.detail.None?
      requires intent.opId in LatestMap(journal) && LatestMap(journal)[intent.opId] == intent
      requires intent.phase.IntentDurable? && intent.record == record
      modifies this`journal, this`kernel, this`trace, this`interference, this`kernelFaults
      ensures r.Err? ==> CreateError(r.error)
      ensures Valid() && old(trace) <= trace && interference >= old(interference) && kernelFaults >= old(kernelFaults)
      ensures old(journal) <= journal && |journal| <= |old(journal)| + 1
      ensures interference == old(interference) ==> OnlyBridgeChanged(old(kernel), kernel, record.bridgeName)
      ensures r.Ok? ==> IsIntendedObservation(host, intended, r.value)
                        && journal == old(journal) + [ObservedEntry(intent, r.value)]
                        && (interference == old(interference) ==> HasBridge(kernel, r.value))
      ensures r == Err(QuarantinedError) ==> LifeEnded(old(journal), journal, intent, Quarantined)
      ensures journal != old(journal) ==> Readable(host, old(journal))
      ensures r.Ok? ==> Readable(host, journal)
      ensures Undisturbed(old(Condition()), Condition()) && record.bridgeName !in old(kernel).unreadable ==>
                Succeeds(r, ExpectedIdentity(host, old(kernel), record),
                         CanExtend(host, old(journal), intent,
                                   ObservedEntry(intent, ExpectedIdentity(host, old(kernel), record))))
    {
      var adopted :- ResolveOrphan(record, intended, intent);
      if adopted.Some? {
        r := RecordObservation(intent, intended, Ok(adopted));
      } else {
        r := CreateFresh(record, intended, intent);
      }
    }

    /** Without a bridge to adopt: creation, observation, and the entry that says how it went. */
    method CreateFresh(record: NetworkRecord, intended: BridgeIdentity, intent: Operation)
      returns (r: Result<BridgeIdentity, Error>)
      requires Clean() && intent.intended == Some(intended) && intended == IntendedIdentity(record)
               && intent.detail.None?
      requires intent.opId in LatestMap(journal) && LatestMap(journal)[intent.opId] == intent
      requires intent.phase.IntentDurable? && intent.record == record
      modifies this`journal, this`kernel, this`trace, this`interference, this`kernelFaults
      ensures r.Err? ==> CreateError(r.error)
      ensures Valid() && old(trace) <= trace && interference >= old(interference) && kernelFaults >= old(kernelFaults)
      ensures old(journal) <= journal && |journal| <= |old(journal)| + 1
      ensures interference == old(interference) ==> OnlyBridgeChanged(old(kernel), kernel, record.bridgeName)
      ensures r.Ok? ==> IsIntendedObservation(host, intended, r.value) && HasBridge(kernel, r.value)
                        && journal == old(journal) + [ObservedEntry(intent, r.value)]
      ensures r == Err(QuarantinedError) ==> LifeEnded(old(journal), journal, intent, Quarantined)
      ensures journal != old(journal) ==> Readable(host, old(journal))
      ensures r.Ok? ==> Readable(host, journal)
      ensures Undisturbed(old(Condition()), Condition()) && record.bridgeName !in old(kernel).unreadable ==>
                Succeeds(r, FreshIdentity(old(kernel), record),
                         CanExtend(host, old(journal), intent,
                                   ObservedEntry(intent, FreshIdentity(old(kernel), record))))
      ensures kernelFaults != old(kernelFaults) ==>
                var entry := QuarantineEntry(intent, Evidence(kernel, record.bridgeName), NOT_MADE);
                || r == Err(Crash) || !CanExtend(host, old(journal), intent, entry)
                || (r == Err(QuarantinedError) && journal == old(journal) + [entry])
    {
      assert KernelOk(kernel) by {
        InvHolds();
      }
      ghost var before := kernel;
      var created, observation := CreateAndObserve(record, intent.opId);
      if created == Err(Crash) {
        return Err(Crash);
      }
      if created.Ok? && interference == old(interference) && record.bridgeName !in before.unreadable {
        FreshIsSeen(host, before, record, observation);
      }
      if created.Err? {
        var evidence := if observation.Ok? then observation.value else None;
        EvidenceSeen(kernel, record.bridgeName, observation);
        r := QuarantineCreate(intent, evidence, NOT_MADE);
        return;
      }
      r := RecordObservation(intent, intended, observation);
    }

    /** The last step of a create: journal the observation, or the reason there is none. */
    method RecordObservation(intent: Operation, intended: BridgeIdentity,
                             observation: Result<Option<BridgeIdentity>, Error>)
      returns (r: Result<BridgeIdentity, Error>)
      requires Valid() && intent.intended == Some(intended) && intent.detail.None?
      modifies this`journal, this`trace
      ensures Valid() && old(trace) <= trace
      ensures old(journal) <= journal && |journal| <= |old(journal)| + 1
      ensures r.Ok? ==> observation == Ok(Some(r.value)) && IsIntendedObservation(host, intended, r.value)
                        && journal == old(journal) + [ObservedEntry(intent, r.value)]
      ensures r == Err(QuarantinedError) ==> LifeEnded(old(journal), journal, intent, Quarantined)
      ensures journal != old(journal) ==> Readable(host, old(journal))
      ensures r.Ok? ==> Readable(host, journal)
      ensures observation.Ok? && observation.value.Some?
              && IsIntendedObservation(host, intended, observation.value.value) ==>
                Succeeds(r, observation.value.value,
                         CanExtend(host, old(journal), intent, ObservedEntry(intent, observation.value.value)))
      ensures r.Err? ==> r.error == QuarantinedError || JournalError(r.error)
      ensures !(observation.Ok? && observation.value.Some?
                && IsIntendedObservation(host, intended, observation.value.value)) ==>
                || r == Err(Crash) || !CanExtend(host, old(journal), intent, UnfitEntry(intent, observation))
                || (r == Err(QuarantinedError) && journal == old(journal) + [UnfitEntry(intent, observation)])
    {
      match observation
      case Ok(Some(observed)) =>
        if IsIntendedObservation(host, intended, observed) {
          var recorded, _ := AppendCheckpoint(intent, IdentityObserved, Some(observed), None);
          if recorded.Err? {
            return Err(recorded.error);
          }
          return Ok(observed);
        }
        r := QuarantineCreate(intent, Some(observed), MISMATCHED);
      case Ok(None) =>
        r := QuarantineCreate(intent, None, VANISHED);
      case Err(_) =>
        r := QuarantineCreate(intent, None, UNSEEN);
    }

    /** The reverse search of the pending list for the create that was just observed. */
    static method FindObserved(pending: seq<Operation>, record: NetworkRecord, observed: BridgeIdentity)
      returns (found: Option<Operation>)
      ensures found.Some? ==> found.value in pending && IsObservedCreate(found.value, record, observed)
      ensures found.None? ==> forall op :: op in pending ==> !IsObservedCreate(op, record, observed)
    {
      var i := |pending|;
      while i > 0
        invariant 0 <= i <= |pending|
        invariant forall j :: i <= j < |pending| ==> !IsObservedCreate(pending[j], record, observed)
      {
        i := i - 1;
        if IsObservedCreate(pending[i], record, observed) {
          return Some(pending[i]);
        }
      }
      return None;
    }

    /**
     * Whatever order the pending list comes in, the search finds the operation whose
     * observation was journaled last: no other pending create shares its name.
     */
    lemma FoundIsMinted(pending: seq<Operation>, minted: Operation, op: Operation, observed: BridgeIdentity)
      requires Clean()
      requires forall p :: p in pending <==> IsPending(journal, p)
      requires journal != [] && journal[|journal| - 1] == minted && IsObservedCreate(minted, minted.record, observed)
      requires op in pending && IsObservedCreate(op, minted.record, observed)
      ensures minted in pending && op == minted
      ensures LatestMap(journal)[minted.opId] == minted && PendingCreate(LatestMap(journal), minted.opId)
    {
      InvHolds();
      LatestIsLast(journal, op.opId);
      LatestIsLast(journal, minted.opId);
      assert IsPending(journal, op) && IsPending(journal, minted);
      var latest := LatestMap(journal);
      assert PendingCreate(latest, op.opId) && PendingCreate(latest, minted.opId)
             && SharesName(latest[op.opId].record, latest[minted.opId].record);
    }

    /** Create, publish, commit. */
    method RunNetworkCreateAndPublish(record: NetworkRecord)
      returns (r: Result<BridgeIdentity, Error>, ghost intent: Option<Operation>)
      requires Clean() && Admitted(Durable(), record)
      modifies this
      ensures r.Err? ==> CreateError(r.error)
      ensures Valid() && old(trace) <= trace && interference >= old(interference)
      ensures old(journal) <= journal
      ensures interference == old(interference) ==> OnlyBridgeChanged(old(kernel), kernel, record.bridgeName)
      ensures intent.Some? ==>
                |journal| > |old(journal)| && journal[|old(journal)|] == intent.value
                && IsCreateIntent(old(journal), intent.value, record)
      ensures forall other :: other in old(store) ==> other in store
      ensures forall other :: other in store ==> other in old(store) || other == record
      ensures r.Ok? ==> intent.Some? && record in store && CommittedLife(old(journal), journal, intent.value, r.value)
                        && IsIntendedObservation(host, IntendedIdentity(record), r.value)
                        && (interference == old(interference) ==> HasBridge(kernel, r.value))
      ensures r.Ok? ==> NameUsable(host, old(journal), record.name) && Readable(host, journal)
      ensures intent.Some? && !NameUsable(host, old(journal), record.name) ==>
                r.Err? && journal == old(journal) + [intent.value] && !Readable(host, journal)
      ensures storeFaults >= old(storeFaults) && kernelFaults >= old(kernelFaults)
      ensures storeFaults != old(storeFaults) ==> |trace| > |old(trace)|
      ensures Undisturbed(old(Condition()), Condition()) && record.bridgeName !in old(kernel).unreadable && r.Ok? ==>
                r.value == ExpectedIdentity(host, old(kernel), record)
      ensures Undisturbed(old(Condition()), Condition()) && record.bridgeName !in old(kernel).unreadable
              && storeFaults == old(storeFaults) && !Conflicting(old(store), record)
              && CreateRoom(host, old(journal), old(kernel), record) ==>
                r.Ok? || r == Err(Crash)
    {
      r, intent := RunNetworkCreate(record);
      if r.Ok? {
        ghost var entry := journal[|journal| - 1];
        assert journal == old(journal) + [intent.value, entry];
        if CreateRoom(host, old(journal), old(kernel), record) {
          RoomForLife(host, old(journal), old(kernel), record);
        }
        r := PublishObserved(record, r.value);
        assert r.Ok? ==> journal == old(journal) + [intent.value, entry, journal[|journal| - 1]];
      }
    }

    /** Publishes the create whose observation is the newest entry of the journal. */
    method PublishObserved(record: NetworkRecord, observed: BridgeIdentity) returns (r: Result<BridgeIdentity, Error>)
      requires Clean() && journal != [] && journal[|journal| - 1].detail.None?
      requires IsObservedCreate(journal[|journal| - 1], record, observed)
      modifies this`journal, this`store, this`trace, this`storeFaults
      ensures r.Err? ==> CreateError(r.error)
      ensures Valid() && old(trace) <= trace && old(journal) <= journal
      ensures forall other :: other in old(store) ==> other in store
      ensures forall other :: other in store ==> other in old(store) || other == record
      ensures r.Ok? ==> r.value == observed && record in store
                        && journal == old(journal) + [old(journal)[|old(journal)| - 1].(phase := StoreCommitted)]
      ensures Readable(host, journal) <==> Readable(host, old(journal))
      ensures storeFaults >= old(storeFaults)
      ensures Readable(host, old(journal)) && storeFaults == old(storeFaults) && !Conflicting(old(store), record) ==>
                r.Ok? || r == Err(Crash) || |old(journal)| >= MAX_FRAMES
                || !host.fits(old(journal)[|old(journal)| - 1].(phase := StoreCommitted))
    {
      var operation :- LocateObserved(record, observed);
      r := PublishAndCommit(operation, observed);
    }

    /**
     * Re-reads the journal for the operation whose observation was just appended; it is found
     * whenever the journal is readable.
     */
    method LocateObserved(record: NetworkRecord, observed: BridgeIdentity) returns (r: Result<Operation, Error>)
      requires Clean() && journal != [] && IsObservedCreate(journal[|journal| - 1], record, observed)
      ensures r.Ok? <==> Readable(host, journal)
      ensures r.Err? ==> r.error == JournalCorrupt
      ensures r.Ok? ==> r.value == journal[|journal| - 1] && PendingCreate(LatestMap(journal), r.value.opId)
                        && LatestMap(journal)[r.value.opId] == r.value && r.value.opId != ""
    {
      var pending :- ReadPendingOperations(host, journal);
      var found := FindObserved(pending, record, observed);
      LatestIsPending(journal);
      if found.None? {
        return Err(JournalCorrupt);
      }
      FoundIsMinted(pending, journal[|journal| - 1], found.value, observed);
      assert ValidHistory(host, journal);
      EntriesWellFormed(host, journal, |journal| - 1);
      return Ok(found.value);
    }

    /** Publication of an observed create and its commit, or its quarantine on a store conflict. */
    method PublishAndCommit(operation: Operation, observed: BridgeIdentity) returns (r: Result<BridgeIdentity, Error>)
      requires Valid() && operation.phase.IdentityObserved? && operation.detail.None?
      requires PendingCreate(LatestMap(journal), operation.opId) && LatestMap(journal)[operation.opId] == operation
      modifies this`journal, this`store, this`trace, this`storeFaults
      ensures r.Err? ==> CreateError(r.error)
      ensures Valid() && old(trace) <= trace && old(journal) <= journal
      ensures forall other :: other in old(store) ==> other in store
      ensures forall other :: other in store ==> other in old(store) || other == operation.record
      ensures r.Ok? ==> r.value == observed && operation.record in store
                        && journal == old(journal) + [operation.(phase := StoreCommitted, observed := Some(observed))]
      ensures r == Err(QuarantinedError) ==> LifeEnded(old(journal), journal, operation, Quarantined)
      ensures r == Err(QuarantinedError) ==> Conflicting(old(store), operation.record)
      ensures r == Err(QuarantinedError) ==> storeFaults == old(storeFaults) && store == old(store)
      ensures storeFaults != old(storeFaults) ==> r == Err(JournalIo) && journal == old(journal) && store == old(store)
      ensures storeFaults == old(storeFaults) && Conflicting(old(store), operation.record) ==>
                var entry := QuarantineEntry(operation, Some(observed), UNPUBLISHED);
                || r == Err(Crash) || !CanExtend(host, old(journal), operation, entry)
                || (r == Err(QuarantinedError) && journal == old(journal) + [entry])
      ensures Readable(host, journal) <==> Readable(host, old(journal))
      ensures storeFaults >= old(storeFaults)
      ensures Readable(host, old(journal)) && storeFaults == old(storeFaults)
              && !Conflicting(old(store), operation.record)
              && operation.opId != "" ==>
                r.Ok? || r == Err(Crash) || |old(journal)| >= MAX_FRAMES
                || !host.fits(operation.(phase := StoreCommitted, observed := Some(observed)))
    {
      var published := PublishRecord(operation.record, operation.opId);
      if published.Err? {
        if published.error == StoreConflict {
          r := QuarantineCreate(operation, Some(observed), UNPUBLISHED);
          return;
        }
        return Err(published.error);
      }
      var committed, _ := AppendCheckpoint(operation, StoreCommitted, Some(observed), None);
      return if committed.Ok? then Ok(observed) else Err(committed.error);
    }
  }

  /** Nobody else changed the kernel in between, and no kernel operation failed of itself. */
  predicate Undisturbed(before: (nat, nat), after: (nat, nat)) {
    before == after
  }

  /** The call answers `Ok` with this identity, or else it crashed or the entry could not be written. */
  predicate Succeeds(r: Result<BridgeIdentity, Error>, identity: BridgeIdentity, writable: bool) {
    match r
    case Ok(value) => value == identity
    case Err(error) => error == Crash || (!writable && error != QuarantinedError)
  }

  // The reasons a create journals for its quarantine.
  const NOT_MADE := "create_bridge failed after IntentDurable"
  const MISMATCHED := "post-create observation mismatch"
  const VANISHED := "bridge absent immediately after create"
  const UNSEEN := "post-create observation failed"
  const UNPUBLISHED := "network store publication failed after observation"

  function QuarantineEntry(op: Operation, observed: Option<BridgeIdentity>, detail: string): Operation {
    op.(phase := Quarantined, observed := observed, detail := Some(detail))
  }

  /** The entry for an observation that does not satisfy the intent. */
  function UnfitEntry(intent: Operation, observation: Result<Option<BridgeIdentity>, Error>): Operation {
    match observation
    case Ok(Some(observed)) => QuarantineEntry(intent, Some(observed), MISMATCHED)
    case Ok(None) => QuarantineEntry(intent, None, VANISHED)
    case Err(_) => QuarantineEntry(intent, None, UNSEEN)
  }

  /** What an observation of the bridge can show after a failed creation. */
  function Evidence(kernel: KernelState, name: string): Option<BridgeIdentity> {
    if name !in kernel.unreadable && name in kernel.bridges then Some(kernel.bridges[name]) else None
  }

  lemma EvidenceSeen(kernel: KernelState, name: string, seen: Result<Option<BridgeIdentity>, Error>)
    requires Sees(kernel, name, seen)
    ensures Evidence(kernel, name) == if seen.Ok? then seen.value else None
  {
    if name !in kernel.unreadable && name in kernel.bridges {
      assert Standing(kernel, name, kernel.bridges[name]);
    }
  }

  function ObservedEntry(intent: Operation, observed: BridgeIdentity): Operation {
    intent.(phase := IdentityObserved, observed := Some(observed))
  }

  /** The bridge that a create of this record adopts, if any. */
  function Adoptable(host: Host, kernel: KernelState, record: NetworkRecord): Option<BridgeIdentity> {
    if && "fc-" <= record.bridgeName && record.bridgeName in kernel.bridges
       && IsIntendedObservation(host, IntendedIdentity(record), kernel.bridges[record.bridgeName])
    then Some(kernel.bridges[record.bridgeName])
    else None
  }

  function FreshIdentity(kernel: KernelState, record: NetworkRecord): BridgeIdentity {
    IntendedIdentity(record).(ifindex := Some(kernel.nextIfindex))
  }

  /** After an undisturbed creation the observation is the fresh identity, and it satisfies the intent. */
  lemma FreshIsSeen(host: Host, kernel: KernelState, record: NetworkRecord, seen: Result<Option<BridgeIdentity>, Error>)
    requires KernelOk(kernel) && record.bridgeName !in kernel.unreadable
    requires Sees(WithBridge(kernel, record), record.bridgeName, seen)
    ensures seen == Ok(Some(FreshIdentity(kernel, record)))
    ensures IsIntendedObservation(host, IntendedIdentity(record), FreshIdentity(kernel, record))
  {
    CreatedIsIntended(host, kernel, record);
    assert Standing(WithBridge(kernel, record), record.bridgeName, FreshIdentity(kernel, record));
  }

  /** The identity that a create of this record ends with: the bridge it adopts, or the next one the kernel makes. */
  function ExpectedIdentity(host: Host, kernel: KernelState, record: NetworkRecord): BridgeIdentity {
    var adopted := Adoptable(host, kernel, record);
    if adopted.Some? then adopted.value else FreshIdentity(kernel, record)
  }

  function CreateIntent(host: Host, journal: seq<Operation>, record: NetworkRecord): Operation {
    NewOperation(host, journal, record.name, Create, record, IntentDurable, Some(IntendedIdentity(record)), None, None)
  }

  /** There is room for the whole life of a create: its intent, its observation and its commit. */
  ghost predicate CreateRoom(host: Host, journal: seq<Operation>, kernel: KernelState, record: NetworkRecord) {
    var intent, seen := CreateIntent(host, journal, record), ExpectedIdentity(host, kernel, record);
    RoomFor(host, journal, [intent, ObservedEntry(intent, seen),
                            intent.(phase := StoreCommitted, observed := Some(seen))])
  }

  lemma RoomToStart(host: Host, journal: seq<Operation>, kernel: KernelState, record: NetworkRecord)
    requires CreateRoom(host, journal, kernel, record)
    ensures CanAppend(host, journal, CreateIntent(host, journal, record))
  {
    RoomForLife(host, journal, kernel, record);
  }

  lemma RoomToObserve(host: Host, journal: seq<Operation>, kernel: KernelState, record: NetworkRecord)
    requires CreateRoom(host, journal, kernel, record)
    requires NameUsable(host, journal, record.name) ==> Readable(host, journal + [CreateIntent(host, journal, record)])
    ensures var intent := CreateIntent(host, journal, record);
            CanExtend(host, journal + [intent], intent, ObservedEntry(intent, ExpectedIdentity(host, kernel, record)))
  {
    RoomForLife(host, journal, kernel, record);
    var intent := CreateIntent(host, journal, record);
    SecondEntryFits(host, journal, intent, ObservedEntry(intent, ExpectedIdentity(host, kernel, record)));
  }

  lemma RoomForLife(host: Host, journal: seq<Operation>, kernel: KernelState, record: NetworkRecord)
    requires CreateRoom(host, journal, kernel, record)
    ensures var intent, seen := CreateIntent(host, journal, record), ExpectedIdentity(host, kernel, record);
            && CanAppend(host, journal, intent) && NameUsable(host, journal, record.name)
            && |journal| + 3 <= MAX_FRAMES && host.fits(ObservedEntry(intent, seen))
            && host.fits(intent.(phase := StoreCommitted, observed := Some(seen)))
  {
    var intent, seen := CreateIntent(host, journal, record), ExpectedIdentity(host, kernel, record);
    var life := [intent, ObservedEntry(intent, seen), intent.(phase := StoreCommitted, observed := Some(seen))];
    assert AllFit(host, journal, life);
    assert host.fits(life[1]) && host.fits(life[2]);
  }

  /** A different record holds the name. */
  predicate Conflicting(store: seq<NetworkRecord>, record: NetworkRecord) {
    NameStored(store, record.name) && record !in store
  }

  /** An entry that nothing follows and that is not terminal is pending. */
  lemma LatestIsPending(journal: seq<Operation>)
    requires journal != [] && !IsTerminalPhase(journal[|journal| - 1].phase)
    ensures IsPending(journal, journal[|journal| - 1])
  {
  }

  predicate IsObservedCreate(op: Operation, record: NetworkRecord, observed: BridgeIdentity) {
    op.action.Create? && op.phase.IdentityObserved? && op.observed == Some(observed) && op.record == record
  }

  lemma AppendedTwice(ops: seq<Operation>, first: Operation, second: Operation)
    ensures ops + [first] + [second] == ops + [first, second]
  {
  }

  lemma MakingIsLegal(host: Host, w: World, maker: string, record: NetworkRecord)
    requires maker in LatestMap(w.journal)
    requires LatestMap(w.journal)[maker].phase.IntentDurable? && LatestMap(w.journal)[maker].record == record
    ensures Legal(host, w, BridgeMade(maker, record))
  {
  }

  lemma RemovalIsLegal(host: Host, w: World, remover: string, identity: BridgeIdentity)
    requires HasBridge(w.kernel, identity)
    requires remover in LatestMap(w.journal) && LatestMap(w.journal)[remover].record.bridgeName == identity.name
    requires var op := LatestMap(w.journal)[remover];
             op.phase.IntentDurable? || (op.phase.DeleteIntentDurable? && op.intended == Some(identity))
    ensures Legal(host, w, BridgeGone(remover, identity))
  {
  }

  /** The journal grew by the complete life of `intent`: intent, observation, commit, all of one operation. */
  ghost predicate CommittedLife(before: seq<Operation>, after: seq<Operation>, intent: Operation,
                                observed: BridgeIdentity) {
    after == before + [intent,
                       intent.(phase := IdentityObserved, observed := Some(observed)),
                       intent.(phase := StoreCommitted, observed := Some(observed))]
  }

  /** No entry of `journal` belongs to the operation of `op`. */
  ghost predicate IsFirstEntry(journal: seq<Operation>, op: Operation) {
    forall i :: 0 <= i < |journal| ==> journal[i].opId != op.opId
  }

  ghost predicate IsCreateIntent(before: seq<Operation>, intent: Operation, record: NetworkRecord) {
    && IsFirstEntry(before, intent) && intent.phase.IntentDurable?
    && intent.action.Create? && intent.record == record && intent.intended == Some(IntendedIdentity(record))
    && intent.observed.None? && intent.detail.None?
  }

  /** The journal grew by one entry, which ends the life of `op` in `phase`. */
  ghost predicate LifeEnded(before: seq<Operation>, after: seq<Operation>, op: Operation, phase: Phase) {
    && |after| == |before| + 1 && before <= after
    && SameBinding(after[|before|], op) && after[|before|].phase == phase
  }
}
