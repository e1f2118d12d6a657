/** The exact-identity delete and the two permit-consuming executors. */
module NetworkLifecycle {
  import opened Wrappers
  import opened NetworkTypes
  import opened NetworkJournal
  import opened NetworkKernel
  import opened NetworkStore
  import opened NetworkProtocol
  import opened NetworkRuntime

  /** The minimal record a delete journals; the logical and the bridge name may differ. */
  function RecordFromIdentity(logicalName: string, identity: BridgeIdentity, now: nat): (record: NetworkRecord)
    ensures record.name == logicalName && record.bridgeName == identity.name
  {
    var addressed := identity.cidr.Some? && identity.cidr.value != "";
    NetworkRecord(logicalName, "bridge",
                  if addressed then identity.cidr.value else "0.0.0.0/0",
                  if addressed then identity.cidr.value else "0.0.0.0",
                  identity.name,
                  if identity.cidr.Some? then identity.cidr.value else "",
                  identity.ipv6Cidr, map[], now, 1)
  }

  /** The record of a delete keeps all of the identity but its index, as long as no address in it is an empty string. */
  lemma DeleteRecordKeepsIdentity(logicalName: string, identity: BridgeIdentity, now: nat)
    ensures IntendedIdentity(RecordFromIdentity(logicalName, identity, now)) == identity.(ifindex := None) <==>
            identity.cidr != Some("") && identity.ipv6Cidr != Some("")
    ensures var record := RecordFromIdentity(logicalName, identity, now);
            if identity.cidr == None || identity.cidr == Some("")
            then record.subnet == "0.0.0.0/0" && record.gateway == "0.0.0.0"
            else Some(record.subnet) == Some(record.gateway) == identity.cidr
  {
  }

  /** The newest entry is a journaled removal of `name`, aimed at exactly `expected`. */
  ghost predicate RemovalJournaled(journal: seq<Operation>, name: string, expected: BridgeIdentity) {
    journal != [] && IsRemovalOf(journal[|journal| - 1], name) && journal[|journal| - 1].intended == Some(expected)
  }

  /** The newest entry quarantines a delete. */
  ghost predicate QuarantineJournaled(journal: seq<Operation>, name: string) {
    && journal != []
    && var last := journal[|journal| - 1];
       last.action.Delete? && last.phase.Quarantined? && last.resource.name == name
  }

  /** The delete must not go ahead: the bridge cannot be observed, or another one stands under the name. */
  predicate Refused(kernel: KernelState, expected: BridgeIdentity) {
    || expected.name in kernel.unreadable
    || (expected.name in kernel.bridges && (expected.ifindex.None? || kernel.bridges[expected.name] != expected))
  }

  const GONE := "already absent"
  const MISMATCH := "identity mismatch; refusing inexact delete"
  const UNOBSERVABLE := "pre-delete observation failed"
  const GONE_MEANWHILE := "absent at destroy time"
  const NOT_DESTROYED := "destroy failed"

  function DeleteIntent(host: Host, journal: seq<Operation>, name: string, expected: BridgeIdentity,
                        observed: Option<BridgeIdentity>, now: nat): Operation
  {
    NewOperation(host, journal, name, Delete, RecordFromIdentity(name, expected, now), DeleteIntentDurable,
                 Some(expected), observed, None)
  }

  /** The only entry of a delete that found the bridge absent. */
  function AbsentEntry(host: Host, journal: seq<Operation>, name: string, expected: BridgeIdentity,
                       now: nat): Operation {
    NewOperation(host, journal, name, Delete, RecordFromIdentity(name, expected, now), Removed, Some(expected), None,
                 Some(GONE))
  }

  /** A delete intent and its quarantine. */
  function RefusalEntries(intent: Operation, observed: Option<BridgeIdentity>, detail: string): seq<Operation> {
    [intent, intent.(phase := Quarantined, observed := observed, detail := Some(detail))]
  }

  /** A delete intent and its removal. */
  function RemovalEntries(intent: Operation): seq<Operation> {
    [intent, RemovedEntry(intent)]
  }

  function RemovedEntry(intent: Operation): Operation {
    intent.(phase := Removed, observed := None, detail := None)
  }

  /** What a delete journals while nothing fails and nobody interferes. */
  function DeleteEntries(host: Host, journal: seq<Operation>, kernel: KernelState, name: string,
                         expected: BridgeIdentity, now: nat): seq<Operation>
  {
    if expected.name in kernel.unreadable then
      RefusalEntries(DeleteIntent(host, journal, name, expected, None, now), None, UNOBSERVABLE)
    else if expected.name !in kernel.bridges then
      [AbsentEntry(host, journal, name, expected, now)]
    else if Refused(kernel, expected) then
      var seen := Some(kernel.bridges[expected.name]);
      RefusalEntries(DeleteIntent(host, journal, name, expected, seen, now), seen, MISMATCH)
    else
      RemovalEntries(DeleteIntent(host, journal, name, expected, Some(expected), now))
  }

  /**
   * A successful delete leaves exactly the expected bridge out of the table and its removal
   * in the journal; a bridge with any other identity is never touched. While nobody interferes,
   * the delete is quarantined exactly if it must not go ahead or the kernel failed, and
   * with room in the journal only a crash gives any other answer than these two.
   */
  method RunNetworkDelete(rt: Runtime, logicalName: string, expected: BridgeIdentity, now: nat)
    returns (r: Result<(), Error>)
    requires rt.Valid()
    modifies rt`journal, rt`kernel, rt`trace, rt`interference, rt`kernelFaults
    ensures rt.Valid() && old(rt.trace) <= rt.trace && rt.interference >= old(rt.interference)
    ensures rt.kernelFaults >= old(rt.kernelFaults) && old(rt.journal) <= rt.journal
    ensures rt.interference == old(rt.interference) ==> OnlyBridgeChanged(old(rt.kernel), rt.kernel, expected.name)
    ensures rt.interference == old(rt.interference) && !HasBridge(old(rt.kernel), expected) ==>
              rt.kernel == old(rt.kernel)
    ensures r.Ok? ==> |rt.journal| > |old(rt.journal)| && RemovalJournaled(rt.journal, logicalName, expected)
    ensures r.Ok? && rt.interference == old(rt.interference) ==> expected.name !in rt.kernel.bridges
    ensures r == Err(QuarantinedError) ==>
              |rt.journal| > |old(rt.journal)| && QuarantineJournaled(rt.journal, logicalName)
    ensures r.Ok? || rt.journal != old(rt.journal) ==> Readable(rt.host, old(rt.journal))
    ensures !Readable(rt.host, old(rt.journal)) && rt.interference == old(rt.interference) ==>
              rt.kernel == old(rt.kernel)
    ensures r.Err? ==> r.error == QuarantinedError || JournalError(r.error)
    ensures rt.interference == old(rt.interference) && (r.Ok? || r == Err(QuarantinedError)) ==>
              (r == Err(QuarantinedError) <==>
                 Refused(old(rt.kernel), expected) || rt.kernelFaults != old(rt.kernelFaults))
    ensures Undisturbed(old(rt.Condition()), rt.Condition()) && (r.Ok? || r == Err(QuarantinedError)) ==>
              rt.journal == old(rt.journal) +
                DeleteEntries(rt.host, old(rt.journal), old(rt.kernel), logicalName, expected, now)
    ensures Undisturbed(old(rt.Condition()), rt.Condition())
            && RoomFor(rt.host, old(rt.journal),
                       DeleteEntries(rt.host, old(rt.journal), old(rt.kernel), logicalName, expected, now)) ==>
              r.Ok? || r == Err(QuarantinedError) || r == Err(Crash)
  {
    var seen := rt.ObserveBridge(expected.name);
    match seen
    case Ok(None) =>
      r := DeleteAbsent(rt, logicalName, expected, now);
    case Ok(Some(observed)) =>
      if expected.MatchesExactly(observed) {
        r := DeleteExact(rt, logicalName, expected, now);
      } else {
        r := RefuseDelete(rt, logicalName, expected, now, Some(observed), MISMATCH);
      }
    case Err(_) =>
      r := RefuseDelete(rt, logicalName, expected, now, None, UNOBSERVABLE);
  }

  /** Absence is success, with a durable removal. */
  method DeleteAbsent(rt: Runtime, logicalName: string, expected: BridgeIdentity, now: nat)
    returns (r: Result<(), Error>)
    requires rt.Valid()
    modifies rt`journal, rt`trace
    ensures rt.Valid() && old(rt.trace) <= rt.trace && old(rt.journal) <= rt.journal
    ensures r.Ok? ==>
              rt.journal == old(rt.journal) + [AbsentEntry(rt.host, old(rt.journal), logicalName, expected, now)]
    ensures r.Ok? ==> |rt.journal| > |old(rt.journal)| && RemovalJournaled(rt.journal, logicalName, expected)
    ensures r.Ok? || rt.journal != old(rt.journal) ==> Readable(rt.host, old(rt.journal))
    ensures r.Err? ==> JournalError(r.error)
    ensures RoomFor(rt.host, old(rt.journal), [AbsentEntry(rt.host, old(rt.journal), logicalName, expected, now)]) ==>
              r.Ok? || r == Err(Crash)
  {
    var record := RecordFromIdentity(logicalName, expected, now);
    ghost var planned := AbsentEntry(rt.host, rt.journal, logicalName, expected, now);
    if RoomFor(rt.host, rt.journal, [planned]) {
      RoomForOne(rt.host, rt.journal, planned);
    }
    var removed := rt.AppendEntry(logicalName, Delete, record, Removed, Some(expected), None, Some(GONE));
    r := if removed.Ok? then Ok(()) else Err(removed.error);
  }

  /** A delete that must not go ahead: the intent and its quarantine are journaled, nothing else happens. */
  method RefuseDelete(rt: Runtime, logicalName: string, expected: BridgeIdentity, now: nat,
                      observed: Option<BridgeIdentity>, detail: string) returns (r: Result<(), Error>)
    requires rt.Valid()
    modifies rt`journal, rt`trace
    ensures rt.Valid() && old(rt.trace) <= rt.trace && old(rt.journal) <= rt.journal && r.Err?
    ensures r.error == QuarantinedError || JournalError(r.error)
    ensures r == Err(QuarantinedError) ==>
              rt.journal == old(rt.journal) +
                RefusalEntries(DeleteIntent(rt.host, old(rt.journal), logicalName, expected, observed, now), observed,
                               detail)
    ensures r == Err(QuarantinedError) ==>
              |rt.journal| > |old(rt.journal)| && QuarantineJournaled(rt.journal, logicalName)
    ensures rt.journal != old(rt.journal) ==> Readable(rt.host, old(rt.journal))
    ensures RoomFor(rt.host, old(rt.journal),
                    RefusalEntries(DeleteIntent(rt.host, old(rt.journal), logicalName, expected, observed, now),
                                   observed, detail)) ==>
              r == Err(QuarantinedError) || r == Err(Crash)
  {
    var record := RecordFromIdentity(logicalName, expected, now);
    ghost var planned := DeleteIntent(rt.host, rt.journal, logicalName, expected, observed, now);
    ghost var room := RoomFor(rt.host, rt.journal, RefusalEntries(planned, observed, detail));
    if room {
      RoomForTwo(rt.host, rt.journal, planned, RefusalEntries(planned, observed, detail)[1]);
    }
    var intent :- rt.AppendEntry(logicalName, Delete, record, DeleteIntentDurable, Some(expected), observed, None);
    assert intent == planned;
    ghost var refusal := RefusalEntries(intent, observed, detail)[1];
    if room {
      SecondEntryFits(rt.host, old(rt.journal), intent, refusal);
    }
    var quarantined, _ := rt.AppendCheckpoint(intent, Quarantined, observed, Some(detail));
    AppendedTwice(old(rt.journal), intent, refusal);
    return Err(if quarantined.Ok? then QuarantinedError else quarantined.error);
  }

  /** Durable delete intent, exact destruction, durable removal. */
  method DeleteExact(rt: Runtime, logicalName: string, expected: BridgeIdentity, now: nat)
    returns (r: Result<(), Error>)
    requires rt.Valid()
    modifies rt`journal, rt`kernel, rt`trace, rt`interference, rt`kernelFaults
    ensures rt.Valid() && old(rt.trace) <= rt.trace && rt.interference >= old(rt.interference)
    ensures rt.kernelFaults >= old(rt.kernelFaults) && old(rt.journal) <= rt.journal
    ensures rt.interference == old(rt.interference) ==> OnlyBridgeChanged(old(rt.kernel), rt.kernel, expected.name)
    ensures rt.interference == old(rt.interference) && !HasBridge(old(rt.kernel), expected) ==>
              rt.kernel == old(rt.kernel)
    ensures r.Ok? ==>
              |rt.journal| > |old(rt.journal)| && RemovalJournaled(rt.journal, logicalName, expected)
              && expected.name !in rt.kernel.bridges
    ensures r == Err(QuarantinedError) ==>
              |rt.journal| > |old(rt.journal)| && QuarantineJournaled(rt.journal, logicalName)
    ensures r.Ok? || rt.journal != old(rt.journal) ==> Readable(rt.host, old(rt.journal))
    ensures r.Ok? ==> NameUsable(rt.host, old(rt.journal), logicalName) && Readable(rt.host, rt.journal)
    ensures !Readable(rt.host, old(rt.journal)) ==> rt.kernel == old(rt.kernel)
    ensures r.Err? ==> r.error == QuarantinedError || JournalError(r.error)
    ensures HasBridge(old(rt.kernel), expected) && rt.interference == old(rt.interference)
            && (r.Ok? || r == Err(QuarantinedError)) ==>
              (r == Err(QuarantinedError) <==> rt.kernelFaults != old(rt.kernelFaults))
    ensures HasBridge(old(rt.kernel), expected) && Undisturbed(old(rt.Condition()), rt.Condition()) && r.Ok? ==>
              rt.journal == old(rt.journal) +
                RemovalEntries(DeleteIntent(rt.host, old(rt.journal), logicalName, expected, Some(expected), now))
    ensures HasBridge(old(rt.kernel), expected) && Undisturbed(old(rt.Condition()), rt.Condition())
            && RoomFor(rt.host, old(rt.journal),
                       RemovalEntries(DeleteIntent(rt.host, old(rt.journal), logicalName, expected, Some(expected),
                                                   now))) ==>
              r.Ok? || r == Err(Crash)
  {
    var record := RecordFromIdentity(logicalName, expected, now);
    ghost var planned := DeleteIntent(rt.host, rt.journal, logicalName, expected, Some(expected), now);
    ghost var room := RoomFor(rt.host, rt.journal, RemovalEntries(planned));
    if room {
      RoomForTwo(rt.host, rt.journal, planned, RemovedEntry(planned));
    }
    var intent :- rt.AppendEntry(logicalName, Delete, record, DeleteIntentDurable, Some(expected), Some(expected),
                                 None);
    assert intent == planned;
    ghost var removed := RemovedEntry(intent);
    LatestAfterAppend(old(rt.journal), intent);
    if room {
      SecondEntryFits(rt.host, old(rt.journal), intent, removed);
    }
    r := DestroyAndRecord(rt, intent, expected);
    AppendedTwice(old(rt.journal), intent, removed);
  }

  /** Everything after the durable delete intent. */
  method DestroyAndRecord(rt: Runtime, intent: Operation, expected: BridgeIdentity) returns (r: Result<(), Error>)
    requires rt.Valid() && intent.action.Delete? && intent.phase.DeleteIntentDurable?
    requires intent.intended == Some(expected) && intent.record.bridgeName == expected.name
    requires intent.opId in LatestMap(rt.journal) && LatestMap(rt.journal)[intent.opId] == intent
    modifies rt`journal, rt`kernel, rt`trace, rt`interference, rt`kernelFaults
    ensures rt.Valid() && old(rt.trace) <= rt.trace && rt.interference >= old(rt.interference)
    ensures rt.kernelFaults >= old(rt.kernelFaults) && old(rt.journal) <= rt.journal
    ensures rt.interference == old(rt.interference) ==> OnlyBridgeChanged(old(rt.kernel), rt.kernel, expected.name)
    ensures rt.interference == old(rt.interference) && !HasBridge(old(rt.kernel), expected) ==>
              rt.kernel == old(rt.kernel)
    ensures r.Ok? ==>
              |rt.journal| > |old(rt.journal)| && RemovalJournaled(rt.journal, intent.resource.name, expected)
              && expected.name !in rt.kernel.bridges
              && Readable(rt.host, old(rt.journal)) && Readable(rt.host, rt.journal)
    ensures r == Err(QuarantinedError) ==>
              |rt.journal| > |old(rt.journal)| && QuarantineJournaled(rt.journal, intent.resource.name)
    ensures r.Err? ==> r.error == QuarantinedError || JournalError(r.error)
    ensures HasBridge(old(rt.kernel), expected) && rt.interference == old(rt.interference) ==>
              (r.Ok? ==> rt.kernelFaults == old(rt.kernelFaults))
              && (r == Err(QuarantinedError) ==> rt.kernelFaults != old(rt.kernelFaults))
    ensures HasBridge(old(rt.kernel), expected) && Undisturbed(old(rt.Condition()), rt.Condition()) ==>
              || r == Err(Crash) || !CanExtend(rt.host, old(rt.journal), intent, RemovedEntry(intent))
              || (r.Ok? && rt.journal == old(rt.journal) + [RemovedEntry(intent)])
    ensures r.Ok? && HasBridge(old(rt.kernel), expected) && Undisturbed(old(rt.Condition()), rt.Condition()) ==>
              rt.journal == old(rt.journal) + [RemovedEntry(intent)]
  {
    var destroyed := rt.DestroyBridge(expected, intent.opId);
    r := RecordDestruction(rt, intent, destroyed);
  }

  /** Absence at destroy time counts as removed; any other failure is quarantined. */
  method RecordDestruction(rt: Runtime, intent: Operation, destroyed: Result<(), Error>) returns (r: Result<(), Error>)
    requires rt.Valid() && intent.action.Delete? && intent.intended.Some?
    requires destroyed.Ok? || destroyed.error == NotFound || destroyed.error == KernelError || destroyed.error == Crash
    modifies rt`journal, rt`trace
    ensures rt.Valid() && old(rt.trace) <= rt.trace && old(rt.journal) <= rt.journal
    ensures r.Ok? ==>
              |rt.journal| > |old(rt.journal)|
              && RemovalJournaled(rt.journal, intent.resource.name, intent.intended.value)
    ensures r.Ok? ==> destroyed.Ok? || destroyed == Err(NotFound)
    ensures r.Ok? ==> Readable(rt.host, old(rt.journal)) && Readable(rt.host, rt.journal)
    ensures r == Err(QuarantinedError) ==>
              |rt.journal| > |old(rt.journal)| && QuarantineJournaled(rt.journal, intent.resource.name)
    ensures r == Err(QuarantinedError) ==> destroyed == Err(KernelError)
    ensures destroyed == Err(Crash) ==> r == Err(Crash) && rt.journal == old(rt.journal)
    ensures r.Err? ==> r.error == QuarantinedError || JournalError(r.error)
    ensures destroyed == Err(NotFound) ==>
              var entry := intent.(phase := Removed, observed := None, detail := Some(GONE_MEANWHILE));
              || r == Err(Crash) || !CanExtend(rt.host, old(rt.journal), intent, entry)
              || (r.Ok? && rt.journal == old(rt.journal) + [entry])
    ensures destroyed == Err(KernelError) ==>
              var entry := QuarantineEntry(intent, None, NOT_DESTROYED);
              || r == Err(Crash) || !CanExtend(rt.host, old(rt.journal), intent, entry)
              || (r == Err(QuarantinedError) && rt.journal == old(rt.journal) + [entry])
    ensures destroyed.Ok? && r.Ok? ==>
              rt.journal == old(rt.journal) + [RemovedEntry(intent)]
    ensures destroyed.Ok? && r.Err? && r.error != Crash ==>
              !CanExtend(rt.host, old(rt.journal), intent, RemovedEntry(intent))
  {
    if destroyed == Err(Crash) {
      return destroyed;
    }
    var gone := destroyed.Ok? || destroyed.error == NotFound;
    var phase := if gone then Removed else Quarantined;
    var detail := if destroyed.Ok? then None else Some(if gone then GONE_MEANWHILE else NOT_DESTROYED);
    var recorded, _ := rt.AppendCheckpoint(intent, phase, None, detail);
    r := if recorded.Ok? && !gone then Err(QuarantinedError) else recorded;
  }

  /** The admission scan over the pending list is the admission rule of the protocol. */
  lemma AdmissionChecked(rt: Runtime, pending: seq<Operation>, record: NetworkRecord)
    requires rt.Valid() && forall op :: op in pending <==> IsPending(rt.journal, op)
    requires forall op :: op in pending ==> FreeOf(op, record)
    requires forall r :: r in rt.store && r.bridgeName == record.bridgeName ==> r.name == record.name
    ensures Admitted(rt.Durable(), record)
  {
    var latest := LatestMap(rt.journal);
    forall id | PendingId(latest, id)
      ensures FreeOf(latest[id], record)
    {
      LatestIsLast(rt.journal, id);
      assert IsPending(rt.journal, latest[id]);
    }
  }

  /** Another network is stored on the bridge. */
  ghost predicate BridgeTaken(store: seq<NetworkRecord>, record: NetworkRecord) {
    exists other :: other in store && other.bridgeName == record.bridgeName && other.name != record.name
  }

  /** A pending lifecycle owns the name or the bridge. */
  ghost predicate LifecyclePending(journal: seq<Operation>, record: NetworkRecord) {
    exists op :: IsPending(journal, op)
                 && (op.resource.name == record.name || op.record.bridgeName == record.bridgeName)
  }

  lemma RoomToRead(host: Host, journal: seq<Operation>, kernel: KernelState, record: NetworkRecord)
    requires CreateRoom(host, journal, kernel, record)
    ensures Readable(host, journal)
  {
    RoomToStart(host, journal, kernel, record);
    assert FirstFits(host, journal, CreateIntent(host, journal, record));
  }

  /**
   * Nothing on disk or in the kernel stands in the way of this create. An id that collides
   * with a journaled one, and a name that is not usable, are among what `CreateRoom` rules out.
   */
  ghost predicate CreateUnhindered(host: Host, w: World, record: NetworkRecord) {
    && CreateRoom(host, w.journal, w.kernel, record)
    && !LifecyclePending(w.journal, record) && !BridgeTaken(w.store, record) && !Conflicting(w.store, record)
    && record.bridgeName !in w.kernel.unreadable
  }

  /**
   * Refusals before the first durable step finish the permit as failed; anything later
   * finishes it as unknown. A journal or a store that cannot be read leaves it unfinished.
   */
  method CreateAuthorized(rt: Runtime, record: NetworkRecord, permitted: bool)
    returns (r: Result<BridgeIdentity, Error>, permit: PermitEnd, ghost intent: Option<Operation>)
    requires rt.Clean()
    modifies rt
    ensures rt.Valid() && old(rt.trace) <= rt.trace && old(rt.journal) <= rt.journal
    ensures permit == Finished(true) <==> r.Ok?
    ensures permit == Finished(false) ==> rt.trace == old(rt.trace) && (r == Err(PendingError) || r == Err(Collision))
    ensures permit == Unfinished ==> rt.trace == old(rt.trace)
    ensures r == Err(Unauthorized) ==> !permitted
    ensures !permitted ==> r == Err(Unauthorized) && permit == Unfinished
    ensures permitted && !Readable(rt.host, old(rt.journal)) ==> r == Err(JournalCorrupt) && permit == Unfinished
    ensures permit == Unfinished ==>
              !permitted || !Readable(rt.host, old(rt.journal)) || rt.storeFaults != old(rt.storeFaults)
    ensures permitted && rt.storeFaults != old(rt.storeFaults) && rt.trace == old(rt.trace) ==>
              r == Err(JournalIo) && permit == Unfinished
    ensures permit == Finished(false) <==>
              && permitted && Readable(rt.host, old(rt.journal))
              && (LifecyclePending(old(rt.journal), record)
                  || (rt.storeFaults == old(rt.storeFaults) && BridgeTaken(old(rt.store), record)))
    ensures r.Ok? ==> intent.Some? && IsCreateIntent(old(rt.journal), intent.value, record)
                      && CommittedLife(old(rt.journal), rt.journal, intent.value, r.value) && record in rt.store
    ensures intent.Some? && !NameUsable(rt.host, old(rt.journal), record.name) ==>
              permit == FinishedUnknown && rt.journal == old(rt.journal) + [intent.value]
              && !Readable(rt.host, rt.journal)
    ensures rt.interference == old(rt.interference) ==> OnlyBridgeChanged(old(rt.kernel), rt.kernel, record.bridgeName)
    // A request that nothing hinders is granted: it answers with the identity known beforehand, or the process died.
    ensures permitted && CreateUnhindered(rt.host, old(rt.Durable()), record)
            && Undisturbed(old(rt.Condition()), rt.Condition()) && rt.storeFaults == old(rt.storeFaults) ==>
              r == Ok(ExpectedIdentity(rt.host, old(rt.kernel), record)) || r == Err(Crash)
  {
    intent := None;
    if !permitted {
      return Err(Unauthorized), Unfinished, intent;
    }
    if CreateRoom(rt.host, rt.journal, rt.kernel, record) {
      RoomToRead(rt.host, rt.journal, rt.kernel, record);
    }
    var admitted := Admit(rt, record);
    if admitted.Err? {
      permit := if admitted.error == PendingError || admitted.error == Collision then Finished(false) else Unfinished;
      return Err(admitted.error), permit, intent;
    }
    r, intent := rt.RunNetworkCreateAndPublish(record);
    permit := if r.Ok? then Finished(true) else FinishedUnknown;
  }

  /** The checks before a create: each refusal has exactly its own cause. */
  method Admit(rt: Runtime, record: NetworkRecord) returns (r: Result<(), Error>)
    requires rt.Valid()
    modifies rt`storeFaults
    ensures rt.Valid() && rt.storeFaults >= old(rt.storeFaults)
    ensures r == Err(JournalCorrupt) <==> !Readable(rt.host, rt.journal)
    ensures r == Err(PendingError) <==> Readable(rt.host, rt.journal) && LifecyclePending(rt.journal, record)
    ensures r == Err(JournalIo) <==> rt.storeFaults != old(rt.storeFaults)
    ensures r == Err(Collision) <==>
            && Readable(rt.host, rt.journal) && !LifecyclePending(rt.journal, record)
            && rt.storeFaults == old(rt.storeFaults) && BridgeTaken(rt.store, record)
    ensures r.Err? ==>
              r.error == JournalCorrupt || r.error == PendingError || r.error == JournalIo || r.error == Collision
    ensures r.Ok? ==> Admitted(rt.Durable(), record)
  {
    var pending :- ReadPendingOperations(rt.host, rt.journal);
    if i: nat :| i < |pending| && !FreeOf(pending[i], record) {
      assert IsPending(rt.journal, pending[i]);
      return Err(PendingError);
    }
    var unreadable: bool := *;
    if unreadable {
      rt.storeFaults := rt.storeFaults + 1;
      return Err(JournalIo);
    }
    if j: nat :| j < |rt.store| && rt.store[j].bridgeName == record.bridgeName && rt.store[j].name != record.name {
      assert rt.store[j] in rt.store;
      return Err(Collision);
    }
    AdmissionChecked(rt, pending, record);
    return Ok(());
  }

  /**
   * Delete is refused while a container names the network; the record leaves the store only after
   * a journaled removal.
   */
  method DeleteAuthorized(rt: Runtime, logicalName: string, expected: BridgeIdentity, endpoints: seq<string>, now: nat,
                          permitted: bool)
    returns (r: Result<(), Error>, permit: PermitEnd)
    requires rt.Valid()
    modifies rt
    ensures rt.Valid() && old(rt.trace) <= rt.trace && old(rt.journal) <= rt.journal
    ensures permit == Finished(true) <==> r.Ok?
    ensures permit == Finished(false) <==> permitted && logicalName in endpoints
    ensures permit == Unfinished <==> !permitted
    ensures !permitted ==> r == Err(Unauthorized)
    ensures permitted && logicalName in endpoints ==> r == Err(InUse)
    ensures permit == Finished(false) || permit == Unfinished ==>
              rt.trace == old(rt.trace) && rt.store == old(rt.store) && rt.kernel == old(rt.kernel)
    ensures r.Ok? ==>
              RemovalJournaled(rt.journal, logicalName, expected) && rt.store == WithoutName(old(rt.store), logicalName)
    ensures r.Ok? && rt.interference == old(rt.interference) ==> expected.name !in rt.kernel.bridges
    ensures rt.interference == old(rt.interference) ==> OnlyBridgeChanged(old(rt.kernel), rt.kernel, expected.name)
    ensures rt.store != old(rt.store) ==> RemovalJournaled(rt.journal, logicalName, expected)
    ensures !Readable(rt.host, old(rt.journal)) ==> r.Err? && rt.journal == old(rt.journal) && rt.store == old(rt.store)
    ensures r.Ok? && rt.interference == old(rt.interference) ==> !Refused(old(rt.kernel), expected)
    ensures permitted && logicalName !in endpoints && !Refused(old(rt.kernel), expected)
            && RoomFor(rt.host, old(rt.journal),
                       DeleteEntries(rt.host, old(rt.journal), old(rt.kernel), logicalName, expected, now))
            && Undisturbed(old(rt.Condition()), rt.Condition()) && rt.storeFaults == old(rt.storeFaults) ==>
              r.Ok? || r == Err(Crash)
  {
    if !permitted {
      return Err(Unauthorized), Unfinished;
    }
    if logicalName in endpoints {
      return Err(InUse), Finished(false);
    }
    r := RunNetworkDelete(rt, logicalName, expected, now);
    if r.Ok? {
      r := rt.UnpublishRecord(logicalName);
    }
    permit := if r.Ok? then Finished(true) else FinishedUnknown;
  }
}
