/** Recovery after a crash: every pending lifecycle is settled, and nothing in the kernel is touched. */
module NetworkRecovery {
  import opened Wrappers
  import opened NetworkTypes
  import opened NetworkJournal
  import opened NetworkKernel
  import opened NetworkStore
  import opened NetworkProtocol
  import opened NetworkRuntime
  import JournalFraming

  datatype Verdict = NotApplied | AppliedAndCommitted | RemovalCommitted | QuarantinedVerdict

  datatype ReportEntry = ReportEntry(network: string, resourceUuid: string, generation: nat, verdict: Verdict,
                                     committed: bool)

  /** The create has journaled an observation that satisfies its intent. */
  predicate ExactlyObserved(host: Host, op: Operation) {
    && op.phase.IdentityObserved? && op.intended.Some? && op.observed.Some?
    && IsIntendedObservation(host, op.intended.value, op.observed.value)
  }

  /** The recorded bridge is still the one standing. */
  predicate StillLive(host: Host, kernel: KernelState, op: Operation) {
    && op.action.Create? && op.phase.IdentityObserved? && op.intended.Some? && op.observed.Some?
    && IsIntendedObservation(host, op.intended.value, op.observed.value)
    && op.record.bridgeName !in kernel.unreadable && op.record.bridgeName in kernel.bridges
    && kernel.bridges[op.record.bridgeName] == op.observed.value
  }

  /** The only operations recovery leaves pending: creates never exactly observed whose bridge is absent. */
  predicate LeftPending(host: Host, kernel: KernelState, op: Operation) {
    && op.action.Create? && op.intended.Some?
    && (op.phase.IdentityObserved? && op.observed.Some? ==>
          !IsIntendedObservation(host, op.intended.value, op.observed.value))
    && op.record.bridgeName !in kernel.unreadable && op.record.bridgeName !in kernel.bridges
  }

  /** A pending delete whose bridge has already gone. */
  predicate AlreadyGone(kernel: KernelState, op: Operation) {
    && op.action.Delete? && op.intended.Some?
    && op.record.bridgeName !in kernel.unreadable && op.record.bridgeName !in kernel.bridges
  }

  /** Which verdicts the state of the kernel allows. */
  predicate MayReach(host: Host, kernel: KernelState, op: Operation, verdict: Verdict) {
    match verdict
    case NotApplied => LeftPending(host, kernel, op)
    case AppliedAndCommitted => StillLive(host, kernel, op)
    case RemovalCommitted => AlreadyGone(kernel, op)
    case QuarantinedVerdict => !LeftPending(host, kernel, op) && !AlreadyGone(kernel, op)
  }

  // The texts recovery journals.
  const UNMARKED := "unmarked intent: no intended identity recorded"
  const UNOBSERVED := "create lacks an exact IdentityObserved checkpoint"
  const STALE := "recorded observation no longer matches live state"
  const CONFLICT := "recovery store publication conflict"
  const ABSENT := "recovered: already absent"
  const STANDING := "pending delete with live or unobservable bridge"

  function Ending(op: Operation, phase: Phase, observed: Option<BridgeIdentity>, detail: Option<string>): Operation {
    op.(phase := phase, observed := observed, detail := detail)
  }

  /** The last entry of an operation that recovery has given this verdict, with the reason it journals. */
  function FinalEntry(host: Host, kernel: KernelState, op: Operation, verdict: Verdict): Operation {
    match verdict
    case NotApplied => op
    case AppliedAndCommitted => Ending(op, StoreCommitted, op.observed, None)
    case RemovalCommitted => Ending(op, Removed, None, Some(ABSENT))
    case QuarantinedVerdict =>
      if op.intended.None? then Ending(op, Quarantined, None, Some(UNMARKED))
      else if op.action.Delete? then Ending(op, Quarantined, None, Some(STANDING))
      else if !ExactlyObserved(host, op) then Ending(op, Quarantined, None, Some(UNOBSERVED))
      else if !StillLive(host, kernel, op) then Ending(op, Quarantined, None, Some(STALE))
      else Ending(op, Quarantined, op.observed, Some(CONFLICT))
  }

  /** The kernel allows the verdict, and the journal has grown by exactly the entry that records it, or not at all. */
  ghost predicate Outcome(host: Host, kernel: KernelState, before: seq<Operation>, after: seq<Operation>, op: Operation,
                          verdict: Verdict) {
    && MayReach(host, kernel, op, verdict)
    && after == if verdict.NotApplied? then before else before + [FinalEntry(host, kernel, op, verdict)]
  }

  /** Every entry that recovery may write for this operation fits in a frame. */
  predicate EndingsFit(host: Host, op: Operation) {
    && host.fits(Ending(op, Quarantined, None, Some(UNMARKED)))
    && host.fits(Ending(op, Quarantined, None, Some(UNOBSERVED)))
    && host.fits(Ending(op, Quarantined, None, Some(STALE)))
    && host.fits(Ending(op, Quarantined, op.observed, Some(CONFLICT)))
    && host.fits(Ending(op, StoreCommitted, op.observed, None))
    && host.fits(Ending(op, Removed, None, Some(ABSENT)))
    && host.fits(Ending(op, Quarantined, None, Some(STANDING)))
  }

  /** A frame test by size admits them all as soon as it leaves the operation itself room for the longest text. */
  lemma EndingsFitBySize(host: Host, op: Operation, size: Operation -> nat)
    requires forall e :: host.fits(e) <==> size(e) <= JournalFraming.MAX_FRAME_LEN
    requires forall phase, observed, detail :: observed == None || observed == op.observed ==>
               size(Ending(op, phase, observed, detail)) <= size(op) + (if detail.Some? then |detail.value| else 0) + 64
    requires size(op) + 128 <= JournalFraming.MAX_FRAME_LEN
    ensures EndingsFit(host, op)
  {
    assert |UNMARKED| <= 64 && |UNOBSERVED| <= 64 && |STALE| <= 64 && |CONFLICT| <= 64 && |ABSENT| <= 64
           && |STANDING| <= 64;
  }

  /** Recovery could not write an entry for this operation: the journal is full or the entry too large. */
  ghost predicate NoRoom(host: Host, journal: seq<Operation>, op: Operation) {
    |journal| >= MAX_FRAMES || !EndingsFit(host, op)
  }

  lemma PendingIsLatest(rt: Runtime, op: Operation)
    requires Readable(rt.host, rt.journal) && IsPending(rt.journal, op)
    ensures op.opId in LatestMap(rt.journal) && LatestMap(rt.journal)[op.opId] == op && op.opId != ""
  {
    LatestIsLast(rt.journal, op.opId);
    assert ValidHistory(rt.host, rt.journal);
    EntriesWellFormed(rt.host, rt.journal, LastIndex(rt.journal, op.opId));
  }

  /** An append for one operation does not change what is pending for another. */
  lemma OtherStaysPending(journal: seq<Operation>, entry: Operation, op: Operation)
    requires entry.opId != op.opId
    ensures IsPending(journal + [entry], op) <==> IsPending(journal, op)
  {
    assert (journal + [entry])[..|journal|] == journal;
  }

  lemma TerminalNotPending(journal: seq<Operation>, entry: Operation, op: Operation)
    requires IsTerminalPhase(entry.phase) && entry.opId == op.opId
    ensures !IsPending(journal + [entry], op)
  {
    assert (journal + [entry])[|journal|] == entry;
  }

  /**
   * Ends the life of a pending operation in a terminal phase; without a crash only the size of
   * the entry or of the journal can prevent it.
   */
  method Settle(rt: Runtime, op: Operation, phase: Phase, observed: Option<BridgeIdentity>, detail: Option<string>)
    returns (r: Result<(), Error>)
    requires rt.Valid() && Readable(rt.host, rt.journal) && IsPending(rt.journal, op)
    requires IsTerminalPhase(phase) && IsLegalTransition(op.action, op.phase, phase)
    requires phase.StoreCommitted? ==> op.record in rt.store
    modifies rt`journal, rt`trace
    ensures rt.Valid() && old(rt.trace) <= rt.trace && Readable(rt.host, rt.journal)
    ensures r.Ok? ==> rt.journal == old(rt.journal) + [Ending(op, phase, observed, detail)]
    ensures rt.journal == old(rt.journal) || LifeEnded(old(rt.journal), rt.journal, op, phase)
    ensures r.Err? && r.error != Crash ==>
              rt.journal == old(rt.journal)
              && (|rt.journal| >= MAX_FRAMES || !rt.host.fits(Ending(op, phase, observed, detail)))
  {
    PendingIsLatest(rt, op);
    var settled, next := rt.AppendCheckpoint(op, phase, observed, detail);
    r := settled;
  }

  /** An intent with no identity in it: quarantined without a look at the kernel. */
  method RecoverUnmarked(rt: Runtime, op: Operation) returns (r: Result<Verdict, Error>)
    requires rt.Valid() && Readable(rt.host, rt.journal) && IsPending(rt.journal, op)
    requires op.intended.None? && IsLegalTransition(op.action, op.phase, Quarantined)
    modifies rt`journal, rt`trace
    ensures rt.Valid() && old(rt.trace) <= rt.trace && Readable(rt.host, rt.journal)
    ensures rt.journal == old(rt.journal) || LifeEnded(old(rt.journal), rt.journal, op, Quarantined)
    ensures r.Ok? ==> Outcome(rt.host, rt.kernel, old(rt.journal), rt.journal, op, r.value)
    ensures r.Err? && r.error != Crash ==> rt.journal == old(rt.journal) && NoRoom(rt.host, rt.journal, op)
  {
    var settled := Settle(rt, op, Quarantined, None, Some(UNMARKED));
    return if settled.Ok? then Ok(QuarantinedVerdict) else Err(settled.error);
  }

  /** A create without an exact observation: absent bridges are left pending, anything else is quarantined. */
  method RecoverUnobserved(rt: Runtime, op: Operation) returns (r: Result<Verdict, Error>)
    requires rt.Valid() && Readable(rt.host, rt.journal) && IsPending(rt.journal, op)
    requires op.action.Create? && op.intended.Some? && !ExactlyObserved(rt.host, op)
    requires IsLegalTransition(op.action, op.phase, Quarantined)
    modifies rt`journal, rt`kernel, rt`trace, rt`interference
    ensures rt.Valid() && old(rt.trace) <= rt.trace && rt.interference >= old(rt.interference)
            && Readable(rt.host, rt.journal)
    ensures rt.interference == old(rt.interference) ==> rt.kernel == old(rt.kernel)
    ensures rt.journal == old(rt.journal) || LifeEnded(old(rt.journal), rt.journal, op, Quarantined)
    ensures r.Ok? ==> Outcome(rt.host, rt.kernel, old(rt.journal), rt.journal, op, r.value)
    ensures rt.interference == old(rt.interference) && LeftPending(rt.host, old(rt.kernel), op) ==>
              r.Ok? && rt.trace == old(rt.trace)
    ensures r.Err? && r.error != Crash ==> rt.journal == old(rt.journal) && NoRoom(rt.host, rt.journal, op)
  {
    var seen := rt.ObserveBridge(op.record.bridgeName);
    if seen == Ok(None) {
      return Ok(NotApplied);
    }
    var settled := Settle(rt, op, Quarantined, None, Some(UNOBSERVED));
    return if settled.Ok? then Ok(QuarantinedVerdict) else Err(settled.error);
  }

  /**
   * An exactly observed create. It is committed if and only if the recorded bridge still
   * stands, the store could be read and written, and no other record holds the name;
   * otherwise it is quarantined.
   */
  method RecoverObserved(rt: Runtime, op: Operation) returns (r: Result<Verdict, Error>)
    requires rt.Valid() && Readable(rt.host, rt.journal) && IsPending(rt.journal, op)
    requires op.action.Create? && ExactlyObserved(rt.host, op)
    modifies rt
    ensures rt.Valid() && old(rt.trace) <= rt.trace && rt.interference >= old(rt.interference)
            && Readable(rt.host, rt.journal)
    ensures rt.interference == old(rt.interference) ==> rt.kernel == old(rt.kernel)
    ensures rt.journal == old(rt.journal) || Ended(old(rt.journal), rt.journal, op)
    ensures r.Ok? ==> Outcome(rt.host, rt.kernel, old(rt.journal), rt.journal, op, r.value)
    ensures r.Ok? ==> Decided(rt.host, rt.kernel, old(rt.store), op, r.value, rt.storeFaults != old(rt.storeFaults))
    ensures rt.storeFaults >= old(rt.storeFaults)
    ensures forall other :: other in old(rt.store) ==> other in rt.store
    ensures rt.store == old(rt.store) || (op.record !in old(rt.store) && StillLive(rt.host, rt.kernel, op))
    ensures r == Ok(AppliedAndCommitted) ==> op.record in rt.store
    ensures r.Err? && r.error != Crash ==> rt.journal == old(rt.journal) && NoRoom(rt.host, rt.journal, op)
  {
    var seen := rt.ObserveBridge(op.record.bridgeName);
    if seen != Ok(Some(op.observed.value)) {
      var settled := Settle(rt, op, Quarantined, None, Some(STALE));
      return if settled.Ok? then Ok(QuarantinedVerdict) else Err(settled.error);
    }
    r := PublishAndSettle(rt, op);
  }

  /** The exact condition under which recovery commits an operation; `faulty` says the store could not be used. */
  ghost predicate Decided(host: Host, kernel: KernelState, store: seq<NetworkRecord>, op: Operation, verdict: Verdict,
                          faulty: bool) {
    verdict == AppliedAndCommitted <==> StillLive(host, kernel, op) && !faulty && !Conflicting(store, op.record)
  }

  /** Publication of the journaled record, then its commit; a publication that fails is quarantined. */
  method PublishAndSettle(rt: Runtime, op: Operation) returns (r: Result<Verdict, Error>)
    requires rt.Valid() && Readable(rt.host, rt.journal) && IsPending(rt.journal, op)
    requires op.action.Create? && op.phase.IdentityObserved?
    modifies rt`journal, rt`store, rt`trace, rt`storeFaults
    ensures rt.Valid() && old(rt.trace) <= rt.trace && Readable(rt.host, rt.journal)
    ensures rt.journal == old(rt.journal) || Ended(old(rt.journal), rt.journal, op)
    ensures r.Ok? ==> r.value == AppliedAndCommitted || r.value == QuarantinedVerdict
    ensures r.Ok? ==>
              rt.journal == old(rt.journal) + [if r.value == AppliedAndCommitted
                                               then Ending(op, StoreCommitted, op.observed, None)
                                               else Ending(op, Quarantined, op.observed, Some(CONFLICT))]
    ensures r.Ok? ==>
      (r.value == AppliedAndCommitted <==>
         rt.storeFaults == old(rt.storeFaults) && !Conflicting(old(rt.store), op.record))
    ensures rt.storeFaults >= old(rt.storeFaults)
    ensures forall other :: other in old(rt.store) ==> other in rt.store
    ensures op.record in old(rt.store) ==> rt.store == old(rt.store)
    ensures r == Ok(AppliedAndCommitted) ==> op.record in rt.store
    ensures r.Err? && r.error != Crash ==> rt.journal == old(rt.journal) && NoRoom(rt.host, rt.journal, op)
  {
    PendingIsLatest(rt, op);
    var published := rt.PublishRecord(op.record, op.opId);
    if published == Err(Crash) {
      return Err(Crash);
    }
    var phase := if published.Ok? then StoreCommitted else Quarantined;
    var detail := if published.Ok? then None else Some(CONFLICT);
    var settled := Settle(rt, op, phase, op.observed, detail);
    return if settled.Err? then Err(settled.error)
           else Ok(if published.Ok? then AppliedAndCommitted else QuarantinedVerdict);
  }

  /** How a pending delete ends, as its bridge stands. */
  function DeletePhase(kernel: KernelState, op: Operation): Phase {
    if op.record.bridgeName !in kernel.unreadable && op.record.bridgeName !in kernel.bridges then Removed
    else Quarantined
  }

  /** A pending delete: committed as removed if the bridge is absent, otherwise quarantined and never replayed. */
  method RecoverDelete(rt: Runtime, op: Operation) returns (r: Result<Verdict, Error>)
    requires rt.Valid() && Readable(rt.host, rt.journal) && IsPending(rt.journal, op)
    requires op.action.Delete? && op.phase.DeleteIntentDurable? && op.intended.Some?
    modifies rt`journal, rt`kernel, rt`trace, rt`interference
    ensures rt.Valid() && old(rt.trace) <= rt.trace && rt.interference >= old(rt.interference)
            && Readable(rt.host, rt.journal)
    ensures rt.interference == old(rt.interference) ==> rt.kernel == old(rt.kernel)
    ensures rt.journal == old(rt.journal)
            || LifeEnded(old(rt.journal), rt.journal, op, DeletePhase(rt.kernel, op))
    ensures r.Ok? ==> Outcome(rt.host, rt.kernel, old(rt.journal), rt.journal, op, r.value)
    ensures r.Err? && r.error != Crash ==> rt.journal == old(rt.journal) && NoRoom(rt.host, rt.journal, op)
  {
    var seen := rt.ObserveBridge(op.record.bridgeName);
    var absent := seen == Ok(None);
    var detail := if absent then ABSENT else STANDING;
    var settled := Settle(rt, op, if absent then Removed else Quarantined, None, Some(detail));
    return if settled.Err? then Err(settled.error) else Ok(if absent then RemovalCommitted else QuarantinedVerdict);
  }

  /** The phases a pending operation can be in. */
  lemma PendingPhase(host: Host, journal: seq<Operation>, op: Operation)
    requires ValidHistory(host, journal) && IsPending(journal, op)
    ensures op.action.Create? ==> op.phase.IntentDurable? || op.phase.IdentityObserved?
    ensures op.action.Delete? ==> op.phase.DeleteIntentDurable?
  {
    var k := LastIndex(journal, op.opId);
    ValidPrefix(host, journal, k + 1);
    assert journal[..k + 1][..k] == journal[..k];
  }

  /** The journal grew by one terminal entry of `op`. */
  ghost predicate Ended(before: seq<Operation>, after: seq<Operation>, op: Operation) {
    exists phase :: IsTerminalPhase(phase) && LifeEnded(before, after, op, phase)
  }

  /** A round of recovery for `op` that ran to its end while nobody else changed the kernel. */
  ghost predicate Round(host: Host, before: World, after: World, op: Operation, verdict: Verdict, faulty: bool) {
    && after.kernel == before.kernel
    && Outcome(host, before.kernel, before.journal, after.journal, op, verdict)
    && Decided(host, before.kernel, before.store, op, verdict, faulty)
    && (after.store == before.store || (op.record !in before.store && StillLive(host, before.kernel, op)))
  }

  /** One round of the recovery loop. */
  method RecoverOne(rt: Runtime, op: Operation) returns (r: Result<ReportEntry, Error>)
    requires rt.Valid() && Readable(rt.host, rt.journal) && IsPending(rt.journal, op)
    modifies rt
    ensures rt.Valid() && old(rt.trace) <= rt.trace && rt.interference >= old(rt.interference)
            && Readable(rt.host, rt.journal)
    ensures rt.interference == old(rt.interference) ==> rt.kernel == old(rt.kernel)
    ensures rt.journal == old(rt.journal) || Ended(old(rt.journal), rt.journal, op)
    ensures r.Ok? && rt.interference == old(rt.interference) ==>
              Round(rt.host, old(rt.Durable()), rt.Durable(), op, r.value.verdict,
                    rt.storeFaults != old(rt.storeFaults))
    ensures rt.interference == old(rt.interference) && LeftPending(rt.host, old(rt.kernel), op) ==>
              r.Ok? && rt.trace == old(rt.trace)
    ensures rt.interference == old(rt.interference) ==>
              rt.store == old(rt.store) || (op.record !in old(rt.store) && StillLive(rt.host, rt.kernel, op))
    ensures rt.storeFaults >= old(rt.storeFaults)
    ensures forall other :: other in old(rt.store) ==> other in rt.store
    ensures r.Err? && r.error != Crash ==> rt.journal == old(rt.journal) && NoRoom(rt.host, rt.journal, op)
    ensures r.Ok? ==> Reports(r.value, op)
  {
    var verdict :- Resolve(rt, op);
    return Ok(ReportEntry(op.resource.name, op.resource.uuid, op.resource.generation, verdict, verdict != NotApplied));
  }

  /** The cases of a round: an unmarked intent, a delete, a create. */
  method Resolve(rt: Runtime, op: Operation) returns (r: Result<Verdict, Error>)
    requires rt.Valid() && Readable(rt.host, rt.journal) && IsPending(rt.journal, op)
    modifies rt
    ensures rt.Valid() && old(rt.trace) <= rt.trace && rt.interference >= old(rt.interference)
            && Readable(rt.host, rt.journal)
    ensures rt.interference == old(rt.interference) ==> rt.kernel == old(rt.kernel)
    ensures rt.journal == old(rt.journal) || Ended(old(rt.journal), rt.journal, op)
    ensures r.Ok? ==> Outcome(rt.host, rt.kernel, old(rt.journal), rt.journal, op, r.value)
    ensures r.Ok? ==> Decided(rt.host, rt.kernel, old(rt.store), op, r.value, rt.storeFaults != old(rt.storeFaults))
    ensures rt.interference == old(rt.interference) && LeftPending(rt.host, old(rt.kernel), op) ==>
              r.Ok? && rt.trace == old(rt.trace)
    ensures rt.store == old(rt.store) || (op.record !in old(rt.store) && StillLive(rt.host, rt.kernel, op))
    ensures rt.storeFaults >= old(rt.storeFaults)
    ensures forall other :: other in old(rt.store) ==> other in rt.store
    ensures r.Err? && r.error != Crash ==> rt.journal == old(rt.journal) && NoRoom(rt.host, rt.journal, op)
  {
    assert IsLegalTransition(op.action, op.phase, Quarantined)
           && (op.action.Delete? ==> op.phase.DeleteIntentDurable?) by {
      assert ValidHistory(rt.host, rt.journal);
      PendingPhase(rt.host, rt.journal, op);
    }
    if op.intended.None? {
      r := RecoverUnmarked(rt, op);
    } else if op.action.Delete? {
      r := RecoverDelete(rt, op);
    } else {
      r := RecoverCreate(rt, op);
    }
  }

  /** A create, with or without an exact observation on record. */
  method RecoverCreate(rt: Runtime, op: Operation) returns (r: Result<Verdict, Error>)
    requires rt.Valid() && Readable(rt.host, rt.journal) && IsPending(rt.journal, op)
    requires op.action.Create? && op.intended.Some? && IsLegalTransition(op.action, op.phase, Quarantined)
    modifies rt
    ensures rt.Valid() && old(rt.trace) <= rt.trace && rt.interference >= old(rt.interference)
            && Readable(rt.host, rt.journal)
    ensures rt.interference == old(rt.interference) ==> rt.kernel == old(rt.kernel)
    ensures rt.journal == old(rt.journal) || Ended(old(rt.journal), rt.journal, op)
    ensures r.Ok? ==> Outcome(rt.host, rt.kernel, old(rt.journal), rt.journal, op, r.value)
    ensures r.Ok? ==> Decided(rt.host, rt.kernel, old(rt.store), op, r.value, rt.storeFaults != old(rt.storeFaults))
    ensures rt.interference == old(rt.interference) && LeftPending(rt.host, old(rt.kernel), op) ==>
              r.Ok? && rt.trace == old(rt.trace)
    ensures rt.store == old(rt.store) || (op.record !in old(rt.store) && StillLive(rt.host, rt.kernel, op))
    ensures rt.storeFaults >= old(rt.storeFaults)
    ensures forall other :: other in old(rt.store) ==> other in rt.store
    ensures r.Err? && r.error != Crash ==> rt.journal == old(rt.journal) && NoRoom(rt.host, rt.journal, op)
  {
    if ExactlyObserved(rt.host, op) {
      r := RecoverObserved(rt, op);
    } else {
      r := RecoverUnobserved(rt, op);
    }
  }

  /** The report line of one operation. */
  predicate Reports(entry: ReportEntry, op: Operation) {
    entry == ReportEntry(op.resource.name, op.resource.uuid, op.resource.generation, entry.verdict,
                         entry.verdict != NotApplied)
  }

  // ----- the loop over all pending operations -----

  /** The newest entry of the operation is the one its verdict speaks of, and the kernel allows that verdict. */
  ghost predicate Resolved(host: Host, kernel: KernelState, journal: seq<Operation>, op: Operation, verdict: Verdict) {
    && MayReach(host, kernel, op, verdict)
    && var k := LastIndex(journal, op.opId);
       k >= 0 && journal[k] == FinalEntry(host, kernel, op, verdict)
  }

  /** Everything pending is either still ahead in the list or of the one kind recovery leaves alone. */
  ghost predicate Accounted(host: Host, kernel: KernelState, journal: seq<Operation>, ahead: seq<Operation>) {
    forall op :: IsPending(journal, op) ==> op in ahead || LeftPending(host, kernel, op)
  }

  /** From place `k` on, the list still holds pending operations. */
  ghost predicate PendingFrom(journal: seq<Operation>, ops: seq<Operation>, k: nat) {
    forall i {:trigger ops[i]} :: k <= i < |ops| ==> IsPending(journal, ops[i])
  }

  lemma RestStaysPending(before: seq<Operation>, after: seq<Operation>, ops: seq<Operation>, k: nat)
    requires k < |ops| && DistinctIds(ops) && PendingFrom(before, ops, k)
    requires after == before || Ended(before, after, ops[k])
    ensures PendingFrom(after, ops, k + 1) && |after| <= |before| + 1
  {
    if after != before {
      var entry := after[|before|];
      assert after == before + [entry];
      forall i | k + 1 <= i < |ops|
        ensures IsPending(after, ops[i])
      {
        OtherStaysPending(before, entry, ops[i]);
      }
    }
  }

  lemma RestIsAccounted(host: Host, kernel: KernelState, before: seq<Operation>, after: seq<Operation>,
                        ahead: seq<Operation>)
    requires ahead != [] && Accounted(host, kernel, before, ahead)
    requires Ended(before, after, ahead[0]) || (after == before && LeftPending(host, kernel, ahead[0]))
    ensures Accounted(host, kernel, after, ahead[1..])
  {
    forall op | IsPending(after, op)
      ensures op in ahead[1..] || LeftPending(host, kernel, op)
    {
      if after != before {
        var entry := after[|before|];
        assert after == before + [entry];
        if op.opId == entry.opId {
          TerminalNotPending(before, entry, op);
        }
        OtherStaysPending(before, entry, op);
      }
      assert op in ahead ==> op == ahead[0] || op in ahead[1..];
    }
  }

  lemma LaterRoundKeeps(before: seq<Operation>, after: seq<Operation>, op: Operation, id: string)
    requires op.opId != id
    requires after == before || Ended(before, after, op)
    ensures LastIndex(after, id) == LastIndex(before, id)
    ensures LastIndex(before, id) >= 0 ==> after[LastIndex(before, id)] == before[LastIndex(before, id)]
  {
    if after != before {
      assert after == before + [after[|before|]];
      assert after[..|before|] == before;
    }
  }

  lemma RoundResolves(host: Host, kernel: KernelState, before: seq<Operation>, after: seq<Operation>, op: Operation,
                      verdict: Verdict)
    requires IsPending(before, op) && Outcome(host, kernel, before, after, op, verdict)
    ensures Resolved(host, kernel, after, op, verdict)
    ensures Ended(before, after, op) || (after == before && LeftPending(host, kernel, op))
  {
    if !verdict.NotApplied? {
      assert after[|after| - 1] == after[|before|];
      assert LifeEnded(before, after, op, FinalEntry(host, kernel, op, verdict).phase);
    }
  }

  /** What quiet rounds over the first pending operations have achieved since the world was `start`. */
  ghost predicate RoundsDone(host: Host, start: World, w: World, pending: seq<Operation>, entries: seq<ReportEntry>,
                             faults: seq<bool>)
    requires |faults| == |entries| <= |pending|
  {
    && w.kernel == start.kernel
    && Accounted(host, w.kernel, w.journal, pending[|entries|..])
    && (forall i {:trigger entries[i]} :: 0 <= i < |entries| ==>
          ResolvedSince(host, start, w, pending[i], entries[i], faults[i]))
    && (LiveAreStored(host, start, pending) ==> w.store == start.store)
  }

  /**
   * One operation, reported and resolved. If only the commit was missing, it is committed
   * when the store could be read and quarantined when it could not.
   */
  ghost predicate ResolvedSince(host: Host, start: World, w: World, op: Operation, entry: ReportEntry, faulty: bool) {
    && Reports(entry, op) && Resolved(host, start.kernel, w.journal, op, entry.verdict)
    && (StillLive(host, start.kernel, op) && op.record in start.store ==>
          entry.verdict == if faulty then QuarantinedVerdict else AppliedAndCommitted)
  }

  /** Every observed create in the list whose bridge still stands already has its record in the store. */
  ghost predicate LiveAreStored(host: Host, start: World, pending: seq<Operation>) {
    forall op :: op in pending && StillLive(host, start.kernel, op) ==> op.record in start.store
  }

  lemma RoundAdvances(host: Host, start: World, before: World, after: World, pending: seq<Operation>,
                      entries: seq<ReportEntry>, faults: seq<bool>, entry: ReportEntry, faulty: bool)
    requires |faults| == |entries| < |pending| && DistinctIds(pending)
             && PendingFrom(before.journal, pending, |entries|)
    requires RoundsDone(host, start, before, pending, entries, faults) && Reports(entry, pending[|entries|])
    requires Round(host, before, after, pending[|entries|], entry.verdict, faulty)
    requires forall r :: r in start.store ==> r in before.store
    ensures RoundsDone(host, start, after, pending, entries + [entry], faults + [faulty])
  {
    var k := |entries|;
    var op, more, flags := pending[k], entries + [entry], faults + [faulty];
    assert pending[k..][0] == op && pending[k..][1..] == pending[k + 1..];
    RoundResolves(host, start.kernel, before.journal, after.journal, op, entry.verdict);
    RestIsAccounted(host, start.kernel, before.journal, after.journal, pending[k..]);
    forall i | 0 <= i < |more|
      ensures ResolvedSince(host, start, after, pending[i], more[i], flags[i])
    {
      if i < k {
        assert ResolvedSince(host, start, before, pending[i], entries[i], faults[i]);
        LaterRoundKeeps(before.journal, after.journal, op, pending[i].opId);
      }
    }
  }

  /** Room for one terminal entry per pending operation, none of them oversized. */
  ghost predicate HasRoom(host: Host, journal: seq<Operation>) {
    && |journal| + |PendingIds(journal)| <= MAX_FRAMES
    && forall op :: IsPending(journal, op) ==> EndingsFit(host, op)
  }

  ghost predicate FullySettled(host: Host, w: World) {
    forall op :: IsPending(w.journal, op) ==> LeftPending(host, w.kernel, op)
  }

  /** Everything that was pending at the start is reported and resolved. */
  ghost predicate AllResolved(host: Host, start: World, w: World, entries: seq<ReportEntry>, faults: seq<bool>)
    requires |faults| == |entries|
  {
    forall op :: IsPending(start.journal, op) ==>
      exists i :: 0 <= i < |entries| && ResolvedSince(host, start, w, op, entries[i], faults[i])
  }

  lemma EndOfRecovery(host: Host, start: World, w: World, pending: seq<Operation>, entries: seq<ReportEntry>,
                      faults: seq<bool>)
    requires forall op :: op in pending <==> IsPending(start.journal, op)
    requires |faults| == |entries| == |pending| && RoundsDone(host, start, w, pending, entries, faults)
    ensures FullySettled(host, w) && AllResolved(host, start, w, entries, faults)
  {
    assert pending[|entries|..] == [];
    forall op | IsPending(start.journal, op)
      ensures exists i :: 0 <= i < |entries| && ResolvedSince(host, start, w, op, entries[i], faults[i])
    {
      var i :| 0 <= i < |pending| && pending[i] == op;
      assert ResolvedSince(host, start, w, op, entries[i], faults[i]);
    }
  }

  /**
   * Recovery converges. An unreadable journal stops it before it has done anything; with
   * room in a readable one only a crash can. Run to the end over a kernel nobody else
   * changes, it leaves that kernel alone and leaves pending only creates that were never
   * exactly observed and whose bridge is absent; a second run then changes nothing. Every
   * operation that was pending is reported with a verdict its bridge allows and ends in the
   * phase of that verdict. A publication that a crash interrupted is committed, unless the
   * store could not be read in its round (`faults`), and the store is unchanged if those are
   * the only observed creates whose bridge still stands.
   */
  method RecoverNetworkLifecycles(rt: Runtime) returns (r: Result<seq<ReportEntry>, Error>, ghost faults: seq<bool>)
    requires rt.Valid()
    modifies rt
    ensures rt.Valid() && old(rt.trace) <= rt.trace && rt.interference >= old(rt.interference)
    ensures rt.interference == old(rt.interference) ==> rt.kernel == old(rt.kernel)
    ensures Readable(rt.host, rt.journal) <==> Readable(rt.host, old(rt.journal))
    ensures !Readable(rt.host, old(rt.journal)) ==> r == Err(JournalCorrupt) && rt.trace == old(rt.trace)
    ensures Readable(rt.host, old(rt.journal)) && old(HasRoom(rt.host, rt.journal)) && r.Err? ==> r.error == Crash
    ensures r.Ok? ==> |faults| == |r.value| == |PendingIds(old(rt.journal))|
    ensures r.Ok? ==> (true in faults <==> rt.storeFaults != old(rt.storeFaults))
    ensures r.Ok? && rt.interference == old(rt.interference) ==>
              FullySettled(rt.host, rt.Durable())
              && AllResolved(rt.host, old(rt.Durable()), rt.Durable(), r.value, faults)
    ensures Readable(rt.host, old(rt.journal)) && old(FullySettled(rt.host, rt.Durable())) ==>
              rt.interference == old(rt.interference) ==> r.Ok? && rt.trace == old(rt.trace)
    ensures forall other :: other in old(rt.store) ==> other in rt.store
    ensures rt.interference == old(rt.interference)
            && (forall op :: old(IsPending(rt.journal, op) && StillLive(rt.host, rt.kernel, op)) ==>
                  op.record in old(rt.store))
            ==> rt.store == old(rt.store)
  {
    var pending := ReadPendingOperations(rt.host, rt.journal);
    if pending.Err? {
      return Err(pending.error), [];
    }
    ghost var start := rt.Durable();
    r, faults := RecoverAll(rt, pending.value);
    if r.Ok? && rt.interference == old(rt.interference) {
      EndOfRecovery(rt.host, start, rt.Durable(), pending.value, r.value, faults);
    }
  }

  /** The loop itself, for a pending list in any order. */
  method RecoverAll(rt: Runtime, pending: seq<Operation>)
    returns (r: Result<seq<ReportEntry>, Error>, ghost faults: seq<bool>)
    requires rt.Valid() && Readable(rt.host, rt.journal)
    requires DistinctIds(pending) && forall op :: op in pending <==> IsPending(rt.journal, op)
    modifies rt
    ensures rt.Valid() && old(rt.trace) <= rt.trace && rt.interference >= old(rt.interference)
            && Readable(rt.host, rt.journal)
    ensures rt.interference == old(rt.interference) ==> rt.kernel == old(rt.kernel)
    ensures r.Err? && r.error != Crash ==>
              |old(rt.journal)| + |pending| > MAX_FRAMES || exists op :: op in pending && !EndingsFit(rt.host, op)
    ensures r.Ok? ==> |faults| == |r.value| == |pending|
    ensures r.Ok? ==> (true in faults <==> rt.storeFaults != old(rt.storeFaults))
    ensures r.Ok? && rt.interference == old(rt.interference) ==>
              RoundsDone(rt.host, old(rt.Durable()), rt.Durable(), pending, r.value, faults)
    ensures (forall op :: op in pending ==> LeftPending(rt.host, old(rt.kernel), op))
            && rt.interference == old(rt.interference)
            ==> r.Ok? && rt.trace == old(rt.trace)
    ensures forall other :: other in old(rt.store) ==> other in rt.store
    ensures rt.interference == old(rt.interference) && LiveAreStored(rt.host, old(rt.Durable()), pending) ==>
              rt.store == old(rt.store)
  {
    var entries: seq<ReportEntry> := [];
    faults := [];
    ghost var start := rt.Durable();
    var k := 0;
    while k < |pending|
      invariant 0 <= k <= |pending| && |entries| == |faults| == k
      invariant rt.Valid() && old(rt.trace) <= rt.trace && rt.interference >= old(rt.interference)
                && Readable(rt.host, rt.journal)
      invariant PendingFrom(rt.journal, pending, k) && |rt.journal| <= |start.journal| + k
      invariant rt.storeFaults >= old(rt.storeFaults) && (true in faults <==> rt.storeFaults != old(rt.storeFaults))
      invariant rt.interference == old(rt.interference) ==>
                  RoundsDone(rt.host, start, rt.Durable(), pending, entries, faults)
      invariant (forall op :: op in pending ==> LeftPending(rt.host, start.kernel, op))
                && rt.interference == old(rt.interference) ==>
                  rt.trace == old(rt.trace)
      invariant forall other :: other in start.store ==> other in rt.store
    {
      ghost var before, faultsBefore := rt.Durable(), rt.storeFaults;
      var entry := RecoverOne(rt, pending[k]);
      if entry.Err? {
        return Err(entry.error), faults;
      }
      ghost var faulty := rt.storeFaults != faultsBefore;
      RestStaysPending(before.journal, rt.journal, pending, k);
      if rt.interference == old(rt.interference) {
        RoundAdvances(rt.host, start, before, rt.Durable(), pending, entries, faults, entry.value, faulty);
      }
      entries, faults := entries + [entry.value], faults + [faulty];
      k := k + 1;
    }
    return Ok(entries), faults;
  }
}
