/** Identities, records and journal entries of the named-network lifecycle. */
module NetworkTypes {
  import opened Wrappers

  /** Kernel identity of a bridge; `ifindex` is present once it has been observed. */
  datatype BridgeIdentity = BridgeIdentity(
    name: string, ifindex: Option<nat>, cidr: Option<string>, ipv6Cidr: Option<string>)
  {
    predicate MatchesExactly(observed: BridgeIdentity) {
      ifindex.Some? && this == observed
    }
  }

  datatype NetworkRecord = NetworkRecord(
    name: string, driver: string, subnet: string, gateway: string,
    bridgeName: string, bridgeCidr: string, ipv6Cidr: Option<string>,
    labels: map<string, string>, createdAtUnix: nat, generation: nat)

  datatype Phase =
    | IntentDurable | IdentityObserved | StoreCommitted
    | DeleteIntentDurable | Removed | Quarantined

  datatype Action = Create | Delete

  datatype ResourceBinding = ResourceBinding(name: string, uuid: string, generation: nat)

  datatype Operation = Operation(
    opId: string, action: Action, resource: ResourceBinding, record: NetworkRecord,
    phase: Phase, intended: Option<BridgeIdentity>, observed: Option<BridgeIdentity>,
    detail: Option<string>)

  datatype Error =
    | JournalCorrupt | JournalIo | QuarantinedError | KernelError | NotFound | StoreConflict | Collision
    | InUse | PendingError | Unauthorized
    | Crash  // the process stopped, or a journal access failed and nothing further ran

  /** Operation ids are the hexadecimal text of a digest, so they are never empty. */
  type OpId = s: string | s != "" witness "0"

  /**
   * The code this model does not look into, as functions it knows nothing about:
   * the SHA-256 based ids, the IPv6 link-local test, and whether the JSON form of
   * an entry fits in one journal frame. Ids may collide; where a claim depends on two
   * of them being different, it says which two.
   */
  datatype Host = Host(
    uuid: string -> string,
    opId: (string, Action, nat, nat) -> OpId,
    linkLocal: string -> bool,
    fits: Operation -> bool)

  function NonEmpty(s: string): Option<string> {
    if s == "" then None else Some(s)
  }

  /** The identity a create aims for: it carries no ifindex until it is observed. */
  function IntendedIdentity(record: NetworkRecord): (id: BridgeIdentity)
    ensures id.name == record.bridgeName && id.ifindex.None?
  {
    BridgeIdentity(record.bridgeName, None, NonEmpty(record.bridgeCidr),
                   if record.ipv6Cidr.Some? then NonEmpty(record.ipv6Cidr.value) else None)
  }

  predicate Ipv6Matches(host: Host, intended: Option<string>, observed: Option<string>) {
    match (intended, observed)
    case (None, None) => true
    case (None, Some(seen)) => host.linkLocal(seen)
    case (Some(wanted), Some(seen)) => wanted == seen
    case (Some(_), None) => false
  }

  predicate IsIntendedObservation(host: Host, intended: BridgeIdentity, observed: BridgeIdentity) {
    && observed.name == intended.name
    && observed.cidr == intended.cidr
    && Ipv6Matches(host, intended.ipv6Cidr, observed.ipv6Cidr)
    && observed.ifindex.Some? && observed.ifindex.value != 0
  }

  /**
   * An acceptable observation is the intended identity with a non-zero index, and at most an
   * automatic link-local address that was not asked for.
   */
  lemma IntendedUpToLinkLocal(host: Host, intended: BridgeIdentity, observed: BridgeIdentity)
    ensures IsIntendedObservation(host, intended, observed) <==>
            && observed.ifindex.Some? && observed.ifindex != Some(0)
            && (|| observed == intended.(ifindex := observed.ifindex)
                || (&& intended.ipv6Cidr.None? && observed.ipv6Cidr.Some? && host.linkLocal(observed.ipv6Cidr.value)
                    && observed == intended.(ifindex := observed.ifindex, ipv6Cidr := observed.ipv6Cidr)))
  {
  }
}

/** The operation journal: entry validation, minting, checkpoints and the pending view. */
module NetworkJournal {
  import opened Wrappers
  import opened NetworkTypes
  import JournalFraming

  const MAX_FRAMES := JournalFraming.MAX_FRAMES

  // ----- phases -----

  predicate IsInitialPhase(action: Action, phase: Phase) {
    match action
    case Create => phase.IntentDurable?
    case Delete => phase.DeleteIntentDurable? || phase.Removed?
  }

  predicate IsTerminalPhase(phase: Phase) {
    phase.StoreCommitted? || phase.Removed? || phase.Quarantined?
  }

  predicate IsLegalTransition(action: Action, from: Phase, to: Phase) {
    match (action, from)
    case (Create, IntentDurable) => to.IdentityObserved? || to.Quarantined?
    case (Create, IdentityObserved) => to.StoreCommitted? || to.Quarantined?
    case (Delete, DeleteIntentDurable) => to.Removed? || to.Quarantined?
    case _ => false
  }

  predicate SameBinding(left: Operation, right: Operation) {
    && left.opId == right.opId
    && left.action == right.action
    && left.resource == right.resource
    && left.record == right.record
    && left.intended == right.intended
  }

  /** Two entries have the same binding exactly when they differ in phase, observation and detail alone. */
  lemma SameBindingIff(a: Operation, b: Operation)
    ensures SameBinding(a, b) <==> b == a.(phase := b.phase, observed := b.observed, detail := b.detail)
  {
  }

  // ----- history validation -----

  predicate WellFormedEntry(host: Host, op: Operation) {
    && op.opId != ""
    && op.resource.name != ""
    && op.resource.uuid == host.uuid(op.resource.name)
    && op.resource.name == op.record.name
    && op.record.bridgeName != ""
    && (op.intended.Some? ==> op.intended.value.name == op.record.bridgeName)
  }

  function GenerationKey(op: Operation): (string, nat) {
    (op.resource.uuid, op.resource.generation)
  }

  /** The last entry of every operation id. */
  function LatestMap(ops: seq<Operation>): map<string, Operation> {
    if ops == [] then map[] else
      var last := ops[|ops| - 1];
      LatestMap(ops[..|ops| - 1])[last.opId := last]
  }

  /** `op` may follow the entries `ops`, themselves a valid history. */
  predicate EntryFollows(host: Host, ops: seq<Operation>, op: Operation) {
    && WellFormedEntry(host, op)
    && (forall i :: 0 <= i < |ops| && GenerationKey(ops[i]) == GenerationKey(op) ==> ops[i].opId == op.opId)
    && var latest := LatestMap(ops);
       if op.opId in latest then
         && SameBinding(latest[op.opId], op)
         && IsLegalTransition(op.action, latest[op.opId].phase, op.phase)
       else
         IsInitialPhase(op.action, op.phase)
  }

  predicate ValidHistory(host: Host, ops: seq<Operation>) {
    ops == [] ||
    (ValidHistory(host, ops[..|ops| - 1]) && EntryFollows(host, ops[..|ops| - 1], ops[|ops| - 1]))
  }

  /** The journal passes validation, in a form that unfolds only where it is asked for. */
  ghost predicate Readable(host: Host, ops: seq<Operation>) {
    forall all {:trigger ValidHistory(host, all)} :: all == ops ==> ValidHistory(host, all)
  }

  lemma HistoryGrows(host: Host, ops: seq<Operation>, op: Operation)
    requires ValidHistory(host, ops)
    ensures ValidHistory(host, ops + [op]) <==> EntryFollows(host, ops, op)
  {
    assert (ops + [op])[..|ops|] == ops;
  }

  lemma LatestAfterAppend(ops: seq<Operation>, op: Operation)
    ensures LatestMap(ops + [op]) == LatestMap(ops)[op.opId := op]
  {
    assert (ops + [op])[..|ops|] == ops;
  }

  /** What validation asks of an entry on its own. */
  lemma SingleEntryValidIff(host: Host, op: Operation)
    ensures ValidHistory(host, [op]) <==>
            && op.opId != "" && op.resource.name != "" && op.resource.uuid == host.uuid(op.resource.name)
            && op.record.name == op.resource.name && op.record.bridgeName != ""
            && (op.intended.None? || op.intended.value.name == op.record.bridgeName)
            && (op.phase == IntentDurable ==> op.action == Create)
            && (op.phase == DeleteIntentDurable || op.phase == Removed ==> op.action == Delete)
            && op.phase in {IntentDurable, DeleteIntentDurable, Removed}
  {
    assert [op][..0] == [] && ValidHistory(host, []);
  }

  lemma {:induction false} ValidPrefix(host: Host, ops: seq<Operation>, k: nat)
    requires k <= |ops| && ValidHistory(host, ops)
    ensures ValidHistory(host, ops[..k])
  {
    if k == |ops| {
      assert ops[..k] == ops;
    } else {
      ValidPrefix(host, ops[..|ops| - 1], k);
      assert ops[..|ops| - 1][..k] == ops[..k];
    }
  }

  /** Where the last entry of an operation is, or -1. */
  function LastIndex(ops: seq<Operation>, id: string): (k: int)
    ensures -1 <= k < |ops|
    ensures k >= 0 ==> ops[k].opId == id
    ensures forall j :: k < j < |ops| ==> ops[j].opId != id
  {
    if ops == [] then -1
    else if ops[|ops| - 1].opId == id then |ops| - 1
    else LastIndex(ops[..|ops| - 1], id)
  }

  /** `LatestMap` holds exactly the entries that no later entry of the same id follows. */
  lemma {:induction false} LatestIsLast(ops: seq<Operation>, id: string)
    ensures id in LatestMap(ops) <==> LastIndex(ops, id) >= 0
    ensures id in LatestMap(ops) ==> LatestMap(ops)[id] == ops[LastIndex(ops, id)]
  {
    if ops != [] {
      LatestIsLast(ops[..|ops| - 1], id);
    }
  }

  /** The phases journaled for one operation, in order. */
  function PhasesOf(ops: seq<Operation>, id: string): seq<Phase> {
    if ops == [] then [] else
      var last := ops[|ops| - 1];
      PhasesOf(ops[..|ops| - 1], id) + (if last.opId == id then [last.phase] else [])
  }

  /** The complete and partial lives an operation may have: three entries for a create, two for a delete. */
  predicate LegalLife(action: Action, phases: seq<Phase>) {
    match action
    case Create =>
      && 1 <= |phases| <= 3
      && phases[0].IntentDurable?
      && (|phases| >= 2 ==> phases[1].IdentityObserved? || phases[1].Quarantined?)
      && (|phases| == 3 ==> phases[1].IdentityObserved? && (phases[2].StoreCommitted? || phases[2].Quarantined?))
    case Delete =>
      && 1 <= |phases| <= 2
      && (phases[0].DeleteIntentDurable? || phases[0].Removed?)
      && (|phases| == 2 ==> phases[0].DeleteIntentDurable? && (phases[1].Removed? || phases[1].Quarantined?))
  }

  /**
   * The identity lattice without reference to the order in which validation visits
   * it: one binding per operation id, one owner per resource generation, and every
   * operation on one of the legal lives.
   */
  ghost predicate IdentityLattice(host: Host, ops: seq<Operation>) {
    && (forall i {:trigger WellFormedEntry(host, ops[i])} :: 0 <= i < |ops| ==> WellFormedEntry(host, ops[i]))
    && GenerationsOwned(ops)
    && BindingsAgree(ops)
    && LivesLegal(ops)
  }

  predicate LivesLegal(ops: seq<Operation>) {
    forall i {:trigger PhasesOf(ops, ops[i].opId)} :: 0 <= i < |ops| ==>
      LegalLife(ops[i].action, PhasesOf(ops, ops[i].opId))
  }

  predicate GenerationsOwned(ops: seq<Operation>) {
    forall i, j {:trigger GenerationKey(ops[i]), GenerationKey(ops[j])} ::
      0 <= i < j < |ops| && GenerationKey(ops[i]) == GenerationKey(ops[j]) ==> ops[i].opId == ops[j].opId
  }

  predicate BindingsAgree(ops: seq<Operation>) {
    forall i, j {:trigger SameBinding(ops[i], ops[j])} :: 0 <= i < j < |ops| && ops[i].opId == ops[j].opId ==>
      SameBinding(ops[i], ops[j])
  }

  lemma {:induction false} PhasesEndAtLatest(ops: seq<Operation>, id: string)
    ensures PhasesOf(ops, id) == [] <==> id !in LatestMap(ops)
    ensures id in LatestMap(ops) ==> PhasesOf(ops, id)[|PhasesOf(ops, id)| - 1] == LatestMap(ops)[id].phase
  {
    if ops != [] {
      PhasesEndAtLatest(ops[..|ops| - 1], id);
    }
  }

  lemma {:induction false} LifeExtends(action: Action, phases: seq<Phase>, next: Phase)
    requires phases != []
    ensures LegalLife(action, phases + [next]) <==>
            LegalLife(action, phases) && IsLegalTransition(action, phases[|phases| - 1], next)
  {
    var longer := phases + [next];
    assert |longer| == |phases| + 1 && longer[|phases|] == next;
    assert forall k :: 0 <= k < |phases| ==> longer[k] == phases[k];
  }

  /** The entry-by-entry validation accepts exactly the journals that form the identity lattice. */
  lemma {:induction false} HistoryIsLattice(host: Host, ops: seq<Operation>)
    ensures ValidHistory(host, ops) <==> IdentityLattice(host, ops)
  {
    if ops != [] {
      HistoryIsLattice(host, ops[..|ops| - 1]);
      LatticeStep(host, ops);
    }
  }

  lemma {:induction false} LatticeStep(host: Host, ops: seq<Operation>)
    requires ops != []
    ensures IdentityLattice(host, ops) <==>
            IdentityLattice(host, ops[..|ops| - 1]) && EntryFollows(host, ops[..|ops| - 1], ops[|ops| - 1])
  {
    if IdentityLattice(host, ops) {
      LatticeShrinks(host, ops);
    }
    if IdentityLattice(host, ops[..|ops| - 1]) && EntryFollows(host, ops[..|ops| - 1], ops[|ops| - 1]) {
      LatticeGrows(host, ops);
    }
  }

  lemma {:induction false} LatticeGrows(host: Host, ops: seq<Operation>)
    requires ops != []
    requires IdentityLattice(host, ops[..|ops| - 1]) && EntryFollows(host, ops[..|ops| - 1], ops[|ops| - 1])
    ensures IdentityLattice(host, ops)
  {
    forall i | 0 <= i < |ops|
      ensures WellFormedEntry(host, ops[i])
    {
      assert i < |ops| - 1 ==> ops[i] == ops[..|ops| - 1][i];
    }
    assert GenerationsOwned(ops);
    BindingsGrow(ops);
    LifeAfter(ops[..|ops| - 1], ops[|ops| - 1]);
    forall i | 0 <= i < |ops|
      ensures LegalLife(ops[i].action, PhasesOf(ops, ops[i].opId))
    {
      LifeGrows(ops, i);
    }
  }

  lemma {:induction false} BindingsGrow(ops: seq<Operation>)
    requires ops != [] && BindingsAgree(ops[..|ops| - 1])
    requires var last, latest := ops[|ops| - 1], LatestMap(ops[..|ops| - 1]);
             last.opId in latest ==> SameBinding(latest[last.opId], last)
    ensures BindingsAgree(ops)
  {
    var n := |ops| - 1;
    var init, op := ops[..n], ops[n];
    LatestIsLast(init, op.opId);
    var k := LastIndex(init, op.opId);
    forall i | 0 <= i < n && ops[i].opId == op.opId
      ensures SameBinding(ops[i], op)
    {
      assert i == k || SameBinding(init[i], init[k]);
    }
    forall i, j | 0 <= i < j < n && ops[i].opId == ops[j].opId
      ensures SameBinding(ops[i], ops[j])
    {
      assert SameBinding(init[i], init[j]);
    }
  }

  lemma {:induction false} LifeAfter(init: seq<Operation>, op: Operation)
    requires LivesLegal(init)
    requires if op.opId in LatestMap(init)
             then SameBinding(LatestMap(init)[op.opId], op)
                  && IsLegalTransition(op.action, LatestMap(init)[op.opId].phase, op.phase)
             else IsInitialPhase(op.action, op.phase)
    ensures LegalLife(op.action, PhasesOf(init, op.opId) + [op.phase])
  {
    LatestIsLast(init, op.opId);
    PhasesEndAtLatest(init, op.opId);
    var k := LastIndex(init, op.opId);
    if k >= 0 {
      assert LegalLife(init[k].action, PhasesOf(init, init[k].opId));
      LifeExtends(op.action, PhasesOf(init, op.opId), op.phase);
    } else {
      assert PhasesOf(init, op.opId) + [op.phase] == [op.phase];
    }
  }

  lemma {:induction false} PhasesStep(ops: seq<Operation>, id: string)
    requires ops != []
    ensures var op := ops[|ops| - 1];
            PhasesOf(ops, id) == if op.opId == id then PhasesOf(ops[..|ops| - 1], id) + [op.phase]
                                 else PhasesOf(ops[..|ops| - 1], id)
  {
  }

  lemma {:induction false} LifeGrows(ops: seq<Operation>, i: nat)
    requires i < |ops| && BindingsAgree(ops) && LivesLegal(ops[..|ops| - 1])
    requires var op := ops[|ops| - 1]; LegalLife(op.action, PhasesOf(ops[..|ops| - 1], op.opId) + [op.phase])
    ensures LegalLife(ops[i].action, PhasesOf(ops, ops[i].opId))
  {
    var n := |ops| - 1;
    PhasesStep(ops, ops[i].opId);
    if ops[i].opId == ops[n].opId {
      assert i == n || SameBinding(ops[i], ops[n]);
    } else {
      var init := ops[..n];
      assert i < n && init[i] == ops[i];
      assert LegalLife(init[i].action, PhasesOf(init, init[i].opId));
    }
  }

  lemma {:induction false} LatticeShrinks(host: Host, ops: seq<Operation>)
    requires ops != [] && IdentityLattice(host, ops)
    ensures IdentityLattice(host, ops[..|ops| - 1])
    ensures EntryFollows(host, ops[..|ops| - 1], ops[|ops| - 1])
  {
    var n := |ops| - 1;
    var init, op := ops[..n], ops[n];
    forall i | 0 <= i < n
      ensures LegalLife(init[i].action, PhasesOf(init, init[i].opId))
    {
      LifeShrinks(host, ops, i);
    }
    LastEntryFollows(host, ops);
  }

  lemma {:induction false} LifeShrinks(host: Host, ops: seq<Operation>, i: nat)
    requires i < |ops| - 1 && IdentityLattice(host, ops)
    ensures LegalLife(ops[i].action, PhasesOf(ops[..|ops| - 1], ops[i].opId))
  {
    var n := |ops| - 1;
    var init := ops[..n];
    assert LegalLife(ops[i].action, PhasesOf(ops, ops[i].opId));
    if ops[i].opId == ops[n].opId {
      LatestIsLast(init, ops[i].opId);
      PhasesEndAtLatest(init, ops[i].opId);
      assert init[i].opId == ops[i].opId;
      LifeExtends(ops[i].action, PhasesOf(init, ops[i].opId), ops[n].phase);
    }
  }

  lemma {:induction false} LastEntryFollows(host: Host, ops: seq<Operation>)
    requires ops != [] && IdentityLattice(host, ops)
    ensures EntryFollows(host, ops[..|ops| - 1], ops[|ops| - 1])
  {
    var n := |ops| - 1;
    var init, op := ops[..n], ops[n];
    LatestIsLast(init, op.opId);
    PhasesEndAtLatest(init, op.opId);
    var before := PhasesOf(init, op.opId);
    assert LegalLife(op.action, PhasesOf(ops, op.opId));
    var k := LastIndex(init, op.opId);
    if k >= 0 {
      LifeExtends(op.action, before, op.phase);
      assert SameBinding(ops[k], ops[n]);
    } else {
      assert PhasesOf(ops, op.opId) == [op.phase];
    }
  }

  /** What the lattice means for one operation: bounded lives, and nothing follows a terminal entry. */
  lemma {:induction false} LivesAreBounded(host: Host, ops: seq<Operation>, i: int, j: int)
    requires ValidHistory(host, ops) && 0 <= i < j < |ops| && ops[i].opId == ops[j].opId
    ensures !IsTerminalPhase(ops[i].phase)
    ensures |PhasesOf(ops, ops[i].opId)| <= if ops[i].action.Create? then 3 else 2
  {
    HistoryIsLattice(host, ops);
    assert LegalLife(ops[i].action, PhasesOf(ops, ops[i].opId));
    NothingFollowsTerminal(host, ops, i, j);
  }

  lemma {:induction false} NothingFollowsTerminal(host: Host, ops: seq<Operation>, i: int, j: int)
    requires ValidHistory(host, ops) && 0 <= i < j < |ops| && ops[i].opId == ops[j].opId
    ensures !IsTerminalPhase(ops[i].phase)
  {
    var n := |ops| - 1;
    var init := ops[..n];
    if j < n {
      NothingFollowsTerminal(host, init, i, j);
    } else {
      LatestIsLast(init, ops[j].opId);
      var k := LastIndex(init, ops[j].opId);
      assert k >= i && !IsTerminalPhase(init[k].phase);
      if i < k {
        NothingFollowsTerminal(host, init, i, k);
      }
    }
  }

  /** `owner` maps every generation key of `ops` to the operation that owns it. */
  ghost predicate OwnersOf(ops: seq<Operation>, owner: map<(string, nat), string>) {
    && (forall i :: 0 <= i < |ops| ==> GenerationKey(ops[i]) in owner && owner[GenerationKey(ops[i])] == ops[i].opId)
    && (forall key :: key in owner ==> exists i :: 0 <= i < |ops| && GenerationKey(ops[i]) == key)
  }

  lemma OwnerAdded(ops: seq<Operation>, owner: map<(string, nat), string>, op: Operation)
    requires OwnersOf(ops, owner)
    requires GenerationKey(op) in owner ==> owner[GenerationKey(op)] == op.opId
    ensures OwnersOf(ops + [op], owner[GenerationKey(op) := op.opId])
    ensures forall i :: 0 <= i < |ops| && GenerationKey(ops[i]) == GenerationKey(op) ==> ops[i].opId == op.opId
  {
    var more := ops + [op];
    assert more[|ops|] == op;
    forall key | key in owner
      ensures exists i :: 0 <= i < |more| && GenerationKey(more[i]) == key
    {
      var i :| 0 <= i < |ops| && GenerationKey(ops[i]) == key;
      assert more[i] == ops[i];
    }
  }

  /** The two maps of the scan after accepting `ops`. */
  ghost predicate Scanned(host: Host, ops: seq<Operation>, latest: map<string, Operation>, owner: map<(string, nat),
                          string>) {
    Readable(host, ops) && latest == LatestMap(ops) && OwnersOf(ops, owner)
  }

  lemma ScanGrows(host: Host, ops: seq<Operation>, latest: map<string, Operation>, owner: map<(string, nat), string>,
                  op: Operation)
    requires Scanned(host, ops, latest, owner) && EntryFollows(host, ops, op)
    requires GenerationKey(op) in owner ==> owner[GenerationKey(op)] == op.opId
    ensures Scanned(host, ops + [op], latest[op.opId := op], owner[GenerationKey(op) := op.opId])
  {
    OwnerAdded(ops, owner, op);
    assert ValidHistory(host, ops);
    HistoryGrows(host, ops, op);
    LatestAfterAppend(ops, op);
  }

  /** The scan accepts exactly the journals that form the identity lattice. */
  method ValidateOperationHistory(host: Host, ops: seq<Operation>) returns (r: Result<map<string, Operation>, Error>)
    ensures r.Ok? <==> IdentityLattice(host, ops)
    ensures r.Ok? <==> Readable(host, ops)
    ensures r.Ok? ==> r.value == LatestMap(ops)
    ensures r.Err? ==> r.error == JournalCorrupt
  {
    r := ScanHistory(host, ops);
    HistoryIsLattice(host, ops);
  }

  /** Source loop: two maps are filled entry by entry, and the first offence rejects the journal. */
  method ScanHistory(host: Host, ops: seq<Operation>) returns (r: Result<map<string, Operation>, Error>)
    ensures r.Ok? <==> ValidHistory(host, ops)
    ensures r.Ok? ==> r.value == LatestMap(ops)
    ensures r.Err? ==> r.error == JournalCorrupt
  {
    var latest: map<string, Operation> := map[];
    var generationOwner: map<(string, nat), string> := map[];
    for k := 0 to |ops|
      invariant Scanned(host, ops[..k], latest, generationOwner)
    {
      var op := ops[k];
      var accepted := CheckEntry(host, ops[..k], latest, generationOwner, op);
      if !accepted {
        RejectedAt(host, ops, k);
        return Err(JournalCorrupt);
      }
      ScanGrows(host, ops[..k], latest, generationOwner, op);
      assert ops[..k + 1] == ops[..k] + [op];
      generationOwner := generationOwner[GenerationKey(op) := op.opId];
      latest := latest[op.opId := op];
    }
    assert ops[..|ops|] == ops;
    return Ok(latest);
  }

  /** The body of that loop: one entry against the two maps. */
  method CheckEntry(host: Host, ghost ops: seq<Operation>, latest: map<string, Operation>,
                    generationOwner: map<(string, nat), string>, op: Operation) returns (ok: bool)
    requires latest == LatestMap(ops) && OwnersOf(ops, generationOwner)
    ensures ok <==> EntryFollows(host, ops, op)
    ensures ok && GenerationKey(op) in generationOwner ==> generationOwner[GenerationKey(op)] == op.opId
  {
    if !WellFormedEntry(host, op) {
      return false;
    }
    if GenerationKey(op) in generationOwner && generationOwner[GenerationKey(op)] != op.opId {
      return false;
    }
    OwnerAdded(ops, generationOwner, op);
    if op.opId in latest {
      return SameBinding(latest[op.opId], op) && IsLegalTransition(op.action, latest[op.opId].phase, op.phase);
    }
    return IsInitialPhase(op.action, op.phase);
  }

  lemma RejectedAt(host: Host, ops: seq<Operation>, k: nat)
    requires k < |ops| && !EntryFollows(host, ops[..k], ops[k])
    ensures !ValidHistory(host, ops)
  {
    assert ops[..k + 1][..k] == ops[..k];
    if ValidHistory(host, ops) {
      ValidPrefix(host, ops, k + 1);
    }
  }

  // ----- minting and checkpoints -----

  /** One more than the greatest generation journaled under this name. */
  function NextGeneration(ops: seq<Operation>, name: string): nat {
    if ops == [] then 1 else
      var n := |ops| - 1;
      var rest := NextGeneration(ops[..n], name);
      if ops[n].resource.name == name && ops[n].resource.generation >= rest
      then ops[n].resource.generation + 1 else rest
  }

  lemma {:induction false} NextGenerationIsNext(ops: seq<Operation>, name: string)
    ensures NextGeneration(ops, name) >= 1
    ensures forall i :: 0 <= i < |ops| && ops[i].resource.name == name ==>
              ops[i].resource.generation < NextGeneration(ops, name)
    ensures NextGeneration(ops, name) == 1
            || exists i :: 0 <= i < |ops| && ops[i].resource.name == name
                           && ops[i].resource.generation == NextGeneration(ops, name) - 1
  {
    if ops != [] {
      var n := |ops| - 1;
      NextGenerationIsNext(ops[..n], name);
      assert forall i :: 0 <= i < n ==> ops[..n][i] == ops[i];
    }
  }

  /** The entry that minting writes: the generation is chosen by name, the id from the journal length. */
  function NewOperation(host: Host, ops: seq<Operation>, name: string, action: Action, record: NetworkRecord,
                        phase: Phase, intended: Option<BridgeIdentity>, observed: Option<BridgeIdentity>,
                        detail: Option<string>): Operation
  {
    var generation := NextGeneration(ops, name);
    Operation(host.opId(name, action, generation, |ops|), action, ResourceBinding(name, host.uuid(name), generation),
              record, phase, intended, observed, detail)
  }

  function MintOperation(host: Host, ops: seq<Operation>, name: string, action: Action, record: NetworkRecord,
                         phase: Phase, intended: Option<BridgeIdentity>, observed: Option<BridgeIdentity>,
                         detail: Option<string>): Result<Operation, Error>
  {
    var operation := NewOperation(host, ops, name, action, record, phase, intended, observed, detail);
    if exists i :: 0 <= i < |ops| && ops[i].opId == operation.opId then Err(JournalCorrupt) else
    if || name != record.name
       || record.bridgeName == ""
       || (intended.Some? && intended.value.name != record.bridgeName)
       || !IsInitialPhase(action, phase)
    then Err(JournalCorrupt) else
    Ok(operation)
  }

  predicate IdFresh(ops: seq<Operation>, id: string) {
    forall i :: 0 <= i < |ops| ==> ops[i].opId != id
  }

  /** Nothing but a crash can keep this first entry from being written. */
  ghost predicate FirstFits(host: Host, ops: seq<Operation>, op: Operation) {
    && Readable(host, ops) && |ops| < MAX_FRAMES && host.fits(op) && IdFresh(ops, op.opId)
    && op.resource.name == op.record.name && op.record.bridgeName != ""
    && (op.intended.Some? ==> op.intended.value.name == op.record.bridgeName)
    && IsInitialPhase(op.action, op.phase)
  }

  /** `FirstFits`, in a form that unfolds only where it is asked for. */
  ghost predicate CanAppend(host: Host, ops: seq<Operation>, op: Operation) {
    forall first {:trigger FirstFits(host, ops, first)} :: first == op ==> FirstFits(host, ops, first)
  }

  /** Nor this later entry of the operation `original`. */
  ghost predicate NextFits(host: Host, ops: seq<Operation>, original: Operation, next: Operation) {
    && |ops| < MAX_FRAMES && host.fits(next) && Readable(host, ops)
    && original.opId != "" && !IsTerminalPhase(original.phase) && CheckpointOn(ops, next)
  }

  /** `NextFits`, in a form that unfolds only where it is asked for. */
  ghost predicate CanExtend(host: Host, ops: seq<Operation>, original: Operation, next: Operation) {
    forall op {:trigger NextFits(host, ops, original, op)} :: op == next ==> NextFits(host, ops, original, op)
  }

  /** Nor these entries of one operation, the first of them new. */
  ghost predicate AllFit(host: Host, ops: seq<Operation>, entries: seq<Operation>)
    requires entries != []
  {
    && CanAppend(host, ops, entries[0]) && |ops| + |entries| <= MAX_FRAMES
    && (|entries| > 1 ==> NameUsable(host, ops, entries[0].resource.name))
    && forall i :: 0 <= i < |entries| ==> host.fits(entries[i])
  }

  /** `AllFit`, in a form that unfolds only where it is asked for. */
  ghost predicate RoomFor(host: Host, ops: seq<Operation>, entries: seq<Operation>)
    requires entries != []
  {
    forall all {:trigger AllFit(host, ops, all)} :: all == entries ==> AllFit(host, ops, all)
  }

  /** After a first entry there is room for a second one of the same operation. */
  lemma {:induction false} SecondEntryFits(host: Host, ops: seq<Operation>, first: Operation, next: Operation)
    requires |ops| + 2 <= MAX_FRAMES && host.fits(next) && Readable(host, ops + [first])
    requires first.opId != "" && SameBinding(first, next) && IsLegalTransition(first.action, first.phase, next.phase)
    ensures CanExtend(host, ops + [first], first, next)
  {
    LatestAfterAppend(ops, first);
    var latest := LatestMap(ops + [first]);
    assert first.opId in latest && latest[first.opId] == first;
  }

  lemma RoomForTwo(host: Host, ops: seq<Operation>, first: Operation, next: Operation)
    requires RoomFor(host, ops, [first, next])
    ensures CanAppend(host, ops, first) && NameUsable(host, ops, first.resource.name)
    ensures |ops| + 2 <= MAX_FRAMES && host.fits(next)
  {
    assert AllFit(host, ops, [first, next]);
    assert [first, next][0] == first && [first, next][1] == next;
  }

  lemma RoomForOne(host: Host, ops: seq<Operation>, only: Operation)
    requires RoomFor(host, ops, [only])
    ensures CanAppend(host, ops, only)
  {
    assert AllFit(host, ops, [only]);
  }

  /** Another name with the same uuid already owns the generation that minting chooses by name. */
  predicate GenerationTaken(host: Host, ops: seq<Operation>, name: string) {
    exists i :: 0 <= i < |ops| && ops[i].resource.name != name
                && GenerationKey(ops[i]) == (host.uuid(name), NextGeneration(ops, name))
  }

  /** Minting under this name leaves the journal readable. */
  predicate NameUsable(host: Host, ops: seq<Operation>, name: string) {
    name != "" && !GenerationTaken(host, ops, name)
  }

  /**
   * Minting omits two checks that validation makes. The journal stays readable exactly when
   * the name is not empty and no other name with the same uuid owns the chosen generation.
   */
  lemma MintKeepsHistoryIff(host: Host, ops: seq<Operation>, name: string, action: Action, record: NetworkRecord,
                            phase: Phase, intended: Option<BridgeIdentity>, observed: Option<BridgeIdentity>,
                            detail: Option<string>)
    requires ValidHistory(host, ops)
    requires MintOperation(host, ops, name, action, record, phase, intended, observed, detail).Ok?
    ensures var op := MintOperation(host, ops, name, action, record, phase, intended, observed, detail).value;
            ValidHistory(host, ops + [op]) <==> NameUsable(host, ops, name)
  {
    var op := MintOperation(host, ops, name, action, record, phase, intended, observed, detail).value;
    HistoryGrows(host, ops, op);
    NextGenerationIsNext(ops, name);
    assert GenerationKey(op) == (host.uuid(name), NextGeneration(ops, name));
    LatestIsLast(ops, op.opId);
  }

  lemma MintReadable(host: Host, ops: seq<Operation>, name: string, action: Action, record: NetworkRecord,
                     phase: Phase, intended: Option<BridgeIdentity>, observed: Option<BridgeIdentity>,
                     detail: Option<string>)
    requires Readable(host, ops)
    requires MintOperation(host, ops, name, action, record, phase, intended, observed, detail).Ok?
    ensures var op := MintOperation(host, ops, name, action, record, phase, intended, observed, detail).value;
            MintedOn(host, ops, op) && (Readable(host, ops + [op]) <==> NameUsable(host, ops, name))
  {
    assert ValidHistory(host, ops);
    MintKeepsHistoryIff(host, ops, name, action, record, phase, intended, observed, detail);
    var op := MintOperation(host, ops, name, action, record, phase, intended, observed, detail).value;
    assert Readable(host, ops + [op]) <==> ValidHistory(host, ops + [op]);
  }

  /** The empty name passes minting on an empty journal, and leaves a journal that validation rejects. */
  lemma EmptyNameBricks(host: Host, record: NetworkRecord)
    requires record.name == "" && record.bridgeName != ""
    ensures var minted := MintOperation(host, [], "", Create, record, IntentDurable, None, None, None);
            minted.Ok? && !ValidHistory(host, [minted.value])
  {
    var minted := MintOperation(host, [], "", Create, record, IntentDurable, None, None, None);
    assert minted.Ok?;
    MintKeepsHistoryIff(host, [], "", Create, record, IntentDurable, None, None, None);
    assert [] + [minted.value] == [minted.value];
  }

  function Intent(host: Host, ops: seq<Operation>, record: NetworkRecord): Result<Operation, Error> {
    MintOperation(host, ops, record.name, Create, record, IntentDurable, None, None, None)
  }

  /** So does a second name with the uuid of the first: both get generation 1. */
  lemma SharedUuidBricks(host: Host, a: NetworkRecord, b: NetworkRecord)
    requires a.name != "" && b.name != "" && a.name != b.name && a.bridgeName != "" && b.bridgeName != ""
    requires host.uuid(a.name) == host.uuid(b.name)
    requires host.opId(a.name, Create, 1, 0) != host.opId(b.name, Create, 1, 1)
    ensures Intent(host, [], a).Ok? && ValidHistory(host, [Intent(host, [], a).value])
    ensures var first := Intent(host, [], a).value;
            Intent(host, [first], b).Ok? && !ValidHistory(host, [first, Intent(host, [first], b).value])
  {
    var first := Intent(host, [], a).value;
    MintKeepsHistoryIff(host, [], a.name, Create, a, IntentDurable, None, None, None);
    assert [] + [first] == [first];
    assert [first][..0] == [] && NextGeneration([], b.name) == 1;
    assert NextGeneration([first], b.name) == 1;
    assert GenerationKey([first][0]) == (host.uuid(b.name), 1);
    var second := Intent(host, [first], b).value;
    MintKeepsHistoryIff(host, [first], b.name, Create, b, IntentDurable, None, None, None);
    assert [first] + [second] == [first, second];
  }

  lemma {:induction false} EntriesWellFormed(host: Host, ops: seq<Operation>, i: nat)
    requires ValidHistory(host, ops) && i < |ops|
    ensures WellFormedEntry(host, ops[i])
  {
    if i < |ops| - 1 {
      EntriesWellFormed(host, ops[..|ops| - 1], i);
    }
  }

  /** Once a journal is unreadable, no later entry makes it readable again. */
  lemma CorruptForever(host: Host, ops: seq<Operation>, later: seq<Operation>)
    requires !ValidHistory(host, ops)
    ensures !ValidHistory(host, ops + later)
  {
    assert (ops + later)[..|ops|] == ops;
    if ValidHistory(host, ops + later) {
      ValidPrefix(host, ops + later, |ops|);
    }
  }

  /** `op` is what minting produces on this journal. */
  predicate MintedOn(host: Host, ops: seq<Operation>, op: Operation) {
    MintOperation(host, ops, op.resource.name, op.action, op.record, op.phase, op.intended, op.observed,
                  op.detail) == Ok(op)
  }

  /** `op` carries an already journaled operation through a legal transition. */
  predicate CheckpointOn(ops: seq<Operation>, op: Operation) {
    var latest := LatestMap(ops);
    && op.opId in latest
    && SameBinding(latest[op.opId], op)
    && IsLegalTransition(op.action, latest[op.opId].phase, op.phase)
  }

  /** One locked append: the journal is validated first. */
  ghost predicate JournalStep(host: Host, ops: seq<Operation>, op: Operation) {
    && |ops| < MAX_FRAMES
    && host.fits(op)
    && Readable(host, ops)
    && (MintedOn(host, ops, op) || CheckpointOn(ops, op))
  }

  predicate AllNamed(ops: seq<Operation>) {
    forall i :: 0 <= i < |ops| ==> ops[i].resource.name != ""
  }

  /** No two different names in the journal have the same uuid. */
  predicate UuidsApart(host: Host, ops: seq<Operation>) {
    forall i, j ::
      0 <= i < |ops| && 0 <= j < |ops| && host.uuid(ops[i].resource.name) == host.uuid(ops[j].resource.name) ==>
      ops[i].resource.name == ops[j].resource.name
  }

  lemma CheckpointKeepsHistory(host: Host, ops: seq<Operation>, op: Operation)
    requires ValidHistory(host, ops) && CheckpointOn(ops, op)
    ensures ValidHistory(host, ops + [op])
  {
    CheckpointFollows(host, ops, op);
    HistoryGrows(host, ops, op);
  }

  lemma CheckpointReadable(host: Host, ops: seq<Operation>, op: Operation)
    requires Readable(host, ops) && CheckpointOn(ops, op)
    ensures Readable(host, ops + [op])
  {
    assert ValidHistory(host, ops);
    CheckpointKeepsHistory(host, ops, op);
  }

  /** A locked append keeps the journal valid unless it mints an empty name or one whose uuid collides. */
  lemma StepKeepsHistory(host: Host, ops: seq<Operation>, op: Operation)
    requires JournalStep(host, ops, op)
    ensures AllNamed(ops + [op]) && UuidsApart(host, ops + [op]) ==> ValidHistory(host, ops + [op])
    ensures CheckpointOn(ops, op) ==> ValidHistory(host, ops + [op])
  {
    var after := ops + [op];
    assert after[|ops|] == op && ValidHistory(host, ops);
    if CheckpointOn(ops, op) {
      CheckpointKeepsHistory(host, ops, op);
    } else if AllNamed(after) && UuidsApart(host, after) {
      forall i | 0 <= i < |ops| && ops[i].resource.name != op.resource.name
        ensures GenerationKey(ops[i]) != GenerationKey(op)
      {
        EntriesWellFormed(host, ops, i);
        assert after[i] == ops[i];
      }
      MintKeepsHistoryIff(host, ops, op.resource.name, op.action, op.record, op.phase, op.intended, op.observed,
                          op.detail);
    }
  }

  lemma CheckpointFollows(host: Host, ops: seq<Operation>, op: Operation)
    requires ValidHistory(host, ops) && CheckpointOn(ops, op)
    ensures EntryFollows(host, ops, op)
  {
    LatestIsLast(ops, op.opId);
    var k := LastIndex(ops, op.opId);
    EntriesWellFormed(host, ops, k);
    forall i | 0 <= i < |ops| && GenerationKey(ops[i]) == GenerationKey(op)
      ensures ops[i].opId == op.opId
    {
      OneOwner(host, ops, i, k);
    }
  }

  lemma OneOwner(host: Host, ops: seq<Operation>, i: nat, k: nat)
    requires ValidHistory(host, ops) && i < |ops| && k < |ops|
    requires GenerationKey(ops[i]) == GenerationKey(ops[k])
    ensures ops[i].opId == ops[k].opId
  {
    HistoryIsLattice(host, ops);
    assert GenerationsOwned(ops);
  }

  /** A journal that grew from nothing by locked appends; a crash can only stop the growth. */
  ghost predicate BuiltJournal(host: Host, ops: seq<Operation>) {
    ops == [] ||
    (BuiltJournal(host, ops[..|ops| - 1]) && JournalStep(host, ops[..|ops| - 1], ops[|ops| - 1]))
  }

  lemma BuiltGrows(host: Host, ops: seq<Operation>, op: Operation)
    requires BuiltJournal(host, ops) && JournalStep(host, ops, op)
    ensures BuiltJournal(host, ops + [op])
  {
    assert (ops + [op])[..|ops|] == ops;
  }

  /** The id of an entry was minted from its own binding and an index not after it. */
  ghost predicate IdMinted(host: Host, op: Operation, k: nat) {
    op.opId == host.opId(op.resource.name, op.action, op.resource.generation, k)
  }

  /**
   * Every reachable journal is within the frame bound and valid up to its last entry, and
   * valid altogether if no name in it is empty and no two of its names share a uuid.
   */
  lemma {:induction false} BuiltJournalIsValid(host: Host, ops: seq<Operation>)
    requires BuiltJournal(host, ops)
    ensures |ops| <= MAX_FRAMES
    ensures ops != [] ==> ValidHistory(host, ops[..|ops| - 1])
    ensures AllNamed(ops) && UuidsApart(host, ops) ==> ValidHistory(host, ops)
  {
    if ops != [] {
      var n := |ops| - 1;
      assert ValidHistory(host, ops[..n]);
      StepKeepsHistory(host, ops[..n], ops[n]);
      assert ops[..n] + [ops[n]] == ops;
    }
  }

  /** The next generation exceeds a bound on all earlier ones by at most one. */
  lemma NextGenerationBounded(ops: seq<Operation>, name: string, bound: nat)
    requires forall i :: 0 <= i < |ops| ==> ops[i].resource.generation <= bound
    ensures NextGeneration(ops, name) <= bound + 1
  {
  }

  /** In a reachable journal no generation exceeds the number of frames. */
  lemma {:induction false} GenerationsBounded(host: Host, ops: seq<Operation>)
    requires BuiltJournal(host, ops)
    ensures forall i :: 0 <= i < |ops| ==> 1 <= ops[i].resource.generation <= |ops|
  {
    if ops != [] {
      var n := |ops| - 1;
      var init, op := ops[..n], ops[n];
      GenerationsBounded(host, init);
      assert 1 <= op.resource.generation <= |ops| by {
        if MintedOn(host, init, op) {
          NextGenerationIsNext(init, op.resource.name);
          NextGenerationBounded(init, op.resource.name, n);
        } else {
          LatestIsLast(init, op.opId);
          assert op.resource == init[LastIndex(init, op.opId)].resource;
        }
      }
      forall i | 0 <= i < n
        ensures 1 <= ops[i].resource.generation <= |ops|
      {
        assert init[i] == ops[i];
      }
    }
  }

  /** In a reachable journal every id was minted from its own binding at an earlier length. */
  lemma {:induction false} IdsMinted(host: Host, ops: seq<Operation>, i: nat) returns (k: nat)
    requires BuiltJournal(host, ops) && i < |ops|
    ensures k < |ops| && IdMinted(host, ops[i], k)
  {
    var n := |ops| - 1;
    if i < n {
      k := IdsMinted(host, ops[..n], i);
    } else if MintedOn(host, ops[..n], ops[n]) {
      k := n;
    } else {
      LatestIsLast(ops[..n], ops[n].opId);
      k := IdsMinted(host, ops[..n], LastIndex(ops[..n], ops[n].opId));
    }
  }

  /** The id that minting draws is none of those its entries could have drawn at an earlier length. */
  ghost predicate FreshDraw(host: Host, ops: seq<Operation>, id: string) {
    forall i, k :: 0 <= i < |ops| && 0 <= k < |ops| ==>
      host.opId(ops[i].resource.name, ops[i].action, ops[i].resource.generation, k) != id
  }

  /**
   * Unless one of finitely many earlier inputs collides with the new one, the freshness check in
   * minting never fires.
   */
  lemma MintNeverCollides(host: Host, ops: seq<Operation>, name: string, action: Action, record: NetworkRecord,
                          phase: Phase, intended: Option<BridgeIdentity>, observed: Option<BridgeIdentity>,
                          detail: Option<string>)
    requires BuiltJournal(host, ops)
    requires FreshDraw(host, ops, host.opId(name, action, NextGeneration(ops, name), |ops|))
    ensures MintOperation(host, ops, name, action, record, phase, intended, observed, detail).Ok? <==>
            && name == record.name && record.bridgeName != ""
            && (intended.Some? ==> intended.value.name == record.bridgeName)
            && IsInitialPhase(action, phase)
  {
    var opId := host.opId(name, action, NextGeneration(ops, name), |ops|);
    forall i | 0 <= i < |ops|
      ensures ops[i].opId != opId
    {
      var k := IdsMinted(host, ops, i);
    }
  }

  // ----- the pending view -----

  /** The last entry of its operation, and not terminal; other operations on the same name play no part. */
  predicate IsPending(ops: seq<Operation>, op: Operation) {
    var k := LastIndex(ops, op.opId);
    k >= 0 && ops[k] == op && !IsTerminalPhase(op.phase)
  }

  function PendingIds(ops: seq<Operation>): set<string> {
    OpenIds(LatestMap(ops))
  }

  predicate DistinctIds(ops: seq<Operation>) {
    forall i, j :: 0 <= i < j < |ops| ==> ops[i].opId != ops[j].opId
  }

  /** Reads the pending operations, in whatever order the map yields them. */
  method ReadPendingOperations(host: Host, ops: seq<Operation>) returns (r: Result<seq<Operation>, Error>)
    ensures r.Ok? <==> IdentityLattice(host, ops)
    ensures r.Ok? <==> Readable(host, ops)
    ensures r.Err? ==> r.error == JournalCorrupt
    ensures r.Ok? ==> DistinctIds(r.value) && forall op :: op in r.value <==> IsPending(ops, op)
    ensures r.Ok? ==> |r.value| == |PendingIds(ops)|
  {
    var latest :- ValidateOperationHistory(host, ops);
    forall id | id in latest
      ensures latest[id].opId == id
    {
      LatestIsLast(ops, id);
    }
    var pending := NonTerminal(latest);
    forall op: Operation
      ensures op in pending <==> IsPending(ops, op)
    {
      LatestIsLast(ops, op.opId);
      ListMembers(latest, pending, PendingIds(ops), op);
    }
    return Ok(pending);
  }

  /** `listed` holds the entries of exactly the operations `ids`, once each. */
  ghost predicate Lists(latest: map<string, Operation>, listed: seq<Operation>, ids: set<string>) {
    && |listed| == |ids| && ids <= latest.Keys
    && DistinctIds(listed)
    && (forall i :: 0 <= i < |listed| ==> listed[i].opId in ids && latest[listed[i].opId] == listed[i])
    && (forall id :: id in ids ==> latest[id] in listed)
  }

  lemma ListGrows(latest: map<string, Operation>, listed: seq<Operation>, ids: set<string>, id: string)
    requires Lists(latest, listed, ids) && id in latest && id !in ids && latest[id].opId == id
    ensures Lists(latest, listed + [latest[id]], ids + {id})
  {
    var more := listed + [latest[id]];
    assert more[|listed|] == latest[id];
    forall other | other in ids + {id}
      ensures latest[other] in more
    {
      if other in ids {
        assert latest[other] in listed;
      }
    }
  }

  lemma ListMembers(latest: map<string, Operation>, listed: seq<Operation>, ids: set<string>, op: Operation)
    requires Lists(latest, listed, ids)
    ensures op in listed <==> op.opId in ids && latest[op.opId] == op
  {
  }

  function OpenIds(latest: map<string, Operation>): set<string> {
    set id | id in latest && !IsTerminalPhase(latest[id].phase)
  }

  /** The non-terminal values of the map, in an arbitrary order. */
  method NonTerminal(latest: map<string, Operation>) returns (pending: seq<Operation>)
    requires forall id :: id in latest ==> latest[id].opId == id
    ensures Lists(latest, pending, OpenIds(latest))
  {
    var ids := OpenIds(latest);
    ghost var done: set<string> := {};
    pending := [];
    while ids != {}
      invariant ids !! done && ids + done == OpenIds(latest)
      invariant Lists(latest, pending, done)
      decreases ids
    {
      var id :| id in ids;
      ListGrows(latest, pending, done, id);
      pending, ids, done := pending + [latest[id]], ids - {id}, done + {id};
    }
    assert done == OpenIds(latest);
  }
}
