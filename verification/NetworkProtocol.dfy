/**
 * The durable protocol of the network lifecycle: what each durable step may do to the
 * journal, the store and the bridge table, and what every run of such steps keeps.
 * A crash stops a run between two steps, so the states a crash can leave behind are
 * exactly the states after the prefixes of a run.
 */
module NetworkProtocol {
  import opened Wrappers
  import opened NetworkTypes
  import opened NetworkJournal
  import opened NetworkKernel
  import opened NetworkStore

  datatype World = World(journal: seq<Operation>, store: seq<NetworkRecord>, kernel: KernelState)

  const START := World([], [], FRESH_KERNEL)

  datatype Event =
    | Appended(entry: Operation)
    | Published(record: NetworkRecord)
    | Unpublished(name: string)
    | BridgeMade(maker: string, made: NetworkRecord)     // on behalf of operation `maker`
    | BridgeGone(remover: string, gone: BridgeIdentity)  // on behalf of operation `remover`
    | Foreign(kernel: KernelState)                       // someone else changed the kernel

  function Apply(w: World, e: Event): World {
    match e
    case Appended(entry) => w.(journal := w.journal + [entry])
    case Published(record) => w.(store := WithRecord(w.store, record))
    case Unpublished(name) => w.(store := WithoutName(w.store, name))
    case BridgeMade(_, made) => w.(kernel := WithBridge(w.kernel, made))
    case BridgeGone(_, gone) => w.(kernel := WithoutBridge(w.kernel, gone.name))
    case Foreign(kernel) => w.(kernel := kernel)
  }

  // ----- which steps the protocol allows -----

  predicate PendingId(latest: map<string, Operation>, id: string) {
    id in latest && !IsTerminalPhase(latest[id].phase)
  }

  predicate PendingCreate(latest: map<string, Operation>, id: string) {
    PendingId(latest, id) && latest[id].action.Create?
  }

  /** Admission of a create: no pending lifecycle owns its names, no other network owns its bridge. */
  ghost predicate Admitted(w: World, record: NetworkRecord) {
    && (forall id :: PendingId(LatestMap(w.journal), id) ==> FreeOf(LatestMap(w.journal)[id], record))
    && (forall r :: r in w.store && r.bridgeName == record.bridgeName ==> r.name == record.name)
  }

  predicate FreeOf(op: Operation, record: NetworkRecord) {
    op.resource.name != record.name && op.record.bridgeName != record.bridgeName
  }

  /** What a first entry must satisfy beyond being minted. */
  ghost predicate MayMint(w: World, op: Operation) {
    op.action.Create? ==> Admitted(w, op.record) && op.intended == Some(IntendedIdentity(op.record))
  }

  /** What a later entry must satisfy beyond being a legal transition. */
  predicate MayCheckpoint(host: Host, w: World, op: Operation) {
    && (op.phase.IdentityObserved? ==>
          op.intended.Some? && op.observed.Some? && IsIntendedObservation(host, op.intended.value, op.observed.value))
    && (op.phase.StoreCommitted? ==> op.record in w.store)
  }

  ghost predicate MayAppend(host: Host, w: World, op: Operation) {
    || (MintedOn(host, w.journal, op) && MayMint(w, op))
    || (CheckpointOn(w.journal, op) && MayCheckpoint(host, w, op))
  }

  ghost predicate Legal(host: Host, w: World, e: Event) {
    var latest := LatestMap(w.journal);
    match e
    case Appended(entry) =>
      |w.journal| < MAX_FRAMES && host.fits(entry) && Readable(host, w.journal) && MayAppend(host, w, entry)
    case Published(record) =>
      && !NameStored(w.store, record.name)
      && exists id :: PendingCreate(latest, id) && latest[id].phase.IdentityObserved? && latest[id].record == record
    case Unpublished(name) =>
      && w.journal != []
      && var last := w.journal[|w.journal| - 1];
         last.action.Delete? && last.phase.Removed? && last.resource.name == name
    case BridgeMade(maker, made) =>
      maker in latest && latest[maker].phase.IntentDurable? && latest[maker].record == made
    case BridgeGone(remover, gone) =>
      && HasBridge(w.kernel, gone)
      && remover in latest
      && (latest[remover].phase.IntentDurable?
          || (latest[remover].phase.DeleteIntentDurable? && latest[remover].intended == Some(gone)))
      && latest[remover].record.bridgeName == gone.name
    case Foreign(kernel) =>
      Evolves(w.kernel, kernel)
  }

  /** The state a run leads to from `origin`. */
  function Replay(origin: World, run: seq<Event>): World {
    if run == [] then origin else Apply(Replay(origin, run[..|run| - 1]), run[|run| - 1])
  }

  ghost predicate LegalRun(host: Host, origin: World, run: seq<Event>) {
    run == [] ||
    (LegalRun(host, origin, run[..|run| - 1]) && Legal(host, Replay(origin, run[..|run| - 1]), run[|run| - 1]))
  }

  lemma RunExtends(host: Host, origin: World, run: seq<Event>, e: Event)
    requires LegalRun(host, origin, run) && Legal(host, Replay(origin, run), e)
    ensures LegalRun(host, origin, run + [e]) && Replay(origin, run + [e]) == Apply(Replay(origin, run), e)
  {
    assert (run + [e])[..|run|] == run;
  }

  /** A crash leaves the state after a prefix, and every prefix of a legal run is a legal run. */
  lemma {:induction false} PrefixIsLegal(host: Host, origin: World, run: seq<Event>, k: nat)
    requires LegalRun(host, origin, run) && k <= |run|
    ensures LegalRun(host, origin, run[..k])
  {
    if k == |run| {
      assert run[..k] == run;
    } else {
      var init := run[..|run| - 1];
      PrefixIsLegal(host, origin, init, k);
      assert init[..k] == run[..k];
    }
  }

  lemma StepIsLegal(host: Host, origin: World, run: seq<Event>, k: nat)
    requires LegalRun(host, origin, run) && k < |run|
    ensures Legal(host, Replay(origin, run[..k]), run[k])
  {
    PrefixIsLegal(host, origin, run, k + 1);
    assert run[..k + 1][..k] == run[..k];
  }

  // ----- the invariant of every run -----

  ghost predicate ObservedCreate(journal: seq<Operation>, record: NetworkRecord) {
    exists i ::
      0 <= i < |journal| && journal[i].action.Create? && journal[i].phase.IdentityObserved?
      && journal[i].record == record
  }

  /** At most one create is pending per logical name, and per bridge. */
  ghost predicate PendingCreatesUnique(latest: map<string, Operation>) {
    forall a, b ::
      PendingCreate(latest, a) && PendingCreate(latest, b) && SharesName(latest[a].record, latest[b].record) ==> a == b
  }

  predicate SharesName(a: NetworkRecord, b: NetworkRecord) {
    a.name == b.name || a.bridgeName == b.bridgeName
  }

  /** Among stored records and pending creates, differently named networks have different bridges. */
  ghost predicate BridgesNotShared(latest: map<string, Operation>, store: seq<NetworkRecord>) {
    && (forall r, s :: r in store && s in store && r.bridgeName == s.bridgeName ==> r.name == s.name)
    && (forall r, id :: r in store && PendingCreate(latest, id) && r.bridgeName == latest[id].record.bridgeName ==>
          r.name == latest[id].record.name)
  }

  /**
   * The last entry of an operation is filed under its id, names its record, and is a create if it
   * is a create intent.
   */
  predicate LatestOk(latest: map<string, Operation>) {
    forall id :: id in latest ==> EntryOk(id, latest[id])
  }

  predicate EntryOk(id: string, op: Operation) {
    op.opId == id && op.resource.name == op.record.name && (op.phase.IntentDurable? ==> op.action.Create?)
  }

  /** The journal is valid unless one of its names is empty or two of them share a uuid. */
  ghost predicate HistoryOk(host: Host, journal: seq<Operation>) {
    AllNamed(journal) && UuidsApart(host, journal) ==> Readable(host, journal)
  }

  ghost predicate Inv(host: Host, w: World) {
    && HistoryOk(host, w.journal)
    && LatestOk(LatestMap(w.journal))
    && KernelOk(w.kernel)
    && StoreOk(w.store)
    && (forall r :: r in w.store ==> ObservedCreate(w.journal, r))
    && PendingCreatesUnique(LatestMap(w.journal))
    && BridgesNotShared(LatestMap(w.journal), w.store)
  }

  /** Whatever the journal and the kernel began as, stored names stay distinct. */
  lemma {:induction false} RunKeepsNamesDistinct(host: Host, origin: World, run: seq<Event>)
    requires DistinctNames(origin.store) && LegalRun(host, origin, run)
    ensures DistinctNames(Replay(origin, run).store)
  {
    if run != [] {
      var init := run[..|run| - 1];
      RunKeepsNamesDistinct(host, origin, init);
      EventKeepsNamesDistinct(host, Replay(origin, init), run[|run| - 1]);
    }
  }

  lemma EventKeepsNamesDistinct(host: Host, w: World, e: Event)
    requires DistinctNames(w.store) && Legal(host, w, e)
    ensures DistinctNames(Apply(w, e).store)
  {
    match e
    case Published(record) => PublishKeepsStore(w.store, record);
    case Unpublished(name) => UnpublishKeepsStore(w.store, name);
    case _ =>
  }

  /** An installation with nothing on disk and an empty bridge table satisfies the invariant. */
  lemma StartIsGood(host: Host)
    ensures Inv(host, START) && BuiltJournal(host, START.journal)
  {
  }

  /** The invariant holds in every state a run or a crash can leave behind. */
  lemma {:induction false} RunInvariant(host: Host, origin: World, run: seq<Event>)
    requires Inv(host, origin) && LegalRun(host, origin, run)
    ensures Inv(host, Replay(origin, run))
  {
    if run != [] {
      var init := run[..|run| - 1];
      RunInvariant(host, origin, init);
      EventKeepsInv(host, Replay(origin, init), run[|run| - 1]);
    }
  }

  lemma EventKeepsInv(host: Host, w: World, e: Event)
    requires Inv(host, w) && Legal(host, w, e)
    ensures Inv(host, Apply(w, e))
  {
    match e
    case Appended(entry) => AppendKeepsInv(host, w, entry);
    case Published(record) => PublishKeepsInv(host, w, record);
    case Unpublished(name) => UnpublishKeepsStore(w.store, name);
    case BridgeMade(_, made) =>
      CreateEvolves(w.kernel, made);
      EvolutionKeepsKernelOk(w.kernel, WithBridge(w.kernel, made));
    case BridgeGone(_, gone) =>
      DestroyEvolves(w.kernel, gone.name);
      EvolutionKeepsKernelOk(w.kernel, WithoutBridge(w.kernel, gone.name));
    case Foreign(kernel) => EvolutionKeepsKernelOk(w.kernel, kernel);
  }

  lemma PublishKeepsInv(host: Host, w: World, record: NetworkRecord)
    requires Inv(host, w) && Legal(host, w, Published(record))
    ensures Inv(host, Apply(w, Published(record)))
  {
    PublishKeepsStore(w.store, record);
    var latest := LatestMap(w.journal);
    var id :| PendingCreate(latest, id) && latest[id].phase.IdentityObserved? && latest[id].record == record;
    LatestIsLast(w.journal, id);
    assert ObservedCreate(w.journal, record);
    assert BridgesNotShared(latest, WithRecord(w.store, record));
  }

  lemma AppendKeepsInv(host: Host, w: World, entry: Operation)
    requires Inv(host, w) && Legal(host, w, Appended(entry))
    ensures Inv(host, Apply(w, Appended(entry)))
  {
    var journal := w.journal + [entry];
    assert JournalStep(host, w.journal, entry);
    StepKeepsHistory(host, w.journal, entry);
    LatestAfterAppend(w.journal, entry);
    forall r | r in w.store
      ensures ObservedCreate(journal, r)
    {
      var i :| 0 <= i < |w.journal| && w.journal[i].action.Create? && w.journal[i].phase.IdentityObserved?
               && w.journal[i].record == r;
      assert journal[i] == w.journal[i];
    }
    AppendKeepsClaims(host, w, entry);
  }

  lemma AppendKeepsClaims(host: Host, w: World, entry: Operation)
    requires LatestOk(LatestMap(w.journal)) && MayAppend(host, w, entry)
    requires PendingCreatesUnique(LatestMap(w.journal)) && BridgesNotShared(LatestMap(w.journal), w.store)
    ensures var after := LatestMap(w.journal)[entry.opId := entry];
            LatestOk(after) && PendingCreatesUnique(after) && BridgesNotShared(after, w.store)
  {
    var latest := LatestMap(w.journal);
    if CheckpointOn(w.journal, entry) {
      CheckpointKeepsClaims(latest, w.store, entry);
      assert EntryOk(entry.opId, latest[entry.opId]);
    } else {
      LatestIsLast(w.journal, entry.opId);
      forall id | entry.action.Create? && PendingCreate(latest, id)
        ensures !SharesName(latest[id].record, entry.record)
      {
        assert PendingId(latest, id) && FreeOf(latest[id], entry.record);
      }
      MintKeepsClaims(latest, w.store, entry);
    }
  }

  lemma CheckpointKeepsClaims(latest: map<string, Operation>, store: seq<NetworkRecord>, entry: Operation)
    requires entry.opId in latest && SameBinding(latest[entry.opId], entry)
             && !IsTerminalPhase(latest[entry.opId].phase)
    requires PendingCreatesUnique(latest) && BridgesNotShared(latest, store)
    ensures PendingCreatesUnique(latest[entry.opId := entry]) && BridgesNotShared(latest[entry.opId := entry], store)
  {
    var after := latest[entry.opId := entry];
    forall id | PendingCreate(after, id)
      ensures PendingCreate(latest, id) && after[id].record == latest[id].record
    {
    }
  }

  lemma MintKeepsClaims(latest: map<string, Operation>, store: seq<NetworkRecord>, entry: Operation)
    requires entry.opId !in latest
    requires entry.action.Create? ==>
               forall id :: PendingCreate(latest, id) ==> !SharesName(latest[id].record, entry.record)
    requires entry.action.Create? ==>
               forall r :: r in store && r.bridgeName == entry.record.bridgeName ==> r.name == entry.record.name
    requires PendingCreatesUnique(latest) && BridgesNotShared(latest, store)
    ensures PendingCreatesUnique(latest[entry.opId := entry]) && BridgesNotShared(latest[entry.opId := entry], store)
  {
    var after := latest[entry.opId := entry];
    forall id | PendingCreate(after, id) && id != entry.opId
      ensures PendingCreate(latest, id) && after[id] == latest[id]
    {
    }
  }

  // ----- what whole runs promise -----

  /** The journal of every run is one that locked appends built. */
  lemma {:induction false} RunBuildsJournal(host: Host, origin: World, run: seq<Event>)
    requires BuiltJournal(host, origin.journal) && LegalRun(host, origin, run)
    ensures BuiltJournal(host, Replay(origin, run).journal)
  {
    if run != [] {
      var init := run[..|run| - 1];
      RunBuildsJournal(host, origin, init);
      EventBuildsJournal(host, Replay(origin, init), run[|run| - 1]);
    }
  }

  lemma EventBuildsJournal(host: Host, w: World, e: Event)
    requires BuiltJournal(host, w.journal) && Legal(host, w, e)
    ensures BuiltJournal(host, Apply(w, e).journal)
  {
    if e.Appended? {
      assert JournalStep(host, w.journal, e.entry);
      BuiltGrows(host, w.journal, e.entry);
    }
  }

  /** The journal only ever grows. */
  lemma {:induction false} JournalOnlyGrows(origin: World, run: seq<Event>, k: nat)
    requires k <= |run|
    ensures Replay(origin, run[..k]).journal <= Replay(origin, run).journal
  {
    assert run[..|run|] == run;
    if k < |run| {
      var init := run[..|run| - 1];
      JournalOnlyGrows(origin, init, k);
      assert init[..k] == run[..k];
      assert Replay(origin, init).journal <= Replay(origin, run).journal;
    }
  }

  /** Every commit in the journal was appended while its record was in the store. */
  lemma {:induction false} CommittedWhileStored(host: Host, origin: World, run: seq<Event>, i: nat) returns (k: nat)
    requires LegalRun(host, origin, run) && |origin.journal| <= i < |Replay(origin, run).journal|
    requires Replay(origin, run).journal[i].phase.StoreCommitted?
    ensures k < |run| && run[k] == Appended(Replay(origin, run).journal[i]) && |Replay(origin, run[..k]).journal| == i
    ensures Replay(origin, run).journal[i].record in Replay(origin, run[..k]).store
  {
    var n := |run| - 1;
    var init := run[..n];
    if i < |Replay(origin, init).journal| {
      k := CommittedWhileStored(host, origin, init, i);
      assert init[..k] == run[..k];
    } else {
      k := n;
    }
  }

  /** The operation on whose behalf an event touches the bridge table. */
  function Actor(e: Event): Option<string> {
    match e
    case BridgeMade(maker, _) => Some(maker)
    case BridgeGone(remover, _) => Some(remover)
    case _ => None
  }

  function TouchedBridge(e: Event): string {
    match e
    case BridgeMade(_, made) => made.bridgeName
    case BridgeGone(_, gone) => gone.name
    case _ => ""
  }

  /**
   * Write-ahead: when a bridge is made or destroyed, the journal on disk already holds
   * an intent of that operation naming that bridge, with no later entry of the operation.
   */
  lemma WriteAhead(host: Host, origin: World, run: seq<Event>, k: nat)
    requires LegalRun(host, origin, run) && k < |run| && Actor(run[k]).Some?
    ensures var journal := Replay(origin, run[..k]).journal;
            var i := LastIndex(journal, Actor(run[k]).value);
            && i >= 0
            && (journal[i].phase.IntentDurable? || journal[i].phase.DeleteIntentDurable?)
            && journal[i].record.bridgeName == TouchedBridge(run[k])
  {
    StepIsLegal(host, origin, run, k);
    LatestIsLast(Replay(origin, run[..k]).journal, Actor(run[k]).value);
  }

  /** The record is in the store after the first `k` events. */
  ghost predicate InStore(origin: World, run: seq<Event>, k: nat, record: NetworkRecord)
    requires k <= |run|
  {
    record in Replay(origin, run[..k]).store
  }

  lemma {:induction false} WhenForgotten(origin: World, run: seq<Event>, record: NetworkRecord, k: nat, m: nat)
    returns (j: nat)
    requires k <= m <= |run| && InStore(origin, run, k, record) && !InStore(origin, run, m, record)
    ensures k <= j < m && InStore(origin, run, j, record) && !InStore(origin, run, j + 1, record)
    decreases m
  {
    assert k < m;
    if InStore(origin, run, m - 1, record) {
      j := m - 1;
    } else {
      j := WhenForgotten(origin, run, record, k, m - 1);
    }
  }

  lemma ReplayStep(origin: World, run: seq<Event>, j: nat)
    requires j < |run|
    ensures Replay(origin, run[..j + 1]) == Apply(Replay(origin, run[..j]), run[j])
  {
    assert run[..j + 1][..j] == run[..j];
  }

  /** A record leaves the store only right after the removal of its network has been journaled. */
  lemma StoredUntilRemoved(host: Host, origin: World, run: seq<Event>, k: nat, m: nat, record: NetworkRecord)
    returns (i: nat)
    requires LegalRun(host, origin, run) && k <= m <= |run|
    requires InStore(origin, run, k, record) && !InStore(origin, run, m, record)
    ensures |Replay(origin, run[..k]).journal| <= i + 1 <= |Replay(origin, run[..m]).journal|
    ensures IsRemovalOf(Replay(origin, run[..m]).journal[i], record.name)
  {
    var j := WhenForgotten(origin, run, record, k, m);
    ReplayStep(origin, run, j);
    StepIsLegal(host, origin, run, j);
    OnlyUnpublishForgets(host, Replay(origin, run[..j]), run[j], record);
    i := |Replay(origin, run[..j]).journal| - 1;
    GrowsBetween(origin, run, k, j);
    GrowsBetween(origin, run, j, m);
  }

  lemma GrowsBetween(origin: World, run: seq<Event>, j: nat, m: nat)
    requires j <= m <= |run|
    ensures Replay(origin, run[..j]).journal <= Replay(origin, run[..m]).journal
  {
    JournalOnlyGrows(origin, run[..m], j);
    assert run[..m][..j] == run[..j];
  }

  lemma OnlyUnpublishForgets(host: Host, w: World, e: Event, record: NetworkRecord)
    requires Legal(host, w, e)
    requires record in w.store && record !in Apply(w, e).store
    ensures e == Unpublished(record.name)
    ensures w.journal != [] && IsRemovalOf(w.journal[|w.journal| - 1], record.name)
  {
    if e.Published? {
      assert record in multiset(w.store + [e.record]);
      SortIsSortedPermutation(w.store + [e.record]);
    }
  }

  predicate IsRemovalOf(op: Operation, name: string) {
    op.action.Delete? && op.phase.Removed? && op.resource.name == name
  }

  /** The bridge tables a run goes through. */
  function KernelsOf(origin: World, run: seq<Event>): (ks: seq<KernelState>)
    ensures |ks| == |run| + 1 && ks[|run|] == Replay(origin, run).kernel
  {
    if run == [] then [origin.kernel] else KernelsOf(origin, run[..|run| - 1]) + [Replay(origin, run).kernel]
  }

  lemma {:induction false} KernelsOfRun(host: Host, origin: World, run: seq<Event>)
    requires Inv(host, origin) && LegalRun(host, origin, run)
    ensures KernelRun(KernelsOf(origin, run))
    ensures forall k :: 0 <= k <= |run| ==> KernelsOf(origin, run)[k] == Replay(origin, run[..k]).kernel
  {
    assert run[..|run|] == run;
    if run != [] {
      var n := |run| - 1;
      var init, e := run[..n], run[n];
      KernelsOfRun(host, origin, init);
      RunInvariant(host, origin, init);
      EventEvolves(host, Replay(origin, init), e);
      var ks := KernelsOf(origin, init);
      forall k | 0 <= k < n
        ensures Evolves(KernelsOf(origin, run)[k], KernelsOf(origin, run)[k + 1])
      {
        assert Evolves(ks[k], ks[k + 1]);
      }
      forall k | 0 <= k <= n
        ensures KernelsOf(origin, run)[k] == Replay(origin, run[..k]).kernel
      {
        assert init[..k] == run[..k];
      }
    }
  }

  lemma EventEvolves(host: Host, w: World, e: Event)
    requires KernelOk(w.kernel) && Legal(host, w, e)
    ensures Evolves(w.kernel, Apply(w, e).kernel)
  {
    match e
    case BridgeMade(_, made) => CreateEvolves(w.kernel, made);
    case BridgeGone(_, gone) => DestroyEvolves(w.kernel, gone.name);
    case _ =>
  }

  /**
   * Exact deletion over whole runs: once the bridge observed as `identity` has gone, no later
   * destruction by that identity removes anything, unless its index is the counter's ceiling.
   */
  lemma RecreatedBridgeSurvives(host: Host, origin: World, run: seq<Event>, identity: BridgeIdentity, i: nat, j: nat,
                                k: nat)
    requires Inv(host, origin) && LegalRun(host, origin, run) && i < j <= k < |run|
    requires HasBridge(Replay(origin, run[..i]).kernel, identity)
             && !HasBridge(Replay(origin, run[..j]).kernel, identity)
    requires identity.ifindex != Some(MAX_IFINDEX)
    ensures run[k].BridgeGone? ==> run[k].gone != identity
  {
    KernelsOfRun(host, origin, run);
    IdentityNeverReturns(KernelsOf(origin, run), identity, i, j, k);
    StepIsLegal(host, origin, run, k);
  }

  /**
   * A create that clears a bridge out of its way never takes one that another network owns:
   * whenever that happens in a run, a stored record on that bridge has the create's own name.
   */
  lemma ClearedBridgeIsUnowned(host: Host, origin: World, run: seq<Event>, k: nat, r: NetworkRecord)
    requires Inv(host, origin) && LegalRun(host, origin, run) && k < |run| && run[k].BridgeGone?
    requires r in Replay(origin, run[..k]).store && r.bridgeName == run[k].gone.name
    ensures var latest := LatestMap(Replay(origin, run[..k]).journal);
            && run[k].remover in latest
            && (latest[run[k].remover].phase.IntentDurable? ==> r.name == latest[run[k].remover].record.name)
  {
    PrefixIsLegal(host, origin, run, k);
    RunInvariant(host, origin, run[..k]);
    StepIsLegal(host, origin, run, k);
    var latest := LatestMap(Replay(origin, run[..k]).journal);
    assert EntryOk(run[k].remover, latest[run[k].remover]);
  }
}
