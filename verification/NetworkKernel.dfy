/** The bridge table behind the lifecycle, with the file-backed kernel's ifindex counter. */
module NetworkKernel {
  import opened Wrappers
  import opened NetworkTypes

  const MAX_IFINDEX := 0xFFFF_FFFF

  /** `unreadable` names the bridges whose observation currently fails. */
  datatype KernelState = KernelState(
    bridges: map<string, BridgeIdentity>, nextIfindex: nat, unreadable: set<string>)

  const FRESH_KERNEL := KernelState(map[], 1, {})

  /** A saturating 32-bit increment; it is never zero, so the source's lower clamp at one has no effect. */
  function NextIfindex(ifindex: nat): nat {
    if ifindex >= MAX_IFINDEX then MAX_IFINDEX else ifindex + 1
  }

  /** The file-backed kernel replaces a bridge of the same name without looking at it. */
  function WithBridge(kernel: KernelState, record: NetworkRecord): (k: KernelState)
    ensures record.bridgeName in k.bridges
  {
    var identity := IntendedIdentity(record).(ifindex := Some(kernel.nextIfindex));
    kernel.(bridges := kernel.bridges[identity.name := identity], nextIfindex := NextIfindex(kernel.nextIfindex))
  }

  /** The bridge the kernel makes is one that the create accepts as its own. */
  lemma CreatedIsIntended(host: Host, kernel: KernelState, record: NetworkRecord)
    requires KernelOk(kernel)
    ensures IsIntendedObservation(host, IntendedIdentity(record), WithBridge(kernel, record).bridges[record.bridgeName])
    ensures WithBridge(kernel, record).bridges[record.bridgeName].ifindex == Some(kernel.nextIfindex)
    ensures kernel.nextIfindex < MAX_IFINDEX ==> WithBridge(kernel, record).nextIfindex == kernel.nextIfindex + 1
    ensures kernel.nextIfindex == MAX_IFINDEX ==> WithBridge(kernel, record).nextIfindex == MAX_IFINDEX
    ensures WithBridge(kernel, record).unreadable == kernel.unreadable
    ensures forall name :: name != record.bridgeName ==>
              (name in WithBridge(kernel, record).bridges <==> name in kernel.bridges)
              && (name in kernel.bridges ==> WithBridge(kernel, record).bridges[name] == kernel.bridges[name])
  {
  }

  function WithoutBridge(kernel: KernelState, name: string): KernelState {
    kernel.(bridges := kernel.bridges - {name})
  }

  /** Every live bridge carries an index the counter has already passed, until the counter saturates. */
  predicate KernelOk(kernel: KernelState) {
    && 1 <= kernel.nextIfindex <= MAX_IFINDEX
    && forall name :: name in kernel.bridges ==> LiveBridgeOk(kernel, name, kernel.bridges[name])
  }

  predicate LiveBridgeOk(kernel: KernelState, name: string, identity: BridgeIdentity) {
    && identity.name == name
    && identity.ifindex.Some?
    && 1 <= identity.ifindex.value <= MAX_IFINDEX
    && (identity.ifindex.value < kernel.nextIfindex || kernel.nextIfindex == MAX_IFINDEX)
  }

  /** A change by anyone: bridges stay, go, or appear with an index the old counter had not handed out. */
  predicate Evolves(before: KernelState, after: KernelState) {
    && before.nextIfindex <= after.nextIfindex <= MAX_IFINDEX
    && forall name :: name in after.bridges ==>
         || (name in before.bridges && before.bridges[name] == after.bridges[name])
         || (LiveBridgeOk(after, name, after.bridges[name]) && before.nextIfindex <= after.bridges[name].ifindex.value)
  }

  lemma EvolutionKeepsKernelOk(before: KernelState, after: KernelState)
    requires KernelOk(before) && Evolves(before, after)
    ensures KernelOk(after)
  {
    forall name | name in after.bridges
      ensures LiveBridgeOk(after, name, after.bridges[name])
    {
      if name in before.bridges && before.bridges[name] == after.bridges[name] {
        assert LiveBridgeOk(before, name, before.bridges[name]);
      }
    }
  }

  lemma CreateEvolves(kernel: KernelState, record: NetworkRecord)
    requires KernelOk(kernel)
    ensures Evolves(kernel, WithBridge(kernel, record))
  {
    var after := WithBridge(kernel, record);
    assert LiveBridgeOk(after, record.bridgeName, after.bridges[record.bridgeName]);
  }

  lemma DestroyEvolves(kernel: KernelState, name: string)
    requires KernelOk(kernel)
    ensures Evolves(kernel, WithoutBridge(kernel, name))
    ensures name !in WithoutBridge(kernel, name).bridges
    ensures forall other :: other in kernel.bridges && other != name ==>
              other in WithoutBridge(kernel, name).bridges
              && WithoutBridge(kernel, name).bridges[other] == kernel.bridges[other]
  {
  }

  ghost predicate KernelRun(run: seq<KernelState>) {
    && run != [] && KernelOk(run[0])
    && forall i :: 0 <= i < |run| - 1 ==> Evolves(run[i], run[i + 1])
  }

  lemma {:induction false} KernelRunOk(run: seq<KernelState>, i: nat, j: nat)
    requires KernelRun(run) && i <= j < |run|
    ensures KernelOk(run[j]) && run[i].nextIfindex <= run[j].nextIfindex
  {
    if j > 0 {
      KernelRunOk(run, if i < j then i else j - 1, j - 1);
      assert Evolves(run[j - 1], run[j - 1 + 1]);
      EvolutionKeepsKernelOk(run[j - 1], run[j]);
    }
  }

  ghost predicate HasBridge(kernel: KernelState, identity: BridgeIdentity) {
    identity.name in kernel.bridges && kernel.bridges[identity.name] == identity
  }

  /**
   * An identity whose index is below the ceiling never comes back once it has gone, whoever
   * recreates the bridge and however far the counter has moved on.
   */
  lemma {:induction false} IdentityNeverReturns(run: seq<KernelState>, identity: BridgeIdentity, i: nat, j: nat, l: nat)
    requires KernelRun(run) && i < j <= l < |run|
    requires HasBridge(run[i], identity) && !HasBridge(run[j], identity)
    requires identity.ifindex != Some(MAX_IFINDEX)
    ensures !HasBridge(run[l], identity)
  {
    if j < l {
      KernelRunOk(run, i, l - 1);
      KernelRunOk(run, 0, i);
      IdentityNeverReturns(run, identity, i, j, l - 1);
      assert LiveBridgeOk(run[i], identity.name, identity);
      assert Evolves(run[l - 1], run[l - 1 + 1]);
    }
  }

  /** In some run the identity is there, is gone, and is there again. */
  ghost predicate Returns(run: seq<KernelState>, identity: BridgeIdentity, i: nat, j: nat, l: nat) {
    && KernelRun(run) && i < j < l < |run|
    && HasBridge(run[i], identity) && !HasBridge(run[j], identity) && HasBridge(run[l], identity)
  }

  ghost predicate CanReturn(identity: BridgeIdentity) {
    exists run, i, j, l :: Returns(run, identity, i, j, l)
  }

  /** The index held decides: of all identities the kernel can hand out, exactly those at the ceiling can come back. */
  lemma CanReturnIff(identity: BridgeIdentity)
    requires identity.ifindex.Some? && 1 <= identity.ifindex.value <= MAX_IFINDEX
    ensures CanReturn(identity) <==> identity.ifindex == Some(MAX_IFINDEX)
  {
    if CanReturn(identity) {
      var run, i, j, l :| Returns(run, identity, i, j, l);
      if identity.ifindex != Some(MAX_IFINDEX) {
        IdentityNeverReturns(run, identity, i, j, l);
      }
    }
    if identity.ifindex == Some(MAX_IFINDEX) {
      var gone := KernelState(map[], MAX_IFINDEX, {});
      var there := gone.(bridges := map[identity.name := identity]);
      var run := [there, gone, there];
      assert LiveBridgeOk(there, identity.name, identity);
      assert Evolves(run[0], run[1]) && Evolves(run[1], run[2]);
      assert Returns(run, identity, 0, 1, 2);
    }
  }

  /** The program does it by itself: once the counter stands still, a recreated bridge equals the deleted one. */
  lemma SaturatedCounterReusesIdentity(kernel: KernelState, record: NetworkRecord)
    requires KernelOk(kernel) && kernel.nextIfindex == MAX_IFINDEX
    ensures var full := WithBridge(kernel, record);
            var gone := WithoutBridge(full, record.bridgeName);
            Returns([full, gone, WithBridge(gone, record)], full.bridges[record.bridgeName], 0, 1, 2)
  {
    var full := WithBridge(kernel, record);
    var gone := WithoutBridge(full, record.bridgeName);
    var run := [full, gone, WithBridge(gone, record)];
    CreateEvolves(kernel, record);
    EvolutionKeepsKernelOk(kernel, full);
    DestroyEvolves(full, record.bridgeName);
    EvolutionKeepsKernelOk(full, gone);
    CreateEvolves(gone, record);
    assert Evolves(run[0], run[1]) && Evolves(run[1], run[2]);
  }
}
