/** The opportunistic bus reset after the last close of a device. */
module BusReset {
  import opened Wrappers
  import opened IrqState
  import opened PciBus
  import opened VfioDevice

  /** A reference taken on a device: its number and the driver's record of it. */
  datatype Handle = Handle(id: nat, data: VfioPciDevice)

  /** What vfio-core and the driver core answer for each device of the walk. */
  datatype Binding = Binding(known: map<nat, VfioPciDevice>, ours: set<nat>)

  /** A device vfio-core knows and this driver is bound to. */
  predicate Bound(p: PciDev, binding: Binding) {
    p.id in binding.known && p.id in binding.ours
  }

  predicate AllBound(devs: seq<PciDev>, binding: Binding) {
    forall p | p in devs :: Bound(p, binding)
  }

  /** The numbers of the devices. */
  function Ids(devs: seq<PciDev>): seq<nat> {
    seq(|devs|, i requires 0 <= i < |devs| => devs[i].id)
  }

  /** The records of the devices. */
  function Records(devs: seq<PciDev>, binding: Binding): set<VfioPciDevice> {
    set p | p in devs && p.id in binding.known :: binding.known[p.id]
  }

  lemma WalkStart(walk: seq<PciDev>, slot: Option<Slot>)
    ensures Affected(walk[..0], slot) == [] && multiset(Ids(Affected(walk, slot)[..0])) == multiset{}
  {
  }

  lemma IdsNext(devs: seq<PciDev>, i: nat)
    requires i < |devs|
    ensures multiset(Ids(devs[..i + 1])) == multiset(Ids(devs[..i])) + multiset{devs[i].id}
  {
    assert Ids(devs[..i + 1]) == Ids(devs[..i]) + [devs[i].id];
  }

  lemma SuffixNext(ids: seq<nat>, i: nat)
    requires i < |ids|
    ensures multiset(ids[i..]) == multiset(ids[i + 1..]) + multiset{ids[i]}
  {
    assert ids[i..] == [ids[i]] + ids[i + 1..];
  }

  lemma RecordsNext(devs: seq<PciDev>, i: nat, binding: Binding)
    requires i < |devs| && Bound(devs[i], binding)
    ensures Records(devs[..i + 1], binding) == Records(devs[..i], binding) + {binding.known[devs[i].id]}
    ensures binding.known[devs[i].id] in Records(devs, binding)
  {
    assert devs[..i + 1] == devs[..i] + [devs[i]];
    assert devs[i] in devs;
  }

  predicate Idle(records: set<VfioPciDevice>)
    reads records
  {
    forall d | d in records :: d.refcnt == 0
  }

  predicate SomeNeedsReset(records: set<VfioPciDevice>)
    reads records
  {
    exists d | d in records :: d.needsReset
  }

  /** The first entries of the array are handles on these devices, in order. */
  ghost predicate Holds(devs: array<Option<Handle>>, cur: nat, affected: seq<PciDev>, binding: Binding)
    reads devs
  {
    && cur <= devs.Length && cur <= |affected|
    && forall i | 0 <= i < cur ::
         && Bound(affected[i], binding)
         && devs[i] == Some(Handle(affected[i].id, binding.known[affected[i].id]))
  }

  /** The answer for one device: no room, unknown to vfio-core, bound to another driver, or 0. */
  function GetResult(p: PciDev, full: bool, binding: Binding): (ret: int)
    ensures ret == 0 <==> !full && Bound(p, binding)
  {
    if full then -ENOSPC
    else if p.id !in binding.known then -EINVAL
    else if p.id !in binding.ours then -EBUSY
    else 0
  }

  /** `vfio_pci_get_devs` on one device. */
  method GetDev(p: PciDev, binding: Binding, devs: array<Option<Handle>>, cur: nat, core: Core)
    returns (ret: int, next: nat)
    requires cur <= devs.Length
    modifies devs, core`deviceRefs
    ensures ret == GetResult(p, cur == devs.Length, binding)
    ensures ret == 0 ==> next == cur + 1 && devs[cur] == Some(Handle(p.id, binding.known[p.id]))
                         && core.deviceRefs == old(core.deviceRefs) + multiset{p.id}
    ensures ret != 0 ==> next == cur && core.deviceRefs == old(core.deviceRefs)
    ensures forall i | 0 <= i < cur :: devs[i] == old(devs[i])
  {
    next := cur;
    if cur == devs.Length {
      return -ENOSPC, next;
    }
    var ok := core.DeviceGet(p.id, p.id in binding.known);
    if !ok {
      return -EINVAL, next;
    }
    if p.id !in binding.ours {
      core.DevicePut(p.id);
      return -EBUSY, next;
    }
    devs[cur] := Some(Handle(p.id, binding.known[p.id]));
    return 0, cur + 1;
  }

  /** The walk with `vfio_pci_get_devs`; it stops at the first device that fails. */
  method GetDevs(walk: seq<PciDev>, slot: Option<Slot>, binding: Binding, devs: array<Option<Handle>>, core: Core)
    returns (ret: int, cur: nat)
    modifies devs, core`deviceRefs
    ensures Holds(devs, cur, Affected(walk, slot), binding)
    ensures core.deviceRefs == old(core.deviceRefs) + multiset(Ids(Affected(walk, slot)[..cur]))
    ensures ret == 0 <==> |Affected(walk, slot)| <= devs.Length && AllBound(Affected(walk, slot), binding)
    ensures ret == 0 ==> cur == |Affected(walk, slot)|
    ensures ret != 0 ==> cur < |Affected(walk, slot)|
                         && ret == GetResult(Affected(walk, slot)[cur], cur == devs.Length, binding)
  {
    hide Affected, Ids, Passes, Bound;
    ghost var all := Affected(walk, slot);
    WalkStart(walk, slot);
    ret, cur := 0, 0;
    var i := 0;
    while i < |walk| && ret == 0
      invariant 0 <= i <= |walk|
      invariant Holds(devs, cur, all, binding)
      invariant ret == 0 ==> cur == |Affected(walk[..i], slot)|
      invariant ret != 0 ==> cur < |all| && ret == GetResult(all[cur], cur == devs.Length, binding)
      invariant core.deviceRefs == old(core.deviceRefs) + multiset(Ids(all[..cur]))
    {
      AffectedNext(walk, slot, i);
      var passes := WrapperPasses(walk[i], slot);
      if passes {
        IdsNext(all, cur);
        ret, cur := GetDev(walk[i], binding, devs, cur, core);
      }
      i := i + 1;
    }
    assert walk[..|walk|] == walk;
  }

  /** The checks before the reset: does some device need it, and is none in use? */
  method MayReset(devs: array<Option<Handle>>, cur: nat, ghost affected: seq<PciDev>, binding: Binding)
    returns (needsReset: bool, inUse: bool)
    requires Holds(devs, cur, affected, binding) && cur == |affected|
    ensures !inUse <==> Idle(Records(affected, binding))
    ensures !inUse ==> (needsReset <==> SomeNeedsReset(Records(affected, binding)))
  {
    needsReset, inUse := false, false;
    var i := 0;
    while i < cur
      invariant 0 <= i <= cur
      invariant forall j | 0 <= j < i :: binding.known[affected[j].id].refcnt == 0
      invariant needsReset <==> exists j | 0 <= j < i :: binding.known[affected[j].id].needsReset
    {
      var tmp := devs[i].value.data;
      assert tmp in Records(affected, binding) by {
        assert affected[i] in affected;
      }
      if tmp.needsReset {
        needsReset := true;
      }
      if tmp.refcnt != 0 {
        return needsReset, true;
      }
      i := i + 1;
    }
    forall d | d in Records(affected, binding)
      ensures exists j :: 0 <= j < cur && binding.known[affected[j].id] == d
    {
    }
    if needsReset {
      ghost var j :| 0 <= j < cur && binding.known[affected[j].id].needsReset;
      assert affected[j] in affected;
    }
  }

  /** Issue the reset if some device needs it and none is in use. */
  method ResetIfNeeded(devs: array<Option<Handle>>, cur: nat, ghost affected: seq<PciDev>, binding: Binding,
                       target: Target, core: Core)
    returns (ret: int)
    requires Holds(devs, cur, affected, binding) && cur == |affected|
    modifies core`resets
    ensures var issued := Idle(Records(affected, binding)) && SomeNeedsReset(Records(affected, binding));
            && core.resets == old(core.resets) + (if issued then [Attempt(target, ret)] else [])
            && (!issued ==> ret != 0)
  {
    ret := -EINVAL;
    var needsReset, inUse := MayReset(devs, cur, affected, binding);
    if !inUse && needsReset {
      ret := core.TryReset(target);
    }
  }

  /** The cleanup of one device. */
  method PutDev(h: Handle, succeeded: bool, core: Core)
    requires h.id in core.deviceRefs
    modifies h.data`needsReset, core`deviceRefs
    ensures core.deviceRefs == old(core.deviceRefs) - multiset{h.id}
    ensures h.data.needsReset == (old(h.data.needsReset) && !succeeded)
  {
    if succeeded {
      h.data.needsReset := false;
    }
    core.DevicePut(h.id);
  }

  /** The cleanup: clear needs_reset after a successful reset, and put each reference once. */
  method PutDevs(devs: array<Option<Handle>>, cur: nat, ghost affected: seq<PciDev>, binding: Binding, succeeded: bool,
                 core: Core, ghost base: multiset<nat>)
    requires Holds(devs, cur, affected, binding)
    requires core.deviceRefs == base + multiset(Ids(affected[..cur]))
    modifies Records(affected, binding)`needsReset, core`deviceRefs
    ensures core.deviceRefs == base
    ensures forall d | d in Records(affected, binding) ::
              d.needsReset == (old(d.needsReset) && !(succeeded && d in Records(affected[..cur], binding)))
  {
    hide Bound;
    ghost var ids := Ids(affected[..cur]);
    assert ids[0..] == ids;
    for i := 0 to cur
      invariant core.deviceRefs == base + multiset(ids[i..])
      invariant forall d | d in Records(affected, binding) ::
                  d.needsReset == (old(d.needsReset) && !(succeeded && d in Records(affected[..i], binding)))
    {
      RecordsNext(affected, i, binding);
      SuffixNext(ids, i);
      PutDev(devs[i].value, succeeded, core);
    }
  }

  /** When the reset is issued: memory, no more devices than counted, all bound, idle, and one in need. */
  ghost predicate Warranted(pdev: PciDev, probe: Probe, counted: seq<Dev>, later: seq<Dev>, memory: bool,
                            binding: Binding)
    reads Records(AffectedBy(pdev, probe, later), binding)
  {
    var affected := AffectedBy(pdev, probe, later);
    && Reach(pdev, probe).Ok? && memory
    && 0 < |AffectedBy(pdev, probe, counted)| && |affected| <= |AffectedBy(pdev, probe, counted)|
    && AllBound(affected, binding)
    && Idle(Records(affected, binding))
    && SomeNeedsReset(Records(affected, binding))
  }

  /** A warranted slot reset touches no device in use or foreign, in the slot or anywhere below it. */
  lemma SlotResetSparesUse(pdev: PciDev, probe: Probe, counted: seq<Dev>, later: seq<Dev>, memory: bool,
                           binding: Binding, slot: Slot)
    requires Warranted(pdev, probe, counted, later, memory, binding) && Reach(pdev, probe) == Ok(Some(slot))
    requires slot.bus == pdev.bus.id && slot.bus !in BusesBelow(later)
    ensures forall p | p in SlotSubtrees(later, pdev.bus, slot) ::
              Bound(p, binding) && binding.known[p.id].refcnt == 0
  {
    AffectedIsSlotSubtrees(later, pdev.bus, slot);
    forall p | p in SlotSubtrees(later, pdev.bus, slot)
      ensures Bound(p, binding) && binding.known[p.id].refcnt == 0
    {
      assert binding.known[p.id] in Records(AffectedBy(pdev, probe, later), binding);
    }
  }

  /** The target of a warranted reset acts on no device that is foreign or in use, and on one that needs it. */
  lemma WarrantedSpares(pdev: PciDev, probe: Probe, counted: seq<Dev>, later: seq<Dev>, memory: bool, binding: Binding)
    requires Warranted(pdev, probe, counted, later, memory, binding) && Placed(pdev, later)
    ensures var target := TargetOf(pdev, Reach(pdev, probe).value);
            var acted := ActsOn(target, later, pdev.bus);
            && (forall p | p in acted ::
                  p.id in binding.known && p.id in binding.ours && binding.known[p.id].refcnt == 0)
            && (exists p | p in acted :: p.id in binding.known && binding.known[p.id].needsReset)
            && (probe.slotOk && pdev.slot.Some? ==> target == SlotReset(pdev.slot.value))
  {
    TargetMatches(pdev, probe, later);
    var affected := AffectedBy(pdev, probe, later);
    forall p | p in affected
      ensures p.id in binding.known && p.id in binding.ours && binding.known[p.id].refcnt == 0
    {
      assert Bound(p, binding);
      assert binding.known[p.id] in Records(affected, binding);
    }
    var d :| d in Records(affected, binding) && d.needsReset;
    var p :| p in affected && p.id in binding.known && binding.known[p.id] == d;
  }

  /** On a bus that did not change, the count plays no part. */
  lemma WarrantedOnQuietBus(pdev: PciDev, probe: Probe, devices: seq<Dev>, memory: bool, binding: Binding)
    ensures var affected := AffectedBy(pdev, probe, devices);
            Warranted(pdev, probe, devices, devices, memory, binding) <==>
              && Reach(pdev, probe).Ok? && memory && AllBound(affected, binding)
              && Idle(Records(affected, binding)) && SomeNeedsReset(Records(affected, binding))
  {
    var affected := AffectedBy(pdev, probe, devices);
    if SomeNeedsReset(Records(affected, binding)) {
      var p :| p in affected && p.id in binding.known;
      assert affected != [];
    }
  }

  /**
   * `vfio_pci_try_bus_reset`. The bus is walked twice and may have changed in between. The reset is issued
   * exactly when it is warranted, the flags are cleared exactly when it was issued and answers 0, and no
   * reference stays behind.
   */
  method TryBusReset(pdev: PciDev, probe: Probe, counted: seq<Dev>, later: seq<Dev>, memory: bool, binding: Binding,
                     core: Core)
    modifies Records(AffectedBy(pdev, probe, later), binding)`needsReset, core`deviceRefs, core`resets
    ensures core.deviceRefs == old(core.deviceRefs)
    ensures old(Warranted(pdev, probe, counted, later, memory, binding)) ==>
              exists ret :: core.resets == old(core.resets) + [Attempt(TargetOf(pdev, Reach(pdev, probe).value), ret)]
    ensures !old(Warranted(pdev, probe, counted, later, memory, binding)) ==> core.resets == old(core.resets)
    ensures forall d | d in Records(AffectedBy(pdev, probe, later), binding) ::
              d.needsReset == (old(d.needsReset) && !ResetDone(old(core.resets), core.resets))
    ensures forall p | p in AffectedBy(pdev, probe, later) && p.id in binding.known ::
              binding.known[p.id].needsReset ==
              (old(binding.known[p.id].needsReset)
               && !(|core.resets| > |old(core.resets)| && core.resets[|old(core.resets)|].ret == 0))
    ensures Placed(pdev, later) ==>
              forall i | |old(core.resets)| <= i < |core.resets| ::
                var acted := ActsOn(core.resets[i].target, later, pdev.bus);
                && (forall p | p in acted ::
                      p.id in binding.known && p.id in binding.ours && old(binding.known[p.id].refcnt) == 0)
                && (exists p | p in acted :: p.id in binding.known && old(binding.known[p.id].needsReset))
                && (probe.slotOk && pdev.slot.Some? ==> core.resets[i].target == SlotReset(pdev.slot.value))
  {
    hide Affected, Walk, Ids, Idle, SomeNeedsReset, Bound, AllBound, TargetOf, ActsOn, Placed;
    if Warranted(pdev, probe, counted, later, memory, binding) && Placed(pdev, later) {
      WarrantedSpares(pdev, probe, counted, later, memory, binding);
    }
    var reach := Reach(pdev, probe);
    if reach.Err? {
      return;
    }
    var slot := reach.value;
    var count := CountDevs(Walk(counted, pdev.bus), slot);
    if count == 0 || !memory {
      return;
    }
    var devs := new Option<Handle>[count](_ => None);
    ghost var affected := Affected(Walk(later, pdev.bus), slot);
    var walked, cur := GetDevs(Walk(later, pdev.bus), slot, binding, devs, core);
    var ret := -EINVAL;
    if walked == 0 {
      ret := ResetIfNeeded(devs, cur, affected, binding, TargetOf(pdev, slot), core);
    }
    PutDevs(devs, cur, affected, binding, ret == 0, core, old(core.deviceRefs));
    assert cur == |affected| ==> affected[..cur] == affected;
  }
}
