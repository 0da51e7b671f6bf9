/** The hot reset a user may ask for: the devices it affects, and the proof of group ownership it demands. */
module HotReset {
  import opened Wrappers
  import opened IrqState
  import opened PciBus
  import opened VfioDevice

  const EAGAIN: int := 11
  const EFAULT: int := 14
  const EPERM: int := 1

  /** An error number as the kernel returns it. */
  type Error = e: int | e < 0 witness -1

  /** What a descriptor turns out to be: no file, a file vfio refuses, or a vfio group with its iommu group. */
  datatype FdFile = NoFile | Refused(error: Error) | VfioGroup(group: nat, iommu: nat)

  /** An acquired group with the number of its iommu group. */
  datatype GroupEntry = GroupEntry(group: nat, id: nat)

  // ------------------------------------------------------------------- info

  /** The numbers of the iommu groups of the devices. */
  predicate AllGrouped(devs: seq<PciDev>, iommuGroups: map<nat, nat>) {
    forall p | p in devs :: p.id in iommuGroups
  }

  /**
   * The answer of the walk: EPERM when a device that would fit has no iommu group, else EAGAIN when there are
   * more devices than counted.
   */
  function FillResult(affected: seq<PciDev>, max: nat, iommuGroups: map<nat, nat>): int {
    if !AllGrouped(if |affected| <= max then affected else affected[..max], iommuGroups) then -EPERM
    else if |affected| > max then -EAGAIN
    else 0
  }

  /** `vfio_pci_fill_devs` on one device. */
  method FillDev(p: PciDev, ids: seq<nat>, max: nat, iommuGroups: map<nat, nat>, core: Core)
    returns (ret: int, next: seq<nat>)
    requires |ids| <= max
    modifies core`iommuRefs
    ensures core.iommuRefs == old(core.iommuRefs)
    ensures ret == 0 <==> |ids| < max && p.id in iommuGroups
    ensures ret in {0, -EAGAIN, -EPERM} && (ret == -EAGAIN <==> |ids| == max)
    ensures next == if ret == 0 then ids + [iommuGroups[p.id]] else ids
  {
    if |ids| == max {
      return -EAGAIN, ids;
    }
    var group := core.IommuGroupGet(p.id, iommuGroups);
    if group.None? {
      return -EPERM, ids;
    }
    next := ids + [group.value];
    core.IommuGroupPut(group.value);
    return 0, next;
  }

  /** The walk with `vfio_pci_fill_devs`: the group of each affected device; it stops at the first failure. */
  method FillDevs(walk: seq<PciDev>, slot: Option<Slot>, max: nat, iommuGroups: map<nat, nat>, core: Core)
    returns (ret: int, ids: seq<nat>)
    modifies core`iommuRefs
    ensures core.iommuRefs == old(core.iommuRefs)
    ensures ret == 0 <==> |Affected(walk, slot)| <= max && AllGrouped(Affected(walk, slot), iommuGroups)
    ensures ret == 0 ==> |ids| == |Affected(walk, slot)| <= max
    ensures ret == 0 ==> forall i | 0 <= i < |ids| :: ids[i] == iommuGroups[Affected(walk, slot)[i].id]
    ensures ret == FillResult(Affected(walk, slot), max, iommuGroups)
  {
    hide Affected, Passes;
    ghost var all := Affected(walk, slot);
    AffectedNone(walk, slot);
    ret, ids := 0, [];
    var i := 0;
    while i < |walk| && ret == 0
      invariant 0 <= i <= |walk| && |ids| <= |all| && |ids| <= max
      invariant core.iommuRefs == old(core.iommuRefs)
      invariant ret == 0 ==> |ids| == |Affected(walk[..i], slot)|
      invariant ret != 0 ==> |ids| < |all| && (|ids| == max || all[|ids|].id !in iommuGroups)
      invariant ret in {0, -EAGAIN, -EPERM} && (ret != 0 ==> (ret == -EAGAIN <==> |ids| == max))
      invariant forall j | 0 <= j < |ids| :: all[j].id in iommuGroups && ids[j] == iommuGroups[all[j].id]
    {
      AffectedNext(walk, slot, i);
      var passes := WrapperPasses(walk[i], slot);
      if passes {
        ret, ids := FillDev(walk[i], ids, max, iommuGroups, core);
      }
      i := i + 1;
    }
    assert walk[..|walk|] == walk;
  }

  /**
   * VFIO_DEVICE_GET_PCI_HOT_RESET_INFO: the number of affected devices, and their groups if they fit
   * in the room the user left. The bus may change between the two walks.
   */
  method HotResetInfo(pdev: PciDev, probe: Probe, counted: seq<Dev>, later: seq<Dev>, room: nat, memory: bool,
                      iommuGroups: map<nat, nat>, core: Core)
    returns (ret: int, count: nat, ids: seq<nat>)
    modifies core`iommuRefs
    ensures core.iommuRefs == old(core.iommuRefs)
    ensures Reach(pdev, probe).Err? ==> ret == -ENODEV
    ensures Reach(pdev, probe).Ok? && room < |AffectedBy(pdev, probe, counted)| ==>
              ret == -ENOSPC && count == |AffectedBy(pdev, probe, counted)|
    ensures ret == 0 <==>
              && Reach(pdev, probe).Ok? && memory
              && |AffectedBy(pdev, probe, later)| <= |AffectedBy(pdev, probe, counted)| <= room
              && AllGrouped(AffectedBy(pdev, probe, later), iommuGroups)
    ensures Reach(pdev, probe).Ok? && |AffectedBy(pdev, probe, counted)| <= room ==>
              var max := |AffectedBy(pdev, probe, counted)|;
              ret == if memory then FillResult(AffectedBy(pdev, probe, later), max, iommuGroups) else -ENOMEM
    ensures ret == 0 ==> count == |ids| && Reports(AffectedBy(pdev, probe, later), iommuGroups, ids)
  {
    hide Affected, Walk;
    var reach := Reach(pdev, probe);
    ids := [];
    if reach.Err? {
      return reach.error, 0, ids;
    }
    count := CountDevs(Walk(counted, pdev.bus), reach.value);
    if room < count {
      return -ENOSPC, count, ids;
    }
    if !memory {
      return -ENOMEM, count, ids;
    }
    ret, ids := FillDevs(Walk(later, pdev.bus), reach.value, count, iommuGroups, core);
    if ret == 0 {
      count := |ids|;
    }
  }

  /** The reported numbers are the groups of the affected devices, one each, in the order of the walk. */
  predicate Reports(affected: seq<PciDev>, iommuGroups: map<nat, nat>, ids: seq<nat>) {
    && |ids| == |affected|
    && forall i | 0 <= i < |ids| :: affected[i].id in iommuGroups && ids[i] == iommuGroups[affected[i].id]
  }

  // ------------------------------------------------------------------ reset

  /** The iommu groups the user proves to own. */
  function Supplied(fds: seq<FdFile>): set<nat> {
    set f | f in fds && f.VfioGroup? :: f.iommu
  }

  /** Every descriptor names a vfio group. */
  predicate AllGroups(fds: seq<FdFile>) {
    forall f | f in fds :: f.VfioGroup?
  }

  /** Every affected device has its iommu group among those supplied. */
  predicate Owned(affected: seq<PciDev>, iommuGroups: map<nat, nat>, supplied: set<nat>) {
    forall p | p in affected :: p.id in iommuGroups && iommuGroups[p.id] in supplied
  }

  /** When the reset is attempted. */
  predicate Permitted(pdev: PciDev, probe: Probe, counted: seq<Dev>, later: seq<Dev>, fds: seq<FdFile>,
                      iommuGroups: map<nat, nat>) {
    && Reach(pdev, probe).Ok?
    && 1 <= |fds| <= |AffectedBy(pdev, probe, counted)|
    && AllGroups(fds)
    && Owned(AffectedBy(pdev, probe, later), iommuGroups, Supplied(fds))
  }

  /** The group references of the first n descriptors. */
  function GroupsOf(fds: seq<FdFile>, n: nat): multiset<nat>
    requires n <= |fds|
  {
    if n == 0 then multiset{}
    else GroupsOf(fds, n - 1) + (if fds[n - 1].VfioGroup? then multiset{fds[n - 1].group} else multiset{})
  }

  /** The entries are those of the first n descriptors. */
  ghost predicate Entered(groups: array<GroupEntry>, n: nat, fds: seq<FdFile>)
    reads groups
  {
    && n <= groups.Length == |fds|
    && forall i | 0 <= i < n ::
         fds[i].VfioGroup? && groups[i] == GroupEntry(fds[i].group, fds[i].iommu)
  }

  /** The acquiring loop: it breaks at the first descriptor that is no vfio group. */
  method AcquireGroups(fds: seq<FdFile>, groups: array<GroupEntry>, core: Core)
    returns (ret: int, n: nat)
    requires groups.Length == |fds|
    modifies groups, core`groupRefs
    ensures Entered(groups, n, fds)
    ensures core.groupRefs == old(core.groupRefs) + GroupsOf(fds, n)
    ensures ret == 0 <==> AllGroups(fds)
    ensures ret == 0 ==> n == |fds|
    ensures ret != 0 ==> n < |fds| && !fds[n].VfioGroup? && ret == if fds[n].NoFile? then -EBADF else fds[n].error
  {
    ret, n := 0, 0;
    while n < |fds|
      invariant Entered(groups, n, fds)
      invariant core.groupRefs == old(core.groupRefs) + GroupsOf(fds, n)
    {
      assert fds[n] in fds;
      if fds[n].NoFile? {
        return -EBADF, n;
      }
      if fds[n].Refused? {
        return fds[n].error, n;
      }
      core.GroupGet(fds[n].group);
      groups[n] := GroupEntry(fds[n].group, fds[n].iommu);
      n := n + 1;
    }
  }

  /** The release loop, from the last entry acquired down to the first. */
  method ReleaseGroups(fds: seq<FdFile>, groups: array<GroupEntry>, n: nat, core: Core,
                       ghost base: multiset<nat>)
    requires Entered(groups, n, fds) && core.groupRefs == base + GroupsOf(fds, n)
    modifies core`groupRefs
    ensures core.groupRefs == base
  {
    var i := n - 1;
    while i >= 0
      invariant -1 <= i < n <= |fds|
      invariant core.groupRefs == base + GroupsOf(fds, i + 1)
    {
      assert GroupsOf(fds, i + 1) == GroupsOf(fds, i) + multiset{groups[i].group};
      core.GroupPut(groups[i].group);
      i := i - 1;
    }
  }

  /** `vfio_pci_validate_devs` on one device: is its iommu group among the entries? */
  method ValidateDev(p: PciDev, groups: array<GroupEntry>, n: nat, iommuGroups: map<nat, nat>, core: Core)
    returns (ret: int)
    requires n <= groups.Length
    modifies core`iommuRefs
    ensures core.iommuRefs == old(core.iommuRefs)
    ensures ret == 0 <==>
              p.id in iommuGroups && exists i | 0 <= i < n :: groups[i].id == iommuGroups[p.id]
  {
    var group := core.IommuGroupGet(p.id, iommuGroups);
    if group.None? {
      return -EPERM;
    }
    var i := 0;
    while i < n && groups[i].id != group.value
      invariant i <= n && forall j | 0 <= j < i :: groups[j].id != group.value
    {
      i := i + 1;
    }
    core.IommuGroupPut(group.value);
    return if i == n then -EINVAL else 0;
  }

  /** The walk with `vfio_pci_validate_devs`. */
  method ValidateDevs(walk: seq<PciDev>, slot: Option<Slot>, fds: seq<FdFile>,
                      groups: array<GroupEntry>, iommuGroups: map<nat, nat>, core: Core)
    returns (ret: int)
    requires Entered(groups, |fds|, fds)
    modifies core`iommuRefs
    ensures core.iommuRefs == old(core.iommuRefs)
    ensures ret == 0 <==> Owned(Affected(walk, slot), iommuGroups, Supplied(fds))
  {
    hide Affected, Passes, Supplied, Entered;
    ghost var all := Affected(walk, slot);
    AffectedNone(walk, slot);
    ret := 0;
    var i := 0;
    ghost var done := 0;
    while i < |walk| && ret == 0
      invariant 0 <= i <= |walk| && 0 <= done <= |all|
      invariant core.iommuRefs == old(core.iommuRefs)
      invariant ret == 0 ==> done == |Affected(walk[..i], slot)| && Owned(all[..done], iommuGroups, Supplied(fds))
      invariant ret != 0 ==> !Owned(all, iommuGroups, Supplied(fds))
    {
      AffectedNext(walk, slot, i);
      var passes := WrapperPasses(walk[i], slot);
      if passes {
        EntriesSupply(groups, fds);
        assert all[done] == walk[i] && walk[i] in all;
        assert all[..done + 1] == all[..done] + [walk[i]];
        assert Entered(groups, |fds|, fds) && groups.Length == |fds|;
        ret := ValidateDev(walk[i], groups, |fds|, iommuGroups, core);
        done := done + 1;
      }
      i := i + 1;
    }
    assert walk[..|walk|] == walk && all[..|all|] == all;
  }

  /** The numbers in the entries are the groups supplied. */
  lemma EntriesSupply(groups: array<GroupEntry>, fds: seq<FdFile>)
    requires Entered(groups, |fds|, fds)
    ensures groups.Length == |fds|
    ensures forall id :: id in Supplied(fds) <==> exists i | 0 <= i < |fds| :: groups[i].id == id
  {
    forall i | 0 <= i < |fds|
      ensures groups[i].id in Supplied(fds)
    {
      assert fds[i] in fds;
    }
  }

  /**
   * VFIO_DEVICE_PCI_HOT_RESET. The reset is attempted exactly when permitted, given memory and a readable
   * request; every group and iommu group reference is given back on every path.
   */
  method HotReset(pdev: PciDev, probe: Probe, counted: seq<Dev>, later: seq<Dev>, fds: seq<FdFile>,
                  iommuGroups: map<nat, nat>, memory: bool, readable: bool, core: Core)
    returns (ret: int)
    modifies core
    ensures core.groupRefs == old(core.groupRefs) && core.iommuRefs == old(core.iommuRefs)
    ensures core.deviceRefs == old(core.deviceRefs)
    ensures var attempted := memory && readable && Permitted(pdev, probe, counted, later, fds, iommuGroups);
            && core.resets == old(core.resets)
                 + (if attempted then [Attempt(TargetOf(pdev, Reach(pdev, probe).value), ret)] else [])
            && (!attempted ==> ret != 0)
    ensures Placed(pdev, later) ==>
              forall i | |old(core.resets)| <= i < |core.resets| ::
                && (forall p | p in ActsOn(core.resets[i].target, later, pdev.bus) ::
                      p.id in iommuGroups && exists f | f in fds :: f.VfioGroup? && f.iommu == iommuGroups[p.id])
                && (probe.slotOk && pdev.slot.Some? ==> core.resets[i].target == SlotReset(pdev.slot.value))
  {
    hide Affected, Walk, AllGroups, Supplied, Owned, Entered, ActsOn, TargetOf;
    if Permitted(pdev, probe, counted, later, fds, iommuGroups) && Placed(pdev, later) {
      PermittedOwnsTarget(pdev, probe, counted, later, fds, iommuGroups);
    }
    var reach := Reach(pdev, probe);
    if reach.Err? {
      return reach.error;
    }
    var slot := reach.value;
    var count := CountDevs(Walk(counted, pdev.bus), slot);
    if |fds| == 0 || |fds| > count {
      return -EINVAL;
    }
    if !memory {
      return -ENOMEM;
    }
    if !readable {
      return -EFAULT;
    }
    var groups := new GroupEntry[|fds|](_ => GroupEntry(0, 0));
    var n;
    ret, n := AcquireGroups(fds, groups, core);
    if ret == 0 {
      ret := ValidateDevs(Walk(later, pdev.bus), slot, fds, groups, iommuGroups, core);
      if ret == 0 {
        ret := core.TryReset(TargetOf(pdev, slot));
      }
    }
    ReleaseGroups(fds, groups, n, core, old(core.groupRefs));
  }

  /** A permitted slot reset is covered by the groups supplied, in the slot and everywhere below it. */
  lemma PermittedOwnsSubtrees(pdev: PciDev, probe: Probe, counted: seq<Dev>, later: seq<Dev>, fds: seq<FdFile>,
                              iommuGroups: map<nat, nat>, slot: Slot)
    requires Permitted(pdev, probe, counted, later, fds, iommuGroups) && Reach(pdev, probe) == Ok(Some(slot))
    requires slot.bus == pdev.bus.id && slot.bus !in BusesBelow(later)
    ensures Owned(SlotSubtrees(later, pdev.bus, slot), iommuGroups, Supplied(fds))
  {
    AffectedIsSlotSubtrees(later, pdev.bus, slot);
  }

  /** The target of a permitted reset acts on devices of supplied groups only. */
  lemma PermittedOwnsTarget(pdev: PciDev, probe: Probe, counted: seq<Dev>, later: seq<Dev>, fds: seq<FdFile>,
                            iommuGroups: map<nat, nat>)
    requires Permitted(pdev, probe, counted, later, fds, iommuGroups) && Placed(pdev, later)
    ensures var target := TargetOf(pdev, Reach(pdev, probe).value);
            && (forall p | p in ActsOn(target, later, pdev.bus) ::
                  p.id in iommuGroups && exists f | f in fds :: f.VfioGroup? && f.iommu == iommuGroups[p.id])
            && (probe.slotOk && pdev.slot.Some? ==> target == SlotReset(pdev.slot.value))
  {
    TargetMatches(pdev, probe, later);
  }

  // ---------------------------------------------------------- the two together

  /** One descriptor for each distinct number, in the order of first appearance. */
  function Distinct(ids: seq<nat>): seq<nat> {
    if ids == [] then []
    else
      var rest := Distinct(ids[..|ids| - 1]);
      if ids[|ids| - 1] in rest then rest else rest + [ids[|ids| - 1]]
  }

  lemma {:induction false} DistinctMembers(ids: seq<nat>)
    ensures forall x :: x in Distinct(ids) <==> x in ids
    ensures |Distinct(ids)| <= |ids| && (ids != [] ==> Distinct(ids) != [])
  {
    if ids != [] {
      DistinctMembers(ids[..|ids| - 1]);
      assert ids == ids[..|ids| - 1] + [ids[|ids| - 1]];
    }
  }

  /** After an info call the reset is permitted exactly to those whose groups cover the reported numbers. */
  lemma PermittedIffReported(pdev: PciDev, probe: Probe, devices: seq<Dev>, iommuGroups: map<nat, nat>,
                             ids: seq<nat>, fds: seq<FdFile>)
    requires Reach(pdev, probe).Ok? && Reports(AffectedBy(pdev, probe, devices), iommuGroups, ids)
    requires AllGroups(fds)
    ensures Permitted(pdev, probe, devices, devices, fds, iommuGroups) <==>
              1 <= |fds| <= |ids| && forall id | id in ids :: id in Supplied(fds)
  {
    hide AffectedBy;
    var affected := AffectedBy(pdev, probe, devices);
    assert forall i | 0 <= i < |ids| :: affected[i] in affected && ids[i] in ids;
  }

  /** One descriptor for each distinct reported number is never too many, and is enough. */
  lemma OneDescriptorPerGroupSuffices(pdev: PciDev, probe: Probe, devices: seq<Dev>, iommuGroups: map<nat, nat>,
                                      ids: seq<nat>, fds: seq<FdFile>)
    requires Reach(pdev, probe).Ok? && Reports(AffectedBy(pdev, probe, devices), iommuGroups, ids) && ids != []
    requires |fds| == |Distinct(ids)|
    requires forall i | 0 <= i < |fds| :: fds[i].VfioGroup? && fds[i].iommu == Distinct(ids)[i]
    ensures Permitted(pdev, probe, devices, devices, fds, iommuGroups)
  {
    DistinctMembers(ids);
    forall id | id in ids
      ensures id in Supplied(fds)
    {
      var i :| 0 <= i < |fds| && Distinct(ids)[i] == id;
      assert fds[i] in fds;
    }
    PermittedIffReported(pdev, probe, devices, iommuGroups, ids, fds);
  }
}
