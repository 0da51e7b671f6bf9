/** The driver's record of a device, and the services of vfio-core and the PCI core its resets use. */
module VfioDevice {
  import opened Wrappers
  import opened PciBus
  import opened IrqControl

  class VfioPciDevice {
    const irq: IrqDevice
    /** What `vfio_pci_nointx` and `pci_intx_mask_supported` say of the device. */
    const brokenIntx: bool
    const masksIntx: bool
    var refcnt: nat
    var needsReset: bool
    var resetWorks: bool
    /** The answers of `pci_enable_device`, `pci_reset_function` and `vfio_config_init` so far. */
    ghost var enableAnswers: seq<int>
    ghost var resetAnswers: seq<int>
    ghost var configAnswers: seq<int>
    /** The answers of `pci_try_reset_function` so far. */
    ghost var functionResets: seq<int>
    /** `pci_enable_device` was called and `pci_disable_device` was not since. */
    ghost var enabled: bool

    /** A probed device: closed, without interrupts. */
    constructor (irqLine: nat, pcie: bool, brokenIntx: bool, masksIntx: bool)
      ensures refcnt == 0 && !needsReset && !enabled
      ensures fresh(irq) && irq.Valid() && irq.irqType == IrqState.NoIrq
    {
      irq := new IrqDevice(irqLine, pcie);
      this.brokenIntx, this.masksIntx := brokenIntx, masksIntx;
      refcnt, needsReset, resetWorks, enabled := 0, false, false, false;
      enableAnswers, resetAnswers, configAnswers, functionResets := [], [], [], [];
    }

    /** `pci_enable_device`. */
    method PciEnable() returns (ret: int)
      modifies this`enabled, this`enableAnswers
      ensures enableAnswers == old(enableAnswers) + [ret]
      ensures enabled == (old(enabled) || ret == 0)
    {
      ret := *;
      enableAnswers := enableAnswers + [ret];
      enabled := enabled || ret == 0;
    }

    /** `pci_reset_function`. */
    method ResetFunction() returns (ret: int)
      modifies this`resetAnswers
      ensures resetAnswers == old(resetAnswers) + [ret]
    {
      ret := *;
      resetAnswers := resetAnswers + [ret];
    }

    /** `vfio_config_init`. */
    method ConfigInit() returns (ret: int)
      modifies this`configAnswers
      ensures configAnswers == old(configAnswers) + [ret]
    {
      ret := *;
      configAnswers := configAnswers + [ret];
    }

    /** `pci_try_reset_function`; 0 when the reset was done. */
    method TryResetFunction() returns (ret: int)
      modifies this`functionResets
      ensures functionResets == old(functionResets) + [ret]
    {
      ret := *;
      functionResets := functionResets + [ret];
    }
  }

  const ENOSPC: int := 28
  const EBUSY: int := 16

  /** What a reset acts on: a slot, or a whole bus. */
  datatype Target = SlotReset(slot: Slot) | BusReset(bus: nat)

  /** A reset as it was issued, and its answer: 0 when it was done. */
  datatype Attempt = Attempt(target: Target, ret: int)

  /** Between the two logs a reset was issued and done. */
  predicate ResetDone(before: seq<Attempt>, after: seq<Attempt>) {
    |after| > |before| && after[|before|].ret == 0
  }

  /** References this driver holds on devices, groups and iommu groups, and the resets it issued. */
  class Core {
    ghost var deviceRefs: multiset<nat>
    ghost var groupRefs: multiset<nat>
    ghost var iommuRefs: multiset<nat>
    ghost var resets: seq<Attempt>

    constructor ()
      ensures deviceRefs == groupRefs == iommuRefs == multiset{} && resets == []
    {
      deviceRefs, groupRefs, iommuRefs, resets := multiset{}, multiset{}, multiset{}, [];
    }

    /** `vfio_device_get_from_dev`: the device of vfio-core with a reference, or null. */
    method DeviceGet(id: nat, known: bool) returns (ok: bool)
      modifies this`deviceRefs
      ensures ok == known
      ensures deviceRefs == if ok then old(deviceRefs) + multiset{id} else old(deviceRefs)
    {
      ok := known;
      deviceRefs := if ok then deviceRefs + multiset{id} else deviceRefs;
    }

    /** `vfio_device_put`, of a reference that is held. */
    method DevicePut(id: nat)
      requires id in deviceRefs
      modifies this`deviceRefs
      ensures deviceRefs == old(deviceRefs) - multiset{id}
    {
      deviceRefs := deviceRefs - multiset{id};
    }

    /** `vfio_group_get_external_user`. */
    method GroupGet(group: nat)
      modifies this`groupRefs
      ensures groupRefs == old(groupRefs) + multiset{group}
    {
      groupRefs := groupRefs + multiset{group};
    }

    method GroupPut(group: nat)
      requires group in groupRefs
      modifies this`groupRefs
      ensures groupRefs == old(groupRefs) - multiset{group}
    {
      groupRefs := groupRefs - multiset{group};
    }

    /** `iommu_group_get`: the group of a device with a reference, or null. */
    method IommuGroupGet(dev: nat, iommuGroups: map<nat, nat>) returns (group: Option<nat>)
      modifies this`iommuRefs
      ensures group == if dev in iommuGroups then Some(iommuGroups[dev]) else None
      ensures iommuRefs == if group.Some? then old(iommuRefs) + multiset{group.value} else old(iommuRefs)
    {
      group := if dev in iommuGroups then Some(iommuGroups[dev]) else None;
      iommuRefs := if group.Some? then iommuRefs + multiset{group.value} else iommuRefs;
    }

    method IommuGroupPut(group: nat)
      requires group in iommuRefs
      modifies this`iommuRefs
      ensures iommuRefs == old(iommuRefs) - multiset{group}
    {
      iommuRefs := iommuRefs - multiset{group};
    }

    /** `pci_try_reset_slot` and `pci_try_reset_bus`; 0 when the reset was done. */
    method TryReset(target: Target) returns (ret: int)
      modifies this`resets
      ensures resets == old(resets) + [Attempt(target, ret)]
    {
      ret := *;
      resets := resets + [Attempt(target, ret)];
    }
  }

  /** Whether the PCI core can reset the slot of a device or its bus. */
  datatype Probe = Probe(slotOk: bool, busOk: bool)

  /** The slot to walk with, if any; Err when neither reset is possible. A null slot is never resettable. */
  function Reach(pdev: PciDev, probe: Probe): Result<Option<Slot>, int> {
    if probe.slotOk && pdev.slot.Some? then Ok(pdev.slot)
    else if probe.busOk then Ok(None)
    else Err(-IrqState.ENODEV)
  }

  /** What a reset reached this way acts on. */
  function TargetOf(pdev: PciDev, slot: Option<Slot>): Target {
    if slot.Some? then SlotReset(slot.value) else BusReset(pdev.bus.id)
  }

  /** The devices a reset of the target acts on: what is in and below the slot, or all of the bus. */
  function ActsOn(target: Target, devices: seq<Dev>, bus: BusRef): seq<PciDev> {
    match target
    case SlotReset(slot) => SlotSubtrees(devices, bus, slot)
    case BusReset(_) => Walk(devices, bus)
  }

  /** The slot is on the device's own bus, and the number of that bus does not recur below it. */
  predicate Placed(pdev: PciDev, devices: seq<Dev>) {
    && (pdev.slot.Some? ==> pdev.slot.value.bus == pdev.bus.id)
    && pdev.bus.id !in BusesBelow(devices)
  }

  /** A resettable slot is preferred to the bus, and the reset acts on exactly the devices checked for it. */
  lemma TargetMatches(pdev: PciDev, probe: Probe, devices: seq<Dev>)
    requires Reach(pdev, probe).Ok? && Placed(pdev, devices)
    ensures var target := TargetOf(pdev, Reach(pdev, probe).value);
            && ActsOn(target, devices, pdev.bus) == AffectedBy(pdev, probe, devices)
            && (if probe.slotOk && pdev.slot.Some? then target == SlotReset(pdev.slot.value)
                else probe.busOk && target == BusReset(pdev.bus.id))
  {
    if probe.slotOk && pdev.slot.Some? {
      AffectedIsSlotSubtrees(devices, pdev.bus, pdev.slot.value);
    } else {
      AffectedIsWholeBus(Walk(devices, pdev.bus));
    }
  }

  /** No reset is reached exactly when neither the slot nor the bus can be reset. */
  lemma NoReach(pdev: PciDev, probe: Probe)
    ensures Reach(pdev, probe).Err? <==> !(probe.slotOk && pdev.slot.Some?) && !probe.busOk
    ensures Reach(pdev, probe).Err? ==> Reach(pdev, probe).error == -IrqState.ENODEV
  {
  }

  /** The devices a reset of this device would affect, given the devices of its bus. */
  function AffectedBy(pdev: PciDev, probe: Probe, devices: seq<Dev>): seq<PciDev> {
    var reach := Reach(pdev, probe);
    if reach.Ok? then Affected(Walk(devices, pdev.bus), reach.value) else []
  }
}
