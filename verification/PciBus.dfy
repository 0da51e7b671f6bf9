/** A PCI bus as a tree, its walk, and the climb that decides whether a device sits below a slot. */
module PciBus {
  import opened Wrappers

  // -------------------------------------------------------- the tree, downwards

  /** A device on a bus, in a numbered slot or none; a bridge has a bus below it. */
  datatype Dev = Dev(id: nat, slot: Option<nat>, below: Option<Bus>)

  datatype Bus = Bus(id: nat, devices: seq<Dev>)

  // -------------------------------------------------------- the pointers, upwards

  datatype Slot = Slot(bus: nat, number: nat)

  /** A device with its pointers `slot` and `bus`. */
  datatype PciDev = PciDev(id: nat, slot: Option<Slot>, bus: BusRef)

  /** A bus with its pointer `self` to the bridge above it, null on a root bus. */
  datatype BusRef = BusRef(id: nat, self: Option<PciDev>)

  /** A device of the tree on the bus b. */
  function Place(d: Dev, b: BusRef): PciDev {
    PciDev(d.id, if d.slot.Some? then Some(Slot(b.id, d.slot.value)) else None, b)
  }

  /** The order of `pci_walk_bus`: a device, what is below it, then the next device of its bus. */
  function Walk(ds: seq<Dev>, b: BusRef): seq<PciDev>
    decreases ds
  {
    if ds == [] then []
    else Subtree(ds[0], b) + Walk(ds[1..], b)
  }

  function Subtree(d: Dev, b: BusRef): seq<PciDev>
    decreases d
  {
    [Place(d, b)]
    + (if d.below.Some? then Walk(d.below.value.devices, BusRef(d.below.value.id, Some(Place(d, b)))) else [])
  }

  /** The device a path of positions leads to: one position on the bus, then one below each bridge. */
  function DeviceAt(ds: seq<Dev>, b: BusRef, path: seq<nat>): Option<PciDev>
    decreases |path|
  {
    if path == [] || path[0] >= |ds| then None
    else
      var d := ds[path[0]];
      if |path| == 1 then Some(Place(d, b))
      else if d.below.None? then None
      else DeviceAt(d.below.value.devices, BusRef(d.below.value.id, Some(Place(d, b))), path[1..])
  }

  /** The walk is its subtrees, one after the other. */
  lemma {:induction false} SubtreeInWalk(ds: seq<Dev>, b: BusRef, i: nat)
    requires i < |ds|
    ensures forall p | p in Subtree(ds[i], b) :: p in Walk(ds, b)
    decreases |ds|
  {
    if i > 0 {
      SubtreeInWalk(ds[1..], b, i - 1);
    }
  }

  /** Every device on the bus, and behind any number of bridges, is visited. */
  lemma {:induction false} WalkReaches(ds: seq<Dev>, b: BusRef, path: seq<nat>)
    requires DeviceAt(ds, b, path).Some?
    ensures DeviceAt(ds, b, path).value in Walk(ds, b)
    decreases |path|
  {
    var d := ds[path[0]];
    SubtreeInWalk(ds, b, path[0]);
    if |path| > 1 {
      WalkReaches(d.below.value.devices, BusRef(d.below.value.id, Some(Place(d, b))), path[1..]);
    }
  }

  /** And nothing else is. */
  lemma {:induction false} WalkHasPath(ds: seq<Dev>, b: BusRef, p: PciDev) returns (path: seq<nat>)
    requires p in Walk(ds, b)
    ensures DeviceAt(ds, b, path) == Some(p)
    decreases ds
  {
    if p in Subtree(ds[0], b) {
      path := SubtreeHasPath(ds, b, p);
    } else {
      path := WalkHasPath(ds[1..], b, p);
      path := [path[0] + 1] + path[1..];
      assert ds[path[0]] == ds[1..][path[0] - 1];
    }
  }

  lemma {:induction false} SubtreeHasPath(ds: seq<Dev>, b: BusRef, p: PciDev) returns (path: seq<nat>)
    requires ds != [] && p in Subtree(ds[0], b)
    ensures DeviceAt(ds, b, path) == Some(p)
    decreases ds[0]
  {
    var d := ds[0];
    if p == Place(d, b) {
      path := [0];
    } else {
      path := WalkHasPath(d.below.value.devices, BusRef(d.below.value.id, Some(Place(d, b))), p);
      path := [0] + path;
      assert path[1..][..] == path[1..];
    }
  }

  // ------------------------------------------------------------------ the climb

  /** What the climb of `vfio_pci_dev_below_slot` finds. */
  function Climb(p: Option<PciDev>, slot: Slot): bool {
    p.Some? && (if p.value.bus.id == slot.bus then p.value.slot == Some(slot) else Climb(p.value.bus.self, slot))
  }

  /** `vfio_pci_dev_below_slot`. */
  method DevBelowSlot(pdev: PciDev, slot: Slot) returns (below: bool)
    ensures below == Climb(Some(pdev), slot)
  {
    var p := Some(pdev);
    while p.Some?
      invariant Climb(p, slot) == Climb(Some(pdev), slot)
      decreases p
    {
      if p.value.bus.id == slot.bus {
        return p.value.slot == Some(slot);
      }
      p := p.value.bus.self;
    }
    return false;
  }

  /** The numbers of the buses strictly below the given devices. */
  function BusesBelow(ds: seq<Dev>): set<nat>
    decreases ds
  {
    if ds == [] then {} else BusesUnder(ds[0]) + BusesBelow(ds[1..])
  }

  function BusesUnder(d: Dev): set<nat>
    decreases d
  {
    if d.below.Some? then {d.below.value.id} + BusesBelow(d.below.value.devices) else {}
  }

  /** Below another bus than the slot's the climb passes through to the bridge. */
  lemma {:induction false} ClimbPassesThrough(ds: seq<Dev>, b: BusRef, slot: Slot)
    requires b.id != slot.bus && slot.bus !in BusesBelow(ds)
    ensures forall p | p in Walk(ds, b) :: Climb(Some(p), slot) == Climb(b.self, slot)
    decreases ds
  {
    if ds != [] {
      ClimbInSubtree(ds[0], b, slot);
      ClimbPassesThrough(ds[1..], b, slot);
    }
  }

  /** A whole subtree is below the slot exactly when its top is. */
  lemma {:induction false} ClimbInSubtree(d: Dev, b: BusRef, slot: Slot)
    requires slot.bus !in BusesUnder(d)
    ensures forall p | p in Subtree(d, b) :: Climb(Some(p), slot) == Climb(Some(Place(d, b)), slot)
    decreases d
  {
    if d.below.Some? {
      ClimbPassesThrough(d.below.value.devices, BusRef(d.below.value.id, Some(Place(d, b))), slot);
    }
  }

  // ----------------------------------------------------------- affected devices

  /** The test of `vfio_pci_walk_wrapper`; without a slot every device of the bus counts. */
  predicate Passes(p: PciDev, slot: Option<Slot>) {
    slot.Some? ==> Climb(Some(p), slot.value)
  }

  /** The devices of a walk that the wrapper hands to its callback, in order. */
  function Affected(walk: seq<PciDev>, slot: Option<Slot>): seq<PciDev> {
    if walk == [] then []
    else
      var last := walk[|walk| - 1];
      Affected(walk[..|walk| - 1], slot) + (if Passes(last, slot) then [last] else [])
  }

  /** The subtrees of the devices of a bus that sit in a slot. */
  function SlotSubtrees(ds: seq<Dev>, b: BusRef, slot: Slot): seq<PciDev> {
    if ds == [] then []
    else (if Place(ds[0], b).slot == Some(slot) then Subtree(ds[0], b) else []) + SlotSubtrees(ds[1..], b, slot)
  }

  lemma {:induction false} AffectedMembers(walk: seq<PciDev>, slot: Option<Slot>)
    ensures forall p :: p in Affected(walk, slot) <==> p in walk && Passes(p, slot)
  {
    hide Passes;
    if walk != [] {
      AffectedMembers(walk[..|walk| - 1], slot);
      assert walk == walk[..|walk| - 1] + [walk[|walk| - 1]];
    }
  }

  lemma {:induction false} AffectedAppend(a: seq<PciDev>, b: seq<PciDev>, slot: Option<Slot>)
    ensures Affected(a + b, slot) == Affected(a, slot) + Affected(b, slot)
    decreases |b|
  {
    hide Passes;
    if b == [] {
      assert a + b == a;
    } else {
      var n := |b| - 1;
      AffectedAppend(a, b[..n], slot);
      assert (a + b)[..|a + b| - 1] == a + b[..n] && (a + b)[|a + b| - 1] == b[n];
    }
  }

  lemma {:induction false} AffectedAllOrNone(walk: seq<PciDev>, slot: Option<Slot>, all: bool)
    requires forall i | 0 <= i < |walk| :: Passes(walk[i], slot) == all
    ensures Affected(walk, slot) == if all then walk else []
  {
    hide Passes;
    if walk != [] {
      var n := |walk| - 1;
      AffectedAllOrNone(walk[..n], slot, all);
      assert walk == walk[..n] + [walk[n]];
    }
  }

  /** The climb is exactly subtree membership: a slot walk visits the slot's devices with all below them. */
  lemma {:induction false} AffectedIsSlotSubtrees(ds: seq<Dev>, b: BusRef, slot: Slot)
    requires slot.bus == b.id && b.id !in BusesBelow(ds)
    ensures Affected(Walk(ds, b), Some(slot)) == SlotSubtrees(ds, b, slot)
    decreases |ds|
  {
    if ds != [] {
      ClimbInSubtree(ds[0], b, slot);
      AffectedAllOrNone(Subtree(ds[0], b), Some(slot), Place(ds[0], b).slot == Some(slot));
      AffectedIsSlotSubtrees(ds[1..], b, slot);
      AffectedAppend(Subtree(ds[0], b), Walk(ds[1..], b), Some(slot));
    }
  }

  /** Without a slot every device of the walk is affected. */
  lemma AffectedIsWholeBus(walk: seq<PciDev>)
    ensures Affected(walk, None) == walk
  {
    AffectedAllOrNone(walk, None, true);
  }

  lemma {:induction false} TopInWalk(ds: seq<Dev>, b: BusRef, i: nat)
    requires i < |ds|
    ensures Place(ds[i], b) in Walk(ds, b)
    decreases |ds|
  {
    if i > 0 {
      TopInWalk(ds[1..], b, i - 1);
    }
  }

  /** A device of the bus is affected by its own bus reset, and by its own slot reset. */
  lemma OwnResetAffects(ds: seq<Dev>, b: BusRef, i: nat, slot: Option<Slot>)
    requires i < |ds| && slot in {None, Place(ds[i], b).slot}
    ensures Place(ds[i], b) in Affected(Walk(ds, b), slot)
  {
    TopInWalk(ds, b, i);
    AffectedMembers(Walk(ds, b), slot);
  }

  /** One device further along the walk. */
  lemma AffectedStep(walk: seq<PciDev>, slot: Option<Slot>, i: nat)
    requires i < |walk|
    ensures Affected(walk[..i + 1], slot) ==
            Affected(walk[..i], slot) + (if Passes(walk[i], slot) then [walk[i]] else [])
  {
    assert walk[..i + 1][..i] == walk[..i];
  }

  /** The devices handed on so far are a prefix of all of them. */
  lemma {:induction false} AffectedPrefix(walk: seq<PciDev>, slot: Option<Slot>, i: nat)
    requires i <= |walk|
    ensures Affected(walk[..i], slot) <= Affected(walk, slot)
  {
    AffectedAppend(walk[..i], walk[i..], slot);
    assert walk[..i] + walk[i..] == walk;
  }

  /** Nothing has been handed on at the start. */
  lemma AffectedNone(walk: seq<PciDev>, slot: Option<Slot>)
    ensures Affected(walk[..0], slot) == []
  {
  }

  /** Where the next device of the walk stands among the affected ones. */
  lemma AffectedNext(walk: seq<PciDev>, slot: Option<Slot>, i: nat)
    requires i < |walk|
    ensures var n := |Affected(walk[..i], slot)|;
            && |Affected(walk[..i + 1], slot)| == n + (if Passes(walk[i], slot) then 1 else 0)
            && (Passes(walk[i], slot) ==> n < |Affected(walk, slot)| && Affected(walk, slot)[n] == walk[i])
  {
    AffectedStep(walk, slot, i);
    AffectedPrefix(walk, slot, i + 1);
  }

  /** The test of the wrapper, as a call. */
  method WrapperPasses(p: PciDev, slot: Option<Slot>) returns (passes: bool)
    ensures passes == Passes(p, slot)
  {
    if slot.None? {
      return true;
    }
    passes := DevBelowSlot(p, slot.value);
  }

  /** A walk with `vfio_pci_count_devs`. */
  method CountDevs(walk: seq<PciDev>, slot: Option<Slot>) returns (count: nat)
    ensures count == |Affected(walk, slot)|
  {
    count := 0;
    for i := 0 to |walk|
      invariant count == |Affected(walk[..i], slot)|
    {
      AffectedStep(walk, slot, i);
      var passes := WrapperPasses(walk[i], slot);
      if passes {
        count := count + 1;
      }
    }
    assert walk[..|walk|] == walk;
  }
}
