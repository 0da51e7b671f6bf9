/** Opening and releasing a device: module references, the enabled device, and the end of its interrupts. */
module Lifetime {
  import opened Wrappers
  import opened IrqState
  import opened IrqControl
  import opened PciBus
  import opened VfioDevice
  import opened BusReset

  /** A device as opening and releasing see it. */
  datatype DevState = DevState(refcnt: nat, enabled: bool, irq: State)

  /** Enabled exactly while open, and closed without interrupts. */
  predicate Sound(s: DevState) {
    && Shaped(s.irq.mode, s.irq.ctx)
    && (s.enabled <==> s.refcnt > 0)
    && (s.refcnt == 0 ==> s.irq.mode == NoIrq)
  }

  /** An open takes one module reference and one count, or nothing; only the first one enables the device. */
  predicate OpenRel(s: DevState, m: nat, ret: int, t: DevState, n: nat) {
    if ret != 0 then n == m && t == s.(irq := s.irq.(disIntx := t.irq.disIntx))
    else
      && n == m + 1 && t.refcnt == s.refcnt + 1
      && (if s.refcnt > 0 then t.enabled == s.enabled && t.irq == s.irq
          else t.enabled && t.irq == s.irq.(disIntx := t.irq.disIntx))
  }

  /** A release drops one of each; the last one disables the device and turns its interrupts off. */
  predicate ReleaseRel(s: DevState, m: nat, t: DevState, n: nat) {
    && m == n + 1 && s.refcnt == t.refcnt + 1
    && (if t.refcnt > 0 then t.enabled == s.enabled && t.irq == s.irq
        else !t.enabled && t.irq == s.irq.(mode := NoIrq, ctx := [], virqDisabled := false, disIntx := t.irq.disIntx))
  }

  // ---------------------------------------------------------------- the driver

  ghost function ViewOf(d: VfioPciDevice): DevState
    requires d.irq.numCtx <= d.irq.ctx.Length
    reads d, d.irq, d.irq.ctx, d.irq.kernel
  {
    DevState(d.refcnt, d.enabled, d.irq.View())
  }

  ghost predicate DeviceValid(d: VfioPciDevice)
    reads d, d.irq, d.irq.ctx, d.irq.kernel
  {
    d.irq.Valid() && Sound(ViewOf(d))
  }

  /** The call that turns off whatever interrupts are on. */
  function OffCall(mode: Mode): Call {
    Call(Flags(true, false, false, false, false, true), IndexOf(mode), 0, 0, Data([], None))
  }

  /** That call leaves no interrupts and nothing else changed. */
  lemma OffCallTurnsOff(s: State, pcie: bool, ret: int, t: State)
    requires Shaped(s.mode, s.ctx) && IoctlRel(s, OffCall(s.mode), pcie, map[], ret, t)
    ensures TurnsOff(s, t)
  {
  }

  /** What a disable or an open needs to know of the bus around the device. */
  datatype Surroundings = Surroundings(pdev: PciDev, probe: Probe, counted: seq<Dev>, later: seq<Dev>, memory: bool,
                                       binding: Binding)

  /** Between the two logs the function of the device was reset. */
  predicate FunctionReset(before: seq<int>, after: seq<int>) {
    |after| > |before| && after[|before|] == 0
  }

  function Neighbours(w: Surroundings): set<VfioPciDevice> {
    Records(AffectedBy(w.pdev, w.probe, w.later), w.binding)
  }

  class Driver {
    const nointxmask: bool
    /** Module references that open took. */
    var moduleRefs: nat

    constructor (nointxmask: bool)
      ensures moduleRefs == 0
    {
      this.nointxmask := nointxmask;
      moduleRefs := 0;
    }

    /** The part of enabling that looks at INTx; on a PCI 2.3 device DisINTx ends clear. */
    method EnableIntxSupport(d: VfioPciDevice)
      requires d.irq.Valid()
      modifies d.irq`pci23, d.irq`nointx, d.irq.kernel`disIntx
      ensures d.irq.Valid() && d.irq.View() == old(d.irq.View()).(disIntx := d.irq.kernel.disIntx)
      ensures d.irq.pci23 ==> !d.irq.kernel.disIntx
      ensures d.irq.nointx == (old(d.irq.nointx) || (!nointxmask && d.brokenIntx))
      ensures d.irq.pci23 == if nointxmask || d.brokenIntx then old(d.irq.pci23) else d.masksIntx
      ensures !nointxmask && d.brokenIntx && !d.irq.pci23 ==> d.irq.kernel.disIntx
    {
      hide Accounted, Shaped, RefOf;
      if !nointxmask {
        if d.brokenIntx {
          d.irq.nointx := true;
          d.irq.kernel.PciIntx(false);
        } else {
          d.irq.pci23 := d.masksIntx;
        }
      }
      if d.irq.pci23 {
        d.irq.kernel.PciIntx(true);
      }
    }

    /** `vfio_pci_enable`; a failure after `pci_enable_device` disables the device again. */
    method Enable(d: VfioPciDevice) returns (ret: int)
      requires d.irq.Valid() && !d.enabled
      modifies d`enabled, d`enableAnswers, d`resetAnswers, d`configAnswers
      modifies d`resetWorks, d.irq`pci23, d.irq`nointx, d.irq.kernel`disIntx
      ensures d.irq.Valid() && d.irq.View() == old(d.irq.View()).(disIntx := d.irq.kernel.disIntx)
      ensures d.enabled <==> ret == 0
      ensures exists a :: && d.enableAnswers == old(d.enableAnswers) + [a]
                          && (a != 0 ==> ret == a && d.configAnswers == old(d.configAnswers))
                          && (a == 0 ==> d.configAnswers == old(d.configAnswers) + [ret])
      ensures ret == 0 ==> exists a :: d.resetAnswers == old(d.resetAnswers) + [a] && (d.resetWorks <==> a == 0)
      ensures ret == 0 && !nointxmask && !d.brokenIntx ==> d.irq.pci23 == d.masksIntx
      ensures ret == 0 && d.irq.pci23 ==> !d.irq.kernel.disIntx
    {
      hide Accounted, Shaped, RefOf;
      ret := d.PciEnable();
      if ret != 0 {
        return;
      }
      var reset := d.ResetFunction();
      d.resetWorks := reset == 0;
      EnableIntxSupport(d);
      ret := d.ConfigInit();
      if ret != 0 {
        d.enabled := false;
      }
    }

    /** The interrupts of `vfio_pci_disable`. */
    method EndInterrupts(d: VfioPciDevice)
      requires d.irq.Valid()
      modifies d.irq, d.irq.ctx, d.irq.kernel
      ensures d.irq.Valid()
      ensures d.irq.View() == old(d.irq.View()).(mode := NoIrq, ctx := [], virqDisabled := false,
                                                 disIntx := d.irq.kernel.disIntx)
      ensures d.irq.kernel.held == NOTHING_HELD
    {
      hide Accounted, IoctlRel, Shaped, RefOf;
      ghost var s := d.irq.View();
      var ret := d.irq.SetIrqsIoctl(OffCall(d.irq.irqType), map[]);
      OffCallTurnsOff(s, d.irq.pcie, ret, d.irq.View());
      d.irq.virqDisabled := false;
      NoneHoldsNothing(d.irq.irqType, d.irq.Ctxs());
    }

    /** The reset of `vfio_pci_disable`: tried exactly if resets work, and needed still unless it answers 0. */
    method ResetFunction(d: VfioPciDevice)
      modifies d`needsReset, d`functionResets, d.irq.kernel`disIntx
      ensures !d.resetWorks ==> d.functionResets == old(d.functionResets) && d.needsReset
      ensures d.resetWorks ==>
                exists ret :: d.functionResets == old(d.functionResets) + [ret] && (d.needsReset <==> ret != 0)
    {
      d.needsReset := true;
      var stateLost := *;
      if stateLost && !d.resetWorks {
        return;
      }
      d.irq.kernel.PciIntx(false);
      if d.resetWorks {
        var ret := d.TryResetFunction();
        if ret == 0 {
          d.needsReset := false;
        }
      }
      var restored: bool := *;
      d.irq.kernel.PciIntx(restored);
    }

    /** `vfio_pci_disable`. A bus reset follows only if no device it affects is in use. */
    method Disable(d: VfioPciDevice, w: Surroundings, core: Core)
      requires d.irq.Valid() && d.enabled && d.refcnt == 0
      modifies d`needsReset, d`functionResets, d`enabled, d.irq, d.irq.ctx, d.irq.kernel
      modifies Neighbours(w)`needsReset, core`deviceRefs, core`resets
      ensures d.irq.Valid() && !d.enabled
      ensures d.irq.View() == old(d.irq.View()).(mode := NoIrq, ctx := [], virqDisabled := false,
                                                 disIntx := d.irq.kernel.disIntx)
      ensures d.irq.kernel.held == NOTHING_HELD
      ensures core.deviceRefs == old(core.deviceRefs)
      ensures core.resets != old(core.resets) ==>
                Idle(Neighbours(w)) && AllBound(AffectedBy(w.pdev, w.probe, w.later), w.binding)
      ensures core.resets != old(core.resets) <==>
                && Reach(w.pdev, w.probe).Ok? && w.memory
                && 0 < |AffectedBy(w.pdev, w.probe, w.counted)|
                && |AffectedBy(w.pdev, w.probe, w.later)| <= |AffectedBy(w.pdev, w.probe, w.counted)|
                && AllBound(AffectedBy(w.pdev, w.probe, w.later), w.binding)
                && Idle(Neighbours(w))
                && ((exists e | e in Neighbours(w) && e != d :: old(e.needsReset))
                    || (d in Neighbours(w) && !FunctionReset(old(d.functionResets), d.functionResets)))
      ensures forall e | e in Neighbours(w) && e != d ::
                e.needsReset == (old(e.needsReset) && !ResetDone(old(core.resets), core.resets))
      ensures d.needsReset <==> !FunctionReset(old(d.functionResets), d.functionResets)
                                && !(d in Neighbours(w) && ResetDone(old(core.resets), core.resets))
    {
      hide Accounted, RefOf, Shaped, IoctlRel, AffectedBy, TargetOf, ActsOn, Placed, AllBound;
      EndInterrupts(d);
      ResetFunction(d);
      d.enabled := false;
      TryBusReset(w.pdev, w.probe, w.counted, w.later, w.memory, w.binding, core);
    }

    /** `vfio_pci_open`. */
    method Open(d: VfioPciDevice, moduleAlive: bool) returns (ret: int)
      requires DeviceValid(d)
      modifies this, d`refcnt, d`enabled, d`enableAnswers, d`resetAnswers, d`configAnswers
      modifies d`resetWorks, d.irq`pci23, d.irq`nointx, d.irq.kernel`disIntx
      ensures DeviceValid(d) && OpenRel(old(ViewOf(d)), old(moduleRefs), ret, ViewOf(d), moduleRefs)
      ensures !moduleAlive ==> ret == -ENODEV
      ensures ret == 0 && old(d.refcnt) == 0 && d.irq.pci23 ==> !d.irq.kernel.disIntx
      ensures d.refcnt == old(d.refcnt) + (if ret == 0 then 1 else 0)
      ensures moduleRefs == old(moduleRefs) + (if ret == 0 then 1 else 0)
      ensures d.enabled <==> d.refcnt > 0
      ensures old(d.refcnt) > 0 && moduleAlive ==> ret == 0
      ensures old(d.refcnt) == 0 && moduleAlive ==>
                exists a :: && d.enableAnswers == old(d.enableAnswers) + [a]
                            && (a != 0 ==> ret == a)
                            && (a == 0 ==> d.configAnswers == old(d.configAnswers) + [ret])
    {
      hide Accounted;
      if !moduleAlive {
        return -ENODEV;
      }
      moduleRefs := moduleRefs + 1;
      ret := 0;
      if d.refcnt == 0 {
        ret := Enable(d);
      }
      if ret == 0 {
        d.refcnt := d.refcnt + 1;
      } else {
        moduleRefs := moduleRefs - 1;
      }
    }

    /** `vfio_pci_release`, of a device that is open. */
    method Release(d: VfioPciDevice, w: Surroundings, core: Core)
      requires DeviceValid(d) && d.refcnt > 0 && moduleRefs > 0
      modifies this, d`refcnt, d`needsReset, d`functionResets, d`enabled, d.irq, d.irq.ctx, d.irq.kernel
      modifies Neighbours(w)`needsReset, core`deviceRefs, core`resets
      ensures DeviceValid(d) && ReleaseRel(old(ViewOf(d)), old(moduleRefs), ViewOf(d), moduleRefs)
      ensures d.refcnt == 0 ==> d.irq.kernel.held == NOTHING_HELD
      ensures d.refcnt > 0 ==> core.resets == old(core.resets)
      ensures core.deviceRefs == old(core.deviceRefs)
      ensures core.resets != old(core.resets) ==> Idle(Neighbours(w))
      ensures forall e | e in Neighbours(w) && e != d ::
                e.needsReset == (old(e.needsReset) && !ResetDone(old(core.resets), core.resets))
      ensures d.needsReset <==> if d.refcnt > 0 then old(d.needsReset)
                                else !FunctionReset(old(d.functionResets), d.functionResets)
                                     && !(d in Neighbours(w) && ResetDone(old(core.resets), core.resets))
      ensures d.refcnt == old(d.refcnt) - 1 && moduleRefs == old(moduleRefs) - 1
      ensures d.enabled <==> d.refcnt > 0
      ensures d.refcnt == 0 ==> d.irq.irqType == NoIrq && d.irq.numCtx == 0 && !d.irq.virqDisabled
    {
      hide Accounted, RefOf, AffectedBy, AllBound;
      d.refcnt := d.refcnt - 1;
      if d.refcnt == 0 {
        Disable(d, w, core);
      }
      moduleRefs := moduleRefs - 1;
    }
  }

  // ------------------------------------------------------------------- runs

  datatype Fleet = Fleet(moduleRefs: nat, devs: seq<DevState>)

  /** One step at one device; only an open device can be asked for interrupts. */
  datatype Step =
    | Open(dev: nat, ret: int)
    | Release(dev: nat)
    | Ioctl(dev: nat, call: Call, pcie: bool, files: map<int, Eventfd>, ret: int)
    | Touch(dev: nat)

  /** An interrupt or a write to config space moves flags, not triggers. */
  predicate TouchRel(s: State, t: State) {
    && t == s.(ctx := t.ctx, virqDisabled := t.virqDisabled, disIntx := t.disIntx, signals := t.signals)
    && |t.ctx| == |s.ctx| && forall i | 0 <= i < |s.ctx| :: t.ctx[i] == s.ctx[i].(masked := t.ctx[i].masked)
  }

  predicate StepRel(f: Fleet, step: Step, g: Fleet) {
    && step.dev < |f.devs| == |g.devs| && g.devs == f.devs[step.dev := g.devs[step.dev]]
    && var s, t := f.devs[step.dev], g.devs[step.dev];
       match step
       case Open(_, ret) => OpenRel(s, f.moduleRefs, ret, t, g.moduleRefs)
       case Release(_) => s.refcnt > 0 && ReleaseRel(s, f.moduleRefs, t, g.moduleRefs)
       case Ioctl(_, call, pcie, files, ret) =>
         && s.refcnt > 0 && CallFits(call) && g.moduleRefs == f.moduleRefs
         && t == s.(irq := t.irq) && IoctlRel(s.irq, call, pcie, files, ret, t.irq)
       case Touch(_) => s.refcnt > 0 && g.moduleRefs == f.moduleRefs && t == s.(irq := t.irq) && TouchRel(s.irq, t.irq)
  }

  function TotalRefs(devs: seq<DevState>): nat {
    if devs == [] then 0 else TotalRefs(devs[..|devs| - 1]) + devs[|devs| - 1].refcnt
  }

  lemma {:induction false} TotalRefsUpdate(devs: seq<DevState>, i: nat, t: DevState)
    requires i < |devs|
    ensures TotalRefs(devs[i := t]) == TotalRefs(devs) - devs[i].refcnt + t.refcnt
    ensures devs[i].refcnt <= TotalRefs(devs)
  {
    var n := |devs| - 1;
    if i < n {
      TotalRefsUpdate(devs[..n], i, t);
      assert devs[i := t][..n] == devs[..n][i := t];
    } else {
      assert devs[i := t][..n] == devs[..n];
    }
  }

  /** The module references open holds are those of the open devices, and every device is sound. */
  predicate Balanced(f: Fleet) {
    && f.moduleRefs == TotalRefs(f.devs)
    && forall i | 0 <= i < |f.devs| :: Sound(f.devs[i])
  }

  lemma StepSound(f: Fleet, step: Step, g: Fleet)
    requires StepRel(f, step, g) && Sound(f.devs[step.dev])
    ensures Sound(g.devs[step.dev])
    ensures g.moduleRefs - f.moduleRefs == g.devs[step.dev].refcnt - f.devs[step.dev].refcnt
  {
    hide IoctlRel;
    if step.Ioctl? {
      IoctlKeepsShape(f.devs[step.dev].irq, step.call, step.pcie, step.files, step.ret, g.devs[step.dev].irq);
    }
  }

  lemma StepBalances(f: Fleet, step: Step, g: Fleet)
    requires Balanced(f) && StepRel(f, step, g)
    ensures Balanced(g)
  {
    hide IoctlRel, OpenRel, ReleaseRel, TouchRel, Sound;
    StepSound(f, step, g);
    TotalRefsUpdate(f.devs, step.dev, g.devs[step.dev]);
  }

  predicate IsRun(fleets: seq<Fleet>, steps: seq<Step>) {
    |fleets| == |steps| + 1 && forall i | 0 <= i < |steps| :: StepRel(fleets[i], steps[i], fleets[i + 1])
  }

  /** All devices closed and no module reference taken. */
  predicate AllClosed(f: Fleet) {
    f.moduleRefs == 0
    && forall i | 0 <= i < |f.devs| :: Sound(f.devs[i]) && f.devs[i].refcnt == 0
  }

  lemma {:induction false} ClosedHasNoRefs(devs: seq<DevState>)
    requires forall i | 0 <= i < |devs| :: devs[i].refcnt == 0
    ensures TotalRefs(devs) == 0
  {
    if devs != [] {
      ClosedHasNoRefs(devs[..|devs| - 1]);
    }
  }

  /**
   * In every run of opens, releases, ioctls and interrupts over any number of devices: the module references
   * equal the sum of the counts, a device is enabled exactly while open, a closed one holds nothing.
   */
  lemma {:induction false} RunBalances(fleets: seq<Fleet>, steps: seq<Step>)
    requires IsRun(fleets, steps) && AllClosed(fleets[0])
    ensures forall k | 0 <= k < |fleets| :: Balanced(fleets[k])
    decreases |steps|
  {
    if steps == [] {
      ClosedHasNoRefs(fleets[0].devs);
    } else {
      hide Balanced, AllClosed, StepRel;
      var n := |steps| - 1;
      RunBalances(fleets[..n + 1], steps[..n]);
      assert fleets[..n + 1][n] == fleets[n];
      StepBalances(fleets[n], steps[n], fleets[n + 1]);
      assert forall k | 0 <= k <= n :: Balanced(fleets[k]) by {
        assert forall k | 0 <= k <= n :: fleets[..n + 1][k] == fleets[k];
      }
    }
  }

  /** A device that is closed at some point of a run has no interrupts there, and nothing is held for it. */
  lemma ClosedHoldsNothing(fleets: seq<Fleet>, steps: seq<Step>, k: nat, i: nat)
    requires IsRun(fleets, steps) && AllClosed(fleets[0])
    requires k < |fleets| && i < |fleets[k].devs| && fleets[k].devs[i].refcnt == 0
    ensures var irq := fleets[k].devs[i].irq; irq.mode == NoIrq && Accounted(irq.mode, irq.ctx) == NOTHING_HELD
  {
    RunBalances(fleets, steps);
    NoneHoldsNothing(fleets[k].devs[i].irq.mode, fleets[k].devs[i].irq.ctx);
  }

  /** A release always finds a module reference to drop. */
  lemma ReleaseFindsReference(f: Fleet, i: nat)
    requires Balanced(f) && i < |f.devs| && f.devs[i].refcnt > 0
    ensures f.moduleRefs > 0
  {
    TotalRefsUpdate(f.devs, i, f.devs[i]);
  }
}
