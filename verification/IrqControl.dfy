/** Interrupt control of one VFIO PCI device: INTx, MSI and MSI-X behind one ioctl. */
module IrqControl {
  import opened Wrappers
  import opened IrqState
  import opened IrqKernel
  import IntxLine

  class IrqDevice {
    const kernel: Kernel
    const irqLine: nat
    const pcie: bool
    var pci23: bool
    var nointx: bool
    var virqDisabled: bool
    var irqType: Mode
    var numCtx: nat
    var ctx: array<Ctx>
    var msiQmax: nat
    var errTrigger: Option<Eventfd>
    var reqTrigger: Option<Eventfd>

    /** The context entries in use. */
    function Ctxs(): seq<Ctx>
      requires numCtx <= ctx.Length
      reads this, ctx
    {
      ctx[..numCtx]
    }

    function SingleRefs(): multiset<Eventfd>
      reads this
    {
      RefOf(errTrigger) + RefOf(reqTrigger)
    }

    /** Mode and context agree, and what is held is exactly what they account for. */
    ghost predicate Valid()
      reads this, ctx, kernel`held, kernel`singleRefs
    {
      && numCtx <= ctx.Length && numCtx < 0x8000_0000
      && (irqType != NoIrq ==> numCtx == ctx.Length)
      && Shaped(irqType, Ctxs())
      && kernel.held == Accounted(irqType, Ctxs())
      && kernel.singleRefs == SingleRefs()
    }

    ghost function View(): State
      requires numCtx <= ctx.Length
      reads this, ctx, kernel
    {
      State(irqType, Ctxs(), virqDisabled, kernel.disIntx, kernel.signals, errTrigger, reqTrigger)
    }

    /** The INTx line of the device, between calls. */
    ghost function Line(): IntxLine.Line
      requires irqType == Intx ==> ctx.Length > 0
      reads this, ctx, kernel
    {
      if irqType == Intx then
        IntxLine.Line(IntxLine.On, ctx[0].masked, kernel.disIntx, virqDisabled, ctx[0].trigger.Some?)
      else IntxLine.Line(IntxLine.Off, false, kernel.disIntx, virqDisabled, false)
    }

    constructor (irqLine: nat, pcie: bool)
      ensures Valid() && fresh(kernel) && fresh(ctx)
      ensures irqType == NoIrq && !virqDisabled && errTrigger == reqTrigger == None
    {
      kernel := new Kernel();
      this.irqLine, this.pcie := irqLine, pcie;
      pci23, nointx, virqDisabled := false, false, false;
      irqType, numCtx, msiQmax := NoIrq, 0, 0;
      ctx := new Ctx[0];
      errTrigger, reqTrigger := None, None;
      new;
      EmptyAccounts(NoIrq, Ctxs());
    }

    // ----------------------------------------------------------------- INTx

    /** `vfio_send_intx_eventfd`. */
    method SendIntx()
      requires Valid()
      modifies kernel`signals
      ensures Valid()
      ensures kernel.signals == old(kernel.signals)
                + (if irqType == Intx && !virqDisabled then [ctx[0].trigger] else [])
    {
      if irqType == Intx && !virqDisabled {
        kernel.Signal(ctx[0].trigger);
      }
    }

    /** The masked flag of entry 0. */
    method SetMasked(masked: bool)
      requires Valid() && irqType == Intx
      modifies ctx
      ensures Valid()
      ensures ctx[0] == old(ctx[0]).(masked := masked)
    {
      hide Triggers, Handlers, Virqfds;
      FlagAccounts(irqType, Ctxs(), 0, masked);
      ghost var before := Ctxs();
      ctx[0] := ctx[0].(masked := masked);
      assert Ctxs() == before[0 := before[0].(masked := masked)];
    }

    /** Physical masking of a device that supports it. */
    method HardwareMask()
      modifies kernel`disIntx
      ensures kernel.disIntx == (pci23 || old(kernel.disIntx))
    {
      if pci23 {
        kernel.PciIntx(false);
      }
    }

    /** `vfio_pci_intx_mask`, one lock section. */
    method IntxMask()
      requires Valid()
      modifies ctx, kernel`disIntx
      ensures Valid()
      ensures pci23 ==> Line() == IntxLine.MaskStep(old(Line()))
      ensures irqType == Intx ==> Masks(old(View()), View())
      ensures irqType != Intx ==> ctx[..] == old(ctx[..])
      ensures irqType == Intx ==> ctx[0] == old(ctx[0]).(masked := true)
      ensures pci23 && (irqType != Intx || !old(ctx[0].masked)) ==> kernel.disIntx
    {
      hide Triggers, Handlers, Virqfds;
      if irqType == Intx && ctx[0].masked {
        return;
      }
      HardwareMask();
      if irqType == Intx {
        SetMasked(true);
      }
    }

    /** Physical unmasking of a masked INTx line; 1 when a pending interrupt forbids it. */
    method HardwareUnmask() returns (ret: int)
      modifies kernel`disIntx, kernel`pendingAtUnmask
      ensures ret in {0, 1} && kernel.disIntx == (old(kernel.disIntx) && (ret == 1 || !pci23))
      ensures kernel.pendingAtUnmask == old(kernel.pendingAtUnmask) + (if pci23 then [ret == 1] else [])
      ensures !pci23 ==> ret == 0
    {
      ret := 0;
      if pci23 {
        var unmasked := kernel.CheckAndUnmask();
        ret := if unmasked then 0 else 1;
      }
    }

    /** `vfio_pci_intx_unmask_handler`, one lock section; the answer of the hardware check is on record. */
    method IntxUnmaskHandler() returns (ret: int)
      requires Valid()
      modifies ctx, kernel`disIntx, kernel`pendingAtUnmask
      ensures Valid()
      ensures pci23 && (irqType == Intx && ctx[0].masked ==> old(kernel.disIntx)) ==>
                Line() == IntxLine.UnmaskStep(old(Line()), ret > 0)
      ensures ret > 0 ==> pci23 && IntxLine.UnmaskResends(old(Line()), true)
      ensures var asked := pci23 && irqType == Intx && old(ctx[0].masked) && !virqDisabled;
              kernel.pendingAtUnmask == old(kernel.pendingAtUnmask) + (if asked then [ret > 0] else [])
      ensures irqType == Intx ==>
                var asked := pci23 && old(ctx[0].masked) && !virqDisabled;
                kernel.disIntx == (old(kernel.disIntx) && (!asked || ret > 0))
      ensures irqType == Intx ==> ctx[0] == old(ctx[0]).(masked := old(ctx[0].masked) && (virqDisabled || ret > 0))
      ensures irqType != Intx ==> ctx[..] == old(ctx[..]) && kernel.disIntx == (old(kernel.disIntx) && !pci23)
    {
      hide Triggers, Handlers, Virqfds;
      ret := 0;
      if irqType != Intx {
        if pci23 {
          kernel.PciIntx(true);
        }
      } else if ctx[0].masked && !virqDisabled {
        ret := HardwareUnmask();
        SetMasked(ret > 0);
      }
    }

    /** `vfio_pci_intx_unmask`: the section, then the signal it may ask for. */
    method IntxUnmask()
      requires Valid()
      modifies ctx, kernel`disIntx, kernel`pendingAtUnmask, kernel`signals
      ensures Valid()
      ensures irqType != Intx ==> ctx[..] == old(ctx[..]) && kernel.signals == old(kernel.signals)
      ensures irqType == Intx ==> Unmasks(old(View()), View())
      ensures pci23 && IntxLine.Follows(old(Line())) ==> IntxLine.Follows(Line())
      ensures irqType == Intx && old(ctx[0].masked) && !virqDisabled && pci23 ==>
                exists p :: && kernel.pendingAtUnmask == old(kernel.pendingAtUnmask) + [p]
                            && ctx[0] == old(ctx[0]).(masked := p) && kernel.disIntx == (old(kernel.disIntx) && p)
                            && kernel.signals == old(kernel.signals) + (if p then [ctx[0].trigger] else [])
      ensures irqType == Intx && old(ctx[0].masked) && !virqDisabled && !pci23 ==>
                ctx[0] == old(ctx[0]).(masked := false) && kernel.signals == old(kernel.signals)
      ensures irqType == Intx && (!old(ctx[0].masked) || virqDisabled) ==>
                ctx[0] == old(ctx[0]) && kernel.signals == old(kernel.signals) && kernel.disIntx == old(kernel.disIntx)
    {
      hide Accounted, RefOf;
      var ret := IntxUnmaskHandler();
      if ret > 0 {
        SendIntx();
      }
    }

    /** Whether to handle an interrupt: always without DisINTx, else if unmasked and the device asserts it. */
    method InterruptIsOurs() returns (ours: bool)
      requires ctx.Length > 0
      modifies kernel`disIntx, kernel`pendingAtMask
      ensures kernel.pendingAtMask == old(kernel.pendingAtMask) + (if pci23 && !ctx[0].masked then [ours] else [])
      ensures ours ==> !pci23 || !ctx[0].masked
      ensures !pci23 ==> ours && kernel.disIntx == old(kernel.disIntx)
      ensures pci23 ==> kernel.disIntx == (old(kernel.disIntx) || ours)
    {
      ours := !pci23;
      if pci23 && !ctx[0].masked {
        ours := kernel.CheckAndMask();
      }
    }

    /** The lock section of the interrupt handler. Registered handlers run in INTx mode only. */
    method IntxHandlerSection() returns (handled: bool)
      requires Valid() && irqType == Intx
      modifies ctx, kernel`disIntx, kernel`pendingAtMask
      ensures Valid()
      ensures pci23 ==> Line() == IntxLine.HandlerStep(old(Line()), handled)
      ensures pci23 && handled ==> IntxLine.HandlerHandles(old(Line()), true)
      ensures kernel.pendingAtMask ==
              old(kernel.pendingAtMask) + (if pci23 && !old(ctx[0].masked) then [handled] else [])
      ensures handled && pci23 ==> !old(ctx[0].masked)
      ensures !pci23 ==> handled
      ensures kernel.disIntx == (old(kernel.disIntx) || (handled && pci23))
      ensures ctx[0] == old(ctx[0]).(masked := old(ctx[0].masked) || handled)
    {
      hide Triggers, Handlers, Virqfds;
      handled := InterruptIsOurs();
      if handled {
        SetMasked(true);
      }
    }

    /** `vfio_intx_handler`: the lock section, then the signal. */
    method IntxHandler() returns (handled: bool)
      requires Valid() && irqType == Intx && ctx[0].trigger.Some?
      modifies ctx, kernel`disIntx, kernel`pendingAtMask, kernel`signals
      ensures Valid()
      ensures pci23 ==> Line() == IntxLine.HandlerStep(old(Line()), handled)
      ensures pci23 && handled ==> IntxLine.HandlerHandles(old(Line()), true)
      ensures kernel.pendingAtMask ==
              old(kernel.pendingAtMask) + (if pci23 && !old(ctx[0].masked) then [handled] else [])
      ensures handled && pci23 ==> !old(ctx[0].masked)
      ensures !pci23 ==> handled
      ensures kernel.disIntx == (old(kernel.disIntx) || (handled && pci23))
      ensures ctx[0] == old(ctx[0]).(masked := old(ctx[0].masked) || handled)
      ensures kernel.signals == old(kernel.signals) + (if handled && !virqDisabled then [ctx[0].trigger] else [])
    {
      hide Accounted, RefOf;
      handled := IntxHandlerSection();
      if handled {
        SendIntx();
      }
    }

    // ------------------------------------------------------- trigger of a vector

    /** Give back what a trigger holds: handler, name and reference. */
    method GiveBack(v: nat, cookie: Cookie, e: Eventfd)
      requires v in kernel.held.handlers && kernel.held.handlers[v] == cookie
      requires kernel.held.names > 0 && e in kernel.held.refs
      modifies kernel`held
      ensures kernel.held == WithoutTrigger(old(kernel.held), v, e)
    {
      kernel.FreeIrq(v, cookie);
      kernel.FreeName();
      kernel.EventfdPut(e);
    }

    /** Take name, reference and handler for a vector; each failure gives back what was taken before it. */
    method Acquire(v: nat, fd: int, files: map<int, Eventfd>) returns (ret: int)
      requires v !in kernel.held.handlers
      modifies kernel`held, kernel`refusals, kernel`refused
      ensures ret == 0 ==> fd in files
      ensures ret == 0 ==> kernel.held == WithTrigger(old(kernel.held), irqType, v, files[fd])
      ensures ret != 0 ==> kernel.held == old(kernel.held)
      ensures kernel.refused == if ret == 0 then old(kernel.refused) else old(kernel.refused) + [v]
      ensures kernel.refusals == old(kernel.refusals) + (if ret == 0 then 0 else 1)
    {
      ghost var h := kernel.held;
      var named := kernel.AllocName(v);
      if !named {
        return -ENOMEM;
      }
      var trigger := kernel.EventfdGet(v, fd, files);
      if trigger.None? {
        kernel.FreeName();
        return -EBADF;
      }
      ret := kernel.RequestIrq(v, CookieOf(irqType, trigger.value));
      if ret != 0 {
        kernel.FreeName();
        kernel.EventfdPut(trigger.value);
        assert h.refs + multiset{trigger.value} - multiset{trigger.value} == h.refs;
      }
    }

    /** The entries before and after differ only in the trigger of v. */
    static predicate TriggerSet(c: seq<Ctx>, v: nat, trigger: Option<Eventfd>, d: seq<Ctx>) {
      v < |c| && d == c[v := c[v].(trigger := trigger)]
    }

    /** Write the trigger field of one entry. */
    method StoreTrigger(v: nat, trigger: Option<Eventfd>)
      requires v < numCtx <= ctx.Length
      modifies ctx
      ensures Ctxs() == old(Ctxs())[v := old(Ctxs())[v].(trigger := trigger)]
    {
      ctx[v] := ctx[v].(trigger := trigger);
    }

    /** Drop the trigger of a vector. */
    method DropTrigger(v: nat)
      requires Valid() && v < numCtx && irqType != NoIrq && ctx[v].trigger.Some?
      modifies ctx, kernel`held
      ensures Valid() && TriggerSet(old(Ctxs()), v, None, Ctxs())
    {
      hide Accounted, Shaped, RefOf;
      ShapedAnyTrigger(irqType, Ctxs(), v, None);
      var e := ctx[v].trigger.value;
      DetachAccounts(irqType, Ctxs(), v);
      GiveBack(v, CookieOf(irqType, e), e);
      StoreTrigger(v, None);
    }

    /** Drop the trigger of a vector, if it has one. */
    method ReleaseTrigger(v: nat)
      requires Valid() && v < numCtx && irqType != NoIrq
      modifies ctx, kernel`held
      ensures Valid() && TriggerSet(old(Ctxs()), v, None, Ctxs())
    {
      hide Triggers, Handlers, Virqfds;
      if ctx[v].trigger.Some? {
        DropTrigger(v);
      } else {
        assert Ctxs() == Ctxs()[v := Ctxs()[v].(trigger := None)];
      }
    }

    /** Give a trigger to a vector without one. */
    method AttachTrigger(v: nat, fd: int, files: map<int, Eventfd>) returns (ret: int)
      requires Valid() && v < numCtx && irqType != NoIrq && ctx[v].trigger == None
      modifies ctx, kernel`held, kernel`refusals, kernel`refused
      ensures Valid()
      ensures ret == 0 ==> fd in files && TriggerSet(old(Ctxs()), v, Some(files[fd]), Ctxs())
      ensures ret != 0 ==> Ctxs() == old(Ctxs())
      ensures kernel.refused == if ret == 0 then old(kernel.refused) else old(kernel.refused) + [v]
      ensures kernel.refusals == old(kernel.refusals) + (if ret == 0 then 0 else 1)
    {
      hide Triggers, Handlers, Virqfds, Shaped, RefOf;
      NoTriggerNoHandler(irqType, Ctxs(), v);
      ret := Acquire(v, fd, files);
      if ret == 0 {
        ShapedAnyTrigger(irqType, Ctxs(), v, Some(files[fd]));
        AttachAccounts(irqType, Ctxs(), v, files[fd]);
        StoreTrigger(v, Some(files[fd]));
      }
    }

    /** Replace the trigger of a vector: the body `vfio_intx_set_signal` and `vfio_msi_set_vector_signal` share. */
    method SetSignal(v: nat, fd: int, files: map<int, Eventfd>) returns (ret: int)
      requires Valid() && v < numCtx && irqType != NoIrq
      modifies ctx, kernel`held, kernel`refusals, kernel`refused
      ensures Valid()
      ensures SetsVector(old(Ctxs()), v, fd, files, ret, Ctxs())
      ensures fd < 0 ==> ret == 0
      ensures kernel.refused == if ret == 0 then old(kernel.refused) else old(kernel.refused) + [v]
      ensures ret == 0 ==> if fd < 0 then ctx[v].trigger == None
                           else fd in files && ctx[v].trigger == Some(files[fd])
      ensures ret != 0 ==> ctx[v].trigger == None
      ensures kernel.refusals == old(kernel.refusals) + (if ret == 0 then 0 else 1)
    {
      hide Accounted;
      ReleaseTrigger(v);
      if fd < 0 {
        return 0;
      }
      ret := AttachTrigger(v, fd, files);
    }

    // ------------------------------------------------------- INTx on and off

    /** Set up the one context entry of INTx and restore the virtual mask. */
    method StartIntx()
      requires numCtx <= ctx.Length && irqType == NoIrq
      modifies this`ctx, this`numCtx, this`irqType, kernel`held, kernel`disIntx
      ensures irqType == Intx && fresh(ctx) && ctx.Length == numCtx == 1
      ensures Ctxs() == [Ctx(None, virqDisabled, false)]
      ensures kernel.held == old(kernel.held) && (pci23 ==> kernel.disIntx == virqDisabled)
    {
      hide Accounted;
      ctx := new Ctx[1](_ => Ctx(None, false, false));
      numCtx := 1;
      ctx[0] := ctx[0].(masked := virqDisabled);
      if pci23 {
        kernel.PciIntx(!ctx[0].masked);
      }
      irqType := Intx;
    }

    /** `vfio_intx_enable`. */
    method IntxEnable() returns (ret: int)
      requires Valid()
      modifies this`ctx, this`numCtx, this`irqType, kernel`held, kernel`refusals, kernel`arraysRefused, kernel`disIntx
      ensures Valid()
      ensures ret != 0 ==> irqType == old(irqType) && ctx == old(ctx) && numCtx == old(numCtx)
                           && kernel.disIntx == old(kernel.disIntx)
      ensures ret == 0 ==> old(irqType) == NoIrq && irqType == Intx && fresh(ctx)
                           && Ctxs() == [Ctx(None, virqDisabled, false)]
      ensures ret == 0 && pci23 ==>
                Line() == IntxLine.PublishStep(IntxLine.ProgramStep(IntxLine.ChooseStep(old(Line()))))
      ensures ret in {0, -EINVAL, -ENODEV, -ENOMEM}
      ensures ret == -EINVAL <==> old(irqType) != NoIrq
      ensures ret == -ENODEV <==> old(irqType) == NoIrq && irqLine == 0
      ensures kernel.arraysRefused == old(kernel.arraysRefused) + (if ret == -ENOMEM then 1 else 0)
      ensures kernel.refusals == old(kernel.refusals) + (if ret == -ENOMEM then 1 else 0)
    {
      hide Accounted, RefOf;
      if irqType != NoIrq {
        return -EINVAL;
      }
      if irqLine == 0 {
        return -ENODEV;
      }
      NoneHoldsNothing(irqType, Ctxs());
      var ok := kernel.AllocArray(1);
      if !ok {
        return -ENOMEM;
      }
      StartIntx();
      EmptyAccounts(Intx, Ctxs());
      return 0;
    }

    /** Remove the unmask virqfd of entry 0, if one is installed. */
    method RemoveVirqfd()
      requires Valid() && irqType == Intx
      modifies ctx, kernel`held
      ensures Valid() && ctx[0] == old(ctx[0]).(unmask := false)
    {
      hide Triggers, Handlers, Virqfds;
      if ctx[0].unmask {
        ghost var before := Ctxs();
        VirqfdAccounts(irqType, before, 0, false);
        kernel.VirqfdDisable(true);
        ctx[0] := ctx[0].(unmask := false);
        assert Ctxs() == before[0 := before[0].(unmask := false)];
      }
    }

    /** Leave INTx once its entry is empty. */
    method StopIntx()
      requires Valid() && irqType == Intx && ctx[0].trigger == None && !ctx[0].unmask
      modifies this`numCtx, this`irqType, kernel`held
      ensures Valid() && irqType == NoIrq && Ctxs() == []
    {
      hide Triggers, Handlers, Virqfds, RefOf;
      EmptyAccounts(irqType, Ctxs());
      irqType := NoIrq;
      numCtx := 0;
      kernel.FreeArray();
      EmptyAccounts(NoIrq, Ctxs());
    }

    /** `vfio_intx_disable`: everything INTx holds is given back. */
    method IntxDisable()
      requires Valid() && irqType == Intx
      modifies this`numCtx, this`irqType, ctx, kernel`held
      ensures Valid() && irqType == NoIrq && TurnsOff(old(View()), View())
      ensures Line() == IntxLine.DisableStep(IntxLine.UnregisterStep(old(Line())))
    {
      hide Accounted;
      RemoveVirqfd();
      ReleaseTrigger(0);
      assert Ctxs()[0] == ctx[0];
      StopIntx();
    }

    // ------------------------------------------------------- MSI and MSI-X

    /** Take a context array and all the vectors asked for; on failure give back what was taken. */
    method AcquireVectors(nvec: int) returns (ret: int)
      requires kernel.held == NOTHING_HELD
      modifies kernel`held, kernel`refusals, kernel`arraysRefused, kernel`disIntx, kernel`offered
      ensures ret == 0 ==> nvec >= 1 && kernel.held == NOTHING_HELD.(vectors := nvec, arrays := 1)
      ensures ret != 0 ==> kernel.held == NOTHING_HELD
      ensures if kernel.arraysRefused > old(kernel.arraysRefused) then ret == -ENOMEM
              else ret == if kernel.offered == nvec then 0 else kernel.offered
      ensures ret > 0 ==> ret == kernel.offered < nvec
      ensures ret != 0 <==> kernel.refusals > old(kernel.refusals)
      ensures kernel.refusals >= old(kernel.refusals)
    {
      var ok := kernel.AllocArray(nvec);
      if !ok {
        return -ENOMEM;
      }
      ret := kernel.AllocVectors(nvec);
      if ret < nvec {
        if ret > 0 {
          kernel.FreeVectors();
        }
        kernel.FreeArray();
        return;
      }
      return 0;
    }

    /** `vfio_msi_enable`: all the vectors asked for, or none; a positive result is the number available. */
    method MsiEnable(nvec: int, msix: bool) returns (ret: int)
      requires Valid() && nvec < 0x8000_0000
      modifies this`ctx, this`numCtx, this`irqType, this`msiQmax
      modifies kernel`held, kernel`refusals, kernel`arraysRefused, kernel`disIntx, kernel`offered
      ensures Valid() && (ctx == old(ctx) || fresh(ctx))
      ensures ret != 0 ==> irqType == old(irqType) && ctx == old(ctx) && numCtx == old(numCtx)
      ensures ret == 0 ==> old(irqType) == NoIrq && irqType == (if msix then Msix else Msi) && fresh(ctx)
      ensures ret == 0 ==> nvec >= 1 && Ctxs() == EmptyBlock(nvec)
      ensures ret == 0 ==> numCtx == nvec && forall i | 0 <= i < numCtx :: ctx[i] == Ctx(None, false, false)
      ensures ret == 0 && !msix ==> msiQmax == Qmax(nvec)
      ensures ret > 0 ==> ret == kernel.offered < nvec
      ensures ret == if old(irqType) != NoIrq then -EINVAL
                     else if kernel.arraysRefused > old(kernel.arraysRefused) then -ENOMEM
                     else if kernel.offered == nvec then 0 else kernel.offered
      ensures old(irqType) == NoIrq ==> (ret != 0 <==> kernel.refusals > old(kernel.refusals))
      ensures kernel.refusals >= old(kernel.refusals)
    {
      hide Accounted, Shaped, RefOf;
      if irqType != NoIrq {
        return -EINVAL;
      }
      NoneHoldsNothing(irqType, Ctxs());
      ret := AcquireVectors(nvec);
      if ret != 0 {
        return;
      }
      ctx := new Ctx[nvec](_ => Ctx(None, false, false));
      StartMsi(nvec, msix);
      if !msix {
        msiQmax := Qmax(nvec);
      }
      return 0;
    }

    /** Enter MSI or MSI-X with a fresh context array and its vectors. */
    method StartMsi(nvec: nat, msix: bool)
      requires 1 <= nvec < 0x8000_0000 && ctx.Length == nvec
      requires forall i | 0 <= i < nvec :: ctx[i] == Ctx(None, false, false)
      requires kernel.held == NOTHING_HELD.(vectors := nvec, arrays := 1) && kernel.singleRefs == SingleRefs()
      modifies this`numCtx, this`irqType
      ensures Valid() && irqType == (if msix then Msix else Msi)
      ensures Ctxs() == EmptyBlock(nvec)
    {
      hide Triggers, Handlers, Virqfds;
      numCtx := nvec;
      irqType := if msix then Msix else Msi;
      EmptyAccounts(irqType, Ctxs());
    }

    /** `vfio_msi_set_vector_signal`. */
    method MsiSetVectorSignal(vector: int, fd: int, files: map<int, Eventfd>) returns (ret: int)
      requires Valid() && irqType in {Msi, Msix}
      modifies ctx, kernel`held, kernel`refusals, kernel`refused
      ensures Valid()
      ensures if 0 <= vector < numCtx then SetsVector(old(Ctxs()), vector, fd, files, ret, Ctxs())
              else ret == -EINVAL && Ctxs() == old(Ctxs())
      ensures fd < 0 && 0 <= vector < numCtx ==> ret == 0
      ensures kernel.refused == if ret != 0 && 0 <= vector < numCtx then old(kernel.refused) + [vector]
                                else old(kernel.refused)
      ensures kernel.refusals == old(kernel.refusals) + (if ret != 0 && 0 <= vector < numCtx then 1 else 0)
    {
      hide Accounted;
      if vector < 0 || vector >= numCtx {
        return -EINVAL;
      }
      ret := SetSignal(vector, fd, files);
    }

    /** The rollback of a block: every vector from j down to start loses its trigger. */
    method Rollback(start: nat, k: nat, files: map<int, Eventfd>, ghost c: seq<Ctx>)
      requires Valid() && irqType in {Msi, Msix}
      requires BlockFailed(c, start, k - 1, k, Ctxs()) || BlockFailed(c, start, k, k, Ctxs())
      modifies ctx, kernel`held, kernel`refusals, kernel`refused
      ensures Valid() && ClearsUpTo(c, start, k, Ctxs())
      ensures kernel.refused == old(kernel.refused)
      ensures kernel.refusals == old(kernel.refusals)
    {
      hide Accounted;
      var j := k;
      assert BlockFailed(c, start, j, k, Ctxs());
      while j >= start
        invariant Valid()
        invariant BlockFailed(c, start, j, k, Ctxs())
        invariant kernel.refused == old(kernel.refused) && kernel.refusals == old(kernel.refusals)
        decreases j
      {
        ghost var d := Ctxs();
        var ret := MsiSetVectorSignal(j, -1, files);
        RollbackStep(c, start, j, k, files, d, ret, Ctxs());
        j := j - 1;
      }
    }

    /** The forward loop of a block: n vectors tried, all set or the last one failed. */
    method SetVectors(start: nat, count: nat, fds: Option<seq<int>>, files: map<int, Eventfd>)
      returns (ret: int, n: nat)
      requires Valid() && irqType in {Msi, Msix} && start < numCtx
      requires fds.Some? ==> |fds.value| >= count
      modifies ctx, kernel`held, kernel`refusals, kernel`refused
      ensures Valid()
      ensures ret == 0 ==> BlockProgress(old(Ctxs()), start, count, fds, files, Ctxs())
      ensures ret != 0 ==> 0 < n <= count && BlockFailed(old(Ctxs()), start, start + n - 2, start + n - 1, Ctxs())
      ensures fds.None? && start + count <= numCtx ==> ret == 0
      ensures kernel.refused == if ret != 0 && start + n - 1 < numCtx then old(kernel.refused) + [start + n - 1]
                                else old(kernel.refused)
      ensures ret != 0 ==> start + n - 1 <= numCtx
      ensures kernel.refusals == old(kernel.refusals) + (if ret != 0 && start + n - 1 < numCtx then 1 else 0)
    {
      hide Accounted, BlockProgress, BlockFailed, SetsVector;
      ghost var c := Ctxs();
      BlockStart(c, start, fds, files);
      ret, n := 0, 0;
      while n < count && ret == 0
        invariant Valid() && n <= count
        invariant ret == 0 ==> BlockProgress(c, start, n, fds, files, Ctxs())
        invariant ret != 0 ==> n > 0 && BlockFailed(c, start, start + n - 2, start + n - 1, Ctxs())
        invariant fds.None? && start + count <= numCtx ==> ret == 0
        invariant ret == 0 ==> start + n <= numCtx
        invariant ret != 0 ==> start + n - 1 <= numCtx
        invariant kernel.refused == if ret != 0 && start + n - 1 < numCtx then old(kernel.refused) + [start + n - 1]
                                    else old(kernel.refused)
        invariant kernel.refusals == old(kernel.refusals) + (if ret != 0 && start + n - 1 < numCtx then 1 else 0)
        decreases count - n
      {
        ghost var d := Ctxs();
        ret := MsiSetVectorSignal(start + n, FdAt(fds, n), files);
        BlockStep(c, start, n, fds, files, d, ret, Ctxs());
        n := n + 1;
      }
    }

    /** `vfio_msi_set_block`. */
    method MsiSetBlock(start: nat, count: nat, fds: Option<seq<int>>, files: map<int, Eventfd>) returns (ret: int)
      requires Valid() && irqType in {Msi, Msix} && U32(start) && U32(count)
      requires fds.Some? ==> |fds.value| >= count
      modifies ctx, kernel`held, kernel`refusals, kernel`refused
      ensures Valid()
      ensures SetsBlock(old(Ctxs()), start, count, fds, files, ret, Ctxs())
      ensures fds.None? && start < numCtx && start + count <= numCtx ==> ret == 0
      ensures start >= numCtx || Add32(start, count) > numCtx ==> ret == -EINVAL && Ctxs() == old(Ctxs())
      ensures ret == 0 || start >= numCtx || Add32(start, count) > numCtx ==> kernel.refused == old(kernel.refused)
      ensures ret != 0 && start < numCtx && Add32(start, count) <= numCtx ==>
                exists k | start <= k < start + count && k <= numCtx ::
                  && kernel.refused == old(kernel.refused) + (if k < numCtx then [k] else [])
                  && ClearsUpTo(old(Ctxs()), start, k, Ctxs())
      ensures ret == 0 ==> start < numCtx && start + count <= numCtx
      ensures ret == 0 ==> forall v | 0 <= v < numCtx ::
                ctx[v] == (if start <= v < start + count then old(ctx[v]).(trigger := ctx[v].trigger) else old(ctx[v]))
      ensures ret == 0 && fds.None? ==>
                forall v | start <= v < start + count :: ctx[v].trigger == None
      ensures ret == 0 && fds.Some? ==>
                forall i | 0 <= i < count ::
                  if fds.value[i] < 0 then ctx[start + i].trigger == None
                  else fds.value[i] in files && ctx[start + i].trigger == Some(files[fds.value[i]])
      ensures start < numCtx && start + count <= numCtx < 0x1_0000_0000 ==>
                (ret != 0 <==> kernel.refusals > old(kernel.refusals))
      ensures kernel.refusals >= old(kernel.refusals) && (ret == 0 ==> kernel.refusals == old(kernel.refusals))
    {
      hide Accounted, BlockProgress, BlockFailed, ClearsUpTo;
      if start >= numCtx || Add32(start, count) > numCtx {
        return -EINVAL;
      }
      ghost var c := Ctxs();
      var n;
      ret, n := SetVectors(start, count, fds, files);
      if ret == 0 {
        BlockDone(c, start, count, fds, files, Ctxs());
        if fds.Some? {
          forall i | 0 <= i < count
            ensures if fds.value[i] < 0 then Ctxs()[start + i].trigger == None
                    else fds.value[i] in files && Ctxs()[start + i].trigger == Some(files[fds.value[i]])
          {
            BlockTriggers(c, start, fds.value, count, files, Ctxs(), i);
          }
        }
      } else {
        var k := start + n - 1;
        assert k <= |c| by {
          FailedInBounds(c, start, k, Ctxs());
        }
        Rollback(start, k, files, c);
        BlockUndone(c, start, count, k, fds, files, ret, Ctxs());
      }
    }

    /** No virqfd is ever installed on a vector, so removing them changes nothing. */
    method DropVirqfds()
      requires Valid() && irqType in {Msi, Msix}
      modifies kernel`held
      ensures kernel.held == old(kernel.held)
    {
      hide Accounted;
      for i := 0 to numCtx
        invariant kernel.held == old(kernel.held)
      {
        assert !Ctxs()[i].unmask;
        kernel.VirqfdDisable(ctx[i].unmask);
      }
    }

    /** Clear the whole block, as disabling does with a null descriptor array. */
    method ClearAll()
      requires Valid() && irqType in {Msi, Msix}
      modifies ctx, kernel`held, kernel`refusals, kernel`refused
      ensures Valid() && forall i | 0 <= i < numCtx :: ctx[i].trigger == None
      ensures kernel.refusals == old(kernel.refusals)
    {
      hide Accounted;
      ghost var c := Ctxs();
      var ret := MsiSetBlock(0, numCtx, None, map[]);
      assert InRange(0, numCtx, |c|);
      forall i | 0 <= i < numCtx
        ensures ctx[i].trigger == None
      {
        assert Wants(FdAt(None, i - 0), map[], Ctxs()[i].trigger);
      }
    }

    /** `vfio_msi_disable`: triggers, then vectors, then the array. */
    method MsiDisable()
      requires Valid() && irqType in {Msi, Msix}
      modifies this`numCtx, this`irqType, ctx, kernel`held, kernel`refusals, kernel`refused, kernel`disIntx
      ensures Valid() && irqType == NoIrq && TurnsOff(old(View()), View())
      ensures nointx ==> kernel.disIntx
      ensures kernel.refusals == old(kernel.refusals)
    {
      hide Accounted;
      DropVirqfds();
      ClearAll();
      StopMsi();
    }

    /** Free the vectors and the array once no vector has a trigger. */
    method StopMsi()
      requires Valid() && irqType in {Msi, Msix} && forall i | 0 <= i < numCtx :: ctx[i].trigger == None
      modifies this`numCtx, this`irqType, kernel`held, kernel`disIntx
      ensures Valid() && irqType == NoIrq && Ctxs() == [] && (nointx ==> kernel.disIntx)
    {
      hide Accounted, RefOf;
      EmptyAccounts(irqType, Ctxs());
      FreeVectorArray(numCtx);
      irqType := NoIrq;
      numCtx := 0;
      EmptyAccounts(NoIrq, Ctxs());
    }

    /** Give back the vectors and the array, the last things held. */
    method FreeVectorArray(nvec: nat)
      requires nvec > 0 && kernel.held == NOTHING_HELD.(vectors := nvec, arrays := 1)
      modifies kernel`held, kernel`disIntx
      ensures kernel.held == NOTHING_HELD && (nointx ==> kernel.disIntx)
    {
      kernel.FreeVectors();
      if nointx {
        kernel.PciIntx(false);
      }
      kernel.FreeArray();
    }

    // --------------------------------------------------------------- ioctl

    /** `vfio_pci_set_intx_mask`. */
    method SetIntxMask(call: Call) returns (ret: int)
      requires Valid() && CallFits(call)
      modifies ctx, kernel`disIntx
      ensures Valid() && IntxMaskRel(old(View()), call, ret, View())
      ensures pci23 && IntxLine.Follows(old(Line())) ==> IntxLine.Follows(Line())
    {
      hide Accounted;
      if irqType != Intx || call.start != 0 || call.count != 1 {
        return -EINVAL;
      }
      if call.flags.dataNone {
        IntxMask();
      } else if call.flags.dataBool {
        if call.data.bools[0] {
          IntxMask();
        }
      } else if call.flags.dataEventfd {
        return -ENOTTY;
      }
      return 0;
    }

    method InstallVirqfd(fd: int, files: map<int, Eventfd>) returns (ret: int)
      requires Valid() && irqType == Intx
      modifies ctx, kernel`held, kernel`refusals
      ensures Valid() && ctx[0] == old(ctx[0]).(unmask := ret == 0 || old(ctx[0].unmask))
      ensures old(ctx[0].unmask) ==> ret != 0
      ensures kernel.refusals == old(kernel.refusals) + (if ret == 0 then 0 else 1)
    {
      hide Triggers, Handlers, Virqfds;
      ghost var before := Ctxs();
      ret := kernel.VirqfdEnable(ctx[0].unmask, fd, files);
      if ret == 0 {
        VirqfdAccounts(irqType, before, 0, true);
        ctx[0] := ctx[0].(unmask := true);
        assert Ctxs() == before[0 := before[0].(unmask := true)];
      }
    }

    /** Install or remove the unmask virqfd. */
    method SetUnmaskVirqfd(fd: int, files: map<int, Eventfd>) returns (ret: int)
      requires Valid() && irqType == Intx
      modifies ctx, kernel`held, kernel`refusals
      ensures Valid() && SetsUnmaskVirqfd(old(View()), fd, ret, View())
      ensures ctx[0].masked == old(ctx[0].masked)
      ensures kernel.refusals == old(kernel.refusals) + (if ret == 0 then 0 else 1)
    {
      hide Accounted, RefOf;
      if fd >= 0 {
        ret := InstallVirqfd(fd, files);
      } else {
        RemoveVirqfd();
        ret := 0;
      }
    }

    /** `vfio_pci_set_intx_unmask`. */
    method SetIntxUnmask(call: Call, files: map<int, Eventfd>) returns (ret: int)
      requires Valid() && CallFits(call)
      requires call.index == INTX_INDEX && OnlyUnmask(call.flags)
      modifies ctx, kernel`held, kernel`refusals, kernel`disIntx, kernel`pendingAtUnmask, kernel`signals
      ensures Valid() && IntxUnmaskRel(old(View()), call, ret, View())
      ensures pci23 && IntxLine.Follows(old(Line())) ==> IntxLine.Follows(Line())
      ensures call.flags.dataEventfd && !call.flags.dataNone && !call.flags.dataBool
              && call.start == 0 && call.count == 1 && irqType == Intx ==>
                (ret != 0 <==> kernel.refusals > old(kernel.refusals))
    {
      hide Accounted;
      if irqType != Intx || call.start != 0 || call.count != 1 {
        return -EINVAL;
      }
      if call.flags.dataNone {
        IntxUnmask();
      } else if call.flags.dataBool {
        if call.data.bools[0] {
          IntxUnmask();
        }
      } else if call.flags.dataEventfd {
        ret := SetUnmaskVirqfd(call.data.fds.value[0], files);
        return;
      }
      return 0;
    }

    /** Enable INTx and set its signal; a failure of either leaves no interrupts. */
    method EnableWithSignal(fd: int, files: map<int, Eventfd>) returns (ret: int)
      requires Valid() && irqType == NoIrq
      modifies this`ctx, this`numCtx, this`irqType
      modifies kernel`held, kernel`refusals, kernel`arraysRefused, kernel`refused, kernel`disIntx
      ensures Valid() && (ctx == old(ctx) || fresh(ctx))
      ensures ret != 0 ==> irqType == NoIrq && Ctxs() == []
      ensures ret == 0 ==> irqType == Intx && ctx[0].masked == virqDisabled && !ctx[0].unmask
                           && Wants(fd, files, ctx[0].trigger)
      ensures ret == 0 && pci23 ==> kernel.disIntx == virqDisabled
      ensures ret != 0 <==> irqLine == 0 || kernel.refusals > old(kernel.refusals)
    {
      hide Accounted, RefOf;
      ret := IntxEnable();
      if ret != 0 {
        return;
      }
      ret := SetSignal(0, fd, files);
      if ret != 0 {
        IntxDisable();
      }
    }

    /** `vfio_intx_set_signal` in INTx mode. */
    method ResignalIntx(fd: int, files: map<int, Eventfd>) returns (ret: int)
      requires Valid() && irqType == Intx
      modifies ctx, kernel`held, kernel`refusals, kernel`refused
      ensures Valid() && IntxEventfdRel(old(View()), fd, files, ret, View())
      ensures Line() == if ret == 0 && fd >= 0 then IntxLine.RegisterStep(IntxLine.UnregisterStep(old(Line())))
                        else IntxLine.UnregisterStep(old(Line()))
      ensures kernel.refusals == old(kernel.refusals) + (if ret == 0 then 0 else 1)
    {
      hide Accounted;
      ret := SetSignal(0, fd, files);
      assert Ctxs()[0] == ctx[0];
    }

    /** Enabling, as a step of the ioctl. */
    method TurnOnIntx(fd: int, files: map<int, Eventfd>) returns (ret: int)
      requires Valid() && irqType == NoIrq
      modifies this`ctx, this`numCtx, this`irqType
      modifies kernel`held, kernel`refusals, kernel`arraysRefused, kernel`refused, kernel`disIntx
      ensures Valid() && (ctx == old(ctx) || fresh(ctx))
      ensures IntxEventfdRel(old(View()), fd, files, ret, View())
      ensures pci23 ==> IntxLine.Follows(Line())
      ensures ret != 0 <==> irqLine == 0 || kernel.refusals > old(kernel.refusals)
    {
      hide Accounted, RefOf, Wants, IntxEventfdRel;
      ghost var s := View();
      ret := EnableWithSignal(fd, files);
      EnabledIntx(s, fd, files, ret, View());
    }

    /** The descriptor branch of `vfio_pci_set_intx_trigger`. */
    method SetIntxEventfd(fd: int, files: map<int, Eventfd>) returns (ret: int)
      requires Valid() && irqType in {Intx, NoIrq}
      modifies this`ctx, this`numCtx, this`irqType, ctx
      modifies kernel`held, kernel`refusals, kernel`arraysRefused, kernel`refused, kernel`disIntx
      ensures Valid() && (ctx == old(ctx) || fresh(ctx))
      ensures IntxEventfdRel(old(View()), fd, files, ret, View())
      ensures pci23 && IntxLine.Follows(old(Line())) ==> IntxLine.Follows(Line())
      ensures ret != 0 <==> (old(irqType) == NoIrq && irqLine == 0) || kernel.refusals > old(kernel.refusals)
    {
      hide Accounted, IntxEventfdRel;
      if irqType == Intx {
        ret := ResignalIntx(fd, files);
      } else {
        ret := TurnOnIntx(fd, files);
      }
    }

    /** The loopback branch of `vfio_pci_set_intx_trigger`. */
    method LoopbackIntx(asked: bool)
      requires Valid() && irqType == Intx
      modifies kernel`signals
      ensures Valid() && IntxLoopbackRel(old(View()), asked, View())
    {
      hide Accounted;
      if asked {
        SendIntx();
      }
    }

    /** `vfio_pci_set_intx_trigger`. */
    method SetIntxTrigger(call: Call, files: map<int, Eventfd>) returns (ret: int)
      requires Valid() && CallFits(call)
      requires call.index == INTX_INDEX && OnlyTrigger(call.flags)
      modifies this`ctx, this`numCtx, this`irqType, ctx
      modifies kernel`held, kernel`refusals, kernel`arraysRefused, kernel`refused, kernel`disIntx, kernel`signals
      ensures Valid() && (ctx == old(ctx) || fresh(ctx))
      ensures IntxTriggerRel(old(View()), call, files, ret, View())
      ensures pci23 && IntxLine.Follows(old(Line())) ==> IntxLine.Follows(Line())
      ensures call.flags.dataEventfd && !call.flags.dataNone && call.start == 0 && call.count == 1
              && old(irqType) in {NoIrq, Intx} ==>
                (ret != 0 <==> (old(irqType) == NoIrq && irqLine == 0) || kernel.refusals > old(kernel.refusals))
    {
      hide Accounted, IntxEventfdRel, IntxLoopbackRel;
      if irqType == Intx && call.count == 0 && call.flags.dataNone {
        IntxDisable();
        return 0;
      }
      if !(irqType in {Intx, NoIrq}) || call.start != 0 || call.count != 1 {
        return -EINVAL;
      }
      if call.flags.dataEventfd {
        ret := SetIntxEventfd(call.data.fds.value[0], files);
        return;
      }
      if irqType != Intx {
        return -EINVAL;
      }
      LoopbackIntx(call.flags.dataNone || (call.flags.dataBool && call.data.bools[0]));
      return 0;
    }

    /** Enable MSI or MSI-X and set the block; a failure of either leaves no interrupts. */
    method EnableWithBlock(msix: bool, start: nat, count: nat, fds: Option<seq<int>>, files: map<int, Eventfd>)
      returns (ret: int)
      requires Valid() && irqType == NoIrq && U32(start) && U32(count)
      requires fds.Some? ==> |fds.value| >= count
      modifies this`ctx, this`numCtx, this`irqType, this`msiQmax
      modifies kernel`held, kernel`refusals, kernel`arraysRefused, kernel`refused, kernel`disIntx, kernel`offered
      ensures Valid() && (ctx == old(ctx) || fresh(ctx))
      ensures ret != 0 ==> irqType == NoIrq && Ctxs() == []
      ensures ret == 0 ==>
                var n := ToInt32(Add32(start, count));
                && n >= 1 && irqType == (if msix then Msix else Msi)
                && SetsBlock(EmptyBlock(n), start, count, fds, files, 0, Ctxs())
      ensures 0 < count && start + count < 0x8000_0000 ==> (ret != 0 <==> kernel.refusals > old(kernel.refusals))
    {
      hide Accounted, RefOf, SetsBlock, ToInt32, Add32, EmptyBlock;
      NoWrap(start, count);
      ret := MsiEnable(ToInt32(Add32(start, count)), msix);
      if ret != 0 {
        return;
      }
      ret := MsiSetBlock(start, count, fds, files);
      if ret != 0 {
        MsiDisable();
      }
    }

    /** Enabling MSI, as a step of the ioctl. */
    method TurnOnMsi(msix: bool, start: nat, count: nat, fds: Option<seq<int>>, files: map<int, Eventfd>)
      returns (ret: int)
      requires Valid() && irqType == NoIrq && U32(start) && U32(count)
      requires fds.Some? ==> |fds.value| >= count
      modifies this`ctx, this`numCtx, this`irqType, this`msiQmax
      modifies kernel`held, kernel`refusals, kernel`arraysRefused, kernel`refused, kernel`disIntx, kernel`offered
      ensures Valid() && (ctx == old(ctx) || fresh(ctx)) && irqType != Intx
      ensures MsiEventfdRel(old(View()), if msix then Msix else Msi, start, count, fds, files, ret, View())
      ensures 0 < count && start + count < 0x8000_0000 ==> (ret != 0 <==> kernel.refusals > old(kernel.refusals))
    {
      hide Accounted, Shaped, RefOf, EmptyBlock, SetsBlock, MsiEventfdRel;
      ghost var s := View();
      ret := EnableWithBlock(msix, start, count, fds, files);
      EnabledMsi(s, if msix then Msix else Msi, start, count, fds, files, ret, ToInt32(Add32(start, count)), View());
    }

    /** A block in the mode already on, as a step of the ioctl. */
    method ResetBlock(start: nat, count: nat, fds: Option<seq<int>>, files: map<int, Eventfd>) returns (ret: int)
      requires Valid() && irqType in {Msi, Msix} && U32(start) && U32(count)
      requires fds.Some? ==> |fds.value| >= count
      modifies ctx, kernel`held, kernel`refusals, kernel`refused
      ensures Valid() && MsiEventfdRel(old(View()), irqType, start, count, fds, files, ret, View())
      ensures start < numCtx && start + count <= numCtx ==> (ret != 0 <==> kernel.refusals > old(kernel.refusals))
    {
      hide Accounted, SetsBlock;
      ret := MsiSetBlock(start, count, fds, files);
    }

    /** The descriptor branch of `vfio_pci_set_msi_trigger`. */
    method SetMsiEventfds(msix: bool, start: nat, count: nat, fds: Option<seq<int>>, files: map<int, Eventfd>)
      returns (ret: int)
      requires Valid() && irqType in {if msix then Msix else Msi, NoIrq} && U32(start) && U32(count)
      requires fds.Some? ==> |fds.value| >= count
      modifies this`ctx, this`numCtx, this`irqType, this`msiQmax, ctx
      modifies kernel`held, kernel`refusals, kernel`arraysRefused, kernel`refused, kernel`disIntx, kernel`offered
      ensures Valid() && (ctx == old(ctx) || fresh(ctx)) && irqType != Intx
      ensures MsiEventfdRel(old(View()), if msix then Msix else Msi, start, count, fds, files, ret, View())
      ensures 0 < count && start + count < 0x8000_0000 && (old(irqType) == NoIrq || start + count <= old(numCtx)) ==>
                (ret != 0 <==> kernel.refusals > old(kernel.refusals))
    {
      hide Accounted, SetsBlock, MsiEventfdRel;
      if irqType != NoIrq {
        ret := ResetBlock(start, count, fds, files);
      } else {
        ret := TurnOnMsi(msix, start, count, fds, files);
      }
    }

    /** The loopback loop of `vfio_pci_set_msi_trigger`. */
    method LoopbackMsi(start: nat, end: nat, f: Flags, bools: seq<bool>)
      requires Valid() && end <= numCtx && (f.dataBool && start < end ==> |bools| >= end - start)
      modifies kernel`signals
      ensures Valid() && MsiLoopbackRel(old(View()), start, end, f, bools, View())
    {
      hide Accounted;
      if start >= end || !(f.dataNone || f.dataBool) {
        return;
      }
      var chosen := if f.dataNone then None else Some(bools);
      ghost var c, log := Ctxs(), kernel.signals;
      assert log + [] == log;
      for i := start to end
        invariant kernel.signals == log + Loopback(c, start, i, chosen)
      {
        if ctx[i].trigger.Some? && (f.dataNone || bools[i - start]) {
          kernel.Signal(ctx[i].trigger);
        }
        ghost var sent := if c[i].trigger.Some? && (chosen.None? || bools[i - start]) then [c[i].trigger] else [];
        assert log + Loopback(c, start, i, chosen) + sent == log + Loopback(c, start, i + 1, chosen);
      }
    }

    /** `vfio_pci_set_msi_trigger`. */
    method SetMsiTrigger(call: Call, files: map<int, Eventfd>) returns (ret: int)
      requires Valid() && CallFits(call) && call.index in {MSI_INDEX, MSIX_INDEX}
      modifies this`ctx, this`numCtx, this`irqType, this`msiQmax, ctx
      modifies kernel`held, kernel`refusals, kernel`arraysRefused, kernel`refused, kernel`disIntx
      modifies kernel`offered, kernel`signals
      ensures Valid() && (ctx == old(ctx) || fresh(ctx))
      ensures MsiTriggerRel(old(View()), call, files, ret, View())
      ensures irqType == Intx ==> Line() == old(Line())
      ensures call.flags.dataEventfd && 0 < call.count && call.start + call.count < 0x8000_0000
              && (old(irqType) == NoIrq
                  || (old(irqType) == (if call.index == MSIX_INDEX then Msix else Msi)
                      && call.start + call.count <= old(numCtx))) ==>
                (ret != 0 <==> kernel.refusals > old(kernel.refusals))
    {
      hide Accounted, Shaped, MsiTriggerRel, MsiEventfdRel, MsiLoopbackRel, TurnsOff;
      ghost var s := View();
      var f := call.flags;
      if irqType == MsiMode(call) && call.count == 0 && f.dataNone {
        MsiDisable();
        MsiOffBranch(s, call, files, View());
        return 0;
      }
      if !(irqType in {MsiMode(call), NoIrq}) {
        MsiInvalidBranch(s, call, files);
        return -EINVAL;
      }
      if f.dataEventfd {
        var fds := if call.count > 0 then call.data.fds else None;
        ret := SetMsiEventfds(MsiMode(call) == Msix, call.start, call.count, fds, files);
        MsiEventfdBranch(s, call, files, ret, View());
        return;
      }
      var end := Add32(call.start, call.count);
      if irqType != MsiMode(call) || end > numCtx {
        MsiInvalidBranch(s, call, files);
        return -EINVAL;
      }
      LoopbackMsi(call.start, end, f, call.data.bools);
      MsiLoopbackBranch(s, call, files, View());
      return 0;
    }

    /** Put the reference of a single trigger, if it has one. */
    method DropSingle(cur: Option<Eventfd>, ghost rest: multiset<Eventfd>)
      requires kernel.singleRefs == RefOf(cur) + rest
      modifies kernel`singleRefs
      ensures kernel.singleRefs == rest
    {
      if cur.Some? {
        kernel.SinglePut(cur.value);
      }
    }

    /** Replace a single trigger by the eventfd of a descriptor; -1 drops it. */
    method ReplaceSingle(cur: Option<Eventfd>, fd: int, files: map<int, Eventfd>, ghost rest: multiset<Eventfd>)
      returns (ret: int, next: Option<Eventfd>)
      requires kernel.singleRefs == RefOf(cur) + rest
      modifies kernel`singleRefs
      ensures if fd == -1 then ret == 0 && next == None
              else if fd < 0 then ret == 0 && next == cur
              else if fd in files then ret == 0 && next == Some(files[fd])
              else ret != 0 && next == cur
      ensures kernel.singleRefs == RefOf(next) + rest
    {
      ret, next := 0, cur;
      if fd == -1 {
        DropSingle(cur, rest);
        next := None;
      } else if fd >= 0 {
        var e := kernel.SingleGet(fd, files);
        if e.None? {
          return -EBADF, cur;
        }
        DropSingle(cur, RefOf(e) + rest);
        next := e;
      }
    }

    /** `vfio_pci_set_ctx_trigger_single` on the error trigger or on the request trigger. */
    method SetSingle(cur: Option<Eventfd>, call: Call, files: map<int, Eventfd>, ghost rest: multiset<Eventfd>)
      returns (ret: int, next: Option<Eventfd>)
      requires CallFits(call) && kernel.singleRefs == RefOf(cur) + rest
      modifies kernel`singleRefs, kernel`signals
      ensures SingleRel(cur, call, files, ret, next)
      ensures kernel.signals == old(kernel.signals) + SingleSignals(cur, call)
      ensures kernel.singleRefs == RefOf(next) + rest
    {
      ret, next := -EINVAL, cur;
      if call.flags.dataNone {
        if cur.Some? {
          if call.count != 0 {
            kernel.Signal(cur);
          } else {
            kernel.SinglePut(cur.value);
            next := None;
          }
          ret := 0;
        }
      } else if call.flags.dataBool {
        if call.count != 0 {
          if call.data.bools[0] && cur.Some? {
            kernel.Signal(cur);
          }
          ret := 0;
        }
      } else if call.flags.dataEventfd && call.count != 0 {
        ret, next := ReplaceSingle(cur, call.data.fds.value[0], files, rest);
      }
    }

    /** `vfio_pci_set_err_trigger`. */
    method SetErrTrigger(call: Call, files: map<int, Eventfd>) returns (ret: int)
      requires Valid() && CallFits(call)
      modifies this`errTrigger, kernel`singleRefs, kernel`signals
      ensures Valid() && ErrTriggerRel(old(View()), call, files, ret, View())
    {
      hide Accounted, Shaped, SingleRel, SingleSignals, RefOf;
      if call.start != 0 || call.count > 1 {
        return -EINVAL;
      }
      var next;
      ret, next := SetSingle(errTrigger, call, files, RefOf(reqTrigger));
      errTrigger := next;
    }

    /** `vfio_pci_set_req_trigger`. */
    method SetReqTrigger(call: Call, files: map<int, Eventfd>) returns (ret: int)
      requires Valid() && CallFits(call)
      modifies this`reqTrigger, kernel`singleRefs, kernel`signals
      ensures Valid() && ReqTriggerRel(old(View()), call, files, ret, View())
    {
      hide Accounted, Shaped, SingleRel, SingleSignals, RefOf;
      if call.start != 0 || call.count > 1 {
        return -EINVAL;
      }
      var next;
      ret, next := SetSingle(reqTrigger, call, files, RefOf(errTrigger));
      reqTrigger := next;
    }

    /** The INTx part of the dispatcher. */
    method SetIntx(call: Call, files: map<int, Eventfd>) returns (ret: int)
      requires Valid() && CallFits(call) && call.index == INTX_INDEX
      modifies this`ctx, this`numCtx, this`irqType, ctx
      modifies kernel`held, kernel`refusals, kernel`arraysRefused, kernel`refused, kernel`disIntx
      modifies kernel`pendingAtUnmask, kernel`signals
      ensures Valid() && (ctx == old(ctx) || fresh(ctx))
      ensures IntxRel(old(View()), call, files, ret, View())
      ensures pci23 && IntxLine.Follows(old(Line())) ==> IntxLine.Follows(Line())
      ensures call.flags == Flags(false, false, true, false, false, true) && call.start == 0 && call.count == 1
              && old(irqType) in {NoIrq, Intx} ==>
                (ret != 0 <==> (old(irqType) == NoIrq && irqLine == 0) || kernel.refusals > old(kernel.refusals))
    {
      hide Accounted, IntxMaskRel, IntxUnmaskRel, IntxTriggerRel;
      if OnlyMask(call.flags) {
        ret := SetIntxMask(call);
      } else if OnlyUnmask(call.flags) {
        ret := SetIntxUnmask(call, files);
      } else if OnlyTrigger(call.flags) {
        ret := SetIntxTrigger(call, files);
      } else {
        ret := -ENOTTY;
      }
    }

    /** The error and request part of the dispatcher; the error trigger needs a PCI Express device. */
    method SetSingles(call: Call, files: map<int, Eventfd>) returns (ret: int)
      requires Valid() && CallFits(call) && call.index !in {INTX_INDEX, MSI_INDEX, MSIX_INDEX}
      modifies this`errTrigger, this`reqTrigger, kernel`singleRefs, kernel`signals
      ensures Valid() && IoctlRel(old(View()), call, pcie, files, ret, View())
    {
      hide Accounted, ErrTriggerRel, ReqTriggerRel;
      if call.index == ERR_INDEX && OnlyTrigger(call.flags) && pcie {
        ret := SetErrTrigger(call, files);
      } else if call.index == REQ_INDEX && OnlyTrigger(call.flags) {
        ret := SetReqTrigger(call, files);
      } else {
        ret := -ENOTTY;
      }
    }

    /** `vfio_pci_set_irqs_ioctl`. Every call keeps holdings and mode in agreement and follows the relation. */
    method SetIrqsIoctl(call: Call, files: map<int, Eventfd>) returns (ret: int)
      requires Valid() && CallFits(call)
      modifies this`ctx, this`numCtx, this`irqType, this`msiQmax, this`errTrigger, this`reqTrigger, ctx, kernel
      ensures Valid() && (ctx == old(ctx) || fresh(ctx))
      ensures IoctlRel(old(View()), call, pcie, files, ret, View())
      ensures pci23 && IntxLine.Follows(old(Line())) ==> IntxLine.Follows(Line())
      ensures call.index == INTX_INDEX && call.flags == Flags(false, false, true, false, false, true)
              && call.start == 0 && call.count == 1 && old(irqType) in {NoIrq, Intx} ==>
                (ret != 0 <==> (old(irqType) == NoIrq && irqLine == 0) || kernel.refusals > old(kernel.refusals))
      ensures call.index in {MSI_INDEX, MSIX_INDEX} && call.flags == Flags(false, false, true, false, false, true)
              && 0 < call.count && call.start + call.count < 0x8000_0000
              && (old(irqType) == NoIrq
                  || (old(irqType) == (if call.index == MSIX_INDEX then Msix else Msi)
                      && call.start + call.count <= old(numCtx))) ==>
                (ret != 0 <==> kernel.refusals > old(kernel.refusals))
    {
      hide Accounted, IntxRel, MsiTriggerRel, ErrTriggerRel, ReqTriggerRel;
      if call.index == INTX_INDEX {
        ret := SetIntx(call, files);
      } else if call.index in {MSI_INDEX, MSIX_INDEX} {
        if OnlyTrigger(call.flags) {
          ret := SetMsiTrigger(call, files);
        } else {
          ret := -ENOTTY;
        }
      } else {
        ret := SetSingles(call, files);
      }
    }
  }
}
