/** Interrupt modes of a device, what each mode holds, and what one ioctl may change. */
module IrqState {
  import opened Wrappers

  /** An eventfd object of the kernel; several descriptors may name one. */
  type Eventfd = nat

  datatype Mode = NoIrq | Intx | Msi | Msix

  /** One entry of the context array; `unmask` says that an unmask virqfd is installed. */
  datatype Ctx = Ctx(trigger: Option<Eventfd>, masked: bool, unmask: bool)

  /** The dev_id a handler was registered with: the device for INTx, the trigger for MSI and MSI-X. */
  datatype Cookie = DeviceCookie | TriggerCookie(trigger: Eventfd)

  const EINVAL: int := 22
  const ENODEV: int := 19
  const ENOMEM: int := 12
  const ENOTTY: int := 25
  const EBADF: int := 9

  /** Unsigned 32-bit addition. */
  function Add32(a: nat, b: nat): (r: nat)
    ensures U32(r)
    ensures U32(a) && U32(b) ==> r == if a + b < 0x1_0000_0000 then a + b else a + b - 0x1_0000_0000
  {
    (a + b) % 0x1_0000_0000
  }

  predicate U32(a: int) {
    0 <= a < 0x1_0000_0000
  }

  // -------------------------------------------------------------- holdings

  /** The reference of a trigger, if there is one. */
  function RefOf(trigger: Option<Eventfd>): multiset<Eventfd> {
    if trigger.Some? then multiset{trigger.value} else multiset{}
  }

  /** The eventfd references the entries account for. */
  function Triggers(ctx: seq<Ctx>): multiset<Eventfd> {
    if ctx == [] then multiset{}
    else Triggers(ctx[..|ctx| - 1]) + TriggerOf(ctx[|ctx| - 1])
  }

  function TriggerOf(c: Ctx): multiset<Eventfd> {
    RefOf(c.trigger)
  }

  function CookieOf(mode: Mode, trigger: Eventfd): Cookie {
    if mode == Intx then DeviceCookie else TriggerCookie(trigger)
  }

  /** The handlers the entries account for, by vector. */
  function Handlers(mode: Mode, ctx: seq<Ctx>): map<nat, Cookie> {
    map v: nat | v < |ctx| && ctx[v].trigger.Some? :: CookieOf(mode, ctx[v].trigger.value)
  }

  function Virqfds(ctx: seq<Ctx>): nat {
    if ctx == [] then 0
    else Virqfds(ctx[..|ctx| - 1]) + (if ctx[|ctx| - 1].unmask then 1 else 0)
  }

  /** Mode and context array agree: no context, one, or one per vector. */
  predicate Shaped(mode: Mode, ctx: seq<Ctx>) {
    match mode
    case NoIrq => ctx == []
    case Intx => |ctx| == 1
    case _ => |ctx| >= 1 && forall i | 0 <= i < |ctx| :: !ctx[i].unmask
  }

  /** Triggers have no part in the shape. */
  lemma ShapedAnyTrigger(mode: Mode, ctx: seq<Ctx>, v: nat, trigger: Option<Eventfd>)
    requires v < |ctx| && Shaped(mode, ctx)
    ensures Shaped(mode, ctx[v := ctx[v].(trigger := trigger)])
  {
  }

  function VectorsOf(mode: Mode, ctx: seq<Ctx>): nat {
    if mode in {Msi, Msix} then |ctx| else 0
  }

  function ArraysOf(mode: Mode): nat {
    if mode == NoIrq then 0 else 1
  }

  /** Replacing a part of one summand. */
  lemma SwapPart(m: multiset<Eventfd>, x: multiset<Eventfd>, y: multiset<Eventfd>, l: multiset<Eventfd>)
    requires x <= m
    ensures x <= m + l && (m - x + y) + l == (m + l) - x + y
  {
  }

  /** Replacing a summand. */
  lemma SwapLast(m: multiset<Eventfd>, x: multiset<Eventfd>, y: multiset<Eventfd>)
    ensures x <= m + x && m + y == (m + x) - x + y
  {
  }

  lemma {:induction false} TriggersUpdate(ctx: seq<Ctx>, v: nat, c: Ctx)
    requires v < |ctx|
    ensures TriggerOf(ctx[v]) <= Triggers(ctx)
    ensures Triggers(ctx[v := c]) == Triggers(ctx) - TriggerOf(ctx[v]) + TriggerOf(c)
  {
    hide TriggerOf;
    var n := |ctx| - 1;
    if v < n {
      TriggersUpdate(ctx[..n], v, c);
      assert ctx[v := c][..n] == ctx[..n][v := c];
      SwapPart(Triggers(ctx[..n]), TriggerOf(ctx[v]), TriggerOf(c), TriggerOf(ctx[n]));
    } else {
      assert ctx[v := c][..n] == ctx[..n];
      SwapLast(Triggers(ctx[..n]), TriggerOf(ctx[n]), TriggerOf(c));
    }
  }

  lemma {:induction false} VirqfdsUpdate(ctx: seq<Ctx>, v: nat, c: Ctx)
    requires v < |ctx|
    ensures Virqfds(ctx[v := c]) + (if ctx[v].unmask then 1 else 0) == Virqfds(ctx) + (if c.unmask then 1 else 0)
  {
    var n := |ctx| - 1;
    if v < n {
      VirqfdsUpdate(ctx[..n], v, c);
      assert ctx[v := c][..n] == ctx[..n][v := c];
    } else {
      assert ctx[v := c][..n] == ctx[..n];
    }
  }

  lemma HandlersUpdate(mode: Mode, ctx: seq<Ctx>, v: nat, c: Ctx)
    requires v < |ctx|
    ensures Handlers(mode, ctx[v := c]) ==
            if c.trigger.Some? then Handlers(mode, ctx)[v := CookieOf(mode, c.trigger.value)]
            else Handlers(mode, ctx) - {v}
  {
  }

  /** Everything held for the context array: references, handlers, names, virqfds, vectors, arrays. */
  datatype Held = Held(refs: multiset<Eventfd>, handlers: map<nat, Cookie>, names: nat,
                       virqfds: nat, vectors: nat, arrays: nat)

  /** What mode and context entries account for. */
  function Accounted(mode: Mode, ctx: seq<Ctx>): Held {
    Held(Triggers(ctx), Handlers(mode, ctx), |Triggers(ctx)|, Virqfds(ctx), VectorsOf(mode, ctx), ArraysOf(mode))
  }

  const NOTHING_HELD := Held(multiset{}, map[], 0, 0, 0, 0)

  /** One reference, one handler and one name more. */
  function WithTrigger(h: Held, mode: Mode, v: nat, e: Eventfd): Held {
    h.(refs := h.refs + multiset{e}, handlers := h.handlers[v := CookieOf(mode, e)], names := h.names + 1)
  }

  /** And less. */
  function WithoutTrigger(h: Held, v: nat, e: Eventfd): Held
    requires h.names > 0
  {
    h.(refs := h.refs - multiset{e}, handlers := h.handlers - {v}, names := h.names - 1)
  }

  /** Giving an entry a trigger accounts for one of each. */
  lemma AttachAccounts(mode: Mode, ctx: seq<Ctx>, v: nat, e: Eventfd)
    requires v < |ctx| && ctx[v].trigger == None
    ensures v !in Accounted(mode, ctx).handlers
    ensures Accounted(mode, ctx[v := ctx[v].(trigger := Some(e))]) == WithTrigger(Accounted(mode, ctx), mode, v, e)
  {
    hide Triggers, Virqfds;
    var c := ctx[v].(trigger := Some(e));
    TriggersUpdate(ctx, v, c);
    VirqfdsUpdate(ctx, v, c);
    HandlersUpdate(mode, ctx, v, c);
  }

  /** A vector without a trigger has no handler. */
  lemma NoTriggerNoHandler(mode: Mode, ctx: seq<Ctx>, v: nat)
    requires v < |ctx| && ctx[v].trigger == None
    ensures v !in Accounted(mode, ctx).handlers
  {
  }

  /** Taking the trigger away undoes that. */
  lemma DetachAccounts(mode: Mode, ctx: seq<Ctx>, v: nat)
    requires v < |ctx| && ctx[v].trigger.Some?
    ensures var h, e := Accounted(mode, ctx), ctx[v].trigger.value;
            && v in h.handlers && h.handlers[v] == CookieOf(mode, e) && e in h.refs && h.names > 0
            && Accounted(mode, ctx[v := ctx[v].(trigger := None)]) == WithoutTrigger(h, v, e)
  {
    hide Triggers, Virqfds;
    var c := ctx[v].(trigger := None);
    TriggersUpdate(ctx, v, c);
    VirqfdsUpdate(ctx, v, c);
    HandlersUpdate(mode, ctx, v, c);
  }

  lemma {:induction false} SameTriggers(c: seq<Ctx>, d: seq<Ctx>)
    requires |c| == |d| && forall i | 0 <= i < |c| :: c[i].trigger == d[i].trigger
    ensures Triggers(c) == Triggers(d)
  {
    if c != [] {
      SameTriggers(c[..|c| - 1], d[..|d| - 1]);
    }
  }

  lemma SameHandlers(mode: Mode, c: seq<Ctx>, d: seq<Ctx>)
    requires |c| == |d| && forall i | 0 <= i < |c| :: c[i].trigger == d[i].trigger
    ensures Handlers(mode, c) == Handlers(mode, d)
  {
  }

  /** The masked flag accounts for nothing. */
  lemma FlagAccounts(mode: Mode, ctx: seq<Ctx>, v: nat, masked: bool)
    requires v < |ctx|
    ensures Accounted(mode, ctx[v := ctx[v].(masked := masked)]) == Accounted(mode, ctx)
  {
    hide Triggers, Handlers, Virqfds;
    var c := ctx[v].(masked := masked);
    SameTriggers(ctx, ctx[v := c]);
    VirqfdsUpdate(ctx, v, c);
    SameHandlers(mode, ctx, ctx[v := c]);
  }

  /** An installed virqfd counts once. */
  lemma VirqfdAccounts(mode: Mode, ctx: seq<Ctx>, v: nat, unmask: bool)
    requires v < |ctx| && ctx[v].unmask != unmask
    ensures ctx[v].unmask ==> Accounted(mode, ctx).virqfds > 0
    ensures Accounted(mode, ctx[v := ctx[v].(unmask := unmask)]) ==
            Accounted(mode, ctx).(virqfds := Accounted(mode, ctx).virqfds + (if unmask then 1 else -1))
  {
    hide Triggers, Handlers, Virqfds;
    var c := ctx[v].(unmask := unmask);
    SameTriggers(ctx, ctx[v := c]);
    VirqfdsUpdate(ctx, v, c);
    SameHandlers(mode, ctx, ctx[v := c]);
  }

  lemma {:induction false} EmptyTriggers(ctx: seq<Ctx>)
    requires forall i | 0 <= i < |ctx| :: ctx[i].trigger.None? && !ctx[i].unmask
    ensures Triggers(ctx) == multiset{} && Virqfds(ctx) == 0
  {
    if ctx != [] {
      EmptyTriggers(ctx[..|ctx| - 1]);
    }
  }

  /** Empty entries account for their vectors and their array only. */
  lemma EmptyAccounts(mode: Mode, ctx: seq<Ctx>)
    requires forall i | 0 <= i < |ctx| :: ctx[i].trigger.None? && !ctx[i].unmask
    ensures Accounted(mode, ctx) == NOTHING_HELD.(vectors := VectorsOf(mode, ctx), arrays := ArraysOf(mode))
  {
    EmptyTriggers(ctx);
    assert Handlers(mode, ctx) == map[];
  }

  /** Without interrupts nothing is held. */
  lemma NoneHoldsNothing(mode: Mode, ctx: seq<Ctx>)
    requires Shaped(mode, ctx) && mode == NoIrq
    ensures Accounted(mode, ctx) == NOTHING_HELD
  {
    EmptyAccounts(mode, ctx);
  }

  /** `fls`: the position of the highest bit, from 1. */
  function Fls(x: nat): nat {
    if x == 0 then 0 else 1 + Fls(x / 2)
  }

  function Pow2(n: nat): nat {
    if n == 0 then 1 else 2 * Pow2(n - 1)
  }

  lemma {:induction false} FlsBounds(x: nat)
    requires x > 0
    ensures Fls(x) > 0 && Pow2(Fls(x) - 1) <= x < Pow2(Fls(x))
  {
    if x > 1 {
      FlsBounds(x / 2);
    }
  }

  /** The virtual queue size field. */
  function Qmax(nvec: nat): nat
    requires nvec >= 1
  {
    FlsBounds(nvec * 2 - 1);
    Fls(nvec * 2 - 1) - 1
  }

  /** The virtual queue size is the least power of two that holds all vectors. */
  lemma QmaxIsLog(nvec: nat)
    requires nvec >= 1
    ensures nvec <= Pow2(Qmax(nvec)) && (Qmax(nvec) > 0 ==> Pow2(Qmax(nvec) - 1) < nvec)
  {
    FlsBounds(nvec * 2 - 1);
  }

  /** The last entry adds its handler, if it has a trigger. */
  lemma HandlersSnoc(mode: Mode, ctx: seq<Ctx>)
    requires ctx != []
    ensures var n := |ctx| - 1;
            |Handlers(mode, ctx)| == |Handlers(mode, ctx[..n])| + (if ctx[n].trigger.Some? then 1 else 0)
  {
    var n := |ctx| - 1;
    var before, after := Handlers(mode, ctx[..n]), Handlers(mode, ctx);
    if ctx[n].trigger.Some? {
      assert after == before[n := CookieOf(mode, ctx[n].trigger.value)];
      assert after.Keys == before.Keys + {n};
      assert |after| == |after.Keys| == |before.Keys| + 1;
    } else {
      assert after == before;
    }
  }

  lemma {:induction false} AsManyHandlers(mode: Mode, ctx: seq<Ctx>)
    ensures |Triggers(ctx)| == |Handlers(mode, ctx)|
    decreases |ctx|
  {
    if ctx == [] {
      assert Handlers(mode, ctx) == map[];
    } else {
      hide Handlers;
      AsManyHandlers(mode, ctx[..|ctx| - 1]);
      HandlersSnoc(mode, ctx);
    }
  }

  /** In each mode the trigger entries, the handlers and the references correspond one to one. */
  lemma HoldingsMeaning(mode: Mode, ctx: seq<Ctx>)
    ensures var h := Accounted(mode, ctx);
            && (forall v: nat | v < |ctx| :: v in h.handlers <==> ctx[v].trigger.Some?)
            && (forall v | v in h.handlers ::
                  && v < |ctx|
                  && h.handlers[v] == if mode == Intx then DeviceCookie else TriggerCookie(ctx[v].trigger.value))
            && |h.refs| == h.names == |h.handlers|
            && h.vectors == (if mode in {Msi, Msix} then |ctx| else 0) && h.arrays == (if mode == NoIrq then 0 else 1)
  {
    AsManyHandlers(mode, ctx);
  }

  // ---------------------------------------------------------------- ioctls

  const INTX_INDEX: nat := 0
  const MSI_INDEX: nat := 1
  const MSIX_INDEX: nat := 2
  const ERR_INDEX: nat := 3
  const REQ_INDEX: nat := 4
  const NUM_IRQS: nat := 5

  /** irq_type as the number the ioctl interface uses. */
  function IndexOf(mode: Mode): nat {
    match mode
    case Intx => INTX_INDEX
    case Msi => MSI_INDEX
    case Msix => MSIX_INDEX
    case NoIrq => NUM_IRQS
  }

  /** The flag bits: three kinds of data, three actions. */
  datatype Flags = Flags(dataNone: bool, dataBool: bool, dataEventfd: bool,
                         actionMask: bool, actionUnmask: bool, actionTrigger: bool)

  /** The payload: booleans or descriptors, one per vector; None is a null pointer. */
  datatype Data = Data(bools: seq<bool>, fds: Option<seq<int>>)

  datatype Call = Call(flags: Flags, index: nat, start: nat, count: nat, data: Data)

  datatype State = State(mode: Mode, ctx: seq<Ctx>, virqDisabled: bool, disIntx: bool, signals: seq<Option<Eventfd>>,
                         err: Option<Eventfd>, req: Option<Eventfd>)

  /** What the ioctl layer has checked: 32-bit numbers and a payload as long as the count. */
  predicate CallFits(call: Call) {
    && U32(call.start) && U32(call.count)
    && (call.flags.dataBool ==> |call.data.bools| >= call.count)
    && (call.flags.dataEventfd && call.count > 0 ==> call.data.fds.Some? && |call.data.fds.value| >= call.count)
  }

  /** An unsigned count read as a signed int. */
  function ToInt32(x: nat): (r: int)
    ensures U32(x) ==> -0x8000_0000 <= r < 0x8000_0000 && (r - x) % 0x1_0000_0000 == 0
  {
    if x < 0x8000_0000 then x else x - 0x1_0000_0000
  }

  /** Requests that stay in 31 bits keep their size. */
  lemma NoWrap(start: nat, count: nat)
    ensures start + count < 0x8000_0000 ==> Add32(start, count) == ToInt32(Add32(start, count)) == start + count
  {
  }

  predicate OnlyMask(f: Flags) {
    f.actionMask && !f.actionUnmask && !f.actionTrigger
  }

  predicate OnlyUnmask(f: Flags) {
    !f.actionMask && f.actionUnmask && !f.actionTrigger
  }

  predicate OnlyTrigger(f: Flags) {
    !f.actionMask && !f.actionUnmask && f.actionTrigger
  }

  /** The entries of a fresh context array. */
  function EmptyBlock(n: nat): seq<Ctx> {
    seq(n, _ => Ctx(None, false, false))
  }

  /** The trigger a descriptor asks for. */
  predicate Wants(fd: int, files: map<int, Eventfd>, trigger: Option<Eventfd>) {
    if fd < 0 then trigger == None else fd in files && trigger == Some(files[fd])
  }

  function FdAt(fds: Option<seq<int>>, i: nat): int
    requires fds.Some? ==> i < |fds.value|
  {
    if fds.Some? then fds.value[i] else -1
  }

  /** Only triggers differ. */
  predicate SameButTriggers(c: seq<Ctx>, d: seq<Ctx>) {
    |c| == |d| && forall i | 0 <= i < |c| :: d[i] == c[i].(trigger := d[i].trigger)
  }

  predicate InRange(start: nat, count: nat, n: nat) {
    start < n && Add32(start, count) <= n
  }

  /** Setting one vector: the wanted trigger, or none on failure. */
  predicate SetsVector(c: seq<Ctx>, v: nat, fd: int, files: map<int, Eventfd>, ret: int, d: seq<Ctx>) {
    && v < |c|
    && SameButTriggers(c, d)
    && (forall i | 0 <= i < |c| && i != v :: d[i] == c[i])
    && (if ret == 0 then Wants(fd, files, d[v].trigger) else d[v].trigger == None)
  }

  /** Setting a block: all of it, or nothing from start up to the vector that failed. */
  predicate SetsBlock(c: seq<Ctx>, start: nat, count: nat, fds: Option<seq<int>>, files: map<int, Eventfd>,
                      ret: int, d: seq<Ctx>)
    requires fds.Some? ==> |fds.value| >= count
  {
    SameButTriggers(c, d) &&
    if !InRange(start, count, |c|) then ret == -EINVAL && d == c
    else if ret == 0 then
      && start + count <= |c|
      && (forall v | start <= v < start + count :: Wants(FdAt(fds, v - start), files, d[v].trigger))
      && (forall v | 0 <= v < |c| && !(start <= v < start + count) :: d[v] == c[v])
    else ClearsUpToFailure(c, start, count, d)
  }

  /** On failure at some vector of the request, everything from start up to it has no trigger. */
  predicate ClearsUpToFailure(c: seq<Ctx>, start: nat, count: nat, d: seq<Ctx>) {
    |d| == |c| && exists k | start <= k < start + count && k <= |c| :: ClearsUpTo(c, start, k, d)
  }

  predicate ClearsUpTo(c: seq<Ctx>, start: nat, k: nat, d: seq<Ctx>) {
    && |d| == |c|
    && (forall v | start <= v <= k && v < |c| :: d[v] == c[v].(trigger := None))
    && (forall v | 0 <= v < |c| && !(start <= v <= k) :: d[v] == c[v])
  }

  // The stages of the block loop: n vectors done, failed at vector k, and rolled back down to j.

  predicate BlockProgress(c: seq<Ctx>, start: nat, n: nat, fds: Option<seq<int>>, files: map<int, Eventfd>, d: seq<Ctx>)
    requires fds.Some? ==> |fds.value| >= n
  {
    && SameButTriggers(c, d) && start + n <= |c|
    && (forall v | start <= v < start + n :: Wants(FdAt(fds, v - start), files, d[v].trigger))
    && (forall v | 0 <= v < |c| && !(start <= v < start + n) :: d[v] == c[v])
  }

  predicate BlockFailed(c: seq<Ctx>, start: nat, j: int, k: nat, d: seq<Ctx>) {
    && SameButTriggers(c, d) && start <= k <= |c| && start - 1 <= j <= k
    && (forall v | j < v <= k && 0 <= v < |c| :: d[v].trigger == None)
    && (forall v | 0 <= v < |c| && !(start <= v <= k) :: d[v] == c[v])
  }

  lemma BlockStep(c: seq<Ctx>, start: nat, n: nat, fds: Option<seq<int>>, files: map<int, Eventfd>,
                  d: seq<Ctx>, ret: int, e: seq<Ctx>)
    requires fds.Some? ==> |fds.value| > n
    requires BlockProgress(c, start, n, fds, files, d)
    requires if start + n < |c| then SetsVector(d, start + n, FdAt(fds, n), files, ret, e) else ret != 0 && e == d
    ensures ret == 0 ==> BlockProgress(c, start, n + 1, fds, files, e)
    ensures ret != 0 ==> BlockFailed(c, start, start + n - 1, start + n, e)
  {
  }

  lemma BlockStart(c: seq<Ctx>, start: nat, fds: Option<seq<int>>, files: map<int, Eventfd>)
    requires start <= |c|
    ensures BlockProgress(c, start, 0, fds, files, c)
  {
  }

  lemma BlockDone(c: seq<Ctx>, start: nat, count: nat, fds: Option<seq<int>>, files: map<int, Eventfd>, d: seq<Ctx>)
    requires fds.Some? ==> |fds.value| >= count
    requires InRange(start, count, |c|) && BlockProgress(c, start, count, fds, files, d)
    ensures SetsBlock(c, start, count, fds, files, 0, d)
  {
  }

  /** Each descriptor of a block that was set, by its place in the array. */
  lemma BlockTriggers(c: seq<Ctx>, start: nat, fds: seq<int>, count: nat, files: map<int, Eventfd>, d: seq<Ctx>, i: nat)
    requires |fds| >= count > i && InRange(start, count, |c|) && SetsBlock(c, start, count, Some(fds), files, 0, d)
    ensures start + i < |d|
    ensures if fds[i] < 0 then d[start + i].trigger == None
            else fds[i] in files && d[start + i].trigger == Some(files[fds[i]])
  {
    assert Wants(FdAt(Some(fds), start + i - start), files, d[start + i].trigger);
  }

  lemma BlockUndone(c: seq<Ctx>, start: nat, count: nat, k: nat, fds: Option<seq<int>>, files: map<int, Eventfd>,
                    ret: int, d: seq<Ctx>)
    requires fds.Some? ==> |fds.value| >= count
    requires InRange(start, count, |c|) && ret != 0
    requires start <= k < start + count && k <= |c| && ClearsUpTo(c, start, k, d)
    ensures SetsBlock(c, start, count, fds, files, ret, d)
  {
  }

  lemma FailedInBounds(c: seq<Ctx>, start: nat, k: nat, d: seq<Ctx>)
    requires BlockFailed(c, start, k - 1, k, d)
    ensures start <= k <= |c|
  {
  }

  lemma RollbackStep(c: seq<Ctx>, start: nat, j: int, k: nat, files: map<int, Eventfd>,
                     d: seq<Ctx>, ret: int, e: seq<Ctx>)
    requires BlockFailed(c, start, j, k, d) && j >= start
    requires if j < |c| then SetsVector(d, j, -1, files, ret, e) else e == d
    ensures BlockFailed(c, start, j - 1, k, e)
  {
  }

  /** The signals of a loopback test over a range of vectors. */
  function Loopback(c: seq<Ctx>, lo: nat, hi: nat, bools: Option<seq<bool>>): seq<Option<Eventfd>>
    requires lo <= hi <= |c| && (bools.Some? ==> |bools.value| >= hi - lo)
    decreases hi
  {
    if lo == hi then []
    else
      var c' := c[hi - 1];
      Loopback(c, lo, hi - 1, bools)
      + (if c'.trigger.Some? && (bools.None? || bools.value[hi - 1 - lo]) then [c'.trigger] else [])
  }

  // ------------------------------------------------ one ioctl, as a relation

  /** Flag, bit and signals move, nothing else. */
  predicate MasksOnly(s: State, t: State) {
    && s.mode == Intx && |s.ctx| == 1 && |t.ctx| == 1
    && t.ctx[0] == s.ctx[0].(masked := t.ctx[0].masked)
    && t == s.(ctx := t.ctx, disIntx := t.disIntx, signals := t.signals)
  }

  /** Mask: the flag is set without a signal, and a masked line stays as it is. */
  predicate Masks(s: State, t: State) {
    && MasksOnly(s, t)
    && t.ctx[0].masked && t.signals == s.signals && (s.disIntx ==> t.disIntx)
    && (s.ctx[0].masked ==> t == s)
  }

  /** Unmask: nothing if not masked or virtually disabled, else unmasked, or masked still and signalled once. */
  predicate Unmasks(s: State, t: State) {
    && MasksOnly(s, t)
    && (t.disIntx ==> s.disIntx)
    && (if !s.ctx[0].masked || s.virqDisabled then t == s
        else if t.ctx[0].masked then
          t.disIntx == s.disIntx && t.signals == s.signals + [s.ctx[0].trigger]
        else t.signals == s.signals)
  }

  /** The unmask virqfd is installed or removed; a failure changes nothing. */
  predicate SetsUnmaskVirqfd(s: State, fd: int, ret: int, t: State) {
    && s.mode == Intx && |s.ctx| == 1 && |t.ctx| == 1
    && t == s.(ctx := t.ctx)
    && t.ctx[0] == (if ret == 0 then s.ctx[0].(unmask := fd >= 0) else s.ctx[0])
    && (fd < 0 || s.ctx[0].unmask ==> (ret == 0 <==> fd < 0))
  }

  /** All interrupts off and nothing held. */
  predicate TurnsOff(s: State, t: State) {
    t == s.(mode := NoIrq, ctx := [], disIntx := t.disIntx)
  }

  predicate IntxMaskRel(s: State, call: Call, ret: int, t: State) {
    if s.mode != Intx || call.start != 0 || call.count != 1 then ret == -EINVAL && t == s
    else if call.flags.dataNone then ret == 0 && Masks(s, t)
    else if call.flags.dataBool then
      ret == 0 && |call.data.bools| > 0 &&
      (if call.data.bools[0] then Masks(s, t) else t == s)
    else t == s && ret == (if call.flags.dataEventfd then -ENOTTY else 0)
  }

  predicate IntxUnmaskRel(s: State, call: Call, ret: int, t: State) {
    if s.mode != Intx || call.start != 0 || call.count != 1 then ret == -EINVAL && t == s
    else if call.flags.dataNone then ret == 0 && Unmasks(s, t)
    else if call.flags.dataBool then
      ret == 0 && |call.data.bools| > 0 && (if call.data.bools[0] then Unmasks(s, t) else t == s)
    else if call.flags.dataEventfd then
      call.data.fds.Some? && |call.data.fds.value| > 0 && SetsUnmaskVirqfd(s, call.data.fds.value[0], ret, t)
    else ret == 0 && t == s
  }

  /** A descriptor for INTx: re-signal, or enable with it. */
  predicate IntxEventfdRel(s: State, fd: int, files: map<int, Eventfd>, ret: int, t: State) {
    if s.mode == Intx then t == s.(ctx := t.ctx) && SetsVector(s.ctx, 0, fd, files, ret, t.ctx)
    else if ret != 0 then TurnsOff(s, t)
    else
      && t == s.(mode := Intx, ctx := t.ctx, disIntx := t.disIntx)
      && |t.ctx| == 1 && t.ctx[0].masked == s.virqDisabled && !t.ctx[0].unmask
      && Wants(fd, files, t.ctx[0].trigger)
  }

  lemma EnabledIntx(s: State, fd: int, files: map<int, Eventfd>, ret: int, t: State)
    requires s.mode == NoIrq && t == s.(mode := t.mode, ctx := t.ctx, disIntx := t.disIntx)
    requires ret != 0 ==> t.mode == NoIrq && t.ctx == []
    requires ret == 0 ==> t.mode == Intx && |t.ctx| == 1 && t.ctx[0].masked == s.virqDisabled && !t.ctx[0].unmask
                          && Wants(fd, files, t.ctx[0].trigger)
    ensures IntxEventfdRel(s, fd, files, ret, t)
  {
  }

  /** A loopback test of INTx: one signal, unless the virtual interrupt is disabled. */
  predicate IntxLoopbackRel(s: State, asked: bool, t: State) {
    if asked && !s.virqDisabled then
      |s.ctx| == 1 && t == s.(signals := s.signals + [s.ctx[0].trigger])
    else t == s
  }

  predicate IntxTriggerRel(s: State, call: Call, files: map<int, Eventfd>, ret: int, t: State) {
    var f := call.flags;
    if s.mode == Intx && call.count == 0 && f.dataNone then ret == 0 && TurnsOff(s, t)
    else if !(s.mode in {Intx, NoIrq}) || call.start != 0 || call.count != 1 then ret == -EINVAL && t == s
    else if f.dataEventfd then
      call.data.fds.Some? && |call.data.fds.value| > 0 && IntxEventfdRel(s, call.data.fds.value[0], files, ret, t)
    else if s.mode != Intx then ret == -EINVAL && t == s
    else
      ret == 0 &&
      IntxLoopbackRel(s, f.dataNone || (f.dataBool && |call.data.bools| > 0 && call.data.bools[0]), t)
  }

  /** Descriptors for MSI or MSI-X: set a block, or enable with as many vectors as the block needs. */
  predicate MsiEventfdRel(s: State, mode: Mode, start: nat, count: nat, fds: Option<seq<int>>,
                          files: map<int, Eventfd>, ret: int, t: State)
    requires fds.Some? ==> |fds.value| >= count
  {
    if s.mode == mode then t == s.(ctx := t.ctx) && SetsBlock(s.ctx, start, count, fds, files, ret, t.ctx)
    else if ret != 0 then TurnsOff(s, t)
    else
      var n := Add32(start, count);
      && n >= 1
      && t == s.(mode := mode, ctx := t.ctx, disIntx := t.disIntx)
      && SetsBlock(EmptyBlock(n), start, count, fds, files, 0, t.ctx)
  }

  lemma EnabledMsi(s: State, mode: Mode, start: nat, count: nat, fds: Option<seq<int>>, files: map<int, Eventfd>,
                   ret: int, n: int, t: State)
    requires fds.Some? ==> |fds.value| >= count
    requires mode in {Msi, Msix} && s.mode == NoIrq && t == s.(mode := t.mode, ctx := t.ctx, disIntx := t.disIntx)
    requires U32(start) && U32(count) && n == ToInt32(Add32(start, count))
    requires ret != 0 ==> t.mode == NoIrq && t.ctx == []
    requires ret == 0 ==> n >= 1 && t.mode == mode
                          && SetsBlock(EmptyBlock(n), start, count, fds, files, 0, t.ctx)
    ensures MsiEventfdRel(s, mode, start, count, fds, files, ret, t)
  {
  }

  /** The loopback test of a range of vectors. */
  predicate MsiLoopbackRel(s: State, start: nat, end: nat, f: Flags, bools: seq<bool>, t: State)
    requires end <= |s.ctx| && (f.dataBool && start < end ==> |bools| >= end - start)
  {
    if start < end && (f.dataNone || f.dataBool) then
      t == s.(signals := s.signals + Loopback(s.ctx, start, end, if f.dataNone then None else Some(bools)))
    else t == s
  }

  predicate MsiTriggerRel(s: State, call: Call, files: map<int, Eventfd>, ret: int, t: State)
    requires CallFits(call)
  {
    var f := call.flags;
    var mode := MsiMode(call);
    var end := Add32(call.start, call.count);
    if s.mode == mode && call.count == 0 && f.dataNone then ret == 0 && TurnsOff(s, t)
    else if !(s.mode in {mode, NoIrq}) then ret == -EINVAL && t == s
    else if f.dataEventfd then
      MsiEventfdRel(s, mode, call.start, call.count, if call.count > 0 then call.data.fds else None, files, ret, t)
    else if s.mode != mode || end > |s.ctx| then ret == -EINVAL && t == s
    else ret == 0 && MsiLoopbackRel(s, call.start, end, f, call.data.bools, t)
  }

  // The branches of the MSI trigger, one by one.

  function MsiMode(call: Call): Mode {
    if call.index == MSIX_INDEX then Msix else Msi
  }

  lemma MsiOffBranch(s: State, call: Call, files: map<int, Eventfd>, t: State)
    requires CallFits(call) && s.mode == MsiMode(call) && call.count == 0 && call.flags.dataNone && TurnsOff(s, t)
    ensures MsiTriggerRel(s, call, files, 0, t)
  {
  }

  lemma MsiEventfdBranch(s: State, call: Call, files: map<int, Eventfd>, ret: int, t: State)
    requires CallFits(call) && s.mode in {MsiMode(call), NoIrq} && call.flags.dataEventfd
    requires !(s.mode == MsiMode(call) && call.count == 0 && call.flags.dataNone)
    requires MsiEventfdRel(s, MsiMode(call), call.start, call.count, if call.count > 0 then call.data.fds else None,
                           files, ret, t)
    ensures MsiTriggerRel(s, call, files, ret, t)
  {
  }

  lemma MsiLoopbackBranch(s: State, call: Call, files: map<int, Eventfd>, t: State)
    requires CallFits(call) && s.mode == MsiMode(call) && !call.flags.dataEventfd
    requires !(call.count == 0 && call.flags.dataNone)
    requires Add32(call.start, call.count) <= |s.ctx|
    requires MsiLoopbackRel(s, call.start, Add32(call.start, call.count), call.flags, call.data.bools, t)
    ensures MsiTriggerRel(s, call, files, 0, t)
  {
  }

  lemma MsiInvalidBranch(s: State, call: Call, files: map<int, Eventfd>)
    requires CallFits(call) && !(s.mode == MsiMode(call) && call.count == 0 && call.flags.dataNone)
    requires s.mode in {MsiMode(call), NoIrq} ==>
               !call.flags.dataEventfd && (s.mode == NoIrq || Add32(call.start, call.count) > |s.ctx|)
    ensures MsiTriggerRel(s, call, files, -EINVAL, s)
  {
  }

  /** The error and request triggers: one reference each, replaced, dropped or kept. */
  predicate SingleRel(cur: Option<Eventfd>, call: Call, files: map<int, Eventfd>, ret: int, next: Option<Eventfd>)
  {
    var f := call.flags;
    if f.dataNone then
      if cur.None? then ret == -EINVAL && next == cur
      else ret == 0 && next == (if call.count != 0 then cur else None)
    else if f.dataBool then next == cur && ret == (if call.count == 0 then -EINVAL else 0)
    else if f.dataEventfd then
      if call.count == 0 then ret == -EINVAL && next == cur
      else
        call.data.fds.Some? && |call.data.fds.value| > 0 &&
        var fd := call.data.fds.value[0];
        if fd == -1 then ret == 0 && next == None
        else if fd < 0 then ret == 0 && next == cur
        else if fd in files then ret == 0 && next == Some(files[fd])
        else ret != 0 && next == cur
    else ret == -EINVAL && next == cur
  }

  /** A loopback test of a single trigger. */
  function SingleSignals(cur: Option<Eventfd>, call: Call): seq<Option<Eventfd>> {
    var asked := call.count != 0
      && (call.flags.dataNone || (call.flags.dataBool && |call.data.bools| > 0 && call.data.bools[0]));
    if asked && cur.Some? then [cur] else []
  }

  predicate ErrTriggerRel(s: State, call: Call, files: map<int, Eventfd>, ret: int, t: State) {
    if call.start != 0 || call.count > 1 then ret == -EINVAL && t == s
    else
      && SingleRel(s.err, call, files, ret, t.err)
      && t == s.(err := t.err, signals := s.signals + SingleSignals(s.err, call))
  }

  predicate ReqTriggerRel(s: State, call: Call, files: map<int, Eventfd>, ret: int, t: State) {
    if call.start != 0 || call.count > 1 then ret == -EINVAL && t == s
    else
      && SingleRel(s.req, call, files, ret, t.req)
      && t == s.(req := t.req, signals := s.signals + SingleSignals(s.req, call))
  }

  /** The INTx part of the dispatcher: one handler per action, or ENOTTY. */
  predicate IntxRel(s: State, call: Call, files: map<int, Eventfd>, ret: int, t: State) {
    if OnlyMask(call.flags) then IntxMaskRel(s, call, ret, t)
    else if OnlyUnmask(call.flags) then IntxUnmaskRel(s, call, ret, t)
    else if OnlyTrigger(call.flags) then IntxTriggerRel(s, call, files, ret, t)
    else ret == -ENOTTY && t == s
  }

  /** The dispatcher: index and action select a handler, or ENOTTY. */
  predicate IoctlRel(s: State, call: Call, pcie: bool, files: map<int, Eventfd>, ret: int, t: State)
    requires CallFits(call)
  {
    if call.index == INTX_INDEX then IntxRel(s, call, files, ret, t)
    else if call.index in {MSI_INDEX, MSIX_INDEX} && OnlyTrigger(call.flags) then MsiTriggerRel(s, call, files, ret, t)
    else if call.index == ERR_INDEX && OnlyTrigger(call.flags) && pcie then ErrTriggerRel(s, call, files, ret, t)
    else if call.index == REQ_INDEX && OnlyTrigger(call.flags) then ReqTriggerRel(s, call, files, ret, t)
    else ret == -ENOTTY && t == s
  }

  // ------------------------------------------------------------------ runs

  /** What one step does to mode and context array. */
  predicate KeepsShape(s: State, ret: int, t: State) {
    && Shaped(t.mode, t.ctx)
    && (s.mode == NoIrq || t.mode == NoIrq || s.mode == t.mode)
    && (s.mode == NoIrq && ret != 0 ==> t.mode == NoIrq && t.ctx == [])
    && (s.mode in {Msi, Msix} && t.mode == s.mode ==> |t.ctx| == |s.ctx|)
  }

  lemma IntxKeepsShape(s: State, call: Call, files: map<int, Eventfd>, ret: int, t: State)
    requires CallFits(call) && Shaped(s.mode, s.ctx) && IntxRel(s, call, files, ret, t)
    ensures KeepsShape(s, ret, t)
  {
  }

  lemma MsiKeepsShape(s: State, call: Call, files: map<int, Eventfd>, ret: int, t: State)
    requires CallFits(call) && Shaped(s.mode, s.ctx) && MsiTriggerRel(s, call, files, ret, t)
    ensures KeepsShape(s, ret, t)
  {
  }

  /** One ioctl keeps mode and context array in agreement and never jumps between interrupt modes. */
  lemma IoctlKeepsShape(s: State, call: Call, pcie: bool, files: map<int, Eventfd>, ret: int, t: State)
    requires CallFits(call) && Shaped(s.mode, s.ctx) && IoctlRel(s, call, pcie, files, ret, t)
    ensures Shaped(t.mode, t.ctx)
    ensures s.mode == NoIrq || t.mode == NoIrq || s.mode == t.mode
    ensures s.mode == NoIrq && ret != 0 ==> t.mode == NoIrq && t.ctx == []
    ensures s.mode in {Msi, Msix} && t.mode == s.mode ==> |t.ctx| == |s.ctx|
  {
    hide IntxRel, MsiTriggerRel, SingleRel;
    if call.index == INTX_INDEX {
      IntxKeepsShape(s, call, files, ret, t);
    } else if call.index in {MSI_INDEX, MSIX_INDEX} && OnlyTrigger(call.flags) {
      MsiKeepsShape(s, call, files, ret, t);
    }
  }

  datatype Step = Step(call: Call, pcie: bool, files: map<int, Eventfd>, ret: int)

  /** A run of ioctls through the given states. */
  predicate IsRun(states: seq<State>, steps: seq<Step>) {
    && |states| == |steps| + 1
    && forall i | 0 <= i < |steps| ::
         CallFits(steps[i].call)
         && IoctlRel(states[i], steps[i].call, steps[i].pcie, steps[i].files, steps[i].ret, states[i + 1])
  }

  /** In every run each state is shaped, and to change interrupt mode the run passes through none. */
  lemma {:induction false} RunKeepsShape(states: seq<State>, steps: seq<Step>)
    requires IsRun(states, steps) && Shaped(states[0].mode, states[0].ctx)
    ensures forall i | 0 <= i < |states| :: Shaped(states[i].mode, states[i].ctx)
    ensures forall i | 0 <= i < |steps| ::
              states[i].mode == NoIrq || states[i + 1].mode == NoIrq || states[i].mode == states[i + 1].mode
    ensures forall i | 0 <= i < |steps| && states[i].mode == NoIrq && steps[i].ret != 0 ::
              states[i + 1].mode == NoIrq && states[i + 1].ctx == []
    decreases |steps|
  {
    hide IoctlRel, Shaped;
    if steps != [] {
      var n := |steps| - 1;
      RunKeepsShape(states[..n + 1], steps[..n]);
      var last := steps[n];
      assert states[n] == states[..n + 1][n];
      IoctlKeepsShape(states[n], last.call, last.pcie, last.files, last.ret, states[n + 1]);
      forall i | 0 <= i < n
        ensures states[i].mode == NoIrq || states[i + 1].mode == NoIrq || states[i].mode == states[i + 1].mode
        ensures states[i].mode == NoIrq && steps[i].ret != 0 ==> states[i + 1].mode == NoIrq && states[i + 1].ctx == []
      {
        assert states[..n + 1][i] == states[i] && states[..n + 1][i + 1] == states[i + 1] && steps[..n][i] == steps[i];
      }
    }
  }

  /** Two different interrupt modes in one run have a state without interrupts between them. */
  lemma {:induction false} ModeChangePassesNone(states: seq<State>, steps: seq<Step>, i: nat, j: nat)
    requires IsRun(states, steps) && Shaped(states[0].mode, states[0].ctx)
    requires i <= j < |states| && states[i].mode != states[j].mode
    ensures exists k | i <= k <= j :: states[k].mode == NoIrq
    decreases j
  {
    RunKeepsShape(states, steps);
    if states[j].mode != NoIrq {
      var k := j - 1;
      assert states[k].mode == NoIrq || states[k].mode == states[k + 1].mode;
      if states[k].mode != NoIrq {
        ModeChangePassesNone(states, steps, i, k);
      }
    }
  }
}
