/** What each kind of interrupt ioctl does to a device, read off the relation every call follows. */
module IoctlOutcomes {
  import opened Wrappers
  import opened IrqState

  /** No data, and one action. */
  function NoData(mask: bool, unmask: bool, trigger: bool): Flags {
    Flags(true, false, false, mask, unmask, trigger)
  }

  function BoolData(mask: bool, unmask: bool, trigger: bool): Flags {
    Flags(false, true, false, mask, unmask, trigger)
  }

  function FdData(mask: bool, unmask: bool, trigger: bool): Flags {
    Flags(false, false, true, mask, unmask, trigger)
  }

  /** The states differ in nothing but the line: flag, bit and signals. */
  predicate OnlyLine(s: State, t: State) {
    && t == s.(ctx := t.ctx, disIntx := t.disIntx, signals := t.signals)
    && |t.ctx| == |s.ctx| && forall i | 0 <= i < |s.ctx| :: t.ctx[i] == s.ctx[i].(masked := t.ctx[i].masked)
  }

  /** Masking INTx, without data or with a true, masks it silently; with a false it does nothing. */
  lemma MaskCall(s: State, call: Call, pcie: bool, files: map<int, Eventfd>, ret: int, t: State)
    requires CallFits(call) && IoctlRel(s, call, pcie, files, ret, t) && s.mode == Intx && |s.ctx| == 1
    requires call.index == 0 && call.start == 0 && call.count == 1
    requires call.flags in {NoData(true, false, false), BoolData(true, false, false)}
    ensures ret == 0
    ensures call.flags.dataNone || call.data.bools[0] ==>
              OnlyLine(s, t) && t.ctx[0].masked && t.signals == s.signals
    ensures (!call.flags.dataNone && !call.data.bools[0]) || s.ctx[0].masked ==> t == s
    ensures s.disIntx ==> t.disIntx
  {
  }

  /** Unmasking a masked line, when not virtually disabled, unmasks it silently or signals its trigger once. */
  lemma UnmaskCall(s: State, call: Call, pcie: bool, files: map<int, Eventfd>, ret: int, t: State)
    requires CallFits(call) && IoctlRel(s, call, pcie, files, ret, t) && s.mode == Intx && |s.ctx| == 1
    requires call.index == 0 && call.start == 0 && call.count == 1
    requires call.flags in {NoData(false, true, false), BoolData(false, true, false)}
    ensures ret == 0
    ensures (call.flags.dataNone || call.data.bools[0]) && s.ctx[0].masked && !s.virqDisabled ==>
              OnlyLine(s, t) && t.signals == s.signals + (if t.ctx[0].masked then [s.ctx[0].trigger] else [])
    ensures !call.flags.dataNone && !call.data.bools[0] ==> t == s
    ensures !s.ctx[0].masked || s.virqDisabled ==> t == s
    ensures t.disIntx ==> s.disIntx
    ensures t.ctx[0].masked ==> t.disIntx == s.disIntx
  {
  }

  /** A descriptor with the unmask action installs an unmask virqfd, once, and a negative one removes it. */
  lemma UnmaskFdCall(s: State, call: Call, pcie: bool, files: map<int, Eventfd>, ret: int, t: State)
    requires CallFits(call) && IoctlRel(s, call, pcie, files, ret, t) && s.mode == Intx && |s.ctx| == 1
    requires call.index == 0 && call.start == 0 && call.count == 1 && call.flags == FdData(false, true, false)
    ensures ret != 0 ==> t == s
    ensures ret == 0 ==> t == s.(ctx := [s.ctx[0].(unmask := call.data.fds.value[0] >= 0)])
    ensures call.data.fds.value[0] < 0 ==> ret == 0
    ensures call.data.fds.value[0] >= 0 && s.ctx[0].unmask ==> ret != 0
  {
    if ret == 0 {
      assert t.ctx == [t.ctx[0]];
    }
  }

  /** A mask by descriptor is refused; a call that names no kind of data is accepted and does nothing. */
  lemma OtherKindCall(s: State, call: Call, pcie: bool, files: map<int, Eventfd>, ret: int, t: State)
    requires CallFits(call) && IoctlRel(s, call, pcie, files, ret, t) && s.mode == Intx
    requires call.index == 0 && call.start == 0 && call.count == 1
    ensures call.flags == FdData(true, false, false) ==> ret == -ENOTTY && t == s
    ensures var f := call.flags;
            !f.dataNone && !f.dataBool && !f.dataEventfd && !f.actionTrigger && f.actionMask != f.actionUnmask ==>
              ret == 0 && t == s
  {
  }

  /** A loopback test of INTx signals its trigger, once and only if asked. */
  lemma LoopbackCall(s: State, call: Call, pcie: bool, files: map<int, Eventfd>, ret: int, t: State)
    requires CallFits(call) && IoctlRel(s, call, pcie, files, ret, t) && s.mode == Intx && |s.ctx| == 1
    requires call.index == 0 && call.start == 0 && call.count == 1
    requires call.flags in {NoData(false, false, true), BoolData(false, false, true)}
    ensures ret == 0 && t == s.(signals := t.signals)
    ensures var asked := call.flags.dataNone || call.data.bools[0];
            t.signals == s.signals + (if asked && !s.virqDisabled then [s.ctx[0].trigger] else [])
  {
  }

  /** Turning off: no data, no vectors, the trigger action, on the index of the mode that is on. */
  lemma OffCall(s: State, call: Call, pcie: bool, files: map<int, Eventfd>, ret: int, t: State)
    requires CallFits(call) && IoctlRel(s, call, pcie, files, ret, t) && Shaped(s.mode, s.ctx)
    requires call.flags == NoData(false, false, true) && call.count == 0
    requires (s.mode, call.index) in {(Intx, 0), (Msi, 1), (Msix, 2)}
    ensures ret == 0 && t == s.(mode := NoIrq, ctx := [], disIntx := t.disIntx)
  {
  }

  /** Descriptors turn on the mode of their index and no other, or nothing. */
  lemma OnCall(s: State, call: Call, pcie: bool, files: map<int, Eventfd>, ret: int, t: State)
    requires CallFits(call) && IoctlRel(s, call, pcie, files, ret, t) && s.mode == NoIrq && s.ctx == []
    ensures t.mode != NoIrq ==> ret == 0 && (t.mode, call.index) in {(Intx, 0), (Msi, 1), (Msix, 2)}
    ensures t.mode == NoIrq ==> t.ctx == []
    ensures t.mode == Intx ==>
              && call.flags.dataEventfd && call.count == 1 && |t.ctx| == 1 && t.ctx[0].masked == s.virqDisabled
              && var fd := call.data.fds.value[0];
                 if fd < 0 then t.ctx[0].trigger == None else fd in files && t.ctx[0].trigger == Some(files[fd])
    ensures t.mode in {Msi, Msix} && call.start + call.count < 0x8000_0000 ==>
              call.flags.dataEventfd && |t.ctx| == call.start + call.count
  {
    if t.mode in {Msi, Msix} && call.start + call.count < 0x8000_0000 {
      assert Add32(call.start, call.count) == call.start + call.count == ToInt32(call.start + call.count);
    }
  }

  /** After MSI or MSI-X was turned on, or a block of it set, each vector of the block has its descriptor's trigger. */
  lemma BlockCall(s: State, call: Call, pcie: bool, files: map<int, Eventfd>, ret: int, t: State, i: nat)
    requires CallFits(call) && IoctlRel(s, call, pcie, files, ret, t) && s.mode in {NoIrq, t.mode}
    requires t.mode in {Msi, Msix} && call.index in {1, 2} && call.flags == FdData(false, false, true)
    requires ret == 0 && i < call.count
    ensures call.start + i < |t.ctx|
    ensures var fd := call.data.fds.value[i];
            if fd < 0 then t.ctx[call.start + i].trigger == None
            else fd in files && t.ctx[call.start + i].trigger == Some(files[fd])
  {
    hide SetsBlock;
    var fds := call.data.fds.value;
    if s.mode != NoIrq {
      BlockInRange(s.ctx, call.start, call.count, call.data.fds, files, t.ctx);
      BlockTriggers(s.ctx, call.start, fds, call.count, files, t.ctx, i);
    } else {
      var n :| 1 <= n && SetsBlock(EmptyBlock(n), call.start, call.count, call.data.fds, files, 0, t.ctx);
      BlockInRange(EmptyBlock(n), call.start, call.count, call.data.fds, files, t.ctx);
      BlockTriggers(EmptyBlock(n), call.start, fds, call.count, files, t.ctx, i);
    }
  }

  lemma BlockInRange(c: seq<Ctx>, start: nat, count: nat, fds: Option<seq<int>>, files: map<int, Eventfd>, d: seq<Ctx>)
    requires fds.Some? ==> |fds.value| >= count
    requires SetsBlock(c, start, count, fds, files, 0, d)
    ensures InRange(start, count, |c|)
  {
  }

  /** A loopback test of a range of vectors signals the triggers chosen, in order of their vectors. */
  lemma {:induction false} LoopbackSignals(c: seq<Ctx>, lo: nat, hi: nat, bools: Option<seq<bool>>)
    requires lo <= hi <= |c| && (bools.Some? ==> |bools.value| >= hi - lo)
    requires forall i | lo <= i < hi :: c[i].trigger.Some? && (bools.Some? ==> bools.value[i - lo])
    ensures |Loopback(c, lo, hi, bools)| == hi - lo
    ensures forall i | lo <= i < hi :: Loopback(c, lo, hi, bools)[i - lo] == c[i].trigger
    decreases hi
  {
    if lo < hi {
      LoopbackSignals(c, lo, hi - 1, bools);
    }
  }

  /** Vectors without a trigger, and those not chosen, are passed over. */
  lemma LoopbackStep(c: seq<Ctx>, lo: nat, hi: nat, bools: Option<seq<bool>>)
    requires lo <= hi < |c| && (bools.Some? ==> |bools.value| > hi - lo)
    ensures Loopback(c, lo, hi + 1, bools) ==
            Loopback(c, lo, hi, bools)
            + (if c[hi].trigger.Some? && (bools.Some? ==> bools.value[hi - lo]) then [c[hi].trigger] else [])
  {
  }

  /** The loopback call of MSI and MSI-X. */
  lemma LoopbackMsiCall(s: State, call: Call, pcie: bool, files: map<int, Eventfd>, ret: int, t: State)
    requires CallFits(call) && IoctlRel(s, call, pcie, files, ret, t)
    requires (s.mode, call.index) in {(Msi, 1), (Msix, 2)} && call.start + call.count <= |s.ctx| < 0x8000_0000
    requires call.count > 0 && call.flags in {NoData(false, false, true), BoolData(false, false, true)}
    ensures ret == 0
    ensures var bools := if call.flags.dataNone then None else Some(call.data.bools);
            t == s.(signals := s.signals + Loopback(s.ctx, call.start, call.start + call.count, bools))
  {
    assert Add32(call.start, call.count) == call.start + call.count;
  }

  /** Error and request triggers: a descriptor replaces, -1 drops, no data signals or, without a count, drops. */
  lemma SingleCall(s: State, call: Call, pcie: bool, files: map<int, Eventfd>, ret: int, t: State)
    requires CallFits(call) && IoctlRel(s, call, pcie, files, ret, t)
    requires call.index in {3, 4} && (call.index == 3 ==> pcie) && call.start == 0 && call.count <= 1
    requires call.flags in {NoData(false, false, true), BoolData(false, false, true), FdData(false, false, true)}
    ensures t == s.(err := t.err, req := t.req, signals := t.signals)
    ensures if call.index == 3 then t.req == s.req else t.err == s.err
    ensures var cur, next := if call.index == 3 then s.err else s.req, if call.index == 3 then t.err else t.req;
            && (call.flags.dataEventfd && call.count == 1 ==>
                  var fd := call.data.fds.value[0];
                  && (fd == -1 ==> ret == 0 && next == None)
                  && (fd < -1 ==> ret == 0 && next == cur)
                  && (fd >= 0 && fd in files ==> ret == 0 && next == Some(files[fd]))
                  && (fd >= 0 && fd !in files ==> ret != 0 && next == cur)
                  && t.signals == s.signals)
            && (call.flags.dataNone && cur.Some? ==>
                  ret == 0 && if call.count == 1 then next == cur && t.signals == s.signals + [cur]
                              else next == None && t.signals == s.signals)
            && (call.flags.dataBool && call.count == 1 && cur.Some? ==>
                  ret == 0 && next == cur && t.signals == s.signals + (if call.data.bools[0] then [cur] else []))
            && (!call.flags.dataEventfd && cur.None? ==> next == None && t.signals == s.signals)
            && ((call.flags.dataNone && cur.None?) || (!call.flags.dataNone && call.count == 0) ==> ret == -EINVAL)
  {
  }

  predicate OnlyTriggers(f: Flags) {
    f.actionTrigger && !f.actionMask && !f.actionUnmask
  }

  /** Calls that are refused, and change nothing. */
  lemma RefusedCalls(s: State, call: Call, pcie: bool, files: map<int, Eventfd>, ret: int, t: State)
    requires CallFits(call) && IoctlRel(s, call, pcie, files, ret, t)
    ensures call.index > 4 || (call.index == 3 && !pcie) ==> ret == -ENOTTY && t == s
    ensures call.flags.actionMask && call.flags.actionTrigger ==> ret == -ENOTTY && t == s
    ensures !call.flags.actionMask && !call.flags.actionUnmask && !call.flags.actionTrigger ==> ret == -ENOTTY && t == s
    ensures call.index != 0 && !call.flags.actionTrigger ==> ret == -ENOTTY && t == s
    ensures call.index == 0 && call.flags == NoData(true, false, false) && s.mode != Intx ==> ret == -EINVAL && t == s
    ensures call.index == 0 && call.flags == NoData(false, true, false) && s.mode != Intx ==> ret == -EINVAL && t == s
    ensures call.index == 0 && s.mode in {Msi, Msix} && call.flags == FdData(false, false, true) ==>
              ret == -EINVAL && t == s
    ensures call.flags == FdData(false, false, true) ==>
              (s.mode, call.index) in {(Intx, 1), (Intx, 2), (Msi, 2), (Msix, 1)} ==> ret == -EINVAL && t == s
    ensures call.index == 0 && (call.count > 1 || (call.start > 0 && call.count > 0)) ==> ret != 0 && t == s
    ensures call.index in {3, 4} && (call.count > 1 || call.start > 0) && OnlyTriggers(call.flags) && pcie ==>
              ret == -EINVAL && t == s
  {
  }
}
