/**
 * The INTx line of a PCI 2.3 device as its lock sections see it. Handler, mask and unmask are one step each;
 * the signal to the user, the virtual disable bit and the three writes of enabling are steps of their own,
 * because they happen outside the lock.
 */
module IntxLine {

  /** Off; masked written; DisINTx programmed; irq_type published. */
  datatype Phase = Off | MaskChosen | Programmed | On

  /** disIntx is the hardware bit; masked is the flag that should follow it. */
  datatype Line = Line(phase: Phase, masked: bool, disIntx: bool, virqDisabled: bool, registered: bool)

  // ------------------------------------------------------- lock sections

  function MaskStep(l: Line): Line {
    if l.phase != On then l.(disIntx := true)
    else if !l.masked then l.(disIntx := true, masked := true)
    else l
  }

  /** The line after an unmask; `pending` is what pci_check_and_unmask_intx finds asserted. */
  function UnmaskStep(l: Line, pending: bool): Line {
    if l.phase != On then l.(disIntx := false)
    else if l.masked && !l.virqDisabled && !pending then l.(disIntx := false, masked := false)
    else l
  }

  /** An unmask that asks its caller to signal the user instead. */
  predicate UnmaskResends(l: Line, pending: bool) {
    l.phase == On && l.masked && !l.virqDisabled && pending
  }

  /** The interrupt handler reports an interrupt as handled. */
  predicate HandlerHandles(l: Line, pending: bool) {
    !l.masked && pending
  }

  function HandlerStep(l: Line, pending: bool): Line {
    if HandlerHandles(l, pending) then l.(disIntx := true, masked := true) else l
  }

  // ------------------------------------------- enabling, re-signalling, disabling

  /** The flag takes the virtual disable bit. */
  function ChooseStep(l: Line): Line {
    l.(phase := MaskChosen, masked := l.virqDisabled)
  }

  /** DisINTx is programmed to match. */
  function ProgramStep(l: Line): Line {
    l.(phase := Programmed, disIntx := l.masked)
  }

  function PublishStep(l: Line): Line {
    l.(phase := On)
  }

  function RegisterStep(l: Line): Line {
    l.(registered := true)
  }

  function UnregisterStep(l: Line): Line {
    l.(registered := false)
  }

  /** The entry goes, and its flag with it. */
  function DisableStep(l: Line): Line {
    l.(phase := Off, masked := false)
  }

  // ------------------------------------------------------------- machine

  datatype Event =
    | Handler(pending: bool)
    | Mask
    | Unmask(pending: bool)
    | Send
    | SetVirqDisabled(disabled: bool)
    | ChooseMask
    | Program
    | Publish
    | Register
    | Unregister
    | Disable

  /** The line with what a run has done since INTx was last enabled; carried signals were owed before that. */
  datatype Run = Run(line: Line, maskedAtStart: bool, handled: nat, resent: nat, unmasked: nat,
                     sent: nat, suppressed: nat, owed: nat, carried: nat)

  /** A handler runs only while registered; the writes of enabling and disabling come in their order. */
  predicate Enabled(r: Run, e: Event) {
    match e
    case Handler(_) => r.line.registered && r.line.phase == On
    case Send => r.owed > 0
    case ChooseMask => r.line.phase == Off
    case Program => r.line.phase == MaskChosen
    case Publish => r.line.phase == Programmed
    case Register => r.line.phase == On && !r.line.registered
    case Unregister => r.line.registered
    case Disable => r.line.phase == On && !r.line.registered
    case _ => true
  }

  function Step(r: Run, e: Event): Run
    requires Enabled(r, e)
  {
    var l := r.line;
    match e
    case Handler(pending) =>
      var handles := HandlerHandles(l, pending);
      r.(line := HandlerStep(l, pending),
         handled := r.handled + (if handles then 1 else 0), owed := r.owed + (if handles then 1 else 0))
    case Mask => r.(line := MaskStep(l))
    case Unmask(pending) =>
      var next := UnmaskStep(l, pending);
      var resends := UnmaskResends(l, pending);
      r.(line := next,
         unmasked := r.unmasked + (if l.masked && !next.masked then 1 else 0),
         resent := r.resent + (if resends then 1 else 0), owed := r.owed + (if resends then 1 else 0))
    case Send =>
      if l.phase == On && !l.virqDisabled then r.(sent := r.sent + 1, owed := r.owed - 1)
      else r.(suppressed := r.suppressed + 1, owed := r.owed - 1)
    case SetVirqDisabled(disabled) => r.(line := l.(virqDisabled := disabled))
    case ChooseMask =>
      Run(ChooseStep(l), l.virqDisabled, 0, 0, 0, 0, 0, r.owed, r.owed)
    case Program => r.(line := ProgramStep(l))
    case Publish => r.(line := PublishStep(l))
    case Register => r.(line := RegisterStep(l))
    case Unregister => r.(line := UnregisterStep(l))
    case Disable => r.(line := DisableStep(l))
  }

  /** Every event of the sequence can happen when its turn comes. */
  predicate Possible(r: Run, events: seq<Event>)
    decreases |events|
  {
    events == [] || (Enabled(r, events[0]) && Possible(Step(r, events[0]), events[1..]))
  }

  function After(r: Run, events: seq<Event>): Run
    requires Possible(r, events)
    decreases |events|
  {
    if events == [] then r else After(Step(r, events[0]), events[1..])
  }

  /** In INTx mode the flag equals the hardware bit. */
  predicate Follows(l: Line) {
    l.phase == On ==> l.masked == l.disIntx
  }

  /** DisINTx after a stretch of events between programming and publishing: the last mask or unmask decides. */
  function LastWrite(window: seq<Event>, bit: bool): bool {
    if window == [] then bit
    else
      match window[|window| - 1]
      case Mask => true
      case Unmask(_) => false
      case _ => LastWrite(window[..|window| - 1], bit)
  }

  /** Where INTx is published next, or the number of events. */
  function NextPublish(events: seq<Event>): (n: nat)
    ensures n <= |events| && (n < |events| ==> events[n] == Publish)
    ensures Publish !in events[..n]
  {
    if events == [] || events[0] == Publish then 0 else 1 + NextPublish(events[1..])
  }

  /** Published or not, the last write before publishing leaves the bit as it was programmed. */
  predicate WindowKeeps(events: seq<Event>, programmed: bool, masked: bool) {
    NextPublish(events) < |events| ==> LastWrite(events[..NextPublish(events)], programmed) == masked
  }

  /**
   * In every window from programming DisINTx to publishing INTx the last config-space write, if there is one,
   * is a mask when the line was programmed masked and an unmask when it was not.
   */
  predicate EveryWindowKeeps(r: Run, events: seq<Event>)
    requires Possible(r, events)
    decreases |events|
  {
    events == [] ||
    ((events[0] == Program ==> WindowKeeps(events[1..], r.line.masked, r.line.masked))
     && EveryWindowKeeps(Step(r, events[0]), events[1..]))
  }

  /** Every step but publishing keeps the flag following the bit. */
  lemma StepFollows(r: Run, e: Event)
    requires Enabled(r, e) && Follows(r.line) && e != Publish
    ensures Follows(Step(r, e).line)
  {
  }

  /** The window from the front: one event writes the bit, the rest start from what it leaves. */
  lemma {:induction false} LastWriteFront(e: Event, window: seq<Event>, bit: bool)
    ensures LastWrite([e] + window, bit) == LastWrite(window, LastWrite([e], bit))
  {
    if window == [] {
      assert [e] + window == [e];
    } else {
      var n := |window| - 1;
      LastWriteFront(e, window[..n], bit);
      assert ([e] + window)[..|[e] + window| - 1] == [e] + window[..n];
    }
  }

  /** A step inside the window, as the window sees it. */
  lemma WindowStep(r: Run, e: Event, rest: seq<Event>)
    requires Enabled(r, e) && r.line.phase == Programmed && e != Publish
    ensures var next := Step(r, e);
            && next.line.phase == Programmed
            && (WindowKeeps([e] + rest, r.line.disIntx, r.line.masked)
                <==> WindowKeeps(rest, next.line.disIntx, next.line.masked))
  {
    var n := NextPublish(rest);
    assert ([e] + rest)[1..] == rest;
    assert ([e] + rest)[..n + 1] == [e] + rest[..n];
    LastWriteFront(e, rest[..n], r.line.disIntx);
    assert [e][..0] == [];
  }

  /** The flag equals the bit in INTx mode now and after each of the events. */
  predicate AlwaysFollows(r: Run, events: seq<Event>)
    requires Possible(r, events)
    decreases |events|
  {
    Follows(r.line) && (events == [] || AlwaysFollows(Step(r, events[0]), events[1..]))
  }

  lemma {:induction false} FollowsIffWindowsKeep(r: Run, events: seq<Event>)
    requires Possible(r, events) && Follows(r.line)
    ensures AlwaysFollows(r, events) <==>
              && (r.line.phase == Programmed ==> WindowKeeps(events, r.line.disIntx, r.line.masked))
              && EveryWindowKeeps(r, events)
    decreases |events|
  {
    if events != [] {
      var e, next := events[0], Step(r, events[0]);
      assert events == [e] + events[1..];
      if e != Publish {
        StepFollows(r, e);
        FollowsIffWindowsKeep(next, events[1..]);
        if r.line.phase == Programmed {
          WindowStep(r, e, events[1..]);
        }
      } else if Follows(next.line) {
        FollowsIffWindowsKeep(next, events[1..]);
      }
    }
  }

  /** The state after the first k events. */
  lemma {:induction false} AlwaysIsEveryPrefix(r: Run, events: seq<Event>)
    requires Possible(r, events)
    ensures forall k | 0 <= k <= |events| :: Possible(r, events[..k])
    ensures AlwaysFollows(r, events) <==> forall k | 0 <= k <= |events| :: Follows(After(r, events[..k]).line)
    decreases |events|
  {
    if events == [] {
      assert events[..0] == [];
    } else {
      var next, rest := Step(r, events[0]), events[1..];
      AlwaysIsEveryPrefix(next, rest);
      forall k | 0 <= k <= |events|
        ensures Possible(r, events[..k])
        ensures k > 0 ==> Possible(next, rest[..k - 1]) && After(r, events[..k]) == After(next, rest[..k - 1])
      {
        if k > 0 {
          assert events[..k][1..] == rest[..k - 1] && events[..k][0] == events[0];
        }
      }
      assert After(r, events[..0]) == r;
      if forall k | 0 <= k <= |events| :: Follows(After(r, events[..k]).line) {
        forall k | 0 <= k <= |rest|
          ensures Follows(After(next, rest[..k]).line)
        {
          assert After(r, events[..k + 1]) == After(next, rest[..k]);
        }
      }
    }
  }

  /**
   * The flag equals the hardware bit after every event of a run exactly when each window between programming
   * and publishing leaves the bit as it was programmed. The run may start in any state outside such a window.
   */
  lemma MaskedFollowsDisIntx(r: Run, events: seq<Event>)
    requires Possible(r, events) && Follows(r.line) && r.line.phase != Programmed
    ensures forall k | 0 <= k <= |events| :: Possible(r, events[..k])
    ensures (forall k | 0 <= k <= |events| :: Follows(After(r, events[..k]).line)) <==> EveryWindowKeeps(r, events)
  {
    AlwaysIsEveryPrefix(r, events);
    FollowsIffWindowsKeep(r, events);
  }

  /** One window, whatever happens in it: INTx is published following the bit exactly when the last write agrees. */
  lemma {:induction false} WindowExact(r: Run, window: seq<Event>)
    requires r.line.phase == Programmed && Publish !in window && Possible(r, window + [Publish])
    ensures Follows(After(r, window + [Publish]).line) <==> LastWrite(window, r.line.disIntx) == r.line.masked
    decreases |window|
  {
    if window == [] {
      assert [] + [Publish] == [Publish] && [Publish][1..] == [];
    } else {
      var e, rest := window[0], window[1..];
      assert window == [e] + rest && (window + [Publish])[1..] == rest + [Publish];
      assert e in window;
      LastWriteFront(e, rest, r.line.disIntx);
      assert [e][..0] == [];
      WindowExact(Step(r, e), rest);
    }
  }

  /** No mask and no unmask while the bit is programmed but INTx not yet published. */
  predicate NoConfigInWindow(r: Run, events: seq<Event>)
    requires Possible(r, events)
    decreases |events|
  {
    events == [] ||
    ((r.line.phase == Programmed ==> !events[0].Mask? && !events[0].Unmask?)
     && NoConfigInWindow(Step(r, events[0]), events[1..]))
  }

  lemma {:induction false} NoWriteKeeps(r: Run, events: seq<Event>)
    requires Possible(r, events) && NoConfigInWindow(r, events) && r.line.phase == Programmed
    requires r.line.disIntx == r.line.masked
    ensures WindowKeeps(events, r.line.disIntx, r.line.masked)
    decreases |events|
  {
    if events != [] && events[0] != Publish {
      NoWriteKeeps(Step(r, events[0]), events[1..]);
      WindowStep(r, events[0], events[1..]);
      assert events == [events[0]] + events[1..];
    }
  }

  /** An undisturbed enable is one way to meet the condition. */
  lemma {:induction false} UndisturbedKeeps(r: Run, events: seq<Event>)
    requires Possible(r, events) && NoConfigInWindow(r, events)
    ensures EveryWindowKeeps(r, events)
    decreases |events|
  {
    if events != [] {
      UndisturbedKeeps(Step(r, events[0]), events[1..]);
      if events[0] == Program {
        NoWriteKeeps(Step(r, Program), events[1..]);
      }
    }
  }

  const IDLE := Run(Line(Off, false, false, false, false), false, 0, 0, 0, 0, 0, 0, 0)

  /** A config-space mask between programming and publishing leaves the bit set and the flag clear. */
  lemma WindowBreaksFollowing()
    ensures var events := [ChooseMask, Program, Mask, Publish];
            Possible(IDLE, events) && !Follows(After(IDLE, events).line)
  {
  }

  /** An unmask of a masked line either enables it physically or keeps it masked and owes one signal. */
  lemma UnmaskOutcome(r: Run, pending: bool)
    requires r.line.phase == On && r.line.masked && Follows(r.line) && !r.line.virqDisabled
    ensures var next := Step(r, Unmask(pending));
            || (!next.line.masked && !next.line.disIntx && next.owed == r.owed && next.unmasked == r.unmasked + 1)
            || (next.line.masked && next.line.disIntx && next.owed == r.owed + 1 && next.unmasked == r.unmasked)
  {
  }

  /** The accounts of a run: signals are conserved, and each handled interrupt masked an unmasked line. */
  predicate Accounts(r: Run) {
    && r.carried + r.handled + r.resent == r.sent + r.suppressed + r.owed
    && (r.line.phase in {MaskChosen, Programmed} ==>
          r.line.masked == r.maskedAtStart && r.handled == 0 && r.unmasked == 0)
    && (r.line.phase == On ==>
          r.handled <= r.unmasked + (if r.line.masked then 1 else 0) - (if r.maskedAtStart then 1 else 0))
  }

  lemma StepKeepsAccounts(r: Run, e: Event)
    requires Enabled(r, e) && Accounts(r)
    ensures Accounts(Step(r, e))
  {
  }

  /** In every run the handled interrupts number at most one more than the unmaskings since INTx was enabled. */
  lemma {:induction false} HandledBound(r: Run, events: seq<Event>)
    requires Possible(r, events) && Accounts(r)
    ensures var last := After(r, events);
            && Accounts(last)
            && (last.line.phase == On ==> last.handled <= last.unmasked + 1)
            && (last.line.phase == On && (last.maskedAtStart || !last.line.masked) ==> last.handled <= last.unmasked)
    decreases |events|
  {
    if events != [] {
      StepKeepsAccounts(r, events[0]);
      HandledBound(Step(r, events[0]), events[1..]);
    }
  }

  /** The state after one more event. */
  lemma {:induction false} AfterSnoc(r: Run, events: seq<Event>, k: nat)
    requires Possible(r, events) && k < |events|
    ensures Possible(r, events[..k]) && Possible(r, events[..k + 1])
    ensures Enabled(After(r, events[..k]), events[k])
    ensures After(r, events[..k + 1]) == Step(After(r, events[..k]), events[k])
    decreases |events|
  {
    if k == 0 {
      assert events[..0] == [] && events[..1] == [events[0]] && [events[0]][1..] == [];
    } else {
      AfterSnoc(Step(r, events[0]), events[1..], k - 1);
      assert events[..k][1..] == events[1..][..k - 1] && events[..k + 1][1..] == events[1..][..k];
    }
  }

  /** The event ends a mask: a masked line comes out unmasked, or INTx is enabled anew. */
  predicate EndsMask(r: Run, e: Event) {
    Enabled(r, e) && (e == ChooseMask || (r.line.masked && !Step(r, e).line.masked))
  }

  /** The event is an interrupt that is reported as handled. */
  predicate Handles(r: Run, e: Event) {
    Enabled(r, e) && e.Handler? && HandlerHandles(r.line, e.pending)
  }

  lemma {:induction false} StaysMasked(r: Run, events: seq<Event>, lo: nat, hi: nat)
    requires Possible(r, events) && lo <= hi <= |events|
    requires forall k | 0 <= k <= |events| :: Possible(r, events[..k])
    requires After(r, events[..lo]).line.masked
    requires forall k | lo <= k < hi :: !EndsMask(After(r, events[..k]), events[k])
    ensures After(r, events[..hi]).line.masked
    decreases hi
  {
    if lo < hi {
      StaysMasked(r, events, lo, hi - 1);
      AfterSnoc(r, events, hi - 1);
    }
  }

  /** Between two handled interrupts the line was unmasked, or INTx was enabled anew. */
  lemma HandledAlternate(r: Run, events: seq<Event>, i: nat, j: nat)
    requires Possible(r, events) && i < j < |events|
    ensures forall k | 0 <= k <= |events| :: Possible(r, events[..k])
    ensures Handles(After(r, events[..i]), events[i]) && Handles(After(r, events[..j]), events[j]) ==>
              exists k | i < k < j :: EndsMask(After(r, events[..k]), events[k])
    ensures forall k | i < k < j && EndsMask(After(r, events[..k]), events[k]) ::
              Enabled(After(r, events[..k]), events[k])
              && (events[k] == ChooseMask
                  || (After(r, events[..k]).line.masked && !Step(After(r, events[..k]), events[k]).line.masked))
  {
    AlwaysIsEveryPrefix(r, events);
    if && Handles(After(r, events[..i]), events[i])
       && forall k | i < k < j :: !EndsMask(After(r, events[..k]), events[k])
    {
      AfterSnoc(r, events, i);
      StaysMasked(r, events, i + 1, j);
    }
  }

  /** The line comes up: after the enabling steps and registration handlers can run. */
  lemma LineComesUp(r: Run)
    requires r.line == Line(Off, false, false, false, false)
    ensures Enabled(r, ChooseMask)
    ensures var r1 := Step(r, ChooseMask);
            Enabled(r1, Program) && Enabled(Step(r1, Program), Publish)
            && var r3 := Step(Step(r1, Program), Publish);
               Enabled(r3, Register) && Step(r3, Register).line == Line(On, false, false, false, true)
               && Enabled(Step(r3, Register), Handler(true))
  {
  }

  /** It works: a pending interrupt is handled, masked and signalled once, and unmasked again. */
  lemma LineWorks(r: Run)
    requires r.line == Line(On, false, false, false, true)
    ensures Enabled(r, Handler(true))
    ensures var r1 := Step(r, Handler(true));
            && r1.line == Line(On, true, true, false, true) && r1.handled == r.handled + 1 && r1.owed == r.owed + 1
            && Enabled(r1, Send) && Step(r1, Send) == r1.(sent := r.sent + 1, owed := r.owed)
            && Step(r1, Unmask(false)) == r1.(line := r.line, unmasked := r.unmasked + 1)
            && Step(r1, Unmask(true)) == r1.(resent := r.resent + 1, owed := r1.owed + 1)
            && Step(r, Handler(false)) == r && Step(r, Mask) == r.(line := r1.line)
  {
  }

  /** And goes down: unregistered, then off, with the flag gone. */
  lemma LineGoesDown(r: Run)
    requires r.line.phase == On && r.line.registered
    ensures Enabled(r, Unregister) && Enabled(Step(r, Unregister), Disable) && !Enabled(r, Disable)
    ensures var last := Step(Step(r, Unregister), Disable).line;
            last.phase == Off && !last.masked && !last.registered && last.disIntx == r.line.disIntx
  {
  }
}
