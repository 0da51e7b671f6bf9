/**
 * The kernel services interrupt control calls, as nondeterministic operations on a ledger of what is held.
 * Each release demands that the thing released is held.
 */
module IrqKernel {
  import opened Wrappers
  import opened IrqState

  class Kernel {
    ghost var held: Held
    ghost var singleRefs: multiset<Eventfd>
    ghost var disIntx: bool
    /** The triggers signalled; None stands for a signal to an absent trigger. */
    ghost var signals: seq<Option<Eventfd>>
    /** The vectors for which a name, an eventfd or a handler was refused. */
    ghost var refused: seq<nat>
    /** How many requests were refused, in all. */
    ghost var refusals: nat
    /** How many context arrays were refused. */
    ghost var arraysRefused: nat
    /** What the device answered when asked whether its interrupt is pending, to be masked and to be unmasked. */
    ghost var pendingAtMask: seq<bool>
    ghost var pendingAtUnmask: seq<bool>
    /** What `pci_alloc_irq_vectors` last answered. */
    ghost var offered: int

    /** Nothing is held. */
    constructor ()
      ensures held == NOTHING_HELD && singleRefs == multiset{} && signals == []
    {
      held, singleRefs, signals := NOTHING_HELD, multiset{}, [];
    }

    /** `kzalloc` and `kcalloc` of a context array; a negative count never succeeds. */
    method AllocArray(n: int) returns (ok: bool)
      modifies this`held, this`refusals, this`arraysRefused
      ensures ok ==> n >= 0
      ensures arraysRefused == if ok then old(arraysRefused) else old(arraysRefused) + 1
      ensures held == old(held).(arrays := old(held.arrays) + (if ok then 1 else 0))
      ensures refusals == old(refusals) + (if ok then 0 else 1)
    {
      ok := *;
      ok := ok && n >= 0;
      arraysRefused := if ok then arraysRefused else arraysRefused + 1;
      held := held.(arrays := held.arrays + (if ok then 1 else 0));
      refusals := refusals + (if ok then 0 else 1);
    }

    method FreeArray()
      requires held.arrays > 0
      modifies this`held
      ensures held == old(held).(arrays := old(held.arrays) - 1)
    {
      held := held.(arrays := held.arrays - 1);
    }

    /** `kasprintf`, for the name of a vector's handler. */
    method AllocName(vector: nat) returns (ok: bool)
      modifies this`held, this`refusals, this`refused
      ensures held == old(held).(names := old(held.names) + (if ok then 1 else 0))
      ensures refused == if ok then old(refused) else old(refused) + [vector]
      ensures refusals == old(refusals) + (if ok then 0 else 1)
    {
      ok := *;
      held := held.(names := held.names + (if ok then 1 else 0));
      refused := if ok then refused else refused + [vector];
      refusals := refusals + (if ok then 0 else 1);
    }

    method FreeName()
      requires held.names > 0
      modifies this`held
      ensures held == old(held).(names := old(held.names) - 1)
    {
      held := held.(names := held.names - 1);
    }

    /** `eventfd_ctx_fdget`: a descriptor that is not an eventfd gives an error. */
    method EventfdGet(vector: nat, fd: int, files: map<int, Eventfd>) returns (e: Option<Eventfd>)
      modifies this`held, this`refusals, this`refused
      ensures e == if fd in files then Some(files[fd]) else None
      ensures held == if e.Some? then old(held).(refs := old(held.refs) + multiset{e.value}) else old(held)
      ensures refused == if e.Some? then old(refused) else old(refused) + [vector]
      ensures refusals == old(refusals) + (if e.Some? then 0 else 1)
    {
      e := if fd in files then Some(files[fd]) else None;
      held := if e.Some? then held.(refs := held.refs + multiset{e.value}) else held;
      refused := if e.Some? then refused else refused + [vector];
      refusals := refusals + (if e.Some? then 0 else 1);
    }

    method EventfdPut(e: Eventfd)
      requires e in held.refs
      modifies this`held
      ensures held == old(held).(refs := old(held.refs) - multiset{e})
    {
      held := held.(refs := held.refs - multiset{e});
    }

    /** The same two for the error and request triggers, accounted apart. */
    method SingleGet(fd: int, files: map<int, Eventfd>) returns (e: Option<Eventfd>)
      modifies this`singleRefs
      ensures e == if fd in files then Some(files[fd]) else None
      ensures singleRefs == old(singleRefs) + (if e.Some? then multiset{e.value} else multiset{})
    {
      e := if fd in files then Some(files[fd]) else None;
      singleRefs := singleRefs + (if e.Some? then multiset{e.value} else multiset{});
    }

    method SinglePut(e: Eventfd)
      requires e in singleRefs
      modifies this`singleRefs
      ensures singleRefs == old(singleRefs) - multiset{e}
    {
      singleRefs := singleRefs - multiset{e};
    }

    /** `request_irq` on a vector without a handler. */
    method RequestIrq(vector: nat, cookie: Cookie) returns (ret: int)
      requires vector !in held.handlers
      modifies this`held, this`refusals, this`refused
      ensures held == if ret == 0 then old(held).(handlers := old(held.handlers)[vector := cookie]) else old(held)
      ensures refused == if ret == 0 then old(refused) else old(refused) + [vector]
      ensures refusals == old(refusals) + (if ret == 0 then 0 else 1)
    {
      ret := *;
      held := if ret == 0 then held.(handlers := held.handlers[vector := cookie]) else held;
      refused := if ret == 0 then refused else refused + [vector];
      refusals := refusals + (if ret == 0 then 0 else 1);
    }

    /** `free_irq` must be given the cookie the handler was registered with. */
    method FreeIrq(vector: nat, cookie: Cookie)
      requires vector in held.handlers && held.handlers[vector] == cookie
      modifies this`held
      ensures held == old(held).(handlers := old(held.handlers) - {vector})
    {
      held := held.(handlers := held.handlers - {vector});
    }

    /** `pci_alloc_irq_vectors(pdev, 1, nvec, flag)`: an error or a number from 1 to nvec; moves DisINTx. */
    method AllocVectors(nvec: int) returns (ret: int)
      requires held.vectors == 0
      modifies this`held, this`refusals, this`disIntx, this`offered
      ensures offered == ret
      ensures ret < 0 || 1 <= ret <= nvec
      ensures held == old(held).(vectors := if ret > 0 then ret else 0)
      ensures refusals == old(refusals) + (if ret == nvec then 0 else 1)
    {
      ret := *;
      if ret == 0 || ret > nvec {
        ret := -28;
      }
      held := held.(vectors := if ret > 0 then ret else 0);
      disIntx, offered := *, ret;
      refusals := refusals + (if ret == nvec then 0 else 1);
    }

    /** `pci_free_irq_vectors`: no handler may remain. */
    method FreeVectors()
      requires held.vectors > 0 && held.handlers == map[]
      modifies this`held, this`disIntx
      ensures held == old(held).(vectors := 0)
    {
      held := held.(vectors := 0);
      disIntx := *;
    }

    /** `pci_intx(pdev, enable)`. */
    method PciIntx(enable: bool)
      modifies this`disIntx
      ensures disIntx == !enable
    {
      disIntx := !enable;
    }

    /** `pci_check_and_mask_intx`: masks and reports an interrupt of the device, if one is pending. */
    method CheckAndMask() returns (pending: bool)
      modifies this`disIntx, this`pendingAtMask
      ensures disIntx == (old(disIntx) || pending)
      ensures pendingAtMask == old(pendingAtMask) + [pending]
    {
      pending := *;
      pendingAtMask := pendingAtMask + [pending];
      disIntx := disIntx || pending;
    }

    /** `pci_check_and_unmask_intx`: unmasks unless an interrupt is pending. */
    method CheckAndUnmask() returns (unmasked: bool)
      modifies this`disIntx, this`pendingAtUnmask
      ensures disIntx == (old(disIntx) && !unmasked)
      ensures pendingAtUnmask == old(pendingAtUnmask) + [!unmasked]
    {
      unmasked := *;
      pendingAtUnmask := pendingAtUnmask + [!unmasked];
      disIntx := disIntx && !unmasked;
    }

    /** `vfio_virqfd_enable`: fails when one is installed already or the descriptor is no eventfd. */
    method VirqfdEnable(installed: bool, fd: int, files: map<int, Eventfd>) returns (ret: int)
      modifies this`held, this`refusals
      ensures ret == 0 ==> !installed && fd in files
      ensures held == if ret == 0 then old(held).(virqfds := old(held.virqfds) + 1) else old(held)
      ensures refusals == old(refusals) + (if ret == 0 then 0 else 1)
    {
      ret := *;
      if installed || fd !in files {
        ret := -16;
      }
      held := if ret == 0 then held.(virqfds := held.virqfds + 1) else held;
      refusals := refusals + (if ret == 0 then 0 else 1);
    }

    method VirqfdDisable(installed: bool)
      requires installed ==> held.virqfds > 0
      modifies this`held
      ensures held == if installed then old(held).(virqfds := old(held.virqfds) - 1) else old(held)
    {
      held := if installed then held.(virqfds := held.virqfds - 1) else held;
    }

    /** `eventfd_signal(e, 1)`. */
    method Signal(e: Option<Eventfd>)
      modifies this`signals
      ensures signals == old(signals) + [e]
    {
      signals := signals + [e];
    }
  }
}
