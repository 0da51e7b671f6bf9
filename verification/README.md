# Verified models of VFIO PCI control and pbr versioning

Dafny 4.11 models of four components of this repository, with proofs about them.
`dafny verify dfyconfig.toml` checks everything.

## VFIO PCI interrupts

`IrqControl` is a device as a class: `irqType`, `numCtx`, the context array and the two single triggers are changed
in place, by one method for each function of `vfio_pci_intrs.c`. Kernel services (`IrqKernel`) are nondeterministic
and keep a ledger of what is held; each release demands that the thing released is held. `IrqState` says what mode
and entries account for and states one ioctl as a relation on values, so that runs of ioctls can be reasoned about.
`IoctlOutcomes` says for each kind of call what that relation means. `IntxLine` is the concurrent part: one step per
lock section, with sending a signal, the virtual disable bit and the three writes of enabling as steps of their own.

## VFIO PCI lifetime, reset and mapping

`PciBus` has the bus as a finite tree and, as in the kernel, upward pointers from a device to its bus and from a bus
to its bridge; `pci_walk_bus` is a preorder walk that stops at the first nonzero result. `BusReset` and `HotReset`
walk the bus twice and allow it to differ between the walks. `Lifetime` covers open, release and disable, with the
interrupts of `IrqControl` and the bus reset inside, and runs over any number of devices. `MsixMmap` is the page
arithmetic around the MSI-X table (PCI Local Bus Specification 3.0, section 6.8.2).

## pbr versions and data files

`SemVer` has versions and their order, `PipVersion` printer and parser, `PipVersionProofs`, `PipVersionLegacy` and
`RpmVersion` the laws about them. `GitVersion` calculates a version from a linear history, `GitVersionProofs` says
where it lies and when it rises; `GitLog` has the facts about log text behind that. `DataFiles` is the loop that fills a
dictionary of lists through an alias, with lists as objects. `Counterexamples` holds concrete inputs
outside the conditions of the laws.

## Where the code and its promises differ

- The order and equality disagree for a prerelease and its development version `sys.maxsize`, and order and precedence
  for those beyond; `v.postK` is below the increment of a prerelease only for smaller K. The laws state this as an
  if-and-only-if.
- Rows are counted from zero, so the first commit of a history without tags has the same version, 0.0.0, as none.
- The output of `git log` is stripped, so a Sem-Ver header that is indented counts when it is the first line of the
  newest message and no longer counts one commit later: without a target the version can drop, and does so exactly
  when that header alone decides the impact.
- The branch of the parser for a third component that is no number cannot be reached.
- The parser accepts any alphabetic prerelease type, such as `0x5`; such a version prints and parses back, but cannot be ordered.
- `vfio_intx_enable` does not take `irqlock`: a config-space mask between programming DisINTx and setting `irq_type`
  leaves the flag clear and the bit set. The flag follows the bit exactly when the last such write agrees with it.
- A `data_files` key that keeps surrounding space after unquoting is looked up with the space and stored without it, so
  a second line for it replaces the first one's files.
- Within four digits the RPM strings of 0.0.0 and 1.0.0 collide for the same prerelease or development version.

## Model

| member | source | states |
|---|---|---|
| IrqControl.IrqDevice.SetIrqsIoctl | kernel/kernel-examples/lock/vfio_pci_intrs.c:625-680 | every ioctl, whatever fails inside it, leaves held eventfd references, handlers, names, virqfds, vectors and the context array exactly as mode and entries account for; its effect and result are one step of the ioctl relation; on a PCI 2.3 device the masked flag still follows DisINTx; a well-formed call fails exactly when a service refused a request or the device lacks the interrupt line it asks for |
| IrqState.RunKeepsShape | kernel/kernel-examples/lock/vfio_pci_intrs.c:454-529 | over any run of ioctls mode and number of contexts agree (none 0, INTx 1, MSI/MSI-X at least 1, which the device invariant ties to the vectors held), no call moves directly between two interrupt modes, and a call that starts in none and returns nonzero, the positive "fewer vectors" included, ends in none |
| IrqState.ModeChangePassesNone | kernel/kernel-examples/lock/vfio_pci_intrs.c:454-529 | two different modes in a run have a state without interrupts between them |
| IrqState.HoldingsMeaning | kernel/kernel-examples/lock/vfio_pci_intrs.c:145-402 | an entry has a trigger exactly when its vector has a handler, and triggers, references, names and handlers are equally many |
| IrqState.NoneHoldsNothing | kernel/kernel-examples/lock/vfio_pci_intrs.c:229-237 | mode none accounts for nothing at all |
| IrqState.AttachAccounts | kernel/kernel-examples/lock/vfio_pci_intrs.c:287-355 | giving a free entry a trigger accounts for one more reference, one more name and its own handler, no more |
| IrqState.DetachAccounts | kernel/kernel-examples/lock/vfio_pci_intrs.c:287-355 | taking the trigger away finds all three held and accounts for their return |
| IrqControl.IrqDevice.SetSignal | kernel/kernel-examples/lock/vfio_pci_intrs.c:174-227 | on success the entry has the wanted trigger; on any failure it has none, the old one given back all the same, and the refusal is on record for exactly this vector; every other entry is unchanged and the holdings balance |
| IrqControl.IrqDevice.MsiSetVectorSignal | kernel/kernel-examples/lock/vfio_pci_intrs.c:287-355 | the same for one vector; a vector out of range is EINVAL and changes nothing |
| IrqControl.IrqDevice.MsiSetBlock | kernel/kernel-examples/lock/vfio_pci_intrs.c:357-376 | in range and successful: each vector of the block has the wanted trigger and all others are untouched; failed: exactly one vector k of the block was refused, start to k have no trigger and all others keep theirs, or, when start + count wraps, none was refused and everything from start on is cleared; out of range after the wrap: nothing changes |
| IrqControl.IrqDevice.Rollback | kernel/kernel-examples/lock/vfio_pci_intrs.c:370-373 | the downward loop clears the vectors from the failed one to start and no other |
| IrqControl.IrqDevice.MsiEnable | kernel/kernel-examples/lock/vfio_pci_intrs.c:250-285 | all the vectors asked for or none; a positive result is the smaller number the PCI core offered; on any failure everything taken is given back |
| IrqState.QmaxIsLog | kernel/kernel-examples/lock/vfio_pci_intrs.c:275-281 | msi_qmax is the exponent of the least power of two that holds all vectors |
| IrqControl.IrqDevice.MsiDisable | kernel/kernel-examples/lock/vfio_pci_intrs.c:378-402 | ends in none with triggers, vectors and array given back, and DisINTx set again on a device without usable INTx |
| IrqControl.IrqDevice.IntxEnable | kernel/kernel-examples/lock/vfio_pci_intrs.c:145-172 | EINVAL exactly when a mode is on, ENODEV exactly when else the device has no irq line, ENOMEM exactly for a refused array; otherwise one context, masked as the virtual interrupt is, and on PCI 2.3 the machine's three enabling steps; on failure nothing changed |
| IrqControl.IrqDevice.IntxDisable | kernel/kernel-examples/lock/vfio_pci_intrs.c:229-237 | ends in none with virqfd, trigger and array given back; the line takes the machine's unregister and disable steps |
| IrqControl.IrqDevice.ResignalIntx | kernel/kernel-examples/lock/vfio_pci_intrs.c:174-227 | re-signalling is the machine's unregister step, followed by register exactly when a new trigger was installed; the flag survives |
| IrqControl.IrqDevice.IntxMask | kernel/kernel-examples/lock/vfio_pci_intrs.c:39-69 | a mask is the machine's mask step: the flag is set, DisINTx too on PCI 2.3, and no signal is sent; a masked line stays as it is |
| IrqControl.IrqDevice.IntxUnmask | kernel/kernel-examples/lock/vfio_pci_intrs.c:77-117 | nothing when not masked or virtually disabled; otherwise a PCI 2.3 device is asked once, and the line ends masked with one signal to the entry's trigger, attached or not, exactly when an interrupt is pending, and else unmasked, flag and bit, without a signal |
| IrqControl.IrqDevice.IntxHandler | kernel/kernel-examples/lock/vfio_pci_intrs.c:119-143 | on PCI 2.3 the device is asked exactly when the line is not masked, and the interrupt is handled exactly when it answers that one is pending; then the line is masked, flag and bit, and signalled once unless virtually disabled |
| IrqControl.IrqDevice.SetIntxTrigger | kernel/kernel-examples/lock/vfio_pci_intrs.c:454-495 | disable, enable with a signal (a failure of either part ends in none), re-signal, or a loopback signal |
| IrqControl.IrqDevice.SetMsiTrigger | kernel/kernel-examples/lock/vfio_pci_intrs.c:497-546 | disable, enable with a block (a failure of either part ends in none), block, or a loopback signal to each chosen vector with a trigger, in order |
| IrqControl.IrqDevice.SetSingle | kernel/kernel-examples/lock/vfio_pci_intrs.c:548-601 | error and request trigger: at most one reference, put when replaced or dropped and kept on failure |
| IoctlOutcomes.MaskCall | kernel/kernel-examples/lock/vfio_pci_intrs.c:434-452 | masking INTx without data or with a true masks it silently, with a false it does nothing |
| IoctlOutcomes.UnmaskCall | kernel/kernel-examples/lock/vfio_pci_intrs.c:407-432 | unmasking without data or with a true unmasks silently or signals the trigger once; nothing otherwise |
| IoctlOutcomes.UnmaskFdCall | kernel/kernel-examples/lock/vfio_pci_intrs.c:422-429 | a descriptor with the unmask action installs an unmask virqfd, once, and a negative one removes it |
| IoctlOutcomes.OtherKindCall | kernel/kernel-examples/lock/vfio_pci_intrs.c:434-452 | a mask by descriptor is ENOTTY; a mask or unmask that names no kind of data succeeds and does nothing |
| IoctlOutcomes.LoopbackCall | kernel/kernel-examples/lock/vfio_pci_intrs.c:488-492 | a loopback test of INTx sends one signal, if asked and not virtually disabled |
| IoctlOutcomes.OffCall | kernel/kernel-examples/lock/vfio_pci_intrs.c:454-511 | no data and no vectors on the index of the mode that is on turns it off and changes nothing else |
| IoctlOutcomes.OnCall | kernel/kernel-examples/lock/vfio_pci_intrs.c:463-529 | from mode none only descriptors turn a mode on, the one of their index, with one context for INTx and start + count vectors for MSI and MSI-X |
| IoctlOutcomes.BlockCall | kernel/kernel-examples/lock/vfio_pci_intrs.c:516-533 | after a successful call each vector of the block has the trigger its descriptor names, or none for a negative one |
| IoctlOutcomes.LoopbackMsiCall | kernel/kernel-examples/lock/vfio_pci_intrs.c:535-546 | a loopback test of a range changes nothing but the signals |
| IoctlOutcomes.LoopbackSignals | kernel/kernel-examples/lock/vfio_pci_intrs.c:535-546 | the signals of a loopback test are those of its vectors, one each, in order |
| IoctlOutcomes.LoopbackStep | kernel/kernel-examples/lock/vfio_pci_intrs.c:535-546 | vectors without a trigger and those not chosen are passed over |
| IoctlOutcomes.SingleCall | kernel/kernel-examples/lock/vfio_pci_intrs.c:548-623 | error and request trigger: a descriptor replaces, -1 drops, a bad one changes nothing, no data signals or drops; the other trigger is untouched |
| IoctlOutcomes.RefusedCalls | kernel/kernel-examples/lock/vfio_pci_intrs.c:625-680 | unknown indices and actions answer ENOTTY, calls against the wrong mode EINVAL, and none of them changes anything |
| IntxLine.MaskedFollowsDisIntx | kernel/kernel-examples/lock/vfio_pci_intrs.c:31-227 | in every interleaving of handler, mask, unmask, enable, re-signal and virtual disable steps, masked equals DisINTx in INTx mode after each event if and only if in every window from programming DisINTx to publishing INTx the last config-space mask or unmask, if any, leaves the bit as programmed |
| IntxLine.StepFollows | kernel/kernel-examples/lock/vfio_pci_intrs.c:145-172 | no step but publishing can break the equality |
| IntxLine.WindowExact | kernel/kernel-examples/lock/vfio_pci_intrs.c:160-169 | one window, whatever happens in it: INTx is published following the bit exactly when the last write in the window agrees with the flag |
| IntxLine.UndisturbedKeeps | kernel/kernel-examples/lock/vfio_pci_intrs.c:160-169 | a run without config-space writes in its windows is one that meets the condition |
| IntxLine.WindowBreaksFollowing | kernel/kernel-examples/lock/vfio_pci_intrs.c:160-169 | the four steps that break it: enabling takes no irqlock, so a config-space mask can fall in between |
| IntxLine.UnmaskOutcome | kernel/kernel-examples/lock/vfio_pci_intrs.c:77-117 | unmasking a masked line ends physically enabled, or masked with one signal owed |
| IntxLine.HandledBound | kernel/kernel-examples/lock/vfio_pci_intrs.c:77-143 | in every run since INTx was enabled the handled interrupts number at most one more than the unmaskings |
| IntxLine.HandledAlternate | kernel/kernel-examples/lock/vfio_pci_intrs.c:119-143 | between two handled interrupts of any run the line was unmasked, or INTx was enabled anew |
| IntxLine.LineComesUp | kernel/kernel-examples/lock/vfio_pci_intrs.c:145-227 | the enabling steps and a registration lead to a line whose handler runs, flag and bit clear when not virtually disabled |
| IntxLine.LineWorks | kernel/kernel-examples/lock/vfio_pci_intrs.c:31-143 | on such a line a pending interrupt is handled, masks flag and bit, owes one signal, and an unmask undoes it or owes another; a spurious one changes nothing |
| IntxLine.LineGoesDown | kernel/kernel-examples/lock/vfio_pci_intrs.c:229-237 | the handler goes before INTx does, and the flag goes with it |
| MsixMmap.SparseAreas | kernel/kernel-examples/lock/vfio_pci.c:558-598 | the allocated array is filled within its bounds and holds exactly the areas advertised |
| MsixMmap.AreasCoverTheRest | kernel/kernel-examples/lock/vfio_pci.c:558-598 | for a table inside its BAR the areas are disjoint and cover exactly the bytes of the BAR whose page the table does not touch |
| MsixMmap.AdmittedIsAdvertised | kernel/kernel-examples/lock/vfio_pci.c:1098-1132 | a nonempty page-aligned request passes the range and overlap tests exactly when it lies in an advertised area, the BAR end rounded up to a page |
| MsixMmap.Bars.Mmap | kernel/kernel-examples/lock/vfio_pci.c:1090-1157 | a mapping reaches remap_pfn_range only if its bytes stay within the BAR rounded up to a page and none lies in the MSI-X table; a shared supported request that meets both is granted whenever the PCI core does; EINVAL exactly for unacceptable requests; a BAR is reserved once, and released again when it cannot be mapped in |
| PciBus.DevBelowSlot | kernel/kernel-examples/lock/vfio_pci.c:518-524 | the climb terminates and answers from the first bus on the way up that is the slot's |
| PciBus.AffectedIsSlotSubtrees | kernel/kernel-examples/lock/vfio_pci.c:518-556 | on a bus whose number does not recur below it, the devices a slot walk hands on are exactly the subtrees of the slot's devices, in walk order |
| PciBus.ClimbInSubtree | kernel/kernel-examples/lock/vfio_pci.c:518-524 | a device answers the climb as the top of its subtree does |
| PciBus.AffectedIsWholeBus | kernel/kernel-examples/lock/vfio_pci.c:534-556 | a bus walk hands on every device |
| PciBus.OwnResetAffects | kernel/kernel-examples/lock/vfio_pci.c:534-556 | a device is among those its own slot or bus reset affects |
| PciBus.CountDevs | kernel/kernel-examples/lock/vfio_pci.c:454-458 | the count is the number of devices the walk hands on |
| PciBus.WalkReaches | kernel/kernel-examples/lock/vfio_pci.c:544-556 | every device on the bus and behind any number of bridges below it is visited |
| PciBus.WalkHasPath | kernel/kernel-examples/lock/vfio_pci.c:544-556 | and no other |
| VfioDevice.TargetMatches | kernel/kernel-examples/lock/vfio_pci.c:1352-1381 | what a reset of the chosen target acts on is exactly what the walk checks, and a resettable slot is preferred to the bus |
| VfioDevice.NoReach | kernel/kernel-examples/lock/vfio_pci.c:1352-1356 | no reset is possible exactly when neither slot nor bus can be reset |
| BusReset.GetDevs | kernel/kernel-examples/lock/vfio_pci.c:1313-1332 | the walk stops at the first device too many, unknown or foreign, and its error says which; it holds one reference for each device before that one and none for it |
| BusReset.MayReset | kernel/kernel-examples/lock/vfio_pci.c:1371-1377 | the scan finds whether none is in use, and if so whether some device needs a reset |
| BusReset.TryBusReset | kernel/kernel-examples/lock/vfio_pci.c:1346-1396 | a reset is issued exactly when it is warranted: a possible reach, memory, no more devices than counted, all bound to this driver, none open, one in need; its target is the slot when that is resettable, and every device the target acts on is bound and not open; needs_reset is cleared on all affected devices exactly when a reset was issued and answers 0, otherwise on none; every reference taken is dropped once on every path |
| BusReset.SlotResetSparesUse | kernel/kernel-examples/lock/vfio_pci.c:1346-1396 | a warranted slot reset touches no open or foreign device in the slot or anywhere below it |
| BusReset.WarrantedSpares | kernel/kernel-examples/lock/vfio_pci.c:1346-1396 | the target of a warranted reset acts on no open or foreign device, and on one that needs it |
| BusReset.WarrantedOnQuietBus | kernel/kernel-examples/lock/vfio_pci.c:1346-1396 | when the bus does not change between the two walks the count has no part in the decision |
| HotReset.AcquireGroups | kernel/kernel-examples/lock/vfio_pci.c:989-1008 | one reference for each entry up to the first descriptor that is not a vfio group, whose error it returns |
| HotReset.ReleaseGroups | kernel/kernel-examples/lock/vfio_pci.c:1029-1031 | from any break point the downward loop drops each of them once |
| HotReset.ValidateDevs | kernel/kernel-examples/lock/vfio_pci.c:497-516 | succeeds exactly when every affected device has its iommu group among the entries; iommu group references balance |
| HotReset.HotReset | kernel/kernel-examples/lock/vfio_pci.c:931-1035 | a reset is attempted exactly when 1 to count descriptors all name vfio groups that own every affected device (given memory and a readable request), and its answer is the result; its target is the slot when that is resettable, and every device the target acts on has its iommu group among the descriptors; group and iommu references balance on every path |
| HotReset.PermittedOwnsSubtrees | kernel/kernel-examples/lock/vfio_pci.c:989-1034 | a permitted slot reset has the iommu group of every device in the slot, and anywhere below it, among those supplied |
| HotReset.PermittedOwnsTarget | kernel/kernel-examples/lock/vfio_pci.c:989-1034 | the target of a permitted reset acts on devices of supplied groups only |
| HotReset.HotResetInfo | kernel/kernel-examples/lock/vfio_pci.c:858-930 | reports one group per affected device in walk order; ENOSPC with the count when there is no room, EPERM when a counted device has no group, else EAGAIN when devices were added |
| HotReset.PermittedIffReported | kernel/kernel-examples/lock/vfio_pci.c:989-1034 | on an unchanged bus a reset is permitted exactly to a descriptor list of allowed length whose groups cover the reported ones |
| HotReset.OneDescriptorPerGroupSuffices | kernel/kernel-examples/lock/vfio_pci.c:951-967 | one descriptor per distinct reported group is never too many and always permits the reset |
| Lifetime.Driver.Open | kernel/kernel-examples/lock/vfio_pci.c:390-413 | one module reference and one count more, or neither; only the first open enables the device, and a PCI 2.3 device then has DisINTx clear; without a live module it is ENODEV, otherwise the first open answers what the PCI core or the config setup answered |
| Lifetime.Driver.Release | kernel/kernel-examples/lock/vfio_pci.c:374-388 | one of each less; only the last release disables, and then no interrupt resource is held |
| Lifetime.Driver.Enable | kernel/kernel-examples/lock/vfio_pci.c:213-292 | the device ends enabled exactly when the call answers 0, so a failing config setup disables it again; the result is the PCI core's answer, or the config setup's once that is 0; PCI 2.3 support is recorded as the device reports it unless masking by DisINTx is switched off or broken, and such a device leaves with DisINTx clear |
| Lifetime.Driver.Disable | kernel/kernel-examples/lock/vfio_pci.c:294-372 | mode none, nothing held, the virtual disable bit clear, device references balanced; a bus reset is issued exactly when one is warranted after the function reset; the device needs a reset afterwards unless its function reset or that bus reset answered 0 |
| Lifetime.OffCallTurnsOff | kernel/kernel-examples/lock/vfio_pci_intrs.c:458-461 | the call with the current irq_type as index, no data and count 0 turns off INTx, MSI or MSI-X, and changes nothing in mode none |
| Lifetime.RunBalances | kernel/kernel-examples/lock/vfio_pci.c:374-413 | in every run of opens, releases, ioctls and interrupts over any number of devices, module references equal the sum of the counts and a device is enabled exactly while open |
| Lifetime.ClosedHoldsNothing | kernel/kernel-examples/lock/vfio_pci.c:294-331 | a device closed at any point of a run is in mode none there, and nothing is accounted for it |
| Lifetime.ReleaseFindsReference | kernel/kernel-examples/lock/vfio_pci.c:374-388 | an open device guarantees a module reference for its release to drop |
| SemVer.KeyOrderIsPrecedence | coding/python/stevedore/example/.eggs/pbr-5.3.1-py2.7.egg/pbr/version.py:71-102 | the hand-made sort key orders versions by release number, then dev < a < b < rc < final, then prerelease number, then dev count, except exactly for a prerelease against its own development versions past sys.maxsize |
| SemVer.TotalOrder | coding/python/stevedore/example/.eggs/pbr-5.3.1-py2.7.egg/pbr/version.py:94-114 | the four comparisons form one strict total order consistent with equality, except exactly for a prerelease against its own development version sys.maxsize |
| SemVer.LtTransitive | coding/python/stevedore/example/.eggs/pbr-5.3.1-py2.7.egg/pbr/version.py:94-102 | less-than is transitive |
| SemVer.SortKeyInjective | coding/python/stevedore/example/.eggs/pbr-5.3.1-py2.7.egg/pbr/version.py:71-92 | equal keys mean equal versions, with the same one exception |
| SemVer.IncrementChain | coding/python/stevedore/example/.eggs/pbr-5.3.1-py2.7.egg/pbr/version.py:276-316 | v < increment < minor increment < major increment, always |
| SemVer.IncrementNumbers | coding/python/stevedore/example/.eggs/pbr-5.3.1-py2.7.egg/pbr/version.py:276-316 | the numbers: the next prerelease or patch, M.(m+1).0, (M+1).0.0, and no dev count |
| SemVer.ToDevNumbers | coding/python/stevedore/example/.eggs/pbr-5.3.1-py2.7.egg/pbr/version.py:362-369 | to_dev changes the dev count only |
| SemVer.DevBelowRelease | coding/python/stevedore/example/.eggs/pbr-5.3.1-py2.7.egg/pbr/version.py:362-369 | a development version is below its release, unless a prerelease with a count of sys.maxsize or more |
| SemVer.ToDevReverses | coding/python/stevedore/example/.eggs/pbr-5.3.1-py2.7.egg/pbr/version.py:362-369 | to_dev reverses an order exactly between a prerelease and its final version |
| SemVer.DecrementReading | coding/python/stevedore/example/.eggs/pbr-5.3.1-py2.7.egg/pbr/version.py:247-274 | within four digits decrement is minus one on the base-10000 reading, and 0.0.0 wraps to 0.9999.9999 |
| SemVer.DecrementAdjacent | coding/python/stevedore/example/.eggs/pbr-5.3.1-py2.7.egg/pbr/version.py:247-274 | among releases with minor and patch at most 9999 none lies between a release and its decrement |
| PipVersion.BuildLongVersion | coding/python/stevedore/example/.eggs/pbr-5.3.1-py2.7.egg/pbr/version.py:318-343 | the segment list joins to the printed form |
| PipVersion.NormaliseComponents | coding/python/stevedore/example/.eggs/pbr-5.3.1-py2.7.egg/pbr/version.py:155-173 | the in-place edits of the component lists, against their specification |
| PipVersion.FromPipString | coding/python/stevedore/example/.eggs/pbr-5.3.1-py2.7.egg/pbr/version.py:150-233 | the parser with its list edits and loops, against its specification |
| Text.JoinSplit | coding/python/stevedore/example/.eggs/pbr-5.3.1-py2.7.egg/pbr/version.py:155-155 | splitting at a character loses nothing and leaves it in no part |
| Text.StripExact | coding/python/stevedore/example/.eggs/pbr-5.3.1-py2.7.egg/pbr/packaging.py:664-668 | stripping takes white space off both ends and nothing else |
| Text.NumeralPositions | coding/python/stevedore/example/.eggs/pbr-5.3.1-py2.7.egg/pbr/version.py:235-237 | numbers print in decimal notation |
| PipVersionProofs.RoundTrip | coding/python/stevedore/example/.eggs/pbr-5.3.1-py2.7.egg/pbr/version.py:318-350 | parsing undoes printing, for every version whose type is absent or alphabetic, the well-formed ones included |
| PipVersionProofs.ParsePrinted | coding/python/stevedore/example/.eggs/pbr-5.3.1-py2.7.egg/pbr/version.py:150-233 | a printed version followed by postK parses to increment().to_dev(K), for all numbers |
| PipVersionLegacy.ParsedIsPrintable | coding/python/stevedore/example/.eggs/pbr-5.3.1-py2.7.egg/pbr/version.py:150-233 | whatever the parser accepts can be printed |
| PipVersionLegacy.ReprintFixedPoint | coding/python/stevedore/example/.eggs/pbr-5.3.1-py2.7.egg/pbr/version.py:318-350 | re-printing any accepted string reaches a fixed point at once |
| PipVersionLegacy.CanonicalPrerelease | coding/python/stevedore/example/.eggs/pbr-5.3.1-py2.7.egg/pbr/version.py:181-211 | M.m.p.0Tn is the prerelease Tn of M.m.p, for all digit strings |
| PipVersionLegacy.AttachedPrerelease | coding/python/stevedore/example/.eggs/pbr-5.3.1-py2.7.egg/pbr/version.py:155-211 | M.m.pTn parses the same |
| PipVersionLegacy.BarePrerelease | coding/python/stevedore/example/.eggs/pbr-5.3.1-py2.7.egg/pbr/version.py:181-211 | M.m.p.Tn parses the same |
| PipVersionLegacy.ShortPrerelease | coding/python/stevedore/example/.eggs/pbr-5.3.1-py2.7.egg/pbr/version.py:155-211 | M.mTn parses as the prerelease of M.m.0 |
| PipVersionLegacy.OldDevFormat | coding/python/stevedore/example/.eggs/pbr-5.3.1-py2.7.egg/pbr/version.py:196-205 | M.m.p.N.gHASH is M.m.p.devN for N at least 1, and an error for N = 0 |
| PipVersionLegacy.PostIsDevOfIncrement | coding/python/stevedore/example/.eggs/pbr-5.3.1-py2.7.egg/pbr/version.py:227-232 | v.postK is increment().to_dev(K), above v, and below the increment exactly when v has no prerelease or K < sys.maxsize |
| PipVersionLegacy.LeadingV | coding/python/stevedore/example/.eggs/pbr-5.3.1-py2.7.egg/pbr/version.py:151-152 | a leading v or V is ignored, before every string |
| PipVersionLegacy.NoDigitRejected | coding/python/stevedore/example/.eggs/pbr-5.3.1-py2.7.egg/pbr/version.py:153-154 | any other string that does not start with a digit is an error |
| PipVersionLegacy.ShortForms | coding/python/stevedore/example/.eggs/pbr-5.3.1-py2.7.egg/pbr/version.py:155-173 | M and M.m stand for M.0.0 and M.m.0, M.m.p for itself, for all digit strings |
| PipVersionLegacy.SuffixedForms | coding/python/stevedore/example/.eggs/pbr-5.3.1-py2.7.egg/pbr/version.py:211-232 | M.m.p with any devN and postN segments: the last counts hold, a post count forgets the dev count before it, and nonzero counts of both kinds are an error |
| PipVersionLegacy.UnknownFormRejected | coding/python/stevedore/example/.eggs/pbr-5.3.1-py2.7.egg/pbr/version.py:211-224 | a segment of any other kind is an error wherever it stands |
| PipVersionLegacy.ReleaseForm | coding/python/stevedore/example/.eggs/pbr-5.3.1-py2.7.egg/pbr/version.py:318-350 | the release string is M.m.p, then .0Tn for a prerelease, then .devN |
| PipVersionLegacy.RpmForm | coding/python/stevedore/example/.eggs/pbr-5.3.1-py2.7.egg/pbr/version.py:318-360 | the RPM string is the release before it for anything not final, then .Tn and .devN |
| RpmVersion.RpmStringInjective | coding/python/stevedore/example/.eggs/pbr-5.3.1-py2.7.egg/pbr/version.py:318-360 | with minor and patch at most 9999, two well-formed versions share an RPM string exactly when equal, or the same prerelease or dev count of 0.0.0 and of 1.0.0 |
| RpmVersion.DecrementInjective | coding/python/stevedore/example/.eggs/pbr-5.3.1-py2.7.egg/pbr/version.py:247-274 | decrement is injective there apart from that wrap |
| GitVersion.GetIncrementKwargs | coding/python/stevedore/example/.eggs/pbr-5.3.1-py2.7.egg/pbr/packaging.py:645-683 | minor and major are set exactly by the comma-separated symbols of the Sem-Ver lines |
| GitLog.ImpactOfLog | coding/python/stevedore/example/.eggs/pbr-5.3.1-py2.7.egg/pbr/packaging.py:663-668 | a symbol counts exactly when a line of the log starts with the header, in any case, and lists it between commas |
| GitLog.LineLists | coding/python/stevedore/example/.eggs/pbr-5.3.1-py2.7.egg/pbr/packaging.py:663-668 | a header line lists the stripped parts of what follows it, another line nothing |
| GitLog.LogCollects | coding/python/stevedore/example/.eggs/pbr-5.3.1-py2.7.egg/pbr/packaging.py:661-668 | the log of some commits has the symbols of their messages |
| GitLog.ImpactSymbols | coding/python/stevedore/example/.eggs/pbr-5.3.1-py2.7.egg/pbr/packaging.py:670-683 | api-break is major, feature and deprecation are minor, nothing else has an impact |
| GitLog.HeaderSpellings | coding/python/stevedore/example/.eggs/pbr-5.3.1-py2.7.egg/pbr/packaging.py:665-665 | the documented spelling Sem-Ver: is a header |
| GitVersion.MaxVersion | coding/python/stevedore/example/.eggs/pbr-5.3.1-py2.7.egg/pbr/packaging.py:706-706 | the maximum over the set, or a KeyError exactly when an unknown type has to be compared |
| GitVersion.GetRevnoAndLastTag | coding/python/stevedore/example/.eggs/pbr-5.3.1-py2.7.egg/pbr/packaging.py:686-707 | a highest version tag of the first commit that has one, and its row; without one, no tag and the last row |
| GitVersion.GetVersionFromGitTarget | coding/python/stevedore/example/.eggs/pbr-5.3.1-py2.7.egg/pbr/packaging.py:710-744 | the calculation in one function of tag, distance, log and target |
| GitVersionProofs.AboveLastTag | coding/python/stevedore/example/.eggs/pbr-5.3.1-py2.7.egg/pbr/packaging.py:725-744 | past the tag the result is strictly above the last version |
| GitVersionProofs.RejectedExactly | coding/python/stevedore/example/.eggs/pbr-5.3.1-py2.7.egg/pbr/packaging.py:727-738 | there is no result exactly when a target is too low for the last version, at its tag, or for the incremented one past it; an equal target never is |
| GitVersionProofs.TooLowIsPrecedence | coding/python/stevedore/example/.eggs/pbr-5.3.1-py2.7.egg/pbr/version.py:94-111 | too low means preceding it, below the sentinel of the sort key |
| GitVersionProofs.ResultExactly | coding/python/stevedore/example/.eggs/pbr-5.3.1-py2.7.egg/pbr/packaging.py:735-744 | the result is the last version at its tag, and past it the greater development version of increment and target |
| GitVersionProofs.ComputedExactly | coding/python/stevedore/example/.eggs/pbr-5.3.1-py2.7.egg/pbr/packaging.py:710-744 | the same for whatever the calculation returns |
| GitVersionProofs.LogEndsAtTag | coding/python/stevedore/example/.eggs/pbr-5.3.1-py2.7.egg/pbr/packaging.py:653-662 | the log runs from the newest commit to just above the one with the tag |
| GitVersionProofs.LastTagIsHighest | coding/python/stevedore/example/.eggs/pbr-5.3.1-py2.7.egg/pbr/packaging.py:695-707 | no version tag on that commit is above the one chosen |
| GitVersionProofs.BelowNextVersion | coding/python/stevedore/example/.eggs/pbr-5.3.1-py2.7.egg/pbr/packaging.py:725-744 | without a target it is strictly below the incremented version, exactly under the sys.maxsize bound |
| GitVersionProofs.BelowTarget | coding/python/stevedore/example/.eggs/pbr-5.3.1-py2.7.egg/pbr/packaging.py:725-744 | it is strictly below any accepted target without a dev count, exactly under that bound |
| GitVersionProofs.IncrementDevOrder | coding/python/stevedore/example/.eggs/pbr-5.3.1-py2.7.egg/pbr/packaging.py:725-744 | development versions of two increments compare by impact, then by distance |
| GitVersionProofs.DistanceRaises | coding/python/stevedore/example/.eggs/pbr-5.3.1-py2.7.egg/pbr/packaging.py:725-744 | further from the tag the result is higher: with an accepted target whatever the impact, without one when the impact is no less |
| GitVersionProofs.EveryCommitRaises | coding/python/stevedore/example/.eggs/pbr-5.3.1-py2.7.egg/pbr/packaging.py:645-683 | every next untagged commit, and every run of them, raises the version if and only if: without a target, the history is not empty and is at its tag or has Sem-Ver lines that decide the impact without stripping; with one, the history is not empty or the target is rejected already |
| GitVersionProofs.EveryComputedVersionRises | coding/python/stevedore/example/.eggs/pbr-5.3.1-py2.7.egg/pbr/packaging.py:710-744 | the same for the results of the calculation before and after, whichever of several equal last tags it chooses each time |
| GitVersionProofs.RunRaises | coding/python/stevedore/example/.eggs/pbr-5.3.1-py2.7.egg/pbr/packaging.py:710-744 | under that condition any run of untagged commits raises it |
| GitVersionProofs.RunRaisesWithTarget | coding/python/stevedore/example/.eggs/pbr-5.3.1-py2.7.egg/pbr/packaging.py:710-744 | with a fixed target that is not rejected any run of untagged commits raises the version of a nonempty history, whatever the messages say |
| GitVersionProofs.PlainCommitStays | coding/python/stevedore/example/.eggs/pbr-5.3.1-py2.7.egg/pbr/packaging.py:645-683 | outside the condition one plain commit does not raise it, with or without a target |
| GitVersionProofs.TidyLinesDecide | coding/python/stevedore/example/.eggs/pbr-5.3.1-py2.7.egg/pbr/packaging.py:661-665 | messages that do not begin with an indented header meet the condition |
| GitVersionProofs.TagMovesBy | coding/python/stevedore/example/.eggs/pbr-5.3.1-py2.7.egg/pbr/packaging.py:686-707 | after a run of untagged commits the last tag is the same, and its row is exactly the old one plus their number, or counts them from zero on an empty history |
| GitVersionProofs.FirstCommitStays | coding/python/stevedore/example/.eggs/pbr-5.3.1-py2.7.egg/pbr/packaging.py:686-707 | the first commit of an untagged history does not change the version, whatever the target, because rows count from zero |
| GitLog.StripSymbols | coding/python/stevedore/example/.eggs/pbr-5.3.1-py2.7.egg/pbr/packaging.py:661-665 | stripping the log adds at most the symbols of the first line it uncovers |
| DataFiles.ParseDataFiles | coding/python/stevedore/example/.eggs/pbr-5.3.1-py2.7.egg/pbr/util.py:380-403 | succeeds exactly when no line is malformed, else raises for the first one that is; the result has one separate list per key with the contents of the specification |
| DataFiles.Apply | coding/python/stevedore/example/.eggs/pbr-5.3.1-py2.7.egg/pbr/util.py:384-403 | prev is the current key's list in the dictionary; extending it changes that list and no other |
| DataFiles.ContentsAreCollected | coding/python/stevedore/example/.eggs/pbr-5.3.1-py2.7.egg/pbr/util.py:380-403 | the keys are those lines were attributed to, each with what was collected for it |
| DataFiles.KeyedLine | coding/python/stevedore/example/.eggs/pbr-5.3.1-py2.7.egg/pbr/util.py:384-396 | a line key=value, split at its first '=': the first unquoted word of the stripped key, and the words of the stripped value |
| DataFiles.ContinuedLine | coding/python/stevedore/example/.eggs/pbr-5.3.1-py2.7.egg/pbr/util.py:397-402 | a line without '=' adds its words to the key before, and is an error as first line |
| DataFiles.KeyIsLastKeyed | coding/python/stevedore/example/.eggs/pbr-5.3.1-py2.7.egg/pbr/util.py:384-403 | a line is attributed to the key of the last line with '=' up to it |
| DataFiles.TokensInOrder | coding/python/stevedore/example/.eggs/pbr-5.3.1-py2.7.egg/pbr/util.py:384-403 | each line's tokens come after those of the lines before, in its own list only |
| DataFiles.CollectedIsConcatenated | coding/python/stevedore/example/.eggs/pbr-5.3.1-py2.7.egg/pbr/util.py:380-403 | for a key that never starts afresh the list is the in-order concatenation of the tokens of its lines, even when it reappears later |
| DataFiles.CollectedExact | coding/python/stevedore/example/.eggs/pbr-5.3.1-py2.7.egg/pbr/util.py:386-396 | it is that concatenation exactly when no line whose unquoted key keeps surrounding space follows earlier tokens of the key |
| Counterexamples.OrderMissesDevCollision | coding/python/stevedore/example/.eggs/pbr-5.3.1-py2.7.egg/pbr/version.py:89-92 | 1.0.0.0a1 and its dev version sys.maxsize differ and neither is below the other |
| Counterexamples.PostReachesIncrement | coding/python/stevedore/example/.eggs/pbr-5.3.1-py2.7.egg/pbr/version.py:227-232 | post sys.maxsize of 1.0.0.0a1 is not below the increment |
| Counterexamples.RpmStringsCollide | coding/python/stevedore/example/.eggs/pbr-5.3.1-py2.7.egg/pbr/version.py:352-360 | 0.0.0.0a1 and 1.0.0.0a1 share an RPM string |
| Counterexamples.IndentedHeaderDrops | coding/python/stevedore/example/.eggs/pbr-5.3.1-py2.7.egg/pbr/packaging.py:661-665 | a tagged 1.0.0 and a message that starts with an indented feature header: the code finds the tag one and then two rows away, and computes 1.1.0.dev1, then 1.0.1.dev2 after a plain commit |
| Counterexamples.QuotedSpaceLosesFiles | coding/python/stevedore/example/.eggs/pbr-5.3.1-py2.7.egg/pbr/util.py:386-396 | two lines for a quoted-space key: the second takes the files of the first away |

## Left out

- IrqControl.IrqDevice.SendIntx: what `eventfd_signal` does without a trigger; such a signal is recorded as one to no trigger.
- IrqControl.IrqDevice.SetSignal: one body stands for `vfio_intx_set_signal` and `vfio_msi_set_vector_signal`; interrupt flags, disabling the irq line of a masked device without DisINTx, restoring the MSI message and irq bypass producers are not modelled.
- IrqControl.IrqDevice.IntxUnmask: on devices without DisINTx the disable depth of the irq line is not modelled.
- IrqControl.IrqDevice.SetUnmaskVirqfd: virqfd internals, and unmasking by a virqfd, are in vfio core; only installing and removing is modelled. A virqfd unmask is the machine's unmask step.
- SetIrqsIoctl runs one at a time, as the `igate` mutex makes it; interleavings of lock sections are in IntxLine.
- The machine of IntxLine is connected to the class by the contracts of the lock-section methods; the class itself has no threads.
- MsixMmap.AdmittedIsAdvertised: arithmetic is unbounded, because the widths of `msix_offset` and `msix_size` are declared in vfio_pci_private.h, which is not part of this model.
- BusReset.TryBusReset: power states of the devices afterwards. What vfio-core and the driver core answer for a device is fixed by one map, since each device is asked about once.
- HotReset.HotReset: the size and flags checks of the request header, and reading it; a file descriptor is looked up once per position, so its answer is an input.
- HotReset.HotResetInfo: copying to user memory, and segment, bus and function numbers of the reported devices.
- Lifetime.Driver.Enable: config space contents, VGA, saved state, the Intel IGD path, which tears down before its lists are set up, and probing BARs.
- Lifetime.Driver.Disable: releasing regions, BAR maps and dummy resources; the error and request triggers, which the last close does not release.
- Config-space emulation, IOMMU, read and write, device probing and removal, error recovery: hardware or library calls not shown.
- GitVersion.GetVersionFromGitTarget: running git is an input: commits newest first, their tags and messages, and the commits a tag reaches. Merges are not modelled.
- GitVersionProofs.EveryComputedVersionRises: takes from git that a tag found on a commit resolves to that commit; last tags with a type other than a, b and rc are not covered, because such versions cannot be ordered.
- PipVersion.FromPipString: digits and letters are ASCII; signs, underscores and surrounding white space that Python's `int` accepts are errors here. All exceptions are one outcome, as `from_pip_string` makes them.
- `debian_string`, `version_tuple`, hashing and the unused constructor defaults: no law of the code is about them.
- DataFiles.ParseDataFiles: `shlex.split` is an unknown function, the same for equal inputs; the conversion of the dictionary to a list of items afterwards is left out.
- The copies of the two VFIO files under `kernel/kernel_app/lock/` are modelled once.
- stevedore, six, pecan, gRPC and Go samples, ONAP scripts and `hrbtree.c`: plumbing, generated code, or descents whose balancing is elsewhere.
