# Models of the EDU ring driver, its client, and the simulated ring drivers

A Dafny 4.11 model of the repository's stateful parts, with proofs. The drivers
and the client are classes whose methods update fields and arrays as the C and
C++ code does. Each method is proved equal to a function on states, and what the
code is for is proved about those functions over whole runs.
`dafny verify dfyconfig.toml` checks the project.

## The async driver (`pcie_prototype_async/kernel/edu_pci.c`)

- `Words`, `RingIndex`: machine words, bitwise masking, and why masked indices
  tell full, empty and occupancy, for every power-of-two ring size.
- `Slab`: the shared DMA slab, its 16-byte entries, and the 64 bytes that the
  legacy DMA test overwrites.
- `EduRing`: the ring and the atomic steps that processors, the interrupt, the
  device and user space interleave: locked submission, late kick, interrupt with
  arbitrary register readings, poll, open, user-space writes into the slab, the
  pieces of the legacy DMA test, fault arming.
- `EduWorld`: runs of such steps in any order, with the unbounded histories of
  the current open. S, P and C count accepted, posted and polled entries.
- `EduSafety` and `EduCounters` (no assumption at all), `EduFault` (the fault
  switch), `EduQueue` (slab entries left alone), `EduOrder` (submission order),
  `EduFate` (what becomes of each command),
  `EduTwoRuns` and `EduDmaTest` (what later answers can and cannot show).
- `EduPci`: the driver itself, as a class.

What the code does, where its comments say otherwise or nothing:

- The comment at edu_pci.c:237-242 expects one command in flight. The code lets
  63 in. Every outstanding command stays pending, with the oldest the next to be
  completed, exactly as long as no command is accepted into slot 0 while another
  is pending, and none has opcode 0 (`EduOrder.DisciplineIsExact`). Index safety
  and "nothing completed twice" do not need that.
- Every accepted command is sure to be answered, with its own tag and its own
  result, exactly as long as each submission that finds room has a valid opcode
  and finds nothing outstanding (`EduAnswers.AnsweredIffOneByOne`: any threads,
  polls anywhere, the two halves of a submission apart).
- What goes wrong otherwise (`EduOverlap`): a kick that finds the device busy is
  ignored, the driver does not notice, and one accepted command stays uncompleted
  for each. If only factorials follow, one at a time, each completion pairs the
  tag of one command with the result of the next until the slots wrap. Kicks that
  come in another order than the slots give one command's tag the other's result.
  A DMA kick turns off the interrupt of a factorial under way, and neither is
  completed until something else is submitted.
- An accepted command can be lost: neither completed nor pending any more, for
  the rest of the open. Since an open none has been lost if and only if every
  submission that found room had an opcode and found the slot at the tail idle
  (`EduFate.NothingIsLostIff`). The order discipline is enough for that, and more
  than is needed (`EduStarvation.OrderIsMoreThanNeeded`). A run that loses a
  command although the device keeps its side is
  `EduStarvation.StarvedCommandIsLost`.
- A bad opcode returns -EINVAL but keeps its slot. If it is not 0, the command is
  completed like any other, when an interrupt finds it lowest, unless its slot is
  taken first; the very next interrupt does it exactly when no lower slot is
  pending. With opcode 0 the command is never completed
  (`EduMirror.RefusedCommandStillCompletes`, `EduMirror.RefusedCommandIsNextIff`).
- The statistics line "ring_inflight" counts unread completions, not commands in
  flight (`EduPci.EduDev.RingInflight`).
- The legacy DMA test shares its bytes with submission slots 0 to 3, and its
  interrupts complete pending ring commands. A test that takes an interrupt is
  harmless, in that no later answer of the ring shows it, exactly when nothing is
  pending as it starts; one that takes none, exactly when the entries it leaves
  in slots 0 to 3 would answer what is pending there alike
  (`EduDmaTest.DmaTestIsHarmlessIff`). In the other
  direction, the comment at edu_pci.c:216-218 has the handler wake legacy waiters
  only when no ring command is pending; the code always does, so that any
  interrupt ends the test's wait, and one that comes before the device has sent
  the bytes back fails the test (`EduPci.EduDev.RunDmaTest`).
- The comment at edu_pci.c:426-429 speaks of a round trip for the ring DMA
  opcode; the code starts one direction only. Its completion result is 0.

## The client (`pcie_prototype_async/userspace/edu_device.cpp`)

`EduMirror` is the shadow index and zero-copy submission. `EduSession` composes
one client, the driver and the device, and `EduTraffic` any number of threads;
`EduAnswers` says when all of them get their answers, `EduOverlap` and
`EduStarvation` what happens when they do not. `EduClient` is the handle, as a
class. `EduHardware` states what is assumed of the device: it takes a command
when idle, later leaves n! modulo 2^32 in its register, and raises one interrupt,
for a factorial only if the status register enables it.
The shadow index falls one behind the driver's with each bad opcode that finds
room. It is in step at the end of a run without opens exactly when their number
is a multiple of 64; an open by another handle moves the driver's index alone.

## The simulated drivers (`pcie_prototype_ring`, `pcie_prototype_sim`)

`ProtoState` has the operations as the code performs them, for any ring size.
`ProtoRuns` gives the whole device state in closed form, from the commands
accepted since the last reset and the number completed, and proves that every
run ends in that state. `ProtoFacts` reads the properties off it. `ProtoRing` is
the driver, as a class with its memset, memcpy, checksum and drain loops.
`ProtoSim` and `ProtoSimDev` are the synchronous driver, which the queued one
refines. The synchronous reset clears only as many bytes as the last command had
and keeps that length, so it restores the state after probe only on a device
that was never used.

## Model

| member | source | states |
|---|---|---|
| RingIndex.MaskedIndicesAreFaithful | pcie_prototype_async/kernel/edu_pci.c:199-208 | for every power-of-two size and true occupancy 0..N-1: full iff N-1 entries, equal indices iff none |
| RingIndex.OccupancyIsExact | pcie_prototype_async/kernel/edu_pci.c:720-721 | the masked difference of the indices, under u32 wrap, is the true occupancy |
| EduRing.MasksAreResidues | pcie_prototype_async/kernel/edu_pci.c:57-58 | masking with 63 is reduction modulo the ring size |
| EduRing.WireValues | pcie_prototype_async/kernel/edu_pci.c:57-87 | ring size, entry sizes, DMA test length and opcodes as the interface fixes them; no other opcode is valid |
| EduRing.ProbedIsBlank | pcie_prototype_async/kernel/edu_pci.c:783-832 | after probe every field of every entry and every counter is zero, and nothing is registered or armed |
| EduRing.AcceptedIsWritten | pcie_prototype_async/kernel/edu_pci.c:399-412 | an accepted submission leaves its fields and zeros in the slot at the tail, and every other slot as it was |
| EduRing.PatternIsText | pcie_prototype_async/kernel/edu_pci.c:326-335 | the 64 pattern bytes are a text |
| Slab.DecodeEncode | pcie_prototype_async/kernel/edu_pci.c:65-71 | an entry survives being laid out in 16 bytes |
| Slab.EncodeDecode | pcie_prototype_async/kernel/edu_pci.c:65-71 | any 16 bytes are the layout of exactly the entry read from them |
| Slab.EntryLayout | pcie_prototype_async/kernel/edu_pci.c:65-71 | each field of an entry at its own bytes, low byte first |
| Slab.SlabIsPacked | pcie_prototype_async/kernel/edu_pci.c:82-84 | 64 submission entries and then 64 completion entries, 16 bytes each, without gaps |
| Slab.ReadBackOverwrite | pcie_prototype_async/kernel/edu_pci.c:341-342 | the first 64 slab bytes, once overwritten through the entries, read back as written |
| Slab.PrefixBytes | pcie_prototype_async/kernel/edu_pci.c:341-369 | each of the first 64 slab bytes belongs to one of the first four entries, in place |
| Slab.DmaTestAliases | pcie_prototype_async/kernel/edu_pci.c:82-87 | the DMA test's 64 bytes are submission slots 0 to 3 and nothing else |
| EduSafety.RunKeepsInv | pcie_prototype_async/kernel/edu_pci.c:220-275 | index, origin, counter and fault invariants survive any run of any steps |
| EduSafety.IndicesStaySafe | pcie_prototype_async/kernel/edu_pci.c:389-413 | in every reachable state C <= P, P + pending <= S and S - C <= 63 |
| EduSafety.TestsAreExact | pcie_prototype_async/kernel/edu_pci.c:204-208 | in every reachable state the full and empty tests agree with the histories |
| EduSafety.IsrSparesUnread | pcie_prototype_async/kernel/edu_pci.c:250-265 | the interrupt never overwrites an unread completion, though it does not look |
| EduSafety.NothingCompletedTwice | pcie_prototype_async/kernel/edu_pci.c:245-272 | different completions of an open come from different accepted commands |
| EduSafety.CountersConserved | pcie_prototype_async/kernel/edu_pci.c:265-280 | eventfd <= posted <= irqs; posted - consumed is the backlog plus what opens dropped; submitted - posted covers all pending |
| EduCounters.CountersCountHistories | pcie_prototype_async/kernel/edu_pci.c:226-281 | over any run, opens included, submitted, posted, consumed, signalled and interrupts each grow by exactly the events they are named for, and an eventfd once registered stays |
| EduCounters.EveryCompletionIsSignalled | pcie_prototype_async/kernel/edu_pci.c:277-281 | with an eventfd registered the signals grow by exactly the completions posted, through any opens; with none, not at all |
| EduCounters.HandlerClaimsIffCause | pcie_prototype_async/kernel/edu_pci.c:226-233 | the handler claims, counts and changes something iff it reads a cause |
| EduCounters.OpenKeepsTheRest | pcie_prototype_async/kernel/edu_pci.c:601-616 | an open keeps both queues' bytes, the eventfd, the DMA verdict, the fault switch and the counters |
| EduSafety.FaultInjectionIsOneShot | pcie_prototype_async/kernel/edu_pci.c:369-380 | injected failures never exceed arm writes; dma_errors is the number of checks answered -EIO; dma_ok iff some check was answered with success |
| EduSafety.DmaErrorsCountFailures | pcie_prototype_async/kernel/edu_pci.c:369-380 | over any run dma_errors grows by the number of checks that return -EIO, and dma_ok is set iff it was or some check returns success |
| EduSafety.ArmedCheckFailsOnce | pcie_prototype_async/kernel/edu_pci.c:372-380 | with matching data the check fails iff armed, and then the next one passes |
| EduFault.CheckFailsIffArmedLast | pcie_prototype_async/kernel/edu_pci.c:369-380 | after any run since probe a check that finds its bytes fails iff, of the accepted stores and the checks that found theirs, the latest was a store of 1 |
| EduFault.StoreIsAcceptedIff | pcie_prototype_async/kernel/edu_pci.c:652-670 | exactly 0 and 1 are accepted, what does not parse or is greater than 1 is -EINVAL, what does not fit is -ERANGE, and a refused write changes nothing |
| EduQueue.CompletionQueueIsFifo | pcie_prototype_async/kernel/edu_pci.c:456-469 | within an open polled is a prefix of posted, a poll takes the oldest left, -EAGAIN and readiness are exact |
| EduQueue.CompletionsAreGenuine | pcie_prototype_async/kernel/edu_pci.c:245-272 | without slab writes each completion carries tag and status of a distinct accepted command, discipline or not |
| EduOrder.DisciplineIsExact | pcie_prototype_async/kernel/edu_pci.c:237-273 | a run obeys the wrap discipline iff at every point all outstanding commands are pending and the next interrupt completes the oldest |
| EduOrder.DisciplineIsExactSinceOpen | pcie_prototype_async/kernel/edu_pci.c:601-616 | the same for every run that follows an open of a reachable state |
| EduOrder.BreachShows | pcie_prototype_async/kernel/edu_pci.c:401-411 | one submission against the discipline breaks the order at once |
| EduOrder.CompletedInSubmissionOrder | pcie_prototype_async/kernel/edu_pci.c:243-273 | under the discipline the k-th completion is for the k-th command, and pending is exactly the slot range from P to S |
| EduOrder.SubmissionSparesPending | pcie_prototype_async/kernel/edu_pci.c:401-409 | under the discipline no submission overwrites a pending slot |
| EduOrder.OneAtATimeIsDisciplined | pcie_prototype_async/kernel/edu_pci.c:237-242 | one valid command at a time is a case of the discipline |
| EduFate.FateOfCommand | pcie_prototype_async/kernel/edu_pci.c:243-273 | over any run of an open a command gets completed iff an interrupt meets it first while it waits, and gets lost iff a submission takes its slot while it waits; both are for good |
| EduFate.NothingIsLostIff | pcie_prototype_async/kernel/edu_pci.c:401-411 | since an open no accepted command is lost iff every submission that found room had an opcode and an idle slot |
| EduFate.DisciplineSpares | pcie_prototype_async/kernel/edu_pci.c:237-242 | the order discipline is sufficient for losing nothing |
| EduFate.OnlyRealOpcodesComplete | pcie_prototype_async/kernel/edu_pci.c:245-272 | in every reachable state no completion belongs to a command with opcode 0 |
| EduStarvation.StarvedCommandIsLost | pcie_prototype_async/kernel/edu_pci.c:245-272 | from any state with the device at rest: a run of an open, valid submissions and polls, each interrupt the device's own, after which command 63 of 128 was accepted and is lost |
| EduStarvation.OrderIsMoreThanNeeded | pcie_prototype_async/kernel/edu_pci.c:401-411 | a run after which a submission breaks the order discipline and yet finds its slot idle |
| EduAnswers.AnsweredIffOneByOne | pcie_prototype_async/kernel/edu_pci.c:237-273 | from any state with nothing outstanding and the device at rest, over any run of any threads short of an open: each submission that finds room has a valid opcode and finds nothing outstanding iff at every point, however the kicks still due and the device's own steps go on, once they are done every accepted command has its own tag and result |
| EduAnswers.AnsweredIffOneByOneSinceOpen | pcie_prototype_async/kernel/edu_pci.c:601-616 | the same for every run that follows an open which finds the device at rest |
| EduAnswers.BreachShows | pcie_prototype_async/kernel/edu_pci.c:389-443 | one submission against that condition can at once go on to leave a command unanswered for good |
| EduAnswers.PollsBringAnswers | pcie_prototype_async/kernel/edu_pci.c:456-469 | under that condition the k-th polled completion is the answer to the k-th accepted command |
| EduAnswers.NarrowIsOneByOne | pcie_prototype_async/kernel/edu_pci.c:237-242 | a run of valid commands with never more than one outstanding meets the condition |
| EduOverlap.IgnoredKicksAreNotMadeGood | pcie_prototype_async/kernel/edu_pci.c:237-242 | from a settled session, over any run of any threads short of an open: completions, plus kicks that found the device busy, plus kicks still due never exceed the accepted commands |
| EduOverlap.FirstKickFillsLowestSlot | pcie_prototype_async/kernel/edu_pci.c:389-427 | two threads with their locked halves in one order and their kicks in either: the lower slot's tag is posted with the result of the command that was kicked first |
| EduOverlap.DmaKickSilencesFactorial | pcie_prototype_async/kernel/edu_pci.c:424-437 | a DMA kick while a factorial is computed: no interrupt comes any more, and nothing is completed until something else is submitted |
| EduOverlap.OneIgnoredKickShiftsResults | pcie_prototype_async/kernel/edu_pci.c:254-263 | two factorials at once, then any number of them until the slots wrap: every later completion pairs one command's tag with the next one's result, which is right iff the two are equal, and the last command stays pending |
| EduTwoRuns.UnobservableIffAlike | pcie_prototype_async/kernel/edu_pci.c:245-272 | reachable states that differ in submission entries alone answer every later run of ring steps alike iff entries that are pending have equal tags and are factorials in the same places |
| EduTwoRuns.DeadEntriesAreUnobservable | pcie_prototype_async/kernel/edu_pci.c:245-272 | the forward half for any state, with the relation kept step by step |
| EduDmaTest.DmaTestDoesNotInterfere | pcie_prototype_async/kernel/edu_pci.c:324-384 | run with nothing pending, the DMA test changes slots 0 to 3 at most and no later answer |
| EduDmaTest.DmaTestIsHarmlessIff | pcie_prototype_async/kernel/edu_pci.c:324-384 | the test as RunDmaTest performs it, with any interrupts and device writes, timed out or not: it changes no later answer iff nothing is pending when it starts, or it takes no interrupt and the entries it leaves in slots 0 to 3 would answer what is pending there alike |
| EduDmaTest.DmaTestIsHarmlessIffQuiet | pcie_prototype_async/kernel/edu_pci.c:324-384 | any sequence of its steps with an interrupt changes no later answer iff nothing is pending when it starts |
| EduDmaTest.InterruptIsHarmlessIffQuiet | pcie_prototype_async/kernel/edu_pci.c:243-273 | a stray interrupt changes no later answer iff nothing is pending |
| EduDmaTest.WritesAreHarmlessIffIdle | pcie_prototype_async/kernel/edu_pci.c:341-342 | the test's writes change no later answer, for all contents, iff slots 0 to 3 are idle |
| EduHardware.RegisterIsExactUpToTwelve | pcie_prototype_async/userspace/python/test_edu_device.py:119-146 | the 32-bit result is the exact factorial iff the operand is at most 12 |
| EduHardware.FactSteps | pcie_prototype_async/userspace/python/test_edu_device.py:119-146 | the factorial's recurrence, and the register as its remainder modulo 2^32 |
| EduPci.EduDev.Probe | pcie_prototype_async/kernel/edu_pci.c:783-832 | the state after probe |
| EduPci.EduDev.SubmitLocked | pcie_prototype_async/kernel/edu_pci.c:394-413 | the locked half of a submission is the Submit step |
| EduPci.EduDev.Kick | pcie_prototype_async/kernel/edu_pci.c:419-442 | the unlocked half writes the status register and then the command, and touches the device only; -EINVAL iff the opcode is bad |
| EduPci.EduDev.Scan | pcie_prototype_async/kernel/edu_pci.c:243-247 | the scan finds the lowest pending slot, or none |
| EduPci.EduDev.Complete | pcie_prototype_async/kernel/edu_pci.c:250-267 | completing that slot is the ring part of the Irq step |
| EduPci.EduDev.ScanAndPost | pcie_prototype_async/kernel/edu_pci.c:235-275 | the handler's locked section posts one completion iff something is pending |
| EduPci.EduDev.IrqHandler | pcie_prototype_async/kernel/edu_pci.c:220-286 | the interrupt handler is the Irq step on the registers it reads, whose effect on counters and eventfd EduCounters states |
| EduPci.EduDev.PollCq | pcie_prototype_async/kernel/edu_pci.c:450-473 | polling is the Poll step, with its reply |
| EduPci.EduDev.PollReady | pcie_prototype_async/kernel/edu_pci.c:595-598 | readiness as the PollReady step replies |
| EduPci.EduDev.Open | pcie_prototype_async/kernel/edu_pci.c:601-616 | opening is the Open step |
| EduPci.EduDev.RingInflight | pcie_prototype_async/kernel/edu_pci.c:720-721 | "ring_inflight" is the number of unread completions |
| EduPci.EduDev.InjectFaultStore | pcie_prototype_async/kernel/edu_pci.c:652-670 | arming and disarming is the InjectStore step, whose effect EduFault states |
| EduPci.EduDev.WriteBlock | pcie_prototype_async/kernel/edu_pci.c:341-342 | overwriting the first 64 slab bytes is the DmaWrite step |
| EduPci.EduDev.DmaVerdict | pcie_prototype_async/kernel/edu_pci.c:369-380 | the final comparison is the DmaCheck step; it passes iff the bytes match and no fault is armed |
| EduPci.EduDev.Perform | pcie_prototype_async/kernel/edu_pci.c:488-538 | any step that somebody takes while a legacy request waits is that step of the model |
| EduPci.EduDev.RunDmaTest | pcie_prototype_async/kernel/edu_pci.c:324-384 | whatever happens during its waits, the result is the verdict on the state at the end; with the fault switch left alone it passes iff neither wait times out, the bytes sent back and then left alone are the pattern, and no fault is armed; it spends the fault iff the fault alone fails it; woken before the bytes are back, it fails; with a device that sends back what it read, it passes iff no fault is armed |
| EduDmaTest.BackAtEnd | pcie_prototype_async/kernel/edu_pci.c:357-369 | what is compared at the end is what the device sent back, whatever else happened, unless a later step touched those bytes |
| EduDmaTest.ZerosAtEnd | pcie_prototype_async/kernel/edu_pci.c:357-369 | woken before the device has sent anything, the test compares zeros |
| EduDmaTest.OutHoldsPattern | pcie_prototype_async/kernel/edu_pci.c:341-352 | a device that reads the bytes in the first wait, while nobody has touched them, gets the pattern |
| EduDmaTest.TestLeaves | pcie_prototype_async/kernel/edu_pci.c:341-384 | what slots 0 to 3 hold when the test returns, if untouched by others: the pattern after a first timeout, else what the device sent back, or zeros if nothing |
| EduMirror.ShadowStaysSyncedIff | pcie_prototype_async/userspace/edu_device.cpp:128-144 | a submission keeps the shadow index in step iff the ring is full or the opcode valid, across u32 wrap |
| EduMirror.OutcomeIsReplies | pcie_prototype_async/userspace/edu_device.cpp:128-144 | the full-ring exception iff -ENOSPC, the bad-opcode exception iff -EINVAL, success iff neither |
| EduMirror.ShadowCountsSuccesses | pcie_prototype_async/userspace/edu_device.cpp:143-144 | over any run the shadow grows by the number of successful submissions, modulo 2^32 |
| EduMirror.ShadowFollowsKernel | pcie_prototype_async/userspace/edu_device.cpp:128-144 | over a run without opens that starts in step, the shadow ends in step iff the number of bad opcodes accepted is a multiple of 64; with valid opcodes it is 0 |
| EduMirror.OpenKeepsStepIff | pcie_prototype_async/kernel/edu_pci.c:601-616 | an open by another handle leaves the shadow in step iff it is at a multiple of 64 |
| EduMirror.RefusedCommandStillCompletes | pcie_prototype_async/kernel/edu_pci.c:409-439 | in any reachable state and over any later run of the open, a command refused with -EINVAL is completed iff its opcode is not 0 and an interrupt meets it first while it waits; with opcode 0 it is lost |
| EduMirror.RefusedCommandIsNextIff | pcie_prototype_async/kernel/edu_pci.c:245-267 | the very next interrupt completes it, with its tag and result 0, iff its opcode is not 0 and no lower slot is pending |
| EduMirror.ZeroCopyIsSubmit | pcie_prototype_async/userspace/edu_device.cpp:239-256 | accepted, zero-copy and ordinary submission leave the same ring iff the shadow is in step or the stray write repeats what is there |
| EduMirror.StrayWriteIsDeadIff | pcie_prototype_async/userspace/edu_device.cpp:244-251 | in every reachable state the direct slot write changes no later answer iff nothing is pending there, or what is pending has the same tag and is a factorial iff the new entry is |
| EduMirror.RejectedZeroCopyIsInvisible | pcie_prototype_async/userspace/edu_device.cpp:239-256 | in step and under the discipline, a zero-copy submission to a full ring changes one idle slot and no later answer |
| EduSession.SubmissionIsUnderway | pcie_prototype_async/kernel/edu_pci.c:389-443 | from an idle session a valid command is accepted and reaches the device, whatever interrupts precede the kick |
| EduSession.InterruptCompletes | pcie_prototype_async/kernel/edu_pci.c:254-263 | the device's interrupt posts the command's tag with operand! mod 2^32 |
| EduSession.WaitAnswers | pcie_prototype_async/userspace/edu_device.cpp:177-194 | a wait returns the outstanding command's own answer and leaves the session idle, or times out with it still underway |
| EduSession.WaitSucceedsIffDelivered | pcie_prototype_async/userspace/edu_device.cpp:177-194 | a wait succeeds iff the device finishes and then interrupts before the last poll |
| EduSession.MeantimeDelivers | pcie_prototype_async/userspace/edu_device.cpp:183-192 | that is, iff within the sleeps before the last poll there is a finish and later an interrupt |
| EduSession.WaitTakesOne | pcie_prototype_async/userspace/edu_device.cpp:187-192 | a wait dequeues exactly what it returns, at most one entry |
| EduTraffic.WaitIsNarrow | pcie_prototype_async/userspace/edu_device.cpp:177-194 | during the wait for a command, at every poll and in every sleep, at most that one is outstanding |
| EduTraffic.SendIsSubmitted | pcie_prototype_async/kernel/edu_pci.c:389-443 | the locked half, what happens meanwhile, and the kick make up one submission of a single client |
| EduClient.EduDevice.constructor | pcie_prototype_async/userspace/edu_device.cpp:28-42 | a fresh handle opens the driver, registers its eventfd, and is in step with it |
| EduClient.EduDevice.IoctlSubmit | pcie_prototype_async/userspace/edu_device.cpp:128-144 | submission with its three outcomes and its effect on the shadow index |
| EduClient.EduDevice.SubmitZc | pcie_prototype_async/userspace/edu_device.cpp:239-256 | zero-copy submission: refused without a mapping, else a slot write and a submission |
| EduClient.EduDevice.PollCompletion | pcie_prototype_async/userspace/edu_device.cpp:161-175 | one poll, empty or the oldest completion |
| EduClient.EduDevice.WaitCompletion | pcie_prototype_async/userspace/edu_device.cpp:177-194 | the wait loop is the bounded wait; when it fails it has polled exactly 2 * timeout_ms times, or not at all if that is not positive |
| EduClient.EduDevice.SubmitAndWait | pcie_prototype_async/userspace/demo.cpp:64-71 | one command and its wait, which succeeds iff within sleeps 0 to 2 * timeout_ms - 2 the device finishes and then interrupts |
| EduClient.EduDevice.RunBatch | pcie_prototype_async/userspace/demo.cpp:64-72 | the k-th completion answers the k-th command, up to the first command that does not finish and interrupt in time; the batch is a run that submits exactly those commands, one by one, with at most one outstanding at every point |
| ProtoRing.Checksum | pcie_prototype_ring/kernel/proto_pcie.c:116-125 | the accumulation loop computes the byte sum in u32 |
| ProtoFacts.ByteSumAdds | pcie_prototype_ring/kernel/proto_pcie.c:116-125 | the byte sum is additive over concatenation; with ByteSumOfOne that determines it |
| ProtoFacts.ByteSumOfOne | pcie_prototype_ring/kernel/proto_pcie.c:116-125 | no bytes sum to 0, one byte to itself |
| ProtoRing.FillRegion | pcie_prototype_ring/kernel/proto_pcie.c:217-218 | memset then memcpy leave the bytes zero-padded and everything else alone |
| ProtoRing.Preview | pcie_prototype_ring/kernel/proto_pcie.c:213-215 | the zero-padded 48-byte prefix |
| ProtoRing.ProtoDev.Probe | pcie_prototype_ring/kernel/proto_pcie.c:426-453 | the state after probe |
| ProtoState.FreshIsBlank | pcie_prototype_ring/kernel/proto_pcie.c:426-453 | after probe all entries, payloads and the buffer are zero, the status is ready and the first number will be 1 |
| ProtoState.WireValues | pcie_prototype_ring/kernel/proto_pcie.c:33-37 | payload, preview and buffer sizes and the status bits as numbers |
| ProtoRing.ProtoDev.ClearRings | pcie_prototype_ring/kernel/proto_pcie.c:137-156 | rings, payloads, indices and counters as after probe |
| ProtoRing.ProtoDev.FinishReset | pcie_prototype_ring/kernel/proto_pcie.c:158-165 | from any state, reset restores the state after probe in full |
| ProtoRing.ProtoDev.StoreCompletion | pcie_prototype_ring/kernel/proto_pcie.c:173-190 | the entry overwrites the oldest, the count saturates |
| ProtoRing.ProtoDev.EnqueueCommand | pcie_prototype_ring/kernel/proto_pcie.c:192-225 | an enqueue is the Send operation; -ENOSPC iff the ring is full |
| ProtoRing.ProtoDev.DrainNext | pcie_prototype_ring/kernel/proto_pcie.c:230-245 | one pass of the drain loop |
| ProtoRing.ProtoDev.ProcessPending | pcie_prototype_ring/kernel/proto_pcie.c:227-249 | the drain loop completes everything pending |
| ProtoRuns.RunFollowsQueue | pcie_prototype_ring/kernel/proto_pcie.c:192-249 | after any run the whole device state is the one a bounded queue determines |
| ProtoRuns.RunFromProbe | pcie_prototype_ring/kernel/proto_pcie.c:426-453 | the same for every run from the state after probe |
| ProtoRuns.BatchingIsUnobservable | pcie_prototype_ring/kernel/proto_pcie.c:192-249 | any mix of enqueues and process calls, rejections included, then one process equals processing after each accepted enqueue, in full state |
| ProtoRuns.ResetIsAFreshStart | pcie_prototype_ring/kernel/proto_pcie.c:158-165 | after any run and a reset every later run is as on a new device |
| ProtoFacts.CompletionRingIsAWindow | pcie_prototype_ring/kernel/proto_pcie.c:173-190 | the completion ring holds the last min(T, N) of T completions, each on its slot |
| ProtoFacts.CompletionMeans | pcie_prototype_ring/kernel/proto_pcie.c:173-190 | the fields of the completion of the j-th command |
| ProtoFacts.EntryMeans | pcie_prototype_ring/kernel/proto_pcie.c:205-215 | the fields of the entry of the j-th command |
| ProtoFacts.StatusMeans | pcie_prototype_ring/kernel/proto_pcie.c:222-246 | after any run: ready, done iff something came since the reset and all is completed; last opcode and length are those of the last command completed |
| ProtoFacts.TailFromTotal | pcie_prototype_ring/kernel/proto_pcie.c:187-240 | with a power-of-two size the tail is completed_total mod N even after u32 wrap |
| ProtoFacts.CommandRingIsFifo | pcie_prototype_ring/kernel/proto_pcie.c:192-249 | pending commands in acceptance order from the head, consecutive seqnos, capacity exactly N |
| ProtoFacts.PayloadsAreIntact | pcie_prototype_ring/kernel/proto_pcie.c:205-218 | each pending slot keeps its zero-padded payload, an exact checksum of at most 65280, and the preview |
| ProtoFacts.DrainShowsLastPayload | pcie_prototype_ring/kernel/proto_pcie.c:229-240 | after a drain with work the DMA buffer is the last payload and zeros up to 4096 |
| ProtoSim.RingRefinesSim | pcie_prototype_sim/kernel/proto_pcie.c:105-118 | drained, the queued driver shows the status, length and bytes of the synchronous one, across resets |
| ProtoSim.SimResetIsAFreshStartIffUnused | pcie_prototype_sim/kernel/proto_pcie.c:91-97 | the synchronous reset restores the state after probe iff no command was sent |
| ProtoSim.SimResetClears | pcie_prototype_sim/kernel/proto_pcie.c:91-97 | after any run the reset zeroes exactly as many bytes as the last command had, keeps all others, and sets ready |
| ProtoSim.SimCommandWrites | pcie_prototype_sim/kernel/proto_pcie.c:105-110 | a command overwrites exactly its own bytes |
| ProtoSim.SimResetLeavesStaleBytes | pcie_prototype_sim/kernel/proto_pcie.c:91-112 | a shorter second command leaves the first one's tail in the buffer after reset |
| ProtoSimDev.SimDev.Probe | pcie_prototype_sim/kernel/proto_pcie.c:249-264 | the state after probe |
| ProtoSimDev.SimDev.SubmitCommand | pcie_prototype_sim/kernel/proto_pcie.c:105-118 | overwrites the first bytes and the length, completes at once |
| ProtoSimDev.SimDev.FinishReset | pcie_prototype_sim/kernel/proto_pcie.c:91-97 | clears as many bytes as the last command had |

## Left out

- Result values when an open, a legacy request or a bad opcode overlaps outstanding ring commands: the interrupt then reads a register that belongs to another command. Index safety, origins and fates still hold there.
- The device's inner workings and timing: `EduHardware` is an assumption, in keeping with the comments at edu_pci.c:239 and demo.cpp:56-59: one engine for both commands, a busy device ignores a new one, and the result register changes only when a factorial is finished.
- Weak memory: the interrupt handler is one atomic step, though its counters and the eventfd signal lie outside the lock; they are only ever incremented, so the inequalities between them also hold in between.
- The counters are unbounded numbers, not 64-bit ones, and the debugfs write that zeroes them is not a step.
- The number parser behind the fault switch: its verdict on the text is an input.
- EduPci.EduDev.SetEventfd: does not model the lookup of the descriptor, its failure, or the release of an earlier context.
- EduClient.EduDevice.WaitCompletion: requires that timeout_ms * 1000 fits a C int, since the overflow is undefined in the source.
- EduPci.EduDev.RunDmaTest: what the device reads on the way out is not tied to what it sends back; the bytes sent back are an input.
- EduClient.EduDevice.constructor: does not model the failures of opening the file, creating the eventfd and registering it.
- EduOverlap.OneIgnoredKickShiftsResults: stops short of the wrap; a command that wraps to slot 0 overtakes the one left pending, as in `EduStarvation`, and gets its own result. `EduAnswers` has no such bound.
- EduClient.EduDevice.RunBatch: one handle and no other client; `EduSafety` covers any interleaving.
- The legacy factorial request and the fields only it and the state request use (last_irq, last_fact_in, last_fact_out): a register write, a wait and a read.
- The status register as the legacy requests write it: they would turn the factorial interrupt on or off under a ring command.
- Whether a legacy wait wakes in time: a timeout is always a possible outcome.
- Probe failures, removal, module and device registration, ioctl dispatch, copying to and from user space, mmap page mapping, sysfs and debugfs formatting.
- The hardware branches of the `proto_pcie` drivers, `pcie_prototype/`, the QEMU skeleton, the C shim, the Python bindings, benchmarks and scripts.
- Moving and destroying client handles, and mapping and unmapping the rings: plain field updates.
