# Verified model of a low-latency direct-USB audio transport

The library moves PCM between a render thread and a USB audio device with no lock on the audio path.
A render thread packs whole quanta into a byte ring and reads capture PCM out of another; libusb
completion callbacks drain the playback ring into isochronous OUT packets, size those packets from the
capture stream when the device is an implicit-feedback sink, and defer transfers that cannot be filled;
a control thread primes, starts, stops and closes. This project models that transport in Dafny and proves
what the code relies on and what its comments and documentation promise.

## How the model is laid out

| file | what it holds |
|---|---|
| `Core.dfy` | bytes, whole-frame arithmetic, sums |
| `Transport.dfy` | the playback pump, implicit feedback, credit, start and teardown as functions on one state; each completion callback is one step |
| `TransportInvariants.dfy`, `TransportSafety.dfy`, `TransportRuns.dfy`, `TransportTheorems.dfy` | what every step keeps, runs over every interleaving, and the results about runs |
| `PlaybackRing.dfy`, `DriverQueues.dfy`, `DeviceWire.dfy`, `InitialSubmission.dfy`, `Driver.dfy` | start, callbacks and credit over real arrays (ring, transfer buffers, layout FIFO, deferral array), each proved equal to its transport step |
| `CompletionEffects.dfy`, `CaptureEffects.dfy`, `RenderEffects.dfy`, `StartEffects.dfy`, `TeardownEffects.dfy` | what each event of a run does to the whole transport: contents sent, packets, counters and places before and after, without the functions that compute the step |
| `PacedCompletion.dfy` | `onIso` with the packet counts its scheduler or feedback pacer gives it |
| `QuantumSubmission.dfy`, `CaptureCallback.dfy` | `submitQuantum` and `onCapture` whole: packing or ring copy together with the transport step |
| `StartRace.dfy` | completions inside a start: submit, read descriptors, count, against the steps of `onIso` and of serving deferrals |
| `StopRace.dfy` | stopping inside a callback: the steps of `onIso` and of serving deferrals against the steps of `stopIsoPump` |
| `LayoutFifo.dfy` | the 256-entry packet-layout FIFO, one load, store or compare-exchange per step |
| `RingProtocol.dfy` | the zero-copy ring and the writer gate of `submitQuantum`/`stop`, one atomic operation or one byte per step |
| `Spans.dfy`, `PcmFormat.dfy`, `PcmPacking.dfy` | subslot format, packing and unpacking across the wrap of the ring |
| `CaptureStream.dfy`, `CaptureRing.dfy`, `CaptureRead.dfy` | the capture ring as an interleaved step machine, over a real array, and decoded into channel planes |
| `Pacing.dfy` | rational packet scheduler, Q16 explicit feedback, runway in nanoseconds, in machine widths |
| `InitialPrime.dfy`, `RacingStart.dfy` | the first fill of the OUT transfers byte by byte while the producer commits, and when it is the one-step start |
| `BufferPolicy.dfy`, `StartGuarantee.dfy` | the frame budgets, the primes they publish, and what the start check then guarantees |
| `QuantumAdmission.dfy` | what those limits let a producer of whole quanta do: reach the prime, and outlast drains that fall behind |
| `WakeChannel.dfy` | event counter and waiter count, one atomic operation per step |
| `FlightRecorder.dfy` | the recorder's array against the history it is a window of |

The transport is stated twice on purpose. `Transport.dfy` is the specification: histories of committed,
sent and lost PCM, logged and planned layouts, completions and resubmissions, and the credit ledger stand
beside the driver's own fields, and every theorem about runs is about it. `Driver.UacDriver` has the
driver's fields, loops and in-place updates. `Driver.StartIsoPump` builds one that holds an initial state of
the runs; starting playback and every callback ensure that its new fields hold exactly the state the
specification computes, and that the bytes the device finds in a submitted buffer, packet by packet at the sum
of the preceding descriptor lengths, are that step's payload. `Driver.DeviceReadsCommitted` puts the two
together: everything the device was given, initial transfers included, is the committed PCM in order.

What the specification itself computes is stated independently in the five `Effects` modules, from the fields before
and after an event of a run and the event alone. Between them they leave no event open: an OUT completion sends exactly
the front of the ring its plan or its layouts ask for, a capture completion logs exactly its packets and leaves nothing
deferred that could go, a charged block is admitted exactly within stock, target and reserve, a start shares out exactly
the prime, and a stop frees exactly the pools with nothing in flight.

A submission that fails after its PCM was drained keeps a `lost` term; it can be nonempty only once a stop
has been requested, which a transport failure does. `libusb` appears as the answers it gives: which submissions
are accepted, with what status a transfer completes, and whether the bounded teardown wait ran out.

## Assumptions taken from the environment

- A device packet carries whole frames, and a completion belongs to a transfer `libusb` holds.
- A transfer is reported cancelled only after a stop was requested, since only then does the driver cancel.
- Ring capacities are powers of two; `cursor & mask` is written as `cursor % capacity`, and
  `RingProtocol.WrappedOccupancy` and `RingProtocol.WrappedOffset` show that cursors wrapping at a multiple
  of the capacity behave like the unbounded ones used elsewhere.
- There is one render thread, one event thread and one control thread, as the comments in the source state.

## Properties that hold under a condition

Each of these fails in general. For each there is a lemma at a concrete input or reachable state where it
fails, and a lemma that it holds if and only if a condition does.

- Once `stopIsoPump` has read `inflight_` as zero it joins the event thread and frees the transfers without
  reading the counter again. `StopRace.StopIsSafeExactlyWhen`: whatever follows a stop request, no transfer is
  freed while the bus holds it, if and only if the request did not land while a capture callback past its own
  stop test had deferred transfers to serve and nothing else was on the bus. A caller can check the sufficient
  half, `inflight_ > 0` or `pendingDepth_ == 0` (`StopRace.StopWithTransfersCountedIsSafe`). At the later moment
  when zero has been read, `StopRace.ZeroIsFinalExactlyWhen` gives the condition;
  `StopRace.StillServingReachable` reaches the excluded state.
- The device reads, from every initial transfer, the bytes drained for it, whatever whole commits are admitted
  meanwhile, if and only if not even one commit fits the limit in force, or the ring, before the first packet, covers
  all earlier transfers and all packets up to the last carrying one, for every transfer with something planned before
  its last carrying packet (`InitialPrime.ReadBackExactlyWhenCovered`). The check `submitIsoPump` makes therefore
  guarantees it exactly when the prime it compares covers that much (`StartGuarantee.StartReadsBackExactlyWhen`).
  `StartGuarantee.DefaultStartMisreads` is a start that passes and is misread, with every default in force and one
  quantum admitted inside the fill.
- After `setUserspaceBufferConfig` the published prime covers the initial plan if and only if the configuration was
  accepted or the plan is empty (`BufferPolicy.PublishedPrimeCovers`): a refused configuration publishes zero, which
  no ring is below (`BufferPolicy.RefusedPrimeUncovered`). A start under it is misread if and only if a region reserved
  before the refusal is still to be committed, since none is reserved after it
  (`StartGuarantee.RefusedStartExactlyWhen`, `BufferPolicy.Settings.RefusedAdmitsNothing`). The prime `startIsoPump`
  itself stores covers the plan if and only if the plan fits the default ring less one quantum
  (`BufferPolicy.Settings.StoreStartupPrime`, failing in `BufferPolicy.StoredPrimeUncovered`).
- A producer of whole quanta reaches the prime from an empty ring, and the start check passes, if and only if it offers
  enough and the least multiple of its quantum no less than the prime is within prime plus headroom and within the ring
  (`QuantumAdmission.PrimeReachedExactlyWhen`, `QuantumAdmission.StartPassesExactlyWhen`). An accepted configuration
  does not ensure it: `QuantumAdmission.ShortHeadroomNeverStarts` and `QuantumAdmission.FullPrimeNeverStarts` are
  accepted and stay short of the prime for ever. With automatic headroom only the ring can be in the way
  (`QuantumAdmission.AcceptedReachesExactlyWhen`).
- `queuedOutFrames_` counts the frames on the bus, at every step of a start that completions interrupt, if and only if
  no subtraction saturates and no transfer is counted by descriptors rewritten since its submission
  (`StartRace.ExactExactlyWhen`). It does so whenever no completion reaches the transfer submitted and not yet counted
  (`StartRace.SparedStaysExact`). `StartRace.WindowExcess` is what one completion in that window costs,
  `StartRace.CountedAfterItLeft` a counter that reads a transfer's frames with nothing on the bus; such an excess never
  goes away (`StartRace.ExcessStays`), no starvation is then seen, and credit is off by exactly as much
  (`StartRace.CreditOffByExcess`).
- An accepted capture budget fits the capture ring if and only if the playback frame count it was checked against is
  not the larger one (`BufferPolicy.CaptureBudgetFits`, failing in `BufferPolicy.AcceptedCaptureOverflows`).
- No wakeup is lost, in any run and for any waiter, if and only if at most one thread waits on the channel or streaming
  is already over (`WakeChannel.NoneLostExactlyWhen`). For any two waiters or more `WakeChannel.TwoWaitersStranded`
  leaves one blocked after a stop, `WakeChannel.SecondWaiterStranded` one whose frames are there.
- A flight recorder whose trigger is `Event::Unknown` never freezes if and only if its mask or its events exclude
  `Unknown` (`FlightRecorder.UnknownIsATrigger`, failing in `FlightRecorder.UnknownFreezes`).

## Where code and documentation disagree

The model follows the code in each case.

- `docs/DRIVER_NOTES.md:158` says the automatic capture target is two capture-transfer waves; the code uses one
  (`src/libusb_uac_driver.cpp:3284-3298`).
- `docs/DRIVER_NOTES.md:176-177` says graph quantum, capture target and capture headroom must fit the capture ring; the
  code checks wave, target and headroom against the playback ring's frame count
  (`src/libusb_uac_driver.cpp:3306-3309`). `BufferPolicy.CaptureBudgetFits` gives the exact condition under
  which that is the same as fitting the capture ring.
- `submitIsoPump` says its prime check guarantees that the whole packet set is covered
  (`src/libusb_uac_driver.cpp:2525-2527`). It compares with whatever prime is stored: zero after a refused
  configuration (`src/libusb_uac_driver.cpp:3310-3318`), and a value capped at the default ring less one quantum
  until one is applied (`src/libusb_uac_driver.cpp:2446-2454`). `StartGuarantee.CheckCoversPlan` says exactly when
  the comment holds, and `RacingStart.RacingStartIsAtomic` what the start then amounts to.
- `Event::Unknown` is said to disable the freeze trigger (`include/liblowlatencyaudio/PacketFlightRecorder.h:216`);
  in the code it is a trigger like any other (`FlightRecorder.UnknownFreezes`).
- A comment above `flushRing` says a short drain pads with silence (`src/libusb_uac_driver.cpp:2122-2129`);
  `drainRing` shortens the packet and invents nothing.

## Model

| member | source | states |
|---|---|---|
| TransportRuns.RunHolds | src/libusb_uac_driver.cpp:1812-3006 | every invariant of bus, stream, layouts, order, ledger, runway, flags and teardown holds after any interleaving of callbacks, publishes, start, stop and close |
| TransportRuns.PlaybackStreamRefinement | src/libusb_uac_driver.cpp:2736-2752 | committed PCM is payloads sent in submission order, then what a failed submission lost, then ring contents; nothing is lost unless a stop was requested: no silence, gap, duplicate or reorder |
| TransportRuns.RunGrows | src/libusb_uac_driver.cpp:2795-3006 | sent, logged, planned and completed histories are append-only along every run |
| TransportTheorems.LayoutFidelity | src/libusb_uac_driver.cpp:2705-2734 | every implicit packet carries the frames of its own log entry, capped; entries are consecutive except across an overflow resync; every entry logged, which by `CaptureEffects.LogIsCapture` is a capture packet, is primed, used, discarded 256 at a time or queued |
| CaptureEffects.LogIsCapture | src/libusb_uac_driver.cpp:1852-1882 | over every run the log is the initial one followed by the packets of the capture completions past their guards, in order, and nothing else |
| TransportTheorems.ImplicitNeverShort | src/libusb_uac_driver.cpp:2736-2753 | whenever a transfer can be prepared its descriptors are the capped layout entries in bytes: the short-drain fallback is never taken |
| TransportTheorems.CompletionOrderPreserved | src/libusb_uac_driver.cpp:2908-2935 | resubmissions are a prefix of completions, and the rest wait in the deferral FIFO in order |
| TransportTheorems.ExactlyOnePlace | src/libusb_uac_driver.cpp:2911-2947 | each OUT transfer is idle, in flight or deferred, never twice; `inflight_` and `queuedOutFrames_` count exactly |
| TransportTheorems.PacketsFitBuffer | src/libusb_uac_driver.cpp:2352-2385 | every packet, at the sum of the lengths before it, ends inside its transfer buffer |
| TransportTheorems.QueueNeverSaturates | src/libusb_uac_driver.cpp:87-94 | the saturating subtraction returns exactly the frames that were charged |
| TransportTheorems.DeferralOverflowUnreachable | src/libusb_uac_driver.cpp:2915-2947 | the error branch behind a full deferral array is unreachable |
| TransportTheorems.CreditConserved | include/liblowlatencyaudio/libusb_uac_driver.h:470-499 | while playback runs, credit, ring, queued and held frames add up to the prime stock plus whatever was published without charge |
| TransportTheorems.ChargedPublishBounded | include/liblowlatencyaudio/libusb_uac_driver.h:477-499 | with charged publishes only, a charged publish leaves ring plus held within prime stock plus target plus reserve, plus whatever left the bus between the load of the queue and the charge |
| TransportTheorems.EpisodesSeparated | src/libusb_uac_driver.cpp:2916-2922 | between two zero-runway events some submitted transfer carried a frame, and each event is counted with nothing queued |
| TransportTheorems.StopIsFinal | src/libusb_uac_driver.cpp:2147-2153 | once a stop is requested, by the owner or a failure, nothing of any kind is submitted again |
| TransportTheorems.ReleaseOrder | src/libusb_uac_driver.cpp:2154-2183 | pools are freed only with nothing in flight; interfaces and device are released only after both pools are gone |
| TransportTheorems.FreedStaysFreed | src/libusb_uac_driver.cpp:2566-2595 | after the OUT pool is freed no later event finds or restores a transfer |
| CompletionEffects.FillExactly | src/libusb_uac_driver.cpp:2736-2753 | the packets share out the front of the ring, as much as the plan asks for and there is, each its planned bytes as far as it lasts |
| CompletionEffects.CompletionEffect | src/libusb_uac_driver.cpp:2795-3006 | every OUT completion of every run, branch by branch: what is sent from where in the ring in which packets, where the transfer goes, what each counter reads; on a paced endpoint, capture-clocked, deferred, cancelled, stopped, lost or refused; all else unchanged |
| CompletionEffects.FeedbackEffect | src/libusb_uac_driver.cpp:2637-2684 | a feedback transfer completed and accepted stays on the bus; otherwise it leaves, for a lost device or a refusal with the transport failed |
| CaptureEffects.LogsBehind | src/libusb_uac_driver.cpp:1861-1882 | after any list of packets the FIFO is the newest entries of the log, its depth and number of overflows exact, each overflow 256 entries |
| CaptureEffects.CaptureEffect | src/libusb_uac_driver.cpp:1823-1919 | every capture completion of every run: its packets join the FIFO, deferred transfers go out from the front with the oldest layouts and the bytes they ask for until one is short or refused, and its own transfer goes back or leaves |
| CaptureEffects.DeferredAreServed | src/libusb_uac_driver.cpp:2756-2793 | past its guards it leaves the deferral FIFO empty, or its head short of layouts or of the frames the next ones ask for, or the transport failed; what left is its front, in order, on the bus |
| RenderEffects.RenderEffect | include/liblowlatencyaudio/libusb_uac_driver.h:470-499 | every publish, charged or not, and every credit move of every run, exactly |
| RenderEffects.ChargedGoesThroughExactlyWhen | include/liblowlatencyaudio/libusb_uac_driver.h:477-499 | a charged block goes through if and only if ring, slot and block are within the prime stock, target, reserve and what left the bus since the load; refused, it changes nothing |
| RenderEffects.CommittedIsPublished | include/liblowlatencyaudio/DirectUsbOutput.h:214-257 | over every run the committed PCM is the blocks that went through, in order; until a stop that is what was sent and what is in the ring |
| StartEffects.FillsTake | src/libusb_uac_driver.cpp:2521-2533 | initial transfer by initial transfer, the stretch of the prime each takes and the packets it is cut into |
| StartEffects.StartEffect | src/libusb_uac_driver.cpp:2489-2565 | every start of every run: refused outright, nothing changes; otherwise which transfers are on the bus with which stretch, what was queued, drained and lost, whether it went through or part way |
| TeardownEffects.TeardownEffect | src/libusb_uac_driver.cpp:2147-2183 | each phase of a stop, and a close, exactly |
| TeardownEffects.StopReleasesExactlyWhen | src/libusb_uac_driver.cpp:2147-2183 | whatever runs between its phases a stop frees the playback pools if and only if nothing is in flight at the wait, the capture pool likewise, the interfaces if and only if both |
| TeardownEffects.IdleStopReleases | src/libusb_uac_driver.cpp:2566-2595 | a stop with nothing on the bus releases everything, and the close after it closes the device |
| StartRace.RunSlips | src/libusb_uac_driver.cpp:2546-2561 | after any interleaving of submissions, descriptor reads, additions, completions, relaunches and publishes the queue counter is off by exactly what the saturated subtractions and the rewritten additions slipped |
| StartRace.ExactExactlyWhen | src/libusb_uac_driver.cpp:2546-2561 | from an exact counter it is exact after every step if and only if no completion finds too little and no addition differs from what was submitted |
| StartRace.SparedStaysExact | src/libusb_uac_driver.cpp:2546-2561 | in particular while no completion reaches a transfer submitted and not yet counted |
| StartRace.WindowExcess | src/libusb_uac_driver.cpp:2795-2802 | what a completion in that window costs, before or after the descriptors are read, whether it leaves or is resubmitted |
| StartRace.CountedAfterItLeft | src/libusb_uac_driver.cpp:2546-2561 | the first transfer completing before it is counted leaves its frames in the counter and nothing on the bus |
| StartRace.ExcessStays | src/libusb_uac_driver.cpp:87-94 | once every transfer is counted an excess never shrinks, and the counter never reads less |
| StartRace.CreditOffByExcess | include/liblowlatencyaudio/libusb_uac_driver.h:477-499 | credit, ring and counter then add up to the stock plus exactly the excess |
| StartRace.OneStepStart | src/libusb_uac_driver.cpp:2546-2561 | a start no completion interrupts counts what the one-step start of the transport counts |
| StopRace.StopIsSafeExactlyWhen | src/libusb_uac_driver.cpp:2566-2595 | seen from the stop request, teardown never frees a transfer the bus holds, under any interleaving, if and only if the request does not find a capture callback serving deferrals with nothing else on the bus |
| StopRace.StopWithTransfersCountedIsSafe | src/libusb_uac_driver.cpp:2566-2595 | in particular a stop with a transfer in flight, or with nothing deferred, is safe |
| StopRace.ZeroIsFinalExactlyWhen | src/libusb_uac_driver.cpp:2566-2595 | after `inflight_` has read zero the pool is never freed under a transfer on the bus, however callbacks and teardown interleave, if and only if no capture callback is still serving deferrals |
| StopRace.StillServingReachable | src/libusb_uac_driver.cpp:2756-2793 | the excluded state occurs: the only transfer deferred and the stop landing inside the next capture callback |
| StopRace.StopBetweenCallbacksIsSafe | src/libusb_uac_driver.cpp:2566-2595 | with stops between callbacks teardown never frees a transfer on the bus |
| StopRace.RunHolds | src/libusb_uac_driver.cpp:2756-2813 | between any two steps of callbacks and teardown `inflight_` is exactly what the bus holds plus the transfer a callback is working on |
| TransportInvariants.DeferralArrayHasRoom | include/liblowlatencyaudio/libusb_uac_driver.h:799-801 | a transfer about to be deferred always finds room |
| TransportSafety.FillConserves | src/libusb_uac_driver.cpp:3042-3061 | draining a packet plan splits the ring into payload and rest, and the descriptor lengths add up to the payload |
| TransportSafety.FillWhole | src/libusb_uac_driver.cpp:2953-2974 | every drained packet is whole frames and no longer than planned |
| TransportSafety.FillExact | src/libusb_uac_driver.cpp:2716-2728 | with the whole payload buffered no packet is short |
| TransportSafety.SubmitPendingKeeps | src/libusb_uac_driver.cpp:2756-2793 | draining the deferral FIFO keeps every invariant whatever the submissions answer |
| TransportSafety.SubmitPendingExhausts | src/libusb_uac_driver.cpp:2756-2793 | unless a submission is refused, what stays deferred is headed by a transfer that cannot be prepared yet |
| TransportSafety.OnIsoKeeps | src/libusb_uac_driver.cpp:2795-3006 | one OUT completion keeps every invariant |
| TransportSafety.OnCaptureKeeps | src/libusb_uac_driver.cpp:1823-1918 | one capture completion keeps every invariant |
| TransportSafety.StartPlaybackKeeps | src/libusb_uac_driver.cpp:2489-2565 | starting, accepted or refused part way, keeps every invariant |
| TransportSafety.StopPhaseKeeps | src/libusb_uac_driver.cpp:2154-2183 | each phase of stopping keeps every invariant |
| DeviceWire.WireIsPrefix | src/libusb_uac_driver.cpp:2736-2752 | what the device reads, packet by packet at cumulative lengths, is the contiguous start of the buffer |
| Driver.FillPackets | src/libusb_uac_driver.cpp:2736-2752 | the packet loop leaves exactly the specified lengths, ring and payload |
| Driver.FillPlanned | src/libusb_uac_driver.cpp:2521-2533 | the initial loop, which places packets at planned offsets, leaves a buffer the device reads as exactly the specified payload, however short the ring |
| Driver.StartIsoPump | src/libusb_uac_driver.cpp:2298-2487 | allocating pools, buffers and queues leaves a driver that holds an initial state of the runs |
| Driver.UacDriver.SubmitTransfers | src/libusb_uac_driver.cpp:2546-2561 | submits in order up to the first refusal; count, queue and the bytes given to the device are those of the accepted ones |
| Driver.UacDriver.StartPlayback | src/libusb_uac_driver.cpp:2489-2565 | equals the specification's start, refused, refused part way or started; the device then holds exactly the payloads it sends |
| Driver.DeviceReadsCommitted | src/libusb_uac_driver.cpp:2521-2561 | along every run what the device read from the buffers, initial transfers included, then what a failed submission lost, then the ring, is the committed PCM |
| Driver.UacDriver.PrepareImplicitTransfer | src/libusb_uac_driver.cpp:2686-2754 | takes a whole layout and its whole payload, or leaves everything as it was |
| Driver.UacDriver.SubmitPendingImplicitTransfers | src/libusb_uac_driver.cpp:2756-2793 | equals the specification's deferral drain, the array shifted down in place |
| Driver.UacDriver.OnIso | src/libusb_uac_driver.cpp:2795-3006 | equals the specification's OUT completion in every branch |
| Driver.UacDriver.OnFeedback | src/libusb_uac_driver.cpp:2637-2684 | equals the specification's feedback completion, its rate aside |
| PacedCompletion.OnNominalIso | src/libusb_uac_driver.cpp:2945-2974 | with its scheduler, a completion on a nominal-rate endpoint plans for its packets exactly the frames due since the one before, and is the specification's completion with that plan |
| PacedCompletion.NominalRateSent | src/libusb_uac_driver.cpp:2945-2974 | and with the PCM there sends exactly the frames that fell due over its packets |
| PacedCompletion.OnFeedbackIso | src/libusb_uac_driver.cpp:2945-2974 | with a feedback endpoint, 65536 times the frames planned plus the accumulator is the old accumulator plus the packets times the rate in force |
| Driver.UacDriver.TakeCredit | include/liblowlatencyaudio/libusb_uac_driver.h:477-499 | admits exactly above the credit floor of the queue as it was loaded, whatever completed since, and pays exactly then |
| CaptureCallback.OnCapture | src/libusb_uac_driver.cpp:1823-1918 | past its guards stores every carrying packet, publishes once, logs each packet's frames (none for a failed one), serves deferrals and resubmits: ring and transport both end as specified; an early return leaves the ring alone |
| CaptureCallback.LayoutsCountAdmitted | src/libusb_uac_driver.cpp:1841-1903 | the frames logged for playback are the frames admitted to the capture ring, whenever it has room |
| CaptureCallback.CallbackHears | src/libusb_uac_driver.cpp:1843-1882 | what reaches the layout FIFO is each packet's actual length over the stride, zero for a failed one, and the callback is the capture event of the runs with that list |
| CaptureCallback.CallbackCopies | src/libusb_uac_driver.cpp:1836-1903 | what reaches the capture ring is the longest run of whole frames of the completed packets it has room for, from the start, published once |
| Driver.UacDriver.DeferTransfer | src/libusb_uac_driver.cpp:2911-2947 | joins the FIFO, leaves the in-flight count and counts a starvation once |
| Driver.UacDriver.HandOver | src/libusb_uac_driver.cpp:2987-3003 | an accepted submission gives the device exactly the step's payload |
| Driver.UacDriver.MarkTransportFailed | src/libusb_uac_driver.cpp:1812-1821 | failure ends capture, streaming and all submission at once |
| DriverQueues.LayoutQueue.Log | src/libusb_uac_driver.cpp:1866-1882 | a full FIFO is discarded, then the entry is appended |
| DriverQueues.DeferralArray.DropFront | src/libusb_uac_driver.cpp:2784-2792 | the array keeps its remaining transfers in order |
| PlaybackRing.ByteRing.Drain | src/libusb_uac_driver.cpp:3042-3061 | moves the oldest bytes, as many as there are up to the request, and touches nothing else |
| PlaybackRing.ByteRing.PrepareWrite | src/libusb_uac_driver.cpp:3110-3157 | reserves whole frames within storage and watermark, as two spans of free storage |
| PlaybackRing.ByteRing.CommitWrite | src/libusb_uac_driver.cpp:3159-3167 | publishes exactly the reserved window behind the queued bytes |
| LayoutFifo.RunHolds | src/libusb_uac_driver.cpp:1866-1882 | every unread entry is in its slot at every interleaving point of writer and reader |
| LayoutFifo.CursorsMonotone | src/libusb_uac_driver.cpp:1866-1882 | depth stays within 256 and `implicitRead_` never moves back |
| LayoutFifo.TakeLinearizable | src/libusb_uac_driver.cpp:2690-2734 | a successful compare-exchange returned exactly the entries logged at the indices it takes, never an overwritten slot |
| LayoutFifo.ReaderMoves | src/libusb_uac_driver.cpp:2405-2432 | only a successful take or an overflow of exactly 256 moves the reader |
| LayoutFifo.EntriesConserved | src/libusb_uac_driver.cpp:1866-1882 | entries logged are taken, discarded 256 per overrun, or queued |
| LayoutFifo.LogIsGiven | src/libusb_uac_driver.cpp:1866-1882 | in every interleaving the log is the packets the writer was given, in order, but for the one in hand |
| LayoutFifo.WriterLogs | src/libusb_uac_driver.cpp:1866-1882 | uninterrupted, a writer appends the entry it is given, after discarding the backlog of a full FIFO and only then |
| LayoutFifo.ReaderTakes | src/libusb_uac_driver.cpp:2690-2734 | uninterrupted, a take gets the oldest entries if as many are queued, and nothing if not |
| LayoutFifo.TakeRetries | src/libusb_uac_driver.cpp:2690-2734 | a failed compare-exchange starts over from where the cursor now is; too few entries end the take |
| RingProtocol.RunHolds | include/liblowlatencyaudio/DirectUsbOutput.h:214-274 | ring data, admission and gate invariants hold at every interleaving point |
| RingProtocol.DrainsTheStream | src/libusb_uac_driver.cpp:3042-3061 | the consumer takes exactly the published bytes in order, occupancy whole frames within capacity |
| RingProtocol.ZeroCopyOwnership | src/libusb_uac_driver.cpp:3110-3157 | between prepare and commit no byte being packed is one being drained |
| RingProtocol.WholeQuantum | include/liblowlatencyaudio/DirectUsbOutput.h:214-257 | the head moves only by the whole requested quantum, exactly when the block is reported submitted |
| RingProtocol.AdmissionKept | include/liblowlatencyaudio/DirectUsbOutput.h:222-250 | room seen by `writableFrames` is still there at prepare, whatever was drained in between, unless the watermark was lowered |
| RingProtocol.QuietMeansNoCommit | include/liblowlatencyaudio/DirectUsbOutput.h:175-183 | after `stop()` has seen no writer nothing is published until the gate is armed again |
| RingProtocol.PackedIsPublished | include/liblowlatencyaudio/DirectUsbOutput.h:214-257 | a commit publishes, byte for byte, what was last packed into its region |
| RingProtocol.ProducerPublishes | include/liblowlatencyaudio/DirectUsbOutput.h:214-257 | uninterrupted and with the gate open, a quantum is published whole exactly when it fits storage and watermark, and otherwise changes nothing |
| RingProtocol.ConsumerTakes | src/libusb_uac_driver.cpp:3042-3061 | uninterrupted, a drain takes the oldest bytes, as many as asked for and there |
| RingProtocol.WrappedOccupancy | src/libusb_uac_driver.cpp:61-65 | cursors wrapped to a fixed width still subtract to the occupancy |
| RingProtocol.WrappedOffset | src/libusb_uac_driver.cpp:61-65 | and still give the same storage offset |
| PcmFormat.SubslotRoundTrip | include/liblowlatencyaudio/DirectUsbOutput.h:798-828 | for 16, 24 and 32 valid bits and every subslot up to four bytes, decoding the valid bytes returns any in-range sample |
| PcmFormat.BlockRoundTrip | include/liblowlatencyaudio/DirectUsbOutput.h:310-322 | in a block of multi-channel frames, either packed channel decodes to its samples frame by frame |
| PcmFormat.DigitShift | include/liblowlatencyaudio/DirectUsbOutput.h:812-827 | left-justifying by whole bytes moves every byte of the sample up unchanged |
| PcmFormat.PairLayout | include/liblowlatencyaudio/DirectUsbOutput.h:830-845 | every output pair lies inside the frame, and on two channels leaves no gap to silence |
| PcmFormat.SubslotIsLittleEndian | include/liblowlatencyaudio/DirectUsbOutput.h:812-827 | read as a little-endian number a subslot is the two's complement of the sample, shifted past the padding |
| PcmFormat.SubslotPadding | include/liblowlatencyaudio/DirectUsbOutput.h:812-827 | every byte below the sample is zero |
| PcmFormat.FrameSilence | include/liblowlatencyaudio/DirectUsbOutput.h:830-850 | every byte of a frame outside its pair is zero |
| PcmPacking.PackPcm | include/liblowlatencyaudio/DirectUsbOutput.h:812-827 | writes exactly the subslot's bytes |
| PcmPacking.PackStereoRun | include/liblowlatencyaudio/DirectUsbOutput.h:830-850 | writes exactly the flat frames, other channels silenced, nothing outside them touched |
| PcmPacking.PackPlaybackRegion | include/liblowlatencyaudio/DirectUsbOutput.h:893-924 | packing through first span, split frame and second span is packing flat and copying around the wrap |
| PcmPacking.UnpackPcm | include/liblowlatencyaudio/DirectUsbOutput.h:927-953 | reads one sign-extended sample |
| PcmPacking.UnpackCaptureRun | include/liblowlatencyaudio/DirectUsbOutput.h:955-967 | decodes one channel of a contiguous run |
| PcmPacking.UnpackCaptureChannel | include/liblowlatencyaudio/DirectUsbOutput.h:969-996 | unpacking through the two spans is decoding every frame of the logical stream |
| PcmPacking.ChopJoins | include/liblowlatencyaudio/DirectUsbOutput.h:969-996 | every stream of whole frames is the flat layout of its frames, so the above applies to any region |
| QuantumSubmission.SubmitQuantum | include/liblowlatencyaudio/DirectUsbOutput.h:214-257 | accepted exactly when the gate is open at both reads, storage and watermark hold the whole quantum and, if charged, credit admits it; then the ring gains exactly the flat block and it is paid for, otherwise nothing changes |
| QuantumSubmission.SubmitInRun | include/liblowlatencyaudio/DirectUsbOutput.h:214-257 | at the end of any run: accepted if and only if the gate is open, the quantum fits its phase's limit and the storage and, if charged, ring, slot and quantum are within stock, target, reserve and what left the bus since the load; then its flat block is the next event, otherwise nothing is touched |
| QuantumSubmission.RoomIsFit | src/libusb_uac_driver.cpp:3331-3346 | `writableFrames` and `prepareWrite` leave room for a quantum exactly when it is under the limit of its phase in frames and inside the storage in bytes |
| PcmPacking.RegionRoundTrip | include/liblowlatencyaudio/DirectUsbOutput.h:893-996 | a quantum packed across any wrap and read back in stream order decodes to the samples that went in |
| Spans.SpreadWindow | src/libusb_uac_driver.cpp:3147-3157 | bytes written across two spans are what the stream reads at that cursor |
| Spans.SpreadKeeps | src/libusb_uac_driver.cpp:3147-3157 | and everything queued before them reads as it did |
| CaptureStream.RunHolds | src/libusb_uac_driver.cpp:1841-1903 | unread capture bytes are intact at every point between packet stores, publishes, reads and discards |
| CaptureStream.ReadsTheStream | src/libusb_uac_driver.cpp:1958-2018 | from reservation to release the region's spans hold exactly its slice of the admitted stream, whatever is stored meanwhile |
| CaptureStream.TilesAddUp | src/libusb_uac_driver.cpp:1973-1993 | reads, trims and discards tile the stream up to the tail in order without overlap and add up to it |
| CaptureStream.CaptureConserved | src/libusb_uac_driver.cpp:1958-2075 | admitted frames are read, trimmed, discarded or available |
| CaptureStream.AvailableDelivers | src/libusb_uac_driver.cpp:2077-2087 | once `f` frames are reported available the next read of `f` yields exactly `f`, despite completions in between |
| CaptureStream.KeepWhole | src/libusb_uac_driver.cpp:1884-1887 | what an overrun keeps of a packet of whole frames is whole frames |
| CaptureStream.ReserveTakes | src/libusb_uac_driver.cpp:1958-2006 | a read gets the oldest frames of the newest `limit` unread, as many as asked for and there; none once capture has ended |
| CaptureStream.ReadTakes | src/libusb_uac_driver.cpp:2011-2019 | releasing it moves the reader past the trimmed and the read frames; an empty one moves nothing |
| CaptureStream.AvailableIsReservable | src/libusb_uac_driver.cpp:2077-2087 | what is reported available is what a read gets, no more and no less |
| CaptureStream.DropTakes | src/libusb_uac_driver.cpp:2060-2075 | a discard drops the oldest frames, as many as asked for and there |
| CaptureStream.LiveTakes | src/libusb_uac_driver.cpp:2040-2058 | going live keeps the newest frames asked for, or all there are; a second call drops nothing |
| CaptureRing.Ring.OnCapture | src/libusb_uac_driver.cpp:1841-1903 | the packet loop over the transfer buffer is that sequence of stores and one publish |
| CaptureRing.Ring.PrepareRead | src/libusb_uac_driver.cpp:1958-2006 | trims locally to the frame limit and reserves the oldest frames that remain |
| CaptureRing.Ring.CommitRead | src/libusb_uac_driver.cpp:2011-2019 | releases the region; an empty one stores nothing, not even the trim |
| CaptureRing.Ring.ReadPcm | src/libusb_uac_driver.cpp:2021-2033 | copies out exactly the reserved slice of the admitted stream |
| CaptureRing.Ring.BeginLive | src/libusb_uac_driver.cpp:2040-2058 | drops all but the newest frames asked for, once |
| CaptureRing.Ring.DiscardFrames | src/libusb_uac_driver.cpp:2060-2075 | drops the oldest frames, no more than there are |
| CaptureRing.Ring.AvailableFrames | src/libusb_uac_driver.cpp:2077-2087 | whole frames ready under the limit, none once capture has ended |
| CaptureRing.CallbackAdmits | src/libusb_uac_driver.cpp:1836-1903 | a completed transfer publishes the longest run of whole frames of its packets, each found at its slot, that the ring has room for |
| CaptureRead.ReadInputChannels | include/liblowlatencyaudio/DirectUsbOutput.h:281-338 | every plane holds its channel of the oldest untrimmed frames of the admitted stream, planes without a channel silent; or zero is returned with every plane as it was; what was reserved is released either way, so a short read drops its partial frames |
| CaptureRead.WaitedReadIsWhole | include/liblowlatencyaudio/DirectUsbOutput.h:281-303 | a reader told that enough frames are available is never served short, however many completions land first |
| CaptureRead.LoopbackReturnsTheQuantum | include/liblowlatencyaudio/DirectUsbOutput.h:310-322 | on every legal format and output pair the planes of the pair decode a packed quantum back to its samples |
| Pacing.RationalPacketScheduler.Next | include/liblowlatencyaudio/UsbScheduling.h:276-285 | after n calls exactly floor(n*rate/period) frames have been emitted, without leaving 32 bits |
| Pacing.WindowExact | include/liblowlatencyaudio/UsbScheduling.h:268-285 | any k consecutive packets carry the floor or ceiling of k*rate/period |
| Pacing.WindowWithinNominal | include/liblowlatencyaudio/UsbScheduling.h:128-139 | so no transfer exceeds `nominalTransferFrames` |
| Pacing.NominalTransferFrames | include/liblowlatencyaudio/UsbScheduling.h:128-139 | the ceiling of its share, or the largest `int` when that is no larger than the ceiling; zero for nonsense input |
| Pacing.PacedClampIsDead | src/libusb_uac_driver.cpp:2949-2961 | on a paced endpoint the zero fallback and the clamp never change a scheduled count |
| Pacing.PrimeDescriptors | src/libusb_uac_driver.cpp:2386-2392 | the primed plan is the scheduler's first packets and totals floor(transfers*packets*rate/period) |
| Pacing.FeedbackConserved | src/libusb_uac_driver.cpp:2950-2961 | whatever values the device reports, 65536 times frames scheduled plus the accumulator is the sum over the packets of the rate in force at each, the last report within bounds, within 32 bits, and the clamp is dead code |
| Pacing.FeedbackPacer.OnReport | src/libusb_uac_driver.cpp:2654-2677 | a report whose value (16.16, or 10.14; section 5.12.4.2 of the USB 2.0 specification) times the interval is positive and within the packet maximum replaces the rate by exactly that product, any other leaves it; no step leaves its width |
| Pacing.FeedbackPacer.NextPacket | src/libusb_uac_driver.cpp:2953-2961 | equals the exact pacer in 32-bit arithmetic |
| Pacing.FeedbackDecodes | src/libusb_uac_driver.cpp:2654-2667 | three little-endian bytes are 10.14 and become that rate in 16.16 exactly, four or more are 16.16 as they are, fewer ask for nothing |
| Pacing.NominalIsCeiling | src/libusb_uac_driver.cpp:2327-2364 | the nominal packet maximum is the ceiling of rate over period, the packet maximum one more where the endpoint has room, the feedback seed the floor in Q16 |
| Pacing.PlaybackRunwayNanoseconds | include/liblowlatencyaudio/UsbScheduling.h:237-254 | min(2^64-1, floor(frames*10^9/rate)) with every intermediate in 64 bits |
| InitialPrime.ExactPrime | src/libusb_uac_driver.cpp:2521-2533 | with the plan covered by the ring every transfer ships its planned lengths and its own stretch of the prime, and the device reads exactly that, whatever is committed meanwhile |
| InitialPrime.ArrivalsQueueBehind | src/libusb_uac_driver.cpp:2521-2533 | what is committed meanwhile queues behind what is left of the prime, in order |
| InitialPrime.ReadBackExactlyWhenCovered | src/libusb_uac_driver.cpp:2514-2533 | over all transfers, the device reads the drained bytes from each under every interleaving of admitted whole commits if and only if the ring before the pump covered all earlier plans and all packets before the last carrying one, or no commit fits the limit |
| InitialPrime.ShipsWithinPlan | src/libusb_uac_driver.cpp:2521-2533 | what was buffered and what arrived is shipped or left, in order, and no more than planned is shipped |
| RacingStart.RacingStartIsAtomic | src/libusb_uac_driver.cpp:2514-2561 | a start whose prime covers the plan, raced by commits at any packet, sends what the one-step start sends and leaves its ring followed by the commits |
| StartGuarantee.CheckCoversPlan | src/libusb_uac_driver.cpp:2514-2520 | passing the check implies the plan is buffered if and only if the configuration was accepted or the plan is empty |
| StartGuarantee.StartReadsBackExactlyWhen | src/libusb_uac_driver.cpp:2514-2533 | every start on whole frames that passes a prime reads back what was drained, under every interleaving of admitted commits, if and only if the prime covers what `ReadBackExactlyWhenCovered` asks or no commit fits |
| StartGuarantee.AcceptedStartReadsBack | src/libusb_uac_driver.cpp:3305-3328 | an accepted configuration is always enough |
| StartGuarantee.RefusedStartExactlyWhen | src/libusb_uac_driver.cpp:3310-3318 | under a refused configuration some start is misread if and only if a region reserved under earlier limits can still be committed |
| StartGuarantee.DefaultStartMisreads | src/libusb_uac_driver.cpp:2438-2456 | with the defaults in force a legal format whose start passes and is misread when one admitted quantum lands inside the fill |
| StartGuarantee.ZeroPrimeStartsEmpty | src/libusb_uac_driver.cpp:2514-2520 | a zero prime starts playback on an empty ring |
| BufferPolicy.Settings.SetUserspaceBufferConfig | src/libusb_uac_driver.cpp:3250-3328 | publishes the resolved configuration whole when its budgets fit, and zeroes every limit otherwise |
| BufferPolicy.ResolvedTerms | src/libusb_uac_driver.cpp:3250-3304 | every explicit quantum, headroom, target and prime reaches its own field; what each automatic one is, from quantum, drain chunk, nominal chunk, multiplier and ring |
| BufferPolicy.ResolvedCaptureTerms | src/libusb_uac_driver.cpp:3284-3298 | every explicit capture target, headroom and slack reaches its own field, -1 is zero, an automatic one a capture wave |
| BufferPolicy.AcceptedExactlyWhen | src/libusb_uac_driver.cpp:3305-3328 | accepted if and only if playback budget, prime and capture budget each fit the bytes of the ring and the prime covers the plan |
| BufferPolicy.Settings.AcceptedReachesPrime | src/libusb_uac_driver.cpp:3331-3346 | under an accepted configuration `writableFrames` leaves room, counted in frames, up to the prime at every smaller occupancy |
| QuantumAdmission.PrimeReachedExactlyWhen | include/liblowlatencyaudio/DirectUsbOutput.h:222-250 | a producer of whole quanta reaches the prime if and only if it offers enough and the least multiple of the quantum no less than the prime is within prime plus headroom and the ring |
| QuantumAdmission.StartPassesExactlyWhen | src/libusb_uac_driver.cpp:2514-2520 | and exactly then the start check passes |
| QuantumAdmission.AcceptedReachesExactlyWhen | src/libusb_uac_driver.cpp:3262-3266 | for an accepted configuration with automatic headroom only the ring decides |
| QuantumAdmission.ShortHeadroomNeverStarts | src/libusb_uac_driver.cpp:3305-3318 | an accepted configuration with headroom below the quantum is stuck below its prime |
| QuantumAdmission.FullPrimeNeverStarts | src/libusb_uac_driver.cpp:3305-3318 | so is one whose prime is the whole ring and no multiple of the quantum |
| BufferPolicy.Settings.RefusedAdmitsNothing | src/libusb_uac_driver.cpp:3310-3318 | a refused one admits no frame, started or not |
| BufferPolicy.AutomaticPrimeFits | src/libusb_uac_driver.cpp:3279-3282 | the automatic prime passes its check exactly when the initial plan fits the ring |
| BufferPolicy.PublishedPrimeCovers | src/libusb_uac_driver.cpp:3305-3322 | the published prime covers the initial plan if and only if the configuration was accepted, an empty plan aside |
| BufferPolicy.RefusedPrimeUncovered | src/libusb_uac_driver.cpp:3310-3318 | a refused configuration publishes a zero prime although its plan fits the ring |
| BufferPolicy.Settings.StoreStartupPrime | src/libusb_uac_driver.cpp:2438-2454 | the prime stored before any configuration covers the plan if and only if the default ring less one quantum does |
| BufferPolicy.StoredPrimeIs | src/libusb_uac_driver.cpp:2438-2454 | the stored prime is the larger of plan and target, capped at the frames of the default ring less one quantum |
| BufferPolicy.StoredPrimeUncovered | src/libusb_uac_driver.cpp:2438-2454 | a legal format for which, at the default quantum, it does not |
| BufferPolicy.CaptureBudgetFits | src/libusb_uac_driver.cpp:3306-3309 | every capture budget accepted fits the capture ring if and only if the playback frame count is not the larger one |
| BufferPolicy.AcceptedCaptureOverflows | src/libusb_uac_driver.cpp:3306-3309 | an automatic configuration that is accepted although its capture budget exceeds the capture ring |
| QuantumAdmission.AllInExactlyWhen | src/libusb_uac_driver.cpp:3331-3346 | over any sequence of drains, each followed by a quantum, all quanta are admitted if and only if production never runs ahead of the drains by more than the limit leaves |
| QuantumAdmission.NoneRefusedExactlyWhen | src/libusb_uac_driver.cpp:3331-3346 | for the offers themselves, over any drains and blocks: none is refused if and only if production never runs ahead of the drains by more than target plus headroom leaves, and the ring then holds what was there, plus the quanta, less the drains |
| QuantumAdmission.WritableExactlyWhen | src/libusb_uac_driver.cpp:3331-3346 | `writableFrames` answers at least a quantum if and only if it is under the limit of its phase and inside the storage |
| QuantumAdmission.TargetRoomExactlyWhen | src/libusb_uac_driver.cpp:3381-3402 | the playback wait finds room if and only if the quantum fits below the target and in the storage |
| QuantumAdmission.HeadroomAbsorbsSkippedDrain | include/liblowlatencyaudio/UsbScheduling.h:159-185 | automatic headroom admits every quantum while the drains are behind by no more than a skipped one |
| QuantumAdmission.WaitLeavesTarget | src/libusb_uac_driver.cpp:3381-3402 | a quantum offered once the wait has found room below the target leaves the ring at the target or below |
| WakeChannel.NoneLostExactlyWhen | include/liblowlatencyaudio/WakeChannel.h:81-150 | in every run every blocked waiter whose condition holds is owed a signal, if and only if at most one thread waits or streaming is over |
| WakeChannel.TwoWaitersStranded | include/liblowlatencyaudio/WakeChannel.h:145-150 | any two waiters can be stranded: a stop wakes the first, which drains the event the second needed |
| WakeChannel.NoLostWakeup | include/liblowlatencyaudio/WakeChannel.h:81-124 | in every interleaving a single waiter blocked while its frames are there, or streaming is over, is owed a signal, and is woken once producers finish |
| WakeChannel.StepKeeps | src/libusb_uac_driver.cpp:2088-2107 | every step of waiter, callback, failure and stop keeps the wakeup invariant |
| WakeChannel.WaitEndsOnlyWhen | src/libusb_uac_driver.cpp:2088-2107 | a waiter leaves only with its frames there, streaming over or its time up, and is then not counted |
| WakeChannel.WaitReturnsExactlyWhen | src/libusb_uac_driver.cpp:2088-2107 | uninterrupted, a wait returns at once if and only if its frames are there or streaming is over |
| WakeChannel.SecondWaiterStranded | include/liblowlatencyaudio/WakeChannel.h:145-150 | with two waiters on one channel the guarantee fails: the first to wake drains the shared counter |
| FlightRecorder.SessionHistory | include/liblowlatencyaudio/PacketFlightRecorder.h:166-170 | whatever came before, a session's history is its mask-filtered events up to and including the first trigger |
| FlightRecorder.DisabledKeepsHistory | include/liblowlatencyaudio/PacketFlightRecorder.h:166-170 | nothing is recorded outside a session, and what the last one left stays |
| FlightRecorder.SettersChange | include/liblowlatencyaudio/PacketFlightRecorder.h:182-232 | a reset empties the history and rearms the trigger; each setter changes its own field |
| FlightRecorder.UnknownIsATrigger | include/liblowlatencyaudio/PacketFlightRecorder.h:235-259 | under the `Unknown` trigger a session freezes if and only if it notes an admitted `Unknown` event |
| FlightRecorder.UnknownFreezes | include/liblowlatencyaudio/PacketFlightRecorder.h:216-218 | a fresh recorder so configured stops at the first one |
| FlightRecorder.Recorder.NoteEvent | include/liblowlatencyaudio/PacketFlightRecorder.h:235-259 | overwrites one slot, keeps the newest events in theirs, and freezes on the trigger |
| FlightRecorder.Recorder.Snapshot | include/liblowlatencyaudio/PacketFlightRecorder.h:275-290 | copies the newest min(requested, capacity, recorded) events in order |
| FlightRecorder.SessionSnapshot | include/liblowlatencyaudio/PacketFlightRecorder.h:275-290 | a snapshot after a session is the newest part of that session's filtered history |
| FlightRecorder.Recorder.Dropped | include/liblowlatencyaudio/PacketFlightRecorder.h:267-270 | dropped plus retained is recorded |
| FlightRecorder.Recorder.constructor | include/liblowlatencyaudio/PacketFlightRecorder.h:142-149 | the smallest power of two that holds the request, up to 2^20 |

## Left out

- Callbacks inside `Transport.dfy` are single steps, so there a stop on another thread lands between callbacks; `StopRace.dfy`, `RingProtocol.dfy`, `LayoutFifo.dfy`, `CaptureStream.dfy` and `WakeChannel.dfy` interleave inside them, each for its own state.
- TransportRuns.RunHolds: a start is one step of these runs, with no completion between a submission and its count; `StartRace.dfy` has those steps, and `StartRace.SparedStaysExact` says when they make no difference.
- TransportTheorems.ExactlyOnePlace: its queue count, for the same reason.
- TransportTheorems.QueueNeverSaturates: for the same reason; inside a start the subtraction can saturate (`StartRace.CountedAfterItLeft`).
- TransportTheorems.CreditConserved: its queue term, for the same reason (`StartRace.CreditOffByExcess`).
- TransportSafety.StartPlaybackKeeps: the start as one step.
- Driver.UacDriver.SubmitTransfers: no completion lands between a submission and its count.
- RacingStart.RacingStartIsAtomic: races commits, not completions; a completion drains the ring only after every initial transfer was filled.
- StartRace.ExactExactlyWhen: reads a transfer's descriptors at once; a rewrite between the reads of two packets is not modelled, nor a submission the bus refuses.
- TransportTheorems.StopIsFinal: callbacks are single steps; one already past its own stop test may still submit, which `StopRace.dfy` counts.
- TransportTheorems.ReleaseOrder: likewise; `StopRace.ZeroIsFinalExactlyWhen` is its fine-grained form.
- StartGuarantee.RefusedStartExactlyWhen: the earlier reservation is the limit it was admitted under; which region it was is not followed.
- StopRace.ZeroIsFinalExactlyWhen: counts transfers rather than naming them, and lets a deferred transfer be ready whenever it is served; the metadata and PCM it needs are in `Transport.dfy`.
- Held blocks: frames published without charge and frames in the holding slot are terms of the ledger; the slot itself belongs to the caller and is not modelled.
- Driver.UacDriver.MarkTransportFailed: the two wake signals it ends with are the steps `FailSignal` of `WakeChannel.dfy`.
- Driver.UacDriver.StartPlayback: neither producer nor event thread runs inside the class's start; `RacingStart.dfy` and `StartRace.dfy` are where they do.
- QuantumSubmission.SubmitQuantum: one call against a quiet consumer, the queue as the charge loaded it and the two reads of the gate aside; the interleavings of ring and gate are in `RingProtocol.dfy`.
- The stop phases are on values in `Transport.dfy`, and step by step in `StopRace.dfy`, not in the class.
- TransportTheorems.FreedStaysFreed: one session; re-allocating the pools for another is not part of the runs.
- WakeChannel.NoLostWakeup: the capture channel with its one waiter; the playback channel is not claimed, since drains from `onCapture` and credit granted before a deferral do not signal it.
- WakeChannel.StepKeeps: sessions do not restart within a run, so capture and streaming only ever end.
- FlightRecorder.SessionHistory: one producer at a time; the record or two a concurrent producer may add behind a trigger is not modelled.
- Spans.SpreadWindow: the event and render threads' memory operations are sequentially consistent; reordering by weak memory is not modelled.
- Float samples: packing starts from integer samples and unpacking ends at them; conversion and scaling are floating point.
- Real time: deadlines, the bounded teardown wait and poll timeouts are nondeterministic outcomes.
- `flushRing`: it resets both cursors outside the producer and consumer roles, so no run contains it.
- `captureFrameLimit`: its value is a parameter of each read; availability and read use the same one.
- Transfer and stream negotiation, descriptor parsing, clock selection, vendor setup: device I/O.
- Thread placement, performance hints, `/proc` reads, latency envelopes, histograms, discontinuity and level detectors, stall injection: they decide nothing in the transport.
