/** The async kernel driver, updating its device structure in place. */
module EduPci {
  import opened Words
  import opened RingIndex
  import opened Slab
  import opened EduRing
  import opened EduWorld
  import opened EduHardware
  import opened EduDmaTest

  lemma RunStarts(w: World, ev: Event, evs: seq<Event>)
    requires Shaped(w.dev.ring)
    ensures Run(Step(w, ev), evs) == Run(w, [ev] + evs)
  {
    hide Step, Run;
    RunSplits(w, [ev], evs);
    RunOne(w, ev);
  }

  class EduDev {
    const sq: array<SqEntry>
    const cq: array<CqEntry>
    const inflight: array<u8>
    var sqTail: u32
    var cqTail: u32
    var cqHead: u32
    var evtCtx: bool
    var dmaOk: u32
    var injectFault: u32
    var irqTotal: nat
    var sqSubmitted: nat
    var cqPosted: nat
    var cqConsumed: nat
    var dmaErrors: nat
    var eventfdSignals: nat
    var bar0: Hw

    ghost var epoch: Epoch
    ghost var totals: Totals

    ghost predicate Valid()
      reads this
    {
      && sq.Length == cq.Length == inflight.Length == RING_SIZE
      && sqTail < RING_SIZE && cqTail < RING_SIZE && cqHead < RING_SIZE
    }

    ghost function Dev(): (d: Device)
      requires Valid()
      reads this, sq, cq, inflight
      ensures Shaped(d.ring)
    {
      Device(Ring(sq[..], cq[..], inflight[..], sqTail, cqTail, cqHead), evtCtx, dmaOk, injectFault,
             Counters(irqTotal, sqSubmitted, cqPosted, cqConsumed, dmaErrors, eventfdSignals))
    }

    ghost function View(): (w: World)
      requires Valid()
      reads this, sq, cq, inflight
      ensures Shaped(w.dev.ring)
    {
      World(Dev(), epoch, totals)
    }

    constructor Probe()
      ensures Valid() && View() == Boot()
      ensures fresh(sq) && fresh(cq) && fresh(inflight)
      ensures bar0 == Hw(Idle, 0, 0, false)
    {
      sq := new SqEntry[RING_SIZE](_ => SqEntry(0, 0, 0, 0, 0));
      cq := new CqEntry[RING_SIZE](_ => CqEntry(0, 0, 0, 0, 0));
      inflight := new u8[RING_SIZE](_ => 0);
      sqTail, cqTail, cqHead := 0, 0, 0;
      evtCtx, dmaOk, injectFault := false, 0, 0;
      irqTotal, sqSubmitted, cqPosted, cqConsumed, dmaErrors, eventfdSignals := 0, 0, 0, 0, 0, 0;
      bar0 := Hw(Idle, 0, 0, false);
      epoch, totals := Boot().epoch, Boot().totals;
      new;
      assert sq[..] == Probed().ring.sq;
      assert cq[..] == Probed().ring.cq;
      assert inflight[..] == Probed().ring.inflight;
    }

    /** The half of a submission under the ring lock. */
    method SubmitLocked(req: Submission) returns (r: Errno)
      requires Valid()
      modifies this, sq, inflight
      ensures Valid() && bar0 == old(bar0)
      ensures View() == Step(old(View()), Submit(req))
      ensures Code(r) == ReplyTo(old(Dev()), Submit(req))
    {
      ghost var w := View();
      MasksAreResidues(sqTail);
      MasksAreResidues(cqHead);
      if RingFull(sqTail, cqHead, RING_MASK) {
        return ENOSPC;
      }
      var slot := BitAnd(sqTail, RING_MASK);
      sq[slot] := SqEntry(req.tag, req.opcode, 0, req.operand, 0);
      inflight[slot] := req.opcode;
      sqTail := RingNext(sqTail, RING_MASK);
      sqSubmitted := sqSubmitted + 1;
      epoch := EpochAfter(w, Submit(req));
      r := OK;
      assert sq[..] == Accept(w.dev.ring, req).sq;
      assert inflight[..] == Accept(w.dev.ring, req).inflight;
    }

    /** The half after the lock is released. */
    method Kick(req: Submission) returns (r: Errno)
      requires Valid()
      modifies this`bar0
      ensures Valid() && bar0 == Kicked(old(bar0), req)
      ensures View() == Step(old(View()), EduRing.Kick(req.opcode))
      ensures Code(r) == ReplyTo(old(Dev()), EduRing.Kick(req.opcode))
    {
      if req.opcode == OP_FACTORIAL {
        bar0 := bar0.(factIrq := true);
        if bar0.job.Idle? {
          bar0 := bar0.(job := Computing(req.operand));
        }
        return OK;
      } else if req.opcode == OP_DMA_TEST {
        bar0 := bar0.(factIrq := false);
        if bar0.job.Idle? {
          bar0 := bar0.(job := Copying);
        }
        return OK;
      }
      return EINVAL;
    }

    /** The interrupt handler's scan over the pending table. */
    method Scan() returns (i: nat)
      requires Valid()
      ensures i <= RING_SIZE && (i < RING_SIZE ==> inflight[i] != 0)
      ensures forall j :: 0 <= j < i ==> inflight[j] == 0
    {
      i := 0;
      while i < RING_SIZE && inflight[i] == 0
        invariant 0 <= i <= RING_SIZE
        invariant forall j :: 0 <= j < i ==> inflight[j] == 0
      {
        i := i + 1;
      }
    }

    /** Completes a pending slot. */
    method Complete(i: nat, fact: u32)
      requires Valid() && i < RING_SIZE && i == Lowest(inflight[..])
      modifies this`cqTail, this`cqPosted, cq, inflight
      ensures Valid() && cqPosted == old(cqPosted) + 1
      ensures Dev().ring == Post(old(Dev()).ring, fact)
    {
      ghost var r := Dev().ring;
      MasksAreResidues(cqTail);
      var result := if sq[i].opcode == OP_FACTORIAL then fact else 0;
      cq[BitAnd(cqTail, RING_MASK)] := CqEntry(sq[i].tag, 0, 0, result, 0);
      cqTail := RingNext(cqTail, RING_MASK);
      inflight[i] := 0;
      cqPosted := cqPosted + 1;
      assert cq[..] == Post(r, fact).cq;
      assert inflight[..] == Post(r, fact).inflight;
    }

    /** The handler's section under the ring lock. */
    method ScanAndPost(fact: u32) returns (ringPending: bool)
      requires Valid()
      modifies this`cqTail, this`cqPosted, cq, inflight
      ensures Valid() && Dev().ring == Post(old(Dev()).ring, fact)
      ensures ringPending <==> Lowest(old(inflight[..])) < RING_SIZE
      ensures cqPosted == old(cqPosted) + if ringPending then 1 else 0
    {
      var i := Scan();
      LowestIsScan(inflight[..], i);
      ringPending := i < RING_SIZE;
      if ringPending {
        Complete(i, fact);
      }
    }

    /** The interrupt handler: read and acknowledge the cause, complete the first
        pending slot the scan meets, signal the eventfd. */
    method IrqHandler() returns (handled: bool)
      requires Valid()
      modifies this, cq, inflight
      ensures Valid() && bar0 == old(bar0).(irqStat := 0)
      ensures View() == Step(old(View()), Irq(old(bar0.irqStat), old(bar0.fact)))
      ensures Handled(handled) == ReplyTo(old(Dev()), Irq(old(bar0.irqStat), old(bar0.fact)))
    {
      hide Lowest, Post, DmaMatches;
      ghost var w := View();
      ghost var ev := Irq(bar0.irqStat, bar0.fact);
      if bar0.irqStat == 0 {
        return false;
      }
      bar0 := bar0.(irqStat := 0);
      irqTotal := irqTotal + 1;
      var ringPending := ScanAndPost(bar0.fact);
      if ringPending && evtCtx {
        eventfdSignals := eventfdSignals + 1;
      }
      epoch := EpochAfter(w, ev);
      handled := true;
      assert Dev().stats == StatsAfter(w.dev, ev);
    }

    method PollCq() returns (r: Errno, out: Completion)
      requires Valid()
      modifies this
      ensures Valid() && bar0 == old(bar0)
      ensures View() == Step(old(View()), Poll)
      ensures ReplyTo(old(Dev()), Poll) == if r == OK then Got(out) else Code(r)
    {
      ghost var w := View();
      out := Completion(0, 0, 0);
      if cqHead == cqTail {
        return EAGAIN, out;
      }
      MasksAreResidues(cqHead);
      var cqe := cq[BitAnd(cqHead, RING_MASK)];
      out := Completion(cqe.tag, cqe.status, cqe.result);
      epoch := EpochAfter(w, Poll);
      cqHead := RingNext(cqHead, RING_MASK);
      cqConsumed := cqConsumed + 1;
      r := OK;
    }

    method PollReady() returns (readable: bool)
      requires Valid()
      ensures Ready(readable) == ReplyTo(Dev(), EduRing.PollReady)
    {
      readable := cqHead != cqTail;
    }

    method ClearInflight()
      requires Valid()
      modifies inflight
      ensures forall j :: 0 <= j < RING_SIZE ==> inflight[j] == 0
    {
      var i := 0;
      while i < RING_SIZE
        invariant 0 <= i <= RING_SIZE
        invariant forall j :: 0 <= j < i ==> inflight[j] == 0
      {
        inflight[i] := 0;
        i := i + 1;
      }
    }

    method Open()
      requires Valid()
      modifies this, inflight
      ensures Valid() && bar0 == old(bar0)
      ensures View() == Step(old(View()), EduRing.Open)
    {
      hide TotalsAfter, Lowest, LastWriter, Full, Post, Accept, Take, Overwrite, DmaMatches;
      ghost var w := View();
      sqTail, cqTail, cqHead := 0, 0, 0;
      ClearInflight();
      epoch, totals := EpochAfter(w, EduRing.Open), TotalsAfter(w, EduRing.Open);
      assert inflight[..] == Restart(w.dev.ring).inflight;
    }

    method SetEventfd()
      requires Valid()
      modifies this`evtCtx
      ensures Valid() && View() == Step(old(View()), EduRing.SetEventfd)
    {
      evtCtx := true;
    }

    /** The statistics file's "ring_inflight". */
    method RingInflight() returns (n: u32)
      requires Valid()
      ensures IndexInv(View()) ==> n == P(View()) - C(View())
    {
      n := Occupancy(cqTail, cqHead, RING_MASK);
      if IndexInv(View()) {
        MasksAreResidues(cqTail);
        SixtyFour();
        MaskedIndicesAreFaithful(6, C(View()), P(View()));
      }
    }

    method InjectFaultStore(val: Parsed) returns (r: Errno)
      requires Valid()
      modifies this`injectFault, this`totals
      ensures Valid() && View() == Step(old(View()), InjectStore(val))
      ensures Code(r) == ReplyTo(old(Dev()), InjectStore(val))
    {
      ghost var w := View();
      if !val.Number? {
        return if val.Malformed? then EINVAL else ERANGE;
      }
      if val.n > 1 {
        return EINVAL;
      }
      injectFault := val.n;
      totals := TotalsAfter(w, InjectStore(val));
      r := OK;
    }

    /** The first 64 bytes of the slab, written by the processor or the device. */
    method WriteBlock(b: Block)
      requires Valid()
      modifies sq
      ensures Valid() && View() == Step(old(View()), DmaWrite(b))
    {
      ghost var sq0 := sq[..];
      var i := 0;
      while i < 4
        invariant 0 <= i <= 4
        invariant forall j :: 0 <= j < RING_SIZE ==> sq[j] == if j < i then Overwrite(sq0, b)[j] else sq0[j]
      {
        sq[i] := Decode(b[16 * i..16 * i + 16]);
        i := i + 1;
      }
      assert sq[..] == Overwrite(sq0, b);
    }

    /** One step taken by somebody: another thread, user space, the device. */
    method Perform(ev: Event)
      requires Valid()
      modifies this, sq, cq, inflight
      ensures Valid() && View() == Step(old(View()), ev)
    {
      ghost var w := View();
      match ev {
        case Submit(s) => var _ := SubmitLocked(s);
        case Kick(op) => var _ := Kick(Submission(0, op, 0));
        case Irq(stat, fact) =>
          bar0 := bar0.(irqStat := stat, fact := fact);
          var _ := IrqHandler();
        case Poll => var _, _ := PollCq();
        case PollReady => var _ := PollReady();
        case Open => Open();
        case SetEventfd => SetEventfd();
        case MmapSq(i, e) =>
          sq[i] := e;
          assert sq[..] == w.dev.ring.sq[i := e];
        case MmapCq(i, e) =>
          cq[i] := e;
          assert cq[..] == w.dev.ring.cq[i := e];
        case DmaWrite(b) => WriteBlock(b);
        case DmaCheck => var _ := DmaVerdict();
        case InjectStore(v) => var _ := InjectFaultStore(v);
      }
    }

    /** What happens while a legacy request waits. */
    method Meanwhile(evs: seq<Event>)
      requires Valid()
      modifies this, sq, cq, inflight
      ensures Valid() && View() == Run(old(View()), evs)
    {
      var i := 0;
      assert evs[..0] == [];
      while i < |evs|
        invariant 0 <= i <= |evs|
        invariant Valid() && View() == Run(old(View()), evs[..i])
      {
        Perform(evs[i]);
        RunSplits(old(View()), evs[..i], [evs[i]]);
        RunOne(Run(old(View()), evs[..i]), evs[i]);
        assert evs[..i + 1] == evs[..i] + [evs[i]];
        i := i + 1;
      }
      assert evs[..i] == evs;
    }

    method DmaVerdict() returns (r: Errno)
      requires Valid()
      modifies this
      ensures Valid() && View() == Step(old(View()), DmaCheck)
      ensures r == if DmaMatches(old(Dev()).ring) && old(injectFault) != 1 then OK else EIO
      ensures dmaOk == if r == OK then 1 else old(dmaOk)
      ensures injectFault == if DmaMatches(old(Dev()).ring) && old(injectFault) == 1 then 0 else old(injectFault)
    {
      ghost var w := View();
      var bytes := Encode(sq[0]) + Encode(sq[1]) + Encode(sq[2]) + Encode(sq[3]);
      if bytes != EduPattern() {
        dmaErrors := dmaErrors + 1;
        r := EIO;
      } else if injectFault == 1 {
        injectFault := 0;
        dmaErrors := dmaErrors + 1;
        r := EIO;
      } else {
        dmaOk := 1;
        r := OK;
      }
      totals := TotalsAfter(w, DmaCheck);
    }

    /** The legacy DMA round trip, whatever else goes on during its two waits.
        If it does not time out, its result is the verdict on the state at the
        end. If moreover nobody writes to the fault switch: with the bytes
        touched by nobody after the device has sent them back, it passes exactly
        when they are the pattern and no fault is armed, and spends the fault
        exactly when the fault alone fails it; woken before that, it fails. With a
        device that sends back what it read while the pattern was untouched, it
        passes exactly when no fault is armed. */
    method RunDmaTest(out: Wait, home: Wait) returns (r: Errno)
      requires Valid()
      modifies this, sq, cq, inflight
      ensures Valid() && View() == Run(old(View()), DmaTestEvents(out, home))
      ensures r == ETIMEDOUT <==> out.timedOut || home.timedOut
      ensures r == ETIMEDOUT || r == OK || r == EIO
      ensures r != ETIMEDOUT ==> Code(r) == ReplyTo(Compared(old(View()), out, home).dev, DmaCheck)
      ensures SwitchLeftAlone(out, home) ==>
                && dmaOk == (if r == OK then 1 else old(dmaOk))
                && (r == ETIMEDOUT ==> injectFault == old(injectFault))
      ensures forall back | SwitchLeftAlone(out, home) && SendsBack(old(View()), out, home, back) && r != ETIMEDOUT ::
                && (r == OK <==> back == EduPattern() && old(injectFault) != 1)
                && injectFault == if back == EduPattern() && old(injectFault) == 1 then 0 else old(injectFault)
      ensures SwitchLeftAlone(out, home) && WakesEarly(old(View()), out, home) && r != ETIMEDOUT ==>
                r == EIO && injectFault == old(injectFault)
      ensures forall k: nat | k <= |out.steps| && OutUntouched(old(View()), out, k) && SwitchLeftAlone(out, home) &&
                              r != ETIMEDOUT && SendsBack(old(View()), out, home, HeldAt(old(View()), out, k)) ::
                r == OK <==> old(injectFault) != 1
    {
      hide Run, Step, Prefix, SendsBack, WakesEarly, SwitchAlone, OutUntouched, HeldAt, EduPattern;
      ghost var w := View();
      DmaTestRuns(w, out, home);
      SwitchAtEnd(w, out, home);
      WriteBlock(EduPattern());
      Meanwhile(out.steps);
      RunStarts(w, DmaWrite(EduPattern()), out.steps);
      if out.timedOut {
        return ETIMEDOUT;
      }
      ghost var w1 := View();
      WriteBlock(ZeroBlock());
      Meanwhile(home.steps);
      RunStarts(w1, DmaWrite(ZeroBlock()), home.steps);
      if home.timedOut {
        return ETIMEDOUT;
      }
      assert View() == Compared(w, out, home);
      r := DmaVerdict();
      forall back | SendsBack(w, out, home, back)
        ensures DmaMatches(Compared(w, out, home).dev.ring) <==> back == EduPattern()
      {
        BackAtEnd(w, out, home, back);
      }
      if WakesEarly(w, out, home) {
        ZerosAtEnd(w, out, home);
        PatternIsNotZero();
      }
      forall k: nat | k <= |out.steps| && OutUntouched(w, out, k)
        ensures HeldAt(w, out, k) == EduPattern()
      {
        OutHoldsPattern(w, out, k);
      }
    }
  }
}
