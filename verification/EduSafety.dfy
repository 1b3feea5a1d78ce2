/** What every interleaving keeps, whatever user space writes into the slab. */
module EduSafety {
  import opened Words
  import opened Slab
  import opened EduRing
  import opened EduWorld

  lemma UnfinishedAccept(f: seq<u8>, accepted: seq<Submission>, origin: seq<nat>, s: Submission)
    requires Unfinished(f, accepted, origin) && Distinct(origin, |accepted|)
    ensures Unfinished(f[Masked(|accepted|) := s.opcode], accepted + [s], origin)
  {
    var n := |accepted|;
    var f' := f[Masked(n) := s.opcode];
    LastWriterNew(n);
    forall i: Slot | f'[i] != 0
      ensures i < n + 1 && HoldsFor(accepted + [s], origin, LastWriter(n + 1, i), f'[i])
    {
      if i == Masked(n) {
        assert n !in origin;
      } else {
        LastWriterOld(n, i);
      }
    }
  }

  lemma UnfinishedPost(f: seq<u8>, accepted: seq<Submission>, origin: seq<nat>, k: Slot)
    requires Unfinished(f, accepted, origin) && f[k] != 0
    ensures 0 <= LastWriter(|accepted|, k) < |accepted|
    ensures Unfinished(f[k := 0], accepted, origin + [LastWriter(|accepted|, k)])
  {
    var origin' := origin + [LastWriter(|accepted|, k)];
    forall i: Slot | f[k := 0][i] != 0
      ensures HoldsFor(accepted, origin', LastWriter(|accepted|, i), f[i])
    {
      LastWriterDistinct(|accepted|, i, k);
    }
  }

  lemma OriginAccept(w: World, ev: Event)
    requires Shaped(w.dev.ring) && w.dev.ring.sqTail == Masked(S(w))
    requires OriginInv(w) && Accepts(w.dev, ev)
    ensures OriginInv(Step(w, ev))
  {
    var e, e' := w.epoch, Step(w, ev).epoch;
    assert e'.accepted == e.accepted + [ev.sub] && e'.origin == e.origin;
    assert Step(w, ev).dev.ring.inflight == w.dev.ring.inflight[Masked(S(w)) := ev.sub.opcode];
    UnfinishedAccept(w.dev.ring.inflight, e.accepted, e.origin, ev.sub);
  }

  lemma OriginPost(w: World, ev: Event)
    requires Shaped(w.dev.ring) && OriginInv(w) && Posts(w.dev, ev)
    ensures OriginInv(Step(w, ev))
    ensures Step(w, ev).epoch.origin == w.epoch.origin + [LastWriter(S(w), Lowest(w.dev.ring.inflight))]
  {
    var f, e, e' := w.dev.ring.inflight, w.epoch, Step(w, ev).epoch;
    UnfinishedPost(f, e.accepted, e.origin, Lowest(f));
    assert e'.origin == e.origin + [LastWriter(S(w), Lowest(f))] && e'.accepted == e.accepted;
    assert HoldsFor(e.accepted, e.origin, LastWriter(S(w), Lowest(f)), f[Lowest(f)]);
    assert Step(w, ev).dev.ring.inflight == f[Lowest(f) := 0];
  }

  lemma OriginStep(w: World, ev: Event)
    requires IndexInv(w) && OriginInv(w)
    ensures OriginInv(Step(w, ev))
  {
    if Accepts(w.dev, ev) {
      OriginAccept(w, ev);
    } else if Posts(w.dev, ev) {
      OriginPost(w, ev);
    } else if ev.Open? {
      assert Quiet(Step(w, ev).dev.ring);
    } else {
      assert w.dev.ring.inflight == Step(w, ev).dev.ring.inflight;
    }
  }

  lemma CounterStep(w: World, ev: Event)
    requires IndexInv(w) && CounterInv(w)
    ensures CounterInv(Step(w, ev))
  {
    hide DmaMatches, Lowest, Post, Accept, Take, Overwrite, LastWriter;
    var w' := Step(w, ev);
    if ev.Submit? || ev.Irq? {
      IndexStep(w, ev);
      assert P(w') <= S(w');
    } else if ev.Poll? {
      IndexStep(w, ev);
      assert C(w') <= P(w');
    } else if ev.Open? {
    } else {
      assert w'.epoch == w.epoch;
    }
  }

  lemma FaultStep(w: World, ev: Event)
    requires Shaped(w.dev.ring) && FaultInv(w)
    ensures FaultInv(Step(w, ev))
  {
    hide DmaMatches, Lowest, Post, Accept, Take, Overwrite;
    match ev {
      case DmaCheck =>
      case InjectStore(v) =>
      case _ =>
    }
  }

  ghost predicate Inv(w: World) {
    IndexInv(w) && OriginInv(w) && CounterInv(w) && FaultInv(w)
  }

  lemma InvStep(w: World, ev: Event)
    requires Inv(w)
    ensures Inv(Step(w, ev))
  {
    IndexStep(w, ev);
    OriginStep(w, ev);
    CounterStep(w, ev);
    FaultStep(w, ev);
  }

  lemma BootInv(w: World)
    requires w == Boot()
    ensures IndexInv(w)
    ensures OriginInv(w)
    ensures CounterInv(w)
    ensures FaultInv(w)
  {
    assert Quiet(w.dev.ring);
    assert Pending(w.dev.ring.inflight) == {};
  }

  /** Every invariant above holds after any run of any steps. */
  lemma {:induction false} RunKeepsInv(w: World, evs: seq<Event>)
    requires Inv(w)
    ensures Inv(Run(w, evs))
    decreases |evs|
  {
    if evs != [] {
      InvStep(w, evs[0]);
      RunKeepsInv(Step(w, evs[0]), evs[1..]);
    }
  }

  lemma ReachableInv(w: World)
    requires Reachable(w)
    ensures Inv(w)
  {
    var evs :| Run(Boot(), evs) == w;
    var boot := Boot();
    BootInv(boot);
    RunKeepsInv(boot, evs);
  }

  lemma ReachableIndex(w: World)
    requires Reachable(w)
    ensures IndexInv(w)
  {
    ReachableInv(w);
  }

  /** The bounds between submitted, posted and consumed. */
  lemma IndicesStaySafe(w: World)
    requires Reachable(w)
    ensures C(w) <= P(w) && P(w) + |Pending(w.dev.ring.inflight)| <= S(w) && S(w) - C(w) <= RING_SIZE - 1
  {
    ReachableIndex(w);
  }

  /** The residues never mislead the full test or the empty test. */
  lemma TestsAreExact(w: World)
    requires Reachable(w)
    ensures Full(w.dev.ring) <==> S(w) - C(w) == RING_SIZE - 1
    ensures Empty(w.dev.ring) <==> P(w) == C(w)
  {
    ReachableIndex(w);
    IndexTests(w);
  }

  lemma RoomWhilePending(w: World)
    requires IndexInv(w) && Lowest(w.dev.ring.inflight) < RING_SIZE
    ensures P(w) - C(w) < RING_SIZE - 1
  {
    var f := w.dev.ring.inflight;
    PendingBounds(f);
    assert |Pending(f) - {Lowest(f)}| == |Pending(f)| - 1;
  }

  /** The interrupt handler checks for no room, and needs none: the slot it
      writes is never one that user space has yet to read. */
  lemma IsrSparesUnread(w: World, ev: Event, k: nat)
    requires Reachable(w) && Posts(w.dev, ev)
    requires C(w) <= k < P(w)
    ensures w.dev.ring.cqTail != Masked(k)
    ensures Step(w, ev).dev.ring.cq[Masked(k)] == w.dev.ring.cq[Masked(k)]
  {
    ReachableIndex(w);
    RoomWhilePending(w);
    Residues(k, P(w));
    PostWrites(w.dev.ring, ev.fact, Masked(k));
  }

  lemma PostWrites(r: Ring, fact: u32, i: Slot)
    requires Shaped(r) && i != r.cqTail
    ensures Post(r, fact).cq[i] == r.cq[i]
  {
  }

  /** Within an epoch, completions come from distinct accepted commands. */
  lemma NothingCompletedTwice(w: World, j: nat, k: nat)
    requires Reachable(w) && j < k < P(w)
    ensures |w.epoch.origin| == P(w)
    ensures w.epoch.origin[j] != w.epoch.origin[k]
    ensures w.epoch.origin[j] < S(w) && w.epoch.origin[k] < S(w)
    ensures P(w) <= S(w)
  {
    ReachableInv(w);
  }

  lemma CountersConserved(w: World)
    requires Reachable(w)
    ensures var c := w.dev.stats;
      && c.eventfdSignals <= c.cqPosted <= c.irqTotal
      && c.cqPosted - c.cqConsumed == (P(w) - C(w)) + w.totals.dropped
      && c.sqSubmitted - c.cqPosted >= |Pending(w.dev.ring.inflight)|
  {
    ReachableInv(w);
  }

  lemma FaultInjectionIsOneShot(w: World)
    requires Reachable(w)
    ensures w.totals.injected <= w.totals.arms
    ensures w.dev.stats.dmaErrors == w.totals.eios
    ensures w.dev.dmaOk == 1 <==> w.totals.passes > 0
    ensures w.dev.injectFault == 1 ==> w.totals.injected < w.totals.arms
  {
    ReachableInv(w);
  }

  /** How many DMA checks of the run return the given code. */
  function ChecksReturning(w: World, evs: seq<Event>, code: Errno): nat
    requires Shaped(w.dev.ring)
    decreases |evs|
  {
    if evs == [] then 0
    else
      (if evs[0].DmaCheck? && ReplyTo(w.dev, evs[0]) == Code(code) then 1 else 0)
      + ChecksReturning(Step(w, evs[0]), evs[1..], code)
  }

  lemma CheckCounted(w: World, ev: Event)
    requires Shaped(w.dev.ring)
    ensures var d, d' := w.dev, Step(w, ev).dev;
      && d'.stats.dmaErrors == d.stats.dmaErrors + (if ev.DmaCheck? && ReplyTo(d, ev) == Code(EIO) then 1 else 0)
      && d'.dmaOk == if ev.DmaCheck? && ReplyTo(d, ev) == Code(OK) then 1 else d.dmaOk
  {
    hide DmaMatches, Lowest, Post, Accept, Take, Overwrite, Restart;
  }

  /** Over any run dma_errors grows by the number of -EIO results, and dma_ok is
      set exactly when it was set before or some check passed. */
  lemma {:induction false} DmaErrorsCountFailures(w: World, evs: seq<Event>)
    requires Shaped(w.dev.ring)
    ensures Run(w, evs).dev.stats.dmaErrors == w.dev.stats.dmaErrors + ChecksReturning(w, evs, EIO)
    ensures Run(w, evs).dev.dmaOk == if ChecksReturning(w, evs, OK) > 0 then 1 else w.dev.dmaOk
    decreases |evs|
  {
    hide Step;
    if evs != [] {
      CheckCounted(w, evs[0]);
      DmaErrorsCountFailures(Step(w, evs[0]), evs[1..]);
    }
  }

  /** A check of matching data fails exactly when the fault is armed, and then
      disarms it, so that the next one with matching data passes. */
  lemma ArmedCheckFailsOnce(w: World)
    requires Reachable(w) && DmaMatches(w.dev.ring)
    ensures ReplyTo(w.dev, DmaCheck) == Code(EIO) <==> w.dev.injectFault == 1
    ensures ReplyTo(Step(w, DmaCheck).dev, DmaCheck) == Code(OK)
    ensures w.dev.injectFault == 1 ==> Step(w, DmaCheck).totals.injected == w.totals.injected + 1
  {
    ReachableInv(w);
  }
}
