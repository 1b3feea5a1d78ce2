/** Two-run arguments: which changes to the ring no later answer can show. */
module EduTwoRuns {
  import opened Words
  import opened Slab
  import opened EduRing
  import opened EduWorld
  import opened EduSafety

  /** Everything but the legacy DMA test's verdict and its fault switch. */
  predicate RingEvent(ev: Event) { !ev.DmaCheck? && !ev.InjectStore? }

  predicate RingEvents(evs: seq<Event>) { forall k :: 0 <= k < |evs| ==> RingEvent(evs[k]) }

  function Replies(d: Device, evs: seq<Event>): seq<Reply>
    requires Shaped(d.ring)
    decreases |evs|
  {
    if evs == [] then [] else [ReplyTo(d, evs[0])] + Replies(After(d, evs[0]), evs[1..])
  }

  /** No sequence of ring steps tells the two devices apart. */
  ghost predicate SameReplies(d1: Device, d2: Device)
    requires Shaped(d1.ring) && Shaped(d2.ring)
  {
    forall evs: seq<Event> :: RingEvents(evs) ==> Replies(d1, evs) == Replies(d2, evs)
  }

  function AfterAll(d: Device, evs: seq<Event>): (d': Device)
    requires Shaped(d.ring)
    ensures Shaped(d'.ring)
    decreases |evs|
  {
    if evs == [] then d else AfterAll(After(d, evs[0]), evs[1..])
  }

  lemma {:induction false} AfterAllIsRun(w: World, evs: seq<Event>)
    requires Shaped(w.dev.ring)
    ensures AfterAll(w.dev, evs) == Run(w, evs).dev
    decreases |evs|
  {
    if evs != [] {
      AfterAllIsRun(Step(w, evs[0]), evs[1..]);
    }
  }

  // --- What two rings must share to answer alike ------------------------------

  /** Whatever the register holds, the two complete with the same entry. */
  predicate SameAnswer(e1: SqEntry, e2: SqEntry) {
    e1.tag == e2.tag && (e1.opcode == OP_FACTORIAL <==> e2.opcode == OP_FACTORIAL)
  }

  /** Equal but for submission entries, where those that are pending answer alike. */
  ghost predicate Alike(r1: Ring, r2: Ring) {
    && Shaped(r1) && Shaped(r2)
    && r2 == r1.(sq := r2.sq)
    && forall i: Slot :: r1.inflight[i] != 0 ==> SameAnswer(r1.sq[i], r2.sq[i])
  }

  lemma AlikeStep(r1: Ring, r2: Ring, ev: Event)
    requires Alike(r1, r2)
    ensures Alike(RingAfter(r1, ev), RingAfter(r2, ev))
  {
    match ev {
      case Submit(s) =>
      case Irq(stat, fact) =>
      case DmaWrite(b) =>
      case _ =>
    }
  }

  lemma AlikeReply(d1: Device, d2: Device, ev: Event)
    requires Alike(d1.ring, d2.ring) && RingEvent(ev)
    ensures ReplyTo(d1, ev) == ReplyTo(d2, ev)
  {
  }

  /** In particular, submission entries with nothing pending cannot be seen. */
  lemma {:induction false} DeadEntriesAreUnobservable(d1: Device, d2: Device, evs: seq<Event>)
    requires Alike(d1.ring, d2.ring) && RingEvents(evs)
    ensures Replies(d1, evs) == Replies(d2, evs)
    ensures Alike(AfterAll(d1, evs).ring, AfterAll(d2, evs).ring)
    decreases |evs|
  {
    assert Shaped(d1.ring) && Shaped(d2.ring);
    hide After, ReplyTo, Alike;
    if evs != [] {
      AlikeStep(d1.ring, d2.ring, evs[0]);
      AlikeReply(d1, d2, evs[0]);
      DeadEntriesAreUnobservable(After(d1, evs[0]), After(d2, evs[0]), evs[1..]);
    }
  }

  lemma AlikeMeansSameReplies(d1: Device, d2: Device)
    requires Alike(d1.ring, d2.ring)
    ensures SameReplies(d1, d2)
  {
    forall evs | RingEvents(evs)
      ensures Replies(d1, evs) == Replies(d2, evs)
    {
      DeadEntriesAreUnobservable(d1, d2, evs);
    }
  }

  // --- Runs that tell two devices apart ---------------------------------------

  /** The step tells them apart, or leads to where the rest of the run does. */
  lemma {:induction false} ConsDiffers(d1: Device, d2: Device, ev: Event, rest: seq<Event>)
    requires Shaped(d1.ring) && Shaped(d2.ring) && RingEvent(ev) && RingEvents(rest)
    requires ReplyTo(d1, ev) != ReplyTo(d2, ev) || Replies(After(d1, ev), rest) != Replies(After(d2, ev), rest)
    ensures RingEvents([ev] + rest)
    ensures Replies(d1, [ev] + rest) != Replies(d2, [ev] + rest)
  {
    var evs := [ev] + rest;
    assert evs[0] == ev && evs[1..] == rest;
    var a, b := Replies(d1, evs), Replies(d2, evs);
    assert a[0] == ReplyTo(d1, ev) && b[0] == ReplyTo(d2, ev);
    assert a[1..] == Replies(After(d1, ev), rest) && b[1..] == Replies(After(d2, ev), rest);
  }

  /** A different unread completion shows when the polls get there. */
  lemma {:induction false} PollsTell(w: World, d: Device, k: nat) returns (evs: seq<Event>)
    requires IndexInv(w) && Shaped(d.ring) && C(w) <= k < P(w)
    requires d.ring.cqHead == w.dev.ring.cqHead && d.ring.cqTail == w.dev.ring.cqTail
    requires ToCompletion(w.dev.ring.cq[Masked(k)]) != ToCompletion(d.ring.cq[Masked(k)])
    ensures RingEvents(evs) && Replies(w.dev, evs) != Replies(d, evs)
    decreases k - C(w)
  {
    IndexTests(w);
    assert Masked(w.dev.ring.cqHead) == Masked(C(w));
    hide Replies, Masked, ToCompletion;
    if C(w) == k {
      ConsDiffers(w.dev, d, Poll, []);
      evs := [Poll] + [];
    } else {
      IndexStep(w, Poll);
      TakeEffect(w);
      hide Step, IndexInv;
      var rest := PollsTell(Step(w, Poll), After(d, Poll), k);
      ConsDiffers(w.dev, d, Poll, rest);
      evs := [Poll] + rest;
    }
  }

  /** A shorter backlog shows when it runs out. */
  lemma {:induction false} BacklogTells(u: World, v: World) returns (evs: seq<Event>)
    requires IndexInv(u) && IndexInv(v) && P(u) - C(u) < P(v) - C(v)
    ensures RingEvents(evs) && Replies(u.dev, evs) != Replies(v.dev, evs)
    decreases P(u) - C(u)
  {
    IndexTests(u);
    IndexTests(v);
    hide Replies;
    if P(u) == C(u) {
      ConsDiffers(u.dev, v.dev, Poll, []);
      evs := [Poll] + [];
    } else {
      IndexStep(u, Poll);
      IndexStep(v, Poll);
      TakeEffect(u);
      TakeEffect(v);
      hide Step, IndexInv;
      var rest := BacklogTells(Step(u, Poll), Step(v, Poll));
      ConsDiffers(u.dev, v.dev, Poll, rest);
      evs := [Poll] + rest;
    }
  }

  lemma LowestMovesOn(f: seq<u8>)
    requires Lowest(f) < |f|
    ensures Lowest(f) < Lowest(f[Lowest(f) := 0])
  {
    var g := f[Lowest(f) := 0];
    assert forall j :: 0 <= j <= Lowest(f) ==> g[j] == 0;
  }

  /** What an interrupt does to two rings that differ in submission entries. */
  lemma BothPost(w: World, d: Device, ev: Event)
    requires Shaped(w.dev.ring) && Shaped(d.ring) && d.ring == w.dev.ring.(sq := d.ring.sq) && Posts(w.dev, ev)
    ensures var i, r, r1, r2 := Lowest(w.dev.ring.inflight), w.dev.ring, Step(w, ev).dev.ring, After(d, ev).ring;
      && P(Step(w, ev)) == P(w) + 1 && C(Step(w, ev)) == C(w)
      && r1.inflight == r.inflight[i := 0] && r1.sq == r.sq && r2.sq == d.ring.sq
      && r1.cq == r.cq[Masked(r.cqTail) := Completed(r.sq[i], ev.fact)]
      && r2 == r1.(sq := r2.sq, cq := r.cq[Masked(r.cqTail) := Completed(d.ring.sq[i], ev.fact)])
  {
  }

  lemma DifferentAnswers(e1: SqEntry, e2: SqEntry)
    requires !SameAnswer(e1, e2)
    ensures ToCompletion(Completed(e1, 1)) != ToCompletion(Completed(e2, 1))
  {
  }

  /** Slot q holds a command that the two devices would answer differently. */
  ghost predicate Differs(w: World, d: Device, q: Slot) {
    && IndexInv(w) && Shaped(d.ring) && d.ring == w.dev.ring.(sq := d.ring.sq)
    && w.dev.ring.inflight[q] != 0 && !SameAnswer(w.dev.ring.sq[q], d.ring.sq[q])
  }

  lemma SlotStep(w: World, d: Device, q: Slot, ev: Event)
    requires Differs(w, d, q) && ev == Irq(1, 1)
    ensures var i, w', d' := Lowest(w.dev.ring.inflight), Step(w, ev), After(d, ev);
      && IndexInv(w') && i < RING_SIZE
      && if SameAnswer(w.dev.ring.sq[i], d.ring.sq[i])
         then Differs(w', d', q) && i < Lowest(w'.dev.ring.inflight)
         else
           && C(w') <= P(w) < P(w')
           && d'.ring.cqHead == w'.dev.ring.cqHead && d'.ring.cqTail == w'.dev.ring.cqTail
           && ToCompletion(w'.dev.ring.cq[Masked(P(w))]) != ToCompletion(d'.ring.cq[Masked(P(w))])
  {
    var i, w' := Lowest(w.dev.ring.inflight), Step(w, ev);
    assert i <= q && Masked(w.dev.ring.cqTail) == Masked(P(w));
    BothPost(w, d, ev);
    IndexStep(w, ev);
    LowestMovesOn(w.dev.ring.inflight);
    assert C(w') <= P(w) < P(w');
    hide Step, After, Lowest, SameAnswer, Completed, ToCompletion, Masked, IndexInv;
    if !SameAnswer(w.dev.ring.sq[i], d.ring.sq[i]) {
      DifferentAnswers(w.dev.ring.sq[i], d.ring.sq[i]);
    }
  }

  /** Interrupts work their way up to a pending slot that would answer
      differently, and polls then show it. */
  lemma {:induction false} PendingSlotTells(w: World, d: Device, q: Slot) returns (evs: seq<Event>)
    requires Differs(w, d, q)
    ensures Shaped(w.dev.ring) && Shaped(d.ring)
    ensures RingEvents(evs) && Replies(w.dev, evs) != Replies(d, evs)
    decreases RING_SIZE - Lowest(w.dev.ring.inflight)
  {
    var ev, i := Irq(1, 1), Lowest(w.dev.ring.inflight);
    SlotStep(w, d, q, ev);
    assert Shaped(w.dev.ring) && Shaped(d.ring);
    hide Step, After, Replies, ReplyTo, Lowest, IndexInv, SameAnswer, Differs, Masked, ToCompletion;
    var rest;
    if SameAnswer(w.dev.ring.sq[i], d.ring.sq[i]) {
      rest := PendingSlotTells(Step(w, ev), After(d, ev), q);
    } else {
      rest := PollsTell(Step(w, ev), After(d, ev), P(w));
    }
    ConsDiffers(w.dev, d, ev, rest);
    evs := [ev] + rest;
  }

  /** Rings that differ in submission entries alone answer every later run of
      ring steps alike exactly when the pending entries have the same tags and
      are factorials in the same places. */
  lemma UnobservableIffAlike(w: World, d: Device)
    requires Reachable(w) && Shaped(d.ring) && d.ring == w.dev.ring.(sq := d.ring.sq)
    ensures SameReplies(w.dev, d) <==> Alike(w.dev.ring, d.ring)
  {
    ReachableIndex(w);
    if Alike(w.dev.ring, d.ring) {
      AlikeMeansSameReplies(w.dev, d);
    } else {
      var q: Slot :| w.dev.ring.inflight[q] != 0 && !SameAnswer(w.dev.ring.sq[q], d.ring.sq[q]);
      var evs := PendingSlotTells(w, d, q);
      assert !SameReplies(w.dev, d);
    }
  }
}
