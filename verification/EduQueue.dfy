/** The completion queue as a first-in first-out queue, and where its entries
    come from, within one open. */
module EduQueue {
  import opened Slab
  import opened EduRing
  import opened EduWorld
  import opened EduSafety

  predicate NoCqWrites(evs: seq<Event>) { forall k :: 0 <= k < |evs| ==> !evs[k].MmapCq? }

  predicate WritesSq(ev: Event) { ev.MmapSq? || ev.DmaWrite? }

  predicate NoSqWrites(evs: seq<Event>) { forall k :: 0 <= k < |evs| ==> !WritesSq(evs[k]) }

  ghost predicate UnreadKept(cq: seq<CqEntry>, posted: seq<CqEntry>, c: nat) {
    && |cq| == RING_SIZE
    && forall k :: c <= k < |posted| ==> cq[Masked(k)] == posted[k]
  }

  ghost predicate PolledInOrder(polled: seq<Completion>, posted: seq<CqEntry>) {
    && |polled| <= |posted|
    && forall k :: 0 <= k < |polled| ==> polled[k] == ToCompletion(posted[k])
  }

  ghost predicate QueueInv(w: World) {
    && UnreadKept(w.dev.ring.cq, w.epoch.posted, C(w))
    && PolledInOrder(w.epoch.polled, w.epoch.posted)
  }

  lemma UnreadPost(cq: seq<CqEntry>, posted: seq<CqEntry>, c: nat, e: CqEntry)
    requires UnreadKept(cq, posted, c) && |posted| - c < RING_SIZE
    ensures UnreadKept(cq[Masked(|posted|) := e], posted + [e], c)
  {
    forall k | c <= k < |posted|
      ensures Masked(k) != Masked(|posted|)
    {
      Residues(k, |posted|);
    }
  }

  lemma QueuePost(w: World, ev: Event)
    requires Shaped(w.dev.ring) && w.dev.ring.cqTail == Masked(P(w)) && P(w) - C(w) < RING_SIZE
    requires QueueInv(w) && Posts(w.dev, ev)
    ensures QueueInv(Step(w, ev))
  {
    var r, e := w.dev.ring, w.epoch;
    var done := Completed(r.sq[Lowest(r.inflight)], ev.fact);
    PostedIs(w, ev);
    assert Masked(r.cqTail) == Masked(P(w));
    hide Step, Masked, UnreadKept, PolledInOrder, Completed, Lowest, Post;
    UnreadPost(r.cq, e.posted, C(w), done);
    PolledStays(e.polled, e.posted, done);
  }

  lemma PostedIs(w: World, ev: Event)
    requires Shaped(w.dev.ring) && Posts(w.dev, ev)
    ensures var r, w' := w.dev.ring, Step(w, ev);
      var done := Completed(r.sq[Lowest(r.inflight)], ev.fact);
      && w'.epoch.posted == w.epoch.posted + [done] && w'.epoch.polled == w.epoch.polled
      && w'.dev.ring.cq == r.cq[Masked(r.cqTail) := done]
  {
  }

  lemma PolledStays(polled: seq<Completion>, posted: seq<CqEntry>, done: CqEntry)
    requires PolledInOrder(polled, posted)
    ensures PolledInOrder(polled, posted + [done])
  {
  }

  lemma FrontIsOldest(w: World)
    requires IndexInv(w) && QueueInv(w) && C(w) < P(w)
    ensures Front(w.dev.ring) == ToCompletion(w.epoch.posted[C(w)])
  {
    assert Masked(w.dev.ring.cqHead) == Masked(C(w));
    assert w.dev.ring.cq[Masked(C(w))] == w.epoch.posted[C(w)];
    hide IndexInv, QueueInv, Masked, Pending;
  }

  lemma PolledGrows(polled: seq<Completion>, posted: seq<CqEntry>)
    requires PolledInOrder(polled, posted) && |polled| < |posted|
    ensures PolledInOrder(polled + [ToCompletion(posted[|polled|])], posted)
  {
  }

  lemma QueueTake(w: World, ev: Event)
    requires IndexInv(w) && QueueInv(w) && Takes(w.dev, ev)
    ensures QueueInv(Step(w, ev))
  {
    IndexTests(w);
    FrontIsOldest(w);
    TakeEffect(w);
    hide Step, IndexInv, Front, PolledInOrder;
    PolledGrows(w.epoch.polled, w.epoch.posted);
  }

  lemma QueueStep(w: World, ev: Event)
    requires IndexInv(w) && QueueInv(w) && !ev.MmapCq?
    ensures QueueInv(Step(w, ev))
  {
    if Posts(w.dev, ev) {
      QueuePost(w, ev);
    } else if Takes(w.dev, ev) {
      QueueTake(w, ev);
    } else if ev.Open? {
    } else {
      var e' := Step(w, ev).epoch;
      assert e'.posted == w.epoch.posted && e'.polled == w.epoch.polled;
      assert Step(w, ev).dev.ring.cq == w.dev.ring.cq;
    }
  }

  lemma {:induction false} RunKeepsQueue(w: World, evs: seq<Event>)
    requires Inv(w) && QueueInv(w) && NoCqWrites(evs)
    ensures QueueInv(Run(w, evs))
    decreases |evs|
  {
    if evs != [] {
      InvStep(w, evs[0]);
      QueueStep(w, evs[0]);
      RunKeepsQueue(Step(w, evs[0]), evs[1..]);
    }
  }

  /** Within an open, as long as user space leaves the completion entries alone:
      what was polled is a prefix of what was posted, the next poll takes the
      oldest entry left, and both tests for readiness are exact. */
  lemma {:induction false} CompletionQueueIsFifo(w: World, evs: seq<Event>, w': World)
    requires Reachable(w) && NoCqWrites(evs) && w' == Run(Step(w, Open), evs)
    ensures PolledInOrder(w'.epoch.polled, w'.epoch.posted)
    ensures ReplyTo(w'.dev, Poll) ==
            if C(w') == P(w') then Code(EAGAIN) else Got(ToCompletion(w'.epoch.posted[C(w')]))
    ensures ReplyTo(w'.dev, PollReady) == Ready(C(w') < P(w'))
  {
    ReachableInv(w);
    InvStep(w, Open);
    RunKeepsQueue(Step(w, Open), evs);
    RunKeepsInv(Step(w, Open), evs);
    PollMeansFront(w');
  }

  lemma PollMeansFront(w: World)
    requires IndexInv(w) && QueueInv(w)
    ensures ReplyTo(w.dev, Poll) ==
            if C(w) == P(w) then Code(EAGAIN) else Got(ToCompletion(w.epoch.posted[C(w)]))
    ensures ReplyTo(w.dev, PollReady) == Ready(C(w) < P(w))
  {
    IndexTests(w);
    if C(w) < P(w) {
      FrontIsOldest(w);
    }
    hide IndexInv, QueueInv, Front;
  }

  // --- Where completions come from ----------------------------------------

  /** Slots hold what was last submitted to them, and completions what their
      commands call for. */
  ghost predicate GenuineInv(w: World) {
    && SlotsHold(w.dev.ring.sq, w.epoch.accepted)
    && Genuine(w.epoch)
  }

  ghost predicate SlotsHold(sq: seq<SqEntry>, accepted: seq<Submission>) {
    && |sq| == RING_SIZE
    && forall i: Slot :: i < |accepted| && 0 <= LastWriter(|accepted|, i) < |accepted| ==>
      sq[i] == Entry(accepted[LastWriter(|accepted|, i)])
  }

  predicate Answers(c: CqEntry, s: Submission) {
    c.tag == s.tag && c.status == 0 && (s.opcode != OP_FACTORIAL ==> c.result == 0)
  }

  ghost predicate Genuine(e: Epoch) {
    && |e.origin| == |e.posted|
    && forall k :: 0 <= k < |e.posted| ==> e.origin[k] < |e.accepted| && Answers(e.posted[k], e.accepted[e.origin[k]])
  }

  lemma SlotsAccept(sq: seq<SqEntry>, accepted: seq<Submission>, s: Submission)
    requires SlotsHold(sq, accepted)
    ensures SlotsHold(sq[Masked(|accepted|) := Entry(s)], accepted + [s])
  {
    var n := |accepted|;
    LastWriterNew(n);
    forall i: Slot | i < n + 1 && i != Masked(n)
      ensures i < n && LastWriter(n + 1, i) == LastWriter(n, i) && LastWriter(n, i) < n
    {
      LastWriterOld(n, i);
      LastWriterRange(n, i);
    }
  }

  lemma GenuineAccept(w: World, ev: Event)
    requires Shaped(w.dev.ring) && w.dev.ring.sqTail == Masked(S(w)) && GenuineInv(w) && Accepts(w.dev, ev)
    ensures GenuineInv(Step(w, ev))
  {
    var r, e := w.dev.ring, w.epoch;
    AcceptEffect(w, ev.sub);
    assert Masked(r.sqTail) == Masked(S(w));
    hide Step, Full, Masked, SlotsHold, Genuine;
    SlotsAccept(r.sq, e.accepted, ev.sub);
    GenuineGrows(e, ev.sub);
  }

  lemma GenuineGrows(e: Epoch, s: Submission)
    requires Genuine(e)
    ensures Genuine(e.(accepted := e.accepted + [s]))
  {
  }

  lemma GenuinePost(w: World, ev: Event)
    requires Shaped(w.dev.ring) && OriginInv(w) && GenuineInv(w) && Posts(w.dev, ev)
    ensures GenuineInv(Step(w, ev))
  {
    var r, e, w' := w.dev.ring, w.epoch, Step(w, ev);
    var i := Lowest(r.inflight);
    var writer := LastWriter(S(w), i);
    assert HoldsFor(e.accepted, e.origin, writer, r.inflight[i]);
    assert w'.epoch == e.(posted := e.posted + [Completed(r.sq[i], ev.fact)], origin := e.origin + [writer]);
    assert r.sq[i] == Entry(e.accepted[writer]);
    assert w'.dev.ring.sq == r.sq;
  }

  lemma GenuineStep(w: World, ev: Event)
    requires IndexInv(w) && OriginInv(w) && GenuineInv(w) && !WritesSq(ev)
    ensures GenuineInv(Step(w, ev))
  {
    if Accepts(w.dev, ev) {
      GenuineAccept(w, ev);
    } else if Posts(w.dev, ev) {
      GenuinePost(w, ev);
    } else if ev.Open? {
    } else {
      var e' := Step(w, ev).epoch;
      assert e'.accepted == w.epoch.accepted && e'.posted == w.epoch.posted && e'.origin == w.epoch.origin;
      assert Step(w, ev).dev.ring.sq == w.dev.ring.sq;
    }
  }

  lemma {:induction false} RunKeepsGenuine(w: World, evs: seq<Event>)
    requires Inv(w) && GenuineInv(w) && NoSqWrites(evs)
    ensures GenuineInv(Run(w, evs))
    decreases |evs|
  {
    if evs != [] {
      InvStep(w, evs[0]);
      GenuineStep(w, evs[0]);
      RunKeepsGenuine(Step(w, evs[0]), evs[1..]);
    }
  }

  /** Within an open, with the submission entries left alone and no other
      discipline: each completion answers a different accepted command. */
  lemma {:induction false} CompletionsAreGenuine(w: World, evs: seq<Event>, w': World)
    requires Reachable(w) && NoSqWrites(evs) && w' == Run(Step(w, Open), evs)
    ensures Genuine(w'.epoch)
    ensures Distinct(w'.epoch.origin, S(w'))
  {
    ReachableInv(w);
    InvStep(w, Open);
    RunKeepsGenuine(Step(w, Open), evs);
    RunKeepsInv(Step(w, Open), evs);
  }
}
