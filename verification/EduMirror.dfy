/** The user-space copy of the submission index, and zero-copy submission. */
module EduMirror {
  import opened Words
  import opened Slab
  import opened EduRing
  import opened EduWorld
  import opened EduSafety
  import opened EduDmaTest
  import opened EduFate
  import opened EduOrder
  import opened EduTwoRuns

  /** What a submission tells user space; all but the first are exceptions. */
  datatype Outcome = Accepted | NoRoom | BadOpcode

  function OutcomeOf(r: Ring, s: Submission): Outcome {
    if Full(r) then NoRoom else if ValidOpcode(s.opcode) then Accepted else BadOpcode
  }

  /** The two exceptions are the two error codes, and success is neither. */
  lemma OutcomeIsReplies(d: Device, s: Submission)
    requires Shaped(d.ring)
    ensures var o, lock := OutcomeOf(d.ring, s), ReplyTo(d, Submit(s));
      var kick := ReplyTo(After(d, Submit(s)), Kick(s.opcode));
      && (o == NoRoom <==> lock == Code(ENOSPC))
      && (o == BadOpcode <==> lock == Code(OK) && kick == Code(EINVAL))
      && (o == Accepted <==> lock == Code(OK) && kick == Code(OK))
  {
  }

  function ShadowAfter(shadow: u32, o: Outcome): u32 {
    if o.Accepted? then Wrap32(shadow + 1) else shadow
  }

  predicate Synced(shadow: u32, r: Ring) { Masked(shadow) == r.sqTail }

  /** The copy stays in step through acceptance and through a full ring, also
      where it wraps, but a bad opcode moves the driver's index alone. */
  lemma ShadowStaysSyncedIff(shadow: u32, r: Ring, s: Submission)
    requires Shaped(r) && Synced(shadow, r)
    ensures Synced(ShadowAfter(shadow, OutcomeOf(r, s)), RingAfter(r, Submit(s))) <==>
            Full(r) || ValidOpcode(s.opcode)
  {
    WrapKeepsResidue(shadow + 1);
    Succ64(shadow);
    if !Full(r) {
      assert RingAfter(r, Submit(s)).sqTail == Masked(shadow + 1) != Masked(shadow);
    }
  }

  // --- Commands refused with EINVAL -------------------------------------------

  /** A bad opcode is refused and yet accepted: over the rest of the open its
      command is completed if and only if its opcode is not 0 and an interrupt
      meets it before anything takes its slot. With opcode 0 it is lost. */
  lemma {:induction false} RefusedCommandStillCompletes(w: World, s: Submission, evs: seq<Event>)
    requires Reachable(w) && NoOpens(evs)
    requires OutcomeOf(w.dev.ring, s) == BadOpcode
    ensures Shaped(w.dev.ring)
    ensures var w1 := Step(w, Submit(s));
      var w2 := Run(w1, evs);
      && ReplyTo(w.dev, Submit(s)) == Code(OK) && ReplyTo(w1.dev, Kick(s.opcode)) == Code(EINVAL)
      && S(w1) == S(w) + 1 <= S(w2) && w1.epoch.accepted[S(w)] == s
      && (Served(w2, S(w)) <==> s.opcode != 0 && Reached(w1, evs, S(w)))
      && (s.opcode == 0 ==> Lost(w2, S(w)))
  {
    ReachableInv(w);
    InvStep(w, Submit(s));
    var w1 := Step(w, Submit(s));
    AcceptEffect(w, s);
    NewestWaitsIff(w, Submit(s));
    NewestIsLostIff(w, Submit(s), S(w));
    FateOfCommand(w1, evs, S(w));
    hide Step, Run, Full, IndexInv, CounterInv, FaultInv, Waiting;
    if s.opcode == 0 {
      LostStays(w1, evs, S(w));
    }
  }

  lemma {:induction false} LostStays(w: World, evs: seq<Event>, j: nat)
    requires Inv(w) && NoOpens(evs) && Lost(w, j)
    ensures Lost(Run(w, evs), j) && !Reached(w, evs, j)
  {
    FateOfCommand(w, evs, j);
    hide Run, Inv, Reached;
  }

  /** The very next interrupt completes it exactly when its opcode is not 0 and
      nothing is pending on a lower slot. */
  lemma RefusedCommandIsNextIff(w: World, s: Submission, stat: u32, fact: u32) returns (w2: World)
    requires Reachable(w) && stat != 0
    requires OutcomeOf(w.dev.ring, s) == BadOpcode
    ensures Shaped(w.dev.ring) && w2 == Step(Step(w, Submit(s)), Irq(stat, fact))
    ensures Served(w2, S(w)) <==>
            s.opcode != 0 && forall i: Slot :: i < w.dev.ring.sqTail ==> w.dev.ring.inflight[i] == 0
    ensures Served(w2, S(w)) ==> w2.epoch.posted == w.epoch.posted + [CqEntry(s.tag, 0, 0, 0, 0)]
  {
    ReachableInv(w);
    assert Shaped(w.dev.ring);
    var f, tail := w.dev.ring.inflight, w.dev.ring.sqTail;
    var w1 := RefusedIsNewest(w, s);
    hide Step, Inv, Waiting, OutcomeOf, Lowest, Reachable, Served, LastWriter;
    NextServed(w1, Irq(stat, fact), S(w));
    w2 := Step(w1, Irq(stat, fact));
    if s.opcode != 0 {
      NewestIsLowestIff(f, tail, s.opcode);
    }
  }

  lemma RefusedIsNewest(w: World, s: Submission) returns (w1: World)
    requires Inv(w) && OutcomeOf(w.dev.ring, s) == BadOpcode
    ensures w1 == Step(w, Submit(s)) && Inv(w1) && S(w) < S(w1)
    ensures w.dev.ring.sqTail == Masked(S(w)) && w1.epoch.posted == w.epoch.posted
    ensures w1.dev.ring.inflight == w.dev.ring.inflight[Masked(S(w)) := s.opcode]
    ensures forall fact: u32 :: Completed(w1.dev.ring.sq[Masked(S(w))], fact) == CqEntry(s.tag, 0, 0, 0, 0)
    ensures !Served(w1, S(w)) && (Waiting(w1, S(w)) <==> s.opcode != 0)
  {
    w1 := Step(w, Submit(s));
    assert Shaped(w.dev.ring) && w.dev.ring.sqTail == Masked(S(w));
    RefusedTakesSlot(w, s);
    assert Inv(w1) by { InvStep(w, Submit(s)); }
    assert !Served(w1, S(w)) && (Waiting(w1, S(w)) <==> s.opcode != 0) by { NewestStarts(w, Submit(s)); }
    hide Step, Inv, Waiting, Completed;
  }

  lemma RefusedTakesSlot(w: World, s: Submission)
    requires Shaped(w.dev.ring) && w.dev.ring.sqTail == Masked(S(w))
    requires OutcomeOf(w.dev.ring, s) == BadOpcode
    ensures var w1 := Step(w, Submit(s));
      && S(w1) == S(w) + 1 && w1.epoch.posted == w.epoch.posted
      && w1.dev.ring.inflight == w.dev.ring.inflight[Masked(S(w)) := s.opcode]
      && forall fact: u32 :: Completed(w1.dev.ring.sq[Masked(S(w))], fact) == CqEntry(s.tag, 0, 0, 0, 0)
  {
    AcceptEffect(w, s);
    assert Masked(w.dev.ring.sqTail) == w.dev.ring.sqTail;
    hide Step, Full, Masked;
  }

  lemma NewestStarts(w: World, ev: Event)
    requires Inv(w) && Accepts(w.dev, ev)
    ensures S(w) < S(Step(w, ev))
    ensures !Served(Step(w, ev), S(w)) && (Waiting(Step(w, ev), S(w)) <==> ev.sub.opcode != 0)
  {
    InvParts(w);
    assert S(Step(w, ev)) == S(w) + 1;
    NewestWaitsIff(w, ev);
    assert Step(w, ev).epoch.origin == w.epoch.origin;
    hide Step, Waiting, Inv, IndexInv, Full;
  }

  lemma NextServed(w: World, ev: Event, j: nat)
    requires Inv(w) && HasCause(ev) && j < S(w) && !Served(w, j)
    ensures Served(Step(w, ev), j) <==> Waiting(w, j) && Lowest(w.dev.ring.inflight) == Masked(j)
    ensures Served(Step(w, ev), j) ==>
              Step(w, ev).epoch.posted == w.epoch.posted + [Completed(w.dev.ring.sq[Masked(j)], ev.fact)]
  {
    FateStep(w, ev, j);
    if Reaches(w, ev, j) {
      PostsLowest(w, ev);
    }
  }

  lemma NewestIsLowestIff(f: seq<u8>, tail: Slot, opcode: u8)
    requires |f| == RING_SIZE && opcode != 0
    ensures Lowest(f[tail := opcode]) == tail <==> forall j: Slot :: j < tail ==> f[j] == 0
  {
    var g := f[tail := opcode];
    assert forall j: Slot :: j != tail ==> g[j] == f[j];
    if forall j: Slot :: j < tail ==> f[j] == 0 {
      LowestIsScan(g, tail);
    } else {
      var j: Slot :| j < tail && f[j] != 0;
      assert g[j] != 0 && Lowest(g) == LowestFrom(g, 0) <= j;
    }
  }

  lemma PostsLowest(w: World, ev: Event)
    requires Shaped(w.dev.ring) && Posts(w.dev, ev)
    ensures Step(w, ev).epoch.posted ==
            w.epoch.posted + [Completed(w.dev.ring.sq[Lowest(w.dev.ring.inflight)], ev.fact)]
  {
  }

  // --- The copy over a run -----------------------------------------------------

  lemma WrapKeepsResidue(x: nat)
    ensures Masked(Wrap32(x)) == Masked(x)
  {
    SixtyFour();
    WrapThenMod(x, 6);
  }

  /** The copy over a run in which every submission is made through it. */
  function ShadowRun(shadow: u32, d: Device, evs: seq<Event>): u32
    requires Shaped(d.ring)
    decreases |evs|
  {
    if evs == [] then shadow
    else
      var next := if evs[0].Submit? then ShadowAfter(shadow, OutcomeOf(d.ring, evs[0].sub)) else shadow;
      ShadowRun(next, After(d, evs[0]), evs[1..])
  }

  /** How many submissions of the run return 0 from both halves. */
  function Successes(d: Device, evs: seq<Event>): nat
    requires Shaped(d.ring)
    decreases |evs|
  {
    if evs == [] then 0
    else
      (if evs[0].Submit? && ReplyTo(d, evs[0]) == Code(OK) &&
          ReplyTo(d, Kick(evs[0].sub.opcode)) == Code(OK) then 1 else 0)
      + Successes(After(d, evs[0]), evs[1..])
  }

  /** The copy counts them, modulo 2^32. */
  lemma {:induction false} ShadowCountsSuccesses(shadow: u32, d: Device, evs: seq<Event>)
    requires Shaped(d.ring)
    ensures ShadowRun(shadow, d, evs) == (shadow + Successes(d, evs)) % 0x1_0000_0000
    decreases |evs|
  {
    if evs != [] {
      var ev := evs[0];
      var next := if ev.Submit? then ShadowAfter(shadow, OutcomeOf(d.ring, ev.sub)) else shadow;
      var one := if ev.Submit? && OutcomeOf(d.ring, ev.sub) == Accepted then 1 else 0;
      hide After, Full;
      ShadowCountsSuccesses(next, After(d, ev), evs[1..]);
      assert next == (shadow + one) % 0x1_0000_0000;
      WrapOnce(shadow + one, Successes(After(d, ev), evs[1..]));
    }
  }

  lemma WrapOnce(x: nat, y: nat)
    ensures (x % 0x1_0000_0000 + y) % 0x1_0000_0000 == (x + y) % 0x1_0000_0000
  {
  }

  /** How many bad opcodes the run sees accepted. */
  function BadAccepted(d: Device, evs: seq<Event>): nat
    requires Shaped(d.ring)
    decreases |evs|
  {
    if evs == [] then 0
    else
      (if evs[0].Submit? && OutcomeOf(d.ring, evs[0].sub) == BadOpcode then 1 else 0)
      + BadAccepted(After(d, evs[0]), evs[1..])
  }

  /** The driver's index is ahead of the copy by one for each of them. */
  lemma {:induction false} BadOpcodesAdd(shadow: u32, d: Device, evs: seq<Event>, ahead: nat)
    requires Shaped(d.ring) && d.ring.sqTail == Masked(shadow + ahead) && NoOpens(evs)
    ensures AfterAll(d, evs).ring.sqTail == Masked(ShadowRun(shadow, d, evs) + ahead + BadAccepted(d, evs))
    decreases |evs|
  {
    if evs != [] {
      var ev, d' := evs[0], After(d, evs[0]);
      var o := if ev.Submit? then OutcomeOf(d.ring, ev.sub) else NoRoom;
      var bad := if o == BadOpcode then 1 else 0;
      TailAfter(shadow, d.ring, ev, ahead);
      hide After, OutcomeOf;
      BadOpcodesAdd(ShadowAfter(shadow, o), d', evs[1..], ahead + bad);
    }
  }

  lemma TailAfter(shadow: u32, r: Ring, ev: Event, ahead: nat)
    requires Shaped(r) && r.sqTail == Masked(shadow + ahead) && !ev.Open?
    ensures var o := if ev.Submit? then OutcomeOf(r, ev.sub) else NoRoom;
      RingAfter(r, ev).sqTail == Masked(ShadowAfter(shadow, o) + ahead + if o == BadOpcode then 1 else 0)
  {
    TailMoves(r, ev);
    hide RingAfter, Full;
    Succ64(shadow + ahead);
    WrapKeepsResidue(shadow + 1);
    SameResidues(Wrap32(shadow + 1), shadow + 1, ahead);
  }

  lemma TailMoves(r: Ring, ev: Event)
    requires Shaped(r) && !ev.Open?
    ensures RingAfter(r, ev).sqTail == if ev.Submit? && !Full(r) then Next(r.sqTail) else r.sqTail
  {
  }

  lemma SameResidues(x: nat, y: nat, n: nat)
    requires Masked(x) == Masked(y)
    ensures Masked(x + n) == Masked(y + n)
  {
  }

  /** A copy that starts in step ends a run without opens in step if and only if
      the number of bad opcodes accepted on the way is a multiple of the ring
      size; in particular if every opcode was valid. */
  lemma {:induction false} ShadowFollowsKernel(shadow: u32, d: Device, evs: seq<Event>)
    requires Shaped(d.ring) && Synced(shadow, d.ring) && NoOpens(evs)
    ensures Synced(ShadowRun(shadow, d, evs), AfterAll(d, evs).ring) <==> BadAccepted(d, evs) % RING_SIZE == 0
    ensures (forall k :: 0 <= k < |evs| && evs[k].Submit? ==> ValidOpcode(evs[k].sub.opcode)) ==>
              BadAccepted(d, evs) == 0
  {
    BadOpcodesAdd(shadow, d, evs, 0);
    SameResidueIff(ShadowRun(shadow, d, evs), BadAccepted(d, evs));
    if forall k :: 0 <= k < |evs| && evs[k].Submit? ==> ValidOpcode(evs[k].sub.opcode) {
      NoneBad(d, evs);
    }
  }

  lemma SameResidueIff(x: nat, n: nat)
    ensures Masked(x) == Masked(x + n) <==> n % RING_SIZE == 0
  {
  }

  lemma {:induction false} NoneBad(d: Device, evs: seq<Event>)
    requires Shaped(d.ring)
    requires forall k :: 0 <= k < |evs| && evs[k].Submit? ==> ValidOpcode(evs[k].sub.opcode)
    ensures BadAccepted(d, evs) == 0
    decreases |evs|
  {
    if evs != [] {
      NoneBad(After(d, evs[0]), evs[1..]);
    }
  }

  /** An open by anybody takes the driver's index back to 0 and leaves the copy
      alone: they agree then exactly when the copy is at a multiple too. */
  lemma OpenKeepsStepIff(shadow: u32, d: Device)
    requires Shaped(d.ring)
    ensures Synced(ShadowRun(shadow, d, [Open]), AfterAll(d, [Open]).ring) <==> shadow % RING_SIZE == 0
  {
    assert [Open][1..] == [];
    assert AfterAll(d, [Open]) == AfterAll(After(d, Open), []);
    assert ShadowRun(shadow, d, [Open]) == ShadowRun(shadow, After(d, Open), []);
  }

  /** Zero-copy submission writes the entry through the mapping first. */
  function Prewritten(r: Ring, shadow: u32, s: Submission): (r': Ring)
    requires Shaped(r)
    ensures Shaped(r')
  {
    RingAfter(r, MmapSq(Masked(shadow), Entry(s)))
  }

  /** An accepted zero-copy submission leaves the ring an ordinary one would
      leave exactly when the copy is in step, or its stray write is a repeat. */
  lemma ZeroCopyIsSubmit(r: Ring, shadow: u32, s: Submission)
    requires Shaped(r) && !Full(r)
    ensures RingAfter(Prewritten(r, shadow, s), Submit(s)) == RingAfter(r, Submit(s)) <==>
            Synced(shadow, r) || r.sq[Masked(shadow)] == Entry(s)
  {
    var slot, tail := Masked(shadow), Masked(r.sqTail);
    assert tail == r.sqTail;
    var sq1 := r.sq[slot := Entry(s)][tail := Entry(s)];
    var sq2 := r.sq[tail := Entry(s)];
    assert RingAfter(Prewritten(r, shadow, s), Submit(s)).sq == sq1 && RingAfter(r, Submit(s)).sq == sq2;
    if slot != tail && r.sq[slot] != Entry(s) {
      assert sq1[slot] != sq2[slot];
    } else {
      assert sq1 == sq2;
    }
  }

  /** The write of a rejected one, which submits nothing, goes unnoticed by all
      later ring steps exactly when nothing is pending on its slot, or what is
      pending there has the same tag and is, or is not, a factorial too. */
  lemma StrayWriteIsDeadIff(w: World, shadow: u32, s: Submission)
    requires Reachable(w)
    ensures var r, i := w.dev.ring, Masked(shadow);
      && Shaped(r)
      && (SameReplies(w.dev, w.dev.(ring := Prewritten(r, shadow, s))) <==>
          r.inflight[i] == 0 ||
          (r.sq[i].tag == s.tag && (r.sq[i].opcode == OP_FACTORIAL <==> s.opcode == OP_FACTORIAL)))
  {
    ReachableIndex(w);
    var r, i := w.dev.ring, Masked(shadow);
    var d := w.dev.(ring := Prewritten(r, shadow, s));
    UnobservableIffAlike(w, d);
    assert d.ring.sq == r.sq[i := Entry(s)];
    assert Alike(r, d.ring) <==> r.inflight[i] == 0 || SameAnswer(r.sq[i], Entry(s));
  }

  /** In step and under the wrap discipline it always does: a rejected zero-copy
      submission changes one idle slot and no later answer. */
  lemma RejectedZeroCopyIsInvisible(w0: World, evs: seq<Event>, w: World, shadow: u32, s: Submission)
    requires Reachable(w0) && w == Run(Step(w0, Open), evs) && Disciplined(Step(w0, Open), evs)
    requires Synced(shadow, w.dev.ring) && Full(w.dev.ring)
    ensures var r, i := w.dev.ring, Masked(shadow);
      var d := w.dev.(ring := RingAfter(Prewritten(r, shadow, s), Submit(s)));
      && r.inflight[i] == 0 && d.ring == r.(sq := r.sq[i := Entry(s)])
      && SameReplies(w.dev, d)
  {
    CompletedInSubmissionOrder(w0, evs, w);
    hide Run, Disciplined, Step;
    var d := w.dev.(ring := RingAfter(Prewritten(w.dev.ring, shadow, s), Submit(s)));
    AlikeMeansSameReplies(w.dev, d);
  }
}
