/** What becomes of each accepted command: completed, still pending, or lost. */
module EduFate {
  import opened Words
  import opened Slab
  import opened EduRing
  import opened EduWorld
  import opened EduSafety
  import opened EduOrder

  /** Command j is the one that the next completion of its slot is for. */
  predicate Waiting(w: World, j: nat)
    requires Shaped(w.dev.ring)
  {
    j < S(w) && w.dev.ring.inflight[Masked(j)] != 0 && LastWriter(S(w), Masked(j)) == j
  }

  predicate Served(w: World, j: nat) { j in w.epoch.origin }

  predicate Lost(w: World, j: nat)
    requires Shaped(w.dev.ring)
  {
    j < S(w) && !Waiting(w, j) && !Served(w, j)
  }

  /** No accepted command is lost. */
  predicate Accounted(w: World)
    requires Shaped(w.dev.ring)
  {
    forall j: nat :: j < S(w) ==> !Lost(w, j)
  }

  /** The step is an interrupt that meets command j first. */
  predicate Reaches(w: World, ev: Event, j: nat)
    requires Shaped(w.dev.ring)
  {
    Waiting(w, j) && Posts(w.dev, ev) && Lowest(w.dev.ring.inflight) == Masked(j)
  }

  /** The step is a submission that takes command j's slot from under it. */
  predicate Overwrites(w: World, ev: Event, j: nat)
    requires Shaped(w.dev.ring)
  {
    Waiting(w, j) && Accepts(w.dev, ev) && w.dev.ring.sqTail == Masked(j)
  }

  lemma WriterAfterAccept(f: seq<u8>, s: nat, j: nat, opcode: u8)
    requires |f| == RING_SIZE && j < s
    ensures f[Masked(s) := opcode][Masked(j)] != 0 && LastWriter(s + 1, Masked(j)) == j <==>
            f[Masked(j)] != 0 && LastWriter(s, Masked(j)) == j && Masked(s) != Masked(j)
  {
    LastWriterNew(s);
    if Masked(j) != Masked(s) {
      LastWriterOld(s, Masked(j));
    }
  }

  lemma FateAccept(w: World, ev: Event, j: nat)
    requires Shaped(w.dev.ring) && w.dev.ring.sqTail == Masked(S(w)) && Accepts(w.dev, ev) && j < S(w)
    ensures S(Step(w, ev)) == S(w) + 1 && Step(w, ev).epoch.origin == w.epoch.origin
    ensures Waiting(Step(w, ev), j) <==> Waiting(w, j) && w.dev.ring.sqTail != Masked(j)
  {
    AcceptEffect(w, ev.sub);
    assert Masked(w.dev.ring.sqTail) == w.dev.ring.sqTail;
    WriterAfterAccept(w.dev.ring.inflight, S(w), j, ev.sub.opcode);
    hide Step, Full, Masked, LastWriter;
  }

  lemma NewestWaitsIff(w: World, ev: Event)
    requires Shaped(w.dev.ring) && w.dev.ring.sqTail == Masked(S(w)) && Accepts(w.dev, ev)
    ensures Waiting(Step(w, ev), S(w)) <==> ev.sub.opcode != 0
  {
    AcceptEffect(w, ev.sub);
    assert Masked(w.dev.ring.sqTail) == w.dev.ring.sqTail;
    hide Step, Full, Masked, LastWriter;
    LastWriterNew(S(w));
  }

  lemma FatePost(w: World, ev: Event, j: nat)
    requires Shaped(w.dev.ring) && OriginInv(w) && Posts(w.dev, ev) && j < S(w)
    ensures S(Step(w, ev)) == S(w)
    ensures Waiting(Step(w, ev), j) <==> Waiting(w, j) && !Reaches(w, ev, j)
    ensures Served(Step(w, ev), j) <==> Served(w, j) || Reaches(w, ev, j)
  {
    var f := w.dev.ring.inflight;
    var i := Lowest(f);
    assert HoldsFor(w.epoch.accepted, w.epoch.origin, LastWriter(S(w), i), f[i]);
    PostEffect(w, ev);
    LastWriterRange(S(w), i);
    hide Step, Unfinished, Lowest;
  }

  /** What one step does to one command. */
  lemma FateStep(w: World, ev: Event, j: nat)
    requires IndexInv(w) && OriginInv(w) && !ev.Open? && j < S(w)
    ensures j < S(Step(w, ev))
    ensures Waiting(Step(w, ev), j) <==> Waiting(w, j) && !Reaches(w, ev, j) && !Overwrites(w, ev, j)
    ensures Served(Step(w, ev), j) <==> Served(w, j) || Reaches(w, ev, j)
  {
    if Accepts(w.dev, ev) {
      FateAccept(w, ev, j);
    } else if Posts(w.dev, ev) {
      FatePost(w, ev, j);
    } else {
      var w' := Step(w, ev);
      assert S(w') == S(w) && w'.epoch.origin == w.epoch.origin;
      assert w'.dev.ring.inflight == w.dev.ring.inflight;
    }
  }

  lemma WaitingIsUnfinished(w: World, j: nat)
    requires Shaped(w.dev.ring) && OriginInv(w) && Waiting(w, j)
    ensures !Served(w, j)
  {
    assert HoldsFor(w.epoch.accepted, w.epoch.origin, LastWriter(S(w), Masked(j)), w.dev.ring.inflight[Masked(j)]);
  }

  lemma LostStep(w: World, ev: Event, j: nat)
    requires Inv(w) && !ev.Open? && j < S(w)
    ensures Inv(Step(w, ev)) && j < S(Step(w, ev))
    ensures Lost(Step(w, ev), j) <==> Lost(w, j) || Overwrites(w, ev, j)
  {
    InvStep(w, ev);
    FateStep(w, ev, j);
    hide Step;
    if Waiting(w, j) {
      WaitingIsUnfinished(w, j);
    }
  }

  predicate NoOpens(evs: seq<Event>) { forall k :: 0 <= k < |evs| ==> !evs[k].Open? }

  ghost predicate Reached(w: World, evs: seq<Event>, j: nat)
    requires Shaped(w.dev.ring)
    decreases |evs|
  {
    evs != [] && (Reaches(w, evs[0], j) || Reached(Step(w, evs[0]), evs[1..], j))
  }

  ghost predicate Overwritten(w: World, evs: seq<Event>, j: nat)
    requires Shaped(w.dev.ring)
    decreases |evs|
  {
    evs != [] && (Overwrites(w, evs[0], j) || Overwritten(Step(w, evs[0]), evs[1..], j))
  }

  /** The fate of a command over any run of its open: it is completed exactly
      when an interrupt meets it first while it waits, and lost exactly when a
      submission takes its slot while it waits. Both are for good. */
  lemma {:induction false} FateOfCommand(w: World, evs: seq<Event>, j: nat)
    requires Inv(w) && NoOpens(evs) && j < S(w)
    ensures j < S(Run(w, evs))
    ensures Served(Run(w, evs), j) <==> Served(w, j) || Reached(w, evs, j)
    ensures Lost(Run(w, evs), j) <==> Lost(w, j) || Overwritten(w, evs, j)
    decreases |evs|
  {
    hide Step, Inv, Reaches, Overwrites, Lost, Served, Waiting;
    if evs != [] {
      assert IndexInv(w) && OriginInv(w) by { InvParts(w); }
      FateStep(w, evs[0], j);
      LostStep(w, evs[0], j);
      FateOfCommand(Step(w, evs[0]), evs[1..], j);
    }
  }

  lemma InvParts(w: World)
    requires Inv(w)
    ensures IndexInv(w) && OriginInv(w)
  {
  }

  // --- When nothing is lost -----------------------------------------------

  /** What a caller can check before submitting: a real opcode, an idle slot. */
  predicate Spares(d: Device, ev: Event)
    requires Shaped(d.ring)
  {
    Accepts(d, ev) ==> ev.sub.opcode != 0 && d.ring.inflight[d.ring.sqTail] == 0
  }

  ghost predicate Sparing(w: World, evs: seq<Event>)
    requires Shaped(w.dev.ring)
    decreases |evs|
  {
    evs == [] || (Spares(w.dev, evs[0]) && Sparing(Step(w, evs[0]), evs[1..]))
  }

  lemma SparedStep(w: World, ev: Event)
    requires Inv(w) && !ev.Open? && Spares(w.dev, ev) && Accounted(w)
    ensures Accounted(Step(w, ev))
  {
    var w' := Step(w, ev);
    hide Step, Lost, Inv;
    assert IndexInv(w) by { InvParts(w); }
    forall j: nat | j < S(w')
      ensures !Lost(w', j)
    {
      if j < S(w) {
        LostStep(w, ev, j);
        assert !Overwrites(w, ev, j);
      } else {
        NewestIsLostIff(w, ev, j);
      }
    }
  }

  lemma NewestIsLostIff(w: World, ev: Event, j: nat)
    requires IndexInv(w) && OriginInv(w) && !ev.Open? && S(w) <= j < S(Step(w, ev))
    ensures Accepts(w.dev, ev) && j == S(w)
    ensures Lost(Step(w, ev), j) <==> ev.sub.opcode == 0
  {
    assert Accepts(w.dev, ev) && j == S(w);
    assert Step(w, ev).epoch.origin == w.epoch.origin;
    NewestWaitsIff(w, ev);
    hide Step, Waiting, Masked, IndexInv;
    assert S(w) !in w.epoch.origin;
  }

  lemma UnsparedStep(w: World, ev: Event)
    requires Inv(w) && !ev.Open? && !(Spares(w.dev, ev) && Accounted(w))
    ensures !Accounted(Step(w, ev))
  {
    var w' := Step(w, ev);
    var tail := w.dev.ring.sqTail;
    var j: nat;
    if !Accounted(w) {
      j :| j < S(w) && Lost(w, j);
      LostStep(w, ev, j);
    } else if ev.sub.opcode == 0 {
      j := S(w);
      assert S(w') == S(w) + 1;
      NewestIsLostIff(w, ev, j);
    } else {
      assert tail < S(w);
      LastWriterRange(S(w), tail);
      j := LastWriter(S(w), tail);
      assert Overwrites(w, ev, j);
      LostStep(w, ev, j);
    }
    hide Step;
    assert Lost(w', j);
  }

  lemma {:induction false} AccountedIff(w: World, evs: seq<Event>)
    requires Inv(w) && NoOpens(evs)
    ensures Accounted(Run(w, evs)) <==> Accounted(w) && Sparing(w, evs)
    decreases |evs|
  {
    assert Shaped(w.dev.ring);
    hide Step, Inv, Accounted, Spares;
    if evs != [] {
      assert Inv(Step(w, evs[0])) by { InvStep(w, evs[0]); }
      if Spares(w.dev, evs[0]) && Accounted(w) {
        SparedStep(w, evs[0]);
      } else {
        UnsparedStep(w, evs[0]);
      }
      AccountedIff(Step(w, evs[0]), evs[1..]);
    }
  }

  /** Since an open, no accepted command has been lost if and only if every
      submission that found room had an opcode and found its slot idle. */
  lemma {:induction false} NothingIsLostIff(w: World, evs: seq<Event>)
    requires Reachable(w) && NoOpens(evs)
    ensures Accounted(Run(Step(w, Open), evs)) <==> Sparing(Step(w, Open), evs)
  {
    OpenIsInOrder(w);
    var w0 := Step(w, Open);
    assert S(w0) == 0;
    AccountedIff(w0, evs);
  }

  /** The wrap discipline is enough for that. */
  lemma {:induction false} DisciplineSpares(w: World, evs: seq<Event>)
    requires Inv(w) && OrderInv(w) && Disciplined(w, evs)
    ensures Sparing(w, evs)
    decreases |evs|
  {
    if evs != [] {
      SubmissionSparesPending(w);
      InvStep(w, evs[0]);
      OrderStep(w, evs[0]);
      DisciplineSpares(Step(w, evs[0]), evs[1..]);
    }
  }

  // --- Opcode 0 -------------------------------------------------------------

  ghost predicate RealOpcodes(e: Epoch) {
    forall k :: 0 <= k < |e.origin| ==> e.origin[k] < |e.accepted| && e.accepted[e.origin[k]].opcode != 0
  }

  lemma RealStep(w: World, ev: Event)
    requires IndexInv(w) && OriginInv(w) && RealOpcodes(w.epoch)
    ensures RealOpcodes(Step(w, ev).epoch)
  {
    var e, e', f := w.epoch, Step(w, ev).epoch, w.dev.ring.inflight;
    if Accepts(w.dev, ev) {
      assert e' == e.(accepted := e.accepted + [ev.sub]);
    } else if Posts(w.dev, ev) {
      assert HoldsFor(e.accepted, e.origin, LastWriter(S(w), Lowest(f)), f[Lowest(f)]);
      assert e'.origin == e.origin + [LastWriter(S(w), Lowest(f))] && e'.accepted == e.accepted;
    } else if !ev.Open? {
      assert e'.origin == e.origin && e'.accepted == e.accepted;
    }
  }

  lemma {:induction false} RunKeepsReal(w: World, evs: seq<Event>)
    requires Inv(w) && RealOpcodes(w.epoch)
    ensures RealOpcodes(Run(w, evs).epoch)
    decreases |evs|
  {
    hide Step, RealOpcodes;
    if evs != [] {
      InvStep(w, evs[0]);
      RealStep(w, evs[0]);
      RunKeepsReal(Step(w, evs[0]), evs[1..]);
    }
  }

  lemma NoneIsReal(e: Epoch)
    requires e.origin == []
    ensures RealOpcodes(e)
  {
  }

  lemma BootIsReal(boot: World)
    requires boot == Boot()
    ensures RealOpcodes(boot.epoch)
  {
    assert boot.epoch.origin == [];
    NoneIsReal(boot.epoch);
  }

  lemma BootIsInv(boot: World)
    requires boot == Boot()
    ensures Inv(boot)
  {
    BootInv(boot);
  }

  lemma ReachableReal(w: World)
    requires Reachable(w)
    ensures RealOpcodes(w.epoch)
  {
    var evs :| Run(Boot(), evs) == w;
    var boot := Boot();
    BootIsInv(boot);
    BootIsReal(boot);
    RunKeepsReal(boot, evs);
  }

  /** Only commands with an opcode are ever completed. */
  lemma OnlyRealOpcodesComplete(w: World, k: nat)
    requires Reachable(w) && k < P(w)
    ensures |w.epoch.origin| == P(w) && w.epoch.origin[k] < S(w)
    ensures w.epoch.accepted[w.epoch.origin[k]].opcode != 0
  {
    ReachableInv(w);
    ReachableReal(w);
  }
}
