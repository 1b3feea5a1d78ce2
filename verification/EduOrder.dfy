/** When completions come in submission order: exactly while no command is
    submitted to slot 0 with others still pending. */
module EduOrder {
  import opened Words
  import opened Slab
  import opened EduRing
  import opened EduWorld
  import opened EduSafety
  import opened EduQueue

  /** The pending slots are a range that starts at the oldest command and stops
      short of the wrap. */
  ghost predicate OneLap(f: seq<u8>, p: nat, s: nat) {
    && |f| == RING_SIZE && p <= s
    && (p < s ==> Masked(p) + (s - p) <= RING_SIZE)
    && forall i: Slot :: f[i] != 0 <==> Masked(p) <= i < Masked(p) + (s - p)
  }

  ghost predicate InOrder(origin: seq<nat>) {
    forall k :: 0 <= k < |origin| ==> origin[k] == k
  }

  ghost predicate OrderInv(w: World) {
    OneLap(w.dev.ring.inflight, P(w), S(w)) && InOrder(w.epoch.origin)
  }

  /** What a caller can check before submitting. */
  predicate MaySubmit(r: Ring, s: Submission) {
    s.opcode != 0 && (r.sqTail != 0 || Quiet(r))
  }

  predicate Allowed(d: Device, ev: Event) {
    Accepts(d, ev) ==> MaySubmit(d.ring, ev.sub)
  }

  ghost predicate Disciplined(w: World, evs: seq<Event>)
    requires Shaped(w.dev.ring)
    decreases |evs|
  {
    evs == [] || (Allowed(w.dev, evs[0]) && Disciplined(Step(w, evs[0]), evs[1..]))
  }

  /** Every command that is still to be completed is pending, and the next
      interrupt completes the oldest. */
  ghost predicate OldestNext(w: World)
    requires Shaped(w.dev.ring)
  {
    var f := w.dev.ring.inflight;
    && (forall j :: P(w) <= j < S(w) ==> f[Masked(j)] != 0)
    && (P(w) < S(w) ==> Lowest(f) < RING_SIZE && LastWriter(S(w), Lowest(f)) == P(w))
  }

  ghost predicate AlwaysOldestNext(w: World, evs: seq<Event>)
    requires Shaped(w.dev.ring)
    decreases |evs|
  {
    OldestNext(w) && (evs == [] || AlwaysOldestNext(Step(w, evs[0]), evs[1..]))
  }

  lemma LowestOfLap(f: seq<u8>, p: nat, s: nat)
    requires OneLap(f, p, s)
    ensures Lowest(f) == if p < s then Masked(p) else RING_SIZE
  {
    if p < s {
      LowestIsScan(f, Masked(p));
    } else {
      assert forall i: Slot :: f[i] == 0;
    }
  }

  lemma WriterOfOldest(p: nat, s: nat)
    requires p < s && Masked(p) + (s - p) <= RING_SIZE
    ensures LastWriter(s, Masked(p)) == p
  {
    assert s - 1 - Masked(p) == 64 * (p / 64) + (s - 1 - p);
  }

  lemma MaskedInLap(p: nat, j: nat)
    requires p <= j && Masked(p) + (j - p) < RING_SIZE
    ensures Masked(j) == Masked(p) + (j - p)
  {
  }

  lemma OrderedMeansOldestNext(w: World)
    requires Shaped(w.dev.ring) && OrderInv(w)
    ensures OldestNext(w)
  {
    var p, s := P(w), S(w);
    LowestOfLap(w.dev.ring.inflight, p, s);
    if p < s {
      WriterOfOldest(p, s);
    }
    forall j | p <= j < s
      ensures w.dev.ring.inflight[Masked(j)] != 0
    {
      MaskedInLap(p, j);
    }
  }

  lemma LapAccept(f: seq<u8>, p: nat, s: nat, op: u8)
    requires OneLap(f, p, s) && op != 0
    requires Masked(s) != 0 || p == s
    ensures OneLap(f[Masked(s) := op], p, s + 1)
  {
    if p < s {
      assert Masked(p) + (s - p) < RING_SIZE;
      MaskedInLap(p, s);
    }
  }

  lemma LapPost(f: seq<u8>, p: nat, s: nat)
    requires OneLap(f, p, s) && p < s
    ensures OneLap(f[Masked(p) := 0], p + 1, s)
  {
    if p + 1 < s {
      MaskedInLap(p, p + 1);
    }
  }

  lemma QuietMeansDone(w: World)
    requires Shaped(w.dev.ring) && OrderInv(w)
    ensures Quiet(w.dev.ring) <==> P(w) == S(w)
  {
    var f := w.dev.ring.inflight;
    if P(w) < S(w) {
      assert f[Masked(P(w))] != 0;
    } else {
      assert forall i: Slot :: f[i] == 0;
    }
  }

  lemma OrderAccept(w: World, ev: Event)
    requires Shaped(w.dev.ring) && w.dev.ring.sqTail == Masked(S(w))
    requires OrderInv(w) && Accepts(w.dev, ev) && MaySubmit(w.dev.ring, ev.sub)
    ensures OrderInv(Step(w, ev))
  {
    QuietMeansDone(w);
    LapAccept(w.dev.ring.inflight, P(w), S(w), ev.sub.opcode);
    var w' := Step(w, ev);
    assert S(w') == S(w) + 1 && w'.epoch.origin == w.epoch.origin && P(w') == P(w);
    assert w'.dev.ring.inflight == w.dev.ring.inflight[Masked(S(w)) := ev.sub.opcode];
  }

  lemma OrderPost(w: World, ev: Event)
    requires Shaped(w.dev.ring) && OriginInv(w) && OrderInv(w) && Posts(w.dev, ev)
    ensures OrderInv(Step(w, ev)) && P(Step(w, ev)) == P(w) + 1
  {
    var f := w.dev.ring.inflight;
    LowestOfLap(f, P(w), S(w));
    WriterOfOldest(P(w), S(w));
    LapPost(f, P(w), S(w));
    OriginPost(w, ev);
    var w' := Step(w, ev);
    assert w'.dev.ring.inflight == f[Masked(P(w)) := 0] && S(w') == S(w);
  }

  lemma OrderStep(w: World, ev: Event)
    requires IndexInv(w) && OriginInv(w) && OrderInv(w) && Allowed(w.dev, ev)
    ensures OrderInv(Step(w, ev))
  {
    if Accepts(w.dev, ev) {
      OrderAccept(w, ev);
    } else if Posts(w.dev, ev) {
      OrderPost(w, ev);
    } else if ev.Open? {
      assert Quiet(Step(w, ev).dev.ring);
    } else {
      var w' := Step(w, ev);
      assert S(w') == S(w) && w'.epoch.origin == w.epoch.origin && P(w') == P(w);
      assert w'.dev.ring.inflight == w.dev.ring.inflight;
    }
  }

  /** A submission that breaks the discipline breaks the order at once. */
  lemma BreachShows(w: World, ev: Event)
    requires IndexInv(w) && OrderInv(w) && Accepts(w.dev, ev) && !MaySubmit(w.dev.ring, ev.sub)
    ensures !OldestNext(Step(w, ev))
  {
    QuietMeansDone(w);
    var f, w', s := w.dev.ring.inflight, Step(w, ev), S(w);
    var f' := w'.dev.ring.inflight;
    assert f' == f[Masked(s) := ev.sub.opcode] && S(w') == s + 1 && P(w') == P(w);
    if ev.sub.opcode == 0 {
      assert f'[Masked(s)] == 0;
    } else {
      assert Masked(s) == 0;
      LowestIsScan(f', 0);
      LastWriterNew(s);
    }
  }

  /** The discipline is exact: a run obeys it if and only if at every point the
      next interrupt completes the oldest command outstanding. */
  lemma {:induction false} DisciplineIsExact(w: World, evs: seq<Event>)
    requires Inv(w) && OrderInv(w)
    ensures Disciplined(w, evs) <==> AlwaysOldestNext(w, evs)
    decreases |evs|
  {
    OrderedMeansOldestNext(w);
    if evs != [] {
      var w' := Step(w, evs[0]);
      InvStep(w, evs[0]);
      if Allowed(w.dev, evs[0]) {
        OrderStep(w, evs[0]);
        DisciplineIsExact(w', evs[1..]);
      } else {
        BreachShows(w, evs[0]);
      }
    }
  }

  lemma OpenIsInOrder(w: World)
    requires Reachable(w)
    ensures Inv(Step(w, Open)) && OrderInv(Step(w, Open))
  {
    ReachableInv(w);
    InvStep(w, Open);
    assert Quiet(Step(w, Open).dev.ring);
  }

  lemma DisciplineIsExactSinceOpen(w: World, evs: seq<Event>)
    requires Reachable(w)
    ensures Disciplined(Step(w, Open), evs) <==> AlwaysOldestNext(Step(w, Open), evs)
  {
    OpenIsInOrder(w);
    DisciplineIsExact(Step(w, Open), evs);
  }

  lemma {:induction false} RunKeepsOrder(w: World, evs: seq<Event>)
    requires Inv(w) && OrderInv(w) && Disciplined(w, evs)
    ensures OrderInv(Run(w, evs))
    decreases |evs|
  {
    if evs != [] {
      InvStep(w, evs[0]);
      OrderStep(w, evs[0]);
      RunKeepsOrder(Step(w, evs[0]), evs[1..]);
    }
  }

  lemma TailOutsideLap(p: nat, s: nat)
    requires p < s < p + RING_SIZE && Masked(p) + (s - p) <= RING_SIZE
    ensures !(Masked(p) <= Masked(s) < Masked(p) + (s - p))
  {
    if Masked(p) + (s - p) < RING_SIZE {
      MaskedInLap(p, s);
    } else {
      assert s == 64 * (p / 64) + 64;
    }
  }

  /** Under the discipline a submission goes to a slot with nothing pending. */
  lemma SubmissionSparesPending(w: World)
    requires IndexInv(w) && OrderInv(w)
    ensures w.dev.ring.inflight[w.dev.ring.sqTail] == 0
  {
    if P(w) < S(w) {
      TailOutsideLap(P(w), S(w));
    }
  }

  /** Under the discipline the k-th completion is for the k-th command, and
      answers it if the submission entries are left alone. */
  lemma CompletedInSubmissionOrder(w: World, evs: seq<Event>, w': World)
    requires Reachable(w) && w' == Run(Step(w, Open), evs)
    requires Disciplined(Step(w, Open), evs)
    ensures InOrder(w'.epoch.origin) && |w'.epoch.origin| == P(w') <= S(w')
    ensures OneLap(w'.dev.ring.inflight, P(w'), S(w'))
    ensures w'.dev.ring.inflight[w'.dev.ring.sqTail] == 0
    ensures NoSqWrites(evs) ==> forall k :: 0 <= k < P(w') ==> Answers(w'.epoch.posted[k], w'.epoch.accepted[k])
  {
    var w0 := Step(w, Open);
    OpenIsInOrder(w);
    RunKeepsOrder(w0, evs);
    RunKeepsInv(w0, evs);
    SubmissionSparesPending(w');
    if NoSqWrites(evs) {
      RunKeepsGenuine(w0, evs);
    }
  }

  /** One command at a time is a case of the discipline. */
  lemma {:induction false} OneAtATimeIsDisciplined(w: World, evs: seq<Event>)
    requires Shaped(w.dev.ring) && OneAtATime(w, evs)
    ensures Disciplined(w, evs)
    decreases |evs|
  {
    if evs != [] {
      OneAtATimeIsDisciplined(Step(w, evs[0]), evs[1..]);
    }
  }

  ghost predicate OneAtATime(w: World, evs: seq<Event>)
    requires Shaped(w.dev.ring)
    decreases |evs|
  {
    evs != [] ==>
      && (Accepts(w.dev, evs[0]) ==> ValidOpcode(evs[0].sub.opcode) && Quiet(w.dev.ring))
      && OneAtATime(Step(w, evs[0]), evs[1..])
  }
}
