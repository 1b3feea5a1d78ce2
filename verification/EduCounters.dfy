/** What the driver's counters and the eventfd count, over any run, opens and all. */
module EduCounters {
  import opened Words
  import opened EduRing
  import opened EduWorld

  /** Commands accepted, completions posted and polled, and completions posted
      while an eventfd was registered, all by the histories; interrupts by their
      cause registers. */
  datatype Tally = Tally(accepted: int, posted: int, polled: int, announced: int, interrupts: int)

  /** Histories start afresh at an open, and grow at every other step. */
  function Grown(before: nat, after: nat, ev: Event): int { if ev.Open? then 0 else after - before }

  function Tallied(w: World, ev: Event, registered: bool): Tally
    requires Shaped(w.dev.ring)
  {
    var w' := Step(w, ev);
    Tally(Grown(S(w), S(w'), ev), Grown(P(w), P(w'), ev), Grown(C(w), C(w'), ev),
          if registered then Grown(P(w), P(w'), ev) else 0,
          if ev.Irq? && ev.stat != 0 then 1 else 0)
  }

  function Sum(a: Tally, b: Tally): Tally {
    Tally(a.accepted + b.accepted, a.posted + b.posted, a.polled + b.polled, a.announced + b.announced,
          a.interrupts + b.interrupts)
  }

  /** An eventfd stays registered, also through opens. */
  function TallyOf(w: World, evs: seq<Event>, registered: bool): Tally
    requires Shaped(w.dev.ring)
    decreases |evs|
  {
    if evs == [] then Tally(0, 0, 0, 0, 0)
    else Sum(Tallied(w, evs[0], registered), TallyOf(Step(w, evs[0]), evs[1..], registered || evs[0].SetEventfd?))
  }

  predicate Registers(evs: seq<Event>) { exists k :: 0 <= k < |evs| && evs[k].SetEventfd? }

  predicate Counts(c: Counters, c': Counters, t: Tally) {
    && c'.sqSubmitted == c.sqSubmitted + t.accepted
    && c'.cqPosted == c.cqPosted + t.posted
    && c'.cqConsumed == c.cqConsumed + t.polled
    && c'.eventfdSignals == c.eventfdSignals + t.announced
    && c'.irqTotal == c.irqTotal + t.interrupts
  }

  lemma StepCounts(w: World, ev: Event)
    requires Shaped(w.dev.ring)
    ensures Counts(w.dev.stats, Step(w, ev).dev.stats, Tallied(w, ev, w.dev.evt))
    ensures Step(w, ev).dev.evt <==> w.dev.evt || ev.SetEventfd?
  {
    hide DmaMatches, Lowest, Post, Accept, Take, Restart, LastWriter;
  }

  lemma RegistersHead(evs: seq<Event>)
    requires evs != []
    ensures Registers(evs) <==> evs[0].SetEventfd? || Registers(evs[1..])
  {
    if Registers(evs[1..]) {
      var k :| 0 <= k < |evs[1..]| && evs[1..][k].SetEventfd?;
      assert evs[k + 1].SetEventfd?;
    }
    if Registers(evs) && !evs[0].SetEventfd? {
      var k :| 0 <= k < |evs| && evs[k].SetEventfd?;
      assert evs[1..][k - 1].SetEventfd?;
    }
  }

  /** Over any run whatever, each counter grows by exactly what it is named for,
      and an eventfd is registered at the end iff it was or the run registers one. */
  lemma {:induction false} CountersCountHistories(w: World, evs: seq<Event>)
    requires Shaped(w.dev.ring)
    ensures Counts(w.dev.stats, Run(w, evs).dev.stats, TallyOf(w, evs, w.dev.evt))
    ensures Run(w, evs).dev.evt <==> w.dev.evt || Registers(evs)
    decreases |evs|
  {
    if evs != [] {
      StepCounts(w, evs[0]);
      RegistersHead(evs);
      hide Step, Tallied, Registers;
      CountersCountHistories(Step(w, evs[0]), evs[1..]);
    }
  }

  predicate Opens(evs: seq<Event>) { exists k :: 0 <= k < |evs| && evs[k].Open? }

  lemma {:induction false} TallyTelescopes(w: World, evs: seq<Event>, registered: bool)
    requires Shaped(w.dev.ring)
    ensures registered ==> TallyOf(w, evs, registered).announced == TallyOf(w, evs, registered).posted
    ensures !registered && !Registers(evs) ==> TallyOf(w, evs, registered).announced == 0
    ensures !Opens(evs) ==> TallyOf(w, evs, registered).posted == P(Run(w, evs)) - P(w)
    decreases |evs|
  {
    if evs != [] {
      var ev, w', rest := evs[0], Step(w, evs[0]), evs[1..];
      RegistersHead(evs);
      OpensHead(evs);
      TalliedPosts(w, ev, registered);
      hide Step, Tallied, Registers, Opens;
      TallyTelescopes(w', rest, registered || ev.SetEventfd?);
    }
  }

  lemma OpensHead(evs: seq<Event>)
    requires evs != []
    ensures !Opens(evs) ==> !evs[0].Open? && !Opens(evs[1..])
  {
    if Opens(evs[1..]) {
      var k :| 0 <= k < |evs[1..]| && evs[1..][k].Open?;
      assert evs[k + 1].Open?;
    }
  }

  lemma TalliedPosts(w: World, ev: Event, registered: bool)
    requires Shaped(w.dev.ring)
    ensures var t := Tallied(w, ev, registered);
      && t.announced == (if registered then t.posted else 0)
      && (!ev.Open? ==> t.posted == P(Step(w, ev)) - P(w))
  {
    hide Step;
  }

  /** With an eventfd registered, every completion is signalled, once, through any
      opens; with none, and none registered on the way, nothing is. */
  lemma {:induction false} EveryCompletionIsSignalled(w: World, evs: seq<Event>)
    requires Shaped(w.dev.ring)
    ensures var c, c' := w.dev.stats, Run(w, evs).dev.stats;
      && (w.dev.evt ==> c'.eventfdSignals - c.eventfdSignals == c'.cqPosted - c.cqPosted)
      && (w.dev.evt && !Opens(evs) ==> c'.eventfdSignals - c.eventfdSignals == P(Run(w, evs)) - P(w))
      && (!w.dev.evt && !Registers(evs) ==> c'.eventfdSignals == c.eventfdSignals)
  {
    CountersCountHistories(w, evs);
    TallyTelescopes(w, evs, w.dev.evt);
    hide Run, TallyOf;
  }

  /** The handler claims an interrupt exactly when it has a cause, and only then
      does it count or change anything. */
  lemma HandlerClaimsIffCause(w: World, stat: u32, fact: u32)
    requires Shaped(w.dev.ring)
    ensures ReplyTo(w.dev, Irq(stat, fact)) == if stat == 0 then Handled(false) else Handled(true)
    ensures var w' := Step(w, Irq(stat, fact));
      if stat == 0 then w' == w else w'.dev.stats.irqTotal == w.dev.stats.irqTotal + 1
  {
    hide Post, Lowest;
  }

  /** An open restarts the ring and nothing else: both queues keep their bytes, and
      the eventfd, the DMA verdict, the fault switch and the counters stay. */
  lemma OpenKeepsTheRest(w: World)
    requires Shaped(w.dev.ring)
    ensures var d, d' := w.dev, Step(w, Open).dev;
      && d'.ring.sq == d.ring.sq && d'.ring.cq == d.ring.cq
      && d'.ring.sqTail == d'.ring.cqTail == d'.ring.cqHead == 0
      && (forall i :: 0 <= i < |d'.ring.inflight| ==> d'.ring.inflight[i] == 0)
      && d'.evt == d.evt && d'.dmaOk == d.dmaOk && d'.injectFault == d.injectFault && d'.stats == d.stats
  {
  }
}
