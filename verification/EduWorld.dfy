/** Runs of the async driver, with the unbounded histories its masked indices
    stand for. A history starts afresh at every open. */
module EduWorld {
  import opened Words
  import opened Slab
  import opened EduRing

  /** Since the last open: commands accepted, completions posted, for each of
      these the position of the command it completes, and completions polled. */
  datatype Epoch = Epoch(
    accepted: seq<Submission>, posted: seq<CqEntry>, origin: seq<nat>, polled: seq<Completion>)

  /** Since probe: unread completions and unposted commands that opens dropped,
      how often the fault switch was armed, and the replies to DMA checks: all
      failures, those among them on matching bytes, and all successes. */
  datatype Totals = Totals(dropped: nat, abandoned: nat, arms: nat, injected: nat, eios: nat, passes: nat)

  datatype World = World(dev: Device, epoch: Epoch, totals: Totals)

  function S(w: World): nat { |w.epoch.accepted| }
  function P(w: World): nat { |w.epoch.posted| }
  function C(w: World): nat { |w.epoch.polled| }

  /** The last of the first s commands that was put in slot i, when i < s. */
  function LastWriter(s: nat, i: Slot): int {
    s - 1 - Masked(s - 1 - i)
  }

  predicate Accepts(d: Device, ev: Event) { ev.Submit? && !Full(d.ring) }

  predicate Posts(d: Device, ev: Event)
    requires Shaped(d.ring)
  {
    ev.Irq? && ev.stat != 0 && Lowest(d.ring.inflight) < RING_SIZE
  }

  predicate Takes(d: Device, ev: Event) { ev.Poll? && !Empty(d.ring) }

  function EpochAfter(w: World, ev: Event): Epoch
    requires Shaped(w.dev.ring)
  {
    var r, e := w.dev.ring, w.epoch;
    if ev.Open? then Epoch([], [], [], [])
    else if Accepts(w.dev, ev) then e.(accepted := e.accepted + [ev.sub])
    else if Posts(w.dev, ev) then
      var i := Lowest(r.inflight);
      var writer := LastWriter(S(w), i);
      e.(posted := e.posted + [Completed(r.sq[i], ev.fact)],
         origin := e.origin + [if writer < 0 then 0 else writer])
    else if Takes(w.dev, ev) then e.(polled := e.polled + [Front(r)])
    else e
  }

  function TotalsAfter(w: World, ev: Event): Totals
    requires Shaped(w.dev.ring)
  {
    var t := w.totals;
    match ev
    case Open => t.(dropped := t.dropped + (if P(w) >= C(w) then P(w) - C(w) else 0),
                    abandoned := t.abandoned + (if S(w) >= P(w) then S(w) - P(w) else 0))
    case InjectStore(v) => if v == Number(1) && ReplyTo(w.dev, ev) == Code(OK) then t.(arms := t.arms + 1) else t
    case DmaCheck =>
      if ReplyTo(w.dev, ev) == Code(EIO) then
        t.(eios := t.eios + 1, injected := t.injected + if DmaMatches(w.dev.ring) then 1 else 0)
      else if ReplyTo(w.dev, ev) == Code(OK) then t.(passes := t.passes + 1)
      else t
    case _ => t
  }

  function Step(w: World, ev: Event): (w': World)
    requires Shaped(w.dev.ring)
    ensures Shaped(w'.dev.ring) && w'.dev == After(w.dev, ev)
  {
    World(After(w.dev, ev), EpochAfter(w, ev), TotalsAfter(w, ev))
  }

  function Run(w: World, evs: seq<Event>): (w': World)
    requires Shaped(w.dev.ring)
    ensures Shaped(w'.dev.ring)
    decreases |evs|
  {
    if evs == [] then w else Run(Step(w, evs[0]), evs[1..])
  }

  lemma {:induction false} RunSplits(w: World, a: seq<Event>, b: seq<Event>)
    requires Shaped(w.dev.ring)
    ensures Run(w, a + b) == Run(Run(w, a), b)
    decreases |a|
  {
    if a == [] {
      assert a + b == b;
    } else {
      assert (a + b)[0] == a[0] && (a + b)[1..] == a[1..] + b;
      RunSplits(Step(w, a[0]), a[1..], b);
    }
  }

  lemma RunOne(w: World, ev: Event)
    requires Shaped(w.dev.ring)
    ensures Run(w, [ev]) == Step(w, ev)
  {
    assert [ev][1..] == [];
  }

  function Boot(): (w: World)
    ensures Shaped(w.dev.ring)
  {
    World(Probed(), Epoch([], [], [], []), Totals(0, 0, 0, 0, 0, 0))
  }

  /** Every world an interleaving of steps can reach from probe. */
  ghost predicate Reachable(w: World) {
    exists evs: seq<Event> :: Run(Boot(), evs) == w
  }

  function Pending(f: seq<u8>): set<nat> {
    set i: nat | i < |f| && f[i] != 0
  }

  // --- What holds of every interleaving -----------------------------------

  /** The masked indices are the residues of the histories' lengths, which
      stay in order and less than a lap apart. */
  ghost predicate IndexInv(w: World) {
    && Shaped(w.dev.ring)
    && w.dev.ring.sqTail == Masked(S(w))
    && w.dev.ring.cqTail == Masked(P(w))
    && w.dev.ring.cqHead == Masked(C(w))
    && C(w) <= P(w)
    && P(w) + |Pending(w.dev.ring.inflight)| <= S(w)
    && S(w) - C(w) <= RING_SIZE - 1
  }

  /** Pending slots hold distinct accepted commands that are not completed yet,
      and no command is completed twice. */
  ghost predicate OriginInv(w: World) {
    && |w.epoch.origin| == P(w)
    && Distinct(w.epoch.origin, S(w))
    && Unfinished(w.dev.ring.inflight, w.epoch.accepted, w.epoch.origin)
  }

  ghost predicate Distinct(origin: seq<nat>, s: nat) {
    && (forall k :: 0 <= k < |origin| ==> origin[k] < s)
    && (forall j, k :: 0 <= j < k < |origin| ==> origin[j] != origin[k])
  }

  ghost predicate Unfinished(f: seq<u8>, accepted: seq<Submission>, origin: seq<nat>) {
    && |f| == RING_SIZE
    && forall i: Slot :: f[i] != 0 ==> i < |accepted| && HoldsFor(accepted, origin, LastWriter(|accepted|, i), f[i])
  }

  predicate HoldsFor(accepted: seq<Submission>, origin: seq<nat>, writer: int, opcode: u8) {
    0 <= writer < |accepted| && writer !in origin && accepted[writer].opcode == opcode
  }

  ghost predicate CounterInv(w: World) {
    var c := w.dev.stats;
    && c.eventfdSignals <= c.cqPosted <= c.irqTotal
    && P(w) >= C(w) && S(w) >= P(w)
    && c.cqPosted - c.cqConsumed == P(w) - C(w) + w.totals.dropped
    && c.sqSubmitted - c.cqPosted == S(w) - P(w) + w.totals.abandoned
  }

  ghost predicate FaultInv(w: World) {
    var d, t := w.dev, w.totals;
    && d.injectFault <= 1
    && t.injected + d.injectFault <= t.arms
    && d.stats.dmaErrors == t.eios
    && t.injected <= t.eios
    && d.dmaOk == (if t.passes > 0 then 1 else 0)
  }

  lemma PendingSet(f: seq<u8>, i: nat, v: u8)
    requires i < |f|
    ensures Pending(f[i := v]) == if v != 0 then Pending(f) + {i} else Pending(f) - {i}
  {
  }

  lemma PendingBounds(f: seq<u8>)
    ensures Lowest(f) < |f| <==> Pending(f) != {}
    ensures Lowest(f) < |f| ==> Lowest(f) in Pending(f)
  {
    if Lowest(f) < |f| {
      assert Lowest(f) in Pending(f);
    } else {
      assert forall i :: 0 <= i < |f| ==> f[i] == 0;
    }
  }

  // What the three steps that move an index do.

  lemma AcceptEffect(w: World, s: Submission)
    requires Shaped(w.dev.ring) && !Full(w.dev.ring)
    ensures var w' := Step(w, Submit(s));
      && w'.dev.ring == Accept(w.dev.ring, s)
      && w'.epoch == w.epoch.(accepted := w.epoch.accepted + [s])
  {
  }

  lemma PostEffect(w: World, ev: Event)
    requires Shaped(w.dev.ring) && Posts(w.dev, ev)
    requires LastWriter(S(w), Lowest(w.dev.ring.inflight)) >= 0
    ensures var w', i := Step(w, ev), Lowest(w.dev.ring.inflight);
      && w'.dev.ring == Post(w.dev.ring, ev.fact)
      && w'.epoch == w.epoch.(posted := w.epoch.posted + [Completed(w.dev.ring.sq[i], ev.fact)],
                              origin := w.epoch.origin + [LastWriter(S(w), i)])
  {
  }

  lemma TakeEffect(w: World)
    requires Shaped(w.dev.ring) && !Empty(w.dev.ring)
    ensures var w' := Step(w, Poll);
      && w'.dev.ring == Take(w.dev.ring)
      && w'.epoch == w.epoch.(polled := w.epoch.polled + [Front(w.dev.ring)])
  {
  }

  /** A true backlog and its residues agree on full and on empty. */
  lemma Residues(head: nat, tail: nat)
    requires head <= tail <= head + RING_SIZE - 1
    ensures Masked(tail + 1) == Masked(head) <==> tail - head == RING_SIZE - 1
    ensures Masked(tail) == Masked(head) <==> tail == head
  {
    ModInjective(head, tail, 64);
    OneLapOn(head, 64);
    ModInjective(tail + 1, head + 64, 64);
  }

  lemma IndexTests(w: World)
    requires IndexInv(w)
    ensures Full(w.dev.ring) <==> S(w) - C(w) == RING_SIZE - 1
    ensures Empty(w.dev.ring) <==> P(w) == C(w)
  {
    Residues(C(w), S(w));
    Residues(C(w), P(w));
    Succ64(S(w));
  }

  lemma Succ64(n: nat)
    ensures Masked(Masked(n) + 1) == Masked(n + 1)
  {
  }

  lemma IndexSubmit(w: World, ev: Event)
    requires IndexInv(w) && ev.Submit?
    ensures IndexInv(Step(w, ev))
  {
    var f := w.dev.ring.inflight;
    IndexTests(w);
    if Full(w.dev.ring) {
      assert Step(w, ev).epoch == w.epoch && Step(w, ev).dev.ring == w.dev.ring;
    } else {
      hide Step, Pending, Full;
      AcceptEffect(w, ev.sub);
      PendingSet(f, w.dev.ring.sqTail, ev.sub.opcode);
      Succ64(S(w));
      assert Masked(w.dev.ring.sqTail) == w.dev.ring.sqTail;
    }
  }

  lemma IndexIrq(w: World, ev: Event)
    requires IndexInv(w) && ev.Irq?
    ensures IndexInv(Step(w, ev))
  {
    var r := w.dev.ring;
    PendingBounds(r.inflight);
    Succ64(P(w));
    if Posts(w.dev, ev) {
      PendingSet(r.inflight, Lowest(r.inflight), 0);
    }
  }

  lemma IndexStep(w: World, ev: Event)
    requires IndexInv(w)
    ensures IndexInv(Step(w, ev))
  {
    match ev {
      case Submit(_) => IndexSubmit(w, ev);
      case Irq(_, _) => IndexIrq(w, ev);
      case Poll =>
        Residues(C(w), P(w));
        Succ64(C(w));
      case Open =>
        assert Pending(Restart(w.dev.ring).inflight) == {};
      case _ =>
    }
  }

  lemma LastWriterNew(s: nat)
    ensures LastWriter(s + 1, Masked(s)) == s
  {
  }

  lemma LastWriterOld(s: nat, i: Slot)
    requires i != Masked(s)
    ensures LastWriter(s + 1, i) == LastWriter(s, i)
  {
    assert Masked(s - i) != 0;
  }

  lemma LastWriterRange(s: nat, i: Slot)
    requires i < s
    ensures 0 <= LastWriter(s, i) < s && Masked(LastWriter(s, i)) == i
  {
  }

  lemma LastWriterDistinct(s: nat, i: Slot, j: Slot)
    requires i < s && j < s && i != j
    ensures LastWriter(s, i) != LastWriter(s, j)
  {
    LastWriterRange(s, i);
    LastWriterRange(s, j);
  }
}
