/** One client, the driver and the device together: submit, wait, repeat. */
module EduSession {
  import opened Words
  import opened EduRing
  import opened EduWorld
  import opened EduHardware

  datatype Session = Session(w: World, hw: Hw)

  /** What happens on its own: the device finishes, the interrupt is delivered. */
  datatype EnvStep = Finish | Interrupt

  function EnvAfter(ses: Session, e: EnvStep): (ses': Session)
    requires Shaped(ses.w.dev.ring)
    ensures Shaped(ses'.w.dev.ring)
  {
    if e.Finish? then ses.(hw := Finished(ses.hw))
    else Session(Step(ses.w, Irq(ses.hw.irqStat, ses.hw.fact)), ses.hw.(irqStat := 0))
  }

  function EnvRun(ses: Session, steps: seq<EnvStep>): (ses': Session)
    requires Shaped(ses.w.dev.ring)
    ensures Shaped(ses'.w.dev.ring)
    decreases |steps|
  {
    if steps == [] then ses else EnvRun(EnvAfter(ses, steps[0]), steps[1..])
  }

  function Submitted(ses: Session, s: Submission, gap: seq<EnvStep>): (ses': Session)
    requires Shaped(ses.w.dev.ring)
    ensures Shaped(ses'.w.dev.ring)
  {
    var locked := ses.(w := Step(ses.w, Submit(s)));
    if Full(ses.w.dev.ring) then locked
    else
      var late := EnvRun(locked, gap);
      Session(Step(late.w, Kick(s.opcode)), Kicked(late.hw, s))
  }

  function Polled(ses: Session): (ses': Session)
    requires Shaped(ses.w.dev.ring)
    ensures Shaped(ses'.w.dev.ring)
  {
    ses.(w := Step(ses.w, Poll))
  }

  /** The bounded wait: polls number i to n - 1, sleeping after each miss. */
  function WaitFrom(ses: Session, sleeps: nat -> seq<EnvStep>, i: nat, n: nat): (r: (Option<Completion>, Session))
    requires Shaped(ses.w.dev.ring)
    ensures Shaped(r.1.w.dev.ring)
    decreases n - i
  {
    if i >= n then (None, ses)
    else if Empty(ses.w.dev.ring) then WaitFrom(EnvRun(Polled(ses), sleeps(i)), sleeps, i + 1, n)
    else (Some(Front(ses.w.dev.ring)), Polled(ses))
  }

  function Expected(s: Submission): Completion {
    Completion(s.tag, 0, if s.opcode == OP_FACTORIAL then FactU32(s.operand) else 0)
  }

  // --- The life of one command --------------------------------------------

  /** One command is accepted and not completed, and waits on its slot. */
  ghost predicate Outstanding(w: World, s: Submission) {
    && IndexInv(w)
    && S(w) == P(w) + 1
    && Pending(w.dev.ring.inflight) == {Masked(P(w)) as nat}
    && w.dev.ring.sq[Masked(P(w))] == Entry(s)
  }

  ghost predicate Holding(w: World, s: Submission) { Outstanding(w, s) && C(w) == P(w) }

  predicate Rests(hw: Hw) { hw.job.Idle? && hw.irqStat == 0 }

  /** The device works on the command, and will raise its interrupt. */
  predicate AtWork(hw: Hw, s: Submission) {
    hw.job == JobOf(s) && hw.irqStat == 0 && (s.opcode == OP_FACTORIAL ==> hw.factIrq)
  }

  /** The device is done with the command, and its interrupt is raised. */
  predicate Signals(hw: Hw, s: Submission) {
    hw.job.Idle? && hw.irqStat != 0 && (s.opcode == OP_FACTORIAL ==> hw.fact == FactU32(s.operand))
  }

  ghost predicate Settled(ses: Session) {
    IndexInv(ses.w) && Quiet(ses.w.dev.ring) && S(ses.w) == P(ses.w) == C(ses.w) && Rests(ses.hw)
  }

  ghost predicate Locked(ses: Session, s: Submission) { Holding(ses.w, s) && Rests(ses.hw) }

  ghost predicate Working(ses: Session, s: Submission) { Holding(ses.w, s) && AtWork(ses.hw, s) }

  ghost predicate Raised(ses: Session, s: Submission) { Holding(ses.w, s) && Signals(ses.hw, s) }

  ghost predicate Done(ses: Session, s: Submission) {
    && IndexInv(ses.w) && Quiet(ses.w.dev.ring)
    && S(ses.w) == P(ses.w) == C(ses.w) + 1
    && Front(ses.w.dev.ring) == Expected(s)
    && Rests(ses.hw)
  }

  ghost predicate Underway(ses: Session, s: Submission) {
    Working(ses, s) || Raised(ses, s) || Done(ses, s)
  }

  lemma NothingToHandle(w: World, fact: u32)
    requires Shaped(w.dev.ring)
    ensures Step(w, Irq(0, fact)) == w
  {
  }

  lemma PollNothing(w: World)
    requires Shaped(w.dev.ring) && Empty(w.dev.ring)
    ensures Step(w, Poll) == w
  {
  }

  lemma AcceptedIsOutstanding(w: World, s: Submission)
    requires IndexInv(w) && Quiet(w.dev.ring) && S(w) == P(w) && !Full(w.dev.ring) && s.opcode != 0
    ensures Outstanding(Step(w, Submit(s)), s)
    ensures Step(w, Submit(s)).epoch == w.epoch.(accepted := w.epoch.accepted + [s])
  {
    hide Step, Full;
    AcceptEffect(w, s);
    IndexStep(w, Submit(s));
    assert Pending(w.dev.ring.inflight) == {};
    PendingSet(w.dev.ring.inflight, w.dev.ring.sqTail, s.opcode);
  }

  lemma LockStarts(ses: Session, s: Submission)
    requires Settled(ses)
    ensures !Full(ses.w.dev.ring)
    ensures s.opcode != 0 ==> Locked(ses.(w := Step(ses.w, Submit(s))), s)
  {
    IndexTests(ses.w);
    hide Step, IndexInv, Full;
    if s.opcode != 0 {
      AcceptedIsOutstanding(ses.w, s);
    }
  }

  lemma KickWorks(ses: Session, s: Submission)
    requires Locked(ses, s) && ValidOpcode(s.opcode)
    ensures Step(ses.w, Kick(s.opcode)) == ses.w
    ensures Working(Session(ses.w, Kicked(ses.hw, s)), s)
  {
  }

  /** An interrupt answers the one command there is. */
  lemma InterruptPosts(w: World, s: Submission, ev: Event)
    requires Outstanding(w, s) && ev.Irq? && ev.stat != 0
    ensures var w' := Step(w, ev);
      && IndexInv(w') && Quiet(w'.dev.ring) && S(w') == P(w') == P(w) + 1
      && w'.dev.ring.cqHead == w.dev.ring.cqHead
      && w'.dev.ring.cq[Masked(P(w))] == Completed(Entry(s), ev.fact)
      && w'.epoch == w.epoch.(posted := w.epoch.posted + [Completed(Entry(s), ev.fact)],
                              origin := w.epoch.origin + [P(w)])
  {
    var f, w' := w.dev.ring.inflight, Step(w, ev);
    OldestIsLowest(w, s);
    PostEffect(w, ev);
    IndexStep(w, ev);
    PendingSet(f, Lowest(f), 0);
    assert Pending(w'.dev.ring.inflight) == {};
    QuietIfNonePending(w'.dev.ring);
    assert Masked(w.dev.ring.cqTail) == Masked(P(w));
    assert Shaped(w.dev.ring);
    hide Step, Pending, Lowest, IndexInv, Quiet, LastWriter, Masked, Completed;
  }

  lemma OldestIsLowest(w: World, s: Submission)
    requires Outstanding(w, s)
    ensures Lowest(w.dev.ring.inflight) == Masked(P(w))
    ensures LastWriter(S(w), Masked(P(w))) == P(w)
  {
    var f := w.dev.ring.inflight;
    PendingBounds(f);
    assert Lowest(f) in Pending(f);
    hide Pending, Lowest;
  }

  lemma InterruptCompletes(ses: Session, s: Submission)
    requires Raised(ses, s)
    ensures Done(EnvAfter(ses, Interrupt), s)
  {
    hide Step, Pending, Lowest;
    InterruptPosts(ses.w, s, Irq(ses.hw.irqStat, ses.hw.fact));
  }

  lemma QuietIfNonePending(r: Ring)
    requires Pending(r.inflight) == {}
    ensures Quiet(r)
  {
    forall i | 0 <= i < |r.inflight|
      ensures r.inflight[i] == 0
    {
      assert i !in Pending(r.inflight);
    }
  }

  lemma EnvKeeps(ses: Session, s: Submission, e: EnvStep)
    requires ValidOpcode(s.opcode)
    requires Shaped(ses.w.dev.ring)
    ensures Locked(ses, s) ==> EnvAfter(ses, e) == ses
    ensures Working(ses, s) ==> if e.Finish? then Raised(EnvAfter(ses, e), s) else EnvAfter(ses, e) == ses
    ensures Raised(ses, s) ==> if e.Finish? then EnvAfter(ses, e) == ses else Done(EnvAfter(ses, e), s)
    ensures Done(ses, s) ==> EnvAfter(ses, e) == ses
  {
    hide Step, IndexInv, Pending, Quiet;
    if e.Interrupt? {
      NothingToHandle(ses.w, ses.hw.fact);
      if Raised(ses, s) {
        InterruptCompletes(ses, s);
      }
    }
  }

  lemma {:induction false} EnvRunKeepsLocked(ses: Session, s: Submission, steps: seq<EnvStep>)
    requires Locked(ses, s) && ValidOpcode(s.opcode)
    ensures EnvRun(ses, steps) == ses
  {
    if steps != [] {
      EnvKeeps(ses, s, steps[0]);
      EnvRunKeepsLocked(ses, s, steps[1..]);
    }
  }

  lemma {:induction false} EnvRunKeepsUnderway(ses: Session, s: Submission, steps: seq<EnvStep>)
    requires Underway(ses, s) && ValidOpcode(s.opcode)
    ensures Underway(EnvRun(ses, steps), s)
    decreases |steps|
  {
    assert Shaped(ses.w.dev.ring);
    hide Working, Raised, Done, EnvAfter;
    if steps != [] {
      EnvKeeps(ses, s, steps[0]);
      EnvRunKeepsUnderway(EnvAfter(ses, steps[0]), s, steps[1..]);
    }
  }

  /** A submission to a settled session is accepted and underway, whatever the
      device and its interrupt do before the kick. */
  lemma SubmissionIsUnderway(ses: Session, s: Submission, gap: seq<EnvStep>)
    requires Settled(ses) && ValidOpcode(s.opcode)
    ensures !Full(ses.w.dev.ring)
    ensures Working(Submitted(ses, s, gap), s)
  {
    LockStarts(ses, s);
    var locked := ses.(w := Step(ses.w, Submit(s)));
    EnvRunKeepsLocked(locked, s, gap);
    KickWorks(locked, s);
  }

  lemma PollUnderway(ses: Session, s: Submission)
    requires Underway(ses, s)
    ensures Empty(ses.w.dev.ring) <==> !Done(ses, s)
    ensures Empty(ses.w.dev.ring) ==> Polled(ses) == ses
    ensures Done(ses, s) ==> Settled(Polled(ses)) && Front(ses.w.dev.ring) == Expected(s)
  {
    hide Step;
    IndexTests(ses.w);
    if Done(ses, s) {
      TakeEffect(ses.w);
      IndexStep(ses.w, Poll);
    } else {
      PollNothing(ses.w);
    }
  }

  /** A wait returns the command's own completion and settles, or times out
      with the command still underway. */
  lemma {:induction false} WaitAnswers(ses: Session, s: Submission, sleeps: nat -> seq<EnvStep>, i: nat, n: nat)
    requires Underway(ses, s) && ValidOpcode(s.opcode)
    ensures var (c, ses') := WaitFrom(ses, sleeps, i, n);
      if c.Some? then c.value == Expected(s) && Settled(ses') else Underway(ses', s)
    decreases n - i
  {
    hide Done, Working, Raised, Settled, Polled;
    if i < n {
      PollUnderway(ses, s);
      if Empty(ses.w.dev.ring) {
        EnvRunKeepsUnderway(ses, s, sleeps(i));
        WaitAnswers(EnvRun(ses, sleeps(i)), s, sleeps, i + 1, n);
      }
    }
  }

  // --- When a wait succeeds -----------------------------------------------

  /** What happens between the first poll and the last. */
  function Meantime(sleeps: nat -> seq<EnvStep>, i: nat, n: nat): seq<EnvStep>
    decreases n - i
  {
    if i + 1 >= n then [] else sleeps(i) + Meantime(sleeps, i + 1, n)
  }

  ghost predicate Interrupts(steps: seq<EnvStep>) {
    exists b :: 0 <= b < |steps| && steps[b].Interrupt?
  }

  ghost predicate Delivers(steps: seq<EnvStep>) {
    exists a, b :: 0 <= a < b < |steps| && steps[a].Finish? && steps[b].Interrupt?
  }

  lemma {:induction false} EnvRunSplits(ses: Session, a: seq<EnvStep>, b: seq<EnvStep>)
    requires Shaped(ses.w.dev.ring)
    ensures EnvRun(ses, a + b) == EnvRun(EnvRun(ses, a), b)
    decreases |a|
  {
    hide EnvAfter;
    if a == [] {
      assert a + b == b;
    } else {
      assert (a + b)[0] == a[0] && (a + b)[1..] == a[1..] + b;
      EnvRunSplits(EnvAfter(ses, a[0]), a[1..], b);
    }
  }

  lemma {:induction false} DoneStays(ses: Session, s: Submission, steps: seq<EnvStep>)
    requires Done(ses, s) && ValidOpcode(s.opcode)
    ensures EnvRun(ses, steps) == ses
  {
    hide EnvAfter;
    if steps != [] {
      EnvKeeps(ses, s, steps[0]);
      DoneStays(ses, s, steps[1..]);
    }
  }

  lemma PhasesDiffer(ses: Session, s: Submission)
    requires ValidOpcode(s.opcode)
    ensures !(Working(ses, s) && Done(ses, s)) && !(Raised(ses, s) && Done(ses, s))
  {
  }

  lemma {:induction false} RaisedThenDone(ses: Session, s: Submission, steps: seq<EnvStep>)
    requires Raised(ses, s) && ValidOpcode(s.opcode)
    ensures Done(EnvRun(ses, steps), s) <==> Interrupts(steps)
    decreases |steps|
  {
    assert Shaped(ses.w.dev.ring);
    hide Done, Working, Raised, EnvAfter;
    PhasesDiffer(ses, s);
    if steps != [] {
      EnvKeeps(ses, s, steps[0]);
      assert Interrupts(steps) <==> steps[0].Interrupt? || Interrupts(steps[1..]) by {
        if Interrupts(steps[1..]) {
          var b :| 0 <= b < |steps[1..]| && steps[1..][b].Interrupt?;
          assert steps[b + 1].Interrupt?;
        }
        if Interrupts(steps) && !steps[0].Interrupt? {
          var b :| 0 <= b < |steps| && steps[b].Interrupt?;
          assert steps[1..][b - 1].Interrupt?;
        }
      }
      if steps[0].Finish? {
        RaisedThenDone(ses, s, steps[1..]);
      } else {
        DoneStays(EnvAfter(ses, steps[0]), s, steps[1..]);
      }
    }
  }

  lemma DeliversHead(steps: seq<EnvStep>)
    requires steps != []
    ensures Delivers(steps) <==> if steps[0].Finish? then Interrupts(steps[1..]) else Delivers(steps[1..])
  {
    if Delivers(steps) {
      var a, b :| 0 <= a < b < |steps| && steps[a].Finish? && steps[b].Interrupt?;
      assert steps[1..][b - 1].Interrupt?;
      if steps[0].Interrupt? {
        assert steps[1..][a - 1].Finish?;
      }
    }
    if steps[0].Finish? && Interrupts(steps[1..]) {
      var b :| 0 <= b < |steps[1..]| && steps[1..][b].Interrupt?;
      assert steps[b + 1].Interrupt?;
    }
    if Delivers(steps[1..]) {
      var a, b :| 0 <= a < b < |steps[1..]| && steps[1..][a].Finish? && steps[1..][b].Interrupt?;
      assert steps[a + 1].Finish? && steps[b + 1].Interrupt?;
    }
  }

  lemma {:induction false} WorkingThenDone(ses: Session, s: Submission, steps: seq<EnvStep>)
    requires Working(ses, s) && ValidOpcode(s.opcode)
    ensures Done(EnvRun(ses, steps), s) <==> Delivers(steps)
    decreases |steps|
  {
    assert Shaped(ses.w.dev.ring);
    hide Done, Working, Raised, EnvAfter;
    PhasesDiffer(ses, s);
    if steps != [] {
      EnvKeeps(ses, s, steps[0]);
      DeliversHead(steps);
      if steps[0].Finish? {
        RaisedThenDone(EnvAfter(ses, steps[0]), s, steps[1..]);
      } else {
        WorkingThenDone(ses, s, steps[1..]);
      }
    }
  }

  lemma {:induction false} WaitFindsDone(ses: Session, s: Submission, sleeps: nat -> seq<EnvStep>, i: nat, n: nat)
    requires Underway(ses, s) && ValidOpcode(s.opcode)
    ensures WaitFrom(ses, sleeps, i, n).0.Some? <==> i < n && Done(EnvRun(ses, Meantime(sleeps, i, n)), s)
    decreases n - i
  {
    hide Done, Working, Raised, Settled, Polled, EnvAfter;
    if i < n {
      PollUnderway(ses, s);
      if Done(ses, s) {
        DoneStays(ses, s, Meantime(sleeps, i, n));
      } else {
        EnvRunKeepsUnderway(ses, s, sleeps(i));
        WaitFindsDone(EnvRun(ses, sleeps(i)), s, sleeps, i + 1, n);
        if i + 1 < n {
          EnvRunSplits(ses, sleeps(i), Meantime(sleeps, i + 1, n));
        }
      }
    }
  }

  /** A wait for a command the device works on succeeds if and only if, before
      its last poll, the device finishes and then the interrupt is delivered. */
  lemma WaitSucceedsIffDelivered(ses: Session, s: Submission, sleeps: nat -> seq<EnvStep>, n: nat)
    requires Working(ses, s) && ValidOpcode(s.opcode)
    ensures WaitFrom(ses, sleeps, 0, n).0.Some? <==> Delivers(Meantime(sleeps, 0, n))
  {
    hide Done, Working, Raised, EnvAfter;
    WaitFindsDone(ses, s, sleeps, 0, n);
    WorkingThenDone(ses, s, Meantime(sleeps, 0, n));
  }

  // The same by the sleeps themselves: sleep number b is the one after poll b.

  ghost predicate SleepsInterrupt(sleeps: nat -> seq<EnvStep>, lo: nat, hi: int) {
    exists b: nat, y: nat :: lo <= b < hi && y < |sleeps(b)| && sleeps(b)[y].Interrupt?
  }

  /** Within sleeps lo to hi - 1 the device finishes, and then interrupts. */
  ghost predicate SleepsDeliver(sleeps: nat -> seq<EnvStep>, lo: nat, hi: int) {
    exists a: nat, x: nat, b: nat, y: nat ::
      && lo <= a <= b < hi && x < |sleeps(a)| && y < |sleeps(b)| && (a < b || x < y)
      && sleeps(a)[x].Finish? && sleeps(b)[y].Interrupt?
  }

  lemma InterruptsSplit(p: seq<EnvStep>, q: seq<EnvStep>)
    ensures Interrupts(p + q) <==> Interrupts(p) || Interrupts(q)
  {
    if b :| 0 <= b < |p| && p[b].Interrupt? {
      assert (p + q)[b].Interrupt?;
    }
    if b :| 0 <= b < |q| && q[b].Interrupt? {
      assert (p + q)[|p| + b].Interrupt?;
    }
  }

  ghost predicate Finishes(steps: seq<EnvStep>) { exists a :: 0 <= a < |steps| && steps[a].Finish? }

  lemma DeliversSplit(p: seq<EnvStep>, q: seq<EnvStep>)
    ensures Delivers(p + q) <==> Delivers(p) || Delivers(q) || (Finishes(p) && Interrupts(q))
  {
    var s := p + q;
    if Delivers(s) {
      var a, b :| 0 <= a < b < |s| && s[a].Finish? && s[b].Interrupt?;
      if a >= |p| {
        assert q[a - |p|].Finish? && q[b - |p|].Interrupt?;
      } else if b >= |p| {
        assert p[a].Finish? && q[b - |p|].Interrupt?;
      } else {
        assert p[a].Finish? && p[b].Interrupt?;
      }
    }
    if a, b :| 0 <= a < b < |p| && p[a].Finish? && p[b].Interrupt? {
      assert s[a].Finish? && s[b].Interrupt?;
    }
    if a, b :| 0 <= a < b < |q| && q[a].Finish? && q[b].Interrupt? {
      assert s[|p| + a].Finish? && s[|p| + b].Interrupt?;
    }
    if Finishes(p) && Interrupts(q) {
      var a, b :| 0 <= a < |p| && p[a].Finish? && 0 <= b < |q| && q[b].Interrupt?;
      assert s[a].Finish? && s[|p| + b].Interrupt?;
    }
  }

  lemma {:induction false} MeantimeInterrupts(sleeps: nat -> seq<EnvStep>, i: nat, n: nat)
    ensures Interrupts(Meantime(sleeps, i, n)) <==> SleepsInterrupt(sleeps, i, n - 1)
    decreases n - i
  {
    if i + 1 < n {
      InterruptsSplit(sleeps(i), Meantime(sleeps, i + 1, n));
      MeantimeInterrupts(sleeps, i + 1, n);
      if y :| 0 <= y < |sleeps(i)| && sleeps(i)[y].Interrupt? {
        assert i < n - 1 && sleeps(i)[y].Interrupt?;
      }
      if SleepsInterrupt(sleeps, i, n - 1) {
        var b: nat, y: nat :| i <= b < n - 1 && y < |sleeps(b)| && sleeps(b)[y].Interrupt?;
        if b > i {
          assert i + 1 <= b;
        }
      }
    }
  }

  lemma SleepsDeliverHead(sleeps: nat -> seq<EnvStep>, i: nat, hi: int)
    requires i < hi
    ensures SleepsDeliver(sleeps, i, hi) <==>
            || Delivers(sleeps(i)) || SleepsDeliver(sleeps, i + 1, hi)
            || (Finishes(sleeps(i)) && SleepsInterrupt(sleeps, i + 1, hi))
  {
    if SleepsDeliver(sleeps, i, hi) {
      var a: nat, x: nat, b: nat, y: nat :|
        && i <= a <= b < hi && x < |sleeps(a)| && y < |sleeps(b)| && (a < b || x < y)
        && sleeps(a)[x].Finish? && sleeps(b)[y].Interrupt?;
      if a > i {
        assert i + 1 <= a <= b < hi;
      } else if b > i {
        assert sleeps(i)[x].Finish? && i + 1 <= b < hi && sleeps(b)[y].Interrupt?;
      } else {
        assert sleeps(i)[x].Finish? && sleeps(i)[y].Interrupt?;
      }
    }
    if x, y :| 0 <= x < y < |sleeps(i)| && sleeps(i)[x].Finish? && sleeps(i)[y].Interrupt? {
      assert i <= i < hi && sleeps(i)[x].Finish? && sleeps(i)[y].Interrupt?;
    }
    if Finishes(sleeps(i)) && SleepsInterrupt(sleeps, i + 1, hi) {
      var x :| 0 <= x < |sleeps(i)| && sleeps(i)[x].Finish?;
      var b: nat, y: nat :| i + 1 <= b < hi && y < |sleeps(b)| && sleeps(b)[y].Interrupt?;
      assert i <= i <= b < hi && sleeps(i)[x].Finish? && sleeps(b)[y].Interrupt?;
    }
  }

  lemma {:induction false} MeantimeDelivers(sleeps: nat -> seq<EnvStep>, i: nat, n: nat)
    ensures Delivers(Meantime(sleeps, i, n)) <==> SleepsDeliver(sleeps, i, n - 1)
    decreases n - i
  {
    if i + 1 < n {
      DeliversSplit(sleeps(i), Meantime(sleeps, i + 1, n));
      MeantimeInterrupts(sleeps, i + 1, n);
      MeantimeDelivers(sleeps, i + 1, n);
      SleepsDeliverHead(sleeps, i, n - 1);
      hide Delivers, Interrupts, Finishes, SleepsDeliver, SleepsInterrupt;
    }
  }

  /** A wait never takes more than the one completion it returns. */
  lemma {:induction false} WaitTakesOne(ses: Session, sleeps: nat -> seq<EnvStep>, i: nat, n: nat)
    requires Shaped(ses.w.dev.ring)
    ensures var (c, ses') := WaitFrom(ses, sleeps, i, n);
      ses'.w.epoch.polled == ses.w.epoch.polled + if c.Some? then [c.value] else []
    decreases n - i
  {
    if i < n {
      if Empty(ses.w.dev.ring) {
        PollNothing(ses.w);
        EnvTakesNothing(ses, sleeps(i));
        WaitTakesOne(EnvRun(ses, sleeps(i)), sleeps, i + 1, n);
      } else {
        TakeEffect(ses.w);
      }
    }
  }

  lemma {:induction false} EnvTakesNothing(ses: Session, steps: seq<EnvStep>)
    requires Shaped(ses.w.dev.ring)
    ensures EnvRun(ses, steps).w.epoch.polled == ses.w.epoch.polled
    decreases |steps|
  {
    if steps != [] {
      assert EnvAfter(ses, steps[0]).w.epoch.polled == ses.w.epoch.polled;
      EnvTakesNothing(EnvAfter(ses, steps[0]), steps[1..]);
    }
  }
}
