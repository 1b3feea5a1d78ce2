/** What the discipline guards against: a run of one client, the driver and the
    device in which a valid, accepted command is never completed. */
module EduStarvation {
  import opened Words
  import opened Slab
  import opened EduRing
  import opened EduWorld
  import opened EduFate
  import opened EduHardware
  import opened EduOrder
  import opened EduSession
  import opened EduTraffic
  import opened EduOverlap

  /** An open, a poll, what happens on its own, or a half of the submission of
      one of two commands. */
  predicate Ordinary(a: Act, s1: Submission, s2: Submission) {
    a.Own? || a.Asks? || a.Opens? || a == Kicks(0) || a == Locks(s1) || a == Locks(s2)
  }

  predicate AllOrdinary(acts: seq<Act>, s1: Submission, s2: Submission) {
    forall k :: 0 <= k < |acts| ==> Ordinary(acts[k], s1, s2)
  }

  predicate Only(f: seq<u8>, pending: set<int>) {
    |f| == RING_SIZE && forall i: Slot :: f[i] != 0 <==> i in pending
  }

  /** n commands accepted, with `late` of them not completed, the given slots
      pending, `unread` completions not polled, and one command never completed. */
  ghost predicate At(w: World, n: nat, late: nat, unread: nat, pending: set<int>, lost: nat) {
    && Shaped(w.dev.ring)
    && S(w) == n && P(w) + late == n && C(w) + unread == P(w)
    && w.dev.ring.sqTail == Masked(n)
    && w.dev.ring.cqTail == Masked(n - late)
    && w.dev.ring.cqHead == Masked(n - late - unread)
    && Only(w.dev.ring.inflight, pending)
    && |w.epoch.origin| == P(w) && lost !in w.epoch.origin
  }

  lemma SubmitAt(w: World, n: nat, late: nat, pending: set<int>, lost: nat, s: Submission)
    requires At(w, n, late, 0, pending, lost) && s.opcode != 0 && late <= 1
    ensures !Full(w.dev.ring)
    ensures At(Step(w, Submit(s)), n + 1, late + 1, 0, pending + {Masked(n)}, lost)
    ensures Step(w, Submit(s)).epoch.accepted == w.epoch.accepted + [s]
  {
    NotFullAt(w, n, late, pending, lost);
    OnlyAdd(w.dev.ring.inflight, pending, Masked(n), s.opcode);
    hide Step, Only, Full;
    Succ64(n);
    AcceptEffect(w, s);
  }

  lemma NotFullAt(w: World, n: nat, late: nat, pending: set<int>, lost: nat)
    requires At(w, n, late, 0, pending, lost) && late <= 1
    ensures !Full(w.dev.ring)
  {
    hide Only;
    Residues(n - late, n);
    Succ64(n);
  }

  lemma OnlyAdd(f: seq<u8>, pending: set<int>, i: Slot, v: u8)
    requires Only(f, pending) && v != 0
    ensures Only(f[i := v], pending + {i})
  {
  }

  lemma OnlyRemove(f: seq<u8>, pending: set<int>, i: Slot)
    requires Only(f, pending)
    ensures Only(f[i := 0], pending - {i})
  {
  }

  lemma LowestOnly(f: seq<u8>, pending: set<int>, i: Slot)
    requires Only(f, pending) && i in pending && forall j: int :: j < i ==> j !in pending
    ensures Lowest(f) == i
  {
    LowestIsScan(f, i);
  }

  lemma IrqAt(w: World, n: nat, late: nat, pending: set<int>, lost: nat, i: Slot, ev: Event)
    requires At(w, n, late, 0, pending, lost) && late >= 1 && ev.Irq? && ev.stat != 0
    requires i in pending && forall j: int :: j < i ==> j !in pending
    requires i < n && LastWriter(n, i) != lost
    ensures At(Step(w, ev), n, late - 1, 1, pending - {i}, lost)
    ensures Step(w, ev).epoch.accepted == w.epoch.accepted
  {
    hide Step, Lowest;
    LowestOnly(w.dev.ring.inflight, pending, i);
    OnlyRemove(w.dev.ring.inflight, pending, i);
    hide Only;
    Succ64(P(w));
    LastWriterRange(n, i);
    PostEffect(w, ev);
  }

  lemma PollAt(w: World, n: nat, late: nat, pending: set<int>, lost: nat)
    requires At(w, n, late, 1, pending, lost)
    ensures At(Step(w, Poll), n, late, 0, pending, lost)
    ensures Step(w, Poll).epoch.accepted == w.epoch.accepted
  {
    hide Step;
    Succ64(n - late - 1);
    Residues(n - late - 1, n - late);
    TakeEffect(w);
  }

  lemma RoundIsOrdinary(s: Submission)
    ensures AllOrdinary(Round(s), s, s)
  {
  }

  /** The device is busy, and an interrupt comes of it. */
  predicate WillRaise(hw: Hw) { hw.irqStat == 0 && !hw.job.Idle? && (hw.job.Computing? ==> hw.factIrq) }

  lemma KickRaises(hw: Hw, s: Submission)
    requires ValidOpcode(s.opcode) && (Rests(hw) || (WillRaise(hw) && hw.job == JobOf(s)))
    ensures WillRaise(Kicked(hw, s))
    ensures Finished(Kicked(hw, s)).irqStat != 0 && Finished(Kicked(hw, s)).job.Idle?
    ensures Rests(hw) ==> Kicked(hw, s).job == JobOf(s)
  {
  }

  /** One round, whether the device takes the command or is busy with an earlier
      one: the interrupt completes the lowest slot, and a higher one is left. */
  lemma RoundAt(ses: Session, n: nat, late: nat, pending: set<int>, lost: nat, s: Submission, i: Slot)
    returns (ses': Session)
    requires At(ses.w, n, late, 0, pending, lost) && (Rests(ses.hw) || (WillRaise(ses.hw) && ses.hw.job == JobOf(s)))
    requires ValidOpcode(s.opcode) && late <= 1
    requires i in pending + {Masked(n)} && forall j: int :: j < i ==> j !in pending + {Masked(n)}
    requires i <= n && LastWriter(n + 1, i) != lost
    ensures At(ses'.w, n + 1, late, 0, pending + {Masked(n)} - {i}, lost) && Rests(ses'.hw)
    ensures ses'.w.epoch.accepted == ses.w.epoch.accepted + [s]
    ensures ActRun(Alone(ses), Round(s)) == Alone(ses')
  {
    KickRaises(ses.hw, s);
    var hw := Kicked(ses.hw, s);
    var ev := Irq(Finished(hw).irqStat, Finished(hw).fact);
    SubmitAt(ses.w, n, late, pending, lost, s);
    RoundCollects(ses, s);
    var w1 := Step(ses.w, Submit(s));
    CollectedIs(w1, hw);
    hide Step, ActRun, Round, At, Full, Kicked, Finished, Collected, WillRaise;
    IrqAt(w1, n + 1, late + 1, pending + {Masked(n)}, lost, i, ev);
    PollAt(Step(w1, ev), n + 1, late, pending + {Masked(n)} - {i}, lost);
    ses' := Collected(Session(w1, hw));
  }

  lemma CollectedIs(w: World, hw: Hw)
    requires Shaped(w.dev.ring)
    ensures var hw' := Finished(hw);
      Collected(Session(w, hw)) == Session(Step(Step(w, Irq(hw'.irqStat, hw'.fact)), Poll), hw'.(irqStat := 0))
  {
    hide Step, Finished;
  }

  /** A round whose own command is the lowest. */
  lemma OwnRoundAt(ses: Session, n: nat, late: nat, pending: set<int>, lost: nat, s: Submission)
    returns (ses': Session)
    requires At(ses.w, n, late, 0, pending, lost) && (Rests(ses.hw) || (WillRaise(ses.hw) && ses.hw.job == JobOf(s)))
    requires ValidOpcode(s.opcode) && late <= 1 && lost != n
    requires forall j: int :: j in pending ==> Masked(n) < j
    ensures At(ses'.w, n + 1, late, 0, pending, lost) && Rests(ses'.hw)
    ensures ses'.w.epoch.accepted == ses.w.epoch.accepted + [s]
    ensures ActRun(Alone(ses), Round(s)) == Alone(ses')
  {
    LastWriterNew(n);
    hide At, ActRun, Round;
    var slot: int := Masked(n);
    assert pending + {slot} - {slot} == pending;
    ses' := RoundAt(ses, n, late, pending, lost, s, slot);
  }

  lemma NextInLap(n: nat)
    requires Masked(n) < 63
    ensures Masked(n + 1) == Masked(n) + 1
  {
  }

  lemma {:induction false} RoundsAt(
    ses: Session, n: nat, late: nat, pending: set<int>, lost: nat, s: Submission, m: nat)
    returns (acts: seq<Act>, ses': Session)
    requires At(ses.w, n, late, 0, pending, lost) && Rests(ses.hw)
    requires ValidOpcode(s.opcode) && late <= 1
    requires lost < n || n + m <= lost
    requires pending <= {63} && Masked(n) + m <= 63
    ensures At(ses'.w, n + m, late, 0, pending, lost) && Rests(ses'.hw)
    ensures ses.w.epoch.accepted <= ses'.w.epoch.accepted
    ensures ActRun(Alone(ses), acts) == Alone(ses') && AllOrdinary(acts, s, s)
    decreases m
  {
    assert Shaped(ses.w.dev.ring);
    if m == 0 {
      acts, ses' := [], ses;
    } else {
      NextInLap(n);
      assert forall j: int :: j in pending ==> Masked(n) < j;
      hide At, ActRun, Round, AllOrdinary, Rests, WillRaise, Masked;
      var ses1 := OwnRoundAt(ses, n, late, pending, lost, s);
      var rest;
      rest, ses' := RoundsAt(ses1, n + 1, late, pending, lost, s, m - 1);
      acts := Round(s) + rest;
      RoundThen(ses, s, ses1, rest, ses');
    }
  }

  lemma {:induction false} RoundThen(ses: Session, s: Submission, ses1: Session, rest: seq<Act>, ses': Session)
    requires Shaped(ses.w.dev.ring) && Shaped(ses1.w.dev.ring) && AllOrdinary(rest, s, s)
    requires ActRun(Alone(ses), Round(s)) == Alone(ses1) && ActRun(Alone(ses1), rest) == Alone(ses')
    ensures ActRun(Alone(ses), Round(s) + rest) == Alone(ses') && AllOrdinary(Round(s) + rest, s, s)
  {
    RoundIsOrdinary(s);
    hide ActRun, Round, AllOrdinary;
    ActRunSplits(Alone(ses), Round(s), rest);
    OrdinaryJoins(Round(s), rest, s, s);
  }

  /** From any state with the device at rest, after an open and a lap of ordinary
      rounds: command 64 wraps to slot 0 before the interrupt of command 63, and
      takes it, so that 65 finds the device busy. Every interrupt, each the
      device's own, then completes a younger command, until command 127
      overwrites slot 63: command 63 was accepted, 127 others are completed, and
      it never will be. */
  lemma StarvedCommandIsLost(on: Session, early: Submission, s: Submission) returns (acts: seq<Act>, ses: Session)
    requires Shaped(on.w.dev.ring) && Rests(on.hw)
    requires ValidOpcode(early.opcode) && ValidOpcode(s.opcode)
    ensures ActRun(Alone(on), acts) == Alone(ses) && AllOrdinary(acts, early, s)
    ensures S(ses.w) == 128 && ses.w.epoch.accepted[63] == early
    ensures P(ses.w) == 127 && 63 !in ses.w.epoch.origin
    ensures Quiet(ses.w.dev.ring) && Lost(ses.w, 63) && Rests(ses.hw)
  {
    var a1, ses1 := FillOneLap(on, early, s);
    var a2, ses2 := Starve(ses1, early, s);
    ActRunSplits(Alone(on), a1, a2);
    acts, ses := a1 + a2, ses2;
    assert ses2.w.dev.ring.inflight[Masked(63)] == 0;
    hide ActRun;
  }

  /** Losing nothing takes less than keeping the order: with command 63 pending,
      the submission that wraps goes against the order, but to an idle slot. */
  lemma OrderIsMoreThanNeeded(on: Session, early: Submission, s: Submission) returns (acts: seq<Act>, ses: Session)
    requires Shaped(on.w.dev.ring) && Rests(on.hw)
    requires ValidOpcode(early.opcode) && ValidOpcode(s.opcode)
    ensures ActRun(Alone(on), acts) == Alone(ses) && AllOrdinary(acts, early, s)
    ensures Accepts(ses.w.dev, Submit(s)) && !Allowed(ses.w.dev, Submit(s)) && Spares(ses.w.dev, Submit(s))
  {
    acts, ses := FillOneLap(on, early, s);
    NotFullAt(ses.w, 64, 1, {63}, 63);
    assert ses.w.dev.ring.inflight[63] != 0;
    hide ActRun, AllOrdinary, Full;
  }

  lemma FillOneLap(on: Session, early: Submission, s: Submission) returns (acts: seq<Act>, ses: Session)
    requires Shaped(on.w.dev.ring) && Rests(on.hw)
    requires ValidOpcode(early.opcode) && ValidOpcode(s.opcode)
    ensures At(ses.w, 64, 1, 0, {63}, 63) && ses.w.epoch.accepted[63] == early
    ensures WillRaise(ses.hw)
    ensures ActRun(Alone(on), acts) == Alone(ses) && AllOrdinary(acts, early, s)
  {
    hide ActRun, ActAfter;
    var ses1 := OpenAt(on);
    var a2, ses2 := RoundsAt(ses1, 0, 0, {}, 63, s, 63);
    ActRunSplits(Alone(on), [Opens], a2);
    var ses3 := LeaveBehind(ses2, early);
    ActRunSplits(Alone(on), [Opens] + a2, [Locks(early), Kicks(0)]);
    acts, ses := [Opens] + a2 + [Locks(early), Kicks(0)], ses3;
  }

  lemma {:induction false} OrdinaryJoins(a: seq<Act>, b: seq<Act>, s1: Submission, s2: Submission)
    requires AllOrdinary(a, s2, s2) && AllOrdinary(b, s2, s2)
    ensures AllOrdinary(a + b, s2, s2) && AllOrdinary(a + b, s1, s2)
  {
  }

  lemma Starve(ses: Session, early: Submission, s: Submission) returns (acts: seq<Act>, ses': Session)
    requires At(ses.w, 64, 1, 0, {63}, 63) && ses.w.epoch.accepted[63] == early && WillRaise(ses.hw)
    requires ValidOpcode(s.opcode)
    ensures At(ses'.w, 128, 1, 0, {}, 63) && ses'.w.epoch.accepted[63] == early && Rests(ses'.hw)
    ensures ActRun(Alone(ses), acts) == Alone(ses') && AllOrdinary(acts, early, s)
  {
    assert Shaped(ses.w.dev.ring) && S(ses.w) == 64 && AllOrdinary(OvertakeActs(s), s, s);
    hide ActRun, At, Rests, WillRaise, AllOrdinary, OvertakeActs;
    var ses1 := Overtake(ses, s);
    var rest;
    rest, ses' := FinishLap(ses1, s);
    ActRunSplits(Alone(ses), OvertakeActs(s), rest);
    OrdinaryJoins(OvertakeActs(s), rest, early, s);
    acts := OvertakeActs(s) + rest;
  }

  lemma FinishLap(ses: Session, s: Submission) returns (acts: seq<Act>, ses': Session)
    requires At(ses.w, 65, 1, 0, {63}, 63) && WillRaise(ses.hw) && ses.hw.job == JobOf(s)
    requires ValidOpcode(s.opcode)
    ensures At(ses'.w, 128, 1, 0, {}, 63) && Rests(ses'.hw)
    ensures ses.w.epoch.accepted <= ses'.w.epoch.accepted
    ensures ActRun(Alone(ses), acts) == Alone(ses') && AllOrdinary(acts, s, s)
  {
    assert Shaped(ses.w.dev.ring);
    RoundIsOrdinary(s);
    LastWriterNew(127);
    assert {63} + {Masked(127)} == {63} && {63} - {63} == {};
    hide ActRun, Round, At, Rests, WillRaise, AllOrdinary;
    var ses1 := OwnRoundAt(ses, 65, 1, {63}, 63, s);
    var more, ses2 := RoundsAt(ses1, 66, 1, {63}, 63, s, 61);
    ses' := RoundAt(ses2, 127, 1, {63}, 63, s, 63);
    ActRunSplits(Alone(ses), Round(s), more);
    ActRunSplits(Alone(ses), Round(s) + more, Round(s));
    OrdinaryJoins(Round(s), more, s, s);
    OrdinaryJoins(Round(s) + more, Round(s), s, s);
    acts := Round(s) + more + Round(s);
  }

  /** A command is submitted between the end of the one before and its interrupt. */
  function OvertakeActs(s: Submission): seq<Act> {
    [Own(Finish)] + [Locks(s), Kicks(0)] + [Own(Interrupt), Asks]
  }

  lemma Overtake(ses: Session, s: Submission) returns (ses': Session)
    requires At(ses.w, 64, 1, 0, {63}, 63) && WillRaise(ses.hw) && ValidOpcode(s.opcode)
    ensures At(ses'.w, 65, 1, 0, {63}, 63) && WillRaise(ses'.hw) && ses'.hw.job == JobOf(s)
    ensures ses'.w.epoch.accepted == ses.w.epoch.accepted + [s]
    ensures ActRun(Alone(ses), OvertakeActs(s)) == Alone(ses')
  {
    assert Shaped(ses.w.dev.ring);
    var hw1 := Finished(ses.hw);
    var hw2 := Kicked(hw1, s);
    assert hw1.job.Idle? && hw1.irqStat != 0 && hw2.irqStat == hw1.irqStat && WillRaise(hw2.(irqStat := 0));
    assert hw2.job == JobOf(s);
    var ev := Irq(hw2.irqStat, hw2.fact);
    LastWriterNew(64);
    assert {63} + {Masked(64)} - {Masked(64)} == {63};
    SubmitAt(ses.w, 64, 1, {63}, 63, s);
    OvertakeRuns(ses, s);
    hide Step, ActRun, At, Full, Kicked, Finished, WillRaise, JobOf;
    var w1 := Step(ses.w, Submit(s));
    IrqAt(w1, 65, 2, {63} + {Masked(64)}, 63, 0, ev);
    PollAt(Step(w1, ev), 65, 1, {63} + {Masked(64)} - {Masked(64)}, 63);
    ses' := Polled(EnvAfter(Session(w1, hw2), Interrupt));
  }

  lemma OvertakeRuns(ses: Session, s: Submission)
    requires Shaped(ses.w.dev.ring) && !Full(ses.w.dev.ring)
    ensures var sent := Session(Step(ses.w, Submit(s)), Kicked(Finished(ses.hw), s));
      ActRun(Alone(ses), OvertakeActs(s)) == Alone(Polled(EnvAfter(sent, Interrupt)))
  {
    var ses1 := EnvAfter(ses, Finish);
    OneAct(Alone(ses), Own(Finish));
    ActRunSplits(Alone(ses), [Own(Finish)], [Locks(s), Kicks(0)]);
    SendsAtOnce(ses1, s);
    ActRunSplits(Alone(ses), [Own(Finish)] + [Locks(s), Kicks(0)], [Own(Interrupt), Asks]);
    TwoActs(Alone(SentAtOnce(ses1, s)), Own(Interrupt), Asks);
    hide ActRun, Step, Full, Kicked, Finished;
  }

  lemma OpenAt(ses: Session) returns (ses': Session)
    requires Shaped(ses.w.dev.ring)
    ensures ActRun(Alone(ses), [Opens]) == Alone(ses') && ses'.hw == ses.hw
    ensures At(ses'.w, 0, 0, 0, {}, 63)
  {
    ses' := ActAfter(Alone(ses), Opens).ses;
    OneAct(Alone(ses), Opens);
  }

  lemma LeaveBehind(ses: Session, early: Submission) returns (ses': Session)
    requires At(ses.w, 63, 0, 0, {}, 63) && ValidOpcode(early.opcode) && Rests(ses.hw)
    ensures At(ses'.w, 64, 1, 0, {63}, 63) && WillRaise(ses'.hw)
    ensures ses'.w.epoch.accepted == ses.w.epoch.accepted + [early]
    ensures ActRun(Alone(ses), [Locks(early), Kicks(0)]) == Alone(ses')
  {
    SubmitAt(ses.w, 63, 0, {}, 63, early);
    SendsAtOnce(ses, early);
    KickRaises(ses.hw, early);
    assert {} + {63} == {63};
    ses' := SentAtOnce(ses, early);
    hide Step, ActRun, Full;
  }
}
