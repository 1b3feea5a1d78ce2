/** Several commands outstanding at a device that takes one at a time: a kick
    that finds it busy is ignored, and what that does to the later answers. */
module EduOverlap {
  import opened Words
  import opened Slab
  import opened EduRing
  import opened EduWorld
  import opened EduOrder
  import opened EduHardware
  import opened EduSession
  import opened EduTraffic

  // --- Ignored kicks are never made good ---------------------------------------

  /** The step is a kick that finds the device busy. */
  predicate Ignores(t: Traffic, a: Act) {
    a.Kicks? && a.turn < |t.owed| && ValidOpcode(t.owed[a.turn].opcode) && !t.ses.hw.job.Idle?
  }

  function Ignored(t: Traffic, acts: seq<Act>): nat
    requires Shaped(t.ses.w.dev.ring)
    decreases |acts|
  {
    if acts == [] then 0
    else (if Ignores(t, acts[0]) then 1 else 0) + Ignored(ActAfter(t, acts[0]), acts[1..])
  }

  /** How many interrupts the device still has in it, at most. */
  function InHand(hw: Hw): nat { (if hw.job.Idle? then 0 else 1) + if hw.irqStat == 0 then 0 else 1 }

  /** k commands are accepted and not completed, and neither is their kick to
      come nor are they in the device's hands. */
  predicate Behind(t: Traffic, k: nat) { P(t.ses.w) + InHand(t.ses.hw) + |t.owed| + k <= S(t.ses.w) }

  lemma EnvKeepsBehind(t: Traffic, e: EnvStep, k: nat)
    requires Shaped(t.ses.w.dev.ring) && Behind(t, k)
    ensures Behind(ActAfter(t, Own(e)), k)
  {
  }

  lemma LockKeepsBehind(t: Traffic, s: Submission, k: nat)
    requires Shaped(t.ses.w.dev.ring) && Behind(t, k)
    ensures Behind(ActAfter(t, Locks(s)), k)
  {
    if Full(t.ses.w.dev.ring) {
      assert ActAfter(t, Locks(s)).ses.w.epoch == t.ses.w.epoch;
    } else {
      AcceptEffect(t.ses.w, s);
      hide Step, Full;
    }
  }

  lemma ActKeepsBehind(t: Traffic, a: Act, k: nat)
    requires Shaped(t.ses.w.dev.ring) && Behind(t, k) && !a.Opens?
    ensures Behind(ActAfter(t, a), if Ignores(t, a) then k + 1 else k)
  {
    match a {
      case Locks(s) => LockKeepsBehind(t, s, k);
      case Kicks(i) =>
        if i < |t.owed| {
          KickMovesNothing(t.ses.w, t.owed[i].opcode);
          hide Step;
        }
      case Own(e) => EnvKeepsBehind(t, e, k);
      case Asks =>
    }
  }

  lemma {:induction false} RunKeepsBehind(t: Traffic, acts: seq<Act>, k: nat)
    requires Shaped(t.ses.w.dev.ring) && Behind(t, k)
    requires forall i :: 0 <= i < |acts| ==> !acts[i].Opens?
    ensures Behind(ActRun(t, acts), k + Ignored(t, acts))
    decreases |acts|
  {
    hide ActAfter, Behind, Ignores;
    if acts != [] {
      ActKeepsBehind(t, acts[0], k);
      RunKeepsBehind(ActAfter(t, acts[0]), acts[1..], if Ignores(t, acts[0]) then k + 1 else k);
    }
  }

  /** Whatever any threads do from a settled session on, short of an open, for
      each kick that was ignored one accepted command is left uncompleted. */
  lemma {:induction false} IgnoredKicksAreNotMadeGood(ses: Session, acts: seq<Act>)
    requires Settled(ses)
    requires forall i :: 0 <= i < |acts| ==> !acts[i].Opens?
    ensures var t := ActRun(Alone(ses), acts);
      P(t.ses.w) + Ignored(Alone(ses), acts) + |t.owed| <= S(t.ses.w)
  {
    RunKeepsBehind(Alone(ses), acts, 0);
    hide ActRun, Ignored;
  }

  // --- Two commands at once -----------------------------------------------------

  /** A DMA command takes the status register's interrupt enable away from a
      factorial under way: no interrupt comes of either. */
  predicate Silenced(hw: Hw) { hw.irqStat == 0 && (hw.job.Idle? || (hw.job.Computing? && !hw.factIrq)) }

  lemma {:induction false} SilencedStays(ses: Session, steps: seq<EnvStep>)
    requires Shaped(ses.w.dev.ring) && Silenced(ses.hw)
    ensures EnvRun(ses, steps).w == ses.w
    decreases |steps|
  {
    if steps != [] {
      NothingToHandle(ses.w, ses.hw.fact);
      SilencedStays(EnvAfter(ses, steps[0]), steps[1..]);
    }
  }

  /** So neither command is ever completed while nothing else is submitted. */
  lemma DmaKickSilencesFactorial(t: Traffic, i: nat, steps: seq<EnvStep>)
    requires Shaped(t.ses.w.dev.ring) && i < |t.owed| && t.owed[i].opcode == OP_DMA_TEST
    requires t.ses.hw.job.Computing? && t.ses.hw.irqStat == 0
    ensures EnvRun(ActAfter(t, Kicks(i)).ses, steps).w == t.ses.w
  {
    KickMovesNothing(t.ses.w, t.owed[i].opcode);
    hide Step, EnvRun;
    SilencedStays(ActAfter(t, Kicks(i)).ses, steps);
  }

  /** Two threads take slots, and then kick, in that order or crossed. */
  function TwoThreads(a: Submission, b: Submission, crossed: bool): seq<Act> {
    [Locks(a), Locks(b)] + [Kicks(if crossed then 1 else 0), Kicks(0)] + [Own(Finish), Own(Interrupt)]
  }

  /** The device computes for the thread that kicks first, and the lowest slot
      gets the result: with the kicks crossed, one command's tag comes with the
      other's result, and so it does where the second slot wraps. */
  lemma FirstKickFillsLowestSlot(ses: Session, a: Submission, b: Submission, crossed: bool)
    requires Settled(ses) && a.opcode == OP_FACTORIAL && b.opcode == OP_FACTORIAL
    ensures var first := if crossed then b else a;
      var lowest := if ses.w.dev.ring.sqTail == RING_SIZE - 1 then b else a;
      var t := ActRun(Alone(ses), TwoThreads(a, b, crossed));
      && t.owed == [] && Rests(t.ses.hw) && S(t.ses.w) == P(t.ses.w) + 1
      && t.ses.w.epoch.posted == ses.w.epoch.posted + [CqEntry(lowest.tag, 0, 0, FactU32(first.operand), 0)]
      && (t.ses.w.epoch.posted[P(ses.w)].result == Expected(lowest).result <==>
          FactU32(first.operand) == FactU32(lowest.operand))
  {
    var first, lowest := if crossed then b else a, if ses.w.dev.ring.sqTail == RING_SIZE - 1 then b else a;
    var w2 := TwoLocked(ses.w, a, b, lowest);
    TwoKicked(ses, a, b, crossed, w2);
    var hw := ses.hw.(job := Computing(first.operand), factIrq := true);
    var t2 := Traffic(Session(w2, hw), []);
    var start: seq<Act> := [Locks(a), Locks(b)] + [Kicks(if crossed then 1 else 0), Kicks(0)];
    ActRunSplits(Alone(ses), start, [Own(Finish), Own(Interrupt)]);
    TwoActs(t2, Own(Finish), Own(Interrupt));
    LowestServed(w2, lowest, FACT_IRQ, FactU32(first.operand));
    hide Step, Settled, ActRun, IndexInv;
  }

  lemma TwoLocked(w: World, a: Submission, b: Submission, lowest: Submission) returns (w2: World)
    requires IndexInv(w) && Quiet(w.dev.ring) && S(w) == P(w) == C(w) && a.opcode != 0 && b.opcode != 0
    requires lowest == if w.dev.ring.sqTail == RING_SIZE - 1 then b else a
    ensures !Full(w.dev.ring) && !Full(Step(w, Submit(a)).dev.ring)
    ensures w2 == Step(Step(w, Submit(a)), Submit(b)) && LowestHolds(w2, lowest)
    ensures S(w2) == S(w) + 2 && P(w2) == P(w) && w2.epoch.posted == w.epoch.posted
  {
    var r, tail := w.dev.ring, w.dev.ring.sqTail;
    w2 := TwoAccepted(w, a, b);
    LowestOfTwo(r.inflight, tail, a.opcode, b.opcode);
    assert tail == 63 ==> Next(tail) == 0;
    assert Shaped(r);
    hide Step, Full, IndexInv, Quiet, Lowest, Masked;
  }

  lemma TwoAccepted(w: World, a: Submission, b: Submission) returns (w2: World)
    requires IndexInv(w) && S(w) == P(w) == C(w)
    ensures !Full(w.dev.ring) && !Full(Step(w, Submit(a)).dev.ring)
    ensures w2 == Step(Step(w, Submit(a)), Submit(b)) && Shaped(w2.dev.ring)
    ensures S(w2) == S(w) + 2 && P(w2) == P(w) && w2.epoch.posted == w.epoch.posted
    ensures var r, i, j := w.dev.ring, w.dev.ring.sqTail, Next(w.dev.ring.sqTail);
      && w2.dev.ring.sq == r.sq[i := Entry(a)][j := Entry(b)]
      && w2.dev.ring.inflight == r.inflight[i := a.opcode][j := b.opcode]
  {
    var w1, tail := Step(w, Submit(a)), w.dev.ring.sqTail;
    IndexTests(w);
    AcceptEffect(w, a);
    IndexStep(w, Submit(a));
    IndexTests(w1);
    AcceptEffect(w1, b);
    w2 := Step(w1, Submit(b));
    assert Masked(tail) == tail && Masked(Next(tail)) == Next(tail);
    assert Shaped(w2.dev.ring);
    hide Step, Full, IndexInv, Masked;
  }

  lemma LowestOfTwo(f: seq<u8>, tail: Slot, a: u8, b: u8)
    requires |f| == RING_SIZE && a != 0 && b != 0 && forall i :: 0 <= i < |f| ==> f[i] == 0
    ensures Lowest(f[tail := a][Next(tail) := b]) == if tail == 63 then 0 else tail
  {
    LowestIsScan(f[tail := a][Next(tail) := b], if tail == 63 then 0 else tail);
  }

  ghost predicate LowestHolds(w: World, s: Submission) {
    && Shaped(w.dev.ring) && S(w) >= 1
    && Lowest(w.dev.ring.inflight) < RING_SIZE
    && w.dev.ring.sq[Lowest(w.dev.ring.inflight)] == Entry(s)
  }

  lemma LowestServed(w: World, s: Submission, stat: u32, fact: u32)
    requires LowestHolds(w, s) && stat != 0
    ensures var w' := Step(w, Irq(stat, fact));
      && S(w') == S(w) && P(w') == P(w) + 1
      && w'.epoch.posted == w.epoch.posted + [Completed(Entry(s), fact)]
  {
  }

  lemma TwoKicked(ses: Session, a: Submission, b: Submission, crossed: bool, w2: World)
    requires Shaped(ses.w.dev.ring) && Rests(ses.hw) && a.opcode == OP_FACTORIAL && b.opcode == OP_FACTORIAL
    requires !Full(ses.w.dev.ring) && !Full(Step(ses.w, Submit(a)).dev.ring)
    requires w2 == Step(Step(ses.w, Submit(a)), Submit(b))
    ensures var first := if crossed then b else a;
      ActRun(Alone(ses), [Locks(a), Locks(b)] + [Kicks(if crossed then 1 else 0), Kicks(0)]) ==
      Traffic(Session(w2, ses.hw.(job := Computing(first.operand), factIrq := true)), [])
  {
    TwoActs(Alone(ses), Locks(a), Locks(b));
    assert [] + [a] == [a] && [a] + [b] == [a, b];
    hide Step, ActRun, Full;
    ActRunSplits(Alone(ses), [Locks(a), Locks(b)], [Kicks(if crossed then 1 else 0), Kicks(0)]);
    KicksOfTwo(ses.(w := w2), a, b, crossed);
  }

  lemma KicksOfTwo(ses: Session, a: Submission, b: Submission, crossed: bool)
    requires Shaped(ses.w.dev.ring) && Rests(ses.hw) && a.opcode == OP_FACTORIAL && b.opcode == OP_FACTORIAL
    ensures var first := if crossed then b else a;
      ActRun(Traffic(ses, [a, b]), [Kicks(if crossed then 1 else 0), Kicks(0)]) ==
      Traffic(ses.(hw := ses.hw.(job := Computing(first.operand), factIrq := true)), [])
  {
    TwoActs(Traffic(ses, [a, b]), Kicks(if crossed then 1 else 0), Kicks(0));
    KickMovesNothing(ses.w, OP_FACTORIAL);
    assert [a, b][..0] + [a, b][1..] == [b] && [a, b][..1] + [a, b][2..] == [a];
    assert [a][..0] + [a][1..] == [] && [b][..0] + [b][1..] == [];
    hide Step, ActRun;
  }

  // --- And every later answer lags ---------------------------------------------

  /** The commands of `line` are pending, on successive slots. */
  ghost predicate InLine(w: World, line: seq<Submission>) {
    && IndexInv(w) && C(w) == P(w) && S(w) == P(w) + |line|
    && OneLap(w.dev.ring.inflight, P(w), S(w))
    && Masked(P(w)) + |line| <= RING_SIZE
    && EntriesAt(w.dev.ring.sq, Masked(P(w)), line)
  }

  ghost predicate EntriesAt(sq: seq<SqEntry>, first: Slot, line: seq<Submission>) {
    && |sq| == RING_SIZE && first + |line| <= RING_SIZE
    && forall k :: 0 <= k < |line| ==> sq[first + k] == Entry(line[k])
  }

  lemma {:induction false} LineJoined(w: World, line: seq<Submission>, s: Submission)
    requires InLine(w, line) && s.opcode != 0 && Masked(P(w)) + |line| < RING_SIZE - 1
    ensures !Full(w.dev.ring)
    ensures InLine(Step(w, Submit(s)), line + [s])
    ensures Step(w, Submit(s)).epoch.polled == w.epoch.polled
  {
    hide Step, OneLap, Full;
    IndexTests(w);
    AcceptEffect(w, s);
    IndexStep(w, Submit(s));
    MaskedInLap(P(w), S(w));
    var first := Masked(P(w));
    LapAccept(w.dev.ring.inflight, P(w), S(w), s.opcode);
    assert EntriesAt(w.dev.ring.sq[first + |line| := Entry(s)], first, line + [s]);
  }

  lemma {:induction false} LineServed(w: World, line: seq<Submission>, stat: u32, fact: u32)
    requires InLine(w, line) && line != [] && stat != 0
    requires Masked(P(w)) + |line| < RING_SIZE
    ensures var w' := Step(Step(w, Irq(stat, fact)), Poll);
      && InLine(w', line[1..])
      && Masked(P(w')) == Masked(P(w)) + 1
      && w'.epoch.polled == w.epoch.polled + [ToCompletion(Completed(Entry(line[0]), fact))]
  {
    var w1, f := Step(w, Irq(stat, fact)), w.dev.ring.inflight;
    LowestOfLap(f, P(w), S(w));
    WriterOfOldest(P(w), S(w));
    PostEffect(w, Irq(stat, fact));
    IndexStep(w, Irq(stat, fact));
    LapPost(f, P(w), S(w));
    MaskedInLap(P(w), P(w) + 1);
    hide Step, OneLap, Lowest;
    LinePolled(w1, line, Completed(Entry(line[0]), fact));
  }

  lemma {:induction false} LinePolled(w: World, line: seq<Submission>, done: CqEntry)
    requires IndexInv(w) && line != [] && P(w) == C(w) + 1 && S(w) == C(w) + |line|
    requires OneLap(w.dev.ring.inflight, P(w), S(w))
    requires Masked(C(w)) + |line| < RING_SIZE && EntriesAt(w.dev.ring.sq, Masked(C(w)), line)
    requires w.dev.ring.cq[Masked(C(w))] == done
    ensures var w' := Step(w, Poll);
      && InLine(w', line[1..])
      && Masked(P(w')) == Masked(C(w)) + 1
      && w'.epoch.polled == w.epoch.polled + [ToCompletion(done)]
  {
    IndexTests(w);
    TakeEffect(w);
    IndexStep(w, Poll);
    MaskedInLap(C(w), P(w));
    EntriesMoveOn(w.dev.ring.sq, Masked(C(w)), line);
    assert Masked(w.dev.ring.cqHead) == Masked(C(w));
    assert Shaped(w.dev.ring);
    hide Step, OneLap, EntriesAt, IndexInv, Masked, ToCompletion;
  }

  lemma {:induction false} EntriesMoveOn(sq: seq<SqEntry>, first: Slot, line: seq<Submission>)
    requires EntriesAt(sq, first, line) && line != [] && first + |line| < RING_SIZE
    ensures EntriesAt(sq, first + 1, line[1..])
  {
  }

  /** Submit a command, let the device do what it will, poll. */
  function Round(s: Submission): seq<Act> { [Locks(s), Kicks(0)] + [Own(Finish), Own(Interrupt), Asks] }

  function Rounds(subs: seq<Submission>): seq<Act> {
    if subs == [] then [] else Round(subs[0]) + Rounds(subs[1..])
  }

  predicate Factorials(subs: seq<Submission>) { forall k :: 0 <= k < |subs| ==> subs[k].opcode == OP_FACTORIAL }

  /** A submission whose halves follow each other at once. */
  function SentAtOnce(ses: Session, s: Submission): (ses': Session)
    requires Shaped(ses.w.dev.ring)
    ensures Shaped(ses'.w.dev.ring)
  {
    Session(Step(ses.w, Submit(s)), Kicked(ses.hw, s))
  }

  lemma SendsAtOnce(ses: Session, s: Submission)
    requires Shaped(ses.w.dev.ring) && !Full(ses.w.dev.ring)
    ensures ActRun(Alone(ses), [Locks(s), Kicks(0)]) == Alone(SentAtOnce(ses, s))
  {
    TwoActs(Alone(ses), Locks(s), Kicks(0));
    KickMovesNothing(Step(ses.w, Submit(s)), s.opcode);
    assert [s][..0] + [s][1..] == [] && [] + [s] == [s];
    hide Step, ActRun, Full;
  }

  /** The device finishes, interrupts, and is polled. */
  function Collected(ses: Session): (ses': Session)
    requires Shaped(ses.w.dev.ring)
    ensures Shaped(ses'.w.dev.ring)
  {
    Polled(EnvAfter(EnvAfter(ses, Finish), Interrupt))
  }

  lemma ThreeCollect(ses: Session)
    requires Shaped(ses.w.dev.ring)
    ensures ActRun(Alone(ses), [Own(Finish), Own(Interrupt), Asks]) == Alone(Collected(ses))
  {
    var t := Alone(EnvAfter(ses, Finish));
    assert [Own(Finish)] + [Own(Interrupt), Asks] == [Own(Finish), Own(Interrupt), Asks];
    OneMoreAct(Alone(ses), Own(Finish), [Own(Interrupt), Asks]);
    TwoActs(t, Own(Interrupt), Asks);
    hide EnvAfter, Polled, ActRun;
  }

  lemma RoundCollects(ses: Session, s: Submission)
    requires Shaped(ses.w.dev.ring) && !Full(ses.w.dev.ring)
    ensures ActRun(Alone(ses), Round(s)) == Alone(Collected(SentAtOnce(ses, s)))
  {
    hide ActRun, Collected, SentAtOnce, Full;
    ActRunSplits(Alone(ses), [Locks(s), Kicks(0)], [Own(Finish), Own(Interrupt), Asks]);
    SendsAtOnce(ses, s);
    ThreeCollect(SentAtOnce(ses, s));
  }

  lemma {:induction false} LineCollected(ses: Session, line: seq<Submission>, n: u32)
    requires InLine(ses.w, line) && line != [] && Masked(P(ses.w)) + |line| < RING_SIZE
    requires ses.hw.job == Computing(n) && ses.hw.factIrq && ses.hw.irqStat == 0
    ensures var ses' := Collected(ses);
      && InLine(ses'.w, line[1..]) && Rests(ses'.hw) && Masked(P(ses'.w)) == Masked(P(ses.w)) + 1
      && ses'.w.epoch.polled == ses.w.epoch.polled + [Answer(line[0], n)]
  {
    LineServed(ses.w, line, FACT_IRQ, FactU32(n));
    hide Step, InLine;
  }

  /** The command's tag, with the factorial of the number the device was given. */
  function Answer(s: Submission, n: u32): Completion {
    Completion(s.tag, 0, if s.opcode == OP_FACTORIAL then FactU32(n) else 0)
  }

  /** One more command to a device at rest, with `line` left pending: it is the
      new one that the device computes, and the oldest one that gets the result. */
  lemma {:induction false} LaggedRound(ses: Session, line: seq<Submission>, s: Submission) returns (ses': Session)
    requires InLine(ses.w, line) && Rests(ses.hw) && s.opcode == OP_FACTORIAL
    requires Masked(P(ses.w)) + |line| < RING_SIZE - 1
    ensures ActRun(Alone(ses), Round(s)) == Alone(ses')
    ensures InLine(ses'.w, (line + [s])[1..]) && Rests(ses'.hw) && Masked(P(ses'.w)) == Masked(P(ses.w)) + 1
    ensures ses'.w.epoch.polled == ses.w.epoch.polled + [Answer((line + [s])[0], s.operand)]
  {
    LineJoined(ses.w, line, s);
    RoundCollects(ses, s);
    hide InLine, Step, ActRun, Full, Collected;
    var sent := SentAtOnce(ses, s);
    LineKeepsPlace(ses.w, line, s);
    LineCollected(sent, line + [s], s.operand);
    ses' := Collected(sent);
  }

  lemma LineKeepsPlace(w: World, line: seq<Submission>, s: Submission)
    requires Shaped(w.dev.ring)
    ensures P(Step(w, Submit(s))) == P(w)
  {
  }

  function Lagged(line: seq<Submission>, subs: seq<Submission>): (c: seq<Completion>)
    requires |line| >= |subs|
    ensures |c| == |subs|
    ensures forall k :: 0 <= k < |subs| ==> c[k] == Answer(line[k], subs[k].operand)
  {
    if subs == [] then [] else [Answer(line[0], subs[0].operand)] + Lagged(line[1..], subs[1..])
  }

  lemma {:induction false} AnswersLag(ses: Session, line: seq<Submission>, subs: seq<Submission>)
    returns (ses': Session)
    requires InLine(ses.w, line) && Rests(ses.hw) && Factorials(subs)
    requires Masked(P(ses.w)) + |line| + |subs| < RING_SIZE
    ensures ActRun(Alone(ses), Rounds(subs)) == Alone(ses')
    ensures InLine(ses'.w, (line + subs)[|subs|..]) && Rests(ses'.hw)
    ensures ses'.w.epoch.polled == ses.w.epoch.polled + Lagged(line + subs, subs)
    decreases |subs|
  {
    assert Shaped(ses.w.dev.ring);
    if subs == [] {
      assert (line + subs)[|subs|..] == line;
      ses' := ses;
    } else {
      var next, rest, s := (line + [subs[0]])[1..], subs[1..], subs[0];
      assert s.opcode == OP_FACTORIAL && Factorials(rest);
      hide InLine, ActRun, Rests, Lagged, Rounds, Round, Answer, Masked, Factorials;
      LagCons(line, subs);
      var ses1 := LaggedRound(ses, line, s);
      ses' := AnswersLag(ses1, next, rest);
      ActRunSplits(Alone(ses), Round(s), Rounds(rest));
      LaggedTogether(ses.w.epoch.polled, line, subs);
    }
  }

  lemma LaggedTogether(polled: seq<Completion>, line: seq<Submission>, subs: seq<Submission>)
    requires subs != []
    ensures var next, rest, s := (line + [subs[0]])[1..], subs[1..], subs[0];
      polled + [Answer((line + [s])[0], s.operand)] + Lagged(next + rest, rest) == polled + Lagged(line + subs, subs)
  {
    LagCons(line, subs);
    hide Lagged, Answer;
  }

  lemma LagCons(line: seq<Submission>, subs: seq<Submission>)
    requires subs != []
    ensures var next, rest, s := (line + [subs[0]])[1..], subs[1..], subs[0];
      && (line + subs)[|subs|..] == (next + rest)[|rest|..]
      && Rounds(subs) == Round(s) + Rounds(rest)
      && Lagged(line + subs, subs) == [Answer((line + [s])[0], s.operand)] + Lagged(next + rest, rest)
  {
    var next, rest, s := (line + [subs[0]])[1..], subs[1..], subs[0];
    assert (line + subs)[1..] == next + rest && (line + subs)[0] == (line + [s])[0];
  }

  /** Two factorials submitted at once, and then any number of them one at a
      time, as long as the slots do not wrap: the second kick is ignored, and
      every later completion pairs the tag of one command with the result of the
      next. A tag gets its own result exactly when the two results are equal; and
      when the device is at rest again, the last command stays pending whatever
      happens. */
  lemma {:induction false} OneIgnoredKickShiftsResults(
    ses: Session, a: Submission, b: Submission, subs: seq<Submission>) returns (ses': Session)
    requires Settled(ses) && a.opcode == OP_FACTORIAL && b.opcode == OP_FACTORIAL && Factorials(subs)
    requires ses.w.dev.ring.sqTail + 2 + |subs| < RING_SIZE
    ensures ActRun(Alone(ses), BothThenRounds(a, b, subs)) == Alone(ses')
    ensures ses'.w.epoch.polled == ses.w.epoch.polled + [Expected(a)] + Lagged([b] + subs, subs)
    ensures forall k :: 0 <= k < |subs| ==>
              (Lagged([b] + subs, subs)[k] == Expected(([b] + subs)[k]) <==>
               FactU32(([b] + subs)[k].operand) == FactU32(subs[k].operand))
    ensures InLine(ses'.w, [([b] + subs)[|subs|]])
    ensures forall steps: seq<EnvStep> :: EnvRun(ses', steps) == ses'
  {
    var three: seq<Act> := [Own(Finish), Own(Interrupt), Asks];
    var two := TwoAtOnce(ses, a, b);
    ThreeCollect(two);
    LineCollected(two, [a, b], a.operand);
    var ses1 := Collected(two);
    assert [a, b][1..] == [b];
    assert Factorials([b] + subs);
    hide Settled, InLine, ActRun, Collected;
    ses' := AnswersLag(ses1, [b], subs);
    ActRunSplits(Alone(ses), Both(a, b), three);
    ActRunSplits(Alone(ses), Both(a, b) + three, Rounds(subs));
    assert ([b] + subs)[|subs|..] == [([b] + subs)[|subs|]];
    assert Answer(a, a.operand) == Expected(a);
    assert Shaped(ses'.w.dev.ring);
    forall steps: seq<EnvStep>
      ensures EnvRun(ses', steps) == ses'
    {
      RestStays(ses', steps);
    }
  }

  function Both(a: Submission, b: Submission): seq<Act> {
    [Locks(a), Kicks(0)] + [Locks(b), Kicks(0)]
  }

  function BothThenRounds(a: Submission, b: Submission, subs: seq<Submission>): seq<Act> {
    Both(a, b) + [Own(Finish), Own(Interrupt), Asks] + Rounds(subs)
  }

  lemma TwoAtOnce(ses: Session, a: Submission, b: Submission) returns (two: Session)
    requires Settled(ses) && a.opcode == OP_FACTORIAL && b.opcode == OP_FACTORIAL
    requires ses.w.dev.ring.sqTail + 2 < RING_SIZE
    ensures ActRun(Alone(ses), Both(a, b)) == Alone(two)
    ensures InLine(two.w, [a, b])
    ensures two.hw.job == Computing(a.operand) && two.hw.factIrq && two.hw.irqStat == 0
    ensures P(two.w) == P(ses.w) && Masked(P(ses.w)) == ses.w.dev.ring.sqTail
    ensures two.w.epoch.polled == ses.w.epoch.polled
  {
    assert OneLap(ses.w.dev.ring.inflight, P(ses.w), S(ses.w));
    LineJoined(ses.w, [], a);
    SendsAtOnce(ses, a);
    LineKeepsPlace(ses.w, [], a);
    var one := SentAtOnce(ses, a);
    assert [] + [a] == [a] && [a] + [b] == [a, b];
    hide Settled, InLine, Step, ActRun, Full;
    LineJoined(one.w, [a], b);
    SendsAtOnce(one, b);
    LineKeepsPlace(one.w, [a], b);
    two := SentAtOnce(one, b);
    ActRunSplits(Alone(ses), [Locks(a), Kicks(0)], [Locks(b), Kicks(0)]);
  }

  lemma {:induction false} RestStays(ses: Session, steps: seq<EnvStep>)
    requires Shaped(ses.w.dev.ring) && Rests(ses.hw)
    ensures EnvRun(ses, steps) == ses
  {
    if steps != [] {
      NothingToHandle(ses.w, ses.hw.fact);
      assert EnvAfter(ses, steps[0]) == ses;
      RestStays(ses, steps[1..]);
    }
  }
}
