/** The user-space device handle, driving the kernel driver in place. */
module EduClient {
  import opened Words
  import opened Slab
  import opened EduRing
  import opened EduWorld
  import opened EduHardware
  import opened EduPci
  import opened EduMirror
  import opened EduSession
  import opened EduTraffic
  import opened EduAnswers

  const STEP_US: int := 500

  /** How often a wait of that many milliseconds polls if it finds nothing. */
  function MaxPolls(timeoutMs: int): nat { if timeoutMs <= 0 then 0 else 2 * timeoutMs }

  /** What opening the device file and registering the eventfd leave. */
  function Attached(w: World): (w': World)
    requires Shaped(w.dev.ring)
    ensures Shaped(w'.dev.ring)
  {
    Step(Step(w, Open), SetEventfd)
  }

  lemma AttachedIsFresh(w: World)
    requires Shaped(w.dev.ring)
    ensures IndexInv(Attached(w)) && Quiet(Attached(w).dev.ring)
  {
    assert Pending(Restart(w.dev.ring).inflight) == {};
  }

  lemma UnderwayFromWorking(ses: Session, s: Submission)
    requires Working(ses, s)
    ensures Underway(ses, s)
  {
  }

  lemma UnderwayAtMostOne(ses: Session, s: Submission)
    requires Underway(ses, s)
    ensures S(ses.w) - P(ses.w) <= 1
  {
  }

  lemma SettledHasNone(ses: Session)
    requires Settled(ses)
    ensures S(ses.w) == P(ses.w)
  {
  }

  lemma {:induction false} EnvKeepsTail(ses: Session, steps: seq<EnvStep>)
    requires Shaped(ses.w.dev.ring)
    ensures EnvRun(ses, steps).w.dev.ring.sqTail == ses.w.dev.ring.sqTail
    decreases |steps|
  {
    if steps != [] {
      assert EnvAfter(ses, steps[0]).w.dev.ring.sqTail == ses.w.dev.ring.sqTail;
      EnvKeepsTail(EnvAfter(ses, steps[0]), steps[1..]);
    }
  }

  lemma SubmissionMovesTail(ses: Session, s: Submission, gap: seq<EnvStep>)
    requires Shaped(ses.w.dev.ring)
    ensures Submitted(ses, s, gap).w.dev.ring.sqTail == RingAfter(ses.w.dev.ring, Submit(s)).sqTail
  {
    EnvKeepsTail(ses.(w := Step(ses.w, Submit(s))), gap);
  }

  lemma ShadowStaysSyncedAfter(shadow: u32, ses: Session, s: Submission, gap: seq<EnvStep>)
    requires Shaped(ses.w.dev.ring) && ValidOpcode(s.opcode)
    ensures Synced(shadow, ses.w.dev.ring) ==>
              Synced(ShadowAfter(shadow, OutcomeOf(ses.w.dev.ring, s)), Submitted(ses, s, gap).w.dev.ring)
  {
    SubmissionMovesTail(ses, s, gap);
    if Synced(shadow, ses.w.dev.ring) {
      ShadowStaysSyncedIff(shadow, ses.w.dev.ring, s);
    }
  }

  lemma {:induction false} WaitKeepsTail(ses: Session, sleeps: nat -> seq<EnvStep>, i: nat, n: nat)
    requires Shaped(ses.w.dev.ring)
    ensures WaitFrom(ses, sleeps, i, n).1.w.dev.ring.sqTail == ses.w.dev.ring.sqTail
    decreases n - i
  {
    if i < n && Empty(ses.w.dev.ring) {
      EnvKeepsTail(Polled(ses), sleeps(i));
      WaitKeepsTail(EnvRun(Polled(ses), sleeps(i)), sleeps, i + 1, n);
    }
  }

  /** The commands that a run submits. */
  function Sent(acts: seq<Act>): seq<Submission> {
    if acts == [] then [] else (if acts[0].Locks? then [acts[0].sub] else []) + Sent(acts[1..])
  }

  lemma {:induction false} SentSplits(a: seq<Act>, b: seq<Act>)
    ensures Sent(a + b) == Sent(a) + Sent(b)
  {
    if a == [] {
      assert a + b == b;
    } else {
      assert (a + b)[0] == a[0] && (a + b)[1..] == a[1..] + b;
      SentSplits(a[1..], b);
    }
  }

  lemma {:induction false} SentAreLocked(acts: seq<Act>)
    requires forall k :: 0 <= k < |Sent(acts)| ==> ValidOpcode(Sent(acts)[k].opcode)
    ensures ValidLocks(acts)
  {
    if acts != [] {
      var head := if acts[0].Locks? then [acts[0].sub] else [];
      var n := |head|;
      assert Sent(acts) == head + Sent(acts[1..]);
      forall k | 0 <= k < |Sent(acts[1..])|
        ensures ValidOpcode(Sent(acts[1..])[k].opcode)
      {
        assert Sent(acts[1..])[k] == Sent(acts)[n + k];
      }
      SentAreLocked(acts[1..]);
      assert acts[0].Locks? ==> Sent(acts)[0] == acts[0].sub;
      assert forall k :: 1 <= k < |acts| ==> acts[k] == acts[1..][k - 1];
    }
  }

  lemma {:induction false} BatchIsOneByOne(start: Session, acts: seq<Act>, jobs: seq<Submission>, n: nat)
    requires Settled(start) && AlwaysNarrow(Alone(start), acts) && n <= |jobs| && Sent(acts) == jobs[..n]
    requires forall k :: 0 <= k < |jobs| ==> ValidOpcode(jobs[k].opcode)
    ensures OneByOne(Alone(start), acts)
  {
    SentAreLocked(acts);
    NarrowIsOneByOne(Alone(start), acts);
  }

  lemma {:induction false} OwnsSendNothing(steps: seq<EnvStep>)
    ensures Sent(Owns(steps)) == []
  {
    if steps != [] {
      assert Owns(steps)[1..] == Owns(steps[1..]);
      OwnsSendNothing(steps[1..]);
    }
  }

  lemma OneIsSent(ses: Session, s: Submission, gap: seq<EnvStep>)
    ensures Sent(SendActs(ses, s, gap)) == [s]
  {
    assert ([Locks(s)] + [])[1..] == [] && [Kicks(0)][1..] == [];
    OwnsSendNothing(gap);
    SentSplits(Owns(gap), [Kicks(0)]);
    SentSplits([Locks(s)], Owns(gap) + [Kicks(0)]);
    assert [Locks(s)] + [] == [Locks(s)] && [Locks(s)][1..] == [];
  }

  lemma {:induction false} WaitSendsNothing(ses: Session, sleeps: nat -> seq<EnvStep>, i: nat, n: nat)
    requires Shaped(ses.w.dev.ring)
    ensures Sent(WaitActs(ses, sleeps, i, n)) == []
    decreases n - i
  {
    hide Polled;
    if i < n && Empty(ses.w.dev.ring) {
      var rest := WaitActs(EnvRun(Polled(ses), sleeps(i)), sleeps, i + 1, n);
      OwnsSendNothing(sleeps(i));
      WaitSendsNothing(EnvRun(Polled(ses), sleeps(i)), sleeps, i + 1, n);
      SentSplits(Owns(sleeps(i)), rest);
      SentSplits([Asks], Owns(sleeps(i)) + rest);
    }
  }

  /** The sleeps in the wait for job k. */
  function SleepsOf(sleeps: (nat, nat) -> seq<EnvStep>, k: nat): nat -> seq<EnvStep> {
    (i: nat) => sleeps(k, i)
  }

  /** Job k finishes, and then interrupts, before its last poll. */
  ghost predicate InTime(sleeps: (nat, nat) -> seq<EnvStep>, timeoutMs: int, k: nat) {
    SleepsDeliver(SleepsOf(sleeps, k), 0, 2 * timeoutMs - 1)
  }

  ghost predicate AllInTime(sleeps: (nat, nat) -> seq<EnvStep>, timeoutMs: int, n: nat) {
    forall k: nat :: k < n ==> InTime(sleeps, timeoutMs, k)
  }

  lemma NoneYet(sleeps: (nat, nat) -> seq<EnvStep>, timeoutMs: int)
    ensures AllInTime(sleeps, timeoutMs, 0)
  {
  }

  lemma OneMoreInTime(sleeps: (nat, nat) -> seq<EnvStep>, timeoutMs: int, n: nat)
    requires AllInTime(sleeps, timeoutMs, n) && InTime(sleeps, timeoutMs, n)
    ensures AllInTime(sleeps, timeoutMs, n + 1)
  {
  }

  ghost predicate AnswersTo(results: seq<Completion>, jobs: seq<Submission>) {
    |results| <= |jobs| && forall k :: 0 <= k < |results| ==> results[k] == Expected(jobs[k])
  }

  lemma OneMoreAnswer(results: seq<Completion>, jobs: seq<Submission>)
    requires AnswersTo(results, jobs) && |results| < |jobs|
    ensures AnswersTo(results + [Expected(jobs[|results|])], jobs)
  {
    hide Expected;
  }

  /** A batch that has gone well so far. */
  ghost predicate SoFar(start: Session, acts: seq<Act>, jobs: seq<Submission>, results: seq<Completion>, now: Session)
    requires Shaped(start.w.dev.ring)
  {
    && AnswersTo(results, jobs)
    && Alone(now) == ActRun(Alone(start), acts) && AlwaysNarrow(Alone(start), acts) && Sent(acts) == jobs[..|results|]
  }

  lemma BatchStarts(start: Session, jobs: seq<Submission>)
    requires Settled(start)
    ensures SoFar(start, [], jobs, [], start)
  {
    SettledIsNarrow(start);
  }

  lemma BatchAnswered(start: Session, acts: seq<Act>, jobs: seq<Submission>, results: seq<Completion>, now: Session)
    requires Shaped(start.w.dev.ring) && AnswersTo(results, jobs)
    requires Alone(now) == ActRun(Alone(start), acts) && AlwaysNarrow(Alone(start), acts)
    requires Sent(acts) == jobs[..|results|]
    ensures SoFar(start, acts, jobs, results, now)
  {
    hide ActRun, AlwaysNarrow, Sent, AnswersTo;
  }

  lemma PrefixGrows(jobs: seq<Submission>, k: nat)
    requires k < |jobs|
    ensures jobs[..k + 1] == jobs[..k] + [jobs[k]]
  {
  }

  lemma RunGoesOn(start: Traffic, acts: seq<Act>, more: seq<Act>)
    requires Shaped(start.ses.w.dev.ring)
    ensures ActRun(start, acts + more) == ActRun(ActRun(start, acts), more)
    ensures AlwaysNarrow(start, acts + more) <==> AlwaysNarrow(start, acts) && AlwaysNarrow(ActRun(start, acts), more)
    ensures Sent(acts + more) == Sent(acts) + Sent(more)
  {
    hide ActRun, AlwaysNarrow, Sent;
    ActRunSplits(start, acts, more);
    NarrowSplits(start, acts, more);
    SentSplits(acts, more);
  }

  lemma BatchGives(start: Session, acts: seq<Act>, jobs: seq<Submission>, results: seq<Completion>, now: Session)
    requires Shaped(start.w.dev.ring) && SoFar(start, acts, jobs, results, now)
    ensures AnswersTo(results, jobs)
    ensures |results| <= |jobs| && forall k :: 0 <= k < |results| ==> results[k] == Expected(jobs[k])
    ensures Alone(now) == ActRun(Alone(start), acts) && AlwaysNarrow(Alone(start), acts)
    ensures Sent(acts) == jobs[..|results|]
  {
  }

  class EduDevice {
    const dev: EduDev
    var sqTail: u32
    var ringsMapped: bool

    ghost predicate Valid()
      reads this, dev
    {
      dev.Valid()
    }

    ghost function Ses(): (s: Session)
      requires Valid()
      reads this, dev, dev.sq, dev.cq, dev.inflight
      ensures Shaped(s.w.dev.ring)
    {
      Session(dev.View(), dev.bar0)
    }

    /** A fresh handle: the driver is opened and signals this handle's eventfd. */
    constructor (dev: EduDev)
      requires dev.Valid()
      modifies dev, dev.inflight
      ensures Valid() && this.dev == dev && sqTail == 0 && !ringsMapped
      ensures dev.View() == Attached(old(dev.View())) && dev.bar0 == old(dev.bar0)
      ensures dev.evtCtx
      ensures Synced(sqTail, dev.Dev().ring)
      ensures Rests(dev.bar0) ==> Settled(Ses())
    {
      this.dev := dev;
      sqTail, ringsMapped := 0, false;
      new;
      ghost var w := dev.View();
      dev.Open();
      dev.SetEventfd();
      AttachedIsFresh(w);
    }

    /** The device and its interrupts go on while this handle does nothing. */
    method Meanwhile(steps: seq<EnvStep>)
      requires Valid()
      modifies dev, dev.cq, dev.inflight
      ensures Valid() && Ses() == EnvRun(old(Ses()), steps)
    {
      ghost var ses := Ses();
      var i := 0;
      while i < |steps|
        invariant 0 <= i <= |steps| && Valid()
        invariant EnvRun(ses, steps) == EnvRun(Ses(), steps[i..])
      {
        ghost var before := Ses();
        if steps[i] == Finish {
          dev.bar0 := Finished(dev.bar0);
        } else {
          var _ := dev.IrqHandler();
        }
        assert Ses() == EnvAfter(before, steps[i]);
        assert steps[i..][1..] == steps[i + 1..];
        i := i + 1;
      }
    }

    /** Submit through the ioctl; `gap` passes before the hardware is kicked. */
    method IoctlSubmit(s: Submission, gap: seq<EnvStep>) returns (o: Outcome)
      requires Valid()
      modifies this`sqTail, dev, dev.sq, dev.cq, dev.inflight
      ensures Valid() && Ses() == Submitted(old(Ses()), s, gap)
      ensures o == OutcomeOf(old(dev.Dev().ring), s)
      ensures sqTail == ShadowAfter(old(sqTail), o)
    {
      var r := dev.SubmitLocked(s);
      if r == ENOSPC {
        return NoRoom;
      }
      Meanwhile(gap);
      r := dev.Kick(s);
      if r == EINVAL {
        return BadOpcode;
      }
      sqTail := Wrap32(sqTail + 1);
      o := Accepted;
    }

    /** Zero-copy submission; without a mapping it is refused. */
    method SubmitZc(s: Submission, gap: seq<EnvStep>) returns (o: Option<Outcome>)
      requires Valid()
      modifies this`sqTail, dev, dev.sq, dev.cq, dev.inflight
      ensures Valid() && (o == None <==> !ringsMapped)
      ensures !ringsMapped ==> Ses() == old(Ses()) && sqTail == old(sqTail)
      ensures ringsMapped ==>
                var ses := old(Ses());
                var written := ses.(w := Step(ses.w, MmapSq(Masked(old(sqTail)), Entry(s))));
                && Ses() == Submitted(written, s, gap)
                && written.w.dev.ring == Prewritten(ses.w.dev.ring, old(sqTail), s)
                && o.value == OutcomeOf(ses.w.dev.ring, s)
                && sqTail == ShadowAfter(old(sqTail), o.value)
    {
      if !ringsMapped {
        return None;
      }
      ghost var w := dev.View();
      MasksAreResidues(sqTail);
      var slot := BitAnd(sqTail, RING_MASK);
      dev.sq[slot] := SqEntry(s.tag, s.opcode, 0, s.operand, 0);
      assert dev.sq[..] == w.dev.ring.sq[slot := Entry(s)];
      assert dev.View() == Step(w, MmapSq(slot, Entry(s)));
      var outcome := IoctlSubmit(s, gap);
      o := Some(outcome);
    }

    method PollCompletion() returns (c: Option<Completion>)
      requires Valid()
      modifies dev
      ensures Valid() && Ses() == Polled(old(Ses()))
      ensures c == if Empty(old(dev.Dev().ring)) then None else Some(Front(old(dev.Dev().ring)))
    {
      var r, out := dev.PollCq();
      c := if r == OK then Some(out) else None;
    }

    /** The bounded wait: a poll every half millisecond. The product in
        microseconds has to fit a C int, as it does in the caller's code. */
    method WaitCompletion(timeoutMs: int, sleeps: nat -> seq<EnvStep>) returns (c: Option<Completion>, polls: nat)
      requires Valid()
      requires -0x8000_0000 <= timeoutMs * 1000 && timeoutMs * 1000 + STEP_US < 0x8000_0000
      modifies dev, dev.cq, dev.inflight
      ensures Valid() && (c, Ses()) == WaitFrom(old(Ses()), sleeps, 0, MaxPolls(timeoutMs))
      ensures polls <= MaxPolls(timeoutMs)
      ensures c.None? ==> polls == if timeoutMs > 0 then 2 * timeoutMs else 0
    {
      ghost var ses, n := Ses(), MaxPolls(timeoutMs);
      var waitedUs := 0;
      var limitUs := timeoutMs * 1000;
      polls := 0;
      while waitedUs < limitUs
        invariant Valid() && waitedUs == 500 * polls && polls <= n
        invariant WaitFrom(ses, sleeps, 0, n) == WaitFrom(Ses(), sleeps, polls, n)
        decreases limitUs - waitedUs
      {
        c := PollCompletion();
        polls := polls + 1;
        if c.Some? {
          return;
        }
        Meanwhile(sleeps(polls - 1));
        waitedUs := waitedUs + STEP_US;
      }
      c := None;
    }

    /** Submit one command at a time and wait for each, up to the first timeout:
        the k-th completion is the answer to the k-th command. The batch is a run
        in which at no point more than one command is outstanding, and so one in
        which every command is sure of its own answer. */
    method RunBatch(jobs: seq<Submission>, timeoutMs: int,
                    gaps: nat -> seq<EnvStep>, sleeps: (nat, nat) -> seq<EnvStep>)
      returns (results: seq<Completion>, ghost acts: seq<Act>)
      requires Valid() && Settled(Ses())
      requires forall k :: 0 <= k < |jobs| ==> ValidOpcode(jobs[k].opcode)
      requires -0x8000_0000 <= timeoutMs * 1000 && timeoutMs * 1000 + STEP_US < 0x8000_0000
      modifies this`sqTail, dev, dev.sq, dev.cq, dev.inflight
      ensures Valid() && |results| <= |jobs|
      ensures forall k :: 0 <= k < |results| ==> results[k] == Expected(jobs[k])
      ensures AllInTime(sleeps, timeoutMs, |results|)
      ensures |results| < |jobs| ==> !InTime(sleeps, timeoutMs, |results|)
      ensures if |results| == |jobs| then Settled(Ses()) else Underway(Ses(), jobs[|results|])
      ensures Alone(Ses()) == ActRun(Alone(old(Ses())), acts) && AlwaysNarrow(Alone(old(Ses())), acts)
      ensures Sent(acts) == jobs[..if |results| == |jobs| then |jobs| else |results| + 1]
      ensures OneByOne(Alone(old(Ses())), acts)
      ensures S(dev.View()) - P(dev.View()) <= 1
      ensures Synced(old(sqTail), old(dev.Dev().ring)) ==> Synced(sqTail, dev.Dev().ring)
    {
      ghost var ses, inStep := Ses(), Synced(sqTail, dev.Dev().ring);
      results, acts := [], [];
      BatchStarts(ses, jobs);
      NoneYet(sleeps, timeoutMs);
      hide Settled, Underway, SoFar, AnswersTo, ActRun, AlwaysNarrow, Sent, OneByOne, Synced,
        Expected, AllInTime, SleepsDeliver, SleepsOf;
      while |results| < |jobs|
        invariant Valid() && |results| <= |jobs| && Settled(Ses())
        invariant SoFar(ses, acts, jobs, results, Ses())
        invariant AllInTime(sleeps, timeoutMs, |results|)
        invariant inStep ==> Synced(sqTail, dev.Dev().ring)
      {
        ghost var now, more := Ses(), [];
        var k, c := |results|, None;
        BatchGives(ses, acts, jobs, results, now);
        c, more := SubmitAndWait(jobs[k], timeoutMs, gaps(k), SleepsOf(sleeps, k));
        RunGoesOn(Alone(ses), acts, more);
        PrefixGrows(jobs, k);
        acts := acts + more;
        if c.None? {
          UnderwayAtMostOne(Ses(), jobs[k]);
          BatchIsOneByOne(ses, acts, jobs, k + 1);
          return;
        }
        OneMoreAnswer(results, jobs);
        OneMoreInTime(sleeps, timeoutMs, k);
        results := results + [c.value];
        BatchAnswered(ses, acts, jobs, results, Ses());
      }
      BatchGives(ses, acts, jobs, results, Ses());
      SettledHasNone(Ses());
      BatchIsOneByOne(ses, acts, jobs, |jobs|);
    }

    method SubmitAndWait(s: Submission, timeoutMs: int, gap: seq<EnvStep>, sleeps: nat -> seq<EnvStep>)
      returns (c: Option<Completion>, ghost acts: seq<Act>)
      requires Valid() && Settled(Ses()) && ValidOpcode(s.opcode)
      requires -0x8000_0000 <= timeoutMs * 1000 && timeoutMs * 1000 + STEP_US < 0x8000_0000
      modifies this`sqTail, dev, dev.sq, dev.cq, dev.inflight
      ensures Valid()
      ensures if c.Some? then c.value == Expected(s) && Settled(Ses()) else Underway(Ses(), s)
      ensures c.Some? <==> SleepsDeliver(sleeps, 0, 2 * timeoutMs - 1)
      ensures Alone(Ses()) == ActRun(Alone(old(Ses())), acts) && AlwaysNarrow(Alone(old(Ses())), acts)
      ensures Sent(acts) == [s]
      ensures Synced(old(sqTail), old(dev.Dev().ring)) ==> Synced(sqTail, dev.Dev().ring)
    {
      ghost var ses, n := Ses(), MaxPolls(timeoutMs);
      hide Settled, Working, Underway, EnvRun, AlwaysNarrow, ActRun, Sent, SleepsDeliver, Delivers;
      SubmissionIsUnderway(ses, s, gap);
      SubmissionIsNarrow(ses, s, gap);
      var o := IoctlSubmit(s, gap);
      SubmissionMovesTail(ses, s, gap);
      ghost var sent := Ses();
      UnderwayFromWorking(sent, s);
      ShadowStaysSyncedAfter(old(sqTail), ses, s, gap);
      var polls: nat;
      c, polls := WaitCompletion(timeoutMs, sleeps);
      WaitAnswers(sent, s, sleeps, 0, n);
      WaitSucceedsIffDelivered(sent, s, sleeps, n);
      MeantimeDelivers(sleeps, 0, n);
      WaitKeepsTail(sent, sleeps, 0, n);
      acts := SendActs(ses, s, gap) + WaitActs(sent, sleeps, 0, n);
      SendIsSubmitted(ses, s, gap);
      WaitIsNarrow(sent, s, sleeps, 0, n);
      RunGoesOn(Alone(ses), SendActs(ses, s, gap), WaitActs(sent, sleeps, 0, n));
      OneIsSent(ses, s, gap);
      WaitSendsNothing(sent, sleeps, 0, n);
    }
  }
}
