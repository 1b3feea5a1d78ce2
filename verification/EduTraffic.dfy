/** Runs of any number of threads over the driver and the device, with the two
    halves of each submission as separate steps. */
module EduTraffic {
  import opened Words
  import opened EduRing
  import opened EduWorld
  import opened EduHardware
  import opened EduSession

  /** The commands in `owed` are accepted, and their threads have yet to kick. */
  datatype Traffic = Traffic(ses: Session, owed: seq<Submission>)

  /** A thread takes a slot, a thread that has one kicks, the device or its
      interrupt moves, somebody polls, somebody opens. */
  datatype Act = Locks(sub: Submission) | Kicks(turn: nat) | Own(step: EnvStep) | Asks | Opens

  function Alone(ses: Session): Traffic { Traffic(ses, []) }

  function KickedBy(ses: Session, s: Submission): (ses': Session)
    requires Shaped(ses.w.dev.ring)
    ensures Shaped(ses'.w.dev.ring)
  {
    Session(Step(ses.w, Kick(s.opcode)), Kicked(ses.hw, s))
  }

  function ActAfter(t: Traffic, a: Act): (t': Traffic)
    requires Shaped(t.ses.w.dev.ring)
    ensures Shaped(t'.ses.w.dev.ring)
  {
    var ses := t.ses;
    match a
    case Locks(s) =>
      Traffic(ses.(w := Step(ses.w, Submit(s))), if Full(ses.w.dev.ring) then t.owed else t.owed + [s])
    case Kicks(i) =>
      if i < |t.owed| then Traffic(KickedBy(ses, t.owed[i]), t.owed[..i] + t.owed[i + 1..]) else t
    case Own(e) => t.(ses := EnvAfter(ses, e))
    case Asks => t.(ses := Polled(ses))
    case Opens => t.(ses := ses.(w := Step(ses.w, Open)))
  }

  function ActRun(t: Traffic, acts: seq<Act>): (t': Traffic)
    requires Shaped(t.ses.w.dev.ring)
    ensures Shaped(t'.ses.w.dev.ring)
    decreases |acts|
  {
    if acts == [] then t else ActRun(ActAfter(t, acts[0]), acts[1..])
  }

  lemma {:induction false} ActRunSplits(t: Traffic, a: seq<Act>, b: seq<Act>)
    requires Shaped(t.ses.w.dev.ring)
    ensures ActRun(t, a + b) == ActRun(ActRun(t, a), b)
    decreases |a|
  {
    hide ActAfter;
    if a == [] {
      assert a + b == b;
    } else {
      assert (a + b)[0] == a[0] && (a + b)[1..] == a[1..] + b;
      ActRunSplits(ActAfter(t, a[0]), a[1..], b);
    }
  }

  lemma OneMoreAct(t: Traffic, a: Act, acts: seq<Act>)
    requires Shaped(t.ses.w.dev.ring)
    ensures ActRun(t, [a] + acts) == ActRun(ActAfter(t, a), acts)
  {
    assert ([a] + acts)[0] == a && ([a] + acts)[1..] == acts;
  }

  lemma OneAct(t: Traffic, a: Act)
    requires Shaped(t.ses.w.dev.ring)
    ensures ActRun(t, [a]) == ActAfter(t, a)
  {
    assert [a][1..] == [];
  }

  lemma TwoActs(t: Traffic, a: Act, b: Act)
    requires Shaped(t.ses.w.dev.ring)
    ensures ActRun(t, [a, b]) == ActAfter(ActAfter(t, a), b)
  {
    assert [a] + [b] == [a, b];
    hide ActRun, ActAfter;
    ActRunSplits(t, [a], [b]);
    OneAct(t, a);
    OneAct(ActAfter(t, a), b);
  }

  lemma KickMovesNothing(w: World, opcode: u8)
    requires Shaped(w.dev.ring)
    ensures Step(w, Kick(opcode)) == w
  {
  }

  /** At most one command is outstanding. */
  predicate Narrow(ses: Session) { S(ses.w) - P(ses.w) <= 1 }

  /** So it is at every point of a run. */
  ghost predicate AlwaysNarrow(t: Traffic, acts: seq<Act>)
    requires Shaped(t.ses.w.dev.ring)
    decreases |acts|
  {
    Narrow(t.ses) && (acts != [] ==> AlwaysNarrow(ActAfter(t, acts[0]), acts[1..]))
  }

  lemma {:induction false} NarrowSplits(t: Traffic, a: seq<Act>, b: seq<Act>)
    requires Shaped(t.ses.w.dev.ring)
    ensures AlwaysNarrow(t, a + b) <==> AlwaysNarrow(t, a) && AlwaysNarrow(ActRun(t, a), b)
    decreases |a|
  {
    hide ActAfter, Narrow;
    if a == [] {
      assert a + b == b;
    } else {
      assert (a + b)[0] == a[0] && (a + b)[1..] == a[1..] + b;
      NarrowSplits(ActAfter(t, a[0]), a[1..], b);
    }
  }

  lemma OneMoreNarrow(t: Traffic, a: Act, acts: seq<Act>)
    requires Shaped(t.ses.w.dev.ring)
    ensures AlwaysNarrow(t, [a] + acts) <==> Narrow(t.ses) && AlwaysNarrow(ActAfter(t, a), acts)
  {
    assert ([a] + acts)[0] == a && ([a] + acts)[1..] == acts;
  }

  // --- A submission and its wait as a run -----------------------------------

  function Owns(steps: seq<EnvStep>): seq<Act> {
    if steps == [] then [] else [Own(steps[0])] + Owns(steps[1..])
  }

  /** Both halves of a submission, and what happens in between. */
  function SendActs(ses: Session, s: Submission, gap: seq<EnvStep>): seq<Act> {
    [Locks(s)] + if Full(ses.w.dev.ring) then [] else Owns(gap) + [Kicks(0)]
  }

  function WaitActs(ses: Session, sleeps: nat -> seq<EnvStep>, i: nat, n: nat): seq<Act>
    requires Shaped(ses.w.dev.ring)
    decreases n - i
  {
    if i >= n then []
    else if Empty(ses.w.dev.ring) then
      [Asks] + (Owns(sleeps(i)) + WaitActs(EnvRun(Polled(ses), sleeps(i)), sleeps, i + 1, n))
    else [Asks]
  }

  lemma {:induction false} OwnsRun(t: Traffic, steps: seq<EnvStep>)
    requires Shaped(t.ses.w.dev.ring)
    ensures ActRun(t, Owns(steps)) == t.(ses := EnvRun(t.ses, steps))
    decreases |steps|
  {
    hide EnvAfter;
    if steps != [] {
      assert Owns(steps)[1..] == Owns(steps[1..]);
      OwnsRun(t.(ses := EnvAfter(t.ses, steps[0])), steps[1..]);
    }
  }

  /** The two halves, and what happens in between, are a submission. */
  lemma SendIsSubmitted(ses: Session, s: Submission, gap: seq<EnvStep>)
    requires Shaped(ses.w.dev.ring)
    ensures ActRun(Alone(ses), SendActs(ses, s, gap)) == Alone(Submitted(ses, s, gap))
  {
    var t := ActAfter(Alone(ses), Locks(s));
    if Full(ses.w.dev.ring) {
      assert [Locks(s)] + [] == [Locks(s)];
      OneAct(Alone(ses), Locks(s));
    } else {
      assert t == Traffic(ses.(w := Step(ses.w, Submit(s))), [s]);
      OneMoreAct(Alone(ses), Locks(s), Owns(gap) + [Kicks(0)]);
      ActRunSplits(t, Owns(gap), [Kicks(0)]);
      OwnsRun(t, gap);
      OneAct(t.(ses := EnvRun(t.ses, gap)), Kicks(0));
      assert [s][..0] + [s][1..] == [];
      hide ActRun, EnvRun, Step, Owns, Full;
    }
  }

  lemma {:induction false} OwnsAreNarrow(t: Traffic, s: Submission, steps: seq<EnvStep>)
    requires (Underway(t.ses, s) || Locked(t.ses, s)) && ValidOpcode(s.opcode)
    ensures AlwaysNarrow(t, Owns(steps))
    decreases |steps|
  {
    PhaseIsNarrow(t.ses, s);
    hide Working, Raised, Done, Locked, EnvAfter, Narrow;
    if steps != [] {
      EnvKeeps(t.ses, s, steps[0]);
      assert Owns(steps)[1..] == Owns(steps[1..]);
      OwnsAreNarrow(t.(ses := EnvAfter(t.ses, steps[0])), s, steps[1..]);
    }
  }

  lemma PhaseIsNarrow(ses: Session, s: Submission)
    requires Underway(ses, s) || Locked(ses, s)
    ensures Shaped(ses.w.dev.ring) && Narrow(ses)
  {
  }

  lemma SettledIsNarrow(ses: Session)
    requires Settled(ses)
    ensures Narrow(ses) && AlwaysNarrow(Alone(ses), [])
  {
  }

  /** A wait is a run in which no more than its own command is outstanding. */
  lemma {:induction false} WaitIsNarrow(ses: Session, s: Submission, sleeps: nat -> seq<EnvStep>, i: nat, n: nat)
    requires Underway(ses, s) && ValidOpcode(s.opcode)
    ensures ActRun(Alone(ses), WaitActs(ses, sleeps, i, n)) == Alone(WaitFrom(ses, sleeps, i, n).1)
    ensures AlwaysNarrow(Alone(ses), WaitActs(ses, sleeps, i, n))
    decreases n - i
  {
    PhaseIsNarrow(ses, s);
    hide Done, Working, Raised, Settled, Polled, EnvAfter, Narrow;
    if i < n {
      PollUnderway(ses, s);
      if Empty(ses.w.dev.ring) {
        var steps := sleeps(i);
        var t, rest := Alone(ses), WaitActs(EnvRun(ses, steps), sleeps, i + 1, n);
        EnvRunKeepsUnderway(ses, s, steps);
        OwnsRun(t, steps);
        OwnsAreNarrow(t, s, steps);
        WaitIsNarrow(EnvRun(ses, steps), s, sleeps, i + 1, n);
        ActRunSplits(t, Owns(steps), rest);
        NarrowSplits(t, Owns(steps), rest);
        OneMoreAct(t, Asks, Owns(steps) + rest);
        OneMoreNarrow(t, Asks, Owns(steps) + rest);
      } else {
        SettledIsNarrow(Polled(ses));
        OneAct(Alone(ses), Asks);
        OneMoreNarrow(Alone(ses), Asks, []);
        assert [Asks] + [] == [Asks];
      }
    }
  }

  /** So is the submission before it. */
  lemma SubmissionIsNarrow(ses: Session, s: Submission, gap: seq<EnvStep>)
    requires Settled(ses) && ValidOpcode(s.opcode)
    ensures AlwaysNarrow(Alone(ses), SendActs(ses, s, gap))
  {
    LockStarts(ses, s);
    SettledIsNarrow(ses);
    var t := ActAfter(Alone(ses), Locks(s));
    EnvRunKeepsLocked(t.ses, s, gap);
    OwnsAreNarrow(t, s, gap);
    OwnsRun(t, gap);
    LastKickIsNarrow(t, s);
    hide Settled, Locked, Underway, ActAfter, EnvRun, Narrow;
    NarrowSplits(t, Owns(gap), [Kicks(0)]);
    OneMoreNarrow(Alone(ses), Locks(s), Owns(gap) + [Kicks(0)]);
  }

  lemma LastKickIsNarrow(t: Traffic, s: Submission)
    requires Locked(t.ses, s) && t.owed == [s]
    ensures AlwaysNarrow(t, [Kicks(0)])
  {
    KickMovesNothing(t.ses.w, s.opcode);
    assert [Kicks(0)][1..] == [];
    assert AlwaysNarrow(ActAfter(t, Kicks(0)), []);
  }
}
