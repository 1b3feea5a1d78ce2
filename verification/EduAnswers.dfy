/** When every accepted command is answered with its own result, whatever the
    threads, the device and its interrupt do: exactly while each is submitted
    with nothing else outstanding. */
module EduAnswers {
  import opened EduRing
  import opened EduWorld
  import opened EduQueue
  import opened EduHardware
  import opened EduSession
  import opened EduTraffic

  /** Completions from number b on are for the commands of the same numbers, with
      their tags and their own results. */
  ghost predicate AnsweredSince(w: World, b: nat) {
    && b <= P(w) <= S(w) && |w.epoch.origin| == P(w)
    && forall k :: b <= k < P(w) ==>
      w.epoch.origin[k] == k && ToCompletion(w.epoch.posted[k]) == Expected(w.epoch.accepted[k])
  }

  predicate Continues(steps: seq<Act>) {
    forall k :: 0 <= k < |steps| ==> steps[k].Own? || steps[k].Kicks?
  }

  /** Whatever happens on its own from here, in any order with the kicks still to
      come: once they are made and the device is at rest, every accepted command
      has its own answer. */
  ghost predicate WillAnswer(t: Traffic, b: nat)
    requires Shaped(t.ses.w.dev.ring)
  {
    forall steps: seq<Act> | Continues(steps) && ActRun(t, steps).owed == [] && Rests(ActRun(t, steps).ses.hw) ::
      P(ActRun(t, steps).ses.w) == S(ActRun(t, steps).ses.w) && AnsweredSince(ActRun(t, steps).ses.w, b)
  }

  ghost predicate AlwaysWillAnswer(t: Traffic, b: nat, acts: seq<Act>)
    requires Shaped(t.ses.w.dev.ring)
    decreases |acts|
  {
    WillAnswer(t, b) && (acts != [] ==> AlwaysWillAnswer(ActAfter(t, acts[0]), b, acts[1..]))
  }

  /** What a caller can check before submitting. */
  predicate MayLock(t: Traffic, a: Act) {
    a.Locks? && !Full(t.ses.w.dev.ring) ==> ValidOpcode(a.sub.opcode) && S(t.ses.w) == P(t.ses.w)
  }

  ghost predicate OneByOne(t: Traffic, acts: seq<Act>)
    requires Shaped(t.ses.w.dev.ring)
    decreases |acts|
  {
    acts == [] || (MayLock(t, acts[0]) && OneByOne(ActAfter(t, acts[0]), acts[1..]))
  }

  // --- Where such a run can be ------------------------------------------------

  /** Nothing is outstanding, no thread owes a kick, the device is at rest. */
  ghost predicate Clear(t: Traffic) {
    && IndexInv(t.ses.w) && Quiet(t.ses.w.dev.ring) && S(t.ses.w) == P(t.ses.w)
    && Rests(t.ses.hw) && t.owed == []
  }

  /** One command is outstanding: not kicked yet, at work, or signalled. */
  ghost predicate Serving(t: Traffic) {
    && S(t.ses.w) == P(t.ses.w) + 1
    && var s := t.ses.w.epoch.accepted[P(t.ses.w)];
    && ValidOpcode(s.opcode) && Outstanding(t.ses.w, s)
    && ((t.owed == [s] && Rests(t.ses.hw)) || (t.owed == [] && (AtWork(t.ses.hw, s) || Signals(t.ses.hw, s))))
  }

  ghost predicate OnCourse(t: Traffic, b: nat) {
    (Clear(t) || Serving(t)) && AnsweredSince(t.ses.w, b)
  }

  lemma InterruptAnswers(t: Traffic, b: nat)
    requires Serving(t) && t.owed == [] && AnsweredSince(t.ses.w, b)
    requires Signals(t.ses.hw, t.ses.w.epoch.accepted[P(t.ses.w)])
    ensures OnCourse(ActAfter(t, Own(Interrupt)), b)
  {
    var w, ev := t.ses.w, Irq(t.ses.hw.irqStat, t.ses.hw.fact);
    var s := w.epoch.accepted[P(w)];
    InterruptPosts(w, s, ev);
    assert ToCompletion(Completed(Entry(s), ev.fact)) == Expected(s);
    hide Step, IndexInv, Outstanding, Quiet, Completed, Expected, ToCompletion;
  }

  lemma OwnKeepsCourse(t: Traffic, e: EnvStep, b: nat)
    requires OnCourse(t, b)
    ensures OnCourse(ActAfter(t, Own(e)), b)
  {
    var w := t.ses.w;
    if e.Interrupt? {
      NothingToHandle(w, t.ses.hw.fact);
      hide Step, IndexInv, Outstanding, Quiet, AnsweredSince;
      if Serving(t) && Signals(t.ses.hw, w.epoch.accepted[P(w)]) {
        InterruptAnswers(t, b);
      }
    } else {
      hide Step, IndexInv, Outstanding, Quiet, AnsweredSince;
    }
  }

  lemma KickKeepsCourse(t: Traffic, i: nat, b: nat)
    requires OnCourse(t, b)
    ensures OnCourse(ActAfter(t, Kicks(i)), b)
  {
    if i < |t.owed| {
      KickMovesNothing(t.ses.w, t.owed[i].opcode);
      assert t.owed[..0] + t.owed[1..] == [];
      hide Step, IndexInv, Outstanding, Quiet, AnsweredSince;
    }
  }

  lemma PollKeepsPlace(w: World)
    requires IndexInv(w)
    ensures var w' := Step(w, Poll);
      && IndexInv(w') && S(w') == S(w) && P(w') == P(w)
      && w'.dev.ring.inflight == w.dev.ring.inflight && w'.dev.ring.sq == w.dev.ring.sq
      && w'.epoch.accepted == w.epoch.accepted && w'.epoch.posted == w.epoch.posted
      && w'.epoch.origin == w.epoch.origin
  {
    IndexStep(w, Poll);
  }

  lemma AskKeepsCourse(t: Traffic, b: nat)
    requires OnCourse(t, b)
    ensures OnCourse(ActAfter(t, Asks), b)
  {
    PollKeepsPlace(t.ses.w);
    hide Step, IndexInv;
  }

  lemma LockKeepsCourse(t: Traffic, a: Act, b: nat)
    requires OnCourse(t, b) && a.Locks? && MayLock(t, a)
    ensures OnCourse(ActAfter(t, a), b)
  {
    var w := t.ses.w;
    if Full(w.dev.ring) {
      assert Step(w, Submit(a.sub)).epoch == w.epoch && Step(w, Submit(a.sub)).dev.ring == w.dev.ring;
      assert IndexInv(Step(w, Submit(a.sub)));
      hide Step, IndexInv;
    } else {
      AcceptedIsOutstanding(w, a.sub);
      hide Step, IndexInv, Outstanding, Quiet, Full;
    }
  }

  lemma ActKeepsCourse(t: Traffic, a: Act, b: nat)
    requires OnCourse(t, b) && !a.Opens? && MayLock(t, a)
    ensures OnCourse(ActAfter(t, a), b)
  {
    match a {
      case Locks(_) => LockKeepsCourse(t, a, b);
      case Kicks(i) => KickKeepsCourse(t, i, b);
      case Own(e) => OwnKeepsCourse(t, e, b);
      case Asks => AskKeepsCourse(t, b);
    }
  }

  lemma OnCourseIsShaped(t: Traffic, b: nat)
    requires OnCourse(t, b)
    ensures Shaped(t.ses.w.dev.ring) && P(t.ses.w) <= S(t.ses.w) <= P(t.ses.w) + 1 && |t.owed| <= 1
    ensures t.owed == [] && Rests(t.ses.hw) ==> P(t.ses.w) == S(t.ses.w) && AnsweredSince(t.ses.w, b)
  {
  }

  lemma {:induction false} ContinuingKeepsCourse(t: Traffic, steps: seq<Act>, b: nat)
    requires OnCourse(t, b) && Continues(steps)
    ensures OnCourse(ActRun(t, steps), b)
    decreases |steps|
  {
    OnCourseIsShaped(t, b);
    hide OnCourse, ActAfter;
    if steps != [] {
      ActKeepsCourse(t, steps[0], b);
      ContinuingKeepsCourse(ActAfter(t, steps[0]), steps[1..], b);
    }
  }

  lemma OnCourseWillAnswer(t: Traffic, b: nat)
    requires OnCourse(t, b)
    ensures Shaped(t.ses.w.dev.ring) && WillAnswer(t, b)
  {
    OnCourseIsShaped(t, b);
    hide OnCourse, AnsweredSince, ActRun, Rests;
    forall steps: seq<Act> | Continues(steps) && ActRun(t, steps).owed == [] && Rests(ActRun(t, steps).ses.hw)
      ensures P(ActRun(t, steps).ses.w) == S(ActRun(t, steps).ses.w) && AnsweredSince(ActRun(t, steps).ses.w, b)
    {
      ContinuingKeepsCourse(t, steps, b);
      OnCourseIsShaped(ActRun(t, steps), b);
    }
  }

  // --- A breach shows -----------------------------------------------------------

  /** The continuation in which all kicks that are due come first. */
  function KicksFirst(n: nat): seq<Act> {
    if n == 0 then [Own(Finish), Own(Interrupt)] else [Kicks(0)] + KicksFirst(n - 1)
  }

  lemma {:induction false} KicksFirstEnds(t: Traffic, n: nat)
    requires Shaped(t.ses.w.dev.ring) && |t.owed| == n
    ensures Continues(KicksFirst(n))
    ensures var t' := ActRun(t, KicksFirst(n));
      && t'.owed == [] && Rests(t'.ses.hw)
      && S(t'.ses.w) == S(t.ses.w) && P(t'.ses.w) <= P(t.ses.w) + 1
    decreases n
  {
    if n == 0 {
      FinishAndInterrupt(t);
    } else {
      OneKick(t);
      OneMoreAct(t, Kicks(0), KicksFirst(n - 1));
      hide Step, ActRun, ActAfter;
      KicksFirstEnds(ActAfter(t, Kicks(0)), n - 1);
    }
  }

  lemma FinishAndInterrupt(t: Traffic)
    requires Shaped(t.ses.w.dev.ring)
    ensures var t' := ActRun(t, [Own(Finish), Own(Interrupt)]);
      && t'.owed == t.owed && Rests(t'.ses.hw)
      && S(t'.ses.w) == S(t.ses.w) && P(t'.ses.w) <= P(t.ses.w) + 1
  {
    TwoActs(t, Own(Finish), Own(Interrupt));
    OneIrq(t.ses.w, Finished(t.ses.hw));
    assert Finished(t.ses.hw).job.Idle?;
    hide Step, ActRun, Finished;
  }

  lemma OneKick(t: Traffic)
    requires Shaped(t.ses.w.dev.ring) && t.owed != []
    ensures var t' := ActAfter(t, Kicks(0));
      t'.ses.w == t.ses.w && |t'.owed| == |t.owed| - 1
  {
    KickMovesNothing(t.ses.w, t.owed[0].opcode);
    hide Step;
  }

  lemma OneIrq(w: World, hw: Hw)
    requires Shaped(w.dev.ring)
    ensures var w' := Step(w, Irq(hw.irqStat, hw.fact));
      S(w') == S(w) && P(w') <= P(w) + 1
  {
  }

  /** A bad opcode never gets the device to answer it. */
  lemma BadKickRests(t: Traffic, s: Submission)
    requires Shaped(t.ses.w.dev.ring) && Rests(t.ses.hw) && t.owed == [s] && !ValidOpcode(s.opcode)
    ensures ActRun(t, [Kicks(0)]) == Traffic(t.ses, [])
  {
    OneAct(t, Kicks(0));
    KickMovesNothing(t.ses.w, s.opcode);
    assert [s][..0] + [s][1..] == [];
    hide Step, ActRun;
  }

  lemma BreachShows(t: Traffic, a: Act, b: nat)
    requires OnCourse(t, b) && Shaped(t.ses.w.dev.ring) && !MayLock(t, a)
    ensures !WillAnswer(ActAfter(t, a), b)
  {
    OnCourseIsShaped(t, b);
    var w, t' := t.ses.w, ActAfter(t, a);
    AcceptEffect(w, a.sub);
    assert S(t'.ses.w) == S(w) + 1 && P(t'.ses.w) == P(w);
    if S(w) == P(w) {
      assert t'.owed == [a.sub] && Rests(t'.ses.hw);
      BadKickRests(t', a.sub);
      assert Continues([Kicks(0)]);
      hide Step, ActRun, ActAfter, OnCourse, IndexInv;
    } else {
      KicksFirstEnds(t', |t'.owed|);
      hide Step, ActRun, ActAfter, OnCourse, IndexInv;
    }
  }

  lemma {:induction false} CourseIsExact(t: Traffic, b: nat, acts: seq<Act>)
    requires OnCourse(t, b) && Shaped(t.ses.w.dev.ring)
    requires forall k :: 0 <= k < |acts| ==> !acts[k].Opens?
    ensures OneByOne(t, acts) <==> AlwaysWillAnswer(t, b, acts)
    decreases |acts|
  {
    OnCourseWillAnswer(t, b);
    hide OnCourse, WillAnswer, ActAfter, MayLock;
    if acts != [] {
      if MayLock(t, acts[0]) {
        ActKeepsCourse(t, acts[0], b);
        CourseIsExact(ActAfter(t, acts[0]), b, acts[1..]);
      } else {
        BreachShows(t, acts[0], b);
      }
    }
  }

  /** From any state with nothing outstanding and the device at rest, unread
      completions or not, over any run of any threads short of an open: each
      submission that finds room has a valid opcode and finds nothing outstanding
      if and only if at every point all accepted commands will be answered, each
      with its own tag and result. */
  lemma {:induction false} AnsweredIffOneByOne(t: Traffic, acts: seq<Act>)
    requires Clear(t) && |t.ses.w.epoch.origin| == P(t.ses.w)
    requires forall k :: 0 <= k < |acts| ==> !acts[k].Opens?
    ensures Shaped(t.ses.w.dev.ring)
    ensures OneByOne(t, acts) <==> AlwaysWillAnswer(t, P(t.ses.w), acts)
  {
    CourseIsExact(t, P(t.ses.w), acts);
  }

  lemma OpenIsClear(t: Traffic)
    requires Shaped(t.ses.w.dev.ring) && Rests(t.ses.hw) && t.owed == []
    ensures Clear(ActAfter(t, Opens)) && ActAfter(t, Opens).ses.w.epoch == Epoch([], [], [], [])
    ensures QueueInv(ActAfter(t, Opens).ses.w)
  {
    assert Pending(Restart(t.ses.w.dev.ring).inflight) == {};
  }

  lemma {:induction false} AnsweredIffOneByOneSinceOpen(t: Traffic, acts: seq<Act>)
    requires Shaped(t.ses.w.dev.ring) && Rests(t.ses.hw) && t.owed == []
    requires forall k :: 0 <= k < |acts| ==> !acts[k].Opens?
    ensures OneByOne(ActAfter(t, Opens), acts) <==> AlwaysWillAnswer(ActAfter(t, Opens), 0, acts)
  {
    OpenIsClear(t);
    hide Clear, OneByOne, AlwaysWillAnswer;
    AnsweredIffOneByOne(ActAfter(t, Opens), acts);
  }

  // --- What the polls bring ---------------------------------------------------

  /** The step of the driver that an act is, if any. */
  function EventOf(t: Traffic, a: Act): Event {
    match a
    case Locks(s) => Submit(s)
    case Kicks(i) => if i < |t.owed| then Kick(t.owed[i].opcode) else PollReady
    case Own(e) => if e.Interrupt? then Irq(t.ses.hw.irqStat, t.ses.hw.fact) else PollReady
    case Asks => Poll
    case Opens => Open
  }

  lemma ActIsStep(t: Traffic, a: Act)
    requires Shaped(t.ses.w.dev.ring)
    ensures ActAfter(t, a).ses.w == Step(t.ses.w, EventOf(t, a))
  {
    assert Step(t.ses.w, PollReady) == t.ses.w;
    hide Step;
  }

  lemma ActKeepsQueue(t: Traffic, a: Act)
    requires IndexInv(t.ses.w) && QueueInv(t.ses.w)
    ensures IndexInv(ActAfter(t, a).ses.w) && QueueInv(ActAfter(t, a).ses.w)
  {
    ActIsStep(t, a);
    IndexStep(t.ses.w, EventOf(t, a));
    QueueStep(t.ses.w, EventOf(t, a));
    hide Step, ActAfter, IndexInv, QueueInv;
  }

  lemma OnCourseIsIndexed(t: Traffic, b: nat)
    requires OnCourse(t, b)
    ensures IndexInv(t.ses.w)
  {
  }

  lemma {:induction false} CourseIsPolled(t: Traffic, acts: seq<Act>)
    requires OnCourse(t, 0) && QueueInv(t.ses.w) && Shaped(t.ses.w.dev.ring) && OneByOne(t, acts)
    requires forall k :: 0 <= k < |acts| ==> !acts[k].Opens?
    ensures OnCourse(ActRun(t, acts), 0) && QueueInv(ActRun(t, acts).ses.w)
    decreases |acts|
  {
    hide OnCourse, QueueInv, ActAfter, MayLock;
    if acts != [] {
      OnCourseIsIndexed(t, 0);
      ActKeepsCourse(t, acts[0], 0);
      ActKeepsQueue(t, acts[0]);
      CourseIsPolled(ActAfter(t, acts[0]), acts[1..]);
    }
  }

  /** One by one since an open, the k-th completion that is polled, by whichever
      thread, is the answer to the k-th accepted command. */
  lemma {:induction false} PollsBringAnswers(t: Traffic, acts: seq<Act>, w: World, k: nat)
    requires Shaped(t.ses.w.dev.ring) && Rests(t.ses.hw) && t.owed == []
    requires forall k :: 0 <= k < |acts| ==> !acts[k].Opens?
    requires OneByOne(ActAfter(t, Opens), acts) && w == ActRun(ActAfter(t, Opens), acts).ses.w
    requires k < C(w)
    ensures C(w) <= S(w) && w.epoch.polled[k] == Expected(w.epoch.accepted[k])
  {
    OpenIsClear(t);
    CourseIsPolled(ActAfter(t, Opens), acts);
    assert AnsweredSince(w, 0) && PolledInOrder(w.epoch.polled, w.epoch.posted);
    hide ActRun, ActAfter, OneByOne, IndexInv, Expected;
  }

  // --- The same seen from the run ---------------------------------------------

  predicate ValidLocks(acts: seq<Act>) {
    forall k :: 0 <= k < |acts| && acts[k].Locks? ==> ValidOpcode(acts[k].sub.opcode)
  }

  lemma LockWidens(t: Traffic, a: Act)
    requires IndexInv(t.ses.w) && a.Locks? && !Full(t.ses.w.dev.ring)
    ensures Narrow(ActAfter(t, a).ses) <==> S(t.ses.w) == P(t.ses.w)
  {
    AcceptEffect(t.ses.w, a.sub);
    hide Step, Full;
  }

  /** A run of valid commands with never more than one outstanding is one by one. */
  lemma {:induction false} NarrowIsOneByOne(t: Traffic, acts: seq<Act>)
    requires IndexInv(t.ses.w) && AlwaysNarrow(t, acts) && ValidLocks(acts)
    ensures OneByOne(t, acts)
    decreases |acts|
  {
    assert Shaped(t.ses.w.dev.ring);
    if acts != [] {
      var a, t' := acts[0], ActAfter(t, acts[0]);
      assert Narrow(t'.ses) && ValidLocks(acts[1..]);
      ActIsStep(t, a);
      IndexStep(t.ses.w, EventOf(t, a));
      if a.Locks? && !Full(t.ses.w.dev.ring) {
        LockWidens(t, a);
      }
      hide ActAfter, Step, IndexInv, Full;
      NarrowIsOneByOne(t', acts[1..]);
    }
  }
}
