/** The legacy DMA test: its steps, what its verdict rests on, and exactly when
    the users of the ring cannot tell that it ran. */
module EduDmaTest {
  import opened Words
  import opened Slab
  import opened EduRing
  import opened EduWorld
  import opened EduSafety
  import opened EduTwoRuns

  /** What happens during one wait of the test: interrupts, the device's writes,
      and the steps of everybody else. Any interrupt ends the wait. */
  datatype Wait = Wait(steps: seq<Event>, timedOut: bool)

  function OutEvents(out: Wait): seq<Event> { [DmaWrite(EduPattern())] + out.steps }

  function HomeEvents(home: Wait): seq<Event> { [DmaWrite(ZeroBlock())] + home.steps }

  function DmaTestEvents(out: Wait, home: Wait): seq<Event> {
    OutEvents(out) +
    if out.timedOut then []
    else HomeEvents(home) + if home.timedOut then [] else [DmaCheck]
  }

  lemma DmaTestRuns(w: World, out: Wait, home: Wait)
    requires Shaped(w.dev.ring)
    ensures var w1 := Run(w, OutEvents(out));
      var w2 := Run(w1, HomeEvents(home));
      Run(w, DmaTestEvents(out, home)) ==
      if out.timedOut then w1 else if home.timedOut then w2 else Step(w2, DmaCheck)
  {
    var a, b := OutEvents(out), HomeEvents(home);
    assert DmaTestEvents(out, home) ==
           if out.timedOut then a else if home.timedOut then a + b else a + b + [DmaCheck];
    hide Step, Run, OutEvents, HomeEvents, DmaTestEvents;
    RunSplits(w, a, b);
    RunSplits(w, a + b, [DmaCheck]);
    RunOne(Run(w, a + b), DmaCheck);
  }

  // --- What the verdict rests on ----------------------------------------------

  /** The step may change the 64 bytes that the test compares. */
  predicate TouchesBuffer(r: Ring, ev: Event) {
    || (ev.Submit? && !Full(r) && r.sqTail < 4)
    || (ev.MmapSq? && ev.i < 4)
    || ev.DmaWrite?
  }

  ghost predicate KeepsBuffer(w: World, evs: seq<Event>)
    requires Shaped(w.dev.ring)
    decreases |evs|
  {
    evs == [] || (!TouchesBuffer(w.dev.ring, evs[0]) && KeepsBuffer(Step(w, evs[0]), evs[1..]))
  }

  lemma BufferKeptByStep(w: World, ev: Event)
    requires Shaped(w.dev.ring) && !TouchesBuffer(w.dev.ring, ev)
    ensures Prefix(Step(w, ev).dev.ring.sq) == Prefix(w.dev.ring.sq)
  {
    var sq, sq' := w.dev.ring.sq, Step(w, ev).dev.ring.sq;
    assert forall i: Slot :: i < 4 ==> sq'[i] == sq[i];
  }

  lemma {:induction false} BufferKept(w: World, evs: seq<Event>)
    requires Shaped(w.dev.ring) && KeepsBuffer(w, evs)
    ensures Prefix(Run(w, evs).dev.ring.sq) == Prefix(w.dev.ring.sq)
    decreases |evs|
  {
    hide Prefix;
    if evs != [] {
      BufferKeptByStep(w, evs[0]);
      BufferKept(Step(w, evs[0]), evs[1..]);
    }
  }

  /** Nobody writes to the fault switch, and no other test ends: two tests never
      overlap, since each holds the device's mutex. */
  predicate SwitchAlone(evs: seq<Event>) {
    forall k :: 0 <= k < |evs| ==> !evs[k].InjectStore? && !evs[k].DmaCheck?
  }

  predicate SameSwitch(d: Device, d': Device) { d'.injectFault == d.injectFault && d'.dmaOk == d.dmaOk }

  lemma {:induction false} SwitchKept(w: World, evs: seq<Event>)
    requires Shaped(w.dev.ring) && SwitchAlone(evs)
    ensures SameSwitch(w.dev, Run(w, evs).dev)
    decreases |evs|
  {
    if evs != [] {
      assert SameSwitch(w.dev, Step(w, evs[0]).dev);
      SwitchKept(Step(w, evs[0]), evs[1..]);
    }
  }

  /** The k-th step of the second wait is the device sending these bytes back,
      and nothing touches them from then on. */
  ghost predicate SentBackAt(w: World, out: Wait, home: Wait, back: Block, k: nat)
    requires Shaped(w.dev.ring)
  {
    && k < |home.steps| && home.steps[k] == DmaWrite(back)
    && KeepsBuffer(Run(w, OutEvents(out) + ([DmaWrite(ZeroBlock())] + home.steps[..k + 1])), home.steps[k + 1..])
  }

  ghost predicate SendsBack(w: World, out: Wait, home: Wait, back: Block)
    requires Shaped(w.dev.ring)
  {
    exists k: nat :: SentBackAt(w, out, home, back, k)
  }

  /** Something else ends the second wait before the device has sent anything. */
  ghost predicate WakesEarly(w: World, out: Wait, home: Wait)
    requires Shaped(w.dev.ring)
  {
    KeepsBuffer(Run(w, OutEvents(out) + [DmaWrite(ZeroBlock())]), home.steps)
  }

  predicate SwitchLeftAlone(out: Wait, home: Wait) { SwitchAlone(out.steps) && SwitchAlone(home.steps) }

  /** The state in which the bytes are compared. */
  function Compared(w: World, out: Wait, home: Wait): (w': World)
    requires Shaped(w.dev.ring)
    ensures Shaped(w'.dev.ring)
  {
    Run(Run(w, OutEvents(out)), HomeEvents(home))
  }

  lemma SwitchAtEnd(w: World, out: Wait, home: Wait)
    requires Shaped(w.dev.ring)
    ensures SwitchAlone(out.steps) ==> SameSwitch(w.dev, Run(w, OutEvents(out)).dev)
    ensures SwitchLeftAlone(out, home) ==> SameSwitch(w.dev, Compared(w, out, home).dev)
  {
    hide Run;
    if SwitchAlone(out.steps) {
      SwitchKept(w, OutEvents(out));
      if SwitchAlone(home.steps) {
        SwitchKept(Run(w, OutEvents(out)), HomeEvents(home));
      }
    }
  }

  lemma {:induction false} BackAtEnd(w: World, out: Wait, home: Wait, back: Block)
    requires Shaped(w.dev.ring) && SendsBack(w, out, home, back)
    ensures Prefix(Compared(w, out, home).dev.ring.sq) == back
  {
    hide Run, Prefix, KeepsBuffer, Overwrite;
    var k: nat :| SentBackAt(w, out, home, back, k);
    var early := OutEvents(out) + ([DmaWrite(ZeroBlock())] + home.steps[..k]);
    var w1 := Run(w, early);
    var w2 := Step(w1, DmaWrite(back));
    RunSplits(w, early, [DmaWrite(back)]);
    RunOne(w1, DmaWrite(back));
    assert early + [DmaWrite(back)] == OutEvents(out) + ([DmaWrite(ZeroBlock())] + home.steps[..k + 1]);
    assert w2.dev.ring.sq == Overwrite(w1.dev.ring.sq, back);
    hide Step;
    ReadBackOverwrite(w1.dev.ring.sq, back);
    BufferKept(w2, home.steps[k + 1..]);
    RunSplits(w, early + [DmaWrite(back)], home.steps[k + 1..]);
    RunSplits(w, OutEvents(out), HomeEvents(home));
    assert OutEvents(out) + HomeEvents(home) == early + [DmaWrite(back)] + home.steps[k + 1..];
  }

  lemma ZerosAtEnd(w: World, out: Wait, home: Wait)
    requires Shaped(w.dev.ring) && WakesEarly(w, out, home)
    ensures Prefix(Compared(w, out, home).dev.ring.sq) == ZeroBlock()
  {
    hide Run, Prefix, KeepsBuffer, Overwrite;
    var w1 := Run(w, OutEvents(out));
    var w2 := Step(w1, DmaWrite(ZeroBlock()));
    RunSplits(w, OutEvents(out), [DmaWrite(ZeroBlock())]);
    RunOne(w1, DmaWrite(ZeroBlock()));
    assert w2.dev.ring.sq == Overwrite(w1.dev.ring.sq, ZeroBlock());
    hide Step;
    ReadBackOverwrite(w1.dev.ring.sq, ZeroBlock());
    BufferKept(w2, home.steps);
    RunSplits(w1, [DmaWrite(ZeroBlock())], home.steps);
  }

  lemma PatternIsNotZero()
    ensures EduPattern() != ZeroBlock()
  {
    assert EduPattern()[0] == 0x45 && ZeroBlock()[0] == 0;
  }

  // --- What the test sends out and leaves behind --------------------------------

  /** What a device that reads the 64 bytes after k steps of the first wait gets. */
  function HeldAt(w: World, out: Wait, k: nat): Block
    requires Shaped(w.dev.ring) && k <= |out.steps|
  {
    Prefix(Run(w, OutEvents(out)[..k + 1]).dev.ring.sq)
  }

  /** Nothing touches the bytes before then, once the pattern is there. */
  ghost predicate OutUntouched(w: World, out: Wait, k: nat)
    requires Shaped(w.dev.ring)
  {
    k <= |out.steps| && KeepsBuffer(Step(w, DmaWrite(EduPattern())), out.steps[..k])
  }

  /** It gets the pattern. */
  lemma OutHoldsPattern(w: World, out: Wait, k: nat)
    requires Shaped(w.dev.ring) && OutUntouched(w, out, k)
    ensures HeldAt(w, out, k) == EduPattern()
  {
    var w1 := Step(w, DmaWrite(EduPattern()));
    assert OutEvents(out)[..k + 1] == [DmaWrite(EduPattern())] + out.steps[..k];
    assert w1.dev.ring.sq == Overwrite(w.dev.ring.sq, EduPattern());
    hide Step, Run, Prefix, KeepsBuffer, Overwrite, EduPattern, OutEvents;
    RunSplits(w, [DmaWrite(EduPattern())], out.steps[..k]);
    RunOne(w, DmaWrite(EduPattern()));
    ReadBackOverwrite(w.dev.ring.sq, EduPattern());
    BufferKept(w1, out.steps[..k]);
  }

  lemma CheckKeepsBuffer(w: World)
    requires Shaped(w.dev.ring)
    ensures Step(w, DmaCheck).dev.ring == w.dev.ring
  {
  }

  /** What is in slots 0 to 3 when the test returns, if nobody else touches them: the
      pattern if the first wait times out, and otherwise, timed out or not, what
      the device sent back, or zeros if it sent nothing. */
  lemma TestLeaves(w: World, out: Wait, home: Wait)
    requires Shaped(w.dev.ring)
    ensures var b := Prefix(Run(w, DmaTestEvents(out, home)).dev.ring.sq);
      && (out.timedOut && OutUntouched(w, out, |out.steps|) ==> b == EduPattern())
      && (!out.timedOut && WakesEarly(w, out, home) ==> b == ZeroBlock())
      && (!out.timedOut ==> forall back | SendsBack(w, out, home, back) :: b == back)
  {
    hide Run, Step, Prefix, SendsBack, WakesEarly, OutUntouched, EduPattern;
    DmaTestRuns(w, out, home);
    if out.timedOut {
      if OutUntouched(w, out, |out.steps|) {
        OutHoldsPattern(w, out, |out.steps|);
        assert OutEvents(out)[..|out.steps| + 1] == OutEvents(out);
      }
    } else {
      CheckKeepsBuffer(Compared(w, out, home));
      if WakesEarly(w, out, home) {
        ZerosAtEnd(w, out, home);
      }
      forall back | SendsBack(w, out, home, back)
        ensures Prefix(Compared(w, out, home).dev.ring.sq) == back
      {
        BackAtEnd(w, out, home, back);
      }
    }
  }

  // --- When the test is harmless ------------------------------------------------

  /** The test's own writes, its verdict, and interrupts. */
  predicate LegacyDma(ev: Event) { ev.DmaWrite? || ev.Irq? || ev.DmaCheck? }

  predicate LegacyDmas(test: seq<Event>) { forall k :: 0 <= k < |test| ==> LegacyDma(test[k]) }

  predicate HasCause(ev: Event) { ev.Irq? && ev.stat != 0 }

  predicate Interrupted(test: seq<Event>) { exists k :: 0 <= k < |test| && HasCause(test[k]) }

  lemma {:induction false} TestIsLegacy(out: Wait, home: Wait)
    requires LegacyDmas(out.steps) && LegacyDmas(home.steps)
    ensures LegacyDmas(DmaTestEvents(out, home))
  {
  }

  ghost predicate OnlyFirstFour(r: Ring, r': Ring) {
    && Shaped(r) && Shaped(r')
    && r' == r.(sq := r'.sq)
    && forall i: Slot :: i >= 4 ==> r'.sq[i] == r.sq[i]
  }

  lemma QuietHasNoLowest(r: Ring)
    requires Shaped(r)
    ensures Quiet(r) <==> Lowest(r.inflight) == RING_SIZE
  {
    if Lowest(r.inflight) < RING_SIZE {
      assert r.inflight[Lowest(r.inflight)] != 0;
    }
  }

  lemma {:induction false} DmaTestKeepsRing(d: Device, test: seq<Event>)
    requires Shaped(d.ring) && Quiet(d.ring) && LegacyDmas(test)
    ensures OnlyFirstFour(d.ring, AfterAll(d, test).ring)
    decreases |test|
  {
    if test != [] {
      QuietHasNoLowest(d.ring);
      DmaTestKeepsRing(After(d, test[0]), test[1..]);
    }
  }

  /** Run with nothing pending, the DMA test leaves the indices, the pending
      table, submission slots 4 to 63 and the whole completion queue alone, and
      every later sequence of ring steps answers as if it had never run. */
  lemma {:induction false} DmaTestDoesNotInterfere(d: Device, test: seq<Event>, later: seq<Event>)
    requires Shaped(d.ring) && Quiet(d.ring) && LegacyDmas(test) && RingEvents(later)
    ensures OnlyFirstFour(d.ring, AfterAll(d, test).ring)
    ensures Replies(AfterAll(d, test), later) == Replies(d, later)
  {
    DmaTestKeepsRing(d, test);
    DeadEntriesAreUnobservable(AfterAll(d, test), d, later);
  }

  lemma LegacyStep(w: World, ev: Event)
    requires IndexInv(w) && LegacyDma(ev)
    ensures var w' := Step(w, ev);
      && IndexInv(w') && C(w') == C(w)
      && (HasCause(ev) && !Quiet(w.dev.ring) ==> P(w') == P(w) + 1)
      && (!HasCause(ev) || Quiet(w.dev.ring) ==> P(w') == P(w) && w'.dev.ring.inflight == w.dev.ring.inflight)
  {
    QuietHasNoLowest(w.dev.ring);
    IndexStep(w, ev);
  }

  lemma {:induction false} TestPosts(w: World, test: seq<Event>)
    requires IndexInv(w) && LegacyDmas(test)
    ensures IndexInv(Run(w, test)) && C(Run(w, test)) == C(w) && P(Run(w, test)) >= P(w)
    ensures !Quiet(w.dev.ring) && Interrupted(test) ==> P(Run(w, test)) > P(w)
    decreases |test|
  {
    hide Step;
    if test != [] {
      LegacyStep(w, test[0]);
      TestPosts(Step(w, test[0]), test[1..]);
      if Interrupted(test) && !HasCause(test[0]) {
        var k :| 0 <= k < |test| && HasCause(test[k]);
        assert HasCause(test[1..][k - 1]);
      }
    }
  }

  /** A test that takes an interrupt is harmless exactly when it starts with
      nothing pending: otherwise one of its interrupts completes a command, and
      the polls show it. */
  lemma {:induction false} DmaTestIsHarmlessIffQuiet(w: World, test: seq<Event>)
    requires Reachable(w) && LegacyDmas(test) && Interrupted(test)
    ensures SameReplies(w.dev, AfterAll(w.dev, test)) <==> Quiet(w.dev.ring)
  {
    ReachableIndex(w);
    AfterAllIsRun(w, test);
    TestPosts(w, test);
    if Quiet(w.dev.ring) {
      DmaTestKeepsRing(w.dev, test);
      AlikeMeansSameReplies(w.dev, AfterAll(w.dev, test));
    } else {
      var evs := BacklogTells(w, Run(w, test));
      assert !SameReplies(w.dev, AfterAll(w.dev, test));
    }
  }

  /** The bytes that the test leaves in slots 0 to 3, if it writes any. */
  function LastWrite(test: seq<Event>): Option<Block> {
    if test == [] then None
    else if LastWrite(test[1..]).Some? then LastWrite(test[1..])
    else if test[0].DmaWrite? then Some(test[0].block)
    else None
  }

  function Written(sq: seq<SqEntry>, b: Option<Block>): (r: seq<SqEntry>)
    requires |sq| == RING_SIZE
    ensures |r| == RING_SIZE
  {
    if b.Some? then Overwrite(sq, b.value) else sq
  }

  lemma LaterWriteWins(sq: seq<SqEntry>, b1: Block, b2: Block)
    requires |sq| == RING_SIZE
    ensures Overwrite(Overwrite(sq, b1), b2) == Overwrite(sq, b2)
  {
  }

  lemma SilentStep(d: Device, ev: Event)
    requires Shaped(d.ring) && LegacyDma(ev) && !HasCause(ev)
    ensures After(d, ev).ring == d.ring.(sq := if ev.DmaWrite? then Overwrite(d.ring.sq, ev.block) else d.ring.sq)
  {
  }

  /** Without interrupts, a test does no more than that. */
  lemma {:induction false} SilentTestWrites(d: Device, test: seq<Event>)
    requires Shaped(d.ring) && LegacyDmas(test) && !Interrupted(test)
    ensures AfterAll(d, test).ring == d.ring.(sq := Written(d.ring.sq, LastWrite(test)))
    decreases |test|
  {
    if test != [] {
      var ev, d' := test[0], After(d, test[0]);
      assert !HasCause(ev) && forall k :: 0 <= k < |test[1..]| ==> test[1..][k] == test[k + 1];
      SilentStep(d, ev);
      hide After, Overwrite, HasCause;
      SilentTestWrites(d', test[1..]);
      var later := LastWrite(test[1..]);
      if later.Some? && ev.DmaWrite? {
        LaterWriteWins(d.ring.sq, ev.block, later.value);
      }
    }
  }

  /** What is pending on slots 0 to 3 answers as the entries left there would. */
  predicate SparesPending(r: Ring, b: Option<Block>)
    requires Shaped(r)
  {
    forall i: Slot :: i < 4 && r.inflight[i] != 0 ==> SameAnswer(r.sq[i], Written(r.sq, b)[i])
  }

  lemma {:induction false} SilentTestIsHarmlessIff(w: World, test: seq<Event>)
    requires Reachable(w) && LegacyDmas(test) && !Interrupted(test)
    ensures Shaped(w.dev.ring)
    ensures SameReplies(w.dev, AfterAll(w.dev, test)) <==> SparesPending(w.dev.ring, LastWrite(test))
  {
    ReachableIndex(w);
    var r, sq' := w.dev.ring, Written(w.dev.ring.sq, LastWrite(test));
    SilentTestWrites(w.dev, test);
    UnobservableIffAlike(w, AfterAll(w.dev, test));
    assert forall i: Slot :: i >= 4 ==> sq'[i] == r.sq[i];
    hide AfterAll, SameReplies, Written, LastWrite;
  }

  /** The test as it is performed, whatever interrupts and device writes its two
      waits see, finished or timed out: no later answer of the ring shows it if and
      only if, in case it takes an interrupt, nothing is pending at its start, and
      otherwise what is pending on slots 0 to 3 would be answered alike by the
      entries that it leaves there. */
  lemma {:induction false} DmaTestIsHarmlessIff(w: World, out: Wait, home: Wait)
    requires Reachable(w) && LegacyDmas(out.steps) && LegacyDmas(home.steps)
    ensures Shaped(w.dev.ring)
    ensures var test := DmaTestEvents(out, home);
      SameReplies(w.dev, Run(w, test).dev) <==>
      if Interrupted(test) then Quiet(w.dev.ring) else SparesPending(w.dev.ring, LastWrite(test))
  {
    ReachableIndex(w);
    var test := DmaTestEvents(out, home);
    TestIsLegacy(out, home);
    AfterAllIsRun(w, test);
    hide Run, SameReplies, LastWrite, DmaTestEvents, SparesPending;
    if Interrupted(test) {
      DmaTestIsHarmlessIffQuiet(w, test);
    } else {
      SilentTestIsHarmlessIff(w, test);
    }
  }

  lemma InterruptIsHarmlessIffQuiet(w: World, stat: u32, fact: u32)
    requires Reachable(w) && stat != 0
    ensures SameReplies(w.dev, After(w.dev, Irq(stat, fact))) <==> Quiet(w.dev.ring)
  {
    var test := [Irq(stat, fact)];
    assert HasCause(test[0]);
    assert test[1..] == [];
    DmaTestIsHarmlessIffQuiet(w, test);
  }

  lemma OverwrittenOpcode(sq: seq<SqEntry>, b: Block, i: Slot)
    requires |sq| == RING_SIZE && i < 4
    ensures Overwrite(sq, b)[i].opcode == b[16 * i + 2]
  {
    var e := b[16 * i..16 * i + 16];
    assert Overwrite(sq, b)[i] == Decode(e);
    assert e[2] == b[16 * i + 2];
    var c := e[2..3];
    assert c[0] == e[2] && c[1..] == [];
  }

  lemma PendingSlotShows(w: World, i: Slot)
    requires Reachable(w) && Shaped(w.dev.ring) && i < 4 && w.dev.ring.inflight[i] != 0
    ensures exists b: Block :: !SameReplies(w.dev, After(w.dev, DmaWrite(b)))
  {
    var r := w.dev.ring;
    var b: Block := seq(DMA_TEST_LEN, _ => if r.sq[i].opcode == OP_FACTORIAL then 0 else 1);
    OverwrittenOpcode(r.sq, b, i);
    var d := After(w.dev, DmaWrite(b));
    assert !SameAnswer(r.sq[i], d.ring.sq[i]);
    hide After, Overwrite;
    UnobservableIffAlike(w, d);
    assert !SameReplies(w.dev, After(w.dev, DmaWrite(b)));
  }

  lemma IdleSlotsMayChange(d: Device, b: Block)
    requires Shaped(d.ring) && forall i: Slot :: i < 4 ==> d.ring.inflight[i] == 0
    ensures SameReplies(d, After(d, DmaWrite(b)))
  {
    AlikeMeansSameReplies(d, After(d, DmaWrite(b)));
  }

  /** The test's writes alone are harmless, whatever the bytes, exactly when
      slots 0 to 3 are idle. */
  lemma WritesAreHarmlessIffIdle(w: World)
    requires Reachable(w)
    ensures Shaped(w.dev.ring)
    ensures (forall b: Block :: SameReplies(w.dev, After(w.dev, DmaWrite(b)))) <==>
            forall i: Slot :: i < 4 ==> w.dev.ring.inflight[i] == 0
  {
    ReachableIndex(w);
    if i: Slot :| i < 4 && w.dev.ring.inflight[i] != 0 {
      PendingSlotShows(w, i);
    } else {
      forall b: Block
        ensures SameReplies(w.dev, After(w.dev, DmaWrite(b)))
      {
        IdleSlotsMayChange(w.dev, b);
      }
    }
  }
}
