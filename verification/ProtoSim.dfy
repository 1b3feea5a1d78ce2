/** The synchronous simulated driver, which the queued one refines. */
module ProtoSim {
  import opened Words
  import opened ProtoState
  import opened ProtoRuns

  datatype Sim = Sim(dmaBuf: seq<u8>, dmaLen: nat, lastStatus: u32)

  predicate SimValid(s: Sim) { |s.dmaBuf| == DMA_LEN && s.dmaLen <= DMA_LEN }

  function SimProbed(): Sim { Sim(Zeros(DMA_LEN), DMA_LEN, STATUS_READY) }

  function SimSubmit(s: Sim, c: Command): (s': Sim)
    requires SimValid(s)
    ensures SimValid(s')
  {
    var b := Data(c);
    Sim(b + s.dmaBuf[|b|..], |b|, STATUS_READY + STATUS_DONE)
  }

  /** It clears as many bytes as the last command had, and keeps that length. */
  function SimReset(s: Sim): (s': Sim)
    requires SimValid(s)
    ensures SimValid(s')
  {
    Sim(Zeros(s.dmaLen) + s.dmaBuf[s.dmaLen..], s.dmaLen, STATUS_READY)
  }

  function SimApply(s: Sim, op: Op): (s': Sim)
    requires SimValid(s)
    ensures SimValid(s')
  {
    match op
    case Send(c) => SimSubmit(s, c)
    case Drain => s
    case Clear => SimReset(s)
  }

  function SimRun(s: Sim, ops: seq<Op>): (s': Sim)
    requires SimValid(s)
    ensures SimValid(s')
    decreases |ops|
  {
    if ops == [] then s else SimRun(SimApply(s, ops[0]), ops[1..])
  }

  /** The run refuses no command. */
  predicate Accommodates(n: nat, q: Queue, ops: seq<Op>)
    decreases |ops|
  {
    ops != [] ==>
      && (ops[0].Send? ==> |q.accepted| - q.completed < n)
      && Accommodates(n, QueueAfter(n, q, ops[0]), ops[1..])
  }

  /** The synchronous driver shows the last command since the last reset. */
  predicate Shows(s: Sim, acc: seq<Command>) {
    && SimValid(s)
    && if acc == [] then s.lastStatus == STATUS_READY
       else
         var b := Data(acc[|acc| - 1]);
         s.lastStatus == STATUS_READY + STATUS_DONE && s.dmaLen == |b| && s.dmaBuf[..|b|] == b
  }

  lemma {:induction false} SimShowsLast(n: nat, s: Sim, q: Queue, ops: seq<Op>)
    requires Shows(s, q.accepted) && Accommodates(n, q, ops)
    ensures Shows(SimRun(s, ops), QueueRun(n, q, ops).accepted)
    decreases |ops|
  {
    if ops != [] {
      SimShowsLast(n, SimApply(s, ops[0]), QueueAfter(n, q, ops[0]), ops[1..]);
    }
  }

  /** The queued driver, once drained, agrees with the synchronous one on the
      status, and if a command came since the last reset on its length and its
      bytes. The synchronous driver may start with anything in its buffer. */
  lemma RingRefinesSim(n: nat, s: Sim, ops: seq<Op>)
    requires 0 < n < U32_LIMIT && SimValid(s) && s.lastStatus == STATUS_READY
    requires Accommodates(n, Queue([], 0), ops)
    ensures var d := Process(n, Run(n, Fresh(n), ops));
      var s' := SimRun(s, ops);
      && d.lastStatus == s'.lastStatus
      && (QueueRun(n, Queue([], 0), ops).accepted != [] ==>
            d.lastLength == s'.dmaLen && d.dmaBuf[..s'.dmaLen] == s'.dmaBuf[..s'.dmaLen])
  {
    var q := QueueRun(n, Queue([], 0), ops);
    SimShowsLast(n, s, Queue([], 0), ops);
    RunFromProbe(n, ops);
    StateOfIsValid(n, q.accepted, q.completed);
    ProcessCompletesAll(n, q.accepted, q.completed);
    if q.accepted != [] {
      var b := Data(q.accepted[|q.accepted| - 1]);
      assert Padded(b, DMA_LEN)[..|b|] == b;
    }
  }

  predicate HasSend(ops: seq<Op>) { exists k :: 0 <= k < |ops| && ops[k].Send? }

  lemma {:induction false} SimLengthShrinks(s: Sim, ops: seq<Op>)
    requires SimValid(s)
    ensures if HasSend(ops) then SimRun(s, ops).dmaLen <= MAX_PAYLOAD else SimRun(s, ops).dmaLen == s.dmaLen
    decreases |ops|
  {
    if ops != [] {
      var s' := SimApply(s, ops[0]);
      SimLengthShrinks(s', ops[1..]);
      assert HasSend(ops) <==> ops[0].Send? || HasSend(ops[1..]) by {
        if HasSend(ops[1..]) {
          var k :| 0 <= k < |ops[1..]| && ops[1..][k].Send?;
          assert ops[k + 1].Send?;
        }
        if HasSend(ops) && !ops[0].Send? {
          var k :| 0 <= k < |ops| && ops[k].Send?;
          assert ops[1..][k - 1].Send?;
        }
      }
    }
  }

  /** Unlike the queued driver's, its reset restores the state after probe only
      if no command was ever sent. */
  lemma SimResetIsAFreshStartIffUnused(ops: seq<Op>)
    ensures SimReset(SimRun(SimProbed(), ops)) == SimProbed() <==> !HasSend(ops)
  {
    SimLengthShrinks(SimProbed(), ops);
    var s := SimRun(SimProbed(), ops);
    if !HasSend(ops) {
      assert Zeros(DMA_LEN) + s.dmaBuf[DMA_LEN..] == Zeros(DMA_LEN);
    }
  }

  function LastSent(ops: seq<Op>): Option<Command> {
    if ops == [] then None
    else if LastSent(ops[1..]).Some? then LastSent(ops[1..])
    else if ops[0].Send? then Some(ops[0].cmd)
    else None
  }

  lemma {:induction false} LengthIsLastSent(s: Sim, ops: seq<Op>)
    requires SimValid(s)
    ensures SimRun(s, ops).dmaLen ==
            match LastSent(ops) case Some(c) => Min(c.length, MAX_PAYLOAD) case None => s.dmaLen
    decreases |ops|
  {
    if ops != [] {
      LengthIsLastSent(SimApply(s, ops[0]), ops[1..]);
    }
  }

  lemma {:induction false} SimRunEnds(s: Sim, ops: seq<Op>, op: Op)
    requires SimValid(s)
    ensures SimRun(s, ops + [op]) == SimApply(SimRun(s, ops), op)
    decreases |ops|
  {
    if ops == [] {
      assert [] + [op] == [op] && [op][1..] == [];
    } else {
      assert (ops + [op])[0] == ops[0] && (ops + [op])[1..] == ops[1..] + [op];
      SimRunEnds(SimApply(s, ops[0]), ops[1..], op);
    }
  }

  /** What the reset does clear: as many bytes as the last command had, or as the
      buffer had at the start if none was sent; all others keep what they were. */
  lemma SimResetClears(s: Sim, ops: seq<Op>, i: nat)
    requires SimValid(s) && i < DMA_LEN
    ensures var s1, s2 := SimRun(s, ops), SimRun(s, ops + [Clear]);
      var n := match LastSent(ops) case Some(c) => Min(c.length, MAX_PAYLOAD) case None => s.dmaLen;
      && s2.dmaBuf[i] == (if i < n then 0 else s1.dmaBuf[i])
      && s2.lastStatus == STATUS_READY && s2.dmaLen == s1.dmaLen == n
  {
    LengthIsLastSent(s, ops);
    SimRunEnds(s, ops, Clear);
    hide SimRun;
  }

  /** And what a command does: its bytes come first, all others keep what they were. */
  lemma SimCommandWrites(s: Sim, c: Command, i: nat)
    requires SimValid(s) && i < DMA_LEN
    ensures var s' := SimSubmit(s, c);
      s'.dmaBuf[i] == if i < c.length && i < 256 then c.payload[i] else s.dmaBuf[i]
  {
  }

  /** And a shorter command leaves a longer one's tail in the buffer, which the
      reset does not clear. */
  lemma SimResetLeavesStaleBytes(c1: Command, c2: Command, i: nat)
    requires |Data(c2)| <= i < |Data(c1)|
    ensures SimReset(SimRun(SimProbed(), [Send(c1), Send(c2)])).dmaBuf[i] == c1.payload[i]
  {
    var s1 := SimSubmit(SimProbed(), c1);
    var s2 := SimSubmit(s1, c2);
    assert s1.dmaBuf[i] == c1.payload[i];
    assert s2.dmaBuf[i] == s1.dmaBuf[i];
    assert [Send(c1), Send(c2)][1..] == [Send(c2)] && [Send(c2)][1..] == [];
    assert SimRun(s1, [Send(c2)]) == s2;
  }
}
