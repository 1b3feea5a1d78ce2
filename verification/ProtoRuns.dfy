/** Every state the rings can reach is determined by the commands accepted since
    the last reset and by how many of them have been completed. */
module ProtoRuns {
  import opened Words
  import opened ProtoState

  /** The last of the first `count` positions that falls on slot i, if any. */
  function LastAt(count: nat, i: nat, n: nat): (j: Option<nat>)
    requires n > 0
    ensures j.Some? ==> j.value < count && j.value % n == i
  {
    if count == 0 then None
    else if (count - 1) % n == i then Some(count - 1)
    else LastAt(count - 1, i, n)
  }

  function EntryOf(acc: seq<Command>, j: nat): CmdEntry
    requires j < |acc|
  {
    var b := Data(acc[j]);
    CmdEntry(acc[j].opcode, |b|, Wrap32(j + 1), ByteSumU32(b), Padded(b, PREVIEW))
  }

  function CompletionOf(acc: seq<Command>, j: nat): CompEntry
    requires j < |acc|
  {
    CompEntry(acc[j].opcode, STATUS_READY + STATUS_DONE, |Data(acc[j])|, Wrap32(j + 1), Zeros(PREVIEW))
  }

  function ByteSumU32(b: seq<u8>): u32 { Wrap32(ByteSum(b)) }

  function CmdSlot(acc: seq<Command>, n: nat, i: nat): CmdEntry
    requires n > 0
  {
    match LastAt(|acc|, i, n) case None => ZeroCmd() case Some(j) => EntryOf(acc, j)
  }

  function PayloadSlot(acc: seq<Command>, n: nat, i: nat): seq<u8>
    requires n > 0
  {
    match LastAt(|acc|, i, n) case None => Zeros(MAX_PAYLOAD) case Some(j) => Padded(Data(acc[j]), MAX_PAYLOAD)
  }

  function CompSlot(acc: seq<Command>, t: nat, n: nat, i: nat): CompEntry
    requires n > 0 && t <= |acc|
  {
    match LastAt(t, i, n) case None => ZeroComp() case Some(j) => CompletionOf(acc, j)
  }

  function CmdRingOf(acc: seq<Command>, n: nat): (r: seq<CmdEntry>)
    requires n > 0
    ensures |r| == n && forall i :: 0 <= i < n ==> r[i] == CmdSlot(acc, n, i)
  {
    seq(n, i requires 0 <= i < n => CmdSlot(acc, n, i))
  }

  function PayloadsOf(acc: seq<Command>, n: nat): (r: seq<seq<u8>>)
    requires n > 0
    ensures |r| == n && forall i :: 0 <= i < n ==> r[i] == PayloadSlot(acc, n, i)
  {
    seq(n, i requires 0 <= i < n => PayloadSlot(acc, n, i))
  }

  function CompRingOf(acc: seq<Command>, t: nat, n: nat): (r: seq<CompEntry>)
    requires n > 0 && t <= |acc|
    ensures |r| == n && forall i :: 0 <= i < n ==> r[i] == CompSlot(acc, t, n, i)
  {
    seq(n, i requires 0 <= i < n => CompSlot(acc, t, n, i))
  }

  /** The state, field by field, after the commands `acc` with t completed. */
  function StateOf(n: nat, acc: seq<Command>, t: nat): State
    requires n > 0 && t <= |acc| <= t + n
  {
    State(
      CmdRingOf(acc, n), CompRingOf(acc, t, n), PayloadsOf(acc, n),
      if t == 0 then Zeros(DMA_LEN) else Padded(Data(acc[t - 1]), DMA_LEN),
      if t == |acc| && t > 0 then STATUS_READY + STATUS_DONE else STATUS_READY,
      t % n, |acc| % n, |acc| - t,
      0, t % n, Min(t, n),
      Wrap32(t),
      if t == 0 then 0 else acc[t - 1].opcode,
      if t == 0 then 0 else |Data(acc[t - 1])|,
      Wrap32(|acc| + 1))
  }

  /** Positions less than a lap old are still on their slots. */
  lemma {:induction false} WindowIsKept(count: nat, j: nat, n: nat)
    requires n > 0 && j < count <= j + n
    ensures LastAt(count, j % n, n) == Some(j)
    decreases count
  {
    if count > j + 1 {
      ModInjective(j, count - 1, n);
      WindowIsKept(count - 1, j, n);
    }
  }

  lemma StateOfIsValid(n: nat, acc: seq<Command>, t: nat)
    requires 0 < n < U32_LIMIT && t <= |acc| <= t + n
    ensures Valid(n, StateOf(n, acc, t))
  {
    var d := StateOf(n, acc, t);
    forall i | 0 <= i < n
      ensures |d.payloads[i]| == MAX_PAYLOAD && d.cmdRing[i].length <= MAX_PAYLOAD
    {
      assert d.payloads[i] == PayloadSlot(acc, n, i) && d.cmdRing[i] == CmdSlot(acc, n, i);
    }
  }

  lemma FreshIsEmpty(n: nat)
    requires 0 < n < U32_LIMIT
    ensures Fresh(n) == StateOf(n, [], 0)
  {
    var d, e := Fresh(n), StateOf(n, [], 0);
    assert d.cmdRing == e.cmdRing;
    assert d.compRing == e.compRing;
    assert d.payloads == e.payloads;
  }

  lemma CmdRingAppends(acc: seq<Command>, n: nat, c: Command)
    requires n > 0
    ensures CmdRingOf(acc, n)[|acc| % n := EntryOf(acc + [c], |acc|)] == CmdRingOf(acc + [c], n)
    ensures PayloadsOf(acc, n)[|acc| % n := Padded(Data(c), MAX_PAYLOAD)] == PayloadsOf(acc + [c], n)
  {
    var acc' := acc + [c];
    forall i | 0 <= i < n
      ensures LastAt(|acc'|, i, n) == if |acc| % n == i then Some(|acc|) else LastAt(|acc|, i, n)
    {
    }
    assert forall j :: 0 <= j < |acc| ==> acc'[j] == acc[j];
  }

  lemma CompRingIgnores(acc: seq<Command>, t: nat, n: nat, c: Command)
    requires n > 0 && t <= |acc|
    ensures CompRingOf(acc + [c], t, n) == CompRingOf(acc, t, n)
  {
    assert forall j :: 0 <= j < |acc| ==> (acc + [c])[j] == acc[j];
  }

  lemma EnqueueAppends(n: nat, acc: seq<Command>, t: nat, c: Command)
    requires 0 < n < U32_LIMIT && t <= |acc| < t + n
    requires Valid(n, StateOf(n, acc, t))
    ensures Enqueue(n, StateOf(n, acc, t), c) == StateOf(n, acc + [c], t)
  {
    hide LastAt, CmdRingOf, PayloadsOf, CompRingOf, ByteSum, Padded, Data;
    CmdRingAppends(acc, n, c);
    CompRingIgnores(acc, t, n, c);
    ModAdd(|acc|, 1, n);
    WrapTwice(|acc| + 1);
    var acc' := acc + [c];
    assert acc'[|acc|] == c;
    if t > 0 {
      assert acc'[t - 1] == acc[t - 1];
    }
  }

  lemma WrapTwice(x: nat)
    ensures Wrap32(Wrap32(x) + 1) == Wrap32(x + 1)
  {
  }

  lemma CompRingAppends(acc: seq<Command>, t: nat, n: nat)
    requires n > 0 && t < |acc|
    ensures CompRingOf(acc, t, n)[t % n := CompletionOf(acc, t)] == CompRingOf(acc, t + 1, n)
  {
    forall i | 0 <= i < n
      ensures LastAt(t + 1, i, n) == if t % n == i then Some(t) else LastAt(t, i, n)
    {
    }
  }

  lemma HeadSlot(acc: seq<Command>, t: nat, n: nat)
    requires n > 0 && t < |acc| <= t + n
    ensures CmdRingOf(acc, n)[t % n] == EntryOf(acc, t)
    ensures PayloadsOf(acc, n)[t % n] == Padded(Data(acc[t]), MAX_PAYLOAD)
    ensures PayloadsOf(acc, n)[t % n][..|Data(acc[t])|] == Data(acc[t])
  {
    WindowIsKept(|acc|, t, n);
  }

  /** In the middle of a drain the status says done already. */
  function Draining(n: nat, acc: seq<Command>, t: nat, status: u32): State
    requires n > 0 && t <= |acc| <= t + n
  {
    StateOf(n, acc, t).(lastStatus := status)
  }

  lemma DrainCompletes(n: nat, acc: seq<Command>, t: nat, status: u32)
    requires 0 < n < U32_LIMIT && t < |acc| <= t + n
    requires Valid(n, Draining(n, acc, t, status))
    ensures DrainOne(n, Draining(n, acc, t, status)) == Draining(n, acc, t + 1, STATUS_READY + STATUS_DONE)
  {
    hide LastAt, CmdRingOf, PayloadsOf, CompRingOf, ByteSum, Padded, Data;
    HeadSlot(acc, t, n);
    CompRingAppends(acc, t, n);
    ModAdd(t, 1, n);
    WrapTwice(t);
  }

  lemma {:induction false} DrainCompletesAll(n: nat, acc: seq<Command>, t: nat, status: u32)
    requires 0 < n < U32_LIMIT && t <= |acc| <= t + n
    requires t == |acc| ==> status == StateOf(n, acc, t).lastStatus
    requires Valid(n, Draining(n, acc, t, status))
    ensures Process(n, Draining(n, acc, t, status)) == StateOf(n, acc, |acc|)
    decreases |acc| - t
  {
    assert Draining(n, acc, t, status).cmdPending == |acc| - t;
    if t == |acc| {
      assert Draining(n, acc, t, status) == StateOf(n, acc, t);
    } else {
      StateOfIsValid(n, acc, t + 1);
      hide StateOf, Draining, DrainOne;
      DrainCompletes(n, acc, t, status);
      DrainCompletesAll(n, acc, t + 1, STATUS_READY + STATUS_DONE);
    }
  }

  lemma ProcessCompletesAll(n: nat, acc: seq<Command>, t: nat)
    requires 0 < n < U32_LIMIT && t <= |acc| <= t + n
    requires Valid(n, StateOf(n, acc, t))
    ensures Process(n, StateOf(n, acc, t)) == StateOf(n, acc, |acc|)
  {
    var status := StateOf(n, acc, t).lastStatus;
    assert Draining(n, acc, t, status) == StateOf(n, acc, t);
    DrainCompletesAll(n, acc, t, status);
  }

  lemma ResetEmpties(n: nat, d: State)
    requires Valid(n, d)
    ensures Reset(n, d) == Fresh(n)
  {
  }

  // --- Runs ---------------------------------------------------------------

  /** What the run has accepted since its last reset, and how many of those are
      completed: a queue of capacity n. */
  datatype Queue = Queue(accepted: seq<Command>, completed: nat)

  predicate QueueOk(n: nat, q: Queue) { q.completed <= |q.accepted| <= q.completed + n }

  function QueueAfter(n: nat, q: Queue, op: Op): Queue {
    match op
    case Send(c) => if |q.accepted| - q.completed >= n then q else q.(accepted := q.accepted + [c])
    case Drain => q.(completed := |q.accepted|)
    case Clear => Queue([], 0)
  }

  function QueueRun(n: nat, q: Queue, ops: seq<Op>): Queue
    decreases |ops|
  {
    if ops == [] then q else QueueRun(n, QueueAfter(n, q, ops[0]), ops[1..])
  }

  lemma ApplyFollowsQueue(n: nat, q: Queue, op: Op)
    requires 0 < n < U32_LIMIT && QueueOk(n, q)
    requires Valid(n, StateOf(n, q.accepted, q.completed))
    ensures var q' := QueueAfter(n, q, op);
      QueueOk(n, q') && Apply(n, StateOf(n, q.accepted, q.completed), op) == StateOf(n, q'.accepted, q'.completed)
  {
    match op {
      case Send(c) =>
        if |q.accepted| - q.completed < n {
          EnqueueAppends(n, q.accepted, q.completed, c);
        }
      case Drain => ProcessCompletesAll(n, q.accepted, q.completed);
      case Clear =>
        ResetEmpties(n, StateOf(n, q.accepted, q.completed));
        FreshIsEmpty(n);
    }
  }

  /** The rings refine a bounded first-in first-out queue: after any run the
      whole device state is the one the queue determines. */
  lemma {:induction false} RunFollowsQueue(n: nat, q: Queue, ops: seq<Op>)
    requires 0 < n < U32_LIMIT && QueueOk(n, q)
    requires Valid(n, StateOf(n, q.accepted, q.completed))
    ensures var q' := QueueRun(n, q, ops);
      QueueOk(n, q') && Run(n, StateOf(n, q.accepted, q.completed), ops) == StateOf(n, q'.accepted, q'.completed)
    decreases |ops|
  {
    if ops != [] {
      var q' := QueueAfter(n, q, ops[0]);
      ApplyFollowsQueue(n, q, ops[0]);
      StateOfIsValid(n, q'.accepted, q'.completed);
      RunFollowsQueue(n, q', ops[1..]);
    }
  }

  lemma RunFromProbe(n: nat, ops: seq<Op>)
    requires 0 < n < U32_LIMIT
    ensures var q := QueueRun(n, Queue([], 0), ops);
      QueueOk(n, q) && Run(n, Fresh(n), ops) == StateOf(n, q.accepted, q.completed)
  {
    FreshIsEmpty(n);
    RunFollowsQueue(n, Queue([], 0), ops);
  }

  /** The commands of a run that were accepted, in order. */
  function AcceptedBy(n: nat, d: State, ops: seq<Op>): seq<Command>
    requires Valid(n, d)
    decreases |ops|
  {
    if ops == [] then [] else AcceptedNow(n, d, ops[0]) + AcceptedBy(n, Apply(n, d, ops[0]), ops[1..])
  }

  function AcceptedNow(n: nat, d: State, op: Op): seq<Command> {
    if op.Send? && !Rejects(n, d) then [op.cmd] else []
  }

  /** Processing after every single enqueue. */
  function Eagerly(n: nat, d: State, cs: seq<Command>): (d': State)
    requires Valid(n, d) && d.cmdPending == 0
    ensures Valid(n, d')
    decreases |cs|
  {
    if cs == [] then d else Eagerly(n, Process(n, Enqueue(n, d, cs[0])), cs[1..])
  }

  predicate NoReset(ops: seq<Op>) { forall k :: 0 <= k < |ops| ==> !ops[k].Clear? }

  lemma {:induction false} EagerlyCompletes(n: nat, acc: seq<Command>, cs: seq<Command>)
    requires 0 < n < U32_LIMIT && Valid(n, StateOf(n, acc, |acc|))
    ensures Eagerly(n, StateOf(n, acc, |acc|), cs) == StateOf(n, acc + cs, |acc + cs|)
    decreases |cs|
  {
    hide StateOf, Enqueue, Process, Valid;
    if cs == [] {
      assert acc + cs == acc;
    } else {
      var acc' := acc + [cs[0]];
      EnqueueAppends(n, acc, |acc|, cs[0]);
      StateOfIsValid(n, acc', |acc|);
      ProcessCompletesAll(n, acc', |acc|);
      StateOfIsValid(n, acc', |acc'|);
      EagerlyCompletes(n, acc', cs[1..]);
      assert acc' + cs[1..] == acc + cs;
    }
  }

  lemma QueueAcceptsNow(n: nat, q: Queue, d: State, op: Op)
    requires 0 < n < U32_LIMIT && QueueOk(n, q) && !op.Clear?
    requires d == StateOf(n, q.accepted, q.completed) && Valid(n, d)
    ensures var q' := QueueAfter(n, q, op);
      QueueOk(n, q') && Apply(n, d, op) == StateOf(n, q'.accepted, q'.completed)
    ensures QueueAfter(n, q, op).accepted == q.accepted + AcceptedNow(n, d, op)
  {
    assert Rejects(n, d) <==> |q.accepted| - q.completed >= n;
    ApplyFollowsQueue(n, q, op);
    hide StateOf, Apply, Rejects;
  }

  lemma {:induction false} QueueAccepts(n: nat, q: Queue, d: State, ops: seq<Op>)
    requires 0 < n < U32_LIMIT && QueueOk(n, q) && NoReset(ops)
    requires d == StateOf(n, q.accepted, q.completed) && Valid(n, d)
    ensures QueueRun(n, q, ops).accepted == q.accepted + AcceptedBy(n, d, ops)
    decreases |ops|
  {
    if ops != [] {
      var d' := Apply(n, d, ops[0]);
      QueueAcceptsNow(n, q, d, ops[0]);
      hide StateOf, Apply, AcceptedNow, QueueAfter;
      QueueAccepts(n, QueueAfter(n, q, ops[0]), d', ops[1..]);
    }
  }

  /** Batching is unobservable: however enqueues and process calls were mixed,
      one last process leaves the state, in full, that processing after every
      accepted enqueue would have left. */
  lemma BatchingIsUnobservable(n: nat, before: seq<Op>, ops: seq<Op>)
    requires 0 < n < U32_LIMIT && NoReset(ops)
    ensures var d := Run(n, Fresh(n), before);
      Process(n, Run(n, d, ops)) == Eagerly(n, Process(n, d), AcceptedBy(n, d, ops))
  {
    var q := QueueRun(n, Queue([], 0), before);
    RunFromProbe(n, before);
    var q' := QueueRun(n, q, ops);
    StateOfIsValid(n, q.accepted, q.completed);
    RunFollowsQueue(n, q, ops);
    StateOfIsValid(n, q'.accepted, q'.completed);
    ProcessCompletesAll(n, q'.accepted, q'.completed);
    ProcessCompletesAll(n, q.accepted, q.completed);
    QueueAccepts(n, q, StateOf(n, q.accepted, q.completed), ops);
    StateOfIsValid(n, q.accepted, |q.accepted|);
    EagerlyCompletes(n, q.accepted, AcceptedBy(n, StateOf(n, q.accepted, q.completed), ops));
  }

  /** A reset forgets everything: after it the device is as after probe, so that
      every later run behaves as on a new device. */
  lemma ResetIsAFreshStart(n: nat, before: seq<Op>, later: seq<Op>)
    requires 0 < n < U32_LIMIT
    ensures var d := Reset(n, Run(n, Fresh(n), before));
      d == Fresh(n) && Run(n, d, later) == Run(n, Fresh(n), later)
  {
    ResetEmpties(n, Run(n, Fresh(n), before));
  }
}
