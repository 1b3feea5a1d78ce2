/** What a user of the rings can count on, at every point of every run. */
module ProtoFacts {
  import opened Words
  import opened ProtoState
  import opened ProtoRuns

  /** The completion ring is a window over the unbounded completion history: it
      holds the last n completions, oldest overwritten first. */
  lemma CompletionRingIsAWindow(n: nat, ops: seq<Op>)
    requires 0 < n < U32_LIMIT
    ensures var d := Run(n, Fresh(n), ops);
      var q := QueueRun(n, Queue([], 0), ops);
      var t := q.completed;
      && t <= |q.accepted|
      && d.compHead == 0 && d.compTail == t % n && d.compPending == Min(t, n)
      && d.completedTotal == Wrap32(t)
      && forall j: nat :: j < t <= j + n ==> d.compRing[j % n] == CompletionOf(q.accepted, j)
  {
    var d := Run(n, Fresh(n), ops);
    var q := QueueRun(n, Queue([], 0), ops);
    RunFromProbe(n, ops);
    forall j: nat | j < q.completed <= j + n
      ensures d.compRing[j % n] == CompletionOf(q.accepted, j)
    {
      WindowIsKept(q.completed, j, n);
    }
  }

  /** A ring whose size divides 2^32, as 64 does, can find its tail from the
      wrapping total. */
  lemma TailFromTotal(k: nat, ops: seq<Op>)
    requires k < 32 && Pow2(k) < U32_LIMIT
    ensures var d := Run(Pow2(k), Fresh(Pow2(k)), ops);
      d.compTail == d.completedTotal % Pow2(k)
  {
    var n := Pow2(k);
    RunFromProbe(n, ops);
    WrapThenMod(QueueRun(n, Queue([], 0), ops).completed, k);
  }

  lemma SeqnoOffset(t: nat, j: nat)
    requires t <= j
    ensures Wrap32(j + 1) == Wrap32(Wrap32(t) + 1 + (j - t))
  {
  }

  lemma PendingSlot(n: nat, acc: seq<Command>, t: nat, j: nat)
    requires 0 < n < U32_LIMIT && t <= j < |acc| <= t + n
    ensures CmdRingOf(acc, n)[j % n] == EntryOf(acc, j)
    ensures EntryOf(acc, j).seqno == Wrap32(Wrap32(t) + 1 + (j - t))
  {
    hide ByteSumU32, Padded, Data;
    WindowIsKept(|acc|, j, n);
    SeqnoOffset(t, j);
  }

  lemma WrappedCounts(t: nat, m: nat)
    requires t <= m
    ensures Wrap32(Wrap32(t) + (m - t)) == Wrap32(Wrap32(m + 1) - 1)
  {
  }

  /** The j-th accepted command is pending, on its slot and with its number. */
  predicate InPlace(n: nat, d: State, q: Queue, j: nat) {
    && 0 < n == |d.cmdRing| && q.completed <= j < |q.accepted|
    && d.cmdRing[j % n] == EntryOf(q.accepted, j)
    && d.cmdRing[j % n].seqno == Wrap32(d.completedTotal + 1 + (j - q.completed))
  }

  lemma StateIsInPlace(n: nat, d: State, q: Queue, j: nat)
    requires 0 < n < U32_LIMIT && QueueOk(n, q) && d == StateOf(n, q.accepted, q.completed)
    requires q.completed <= j < |q.accepted|
    ensures InPlace(n, d, q, j)
  {
    hide LastAt, EntryOf;
    PendingSlot(n, q.accepted, q.completed, j);
  }

  /** Pending commands sit in acceptance order from the head on, numbered
      consecutively after the ones completed; a command is refused exactly when
      n are pending. */
  lemma CommandRingIsFifo(n: nat, ops: seq<Op>)
    requires 0 < n < U32_LIMIT
    ensures var d := Run(n, Fresh(n), ops);
      var q := QueueRun(n, Queue([], 0), ops);
      && q.completed <= |q.accepted| && d.cmdPending == |q.accepted| - q.completed
      && d.cmdHead == q.completed % n && d.cmdTail == (d.cmdHead + d.cmdPending) % n
      && Wrap32(d.completedTotal + d.cmdPending) == Wrap32(d.nextSeqno - 1)
      && (Rejects(n, d) <==> d.cmdPending == n)
      && forall j: nat :: q.completed <= j < |q.accepted| ==> InPlace(n, d, q, j)
  {
    var d := Run(n, Fresh(n), ops);
    var q := QueueRun(n, Queue([], 0), ops);
    RunFromProbe(n, ops);
    hide StateOf, InPlace, Run, QueueRun;
    StateCounters(n, d, q);
    forall j: nat | q.completed <= j < |q.accepted|
      ensures InPlace(n, d, q, j)
    {
      StateIsInPlace(n, d, q, j);
    }
  }

  lemma StateCounters(n: nat, d: State, q: Queue)
    requires 0 < n < U32_LIMIT && QueueOk(n, q) && d == StateOf(n, q.accepted, q.completed)
    ensures d.cmdPending == |q.accepted| - q.completed
    ensures d.cmdHead == q.completed % n && d.cmdTail == (d.cmdHead + d.cmdPending) % n
    ensures Wrap32(d.completedTotal + d.cmdPending) == Wrap32(d.nextSeqno - 1)
    ensures Rejects(n, d) <==> d.cmdPending == n
  {
    hide CmdRingOf, PayloadsOf, CompRingOf;
    ModAdd(q.completed, |q.accepted| - q.completed, n);
    WrappedCounts(q.completed, |q.accepted|);
  }

  /** What makes it the byte sum. */
  lemma {:induction false} ByteSumAdds(a: seq<u8>, b: seq<u8>)
    ensures ByteSum(a + b) == ByteSum(a) + ByteSum(b)
    decreases |b|
  {
    if b == [] {
      assert a + b == a;
    } else {
      var s := a + b;
      assert s[..|s| - 1] == a + b[..|b| - 1] && s[|s| - 1] == b[|b| - 1];
      ByteSumAdds(a, b[..|b| - 1]);
    }
  }

  lemma ByteSumOfOne(x: u8)
    ensures ByteSum([]) == 0 && ByteSum([x]) == x
  {
    assert [x][..0] == [];
  }

  lemma {:induction false} ByteSumBound(b: seq<u8>)
    ensures ByteSum(b) <= 255 * |b|
  {
    if b != [] {
      ByteSumBound(b[..|b| - 1]);
    }
  }

  lemma {:induction false} PaddingAddsNothing(b: seq<u8>, size: nat)
    requires |b| <= size
    ensures ByteSum(Padded(b, size)) == ByteSum(b)
    decreases size
  {
    var p := Padded(b, size);
    if |b| < size {
      assert p[..size - 1] == Padded(b, size - 1);
      PaddingAddsNothing(b, size - 1);
    } else {
      assert p == b;
    }
  }

  /** For every pending command the slot holds its clamped payload, zero-padded;
      the checksum is the exact byte sum of either; the preview is its start. */
  lemma PayloadsAreIntact(n: nat, ops: seq<Op>, j: nat)
    requires 0 < n < U32_LIMIT
    requires QueueRun(n, Queue([], 0), ops).completed <= j < |QueueRun(n, Queue([], 0), ops).accepted|
    ensures var d := Run(n, Fresh(n), ops);
      var b := Data(QueueRun(n, Queue([], 0), ops).accepted[j]);
      && d.payloads[j % n] == Padded(b, MAX_PAYLOAD)
      && d.cmdRing[j % n].checksum == ByteSum(b) == ByteSum(d.payloads[j % n]) <= 65280
      && d.cmdRing[j % n].preview == Padded(b, PREVIEW)
  {
    RunFromProbe(n, ops);
    var q := QueueRun(n, Queue([], 0), ops);
    PendingPayload(n, q.accepted, q.completed, j);
    ChecksumIsExact(q.accepted, j);
  }

  lemma ChecksumIsExact(acc: seq<Command>, j: nat)
    requires j < |acc|
    ensures EntryOf(acc, j).checksum == ByteSum(Data(acc[j])) <= 65280
    ensures ByteSum(Padded(Data(acc[j]), MAX_PAYLOAD)) == ByteSum(Data(acc[j]))
  {
    ByteSumBound(Data(acc[j]));
    PaddingAddsNothing(Data(acc[j]), MAX_PAYLOAD);
  }

  lemma PendingPayload(n: nat, acc: seq<Command>, t: nat, j: nat)
    requires 0 < n < U32_LIMIT && t <= j < |acc| <= t + n
    ensures CmdRingOf(acc, n)[j % n] == EntryOf(acc, j)
    ensures PayloadsOf(acc, n)[j % n] == Padded(Data(acc[j]), MAX_PAYLOAD)
  {
    WindowIsKept(|acc|, j, n);
  }

  /** A drain that has something to do leaves in the DMA buffer the last payload
      accepted, followed by zeros to its end. */
  lemma DrainShowsLastPayload(n: nat, ops: seq<Op>)
    requires 0 < n < U32_LIMIT
    requires Run(n, Fresh(n), ops).cmdPending > 0
    ensures var d := Process(n, Run(n, Fresh(n), ops));
      var acc := QueueRun(n, Queue([], 0), ops).accepted;
      && acc != []
      && var last := acc[|acc| - 1];
      && d.dmaBuf == Padded(Data(last), DMA_LEN)
      && d.lastOpcode == last.opcode && d.lastLength == |Data(last)|
      && d.lastStatus == STATUS_READY + STATUS_DONE
  {
    hide LastAt, CmdRingOf, PayloadsOf, CompRingOf, ByteSum, Padded, Data;
    RunFromProbe(n, ops);
    var q := QueueRun(n, Queue([], 0), ops);
    StateOfIsValid(n, q.accepted, q.completed);
    ProcessCompletesAll(n, q.accepted, q.completed);
  }

  /** What the entry of the j-th accepted command says, field by field. */
  lemma EntryMeans(acc: seq<Command>, j: nat, k: nat)
    requires j < |acc|
    ensures var c, e := acc[j], EntryOf(acc, j);
      && e.opcode == c.opcode && e.length == Min(c.length, 256) && e.seqno == (j + 1) % 0x1_0000_0000
      && |e.preview| == 48 && (k < 48 ==> e.preview[k] == if k < c.length then c.payload[k] else 0)
  {
  }

  /** And what its completion says. */
  lemma CompletionMeans(acc: seq<Command>, j: nat)
    requires j < |acc|
    ensures var c, e := acc[j], CompletionOf(acc, j);
      && e.opcode == c.opcode && e.status == 3 && e.length == Min(c.length, 256)
      && e.seqno == (j + 1) % 0x1_0000_0000
      && |e.reserved| == 48 && forall k :: 0 <= k < 48 ==> e.reserved[k] == 0
  {
  }

  /** The status is ready, and done as well exactly when commands have come since
      the last reset and all are completed; the last opcode and length are those of
      the last one completed. */
  lemma StatusMeans(n: nat, ops: seq<Op>)
    requires 0 < n < U32_LIMIT
    ensures var d := Run(n, Fresh(n), ops);
      var q := QueueRun(n, Queue([], 0), ops);
      && q.completed <= |q.accepted|
      && d.lastStatus == (if q.accepted != [] && d.cmdPending == 0 then 3 else 1)
      && (q.completed > 0 ==>
            && d.lastOpcode == q.accepted[q.completed - 1].opcode
            && d.lastLength == Min(q.accepted[q.completed - 1].length, 256))
      && (q.completed == 0 ==> d.lastOpcode == 0 && d.lastLength == 0)
  {
    RunFromProbe(n, ops);
    hide Run, QueueRun, CmdRingOf, PayloadsOf, CompRingOf;
  }
}
