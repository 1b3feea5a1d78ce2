/** The async driver's ring state and the effect of each of its atomic steps. */
module EduRing {
  import opened Words
  import opened RingIndex
  import opened Slab

  const RING_MASK: u32 := 63
  const OP_FACTORIAL: u8 := 1
  const OP_DMA_TEST: u8 := 2

  datatype Errno = OK | ENOSPC | EINVAL | ERANGE | EAGAIN | EIO | ETIMEDOUT

  datatype Submission = Submission(tag: u16, opcode: u8, operand: u32)
  datatype Completion = Completion(tag: u16, status: u8, result: u32)

  /** The numbers that the interface fixes. */
  lemma WireValues()
    ensures RING_SIZE == 64 && SQ_ENTRY_BYTES == CQ_ENTRY_BYTES == 16 && DMA_TEST_LEN == 64
    ensures forall op: u8 :: ValidOpcode(op) <==> op == 1 || op == 2
    ensures OP_FACTORIAL == 1 && OP_DMA_TEST == 2
  {
  }

  predicate ValidOpcode(op: u8) { op == OP_FACTORIAL || op == OP_DMA_TEST }

  /** What the spinlock protects, and the slab it describes. */
  datatype Ring = Ring(
    sq: seq<SqEntry>, cq: seq<CqEntry>, inflight: seq<u8>,
    sqTail: u32, cqTail: u32, cqHead: u32)

  predicate Shaped(r: Ring) {
    && |r.sq| == |r.cq| == |r.inflight| == RING_SIZE
    && r.sqTail < RING_SIZE && r.cqTail < RING_SIZE && r.cqHead < RING_SIZE
  }

  /** Indices modulo the ring size; the driver computes these by masking. */
  function Masked(idx: int): Slot { idx % 64 }
  function Next(idx: u32): Slot { Masked(idx + 1) }

  predicate Full(r: Ring) { Next(r.sqTail) == Masked(r.cqHead) }

  lemma SixtyFour()
    ensures Pow2(6) == 64
  {
    assert Pow2(6) == 2 * Pow2(5) && Pow2(5) == 2 * Pow2(4) && Pow2(4) == 2 * Pow2(3);
  }

  lemma MasksAreResidues(idx: u32)
    ensures RING_MASK == RING_SIZE - 1
    ensures BitAnd(idx, RING_MASK) == Masked(idx)
    ensures RingNext(idx, RING_MASK) == Next(idx)
  {
    hide BitAnd;
    SixtyFour();
    MaskIsMod(idx, 6);
    MaskedWrap(idx + 1, 6);
  }

  function Entry(s: Submission): SqEntry {
    SqEntry(s.tag, s.opcode, 0, s.operand, 0)
  }

  /** The locked section of a submission that finds room. */
  function Accept(r: Ring, s: Submission): (r': Ring)
    requires Shaped(r)
    ensures Shaped(r')
  {
    var slot := Masked(r.sqTail);
    r.(sq := r.sq[slot := Entry(s)], inflight := r.inflight[slot := s.opcode], sqTail := Next(r.sqTail))
  }

  /** What an accepted submission leaves: its fields at the tail, zeros in the
      reserved ones, the slot pending, and everything else as it was. */
  lemma AcceptedIsWritten(r: Ring, s: Submission)
    requires Shaped(r) && !Full(r)
    ensures var r', e := Accept(r, s), Accept(r, s).sq[r.sqTail];
      && e.tag == s.tag && e.opcode == s.opcode && e.operand == s.operand && e.flags == 0 && e.rsvd == 0
      && r'.inflight[r.sqTail] == s.opcode
      && (forall i: Slot :: i != r.sqTail ==> r'.sq[i] == r.sq[i] && r'.inflight[i] == r.inflight[i])
      && r'.cq == r.cq && r'.cqTail == r.cqTail && r'.cqHead == r.cqHead
      && r'.sqTail == if r.sqTail == 63 then 0 else r.sqTail + 1
  {
  }

  /** The lowest slot from i on that holds a pending command, or RING_SIZE. */
  function LowestFrom(f: seq<u8>, i: nat): (k: nat)
    requires i <= |f|
    ensures i <= k <= |f|
    ensures forall j :: i <= j < k ==> f[j] == 0
    ensures k < |f| ==> f[k] != 0
    decreases |f| - i
  {
    if i == |f| || f[i] != 0 then i else LowestFrom(f, i + 1)
  }

  function Lowest(f: seq<u8>): (k: nat)
    ensures k <= |f| && (k < |f| ==> f[k] != 0)
  {
    LowestFrom(f, 0)
  }

  lemma LowestIsScan(f: seq<u8>, i: nat)
    requires i <= |f| && (i < |f| ==> f[i] != 0) && forall j :: 0 <= j < i ==> f[j] == 0
    ensures Lowest(f) == i
  {
  }

  predicate Quiet(r: Ring) { forall i :: 0 <= i < |r.inflight| ==> r.inflight[i] == 0 }

  /** The completion entry the interrupt handler writes for a slot. */
  function Completed(e: SqEntry, fact: u32): CqEntry {
    CqEntry(e.tag, 0, 0, if e.opcode == OP_FACTORIAL then fact else 0, 0)
  }

  /** The interrupt handler's locked section: it completes one slot, if any. */
  function Post(r: Ring, fact: u32): (r': Ring)
    requires Shaped(r)
    ensures Shaped(r')
  {
    var i := Lowest(r.inflight);
    if i == RING_SIZE then r
    else r.(cq := r.cq[Masked(r.cqTail) := Completed(r.sq[i], fact)],
            cqTail := Next(r.cqTail),
            inflight := r.inflight[i := 0])
  }

  predicate Empty(r: Ring) { r.cqHead == r.cqTail }

  function Front(r: Ring): Completion
    requires Shaped(r)
  {
    ToCompletion(r.cq[Masked(r.cqHead)])
  }

  function ToCompletion(e: CqEntry): Completion {
    Completion(e.tag, e.status, e.result)
  }

  function Take(r: Ring): (r': Ring)
    requires Shaped(r)
    ensures Shaped(r')
  {
    r.(cqHead := Next(r.cqHead))
  }

  /** An open restarts the ring; the slab keeps its bytes. */
  function Restart(r: Ring): (r': Ring)
    requires Shaped(r)
    ensures Shaped(r') && Quiet(r')
  {
    r.(sqTail := 0, cqTail := 0, cqHead := 0, inflight := seq(RING_SIZE, _ => 0))
  }

  /** The DMA test's payload, eight bytes a row. */
  function EduPattern(): Block {
    var r0: seq<u8> := [0x45,0x44,0x55,0x20,0x44,0x4d,0x41,0x20];
    var r1: seq<u8> := [0x72,0x6f,0x75,0x6e,0x64,0x74,0x72,0x69];
    var r2: seq<u8> := [0x70,0x20,0x74,0x65,0x73,0x74,0x20,0x70];
    var r3: seq<u8> := [0x61,0x74,0x74,0x65,0x72,0x6e,0x20,0x31];
    var r4: seq<u8> := [0x32,0x33,0x34,0x35,0x36,0x37,0x38,0x39];
    var r5: seq<u8> := [0x30,0x61,0x62,0x63,0x64,0x65,0x66,0x67];
    var r6: seq<u8> := [0x68,0x69,0x6a,0x6b,0x6c,0x6d,0x6e,0x6f];
    var r7: seq<u8> := [0x70,0x71,0x72,0x73,0x74,0x75,0x76,0x77];
    r0 + r1 + r2 + r3 + r4 + r5 + r6 + r7
  }

  function Ascii(t: string): (b: seq<u8>)
    requires |t| == 8 && forall i :: 0 <= i < 8 ==> t[i] < 128 as char
    ensures |b| == 8
  {
    [t[0] as int, t[1] as int, t[2] as int, t[3] as int, t[4] as int, t[5] as int, t[6] as int, t[7] as int]
  }

  /** It is a text. */
  lemma PatternIsText()
    ensures EduPattern() ==
            Ascii("EDU DMA ") + Ascii("roundtri") + Ascii("p test p") + Ascii("attern 1")
            + Ascii("23456789") + Ascii("0abcdefg") + Ascii("hijklmno") + Ascii("pqrstuvw")
  {
  }

  function ZeroBlock(): (b: Block)
    ensures forall i :: 0 <= i < DMA_TEST_LEN ==> b[i] == 0
  {
    seq(DMA_TEST_LEN, _ => 0)
  }

  /** What the number parser makes of the text written to the fault switch. */
  datatype Parsed = Number(n: u32) | Malformed | TooLarge

  /** The atomic steps that processors, the device and user space interleave. */
  datatype Event =
    | Submit(sub: Submission)             // the locked half of a submission
    | Kick(opcode: u8)                    // its unlocked half
    | Irq(stat: u32, fact: u32)           // the handler, with what it reads
    | Poll
    | PollReady
    | Open
    | SetEventfd
    | MmapSq(i: Slot, sqe: SqEntry)       // user space scribbles on the slab
    | MmapCq(i: Slot, cqe: CqEntry)
    | DmaWrite(block: Block)              // the legacy DMA test's first 64 bytes
    | DmaCheck
    | InjectStore(val: Parsed)

  /** What a step leaves in the ring. */
  function RingAfter(r: Ring, ev: Event): (r': Ring)
    requires Shaped(r)
    ensures Shaped(r')
  {
    match ev
    case Submit(s) => if Full(r) then r else Accept(r, s)
    case Irq(stat, fact) => if stat == 0 then r else Post(r, fact)
    case Poll => if Empty(r) then r else Take(r)
    case Open => Restart(r)
    case MmapSq(i, e) => r.(sq := r.sq[i := e])
    case MmapCq(i, e) => r.(cq := r.cq[i := e])
    case DmaWrite(b) => r.(sq := Overwrite(r.sq, b))
    case _ => r
  }

  /** What a step returns to its caller. */
  datatype Reply =
    | Nothing
    | Code(errno: Errno)
    | Got(completion: Completion)
    | Ready(readable: bool)
    | Handled(irq: bool)

  function Counters0(): Counters { Counters(0, 0, 0, 0, 0, 0) }

  datatype Counters = Counters(
    irqTotal: nat, sqSubmitted: nat, cqPosted: nat, cqConsumed: nat, dmaErrors: nat, eventfdSignals: nat)

  /** The rest of the device structure that the steps above touch. */
  datatype Device = Device(ring: Ring, evt: bool, dmaOk: u32, injectFault: u32, stats: Counters)

  predicate DmaMatches(r: Ring)
    requires Shaped(r)
  {
    Prefix(r.sq) == EduPattern()
  }

  function StatsAfter(d: Device, ev: Event): Counters
    requires Shaped(d.ring)
  {
    var c := d.stats;
    match ev
    case Submit(_) => if Full(d.ring) then c else c.(sqSubmitted := c.sqSubmitted + 1)
    case Irq(stat, _) =>
      if stat == 0 then c
      else if Lowest(d.ring.inflight) == RING_SIZE then c.(irqTotal := c.irqTotal + 1)
      else c.(irqTotal := c.irqTotal + 1, cqPosted := c.cqPosted + 1,
              eventfdSignals := c.eventfdSignals + if d.evt then 1 else 0)
    case Poll => if Empty(d.ring) then c else c.(cqConsumed := c.cqConsumed + 1)
    case DmaCheck => if DmaMatches(d.ring) && d.injectFault != 1 then c else c.(dmaErrors := c.dmaErrors + 1)
    case _ => c
  }

  function After(d: Device, ev: Event): (d': Device)
    requires Shaped(d.ring)
    ensures Shaped(d'.ring) && d'.ring == RingAfter(d.ring, ev)
  {
    var d1 := d.(ring := RingAfter(d.ring, ev), stats := StatsAfter(d, ev));
    match ev
    case SetEventfd => d1.(evt := true)
    case DmaCheck =>
      if !DmaMatches(d.ring) then d1
      else if d.injectFault == 1 then d1.(injectFault := 0)
      else d1.(dmaOk := 1)
    case InjectStore(Number(v)) => if v > 1 then d1 else d1.(injectFault := v)
    case _ => d1
  }

  function ReplyTo(d: Device, ev: Event): Reply
    requires Shaped(d.ring)
  {
    match ev
    case Submit(_) => Code(if Full(d.ring) then ENOSPC else OK)
    case Kick(op) => Code(if ValidOpcode(op) then OK else EINVAL)
    case Irq(stat, _) => Handled(stat != 0)
    case Poll => if Empty(d.ring) then Code(EAGAIN) else Got(Front(d.ring))
    case PollReady => Ready(!Empty(d.ring))
    case DmaCheck => Code(if DmaMatches(d.ring) && d.injectFault != 1 then OK else EIO)
    case InjectStore(v) =>
      Code(match v case Malformed => EINVAL case TooLarge => ERANGE case Number(n) => if n > 1 then EINVAL else OK)
    case _ => Nothing
  }

  /** The state after probe: everything allocated zeroed. */
  function Probed(): (d: Device)
    ensures Shaped(d.ring) && Quiet(d.ring)
  {
    Device(Ring(seq(RING_SIZE, _ => SqEntry(0, 0, 0, 0, 0)), seq(RING_SIZE, _ => CqEntry(0, 0, 0, 0, 0)),
                seq(RING_SIZE, _ => 0), 0, 0, 0),
           false, 0, 0, Counters0())
  }

  /** After probe every field of every entry is zero, nothing is pending, counted,
      registered or armed. */
  lemma ProbedIsBlank(i: Slot)
    ensures var d, e, c := Probed(), Probed().ring.sq[i], Probed().ring.cq[i];
      && e.tag == e.opcode == e.flags == e.operand == e.rsvd == 0
      && c.tag == c.status == c.flags == c.result == c.rsvd == 0
      && d.ring.inflight[i] == 0 && d.ring.sqTail == d.ring.cqTail == d.ring.cqHead == 0
      && !d.evt && d.dmaOk == d.injectFault == 0
      && d.stats.irqTotal == d.stats.sqSubmitted == d.stats.cqPosted == 0
      && d.stats.cqConsumed == d.stats.dmaErrors == d.stats.eventfdSignals == 0
  {
  }
}
