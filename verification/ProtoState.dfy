/** The simulated command and completion rings: their state and operations, as
    the driver's code performs them. */
module ProtoState {
  import opened Words

  const MAX_PAYLOAD: nat := 256
  const PREVIEW: nat := 48
  const DMA_LEN: nat := 4096
  const STATUS_READY: u32 := 1
  const STATUS_DONE: u32 := 2

  /** The numbers that the interface fixes. */
  lemma WireValues()
    ensures MAX_PAYLOAD == 256 && PREVIEW == 48 && DMA_LEN == 4096 && STATUS_READY == 1 && STATUS_DONE == 2
  {
  }

  type Payload = b: seq<u8> | |b| == MAX_PAYLOAD witness seq(MAX_PAYLOAD, _ => 0)

  datatype Command = Command(opcode: u32, length: u32, payload: Payload)
  datatype CmdEntry = CmdEntry(opcode: u32, length: u32, seqno: u32, checksum: u32, preview: seq<u8>)
  datatype CompEntry = CompEntry(opcode: u32, status: u32, length: u32, seqno: u32, reserved: seq<u8>)

  datatype State = State(
    cmdRing: seq<CmdEntry>, compRing: seq<CompEntry>, payloads: seq<seq<u8>>, dmaBuf: seq<u8>,
    lastStatus: u32, cmdHead: nat, cmdTail: nat, cmdPending: nat, compHead: nat, compTail: nat, compPending: nat,
    completedTotal: u32, lastOpcode: u32, lastLength: u32, nextSeqno: u32)

  function Zeros(n: nat): (z: seq<u8>)
    ensures |z| == n && forall i :: 0 <= i < n ==> z[i] == 0
  {
    seq(n, _ => 0)
  }

  /** The first `size` bytes, zero-padded to `size`. */
  function Padded(b: seq<u8>, size: nat): (p: seq<u8>)
    ensures |p| == size
    ensures forall i :: 0 <= i < size ==> p[i] == if i < |b| then b[i] else 0
  {
    if |b| >= size then b[..size] else b + Zeros(size - |b|)
  }

  function ByteSum(b: seq<u8>): nat {
    if b == [] then 0 else ByteSum(b[..|b| - 1]) + b[|b| - 1]
  }

  function Min(a: nat, b: nat): (m: nat)
    ensures m <= a && m <= b && (m == a || m == b)
  {
    if a < b then a else b
  }

  function Data(c: Command): (b: seq<u8>)
    ensures |b| == Min(c.length, MAX_PAYLOAD)
  {
    c.payload[..Min(c.length, MAX_PAYLOAD)]
  }

  predicate Valid(n: nat, d: State) {
    && 0 < n < U32_LIMIT
    && |d.cmdRing| == |d.compRing| == |d.payloads| == n && |d.dmaBuf| == DMA_LEN
    && d.cmdHead < n && d.cmdTail < n && d.cmdPending <= n
    && d.compHead < n && d.compTail < n && d.compPending <= n
    && (forall i :: 0 <= i < n ==> |d.payloads[i]| == MAX_PAYLOAD && d.cmdRing[i].length <= MAX_PAYLOAD)
  }

  predicate Rejects(n: nat, d: State) { d.cmdPending >= n }

  /** An enqueue that finds room. */
  function Enqueue(n: nat, d: State, c: Command): (d': State)
    requires Valid(n, d) && !Rejects(n, d)
    ensures Valid(n, d')
  {
    var b := Data(c);
    d.(cmdRing := d.cmdRing[d.cmdTail := CmdEntry(c.opcode, |b|, d.nextSeqno, Wrap32(ByteSum(b)), Padded(b, PREVIEW))],
       payloads := d.payloads[d.cmdTail := Padded(b, MAX_PAYLOAD)],
       cmdTail := (d.cmdTail + 1) % n,
       cmdPending := d.cmdPending + 1,
       nextSeqno := Wrap32(d.nextSeqno + 1),
       lastStatus := STATUS_READY)
  }

  /** One pass of the drain loop. */
  function DrainOne(n: nat, d: State): (d': State)
    requires Valid(n, d) && d.cmdPending > 0
    ensures Valid(n, d') && d'.cmdPending == d.cmdPending - 1
  {
    var e := d.cmdRing[d.cmdHead];
    var status := STATUS_READY + STATUS_DONE;
    d.(dmaBuf := Padded(d.payloads[d.cmdHead][..e.length], DMA_LEN),
       lastOpcode := e.opcode, lastLength := e.length, lastStatus := status,
       completedTotal := Wrap32(d.completedTotal + 1),
       compRing := d.compRing[d.compTail := CompEntry(e.opcode, status, e.length, e.seqno, Zeros(PREVIEW))],
       compTail := (d.compTail + 1) % n,
       compPending := Min(d.compPending + 1, n),
       cmdHead := (d.cmdHead + 1) % n,
       cmdPending := d.cmdPending - 1)
  }

  function Process(n: nat, d: State): (d': State)
    requires Valid(n, d)
    ensures Valid(n, d') && d'.cmdPending == 0
    decreases d.cmdPending
  {
    if d.cmdPending == 0 then d else Process(n, DrainOne(n, d))
  }

  function ZeroCmd(): CmdEntry { CmdEntry(0, 0, 0, 0, Zeros(PREVIEW)) }
  function ZeroComp(): CompEntry { CompEntry(0, 0, 0, 0, Zeros(PREVIEW)) }

  /** Clears everything that a reset clears. */
  function Reset(n: nat, d: State): (d': State)
    requires Valid(n, d)
    ensures Valid(n, d')
  {
    d.(cmdRing := seq(n, _ => ZeroCmd()), compRing := seq(n, _ => ZeroComp()),
       payloads := seq(n, _ => Zeros(MAX_PAYLOAD)), dmaBuf := Zeros(DMA_LEN),
       cmdHead := 0, cmdTail := 0, cmdPending := 0, compHead := 0, compTail := 0, compPending := 0,
       completedTotal := 0, lastOpcode := 0, lastLength := 0, nextSeqno := 1, lastStatus := STATUS_READY)
  }

  /** After probe: zeroed allocations and the initial register values. */
  function Fresh(n: nat): (d: State)
    requires 0 < n < U32_LIMIT
    ensures Valid(n, d)
  {
    State(seq(n, _ => ZeroCmd()), seq(n, _ => ZeroComp()), seq(n, _ => Zeros(MAX_PAYLOAD)), Zeros(DMA_LEN),
          STATUS_READY, 0, 0, 0, 0, 0, 0, 0, 0, 0, 1)
  }

  /** Every entry and every byte is zero, the device is ready, and the first
      command will be number 1. */
  lemma FreshIsBlank(n: nat, i: nat)
    requires 0 < n < U32_LIMIT && i < n
    ensures var d := Fresh(n);
      && d.cmdRing[i].(preview := []) == CmdEntry(0, 0, 0, 0, [])
      && d.compRing[i].(reserved := []) == CompEntry(0, 0, 0, 0, [])
      && |d.cmdRing[i].preview| == |d.compRing[i].reserved| == 48
      && (forall k :: 0 <= k < 48 ==> d.cmdRing[i].preview[k] == 0 && d.compRing[i].reserved[k] == 0)
      && |d.payloads[i]| == 256 && (forall k :: 0 <= k < 256 ==> d.payloads[i][k] == 0)
      && |d.dmaBuf| == 4096 && (forall k :: 0 <= k < 4096 ==> d.dmaBuf[k] == 0)
      && d.lastStatus == 1 && d.nextSeqno == 1 && d.completedTotal == 0 && d.lastOpcode == 0 && d.lastLength == 0
  {
  }

  datatype Op = Send(cmd: Command) | Drain | Clear

  function Apply(n: nat, d: State, op: Op): (d': State)
    requires Valid(n, d)
    ensures Valid(n, d')
  {
    match op
    case Send(c) => if Rejects(n, d) then d else Enqueue(n, d, c)
    case Drain => Process(n, d)
    case Clear => Reset(n, d)
  }

  function Run(n: nat, d: State, ops: seq<Op>): (d': State)
    requires Valid(n, d)
    ensures Valid(n, d')
    decreases |ops|
  {
    if ops == [] then d else Run(n, Apply(n, d, ops[0]), ops[1..])
  }
}
