/** The simulated ring driver, updating its rings and buffers in place. */
module ProtoRing {
  import opened Words
  import opened ProtoState

  /** The payload store, one 256-byte slot after the other, as slots. */
  function Slots(p: seq<u8>, n: nat): (s: seq<seq<u8>>)
    requires |p| == 256 * n
    ensures |s| == n && forall i :: 0 <= i < n ==> s[i] == p[256 * i..256 * i + 256]
  {
    seq(n, i requires 0 <= i < n => p[256 * i..256 * i + 256])
  }

  lemma SlotWritten(p: seq<u8>, p': seq<u8>, n: nat, k: nat, b: seq<u8>)
    requires |p| == |p'| == 256 * n && k < n && |b| == 256
    requires p'[256 * k..256 * k + 256] == b
    requires p'[..256 * k] == p[..256 * k] && p'[256 * k + 256..] == p[256 * k + 256..]
    ensures Slots(p', n) == Slots(p, n)[k := b]
  {
    forall i | 0 <= i < n && i != k
      ensures p'[256 * i..256 * i + 256] == p[256 * i..256 * i + 256]
    {
      if i < k {
        assert p'[256 * i..256 * i + 256] == p'[..256 * k][256 * i..256 * i + 256];
        assert p[256 * i..256 * i + 256] == p[..256 * k][256 * i..256 * i + 256];
      } else {
        var o := 256 * k + 256;
        assert p'[256 * i..256 * i + 256] == p'[o..][256 * i - o..256 * i - o + 256];
        assert p[256 * i..256 * i + 256] == p[o..][256 * i - o..256 * i - o + 256];
      }
    }
  }

  method MemZero(a: array<u8>, off: nat, len: nat)
    requires off + len <= a.Length
    modifies a
    ensures forall j :: 0 <= j < a.Length ==> a[j] == if off <= j < off + len then 0 else old(a[j])
  {
    var i := 0;
    while i < len
      invariant 0 <= i <= len
      invariant forall j :: 0 <= j < a.Length ==> a[j] == if off <= j < off + i then 0 else old(a[j])
    {
      a[off + i] := 0;
      i := i + 1;
    }
  }

  method MemCopy(a: array<u8>, off: nat, src: seq<u8>, len: nat)
    requires off + len <= a.Length && len <= |src|
    modifies a
    ensures forall j :: 0 <= j < a.Length ==> a[j] == if off <= j < off + len then src[j - off] else old(a[j])
  {
    var i := 0;
    while i < len
      invariant 0 <= i <= len
      invariant forall j :: 0 <= j < a.Length ==> a[j] == if off <= j < off + i then src[j - off] else old(a[j])
    {
      a[off + i] := src[i];
      i := i + 1;
    }
  }

  /** memset then memcpy: a region holds `len` bytes and zeros after them. */
  method FillRegion(a: array<u8>, off: nat, size: nat, src: seq<u8>, len: nat)
    requires off + size <= a.Length && len <= |src| && len <= size
    modifies a
    ensures a[off..off + size] == Padded(src[..len], size)
    ensures a[..off] == old(a[..off]) && a[off + size..] == old(a[off + size..])
  {
    MemZero(a, off, size);
    MemCopy(a, off, src, len);
  }

  method Preview(src: seq<u8>, len: nat) returns (b: seq<u8>)
    requires len <= |src|
    ensures b == Padded(src[..len], PREVIEW)
  {
    var a := new u8[PREVIEW];
    var n := if len < PREVIEW then len else PREVIEW;
    FillRegion(a, 0, PREVIEW, src, n);
    b := a[0..PREVIEW];
    assert Padded(src[..len], PREVIEW) == Padded(src[..n], PREVIEW);
  }

  method Checksum(buf: seq<u8>, len: nat) returns (sum: u32)
    requires len <= |buf|
    ensures sum == Wrap32(ByteSum(buf[..len]))
  {
    sum := 0;
    var i := 0;
    while i < len
      invariant 0 <= i <= len
      invariant sum == Wrap32(ByteSum(buf[..i]))
    {
      assert buf[..i + 1][..i] == buf[..i];
      sum := Wrap32(sum + buf[i]);
      i := i + 1;
    }
  }

  datatype Errno = OK | ENOSPC

  class ProtoDev {
    const ringEntries: u32
    const cmdRing: array<CmdEntry>
    const compRing: array<CompEntry>
    const cmdPayloads: array<u8>
    const dmaBuf: array<u8>
    var lastStatus: u32
    var cmdHead: u32
    var cmdTail: u32
    var cmdPending: u32
    var compHead: u32
    var compTail: u32
    var compPending: u32
    var completedTotal: u32
    var lastOpcode: u32
    var lastLength: u32
    var nextSeqno: u32

    ghost predicate Shaped()
      reads this
    {
      && 0 < ringEntries
      && cmdRing.Length == compRing.Length == ringEntries
      && cmdPayloads.Length == 256 * ringEntries && dmaBuf.Length == DMA_LEN
      && cmdPayloads != dmaBuf
    }

    ghost function View(): State
      requires Shaped()
      reads this, cmdRing, compRing, cmdPayloads, dmaBuf
    {
      State(cmdRing[..], compRing[..], Slots(cmdPayloads[..], ringEntries), dmaBuf[..],
            lastStatus, cmdHead, cmdTail, cmdPending, compHead, compTail, compPending,
            completedTotal, lastOpcode, lastLength, nextSeqno)
    }

    ghost predicate Ok()
      reads this, cmdRing, compRing, cmdPayloads, dmaBuf
    {
      Shaped() && Valid(ringEntries, View())
    }

    constructor Probe(n: u32)
      requires n > 0
      ensures Ok() && ringEntries == n && View() == Fresh(n)
      ensures fresh(cmdRing) && fresh(compRing) && fresh(cmdPayloads) && fresh(dmaBuf)
    {
      ringEntries := n;
      cmdRing := new CmdEntry[n](_ => ZeroCmd());
      compRing := new CompEntry[n](_ => ZeroComp());
      cmdPayloads := new u8[256 * n](_ => 0);
      dmaBuf := new u8[DMA_LEN](_ => 0);
      lastStatus := STATUS_READY;
      cmdHead, cmdTail, cmdPending := 0, 0, 0;
      compHead, compTail, compPending := 0, 0, 0;
      completedTotal, lastOpcode, lastLength, nextSeqno := 0, 0, 0, 1;
      new;
      ZeroedIsFresh();
      assert dmaBuf[..] == Zeros(DMA_LEN);
    }

    lemma ZeroedIsFresh()
      requires Shaped()
      requires forall i :: 0 <= i < ringEntries ==> cmdRing[i] == ZeroCmd() && compRing[i] == ZeroComp()
      requires forall i :: 0 <= i < cmdPayloads.Length ==> cmdPayloads[i] == 0
      ensures cmdRing[..] == Fresh(ringEntries).cmdRing && compRing[..] == Fresh(ringEntries).compRing
      ensures Slots(cmdPayloads[..], ringEntries) == Fresh(ringEntries).payloads
    {
      var p := Slots(cmdPayloads[..], ringEntries);
      forall i | 0 <= i < ringEntries
        ensures p[i] == Zeros(MAX_PAYLOAD)
      {
        assert p[i] == cmdPayloads[..][256 * i..256 * i + 256];
      }
    }

    method ClearEntries()
      requires Shaped()
      modifies cmdRing, compRing
      ensures forall i :: 0 <= i < ringEntries ==> cmdRing[i] == ZeroCmd() && compRing[i] == ZeroComp()
    {
      var i := 0;
      while i < ringEntries
        invariant 0 <= i <= ringEntries
        invariant forall j :: 0 <= j < i ==> cmdRing[j] == ZeroCmd() && compRing[j] == ZeroComp()
      {
        cmdRing[i] := ZeroCmd();
        compRing[i] := ZeroComp();
        i := i + 1;
      }
    }

    method ClearRings()
      requires Shaped()
      modifies this, cmdRing, compRing, cmdPayloads
      ensures Shaped() && lastStatus == old(lastStatus)
      ensures View() == Fresh(ringEntries).(dmaBuf := View().dmaBuf, lastStatus := lastStatus)
    {
      ClearEntries();
      MemZero(cmdPayloads, 0, 256 * (ringEntries as int));
      cmdHead, cmdTail, cmdPending := 0, 0, 0;
      compHead, compTail, compPending := 0, 0, 0;
      completedTotal, lastOpcode, lastLength, nextSeqno := 0, 0, 0, 1;
      ZeroedIsFresh();
    }

    /** The reset request, from any state: back to the state after probe. */
    method FinishReset()
      requires Ok()
      modifies this, cmdRing, compRing, cmdPayloads, dmaBuf
      ensures Ok() && View() == Reset(ringEntries, old(View())) && View() == Fresh(ringEntries)
    {
      MemZero(dmaBuf, 0, DMA_LEN);
      assert dmaBuf[..] == Zeros(DMA_LEN);
      ClearRings();
      lastStatus := STATUS_READY;
      assert View() == Fresh(ringEntries);
    }

    method StoreCompletion(opcode: u32, status: u32, length: u32, seqno: u32)
      requires Ok()
      modifies this`compTail, this`compPending, compRing
      ensures Ok()
      ensures View() == old(View()).(
                compRing := old(View()).compRing[
                  old(compTail) := CompEntry(opcode, status, length, seqno, Zeros(PREVIEW))],
                compTail := (old(compTail) + 1) % ringEntries,
                compPending := Min(old(compPending) + 1, ringEntries))
    {
      compRing[compTail] := CompEntry(opcode, status, length, seqno, Zeros(PREVIEW));
      compTail := (compTail + 1) % ringEntries;
      if compPending < ringEntries {
        compPending := compPending + 1;
      }
    }

    method StorePayload(slot: u32, payload: Payload, n: nat)
      requires Shaped() && slot < ringEntries && n <= 256
      modifies cmdPayloads
      ensures Slots(cmdPayloads[..], ringEntries) ==
              old(Slots(cmdPayloads[..], ringEntries))[slot := Padded(payload[..n], MAX_PAYLOAD)]
    {
      ghost var before := cmdPayloads[..];
      var offset: nat := 256 * (slot as int);
      FillRegion(cmdPayloads, offset, 256, payload, n);
      assert before[..offset] == cmdPayloads[..][..offset];
      assert before[offset + 256..] == cmdPayloads[..][offset + 256..];
      SlotWritten(before, cmdPayloads[..], ringEntries, slot, Padded(payload[..n], 256));
    }

    method StoreEntry(slot: u32, entry: CmdEntry)
      requires Shaped() && slot < ringEntries
      modifies cmdRing
      ensures cmdRing[..] == old(cmdRing[..])[slot := entry]
    {
      cmdRing[slot] := entry;
    }

    method EnqueueCommand(cmd: Command) returns (r: Errno)
      requires Ok()
      modifies this, cmdRing, cmdPayloads
      ensures Ok() && View() == Apply(ringEntries, old(View()), Send(cmd))
      ensures r == ENOSPC <==> Rejects(ringEntries, old(View()))
    {
      hide Slots, Padded, Zeros, ByteSum;
      if cmdPending >= ringEntries {
        return ENOSPC;
      }
      ghost var d := View();
      var slot := cmdTail;
      var n := if cmd.length < 256 then cmd.length else 256;
      var seqno := nextSeqno;
      nextSeqno := Wrap32(nextSeqno + 1);
      var checksum := Checksum(cmd.payload, n);
      var preview := Preview(cmd.payload, n);
      StoreEntry(slot, CmdEntry(cmd.opcode, n, seqno, checksum, preview));
      StorePayload(slot, cmd.payload, n);
      cmdTail := (cmdTail + 1) % ringEntries;
      cmdPending := cmdPending + 1;
      lastStatus := STATUS_READY;
      r := OK;
      assert View() == Enqueue(ringEntries, d, cmd);
    }

    /** The DMA buffer shows the payload at the head of the command ring. */
    method ShowPayload(n: u32)
      requires Ok() && n <= MAX_PAYLOAD
      modifies dmaBuf
      ensures dmaBuf[..] == Padded(old(View()).payloads[cmdHead][..n], DMA_LEN)
    {
      ghost var slot := View().payloads[cmdHead];
      var offset: nat := 256 * (cmdHead as int);
      var payload := cmdPayloads[offset..offset + 256];
      assert payload == slot;
      var copied := if n < DMA_LEN then n else DMA_LEN;
      FillRegion(dmaBuf, 0, DMA_LEN, payload, copied);
      assert dmaBuf[..] == dmaBuf[0..DMA_LEN];
    }

    /** One pass of the drain loop. */
    method DrainNext()
      requires Ok() && cmdPending > 0
      modifies this, compRing, dmaBuf
      ensures Ok() && View() == DrainOne(ringEntries, old(View()))
    {
      hide Slots, Padded, Zeros;
      ghost var d := View();
      var entry := cmdRing[cmdHead];
      var n := entry.length;
      ShowPayload(n);
      lastOpcode, lastLength, lastStatus := entry.opcode, n, STATUS_READY + STATUS_DONE;
      completedTotal := Wrap32(completedTotal + 1);
      StoreCompletion(entry.opcode, lastStatus, n, entry.seqno);
      cmdHead := (cmdHead + 1) % ringEntries;
      cmdPending := cmdPending - 1;
      assert View() == DrainOne(ringEntries, d);
    }

    method ProcessPending()
      requires Ok()
      modifies this, compRing, dmaBuf
      ensures Ok() && View() == Process(ringEntries, old(View()))
    {
      while cmdPending > 0
        invariant Ok()
        invariant Process(ringEntries, View()) == Process(ringEntries, old(View()))
        decreases cmdPending
      {
        DrainNext();
      }
    }
  }
}
