/** The synchronous simulated driver, overwriting its buffer in place. */
module ProtoSimDev {
  import opened Words
  import opened ProtoState
  import opened ProtoRing
  import opened ProtoSim

  class SimDev {
    const dmaBuf: array<u8>
    var dmaLen: nat
    var lastStatus: u32

    ghost predicate Ok()
      reads this
    {
      dmaBuf.Length == DMA_LEN && dmaLen <= DMA_LEN
    }

    ghost function View(): Sim
      reads this, dmaBuf
    {
      Sim(dmaBuf[..], dmaLen, lastStatus)
    }

    constructor Probe()
      ensures Ok() && View() == SimProbed() && fresh(dmaBuf)
    {
      dmaBuf := new u8[DMA_LEN](_ => 0);
      dmaLen, lastStatus := DMA_LEN, STATUS_READY;
      new;
      assert dmaBuf[..] == Zeros(DMA_LEN);
    }

    method SubmitCommand(cmd: Command)
      requires Ok()
      modifies this, dmaBuf
      ensures Ok() && View() == SimSubmit(old(View()), cmd)
    {
      var n := if cmd.length < MAX_PAYLOAD then cmd.length else MAX_PAYLOAD;
      if n > 0 {
        MemCopy(dmaBuf, 0, cmd.payload, n);
      }
      dmaLen := n;
      lastStatus := STATUS_READY + STATUS_DONE;
    }

    method FinishReset()
      requires Ok()
      modifies this, dmaBuf
      ensures Ok() && View() == SimReset(old(View()))
    {
      MemZero(dmaBuf, 0, dmaLen);
      lastStatus := STATUS_READY;
    }
  }
}
