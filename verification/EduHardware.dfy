/** What the driver assumes of the EDU device: one command at a time, its
    factorial left in a register, one interrupt for each command, which for a
    factorial has to be enabled. */
module EduHardware {
  import opened Words
  import opened EduRing

  const FACT_IRQ: u32 := 0x1
  const DMA_IRQ: u32 := 0x100

  datatype Job = Idle | Computing(n: u32) | Copying

  /** The registers behind BAR 0 that the ring path uses; `factIrq` is the bit
      of the status register that enables the interrupt of a factorial. */
  datatype Hw = Hw(job: Job, fact: u32, irqStat: u32, factIrq: bool)

  function Fact(n: nat): (f: nat)
    ensures f >= 1
  {
    if n == 0 then 1 else n * Fact(n - 1)
  }

  lemma FactSteps(n: nat)
    ensures Fact(0) == 1 && Fact(n + 1) == (n + 1) * Fact(n)
    ensures FactU32(n) == Fact(n) % 0x1_0000_0000
  {
  }

  function FactU32(n: nat): u32 { Wrap32(Fact(n)) }

  function JobOf(s: Submission): Job {
    if s.opcode == OP_FACTORIAL then Computing(s.operand)
    else if s.opcode == OP_DMA_TEST then Copying
    else Idle
  }

  /** The unlocked half of a submission. It writes the status register before
      the command, and a busy device ignores the command alone. */
  function Kicked(hw: Hw, s: Submission): Hw {
    if !ValidOpcode(s.opcode) then hw
    else
      var enabled := hw.(factIrq := s.opcode == OP_FACTORIAL);
      if hw.job.Idle? then enabled.(job := JobOf(s)) else enabled
  }

  /** The cause register once another cause is raised. */
  function Raise(stat: u32, cause: u32): u32 {
    if stat == 0 || stat == cause then cause else FACT_IRQ + DMA_IRQ
  }

  function Finished(hw: Hw): Hw {
    match hw.job
    case Idle => hw
    case Computing(n) =>
      hw.(job := Idle, fact := FactU32(n), irqStat := if hw.factIrq then Raise(hw.irqStat, FACT_IRQ) else hw.irqStat)
    case Copying => hw.(job := Idle, irqStat := Raise(hw.irqStat, DMA_IRQ))
  }

  lemma {:induction false} FactGrows(m: nat, n: nat)
    requires m <= n
    ensures Fact(m) <= Fact(n)
    decreases n - m
  {
    if m < n {
      assert Fact(m + 1) == (m + 1) * Fact(m) >= Fact(m);
      FactGrows(m + 1, n);
    }
  }

  lemma FactTwelve()
    ensures Fact(12) == 479_001_600 && Fact(13) == 6_227_020_800
  {
    assert Fact(3) == 6;
    assert Fact(4) == 24;
    assert Fact(5) == 120;
    assert Fact(6) == 720;
    assert Fact(7) == 5040;
    assert Fact(8) == 40320;
    assert Fact(9) == 362880;
    assert Fact(10) == 3628800;
    assert Fact(11) == 39916800;
    assert Fact(12) == 479001600;
  }

  /** The register is wide enough for the factorials up to 12 and no further. */
  lemma RegisterIsExactUpToTwelve(n: nat)
    ensures FactU32(n) == Fact(n) <==> n <= 12
  {
    FactTwelve();
    if n <= 12 {
      FactGrows(n, 12);
    } else {
      FactGrows(13, n);
    }
  }
}
