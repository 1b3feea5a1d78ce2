/** The masked ring indices of the async driver, for every power-of-two size. */
module RingIndex {
  import opened Words

  function RingNext(idx: u32, mask: u32): u32 {
    BitAnd(Wrap32(idx + 1), mask)
  }

  predicate RingFull(tail: u32, head: u32, mask: u32) {
    RingNext(tail, mask) == BitAnd(head, mask)
  }

  /** The occupancy that the statistics file derives from two indices. */
  function Occupancy(tail: u32, head: u32, mask: u32): u32 {
    BitAnd(Wrap32(tail - head), mask)
  }

  lemma SizeFitsU32(k: nat)
    requires k <= 32
    ensures 1 <= Pow2(k) <= U32_LIMIT
  {
    Pow2Grows(k, 32);
    U32IsPow2();
  }

  lemma MaskedWrap(x: int, k: nat)
    requires k <= 32
    ensures BitAnd(Wrap32(x), Pow2(k) - 1) == x % Pow2(k)
  {
    MaskIsMod(Wrap32(x), k);
    WrapThenMod(x, k);
  }

  /** Stepping a masked index steps the unbounded counter it stands for. */
  lemma NextFollowsCounter(k: nat, count: nat)
    requires k <= 32
    requires Pow2(k) <= U32_LIMIT
    ensures RingNext(count % Pow2(k), Pow2(k) - 1) == (count + 1) % Pow2(k)
  {
    var n := Pow2(k);
    MaskedWrap(count % n + 1, k);
    ModAdd(count, 1, n);
  }

  /** With at most n - 1 entries between the two counters, the residues tell
      the occupancy exactly: full, empty and everything in between. */
  lemma MaskedIndicesAreFaithful(k: nat, head: nat, tail: nat)
    requires k <= 32
    requires head <= tail <= head + Pow2(k) - 1
    ensures var n := Pow2(k);
      && tail % n < U32_LIMIT && head % n < U32_LIMIT && n - 1 < U32_LIMIT
      && (RingFull(tail % n, head % n, n - 1) <==> tail - head == n - 1)
      && (tail % n == head % n <==> tail == head)
      && Occupancy(tail % n, head % n, n - 1) == tail - head
  {
    SizeFitsU32(k);
    FullWhenOneLeft(k, head, tail);
    ModInjective(head, tail, Pow2(k));
    OccupancyIsExact(k, head, tail);
  }

  lemma FullWhenOneLeft(k: nat, head: nat, tail: nat)
    requires k <= 32
    requires head <= tail <= head + Pow2(k) - 1
    requires Pow2(k) <= U32_LIMIT
    ensures RingFull(tail % Pow2(k), head % Pow2(k), Pow2(k) - 1) <==> tail - head == Pow2(k) - 1
  {
    var n := Pow2(k);
    NextFollowsCounter(k, tail);
    MaskIsMod(head % n, k);
    ModAdd(head, 0, n);
    OneLapOn(head, n);
    ModInjective(tail + 1, head + n, n);
  }

  lemma OccupancyIsExact(k: nat, head: nat, tail: nat)
    requires k <= 32
    requires head <= tail <= head + Pow2(k) - 1
    requires Pow2(k) <= U32_LIMIT
    ensures Occupancy(tail % Pow2(k), head % Pow2(k), Pow2(k) - 1) == tail - head
  {
    var n := Pow2(k);
    var d := tail % n - head % n;
    MaskedWrap(d, k);
    DifferenceOfResidues(head, tail, n);
  }

  lemma DifferenceOfResidues(head: nat, tail: nat, n: nat)
    requires n > 0 && head <= tail < head + n
    ensures (tail % n - head % n) % n == tail - head
  {
    var d := tail % n - head % n;
    assert tail == n * (tail / n) + tail % n && head == n * (head / n) + head % n;
    assert d == (head / n - tail / n) * n + (tail - head);
    ModUnique(d, head / n - tail / n, n, tail - head);
  }
}
