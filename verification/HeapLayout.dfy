/** The kernel heap seen as a value: page runs ("majors") in list order, each with
    the blocks ("minors") placed in it in address order. Free space is implicit. */
module HeapLayout {
  import opened Sums

  const HEADER: nat := 24          // both headers are six 32-bit words on i386
  const PAGE_COUNT: nat := 16
  const ALIGNMENT: nat := 16
  const ALIGN_INFO: nat := 16
  const ADDRESS_SPACE: nat := 0x1_0000_0000

  // addr is the address of the minor header; req is what the caller asked for
  datatype Block = Block(addr: nat, size: nat, req: nat) {
    function Body(): nat { addr + HEADER }

    function End(): nat { addr + HEADER + size }

    function Payload(): nat { AlignUp(Body()) }
  }

  datatype Run = Run(addr: nat, pages: nat, blocks: seq<Block>) {
    function Size(): nat { 4096 * pages }

    function End(): nat { addr + Size() }

    // Bytes of the run taken by its own header and by its blocks.
    function Usage(): nat { HEADER + Used(blocks) }

    function GapStart(j: nat): nat
      requires j <= |blocks|
    {
      if j == 0 then addr + HEADER else blocks[j - 1].End()
    }

    function GapEnd(j: nat): nat
      requires j <= |blocks|
    {
      if j < |blocks| then blocks[j].addr else End()
    }

    // The free bytes just before block j, or behind the last block when j == |blocks|.
    function Gap(j: nat): int
      requires j <= |blocks|
    {
      GapEnd(j) - GapStart(j)
    }

    ghost predicate Fits(need: nat) {
      exists j: nat :: j <= |blocks| && Gap(j) >= need
    }

    // Blocks lie inside the run, behind its header, in strict address order without overlap.
    ghost predicate Laid() {
      && addr + HEADER <= End()
      && (forall j: nat | j < |blocks| ::
            addr + HEADER <= blocks[j].addr && blocks[j].End() <= End() && blocks[j].req + 32 <= blocks[j].size)
      && (forall j: nat, k: nat | j < k < |blocks| :: blocks[j].End() <= blocks[k].addr)
    }
  }

  // ALIGN: leave 16 bytes for the alignment byte, then go up to the next multiple of 16.
  function AlignUp(body: nat): (p: nat)
    ensures p % 16 == 0
    ensures body + ALIGN_INFO <= p < body + ALIGN_INFO + ALIGNMENT
  {
    var diff := (body + ALIGN_INFO) % 16;
    if diff != 0 then body + ALIGN_INFO + (ALIGNMENT - diff) else body + ALIGN_INFO
  }

  function Footprint(b: Block): nat { HEADER + b.size }

  function BlockSize(b: Block): nat { b.size }

  function RunSize(r: Run): nat { r.Size() }

  function RunInUse(r: Run): nat { SumOf(r.blocks, BlockSize) }

  function Used(bs: seq<Block>): nat { SumOf(bs, Footprint) }

  // The two running totals the allocator keeps.
  function InUse(runs: seq<Run>): nat { SumOf(runs, RunInUse) }

  function Allocated(runs: seq<Run>): nat { SumOf(runs, RunSize) }

  // Every linked run is laid out, non-null, inside the address space and disjoint from the others.
  ghost predicate Sound(runs: seq<Run>) {
    forall i: nat | i < |runs| :: RunSound(runs, i)
  }

  ghost predicate RunSound(runs: seq<Run>, i: nat)
    requires i < |runs|
  {
    && runs[i].Laid() && runs[i].addr > 0 && runs[i].End() <= ADDRESS_SPACE
    && (forall k: nat | k < |runs| && k != i :: Apart(runs[i], runs[k]))
  }

  ghost predicate Apart(r: Run, s: Run) { r.End() <= s.addr || s.End() <= r.addr }

  ghost predicate NoEmptyRun(runs: seq<Run>) {
    forall i: nat | i < |runs| :: runs[i].blocks != []
  }

  // ------------------------------------------------------------ gaps and accounting

  function GapSum(r: Run, k: nat): int
    requires k <= |r.blocks| + 1
  {
    if k == 0 then 0 else GapSum(r, k - 1) + r.Gap(k - 1)
  }

  lemma {:induction false} GapsTelescope(r: Run, k: nat)
    requires k <= |r.blocks|
    ensures GapSum(r, k) + HEADER + Used(r.blocks[..k]) == r.GapStart(k) - r.addr
  {
    if k != 0 {
      GapsTelescope(r, k - 1);
      assert r.blocks[..k] == r.blocks[..k - 1] + [r.blocks[k - 1]];
      SumOfAppend(r.blocks[..k - 1], [r.blocks[k - 1]], Footprint);
    }
  }

  // The gaps of a run add up to exactly what the counters say is free.
  lemma {:induction false} GapsSumToFree(r: Run)
    ensures GapSum(r, |r.blocks| + 1) == r.Size() - r.Usage()
  {
    GapsTelescope(r, |r.blocks|);
    assert r.blocks[..|r.blocks|] == r.blocks;
  }

  lemma {:induction false} GapsNonNegative(r: Run)
    requires r.Laid()
    ensures forall j: nat | j <= |r.blocks| :: r.Gap(j) >= 0
  {
  }

  lemma {:induction false} GapBelowSum(r: Run, j: nat, k: nat)
    requires r.Laid() && j < k <= |r.blocks| + 1
    ensures r.Gap(j) <= GapSum(r, k)
    decreases k
  {
    GapsNonNegative(r);
    if k == j + 1 {
      GapSumNonNegative(r, j);
    } else {
      GapBelowSum(r, j, k - 1);
    }
  }

  lemma {:induction false} GapSumNonNegative(r: Run, k: nat)
    requires r.Laid() && k <= |r.blocks| + 1
    ensures GapSum(r, k) >= 0
  {
    if k > 0 {
      GapsNonNegative(r);
      GapSumNonNegative(r, k - 1);
    }
  }

  // Case 1's shortcut is sound: too little free in total means no single gap is big enough.
  lemma {:induction false} TotalFreeBoundsGaps(r: Run, need: nat)
    requires r.Laid() && r.Size() - r.Usage() < need
    ensures !r.Fits(need)
  {
    GapsSumToFree(r);
    forall j: nat | j <= |r.blocks| ensures r.Gap(j) < need {
      GapBelowSum(r, j, |r.blocks| + 1);
    }
  }

  // usage never exceeds size, so the unsigned subtraction size - usage cannot wrap.
  lemma {:induction false} UsageWithinSize(r: Run)
    requires r.Laid()
    ensures r.Usage() <= r.Size()
  {
    GapsSumToFree(r);
    GapSumNonNegative(r, |r.blocks| + 1);
  }

  // The bytes counted as in use are covered by the bytes counted as allocated.
  lemma {:induction false} InUseWithinAllocated(runs: seq<Run>)
    requires Sound(runs)
    ensures InUse(runs) <= Allocated(runs)
  {
    forall r: Run | r in runs ensures RunInUse(r) <= RunSize(r) {
      var i: nat :| i < |runs| && runs[i] == r;
      assert RunSound(runs, i);
      UsageWithinSize(r);
      SumAtMost(r.blocks, BlockSize, Footprint);
    }
    SumAtMost(runs, RunInUse, RunSize);
  }
}
