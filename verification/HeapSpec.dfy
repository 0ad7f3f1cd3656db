/** What kmalloc, kfree and krealloc do to the runs, stated without pointers. */
module HeapSpec {
  import opened HeapLayout

  // The largest request for which size, headers and page rounding stay below 2^32.
  const MAX_REQ: nat := 0xFFFFF000 - 80

  // at is the header address of the new block, 0 when there is none
  datatype Outcome = Outcome(runs: seq<Run>, at: nat) {
    function Ptr(): nat { if at == 0 then 0 else AlignUp(at + HEADER) }
  }

  // kmalloc asks for 32 bytes more than requested: 16 for alignment, 16 for its bookkeeping.
  function Padded(req: nat): nat { req + ALIGNMENT + ALIGN_INFO }

  // Pages for a run that must hold one block of this size: enough, at least 16, and no more.
  function PagesFor(size: nat): (pages: nat)
    ensures 4096 * pages >= size + 2 * HEADER && pages >= PAGE_COUNT
    ensures pages == PAGE_COUNT || 4096 * (pages - 1) < size + 2 * HEADER
  {
    var st := size + HEADER + HEADER;
    var st := if st % 4096 == 0 then st / 4096 else st / 4096 + 1;
    if st < PAGE_COUNT then PAGE_COUNT else st
  }

  // What the page hook promises: a run of pages that touches no run still linked.
  ghost predicate Grantable(runs: seq<Run>, grant: nat, pages: nat) {
    && grant > 0 && grant + 4096 * pages <= ADDRESS_SPACE
    && (forall i: nat | i < |runs| :: Apart(runs[i], Run(grant, pages, [])))
  }

  function FirstGap(r: Run, need: nat, j: nat): (g: nat)
    requires j <= |r.blocks| + 1
    ensures j <= g <= |r.blocks| + 1
    ensures g <= |r.blocks| ==> r.Gap(g) >= need
    ensures forall k: nat | j <= k < g :: r.Gap(k) < need
    decreases |r.blocks| + 1 - j
  {
    if j == |r.blocks| + 1 then j
    else if r.Gap(j) >= need then j
    else FirstGap(r, need, j + 1)
  }

  function FirstRun(runs: seq<Run>, need: nat, i: nat): (k: nat)
    requires i <= |runs|
    ensures i <= k <= |runs|
    ensures k < |runs| ==> runs[k].Fits(need) && FirstGap(runs[k], need, 0) <= |runs[k].blocks|
    ensures forall l: nat | i <= l < k :: !runs[l].Fits(need)
    decreases |runs| - i
  {
    if i == |runs| then i
    else if FirstGap(runs[i], need, 0) <= |runs[i].blocks| then i
    else FirstRun(runs, need, i + 1)
  }

  // The search from the hint to the end, then once more from the root.
  function Choose(runs: seq<Run>, need: nat, start: nat): (k: nat)
    requires start <= |runs|
    ensures k <= |runs|
    ensures k < |runs| ==> runs[k].Fits(need) && FirstGap(runs[k], need, 0) <= |runs[k].blocks|
    ensures k == |runs| ==> forall l: nat | l < |runs| :: !runs[l].Fits(need)
  {
    var k := FirstRun(runs, need, start);
    if k < |runs| then k else FirstRun(runs, need, 0)
  }

  function PlaceAt(r: Run, j: nat, size: nat, req: nat): Run
    requires j <= |r.blocks|
  {
    r.(blocks := r.blocks[..j] + [Block(r.GapStart(j), size, req)] + r.blocks[j..])
  }

  // The block put into the first big enough gap of run k.
  function InRun(runs: seq<Run>, k: nat, req: nat): Outcome
    requires k < |runs| && FirstGap(runs[k], Padded(req) + HEADER, 0) <= |runs[k].blocks|
  {
    var size := Padded(req);
    var j := FirstGap(runs[k], size + HEADER, 0);
    Outcome(runs[k := PlaceAt(runs[k], j, size, req)], runs[k].GapStart(j))
  }

  // The block as the only one of a new run behind all the others.
  function InNewRun(runs: seq<Run>, grant: nat, req: nat): Outcome {
    var b := Block(grant + HEADER, Padded(req), req);
    Outcome(runs + [Run(grant, PagesFor(Padded(req)), [b])], b.addr)
  }

  function Malloc(runs: seq<Run>, start: nat, req: nat, grant: nat): Outcome
    requires start <= |runs|
  {
    var k := Choose(runs, Padded(req) + HEADER, start);
    if k < |runs| then InRun(runs, k, req)
    else if grant == 0 then Outcome(runs, 0)
    else InNewRun(runs, grant, req)
  }

  function Without(bs: seq<Block>, h: nat): seq<Block> {
    if bs == [] then []
    else if bs[0].addr == h then Without(bs[1..], h)
    else [bs[0]] + Without(bs[1..], h)
  }

  // Freeing the block at h drops it, and with it a run that has no other block.
  function Free(runs: seq<Run>, h: nat): seq<Run> {
    if runs == [] then []
    else
      var bs := Without(runs[0].blocks, h);
      if bs == [] then Free(runs[1..], h) else [runs[0].(blocks := bs)] + Free(runs[1..], h)
  }

  ghost predicate At(runs: seq<Run>, i: nat, j: nat) {
    i < |runs| && j < |runs[i].blocks|
  }

  ghost predicate LiveAt(runs: seq<Run>, h: nat) {
    exists i: nat, j: nat :: At(runs, i, j) && runs[i].blocks[j].addr == h
  }

  // ------------------------------------------------------------ Malloc keeps the heap sound

  lemma {:induction false} PlacedBlocks(r: Run, j: nat, size: nat, req: nat, k: nat)
    requires j <= |r.blocks| && k <= |r.blocks|
    ensures PlaceAt(r, j, size, req).blocks[k] ==
            if k < j then r.blocks[k] else if k == j then Block(r.GapStart(j), size, req) else r.blocks[k - 1]
  {
  }

  lemma {:induction false} PlaceKeepsLaid(r: Run, j: nat, size: nat, req: nat)
    requires r.Laid() && j <= |r.blocks| && r.Gap(j) >= size + HEADER && size == Padded(req)
    ensures PlaceAt(r, j, size, req).Laid()
  {
    var b := Block(r.GapStart(j), size, req);
    var bs := PlaceAt(r, j, size, req).blocks;
    assert b.End() <= r.GapEnd(j);
    forall k: nat | k < |bs|
      ensures r.addr + HEADER <= bs[k].addr && bs[k].End() <= r.End() && bs[k].req + 32 <= bs[k].size
    {
      PlacedBlocks(r, j, size, req, k);
    }
    forall k: nat, l: nat | k < l < |bs| ensures bs[k].End() <= bs[l].addr {
      PlacedBlocks(r, j, size, req, k);
      PlacedBlocks(r, j, size, req, l);
      if k == j { assert r.GapEnd(j) <= r.blocks[l - 1].addr; }
    }
  }

  lemma {:induction false} UpdateKeepsSound(runs: seq<Run>, i: nat, r: Run)
    requires Sound(runs) && i < |runs| && r.Laid() && r.addr == runs[i].addr && r.pages == runs[i].pages
    ensures Sound(runs[i := r])
  {
    var rs := runs[i := r];
    forall k: nat | k < |rs| ensures RunSound(rs, k) {
      assert RunSound(runs, k);
      forall l: nat | l < |rs| && k != l ensures Apart(rs[k], rs[l]) {
        assert Apart(runs[k], runs[l]);
      }
    }
  }

  lemma {:induction false} FreshRunFits(grant: nat, size: nat)
    ensures var r := Run(grant, PagesFor(size), []); r.Laid() && r.Gap(0) >= size + HEADER
  {
  }

  lemma {:induction false} AppendKeepsSound(runs: seq<Run>, grant: nat, pages: nat)
    requires Sound(runs) && Grantable(runs, grant, pages) && pages >= 1
    ensures Sound(runs + [Run(grant, pages, [])])
  {
    var rs := runs + [Run(grant, pages, [])];
    forall k: nat | k < |rs| ensures RunSound(rs, k) {
      if k < |runs| { assert RunSound(runs, k); }
      forall l: nat | l < |rs| && k != l ensures Apart(rs[k], rs[l]) {
        if k < |runs| && l < |runs| { assert Apart(runs[k], runs[l]); }
      }
    }
  }

  lemma {:induction false} InRunKeepsSound(runs: seq<Run>, k: nat, req: nat)
    requires Sound(runs) && k < |runs| && FirstGap(runs[k], Padded(req) + HEADER, 0) <= |runs[k].blocks|
    ensures Sound(InRun(runs, k, req).runs)
  {
    var j := FirstGap(runs[k], Padded(req) + HEADER, 0);
    assert RunSound(runs, k);
    PlaceKeepsLaid(runs[k], j, Padded(req), req);
    UpdateKeepsSound(runs, k, PlaceAt(runs[k], j, Padded(req), req));
  }

  lemma {:induction false} InNewRunKeepsSound(runs: seq<Run>, grant: nat, req: nat)
    requires Sound(runs) && Grantable(runs, grant, PagesFor(Padded(req)))
    ensures Sound(InNewRun(runs, grant, req).runs)
  {
    var size := Padded(req);
    var empty := Run(grant, PagesFor(size), []);
    FreshRunFits(grant, size);
    AppendKeepsSound(runs, grant, empty.pages);
    PlaceKeepsLaid(empty, 0, size, req);
    var placed := PlaceAt(empty, 0, size, req);
    UpdateKeepsSound(runs + [empty], |runs|, placed);
    assert (runs + [empty])[|runs| := placed] == runs + [placed];
    assert placed == Run(grant, PagesFor(size), [Block(grant + HEADER, size, req)]);
  }

  lemma {:induction false} MallocKeepsSound(runs: seq<Run>, start: nat, req: nat, grant: nat)
    requires Sound(runs) && start <= |runs|
    requires grant != 0 ==> Grantable(runs, grant, PagesFor(Padded(req)))
    ensures Sound(Malloc(runs, start, req, grant).runs)
  {
    var k := Choose(runs, Padded(req) + HEADER, start);
    if k < |runs| {
      InRunKeepsSound(runs, k, req);
    } else if grant != 0 {
      InNewRunKeepsSound(runs, grant, req);
    }
  }

  // The heap grows exactly when no gap anywhere is big enough, whatever the hint was.
  lemma {:induction false} GrowsExactlyWhenNothingFits(runs: seq<Run>, start: nat, req: nat, grant: nat)
    requires start <= |runs|
    ensures var o := Malloc(runs, start, req, grant);
            var full := forall i: nat | i < |runs| :: !runs[i].Fits(Padded(req) + HEADER);
            && (o.Ptr() == 0 <==> full && grant == 0)
            && (|o.runs| == |runs| + 1 <==> full && grant != 0)
            && (|o.runs| == |runs| <==> !(full && grant != 0))
  {
  }

  // ------------------------------------------------------------ freeing

  lemma {:induction false} BlocksDisjoint(runs: seq<Run>, i: nat, j: nat, k: nat, l: nat)
    requires Sound(runs) && At(runs, i, j) && At(runs, k, l) && (i, j) != (k, l)
    ensures runs[i].blocks[j].End() <= runs[k].blocks[l].addr || runs[k].blocks[l].End() <= runs[i].blocks[j].addr
  {
    assert RunSound(runs, i) && RunSound(runs, k);
    if i != k { assert Apart(runs[i], runs[k]); }
  }

  lemma {:induction false} WithoutAbsent(bs: seq<Block>, h: nat)
    requires forall j: nat | j < |bs| :: bs[j].addr != h
    ensures Without(bs, h) == bs
  {
    if bs != [] { WithoutAbsent(bs[1..], h); }
  }

  lemma {:induction false} WithoutAt(bs: seq<Block>, j: nat)
    requires j < |bs|
    requires forall k: nat | k < |bs| && k != j :: bs[k].addr != bs[j].addr
    ensures Without(bs, bs[j].addr) == bs[..j] + bs[j + 1..]
  {
    if j == 0 {
      WithoutAbsent(bs[1..], bs[0].addr);
      assert bs[..0] + bs[1..] == bs[1..];
    } else {
      WithoutAt(bs[1..], j - 1);
      assert [bs[0]] + (bs[1..][..j - 1] + bs[1..][j..]) == bs[..j] + bs[j + 1..];
    }
  }

  lemma {:induction false} FreeAbsent(runs: seq<Run>, h: nat)
    requires NoEmptyRun(runs)
    requires forall i: nat, j: nat | At(runs, i, j) :: runs[i].blocks[j].addr != h
    ensures Free(runs, h) == runs
  {
    if runs != [] {
      assert forall j: nat | j < |runs[0].blocks| :: At(runs, 0, j);
      WithoutAbsent(runs[0].blocks, h);
      forall i: nat, j: nat | At(runs[1..], i, j) ensures runs[1..][i].blocks[j].addr != h {
        assert At(runs, i + 1, j);
      }
      FreeAbsent(runs[1..], h);
    }
  }

  // The same in terms of positions, which is how the pointer surgery works.
  function FreeAt(runs: seq<Run>, i: nat, j: nat): seq<Run>
    requires i < |runs| && j < |runs[i].blocks|
  {
    var r := runs[i];
    if |r.blocks| == 1 then runs[..i] + runs[i + 1..]
    else runs[i := r.(blocks := r.blocks[..j] + r.blocks[j + 1..])]
  }

  ghost predicate OnlyAt(runs: seq<Run>, h: nat, i: nat, j: nat) {
    forall k: nat, l: nat | At(runs, k, l) && runs[k].blocks[l].addr == h :: k == i && l == j
  }

  lemma {:induction false} FreeOnly(runs: seq<Run>, h: nat, i: nat, j: nat)
    requires NoEmptyRun(runs) && At(runs, i, j) && runs[i].blocks[j].addr == h && OnlyAt(runs, h, i, j)
    ensures Free(runs, h) == FreeAt(runs, i, j)
  {
    var tail := runs[1..];
    var bs := runs[0].blocks;
    assert forall k: nat, l: nat | At(tail, k, l) :: At(runs, k + 1, l);
    if i == 0 {
      assert forall l: nat | l < |bs| :: At(runs, 0, l);
      WithoutAt(bs, j);
      FreeAbsent(tail, h);
      FreeHead(runs, j);
    } else {
      assert forall l: nat | l < |bs| :: At(runs, 0, l);
      WithoutAbsent(bs, h);
      FreeOnly(tail, h, i - 1, j);
      FreeTail(runs, i, j);
    }
  }

  lemma {:induction false} FreeHead(runs: seq<Run>, j: nat)
    requires At(runs, 0, j)
    ensures FreeAt(runs, 0, j) ==
            if |runs[0].blocks| == 1 then runs[1..]
            else [runs[0].(blocks := runs[0].blocks[..j] + runs[0].blocks[j + 1..])] + runs[1..]
  {
    assert runs[..0] + runs[1..] == runs[1..];
  }

  lemma {:induction false} FreeTail(runs: seq<Run>, i: nat, j: nat)
    requires 0 < i && At(runs, i, j)
    ensures FreeAt(runs, i, j) == [runs[0]] + FreeAt(runs[1..], i - 1, j)
  {
    assert runs[..i] + runs[i + 1..] == [runs[0]] + (runs[1..][..i - 1] + runs[1..][i..]);
  }

  lemma {:induction false} AddressesUnique(runs: seq<Run>, i: nat, j: nat)
    requires Sound(runs) && At(runs, i, j)
    ensures OnlyAt(runs, runs[i].blocks[j].addr, i, j)
  {
    forall k: nat, l: nat | At(runs, k, l) && (k, l) != (i, j)
      ensures runs[k].blocks[l].addr != runs[i].blocks[j].addr
    {
      BlocksDisjoint(runs, i, j, k, l);
    }
  }

  lemma {:induction false} FreeIsFreeAt(runs: seq<Run>, i: nat, j: nat)
    requires Sound(runs) && NoEmptyRun(runs) && At(runs, i, j)
    ensures Free(runs, runs[i].blocks[j].addr) == FreeAt(runs, i, j)
  {
    AddressesUnique(runs, i, j);
    FreeOnly(runs, runs[i].blocks[j].addr, i, j);
  }

  lemma {:induction false} RemovedKeepsSound(runs: seq<Run>, i: nat)
    requires Sound(runs) && i < |runs|
    ensures Sound(runs[..i] + runs[i + 1..])
  {
    var rs := runs[..i] + runs[i + 1..];
    forall k: nat | k < |rs| ensures RunSound(rs, k) {
      var k' := if k < i then k else k + 1;
      assert RunSound(runs, k') && rs[k] == runs[k'];
      forall l: nat | l < |rs| && k != l ensures Apart(rs[k], rs[l]) {
        assert Apart(runs[k'], runs[if l < i then l else l + 1]);
      }
    }
  }

  lemma {:induction false} FreeKeepsSound(runs: seq<Run>, i: nat, j: nat)
    requires Sound(runs) && NoEmptyRun(runs) && At(runs, i, j)
    ensures Sound(FreeAt(runs, i, j)) && NoEmptyRun(FreeAt(runs, i, j))
  {
    var r := runs[i];
    if |r.blocks| == 1 {
      RemovedKeepsSound(runs, i);
    } else {
      var r' := r.(blocks := r.blocks[..j] + r.blocks[j + 1..]);
      assert RunSound(runs, i);
      forall k: nat, l: nat | k < l < |r'.blocks| ensures r'.blocks[k].End() <= r'.blocks[l].addr {
        assert r'.blocks[k] == r.blocks[if k < j then k else k + 1];
        assert r'.blocks[l] == r.blocks[if l < j then l else l + 1];
      }
      UpdateKeepsSound(runs, i, r');
    }
  }

  // Freeing merges the two gaps around the block with no coalescing step.
  lemma {:induction false} FreeMergesGaps(runs: seq<Run>, i: nat, j: nat)
    requires Sound(runs) && NoEmptyRun(runs) && At(runs, i, j) && |runs[i].blocks| > 1
    ensures |Free(runs, runs[i].blocks[j].addr)| == |runs|
    ensures GapsMerged(runs[i], Free(runs, runs[i].blocks[j].addr)[i], j)
  {
    FreeIsFreeAt(runs, i, j);
    var r := runs[i];
    DropMergesGaps(r, j);
  }

  ghost predicate GapsMerged(r: Run, r': Run, j: nat)
    requires j < |r.blocks|
  {
    && |r'.blocks| == |r.blocks| - 1
    && r'.Gap(j) == r.Gap(j) + Footprint(r.blocks[j]) + r.Gap(j + 1)
    && (forall k: nat | k < j :: r'.Gap(k) == r.Gap(k))
    && (forall k: nat | j < k < |r.blocks| :: r'.Gap(k) == r.Gap(k + 1))
  }

  lemma {:induction false} DropMergesGaps(r: Run, j: nat)
    requires j < |r.blocks|
    ensures GapsMerged(r, r.(blocks := r.blocks[..j] + r.blocks[j + 1..]), j)
  {
  }

  // ------------------------------------------------------------ krealloc

  function Relabel(bs: seq<Block>, h: nat, req: nat): seq<Block> {
    seq(|bs|, j requires 0 <= j < |bs| => if bs[j].addr == h then bs[j].(req := req) else bs[j])
  }

  // Shrinking only rewrites the requested size of the block at h.
  function Resize(runs: seq<Run>, h: nat, req: nat): seq<Run> {
    seq(|runs|, i requires 0 <= i < |runs| => runs[i].(blocks := Relabel(runs[i].blocks, h, req)))
  }

  lemma {:induction false} ResizeAt(runs: seq<Run>, i: nat, j: nat, req: nat)
    requires Sound(runs) && At(runs, i, j)
    ensures var r := runs[i];
            Resize(runs, r.blocks[j].addr, req) ==
            runs[i := r.(blocks := r.blocks[j := r.blocks[j].(req := req)])]
  {
    var h := runs[i].blocks[j].addr;
    AddressesUnique(runs, i, j);
    forall k: nat | k < |runs|
      ensures Relabel(runs[k].blocks, h, req) ==
              if k == i then runs[i].blocks[j := runs[i].blocks[j].(req := req)] else runs[k].blocks
    {
      assert forall l: nat | l < |runs[k].blocks| :: At(runs, k, l);
    }
  }

  lemma {:induction false} ResizeKeepsSound(runs: seq<Run>, i: nat, j: nat, req: nat)
    requires Sound(runs) && NoEmptyRun(runs) && At(runs, i, j) && req <= runs[i].blocks[j].req
    ensures Sound(Resize(runs, runs[i].blocks[j].addr, req)) && NoEmptyRun(Resize(runs, runs[i].blocks[j].addr, req))
  {
    var r := runs[i];
    ResizeAt(runs, i, j, req);
    assert RunSound(runs, i);
    UpdateKeepsSound(runs, i, r.(blocks := r.blocks[j := r.blocks[j].(req := req)]));
  }
}
