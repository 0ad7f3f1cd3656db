/** What callers of the kernel heap rely on: isolation, exact accounting, freeing as
    the inverse of allocating, and the invariant over every history of calls. */
module HeapTheorems {
  import opened HeapLayout
  import opened HeapSpec
  import opened Sums

  // ------------------------------------------------------------ isolation

  // Any two live blocks, and any block and any run header, occupy disjoint memory; the payload is
  // aligned, behind its alignment byte, and inside its block.
  lemma {:induction false} Isolation(runs: seq<Run>, i: nat, j: nat, k: nat, l: nat)
    requires Sound(runs) && At(runs, i, j) && At(runs, k, l)
    ensures var b, c := runs[i].blocks[j], runs[k].blocks[l];
            && b.Payload() % 16 == 0
            && b.Body() <= b.Payload() - ALIGN_INFO < b.Payload()
            && b.Payload() + b.req <= b.End() <= ADDRESS_SPACE
            && (b.End() <= runs[k].addr || runs[k].addr + HEADER <= b.addr)
            && ((i, j) != (k, l) ==> b.End() <= c.addr || c.End() <= b.addr)
  {
    assert RunSound(runs, i) && RunSound(runs, k);
    if (i, j) != (k, l) { BlocksDisjoint(runs, i, j, k, l); }
    if i != k { assert RunSound(runs, i) && Apart(runs[i], runs[k]); }
  }

  // UNALIGN reads back the byte ALIGN wrote and so recovers the address behind the header.
  lemma {:induction false} UnalignInvertsAlign(b: Block)
    ensures var diff := b.Payload() - b.Body();
            0 <= diff < ALIGNMENT + ALIGN_INFO && diff < 256 && b.Payload() - diff - HEADER == b.addr
  {
  }

  // ------------------------------------------------------------ accounting

  lemma {:induction false} PlaceTotals(runs: seq<Run>, k: nat, j: nat, size: nat, req: nat)
    requires k < |runs| && j <= |runs[k].blocks|
    ensures var rs := runs[k := PlaceAt(runs[k], j, size, req)];
            && rs[k].Usage() == runs[k].Usage() + HEADER + size
            && InUse(rs) == InUse(runs) + size && Allocated(rs) == Allocated(runs)
  {
    var b := Block(runs[k].GapStart(j), size, req);
    SumInsert(runs[k].blocks, j, b, Footprint);
    SumInsert(runs[k].blocks, j, b, BlockSize);
    SumUpdate(runs, k, PlaceAt(runs[k], j, size, req), RunInUse);
    SumUpdate(runs, k, PlaceAt(runs[k], j, size, req), RunSize);
  }

  lemma {:induction false} NewRunTotals(runs: seq<Run>, r: Run)
    ensures InUse(runs + [r]) == InUse(runs) + RunInUse(r)
    ensures Allocated(runs + [r]) == Allocated(runs) + r.Size()
  {
    SumOfAppend(runs, [r], RunInUse);
    SumOfAppend(runs, [r], RunSize);
  }

  lemma {:induction false} SingleBlock(b: Block)
    ensures SumOf([b], BlockSize) == b.size && SumOf([b], Footprint) == HEADER + b.size
  {
    assert [b][1..] == [];
  }

  // Taking block j out of run i changes the totals by exactly that block, and by the run if it was its last.
  lemma {:induction false} FreeAtTotals(runs: seq<Run>, i: nat, j: nat)
    requires At(runs, i, j)
    ensures var rs, b := FreeAt(runs, i, j), runs[i].blocks[j];
            && InUse(rs) == InUse(runs) - b.size
            && Allocated(rs) == Allocated(runs) - (if |runs[i].blocks| == 1 then runs[i].Size() else 0)
            && (|runs[i].blocks| > 1 ==> rs[i].Usage() == runs[i].Usage() - HEADER - b.size)
  {
    var r := runs[i];
    if |r.blocks| == 1 {
      assert r.blocks == [r.blocks[0]];
      SingleBlock(r.blocks[0]);
      SumRemove(runs, i, RunInUse);
      SumRemove(runs, i, RunSize);
    } else {
      SumRemove(r.blocks, j, Footprint);
      SumRemove(r.blocks, j, BlockSize);
      var r' := r.(blocks := r.blocks[..j] + r.blocks[j + 1..]);
      SumUpdate(runs, i, r', RunInUse);
      SumUpdate(runs, i, r', RunSize);
    }
  }

  // ------------------------------------------------------------ freeing undoes allocating

  lemma {:induction false} DropUndoesPlace(r: Run, j: nat, size: nat, req: nat)
    requires j <= |r.blocks|
    ensures var bs := PlaceAt(r, j, size, req).blocks;
            |bs| == |r.blocks| + 1 && bs[j] == Block(r.GapStart(j), size, req) && bs[..j] + bs[j + 1..] == r.blocks
  {
  }

  lemma {:induction false} FreeUndoesInRun(runs: seq<Run>, k: nat, req: nat)
    requires Sound(runs) && NoEmptyRun(runs) && k < |runs|
    requires FirstGap(runs[k], Padded(req) + HEADER, 0) <= |runs[k].blocks|
    ensures Free(InRun(runs, k, req).runs, InRun(runs, k, req).at) == runs
  {
    var rs := InRun(runs, k, req).runs;
    var j := FirstGap(runs[k], Padded(req) + HEADER, 0);
    InRunKeepsSound(runs, k, req);
    DropUndoesPlace(runs[k], j, Padded(req), req);
    FreeIsFreeAt(rs, k, j);
    assert rs[k := runs[k]] == runs;
  }

  lemma {:induction false} FreeUndoesInNewRun(runs: seq<Run>, grant: nat, req: nat)
    requires Sound(runs) && NoEmptyRun(runs) && Grantable(runs, grant, PagesFor(Padded(req)))
    ensures Free(InNewRun(runs, grant, req).runs, InNewRun(runs, grant, req).at) == runs
  {
    var rs := InNewRun(runs, grant, req).runs;
    InNewRunKeepsSound(runs, grant, req);
    FreeIsFreeAt(rs, |runs|, 0);
    assert rs[..|runs|] + rs[|runs| + 1..] == runs;
  }

  // kfree of the block kmalloc just returned gives back exactly the earlier runs, links and sizes,
  // whether the block went into a gap or into a run obtained for it.
  lemma {:induction false} FreeUndoesMalloc(runs: seq<Run>, start: nat, req: nat, grant: nat)
    requires Sound(runs) && NoEmptyRun(runs) && start <= |runs|
    requires grant != 0 ==> Grantable(runs, grant, PagesFor(Padded(req)))
    requires Malloc(runs, start, req, grant).at != 0
    ensures var o := Malloc(runs, start, req, grant); Free(o.runs, o.at) == runs
  {
    var k := Choose(runs, Padded(req) + HEADER, start);
    if k < |runs| {
      FreeUndoesInRun(runs, k, req);
    } else {
      FreeUndoesInNewRun(runs, grant, req);
    }
  }

  lemma {:induction false} WithoutCommutes(bs: seq<Block>, g: nat, h: nat)
    ensures Without(Without(bs, g), h) == Without(Without(bs, h), g)
  {
    if bs != [] { WithoutCommutes(bs[1..], g, h); }
  }

  // The order in which blocks are freed does not matter.
  lemma {:induction false} FreeCommutes(runs: seq<Run>, g: nat, h: nat)
    ensures Free(Free(runs, g), h) == Free(Free(runs, h), g)
  {
    if runs != [] {
      FreeCommutes(runs[1..], g, h);
      WithoutCommutes(runs[0].blocks, g, h);
    }
  }

  // ------------------------------------------------------------ which blocks are live

  ghost function LiveBlocks(runs: seq<Run>): set<Block> {
    set i: nat, j: nat | i < |runs| && j < |runs[i].blocks| :: runs[i].blocks[j]
  }

  lemma {:induction false} WithoutKeepsRest(bs: seq<Block>, h: nat, b: Block)
    ensures b in Without(bs, h) <==> b in bs && b.addr != h
  {
    if bs != [] { WithoutKeepsRest(bs[1..], h, b); }
  }

  lemma {:induction false} LiveBlockSomewhere(runs: seq<Run>, b: Block)
    ensures b in LiveBlocks(runs) <==> exists i: nat :: i < |runs| && b in runs[i].blocks
  {
  }

  lemma {:induction false} LiveSplit(runs: seq<Run>, b: Block)
    requires runs != []
    ensures b in LiveBlocks(runs) <==> b in runs[0].blocks || b in LiveBlocks(runs[1..])
  {
    LiveBlockSomewhere(runs, b);
    LiveBlockSomewhere(runs[1..], b);
    if b in LiveBlocks(runs) && b !in runs[0].blocks {
      var i: nat :| i < |runs| && b in runs[i].blocks;
      assert runs[1..][i - 1] == runs[i];
    }
    if i: nat :| i < |runs[1..]| && b in runs[1..][i].blocks {
      assert runs[i + 1] == runs[1..][i];
    }
  }

  // Freeing takes out the block at h and nothing else.
  lemma {:induction false} FreeKeepsRest(runs: seq<Run>, h: nat, b: Block)
    ensures b in LiveBlocks(Free(runs, h)) <==> b in LiveBlocks(runs) && b.addr != h
  {
    if runs != [] {
      FreeKeepsRest(runs[1..], h, b);
      LiveSplit(runs, b);
      var bs := Without(runs[0].blocks, h);
      WithoutKeepsRest(runs[0].blocks, h, b);
      if bs != [] {
        LiveSplit(Free(runs, h), b);
        assert Free(runs, h)[1..] == Free(runs[1..], h);
      }
    }
  }

  lemma {:induction false} FreeKeepsNoEmptyRun(runs: seq<Run>, h: nat)
    ensures NoEmptyRun(Free(runs, h))
  {
    if runs != [] { FreeKeepsNoEmptyRun(runs[1..], h); }
  }

  lemma {:induction false} NothingLiveMeansEmpty(runs: seq<Run>)
    requires NoEmptyRun(runs) && LiveBlocks(runs) == {}
    ensures runs == []
  {
    if runs != [] {
      LiveBlockSomewhere(runs, runs[0].blocks[0]);
    }
  }

  function FreeAll(runs: seq<Run>, hs: seq<nat>): seq<Run>
    decreases |hs|
  {
    if hs == [] then runs else FreeAll(Free(runs, hs[0]), hs[1..])
  }

  // Freeing every block, in whatever order, releases every run and brings both totals to zero.
  lemma {:induction false} FreeingAllEmptiesTheHeap(runs: seq<Run>, hs: seq<nat>)
    requires NoEmptyRun(runs)
    requires forall b: Block | b in LiveBlocks(runs) :: b.addr in hs
    ensures FreeAll(runs, hs) == [] && InUse(FreeAll(runs, hs)) == 0 && Allocated(FreeAll(runs, hs)) == 0
    decreases |hs|
  {
    if hs == [] {
      NothingLiveMeansEmpty(runs);
    } else {
      FreeKeepsNoEmptyRun(runs, hs[0]);
      forall b: Block | b in LiveBlocks(Free(runs, hs[0])) ensures b.addr in hs[1..] {
        FreeKeepsRest(runs, hs[0], b);
      }
      FreeingAllEmptiesTheHeap(Free(runs, hs[0]), hs[1..]);
    }
  }

  // Allocating adds the one new block and keeps every other where it was.
  lemma {:induction false} MallocAddsOneBlock(runs: seq<Run>, start: nat, req: nat, grant: nat)
    requires Sound(runs) && NoEmptyRun(runs) && start <= |runs|
    requires grant != 0 ==> Grantable(runs, grant, PagesFor(Padded(req)))
    ensures var o := Malloc(runs, start, req, grant);
            if o.at == 0 then o.runs == runs
            else
              var b := Block(o.at, Padded(req), req);
              b !in LiveBlocks(runs) && LiveBlocks(o.runs) == LiveBlocks(runs) + {b}
  {
    var o := Malloc(runs, start, req, grant);
    if o.at != 0 {
      FreeUndoesMalloc(runs, start, req, grant);
      MallocKeepsSound(runs, start, req, grant);
      var k := Choose(runs, Padded(req) + HEADER, start);
      var j := if k < |runs| then FirstGap(runs[k], Padded(req) + HEADER, 0) else 0;
      NewBlockIsAt(runs, start, req, grant, k, j);
      OneMoreThanFreed(o.runs, Block(o.at, Padded(req), req));
    }
  }

  lemma {:induction false} OneMoreThanFreed(runs: seq<Run>, b: Block)
    requires Sound(runs) && b in LiveBlocks(runs)
    ensures b !in LiveBlocks(Free(runs, b.addr)) && LiveBlocks(runs) == LiveBlocks(Free(runs, b.addr)) + {b}
  {
    forall c: Block ensures c in LiveBlocks(runs) <==> c in LiveBlocks(Free(runs, b.addr)) || c == b {
      FreeKeepsRest(runs, b.addr, c);
      if c in LiveBlocks(runs) && c.addr == b.addr { SameAddressSameBlock(runs, c, b); }
    }
    FreeKeepsRest(runs, b.addr, b);
  }

  lemma {:induction false} NewBlockIsAt(runs: seq<Run>, start: nat, req: nat, grant: nat, k: nat, j: nat)
    requires start <= |runs| && k == Choose(runs, Padded(req) + HEADER, start)
    requires j == if k < |runs| then FirstGap(runs[k], Padded(req) + HEADER, 0) else 0
    requires Malloc(runs, start, req, grant).at != 0
    ensures var o := Malloc(runs, start, req, grant);
            At(o.runs, k, j) && o.runs[k].blocks[j] == Block(o.at, Padded(req), req)
            && Block(o.at, Padded(req), req) in LiveBlocks(o.runs)
  {
    var o := Malloc(runs, start, req, grant);
    assert At(o.runs, k, j) && o.runs[k].blocks[j] == Block(o.at, Padded(req), req);
    LiveBlockSomewhere(o.runs, o.runs[k].blocks[j]);
  }

  lemma {:induction false} SameAddressSameBlock(runs: seq<Run>, b: Block, c: Block)
    requires Sound(runs) && b in LiveBlocks(runs) && c in LiveBlocks(runs) && b.addr == c.addr
    ensures b == c
  {
    var i: nat, j: nat :| At(runs, i, j) && runs[i].blocks[j] == b;
    var k: nat, l: nat :| At(runs, k, l) && runs[k].blocks[l] == c;
    AddressesUnique(runs, i, j);
  }

  // ------------------------------------------------------------ pages obtained and given back

  // The runs as the page hook knows them: an address and a page count each.
  ghost function PagesOf(runs: seq<Run>): multiset<(nat, nat)> { multiset(Hooks(runs)) }

  ghost function Hooks(runs: seq<Run>): seq<(nat, nat)> {
    seq(|runs|, i requires 0 <= i < |runs| => (runs[i].addr, runs[i].pages))
  }

  // The runs freeing the block at h leaves without a block.
  ghost function ReleasedBy(runs: seq<Run>, h: nat): multiset<(nat, nat)> {
    if runs == [] then multiset{}
    else
      ReleasedBy(runs[1..], h)
      + if Without(runs[0].blocks, h) == [] then multiset{(runs[0].addr, runs[0].pages)} else multiset{}
  }

  // What a kmalloc that asked the hook, or did not, got from it.
  ghost function Obtained(asked: nat, req: nat, grant: nat): multiset<(nat, nat)> {
    if asked == 1 && grant != 0 then multiset{(grant, PagesFor(Padded(req)))} else multiset{}
  }

  // What a kfree that passed an address and a page count to the hook, or null, gave back.
  ghost function TookBack(released: nat, pages: nat): multiset<(nat, nat)> {
    if released != 0 then multiset{(released, pages)} else multiset{}
  }

  ghost function Asked(runs: seq<Run>, req: nat): nat {
    if forall i: nat | i < |runs| :: !runs[i].Fits(Padded(req) + HEADER) then 1 else 0
  }

  lemma {:induction false} PagesOfSplit(rs: seq<Run>, ts: seq<Run>)
    ensures PagesOf(rs + ts) == PagesOf(rs) + PagesOf(ts)
  {
    assert Hooks(rs + ts) == Hooks(rs) + Hooks(ts);
  }

  lemma {:induction false} PagesOfOne(r: Run)
    ensures PagesOf([r]) == multiset{(r.addr, r.pages)}
  {
    assert Hooks([r]) == [(r.addr, r.pages)];
  }

  lemma {:induction false} PagesOfUpdate(runs: seq<Run>, k: nat, r: Run)
    requires k < |runs| && r.addr == runs[k].addr && r.pages == runs[k].pages
    ensures PagesOf(runs[k := r]) == PagesOf(runs)
  {
    assert Hooks(runs[k := r]) == Hooks(runs);
  }

  lemma {:induction false} PagesOfRemove(runs: seq<Run>, i: nat)
    requires i < |runs|
    ensures PagesOf(runs) == PagesOf(runs[..i] + runs[i + 1..]) + multiset{(runs[i].addr, runs[i].pages)}
  {
    assert runs == runs[..i] + [runs[i]] + runs[i + 1..];
    PagesOfSplit(runs[..i] + [runs[i]], runs[i + 1..]);
    PagesOfSplit(runs[..i], [runs[i]]);
    PagesOfSplit(runs[..i], runs[i + 1..]);
    PagesOfOne(runs[i]);
  }

  // A free takes exactly those runs out of the list.
  lemma {:induction false} FreePages(runs: seq<Run>, h: nat)
    ensures PagesOf(Free(runs, h)) + ReleasedBy(runs, h) == PagesOf(runs)
  {
    if runs != [] {
      var r, tail := runs[0], runs[1..];
      FreePages(tail, h);
      assert runs == [r] + tail;
      PagesOfSplit([r], tail);
      PagesOfOne(r);
      var bs := Without(r.blocks, h);
      if bs != [] {
        PagesOfSplit([r.(blocks := bs)], Free(tail, h));
        PagesOfOne(r.(blocks := bs));
      }
    }
  }

  lemma {:induction false} InRunPages(runs: seq<Run>, k: nat, req: nat)
    requires k < |runs| && FirstGap(runs[k], Padded(req) + HEADER, 0) <= |runs[k].blocks|
    ensures PagesOf(InRun(runs, k, req).runs) == PagesOf(runs)
  {
    PagesOfUpdate(runs, k, PlaceAt(runs[k], FirstGap(runs[k], Padded(req) + HEADER, 0), Padded(req), req));
  }

  lemma {:induction false} InNewRunPages(runs: seq<Run>, grant: nat, req: nat)
    ensures PagesOf(InNewRun(runs, grant, req).runs) == PagesOf(runs) + multiset{(grant, PagesFor(Padded(req)))}
  {
    var r := Run(grant, PagesFor(Padded(req)), [Block(grant + HEADER, Padded(req), req)]);
    PagesOfSplit(runs, [r]);
    PagesOfOne(r);
  }

  // kmalloc links what it got from the page hook, and nothing else.
  lemma {:induction false} MallocPages(runs: seq<Run>, start: nat, req: nat, grant: nat)
    requires start <= |runs|
    ensures PagesOf(Malloc(runs, start, req, grant).runs) == PagesOf(runs) + Obtained(Asked(runs, req), req, grant)
  {
    var need := Padded(req) + HEADER;
    var k := Choose(runs, need, start);
    if k < |runs| {
      InRunPages(runs, k, req);
    } else if grant != 0 {
      InNewRunPages(runs, grant, req);
    }
  }

  lemma {:induction false} ResizePages(runs: seq<Run>, i: nat, j: nat, req: nat)
    requires Sound(runs) && At(runs, i, j)
    ensures PagesOf(Resize(runs, runs[i].blocks[j].addr, req)) == PagesOf(runs)
  {
    ResizeAt(runs, i, j, req);
    var r := runs[i];
    PagesOfUpdate(runs, i, r.(blocks := r.blocks[j := r.blocks[j].(req := req)]));
  }
}
