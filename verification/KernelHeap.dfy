/** kmalloc, kfree and krealloc over headers linked through memory. */
module KernelHeap {
  import opened Sums
  import opened HeapLayout
  import opened HeapSpec
  import opened HeapHint
  import opened HeapTheorems
  import opened HeapMemory
  import opened HeapCopy
  import opened HeapContents

  // Unsigned 32-bit arithmetic, as the gap computations use it: on 32-bit operands, wrapping once at most.
  function Add32(x: int, y: int): int { if x + y < 0x1_0000_0000 then x + y else x + y - 0x1_0000_0000 }

  function Sub32(x: int, y: int): int { if x >= y then x - y else x - y + 0x1_0000_0000 }

  // What allocate_new_page computes for the bytes of a new run, in unsigned 32-bit arithmetic.
  function RunBytes32(req: int): int {
    var st := Add32(Add32(Add32(Add32(req, ALIGNMENT), ALIGN_INFO), HEADER), HEADER);
    var st := if st % 4096 == 0 then st / 4096 else st / 4096 + 1;
    (4096 * (if st < PAGE_COUNT then PAGE_COUNT else st)) % 0x1_0000_0000
  }

  // The run obtained for a request can hold its block exactly up to MAX_REQ; beyond that a 32-bit
  // sum or the page product wraps and the run is too small.
  lemma {:induction false} NewRunHoldsRequestExactly(req: nat)
    requires req < ADDRESS_SPACE
    ensures RunBytes32(req) >= HEADER + HEADER + Padded(req) <==> req <= MAX_REQ
    ensures req <= MAX_REQ ==> RunBytes32(req) == 4096 * PagesFor(Padded(req))
  {
    var st := Add32(Add32(Add32(Add32(req, ALIGNMENT), ALIGN_INFO), HEADER), HEADER);
    assert st == if req + 80 < ADDRESS_SPACE then req + 80 else req + 80 - ADDRESS_SPACE;
  }

  // The end of a run may be 2^32 itself; the tail gap still comes out right.
  lemma {:induction false} TailGap32(addr: nat, size: nat, min: nat, used: nat)
    requires min + HEADER + used <= addr + size <= ADDRESS_SPACE && size < ADDRESS_SPACE
    ensures Sub32(Sub32(Sub32(Add32(addr, size), min), HEADER), used) == addr + size - min - HEADER - used
  {
  }

  lemma {:induction false} MiddleGap32(r: Run, j: nat)
    requires r.Laid() && r.End() <= ADDRESS_SPACE && j + 1 < |r.blocks|
    ensures var b := r.blocks[j];
            Sub32(Sub32(Sub32(r.blocks[j + 1].addr, b.addr), HEADER), b.size) == r.Gap(j + 1)
  {
    assert r.blocks[j].End() <= r.blocks[j + 1].addr;
  }

  lemma {:induction false} FrontGap32(r: Run)
    requires r.Laid() && r.End() <= ADDRESS_SPACE && r.blocks != []
    ensures Sub32(Sub32(r.blocks[0].addr, r.addr), HEADER) == r.Gap(0)
  {
  }

  // The first g gaps are too small.
  ghost predicate GapsBelow(r: Run, need: nat, g: nat)
    requires g <= |r.blocks| + 1
  {
    forall k: nat | k < g :: r.Gap(k) < need
  }

  lemma {:induction false} FirstGapIs(r: Run, need: nat, g: nat)
    requires g <= |r.blocks| + 1
    requires g <= |r.blocks| ==> r.Gap(g) >= need
    requires GapsBelow(r, need, g)
    ensures FirstGap(r, need, 0) == g
  {
  }

  lemma {:induction false} InRunAt(runs: seq<Run>, i: nat, j: nat, req: nat)
    requires i < |runs| && j <= |runs[i].blocks| && FirstGap(runs[i], Padded(req) + HEADER, 0) == j
    ensures var o := InRun(runs, i, req);
            && o.at == runs[i].GapStart(j) > 0 && o.Ptr() == Block(o.at, Padded(req), req).Payload() > 0
            && o.runs == runs[i := PlaceAt(runs[i], j, Padded(req), req)]
  {
  }

  lemma {:induction false} SameAddresses(runs: seq<Run>, i: nat, r: Run, a: nat)
    requires i < |runs| && r.addr == runs[i].addr
    ensures IndexOf(runs[i := r], a) < |runs| <==> IndexOf(runs, a) < |runs|
  {
    var rs := runs[i := r];
    if IndexOf(runs, a) < |runs| { assert rs[IndexOf(runs, a)].addr == a; }
    if IndexOf(rs, a) < |rs| { assert runs[IndexOf(rs, a)].addr == a; }
  }

  lemma {:induction false} PlacedAll(majors: Majors, minors: Minors, bytes: Bytes, runs: seq<Run>,
                                     i: nat, j: nat, size: nat, req: nat)
    requires Sound(runs) && Shows(Memory(majors, minors, bytes), runs) && i < |runs| && j <= |runs[i].blocks|
    requires runs[i].Gap(j) >= size + HEADER && size == Padded(req)
    ensures var b := Block(runs[i].GapStart(j), size, req);
            var rs := runs[i := PlaceAt(runs[i], j, size, req)];
            && Sound(rs)
            && Shows(Memory(PlacedMajor(majors, runs[i], j, size), Linked(minors, runs[i], j, b),
                            WithAlignByte(bytes, b)), rs)
            && InUse(rs) == InUse(runs) + size && Allocated(rs) == Allocated(runs)
  {
    assert RunSound(runs, i);
    PlacedShows(majors, minors, bytes, runs, i, j, size, req);
    PlaceKeepsLaid(runs[i], j, size, req);
    UpdateKeepsSound(runs, i, PlaceAt(runs[i], j, size, req));
    PlaceTotals(runs, i, j, size, req);
  }

  lemma {:induction false} RootIsNull(runs: seq<Run>)
    requires Sound(runs)
    ensures RunAddr(runs, 0) == 0 <==> runs == []
  {
    assert runs != [] ==> RunSound(runs, 0);
  }

  lemma {:induction false} NextIsNull(runs: seq<Run>, i: nat)
    requires Sound(runs) && i < |runs|
    ensures RunAddr(runs, i + 1) == 0 <==> i + 1 == |runs|
  {
    assert i + 1 < |runs| ==> RunSound(runs, i + 1);
  }

  lemma {:induction false} LastHasNoNext(majors: Majors, runs: seq<Run>)
    requires Sound(runs) && MajorsShow(majors, runs) && runs != []
    ensures var a := runs[|runs| - 1].addr; a != 0 && a in majors && majors[a].next == 0
  {
    assert RunSound(runs, |runs| - 1) && MajorShows(majors, runs, |runs| - 1);
  }

  lemma {:induction false} FreshRunApart(runs: seq<Run>, r: Run)
    requires Sound(runs) && Grantable(runs, r.addr, r.pages) && r.blocks == [] && r.pages >= 1
    ensures Sound(runs + [r]) && (forall i: nat | i < |runs| :: runs[i].addr != r.addr)
  {
    AppendKeepsSound(runs, r.addr, r.pages);
    assert r == Run(r.addr, r.pages, []);
    var rs := runs + [r];
    forall i: nat | i < |runs| ensures runs[i].addr != r.addr {
      RunAddrsDiffer(rs, i, |runs|);
    }
  }

  lemma {:induction false} AppendedAnchored(memRoot: nat, bestBet: nat, pageBytes: int, inuse: int,
                                            runs: seq<Run>, r: Run)
    requires Anchored(Globals(memRoot, bestBet, pageBytes, inuse), runs) && r.blocks == []
    ensures Anchored(Globals(if runs == [] then r.addr else memRoot, bestBet, pageBytes + r.Size(), inuse), runs + [r])
  {
    var a := bestBet;
    NewRunTotals(runs, r);
    if IndexOf(runs, a) < |runs| { assert (runs + [r])[IndexOf(runs, a)].addr == a; }
  }

  // The C conversion of an unsigned 32-bit value to int.
  function AsInt32(x: int): int { if x >= 0x8000_0000 then x - 0x1_0000_0000 else x }

  // Dropping the block, then the run if nothing is left in it, is the positional form of Free.
  lemma {:induction false} DropThenRelease(runs: seq<Run>, i: nat, j: nat)
    requires At(runs, i, j)
    ensures var rs := runs[i := Dropped(runs[i], j)];
            && |rs[i].blocks| < |runs[i].blocks| && rs[i].addr == runs[i].addr && rs[i].pages == runs[i].pages
            && rs[..i] + rs[i + 1..] == runs[..i] + runs[i + 1..]
            && FreeAt(runs, i, j) == if rs[i].blocks == [] then runs[..i] + runs[i + 1..] else rs
  {
  }

  // The free total of a run as kfree compares it.
  function Spare32(r: Run): int { AsInt32(Sub32(r.Size(), r.Usage())) }

  // The hint after a block of run i was freed and the run kept: run i when it now has more to spare.
  function HintAfterFree(runs: seq<Run>, bestBet: nat, i: nat): nat
    requires i < |runs|
  {
    var k := IndexOf(runs, bestBet);
    if bestBet != 0 && k < |runs| && Spare32(runs[i]) > Spare32(runs[k]) then runs[i].addr else bestBet
  }

  // The same, i being the run that lost a block.
  ghost predicate HintFollows(runs0: seq<Run>, runs: seq<Run>, bestBet0: nat, bestBet: nat, i: nat) {
    && i < |runs0| == |runs| && |runs[i].blocks| < |runs0[i].blocks|
    && bestBet == HintAfterFree(runs, bestBet0, i)
  }

  // Run i was given back to the page hook with its own address and page count.
  ghost predicate GivenBack(runs0: seq<Run>, runs: seq<Run>, released: nat, pages: nat, i: nat) {
    && i < |runs0| && released == runs0[i].addr && pages == runs0[i].pages
    && runs == runs0[..i] + runs0[i + 1..]
  }

  // A live block was freed: its run is given back, and a hint to it dropped, or the run stays.
  ghost predicate Freed(runs0: seq<Run>, bestBet0: nat, runs: seq<Run>, bestBet: nat, released: nat, pages: nat) {
    if released != 0 then
      && bestBet == (if bestBet0 == released then 0 else bestBet0)
      && exists i: nat :: GivenBack(runs0, runs, released, pages, i)
    else
      exists i: nat :: HintFollows(runs0, runs, bestBet0, bestBet, i)
  }

  // What kfree passes to the page hook is the run that freeing the block leaves without one.
  lemma {:induction false} FreedReleases(runs0: seq<Run>, bestBet0: nat, runs: seq<Run>, bestBet: nat, released: nat,
                                         pages: nat, h: nat)
    requires Freed(runs0, bestBet0, runs, bestBet, released, pages) && runs == Free(runs0, h)
    ensures TookBack(released, pages) == ReleasedBy(runs0, h)
  {
    FreePages(runs0, h);
    if released != 0 {
      var i: nat :| GivenBack(runs0, runs, released, pages, i);
      PagesOfRemove(runs0, i);
      SameRest(PagesOf(runs), multiset{(released, pages)}, ReleasedBy(runs0, h));
    } else {
      CountPages(runs0);
      CountPages(runs);
    }
  }

  lemma {:induction false} SameRest(s: multiset<(nat, nat)>, t: multiset<(nat, nat)>, u: multiset<(nat, nat)>)
    requires s + t == s + u
    ensures t == u
  {
    forall x: (nat, nat) ensures t[x] == u[x] { assert (s + t)[x] == (s + u)[x]; }
  }

  lemma {:induction false} CountPages(runs: seq<Run>)
    ensures |PagesOf(runs)| == |runs|
  {
    assert |Hooks(runs)| == |runs|;
  }

  lemma {:induction false} HeaderPosition(runs: seq<Run>, h: nat) returns (i: nat, j: nat)
    requires LiveAt(runs, h)
    ensures At(runs, i, j) && runs[i].blocks[j].addr == h
  {
    i, j :| At(runs, i, j) && runs[i].blocks[j].addr == h;
  }

  lemma {:induction false} NotLive(minors: Minors, runs: seq<Run>, h: nat)
    requires MinorsShow(minors, runs) && MinorAt(minors, h).magic != MAGIC
    ensures !LiveAt(runs, h)
  {
    forall i: nat, j: nat | At(runs, i, j) ensures runs[i].blocks[j].addr != h {
      assert MinorShows(minors, runs[i], j);
    }
  }

  // What kfree reads before it writes.
  lemma {:induction false} UnlinkFacts(majors: Majors, minors: Minors, runs: seq<Run>, i: nat, j: nat)
    requires Sound(runs) && MajorsShow(majors, runs) && MinorsShow(minors, runs) && At(runs, i, j)
    ensures var r := runs[i];
            && MinorAt(minors, r.blocks[j].addr) == MinorOf(r, j)
            && MajorAt(majors, r.addr) == MajorOf(runs, i)
            && r.Usage() >= Footprint(r.blocks[j])
            && (forall k: nat | k < |r.blocks| ::
                  r.blocks[k].addr != 0 && (k != j ==> r.blocks[k].addr != r.blocks[j].addr))
            && MinorAt(Unlinked(minors, r, j), r.blocks[j].addr) == MinorOf(r, j).(magic := DEAD)
  {
    var r := runs[i];
    assert MajorShows(majors, runs, i) && MinorShows(minors, r, j);
    DroppedMajorHeader(runs, i, j);
    assert RunSound(runs, i);
    FirstIsNull(r);
    forall k: nat | k < |r.blocks| && k != j ensures r.blocks[k].addr != r.blocks[j].addr {
      AddressOrder(r, j, k);
    }
    DeadHeader(minors, r, j);
  }

  lemma {:induction false} DeadHeader(m: Minors, r: Run, j: nat)
    requires j < |r.blocks| && MinorAt(m, r.blocks[j].addr) == MinorOf(r, j)
    requires forall k: nat | k < |r.blocks| && k != j :: r.blocks[k].addr != r.blocks[j].addr
    ensures var m' := Unlinked(m, r, j);
            r.blocks[j].addr in m' && m'[r.blocks[j].addr] == MinorOf(r, j).(magic := DEAD)
  {
  }

  lemma {:induction false} DroppedAnchored(g: Globals, runs: seq<Run>, i: nat, j: nat)
    requires Anchored(g, runs) && At(runs, i, j)
    ensures Anchored(g.(inuse := g.inuse - runs[i].blocks[j].size), runs[i := Dropped(runs[i], j)])
  {
    var r' := Dropped(runs[i], j);
    DroppedUsage(runs[i], j);
    SumUpdate(runs, i, r', RunInUse);
    SumUpdate(runs, i, r', RunSize);
    SameAddresses(runs, i, r', g.bestBet);
  }

  lemma {:induction false} RemovedAnchored(g: Globals, runs: seq<Run>, i: nat)
    requires Anchored(g, runs) && i < |runs| && runs[i].blocks == []
    ensures Anchored(Globals(if i == 0 then RunAddr(runs, 1) else g.memRoot,
                             if g.bestBet == runs[i].addr then 0 else g.bestBet,
                             g.pageBytes - runs[i].Size(), g.inuse),
                     runs[..i] + runs[i + 1..])
  {
    var rs := runs[..i] + runs[i + 1..];
    SumRemove(runs, i, RunInUse);
    SumRemove(runs, i, RunSize);
    if g.bestBet != 0 && g.bestBet != runs[i].addr {
      var k := IndexOf(runs, g.bestBet);
      assert rs[if k < i then k else k - 1].addr == g.bestBet;
    }
  }

  lemma {:induction false} MajorLinksFacts(majors: Majors, runs: seq<Run>, i: nat)
    requires Sound(runs) && MajorsShow(majors, runs) && i < |runs|
    ensures MajorAt(majors, runs[i].addr) == MajorOf(runs, i)
    ensures RunAddr(runs, i + 1) == 0 <==> i + 1 == |runs|
    ensures RunAddr(runs, i - 1) == 0 <==> i == 0
    ensures RunAddr(runs, 0) == runs[i].addr <==> i == 0
    ensures MajorAt(MajorUnlinked(majors, runs, i), runs[i].addr).size == runs[i].Size()
  {
    assert MajorShows(majors, runs, i);
    RootIsNull(runs);
    NextIsNull(runs, i);
    if i != 0 {
      assert RunSound(runs, i - 1);
      RunAddrsDiffer(runs, 0, i);
      RunAddrsDiffer(runs, i - 1, i);
    }
    if i + 1 < |runs| { RunAddrsDiffer(runs, i + 1, i); }
  }

  lemma {:induction false} Unalign32(b: Block)
    requires b.Payload() < ADDRESS_SPACE
    ensures Sub32(b.Payload(), ALIGN_INFO) == b.Payload() - ALIGN_INFO
    ensures var diff := b.Payload() - b.Body();
            0 <= diff < ALIGNMENT + ALIGN_INFO && Sub32(Sub32(b.Payload(), diff), HEADER) == b.addr
  {
    UnalignInvertsAlign(b);
  }

  // A null first pointer means the run has no block; all other links are real addresses.
  lemma {:induction false} FirstIsNull(r: Run)
    requires r.Laid()
    ensures forall j: nat | j < |r.blocks| :: r.blocks[j].addr != 0
    ensures BlockAddr(r, 0) == 0 <==> r.blocks == []
  {
  }

  // ------------------------------------------------------------ the search of kmalloc

  ghost predicate NoFit(runs: seq<Run>, need: nat, lo: nat, hi: nat)
    requires hi <= |runs|
  {
    forall l: nat | lo <= l < hi :: !runs[l].Fits(need)
  }

  // What the search knows when it stands at run i: on the way from the hint to the end (bet), or
  // on the way from the root, every run from the hint on having been tried already.
  ghost predicate Passed(runs: seq<Run>, need: nat, start: nat, i: nat, bet: bool) {
    && i < |runs| && start <= |runs|
    && (bet ==> start <= i && NoFit(runs, need, start, i))
    && (!bet ==> NoFit(runs, need, 0, i) && (start == 0 || NoFit(runs, need, start, |runs|)))
  }

  lemma {:induction false} FitsHere(runs: seq<Run>, need: nat, start: nat, i: nat, bet: bool)
    requires Passed(runs, need, start, i, bet) && FirstGap(runs[i], need, 0) <= |runs[i].blocks|
    ensures Choose(runs, need, start) == i
  {
    assert runs[i].Fits(need);
    if bet {
      FirstRunIs(runs, need, start, i);
    } else {
      FirstRunIs(runs, need, 0, i);
      if start != 0 { FirstRunIs(runs, need, start, |runs|); }
    }
  }

  lemma {:induction false} FirstRunIs(runs: seq<Run>, need: nat, start: nat, i: nat)
    requires start <= i <= |runs| && NoFit(runs, need, start, i) && (i < |runs| ==> runs[i].Fits(need))
    ensures FirstRun(runs, need, start) == i
  {
  }

  lemma {:induction false} FitsNowhere(runs: seq<Run>, need: nat, start: nat)
    requires start <= |runs| && NoFit(runs, need, 0, |runs|)
    ensures Choose(runs, need, start) == |runs|
  {
    FirstRunIs(runs, need, start, |runs|);
    FirstRunIs(runs, need, 0, |runs|);
  }

  lemma {:induction false} NoGapNoFit(r: Run, need: nat)
    requires FirstGap(r, need, 0) == |r.blocks| + 1
    ensures !r.Fits(need)
  {
  }

  // A placement into the new, still empty run is what Malloc calls a new run with one block.
  lemma {:induction false} InRunOfNewRun(runs: seq<Run>, grant: nat, req: nat)
    ensures var rs := runs + [Run(grant, PagesFor(Padded(req)), [])];
            && FirstGap(rs[|runs|], Padded(req) + HEADER, 0) == 0
            && InRun(rs, |runs|, req) == InNewRun(runs, grant, req)
  {
    var empty := Run(grant, PagesFor(Padded(req)), []);
    var rs := runs + [empty];
    FirstGapIs(empty, Padded(req) + HEADER, 0);
    var placed := PlaceAt(empty, 0, Padded(req), req);
    assert placed == Run(grant, empty.pages, [Block(grant + HEADER, Padded(req), req)]);
    assert rs[|runs| := placed] == runs + [placed];
  }

  // A new run has room for the request that made it: Case 1 never turns it away.
  lemma {:induction false} NewRunFits(runs: seq<Run>, grant: nat, size: nat)
    ensures var r := Run(grant, PagesFor(size), []); r.Size() - r.Usage() >= size + HEADER
  {
    assert Used([]) == 0;
  }

  // The bytes after kmalloc: the alignment byte of the new block written, when there is one.
  ghost function MallocBytes(bytes: Bytes, o: Outcome, req: nat): Bytes {
    if o.at == 0 then bytes else WithAlignByte(bytes, Block(o.at, Padded(req), req))
  }

  // What kmalloc has done, given the runs and bytes before and after and the pointer it returns.
  ghost predicate MallocDone(runs0: seq<Run>, bytes0: Bytes, start: nat, req: nat, grant: nat,
                             runs: seq<Run>, bytes: Bytes, p: nat)
    requires start <= |runs0|
  {
    var o := Malloc(runs0, start, req, grant);
    && runs == o.runs && p == o.Ptr()
    && bytes == MallocBytes(bytes0, o, req)
  }

  lemma {:induction false} NothingDone(runs: seq<Run>, bytes: Bytes, start: nat, req: nat)
    requires start <= |runs| && NoFit(runs, Padded(req) + HEADER, 0, |runs|)
    ensures MallocDone(runs, bytes, start, req, 0, runs, bytes, 0)
  {
    FitsNowhere(runs, Padded(req) + HEADER, start);
  }

  lemma {:induction false} MallocSucceeds(runs: seq<Run>, start: nat, req: nat, grant: nat)
    requires start <= |runs| && (grant != 0 || !NoFit(runs, Padded(req) + HEADER, 0, |runs|))
    ensures Malloc(runs, start, req, grant).at != 0
  {
    var k := Choose(runs, Padded(req) + HEADER, start);
    if k < |runs| { InRunAt(runs, k, FirstGap(runs[k], Padded(req) + HEADER, 0), req); }
  }

  // The new block is the only one added, or nothing is.
  ghost predicate Added(runs0: seq<Run>, o: Outcome, req: nat) {
    if o.at == 0 then o.runs == runs0
    else
      var c := Block(o.at, Padded(req), req);
      c !in LiveBlocks(runs0) && LiveBlocks(o.runs) == LiveBlocks(runs0) + {c} && o.Ptr() == c.Payload()
  }

  lemma {:induction false} AddedIs(runs0: seq<Run>, o: Outcome, req: nat)
    requires if o.at == 0 then o.runs == runs0
             else
               var c := Block(o.at, Padded(req), req);
               c !in LiveBlocks(runs0) && LiveBlocks(o.runs) == LiveBlocks(runs0) + {c}
    ensures Added(runs0, o, req)
  {
  }

  lemma {:induction false} MallocAdded(runs0: seq<Run>, start: nat, req: nat, grant: nat)
    requires Sound(runs0) && NoEmptyRun(runs0) && start <= |runs0|
    requires grant != 0 ==> Grantable(runs0, grant, PagesFor(Padded(req)))
    ensures Added(runs0, Malloc(runs0, start, req, grant), req)
  {
    MallocAddsOneBlock(runs0, start, req, grant);
    AddedIs(runs0, Malloc(runs0, start, req, grant), req);
  }

  // krealloc after its inner kmalloc: what the copy will give, to a new block or to NULL.
  lemma {:induction false} MovedAfterMalloc(runs0: seq<Run>, bytes0: Bytes, req: nat, o: Outcome, bytes: Bytes,
                                            b: Block)
    requires Sound(runs0) && Added(runs0, o, req) && bytes == MallocBytes(bytes0, o, req)
    requires Sound(o.runs) && AlignBytesShow(bytes, o.runs) && b in LiveBlocks(runs0) && b.req < req
    requires o.at == 0 ==> Spared(runs0, b.req)
    ensures b in LiveBlocks(o.runs) && Copyable(runs0, bytes0, o.runs, bytes, o.Ptr(), b)
  {
    if o.at == 0 {
      CopyableToNull(runs0, bytes0, b);
    } else {
      CopyableToNew(runs0, bytes0, o.runs, b, Block(o.at, Padded(req), req));
    }
  }

  lemma {:induction false} CopyableToNull(runs: seq<Run>, bytes: Bytes, b: Block)
    requires Sound(runs) && AlignBytesShow(bytes, runs) && b in LiveBlocks(runs) && Spared(runs, b.req)
    ensures Copyable(runs, bytes, runs, bytes, 0, b)
  {
    MoveToNull(bytes, runs, b);
  }

  lemma {:induction false} CopyableToNew(runs0: seq<Run>, bytes0: Bytes, runs: seq<Run>, b: Block, c: Block)
    requires Sound(runs) && LiveBlocks(runs) == LiveBlocks(runs0) + {c} && c !in LiveBlocks(runs0)
    requires b in LiveBlocks(runs0) && b.req <= c.req && AlignBytesShow(WithAlignByte(bytes0, c), runs)
    ensures Copyable(runs0, bytes0, runs, WithAlignByte(bytes0, c), c.Payload(), b)
  {
    MoveToNewBlock(bytes0, runs0, runs, b, c);
  }

  // Copying the payload of b to q preserves everything: see MovedAfterMalloc.
  ghost predicate Copyable(runs0: seq<Run>, bytes0: Bytes, runs: seq<Run>, bytes: Bytes, q: nat, b: Block) {
    var m'' := CopiedByWords(bytes, q, b.Payload(), b.req);
    && AlignBytesShow(m'', runs) && (q != 0 ==> MovedTo(bytes0, m'', b, q))
    && (forall d: Block | d in LiveBlocks(runs0) :: SamePayload(bytes0, m'', d))
  }

  // krealloc to a bigger size: the new block, the old contents copied into it, the old block freed. When there
  // is no new block q is NULL, the copy goes to address 0, and the old block is freed all the same.
  ghost predicate Moved(runs0: seq<Run>, bytes0: Bytes, start: nat, b: Block, size: nat, grant: nat,
                        runs: seq<Run>, bytes: Bytes, q: nat)
    requires start <= |runs0|
  {
    var o := Malloc(runs0, start, size, grant);
    && runs == Free(o.runs, b.addr) && q == o.Ptr()
    && bytes == CopiedByWords(MallocBytes(bytes0, o, size), q, b.Payload(), b.req)
    && (q != 0 ==> MovedTo(bytes0, bytes, b, q))
    && (forall d: Block | d in LiveBlocks(runs0) :: SamePayload(bytes0, bytes, d))
  }

  // The pages such a krealloc obtained and gave back.
  ghost predicate Hooked(runs0: seq<Run>, start: nat, b: Block, size: nat, grant: nat, asked: nat, released: nat,
                         pages: nat)
    requires start <= |runs0|
  {
    && asked == Asked(runs0, size)
    && TookBack(released, pages) == ReleasedBy(Malloc(runs0, start, size, grant).runs, b.addr)
  }

  datatype Globals = Globals(memRoot: nat, bestBet: nat, pageBytes: int, inuse: int)

  // The root is the first run, the hint is null or a linked run, the totals are exact.
  ghost predicate Anchored(g: Globals, runs: seq<Run>) {
    match g
    case Globals(memRoot, bestBet, pageBytes, inuse) =>
      && memRoot == RunAddr(runs, 0)
      && (bestBet == 0 || IndexOf(runs, bestBet) < |runs|)
      && inuse == InUse(runs)
      && pageBytes == Allocated(runs)
  }

  lemma {:induction false} ResizedAnchored(g: Globals, runs: seq<Run>, i: nat, j: nat, req: nat)
    requires Sound(runs) && Anchored(g, runs) && At(runs, i, j)
    ensures Anchored(g, Resize(runs, runs[i].blocks[j].addr, req))
  {
    var r := runs[i];
    var r' := Relabeled(r, j, req);
    ResizeAt(runs, i, j, req);
    RelabeledTotals(r, j, req);
    SumUpdate(runs, i, r', RunInUse);
    SumUpdate(runs, i, r', RunSize);
    SameAddresses(runs, i, r', g.bestBet);
  }

  lemma {:induction false} LowByteOfSum(low: nat, k: nat)
    ensures (low + 256 * k) % 256 == low % 256
  {
    assert low + 256 * k == 256 * (low / 256 + k) + low % 256;
  }

  // Three or two low bytes of the magic intact means that the lowest one is.
  lemma {:induction false} LowBytes(magic: nat)
    ensures magic % 0x1000000 == MAGIC % 0x1000000 || magic % 0x10000 == MAGIC % 0x10000 ==>
              magic % 0x100 == MAGIC % 0x100
  {
    LowByteOfSum(magic % 0x1000000, 0x10000 * (magic / 0x1000000));
    LowByteOfSum(magic % 0x10000, 0x100 * (magic / 0x10000));
  }

  class Heap {
    var memRoot: nat
    var bestBet: nat
    var pageBytes: int
    var inuse: int
    var warningCount: int
    var errorCount: int
    var possibleOverruns: int
    var majors: Majors
    var minors: Minors
    var bytes: Bytes
    ghost var runs: seq<Run>

    ghost predicate Consistent()
      reads this
    {
      && Sound(runs) && Shows(Memory(majors, minors, bytes), runs)
      && Anchored(Globals(memRoot, bestBet, pageBytes, inuse), runs)
    }

    // Between calls every linked run also holds at least one block.
    ghost predicate Valid()
      reads this
    {
      Consistent() && NoEmptyRun(runs)
    }

    constructor (majors: Majors, minors: Minors, bytes: Bytes)
      ensures Valid() && runs == []
    {
      memRoot, bestBet, pageBytes, inuse := 0, 0, 0, 0;
      warningCount, errorCount, possibleOverruns := 0, 0, 0;
      this.majors, this.minors, this.bytes := majors, minors, bytes;
      runs := [];
    }

    // The macro of that name: move the pointer up and leave the distance just before it.
    method Align(body: nat) returns (p: nat)
      modifies this`bytes
      ensures p == AlignUp(body)
      ensures bytes == old(bytes)[p - ALIGN_INFO := p - body]
    {
      p := body + ALIGN_INFO;
      var diff := p % 16;
      if diff != 0 {
        diff := ALIGNMENT - diff;
        p := p + diff;
      }
      bytes := bytes[p - ALIGN_INFO := diff + ALIGN_INFO];
    }

    // How many pages a run for this size needs, in the 32-bit arithmetic of the source.
    method PagesNeeded(size: nat) returns (st: int)
      requires size <= Padded(MAX_REQ)
      ensures st == PagesFor(size) && 4096 * st < ADDRESS_SPACE
    {
      st := Add32(size, HEADER);
      st := Add32(st, HEADER);
      assert st == size + HEADER + HEADER;
      if st % 4096 == 0 {
        st := st / 4096;
      } else {
        st := st / 4096 + 1;
      }
      if st < PAGE_COUNT { st := PAGE_COUNT; }
    }

    method AllocateNewPage(size: nat, grant: nat) returns (maj: nat)
      requires size <= Padded(MAX_REQ)
      modifies this`majors, this`pageBytes, this`warningCount
      ensures maj == grant
      ensures grant == 0 ==>
                majors == old(majors) && pageBytes == old(pageBytes) && warningCount == old(warningCount) + 1
      ensures grant != 0 ==>
                var r := Run(grant, PagesFor(size), []);
                && majors == old(majors)[grant := MajorHeader(0, 0, r.pages, r.Size(), r.Usage(), 0)]
                && pageBytes == old(pageBytes) + r.Size() && warningCount == old(warningCount)
    {
      var st := PagesNeeded(size);
      maj := grant;
      if maj == 0 {
        warningCount := warningCount + 1;
        return;
      }
      majors := majors[maj := MajorHeader(0, 0, st, (4096 * st) % 0x1_0000_0000, HEADER, 0)];
      pageBytes := pageBytes + MajorAt(majors, maj).size;
    }

    // What every case ends with: the run's usage, the total, and the pointer aligned.
    method Finish(maj: nat, at: nat, size: nat, ghost req: nat) returns (p: nat)
      modifies this`majors, this`bytes, this`inuse
      ensures var h := MajorAt(old(majors), maj); majors == old(majors)[maj := h.(usage := h.usage + size + HEADER)]
      ensures var b := Block(at, size, req);
              bytes == WithAlignByte(old(bytes), b) && inuse == old(inuse) + size && p == b.Payload()
    {
      majors := majors[maj := MajorAt(majors, maj).(usage := MajorAt(majors, maj).usage + size + HEADER)];
      inuse := inuse + size;
      p := Align(at + HEADER);
    }

    // Case 2: the run has no block yet.
    method PlaceFirst(maj: nat, size: nat, req: nat, ghost r: Run) returns (p: nat)
      requires r.blocks == [] && r.addr == maj
      modifies this`majors, this`minors, this`bytes, this`inuse
      ensures var b := Block(r.GapStart(0), size, req);
              && majors == PlacedMajor(old(majors), r, 0, size) && minors == Linked(old(minors), r, 0, b)
              && bytes == WithAlignByte(old(bytes), b) && inuse == old(inuse) + size && p == b.Payload()
    {
      majors := majors[maj := MajorAt(majors, maj).(first := maj + HEADER)];
      var first := MajorAt(majors, maj).first;
      minors := minors[first := MinorAt(minors, first).(
                       magic := MAGIC, prev := 0, next := 0, block := maj, size := size, req := req)];
      p := Finish(maj, first, size, req);
    }

    // Case 3: in front of the first block.
    method PlaceFront(maj: nat, size: nat, req: nat, ghost r: Run) returns (p: nat)
      requires r.Laid() && r.blocks != [] && r.addr == maj && r.Gap(0) >= size + HEADER
      requires MajorAt(majors, maj).first == r.blocks[0].addr
      modifies this`majors, this`minors, this`bytes, this`inuse
      ensures var b := Block(r.GapStart(0), size, req);
              && majors == PlacedMajor(old(majors), r, 0, size) && minors == Linked(old(minors), r, 0, b)
              && bytes == WithAlignByte(old(bytes), b) && inuse == old(inuse) + size && p == b.Payload()
    {
      var front := LinkFront(maj, size, req, r);
      p := Finish(maj, front, size, req);
    }

    method LinkFront(maj: nat, size: nat, req: nat, ghost r: Run) returns (front: nat)
      requires r.Laid() && r.blocks != [] && r.addr == maj && r.Gap(0) >= size + HEADER
      requires MajorAt(majors, maj).first == r.blocks[0].addr
      modifies this`majors, this`minors
      ensures front == r.GapStart(0) && minors == Linked(old(minors), r, 0, Block(front, size, req))
      ensures majors == old(majors)[maj := MajorAt(old(majors), maj).(first := front)]
    {
      var first := MajorAt(majors, maj).first;
      minors := minors[first := MinorAt(minors, first).(prev := maj + HEADER)];
      front := MinorAt(minors, first).prev;
      minors := minors[front := MinorAt(minors, front).(next := first)];
      majors := majors[maj := MajorAt(majors, maj).(first := front)];
      minors := minors[front := MinorAt(minors, front).(
                       magic := MAGIC, prev := 0, block := maj, size := size, req := req)];
    }

    // Case 4.1: behind the last block.
    method PlaceTail(maj: nat, min: nat, size: nat, req: nat, ghost r: Run) returns (p: nat)
      requires r.Laid() && r.blocks != [] && r.addr == maj && r.blocks[|r.blocks| - 1].addr == min
      requires MinorAt(minors, min) == MinorOf(r, |r.blocks| - 1)
      modifies this`majors, this`minors, this`bytes, this`inuse
      ensures var b := Block(r.GapStart(|r.blocks|), size, req);
              && majors == PlacedMajor(old(majors), r, |r.blocks|, size)
              && minors == Linked(old(minors), r, |r.blocks|, b)
              && bytes == WithAlignByte(old(bytes), b) && inuse == old(inuse) + size && p == b.Payload()
    {
      var next := LinkTail(maj, min, size, req, r);
      p := Finish(maj, next, size, req);
    }

    method LinkTail(maj: nat, min: nat, size: nat, req: nat, ghost r: Run) returns (next: nat)
      requires r.Laid() && r.blocks != [] && r.addr == maj && r.blocks[|r.blocks| - 1].addr == min
      requires MinorAt(minors, min) == MinorOf(r, |r.blocks| - 1)
      modifies this`minors
      ensures next == r.GapStart(|r.blocks|) && minors == Linked(old(minors), r, |r.blocks|, Block(next, size, req))
    {
      next := min + HEADER + MinorAt(minors, min).size;
      minors := minors[min := MinorAt(minors, min).(next := next)];
      minors := minors[next := MinorAt(minors, next).(
                       prev := min, next := 0, magic := MAGIC, block := maj, size := size, req := req)];
    }

    // Case 4.2: between block j and the one after it.
    method PlaceBetween(maj: nat, min: nat, size: nat, req: nat, ghost r: Run, ghost j: nat) returns (p: nat)
      requires r.Laid() && j + 1 < |r.blocks| && r.addr == maj && r.blocks[j].addr == min
      requires r.Gap(j + 1) >= size + HEADER
      requires MinorAt(minors, min) == MinorOf(r, j)
      modifies this`majors, this`minors, this`bytes, this`inuse
      ensures var b := Block(r.GapStart(j + 1), size, req);
              && majors == PlacedMajor(old(majors), r, j + 1, size) && minors == Linked(old(minors), r, j + 1, b)
              && bytes == WithAlignByte(old(bytes), b) && inuse == old(inuse) + size && p == b.Payload()
    {
      var newMin := LinkBetween(maj, min, size, req, r, j);
      p := Finish(maj, newMin, size, req);
    }

    method LinkBetween(maj: nat, min: nat, size: nat, req: nat, ghost r: Run, ghost j: nat) returns (newMin: nat)
      requires r.Laid() && j + 1 < |r.blocks| && r.addr == maj && r.blocks[j].addr == min
      requires r.Gap(j + 1) >= size + HEADER && MinorAt(minors, min) == MinorOf(r, j)
      modifies this`minors
      ensures newMin == r.GapStart(j + 1) && minors == Linked(old(minors), r, j + 1, Block(newMin, size, req))
    {
      assert r.blocks[j].End() <= r.blocks[j + 1].addr;
      newMin := min + HEADER + MinorAt(minors, min).size;
      minors := minors[newMin := MinorAt(minors, newMin).(
                       magic := MAGIC, next := MinorAt(minors, min).next, prev := min,
                       size := size, req := req, block := maj)];
      var next := MinorAt(minors, min).next;
      minors := minors[next := MinorAt(minors, next).(prev := newMin)];
      minors := minors[min := MinorAt(minors, min).(next := newMin)];
    }

    // Bookkeeping for the proof: the runs with the block that was just linked into gap j of run i.
    ghost method Record(majors0: Majors, minors0: Minors, bytes0: Bytes, i: nat, j: nat, size: nat, req: nat, p: nat)
      requires Sound(runs) && Shows(Memory(majors0, minors0, bytes0), runs) && i < |runs| && j <= |runs[i].blocks|
      requires size == Padded(req) && FirstGap(runs[i], size + HEADER, 0) == j
      requires Anchored(Globals(memRoot, bestBet, pageBytes, inuse - size), runs)
      requires var b := Block(runs[i].GapStart(j), size, req);
               && majors == PlacedMajor(majors0, runs[i], j, size) && minors == Linked(minors0, runs[i], j, b)
               && bytes == WithAlignByte(bytes0, b) && p == b.Payload()
      modifies this`runs
      ensures Consistent() && Placed(old(runs), i, req, bytes0, p)
    {
      PlacedAll(majors0, minors0, bytes0, runs, i, j, size, req);
      SameAddresses(runs, i, PlaceAt(runs[i], j, size, req), bestBet);
      InRunAt(runs, i, j, req);
      runs := runs[i := PlaceAt(runs[i], j, size, req)];
    }

    // The outcome of a placement, seen from the runs before it.
    ghost predicate Placed(runs0: seq<Run>, i: nat, req: nat, bytes0: Bytes, p: nat)
      requires i < |runs0|
      reads this
    {
      && FirstGap(runs0[i], Padded(req) + HEADER, 0) <= |runs0[i].blocks|
      && var o := InRun(runs0, i, req);
         p != 0 && runs == o.runs && p == o.Ptr() && bytes == WithAlignByte(bytes0, Block(o.at, Padded(req), req))
    }

    // The size of the gap behind a block, in unsigned arithmetic on addresses.
    method GapBehind(maj: nat, min: nat, ghost i: nat, ghost j: nat) returns (diff: int)
      requires Consistent() && At(runs, i, j) && runs[i].addr == maj && runs[i].blocks[j].addr == min
      ensures diff == runs[i].Gap(j + 1)
    {
      ghost var r := runs[i];
      assert RunSound(runs, i);
      FirstIsNull(r);
      assert MajorShows(majors, runs, i) && MinorShows(minors, r, j);
      if MinorAt(minors, min).next == 0 {
        TailGap32(r.addr, r.Size(), min, r.blocks[j].size);
        diff := Add32(maj, MajorAt(majors, maj).size);
      } else {
        MiddleGap32(r, j);
        diff := MinorAt(minors, min).next;
      }
      diff := Sub32(Sub32(Sub32(diff, min), HEADER), MinorAt(minors, min).size);
    }

    // Case 4 for one block of the run: use the gap behind it if that gap is big enough.
    method PlaceAfter(maj: nat, min: nat, size: nat, req: nat, ghost i: nat, ghost j: nat) returns (p: nat)
      requires Consistent() && At(runs, i, j) && size == Padded(req)
      requires runs[i].addr == maj && runs[i].blocks[j].addr == min
      requires GapsBelow(runs[i], size + HEADER, j + 1)
      modifies this`majors, this`minors, this`bytes, this`inuse, this`runs
      ensures Consistent()
      ensures p == 0 ==> unchanged(this) && runs[i].Gap(j + 1) < size + HEADER
      ensures p != 0 ==> Placed(old(runs), i, req, old(bytes), p)
    {
      var diff := GapBehind(maj, min, i, j);
      if diff < size + HEADER { return 0; }
      FirstGapIs(runs[i], size + HEADER, j + 1);
      p := TakeGap(maj, min, size, req, i, j);
    }

    lemma {:induction false} FirstLink(i: nat)
      requires Consistent() && i < |runs|
      ensures MajorAt(majors, runs[i].addr).first == BlockAddr(runs[i], 0)
      ensures runs[i].Laid() && forall j: nat | j < |runs[i].blocks| :: runs[i].blocks[j].addr != 0
    {
      assert RunSound(runs, i) && MajorShows(majors, runs, i);
      FirstIsNull(runs[i]);
    }

    // What the link of a block says of its place in the run.
    lemma {:induction false} NextLink(min: nat, i: nat, j: nat)
      requires Consistent() && At(runs, i, j) && runs[i].blocks[j].addr == min
      ensures MinorAt(minors, min) == MinorOf(runs[i], j)
      ensures MinorAt(minors, min).next == 0 <==> j + 1 == |runs[i].blocks|
      ensures runs[i].Laid()
    {
      assert RunSound(runs, i);
      FirstIsNull(runs[i]);
      assert MinorShows(minors, runs[i], j);
    }

    // Cases 4.1 and 4.2: the header linked behind block j, the last one or not.
    method PlaceIntoGap(maj: nat, min: nat, size: nat, req: nat, ghost r: Run, ghost j: nat) returns (p: nat)
      requires r.Laid() && j < |r.blocks| && r.addr == maj && r.blocks[j].addr == min && r.Gap(j + 1) >= size + HEADER
      requires MinorAt(minors, min) == MinorOf(r, j) && (MinorAt(minors, min).next == 0 <==> j + 1 == |r.blocks|)
      modifies this`majors, this`minors, this`bytes, this`inuse
      ensures var b := Block(r.GapStart(j + 1), size, req);
              && majors == PlacedMajor(old(majors), r, j + 1, size) && minors == Linked(old(minors), r, j + 1, b)
              && bytes == WithAlignByte(old(bytes), b) && inuse == old(inuse) + size && p == b.Payload()
    {
      if MinorAt(minors, min).next == 0 {
        p := PlaceTail(maj, min, size, req, r);
      } else {
        p := PlaceBetween(maj, min, size, req, r, j);
      }
    }

    // The gap behind block j of run i is big enough.
    method TakeGap(maj: nat, min: nat, size: nat, req: nat, ghost i: nat, ghost j: nat) returns (p: nat)
      requires Consistent() && At(runs, i, j) && size == Padded(req)
      requires runs[i].addr == maj && runs[i].blocks[j].addr == min
      requires FirstGap(runs[i], size + HEADER, 0) == j + 1
      modifies this`majors, this`minors, this`bytes, this`inuse, this`runs
      ensures Consistent() && p != 0 && Placed(old(runs), i, req, old(bytes), p)
    {
      NextLink(min, i, j);
      p := PlaceIntoGap(maj, min, size, req, runs[i], j);
      Record(old(majors), old(minors), old(bytes), i, j + 1, size, req, p);
    }

    // Where Case 4 stands: at block j or behind the last one, every gap in front of it too small.
    ghost predicate Walked(i: nat, need: nat, j: nat, min: nat)
      requires i < |runs|
      reads this
    {
      && j <= |runs[i].blocks| && min == BlockAddr(runs[i], j) && (min == 0 <==> j == |runs[i].blocks|)
      && GapsBelow(runs[i], need, j + 1)
    }

    lemma {:induction false} WalkedAt(i: nat, need: nat, j: nat, min: nat)
      requires i < |runs| && Walked(i, need, j, min) && min != 0
      ensures At(runs, i, j) && runs[i].blocks[j].addr == min && GapsBelow(runs[i], need, j + 1)
    {
    }

    lemma {:induction false} WalksOn(min: nat, i: nat, need: nat, j: nat)
      requires Consistent() && At(runs, i, j) && runs[i].blocks[j].addr == min && GapsBelow(runs[i], need, j + 2)
      ensures Walked(i, need, j + 1, MinorAt(minors, min).next)
    {
      NextLink(min, i, j);
    }

    // One round of Case 4: the gap behind block j, or on to the next block.
    method TryNext(maj: nat, min: nat, size: nat, req: nat, ghost i: nat, ghost j: nat) returns (p: nat, next: nat)
      requires Consistent() && i < |runs| && runs[i].addr == maj && size == Padded(req)
      requires Walked(i, size + HEADER, j, min) && min != 0
      modifies this`majors, this`minors, this`bytes, this`inuse, this`runs
      ensures Consistent()
      ensures p == 0 ==> unchanged(this) && Walked(i, size + HEADER, j + 1, next)
      ensures p != 0 ==> Placed(old(runs), i, req, old(bytes), p)
    {
      next := 0;
      WalkedAt(i, size + HEADER, j, min);
      p := PlaceAfter(maj, min, size, req, i, j);
      if p == 0 {
        WalksOn(min, i, size + HEADER, j);
        next := MinorAt(minors, min).next;
      }
    }

    // Case 4: walk the blocks of the run.
    method PlaceBehind(maj: nat, size: nat, req: nat, ghost i: nat) returns (p: nat)
      requires Consistent() && i < |runs| && runs[i].addr == maj && size == Padded(req)
      requires runs[i].blocks != [] && runs[i].Gap(0) < size + HEADER
      modifies this`majors, this`minors, this`bytes, this`inuse, this`runs
      ensures Consistent()
      ensures p == 0 ==> unchanged(this) && FirstGap(runs[i], size + HEADER, 0) == |runs[i].blocks| + 1
      ensures p != 0 ==> Placed(old(runs), i, req, old(bytes), p)
    {
      FirstLink(i);
      var min := MajorAt(majors, maj).first;
      ghost var j: nat, n: nat := 0, |runs[i].blocks|;
      p := 0;
      while min != 0 && p == 0
        invariant Consistent()
        invariant p == 0 ==> unchanged(this) && j <= n && Walked(i, size + HEADER, j, min)
        invariant p != 0 ==> Placed(old(runs), i, req, old(bytes), p)
        decreases p == 0, n - j
      {
        p, min := TryNext(maj, min, size, req, i, j);
        j := j + 1;
      }
      if p == 0 { FirstGapIs(runs[i], size + HEADER, n + 1); }
    }

    // Cases 2 to 4 on one run: the block goes into the first gap that holds it, or nothing changes.
    method PlaceIn(maj: nat, size: nat, req: nat, ghost i: nat) returns (p: nat)
      requires Consistent() && i < |runs| && runs[i].addr == maj && size == Padded(req)
      requires runs[i].blocks == [] ==> runs[i].Gap(0) >= size + HEADER
      modifies this`majors, this`minors, this`bytes, this`inuse, this`runs
      ensures Consistent()
      ensures p == 0 ==> unchanged(this) && FirstGap(runs[i], size + HEADER, 0) == |runs[i].blocks| + 1
      ensures p != 0 ==> Placed(old(runs), i, req, old(bytes), p)
    {
      ghost var r := runs[i];
      assert RunSound(runs, i);
      FirstIsNull(r);
      assert MajorShows(majors, runs, i);
      if MajorAt(majors, maj).first == 0 {
        FirstGapIs(r, size + HEADER, 0);
        p := PlaceFirst(maj, size, req, r);
        Record(old(majors), old(minors), old(bytes), i, 0, size, req, p);
        return;
      }
      var diff := Sub32(Sub32(MajorAt(majors, maj).first, maj), HEADER);
      FrontGap32(r);
      if diff >= size + HEADER {
        FirstGapIs(r, size + HEADER, 0);
        p := PlaceFront(maj, size, req, r);
        Record(old(majors), old(minors), old(bytes), i, 0, size, req, p);
        return;
      }
      p := PlaceBehind(maj, size, req, i);
    }

    // maj->next = allocate_new_page(size), and the link back when that succeeded.
    method LinkNewPage(maj: nat, size: nat, grant: nat) returns (next: nat)
      requires size <= Padded(MAX_REQ)
      requires runs != [] && runs[|runs| - 1].addr == maj && maj in majors && majors[maj].next == 0 && maj != grant
      modifies this`majors, this`pageBytes, this`warningCount
      ensures next == grant && warningCount == old(warningCount) + (if grant == 0 then 1 else 0)
      ensures grant == 0 ==> majors == old(majors) && pageBytes == old(pageBytes)
      ensures grant != 0 ==>
                var r := Run(grant, PagesFor(size), []);
                majors == MajorAppended(old(majors), runs, r) && pageBytes == old(pageBytes) + r.Size()
    {
      next := AllocateNewPage(size, grant);
      majors := majors[maj := MajorAt(majors, maj).(next := next)];
      if next != 0 {
        majors := majors[next := MajorAt(majors, next).(prev := maj)];
      }
    }

    // Bookkeeping for the proof: the runs with the new empty run whose header was just linked.
    ghost method RecordRun(majors0: Majors, r: Run)
      requires Sound(runs) && Shows(Memory(majors0, minors, bytes), runs)
      requires r.blocks == [] && r.pages >= 1 && Grantable(runs, r.addr, r.pages)
      requires majors == MajorAppended(majors0, runs, r)
      requires memRoot == if runs == [] then r.addr else RunAddr(runs, 0)
      requires Anchored(Globals(RunAddr(runs, 0), bestBet, pageBytes - r.Size(), inuse), runs)
      modifies this`runs
      ensures Consistent() && runs == old(runs) + [r]
    {
      FreshRunApart(runs, r);
      AppendedShows(majors0, minors, bytes, runs, r);
      AppendedAnchored(RunAddr(runs, 0), bestBet, pageBytes - r.Size(), inuse, runs, r);
      runs := runs + [r];
    }

    // A new run linked behind the last one.
    method Grow(maj: nat, size: nat, grant: nat) returns (next: nat)
      requires size <= Padded(MAX_REQ)
      requires Consistent() && runs != [] && runs[|runs| - 1].addr == maj
      requires grant != 0 ==> Grantable(runs, grant, PagesFor(size))
      modifies this`majors, this`pageBytes, this`warningCount, this`runs
      ensures next == grant && Consistent() && warningCount == old(warningCount) + (if grant == 0 then 1 else 0)
      ensures grant == 0 ==> runs == old(runs)
      ensures grant != 0 ==> runs == old(runs) + [Run(grant, PagesFor(size), [])]
    {
      ghost var r := Run(grant, PagesFor(size), []);
      LastHasNoNext(majors, runs);
      if grant != 0 { FreshRunApart(runs, r); }
      next := LinkNewPage(maj, size, grant);
      if next != 0 { RecordRun(old(majors), r); }
    }

    // The first run of all.
    method GrowRoot(size: nat, grant: nat)
      requires size <= Padded(MAX_REQ)
      requires Consistent() && runs == []
      requires grant != 0 ==> Grantable(runs, grant, PagesFor(size))
      modifies this`memRoot, this`majors, this`pageBytes, this`warningCount, this`runs
      ensures memRoot == grant && Consistent() && warningCount == old(warningCount) + (if grant == 0 then 1 else 0)
      ensures grant == 0 ==> runs == old(runs)
      ensures grant != 0 ==> runs == [Run(grant, PagesFor(size), [])]
    {
      memRoot := AllocateNewPage(size, grant);
      if memRoot == 0 { return; }
      RecordRun(old(majors), Run(grant, PagesFor(size), []));
    }

    ghost predicate Takes(runs0: seq<Run>, i: nat, need: nat) {
      i < |runs0| && FirstGap(runs0[i], need, 0) <= |runs0[i].blocks|
    }

    // Between two rounds of the search: the old runs and how far it got, or a new run about to be filled.
    ghost predicate Searching(runs0: seq<Run>, start: nat, req: nat, grant: nat, i: nat, bet: bool, asked: nat)
      reads this
    {
      if asked == 0 then runs == runs0 && Passed(runs0, Padded(req) + HEADER, start, i, bet)
      else
        && asked == 1 && grant != 0 && i == |runs0| && runs == runs0 + [Run(grant, PagesFor(Padded(req)), [])]
        && start <= |runs0| && NoFit(runs0, Padded(req) + HEADER, 0, |runs0|)
    }

    // Where the search stands when run i did not take the block: at the next run, back at the root with the
    // restart used up, at a new run, or out of memory.
    ghost predicate Onward(runs0: seq<Run>, start: nat, req: nat, grant: nat, startedBet: bool, i: nat,
                           maj': nat, startedBet': bool, asked: nat, i': nat)
      reads this
    {
      && HopsTo(|runs0|, i, startedBet, i', startedBet', asked)
      && if maj' == 0 then grant == 0 && asked == 1 && runs == runs0 && NoFit(runs0, Padded(req) + HEADER, 0, |runs0|)
         else Searching(runs0, start, req, grant, i', startedBet', asked) && i' < |runs| && runs[i'].addr == maj'
    }

    // Start at the best bet when it looks good enough, else at the root.
    method StartAt(need: nat) returns (maj: nat, startedBet: bool, bestSize: int, ghost i: nat)
      requires Consistent() && runs != []
      ensures i == HintIndex(runs, bestBet, need) < |runs| && (!startedBet ==> i == 0)
      ensures maj == runs[HintIndex(runs, bestBet, need)].addr
      ensures bestSize == SpareOf(runs, bestBet) && (startedBet <==> bestBet != 0 && bestSize > need)
    {
      maj, startedBet, bestSize, i := memRoot, false, 0, 0;
      if bestBet != 0 {
        assert MajorShows(majors, runs, IndexOf(runs, bestBet));
        bestSize := MajorAt(majors, bestBet).size - MajorAt(majors, bestBet).usage;
        if bestSize > need {
          maj, startedBet, i := bestBet, true, IndexOf(runs, bestBet);
        }
      }
    }

    // The run behind this one, or null behind the last.
    method NextRun(maj: nat, ghost i: nat) returns (next: nat)
      requires Consistent() && i < |runs| && runs[i].addr == maj
      ensures if next == 0 then i == |runs| - 1 else i + 1 < |runs| && runs[i + 1].addr == next
    {
      next := MajorAt(majors, maj).next;
      assert MajorShows(majors, runs, i);
      NextIsNull(runs, i);
    }

    // From a run that cannot hold the block: on to the next run, back to the root, or to a new run.
    method Hop(maj: nat, startedBet: bool, size: nat, grant: nat,
               ghost runs0: seq<Run>, ghost start: nat, ghost req: nat, ghost i: nat)
      returns (maj': nat, startedBet': bool, asked: nat, ghost i': nat)
      requires Consistent() && Searching(runs0, start, req, grant, i, startedBet, 0)
      requires size == Padded(req) && req <= MAX_REQ
      requires runs[i].addr == maj && !runs[i].Fits(size + HEADER)
      requires grant != 0 ==> Grantable(runs, grant, PagesFor(size))
      modifies this`majors, this`pageBytes, this`warningCount, this`runs
      ensures Consistent() && warningCount == old(warningCount) + (if maj' == 0 then 1 else 0)
      ensures Onward(runs0, start, req, grant, startedBet, i, maj', startedBet', asked, i')
    {
      startedBet', asked, i' := startedBet, 0, i + 1;
      maj' := NextRun(maj, i);
      if maj' != 0 { return; }
      RootIsNull(runs);
      if startedBet {
        maj', startedBet', i' := memRoot, false, 0;
        return;
      }
      asked := 1;
      i' := |runs0|;
      maj' := HopToNew(maj, size, grant, runs0, start, req, i);
    }

    // Behind the last run, with no restart left: a new run, or out of memory.
    method HopToNew(maj: nat, size: nat, grant: nat, ghost runs0: seq<Run>, ghost start: nat, ghost req: nat,
                    ghost i: nat) returns (maj': nat)
      requires Consistent() && Searching(runs0, start, req, grant, i, false, 0)
      requires size == Padded(req) && req <= MAX_REQ
      requires i + 1 == |runs| && runs[i].addr == maj && !runs[i].Fits(size + HEADER)
      requires grant != 0 ==> Grantable(runs, grant, PagesFor(size))
      modifies this`majors, this`pageBytes, this`warningCount, this`runs
      ensures Consistent() && warningCount == old(warningCount) + (if maj' == 0 then 1 else 0)
      ensures Onward(runs0, start, req, grant, false, i, maj', false, 1, |runs0|)
    {
      maj' := Grow(maj, size, grant);
    }

    // A placement into run i is the placement Malloc chooses.
    ghost method FinishPlaced(runs0: seq<Run>, bytes0: Bytes, start: nat, req: nat, grant: nat,
                              runs1: seq<Run>, i: nat, bet: bool, asked: nat, p: nat)
      requires Consistent() && NoEmptyRun(runs0) && i < |runs1| && Placed(runs1, i, req, bytes0, p)
      requires if asked == 0 then runs1 == runs0 && Passed(runs0, Padded(req) + HEADER, start, i, bet)
               else
                 && asked == 1 && grant != 0 && i == |runs0| && runs1 == runs0 + [Run(grant, PagesFor(Padded(req)), [])]
                 && start <= |runs0| && NoFit(runs0, Padded(req) + HEADER, 0, |runs0|)
      ensures Valid() && start <= |runs0| && MallocDone(runs0, bytes0, start, req, grant, runs, bytes, p)
      ensures asked == if NoFit(runs0, Padded(req) + HEADER, 0, |runs0|) then 1 else 0
    {
      var need := Padded(req) + HEADER;
      if asked == 0 {
        FitsHere(runs0, need, start, i, bet);
        assert runs0[i].Fits(need);
      } else {
        FitsNowhere(runs0, need, start);
        InRunOfNewRun(runs0, grant, req);
      }
    }

    // How much is free in this run, remembering it as the best bet when it beats the best so far.
    method Look(maj: nat, bestSize: int, ghost i: nat) returns (diff: int, best: int)
      requires Consistent() && i < |runs| && runs[i].addr == maj
      modifies this`bestBet
      ensures Consistent() && diff == Spare(runs[i])
      ensures Bet(bestBet, best) == HeapHint.Look(runs[i], Bet(old(bestBet), bestSize))
    {
      assert MajorShows(majors, runs, i);
      assert RunSound(runs, i);
      diff, best := MajorAt(majors, maj).size - MajorAt(majors, maj).usage, bestSize;
      if best < diff {
        bestBet := maj;
        best := diff;
      }
    }

    // Cases 2 to 4 at run i; an empty run is always one just obtained, and always takes the block.
    method TryRun(maj: nat, ghost startedBet: bool, size: nat, req: nat, ghost grant: nat, ghost asked: nat,
                  ghost runs0: seq<Run>, ghost start: nat, ghost i: nat)
      returns (p: nat)
      requires Consistent() && Searching(runs0, start, req, grant, i, startedBet, asked) && NoEmptyRun(runs0)
      requires i < |runs| && runs[i].addr == maj && size == Padded(req)
      modifies this`majors, this`minors, this`bytes, this`inuse, this`runs
      ensures Consistent()
      ensures p != 0 ==> Valid() && MallocDone(runs0, old(bytes), start, req, grant, runs, bytes, p)
      ensures p != 0 ==> asked == if NoFit(runs0, size + HEADER, 0, |runs0|) then 1 else 0
      ensures p != 0 && asked == 0 ==> Takes(runs0, i, size + HEADER)
      ensures p == 0 ==> unchanged(this) && asked == 0 && !runs[i].Fits(size + HEADER)
    {
      ghost var runs1 := runs;
      if asked != 0 { InRunOfNewRun(runs0, grant, req); FreshRunFits(grant, size); }
      p := PlaceIn(maj, size, req, i);
      if p != 0 {
        FinishPlaced(runs0, old(bytes), start, req, grant, runs1, i, startedBet, asked, p);
      } else {
        NoGapNoFit(runs[i], size + HEADER);
      }
    }

    // Cases 2 to 5 at run i: the block goes into it, or the search moves on.
    method TryOrHop(maj: nat, startedBet: bool, size: nat, req: nat, grant: nat, asked: nat,
                    ghost runs0: seq<Run>, ghost start: nat, ghost i: nat)
      returns (p: nat, maj': nat, startedBet': bool, asked': nat, ghost i': nat)
      requires Consistent() && Searching(runs0, start, req, grant, i, startedBet, asked) && NoEmptyRun(runs0)
      requires i < |runs| && runs[i].addr == maj && size == Padded(req) && req <= MAX_REQ
      requires grant != 0 ==> Grantable(runs0, grant, PagesFor(size))
      modifies this`majors, this`minors, this`bytes, this`inuse, this`runs, this`pageBytes, this`warningCount
      ensures Consistent() && warningCount == old(warningCount) + (if p == 0 && maj' == 0 then 1 else 0)
      ensures p != 0 ==> Valid() && MallocDone(runs0, old(bytes), start, req, grant, runs, bytes, p)
      ensures p != 0 ==> asked' == if NoFit(runs0, size + HEADER, 0, |runs0|) then 1 else 0
      ensures p != 0 && asked == 0 ==> Takes(runs0, i, size + HEADER)
      ensures p == 0 ==> bytes == old(bytes) && asked == 0 && !runs0[i].Fits(size + HEADER)
      ensures p == 0 ==> Onward(runs0, start, req, grant, startedBet, i, maj', startedBet', asked', i')
    {
      maj', startedBet', asked', i' := maj, startedBet, asked, i;
      p := TryRun(maj, startedBet, size, req, grant, asked, runs0, start, i);
      if p == 0 {
        maj', startedBet', asked', i' := Hop(maj, startedBet, size, grant, runs0, start, req, i);
      }
    }

    // Case 1: with too little free in total the run is not the new one, and nothing fits in it.
    lemma {:induction false} TooLittle(runs0: seq<Run>, start: nat, req: nat, grant: nat, i: nat,
                                       startedBet: bool, asked: nat)
      requires Consistent() && Searching(runs0, start, req, grant, i, startedBet, asked) && i < |runs|
      requires runs[i].Size() - runs[i].Usage() < Padded(req) + HEADER
      ensures asked == 0 && !runs[i].Fits(Padded(req) + HEADER)
    {
      assert RunSound(runs, i);
      TotalFreeBoundsGaps(runs[i], Padded(req) + HEADER);
      NewRunFits(runs0, grant, Padded(req));
    }

    // The hint the search will end with, given how it stands and the best size so far.
    ghost predicate Bets(runs0: seq<Run>, req: nat, grant: nat, i: nat, bet: bool, asked: nat, bestSize: int, goal: nat)
      reads this`bestBet
    {
      Betting(runs0, Padded(req) + HEADER, NewRun(req, grant), i, bet, asked, Bet(bestBet, bestSize), goal)
    }

    // The same once run i has been looked at.
    ghost predicate BetSeen(runs0: seq<Run>, req: nat, grant: nat, i: nat, bet: bool, asked: nat, bestSize: int,
                            goal: nat)
      reads this`bestBet
    {
      Looked(runs0, Padded(req) + HEADER, NewRun(req, grant), i, bet, asked, Bet(bestBet, bestSize), goal)
    }

    ghost predicate BetsOn(runs0: seq<Run>, req: nat, grant: nat, bestSize: int, goal: nat, p: nat, maj': nat,
                           i': nat, bet': bool, asked': nat)
      reads this`bestBet
    {
      if p != 0 || maj' == 0 then bestBet == goal else Bets(runs0, req, grant, i', bet', asked', bestSize, goal)
    }

    // A new run that Case 1 falls through to is not looked at.
    lemma {:induction false} BetsAfterCaseOne(runs0: seq<Run>, req: nat, grant: nat, i: nat, bet: bool, bestSize: int,
                                              goal: nat, maj': nat, i': nat, bet': bool, asked': nat)
      requires BetSeen(runs0, req, grant, i, bet, 0, bestSize, goal)
      requires !runs0[i].Fits(Padded(req) + HEADER) && Spare(runs0[i]) < Padded(req) + HEADER
      requires HopsTo(|runs0|, i, bet, i', bet', asked')
      ensures if asked' == 1 then bestBet == goal else Bets(runs0, req, grant, i', bet', asked', bestSize, goal)
    {
      BetHops(runs0, Padded(req) + HEADER, NewRun(req, grant), i, bet, Bet(bestBet, bestSize), goal, i', bet', asked');
    }

    lemma {:induction false} BetsAfterTry(runs0: seq<Run>, req: nat, grant: nat, i: nat, bet: bool, asked: nat,
                                          bestSize: int, goal: nat, p: nat, maj': nat, i': nat, bet': bool, asked': nat)
      requires BetSeen(runs0, req, grant, i, bet, asked, bestSize, goal)
      requires p != 0 && asked == 0 ==> Takes(runs0, i, Padded(req) + HEADER)
      requires p == 0 ==> asked == 0 && !runs0[i].Fits(Padded(req) + HEADER)
      requires p == 0 ==> HopsTo(|runs0|, i, bet, i', bet', asked')
      requires p == 0 && asked' == 1 ==> Spare(runs0[i]) >= Padded(req) + HEADER && (maj' == 0 <==> grant == 0)
      requires p == 0 && asked' == 0 ==> maj' != 0
      ensures BetsOn(runs0, req, grant, bestSize, goal, p, maj', i', bet', asked')
    {
      var need, b := Padded(req) + HEADER, Bet(bestBet, bestSize);
      if p != 0 {
        BetTakenHere(runs0, need, NewRun(req, grant), i, bet, asked, b, goal);
      } else {
        BetHops(runs0, need, NewRun(req, grant), i, bet, b, goal, i', bet', asked');
      }
    }

    // Case 1: on from a run with too little free; a new run is fallen through to and used at once.
    method CaseOne(maj: nat, startedBet: bool, size: nat, req: nat, grant: nat, ghost asked: nat,
                   ghost runs0: seq<Run>, ghost start: nat, ghost i: nat, ghost bestSize: int, ghost goal: nat)
      returns (p: nat, maj': nat, startedBet': bool, asked': nat, ghost i': nat)
      requires Consistent() && Searching(runs0, start, req, grant, i, startedBet, asked) && NoEmptyRun(runs0)
      requires i < |runs| && runs[i].addr == maj && size == Padded(req) && req <= MAX_REQ
      requires grant != 0 ==> Grantable(runs0, grant, PagesFor(size))
      requires Spare(runs[i]) < size + HEADER
      requires BetSeen(runs0, req, grant, i, startedBet, asked, bestSize, goal)
      modifies this`majors, this`minors, this`bytes, this`inuse, this`runs, this`pageBytes, this`warningCount
      ensures Consistent() && warningCount == old(warningCount) + (if p == 0 && maj' == 0 then 1 else 0)
      ensures p != 0 ==> Valid() && MallocDone(runs0, old(bytes), start, req, grant, runs, bytes, p)
      ensures p != 0 ==> asked' == if NoFit(runs0, size + HEADER, 0, |runs0|) then 1 else 0
      ensures BetsOn(runs0, req, grant, bestSize, goal, p, maj', i', startedBet', asked')
      ensures p == 0 ==> bytes == old(bytes) && asked == 0
      ensures p == 0 ==> Onward(runs0, start, req, grant, startedBet, i, maj', startedBet', asked', i')
    {
      p := 0;
      TooLittle(runs0, start, req, grant, i, startedBet, asked);
      maj', startedBet', asked', i' := Hop(maj, startedBet, size, grant, runs0, start, req, i);
      BetsAfterCaseOne(runs0, req, grant, i, startedBet, bestSize, goal, maj', i', startedBet', asked');
      if maj' == 0 || asked' == 0 { return; }
      p, maj', startedBet', asked', i' := TryOrHop(maj', startedBet', size, req, grant, asked', runs0, start, i');
    }

    // Cases 2 to 5 at run i, once it has been looked at.
    method SeekRoom(maj: nat, startedBet: bool, ghost bestSize: int, size: nat, req: nat, grant: nat, asked: nat,
                    ghost runs0: seq<Run>, ghost start: nat, ghost i: nat, ghost goal: nat)
      returns (p: nat, maj': nat, startedBet': bool, asked': nat, ghost i': nat)
      requires Consistent() && Searching(runs0, start, req, grant, i, startedBet, asked) && NoEmptyRun(runs0)
      requires i < |runs| && runs[i].addr == maj && size == Padded(req) && req <= MAX_REQ
      requires grant != 0 ==> Grantable(runs0, grant, PagesFor(size))
      requires BetSeen(runs0, req, grant, i, startedBet, asked, bestSize, goal) && Spare(runs[i]) >= size + HEADER
      modifies this`majors, this`minors, this`bytes, this`inuse, this`runs, this`pageBytes,
               this`warningCount
      ensures BetsOn(runs0, req, grant, bestSize, goal, p, maj', i', startedBet', asked')
      ensures Consistent() && warningCount == old(warningCount) + (if p == 0 && maj' == 0 then 1 else 0)
      ensures p != 0 ==> Valid() && MallocDone(runs0, old(bytes), start, req, grant, runs, bytes, p)
      ensures p != 0 ==> asked' == if NoFit(runs0, size + HEADER, 0, |runs0|) then 1 else 0
      ensures p == 0 ==> bytes == old(bytes) && asked == 0
      ensures p == 0 ==> Onward(runs0, start, req, grant, startedBet, i, maj', startedBet', asked', i')
    {
      p, maj', startedBet', asked', i' := TryOrHop(maj, startedBet, size, req, grant, asked, runs0, start, i);
      BetsAfterTry(runs0, req, grant, i, startedBet, asked, bestSize, goal, p, maj', i', startedBet', asked');
    }

    // Cases 1 to 5 at run i, once it has been looked at.
    method Seek(maj: nat, startedBet: bool, diff: int, ghost bestSize: int, size: nat, req: nat, grant: nat, asked: nat,
                ghost runs0: seq<Run>, ghost start: nat, ghost i: nat, ghost goal: nat)
      returns (p: nat, maj': nat, startedBet': bool, asked': nat, ghost i': nat)
      requires Consistent() && Searching(runs0, start, req, grant, i, startedBet, asked) && NoEmptyRun(runs0)
      requires i < |runs| && runs[i].addr == maj && size == Padded(req) && req <= MAX_REQ
      requires grant != 0 ==> Grantable(runs0, grant, PagesFor(size))
      requires BetSeen(runs0, req, grant, i, startedBet, asked, bestSize, goal) && diff == Spare(runs[i])
      modifies this`majors, this`minors, this`bytes, this`inuse, this`runs, this`pageBytes,
               this`warningCount
      ensures BetsOn(runs0, req, grant, bestSize, goal, p, maj', i', startedBet', asked')
      ensures Consistent() && warningCount == old(warningCount) + (if p == 0 && maj' == 0 then 1 else 0)
      ensures p != 0 ==> Valid() && MallocDone(runs0, old(bytes), start, req, grant, runs, bytes, p)
      ensures p != 0 ==> asked' == if NoFit(runs0, size + HEADER, 0, |runs0|) then 1 else 0
      ensures p == 0 ==> bytes == old(bytes) && asked == 0
      ensures p == 0 ==> Onward(runs0, start, req, grant, startedBet, i, maj', startedBet', asked', i')
    {
      if diff < size + HEADER {
        p, maj', startedBet', asked', i' :=
          CaseOne(maj, startedBet, size, req, grant, asked, runs0, start, i, bestSize, goal);
      } else {
        p, maj', startedBet', asked', i' :=
          SeekRoom(maj, startedBet, bestSize, size, req, grant, asked, runs0, start, i, goal);
      }
    }

    // One round of the search at run i.
    method Visit(maj: nat, startedBet: bool, bestSize: int, size: nat, req: nat, grant: nat, asked: nat,
                 ghost runs0: seq<Run>, ghost start: nat, ghost i: nat, ghost goal: nat)
      returns (p: nat, maj': nat, startedBet': bool, bestSize': int, asked': nat, ghost i': nat)
      requires Consistent() && Searching(runs0, start, req, grant, i, startedBet, asked) && NoEmptyRun(runs0)
      requires i < |runs| && runs[i].addr == maj && size == Padded(req) && req <= MAX_REQ
      requires grant != 0 ==> Grantable(runs0, grant, PagesFor(size))
      requires Bets(runs0, req, grant, i, startedBet, asked, bestSize, goal)
      modifies this`majors, this`minors, this`bytes, this`inuse, this`runs, this`bestBet, this`pageBytes,
               this`warningCount
      ensures BetsOn(runs0, req, grant, bestSize', goal, p, maj', i', startedBet', asked')
      ensures Consistent() && warningCount == old(warningCount) + (if p == 0 && maj' == 0 then 1 else 0)
      ensures p != 0 ==> Valid() && MallocDone(runs0, old(bytes), start, req, grant, runs, bytes, p)
      ensures p != 0 ==> asked' == if NoFit(runs0, size + HEADER, 0, |runs0|) then 1 else 0
      ensures p == 0 ==> bytes == old(bytes) && asked == 0
      ensures p == 0 ==> Onward(runs0, start, req, grant, startedBet, i, maj', startedBet', asked', i')
    {
      var diff;
      LooksAt(runs0, size + HEADER, NewRun(req, grant), i, startedBet, asked, Bet(bestBet, bestSize), goal, runs[i]);
      diff, bestSize' := Look(maj, bestSize, i);
      p, maj', startedBet', asked', i' :=
        Seek(maj, startedBet, diff, bestSize', size, req, grant, asked, runs0, start, i, goal);
    }

    // The search loop over the runs.
    method Search(maj0: nat, bet: bool, size0: int, size: nat, req: nat, grant: nat, asked0: nat,
                  ghost runs0: seq<Run>, ghost start: nat, ghost i0: nat, ghost goal: nat)
      returns (p: nat, asked: nat)
      requires Consistent() && Searching(runs0, start, req, grant, i0, bet, asked0) && NoEmptyRun(runs0)
      requires i0 < |runs| && runs[i0].addr == maj0 && size == Padded(req) && req <= MAX_REQ
      requires grant != 0 ==> Grantable(runs0, grant, PagesFor(size))
      requires Bets(runs0, req, grant, i0, bet, asked0, size0, goal)
      modifies this`majors, this`minors, this`bytes, this`inuse, this`runs, this`bestBet, this`pageBytes,
               this`warningCount
      ensures bestBet == goal
      ensures Valid() && start <= |runs0| && MallocDone(runs0, old(bytes), start, req, grant, runs, bytes, p)
      ensures warningCount == old(warningCount) + (if p == 0 then 1 else 0)
      ensures asked == if NoFit(runs0, size + HEADER, 0, |runs0|) then 1 else 0
    {
      var maj: nat, startedBet, bestSize := maj0, bet, size0;
      ghost var i: nat := i0;
      asked, p := asked0, 0;
      assert RunSound(runs, i);
      while maj != 0
        invariant Consistent() && bytes == old(bytes) && start <= |runs0|
        invariant p == 0 && warningCount == old(warningCount) + (if maj == 0 then 1 else 0)
        invariant maj != 0 ==>
                    i < |runs| && runs[i].addr == maj && Searching(runs0, start, req, grant, i, startedBet, asked)
        invariant if maj == 0 then bestBet == goal else Bets(runs0, req, grant, i, startedBet, asked, bestSize, goal)
        invariant maj == 0 ==> grant == 0 && asked == 1 && runs == runs0 && NoFit(runs0, size + HEADER, 0, |runs0|)
        decreases maj != 0, asked == 0, startedBet, |runs| - i
      {
        p, maj, startedBet, bestSize, asked, i :=
          Visit(maj, startedBet, bestSize, size, req, grant, asked, runs0, start, i, goal);
        if p != 0 { return; }
      }
      NothingDone(runs0, bytes, start, req);
    }

    // A first run when there is none yet.
    method Root(size: nat, grant: nat) returns (asked: nat)
      requires Valid() && size <= Padded(MAX_REQ)
      requires grant != 0 ==> Grantable(runs, grant, PagesFor(size))
      modifies this`memRoot, this`majors, this`pageBytes, this`warningCount, this`runs
      ensures Consistent() && (memRoot == 0 <==> runs == [])
      ensures warningCount == old(warningCount) + (if runs == [] then 1 else 0)
      ensures asked == if old(runs) == [] then 1 else 0
      ensures runs == if old(runs) == [] && grant != 0 then [Run(grant, PagesFor(size), [])] else old(runs)
    {
      RootIsNull(runs);
      asked := 0;
      if memRoot == 0 {
        asked := 1;
        GrowRoot(size, grant);
        RootIsNull(runs);
      }
    }

    // Where the search starts, and that nothing has been passed over yet.
    lemma {:induction false} SearchBegins(runs0: seq<Run>, req: nat, grant: nat, i: nat, bet: bool, asked: nat)
      requires runs != [] && i < |runs| && (!bet ==> i == 0)
      requires asked == if runs0 == [] then 1 else 0
      requires runs == if runs0 == [] && grant != 0 then [Run(grant, PagesFor(Padded(req)), [])] else runs0
      ensures Searching(runs0, if runs0 == [] then 0 else i, req, grant, i, bet, asked)
    {
    }

    // The search over the runs there are, from the hint or from the root.
    method SearchFromHint(size: nat, req: nat, grant: nat, asked0: nat, ghost runs0: seq<Run>)
      returns (p: nat, asked: nat)
      requires Consistent() && runs != [] && NoEmptyRun(runs0) && size == Padded(req) && req <= MAX_REQ
      requires asked0 == (if runs0 == [] then 1 else 0) && (runs0 == [] ==> bestBet == 0)
      requires runs == if runs0 == [] && grant != 0 then [Run(grant, PagesFor(size), [])] else runs0
      requires grant != 0 ==> Grantable(runs0, grant, PagesFor(size))
      modifies this`majors, this`minors, this`bytes, this`inuse, this`runs, this`bestBet, this`pageBytes,
               this`warningCount
      ensures Valid()
      ensures var start := if runs0 == [] then 0 else HintIndex(old(runs), old(bestBet), size + HEADER);
              start <= |runs0| && MallocDone(runs0, old(bytes), start, req, grant, runs, bytes, p)
      ensures warningCount == old(warningCount) + (if p == 0 then 1 else 0)
      ensures asked == if NoFit(runs0, size + HEADER, 0, |runs0|) then 1 else 0
      ensures bestBet == HintAfterMalloc(runs0, old(bestBet), req, grant)
    {
      var maj, startedBet, bestSize;
      ghost var goal := HintAfterMalloc(runs0, bestBet, req, grant);
      ghost var i: nat;
      maj, startedBet, bestSize, i := StartAt(size + HEADER);
      SearchBegins(runs0, req, grant, i, startedBet, asked0);
      p, asked := Search(maj, startedBet, bestSize, size, req, grant, asked0, runs0, if runs0 == [] then 0 else i, i,
                         goal);
    }

    // req == 0 is a request like any other: with 32 bytes of padding size is never 0.
    method Kmalloc(req: nat, grant: nat) returns (p: nat, asked: nat)
      requires Valid() && req <= MAX_REQ
      requires grant != 0 ==> Grantable(runs, grant, PagesFor(Padded(req)))
      modifies this`memRoot, this`majors, this`minors, this`bytes, this`inuse, this`runs, this`bestBet, this`pageBytes,
               this`warningCount
      ensures Valid()
      ensures MallocDone(old(runs), old(bytes), HintIndex(old(runs), old(bestBet), Padded(req) + HEADER), req, grant,
                         runs, bytes, p)
      ensures warningCount == old(warningCount) + (if p == 0 then 1 else 0)
      ensures asked == Asked(old(runs), req)
      ensures bestBet == HintAfterMalloc(old(runs), old(bestBet), req, grant)
    {
      var size := Add32(Add32(req, ALIGNMENT), ALIGN_INFO);
      ghost var runs0 := runs;
      asked := Root(size, grant);
      if memRoot == 0 {
        NothingDone(runs, bytes, 0, req);
        return 0, asked;
      }
      HintOfNoRuns(runs0, runs, bestBet, size + HEADER);
      p, asked := SearchFromHint(size, req, grant, asked, runs0);
    }

    // UNALIGN, then back over the header.
    function HeaderOf(ptr: nat): (h: nat)
      reads this`bytes
    {
      var diff := ByteAt(bytes, Sub32(ptr, ALIGN_INFO));
      if diff < ALIGNMENT + ALIGN_INFO then Sub32(Sub32(ptr, diff), HEADER) else Sub32(ptr, HEADER)
    }

    // The header of a live block is found again from the pointer handed out for it.
    lemma {:induction false} HeaderOfPayload(i: nat, j: nat)
      requires Consistent() && At(runs, i, j)
      ensures HeaderOf(runs[i].blocks[j].Payload()) == runs[i].blocks[j].addr
    {
      var b := runs[i].blocks[j];
      assert AlignByteShows(bytes, b) && RunSound(runs, i);
      Unalign32(b);
    }

    // Take the header at min out of the list of its run.
    method UnlinkMinor(min: nat, ghost r: Run, ghost j: nat)
      requires j < |r.blocks| && r.blocks[j].addr == min && MinorAt(minors, min) == MinorOf(r, j)
      requires forall k: nat | k < |r.blocks| :: r.blocks[k].addr != 0 && (k != j ==> r.blocks[k].addr != min)
      modifies this`minors
      ensures minors == Unlinked(old(minors), r, j)
    {
      minors := minors[min := MinorAt(minors, min).(magic := DEAD)];
      var next := MinorAt(minors, min).next;
      if next != 0 {
        minors := minors[next := MinorAt(minors, next).(prev := MinorAt(minors, min).prev)];
      }
      var prev := MinorAt(minors, min).prev;
      if prev != 0 {
        minors := minors[prev := MinorAt(minors, prev).(next := MinorAt(minors, min).next)];
      }
    }

    // Bookkeeping for the proof: the runs without the block that was just unlinked.
    ghost method RecordDrop(majors0: Majors, minors0: Minors, i: nat, j: nat)
      requires Sound(runs) && Shows(Memory(majors0, minors0, bytes), runs) && At(runs, i, j)
      requires Anchored(Globals(memRoot, bestBet, pageBytes, inuse + runs[i].blocks[j].size), runs)
      requires majors == DroppedMajor(majors0, runs[i], j) && minors == Unlinked(minors0, runs[i], j)
      modifies this`runs
      ensures Consistent() && runs == old(runs)[i := Dropped(old(runs)[i], j)]
    {
      DroppedShows(majors0, minors0, bytes, runs, i, j);
      DroppedKeepsSound(runs, i, j);
      DroppedAnchored(Globals(memRoot, bestBet, pageBytes, inuse + runs[i].blocks[j].size), runs, i, j);
      runs := runs[i := Dropped(runs[i], j)];
    }

    // Take the header at min out of the counters and the list of its run.
    method TakeOut(min: nat, ghost r: Run, ghost j: nat) returns (maj: nat)
      requires j < |r.blocks| && r.blocks[j].addr == min
      requires MinorAt(minors, min) == MinorOf(r, j) && MajorAt(majors, r.addr).usage >= Footprint(r.blocks[j])
      requires forall k: nat | k < |r.blocks| :: r.blocks[k].addr != 0 && (k != j ==> r.blocks[k].addr != min)
      requires MinorAt(Unlinked(minors, r, j), min) == MinorOf(r, j).(magic := DEAD)
      modifies this`majors, this`minors, this`inuse
      ensures maj == r.addr && inuse == old(inuse) - r.blocks[j].size
      ensures majors == DroppedMajor(old(majors), r, j) && minors == Unlinked(old(minors), r, j)
    {
      maj := MinorAt(minors, min).block;
      inuse := inuse - MinorAt(minors, min).size;
      majors := majors[maj := MajorAt(majors, maj).(
                       usage := MajorAt(majors, maj).usage - (MinorAt(minors, min).size + HEADER))];
      UnlinkMinor(min, r, j);
      if MinorAt(minors, min).prev == 0 {
        majors := majors[maj := MajorAt(majors, maj).(first := MinorAt(minors, min).next)];
      }
    }

    // The block leaves its run, which may be left empty.
    method DropMinor(min: nat, ghost i: nat, ghost j: nat) returns (maj: nat)
      requires Consistent() && At(runs, i, j) && runs[i].blocks[j].addr == min
      modifies this`majors, this`minors, this`inuse, this`runs
      ensures Consistent() && maj == old(runs)[i].addr && runs == old(runs)[i := Dropped(old(runs)[i], j)]
      ensures MinorAt(minors, min).magic == DEAD
    {
      UnlinkFacts(majors, minors, runs, i, j);
      maj := TakeOut(min, runs[i], j);
      RecordDrop(old(majors), old(minors), i, j);
    }

    // Make the neighbours of run i point at each other.
    method BridgeMajors(next: nat, prev: nat, ghost i: nat)
      requires i < |runs| && next == RunAddr(runs, i + 1) && prev == RunAddr(runs, i - 1)
      requires (next == 0 <==> i + 1 == |runs|) && (prev == 0 <==> i == 0)
      modifies this`majors
      ensures majors == MajorUnlinked(old(majors), runs, i)
    {
      if prev != 0 {
        majors := majors[prev := MajorAt(majors, prev).(next := next)];
      }
      if next != 0 {
        majors := majors[next := MajorAt(majors, next).(prev := prev)];
      }
    }

    // Take the header of run i out of the list of runs.
    method TakeRunOut(maj: nat, ghost i: nat)
      requires i < |runs| && MajorAt(majors, maj) == MajorOf(runs, i)
      requires (RunAddr(runs, i + 1) == 0 <==> i + 1 == |runs|) && (RunAddr(runs, i - 1) == 0 <==> i == 0)
      requires MajorAt(MajorUnlinked(majors, runs, i), maj).size == runs[i].Size()
      modifies this`memRoot, this`bestBet, this`majors, this`pageBytes
      ensures majors == MajorUnlinked(old(majors), runs, i) && pageBytes == old(pageBytes) - runs[i].Size()
      ensures memRoot == if old(memRoot) == maj then RunAddr(runs, i + 1) else old(memRoot)
      ensures bestBet == if old(bestBet) == maj then 0 else old(bestBet)
    {
      var next, prev := MajorAt(majors, maj).next, MajorAt(majors, maj).prev;
      if memRoot == maj { memRoot := next; }
      if bestBet == maj { bestBet := 0; }
      BridgeMajors(next, prev, i);
      pageBytes := pageBytes - MajorAt(majors, maj).size;
    }

    // Take an empty run out of the list of runs.
    method UnlinkMajor(maj: nat, ghost i: nat)
      requires Consistent() && i < |runs| && runs[i].addr == maj && runs[i].blocks == []
      modifies this`memRoot, this`bestBet, this`majors, this`pageBytes, this`runs
      ensures Consistent() && runs == old(runs)[..i] + old(runs)[i + 1..]
      ensures bestBet == if old(bestBet) == maj then 0 else old(bestBet)
    {
      MajorLinksFacts(majors, runs, i);
      TakeRunOut(maj, i);
      RecordRemove(old(majors), Globals(old(memRoot), old(bestBet), old(pageBytes), inuse), i);
    }

    ghost method RecordRemove(majors0: Majors, g: Globals, i: nat)
      requires Sound(runs) && Shows(Memory(majors0, minors, bytes), runs) && i < |runs| && runs[i].blocks == []
      requires Anchored(g, runs)
      requires memRoot == (if i == 0 then RunAddr(runs, 1) else g.memRoot)
      requires bestBet == (if g.bestBet == runs[i].addr then 0 else g.bestBet)
      requires pageBytes == g.pageBytes - runs[i].Size() && inuse == g.inuse
      requires majors == MajorUnlinked(majors0, runs, i)
      modifies this`runs
      ensures Consistent() && runs == old(runs)[..i] + old(runs)[i + 1..]
    {
      RemovedShows(majors0, minors, bytes, runs, i);
      RemovedKeepsSound(runs, i);
      RemovedAnchored(g, runs, i);
      runs := runs[..i] + runs[i + 1..];
    }

    lemma {:induction false} HintIsLinked(maj: nat, i: nat)
      requires Consistent() && i < |runs| && runs[i].addr == maj
      ensures IndexOf(runs, maj) < |runs| && MajorAt(majors, maj) == MajorOf(runs, i)
      ensures bestBet != 0 ==>
                var k := IndexOf(runs, bestBet); k < |runs| && MajorAt(majors, bestBet) == MajorOf(runs, k)
    {
      assert MajorShows(majors, runs, i);
      if bestBet != 0 { assert MajorShows(majors, runs, IndexOf(runs, bestBet)); }
    }

    // Remember the run just freed from as the best bet when more is free in it than in the present one.
    method FreedHint(maj: nat, ghost i: nat)
      requires Consistent() && i < |runs| && runs[i].addr == maj
      modifies this`bestBet
      ensures Consistent() && bestBet == HintAfterFree(runs, old(bestBet), i)
    {
      HintIsLinked(maj, i);
      if bestBet != 0 {
        var bestSize := AsInt32(Sub32(MajorAt(majors, bestBet).size, MajorAt(majors, bestBet).usage));
        var majSize := AsInt32(Sub32(MajorAt(majors, maj).size, MajorAt(majors, maj).usage));
        if majSize > bestSize { bestBet := maj; }
      }
    }

    // kfree behind the pointer: the header at min is live, or does not carry the magic.
    method FreeHeader(min: nat) returns (released: nat, pages: nat)
      requires Valid() && (LiveAt(runs, min) || MinorAt(minors, min).magic != MAGIC)
      modifies this`majors, this`minors, this`inuse, this`runs, this`memRoot, this`bestBet, this`pageBytes,
               this`errorCount, this`possibleOverruns
      ensures Valid()
      ensures !LiveAt(old(runs), min) ==>
                && runs == old(runs) && minors == old(minors) && majors == old(majors) && bestBet == old(bestBet)
                && released == 0 && errorCount == old(errorCount) + 1
                && possibleOverruns == old(possibleOverruns)
                                       + if old(MinorAt(minors, min).magic) % 256 == MAGIC % 256 then 1 else 0
      ensures LiveAt(old(runs), min) ==>
                && runs == Free(old(runs), min) && errorCount == old(errorCount) && MinorAt(minors, min).magic == DEAD
                && Freed(old(runs), old(bestBet), runs, bestBet, released, pages)
                && TookBack(released, pages) == ReleasedBy(old(runs), min)
    {
      released, pages := 0, 0;
      if MinorAt(minors, min).magic != MAGIC {
        NotLive(minors, runs, min);
        CountBadHeader(MinorAt(minors, min).magic);
        return;
      }
      ghost var i, j := HeaderPosition(runs, min);
      released, pages := FreeLive(min, i, j);
    }

    method Kfree(ptr: nat) returns (released: nat, pages: nat)
      requires Valid()
      requires ptr == 0 || LiveAt(runs, HeaderOf(ptr)) || MinorAt(minors, HeaderOf(ptr)).magic != MAGIC
      modifies this`majors, this`minors, this`inuse, this`runs, this`memRoot, this`bestBet, this`pageBytes,
               this`errorCount, this`possibleOverruns, this`warningCount
      ensures Valid()
      ensures warningCount == old(warningCount) + if ptr == 0 then 1 else 0
      ensures ptr == 0 || !LiveAt(old(runs), HeaderOf(ptr)) ==>
                && runs == old(runs) && minors == old(minors) && majors == old(majors) && bestBet == old(bestBet)
                && released == 0 && errorCount == old(errorCount) + (if ptr == 0 then 0 else 1)
      ensures ptr != 0 && !LiveAt(old(runs), HeaderOf(ptr)) ==>
                possibleOverruns == old(possibleOverruns)
                                    + if old(MinorAt(minors, HeaderOf(ptr)).magic) % 256 == MAGIC % 256 then 1 else 0
      ensures ptr != 0 && LiveAt(old(runs), HeaderOf(ptr)) ==>
                && runs == Free(old(runs), HeaderOf(ptr)) && errorCount == old(errorCount)
                && MinorAt(minors, HeaderOf(ptr)).magic == DEAD
                && Freed(old(runs), old(bestBet), runs, bestBet, released, pages)
                && TookBack(released, pages) == ReleasedBy(old(runs), HeaderOf(ptr))
    {
      if ptr == 0 {
        warningCount := warningCount + 1;
        return 0, 0;
      }
      released, pages := FreeHeader(HeaderOf(ptr));
    }

    // The error path of kfree and krealloc.
    method CountBadHeader(magic: nat)
      requires magic != MAGIC
      modifies this`errorCount, this`possibleOverruns
      ensures errorCount == old(errorCount) + 1
      ensures possibleOverruns == old(possibleOverruns) + if magic % 256 == MAGIC % 256 then 1 else 0
    {
      LowBytes(magic);
      errorCount := errorCount + 1;
      if magic % 0x1000000 == MAGIC % 0x1000000
         || magic % 0x10000 == MAGIC % 0x10000 || magic % 0x100 == MAGIC % 0x100 {
        possibleOverruns := possibleOverruns + 1;
      }
    }

    // Give the run back to the page hook when it has no block left, else see whether it is the better hint.
    method ReleaseRun(maj: nat, ghost i: nat) returns (released: nat, pages: nat)
      requires Consistent() && i < |runs| && runs[i].addr == maj
      modifies this`majors, this`runs, this`memRoot, this`bestBet, this`pageBytes
      ensures Consistent() && (released != 0 <==> old(runs)[i].blocks == [])
      ensures released != 0 ==>
                && released == maj && pages == old(runs)[i].pages && runs == old(runs)[..i] + old(runs)[i + 1..]
                && bestBet == (if old(bestBet) == maj then 0 else old(bestBet))
      ensures released == 0 ==> runs == old(runs) && bestBet == HintAfterFree(runs, old(bestBet), i)
    {
      released, pages := 0, 0;
      assert MajorShows(majors, runs, i);
      assert RunSound(runs, i);
      FirstIsNull(runs[i]);
      if MajorAt(majors, maj).first == 0 {
        released, pages := maj, MajorAt(majors, maj).pages;
        UnlinkMajor(maj, i);
      } else {
        FreedHint(maj, i);
      }
    }

    method FreeLive(min: nat, ghost i: nat, ghost j: nat) returns (released: nat, pages: nat)
      requires Valid() && At(runs, i, j) && runs[i].blocks[j].addr == min
      modifies this`majors, this`minors, this`inuse, this`runs, this`memRoot, this`bestBet, this`pageBytes
      ensures Valid() && runs == Free(old(runs), min) && MinorAt(minors, min).magic == DEAD
      ensures Freed(old(runs), old(bestBet), runs, bestBet, released, pages)
      ensures TookBack(released, pages) == ReleasedBy(old(runs), min)
    {
      FreeIsFreeAt(runs, i, j);
      FreeKeepsSound(runs, i, j);
      DropThenRelease(runs, i, j);
      var maj := DropMinor(min, i, j);
      released, pages := ReleaseRun(maj, i);
      assert released != 0 ==> GivenBack(old(runs), runs, released, pages, i);
      assert released == 0 ==> HintFollows(old(runs), runs, old(bestBet), bestBet, i);
      FreedReleases(old(runs), old(bestBet), runs, bestBet, released, pages, min);
    }

    // p is a pointer kmalloc or krealloc returned for a block that is still live.
    ghost predicate LivePtr(p: nat)
      reads this`runs
    {
      exists b: Block :: b in LiveBlocks(runs) && b.Payload() == p
    }

    ghost function BlockOf(p: nat): (b: Block)
      requires LivePtr(p)
      reads this`runs
      ensures b in LiveBlocks(runs) && b.Payload() == p
    {
      var b: Block :| b in LiveBlocks(runs) && b.Payload() == p;
      b
    }

    lemma {:induction false} HeaderOfLivePtr(p: nat)
      requires Consistent() && LivePtr(p)
      ensures HeaderOf(p) == BlockOf(p).addr && LiveAt(runs, HeaderOf(p))
      ensures MinorAt(minors, HeaderOf(p)).magic == MAGIC && MinorAt(minors, HeaderOf(p)).req == BlockOf(p).req
      ensures p != 0
    {
      var i, j := Position(runs, BlockOf(p));
      HeaderOfPayload(i, j);
      assert MinorShows(minors, runs[i], j);
    }

    // The first half of growing: the new block, and what copying into it will mean.
    method GetBigger(size: nat, grant: nat, ghost b: Block) returns (q: nat, asked: nat)
      requires Valid() && b in LiveBlocks(runs) && b.req < size <= MAX_REQ
      requires grant != 0 ==> Grantable(runs, grant, PagesFor(Padded(size)))
      requires grant != 0 || !NoFit(runs, Padded(size) + HEADER, 0, |runs|) || Spared(runs, b.req)
      modifies this
      ensures Valid() && b in LiveBlocks(runs)
      ensures var o := Malloc(old(runs), HintIndex(old(runs), old(bestBet), Padded(size) + HEADER), size, grant);
              runs == o.runs && q == o.Ptr() && bytes == MallocBytes(old(bytes), o, size)
      ensures Copyable(old(runs), old(bytes), runs, bytes, q, b) && asked == Asked(old(runs), size)
    {
      ghost var runs0, bytes0 := runs, bytes;
      ghost var start := HintIndex(runs, bestBet, Padded(size) + HEADER);
      q, asked := Kmalloc(size, grant);
      if !Spared(runs0, b.req) { MallocSucceeds(runs0, start, size, grant); }
      MallocAdded(runs0, start, size, grant);
      MovedAfterMalloc(runs0, bytes0, size, Malloc(runs0, start, size, grant), bytes, b);
    }

    // Growing a live block: get a bigger one, copy, free the old one. The result of kmalloc is used unchecked,
    // so when it is NULL the copy must not run into the heap.
    method Move(p: nat, realSize: nat, size: nat, grant: nat, ghost b: Block)
      returns (q: nat, asked: nat, released: nat, pages: nat)
      requires Valid() && b in LiveBlocks(runs) && b.Payload() == p && realSize == b.req < size <= MAX_REQ
      requires grant != 0 ==> Grantable(runs, grant, PagesFor(Padded(size)))
      requires grant != 0 || !NoFit(runs, Padded(size) + HEADER, 0, |runs|) || Spared(runs, b.req)
      modifies this
      ensures Valid()
      ensures Moved(old(runs), old(bytes), HintIndex(old(runs), old(bestBet), Padded(size) + HEADER), b,
                    size, grant, runs, bytes, q)
      ensures Hooked(old(runs), HintIndex(old(runs), old(bestBet), Padded(size) + HEADER), b, size, grant,
                     asked, released, pages)
    {
      q, asked := GetBigger(size, grant, b);
      released, pages := CopyAndFree(p, q, realSize, b);
    }

    method CopyAndFree(p: nat, q: nat, realSize: nat, ghost b: Block) returns (released: nat, pages: nat)
      requires Valid() && b in LiveBlocks(runs) && b.Payload() == p
      requires AlignBytesShow(CopiedByWords(bytes, q, p, realSize), runs)
      modifies this
      ensures Valid() && runs == Free(old(runs), b.addr) && bytes == CopiedByWords(old(bytes), q, p, realSize)
      ensures TookBack(released, pages) == ReleasedBy(old(runs), b.addr)
    {
      bytes := Memcpy(bytes, q, p, realSize);
      HeaderOfMoved(p, b);
      released, pages := Kfree(p);
    }

    // NULL, or a pointer that leads to a header without the magic: not live.
    ghost predicate Stray(p: nat)
      reads this
    {
      p == 0 || MinorAt(minors, HeaderOf(p)).magic != MAGIC
    }

    lemma {:induction false} StrayIsNotLive(p: nat)
      requires Consistent() && Stray(p)
      ensures !LivePtr(p) && (p != 0 ==> !LiveAt(runs, HeaderOf(p)))
    {
      if LivePtr(p) { HeaderOfLivePtr(p); }
      if p != 0 { NotLive(minors, runs, HeaderOf(p)); }
    }

    lemma {:induction false} HeaderOfMoved(p: nat, b: Block)
      requires Consistent() && b in LiveBlocks(runs) && b.Payload() == p
      ensures p != 0 && HeaderOf(p) == b.addr && LiveAt(runs, b.addr)
    {
      var i, j := Position(runs, b);
      HeaderOfPayload(i, j);
    }

    // The block keeps its place and its size; only the size on record for the caller changes.
    method ShrinkInPlace(min: nat, size: nat, ghost b: Block)
      requires Valid() && b in LiveBlocks(runs) && b.addr == min && size <= b.req
      modifies this`minors, this`runs
      ensures Valid() && runs == Resize(old(runs), min, size)
    {
      ghost var i, j := Position(runs, b);
      minors := minors[min := MinorAt(minors, min).(req := size)];
      ResizedShows(majors, old(minors), bytes, runs, i, j, size);
      ResizeKeepsSound(runs, i, j, size);
      ResizedAnchored(Globals(memRoot, bestBet, pageBytes, inuse), runs, i, j, size);
      runs := Resize(runs, min, size);
    }

    // krealloc of a live block. A shrink, or a growth up to the requested size on record, stays in place.
    method ReallocLive(p: nat, min: nat, size: nat, grant: nat, ghost b: Block)
      returns (q: nat, asked: nat, released: nat, pages: nat)
      requires Valid() && size <= MAX_REQ && b in LiveBlocks(runs) && b.Payload() == p && b.addr == min
      requires MinorAt(minors, min).req == b.req
      requires grant != 0 ==> Grantable(runs, grant, PagesFor(Padded(size)))
      requires size > b.req ==> grant != 0 || !NoFit(runs, Padded(size) + HEADER, 0, |runs|) || Spared(runs, b.req)
      modifies this
      ensures Valid()
      ensures size <= b.req ==>
                && q == p && bytes == old(bytes) && runs == Resize(old(runs), b.addr, size)
                && inuse == old(inuse) && pageBytes == old(pageBytes) && asked == released == 0
      ensures size > b.req ==>
                Moved(old(runs), old(bytes), HintIndex(old(runs), old(bestBet), Padded(size) + HEADER), b,
                      size, grant, runs, bytes, q)
      ensures size > b.req ==>
                Hooked(old(runs), HintIndex(old(runs), old(bestBet), Padded(size) + HEADER), b, size, grant,
                       asked, released, pages)
    {
      var realSize := MinorAt(minors, min).req;
      if realSize >= size {
        ShrinkInPlace(min, size, b);
        return p, 0, 0, 0;
      }
      q, asked, released, pages := Move(p, realSize, size, grant, b);
    }

    // krealloc of a pointer that is not NULL, to a size that is not 0.
    method ReallocBlock(p: nat, size: nat, grant: nat)
      returns (q: nat, asked: nat, released: nat, pages: nat)
      requires Valid() && 0 < size <= MAX_REQ && p != 0 && (LivePtr(p) || Stray(p))
      requires grant != 0 ==> Grantable(runs, grant, PagesFor(Padded(size)))
      requires LivePtr(p) && size > BlockOf(p).req ==>
                 grant != 0 || !NoFit(runs, Padded(size) + HEADER, 0, |runs|) || Spared(runs, BlockOf(p).req)
      modifies this
      ensures Valid()
      ensures !old(LivePtr(p)) ==>
                q == 0 && runs == old(runs) && bytes == old(bytes) && errorCount == old(errorCount) + 1
                && asked == released == 0
                && possibleOverruns == old(possibleOverruns)
                                       + if old(MinorAt(minors, HeaderOf(p)).magic) % 256 == MAGIC % 256 then 1 else 0
      ensures old(LivePtr(p)) && size <= old(BlockOf(p)).req ==>
                q == p && bytes == old(bytes) && runs == Resize(old(runs), old(BlockOf(p)).addr, size)
                && inuse == old(inuse) && pageBytes == old(pageBytes) && asked == released == 0
      ensures old(LivePtr(p)) && size > old(BlockOf(p)).req ==>
                Moved(old(runs), old(bytes), HintIndex(old(runs), old(bestBet), Padded(size) + HEADER), old(BlockOf(p)),
                      size, grant, runs, bytes, q)
      ensures old(LivePtr(p)) && size > old(BlockOf(p)).req ==>
                Hooked(old(runs), HintIndex(old(runs), old(bestBet), Padded(size) + HEADER), old(BlockOf(p)),
                       size, grant, asked, released, pages)
    {
      if LivePtr(p) { HeaderOfLivePtr(p); }
      var min := HeaderOf(p);
      if MinorAt(minors, min).magic != MAGIC {
        CountBadHeader(MinorAt(minors, min).magic);
        return 0, 0, 0, 0;
      }
      q, asked, released, pages := ReallocLive(p, min, size, grant, BlockOf(p));
    }

    method Krealloc(p: nat, size: nat, grant: nat)
      returns (q: nat, asked: nat, released: nat, pages: nat)
      requires Valid() && size <= MAX_REQ
      requires LivePtr(p) || Stray(p)
      requires grant != 0 ==> Grantable(runs, grant, PagesFor(Padded(size)))
      requires LivePtr(p) && size > BlockOf(p).req ==>
                 grant != 0 || !NoFit(runs, Padded(size) + HEADER, 0, |runs|) || Spared(runs, BlockOf(p).req)
      modifies this
      ensures Valid()
      ensures size == 0 ==> q == 0 && bytes == old(bytes)
                            && runs == if p == 0 || !old(LivePtr(p)) then old(runs)
                                       else Free(old(runs), old(BlockOf(p)).addr)
      ensures size == 0 ==> asked == 0
                            && TookBack(released, pages) == if p == 0 || !old(LivePtr(p)) then multiset{}
                                                            else ReleasedBy(old(runs), old(BlockOf(p)).addr)
      ensures size != 0 && p == 0 ==>
                MallocDone(old(runs), old(bytes), HintIndex(old(runs), old(bestBet), Padded(size) + HEADER),
                           size, grant, runs, bytes, q)
                && asked == Asked(old(runs), size) && released == 0
      ensures size != 0 && p != 0 && !old(LivePtr(p)) ==>
                q == 0 && runs == old(runs) && bytes == old(bytes) && errorCount == old(errorCount) + 1
                && asked == released == 0
                && possibleOverruns == old(possibleOverruns)
                                       + if old(MinorAt(minors, HeaderOf(p)).magic) % 256 == MAGIC % 256 then 1 else 0
      ensures size != 0 && old(LivePtr(p)) && size <= old(BlockOf(p)).req ==>
                q == p && bytes == old(bytes) && runs == Resize(old(runs), old(BlockOf(p)).addr, size)
                && inuse == old(inuse) && pageBytes == old(pageBytes) && asked == released == 0
      ensures size != 0 && old(LivePtr(p)) && size > old(BlockOf(p)).req ==>
                Moved(old(runs), old(bytes), HintIndex(old(runs), old(bestBet), Padded(size) + HEADER), old(BlockOf(p)),
                      size, grant, runs, bytes, q)
      ensures size != 0 && old(LivePtr(p)) && size > old(BlockOf(p)).req ==>
                Hooked(old(runs), HintIndex(old(runs), old(bestBet), Padded(size) + HEADER), old(BlockOf(p)),
                       size, grant, asked, released, pages)
    {
      if LivePtr(p) { HeaderOfLivePtr(p); }
      q, asked, released, pages := 0, 0, 0, 0;
      if size == 0 {
        released, pages := Kfree(p);
        return;
      }
      if p == 0 {
        q, asked := Kmalloc(size, grant);
        return;
      }
      q, asked, released, pages := ReallocBlock(p, size, grant);
    }
  }
}
