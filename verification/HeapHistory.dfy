/** The heap over whole histories of calls and client writes, for any page hook and any best-bet hint. */
module HeapHistory {
  import opened HeapLayout
  import opened HeapSpec
  import opened HeapHint
  import opened HeapTheorems
  import opened HeapMemory
  import opened HeapCopy
  import opened HeapContents
  import opened KernelHeap

  // The runs, what the bytes of memory hold, and the pages ever obtained from the page hook and given back.
  datatype State = State(runs: seq<Run>, bytes: Bytes, got: multiset<(nat, nat)>, back: multiset<(nat, nat)>)

  // start is where the search begins, grant what the page hook would answer. A stray pointer is NULL or one
  // whose header does not carry the magic. A write is a client's.
  datatype Call =
    | Kmalloc(req: nat, start: nat, grant: nat)
    | Kfree(b: Block)
    | Krealloc(b: Block, req: nat, start: nat, grant: nat)
    | KfreeStray(ptr: nat)
    | KreallocStray(ptr: nat, req: nat, start: nat, grant: nat)
    | Write(b: Block, bytes: Bytes)

  ghost predicate Promised(st: State, req: nat, start: nat, grant: nat) {
    start <= |st.runs| && (grant != 0 ==> Grantable(st.runs, grant, PagesFor(Padded(req))))
  }

  // A hint names a linked run, the page hook keeps its promise, only live blocks are handed back, and
  // clients write only inside their payloads.
  ghost predicate Legal(st: State, c: Call) {
    match c
    case Kmalloc(req, start, grant) => Promised(st, req, start, grant)
    case Kfree(b) => b in LiveBlocks(st.runs)
    case Krealloc(b, req, start, grant) =>
      && b in LiveBlocks(st.runs) && Promised(st, req, start, grant)
      && (req > b.req ==> Malloc(st.runs, start, req, grant).at != 0 || Spared(st.runs, b.req))
    case KfreeStray(_) => true
    case KreallocStray(_, req, start, grant) => Promised(st, req, start, grant)
    case Write(b, bytes) =>
      b in LiveBlocks(st.runs) && ChangedWithin(st.bytes, bytes, b.Payload(), b.Payload() + b.req)
  }

  ghost function Malloced(st: State, req: nat, start: nat, grant: nat): State
    requires start <= |st.runs|
  {
    var o := Malloc(st.runs, start, req, grant);
    State(o.runs, MallocBytes(st.bytes, o, req), st.got + Obtained(Asked(st.runs, req), req, grant), st.back)
  }

  // A growing krealloc up to the copy.
  ghost function Copied(st: State, b: Block, req: nat, start: nat, grant: nat): State
    requires start <= |st.runs|
  {
    var grown := Malloced(st, req, start, grant);
    grown.(bytes := CopiedByWords(grown.bytes, Malloc(st.runs, start, req, grant).Ptr(), b.Payload(), b.req))
  }

  ghost function FreedAt(st: State, h: nat): State {
    st.(runs := Free(st.runs, h), back := st.back + ReleasedBy(st.runs, h))
  }

  ghost function Boot(bytes: Bytes): State { State([], bytes, multiset{}, multiset{}) }

  ghost function After(st: State, c: Call): State
    requires Legal(st, c)
  {
    match c
    case Kmalloc(req, start, grant) => Malloced(st, req, start, grant)
    case Kfree(b) => FreedAt(st, b.addr)
    case Krealloc(b, req, start, grant) =>
      if req == 0 then FreedAt(st, b.addr)
      else if req <= b.req then st.(runs := Resize(st.runs, b.addr, req))
      else FreedAt(Copied(st, b, req, start, grant), b.addr)
    case KfreeStray(_) => st
    case KreallocStray(ptr, req, start, grant) => if ptr == 0 && req != 0 then Malloced(st, req, start, grant) else st
    case Write(b, bytes) => st.(bytes := bytes)
  }

  // The invariant: runs laid out and apart, none without a block, every alignment byte in place.
  ghost predicate Good(st: State) {
    Sound(st.runs) && NoEmptyRun(st.runs) && AlignBytesShow(st.bytes, st.runs)
  }

  lemma {:induction false} AlignBytesOfLive(m: Bytes, runs: seq<Run>)
    ensures AlignBytesShow(m, runs) <==> forall b: Block | b in LiveBlocks(runs) :: AlignByteShows(m, b)
  {
    if AlignBytesShow(m, runs) {
      forall b: Block | b in LiveBlocks(runs) ensures AlignByteShows(m, b) {
        var i, j := Position(runs, b);
      }
    } else {
      var i: nat, j: nat :| At(runs, i, j) && !AlignByteShows(m, runs[i].blocks[j]);
      assert runs[i].blocks[j] in LiveBlocks(runs);
    }
  }

  lemma {:induction false} MallocKeepsNoEmptyRun(runs: seq<Run>, start: nat, req: nat, grant: nat)
    requires NoEmptyRun(runs) && start <= |runs|
    ensures NoEmptyRun(Malloc(runs, start, req, grant).runs)
  {
  }

  lemma {:induction false} PayloadsDiffer(runs: seq<Run>, b: Block, c: Block)
    requires Sound(runs) && b in LiveBlocks(runs) && c in LiveBlocks(runs) && b != c
    ensures b.addr != c.addr && b.Payload() != c.Payload()
  {
    var i, j := Position(runs, b);
    var k, l := Position(runs, c);
    AlignBytesDiffer(runs, i, j, k, l);
    BlocksDisjoint(runs, i, j, k, l);
  }

  // What one kmalloc does: the invariant is kept, and every block live before keeps its payload.
  lemma {:induction false} MallocedIsGood(st: State, req: nat, start: nat, grant: nat)
    requires Good(st) && Promised(st, req, start, grant)
    ensures var now := Malloced(st, req, start, grant);
            && Good(now) && LiveBlocks(st.runs) <= LiveBlocks(now.runs)
            && forall b: Block | b in LiveBlocks(st.runs) :: SamePayload(st.bytes, now.bytes, b)
  {
    var o := Malloc(st.runs, start, req, grant);
    MallocKeepsSound(st.runs, start, req, grant);
    MallocKeepsNoEmptyRun(st.runs, start, req, grant);
    MallocAddsOneBlock(st.runs, start, req, grant);
    if o.at != 0 {
      NewBlockIsGood(st, o.runs, Block(o.at, Padded(req), req));
    }
  }

  lemma {:induction false} NewBlockIsGood(st: State, runs: seq<Run>, c: Block)
    requires Good(st) && Sound(runs) && c !in LiveBlocks(st.runs) && LiveBlocks(runs) == LiveBlocks(st.runs) + {c}
    ensures var bytes := WithAlignByte(st.bytes, c);
            && AlignBytesShow(bytes, runs)
            && forall b: Block | b in LiveBlocks(st.runs) :: SamePayload(st.bytes, bytes, b)
  {
    var bytes := WithAlignByte(st.bytes, c);
    AlignBytesOfLive(st.bytes, st.runs);
    forall b: Block | b in LiveBlocks(runs) ensures AlignByteShows(bytes, b) {
      if b == c {
        AlignByteSet(st.bytes, c);
      } else {
        PayloadsDiffer(runs, b, c);
        AlignByteKept(st.bytes, c, b);
      }
    }
    AlignBytesOfLive(bytes, runs);
    forall b: Block | b in LiveBlocks(st.runs) ensures SamePayload(st.bytes, bytes, b) {
      var i, j := Position(runs, c);
      var k, l := Position(runs, b);
      AlignByteOutsidePayloads(st.bytes, runs, i, j, k, l);
    }
  }

  lemma {:induction false} FreedIsGood(st: State, b: Block)
    requires Good(st) && b in LiveBlocks(st.runs)
    ensures Good(FreedAt(st, b.addr))
    ensures LiveBlocks(Free(st.runs, b.addr)) == LiveBlocks(st.runs) - {b}
  {
    var rs := Free(st.runs, b.addr);
    var i, j := Position(st.runs, b);
    FreeIsFreeAt(st.runs, i, j);
    FreeKeepsSound(st.runs, i, j);
    forall c: Block ensures c in LiveBlocks(rs) <==> c in LiveBlocks(st.runs) && c != b {
      FreeKeepsRest(st.runs, b.addr, c);
      if c in LiveBlocks(st.runs) && c != b { PayloadsDiffer(st.runs, b, c); }
    }
    AlignBytesOfLive(st.bytes, st.runs);
    AlignBytesOfLive(st.bytes, rs);
  }

  lemma {:induction false} ResizedIsGood(st: State, b: Block, req: nat)
    requires Good(st) && b in LiveBlocks(st.runs) && req <= b.req
    ensures Good(st.(runs := Resize(st.runs, b.addr, req)))
    ensures forall c: Block | c in LiveBlocks(st.runs) && c != b :: c in LiveBlocks(Resize(st.runs, b.addr, req))
  {
    var rs := Resize(st.runs, b.addr, req);
    var i, j := Position(st.runs, b);
    ResizeKeepsSound(st.runs, i, j, req);
    forall k: nat, l: nat | At(rs, k, l) ensures AlignByteShows(st.bytes, rs[k].blocks[l]) {
      assert At(st.runs, k, l) && AlignByteShows(st.bytes, st.runs[k].blocks[l]);
    }
    forall c: Block | c in LiveBlocks(st.runs) && c != b ensures c in LiveBlocks(rs) {
      var k, l := Position(st.runs, c);
      PayloadsDiffer(st.runs, b, c);
      assert At(rs, k, l) && rs[k].blocks[l] == c;
    }
  }

  // Growing, up to the copy: nothing is lost, the new block included.
  lemma {:induction false} CopiedIsGood(st: State, b: Block, req: nat, start: nat, grant: nat)
    requires Good(st) && b in LiveBlocks(st.runs) && req > b.req && Promised(st, req, start, grant)
    requires Malloc(st.runs, start, req, grant).at != 0 || Spared(st.runs, b.req)
    ensures var copied := Copied(st, b, req, start, grant);
            && Good(copied) && LiveBlocks(st.runs) <= LiveBlocks(copied.runs)
            && forall d: Block | d in LiveBlocks(st.runs) :: SamePayload(st.bytes, copied.bytes, d)
  {
    var o := Malloc(st.runs, start, req, grant);
    MallocedIsGood(st, req, start, grant);
    MallocAdded(st.runs, start, req, grant);
    MovedAfterMalloc(st.runs, st.bytes, req, o, MallocBytes(st.bytes, o, req), b);
  }

  // Growing: nothing but the block handed back is lost, and no other payload changes.
  lemma {:induction false} GrownIsGood(st: State, c: Call)
    requires Good(st) && Legal(st, c) && c.Krealloc? && c.req > c.b.req
    ensures Good(After(st, c))
    ensures forall d: Block | d in LiveBlocks(st.runs) && d != c.b ::
              d in LiveBlocks(After(st, c).runs) && SamePayload(st.bytes, After(st, c).bytes, d)
  {
    CopiedIsGood(st, c.b, c.req, c.start, c.grant);
    var copied := Copied(st, c.b, c.req, c.start, c.grant);
    FreedIsGood(copied, c.b);
    assert After(st, c) == FreedAt(copied, c.b.addr);
  }

  lemma {:induction false} WrittenIsGood(st: State, c: Call)
    requires Good(st) && Legal(st, c) && c.Write?
    ensures Good(After(st, c))
    ensures forall d: Block | d in LiveBlocks(st.runs) && d != c.b :: SamePayload(st.bytes, c.bytes, d)
  {
    var i, j := Position(st.runs, c.b);
    PayloadWritesAreSafe(st.bytes, c.bytes, st.runs, i, j);
    forall d: Block | d in LiveBlocks(st.runs) && d != c.b ensures SamePayload(st.bytes, c.bytes, d) {
      var k, l := Position(st.runs, d);
    }
  }

  // Only a call on the block itself frees, moves, relabels or rewrites it.
  ghost predicate Concerns(c: Call, b: Block) {
    (c.Kfree? || c.Krealloc? || c.Write?) && c.b == b
  }

  // Every call keeps the invariant, and every block it does not concern with its contents.
  lemma {:induction false} CallKeepsGood(st: State, c: Call)
    requires Good(st) && Legal(st, c)
    ensures Good(After(st, c))
    ensures forall b: Block | b in LiveBlocks(st.runs) && !Concerns(c, b) ::
              b in LiveBlocks(After(st, c).runs) && SamePayload(st.bytes, After(st, c).bytes, b)
  {
    match c
    case Kmalloc(req, start, grant) => MallocedIsGood(st, req, start, grant);
    case Kfree(b) => FreedIsGood(st, b);
    case Krealloc(b, req, start, grant) =>
      if req == 0 {
        FreedIsGood(st, b);
      } else if req <= b.req {
        ResizedIsGood(st, b, req);
      } else {
        GrownIsGood(st, c);
      }
    case KfreeStray(_) =>
    case KreallocStray(_, req, start, grant) => MallocedIsGood(st, req, start, grant);
    case Write(_, _) => WrittenIsGood(st, c);
  }

  ghost predicate LegalHistory(st: State, cs: seq<Call>)
    decreases |cs|
  {
    cs == [] || (Legal(st, cs[0]) && LegalHistory(After(st, cs[0]), cs[1..]))
  }

  ghost function Replay(st: State, cs: seq<Call>): State
    requires LegalHistory(st, cs)
    decreases |cs|
  {
    if cs == [] then st else Replay(After(st, cs[0]), cs[1..])
  }

  // Over any history a block that no call concerns stays live with its payload as it was, however the
  // others are allocated, freed, moved and written meanwhile.
  lemma {:induction false} ContentsSurvive(st: State, cs: seq<Call>, b: Block)
    requires Good(st) && LegalHistory(st, cs) && b in LiveBlocks(st.runs)
    requires forall k: nat | k < |cs| :: !Concerns(cs[k], b)
    ensures b in LiveBlocks(Replay(st, cs).runs) && SamePayload(st.bytes, Replay(st, cs).bytes, b)
    decreases |cs|
  {
    if cs != [] {
      var next := After(st, cs[0]);
      CallKeepsGood(st, cs[0]);
      ContentsSurvive(next, cs[1..], b);
      SamePayloadTransitive(st.bytes, next.bytes, Replay(st, cs).bytes, b);
    }
  }

  // Every state a legal history can reach keeps the invariant.
  lemma {:induction false} HistoryKeepsGood(st: State, cs: seq<Call>)
    requires Good(st) && LegalHistory(st, cs)
    ensures Good(Replay(st, cs))
    decreases |cs|
  {
    if cs != [] {
      CallKeepsGood(st, cs[0]);
      HistoryKeepsGood(After(st, cs[0]), cs[1..]);
    }
  }

  // Every run obtained from the page hook is still linked or was given back, once and with its own page count.
  ghost predicate Balanced(st: State) { st.got == PagesOf(st.runs) + st.back }

  lemma {:induction false} FreedIsBalanced(st: State, h: nat)
    requires Balanced(st)
    ensures Balanced(FreedAt(st, h))
  {
    FreePages(st.runs, h);
  }

  lemma {:induction false} MallocedIsBalanced(st: State, req: nat, start: nat, grant: nat)
    requires Balanced(st) && start <= |st.runs|
    ensures Balanced(Malloced(st, req, start, grant))
  {
    MallocPages(st.runs, start, req, grant);
  }

  lemma {:induction false} CallKeepsBalance(st: State, c: Call)
    requires Good(st) && Balanced(st) && Legal(st, c)
    ensures Balanced(After(st, c))
  {
    match c
    case Kmalloc(req, start, grant) => MallocedIsBalanced(st, req, start, grant);
    case Kfree(b) => FreedIsBalanced(st, b.addr);
    case Krealloc(b, req, start, grant) =>
      if req == 0 {
        FreedIsBalanced(st, b.addr);
      } else if req <= b.req {
        var i, j := Position(st.runs, b);
        ResizePages(st.runs, i, j, req);
      } else {
        MallocedIsBalanced(st, req, start, grant);
        FreedIsBalanced(Copied(st, b, req, start, grant), b.addr);
      }
    case KfreeStray(_) =>
    case KreallocStray(_, req, start, grant) => MallocedIsBalanced(st, req, start, grant);
    case Write(_, _) =>
  }

  lemma {:induction false} HistoryKeepsBalance(st: State, cs: seq<Call>)
    requires Good(st) && Balanced(st) && LegalHistory(st, cs)
    ensures Balanced(Replay(st, cs))
    decreases |cs|
  {
    if cs != [] {
      CallKeepsGood(st, cs[0]);
      CallKeepsBalance(st, cs[0]);
      HistoryKeepsBalance(After(st, cs[0]), cs[1..]);
    }
  }

  // From boot on: no live payload meets another live block or its header, the pages obtained cover the
  // bytes in use, and with no block left no page is left either.
  lemma {:induction false} EveryHistoryIsSafe(bytes: Bytes, cs: seq<Call>)
    requires LegalHistory(Boot(bytes), cs)
    ensures var last := Replay(Boot(bytes), cs);
            var runs := last.runs;
            && Sound(runs) && NoEmptyRun(runs)
            && (forall b: Block, c: Block | b in LiveBlocks(runs) && c in LiveBlocks(runs) && b != c ::
                  b.Payload() + b.req <= c.addr || c.Payload() + c.req <= b.addr)
            && InUse(runs) <= Allocated(runs)
            && last.got == PagesOf(runs) + last.back
            && (LiveBlocks(runs) == {} ==> runs == [] && last.back == last.got)
  {
    HistoryKeepsGood(Boot(bytes), cs);
    HistoryKeepsBalance(Boot(bytes), cs);
    var runs := Replay(Boot(bytes), cs).runs;
    forall b: Block, c: Block | b in LiveBlocks(runs) && c in LiveBlocks(runs) && b != c
      ensures b.Payload() + b.req <= c.addr || c.Payload() + c.req <= b.addr
    {
      var i, j := Position(runs, b);
      var k, l := Position(runs, c);
      Isolation(runs, i, j, k, l);
      Isolation(runs, k, l, i, j);
    }
    InUseWithinAllocated(runs);
    if LiveBlocks(runs) == {} { NothingLiveMeansEmpty(runs); }
  }

  // ------------------------------------------------------------ a krealloc that returns NULL

  // realloc should leave the old block alone when it cannot get a bigger one. This one returns NULL exactly
  // when no gap holds the new size and the page hook refuses, and the old block is gone then too.
  lemma {:induction false} GrowthKeepsBlockExactly(st: State, c: Call)
    requires Good(st) && Legal(st, c) && c.Krealloc? && c.req > c.b.req
    ensures var q := Malloc(st.runs, c.start, c.req, c.grant).Ptr();
            (q == 0 ==> c.b in LiveBlocks(After(st, c).runs)) <==>
            c.grant != 0 || exists i: nat :: i < |st.runs| && st.runs[i].Fits(Padded(c.req) + HEADER)
  {
    var o := Malloc(st.runs, c.start, c.req, c.grant);
    GrowsExactlyWhenNothingFits(st.runs, c.start, c.req, c.grant);
    CopiedIsGood(st, c.b, c.req, c.start, c.grant);
    FreedIsGood(Copied(st, c.b, c.req, c.start, c.grant), c.b);
  }

  lemma {:induction false} FreeOnlyBlock(r: Run, b: Block)
    requires r.blocks == [b]
    ensures Free([r], b.addr) == []
  {
    assert [b][1..] == [] && [r][1..] == [];
    assert Without([], b.addr) == [];
    assert Without(r.blocks, b.addr) == [];
  }

  lemma {:induction false} NoRoomIn(r: Run, start: nat, req: nat)
    requires start <= 1 && r.Size() < Padded(req)
    requires forall j: nat | j <= |r.blocks| :: r.Gap(j) <= r.Size()
    ensures Malloc([r], start, req, 0) == Outcome([r], 0)
  {
    GrowsExactlyWhenNothingFits([r], start, req, 0);
  }

  // From boot: one byte is allocated, then asked to grow past its run while the hook refuses. NULL comes
  // back and the heap is empty.
  lemma {:induction false} GrowthCanLoseBlock(bytes: Bytes)
    ensures var b := Block(0x100018, 33, 1);
            var first, second := Kmalloc(1, 0, 0x100000), Krealloc(b, 70000, 0, 0);
            var st := Boot(bytes);
            && Legal(st, first) && After(st, first).runs == [Run(0x100000, 16, [b])]
            && Legal(After(st, first), second) && Malloc(After(st, first).runs, 0, 70000, 0).Ptr() == 0
            && After(After(st, first), second).runs == []
  {
    var b, st := Block(0x100018, 33, 1), Boot(bytes);
    var first, r := Kmalloc(1, 0, 0x100000), Run(0x100000, 16, [b]);
    var next := After(st, first);
    assert next.runs == [r];
    assert At([r], 0, 0) && [r][0].blocks[0] == b;
    NoRoomIn(r, 0, 70000);
    FreeOnlyBlock(r, b);
  }

  // ------------------------------------------------------------ the allocator takes no other steps

  // How a call is made: the search begins at the hint the allocator holds, the size is one it can pad.
  ghost predicate MadeOn(h: Heap, st: State, c: Call)
    reads h
  {
    && h.Valid() && st.runs == h.runs && st.bytes == h.bytes && Legal(st, c)
    && (c.KfreeStray? || c.KreallocStray? ==> h.Stray(c.ptr))
    && (c.Kmalloc? || c.Krealloc? || c.KreallocStray? ==>
          c.req <= MAX_REQ && c.start == HintIndex(h.runs, h.bestBet, Padded(c.req) + HEADER))
  }

  // What is seen of a call: the heap behind it, whether it asked the page hook, and what it passed back.
  ghost function Observed(st: State, c: Call, runs: seq<Run>, bytes: Bytes, asked: nat, released: nat,
                          pages: nat): State
  {
    var got := if c.Kmalloc? || c.Krealloc? || c.KreallocStray? then Obtained(asked, c.req, c.grant) else multiset{};
    State(runs, bytes, st.got + got, st.back + TookBack(released, pages))
  }

  ghost predicate Done(h: Heap, st: State, c: Call, asked: nat, released: nat, pages: nat)
    requires Legal(st, c)
    reads h
  {
    h.Valid() && After(st, c) == Observed(st, c, h.runs, h.bytes, asked, released, pages)
  }

  lemma {:induction false} MallocIsAfter(st: State, c: Call, runs: seq<Run>, bytes: Bytes, p: nat, asked: nat)
    requires Legal(st, c) && (c.Kmalloc? || (c.KreallocStray? && c.ptr == 0 && c.req != 0))
    requires MallocDone(st.runs, st.bytes, c.start, c.req, c.grant, runs, bytes, p) && asked == Asked(st.runs, c.req)
    ensures After(st, c) == Observed(st, c, runs, bytes, asked, 0, 0)
  {
  }

  lemma {:induction false} MovedIsAfter(st: State, c: Call, runs: seq<Run>, bytes: Bytes, q: nat, asked: nat,
                                        released: nat, pages: nat)
    requires Legal(st, c) && c.Krealloc? && c.req > c.b.req
    requires Moved(st.runs, st.bytes, c.start, c.b, c.req, c.grant, runs, bytes, q)
    requires Hooked(st.runs, c.start, c.b, c.req, c.grant, asked, released, pages)
    ensures After(st, c) == Observed(st, c, runs, bytes, asked, released, pages)
  {
  }

  lemma {:induction false} FreedIsAfter(st: State, c: Call, runs: seq<Run>, released: nat, pages: nat)
    requires Legal(st, c) && (c.Kfree? || (c.Krealloc? && c.req == 0))
    requires runs == Free(st.runs, c.b.addr) && TookBack(released, pages) == ReleasedBy(st.runs, c.b.addr)
    ensures After(st, c) == Observed(st, c, runs, st.bytes, 0, released, pages)
  {
  }

  // A bad pointer, a write, or a krealloc in place: nothing passes to or from the page hook.
  lemma {:induction false} InPlaceIsAfter(st: State, c: Call, runs: seq<Run>, bytes: Bytes)
    requires Legal(st, c) && !c.Kmalloc? && !c.Kfree?
    requires c.Krealloc? ==> 0 < c.req <= c.b.req && runs == Resize(st.runs, c.b.addr, c.req) && bytes == st.bytes
    requires c.KfreeStray? || c.KreallocStray? ==> runs == st.runs && bytes == st.bytes
    requires c.KreallocStray? ==> c.ptr != 0 || c.req == 0
    requires c.Write? ==> runs == st.runs && bytes == c.bytes
    ensures After(st, c) == Observed(st, c, runs, bytes, 0, 0, 0)
  {
  }

  lemma {:induction false} LiveBlockOf(h: Heap, b: Block)
    requires h.Valid() && b in LiveBlocks(h.runs)
    ensures h.LivePtr(b.Payload()) && h.BlockOf(b.Payload()) == b && b.Payload() != 0
    ensures h.HeaderOf(b.Payload()) == b.addr && LiveAt(h.runs, b.addr)
  {
    h.HeaderOfMoved(b.Payload(), b);
    var c := h.BlockOf(b.Payload());
    if c != b { PayloadsDiffer(h.runs, b, c); }
  }

  method PerformGrowth(h: Heap, c: Call, ghost st: State) returns (asked: nat, released: nat, pages: nat)
    requires MadeOn(h, st, c) && c.Krealloc? && c.req > c.b.req
    modifies h
    ensures Done(h, st, c, asked, released, pages)
  {
    LiveBlockOf(h, c.b);
    var q;
    q, asked, released, pages := h.Krealloc(c.b.Payload(), c.req, c.grant);
    MovedIsAfter(st, c, h.runs, h.bytes, q, asked, released, pages);
  }

  method PerformShrink(h: Heap, c: Call, ghost st: State) returns (asked: nat, released: nat, pages: nat)
    requires MadeOn(h, st, c) && c.Krealloc? && c.req <= c.b.req
    modifies h
    ensures Done(h, st, c, asked, released, pages)
  {
    LiveBlockOf(h, c.b);
    var q;
    q, asked, released, pages := h.Krealloc(c.b.Payload(), c.req, c.grant);
    if c.req == 0 {
      FreedIsAfter(st, c, h.runs, released, pages);
    } else {
      InPlaceIsAfter(st, c, h.runs, h.bytes);
    }
  }

  method PerformWrite(h: Heap, c: Call, ghost st: State)
    requires MadeOn(h, st, c) && c.Write?
    modifies h
    ensures Done(h, st, c, 0, 0, 0)
  {
    WrittenIsGood(st, c);
    h.bytes := c.bytes;
    InPlaceIsAfter(st, c, h.runs, h.bytes);
  }

  method PerformKfreeStray(h: Heap, c: Call, ghost st: State) returns (released: nat, pages: nat)
    requires MadeOn(h, st, c) && c.KfreeStray?
    modifies h
    ensures Done(h, st, c, 0, released, pages)
  {
    h.StrayIsNotLive(c.ptr);
    released, pages := h.Kfree(c.ptr);
    InPlaceIsAfter(st, c, h.runs, h.bytes);
  }

  method PerformKreallocStray(h: Heap, c: Call, ghost st: State) returns (asked: nat, released: nat, pages: nat)
    requires MadeOn(h, st, c) && c.KreallocStray?
    modifies h
    ensures Done(h, st, c, asked, released, pages)
  {
    h.StrayIsNotLive(c.ptr);
    var q;
    q, asked, released, pages := h.Krealloc(c.ptr, c.req, c.grant);
    if c.ptr == 0 && c.req != 0 {
      MallocIsAfter(st, c, h.runs, h.bytes, q, asked);
    } else {
      InPlaceIsAfter(st, c, h.runs, h.bytes);
    }
  }

  method PerformKmalloc(h: Heap, c: Call, ghost st: State) returns (asked: nat)
    requires MadeOn(h, st, c) && c.Kmalloc?
    modifies h
    ensures Done(h, st, c, asked, 0, 0)
  {
    var p;
    p, asked := h.Kmalloc(c.req, c.grant);
    MallocIsAfter(st, c, h.runs, h.bytes, p, asked);
  }

  method PerformKfree(h: Heap, c: Call, ghost st: State) returns (released: nat, pages: nat)
    requires MadeOn(h, st, c) && c.Kfree?
    modifies h
    ensures Done(h, st, c, 0, released, pages)
  {
    LiveBlockOf(h, c.b);
    released, pages := h.Kfree(c.b.Payload());
    FreedIsAfter(st, c, h.runs, released, pages);
  }

  // asked, released and pages are what went to the page hook and what came back.
  method Perform(h: Heap, c: Call, ghost st: State) returns (asked: nat, released: nat, pages: nat)
    requires MadeOn(h, st, c)
    modifies h
    ensures Done(h, st, c, asked, released, pages)
  {
    asked, released, pages := 0, 0, 0;
    match c {
      case Kmalloc(_, _, _) => asked := PerformKmalloc(h, c, st);
      case Kfree(_) => released, pages := PerformKfree(h, c, st);
      case Krealloc(b, req, _, _) =>
        if req > b.req {
          asked, released, pages := PerformGrowth(h, c, st);
        } else {
          asked, released, pages := PerformShrink(h, c, st);
        }
      case KfreeStray(_) => released, pages := PerformKfreeStray(h, c, st);
      case KreallocStray(_, _, _, _) => asked, released, pages := PerformKreallocStray(h, c, st);
      case Write(_, _) => PerformWrite(h, c, st);
    }
  }
}
