/** The two header structs in memory, and how linking and unlinking a header acts on the runs. */
module HeapMemory {
  import opened HeapLayout
  import opened HeapSpec
  import opened HeapTheorems
  import opened Sums

  const MAGIC: nat := 0xc001c0de
  const DEAD: nat := 0xdeaddead

  type Byte = x: int | 0 <= x < 256

  // Pointers are addresses and NULL is 0.
  datatype MajorHeader = MajorHeader(prev: nat, next: nat, pages: nat, size: nat, usage: nat, first: nat)

  datatype MinorHeader = MinorHeader(prev: nat, next: nat, block: nat, magic: nat, size: nat, req: nat)

  // Memory read as headers or as bytes. A place never written holds some other value.
  type Majors = map<nat, MajorHeader>

  type Minors = map<nat, MinorHeader>

  type Bytes = map<nat, Byte>

  function MajorAt(m: Majors, a: nat): MajorHeader {
    if a in m then m[a] else MajorHeader(0, 0, 0, 0, 0, 0)
  }

  function MinorAt(m: Minors, a: nat): MinorHeader {
    if a in m then m[a] else MinorHeader(0, 0, 0, 0, 0, 0)
  }

  function ByteAt(m: Bytes, a: nat): Byte {
    if a in m then m[a] else 0
  }

  ghost function RunAddr(runs: seq<Run>, i: int): nat {
    if 0 <= i < |runs| then runs[i].addr else 0
  }

  ghost function BlockAddr(r: Run, j: int): nat {
    if 0 <= j < |r.blocks| then r.blocks[j].addr else 0
  }

  // The header that run i, and block j of a run, must have in memory.
  ghost function MajorOf(runs: seq<Run>, i: nat): MajorHeader
    requires i < |runs|
  {
    var r := runs[i];
    MajorHeader(RunAddr(runs, i - 1), RunAddr(runs, i + 1), r.pages, r.Size(), r.Usage(), BlockAddr(r, 0))
  }

  ghost function MinorOf(r: Run, j: nat): MinorHeader
    requires j < |r.blocks|
  {
    MinorHeader(BlockAddr(r, j - 1), BlockAddr(r, j + 1), r.addr, MAGIC, r.blocks[j].size, r.blocks[j].req)
  }

  ghost predicate MajorShows(m: Majors, runs: seq<Run>, i: nat)
    requires i < |runs|
  {
    MajorAt(m, runs[i].addr) == MajorOf(runs, i)
  }

  ghost predicate MinorShows(m: Minors, r: Run, j: nat)
    requires j < |r.blocks|
  {
    MinorAt(m, r.blocks[j].addr) == MinorOf(r, j)
  }

  ghost predicate MajorsShow(m: Majors, runs: seq<Run>) {
    forall i: nat | i < |runs| :: MajorShows(m, runs, i)
  }

  ghost predicate MinorsShow(m: Minors, runs: seq<Run>) {
    forall i: nat, j: nat | At(runs, i, j) :: MinorShows(m, runs[i], j)
  }

  // The alignment byte of every block holds the distance back to the end of its header.
  ghost predicate AlignBytesShow(m: Bytes, runs: seq<Run>) {
    forall i: nat, j: nat | At(runs, i, j) :: AlignByteShows(m, runs[i].blocks[j])
  }

  ghost predicate AlignByteShows(m: Bytes, b: Block) {
    ByteAt(m, b.Payload() - ALIGN_INFO) == b.Payload() - b.Body()
  }

  // ------------------------------------------------------------ linking a minor

  ghost function Linked(m: Minors, r: Run, j: nat, b: Block): Minors
    requires j <= |r.blocks|
  {
    var m := m[b.addr := MinorHeader(BlockAddr(r, j - 1), BlockAddr(r, j), r.addr, MAGIC, b.size, b.req)];
    var m := if j > 0 then m[r.blocks[j - 1].addr := MinorAt(m, r.blocks[j - 1].addr).(next := b.addr)] else m;
    if j < |r.blocks| then m[r.blocks[j].addr := MinorAt(m, r.blocks[j].addr).(prev := b.addr)] else m
  }

  // Which headers one more block changes: its neighbours' links, and nothing else.
  lemma {:induction false} PlacedHeaders(r: Run, j: nat, size: nat, req: nat, l: nat)
    requires j <= |r.blocks| && l <= |r.blocks|
    ensures var r', a := PlaceAt(r, j, size, req), r.GapStart(j);
            && r'.blocks[l] == (if l < j then r.blocks[l] else if l == j then Block(a, size, req) else r.blocks[l - 1])
            && MinorOf(r', l) ==
               if l == j then MinorHeader(BlockAddr(r, j - 1), BlockAddr(r, j), r.addr, MAGIC, size, req)
               else if l == j - 1 then MinorOf(r, l).(next := a)
               else if l == j + 1 then MinorOf(r, j).(prev := a)
               else if l < j then MinorOf(r, l)
               else MinorOf(r, l - 1)
  {
  }

  lemma {:induction false} LinkedAt(m: Minors, r: Run, j: nat, b: Block, a: nat)
    requires r.Laid() && j <= |r.blocks| && b.addr == r.GapStart(j) && b.End() <= r.GapEnd(j)
    ensures MinorAt(Linked(m, r, j, b), a) ==
            if a == b.addr then MinorHeader(BlockAddr(r, j - 1), BlockAddr(r, j), r.addr, MAGIC, b.size, b.req)
            else if j > 0 && a == r.blocks[j - 1].addr then MinorAt(m, a).(next := b.addr)
            else if j < |r.blocks| && a == r.blocks[j].addr then MinorAt(m, a).(prev := b.addr)
            else MinorAt(m, a)
  {
  }

  lemma {:induction false} AddressOrder(r: Run, k: nat, l: nat)
    requires r.Laid() && k <= |r.blocks| && l < |r.blocks|
    ensures l < k ==> r.blocks[l].addr < r.GapStart(k)
    ensures k <= l ==> r.GapEnd(k) <= r.blocks[l].addr
    ensures k < |r.blocks| && k < l ==> r.blocks[k].addr < r.blocks[l].addr
    ensures k < |r.blocks| && l < k ==> r.blocks[l].addr < r.blocks[k].addr
  {
  }

  lemma {:induction false} LinkedOld(m: Minors, r: Run, j: nat, b: Block, k: nat)
    requires r.Laid() && j <= |r.blocks| && b.addr == r.GapStart(j) && b.End() <= r.GapEnd(j)
    requires k < |r.blocks| && MinorAt(m, r.blocks[k].addr) == MinorOf(r, k)
    ensures MinorAt(Linked(m, r, j, b), r.blocks[k].addr) ==
            if k == j - 1 then MinorOf(r, k).(next := b.addr)
            else if k == j then MinorOf(r, k).(prev := b.addr)
            else MinorOf(r, k)
  {
    LinkedAt(m, r, j, b, r.blocks[k].addr);
    AddressOrder(r, j, k);
    if j > 0 { AddressOrder(r, j - 1, k); }
  }

  lemma {:induction false} LinkedInRun(m: Minors, r: Run, j: nat, size: nat, req: nat, l: nat)
    requires r.Laid() && j <= |r.blocks| && r.Gap(j) >= size + HEADER && l <= |r.blocks|
    requires l < j ==> MinorAt(m, r.blocks[l].addr) == MinorOf(r, l)
    requires l > j ==> MinorAt(m, r.blocks[l - 1].addr) == MinorOf(r, l - 1)
    ensures var r', b := PlaceAt(r, j, size, req), Block(r.GapStart(j), size, req);
            MinorAt(Linked(m, r, j, b), r'.blocks[l].addr) == MinorOf(r', l)
  {
    var b := Block(r.GapStart(j), size, req);
    PlacedHeaders(r, j, size, req, l);
    if l == j {
      LinkedAt(m, r, j, b, b.addr);
    } else {
      LinkedOld(m, r, j, b, if l < j then l else l - 1);
    }
  }

  // No header of another run is touched.
  lemma {:induction false} LinkedElsewhere(m: Minors, r: Run, j: nat, b: Block, a: nat)
    requires j <= |r.blocks|
    requires a != b.addr && (forall k: nat | k < |r.blocks| :: r.blocks[k].addr != a)
    ensures MinorAt(Linked(m, r, j, b), a) == MinorAt(m, a)
  {
  }

  lemma {:induction false} OutsideOtherRuns(runs: seq<Run>, i: nat, k: nat, l: nat)
    requires Sound(runs) && At(runs, k, l) && i < |runs| && i != k
    ensures var a := runs[k].blocks[l].addr; a < runs[i].addr || runs[i].End() <= a
  {
    assert RunSound(runs, i) && Apart(runs[i], runs[k]) && RunSound(runs, k);
  }

  // Linking a block into a gap makes memory show the runs with that block placed.
  lemma {:induction false} LinkedShows(m: Minors, runs: seq<Run>, i: nat, j: nat, size: nat, req: nat)
    requires Sound(runs) && MinorsShow(m, runs) && i < |runs| && j <= |runs[i].blocks|
    requires runs[i].Gap(j) >= size + HEADER
    ensures MinorsShow(Linked(m, runs[i], j, Block(runs[i].GapStart(j), size, req)),
                       runs[i := PlaceAt(runs[i], j, size, req)])
  {
    var r := runs[i];
    var b := Block(r.GapStart(j), size, req);
    var m' := Linked(m, r, j, b);
    var rs := runs[i := PlaceAt(r, j, size, req)];
    assert RunSound(runs, i);
    assert r.addr + HEADER <= b.addr && b.End() <= r.GapEnd(j) <= r.End();
    forall k: nat, l: nat | At(rs, k, l) ensures MinorShows(m', rs[k], l) {
      if k == i {
        if l < j { assert At(runs, i, l) && MinorShows(m, r, l); }
        if l > j { assert At(runs, i, l - 1) && MinorShows(m, r, l - 1); }
        LinkedInRun(m, r, j, size, req, l);
      } else {
        assert MinorShows(m, runs[k], l);
        OutsideOtherRuns(runs, i, k, l);
        LinkedElsewhere(m, r, j, b, runs[k].blocks[l].addr);
      }
    }
  }

  // ------------------------------------------------------------ unlinking a minor

  ghost function Unlinked(m: Minors, r: Run, j: nat): Minors
    requires j < |r.blocks|
  {
    var a := r.blocks[j].addr;
    var m := m[a := MinorAt(m, a).(magic := DEAD)];
    var m := if j + 1 < |r.blocks| then
               m[r.blocks[j + 1].addr := MinorAt(m, r.blocks[j + 1].addr).(prev := BlockAddr(r, j - 1))] else m;
    if j > 0 then m[r.blocks[j - 1].addr := MinorAt(m, r.blocks[j - 1].addr).(next := BlockAddr(r, j + 1))] else m
  }

  function Dropped(r: Run, j: nat): Run
    requires j < |r.blocks|
  {
    r.(blocks := r.blocks[..j] + r.blocks[j + 1..])
  }

  lemma {:induction false} DroppedHeaders(r: Run, j: nat, l: nat)
    requires j < |r.blocks| && l < |r.blocks| - 1
    ensures var r' := Dropped(r, j);
            && r'.blocks[l] == (if l < j then r.blocks[l] else r.blocks[l + 1])
            && MinorOf(r', l) ==
               if l == j - 1 then MinorOf(r, l).(next := BlockAddr(r, j + 1))
               else if l == j then MinorOf(r, l + 1).(prev := BlockAddr(r, j - 1))
               else if l < j then MinorOf(r, l)
               else MinorOf(r, l + 1)
  {
  }

  lemma {:induction false} UnlinkedOld(m: Minors, r: Run, j: nat, k: nat)
    requires j < |r.blocks| && k < |r.blocks| && k != j && MinorAt(m, r.blocks[k].addr) == MinorOf(r, k)
    requires forall l: nat | l < |r.blocks| && l != k :: r.blocks[l].addr != r.blocks[k].addr
    ensures MinorAt(Unlinked(m, r, j), r.blocks[k].addr) ==
            if k == j - 1 then MinorOf(r, k).(next := BlockAddr(r, j + 1))
            else if k == j + 1 then MinorOf(r, k).(prev := BlockAddr(r, j - 1))
            else MinorOf(r, k)
  {
  }

  lemma {:induction false} UnlinkedElsewhere(m: Minors, r: Run, j: nat, a: nat)
    requires j < |r.blocks|
    requires forall k: nat | k < |r.blocks| :: r.blocks[k].addr != a
    ensures MinorAt(Unlinked(m, r, j), a) == MinorAt(m, a)
  {
  }

  lemma {:induction false} UnlinkedInRun(m: Minors, r: Run, j: nat, l: nat)
    requires r.Laid() && j < |r.blocks| && l < |r.blocks| - 1
    requires var k := if l < j then l else l + 1; MinorAt(m, r.blocks[k].addr) == MinorOf(r, k)
    ensures MinorAt(Unlinked(m, r, j), Dropped(r, j).blocks[l].addr) == MinorOf(Dropped(r, j), l)
  {
    var k := if l < j then l else l + 1;
    DroppedHeaders(r, j, l);
    forall o: nat | o < |r.blocks| && o != k ensures r.blocks[o].addr != r.blocks[k].addr {
      AddressOrder(r, k, o);
    }
    UnlinkedOld(m, r, j, k);
  }

  lemma {:induction false} UnlinkedShows(m: Minors, runs: seq<Run>, i: nat, j: nat)
    requires Sound(runs) && MinorsShow(m, runs) && At(runs, i, j)
    ensures MinorsShow(Unlinked(m, runs[i], j), runs[i := Dropped(runs[i], j)])
  {
    var r := runs[i];
    var rs := runs[i := Dropped(r, j)];
    assert RunSound(runs, i);
    forall k: nat, l: nat | At(rs, k, l) ensures MinorShows(Unlinked(m, r, j), rs[k], l) {
      if k == i {
        assert At(runs, i, if l < j then l else l + 1) && MinorShows(m, r, if l < j then l else l + 1);
        UnlinkedInRun(m, r, j, l);
      } else {
        assert MinorShows(m, runs[k], l);
        OutsideOtherRuns(runs, i, k, l);
        UnlinkedElsewhere(m, r, j, runs[k].blocks[l].addr);
      }
    }
  }

  // ------------------------------------------------------------ majors

  lemma {:induction false} RunAddrsDiffer(runs: seq<Run>, i: nat, k: nat)
    requires Sound(runs) && i < |runs| && k < |runs| && i != k
    ensures runs[i].addr != runs[k].addr
  {
    assert RunSound(runs, i) && Apart(runs[i], runs[k]) && RunSound(runs, i) && RunSound(runs, k);
  }

  lemma {:induction false} UpdatedHeaders(runs: seq<Run>, i: nat, r: Run, k: nat)
    requires i < |runs| && r.addr == runs[i].addr && k < |runs| && k != i
    ensures MajorOf(runs[i := r], k) == MajorOf(runs, k)
  {
    var rs := runs[i := r];
    assert RunAddr(rs, k - 1) == RunAddr(runs, k - 1) && RunAddr(rs, k + 1) == RunAddr(runs, k + 1);
  }

  lemma {:induction false} MajorUpdated(m: Majors, runs: seq<Run>, i: nat, r: Run)
    requires Sound(runs) && MajorsShow(m, runs) && i < |runs| && r.addr == runs[i].addr
    ensures MajorsShow(m[r.addr := MajorOf(runs[i := r], i)], runs[i := r])
  {
    var rs := runs[i := r];
    var m' := m[r.addr := MajorOf(rs, i)];
    forall k: nat | k < |rs| ensures MajorShows(m', rs, k) {
      if k != i {
        assert MajorShows(m, runs, k);
        RunAddrsDiffer(runs, i, k);
        UpdatedHeaders(runs, i, r, k);
      }
    }
  }

  ghost function MajorAppended(m: Majors, runs: seq<Run>, r: Run): Majors {
    var m := m[r.addr := MajorHeader(RunAddr(runs, |runs| - 1), 0, r.pages, r.Size(), r.Usage(), BlockAddr(r, 0))];
    if runs == [] then m
    else m[runs[|runs| - 1].addr := MajorAt(m, runs[|runs| - 1].addr).(next := r.addr)]
  }

  lemma {:induction false} AppendedHeaders(runs: seq<Run>, r: Run, k: nat)
    requires k < |runs|
    ensures MajorOf(runs + [r], k) == if k == |runs| - 1 then MajorOf(runs, k).(next := r.addr) else MajorOf(runs, k)
  {
    var rs := runs + [r];
    assert RunAddr(rs, k - 1) == RunAddr(runs, k - 1);
    assert RunAddr(rs, k + 1) == if k == |runs| - 1 then r.addr else RunAddr(runs, k + 1);
  }

  lemma {:induction false} MajorAppendedAt(m: Majors, runs: seq<Run>, r: Run, k: nat)
    requires k < |runs| && MajorAt(m, runs[k].addr) == MajorOf(runs, k) && runs[k].addr != r.addr
    requires forall l: nat | l < |runs| && l != k :: runs[l].addr != runs[k].addr
    ensures MajorAt(MajorAppended(m, runs, r), runs[k].addr) ==
            if k == |runs| - 1 then MajorOf(runs, k).(next := r.addr) else MajorOf(runs, k)
  {
  }

  lemma {:induction false} MajorAppendedShows(m: Majors, runs: seq<Run>, r: Run)
    requires Sound(runs) && MajorsShow(m, runs) && (forall l: nat | l < |runs| :: runs[l].addr != r.addr)
    ensures MajorsShow(MajorAppended(m, runs, r), runs + [r])
  {
    var rs := runs + [r];
    var m' := MajorAppended(m, runs, r);
    forall k: nat | k < |rs| ensures MajorShows(m', rs, k) {
      if k < |runs| {
        assert rs[k] == runs[k] && MajorShows(m, runs, k);
        forall o: nat | o < |runs| && o != k ensures runs[o].addr != runs[k].addr {
          RunAddrsDiffer(runs, o, k);
        }
        MajorAppendedAt(m, runs, r, k);
        AppendedHeaders(runs, r, k);
      } else {
        assert RunAddr(rs, k - 1) == RunAddr(runs, |runs| - 1) && RunAddr(rs, k + 1) == 0;
        assert runs != [] ==> runs[|runs| - 1].addr != r.addr;
      }
    }
  }

  ghost function MajorUnlinked(m: Majors, runs: seq<Run>, i: nat): Majors
    requires i < |runs|
  {
    var m := if i > 0 then m[runs[i - 1].addr := MajorAt(m, runs[i - 1].addr).(next := RunAddr(runs, i + 1))] else m;
    if i + 1 < |runs| then m[runs[i + 1].addr := MajorAt(m, runs[i + 1].addr).(prev := RunAddr(runs, i - 1))] else m
  }

  lemma {:induction false} MajorUnlinkedAt(m: Majors, runs: seq<Run>, i: nat, k: nat)
    requires i < |runs| && k < |runs| && k != i && MajorAt(m, runs[k].addr) == MajorOf(runs, k)
    requires forall l: nat | l < |runs| && l != k :: runs[l].addr != runs[k].addr
    ensures MajorAt(MajorUnlinked(m, runs, i), runs[k].addr) ==
            if k == i - 1 then MajorOf(runs, k).(next := RunAddr(runs, i + 1))
            else if k == i + 1 then MajorOf(runs, k).(prev := RunAddr(runs, i - 1))
            else MajorOf(runs, k)
  {
  }

  lemma {:induction false} RemovedHeaders(runs: seq<Run>, i: nat, k: nat)
    requires i < |runs| && k < |runs| - 1
    ensures var rs := runs[..i] + runs[i + 1..];
            var l := if k < i then k else k + 1;
            && rs[k] == runs[l]
            && MajorOf(rs, k) ==
               if l == i - 1 then MajorOf(runs, l).(next := RunAddr(runs, i + 1))
               else if l == i + 1 then MajorOf(runs, l).(prev := RunAddr(runs, i - 1))
               else MajorOf(runs, l)
  {
    var rs := runs[..i] + runs[i + 1..];
    var l := if k < i then k else k + 1;
    assert RunAddr(rs, k - 1) == if l == i + 1 then RunAddr(runs, i - 1) else RunAddr(runs, l - 1);
    assert RunAddr(rs, k + 1) == if l == i - 1 then RunAddr(runs, i + 1) else RunAddr(runs, l + 1);
  }

  lemma {:induction false} MajorUnlinkedShows(m: Majors, runs: seq<Run>, i: nat)
    requires Sound(runs) && MajorsShow(m, runs) && i < |runs|
    ensures MajorsShow(MajorUnlinked(m, runs, i), runs[..i] + runs[i + 1..])
  {
    var rs := runs[..i] + runs[i + 1..];
    var m' := MajorUnlinked(m, runs, i);
    forall k: nat | k < |rs| ensures MajorShows(m', rs, k) {
      var l := if k < i then k else k + 1;
      assert MajorShows(m, runs, l);
      forall o: nat | o < |runs| && o != l ensures runs[o].addr != runs[l].addr {
        RunAddrsDiffer(runs, o, l);
      }
      RemovedHeaders(runs, i, k);
      MajorUnlinkedAt(m, runs, i, l);
    }
  }

  // ------------------------------------------------------------ one block placed, all of memory

  datatype Memory = Memory(majors: Majors, minors: Minors, bytes: Bytes)

  ghost predicate Shows(m: Memory, runs: seq<Run>) {
    match m
    case Memory(majors, minors, bytes) =>
      MajorsShow(majors, runs) && MinorsShow(minors, runs) && AlignBytesShow(bytes, runs)
  }


  // ALIGN's write: how far the payload was moved, just in front of it.
  ghost function WithAlignByte(m: Bytes, b: Block): Bytes {
    m[b.Payload() - ALIGN_INFO := b.Payload() - b.Body()]
  }

  lemma {:induction false} AlignBytesDiffer(runs: seq<Run>, i: nat, j: nat, k: nat, l: nat)
    requires Sound(runs) && At(runs, i, j) && At(runs, k, l) && (i, j) != (k, l)
    ensures runs[i].blocks[j].Payload() != runs[k].blocks[l].Payload()
  {
    BlocksDisjoint(runs, i, j, k, l);
    assert RunSound(runs, i) && RunSound(runs, k);
  }

  lemma {:induction false} AlignByteSet(m: Bytes, b: Block)
    ensures AlignByteShows(WithAlignByte(m, b), b)
  {
  }

  lemma {:induction false} AlignByteKept(m: Bytes, b: Block, c: Block)
    requires b.Payload() != c.Payload() && AlignByteShows(m, c)
    ensures AlignByteShows(WithAlignByte(m, b), c)
  {
  }

  // Writing the alignment byte of block (i, j) disturbs no other block's.
  lemma {:induction false} AlignByteWritten(m: Bytes, runs: seq<Run>, i: nat, j: nat)
    requires Sound(runs) && At(runs, i, j)
    requires forall k: nat, l: nat | At(runs, k, l) && (k, l) != (i, j) :: AlignByteShows(m, runs[k].blocks[l])
    ensures AlignBytesShow(WithAlignByte(m, runs[i].blocks[j]), runs)
  {
    var b := runs[i].blocks[j];
    AlignByteSet(m, b);
    forall k: nat, l: nat | At(runs, k, l) && (k, l) != (i, j)
      ensures AlignByteShows(WithAlignByte(m, b), runs[k].blocks[l])
    {
      AlignBytesDiffer(runs, i, j, k, l);
      AlignByteKept(m, b, runs[k].blocks[l]);
    }
  }

  lemma {:induction false} PlacedAlignByte(m: Bytes, runs: seq<Run>, i: nat, j: nat, size: nat, req: nat)
    requires Sound(runs) && AlignBytesShow(m, runs) && i < |runs| && j <= |runs[i].blocks|
    requires runs[i].Gap(j) >= size + HEADER && size == Padded(req)
    ensures var b := Block(runs[i].GapStart(j), size, req);
            AlignBytesShow(WithAlignByte(m, b), runs[i := PlaceAt(runs[i], j, size, req)])
  {
    var r := runs[i];
    var rs := runs[i := PlaceAt(r, j, size, req)];
    assert RunSound(runs, i);
    PlaceKeepsLaid(r, j, size, req);
    UpdateKeepsSound(runs, i, rs[i]);
    forall k: nat, l: nat | At(rs, k, l) && (k, l) != (i, j) ensures AlignByteShows(m, rs[k].blocks[l]) {
      var o := if k == i && l >= j then l - 1 else l;
      assert At(runs, k, o);
      if k == i { PlacedHeaders(r, j, size, req, l); }
      assert rs[k].blocks[l] == runs[k].blocks[o];
    }
    PlacedHeaders(r, j, size, req, j);
    AlignByteWritten(m, rs, i, j);
  }

  ghost function PlacedMajor(m: Majors, r: Run, j: nat, size: nat): Majors
    requires j <= |r.blocks|
  {
    var h := MajorAt(m, r.addr);
    m[r.addr := h.(usage := h.usage + size + HEADER, first := if j == 0 then r.GapStart(0) else h.first)]
  }

  lemma {:induction false} PlacedMajorHeader(runs: seq<Run>, i: nat, j: nat, size: nat, req: nat)
    requires i < |runs| && j <= |runs[i].blocks|
    ensures var r := runs[i];
            MajorOf(runs[i := PlaceAt(r, j, size, req)], i) ==
            MajorOf(runs, i).(usage := r.Usage() + size + HEADER,
                              first := if j == 0 then r.GapStart(0) else BlockAddr(r, 0))
  {
    var r := runs[i];
    var rs := runs[i := PlaceAt(r, j, size, req)];
    PlaceTotals(runs, i, j, size, req);
    assert RunAddr(rs, i - 1) == RunAddr(runs, i - 1) && RunAddr(rs, i + 1) == RunAddr(runs, i + 1);
  }

  lemma {:induction false} PlacedMajorShows(m: Majors, runs: seq<Run>, i: nat, j: nat, size: nat, req: nat)
    requires Sound(runs) && MajorsShow(m, runs) && i < |runs| && j <= |runs[i].blocks|
    ensures MajorsShow(PlacedMajor(m, runs[i], j, size), runs[i := PlaceAt(runs[i], j, size, req)])
  {
    var r' := PlaceAt(runs[i], j, size, req);
    PlacedMajorHeader(runs, i, j, size, req);
    assert PlacedMajor(m, runs[i], j, size) == m[r'.addr := MajorOf(runs[i := r'], i)] by {
      assert MajorShows(m, runs, i);
    }
    MajorUpdated(m, runs, i, r');
  }

  lemma {:induction false} PlacedShows(majors: Majors, minors: Minors, bytes: Bytes, runs: seq<Run>,
                                       i: nat, j: nat, size: nat, req: nat)
    requires Sound(runs) && Shows(Memory(majors, minors, bytes), runs) && i < |runs| && j <= |runs[i].blocks|
    requires runs[i].Gap(j) >= size + HEADER && size == Padded(req)
    ensures var b := Block(runs[i].GapStart(j), size, req);
            Shows(Memory(PlacedMajor(majors, runs[i], j, size), Linked(minors, runs[i], j, b), WithAlignByte(bytes, b)),
                  runs[i := PlaceAt(runs[i], j, size, req)])
  {
    PlacedMajorShows(majors, runs, i, j, size, req);
    LinkedShows(minors, runs, i, j, size, req);
    PlacedAlignByte(bytes, runs, i, j, size, req);
  }

  // ------------------------------------------------------------ one block dropped, all of memory

  ghost function DroppedMajor(m: Majors, r: Run, j: nat): Majors
    requires j < |r.blocks|
  {
    var h := MajorAt(m, r.addr);
    var usage := if h.usage >= Footprint(r.blocks[j]) then h.usage - Footprint(r.blocks[j]) else 0;
    m[r.addr := h.(usage := usage, first := if j == 0 then BlockAddr(r, 1) else h.first)]
  }

  lemma {:induction false} DroppedUsage(r: Run, j: nat)
    requires j < |r.blocks|
    ensures Dropped(r, j).Usage() == r.Usage() - Footprint(r.blocks[j])
    ensures RunInUse(Dropped(r, j)) == RunInUse(r) - r.blocks[j].size
  {
    SumRemove(r.blocks, j, Footprint);
    SumRemove(r.blocks, j, BlockSize);
  }

  lemma {:induction false} DroppedMajorHeader(runs: seq<Run>, i: nat, j: nat)
    requires At(runs, i, j)
    ensures var r := runs[i];
            r.Usage() >= Footprint(r.blocks[j])
            && MajorOf(runs[i := Dropped(r, j)], i) ==
               MajorOf(runs, i).(usage := r.Usage() - Footprint(r.blocks[j]),
                                 first := if j == 0 then BlockAddr(r, 1) else BlockAddr(r, 0))
  {
    var r := runs[i];
    var rs := runs[i := Dropped(r, j)];
    DroppedUsage(r, j);
    assert RunAddr(rs, i - 1) == RunAddr(runs, i - 1) && RunAddr(rs, i + 1) == RunAddr(runs, i + 1);
  }

  lemma {:induction false} DroppedMajorShows(m: Majors, runs: seq<Run>, i: nat, j: nat)
    requires Sound(runs) && MajorsShow(m, runs) && At(runs, i, j)
    ensures MajorsShow(DroppedMajor(m, runs[i], j), runs[i := Dropped(runs[i], j)])
  {
    var r' := Dropped(runs[i], j);
    DroppedMajorHeader(runs, i, j);
    assert DroppedMajor(m, runs[i], j) == m[r'.addr := MajorOf(runs[i := r'], i)] by {
      assert MajorShows(m, runs, i);
    }
    MajorUpdated(m, runs, i, r');
  }

  lemma {:induction false} DroppedKeepsSound(runs: seq<Run>, i: nat, j: nat)
    requires Sound(runs) && At(runs, i, j)
    ensures Sound(runs[i := Dropped(runs[i], j)])
  {
    var r := runs[i];
    var r' := Dropped(r, j);
    assert RunSound(runs, i);
    assert forall k: nat | k < |r'.blocks| :: r'.blocks[k] == r.blocks[if k < j then k else k + 1];
    UpdateKeepsSound(runs, i, r');
  }

  lemma {:induction false} DroppedShows(majors: Majors, minors: Minors, bytes: Bytes, runs: seq<Run>, i: nat, j: nat)
    requires Sound(runs) && Shows(Memory(majors, minors, bytes), runs) && At(runs, i, j)
    ensures Shows(Memory(DroppedMajor(majors, runs[i], j), Unlinked(minors, runs[i], j), bytes),
                  runs[i := Dropped(runs[i], j)])
  {
    DroppedMajorShows(majors, runs, i, j);
    UnlinkedShows(minors, runs, i, j);
    var rs := runs[i := Dropped(runs[i], j)];
    forall k: nat, l: nat | At(rs, k, l) ensures AlignByteShows(bytes, rs[k].blocks[l]) {
      assert At(runs, k, if k == i && l >= j then l + 1 else l);
    }
  }

  lemma {:induction false} RemovedShows(majors: Majors, minors: Minors, bytes: Bytes, runs: seq<Run>, i: nat)
    requires Sound(runs) && Shows(Memory(majors, minors, bytes), runs) && i < |runs|
    ensures Shows(Memory(MajorUnlinked(majors, runs, i), minors, bytes), runs[..i] + runs[i + 1..])
  {
    MajorUnlinkedShows(majors, runs, i);
    var rs := runs[..i] + runs[i + 1..];
    forall k: nat, l: nat | At(rs, k, l)
      ensures MinorShows(minors, rs[k], l) && AlignByteShows(bytes, rs[k].blocks[l])
    {
      assert At(runs, if k < i then k else k + 1, l);
    }
  }

  lemma {:induction false} AppendedShows(majors: Majors, minors: Minors, bytes: Bytes, runs: seq<Run>, r: Run)
    requires Sound(runs) && Sound(runs + [r]) && Shows(Memory(majors, minors, bytes), runs) && r.blocks == []
    ensures Shows(Memory(MajorAppended(majors, runs, r), minors, bytes), runs + [r])
  {
    var rs := runs + [r];
    forall k: nat | k < |runs| ensures runs[k].addr != r.addr {
      RunAddrsDiffer(rs, k, |runs|);
    }
    MajorAppendedShows(majors, runs, r);
    forall k: nat, l: nat | At(rs, k, l)
      ensures MinorShows(minors, rs[k], l) && AlignByteShows(bytes, rs[k].blocks[l])
    {
      assert At(runs, k, l);
    }
  }

  // ------------------------------------------------------------ one block relabelled, all of memory

  ghost function Relabeled(r: Run, j: nat, req: nat): Run
    requires j < |r.blocks|
  {
    r.(blocks := r.blocks[j := r.blocks[j].(req := req)])
  }

  lemma {:induction false} RelabeledTotals(r: Run, j: nat, req: nat)
    requires j < |r.blocks|
    ensures Relabeled(r, j, req).Usage() == r.Usage() && RunInUse(Relabeled(r, j, req)) == RunInUse(r)
  {
    SumUpdate(r.blocks, j, r.blocks[j].(req := req), Footprint);
    SumUpdate(r.blocks, j, r.blocks[j].(req := req), BlockSize);
  }

  lemma {:induction false} RelabeledHeaders(r: Run, j: nat, req: nat, l: nat)
    requires j < |r.blocks| && l < |r.blocks|
    ensures var r' := Relabeled(r, j, req);
            && r'.blocks[l].addr == r.blocks[l].addr && r'.blocks[l].Payload() == r.blocks[l].Payload()
            && MinorOf(r', l) == if l == j then MinorOf(r, l).(req := req) else MinorOf(r, l)
  {
    var r' := Relabeled(r, j, req);
    assert BlockAddr(r', l - 1) == BlockAddr(r, l - 1) && BlockAddr(r', l + 1) == BlockAddr(r, l + 1);
  }

  lemma {:induction false} RelabeledMajors(m: Majors, runs: seq<Run>, i: nat, j: nat, req: nat)
    requires Sound(runs) && MajorsShow(m, runs) && At(runs, i, j)
    ensures MajorsShow(m, runs[i := Relabeled(runs[i], j, req)])
  {
    var r' := Relabeled(runs[i], j, req);
    var rs := runs[i := r'];
    RelabeledTotals(runs[i], j, req);
    assert BlockAddr(r', 0) == BlockAddr(runs[i], 0);
    forall k: nat | k < |rs| ensures MajorShows(m, rs, k) {
      assert MajorShows(m, runs, k);
      assert RunAddr(rs, k - 1) == RunAddr(runs, k - 1) && RunAddr(rs, k + 1) == RunAddr(runs, k + 1);
    }
  }

  lemma {:induction false} ResizedShows(majors: Majors, minors: Minors, bytes: Bytes, runs: seq<Run>,
                                        i: nat, j: nat, req: nat)
    requires Sound(runs) && Shows(Memory(majors, minors, bytes), runs) && At(runs, i, j)
    ensures var a := runs[i].blocks[j].addr;
            Shows(Memory(majors, minors[a := MinorAt(minors, a).(req := req)], bytes), Resize(runs, a, req))
  {
    var a := runs[i].blocks[j].addr;
    var m' := minors[a := MinorAt(minors, a).(req := req)];
    var rs := runs[i := Relabeled(runs[i], j, req)];
    ResizeAt(runs, i, j, req);
    RelabeledMajors(majors, runs, i, j, req);
    AddressesUnique(runs, i, j);
    forall k: nat, l: nat | At(rs, k, l)
      ensures MinorShows(m', rs[k], l) && AlignByteShows(bytes, rs[k].blocks[l])
    {
      assert At(runs, k, l) && MinorShows(minors, runs[k], l) && AlignByteShows(bytes, runs[k].blocks[l]);
      if k == i { RelabeledHeaders(runs[i], j, req, l); }
    }
  }

  // ------------------------------------------------------------ where header writes go

  ghost predicate RunStartsAt(runs: seq<Run>, a: nat) {
    exists i: nat :: i < |runs| && runs[i].addr == a
  }

  // Placing a block writes the header of its run and those of blocks of that run, the new one included.
  lemma {:induction false} PlacingWrites(majors: Majors, minors: Minors, runs: seq<Run>, i: nat, j: nat,
                                         size: nat, req: nat, a: nat)
    requires i < |runs| && j <= |runs[i].blocks|
    ensures var rs := runs[i := PlaceAt(runs[i], j, size, req)];
            && (MajorAt(PlacedMajor(majors, runs[i], j, size), a) != MajorAt(majors, a) ==> RunStartsAt(rs, a))
            && (MinorAt(Linked(minors, runs[i], j, Block(runs[i].GapStart(j), size, req)), a) != MinorAt(minors, a)
                ==> LiveAt(rs, a))
  {
    var r := runs[i];
    var rs := runs[i := PlaceAt(r, j, size, req)];
    PlacedBlocks(r, j, size, req, j);
    assert rs[i].addr == r.addr && At(rs, i, j);
    if j > 0 {
      PlacedBlocks(r, j, size, req, j - 1);
      assert At(rs, i, j - 1);
    }
    if j < |r.blocks| {
      PlacedBlocks(r, j, size, req, j + 1);
      assert At(rs, i, j + 1);
    }
  }

  // Dropping a block writes the header of its run and those of blocks of that run, the dropped one included.
  lemma {:induction false} DroppingWrites(majors: Majors, minors: Minors, runs: seq<Run>, i: nat, j: nat, a: nat)
    requires At(runs, i, j)
    ensures MajorAt(DroppedMajor(majors, runs[i], j), a) != MajorAt(majors, a) ==> RunStartsAt(runs, a)
    ensures MinorAt(Unlinked(minors, runs[i], j), a) != MinorAt(minors, a) ==> LiveAt(runs, a)
  {
    var n := |runs[i].blocks|;
    assert (j > 0 ==> At(runs, i, j - 1)) && (j + 1 < n ==> At(runs, i, j + 1));
  }

  // Linking a new run and unlinking an empty one write headers of runs only.
  lemma {:induction false} RunLinkingWrites(majors: Majors, runs: seq<Run>, r: Run, i: nat, a: nat)
    requires i < |runs|
    ensures MajorAt(MajorAppended(majors, runs, r), a) != MajorAt(majors, a) ==> RunStartsAt(runs + [r], a)
    ensures MajorAt(MajorUnlinked(majors, runs, i), a) != MajorAt(majors, a) ==> RunStartsAt(runs, a)
  {
    assert (runs + [r])[|runs|] == r && (runs + [r])[|runs| - 1] == runs[|runs| - 1];
  }

  // The 24 bytes of such a header meet no payload and no alignment byte of any block.
  lemma {:induction false} HeadersMissPayloads(runs: seq<Run>, a: nat, k: nat, l: nat)
    requires Sound(runs) && At(runs, k, l) && (RunStartsAt(runs, a) || LiveAt(runs, a))
    ensures var b := runs[k].blocks[l];
            a + HEADER <= b.Payload() - ALIGN_INFO || b.Payload() + b.req <= a
  {
    if RunStartsAt(runs, a) {
      var i: nat :| i < |runs| && runs[i].addr == a;
      Isolation(runs, k, l, k, l);
      assert RunSound(runs, i) && RunSound(runs, k);
      if i != k { assert Apart(runs[i], runs[k]); }
    } else {
      var i: nat, j: nat :| At(runs, i, j) && runs[i].blocks[j].addr == a;
      Isolation(runs, k, l, i, j);
      Isolation(runs, i, j, k, l);
    }
  }
}
