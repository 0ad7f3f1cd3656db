/** Two-level 32-bit paging with a self-mapped directory, as a partial map from pages to frames. */
module PageTables {

  const PAGE_DIRECTORY: nat := 0xFFFFF000
  const PAGE_TABLE_BASE: nat := 0xFFC00000

  // Physical memory by frame number, as 1024 words a frame; a frame never written holds zeros or
  // anything else, which no mapping can show.
  type Table = t: seq<nat> | |t| == 1024 witness seq(1024, _ => 0)

  type Physical = map<nat, Table>

  function TableAt(m: Physical, frame: nat): Table {
    if frame in m then m[frame] else seq(1024, _ => 0)
  }

  // An entry word: bit 0 is the present bit, bits 12 and up the frame, the rest flags.
  predicate Present(e: nat) { e % 2 == 1 }

  function FrameOf(e: nat): nat { e / 4096 }

  function FlagsOf(e: nat): nat { e % 4096 }

  datatype Option<T> = None | Some(value: T)

  datatype Mapping = Mapping(frame: nat, flags: nat)

  // The directory entry and the table entry for page p (a linear address without its low 12 bits).
  function Pde(m: Physical, cr3: nat, p: nat): nat
    requires p < 0x10_0000
  {
    TableAt(m, cr3)[p / 1024]
  }

  function Pte(m: Physical, cr3: nat, p: nat): nat
    requires p < 0x10_0000
  {
    TableAt(m, FrameOf(Pde(m, cr3, p)))[p % 1024]
  }

  // What the tables say about page p: section 4.3 of the Intel SDM Vol. 3A without 4-MByte pages.
  function PageOf(m: Physical, cr3: nat, p: nat): Option<Mapping>
    requires p < 0x10_0000
  {
    if Present(Pde(m, cr3, p)) && Present(Pte(m, cr3, p))
    then Some(Mapping(FrameOf(Pte(m, cr3, p)), FlagsOf(Pte(m, cr3, p))))
    else None
  }

  // The address the processor finds behind a linear address, when there is one.
  function Walk(m: Physical, cr3: nat, laddr: nat): Option<nat>
    requires laddr < 0x1_0000_0000
  {
    match PageOf(m, cr3, laddr / 4096)
    case None => None
    case Some(e) => Some(4096 * e.frame + laddr % 4096)
  }

  // The last slot maps the directory itself; every other present slot has a table of its own.
  ghost predicate WellFormed(m: Physical, cr3: nat) {
    && TableAt(m, cr3)[1023] == 4096 * cr3 + 3
    && (forall k: nat | k < 1023 && Present(TableAt(m, cr3)[k]) :: FrameOf(TableAt(m, cr3)[k]) != cr3)
    && (forall k: nat, l: nat | k < l < 1023 && Present(TableAt(m, cr3)[k]) && Present(TableAt(m, cr3)[l]) ::
          FrameOf(TableAt(m, cr3)[k]) != FrameOf(TableAt(m, cr3)[l]))
  }

  // ------------------------------------------------------------ the self-map

  lemma {:induction false} DirectoryAddress(k: nat)
    requires k < 1024
    ensures var a := PAGE_DIRECTORY + 4 * k; a / 4096 == 0xFFFFF && a % 4096 == 4 * k
  {
  }

  lemma {:induction false} TableAddress(p: nat)
    requires p < 0x10_0000
    ensures var a := PAGE_TABLE_BASE + 4 * p;
            a < 0x1_0000_0000 && a / 4096 == 0xFFC00 + p / 1024 && a % 4096 == 4 * (p % 1024)
  {
  }

  // The page at the top of the address space is the directory, the 1024 pages before and with it the tables.
  lemma {:induction false} LastSlot(m: Physical, cr3: nat, p: nat)
    requires WellFormed(m, cr3) && p / 1024 == 1023 && p < 0x10_0000
    ensures FrameOf(Pde(m, cr3, p)) == cr3 && FlagsOf(Pde(m, cr3, p)) == 3 && Present(Pde(m, cr3, p))
    ensures Pte(m, cr3, p) == TableAt(m, cr3)[p % 1024]
  {
    EntryParts(cr3, 3);
  }

  lemma {:induction false} EntryParts(frame: nat, flags: nat)
    requires flags < 4096
    ensures FrameOf(4096 * frame + flags) == frame && FlagsOf(4096 * frame + flags) == flags
    ensures Present(4096 * frame + flags) <==> flags % 2 == 1
  {
    assert 4096 * frame + flags == 2 * (2048 * frame) + flags;
  }

  // Through the self-map, PAGE_DIRECTORY[k] is word k of the directory...
  lemma {:induction false} DirectoryIsSelfMapped(m: Physical, cr3: nat, k: nat)
    requires WellFormed(m, cr3) && k < 1024
    ensures Walk(m, cr3, PAGE_DIRECTORY + 4 * k) == Some(4096 * cr3 + 4 * k)
  {
    DirectoryAddress(k);
    LastSlot(m, cr3, 0xFFFFF);
    assert Pte(m, cr3, 0xFFFFF) == Pde(m, cr3, 0xFFFFF);
  }

  // ...and PAGE_TABLE_BASE[p] is the table entry of page p, wherever its table lies.
  lemma {:induction false} TablesAreSelfMapped(m: Physical, cr3: nat, p: nat)
    requires WellFormed(m, cr3) && p < 0x10_0000 && Present(Pde(m, cr3, p))
    ensures Walk(m, cr3, PAGE_TABLE_BASE + 4 * p) == Some(4096 * FrameOf(Pde(m, cr3, p)) + 4 * (p % 1024))
  {
    TableAddress(p);
    var q := 0xFFC00 + p / 1024;
    assert q / 1024 == 1023 && q % 1024 == p / 1024;
    LastSlot(m, cr3, q);
  }

  // ------------------------------------------------------------ writing one word

  function WithWord(m: Physical, frame: nat, i: nat, e: nat): Physical
    requires i < 1024
  {
    m[frame := TableAt(m, frame)[i := e]]
  }

  // Writing the table entry of a page changes that page and no other.
  lemma {:induction false} PteWritten(m: Physical, cr3: nat, p: nat, e: nat)
    requires WellFormed(m, cr3) && p < 1023 * 1024 && Present(Pde(m, cr3, p))
    ensures var m' := WithWord(m, FrameOf(Pde(m, cr3, p)), p % 1024, e);
            && WellFormed(m', cr3)
            && TableAt(m', cr3) == TableAt(m, cr3)
            && PageOf(m', cr3, p) == (if Present(e) then Some(Mapping(FrameOf(e), FlagsOf(e))) else None)
            && forall q: nat | q < 1023 * 1024 && q != p :: PageOf(m', cr3, q) == PageOf(m, cr3, q)
  {
    var f := FrameOf(Pde(m, cr3, p));
    var m' := WithWord(m, f, p % 1024, e);
    assert f != cr3;
    assert TableAt(m', cr3) == TableAt(m, cr3);
    forall q: nat | q < 1023 * 1024 && q != p ensures PageOf(m', cr3, q) == PageOf(m, cr3, q) {
      if q / 1024 == p / 1024 { assert q % 1024 != p % 1024; }
    }
  }

  // A frame that is neither the directory nor a table.
  ghost predicate Unused(m: Physical, cr3: nat, frame: nat) {
    frame != cr3 && forall k: nat | k < 1023 && Present(TableAt(m, cr3)[k]) :: FrameOf(TableAt(m, cr3)[k]) != frame
  }

  // A directory slot given a zeroed unused frame: no page appears or disappears.
  lemma {:induction false} TableAdded(m: Physical, cr3: nat, k: nat, frame: nat, flags: nat, m': Physical)
    requires WellFormed(m, cr3) && k < 1023 && !Present(TableAt(m, cr3)[k]) && Unused(m, cr3, frame)
    requires flags < 4096 && flags % 2 == 1
    requires TableAt(m', cr3) == TableAt(m, cr3)[k := 4096 * frame + flags]
    requires forall i: nat | i < 1024 :: TableAt(m', frame)[i] == 0
    requires forall f: nat | f != cr3 && f != frame :: TableAt(m', f) == TableAt(m, f)
    ensures WellFormed(m', cr3) && Present(TableAt(m', cr3)[k]) && FrameOf(TableAt(m', cr3)[k]) == frame
    ensures forall q: nat | q < 1023 * 1024 :: PageOf(m', cr3, q) == PageOf(m, cr3, q)
    ensures forall q: nat | q / 1024 == k :: PageOf(m', cr3, q) == None
  {
    var d, d' := TableAt(m, cr3), TableAt(m', cr3);
    EntryParts(frame, flags);
    assert forall l: nat | l < 1024 && l != k :: d'[l] == d[l];
    forall q: nat | q < 1023 * 1024 ensures PageOf(m', cr3, q) == PageOf(m, cr3, q) {
      if q / 1024 != k && Present(d[q / 1024]) {
        assert FrameOf(d[q / 1024]) != frame && FrameOf(d[q / 1024]) != cr3;
      }
    }
  }

  // PAGE_REMAP is 0x1000.
  predicate Remap(flags: nat) { flags / 0x1000 % 2 == 1 }

  // (paddr & PAGE_ADDR_MASK) | (flags & PAGE_FLAG_MASK)
  function Entry(paddr: nat, flags: nat): nat { 4096 * (paddr / 4096) + flags % 4096 }

  // The page maps to what was asked for, unless the entry written lacks the present bit.
  function Asked(paddr: nat, flags: nat): Option<Mapping> {
    if flags % 2 == 1 then Some(Mapping(paddr / 4096, flags % 4096)) else None
  }

  lemma {:induction false} EntryIsAsked(paddr: nat, flags: nat)
    ensures (if Present(Entry(paddr, flags))
             then Some(Mapping(FrameOf(Entry(paddr, flags)), FlagsOf(Entry(paddr, flags)))) else None)
            == Asked(paddr, flags)
  {
    EntryParts(paddr / 4096, flags % 4096);
    LowBit(flags);
  }

  lemma {:induction false} LowBit(flags: nat)
    ensures flags % 4096 % 2 == flags % 2
  {
    assert flags == 2 * (2048 * (flags / 4096)) + flags % 4096;
  }

  class Mmu {
    const cr3: nat
    const kernelBase: nat
    var mem: Physical

    ghost predicate Valid()
      reads this
    {
      WellFormed(mem, cr3)
    }

    // The partial map the tables stand for, over all pages but the self-map.
    ghost function Page(p: nat): Option<Mapping>
      requires p < 1023 * 1024
      reads this
    {
      PageOf(mem, cr3, p)
    }

    // An empty directory with its self-map.
    constructor (cr3: nat, kernelBase: nat)
      ensures Valid() && this.cr3 == cr3 && forall p: nat | p < 1023 * 1024 :: Page(p) == None
    {
      this.cr3, this.kernelBase := cr3, kernelBase;
      var directory: Table := seq(1024, k => if k == 1023 then 4096 * cr3 + 3 else 0);
      mem := map[cr3 := directory];
    }

    // A word read or written at a linear address, through the tables as the processor would.
    method ReadWord(laddr: nat) returns (w: nat)
      requires laddr < 0x1_0000_0000 && laddr % 4 == 0 && Walk(mem, cr3, laddr).Some?
      ensures var a := Walk(mem, cr3, laddr).value; w == TableAt(mem, a / 4096)[a % 4096 / 4]
    {
      var a := Walk(mem, cr3, laddr).value;
      w := TableAt(mem, a / 4096)[a % 4096 / 4];
    }

    method WriteWord(laddr: nat, w: nat)
      requires laddr < 0x1_0000_0000 && laddr % 4 == 0 && Walk(mem, cr3, laddr).Some?
      modifies this`mem
      ensures var a := Walk(old(mem), cr3, laddr).value; mem == WithWord(old(mem), a / 4096, a % 4096 / 4, w)
    {
      var a := Walk(mem, cr3, laddr).value;
      mem := WithWord(mem, a / 4096, a % 4096 / 4, w);
    }

    // PAGE_DIRECTORY[k] and PAGE_TABLE_BASE[p].
    method ReadPde(k: nat) returns (e: nat)
      requires Valid() && k < 1024
      ensures e == TableAt(mem, cr3)[k]
    {
      DirectoryAddress(k);
      DirectoryIsSelfMapped(mem, cr3, k);
      WordInFrame(cr3, k);
      e := ReadWord(PAGE_DIRECTORY + 4 * k);
    }

    method WritePde(k: nat, e: nat)
      requires Valid() && k < 1023
      modifies this`mem
      ensures mem == WithWord(old(mem), cr3, k, e)
    {
      DirectoryAddress(k);
      DirectoryIsSelfMapped(mem, cr3, k);
      WordInFrame(cr3, k);
      WriteWord(PAGE_DIRECTORY + 4 * k, e);
    }

    method ReadPte(p: nat) returns (e: nat)
      requires Valid() && p < 0x10_0000 && Present(Pde(mem, cr3, p))
      ensures e == Pte(mem, cr3, p)
    {
      TableAddress(p);
      TablesAreSelfMapped(mem, cr3, p);
      WordInFrame(FrameOf(Pde(mem, cr3, p)), p % 1024);
      e := ReadWord(PAGE_TABLE_BASE + 4 * p);
    }

    method WritePte(p: nat, e: nat)
      requires Valid() && p < 0x10_0000 && Present(Pde(mem, cr3, p))
      modifies this`mem
      ensures mem == WithWord(old(mem), FrameOf(Pde(old(mem), cr3, p)), p % 1024, e)
    {
      TableAddress(p);
      TablesAreSelfMapped(mem, cr3, p);
      WordInFrame(FrameOf(Pde(mem, cr3, p)), p % 1024);
      WriteWord(PAGE_TABLE_BASE + 4 * p, e);
    }

    // memset over the table behind page p: all pages of its directory slot.
    method ZeroTable(p: nat)
      requires p < 1023 * 1024 && Present(Pde(mem, cr3, p)) && Valid()
      modifies this`mem
      ensures TableAt(mem, cr3) == TableAt(old(mem), cr3)
      ensures var f := FrameOf(Pde(old(mem), cr3, p));
              && (forall i: nat | i < 1024 :: TableAt(mem, f)[i] == 0)
              && (forall g: nat | g != f :: TableAt(mem, g) == TableAt(old(mem), g))
    {
      var first := p - p % 1024;
      var i := 0;
      ghost var f := FrameOf(Pde(mem, cr3, p));
      while i < 1024
        invariant i <= 1024 && Valid() && TableAt(mem, cr3) == TableAt(old(mem), cr3)
        invariant forall j: nat | j < i :: TableAt(mem, f)[j] == 0
        invariant forall g: nat | g != f :: TableAt(mem, g) == TableAt(old(mem), g)
      {
        assert (first + i) / 1024 == p / 1024 && (first + i) % 1024 == i;
        PteWritten(mem, cr3, first + i, 0);
        WritePte(first + i, 0);
        i := i + 1;
      }
    }

    // A table for the directory slot of page p: a frame from pmalloc, marked for user access below the
    // kernel, and zeroed.
    method AddTable(p: nat, frame: nat)
      requires Valid() && p < 1023 * 1024 && !Present(Pde(mem, cr3, p)) && Unused(mem, cr3, frame)
      modifies this`mem
      ensures Valid() && Present(Pde(mem, cr3, p)) && Page(p) == None
      ensures forall q: nat | q < 1023 * 1024 :: Page(q) == PageOf(old(mem), cr3, q)
    {
      var flags := if 4096 * p >= kernelBase then 3 else 7;
      ghost var m := mem;
      EntryParts(frame, flags);
      SlotAdded(mem, cr3, p / 1024, frame, flags);
      WritePde(p / 1024, 4096 * frame + flags);
      ZeroTable(p);
      TableAdded(m, cr3, p / 1024, frame, flags, mem);
    }

    // smap_page; frame is what pmalloc gives if a table is needed.
    method SmapPage(laddr: nat, paddr: nat, flags: nat, frame: nat) returns (r: nat)
      requires Valid() && laddr < 0xFFC00000
      requires !Present(Pde(mem, cr3, laddr / 4096)) ==> Unused(mem, cr3, frame)
      modifies this`mem
      ensures Valid()
      ensures r == if old(Page(laddr / 4096)).Some? && !Remap(flags) then 1 else 0
      ensures r == 1 ==> forall q: nat | q < 1023 * 1024 :: Page(q) == old(Page(q))
      ensures r == 0 ==> Page(laddr / 4096) == Asked(paddr, flags)
      ensures r == 0 ==> forall q: nat | q < 1023 * 1024 && q != laddr / 4096 :: Page(q) == old(Page(q))
    {
      var p := laddr / 4096;
      var pde := ReadPde(laddr / 4096 / 1024);
      if !Present(pde) { AddTable(p, frame); }
      var pte := ReadPte(p);
      if Present(pte) && !Remap(flags) { return 1; }
      EntryIsAsked(paddr, flags);
      PteWritten(mem, cr3, p, Entry(paddr, flags));
      WritePte(p, Entry(paddr, flags));
      return 0;
    }

    // sumap_page: the frame address the page had, 0 when it was not mapped.
    method SumapPage(laddr: nat) returns (paddr: nat)
      requires Valid() && laddr < 0xFFC00000
      modifies this`mem
      ensures Valid() && Page(laddr / 4096) == None
      ensures paddr == if old(Page(laddr / 4096)).Some? then 4096 * old(Page(laddr / 4096)).value.frame else 0
      ensures forall q: nat | q < 1023 * 1024 && q != laddr / 4096 :: Page(q) == old(Page(q))
    {
      var p := laddr / 4096;
      var pde := ReadPde(p / 1024);
      if !Present(pde) { return 0; }
      var pte := ReadPte(p);
      if !Present(pte) { return 0; }
      paddr := pte - pte % 4096;
      PteWritten(mem, cr3, p, 0);
      WritePte(p, 0);
    }

    // vmm_map_address; released is the address handed to pfree, 0 when pfree is not called.
    method MapAddress(laddr: nat, paddr: nat, flags: nat, frame: nat) returns (r: nat, released: nat)
      requires Valid() && (laddr < 0xFFC00000 || laddr == 0xFFFFFFFF)
      requires laddr < 0xFFC00000 && !Present(Pde(mem, cr3, laddr / 4096)) ==> Unused(mem, cr3, frame)
      modifies this`mem
      ensures Valid()
      ensures paddr == 0xFFFFFFFF ==> r == 1 && released == 0
      ensures paddr != 0xFFFFFFFF && laddr == 0xFFFFFFFF ==> r == 2 && released == paddr
      ensures paddr != 0xFFFFFFFF && laddr != 0xFFFFFFFF ==>
                r == (if old(Page(laddr / 4096)).Some? && !Remap(flags) then 1 else 0) && released == 0
      ensures forall q: nat | q < 1023 * 1024 ::
                Page(q) == if r == 0 && q == laddr / 4096 then Asked(paddr, flags) else old(Page(q))
    {
      if paddr == 0xFFFFFFFF {
        return 1, 0;
      } else if laddr == 0xFFFFFFFF {
        return 2, paddr;
      }
      r := SmapPage(laddr, paddr, flags, frame);
      released := 0;
    }

    // vmm_unmap_address: the page goes, and its frame goes to pfree.
    method UnmapAddress(laddr: nat) returns (released: nat)
      requires Valid() && laddr < 0xFFC00000
      modifies this`mem
      ensures Valid()
      ensures released == if old(Page(laddr / 4096)).Some? then 4096 * old(Page(laddr / 4096)).value.frame else 0
      ensures forall q: nat | q < 1023 * 1024 :: Page(q) == if q == laddr / 4096 then None else old(Page(q))
    {
      released := SumapPage(laddr);
    }

    // vmm_get_physical_addr agrees with the processor's walk, and gives 0 when there is no mapping.
    method GetPhysicalAddr(laddr: nat) returns (paddr: nat)
      requires Valid() && laddr < 0x1_0000_0000
      ensures paddr == match Walk(mem, cr3, laddr) case Some(a) => a case None => 0
      ensures var e := PageOf(mem, cr3, laddr / 4096);
              && (e.Some? ==> paddr == 4096 * e.value.frame + laddr % 4096)
              && (paddr == 0 <==> e.None? || (e.value.frame == 0 && laddr % 4096 == 0))
    {
      var pde := ReadPde(laddr / 4096 / 1024);
      if !Present(pde) { return 0; }
      var pte := ReadPte(laddr / 4096);
      if !Present(pte) { return 0; }
      paddr := pte - pte % 4096 + laddr % 4096;
    }
  }

  // The directory is well formed as soon as the slot is written, whatever the new table holds.
  lemma {:induction false} SlotAdded(m: Physical, cr3: nat, k: nat, frame: nat, flags: nat)
    requires WellFormed(m, cr3) && k < 1023 && !Present(TableAt(m, cr3)[k]) && Unused(m, cr3, frame)
    requires flags < 4096 && flags % 2 == 1
    ensures WellFormed(WithWord(m, cr3, k, 4096 * frame + flags), cr3)
  {
    EntryParts(frame, flags);
  }

  lemma {:induction false} WordInFrame(frame: nat, i: nat)
    requires i < 1024
    ensures (4096 * frame + 4 * i) / 4096 == frame && (4096 * frame + 4 * i) % 4096 / 4 == i
  {
  }
}
