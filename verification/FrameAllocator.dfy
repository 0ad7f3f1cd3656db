/** pmalloc, kpmalloc, pfree and the region calls over the bitmap and the frame stack. */
module FrameAllocator {
  import opened FrameBitmap
  import opened FrameSearch
  import opened FrameStretch
  import opened FrameStack
  import opened FrameMap

  const POISON_NULL: nat := 0xfeeeeb1e
  const BASE_16M: nat := 0x01000000

  // The flags pmalloc passes: a zeroed static.
  const PLAIN: Flags := Flags(false, false, false, 0)

  // The frames f, f + 1, ..., f + n - 1.
  ghost function Span(f: nat, n: nat): (s: set<nat>)
    ensures forall g: nat :: g in s <==> f <= g < f + n
  {
    if n == 0 then {} else Span(f, n - 1) + {f + n - 1}
  }

  // Those of them the bitmap covers.
  ghost function LowSpan(f: nat, n: nat): (s: set<nat>)
    ensures forall g: nat :: g in s <==> f <= g < f + n && g < 4096
  {
    if n == 0 then {} else LowSpan(f, n - 1) + if f + n - 1 < 4096 then {f + n - 1} else {}
  }

  // The first block behind a region, as 32-bit arithmetic gives it.
  function RegionEnd(base: nat, size: nat): nat { (base + size + 0xFFF) % 0x1_0000_0000 / 4096 }

  function EndBlock(base: nat, size: nat): nat {
    if RegionEnd(base, size) < 0xFFFFF then RegionEnd(base, size) else 0xFFFFF
  }

  // A region that ends within 4095 bytes of 4 GiB, or beyond, wraps and is treated as if it ended at
  // the bottom of memory; any other is covered to its last byte and no further.
  lemma {:induction false} RegionEndExactly(base: nat, size: nat)
    requires base < 0x1_0000_0000 && 0 < size < 0x1_0000_0000
    ensures (4096 * (RegionEnd(base, size) - 1) < base + size <= 4096 * RegionEnd(base, size)) <==>
            base + size + 0xFFF < 0x1_0000_0000
  {
  }

  // The blocks of lo..b above 16 MiB, as addresses.
  ghost function HighAddresses(lo: nat, b: nat): (s: seq<nat>)
    decreases b
  {
    if b <= lo then [] else HighAddresses(lo, b - 1) + if b - 1 >= 0x1000 then [4096 * (b - 1)] else []
  }

  lemma {:induction false} HighAddressesBelow(lo: nat, b: nat)
    ensures forall a: nat | a in HighAddresses(lo, b) :: a < 4096 * b
    decreases b
  {
    if b > lo { HighAddressesBelow(lo, b - 1); }
  }

  // The frames below 16 MiB that a region touches, for regions whose end does not wrap.
  ghost function RegionFrames(base: nat, size: nat): set<nat> {
    var end := RegionEnd(base, size);
    if end <= base / 4096 then {} else LowSpan(base / 4096, end - base / 4096)
  }

  // None of these blocks is on the stack yet.
  ghost predicate NotStacked(frames: seq<nat>, lo: nat, end: nat) {
    forall b: nat | 0x1000 <= b < end && lo <= b :: 4096 * b !in frames
  }

  // What clearing blocks lo..b does to the set of free low frames.
  ghost function ClearedLow(free: set<nat>, lo: nat, b: nat): set<nat> {
    if b <= lo then free else free + LowSpan(lo, b - lo) - {0, 1, 2}
  }

  lemma {:induction false} ClearedOneMore(free: set<nat>, lo: nat, b: nat)
    requires lo <= b
    ensures ClearedLow(free, lo, b + 1) == ClearedLow(free, lo, b) + (if b < 4096 then {b} else {}) - {0, 1, 2}
  {
  }

  lemma {:induction false} HighOneMore(frames: seq<nat>, lo: nat, b: nat)
    requires lo <= b
    ensures frames + HighAddresses(lo, b + 1) == frames + HighAddresses(lo, b) + if b >= 0x1000 then [4096 * b] else []
  {
  }

  lemma {:induction false} NothingBelow(free: set<nat>, lo: nat, b: nat)
    ensures b <= lo ==> ClearedLow(free, lo, b) == free && HighAddresses(lo, b) == []
    ensures ClearedLow(free, lo, lo) == free && HighAddresses(lo, lo) == []
  {
  }

  ghost function TakenLow(free: set<nat>, lo: nat, b: nat): set<nat> {
    if b <= lo then free else free - LowSpan(lo, b - lo)
  }

  lemma {:induction false} TakenOneMore(free: set<nat>, lo: nat, b: nat)
    requires lo <= b < 4096
    ensures TakenLow(free, lo, b + 1) == TakenLow(free, lo, b) - {b}
  {
  }

  lemma {:induction false} TakenRegion(free: set<nat>, base: nat, size: nat, b: nat)
    requires forall f: nat | f in free :: f < 4096
    requires var end := RegionEnd(base, size);
             base / 4096 <= b && (b >= end || b >= 0x1000) && (b == base / 4096 || b <= end)
    ensures TakenLow(free, base / 4096, b) == free - RegionFrames(base, size)
  {
  }

  // n frames from addr on that were free in w and have been taken since: a request for n frames served.
  ghost predicate Got(w: Page, free: set<nat>, addr: nat, n: nat) {
    addr % 4096 == 0 && FreeRun(w, addr / 4096, n) && free == FreeFrames(w) - Span(addr / 4096, n)
  }

  // Served from r, or not at all: a frame popped off the stack leaves the bitmap as it was.
  lemma {:induction false} GotExactly(w: Page, free: set<nat>, addr: nat, r: int, n: nat)
    requires n >= 1
    requires if r == -1 then free == FreeFrames(w)
             else r >= 0 && addr == 4096 * r && free == FreeFrames(w) - ({r} + Span(r, n))
    ensures Got(w, free, addr, n) <==> r >= 0 && FreeRun(w, r, n)
  {
    var f := addr / 4096;
    if FreeRun(w, f, n) { assert f in FreeFrames(w) && f in Span(f, n); }
    if r >= 0 {
      assert addr / 4096 == r && addr % 4096 == 0;
      assert {r} + Span(r, n) == Span(r, n);
    }
  }

  lemma {:induction false} PushOne(st: Stack, addr: nat)
    ensures PushAll(st, [addr]) == Pushed(st, addr)
  {
    assert [addr][..0] == [] && PushAll(st, []) == st;
  }

  lemma {:induction false} PushedOneMore(st: Stack, lo: nat, b: nat)
    requires lo <= b
    ensures PushAll(st, HighAddresses(lo, b + 1)) ==
            PushAll(PushAll(st, HighAddresses(lo, b)), if b >= 0x1000 then [4096 * b] else [])
  {
    var before := HighAddresses(lo, b);
    if b >= 0x1000 {
      assert (before + [4096 * b])[..|before|] == before;
      PushOne(PushAll(st, before), 4096 * b);
    } else {
      assert before + [] == before;
    }
  }

  // The allocator before a region is cleared. poised: no link is about to be written over. whole: the stack
  // has all its frames, none of them in the region.
  datatype Before = Before(free: set<nat>, st: Stack, poised: bool, whole: bool, frames: seq<nat>)

  class Pmm {
    const bitmap: Bitmap
    const stack: FreeStack

    // Enough for pushing, and with Ready for every call: pops at index 0 lose the chain of the stack, not its
    // links.
    ghost predicate Usable()
      reads this, bitmap, bitmap.words, stack
    {
      bitmap.Valid() && Mapped(stack.Value())
    }

    ghost predicate Ready()
      reads this, bitmap, bitmap.words, stack
    {
      bitmap.Valid() && stack.Ready()
    }

    // No push is about to write over a link.
    ghost predicate Poised()
      reads this, stack
    {
      stack.Ready() && stack.index != -1
    }

    ghost predicate Valid()
      reads this, bitmap, bitmap.words, stack
    {
      bitmap.Valid() && stack.Valid()
    }

    ghost function Free(): set<nat>
      requires bitmap.words.Length == 1024
      reads bitmap, bitmap.words
    {
      FreeFrames(bitmap.words[..])
    }

    constructor ()
      ensures Valid() && Free() == {} && stack.Frames() == []
      ensures fresh(bitmap) && fresh(bitmap.words) && fresh(stack)
    {
      bitmap := new Bitmap();
      stack := new FreeStack();
    }

    // kpmalloc: frames from the bitmap, or whatever stack_pop32 gives when the search finds none.
    method Kpmalloc(flags: Flags) returns (addr: nat)
      requires Ready()
      requires Search(bitmap.words[..], flags) == -1 ==> stack.stack32 != 0
      modifies bitmap.words, stack
      ensures Ready() && (old(stack.stack32) != 0 ==> stack.stack32 != 0)
      ensures var r := Search(old(bitmap.words[..]), flags);
              if r == -1 then
                Free() == old(Free()) && (stack.Value(), addr) == Popped(old(stack.Value()))
              else
                && stack.Value() == old(stack.Value()) && stack.chain == old(stack.chain) && r >= 0 && addr == 4096 * r
                && Free() == old(Free()) - ({r} + Span(r, if flags.contiguous then flags.pageAllocNum else 0))
      ensures Search(old(bitmap.words[..]), flags) == -1 && old(stack.Valid() && Poppable(|stack.Frames()|)) ==>
                stack.Valid() && old(stack.Frames()) == stack.Frames() + [addr]
      ensures flags.contiguous && flags.pageAllocNum >= 1 ==>
                (Got(old(bitmap.words[..]), Free(), addr, flags.pageAllocNum) <==> HasRun(old(bitmap.words[..]), flags))
    {
      ghost var w := bitmap.words[..];
      if flags.pageAllocNum >= 1 { RequestExactly(w, flags); }
      var frame := bitmap.FirstClearBits(flags);
      SearchInRange(w, flags);
      if frame == -1 {
        addr := stack.Pop();
        if flags.pageAllocNum >= 1 { GotExactly(w, Free(), addr, frame, flags.pageAllocNum); }
        return;
      }
      bitmap.Set(frame);
      if flags.contiguous {
        MarkRest(frame, flags.pageAllocNum);
      }
      addr := 4096 * frame;
      if flags.contiguous && flags.pageAllocNum >= 1 { GotExactly(w, Free(), addr, frame, flags.pageAllocNum); }
    }

    // The frames behind the first of a contiguous request.
    method MarkRest(frame: nat, n: nat)
      requires bitmap.Valid()
      modifies bitmap.words
      ensures bitmap.Valid() && Free() == old(Free()) - (Span(frame, n) - {frame})
    {
      var bit := 1;
      while bit < n
        invariant 1 <= bit && (bit <= n || bit == 1) && bitmap.Valid()
        invariant Free() == old(Free()) - (Span(frame, bit) - {frame})
      {
        bitmap.Set(bit + frame);
        bit := bit + 1;
      }
      assert n == 0 ==> Span(frame, 1) - {frame} == {};
    }

    // pmalloc: the lowest free frame below 16 MiB, when there is one.
    method Pmalloc() returns (addr: nat)
      requires Ready()
      requires Free() == {} ==> stack.stack32 != 0
      modifies bitmap.words, stack
      ensures Ready()
      ensures old(Free()) == {} ==> Free() == {} && (stack.Value(), addr) == Popped(old(stack.Value()))
      ensures old(Free() == {} && stack.Valid() && Poppable(|stack.Frames()|)) ==>
                stack.Valid() && old(stack.Frames()) == stack.Frames() + [addr]
      ensures old(Free()) != {} ==>
                && addr % 4096 == 0 && addr / 4096 in old(Free())
                && (forall f: nat | f in old(Free()) :: addr / 4096 <= f)
                && Free() == old(Free()) - {addr / 4096}
                && stack.Value() == old(stack.Value()) && stack.chain == old(stack.chain)
    {
      SearchIsLowest(bitmap.words[..], PLAIN);
      LowestIsLeast(bitmap.words[..], 0);
      addr := Kpmalloc(PLAIN);
    }

    // A frame of its own above 16 MiB: pushed on the stack instead of cleared in the bitmap.
    predicate Stacked(base: nat, num: nat) {
      base != POISON_NULL && base >= BASE_16M && num == 1
    }

    // pfree of num frames from base on.
    method Pfree(base: nat, num: nat)
      requires Usable() && base < 0xFFFFFFFF
      modifies bitmap.words, stack
      ensures Usable() && (old(stack.stack32) != 0 ==> stack.stack32 != 0)
      ensures !Stacked(base, num) && old(Ready()) ==> Ready()
      ensures old(Poised()) ==> Poised()
      ensures Stacked(base, num) ==> stack.Value() == Pushed(old(stack.Value()), base)
      ensures Stacked(base, num) && old(stack.Valid() && NewFrame(stack.Value(), stack.chain, base)) ==>
                stack.Valid() && stack.Frames() == old(stack.Frames()) + [base]
      ensures !Stacked(base, num) ==> stack.Value() == old(stack.Value()) && stack.chain == old(stack.chain)
      ensures Free() == if base == POISON_NULL || Stacked(base, num) || base / 4096 < 4 then old(Free())
                        else old(Free()) + LowSpan(base / 4096, num)
    {
      if base == POISON_NULL { return; }
      if base >= BASE_16M && num == 1 {
        stack.Push(base);
        return;
      }
      var frame := base / 4096;
      if frame < 4 { return; }
      ClearRun(frame, num);
    }

    method ClearRun(frame: nat, num: nat)
      requires bitmap.Valid()
      modifies bitmap.words
      ensures bitmap.Valid() && Free() == old(Free()) + LowSpan(frame, num)
    {
      var bit := 0;
      while bit < num
        invariant bit <= num && bitmap.Valid()
        invariant Free() == old(Free()) + LowSpan(frame, bit)
      {
        bitmap.Clear(bit + frame);
        bit := bit + 1;
      }
    }

    // One block of a region: to the frame stack when it is above 16 MiB, else into the bitmap.
    method ClearBlock(block: nat)
      requires Usable() && block < 0xFFFFF
      modifies bitmap.words, stack
      ensures Usable() && Free() == old(Free()) + (if block < 4096 then {block} else {}) - {0, 1, 2}
      ensures stack.Value() == PushAll(old(stack.Value()), if block >= 0x1000 then [4096 * block] else [])
      ensures (old(Poised()) ==> Poised()) && (old(stack.stack32) != 0 ==> stack.stack32 != 0)
      ensures old(stack.Valid()) && (block >= 0x1000 ==> 4096 * block !in old(stack.Frames())) ==>
                stack.Valid() && stack.Frames() == old(stack.Frames()) + if block >= 0x1000 then [4096 * block] else []
    {
      if block >= 0x1000 { PushBlock(4096 * block); }
      bitmap.Clear(block);
      bitmap.Reserve();
    }

    method PushBlock(addr: nat)
      requires Mapped(stack.Value()) && 0 < addr < NO_LINK
      modifies stack
      ensures Mapped(stack.Value()) && stack.Value() == PushAll(old(stack.Value()), [addr])
      ensures (old(Poised()) ==> Poised()) && stack.stack32 != 0
      ensures old(stack.Valid()) && addr !in old(stack.Frames()) ==>
                stack.Valid() && stack.Frames() == old(stack.Frames()) + [addr]
    {
      if stack.Valid() && addr !in stack.Frames() { PushedIsNew(stack.Value(), stack.chain, addr); }
      PushOne(stack.Value(), addr);
      stack.Push(addr);
    }

    // Blocks lo..b of a region have been cleared since the free frames were was.free and the stack was.st.
    ghost predicate Cleared(was: Before, lo: nat, b: nat)
      reads this, bitmap, bitmap.words, stack
    {
      && Usable() && Free() == ClearedLow(was.free, lo, b)
      && stack.Value() == PushAll(was.st, HighAddresses(lo, b)) && (was.poised ==> Poised())
      && (was.whole ==> stack.Valid() && stack.Frames() == was.frames + HighAddresses(lo, b))
      && (was.st.stack32 != 0 ==> stack.stack32 != 0)
    }

    lemma {:induction false} NothingCleared(was: Before, lo: nat, b: nat)
      requires Cleared(was, lo, lo) && b <= lo
      ensures Cleared(was, lo, b)
    {
      NothingBelow(was.free, lo, b);
    }

    method ClearNext(block: nat, ghost was: Before, ghost lo: nat) returns (next: nat)
      requires Cleared(was, lo, block) && lo <= block < 0xFFFFF
      requires was.whole && block >= 0x1000 ==> 4096 * block !in was.frames
      modifies bitmap.words, stack
      ensures next == block + 1 && Cleared(was, lo, next)
    {
      HighAddressesBelow(lo, block);
      ClearedOneMore(was.free, lo, block);
      if was.whole { HighOneMore(was.frames, lo, block); }
      PushedOneMore(was.st, lo, block);
      ClearBlock(block);
      next := block + 1;
    }

    // The loop of pmm_clear_region; the last block of the address space is never handed over.
    method ClearBlocks(lo: nat, end: nat, ghost was: Before)
      requires Cleared(was, lo, lo) && (was.whole ==> NotStacked(was.frames, lo, end))
      modifies bitmap.words, stack
      ensures Cleared(was, lo, if end < 0xFFFFF then end else 0xFFFFF)
    {
      ghost var stop: nat := if end < 0xFFFFF then end else 0xFFFFF;
      var blocks: nat := lo;
      while blocks < end && blocks < 0xFFFFF
        invariant lo <= blocks && (blocks == lo || blocks <= stop)
        invariant Cleared(was, lo, blocks)
        decreases stop - blocks
      {
        blocks := ClearNext(blocks, was, lo);
      }
      if blocks != stop { NothingCleared(was, lo, stop); }
    }

    ghost function Now(base: nat, size: nat): Before
      reads this, bitmap, bitmap.words, stack
      requires bitmap.words.Length == 1024
    {
      var frames := if stack.Valid() then stack.Frames() else [];
      Before(Free(), stack.Value(), Poised(),
             stack.Valid() && (size == 0 || NotStacked(frames, base / 4096, RegionEnd(base, size))), frames)
    }

    // pmm_clear_region: every block the region touches becomes free, except frames 0 to 2.
    method ClearRegion(base: nat, size: nat)
      requires Usable() && base < 0x1_0000_0000 && size < 0x1_0000_0000
      modifies bitmap.words, stack
      ensures Cleared(old(Now(base, size)), base / 4096, if size == 0 then 0 else EndBlock(base, size))
    {
      ghost var was := Now(base, size);
      NothingBelow(was.free, base / 4096, 0);
      if size == 0 { return; }
      ClearBlocks(base / 4096, RegionEnd(base, size), was);
    }

    // pmm_set_region: every block the region touches below 16 MiB is taken.
    method SetRegion(base: nat, size: nat)
      requires bitmap.Valid() && base < 0x1_0000_0000 && size < 0x1_0000_0000
      modifies bitmap.words
      ensures bitmap.Valid()
      ensures Free() == old(Free()) - (if size == 0 then {} else RegionFrames(base, size))
    {
      if size == 0 { return; }
      ghost var lo, free0 := base / 4096, Free();
      var blocks := base / 4096;
      while blocks < RegionEnd(base, size) && blocks < 0x1000
        invariant bitmap.Valid() && lo <= blocks && Free() == TakenLow(free0, lo, blocks)
        invariant blocks == lo || blocks <= RegionEnd(base, size)
      {
        TakenOneMore(free0, lo, blocks);
        bitmap.Set(blocks);
        blocks := blocks + 1;
      }
      TakenRegion(free0, base, size, blocks);
    }
  }
}
