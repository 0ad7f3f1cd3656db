/** The stack of free frames above 16 MiB. It lives inside free frames: each page of the
    stack holds 1023 entries and a link to the page filled before it. */
module FrameStack {

  const NO_LINK: nat := 0xFFFFFFFF

  // free_stack32_t
  datatype StackPage = StackPage(backlink: nat, freeAddrs: seq<nat>) {
    predicate Sized() { |freeAddrs| == 1023 }
  }

  // memset to 0xFF
  function Filled(): StackPage { StackPage(NO_LINK, seq(1023, _ => NO_LINK)) }

  // stack32 and stack64 are the frames mapped at the two stack pages, 0 while nothing is mapped;
  // pages is what the frames used as stack pages hold.
  datatype Stack = Stack(stack32: nat, stack64: nat, index: int, pages: map<nat, StackPage>)

  const EMPTY: Stack := Stack(0, 0, 0, map[])

  function PageAt(st: Stack, frame: nat): StackPage {
    if frame in st.pages then st.pages[frame] else Filled()
  }

  // stack_push. One before the first entry, where a pop at index 0 leaves the index, lies the link.
  function Pushed(st: Stack, addr: nat): Stack {
    if st.stack32 == 0 then st.(stack32 := addr, pages := st.pages[addr := Filled()])
    else if st.stack64 == 0 then st.(stack64 := addr, pages := st.pages[addr := Filled()])
    else if st.index == 1023 then
      st.(stack32 := addr, index := 0, pages := st.pages[addr := Filled().(backlink := st.stack32)])
    else if 0 <= st.index < |PageAt(st, st.stack32).freeAddrs| then
      var page := PageAt(st, st.stack32);
      st.(index := st.index + 1,
          pages := st.pages[st.stack32 := page.(freeAddrs := page.freeAddrs[st.index := addr])])
    else if st.index == -1 then
      st.(index := 0, pages := st.pages[st.stack32 := PageAt(st, st.stack32).(backlink := addr)])
    else st
  }

  // freeAddrs[index - 1]; one before the first entry is the word in front of it, the link.
  function EntryBelow(page: StackPage, index: int): nat {
    if 0 < index <= |page.freeAddrs| then page.freeAddrs[index - 1] else page.backlink
  }

  // stack_pop32 on a mapped stack. Mapping to NO_LINK is refused, so the last page stays.
  function Popped(st: Stack): (Stack, nat) {
    var page := PageAt(st, st.stack32);
    if st.index < 0 then
      (st.(stack32 := if page.backlink == NO_LINK then st.stack32 else page.backlink, index := 1022), st.stack32)
    else
      (st.(index := st.index - 1), EntryBelow(page, st.index))
  }

  // ------------------------------------------------------------ what the stack holds

  // chain lists the stack32 pages from the first to the one mapped now.
  ghost predicate Chained(st: Stack, chain: seq<nat>) {
    && (st.stack32 == 0 <==> chain == [])
    && (chain == [] ==> st.stack64 == 0)
    && (chain != [] ==> chain[|chain| - 1] == st.stack32)
    && (forall i: nat | i < |chain| :: Link(st, chain, i))
    && (forall i: nat, j: nat | i < j < |chain| :: chain[i] != chain[j])
    && 0 <= st.index <= 1023 && (st.stack64 == 0 ==> st.index == 0 && |chain| <= 1)
    && st.stack64 !in chain && st.stack64 != NO_LINK && NO_LINK !in chain
  }

  ghost predicate Link(st: Stack, chain: seq<nat>, i: nat)
    requires i < |chain|
  {
    && chain[i] != 0 && chain[i] in st.pages && st.pages[chain[i]].Sized()
    && st.pages[chain[i]].backlink == if i == 0 then NO_LINK else chain[i - 1]
  }

  // The first k pages of the chain, each after the first preceded by its own frame, all full.
  ghost function FullPages(st: Stack, chain: seq<nat>, k: nat): seq<nat>
    requires k <= |chain|
  {
    if k == 0 then []
    else FullPages(st, chain, k - 1) + Own(chain, k - 1) + PageAt(st, chain[k - 1]).freeAddrs
  }

  ghost function Own(chain: seq<nat>, i: nat): seq<nat>
    requires i < |chain|
  {
    if i == 0 then [] else [chain[i]]
  }

  // All frames on the stack in the order they were pushed, the frames of the stack pages included.
  ghost function Contents(st: Stack, chain: seq<nat>): seq<nat>
    requires Chained(st, chain)
  {
    if chain == [] then []
    else if st.stack64 == 0 then [chain[0]]
    else
      var last := |chain| - 1;
      assert Link(st, chain, last);
      [chain[0], st.stack64] + FullPages(st, chain, last) + Own(chain, last)
      + PageAt(st, st.stack32).freeAddrs[..st.index]
  }

  lemma {:induction false} FullPagesFrame(st: Stack, st': Stack, chain: seq<nat>, chain': seq<nat>, k: nat)
    requires k <= |chain| && k <= |chain'| && chain[..k] == chain'[..k]
    requires forall i: nat | i < k :: PageAt(st, chain[i]) == PageAt(st', chain[i])
    ensures FullPages(st, chain, k) == FullPages(st', chain', k)
  {
    if k > 0 {
      assert chain[..k][k - 1] == chain'[..k][k - 1];
      assert chain[..k][..k - 1] == chain[..k - 1] && chain'[..k][..k - 1] == chain'[..k - 1];
      FullPagesFrame(st, st', chain, chain', k - 1);
    }
  }

  // The chain after a push: a new page joins it exactly when there was none or the current one was full.
  ghost function ChainAfter(st: Stack, chain: seq<nat>, addr: nat): seq<nat> {
    if st.stack32 == 0 || (st.stack64 != 0 && st.index == 1023) then chain + [addr] else chain
  }

  // A frame the stack does not hold yet: no page of the stack.
  ghost predicate NewFrame(st: Stack, chain: seq<nat>, addr: nat) {
    addr != 0 && addr != NO_LINK && addr !in chain && addr != st.stack64
  }

  lemma {:induction false} PushKeepsChained(st: Stack, chain: seq<nat>, addr: nat)
    requires Chained(st, chain) && NewFrame(st, chain, addr)
    ensures Chained(Pushed(st, addr), ChainAfter(st, chain, addr))
  {
    var st', chain' := Pushed(st, addr), ChainAfter(st, chain, addr);
    if chain != [] { assert Link(st, chain, |chain| - 1); }
    forall i: nat | i < |chain'| ensures Link(st', chain', i) {
      if i < |chain| { assert Link(st, chain, i); }
    }
  }

  // A push in the current page: one more entry.
  lemma {:induction false} PushEntry(st: Stack, chain: seq<nat>, addr: nat)
    requires Chained(st, chain) && NewFrame(st, chain, addr) && st.stack32 != 0 && st.stack64 != 0 && st.index < 1023
    requires Chained(Pushed(st, addr), chain)
    ensures Contents(Pushed(st, addr), chain) == Contents(st, chain) + [addr]
  {
    var st' := Pushed(st, addr);
    var last := |chain| - 1;
    assert Link(st, chain, last);
    FullPagesFrame(st, st', chain, chain, last);
    var a := PageAt(st, st.stack32).freeAddrs;
    assert PageAt(st', st.stack32).freeAddrs[..st.index + 1] == a[..st.index] + [addr];
  }

  // A push on a full page: the pushed frame becomes the next page.
  lemma {:induction false} PushPage(st: Stack, chain: seq<nat>, addr: nat)
    requires Chained(st, chain) && NewFrame(st, chain, addr) && st.stack32 != 0 && st.stack64 != 0 && st.index == 1023
    requires Chained(Pushed(st, addr), chain + [addr])
    ensures Contents(Pushed(st, addr), chain + [addr]) == Contents(st, chain) + [addr]
  {
    var st', chain' := Pushed(st, addr), chain + [addr];
    var last := |chain| - 1;
    assert Link(st, chain, last);
    FullPagesFrame(st, st', chain, chain', last + 1);
    var a := PageAt(st, st.stack32).freeAddrs;
    assert a[..1023] == a;
    assert chain'[|chain'| - 1] == addr && PageAt(st', addr).freeAddrs[..0] == [];
    assert FullPages(st, chain, last + 1) == FullPages(st, chain, last) + Own(chain, last) + a;
  }

  // Pushing adds the frame at the end and loses nothing, whether it starts, extends or overflows a page.
  lemma {:induction false} PushAppends(st: Stack, chain: seq<nat>, addr: nat)
    requires Chained(st, chain) && NewFrame(st, chain, addr)
    ensures Chained(Pushed(st, addr), ChainAfter(st, chain, addr))
    ensures Contents(Pushed(st, addr), ChainAfter(st, chain, addr)) == Contents(st, chain) + [addr]
  {
    PushKeepsChained(st, chain, addr);
    if st.stack32 != 0 && st.stack64 != 0 {
      if st.index == 1023 { PushPage(st, chain, addr); } else { PushEntry(st, chain, addr); }
    }
  }

  // ------------------------------------------------------------ any number of pushes

  function PushAll(st: Stack, frames: seq<nat>): Stack {
    if frames == [] then st else Pushed(PushAll(st, frames[..|frames| - 1]), frames[|frames| - 1])
  }

  ghost predicate Distinct(frames: seq<nat>) {
    forall i: nat, j: nat | i < j < |frames| :: frames[i] != frames[j]
  }

  // The pages of the stack are among the frames it holds.
  lemma {:induction false} PagesAreContents(st: Stack, chain: seq<nat>, i: nat)
    requires Chained(st, chain) && i < |chain|
    ensures chain[i] in Contents(st, chain)
    ensures st.stack64 != 0 ==> st.stack64 in Contents(st, chain)
  {
    if st.stack64 != 0 {
      var last := |chain| - 1;
      assert Contents(st, chain)[0] == chain[0] && Contents(st, chain)[1] == st.stack64;
      if i == last {
        if i > 0 { assert chain[i] in Own(chain, last); }
      } else if i > 0 {
        FullPagesHoldPages(st, chain, last, i);
      }
    }
  }

  lemma {:induction false} FullPagesHoldPages(st: Stack, chain: seq<nat>, k: nat, i: nat)
    requires 0 < i < k <= |chain|
    ensures chain[i] in FullPages(st, chain, k)
  {
    if i < k - 1 { FullPagesHoldPages(st, chain, k - 1, i); }
    assert i == k - 1 ==> Own(chain, k - 1)[0] == chain[i];
    InParts(FullPages(st, chain, k - 1), Own(chain, k - 1), PageAt(st, chain[k - 1]).freeAddrs, chain[i]);
  }

  lemma {:induction false} InParts(a: seq<nat>, b: seq<nat>, c: seq<nat>, x: nat)
    ensures x in a + b + c <==> x in a || x in b || x in c
  {
  }

  // Any distinct frames pushed on the empty stack are exactly what it then holds, in that order: the first is
  // the first stack32 page, the second the stack64 page, and then 1023 entries and a further page in turn.
  lemma {:induction false} PushAllLosesNothing(frames: seq<nat>) returns (chain: seq<nat>)
    requires Distinct(frames) && 0 !in frames && NO_LINK !in frames
    ensures Holds(PushAll(EMPTY, frames), chain, frames)
  {
    if frames == [] {
      chain := [];
    } else {
      var init, addr := frames[..|frames| - 1], frames[|frames| - 1];
      assert frames == init + [addr];
      var before := PushAllLosesNothing(init);
      chain := PushOneMore(PushAll(EMPTY, init), before, init, addr);
    }
  }

  ghost predicate Holds(st: Stack, chain: seq<nat>, frames: seq<nat>) {
    Chained(st, chain) && Contents(st, chain) == frames && Fills(st, chain, |frames|)
  }

  lemma {:induction false} PushOneMore(st: Stack, before: seq<nat>, init: seq<nat>, addr: nat) returns (chain: seq<nat>)
    requires addr !in init && addr != 0 && addr != NO_LINK && Holds(st, before, init)
    ensures Holds(Pushed(st, addr), chain, init + [addr])
  {
    PushedIsNew(st, before, addr);
    PushAppends(st, before, addr);
    PushFills(st, before, addr, |init|);
    chain := ChainAfter(st, before, addr);
  }

  // How far n frames fill the stack.
  ghost predicate Fills(st: Stack, chain: seq<nat>, n: nat) {
    && (n == 0 <==> chain == []) && (st.stack64 != 0 <==> n >= 2)
    && (n >= 2 ==> st.index == (n - 2) % 1024 && |chain| == 1 + (n - 2) / 1024)
  }

  lemma {:induction false} PushedIsNew(st: Stack, chain: seq<nat>, addr: nat)
    requires Chained(st, chain) && addr != 0 && addr != NO_LINK && addr !in Contents(st, chain)
    ensures NewFrame(st, chain, addr)
  {
    forall i: nat | i < |chain| ensures chain[i] != addr { PagesAreContents(st, chain, i); }
    if chain != [] { PagesAreContents(st, chain, 0); }
  }

  lemma {:induction false} PushFills(st: Stack, chain: seq<nat>, addr: nat, n: nat)
    requires Chained(st, chain) && NewFrame(st, chain, addr) && Fills(st, chain, n)
    ensures Fills(Pushed(st, addr), ChainAfter(st, chain, addr), n + 1)
  {
    if chain != [] { assert Link(st, chain, |chain| - 1); }
    if n >= 2 { NextEntry(n - 2); }
  }

  lemma {:induction false} NextEntry(k: nat)
    ensures (k + 1) % 1024 == if k % 1024 == 1023 then 0 else k % 1024 + 1
    ensures (k + 1) / 1024 == if k % 1024 == 1023 then k / 1024 + 1 else k / 1024
  {
  }

  // ------------------------------------------------------------ popping

  // A pop gives back the frame just pushed, and the stack as it was before, exactly when that push
  // went into a page that was not full; the entry itself stays behind above the index.
  lemma {:induction false} PopUndoesPushExactly(st: Stack, chain: seq<nat>, addr: nat)
    requires Chained(st, chain) && NewFrame(st, chain, addr) && st.stack32 != 0 && st.stack64 != 0
    ensures var (back, frame) := Popped(Pushed(st, addr));
            (frame == addr && back.stack32 == st.stack32 && back.index == st.index) <==> st.index != 1023
    ensures var (back, _) := Popped(Pushed(st, addr));
            st.index != 1023 ==> Chained(back, chain) && Contents(back, chain) == Contents(st, chain)
    ensures st.index == 1023 ==> Popped(Pushed(st, addr)).1 == st.stack32
  {
    assert Link(st, chain, |chain| - 1);
    if st.index != 1023 {
      var (back, frame) := Popped(Pushed(st, addr));
      forall i: nat | i < |chain| ensures Link(back, chain, i) { assert Link(st, chain, i); }
      FullPagesFrame(st, back, chain, chain, |chain| - 1);
      assert PageAt(back, st.stack32).freeAddrs[..st.index] == PageAt(st, st.stack32).freeAddrs[..st.index];
    }
  }

  // With an entry below the index a pop takes the last frame off and leaves the rest.
  lemma {:induction false} PopTakesLast(st: Stack, chain: seq<nat>)
    requires Chained(st, chain) && st.index > 0
    ensures var (back, frame) := Popped(st);
            Chained(back, chain) && Contents(st, chain) == Contents(back, chain) + [frame]
  {
    var (back, frame) := Popped(st);
    var last := |chain| - 1;
    assert Link(st, chain, last);
    forall i: nat | i < |chain| ensures Link(back, chain, i) { assert Link(st, chain, i); }
    FullPagesFrame(st, back, chain, chain, last);
    var a := PageAt(st, st.stack32).freeAddrs;
    assert a[..st.index] == a[..st.index - 1] + [frame];
  }

  // The last frame on the stack at index 0: the page just started, or one of the first two frames.
  lemma {:induction false} LastAtPageStart(st: Stack, chain: seq<nat>)
    requires Chained(st, chain) && chain != [] && st.index == 0
    ensures var frames := Contents(st, chain);
            frames != [] && frames[|frames| - 1] == if |chain| > 1 || st.stack64 == 0 then st.stack32 else st.stack64
  {
    assert Link(st, chain, |chain| - 1);
    if st.stack64 != 0 {
      assert PageAt(st, st.stack32).freeAddrs[..0] == [];
      if |chain| == 1 {
        assert Contents(st, chain) == [chain[0], st.stack64];
      } else {
        var front := [chain[0], st.stack64] + FullPages(st, chain, |chain| - 1);
        assert Contents(st, chain) == front + [chain[|chain| - 1]];
      }
    }
  }

  // What a pop hands out is the last frame pushed exactly when there is an entry below the index.
  lemma {:induction false} PopTakesLastExactly(st: Stack, chain: seq<nat>)
    requires Chained(st, chain) && chain != []
    ensures var frames := Contents(st, chain);
            frames != [] && (Popped(st).1 == frames[|frames| - 1] <==> st.index > 0)
  {
    assert Link(st, chain, |chain| - 1);
    if st.index > 0 {
      PopTakesLast(st, chain);
    } else {
      LastAtPageStart(st, chain);
    }
  }

  // After distinct frames were pushed on the empty stack, the next pop hands out the last of them exactly
  // when their number is not 2 more than a multiple of 1024: with 1026 of them it hands out the first one,
  // a page of the stack.
  lemma {:induction false} PopAfterPushes(frames: seq<nat>)
    requires Distinct(frames) && 0 !in frames && NO_LINK !in frames && |frames| >= 2
    ensures Popped(PushAll(EMPTY, frames)).1 == frames[|frames| - 1] <==> (|frames| - 2) % 1024 != 0
    ensures |frames| == 1026 ==> Popped(PushAll(EMPTY, frames)).1 == frames[0]
  {
    var st := PushAll(EMPTY, frames);
    var chain := PushAllLosesNothing(frames);
    PopTakesLastExactly(st, chain);
    if |frames| == 1026 { assert Link(st, chain, 1) && Contents(st, chain)[0] == chain[0]; }
  }

  // After 1025 frames the page is full: the frame pushed next becomes the page, and a pop gives back the
  // frame of the page before instead.
  lemma {:induction false} PopDoesNotUndoPush(frames: seq<nat>)
    requires Distinct(frames) && 0 !in frames && NO_LINK !in frames && |frames| == 1026
    ensures var st := PushAll(EMPTY, frames[..1025]);
            st.index == 1023 && Popped(Pushed(st, frames[1025])).1 == st.stack32 != frames[1025]
  {
    var init := frames[..1025];
    var st := PushAll(EMPTY, init);
    var chain := PushAllLosesNothing(init);
    PushedIsNew(st, chain, frames[1025]);
    PopUndoesPushExactly(st, chain, frames[1025]);
  }

  // Popping on through the start of a page: the link is handed out as if it were a free frame, then the
  // page itself, and the last entry of the page before it is passed over.
  lemma {:induction false} PopThroughPageStart(st: Stack, chain: seq<nat>)
    requires Chained(st, chain) && st.stack64 != 0 && st.index == 0 && |chain| > 1 && chain[|chain| - 2] != NO_LINK
    ensures var (st1, f1) := Popped(st);
            var (st2, f2) := Popped(st1);
            var (st3, f3) := Popped(st2);
            && f1 == chain[|chain| - 2] && f2 == chain[|chain| - 1]
            && st2.stack32 == f1 && PageAt(st, f1).Sized() && f3 == PageAt(st, f1).freeAddrs[1021]
  {
    assert Link(st, chain, |chain| - 1) && Link(st, chain, |chain| - 2);
  }

  // A link written over: the next pop hands out the frame pushed, and a pop through the page start then goes
  // on in that frame as if it were a page of the stack.
  lemma {:induction false} PushOverwritesLink(st: Stack, addr: nat)
    requires st.stack32 != 0 && st.stack64 != 0 && st.index == -1 && addr != NO_LINK
    ensures var (st1, f1) := Popped(Pushed(st, addr));
            var (st2, f2) := Popped(st1);
            f1 == addr && f2 == st.stack32 && st2.stack32 == addr
  {
  }

  // There is an entry below the index, in terms of how many frames the stack holds.
  predicate Poppable(n: nat) { n >= 2 && (n - 2) % 1024 != 0 }

  lemma {:induction false} PopFills(st: Stack, chain: seq<nat>)
    requires Chained(st, chain) && st.index > 0 && Fills(st, chain, |Contents(st, chain)|)
    ensures var (back, _) := Popped(st);
            Chained(back, chain) && Fills(back, chain, |Contents(back, chain)|)
  {
    PopTakesLast(st, chain);
    var back := Popped(st).0;
    var all, rest := Contents(st, chain), Contents(back, chain);
    assert |all| == |rest| + 1;
    OneLessFills(st, back, chain, |all|);
  }

  lemma {:induction false} OneLessFills(st: Stack, back: Stack, chain: seq<nat>, n: nat)
    requires Fills(st, chain, n) && st.stack64 != 0 && chain != [] && st.index > 0
    requires back.stack64 == st.stack64 && back.index == st.index - 1
    ensures n >= 3 && Fills(back, chain, n - 1)
  {
    EntryBefore(n);
  }

  lemma {:induction false} EntryBefore(n: nat)
    requires Poppable(n)
    ensures n >= 3 && (n - 3) % 1024 == (n - 2) % 1024 - 1 && (n - 3) / 1024 == (n - 2) / 1024
  {
    NextEntry(n - 3);
  }

  // ------------------------------------------------------------ the stack in memory

  // The current page is one the stack has filled: enough to push on.
  ghost predicate PagesSized(pages: map<nat, StackPage>) {
    forall f: nat | f in pages :: pages[f].Sized()
  }

  ghost predicate Mapped(st: Stack) {
    (st.stack32 == 0 || st.stack32 in st.pages) && -1 <= st.index <= 1023 && PagesSized(st.pages)
  }

  lemma {:induction false} PushKeepsMapped(st: Stack, addr: nat)
    requires Mapped(st) && addr != 0
    ensures Mapped(Pushed(st, addr)) && Pushed(st, addr).stack32 != 0
  {
    var st' := Pushed(st, addr);
    forall f: nat | f in st'.pages ensures st'.pages[f].Sized() {
      if f in st.pages { assert st.pages[f].Sized(); }
    }
  }

  ghost predicate LinkLeadsOn(pages: map<nat, StackPage>, f: nat)
    requires f in pages
  {
    f != 0 && (pages[f].backlink == NO_LINK || pages[f].backlink in pages)
  }

  ghost predicate LinksLeadOn(pages: map<nat, StackPage>) {
    forall f: nat | f in pages :: LinkLeadsOn(pages, f)
  }

  // Only a push that overwrites a link makes it lead to a frame that is no page.
  lemma {:induction false} PushLeadsOn(st: Stack, addr: nat)
    requires addr != 0 && Mapped(st) && LinksLeadOn(st.pages) && (st.stack64 != 0 ==> st.index != -1)
    ensures LinksLeadOn(Pushed(st, addr).pages)
  {
    var st' := Pushed(st, addr);
    forall f: nat | f in st'.pages ensures LinkLeadsOn(st'.pages, f) {
      if f in st.pages { assert LinkLeadsOn(st.pages, f); }
    }
  }

  class FreeStack {
    var stack32: nat
    var stack64: nat
    var index: int
    var pages: map<nat, StackPage>
    ghost var chain: seq<nat>

    ghost function Value(): Stack
      reads this
    {
      Stack(stack32, stack64, index, pages)
    }

    // Every link leads to a page: enough to pop from, even after pops at index 0 have lost the chain.
    ghost predicate Ready()
      reads this
    {
      Mapped(Value()) && LinksLeadOn(pages)
    }

    ghost predicate Valid()
      reads this
    {
      && Chained(Value(), chain) && Ready()
      && Fills(Value(), chain, |Contents(Value(), chain)|)
    }

    ghost function Frames(): seq<nat>
      requires Valid()
      reads this
    {
      Contents(Value(), chain)
    }

    constructor ()
      ensures Valid() && Value() == EMPTY && Frames() == []
    {
      stack32, stack64, index, pages, chain := 0, 0, 0, map[], [];
    }

    // stack_push of a page-aligned address. A frame the stack does not hold yet is added at its end.
    method Push(addr: nat)
      requires Mapped(Value()) && 0 < addr < NO_LINK
      modifies this
      ensures Value() == Pushed(old(Value()), addr) && Mapped(Value()) && stack32 != 0
      ensures old(Ready() && (stack64 != 0 ==> index != -1)) ==> Ready()
      ensures old(Valid() && NewFrame(Value(), chain, addr)) ==> Valid() && Frames() == old(Frames()) + [addr]
    {
      ghost var before := Value();
      PushKeepsMapped(before, addr);
      if Ready() && (stack64 != 0 ==> index != -1) { PushLeadsOn(before, addr); }
      PushInPlace(addr);
      if Chained(before, chain) && NewFrame(before, chain, addr) { RecordPush(before, addr); }
    }

    method PushInPlace(addr: nat)
      requires Mapped(Value())
      modifies this`stack32, this`stack64, this`index, this`pages
      ensures Value() == Pushed(old(Value()), addr)
    {
      if stack32 == 0 {
        stack32 := addr;
        pages := pages[stack32 := Filled()];
      } else if stack64 == 0 {
        stack64 := addr;
        pages := pages[stack64 := Filled()];
      } else if index == 1023 {
        var oldAddress := stack32;
        stack32 := addr;
        pages := pages[stack32 := Filled()];
        pages := pages[stack32 := pages[stack32].(backlink := oldAddress)];
        assert pages == old(pages)[addr := Filled().(backlink := oldAddress)];
        index := 0;
      } else {
        WriteEntry(addr);
      }
    }

    // freeAddrs[index++] = addr, where freeAddrs[-1] is the link.
    method WriteEntry(addr: nat)
      requires Mapped(Value()) && stack32 != 0 && stack64 != 0 && index != 1023
      modifies this`index, this`pages
      ensures Value() == Pushed(old(Value()), addr)
    {
      var page := pages[stack32];
      assert page.Sized();
      if index == -1 {
        pages := pages[stack32 := page.(backlink := addr)];
      } else {
        pages := pages[stack32 := page.(freeAddrs := page.freeAddrs[index := addr])];
      }
      index := index + 1;
    }

    // Bookkeeping for the proof: the chain after a push.
    ghost method RecordPush(before: Stack, addr: nat)
      requires Chained(before, chain) && NewFrame(before, chain, addr) && Value() == Pushed(before, addr)
      modifies this`chain
      ensures Chained(Value(), chain) && Contents(Value(), chain) == Contents(before, old(chain)) + [addr]
      ensures Fills(before, old(chain), |Contents(before, old(chain))|) ==>
                Fills(Value(), chain, |Contents(Value(), chain)|)
    {
      PushAppends(before, chain, addr);
      if Fills(before, chain, |Contents(before, chain)|) {
        PushFills(before, chain, addr, |Contents(before, chain)|);
      }
      chain := ChainAfter(before, chain, addr);
    }

    // stack_pop32. With an entry below the index it takes off the last frame pushed.
    method Pop() returns (addr: nat)
      requires Ready() && stack32 != 0
      modifies this`index, this`stack32
      ensures Ready() && stack32 != 0 && (Value(), addr) == Popped(old(Value()))
      ensures old(Valid() && Poppable(|Frames()|)) ==> Valid() && old(Frames()) == Frames() + [addr]
    {
      assert LinkLeadsOn(pages, stack32);
      if Valid() && Poppable(|Frames()|) {
        PopTakesLast(Value(), chain);
        PopFills(Value(), chain);
      }
      if index < 0 {
        addr := stack32;
        if pages[stack32].backlink != NO_LINK {
          stack32 := pages[stack32].backlink;
        }
        index := 1022;
      } else {
        index := index - 1;
        addr := EntryBelow(pages[stack32], index + 1);
      }
    }
  }
}
