/** Frames over whole runs of pmalloc, kpmalloc, pfree and the region calls. */
module FrameHistory {
  import opened FrameBitmap
  import opened FrameSearch
  import opened FrameStretch
  import opened FrameStack
  import opened FrameAllocator

  // Above 16 MiB: the addresses on the frame stack in order, and those handed out and not yet given back.
  // Broken once a pop or a push has cost the stack its order.
  datatype High = Whole(stacked: seq<nat>, out: set<nat>) | Broken

  // The bitmap page, the frames below 16 MiB handed out and not yet given back, and the frames above.
  datatype State = State(w: Page, held: set<nat>, high: High)

  datatype Call =
    | Pmalloc
    | Kpmalloc(flags: Flags)
    | Pfree(f: nat, n: nat)
    | ClearRegion(base: nat, size: nat)
    | SetRegion(base: nat, size: nat)
  {
    predicate Allocates() { Pmalloc? || Kpmalloc? }

    predicate OfRegion() { ClearRegion? || SetRegion? }

    // A run given back that begins with frame 3: pfree leaves frames below 4 alone.
    predicate LosesLow() { Pfree? && f == 3 && n > 0 }

    // A run given back that has frames above 16 MiB in it, unless it is one such frame on its own.
    predicate LosesHigh() { Pfree? && n > 0 && f + n > 4096 && !(f >= 4096 && n == 1) }
  }

  function FlagsOf(c: Call): Flags {
    if c.Kpmalloc? then c.flags else PLAIN
  }

  // The frames of the bitmap handed out by a call.
  ghost function Granted(w: Page, c: Call): set<nat> {
    if !c.Allocates() then {}
    else
      var r, flags := Search(w, FlagsOf(c)), FlagsOf(c);
      if r < 0 then {} else {r} + Span(r, if flags.contiguous then flags.pageAllocNum else 0)
  }

  // Nothing found in the bitmap: a frame of the stack is handed out, whatever was asked for.
  predicate Pops(w: Page, c: Call) { c.Allocates() && Search(w, FlagsOf(c)) == -1 }

  ghost function GrantedHigh(st: State, c: Call): set<nat> {
    if Pops(st.w, c) && st.high.Whole? && Poppable(|st.high.stacked|)
      then {st.high.stacked[|st.high.stacked| - 1]} else {}
  }

  ghost function GivenBack(c: Call): set<nat> {
    if c.Pfree? then LowSpan(c.f, c.n) else {}
  }

  // The addresses above 16 MiB among frames f, ..., f + n - 1.
  ghost function HighSpan(f: nat, n: nat): (s: set<nat>)
    ensures forall a: nat :: a in s <==> a % 4096 == 0 && f <= a / 4096 < f + n && a >= BASE_16M
  {
    if n == 0 then {}
    else
      assert forall a: nat :: a % 4096 == 0 && a / 4096 == f + n - 1 <==> a == 4096 * (f + n - 1);
      HighSpan(f, n - 1) + if f + n - 1 >= 4096 then {4096 * (f + n - 1)} else {}
  }

  ghost function Cleared(free: set<nat>, base: nat, size: nat): set<nat> {
    ClearedLow(free, base / 4096, if size == 0 then 0 else EndBlock(base, size))
  }

  ghost function ClearedHigh(base: nat, size: nat): seq<nat> {
    HighAddresses(base / 4096, if size == 0 then 0 else EndBlock(base, size))
  }

  // A contiguous request is one the search does not answer wrongly, only frames still held are given back,
  // and no region with a frame still held is declared free.
  ghost predicate Legal(st: State, c: Call) {
    match c
    case Kpmalloc(flags) => flags.contiguous && Search(st.w, flags) != -1 ==> HasRun(st.w, flags)
    case Pfree(f, n) =>
      f < 0x100000 && LowSpan(f, n) <= st.held && (st.high.Whole? ==> HighSpan(f, n) <= st.high.out)
    case ClearRegion(base, size) =>
      && base < 0x1_0000_0000 && size < 0x1_0000_0000 && Cleared({}, base, size) !! st.held
      && (st.high.Whole? ==> forall a: nat | a in ClearedHigh(base, size) :: a !in st.high.out)
    case SetRegion(base, size) => base < 0x1_0000_0000 && size < 0x1_0000_0000
    case _ => true
  }

  ghost function FreeAfter(w: Page, c: Call): set<nat> {
    match c
    case Pfree(f, n) => FreeFrames(w) + if f >= 4 then LowSpan(f, n) else {}
    case ClearRegion(base, size) => Cleared(FreeFrames(w), base, size)
    case SetRegion(base, size) => FreeFrames(w) - if size == 0 then {} else RegionFrames(base, size)
    case _ => FreeFrames(w) - Granted(w, c)
  }

  ghost function HighAfter(w: Page, high: High, c: Call): High {
    match high
    case Broken => Broken
    case Whole(stacked, out) =>
      if Pops(w, c) then
        if Poppable(|stacked|) then Whole(stacked[..|stacked| - 1], out + {stacked[|stacked| - 1]}) else Broken
      else
        match c
        case Pfree(f, n) =>
          if !(f >= 4096 && n == 1) then Whole(stacked, out - HighSpan(f, n))
          else if 4096 * f in stacked then Broken
          else Whole(stacked + [4096 * f], out - {4096 * f})
        case ClearRegion(base, size) =>
          if size == 0 || NotStacked(stacked, base / 4096, RegionEnd(base, size))
            then Whole(stacked + ClearedHigh(base, size), out) else Broken
        case _ => high
  }

  // What one call may do: the free and the held frames change as stated, the summary stays sound, and the
  // page is otherwise any page.
  ghost predicate Steps(st: State, c: Call, next: State) {
    && SummarySound(next.w) && FreeFrames(next.w) == FreeAfter(st.w, c)
    && next.held == st.held + Granted(st.w, c) - GivenBack(c)
    && next.high == HighAfter(st.w, st.high, c)
  }

  ghost predicate HighSafe(high: High) {
    high.Whole? ==>
      && Distinct(high.stacked) && (forall a: nat | a in high.stacked :: a !in high.out)
      && (forall a: nat | a in high.stacked || a in high.out :: a % 4096 == 0 && a >= BASE_16M)
  }

  ghost predicate Safe(st: State) {
    && SummarySound(st.w)
    && st.held !! FreeFrames(st.w)
    && (forall f: nat | f in st.held || f in FreeFrames(st.w) :: 3 <= f < 4096)
    && HighSafe(st.high)
  }

  // Every frame granted was free until then. A contiguous request is granted n frames in a row, with
  // align_64kb inside one superblock, exactly when the bitmap has such a run; otherwise it gets one frame of
  // the stack.
  lemma {:induction false} GrantsAreFree(st: State, c: Call)
    requires SummarySound(st.w) && Legal(st, c)
    ensures Granted(st.w, c) <= FreeFrames(st.w)
    ensures c.Kpmalloc? && c.flags.contiguous && c.flags.pageAllocNum >= 1 ==>
              && (Granted(st.w, c) != {} <==> HasRun(st.w, c.flags))
              && (Pops(st.w, c) <==> !HasRun(st.w, c.flags))
              && (HasRun(st.w, c.flags) ==>
                    exists r: nat :: Granted(st.w, c) == Span(r, c.flags.pageAllocNum)
                                     && (c.flags.align64kb ==> r % 16 + c.flags.pageAllocNum <= 16))
  {
    if c.Allocates() {
      var flags := FlagsOf(c);
      SearchInRange(st.w, flags);
      if flags.contiguous && flags.pageAllocNum >= 1 {
        RequestExactly(st.w, flags);
        var r := Search(st.w, flags);
        assert r >= 0 ==> {r} + Span(r, flags.pageAllocNum) == Span(r, flags.pageAllocNum);
      }
    }
  }

  lemma {:induction false} ClearedIs(free: set<nat>, base: nat, size: nat)
    ensures Cleared(free, base, size) <= free + Cleared({}, base, size)
    ensures forall f: nat | f in Cleared({}, base, size) :: 3 <= f < 4096
  {
  }

  lemma {:induction false} LowStepKeepsSafe(st: State, c: Call, next: State)
    requires Safe(st) && Legal(st, c) && Steps(st, c, next) && HighSafe(next.high)
    ensures Safe(next) && Granted(st.w, c) !! st.held && Granted(st.w, c) !! {0, 1, 2}
  {
    GrantsAreFree(st, c);
    if c.ClearRegion? { ClearedIs(FreeFrames(st.w), c.base, c.size); }
  }

  // ------------------------------------------------------------ frames above 16 MiB

  // The blocks of a region are distinct addresses above 16 MiB.
  lemma {:induction false} HighAddressesAre(lo: nat, b: nat)
    ensures Distinct(HighAddresses(lo, b))
    ensures forall a: nat | a in HighAddresses(lo, b) ::
              a % 4096 == 0 && lo <= a / 4096 < b && a >= BASE_16M
    decreases b
  {
    if b > lo {
      HighAddressesAre(lo, b - 1);
      assert 4096 * (b - 1) / 4096 == b - 1 && 4096 * (b - 1) % 4096 == 0;
      DistinctTogether(HighAddresses(lo, b - 1), if b - 1 >= 0x1000 then [4096 * (b - 1)] else []);
    }
  }

  lemma {:induction false} DistinctTogether(s: seq<nat>, t: seq<nat>)
    requires Distinct(s) && Distinct(t) && forall a: nat | a in t :: a !in s
    ensures Distinct(s + t)
  {
    var u := s + t;
    forall i: nat, j: nat | i < j < |u| ensures u[i] != u[j] {
      if i < |s| <= j { assert t[j - |s|] in t; }
    }
  }

  lemma {:induction false} PoppedStaysSafe(stacked: seq<nat>, out: set<nat>)
    requires HighSafe(Whole(stacked, out)) && stacked != []
    ensures var last := |stacked| - 1;
            HighSafe(Whole(stacked[..last], out + {stacked[last]})) && stacked[last] !in out
  {
    var last := |stacked| - 1;
    assert forall i: nat | i < last :: stacked[..last][i] == stacked[i];
  }

  lemma {:induction false} FreedStaysSafe(stacked: seq<nat>, out: set<nat>, f: nat, n: nat)
    requires HighSafe(Whole(stacked, out)) && HighSpan(f, n) <= out
    ensures HighSafe(Whole(stacked, out - HighSpan(f, n)))
    ensures f >= 4096 && n == 1 ==>
              4096 * f in out && 4096 * f !in stacked && HighSafe(Whole(stacked + [4096 * f], out - {4096 * f}))
  {
    if f >= 4096 && n == 1 {
      assert 4096 * f / 4096 == f && 4096 * f % 4096 == 0;
      assert 4096 * f in HighSpan(f, n);
      DistinctTogether(stacked, [4096 * f]);
    }
  }

  lemma {:induction false} ClearedStaysSafe(stacked: seq<nat>, out: set<nat>, base: nat, size: nat)
    requires HighSafe(Whole(stacked, out)) && forall a: nat | a in ClearedHigh(base, size) :: a !in out
    requires size == 0 || NotStacked(stacked, base / 4096, RegionEnd(base, size))
    ensures HighSafe(Whole(stacked + ClearedHigh(base, size), out))
  {
    var more := ClearedHigh(base, size);
    HighAddressesAre(base / 4096, if size == 0 then 0 else EndBlock(base, size));
    forall a: nat | a in more ensures a !in stacked {
      assert a == 4096 * (a / 4096);
    }
    DistinctTogether(stacked, more);
  }

  lemma {:induction false} HighStaysSafe(st: State, c: Call)
    requires HighSafe(st.high) && Legal(st, c)
    ensures HighSafe(HighAfter(st.w, st.high, c))
    ensures st.high.Whole? ==> GrantedHigh(st, c) !! st.high.out
  {
    if st.high.Whole? {
      var stacked, out := st.high.stacked, st.high.out;
      if Pops(st.w, c) {
        if Poppable(|stacked|) { PoppedStaysSafe(stacked, out); }
      } else if c.Pfree? {
        FreedStaysSafe(stacked, out, c.f, c.n);
      } else if c.ClearRegion? {
        if c.size == 0 || NotStacked(stacked, c.base / 4096, RegionEnd(c.base, c.size)) {
          ClearedStaysSafe(stacked, out, c.base, c.size);
        }
      }
    }
  }

  // Nothing is popped with no entry below the index, and no region is declared free that has a frame on the
  // stack.
  ghost predicate Orderly(st: State, c: Call) {
    st.high.Whole? ==>
      && (Pops(st.w, c) ==> Poppable(|st.high.stacked|))
      && (c.ClearRegion? && c.size != 0 ==> NotStacked(st.high.stacked, c.base / 4096, RegionEnd(c.base, c.size)))
  }

  // The stack keeps its order exactly then.
  lemma {:induction false} StaysWholeExactly(st: State, c: Call)
    requires HighSafe(st.high) && Legal(st, c) && st.high.Whole?
    ensures HighAfter(st.w, st.high, c).Whole? <==> Orderly(st, c)
  {
    if c.Pfree? { FreedStaysSafe(st.high.stacked, st.high.out, c.f, c.n); }
  }

  // ------------------------------------------------------------ one call

  lemma {:induction false} StepKeepsSafe(st: State, c: Call, next: State)
    requires Safe(st) && Legal(st, c) && Steps(st, c, next)
    ensures Safe(next) && Granted(st.w, c) !! st.held && Granted(st.w, c) !! {0, 1, 2}
    ensures st.high.Whole? ==> GrantedHigh(st, c) !! st.high.out
  {
    HighStaysSafe(st, c);
    LowStepKeepsSafe(st, c, next);
  }

  // The frames above 16 MiB the allocator knows of or has handed out.
  ghost function AllHigh(high: High): set<nat> {
    if high.Whole? then high.out + set a: nat | a in high.stacked else {}
  }

  // No frame below 16 MiB is lost by an allocation or a pfree, but for one case: giving back a run that
  // begins with frame 3, which pmalloc may hand out and pfree never takes.
  lemma {:induction false} FramesKeptExactly(st: State, c: Call, next: State)
    requires Safe(st) && Legal(st, c) && Steps(st, c, next) && !c.OfRegion()
    ensures next.held + FreeFrames(next.w) == st.held + FreeFrames(st.w) <==> !c.LosesLow()
  {
    GrantsAreFree(st, c);
    if c.Pfree? && c.n > 0 && c.f < 4 {
      assert c.f in LowSpan(c.f, c.n);
      assert c.f == 3 ==> 3 !in next.held && 3 !in FreeFrames(next.w);
    }
  }

  lemma {:induction false} PopKeepsAll(stacked: seq<nat>, out: set<nat>)
    requires stacked != []
    ensures var last := |stacked| - 1;
            AllHigh(Whole(stacked[..last], out + {stacked[last]})) == AllHigh(Whole(stacked, out))
  {
    var last := |stacked| - 1;
    assert stacked == stacked[..last] + [stacked[last]];
  }

  lemma {:induction false} PushKeepsAll(stacked: seq<nat>, out: set<nat>, a: nat)
    requires a in out
    ensures AllHigh(Whole(stacked + [a], out - {a})) == AllHigh(Whole(stacked, out))
  {
  }

  lemma {:induction false} SpanLost(stacked: seq<nat>, out: set<nat>, f: nat, n: nat)
    requires HighSafe(Whole(stacked, out)) && HighSpan(f, n) <= out
    ensures AllHigh(Whole(stacked, out - HighSpan(f, n))) == AllHigh(Whole(stacked, out)) <==> n == 0 || f + n <= 4096
  {
    if n > 0 && f + n > 4096 {
      var a := 4096 * (f + n - 1);
      assert a % 4096 == 0 && a / 4096 == f + n - 1;
      assert a in HighSpan(f, n) && a in AllHigh(Whole(stacked, out));
      assert a !in AllHigh(Whole(stacked, out - HighSpan(f, n)));
    } else {
      assert HighSpan(f, n) == {};
    }
  }

  // Above 16 MiB a pfree takes back one frame at a time: the frames above of any longer run are lost.
  lemma {:induction false} HighFramesKeptExactly(st: State, c: Call, next: State)
    requires Safe(st) && Legal(st, c) && Steps(st, c, next) && !c.OfRegion() && st.high.Whole? && next.high.Whole?
    ensures AllHigh(next.high) == AllHigh(st.high) <==> !c.LosesHigh()
  {
    var stacked, out := st.high.stacked, st.high.out;
    if Pops(st.w, c) {
      PopKeepsAll(stacked, out);
    } else if c.Pfree? {
      FreedStaysSafe(stacked, out, c.f, c.n);
      if c.f >= 4096 && c.n == 1 { PushKeepsAll(stacked, out, 4096 * c.f); } else { SpanLost(stacked, out, c.f, c.n); }
    }
  }

  // ------------------------------------------------------------ runs

  // The states before, between and after its calls.
  ghost predicate Run(sts: seq<State>, cs: seq<Call>) {
    |sts| == |cs| + 1 && forall i: nat | i < |cs| :: RunStep(sts, cs, i)
  }

  ghost predicate RunStep(sts: seq<State>, cs: seq<Call>, i: nat)
    requires |sts| == |cs| + 1 && i < |cs|
  {
    Takes(sts[i], cs[i], sts[i + 1])
  }

  ghost predicate Takes(st: State, c: Call, next: State) { Legal(st, c) && Steps(st, c, next) }

  // As the first fill leaves it: no frame is free, none is held, none is on the stack.
  ghost predicate AtBoot(st: State) {
    SummarySound(st.w) && FreeFrames(st.w) == {} && st.held == {} && st.high == Whole([], {})
  }

  lemma {:induction false} RunIsSafe(sts: seq<State>, cs: seq<Call>, k: nat)
    requires Run(sts, cs) && (Safe(sts[0]) || AtBoot(sts[0])) && k <= |cs|
    ensures Safe(sts[k])
  {
    if k > 0 {
      RunIsSafe(sts, cs, k - 1);
      assert RunStep(sts, cs, k - 1);
      StepKeepsSafe(sts[k - 1], cs[k - 1], sts[k]);
    }
  }

  lemma {:induction false} StepStaysWhole(st: State, c: Call, next: State)
    requires Safe(st) && Takes(st, c, next) && st.high.Whole? && Orderly(st, c)
    ensures next.high.Whole?
    ensures !c.LosesHigh() && !c.OfRegion() ==> AllHigh(next.high) == AllHigh(st.high)
  {
    StaysWholeExactly(st, c);
    if !c.OfRegion() { HighFramesKeptExactly(st, c, next); }
  }

  lemma {:induction false} RunStaysWhole(sts: seq<State>, cs: seq<Call>, k: nat)
    requires Run(sts, cs) && (Safe(sts[0]) || AtBoot(sts[0])) && sts[0].high.Whole? && k <= |cs|
    requires forall i: nat | i < k :: Orderly(sts[i], cs[i])
    ensures sts[k].high.Whole?
  {
    if k > 0 {
      RunStaysWhole(sts, cs, k - 1);
      RunIsSafe(sts, cs, k - 1);
      assert RunStep(sts, cs, k - 1);
      StepStaysWhole(sts[k - 1], cs[k - 1], sts[k]);
    }
  }

  // Over every run from boot on that gives back only held frames, nothing handed out is still held by
  // anyone, and frames 0 to 2 are never handed out. Above 16 MiB this takes a run that is orderly so far.
  lemma {:induction false} NeverHandedOutTwice(sts: seq<State>, cs: seq<Call>, k: nat)
    requires Run(sts, cs) && AtBoot(sts[0]) && k < |cs|
    ensures Granted(sts[k].w, cs[k]) !! sts[k].held && Granted(sts[k].w, cs[k]) !! {0, 1, 2}
    ensures (forall i: nat | i < k :: Orderly(sts[i], cs[i])) ==>
              sts[k].high.Whole? && GrantedHigh(sts[k], cs[k]) !! sts[k].high.out
  {
    RunIsSafe(sts, cs, k);
    assert RunStep(sts, cs, k);
    StepKeepsSafe(sts[k], cs[k], sts[k + 1]);
    if forall i: nat | i < k :: Orderly(sts[i], cs[i]) { RunStaysWhole(sts, cs, k); }
  }

  // Every frame below 16 MiB is free or held all along a run of allocations and pfrees that never gives back
  // a run beginning with frame 3.
  lemma {:induction false} NothingLostOverRuns(sts: seq<State>, cs: seq<Call>, k: nat)
    requires Run(sts, cs) && Safe(sts[0]) && k <= |cs|
    requires forall i: nat | i < |cs| :: !cs[i].LosesLow() && !cs[i].OfRegion()
    ensures sts[k].held + FreeFrames(sts[k].w) == sts[0].held + FreeFrames(sts[0].w)
  {
    if k > 0 {
      NothingLostOverRuns(sts, cs, k - 1);
      RunIsSafe(sts, cs, k - 1);
      assert RunStep(sts, cs, k - 1);
      FramesKeptExactly(sts[k - 1], cs[k - 1], sts[k]);
    }
  }

  // Every frame above is on the stack or out all along an orderly run that gives back frames above one at a
  // time.
  lemma {:induction false} NoHighFrameLostOverRuns(sts: seq<State>, cs: seq<Call>, k: nat)
    requires Run(sts, cs) && Safe(sts[0]) && sts[0].high.Whole? && k <= |cs|
    requires forall i: nat | i < |cs| :: Orderly(sts[i], cs[i]) && !cs[i].LosesHigh() && !cs[i].OfRegion()
    ensures sts[k].high.Whole? && AllHigh(sts[k].high) == AllHigh(sts[0].high)
  {
    if k > 0 {
      NoHighFrameLostOverRuns(sts, cs, k - 1);
      RunIsSafe(sts, cs, k - 1);
      assert RunStep(sts, cs, k - 1);
      StepStaysWhole(sts[k - 1], cs[k - 1], sts[k]);
    }
  }

  // ------------------------------------------------------------ runs that lose frames

  // All frames taken and marked, then frame 3 declared free: pmalloc hands it out, pfree of it is legal,
  // and afterwards it is neither free nor held.
  lemma {:induction false} FrameThreeIsLost(all: Page)
    requires forall k: nat | k < 136 :: Full(all[k])
    ensures var w, high := ClearBit(all, 3), Whole([], {});
            var sts := [State(w, {}, high), State(SetBit(w, 3), {3}, high), State(SetBit(w, 3), {}, high)];
            && Safe(sts[0]) && FreeFrames(w) == {3} && Run(sts, [Pmalloc, Pfree(3, 1)])
            && sts[2].held + FreeFrames(sts[2].w) == {}
  {
    AllFullIsSound(all);
    ClearKeepsSummary(all, 3);
    ClearFreesOne(all, 3);
    var w, high := ClearBit(all, 3), Whole([], {});
    SetKeepsSummary(w, 3);
    SetTakesOne(w, 3);
    assert FreeFrames(all) == {};
    FoundThree(w);
    var sts := [State(w, {}, high), State(SetBit(w, 3), {3}, high), State(SetBit(w, 3), {}, high)];
    assert Span(3, 0) == {} && LowSpan(3, 1) == {3} && HighSpan(3, 1) == {};
    RunOfTwo(sts, Pmalloc, Pfree(3, 1));
  }

  lemma {:induction false} RunOfTwo(sts: seq<State>, c: Call, d: Call)
    requires |sts| == 3 && Takes(sts[0], c, sts[1]) && Takes(sts[1], d, sts[2])
    ensures Run(sts, [c, d])
  {
  }

  lemma {:induction false} FoundThree(w: Page)
    requires SummarySound(w) && FreeFrames(w) == {3}
    ensures Search(w, PLAIN) == 3
  {
    SearchInRange(w, PLAIN);
    SearchIsLowest(w, PLAIN);
    assert Search(w, PLAIN) in FreeFrames(w);
  }

  lemma {:induction false} NothingFound(w: Page, flags: Flags)
    requires FreeFrames(w) == {}
    ensures Search(w, flags) == -1
  {
    SearchInRange(w, flags);
    assert Search(w, flags) != -1 ==> Search(w, flags) in FreeFrames(w);
  }

  // The addresses of frames 0x1000 to 0x1000 + n - 1.
  function From16M(n: nat): (s: seq<nat>)
    ensures |s| == n
  {
    seq(n, i => 4096 * (0x1000 + i))
  }

  lemma {:induction false} RegionAt16M(n: nat)
    requires n < 0x1000
    ensures ClearedHigh(BASE_16M, 4096 * n) == From16M(n) && Cleared({}, BASE_16M, 4096 * n) == {}
    ensures n > 0 ==> RegionEnd(BASE_16M, 4096 * n) == 0x1000 + n
  {
    if n > 0 {
      assert (BASE_16M + 4096 * n + 0xFFF) / 4096 == 0x1000 + n;
      BlocksFrom16M(n);
    }
  }

  lemma {:induction false} BlocksFrom16M(n: nat)
    ensures HighAddresses(0x1000, 0x1000 + n) == From16M(n)
  {
    if n > 0 {
      BlocksFrom16M(n - 1);
      assert From16M(n) == From16M(n - 1) + [4096 * (0x1000 + n - 1)];
    }
  }

  // The state with frames on the stack and out, and nothing below 16 MiB.
  ghost function HighOnly(w: Page, stacked: seq<nat>, out: set<nat>): State { State(w, {}, Whole(stacked, out)) }

  lemma {:induction false} RegionStep(w: Page, n: nat)
    requires SummarySound(w) && FreeFrames(w) == {} && 0 < n < 0x1000
    ensures var st, c := HighOnly(w, [], {}), ClearRegion(BASE_16M, 4096 * n);
            Takes(st, c, HighOnly(w, From16M(n), {}))
  {
    RegionAt16M(n);
    assert [] + From16M(n) == From16M(n);
  }

  lemma {:induction false} PopStep(w: Page, stacked: seq<nat>, out: set<nat>)
    requires SummarySound(w) && FreeFrames(w) == {} && Poppable(|stacked|)
    ensures var st, last := HighOnly(w, stacked, out), |stacked| - 1;
            Takes(st, Pmalloc, HighOnly(w, stacked[..last], out + {stacked[last]}))
  {
    NothingFound(w, PLAIN);
  }

  lemma {:induction false} PairStep(w: Page, stacked: seq<nat>, f: nat)
    requires SummarySound(w) && FreeFrames(w) == {} && 0x1000 <= f < 0x100000
    ensures var st, c := HighOnly(w, stacked, {4096 * f, 4096 * (f + 1)}), Pfree(f, 2);
            Takes(st, c, HighOnly(w, stacked, {}))
  {
    var out := {4096 * f, 4096 * (f + 1)};
    forall a: nat ensures a in HighSpan(f, 2) <==> a in out {
      assert a % 4096 == 0 ==> a == 4096 * (a / 4096);
    }
    assert LowSpan(f, 2) == {};
    assert HighSpan(f, 2) == out && out - out == {};
  }

  // From boot: a region of 5 frames at 16 MiB declared free, two frames of it handed out by pmalloc and given
  // back as one run of two. They are neither on the stack nor held any more.
  lemma {:induction false} HighPairIsLost(w: Page)
    requires SummarySound(w) && FreeFrames(w) == {}
    ensures var s := From16M(5);
            && AtBoot(HighOnly(w, [], {}))
            && Takes(HighOnly(w, [], {}), ClearRegion(BASE_16M, 0x5000), HighOnly(w, s, {}))
            && Takes(HighOnly(w, s, {}), Pmalloc, HighOnly(w, s[..4], {s[4]}))
            && Takes(HighOnly(w, s[..4], {s[4]}), Pmalloc, HighOnly(w, s[..3], {s[3], s[4]}))
            && Takes(HighOnly(w, s[..3], {s[3], s[4]}), Pfree(0x1003, 2), HighOnly(w, s[..3], {}))
  {
    RegionStep(w, 5);
    PopPair(w, From16M(5));
    PairStep(w, From16M(5)[..3], 0x1003);
  }

  lemma {:induction false} PopPair(w: Page, s: seq<nat>)
    requires SummarySound(w) && FreeFrames(w) == {} && |s| == 5
    ensures Takes(HighOnly(w, s, {}), Pmalloc, HighOnly(w, s[..4], {s[4]}))
    ensures Takes(HighOnly(w, s[..4], {s[4]}), Pmalloc, HighOnly(w, s[..3], {s[3], s[4]}))
  {
    PopStep(w, s, {});
    PopStep(w, s[..4], {s[4]});
    assert {} + {s[4]} == {s[4]} && s[..4][..3] == s[..3] && {s[4]} + {s[3]} == {s[3], s[4]};
  }

  // ------------------------------------------------------------ the allocator takes no other steps

  method Boot() returns (p: Pmm, ghost st: State)
    ensures p.Valid() && p.Poised() && fresh(p) && fresh(p.bitmap) && fresh(p.bitmap.words) && fresh(p.stack)
    ensures Shows(p, st) && AtBoot(st) && Safe(st)
  {
    p := new Pmm();
    ghost var w: Page := p.bitmap.words[..];
    st := State(w, {}, Whole([], {}));
  }

  // The state as the allocator has it in memory.
  ghost predicate Shows(p: Pmm, st: State)
    reads p, p.bitmap, p.bitmap.words, p.stack
  {
    && p.Usable() && st.w == p.bitmap.words[..]
    && (st.high.Whole? ==> p.stack.Valid() && p.stack.Frames() == st.high.stacked)
  }

  // An allocation can fall back on the frame stack once any frame was pushed.
  ghost predicate Servable(p: Pmm, c: Call)
    reads p, p.bitmap, p.bitmap.words, p.stack
  {
    c.Allocates() ==> p.Ready() && (Pops(p.bitmap.words[..], c) ==> p.stack.stack32 != 0)
  }

  // The pointer returned is the first of the frames granted, or the one popped off the stack.
  ghost predicate Answers(addr: nat, granted: set<nat>, popped: set<nat>) {
    && (granted != {} ==>
          addr % 4096 == 0 && addr / 4096 in granted && forall f: nat | f in granted :: addr / 4096 <= f)
    && (popped != {} ==> popped == {addr})
  }

  lemma {:induction false} GrantedIs(st: State, c: Call)
    requires c.Allocates() && SummarySound(st.w)
    ensures var r, flags := Search(st.w, FlagsOf(c)), FlagsOf(c);
            if r == -1 then Granted(st.w, c) == {} && Pops(st.w, c)
            else
              && r >= 0 && !Pops(st.w, c) && r in Granted(st.w, c) && (forall f: nat | f in Granted(st.w, c) :: r <= f)
              && Granted(st.w, c) == {r} + Span(r, if flags.contiguous then flags.pageAllocNum else 0)
  {
    SearchInRange(st.w, FlagsOf(c));
  }

  lemma {:induction false} FirstAnswers(r: nat, granted: set<nat>)
    requires r in granted && forall f: nat | f in granted :: r <= f
    ensures Answers(4096 * r, granted, {})
  {
    assert 4096 * r / 4096 == r && 4096 * r % 4096 == 0;
  }

  method Allocate(p: Pmm, c: Call, ghost st: State) returns (addr: nat)
    requires c.Allocates() && Servable(p, c) && Shows(p, st)
    modifies p.bitmap.words, p.stack
    ensures p.Ready() && p.Free() == old(p.Free()) - Granted(st.w, c)
    ensures Answers(addr, Granted(st.w, c), GrantedHigh(st, c))
    ensures HighShown(p, HighAfter(st.w, st.high, c))
    ensures old(p.Poised() && (Pops(st.w, c) ==> p.stack.index > 0)) ==> p.Poised()
    ensures old(p.stack.stack32) != 0 ==> p.stack.stack32 != 0
  {
    GrantedIs(st, c);
    var flags := if c.Kpmalloc? then c.flags else PLAIN;
    addr := p.Kpmalloc(flags);
    if !Pops(st.w, c) {
      FirstAnswers(Search(st.w, flags), Granted(st.w, c));
    } else if st.high.Whole? && Poppable(|st.high.stacked|) {
      assert p.stack.Frames() == st.high.stacked[..|st.high.stacked| - 1];
    }
  }

  ghost predicate HighShown(p: Pmm, high: High)
    reads p, p.bitmap, p.bitmap.words, p.stack
  {
    high.Whole? ==> p.stack.Valid() && p.stack.Frames() == high.stacked
  }

  // The calls that hand out nothing.
  method Change(p: Pmm, c: Call, ghost st: State)
    requires Shows(p, st) && HighSafe(st.high) && Legal(st, c) && !c.Allocates()
    modifies p.bitmap.words, p.stack
    ensures p.Usable() && p.Free() == FreeAfter(st.w, c)
    ensures HighShown(p, HighAfter(st.w, st.high, c))
    ensures old(p.Poised()) ==> p.Poised()
    ensures old(p.stack.stack32) != 0 ==> p.stack.stack32 != 0
  {
    match c {
      case Pfree(f, n) => GiveBack(p, c, st);
      case ClearRegion(base, size) => ClearFrames(p, c, st);
      case SetRegion(base, size) => p.SetRegion(base, size);
      case _ =>
    }
  }

  method GiveBack(p: Pmm, c: Call, ghost st: State)
    requires Shows(p, st) && HighSafe(st.high) && Legal(st, c) && c.Pfree?
    modifies p.bitmap.words, p.stack
    ensures p.Usable() && p.Free() == FreeAfter(st.w, c)
    ensures HighShown(p, HighAfter(st.w, st.high, c))
    ensures old(p.Poised()) ==> p.Poised()
    ensures old(p.stack.stack32) != 0 ==> p.stack.stack32 != 0
  {
    if st.high.Whole? && c.f >= 4096 && c.n == 1 {
      FreedStaysSafe(st.high.stacked, st.high.out, c.f, c.n);
      PushedIsNew(p.stack.Value(), p.stack.chain, 4096 * c.f);
    }
    p.Pfree(4096 * c.f, c.n);
  }

  method ClearFrames(p: Pmm, c: Call, ghost st: State)
    requires Shows(p, st) && Legal(st, c) && c.ClearRegion?
    modifies p.bitmap.words, p.stack
    ensures p.Usable() && p.Free() == FreeAfter(st.w, c)
    ensures HighShown(p, HighAfter(st.w, st.high, c))
    ensures old(p.Poised()) ==> p.Poised()
    ensures old(p.stack.stack32) != 0 ==> p.stack.stack32 != 0
  {
    p.ClearRegion(c.base, c.size);
  }

  method Perform(p: Pmm, c: Call, ghost st: State) returns (addr: nat, ghost next: State)
    requires Shows(p, st) && Safe(st) && Legal(st, c) && Servable(p, c)
    modifies p.bitmap.words, p.stack
    ensures Shows(p, next) && Steps(st, c, next) && Safe(next)
    ensures Answers(addr, Granted(st.w, c), GrantedHigh(st, c))
    ensures c.Allocates() ==> p.Ready()
    ensures old(p.Poised() && (Pops(st.w, c) ==> p.stack.index > 0)) ==> p.Poised()
    ensures old(p.stack.stack32) != 0 ==> p.stack.stack32 != 0
  {
    addr := 0;
    if c.Allocates() {
      addr := Allocate(p, c, st);
    } else {
      Change(p, c, st);
    }
    ghost var w: Page := p.bitmap.words[..];
    next := State(w, st.held + Granted(st.w, c) - GivenBack(c), HighAfter(st.w, st.high, c));
    StepKeepsSafe(st, c, next);
  }

  // A new allocator, and n frames from 16 MiB on declared free.
  method BootWith(n: nat) returns (p: Pmm)
    requires 0 < n < 0x1000
    ensures fresh(p) && fresh(p.bitmap) && fresh(p.bitmap.words) && fresh(p.stack)
    ensures p.Valid() && p.Free() == {} && p.stack.Frames() == From16M(n)
  {
    p := new Pmm();
    RegionAt16M(n);
    p.ClearRegion(BASE_16M, 4096 * n);
  }

  // With nothing free in the bitmap a request for any number of frames in a row gets one frame, the last one
  // on the stack: here the third of three.
  method OneFrameForMany(flags: Flags) returns (p: Pmm, addr: nat)
    requires flags.contiguous && flags.pageAllocNum >= 2
    ensures fresh(p) && p.Valid() && p.Free() == {} && addr == 0x1002000 && p.stack.Frames() == [0x1000000, 0x1001000]
  {
    p := BootWith(3);
    NothingFound(p.bitmap.words[..], flags);
    addr := p.Kpmalloc(flags);
    LastOfThree(p.stack.Frames(), addr);
  }

  lemma {:induction false} LastOfThree(rest: seq<nat>, last: nat)
    requires From16M(3) == rest + [last]
    ensures rest == [0x1000000, 0x1001000] && last == 0x1002000
  {
    assert From16M(3)[2] == (rest + [last])[2];
    assert rest == From16M(3)[..2];
  }
}
